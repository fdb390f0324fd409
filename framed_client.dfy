/**
 * The length-prefixed client of the titan_sdk library. Every command is
 * sent as one frame: the 4-byte big-endian unsigned length of its UTF-8
 * bytes (`struct.pack('>I', ...)`), then the bytes. The reply is read the
 * same way with `_recv_all`, which keeps calling `recv` until it has the
 * bytes it wants or the peer closes.
 */
module FramedClient {
  import opened Wrappers
  import opened Utf8
  import Sockets

  const Two32: int := 0x1_0000_0000

  // ---------------------------------------------------------------------------
  // The 4-byte header

  /** `struct.pack('>I', n)`: None where it raises `struct.error` (n does not fit in 32 bits). */
  function Pack32(n: nat): (r: Option<seq<byte>>)
    ensures r.Some? <==> n < Two32
    ensures r.Some? ==> |r.value| == 4
  {
    if n < Two32 then Some([n / 0x100_0000, (n / 0x1_0000) % 0x100, (n / 0x100) % 0x100, n % 0x100])
    else None
  }

  /** `struct.unpack('>I', b)[0]`. */
  function Unpack32(b: seq<byte>): (n: nat)
    requires |b| == 4
    ensures n < Two32
  {
    var b0: int, b1: int, b2: int, b3: int := b[0], b[1], b[2], b[3];
    ((b0 * 0x100 + b1) * 0x100 + b2) * 0x100 + b3
  }

  lemma Div256(n: int, hi: int, lo: int)
    requires n == hi * 0x100 + lo && 0 <= lo < 0x100
    ensures n / 0x100 == hi && n % 0x100 == lo
  {
  }

  /** Unpacking a packed length gives the length back. */
  lemma UnpackPack(n: nat)
    requires n < Two32
    ensures Unpack32(Pack32(n).value) == n
  {
    var q1 := n / 0x100;
    var q2 := q1 / 0x100;
    assert n / 0x1_0000 == q2;
    assert n / 0x100_0000 == q2 / 0x100;
  }

  /** Packing an unpacked header gives the header back: every 4-byte header is some length. */
  lemma PackUnpack(b: seq<byte>)
    requires |b| == 4
    ensures Pack32(Unpack32(b)) == Some(b)
  {
    var b0: int, b1: int, b2: int, b3: int := b[0], b[1], b[2], b[3];
    var n := Unpack32(b);
    var q1 := (b0 * 0x100 + b1) * 0x100 + b2;
    var q2 := b0 * 0x100 + b1;
    Div256(n, q1, b3);
    Div256(q1, q2, b2);
    Div256(q2, b0, b1);
    assert n / 0x1_0000 == q2;
    assert n / 0x100_0000 == b0;
    assert [b[0], b[1], b[2], b[3]] == b;
  }

  // ---------------------------------------------------------------------------
  // Frames

  /** The bytes `_send_receive` writes for `payload`. */
  function Frame(payload: seq<byte>): (r: Option<seq<byte>>)
    ensures r.Some? <==> |payload| < Two32
    ensures r.Some? ==> |r.value| == 4 + |payload| && r.value[4..] == payload
  {
    match Pack32(|payload|)
    case None => None
    case Some(h) => Some(h + payload)
  }

  /** Why `_send_receive` raises. */
  datatype Error =
    | StructError          // the command is too long for a 32-bit length
    | AttributeError       // the peer closed inside a payload: `None.decode`
    | UnicodeDecodeError   // the payload is not UTF-8

  /**
   * What `_send_receive` reads from the reply stream `s`, and what is left
   * of it. Success(None) is the short header; a short payload raises.
   */
  function ReadReply(s: seq<byte>): (r: (Result<Option<string>, Error>, seq<byte>))
    ensures r.0.Success? && r.0.value.Some? ==>
      |s| >= 4 && 4 + Unpack32(s[..4]) <= |s| && Decode(s[4..4 + Unpack32(s[..4])]) == Some(r.0.value.value)
  {
    if |s| < 4 then (Success(None), [])
    else
      var len := Unpack32(s[..4]);
      var rest := s[4..];
      if |rest| < len then (Failure(AttributeError), [])
      else
        match Decode(rest[..len])
        case None => (Failure(UnicodeDecodeError), rest[len..])
        case Some(t) =>
          assert rest[..len] == s[4..4 + len];
          (Success(Some(t)), rest[len..])
  }

  /** A whole reply frame of UTF-8 text, followed by anything, is read as that text and leaves what follows. */
  lemma ReadFrame(t: string, more: seq<byte>)
    requires |Encode(t)| < Two32
    ensures ReadReply(Frame(Encode(t)).value + more) == (Success(Some(t)), more)
  {
    var p := Encode(t);
    var s := Frame(p).value + more;
    UnpackPack(|p|);
    assert s[..4] == Pack32(|p|).value;
    assert s[4..][..|p|] == p;
    assert s[4..][|p|..] == more;
    DecodeEncode(t);
  }

  /** A stream that ends before four bytes is the silent None of `if not resp_header`. */
  lemma ShortHeaderIsNone(s: seq<byte>)
    requires |s| < 4
    ensures ReadReply(s) == (Success(None), [])
  {
  }

  /** A payload cut short by the peer raises instead of returning None. */
  lemma TruncatedPayloadRaises(header: seq<byte>, part: seq<byte>)
    requires |header| == 4 && |part| < Unpack32(header)
    ensures ReadReply(header + part) == (Failure(AttributeError), [])
  {
    assert (header + part)[..4] == header;
    assert (header + part)[4..] == part;
  }

  // ---------------------------------------------------------------------------
  // Commands

  function CheckCommand(key: string): string { "CHECK:" + key }
  function EnqueueCommand(key: string, sequence: string): string { "ENQUEUE:" + key + ":" + sequence }
  function StatusCommand(key: string): string { "STATUS:" + key }
  const Handshake := "VERSION:1.0"

  /** A key holding ':' makes the ENQUEUE command ambiguous: two different (key, sequence) pairs send the same bytes. */
  lemma EnqueueAmbiguous()
    ensures ("a", "b:c") != ("a:b", "c") && EnqueueCommand("a", "b:c") == EnqueueCommand("a:b", "c")
  {
  }

  class TitanClient {
    /** The connected socket `__enter__` opens. */
    const sock: Sockets.Socket

    constructor (sock: Sockets.Socket)
      ensures this.sock == sock
    {
      this.sock := sock;
    }

    /**
     * `_recv_all(n)`: exactly the next `n` bytes of the stream, or None
     * (with the stream used up) when the peer closes before they arrive.
     */
    method RecvAll(n: nat) returns (r: Option<seq<byte>>)
      requires sock.Valid()
      modifies sock
      ensures sock.Valid() && sock.sent == old(sock.sent)
      ensures var s := old(Sockets.Flatten(sock.incoming));
        if |s| >= n then r == Some(s[..n]) && Sockets.Flatten(sock.incoming) == s[n..]
        else r == None && Sockets.Flatten(sock.incoming) == []
    {
      ghost var s := Sockets.Flatten(sock.incoming);
      var data: seq<byte> := [];
      while |data| < n
        invariant sock.Valid() && sock.sent == old(sock.sent)
        invariant |data| <= n && |data| <= |s| && data == s[..|data|]
        invariant Sockets.Flatten(sock.incoming) == s[|data|..]
        decreases n - |data|
      {
        var packet := sock.Recv(n - |data|);
        if packet == [] {
          return None;
        }
        assert s[..|data| + |packet|] == data + packet;
        data := data + packet;
      }
      r := Some(data);
    }

    /**
     * `_send_receive(cmd)`: one frame out, one frame back. An oversize
     * command raises before anything is sent.
     */
    method SendReceive(cmd: string) returns (r: Result<Option<string>, Error>)
      requires sock.Valid()
      modifies sock
      ensures sock.Valid()
      ensures var s := old(Sockets.Flatten(sock.incoming));
        match Frame(Encode(cmd))
        case None => r == Failure(StructError) && sock.sent == old(sock.sent) && Sockets.Flatten(sock.incoming) == s
        case Some(f) => sock.sent == old(sock.sent) + f && (r, Sockets.Flatten(sock.incoming)) == ReadReply(s)
    {
      var msg := Encode(cmd);
      var header := Pack32(|msg|);
      if header.None? {
        return Failure(StructError);
      }
      sock.SendAll(header.value + msg);
      ghost var s := Sockets.Flatten(sock.incoming);
      var respHeader := RecvAll(4);
      if respHeader.None? {
        return Success(None);
      }
      var respLen := Unpack32(respHeader.value);
      var data := RecvAll(respLen);
      if data.None? {
        return Failure(AttributeError);
      }
      assert data.value == s[4..][..respLen];
      assert Sockets.Flatten(sock.incoming) == s[4..][respLen..];
      var text := Decode(data.value);
      if text.None? {
        return Failure(UnicodeDecodeError);
      }
      r := Success(text);
    }

    /** `check(key)`: the synchronous L1 lookup. */
    method Check(key: string) returns (r: Result<Option<string>, Error>)
      requires sock.Valid()
      modifies sock
      ensures sock.Valid()
      ensures |Encode(CheckCommand(key))| < Two32 ==>
        sock.sent == old(sock.sent) + Frame(Encode(CheckCommand(key))).value
        && (r, Sockets.Flatten(sock.incoming)) == ReadReply(old(Sockets.Flatten(sock.incoming)))
    {
      r := SendReceive(CheckCommand(key));
    }

    /** `enqueue(key, sequence)`: registers a task. */
    method Enqueue(key: string, sequence: string) returns (r: Result<Option<string>, Error>)
      requires sock.Valid()
      modifies sock
      ensures sock.Valid()
      ensures |Encode(EnqueueCommand(key, sequence))| < Two32 ==>
        sock.sent == old(sock.sent) + Frame(Encode(EnqueueCommand(key, sequence))).value
        && (r, Sockets.Flatten(sock.incoming)) == ReadReply(old(Sockets.Flatten(sock.incoming)))
    {
      r := SendReceive(EnqueueCommand(key, sequence));
    }

    /** `status(key)`: the task's current state. */
    method Status(key: string) returns (r: Result<Option<string>, Error>)
      requires sock.Valid()
      modifies sock
      ensures sock.Valid()
      ensures |Encode(StatusCommand(key))| < Two32 ==>
        sock.sent == old(sock.sent) + Frame(Encode(StatusCommand(key))).value
        && (r, Sockets.Flatten(sock.incoming)) == ReadReply(old(Sockets.Flatten(sock.incoming)))
    {
      r := SendReceive(StatusCommand(key));
    }

    /**
     * The handshake of `__enter__`: the VERSION frame is exchanged and its
     * reply dropped; only an exception, if any, comes out.
     */
    method Enter() returns (failure: Option<Error>)
      requires sock.Valid()
      modifies sock
      ensures sock.Valid()
      ensures var (reply, rest) := ReadReply(old(Sockets.Flatten(sock.incoming)));
        && sock.sent == old(sock.sent) + Frame(Encode(Handshake)).value
        && Sockets.Flatten(sock.incoming) == rest
        && failure == (if reply.Failure? then Some(reply.error) else None)
    {
      EncodeLength(Handshake);
      var r := SendReceive(Handshake);
      failure := if r.Failure? then Some(r.error) else None;
    }
  }
}
