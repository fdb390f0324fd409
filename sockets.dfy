/**
 * A connected TCP socket as the Python clients see it: `sendall` appends to
 * what has been sent, and `recv(n)` returns at most `n` bytes of the segment
 * at the front of what the peer has sent, or an empty result once the peer
 * has closed and everything has been read. Any fragmentation of the stream
 * is one choice of `incoming`.
 */
module Sockets {
  import opened Utf8

  /** The segments one after another: the byte stream still to be read. */
  function Flatten(segs: seq<seq<byte>>): seq<byte> {
    if segs == [] then [] else segs[0] + Flatten(segs[1..])
  }

  /** What one `recv(n)` takes of the segment at the front: all of it when it fits, its first `n` bytes otherwise. */
  function RecvPart(seg: seq<byte>, n: nat): (r: seq<byte>)
    ensures |r| <= n && (|seg| <= n <==> r == seg)
  {
    if |seg| <= n then seg else seg[..n]
  }

  class Socket {
    /** Every byte `sendall` has written, in order. */
    var sent: seq<byte>
    /** The segments still to be delivered; the peer closes after the last. */
    var incoming: seq<seq<byte>>

    /** TCP delivers no empty segment: an empty `recv` means the peer has closed. */
    ghost predicate Valid()
      reads this
    {
      forall i | 0 <= i < |incoming| :: incoming[i] != []
    }

    constructor (incoming: seq<seq<byte>>)
      requires forall i | 0 <= i < |incoming| :: incoming[i] != []
      ensures Valid() && sent == [] && this.incoming == incoming
    {
      sent := [];
      this.incoming := incoming;
    }

    /** `sock.sendall(data)`. */
    method SendAll(data: seq<byte>)
      modifies this`sent
      ensures sent == old(sent) + data
    {
      sent := sent + data;
    }

    /**
     * `sock.recv(n)`: a non-empty prefix of the stream of at most `n`
     * bytes, or nothing when the stream is exhausted.
     */
    method Recv(n: nat) returns (r: seq<byte>)
      requires Valid()
      modifies this`incoming
      ensures Valid()
      ensures |r| <= n && |r| <= |old(Flatten(incoming))| && r == old(Flatten(incoming))[..|r|]
      ensures Flatten(incoming) == old(Flatten(incoming))[|r|..]
      ensures old(Flatten(incoming)) == r + Flatten(incoming)
      ensures n > 0 ==> (r == [] <==> old(Flatten(incoming)) == [])
      ensures old(incoming) != [] ==> r == RecvPart(old(incoming)[0], n)
    {
      if incoming == [] || n == 0 {
        r := [];
        return;
      }
      var seg := incoming[0];
      if |seg| <= n {
        r := seg;
        incoming := incoming[1..];
      } else {
        r := seg[..n];
        incoming := [seg[n..]] + incoming[1..];
        assert Flatten(incoming) == seg[n..] + Flatten(old(incoming)[1..]);
      }
    }
  }
}
