/**
 * The text-protocol client of the titan-sdk library: `set` and `get` each
 * write one command line and take the reply from a single `recv` of at most
 * 1024 or 4096 bytes, decoded as UTF-8 and stripped of surrounding
 * whitespace.
 */
module LineClient {
  import opened Wrappers
  import opened Utf8
  import Text
  import Sockets
  import LruModel
  import LineServer

  /** The command line `set` sends. */
  function SetRequest(key: string, value: string): string {
    "SET " + key + " " + value + "\n"
  }

  /** The command line `get` sends. */
  function GetRequest(key: string): string {
    "GET " + key + "\n"
  }

  const SetReplyLimit: nat := 1024
  const GetReplyLimit: nat := 4096

  /** `recv(...).decode().strip()`: None where `decode` raises `UnicodeDecodeError`. */
  function ReplyText(b: seq<byte>): (r: Option<string>)
    ensures r.Some? <==> Decode(b).Some?
    ensures r.Some? ==> r.value == Text.Strip(Decode(b).value)
  {
    match Decode(b)
    case None => None
    case Some(s) => Some(Text.Strip(s))
  }

  class TitanClient {
    /** The connected socket `__enter__` opens. */
    const sock: Sockets.Socket

    constructor (sock: Sockets.Socket)
      ensures this.sock == sock
    {
      this.sock := sock;
    }

    /**
     * `set(key, value)`: sends the SET line, then one `recv(1024)`. `got`
     * is the prefix of the reply stream that this `recv` took.
     */
    method Set(key: string, value: string) returns (r: Option<string>, ghost got: seq<byte>)
      requires sock.Valid()
      modifies sock
      ensures sock.Valid()
      ensures sock.sent == old(sock.sent) + Encode(SetRequest(key, value))
      ensures |got| <= SetReplyLimit && old(Sockets.Flatten(sock.incoming)) == got + Sockets.Flatten(sock.incoming)
      ensures got == [] <==> old(Sockets.Flatten(sock.incoming)) == []
      ensures old(sock.incoming) != [] ==> got == Sockets.RecvPart(old(sock.incoming)[0], SetReplyLimit)
      ensures r == ReplyText(got)
    {
      sock.SendAll(Encode(SetRequest(key, value)));
      var data := sock.Recv(SetReplyLimit);
      got := data;
      r := ReplyText(data);
    }

    /** `get(key)`: sends the GET line, then one `recv(4096)`. */
    method Get(key: string) returns (r: Option<string>, ghost got: seq<byte>)
      requires sock.Valid()
      modifies sock
      ensures sock.Valid()
      ensures sock.sent == old(sock.sent) + Encode(GetRequest(key))
      ensures |got| <= GetReplyLimit && old(Sockets.Flatten(sock.incoming)) == got + Sockets.Flatten(sock.incoming)
      ensures got == [] <==> old(Sockets.Flatten(sock.incoming)) == []
      ensures old(sock.incoming) != [] ==> got == Sockets.RecvPart(old(sock.incoming)[0], GetReplyLimit)
      ensures r == ReplyText(got)
    {
      sock.SendAll(Encode(GetRequest(key)));
      var data := sock.Recv(GetReplyLimit);
      got := data;
      r := ReplyText(data);
    }
  }

  // ---------------------------------------------------------------------------
  // The client's lines as the server reads them

  /** A key the server reads back unchanged: no space, no line terminator. */
  predicate PlainKey(key: string) {
    ' ' !in key && LineServer.NoBreak(key)
  }

  lemma OneLine(l: string)
    requires LineServer.NoBreak(l)
    ensures LineServer.ReadLines(l + "\n") == [l]
  {
    LineServer.ReadLinesFirst(l, "");
    assert l + "\n" + "" == l + "\n";
  }

  lemma NoBreakJoin(a: string, b: string)
    requires LineServer.NoBreak(a) && LineServer.NoBreak(b)
    ensures LineServer.NoBreak(a + b)
  {
    forall i | 0 <= i < |a + b| ensures !LineServer.IsBreak((a + b)[i]) {
      if i < |a| {
        LineServer.NoBreakAt(a, i);
      } else {
        LineServer.NoBreakAt(b, i - |a|);
      }
    }
  }

  /** The SET line `set` writes, without its terminator, has none inside it. */
  lemma SetLineNoBreak(key: string, value: string)
    requires PlainKey(key) && LineServer.NoBreak(value)
    ensures LineServer.NoBreak("SET " + key + " " + value)
  {
    NoBreakJoin("SET ", key);
    NoBreakJoin("SET " + key, " ");
    NoBreakJoin("SET " + key + " ", value);
  }

  /**
   * For a plain key and a value without line terminators (spaces allowed),
   * the server decodes `set`'s bytes into exactly one line, which parses to
   * a SET of that key and value.
   */
  lemma SetRoundTrip(key: string, value: string)
    requires PlainKey(key) && LineServer.NoBreak(value)
    ensures Decode(Encode(SetRequest(key, value))) == Some(SetRequest(key, value))
    ensures LineServer.ReadLines(SetRequest(key, value)) == ["SET " + key + " " + value]
    ensures LineServer.Parse("SET " + key + " " + value) == LineServer.Set(key, value)
  {
    DecodeEncode(SetRequest(key, value));
    var line := "SET " + key + " " + value;
    SetLineNoBreak(key, value);
    OneLine(line);
    LineServer.ParseSetLine(key, value);
  }

  /** For a plain key the server decodes `get`'s bytes into one line that parses to a GET of that key. */
  lemma GetRoundTrip(key: string)
    requires PlainKey(key)
    ensures Decode(Encode(GetRequest(key))) == Some(GetRequest(key))
    ensures LineServer.ReadLines(GetRequest(key)) == ["GET " + key]
    ensures LineServer.Parse("GET " + key) == LineServer.Get(key)
  {
    DecodeEncode(GetRequest(key));
    NoBreakJoin("GET ", key);
    OneLine("GET " + key);
    LineServer.ParseGetLine(key);
  }

  /** A reply line read whole comes back as the client's result, for text with no surrounding whitespace. */
  lemma ReplyRoundTrip(t: string)
    requires Text.Trimmed(t)
    ensures ReplyText(Encode(LineServer.Terminated([t]))) == Some(t)
  {
    assert LineServer.Terminated([t]) == t + "\n";
    DecodeEncode(t + "\n");
    Text.StripTrailing(t, "\n");
  }

  /**
   * A reply line that arrives as one segment and whose text fits in one
   * `recv(limit)` comes back whole: the client returns the text, for text
   * with no surrounding whitespace. At exactly `limit` bytes only the `\n`
   * is left behind, which `strip` would have removed anyway.
   */
  lemma ReplyFits(t: string, limit: nat)
    requires Text.Trimmed(t) && |Encode(t)| <= limit
    ensures ReplyText(Sockets.RecvPart(Encode(LineServer.Terminated([t])), limit)) == Some(t)
  {
    assert LineServer.Terminated([t]) == t + "\n";
    EncodeAppend(t, "\n");
    EncodeAscii("\n");
    if |Encode(t)| < limit {
      ReplyRoundTrip(t);
    } else {
      assert Encode(t + "\n")[..limit] == Encode(t);
      DecodeEncode(t);
      Text.StripTrailing(t, "");
      assert t + "" == t;
    }
  }

  /**
   * A reply line whose text alone needs more than `limit` bytes never comes
   * back as that text: one `recv(limit)` cuts it short, and the rest of the
   * line stays in the stream for the next command's reply.
   */
  lemma LongReplyCutShort(t: string, limit: nat)
    requires |Encode(t)| > limit
    ensures ReplyText(Sockets.RecvPart(Encode(LineServer.Terminated([t])), limit)) != Some(t)
  {
    var part := Sockets.RecvPart(Encode(LineServer.Terminated([t])), limit);
    if Decode(part).Some? {
      StrippedFits(part);
    }
  }

  /** The stripped text of a reply takes no more bytes than the reply itself. */
  lemma StrippedFits(b: seq<byte>)
    requires Decode(b).Some?
    ensures |Encode(Text.Strip(Decode(b).value))| <= |b|
  {
    var u := Decode(b).value;
    EncodeDecode(b);
    var i := Text.Start(u, 0);
    EncodeSlice(u, i, i + |Text.Strip(u)|);
  }

  /** What `set` and `get` return for the replies "OK" and a stored value, each read by one `recv`. */
  lemma RecvReplies(value: string)
    requires Text.Trimmed(value)
    ensures ReplyText(Sockets.RecvPart(Encode(LineServer.Terminated([LineServer.OkReply])), SetReplyLimit)) == Some(LineServer.OkReply)
    ensures |Encode(value)| <= GetReplyLimit ==>
      ReplyText(Sockets.RecvPart(Encode(LineServer.Terminated([value])), GetReplyLimit)) == Some(value)
    ensures |Encode(value)| > GetReplyLimit ==>
      ReplyText(Sockets.RecvPart(Encode(LineServer.Terminated([value])), GetReplyLimit)) != Some(value)
  {
    EncodeAscii(LineServer.OkReply);
    ReplyFits(LineServer.OkReply, SetReplyLimit);
    if |Encode(value)| <= GetReplyLimit {
      ReplyFits(value, GetReplyLimit);
    } else if |Encode(value)| > GetReplyLimit {
      LongReplyCutShort(value, GetReplyLimit);
    }
  }

  /** `set` then `get` of a plain key reach the server as exactly those two lines. */
  lemma SetGetLines(key: string, value: string)
    requires PlainKey(key) && LineServer.NoBreak(value)
    ensures LineServer.ReadLines(SetRequest(key, value) + GetRequest(key)) == ["SET " + key + " " + value, "GET " + key]
  {
    var setLine := "SET " + key + " " + value;
    SetLineNoBreak(key, value);
    assert SetRequest(key, value) + GetRequest(key) == setLine + "\n" + GetRequest(key);
    LineServer.ReadLinesFirst(setLine, GetRequest(key));
    GetRoundTrip(key);
  }

  /**
   * `set` then `get` of a plain key: the server answers "OK" and then the
   * value, and a value with no surrounding whitespace is what `get` returns.
   */
  lemma SetThenGetOverWire(c: LruModel.Lru, capacity: int, maxEntrySize: int, key: string, value: string)
    requires LruModel.Valid(c, capacity) && PlainKey(key) && LineServer.NoBreak(value) && Text.Trimmed(value)
    requires Text.JavaLength(value) <= maxEntrySize && LruModel.Put(c, capacity, maxEntrySize, key, value).Some?
    ensures var lines := LineServer.ReadLines(SetRequest(key, value) + GetRequest(key));
      LineServer.Session(c, capacity, maxEntrySize, lines).replies == [LineServer.OkReply, value]
    ensures ReplyText(Encode(LineServer.Terminated([value]))) == Some(value)
    ensures ReplyText(Sockets.RecvPart(Encode(LineServer.Terminated([LineServer.OkReply])), SetReplyLimit)) == Some(LineServer.OkReply)
    ensures |Encode(value)| <= GetReplyLimit ==>
      ReplyText(Sockets.RecvPart(Encode(LineServer.Terminated([value])), GetReplyLimit)) == Some(value)
    ensures |Encode(value)| > GetReplyLimit ==>
      ReplyText(Sockets.RecvPart(Encode(LineServer.Terminated([value])), GetReplyLimit)) != Some(value)
  {
    SetGetLines(key, value);
    LineServer.SetThenGetReplies(c, capacity, maxEntrySize, key, value);
    ReplyRoundTrip(value);
    RecvReplies(value);
  }

  /** A miss comes back to `get` as the text "null". */
  lemma GetMissReturnsNull(c: LruModel.Lru, capacity: int, maxEntrySize: int, key: string)
    requires PlainKey(key) && key !in c.values
    ensures var lines := LineServer.ReadLines(GetRequest(key));
      LineServer.Session(c, capacity, maxEntrySize, lines).replies == ["null"]
    ensures ReplyText(Encode(LineServer.Terminated(["null"]))) == Some("null")
    ensures ReplyText(Sockets.RecvPart(Encode(LineServer.Terminated(["null"])), GetReplyLimit)) == Some("null")
  {
    EncodeAscii("null");
    ReplyFits("null", GetReplyLimit);
    GetRoundTrip(key);
    LineServer.GetMissPrintsNull(c, capacity, maxEntrySize, key);
    LineServer.SessionStep(c, capacity, maxEntrySize, ["GET " + key]);
    ReplyRoundTrip("null");
  }

  /** A value holding a newline reaches the server as two lines: the second half is read as a command of its own. */
  lemma NewlineSplitsSet(key: string, v1: string, v2: string)
    requires PlainKey(key) && LineServer.NoBreak(v1)
    ensures LineServer.ReadLines(SetRequest(key, v1 + "\n" + v2)) == ["SET " + key + " " + v1] + LineServer.ReadLines(v2 + "\n")
  {
    SetLineNoBreak(key, v1);
    assert SetRequest(key, v1 + "\n" + v2) == ("SET " + key + " " + v1) + "\n" + (v2 + "\n");
    LineServer.ReadLinesFirst("SET " + key + " " + v1, v2 + "\n");
  }

  /** A key holding a space is read as a shorter key: `set` stores under its first word, with the rest joined to the value. */
  lemma SpacedKeySetSplits(k1: string, k2: string, value: string)
    requires ' ' !in k1
    ensures LineServer.Parse("SET " + (k1 + " " + k2) + " " + value) == LineServer.Set(k1, k2 + " " + value)
  {
    assert "SET " + (k1 + " " + k2) + " " + value == "SET " + k1 + " " + (k2 + " " + value);
    LineServer.ParseSetLine(k1, k2 + " " + value);
  }

  /** A key holding a space is read as a shorter key: `get` looks up its first word. */
  lemma SpacedKeyGetSplits(k1: string, k2: string)
    requires ' ' !in k1
    ensures LineServer.Parse("GET " + (k1 + " " + k2)) == LineServer.Get(k1)
  {
    assert "GET " + (k1 + " " + k2) == "GET" + " " + k1 + " " + k2;
    LineServer.SplitThreeWords("GET", k1, k2);
  }
}
