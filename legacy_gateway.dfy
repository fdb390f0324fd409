/**
 * The `/analyze` endpoint of the HelixStream gateway app: it fingerprints
 * the sequence, asks the line-protocol cache for that fingerprint, answers
 * CACHED with a usable reply, and otherwise queues the sequence under
 * "task:" + fingerprint and answers QUEUED.
 */
module LegacyGateway {
  import opened Wrappers
  import opened Utf8
  import Text
  import Sockets
  import LruModel
  import LineServer
  import LineClient

  datatype Response = Cached(hash: string, data: string) | Queued(hash: string)

  /** The key the miss path writes: the fingerprint behind a fixed prefix. */
  function TaskKey(h: string): (k: string)
    ensures |k| == |h| + 5 && k[5..] == h
  {
    "task:" + h
  }

  /** The decision on the `get` reply: usable iff it is neither empty nor the text "null". */
  function Classify(h: string, reply: string): (r: Response)
    ensures r.hash == h
    ensures r.Cached? <==> reply != "" && reply != "null"
    ensures r.Cached? ==> r.data == reply
  {
    if reply != "" && reply != "null" then Cached(h, reply) else Queued(h)
  }

  /**
   * The endpoint's result from the two replies: None when a reply does not
   * decode (the request fails with the client's exception).
   */
  function Answer(h: string, getReply: Option<string>, setReply: Option<string>): Option<Response> {
    match getReply
    case None => None
    case Some(t) =>
      if Classify(h, t).Cached? then Some(Classify(h, t))
      else if setReply.None? then None
      else Some(Queued(h))
  }

  /** Whether the `get` reply sends the request down the miss path, which calls `set`. */
  predicate Misses(h: string, getReply: Option<string>) {
    getReply.Some? && !Classify(h, getReply.value).Cached?
  }

  /**
   * `analyze_sequence(sequence)` over a connected client. `sha256Hex` is
   * `hashlib.sha256(...).hexdigest()`. `getBytes` and `setBytes` are what
   * the two `recv` calls took from the reply stream (`setBytes` is empty
   * when no `set` is sent).
   */
  method AnalyzeSequence(client: LineClient.TitanClient, sequence: string, sha256Hex: seq<byte> -> string)
    returns (r: Option<Response>, ghost getBytes: seq<byte>, ghost setBytes: seq<byte>)
    requires client.sock.Valid()
    modifies client.sock
    ensures client.sock.Valid()
    ensures var h := sha256Hex(Encode(sequence));
      var miss := Misses(h, LineClient.ReplyText(getBytes));
      && (miss ==> client.sock.sent == old(client.sock.sent) + Encode(LineClient.GetRequest(h))
                                         + Encode(LineClient.SetRequest(TaskKey(h), sequence)))
      && (!miss ==> client.sock.sent == old(client.sock.sent) + Encode(LineClient.GetRequest(h)) && setBytes == [])
      && old(Sockets.Flatten(client.sock.incoming)) == getBytes + (setBytes + Sockets.Flatten(client.sock.incoming))
      && r == Answer(h, LineClient.ReplyText(getBytes), LineClient.ReplyText(setBytes))
  {
    var h := sha256Hex(Encode(sequence));
    var cachedVal;
    cachedVal, getBytes := client.Get(h);
    setBytes := [];
    if cachedVal.None? {
      r := None;
      return;
    }
    if cachedVal.value != "" && cachedVal.value != "null" {
      r := Some(Cached(h, cachedVal.value));
      return;
    }
    var setReply;
    setReply, setBytes := client.Set(TaskKey(h), sequence);
    r := if setReply.None? then None else Some(Queued(h));
  }

  // ---------------------------------------------------------------------------
  // The decision against the cache behind the line protocol

  /** The line the server prints for `GET h` when it holds cache `c`. */
  function GetReplyLine(c: LruModel.Lru, capacity: int, maxEntrySize: int, h: string): string {
    LineServer.Terminated([LineServer.Respond(c, capacity, maxEntrySize, "GET " + h).text])
  }

  /**
   * What `get` returns for `h` when the server holds cache `c` and the reply
   * line arrives as one segment: one `recv(4096)` of it, decoded and stripped.
   */
  function GetOverWire(c: LruModel.Lru, capacity: int, maxEntrySize: int, h: string): Option<string> {
    LineClient.ReplyText(Sockets.RecvPart(Encode(GetReplyLine(c, capacity, maxEntrySize, h)), LineClient.GetReplyLimit))
  }

  /** A value stored under the fingerprint, usable and without surrounding whitespace, is answered CACHED with exactly that value. */
  lemma StoredValueIsCached(c: LruModel.Lru, capacity: int, maxEntrySize: int, h: string)
    requires LineClient.PlainKey(h) && h in c.values
    requires Text.Trimmed(c.values[h]) && c.values[h] != "" && c.values[h] != "null"
    requires |Encode(c.values[h])| <= LineClient.GetReplyLimit
    ensures GetOverWire(c, capacity, maxEntrySize, h) == Some(c.values[h])
    ensures Classify(h, GetOverWire(c, capacity, maxEntrySize, h).value) == Cached(h, c.values[h])
  {
    LineServer.ParseGetLine(h);
    LineClient.ReplyFits(c.values[h], LineClient.GetReplyLimit);
  }

  /**
   * A stored value longer than one `recv(4096)` is never answered with that
   * value: `get` returns only the part of the reply line the first `recv` took.
   */
  lemma LongValueNotReturned(c: LruModel.Lru, capacity: int, maxEntrySize: int, h: string)
    requires LineClient.PlainKey(h) && h in c.values
    requires |Encode(c.values[h])| > LineClient.GetReplyLimit
    ensures GetOverWire(c, capacity, maxEntrySize, h) != Some(c.values[h])
  {
    LineServer.ParseGetLine(h);
    LineClient.LongReplyCutShort(c.values[h], LineClient.GetReplyLimit);
  }

  /** A fingerprint the cache does not hold, or holds with the value "null", is answered by queueing. */
  lemma MissOrNullIsQueued(c: LruModel.Lru, capacity: int, maxEntrySize: int, h: string)
    requires LineClient.PlainKey(h) && (h !in c.values || c.values[h] == "null")
    ensures GetOverWire(c, capacity, maxEntrySize, h) == Some("null")
    ensures Classify(h, GetOverWire(c, capacity, maxEntrySize, h).value) == Queued(h)
  {
    Utf8.EncodeAscii("null");
    LineClient.ReplyFits("null", LineClient.GetReplyLimit);
    LineServer.ParseGetLine(h);
    LineClient.ReplyRoundTrip("null");
  }

  /**
   * The miss path writes under "task:" + h, never under h itself: after it,
   * a repeat request for the same sequence still misses.
   */
  lemma QueueingDoesNotFillHash(c: LruModel.Lru, capacity: int, maxEntrySize: int, h: string, sequence: string)
    requires LineClient.PlainKey(h) && h !in c.values
    requires LruModel.Put(c, capacity, maxEntrySize, TaskKey(h), sequence).Some?
    ensures var c' := LruModel.Put(c, capacity, maxEntrySize, TaskKey(h), sequence).value;
      h !in c'.values && GetOverWire(c', capacity, maxEntrySize, h) == Some("null")
  {
    LruModel.PutOtherKeepsMiss(c, capacity, maxEntrySize, TaskKey(h), sequence, h);
    MissOrNullIsQueued(LruModel.Put(c, capacity, maxEntrySize, TaskKey(h), sequence).value, capacity, maxEntrySize, h);
  }

  /** Both outcomes carry the fingerprint of the request. */
  lemma AnswerCarriesHash(h: string, getReply: Option<string>, setReply: Option<string>)
    requires Answer(h, getReply, setReply).Some?
    ensures Answer(h, getReply, setReply).value.hash == h
    ensures Answer(h, getReply, setReply).value.Cached? <==> getReply.value != "" && getReply.value != "null"
  {
  }
}
