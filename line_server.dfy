/**
 * The text protocol of TitanSocketServer's ClientHandler: each line the
 * client sends is split on single spaces into at most three parts, the
 * first part upper-cased selects GET, SET or an error reply, and one reply
 * line is printed per command line. A GET or SET without its arguments
 * indexes past the parts array; the ArrayIndexOutOfBoundsException (and the
 * NullPointerException of `put` at capacity 0) is not caught, so the handler
 * stops reading.
 */
module LineServer {
  import opened Wrappers
  import Text
  import LruModel
  import TitanCacheImpl

  // ---------------------------------------------------------------------------
  // Parsing one line

  /** The position of the first space in `s`, or `|s|` when there is none. */
  function FirstSpace(s: string): (r: nat)
    ensures r <= |s| && ' ' !in s[..r] && (r < |s| ==> s[r] == ' ')
  {
    if s == [] || s[0] == ' ' then 0
    else
      var r := FirstSpace(s[1..]);
      assert s[..r + 1] == [s[0]] + s[1..][..r];
      r + 1
  }

  /** The parts joined again with single spaces. */
  function JoinSpaces(parts: seq<string>): string
    requires parts != []
  {
    if |parts| == 1 then parts[0] else parts[0] + " " + JoinSpaces(parts[1..])
  }

  /**
   * Java's `line.split(" ", 3)`: the delimiter is applied at most twice, so
   * the last part keeps any further spaces, and empty parts are kept.
   */
  function Split3(line: string): (parts: seq<string>)
    ensures 1 <= |parts| <= 3
    ensures JoinSpaces(parts) == line
    ensures forall i | 0 <= i < |parts| - 1 :: ' ' !in parts[i]
    ensures |parts| < 3 ==> ' ' !in parts[|parts| - 1]
  {
    var i := FirstSpace(line);
    if i == |line| then
      assert line[..i] == line;
      [line]
    else
      var rest := line[i + 1..];
      var j := FirstSpace(rest);
      if j == |rest| then
        assert rest[..j] == rest;
        assert line == line[..i] + " " + rest;
        [line[..i], rest]
      else
        assert rest == rest[..j] + " " + rest[j + 1..];
        assert line == line[..i] + " " + rest;
        var parts := [line[..i], rest[..j], rest[j + 1..]];
        assert JoinSpaces(parts[1..]) == rest by {
          assert parts[1..] == [rest[..j], rest[j + 1..]];
        }
        parts
  }

  // ---------------------------------------------------------------------------
  // Lines in, lines out

  predicate IsBreak(c: char) {
    c == '\n' || c == '\r'
  }

  /** `s` holds no line terminator. */
  predicate NoBreak(s: string) {
    forall i | 0 <= i < |s| :: !IsBreak(s[i])
  }

  /** The position of the first line terminator in `t`, or `|t|` when there is none. */
  function LineEnd(t: string): (r: nat)
    ensures r <= |t| && NoBreak(t[..r]) && (r < |t| ==> IsBreak(t[r]))
  {
    if t == [] || IsBreak(t[0]) then 0
    else
      var r := LineEnd(t[1..]);
      assert t[..r + 1] == [t[0]] + t[1..][..r];
      r + 1
  }

  /**
   * The lines `BufferedReader.readLine` returns one after another until it
   * returns null: a line ends at "\n", "\r" or "\r\n", and text after the
   * last terminator is a last line of its own.
   */
  function ReadLines(t: string): (lines: seq<string>)
    ensures forall i | 0 <= i < |lines| :: NoBreak(lines[i])
    decreases |t|
  {
    if t == [] then []
    else
      var i := LineEnd(t);
      if i == |t| then
        assert t[..i] == t;
        [t]
      else
        var skip := if t[i] == '\r' && i + 1 < |t| && t[i + 1] == '\n' then 2 else 1;
        [t[..i]] + ReadLines(t[i + skip..])
  }

  /** What `println` writes for each line: the line and a "\n" line separator. */
  function Terminated(lines: seq<string>): string {
    if lines == [] then "" else lines[0] + "\n" + Terminated(lines[1..])
  }

  lemma NoBreakAt(s: string, i: nat)
    requires NoBreak(s) && i < |s|
    ensures !IsBreak(s[i])
  {
  }

  /** `LineEnd` is the one position its contract describes. */
  lemma LineEndAt(t: string, n: nat)
    requires n <= |t| && NoBreak(t[..n]) && (n < |t| ==> IsBreak(t[n]))
    ensures LineEnd(t) == n
  {
    var r := LineEnd(t);
    if r < n {
      NoBreakAt(t[..n], r);
    } else if r > n {
      NoBreakAt(t[..r], n);
    }
  }

  lemma ReadLinesFirst(l: string, rest: string)
    requires NoBreak(l)
    ensures ReadLines(l + "\n" + rest) == [l] + ReadLines(rest)
  {
    var t := l + "\n" + rest;
    assert t[..|l|] == l;
    LineEndAt(t, |l|);
    assert t[|l| + 1..] == rest;
  }

  /** Reading back what `println` wrote gives the lines that were printed. */
  lemma {:induction false} ReadTerminated(lines: seq<string>)
    requires forall i | 0 <= i < |lines| :: NoBreak(lines[i])
    ensures ReadLines(Terminated(lines)) == lines
  {
    if lines != [] {
      ReadLinesFirst(lines[0], Terminated(lines[1..]));
      ReadTerminated(lines[1..]);
    }
  }

  /** What a line asks for. `Malformed` is a GET or SET whose arguments are missing. */
  datatype Command = Get(key: string) | Set(key: string, value: string) | Unknown | Malformed

  /** The switch of `ClientHandler.run` on `parts[0].toUpperCase()`. */
  function Parse(line: string): (r: Command)
    ensures var parts := Split3(line); var cmd := Text.Upper(parts[0]);
      && (r.Get? <==> cmd == "GET" && |parts| >= 2)
      && (r.Get? ==> r.key == parts[1])
      && (r.Set? <==> cmd == "SET" && |parts| == 3)
      && (r.Set? ==> r.key == parts[1] && r.value == parts[2])
      && (r.Unknown? <==> cmd != "GET" && cmd != "SET")
  {
    var parts := Split3(line);
    var cmd := Text.Upper(parts[0]);
    if cmd == "GET" then (if |parts| >= 2 then Get(parts[1]) else Malformed)
    else if cmd == "SET" then (if |parts| >= 3 then Set(parts[1], parts[2]) else Malformed)
    else Unknown
  }

  /** What `println` prints for the result of `cache.get`: a miss is the text "null". */
  function Show(v: Option<string>): string {
    match v
    case None => "null"
    case Some(s) => s
  }

  const OkReply := "OK"
  const UnknownReply := "ERROR: UNKNOWN COMMAND"

  // ---------------------------------------------------------------------------
  // The meaning of a session on the abstract cache

  /** One line handled: its reply and the cache after, or the uncaught exception. */
  datatype Step = Reply(text: string, cache: LruModel.Lru) | Crash

  function Respond(c: LruModel.Lru, capacity: int, maxEntrySize: int, line: string): Step {
    match Parse(line)
    case Get(k) =>
      var g := LruModel.Get(c, k);
      Reply(Show(g.value), g.cache)
    case Set(k, v) =>
      (match LruModel.Put(c, capacity, maxEntrySize, k, v)
       case None => Crash
       case Some(c') => Reply(OkReply, c'))
    case Unknown => Reply(UnknownReply, c)
    case Malformed => Crash
  }

  /** The replies printed for `lines` in order, the cache after them, and whether the handler died. */
  datatype Outcome = Outcome(replies: seq<string>, cache: LruModel.Lru, crashed: bool)

  /** Lines answered one by one with `respond`, stopping at the first that crashes. */
  function Play(respond: (LruModel.Lru, string) -> Step, c: LruModel.Lru, lines: seq<string>): Outcome
    decreases |lines|
  {
    if lines == [] then Outcome([], c, false)
    else match respond(c, lines[0])
      case Crash => Outcome([], c, true)
      case Reply(t, c') => After([t], Play(respond, c', lines[1..]))
  }

  function Responder(capacity: int, maxEntrySize: int): (LruModel.Lru, string) -> Step {
    (d: LruModel.Lru, line: string) => Respond(d, capacity, maxEntrySize, line)
  }

  /** One connection's handler on the cache `c`. */
  function Session(c: LruModel.Lru, capacity: int, maxEntrySize: int, lines: seq<string>): Outcome {
    Play(Responder(capacity, maxEntrySize), c, lines)
  }

  /** The outcome `o` of the later lines, preceded by the replies `rs` already printed. */
  function After(rs: seq<string>, o: Outcome): Outcome {
    Outcome(rs + o.replies, o.cache, o.crashed)
  }

  lemma SessionStep(c: LruModel.Lru, capacity: int, maxEntrySize: int, lines: seq<string>)
    requires lines != []
    ensures var step := Respond(c, capacity, maxEntrySize, lines[0]);
      Session(c, capacity, maxEntrySize, lines) ==
        if step.Crash? then Outcome([], c, true)
        else After([step.text], Session(step.cache, capacity, maxEntrySize, lines[1..]))
  {
  }

  // ---------------------------------------------------------------------------
  // ClientHandler.run over the linked cache

  /**
   * One pass of the switch in `ClientHandler.run`: the reply printed for
   * `line`, or None when the command throws (the cache is then as it was).
   */
  method Handle(cache: TitanCacheImpl.TitanCache, line: string) returns (reply: Option<string>)
    requires cache.Valid()
    modifies cache.Repr
    ensures cache.Valid() && fresh(cache.Repr - old(cache.Repr))
    ensures Respond(old(cache.Contents), cache.capacity, cache.maxEntrySizeBytes, line) ==
      if reply.None? then Crash else Reply(reply.value, cache.Contents)
    ensures reply.None? ==> cache.Contents == old(cache.Contents)
  {
    match Parse(line) {
      case Get(k) =>
        var v := cache.Get(k);
        reply := Some(Show(v));
      case Set(k, v) =>
        var ok := cache.Put(k, v);
        reply := if ok then Some(OkReply) else None;
      case Unknown =>
        reply := Some(UnknownReply);
      case Malformed =>
        reply := None;
    }
  }

  /**
   * The read loop of `ClientHandler.run` on the lines the reader delivers:
   * each line is parsed and executed on the cache and its reply printed,
   * until the lines run out or a command throws.
   */
  method Serve(cache: TitanCacheImpl.TitanCache, lines: seq<string>) returns (replies: seq<string>, crashed: bool)
    requires cache.Valid()
    modifies cache.Repr
    ensures cache.Valid() && fresh(cache.Repr - old(cache.Repr))
    ensures Session(old(cache.Contents), cache.capacity, cache.maxEntrySizeBytes, lines)
         == Outcome(replies, cache.Contents, crashed)
  {
    ghost var cap, max := cache.capacity, cache.maxEntrySizeBytes;
    ghost var total := Session(cache.Contents, cap, max, lines);
    replies, crashed := [], false;
    var i := 0;
    while i < |lines| && !crashed
      invariant 0 <= i <= |lines|
      invariant cache.Valid() && fresh(cache.Repr - old(cache.Repr))
      invariant cache.capacity == cap && cache.maxEntrySizeBytes == max
      invariant !crashed ==> total == After(replies, Session(cache.Contents, cap, max, lines[i..]))
      invariant crashed ==> total == Outcome(replies, cache.Contents, true)
    {
      ghost var rest := lines[i..];
      assert rest[1..] == lines[i + 1..];
      var reply := ServeLine(cache, lines[i], rest);
      if reply.None? {
        crashed := true;
      } else {
        AfterAfter(replies, reply.value, Session(cache.Contents, cap, max, rest[1..]));
        replies := replies + [reply.value];
      }
      i := i + 1;
    }
  }

  /** `Handle` on the first of `rest`, stated as the first step of the session over `rest`. */
  method ServeLine(cache: TitanCacheImpl.TitanCache, line: string, ghost rest: seq<string>) returns (reply: Option<string>)
    requires cache.Valid() && rest != [] && rest[0] == line
    modifies cache.Repr
    ensures cache.Valid() && fresh(cache.Repr - old(cache.Repr))
    ensures reply.None? ==>
      Session(old(cache.Contents), cache.capacity, cache.maxEntrySizeBytes, rest) == Outcome([], cache.Contents, true)
    ensures reply.Some? ==>
      Session(old(cache.Contents), cache.capacity, cache.maxEntrySizeBytes, rest)
        == After([reply.value], Session(cache.Contents, cache.capacity, cache.maxEntrySizeBytes, rest[1..]))
  {
    ghost var before := cache.Contents;
    reply := Handle(cache, line);
    if reply.None? {
      SessionCrashes(before, cache.capacity, cache.maxEntrySizeBytes, rest);
    } else {
      SessionReplies1(before, cache.capacity, cache.maxEntrySizeBytes, rest, reply.value, cache.Contents);
    }
  }

  lemma SessionCrashes(c: LruModel.Lru, capacity: int, maxEntrySize: int, lines: seq<string>)
    requires lines != [] && Respond(c, capacity, maxEntrySize, lines[0]) == Crash
    ensures Session(c, capacity, maxEntrySize, lines) == Outcome([], c, true)
  {
  }

  lemma SessionReplies1(c: LruModel.Lru, capacity: int, maxEntrySize: int, lines: seq<string>, t: string, c': LruModel.Lru)
    requires lines != [] && Respond(c, capacity, maxEntrySize, lines[0]) == Reply(t, c')
    ensures Session(c, capacity, maxEntrySize, lines) == After([t], Session(c', capacity, maxEntrySize, lines[1..]))
  {
  }

  lemma AfterAfter(rs: seq<string>, t: string, o: Outcome)
    ensures After(rs, After([t], o)) == After(rs + [t], o)
  {
    assert rs + ([t] + o.replies) == rs + [t] + o.replies;
  }

  // ---------------------------------------------------------------------------
  // Properties of the protocol

  /** One reply per line, in order, for as long as the handler lives; it reads every line iff it does not die. */
  lemma SessionReplies(c: LruModel.Lru, capacity: int, maxEntrySize: int, lines: seq<string>)
    ensures var o := Session(c, capacity, maxEntrySize, lines);
      && |o.replies| <= |lines|
      && (!o.crashed <==> |o.replies| == |lines|)
      && forall i | 0 <= i < |o.replies| ::
           var step := Respond(CacheBefore(Responder(capacity, maxEntrySize), c, lines, i), capacity, maxEntrySize, lines[i]);
           step.Reply? && o.replies[i] == step.text
  {
    var respond := Responder(capacity, maxEntrySize);
    PlayLength(respond, c, lines);
    var o := Session(c, capacity, maxEntrySize, lines);
    forall i | 0 <= i < |o.replies|
      ensures var step := Respond(CacheBefore(respond, c, lines, i), capacity, maxEntrySize, lines[i]);
        step.Reply? && o.replies[i] == step.text
    {
      PlayReplyAt(respond, c, lines, i);
    }
  }

  /** Whatever the responder, at most one reply per line, and one per line exactly when none crashes. */
  lemma {:induction false} PlayLength(respond: (LruModel.Lru, string) -> Step, c: LruModel.Lru, lines: seq<string>)
    ensures var o := Play(respond, c, lines);
      |o.replies| <= |lines| && (!o.crashed <==> |o.replies| == |lines|)
    decreases |lines|
  {
    if lines != [] && respond(c, lines[0]).Reply? {
      PlayLength(respond, respond(c, lines[0]).cache, lines[1..]);
    }
  }

  /** Whatever the responder, reply `i` is its answer to line `i` on the cache the earlier lines left. */
  lemma {:induction false} PlayReplyAt(respond: (LruModel.Lru, string) -> Step, c: LruModel.Lru, lines: seq<string>, i: nat)
    requires i < |Play(respond, c, lines).replies| && i < |lines|
    ensures var step := respond(CacheBefore(respond, c, lines, i), lines[i]);
      step.Reply? && Play(respond, c, lines).replies[i] == step.text
    decreases i
  {
    var step := respond(c, lines[0]);
    if i > 0 {
      PlayReplyAt(respond, step.cache, lines[1..], i - 1);
      assert lines[i] == lines[1..][i - 1];
    }
  }

  /** The cache as the handler finds line `i`. */
  function CacheBefore(respond: (LruModel.Lru, string) -> Step, c: LruModel.Lru, lines: seq<string>, i: nat): LruModel.Lru
    decreases i
  {
    if i == 0 || lines == [] then c
    else match respond(c, lines[0])
      case Crash => c
      case Reply(_, c') => CacheBefore(respond, c', lines[1..], i - 1)
  }

  /** A SET with its arguments replies "OK" even when the cache drops the value as oversize; the cache is then unchanged. */
  lemma SetOversizeRepliesOk(c: LruModel.Lru, capacity: int, maxEntrySize: int, line: string)
    requires Parse(line).Set? && Text.JavaLength(Parse(line).value) > maxEntrySize
    ensures Respond(c, capacity, maxEntrySize, line) == Reply(OkReply, c)
  {
    LruModel.PutOversize(c, capacity, maxEntrySize, Parse(line).key, Parse(line).value);
  }

  /** An unknown command word gets the error reply and leaves the cache as it was. */
  lemma UnknownLeavesCache(c: LruModel.Lru, capacity: int, maxEntrySize: int, line: string)
    requires Text.Upper(Split3(line)[0]) != "GET" && Text.Upper(Split3(line)[0]) != "SET"
    ensures Respond(c, capacity, maxEntrySize, line) == Reply(UnknownReply, c)
  {
  }

  /** `GET k` for a key that is not cached prints "null" and leaves the cache as it was. */
  lemma GetMissPrintsNull(c: LruModel.Lru, capacity: int, maxEntrySize: int, k: string)
    requires ' ' !in k && k !in c.values
    ensures Respond(c, capacity, maxEntrySize, "GET " + k) == Reply("null", c)
  {
    ParseGetLine(k);
  }

  /** A cached value "null" is printed exactly as a miss is: the reply cannot tell them apart. */
  lemma StoredNullLooksLikeMiss(c: LruModel.Lru, capacity: int, maxEntrySize: int, k: string)
    requires ' ' !in k && k in c.values && c.values[k] == "null"
    ensures Respond(c, capacity, maxEntrySize, "GET " + k).text == "null"
  {
    ParseGetLine(k);
  }

  /** `FirstSpace` is the one position its contract describes. */
  lemma FirstSpaceAt(s: string, n: nat)
    requires n <= |s| && ' ' !in s[..n] && (n < |s| ==> s[n] == ' ')
    ensures FirstSpace(s) == n
  {
  }

  /** Two words with no space inside either split into exactly those words. */
  lemma SplitTwoWords(w: string, k: string)
    requires ' ' !in w && ' ' !in k
    ensures Split3(w + " " + k) == [w, k]
  {
    var line := w + " " + k;
    assert line[..|w|] == w;
    FirstSpaceAt(line, |w|);
    assert line[|w| + 1..] == k;
    FirstSpaceAt(k, |k|);
  }

  /** Three words, the last of which may hold spaces, split into exactly those words. */
  lemma SplitThreeWords(w: string, k: string, v: string)
    requires ' ' !in w && ' ' !in k
    ensures Split3(w + " " + k + " " + v) == [w, k, v]
  {
    var line := w + " " + k + " " + v;
    assert line[..|w|] == w;
    FirstSpaceAt(line, |w|);
    var rest := line[|w| + 1..];
    assert rest == k + " " + v;
    assert rest[..|k|] == k;
    FirstSpaceAt(rest, |k|);
    assert rest[|k| + 1..] == v;
  }

  /** The line `SET k v` for a key with no space is a SET of `k` and `v`; `v` may hold spaces. */
  lemma ParseSetLine(k: string, v: string)
    requires ' ' !in k
    ensures Parse("SET " + k + " " + v) == Set(k, v)
  {
    assert "SET " + k + " " + v == "SET" + " " + k + " " + v;
    SplitThreeWords("SET", k, v);
  }

  /** The line `GET k` for a key with no space is a GET of `k`. */
  lemma ParseGetLine(k: string)
    requires ' ' !in k
    ensures Parse("GET " + k) == Get(k)
  {
    assert "GET " + k == "GET" + " " + k;
    SplitTwoWords("GET", k);
  }

  /** `SET k v` then `GET k` prints "OK" and then `v`. */
  lemma SetThenGetReplies(c: LruModel.Lru, capacity: int, maxEntrySize: int, k: string, v: string)
    requires LruModel.Valid(c, capacity) && ' ' !in k
    requires Text.JavaLength(v) <= maxEntrySize && LruModel.Put(c, capacity, maxEntrySize, k, v).Some?
    ensures Session(c, capacity, maxEntrySize, ["SET " + k + " " + v, "GET " + k]).replies == [OkReply, v]
  {
    var lines := ["SET " + k + " " + v, "GET " + k];
    var c' := LruModel.Put(c, capacity, maxEntrySize, k, v).value;
    ParseSetLine(k, v);
    assert Respond(c, capacity, maxEntrySize, lines[0]) == Reply(OkReply, c');
    ParseGetLine(k);
    LruModel.PutThenGet(c, capacity, maxEntrySize, k, v);
    assert Respond(c', capacity, maxEntrySize, lines[1]).text == v;
    SessionStep(c, capacity, maxEntrySize, lines);
    assert lines[1..] == [lines[1]];
    SessionStep(c', capacity, maxEntrySize, lines[1..]);
  }

  /** A command word without its argument kills the handler. */
  lemma BareCommandCrashes(c: LruModel.Lru, capacity: int, maxEntrySize: int, w: string)
    requires Text.Upper(w) == "GET" || Text.Upper(w) == "SET"
    ensures Respond(c, capacity, maxEntrySize, w) == Crash
  {
    assert Split3(w) == [w];
  }
}
