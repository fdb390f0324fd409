# helix-stream, modelled in Dafny

helix-stream computes protein-sequence embeddings behind a tiered cache. This
project models its sequential cores and proves what they do:

- **TitanCache** (Java): a capacity-bounded LRU cache. A hash map points into
  a doubly linked list between two sentinel nodes. `TitanCacheImpl.TitanCache`
  is a class over heap-allocated `CacheNode`s. Its methods rewire `next` and
  `prev` in place, as the Java does. Every operation is proved to keep the
  structure invariant and to follow the abstract LRU of module `LruModel`
  (keys in recency order plus a value map).
- **The line protocol**:
  - `ClientHandler.run` of `TitanSocketServer.java`: split, dispatch, and the
    read loop over the cache;
  - the client that formats `SET`/`GET` lines and strips the reply
    (`libs/titan-sdk`).
  - Proved: round trips from client to server and back, one reply per line,
    and the crash on a bare command word.
- **The framed client** (`libs/titan_sdk`): the 4-byte big-endian length
  prefix, the `_recv_all` accumulation loop over a packet stream, and the
  command strings.
- **The legacy gateway** (`apps/api/main.py`): the cached-or-queued decision
  over the line-protocol client.
- **The cache RPC service** (`CacheGrpcService.java`): each handler against an
  abstract store keyed by (key, model id), with a call log and a response
  observer.
- **The inference worker**:
  - the sequence-cleaning expression;
  - the lease → embed → submit loop, including how an exception ends the
    current lease;
  - the polling loop;
  - the health probe.
- **The gateway orchestrator**: the L1 → L2 → job queue → new job chain
  (corrected chain, see ## Findings). It is modelled twice: as a pure
  `Resolve` function, and as a method over a remote cache object and a job
  store that is proved equal to it. The code as written differs from it only
  where the L2 write-back raises; that path is modelled separately as
  `ResultAsWritten`.
- **The embedding repository**:
  - the metadata upsert on (hash, model id);
  - the routing of model ids to vector tables;
  - similarity search, the accession lookup, summaries, and the pool singleton.
- **The structure manifest**: the choice between PDB and AlphaFold, and URL
  construction.

Shared modules:

- `Wrappers`: Option and Result.
- `Text`: Java `String.length`, ASCII case mapping, and Python `str.strip`.
- `Utf8`: UTF-8 encoding and decoding, with both round trips proved.
- `Sockets`: a socket over a finite packet stream.

Functions stand in for what the model cannot see. Each is a parameter:

- SHA-256: `sha256Hex`;
- the embedder: `embedJson`;
- `json.loads`: `loads`;
- the pgvector distance: `distance`;
- the answers of remote services: `l1`, `leaseReply`, `leaseAnswer`;
- which RPCs raise: `rejects`, `batchRaises`, `taskRaises`.

## Model

Java paths are under `services/titancache/src/main/java/com/titancache/`.
They are written out in full in the table.

| member | source | states |
|---|---|---|
| LruModel.Remove | services/titancache/src/main/java/com/titancache/core/TitanCache.java:85-89 | unlinking a key leaves exactly the other keys, in their old relative order |
| LruModel.EvictLast | services/titancache/src/main/java/com/titancache/core/TitanCache.java:63-67 | dropping the least recently used key shortens the order by one |
| LruModel.ValidSize | services/titancache/src/main/java/com/titancache/core/TitanCache.java:10-13 | under the invariant, the map's size is the list's length |
| LruModel.EmptyValid | services/titancache/src/main/java/com/titancache/core/TitanCache.java:15-23 | the empty cache satisfies the invariant for every capacity that is not negative |
| LruModel.GetPreservesValid | services/titancache/src/main/java/com/titancache/core/TitanCache.java:36-48 | `get` keeps the invariant |
| LruModel.GetSpec | services/titancache/src/main/java/com/titancache/core/TitanCache.java:39-44 | a hit returns the stored value and moves the key to the front, leaving the other keys' order and all values unchanged; a miss returns null and changes nothing |
| LruModel.EvictLastValid | services/titancache/src/main/java/com/titancache/core/TitanCache.java:63-67 | eviction keeps the invariant |
| LruModel.InsertValid | services/titancache/src/main/java/com/titancache/core/TitanCache.java:69-71 | inserting a new key below capacity keeps the invariant |
| LruModel.PutPreservesValid | services/titancache/src/main/java/com/titancache/core/TitanCache.java:50-75 | every `put` that returns keeps the invariant, so size never exceeds a capacity that is not negative |
| LruModel.PutOversize | services/titancache/src/main/java/com/titancache/core/TitanCache.java:53 | a value whose Java length exceeds `maxEntrySizeBytes` changes nothing, and an existing key keeps its old value |
| LruModel.PutExisting | services/titancache/src/main/java/com/titancache/core/TitanCache.java:55-61 | an existing key gets the new value and moves to the front; the key set and the size are unchanged, and nothing is evicted |
| LruModel.PutEvicts | services/titancache/src/main/java/com/titancache/core/TitanCache.java:63-71 | a new key in a full cache evicts exactly the least recently used key, then goes in front of the rest |
| LruModel.PutGrows | services/titancache/src/main/java/com/titancache/core/TitanCache.java:63-71 | a new key in a cache that is not full grows it by one, with no eviction |
| LruModel.PutThrowsIff | services/titancache/src/main/java/com/titancache/core/TitanCache.java:63-67 | `put` throws exactly when capacity is 0 and a new value small enough to store arrives; the eviction branch then unlinks the head sentinel, whose `prev` is null |
| LruModel.PutThenGet | services/titancache/src/main/java/com/titancache/core/TitanCache.java:50-75 | a `get` right after a stored `put` of k returns the value put |
| LruModel.PutOtherKeepsMiss | services/titancache/src/main/java/com/titancache/core/TitanCache.java:50-75 | a `put` of k never makes another absent key present |
| TitanCacheImpl.CacheNode.constructor | services/titancache/src/main/java/com/titancache/core/CacheNode.java:10-13 | the node holds exactly the given key and value, and `next`/`prev` are null until it is linked |
| TitanCacheImpl.MoveFront | services/titancache/src/main/java/com/titancache/core/TitanCache.java:40-41 | the node sequence after `removeNode` then `addNode` of the node at p: that node directly after the head, all others in their old order |
| TitanCacheImpl.ToFront | services/titancache/src/main/java/com/titancache/core/TitanCache.java:40-41 | the same move on the key order |
| TitanCacheImpl.MoveFrontMembers | services/titancache/src/main/java/com/titancache/core/TitanCache.java:40-41 | moving a node to the front keeps the set of linked nodes |
| TitanCacheImpl.StoresMoveFront | services/titancache/src/main/java/com/titancache/core/TitanCache.java:40-41 | after the move, each linked node still holds the key and value at its position in the moved order |
| TitanCacheImpl.AbsTouch | services/titancache/src/main/java/com/titancache/core/TitanCache.java:39-42 | moving the node at p to the front is the abstract `get` of its key |
| TitanCacheImpl.AbsEvict | services/titancache/src/main/java/com/titancache/core/TitanCache.java:63-67 | the node before the tail holds the least recently used key, and unlinking it is the abstract eviction, with that key dropped from the map |
| TitanCacheImpl.StoresInsert | services/titancache/src/main/java/com/titancache/core/TitanCache.java:69-71 | a new node linked after the head holds the new front key |
| TitanCacheImpl.AbsInsert | services/titancache/src/main/java/com/titancache/core/TitanCache.java:69-71 | linking a new node after the head and mapping its key is the abstract insertion |
| TitanCacheImpl.StoreValue | services/titancache/src/main/java/com/titancache/core/TitanCache.java:56-57 | overwriting the node's value in place is the abstract value update, with no new node allocated |
| TitanCacheImpl.TitanCache.constructor | services/titancache/src/main/java/com/titancache/core/TitanCache.java:15-23 | a fresh cache is valid and empty: the map is empty, `head.next == tail` and `tail.prev == head` |
| TitanCacheImpl.TitanCache.Clear | services/titancache/src/main/java/com/titancache/core/TitanCache.java:25-34 | a cleared cache is valid and empty, with the sentinels linked to each other |
| TitanCacheImpl.TitanCache.RemoveNode | services/titancache/src/main/java/com/titancache/core/TitanCache.java:85-89 | the node is cut out of a well-formed list, which stays well-formed, and the same node is returned |
| TitanCacheImpl.TitanCache.AddNode | services/titancache/src/main/java/com/titancache/core/TitanCache.java:77-83 | an unlinked node is spliced in directly after the head, and the list stays well-formed |
| TitanCacheImpl.TitanCache.MoveToFront | services/titancache/src/main/java/com/titancache/core/TitanCache.java:40-41 | `removeNode` then `addNode` of a linked node leaves the list well-formed, moved to the front, and related to the abstract cache as required |
| TitanCacheImpl.TitanCache.UnlinkLast | services/titancache/src/main/java/com/titancache/core/TitanCache.java:64-65 | `tail.prev` holds the least recently used key, and unlinking it is the abstract eviction |
| TitanCacheImpl.TitanCache.LinkNew | services/titancache/src/main/java/com/titancache/core/TitanCache.java:69-71 | linking a fresh node after the head is the abstract insertion of its key |
| TitanCacheImpl.TitanCache.Position | services/titancache/src/main/java/com/titancache/core/TitanCache.java:39-40 | `map.get(k)` is the list node at k's place in the recency order, holding k's value |
| TitanCacheImpl.TitanCache.Get | services/titancache/src/main/java/com/titancache/core/TitanCache.java:36-48 | `get` returns what the abstract `get` returns, leaves the cache in the abstract `get`'s state, and keeps the structure invariant |
| TitanCacheImpl.TitanCache.Put | services/titancache/src/main/java/com/titancache/core/TitanCache.java:50-75 | `put` either throws, changing nothing, or leaves the cache in the abstract `put`'s state; either way the structure invariant holds after |
| TitanCacheImpl.TitanCache.Refresh | services/titancache/src/main/java/com/titancache/core/TitanCache.java:55-60 | updating an existing key stores the value in its node and moves the key to the front |
| TitanCacheImpl.TitanCache.Promote | services/titancache/src/main/java/com/titancache/core/TitanCache.java:40-42 | a hit moves the key's node to the front and yields its value; the map is untouched |
| TitanCacheImpl.TitanCache.SetValue | services/titancache/src/main/java/com/titancache/core/TitanCache.java:56-57 | the node's value is overwritten in place; the order is unchanged |
| TitanCacheImpl.TitanCache.EvictLeastRecent | services/titancache/src/main/java/com/titancache/core/TitanCache.java:63-67 | unlinking `tail.prev` and removing its key from the map is the abstract eviction |
| TitanCacheImpl.TitanCache.InsertFront | services/titancache/src/main/java/com/titancache/core/TitanCache.java:69-71 | a new node after the head, entered in the map, is the abstract insertion |
| Text.JavaLength | services/titancache/src/main/java/com/titancache/core/TitanCache.java:53 | `String.length` counts UTF-16 units: at least one and at most two per character |
| Text.UpperChar | services/titancache/src/main/java/com/titancache/networking/TitanSocketServer.java:56 | a–z map to A–Z; all other characters are kept, except dotless ı and long ſ, which also map to ASCII capitals |
| Text.Upper | services/workers/inference_worker.py:50 | upper-casing maps each character by `UpperChar` and keeps the length |
| Text.UpperIdempotent | services/titancache/src/main/java/com/titancache/networking/TitanSocketServer.java:56 | upper-casing twice is upper-casing once |
| Text.Start | libs/titan-sdk/titan_client.py:20 | the first position at or after i that is not whitespace |
| Text.End | libs/titan-sdk/titan_client.py:20 | the end of the last character before j that is not whitespace |
| Text.Strip | libs/titan-sdk/titan_client.py:20 | `strip()` returns a slice of the input with only whitespace before and after it, and the slice neither starts nor ends with whitespace |
| Text.StartAtEnd | libs/titan-sdk/titan_client.py:20 | on an all-whitespace suffix, the scan reaches the end |
| Text.EndAt | libs/titan-sdk/titan_client.py:20 | the backwards scan stops at the last character that is not whitespace |
| Text.StripTrailing | libs/titan-sdk/titan_client.py:24 | stripping a trimmed text followed by whitespace (such as the server's line ending) gives back the text |
| Utf8.EncodeChar | services/gateway/app/core/orchestrator.py:24 | a scalar value encodes to one to four bytes |
| Utf8.Encode | libs/titan-sdk/titan_client.py:19 | `str.encode()` gives at least one byte per character |
| Utf8.DecodeChar | libs/titan_sdk/titan_client.py:37 | a well-formed leading sequence decodes to a scalar value and its length of one to four bytes |
| Utf8.Decode2 | libs/titan_sdk/titan_client.py:37 | the two-byte form of 0x80–0x7FF is well-formed and decodes back to the scalar value |
| Utf8.Decode3 | libs/titan_sdk/titan_client.py:37 | the three-byte form of a scalar value that is not a surrogate is well-formed (not overlong) and decodes back |
| Utf8.Decode4 | libs/titan_sdk/titan_client.py:37 | the four-byte form of a scalar value up to 0x10FFFF is well-formed and decodes back |
| Utf8.DecodeEncodeChar | libs/titan_sdk/titan_client.py:22 | decoding the encoding of a character, followed by anything, yields that character and its length |
| Utf8.Reencode2 | libs/titan_sdk/titan_client.py:37 | a well-formed two-byte sequence is the encoding of the value it decodes to |
| Utf8.Reencode3 | libs/titan_sdk/titan_client.py:37 | a well-formed three-byte sequence is the encoding of the value it decodes to |
| Utf8.Reencode4 | libs/titan_sdk/titan_client.py:37 | a well-formed four-byte sequence is the encoding of the value it decodes to |
| Utf8.EncodeDecodeChar | libs/titan_sdk/titan_client.py:37 | whatever decodes re-encodes to the bytes it came from |
| Utf8.DecodeEncode | libs/titan_sdk/titan_client.py:22 | `decode(encode(s)) == s` |
| Utf8.DecodeCons | libs/titan_sdk/titan_client.py:37 | decoding is the first character followed by the decoding of the rest |
| Utf8.Reassemble | libs/titan_sdk/titan_client.py:37 | the encoding of a character followed by the encoding of a text is the encoding of their concatenation |
| Utf8.EncodeDecode | libs/titan_sdk/titan_client.py:37 | bytes that decode re-encode to themselves: `encode(decode(b)) == b` |
| Utf8.EncodeInjective | services/gateway/app/core/orchestrator.py:24 | different texts have different encodings |
| Utf8.EncodeAppend | libs/titan-sdk/titan_client.py:19 | encoding distributes over concatenation |
| Utf8.EncodeLength | libs/titan_sdk/titan_client.py:22-25 | an encoding has at most four bytes per character |
| Utf8.EncodeAscii | libs/titan-sdk/titan_client.py:19 | ASCII text encodes byte for byte |
| Sockets.Socket.constructor | libs/titan-sdk/titan_client.py:9-12 | a connected socket has sent nothing and will deliver the given packets |
| Sockets.Socket.SendAll | libs/titan-sdk/titan_client.py:19 | `sendall` appends all the bytes to what was sent |
| Sockets.Socket.Recv | libs/titan_sdk/titan_client.py:43 | `recv(n)` returns at most n bytes from the front of the stream, and returns empty only at its end; it takes from the front segment only, all of it when it fits in n bytes and its first n bytes otherwise (`RecvPart`) |
| Sockets.RecvPart | libs/titan-sdk/titan_client.py:20-24 | what one `recv(n)` takes of the front segment: at most n bytes, and the whole segment exactly when it fits |
| LineServer.FirstSpace | services/titancache/src/main/java/com/titancache/networking/TitanSocketServer.java:55 | the position of the first space, or the length when there is none |
| LineServer.Split3 | services/titancache/src/main/java/com/titancache/networking/TitanSocketServer.java:55 | `split(" ", 3)` gives one to three parts that rejoin with spaces into the line; every part before the last has no space, and only a third part may hold spaces |
| LineServer.LineEnd | services/titancache/src/main/java/com/titancache/networking/TitanSocketServer.java:52 | the end of the first line: before the first `\n` or `\r`, or the end of the text |
| LineServer.ReadLines | services/titancache/src/main/java/com/titancache/networking/TitanSocketServer.java:52 | `readLine` yields lines that hold no line break |
| LineServer.NoBreakAt | services/titancache/src/main/java/com/titancache/networking/TitanSocketServer.java:52 | a line without breaks has no break character at any position |
| LineServer.LineEndAt | services/titancache/src/main/java/com/titancache/networking/TitanSocketServer.java:52 | the first line ends exactly at the first break |
| LineServer.ReadLinesFirst | services/titancache/src/main/java/com/titancache/networking/TitanSocketServer.java:52 | a line without breaks, followed by `\n`, is read as that line, and then the rest is read |
| LineServer.ReadTerminated | services/titancache/src/main/java/com/titancache/networking/TitanSocketServer.java:52 | lines written each with a `\n` are read back exactly |
| LineServer.Parse | services/titancache/src/main/java/com/titancache/networking/TitanSocketServer.java:55-64 | the command as the switch sees it: GET iff the upper-cased first word is GET and a key follows; SET iff it is SET with key and value; unknown iff the word is neither |
| LineServer.SessionStep | services/titancache/src/main/java/com/titancache/networking/TitanSocketServer.java:52-65 | a session is its first line's reply followed by the session of the rest, or it ends at a crash |
| LineServer.Handle | services/titancache/src/main/java/com/titancache/networking/TitanSocketServer.java:58-65 | one pass of the switch on the linked cache gives the reply and the cache state of the abstract step, or throws with the cache unchanged |
| LineServer.Serve | services/titancache/src/main/java/com/titancache/networking/TitanSocketServer.java:47-70 | the read loop over the linked cache prints exactly the abstract session's replies and leaves its cache, stopping at the first command that throws |
| LineServer.ServeLine | services/titancache/src/main/java/com/titancache/networking/TitanSocketServer.java:52-65 | one loop iteration is the first step of the session over the remaining lines |
| LineServer.SessionCrashes | services/titancache/src/main/java/com/titancache/networking/TitanSocketServer.java:67-69 | a first line that throws ends the session with no reply and the cache as it was |
| LineServer.SessionReplies1 | services/titancache/src/main/java/com/titancache/networking/TitanSocketServer.java:52-65 | a first line that replies puts its reply before those of the rest |
| LineServer.AfterAfter | services/titancache/src/main/java/com/titancache/networking/TitanSocketServer.java:52-65 | prepending replies one at a time is prepending them together |
| LineServer.SessionReplies | services/titancache/src/main/java/com/titancache/networking/TitanSocketServer.java:52-65 | one reply per line, in input order, each the switch's answer on the cache the earlier lines left; every line is answered iff the handler does not die |
| LineServer.PlayLength | services/titancache/src/main/java/com/titancache/networking/TitanSocketServer.java:52-65 | for any per-line responder, at most one reply per line, and one for every line exactly when none crashes |
| LineServer.PlayReplyAt | services/titancache/src/main/java/com/titancache/networking/TitanSocketServer.java:52-65 | for any per-line responder, reply i is its answer to line i on the cache left by the lines before |
| LineServer.SetOversizeRepliesOk | services/titancache/src/main/java/com/titancache/networking/TitanSocketServer.java:61-62 | a SET of an oversize value still replies "OK", and the cache stays unchanged |
| LineServer.UnknownLeavesCache | services/titancache/src/main/java/com/titancache/networking/TitanSocketServer.java:64 | an unknown command word gets "ERROR: UNKNOWN COMMAND" and leaves the cache unchanged |
| LineServer.GetMissPrintsNull | services/titancache/src/main/java/com/titancache/networking/TitanSocketServer.java:59 | GET of an absent key prints "null" and leaves the cache unchanged |
| LineServer.StoredNullLooksLikeMiss | services/titancache/src/main/java/com/titancache/networking/TitanSocketServer.java:59 | a stored value "null" prints exactly as a miss does |
| LineServer.FirstSpaceAt | services/titancache/src/main/java/com/titancache/networking/TitanSocketServer.java:55 | the first space is unique |
| LineServer.SplitTwoWords | services/titancache/src/main/java/com/titancache/networking/TitanSocketServer.java:55 | two words without spaces split into exactly those words |
| LineServer.SplitThreeWords | services/titancache/src/main/java/com/titancache/networking/TitanSocketServer.java:55 | the split limit of 3 keeps any spaces of the third part |
| LineServer.ParseSetLine | services/titancache/src/main/java/com/titancache/networking/TitanSocketServer.java:60-61 | `SET k v` with k free of spaces is parsed as a SET of k and v, even when v contains spaces |
| LineServer.ParseGetLine | services/titancache/src/main/java/com/titancache/networking/TitanSocketServer.java:59 | `GET k` is parsed as a GET of k |
| LineServer.SetThenGetReplies | services/titancache/src/main/java/com/titancache/networking/TitanSocketServer.java:59-62 | the session `SET k v`, `GET k` replies "OK" and then v |
| LineServer.BareCommandCrashes | services/titancache/src/main/java/com/titancache/networking/TitanSocketServer.java:59-61 | GET or SET without arguments indexes past `parts`; the exception is not an IOException, so the handler dies |
| LineClient.ReplyText | libs/titan-sdk/titan_client.py:20 | `recv(...).decode().strip()`: defined exactly when the bytes decode, and then the stripped text |
| LineClient.TitanClient.constructor | libs/titan-sdk/titan_client.py:9-12 | the client holds the connected socket |
| LineClient.TitanClient.Set | libs/titan-sdk/titan_client.py:18-20 | sends exactly `SET key value\n` in UTF-8, reads one `recv` of at most 1024 bytes, and returns it decoded and stripped; with a segment waiting, what it read is `RecvPart` of that segment at 1024 |
| LineClient.TitanClient.Get | libs/titan-sdk/titan_client.py:22-24 | sends exactly `GET key\n` in UTF-8, reads one `recv` of at most 4096 bytes, and returns it decoded and stripped; with a segment waiting, what it read is `RecvPart` of that segment at 4096 |
| LineClient.OneLine | libs/titan-sdk/titan_client.py:23 | a command without breaks, followed by `\n`, reads as one line |
| LineClient.NoBreakJoin | libs/titan-sdk/titan_client.py:19 | the concatenation of two break-free texts is break-free |
| LineClient.SetLineNoBreak | libs/titan-sdk/titan_client.py:19 | a SET line with a plain key and a value free of breaks has no break |
| LineClient.SetRoundTrip | libs/titan-sdk/titan_client.py:19 | the server reads the client's SET as one line and parses it back to the same key and value |
| LineClient.GetRoundTrip | libs/titan-sdk/titan_client.py:23 | the server reads the client's GET as one line and parses it back to the same key |
| LineClient.ReplyRoundTrip | libs/titan-sdk/titan_client.py:24 | a trimmed reply line printed by the server decodes and strips back to itself, when all of its bytes are read |
| LineClient.ReplyFits | libs/titan-sdk/titan_client.py:20-24 | a trimmed reply line whose text encodes to at most the `recv` limit comes back from one `recv` as that text; at exactly the limit only the `\n` is left unread, and `strip` would remove it anyway |
| LineClient.LongReplyCutShort | libs/titan-sdk/titan_client.py:20-24 | a reply whose text is longer than the `recv` limit is never returned as that text: one `recv` takes only part of the line |
| LineClient.StrippedFits | libs/titan-sdk/titan_client.py:24 | stripping decoded bytes never gives a text whose encoding is longer than those bytes |
| LineClient.RecvReplies | libs/titan-sdk/titan_client.py:18-24 | "OK" fits in `recv(1024)`; a trimmed value of at most 4096 bytes comes back whole from `recv(4096)`, and a longer one does not |
| LineClient.SetGetLines | libs/titan-sdk/titan_client.py:19-23 | a SET followed by a GET reaches the server as exactly those two lines |
| LineClient.SetThenGetOverWire | libs/titan-sdk/titan_client.py:18-24 | `set` then `get` of a plain key: the server answers "OK" and then the value. With each reply arriving as one segment, `set` returns "OK"; `get` returns the value as it was set when it has no surrounding whitespace and encodes to at most 4096 bytes, and not that value when it encodes to more |
| LineClient.GetMissReturnsNull | libs/titan-sdk/titan_client.py:22-24 | `get` of a key never set, or evicted, gets the reply "null", which one `recv(4096)` returns whole |
| LineClient.NewlineSplitsSet | libs/titan-sdk/titan_client.py:19 | a value holding a newline arrives as two lines; the second is read as a command of its own |
| LineClient.SpacedKeySetSplits | libs/titan-sdk/titan_client.py:19 | the server cuts a key containing a space at that space and moves the rest into the value |
| LineClient.SpacedKeyGetSplits | libs/titan-sdk/titan_client.py:23 | a GET of a key containing a space looks up only its first word |
| FramedClient.Pack32 | libs/titan_sdk/titan_client.py:25 | `struct.pack('>I', n)` succeeds exactly for n below 2^32, giving four bytes |
| FramedClient.Unpack32 | libs/titan_sdk/titan_client.py:33 | `struct.unpack('>I', ...)` of four bytes is below 2^32 |
| FramedClient.UnpackPack | libs/titan_sdk/titan_client.py:25-33 | unpacking the packed header gives the length back |
| FramedClient.PackUnpack | libs/titan_sdk/titan_client.py:25-33 | packing an unpacked header gives the same four bytes |
| FramedClient.Frame | libs/titan_sdk/titan_client.py:22-26 | a frame exists iff the payload is shorter than 2^32 bytes, and is the 4-byte length followed by the payload |
| FramedClient.ReadReply | libs/titan_sdk/titan_client.py:28-37 | a text reply is the UTF-8 decoding of exactly the header's number of bytes after the header |
| FramedClient.ReadFrame | libs/titan_sdk/titan_client.py:28-37 | reading a framed text gives that text back and leaves the bytes that follow |
| FramedClient.ShortHeaderIsNone | libs/titan_sdk/titan_client.py:29-31 | a header that cannot be read in full gives None |
| FramedClient.TruncatedPayloadRaises | libs/titan_sdk/titan_client.py:36-37 | a truncated payload makes `data` None, and `.decode` raises AttributeError instead of returning None |
| FramedClient.EnqueueAmbiguous | libs/titan_sdk/titan_client.py:55 | a key holding ':' makes two different (key, sequence) pairs send the same ENQUEUE command |
| FramedClient.TitanClient.constructor | libs/titan_sdk/titan_client.py:10-12 | the client holds the connected socket |
| FramedClient.TitanClient.RecvAll | libs/titan_sdk/titan_client.py:39-47 | `_recv_all(n)` returns exactly the next n bytes of the stream, or None when the stream ends before n bytes, having consumed it |
| FramedClient.TitanClient.SendReceive | libs/titan_sdk/titan_client.py:20-37 | sends the frame of the UTF-8 command, or raises `struct.error` before sending when it is too long; the result and the leftover stream are those of reading a reply |
| FramedClient.TitanClient.Check | libs/titan_sdk/titan_client.py:49-51 | sends the frame of `CHECK:key` and reads one reply |
| FramedClient.TitanClient.Enqueue | libs/titan_sdk/titan_client.py:53-55 | sends the frame of `ENQUEUE:key:sequence` and reads one reply |
| FramedClient.TitanClient.Status | libs/titan_sdk/titan_client.py:57-59 | sends the frame of `STATUS:key` and reads one reply |
| FramedClient.TitanClient.Enter | libs/titan_sdk/titan_client.py:10-14 | `__enter__` sends the frame of `VERSION:1.0` and reads one reply, and it raises only when reading the reply raises |
| LegacyGateway.TaskKey | apps/api/main.py:28 | the task key is `task:` followed by the hash |
| LegacyGateway.Classify | apps/api/main.py:22-30 | CACHED iff the reply is non-empty and not "null", with the reply as data; both outcomes carry the hash |
| LegacyGateway.AnalyzeSequence | apps/api/main.py:15-30 | sends the GET of the hash; on a miss it also sends the SET of `task:hash` with the raw sequence; the answer is the cached-or-queued decision on the replies, or None when a reply does not decode |
| LegacyGateway.StoredValueIsCached | apps/api/main.py:20-23 | a stored trimmed value other than "" and "null" that encodes to at most 4096 bytes comes back from one `recv(4096)` and is answered as CACHED with that value |
| LegacyGateway.LongValueNotReturned | apps/api/main.py:20-23 | a stored value that encodes to more than 4096 bytes never comes back as that value: `get` returns only what one `recv(4096)` took |
| LegacyGateway.MissOrNullIsQueued | apps/api/main.py:20-30 | an absent key, or a stored "null", comes back as "null" and is answered as queued |
| LegacyGateway.QueueingDoesNotFillHash | apps/api/main.py:20-28 | the miss path writes under `task:hash`, never under the hash, so a repeat request misses again |
| LegacyGateway.AnswerCarriesHash | apps/api/main.py:23-30 | both outcomes carry the request's hash, and the answer is CACHED iff the GET reply is non-empty and not "null" |
| GrpcService.Observer.constructor | services/titancache/src/main/java/com/titancache/api/CacheGrpcService.java:20 | a fresh response observer has received nothing |
| GrpcService.Observer.OnNext | services/titancache/src/main/java/com/titancache/api/CacheGrpcService.java:29 | `onNext` records the message |
| GrpcService.Observer.OnCompleted | services/titancache/src/main/java/com/titancache/api/CacheGrpcService.java:30 | `onCompleted` records completion |
| GrpcService.Observer.OnError | services/titancache/src/main/java/com/titancache/api/CacheGrpcService.java:24 | `onError` records the error |
| GrpcService.ModelCache.constructor | services/titancache/src/main/java/com/titancache/api/CacheGrpcService.java:15-17 | the store behind the service starts empty, with no calls |
| GrpcService.ModelCache.Get | services/titancache/src/main/java/com/titancache/api/CacheGrpcService.java:35 | `get(key, modelId)` returns the value stored under the pair, or null |
| GrpcService.ModelCache.Put | services/titancache/src/main/java/com/titancache/api/CacheGrpcService.java:51 | `put(key, modelId, value)` stores the value under the pair |
| GrpcService.ModelCache.SubmitTask | services/titancache/src/main/java/com/titancache/api/CacheGrpcService.java:28 | `submitTask` is logged and leaves the entries unchanged |
| GrpcService.ModelCache.LeaseTasks | services/titancache/src/main/java/com/titancache/api/CacheGrpcService.java:58 | `leaseTasks` is logged and returns the store's answer |
| GrpcService.ModelCache.ResolveTask | services/titancache/src/main/java/com/titancache/api/CacheGrpcService.java:71 | `resolveTask` is logged and leaves the entries unchanged |
| GrpcService.ModelCache.Clear | services/titancache/src/main/java/com/titancache/api/CacheGrpcService.java:79 | `clear` empties the entries |
| GrpcService.ValueResponseOf | services/titancache/src/main/java/com/titancache/api/CacheGrpcService.java:37-43 | `found` iff the cache returned non-null; the value is set only when found (otherwise the protobuf default ""); `model_id` echoes the request |
| GrpcService.BatchCalls | services/titancache/src/main/java/com/titancache/api/CacheGrpcService.java:68-72 | two cache calls per entry |
| GrpcService.CacheGrpcService.constructor | services/titancache/src/main/java/com/titancache/api/CacheGrpcService.java:15-17 | the service wraps the given cache |
| GrpcService.CacheGrpcService.SubmitTask | services/titancache/src/main/java/com/titancache/api/CacheGrpcService.java:20-31 | an empty model id gets `onError("model_id is required")` with no cache call and no `onNext`; otherwise the task is enqueued exactly once, followed by "Queued" and completion |
| GrpcService.CacheGrpcService.Get | services/titancache/src/main/java/com/titancache/api/CacheGrpcService.java:34-47 | one `get` call, then one response shaped from its result, then completion; nothing is stored |
| GrpcService.CacheGrpcService.Put | services/titancache/src/main/java/com/titancache/api/CacheGrpcService.java:50-54 | stores the value under (key, model id), then replies "Stored" and completes |
| GrpcService.CacheGrpcService.LeaseTasks | services/titancache/src/main/java/com/titancache/api/CacheGrpcService.java:57-63 | forwards the size and model unchanged, returns the cache's keys unchanged, and completes |
| GrpcService.CacheGrpcService.SubmitBatch | services/titancache/src/main/java/com/titancache/api/CacheGrpcService.java:66-75 | the entries are stored in list order under the batch's model id, with a put then a resolve per entry; then "Batch Processed" and completion |
| GrpcService.CacheGrpcService.Clear | services/titancache/src/main/java/com/titancache/api/CacheGrpcService.java:78-82 | empties the cache, then replies "Cleared" and completes |
| GrpcService.GetAfterPut | services/titancache/src/main/java/com/titancache/api/CacheGrpcService.java:34-54 | a `get` after a `put` of the same pair is found, with the value put |
| GrpcService.StoreBatchLastWins | services/titancache/src/main/java/com/titancache/api/CacheGrpcService.java:68-72 | after a batch, a key holds its last entry's value, and a key without entries keeps its old state |
| GrpcService.StoreBatchOtherModels | services/titancache/src/main/java/com/titancache/api/CacheGrpcService.java:67-70 | a batch touches no entry of another model |
| GrpcService.BatchCallsOrder | services/titancache/src/main/java/com/titancache/api/CacheGrpcService.java:68-72 | entry i gives call 2i, the put of its key and JSON under the batch's model, then call 2i+1, the resolve of that key |
| Worker.RemoveSpaces | services/workers/inference_worker.py:50 | `replace(" ", "")` leaves no space and does not lengthen |
| Worker.RemoveSpacesChars | services/workers/inference_worker.py:50 | exactly the space character is deleted; tabs and newlines survive |
| Worker.Clean | services/workers/inference_worker.py:50 | the cleaned sequence has no space and at most 1022 characters |
| Worker.RemoveSpacesNoop | services/workers/inference_worker.py:50 | a text without spaces is kept as it is |
| Worker.RemoveSpacesUpper | services/workers/inference_worker.py:50 | upper-casing adds no space |
| Worker.CleanIdempotent | services/workers/inference_worker.py:50 | cleaning is idempotent |
| Worker.UpperOfUpperChars | services/workers/inference_worker.py:50 | every character left after upper-casing is its own upper case |
| Worker.CleanKeeps | services/workers/inference_worker.py:50 | within the first 1022 characters, every character that is not a space survives upper-cased |
| Worker.HealthCheck | services/workers/inference_worker.py:15-18 | the health probe answers SERVING for every request |
| Worker.CacheStub.constructor | services/workers/inference_worker.py:36-37 | the stub starts with no leases and no submissions |
| Worker.CacheStub.LeaseTasks | services/workers/inference_worker.py:44 | each lease is logged, and answered by its position in the sequence of leases |
| Worker.CacheStub.SubmitBatch | services/workers/inference_worker.py:64 | each submission is logged, and it raises exactly where its position is one of the rejected ones |
| Worker.BatchFor | services/workers/inference_worker.py:59-64 | one batch per task, with a single entry: the task's hash, the embedding JSON and confidence 1.0, under the worker's model |
| Worker.LeaseFor | services/workers/inference_worker.py:43 | a lease asks for one task of the worker's own model |
| Worker.HelixWorker.constructor | services/workers/inference_worker.py:22 | the model id is `MODEL_ID` when set, and `esm2_t33_650M_UR50D` otherwise |
| Worker.HelixWorker.Process | services/workers/inference_worker.py:49-64 | a task whose embedding fails stops the lease before any submission; otherwise exactly one batch is submitted, and the lease continues iff it was accepted |
| Worker.HelixWorker.PollAndProcess | services/workers/inference_worker.py:40-67 | one lease request; the submissions are the batches of the leased tasks in order, up to and including the first that raises or up to the first failed embedding; an empty or failed lease submits nothing |
| Worker.HelixWorker.RunLogStep | services/workers/inference_worker.py:79-81 | one more poll extends the submission log by that poll's batches |
| Worker.HelixWorker.Run | services/workers/inference_worker.py:69-84 | after `polls` iterations of the loop: one lease per poll for the worker's model, with the submissions of each poll in order |
| Worker.Repeat | services/workers/inference_worker.py:79-81 | n copies of one lease request |
| Worker.AttemptsAt | services/workers/inference_worker.py:48-67 | processing from task i: nothing on a failed embedding; otherwise its batch, followed, unless it raised, by the rest |
| Worker.AttemptsShape | services/workers/inference_worker.py:48-64 | at most one batch per task, the i-th being task i's batch for its successfully embedded sequence |
| Worker.AttemptsStopAtReject | services/workers/inference_worker.py:66-67 | every submission but the last was accepted: an exception aborts the remaining tasks |
| Worker.NoRejectionTail | services/workers/inference_worker.py:48-64 | an undisturbed lease remains undisturbed after its first task |
| Worker.NoRejectionCons | services/workers/inference_worker.py:48-64 | a first task that embeds and is accepted extends an undisturbed rest |
| Worker.AttemptsAllIff | services/workers/inference_worker.py:48-67 | every leased task gets a submission iff every embedding succeeds and every submission but the last is accepted |
| Orchestrator.FingerprintSeparates | services/gateway/app/core/orchestrator.py:23-24 | with a collision-free hash, two sequences share a fingerprint iff they are equal: nothing is cleaned first |
| Orchestrator.RepopulateBatch | services/gateway/app/core/orchestrator.py:62-69 | the L1 repopulation is one batch, under the requested model, with a single entry: the hash and the stored vector |
| Orchestrator.RemoteCache.constructor | services/gateway/app/core/orchestrator.py:20-21 | the stub has made no calls |
| Orchestrator.RemoteCache.Get | services/gateway/app/core/orchestrator.py:31-32 | `Get` is logged and answered by the L1 lookup, None where it raises `grpc.RpcError` |
| Orchestrator.RemoteCache.SubmitBatch | services/gateway/app/core/orchestrator.py:70 | `SubmitBatch` is logged and reports whether it raised |
| Orchestrator.RemoteCache.SubmitTask | services/gateway/app/core/orchestrator.py:95-99 | `SubmitTask` is logged and reports whether it raised |
| Orchestrator.JobStore.constructor | services/gateway/app/core/orchestrator.py:35 | the store starts without embeddings and without jobs |
| Orchestrator.JobStore.GetEmbedding | services/gateway/app/core/orchestrator.py:58 | the stored record for (hash, model), or None |
| Orchestrator.JobStore.StoreEmbedding | services/gateway/app/core/orchestrator.py:37-42 | stores the record for (hash, model) and changes no job |
| Orchestrator.JobStore.UpdateJobStatus | services/gateway/app/core/orchestrator.py:43 | sets the job's status and changes no embedding |
| Orchestrator.JobStore.GetJobStatus | services/gateway/app/core/orchestrator.py:82 | the job's status, or None |
| Orchestrator.JobStore.CreateJob | services/gateway/app/core/orchestrator.py:92 | registers the job as PENDING and changes no embedding |
| Orchestrator.HelixOrchestrator.constructor | services/gateway/app/core/orchestrator.py:14-21 | the orchestrator holds the given stub, store and hash |
| Orchestrator.HelixOrchestrator.AnalyzeSequence | services/gateway/app/core/orchestrator.py:26-108 | (corrected chain, see ## Findings) the result, both tables and the RPC log after `analyze_sequence`, all equal to `Resolve` on the fingerprint of the raw sequence |
| Orchestrator.TierOrder | services/gateway/app/core/orchestrator.py:30-108 | (corrected chain, see ## Findings) the tiers are tried strictly in order, and the first that answers decides: L1 on a found response, L2 on a record, the queue on a truthy status, a new job otherwise; the L1 Get is always the first RPC, and a not-found or failed Get falls through to L2 |
| Orchestrator.L1HitEffects | services/gateway/app/core/orchestrator.py:34-51 | an L1 hit stores the embedding only where no record exists and sets the job COMPLETED either way; it makes no other RPC and answers COMPLETED/L1_CACHE with the response's model id and data |
| Orchestrator.L2HitEffects | services/gateway/app/core/orchestrator.py:58-79 | (corrected chain, see ## Findings) an L2 hit makes exactly one single-entry SubmitBatch, changes neither table, and answers COMPLETED/L2_STORE with the requested model and the stored vector; as written, the answer exists only when the SubmitBatch does not raise (`WriteBackFailureRaises`) |
| Orchestrator.QueuedEffects | services/gateway/app/core/orchestrator.py:82-89 | an existing status is returned verbatim from JOB_QUEUE; no job is created and no task is submitted |
| Orchestrator.NewJobEffects | services/gateway/app/core/orchestrator.py:92-108 | when no tier answers, exactly one job is created and then one task holding the raw sequence is submitted; the answer is PENDING/NEW_JOB even when the submission raises |
| Orchestrator.RepeatIsQueued | services/gateway/app/core/orchestrator.py:82-92 | a repeat of a request that created a job, while L1 still misses, is answered PENDING from the queue, with no second task |
| Orchestrator.CompletedCarriesData | services/gateway/app/core/orchestrator.py:44-89 | while every COMPLETED job has its embedding stored, an answer is COMPLETED iff it carries data from L1 or L2 |
| Orchestrator.CompletedKeepsRecord | services/gateway/app/core/orchestrator.py:34-51 | every request keeps "each COMPLETED job has its embedding stored", since the L1 branch stores the record and marks the job COMPLETED together, and no request removes an embedding |
| Orchestrator.WriteBackFailureRaises | services/gateway/app/core/orchestrator.py:71-72 | as written, an L2 hit whose repopulation raises fails the request at `logging.log`; the corrected chain answers L2_STORE |
| Orchestrator.AsWrittenAgrees | services/gateway/app/core/orchestrator.py:26-108 | on every other path, the code as written answers what the corrected chain answers |
| Repository.FindRow | services/gateway/app/db/repository.py:40 | the row holding the key (hash, model), or None iff no row holds it |
| Repository.Merge | services/gateway/app/db/repository.py:40-45 | on conflict, only confidence_score, is_fallback, protein_name, pdb_ids and binding_sites take the new values; every other column keeps its old value |
| Repository.Upsert | services/gateway/app/db/repository.py:35-55 | with a row for the key, that row is merged and its id returned; without one, a row is appended under the next serial id |
| Repository.UpsertValid | services/gateway/app/db/repository.py:35-55 | the upsert keeps one row per key, with distinct ids below the next serial value; the returned id is that of the row holding the key; the table grows only on insert; other keys' rows are untouched |
| Repository.UpdateValid | services/gateway/app/db/repository.py:40-46 | merging the conflicting row keeps the constraints, its id and its key |
| Repository.AppendValid | services/gateway/app/db/repository.py:35-39 | appending a new key under the next id keeps the constraints |
| Repository.TablesAgreeIff | services/gateway/app/db/repository.py:56-62 | writing and searching pick the same vector table iff the model id contains exactly one of "8M" and "650M" |
| Repository.KnownModelsAgree | services/gateway/app/db/repository.py:56-62 | the two ESM-2 model ids in use route both ways to their own table |
| Repository.NotContains8M | services/gateway/app/db/repository.py:56 | the 650M model id does not contain "8M" |
| Repository.NotContains650M | services/gateway/app/db/repository.py:62 | the 8M model id does not contain "650M" |
| Repository.DecodeColumn | services/gateway/app/db/repository.py:82-83 | a column is JSON-decoded only when it holds a non-empty string, and kept as it is otherwise |
| Repository.FirstWithAccession | services/gateway/app/db/repository.py:77-79 | a row with the accession is found iff one exists |
| Repository.Candidates | services/gateway/app/db/repository.py:64-69 | the join yields at most one result per metadata row |
| Repository.CandidatesFromModelRows | services/gateway/app/db/repository.py:67-69 | every result comes from a row of the requested model that has a vector in the table, at that vector's distance |
| Repository.Insert | services/gateway/app/db/repository.py:70 | inserting into a sorted list keeps it sorted and adds exactly the element |
| Repository.SortByDistance | services/gateway/app/db/repository.py:70 | `ORDER BY distance ASC` gives a sorted permutation |
| Repository.Limit | services/gateway/app/db/repository.py:70 | `LIMIT n` keeps the first min(n, length) rows |
| Repository.FindSimilarShape | services/gateway/app/db/repository.py:61-73 | `find_similar` returns at most `limit` rows, exactly `limit` when enough exist, in ascending distance, all drawn from the model's candidates, and none farther than any row it leaves out |
| Repository.LimitOfSorted | services/gateway/app/db/repository.py:70 | a prefix of a sorted list is sorted and no farther than any row after it |
| Repository.EmbeddingRepository.constructor | services/gateway/app/db/repository.py:29-30 | the tables start empty, with serial ids starting at 1 |
| Repository.VectorOf | services/gateway/app/db/repository.py:33 | `vector_data` that is already a list is the vector itself; text is whatever `json.loads` gives, with None for a `JSONDecodeError` |
| Repository.SequenceColumn | services/gateway/app/db/repository.py:49 | `biological_data['sequence']` where it does not raise: None becomes a NULL `sequence_text`, a string stays itself |
| Repository.EmbeddingRepository.StoreRichEmbedding | services/gateway/app/db/repository.py:32-59 | `vector_data` given as text is decoded by `json.loads` (the parameter `loads`) and a list is taken as it is; text that does not decode raises before any write. Then a missing `sequence` key raises before any write; a `sequence` of None does not, and is stored as NULL. Otherwise the metadata upsert runs on the new row, whose list columns are `json.dumps` of the two list keys (`[]` when missing, JSON `null` when None) and whose `is_fallback` defaults to false. Then the decoded vector is stored under the returned id in the write table, and the other table is unchanged |
| Repository.EmbeddingRepository.FindSimilar | services/gateway/app/db/repository.py:61-73 | the search runs on the search table, sorted by distance and limited, with `limit` defaulting to 5 |
| Repository.EmbeddingRepository.GetEmbeddingByAccession | services/gateway/app/db/repository.py:75-84 | the first row with the accession, whatever its model, with its two JSON columns decoded where they hold a non-empty string; None when no row matches |
| Repository.EmbeddingRepository.GetAllSummaries | services/gateway/app/db/repository.py:86-89 | the first `limit` rows (100 by default), projected onto the five summary columns |
| Repository.NewRowListColumns | services/gateway/app/db/repository.py:52-53 | a missing `annotations` or `pdb_ids` key is stored as `[]`, a key holding None as JSON `null` (read back as None), and a list as itself |
| Repository.StoredRowFoundByAccession | services/gateway/app/db/repository.py:35-55 | a newly stored row with an accession is found by that accession afterwards |
| Repository.DatabasePool.constructor | services/gateway/app/db/repository.py:9 | no pool exists yet |
| Repository.DatabasePool.GetPool | services/gateway/app/db/repository.py:12-15 | the pool (1 to 20 connections) is created on the first call only; later URLs are ignored and the same pool is returned |
| Structure.Url | services/gateway/app/core/structure.py:5-6 | the RCSB and AlphaFold URL templates, with the id as `str.format` writes it |
| Structure.GenerateManifest | services/gateway/app/core/structure.py:9-27 | non-empty `pdb_ids` give its first entry, source RCSB_PDB and the PDB URL; otherwise the accession, ALPHAFOLD_DB and the AlphaFold URL; the accession, highlights (default []), name and organism are copied |
| Structure.UrlRoundTrip | services/gateway/app/core/structure.py:5-6 | stripping the source's fixed prefix and suffix from the URL gives the id back |
| Structure.ManifestIdFromUrl | services/gateway/app/core/structure.py:15-20 | every manifest's structure id can be recovered from its URL |
| Structure.StringifiedIdsUseFirstChar | services/gateway/app/core/structure.py:11-16 | `pdb_ids` left as JSON text is indexed as a string: the structure is named by its first character |
| Structure.MissingAccessionUrl | services/gateway/app/core/structure.py:18-20 | with no PDB ids and no accession, the AlphaFold URL names the file "None" |

## Left out

- Locks and threads: the `ReentrantReadWriteLock` of TitanCache and the accept
  and handler threads of the socket server. The operations are modelled as
  atomic and sequential.
- The socket server's `start`, the port setting and the "Received Command"
  log lines: these are I/O.
- Text.UpperChar: models only the case mapping needed here. It covers ASCII
  letters, plus ı and ſ, which each map to one ASCII letter. Every other
  non-ASCII character is kept as it is, which Java's and Python's full Unicode
  mapping does not do. That includes the ligatures U+FB00–FB06, which
  upper-case into several ASCII letters and so change the length.
- Text.JavaLength: counts a character above U+FFFF as two UTF-16 units, as
  Java does. When the Java reader decodes malformed input, it replaces bytes;
  that replacement is not modelled. Input lines are taken as already-decoded
  text.
- Utf8.Encode: inputs are sequences of Unicode scalar values. A Python `str`
  can also hold a lone surrogate, and then `.encode()` raises
  `UnicodeEncodeError` (orchestrator.py:24, apps/api/main.py:17, both
  clients' send paths). Dafny strings cannot hold one, so that error path is
  not modelled.
- Structure.GenerateManifest: treats a key holding None like a missing key,
  so the `.get(key, [])` defaults apply to both. Python gives None for the
  first.
- SHA-256, the ESM-2 embedder and its tokenizer, and the pgvector distance:
  functions passed as parameters.
- JSON: `json.loads` is a parameter, as `loads` of
  Repository.EmbeddingRepository.StoreRichEmbedding (for `vector_data`, with
  None for a `JSONDecodeError`) and of
  Repository.EmbeddingRepository.GetEmbeddingByAccession (for the stored
  columns). `json.dumps` of the list keys is modelled by `Dumped`, onto the
  abstract `Column` rather than JSON text. The JSON grammar is not modelled,
  and text that decodes to something other than a list of numbers counts as
  a decoding failure.
- The answers of remote services are parameters too, as is which calls raise:
  the gRPC lease, the L1 lookup, and the SubmitBatch and SubmitTask outcomes.
- Worker.HelixWorker.Run: models a bounded number of polls. The source loops
  until interrupted, and it sleeps 0.5 s between polls, which is omitted.
- Worker.HelixWorker.Run: the health server's start and stop are not modelled.
- The worker's `except Exception` covers the lease, the embedder and the
  submission. It is modelled as a lease that answers None, an embedding that
  answers None, or a submission in `rejects`.
- The store methods the orchestrator calls (`get_embedding`,
  `store_embedding`, `update_job_status`, `get_job_status`, `create_job`) are
  not defined in repository.py. `Orchestrator.JobStore` models them as keyed
  tables, and `create_job` is taken to set the status to PENDING.
- The backend methods `CacheGrpcService` calls (`get(key, modelId)`,
  `submitTask`, `leaseTasks`, `resolveTask`) do not exist in TitanCache.java.
  `GrpcService.ModelCache` models them as a two-key store with a call log,
  and the lease's answer is a parameter.
- The components are modelled each against its own code, not as linked end to
  end. They disagree: the worker reads `tasks` where the service returns
  `keys`, and the orchestrator sends a `Task` where the service takes a
  `KeyRequest`.
- Logging, and `print` at apps/api/main.py:27 and orchestrator.py:53: output
  only.
- Socket `connect`, `close` and `__exit__`, the gRPC channel and stub setup,
  and the environment reads other than `MODEL_ID` are not modelled.
- `DatabaseContext` (`getconn`, `putconn`) and `commit`: pooling and
  transactions.
- SQL row order: an unordered `LIMIT` is taken in insertion order. The order
  of rows at equal distance is that of the insertion sort.
- The connection-pool object is represented by its arguments only.
- There is no circuit breaker or health monitor in the code, so none is
  modelled. The only health code is the worker's probe, which always answers
  SERVING.
- TitanCacheImpl.TitanCache.Clear: the footprint `Repr` keeps unlinked nodes.
  Eviction and `clear` remove nodes from the list and the map, but not from
  the footprint.
- LineClient.TitanClient.Get: the reply is taken to arrive as one segment
  waiting in the stream, which is also what LineClient.SetThenGetOverWire,
  LegacyGateway.GetOverWire and LegacyGateway.StoredValueIsCached assume. A
  server reply split across segments, where `recv` returns only its first
  part, is not modelled. When a reply longer than the `recv` limit is cut
  short, its rest stays in the stream and would be read by the next call;
  the model states only that the first call does not return the value.
- The socket server writes replies with `println`, which ends them with the
  platform line separator. The model writes `\n`. On Windows it is `\r\n`,
  and the client's `strip()` removes both alike.
- Repository.EmbeddingRepository.StoreRichEmbedding: returns the id that the
  metadata upsert's `RETURNING id` yields. The Python method uses it for the
  vector row and returns None. The table schema is not part of this model. The
  model takes `sequence_text` to accept NULL. It also takes the serial id to
  advance only when a row is inserted. PostgreSQL calls `nextval` even when
  `ON CONFLICT DO UPDATE` then updates, so the real ids can have gaps the model
  does not have.
- FramedClient.TitanClient.Check: states the sent bytes and the reply only for
  commands shorter than 2^32 bytes. The same goes for
  FramedClient.TitanClient.Enqueue and FramedClient.TitanClient.Status. The
  longer case is `SendReceive`'s `struct.error` path.

## Findings

| source | as written | input that shows it | evidently intended | confidence | as-written member | corrected member |
|---|---|---|---|---|---|---|
| services/gateway/app/core/orchestrator.py:72 | `logging.log(f"...")` is called with one argument. `logging.log` needs a level and a message, so it raises `TypeError`, which escapes `analyze_sequence`. | An L1 miss, a stored L2 record, and a SubmitBatch that raises `grpc.RpcError` | log the failure and return the L2_STORE answer | not executed | Orchestrator.WriteBackFailureRaises | Orchestrator.HelixOrchestrator.AnalyzeSequence |

The code as written is `Orchestrator.ResultAsWritten`. The corrected chain is
`Orchestrator.Resolve`, which the rest of the model uses. The two are related
on every path by `Orchestrator.WriteBackFailureRaises` and
`Orchestrator.AsWrittenAgrees`.
