# DarshJDB: verified models of the cache, the client protocols and the memory planner

DarshJDB is a self-hosted backend. This project models, in Dafny, the parts of it whose
correctness rests on state kept across many calls, and proves properties of them for every
input and every run:

| part | modules |
|---|---|
| RESP3 codec of the cache server | `Text`, `Utf8`, `TextGrammar`, `Resp`, `RespTheorems`, `RespGrammar`, `RespCodec` |
| protocol cache: glob matching, strings with deadlines and their sweeper, sorted sets, streams | `Glob`, `StringTier`, `StringLifetime`, `Ordering`, `ZSet`, `Streams` |
| in-process L1 cache: byte budget, eviction, base64 | `L1`, `Base64` |
| client: live query subscriptions, rows, event stream, offline queue, presence rooms | `Subscriptions`, `SubscriptionInvariant`, `SubscriptionTheorems`, `SubscriptionUse`, `SubscriptionAdoption`, `SubscriptionClient`, `LiveRows`, `Sse`, `SyncQueue`, `Presence` |
| agent memory: tier demotion, rank fusion | `Demotion`, `Fusion` |

Code that works on values (the parser's dispatch, the recursive glob) is functions. Code that
updates fields or loops is classes and methods, each proved against a specification function;
the theorems are then about that function or about every run of the steps it names. Client
protocols are cut into atomic steps where the code awaits, and the invariants hold over every
interleaving of those steps. Time, randomness, the network and the database enter as
parameters: a clock reading, an unused identifier, the answer to a request.

What a definition means is stated apart from it wherever it can be: the wire format byte by
byte, numbers by the value of their digits, orders on the fields compared, lifetimes on clock
readings, use of a query or a room by the calls made, and the constants as numbers.

`dafny verify dfyconfig.toml` checks the whole project.

## What the proofs show about the code

Most of what the code and its documentation promise holds for all inputs. Where it does not,
the code is modelled as it is and the exact condition is proved:

* The iterative glob compares bytes before it looks for a star, so a `*` in the text can
  swallow the star of the pattern. It agrees with the recursive glob on a text for every
  pattern if and only if the text has no `*`, and on a pattern for every text if and only if
  the pattern has none (`Glob.AgreeOnText`, `Glob.AgreeOnPattern`).
* `DEL` answers true for an expired entry nobody has reclaimed yet. A run is answered as by the
  plain map of unexpired entries, and sweeps cannot be observed in it, if and only if that does
  not happen (`StringTier.RunRefinesPlainMap`, `StringTier.SweeperInvisible`,
  `StringTier.DelRevealsSweep`).
* A range start beyond the end is read as the last index and a stop before the front as the
  first one, so a range that names no pair can return the last or the first. The range is what
  its indices name in all other cases (`ZSet.RangeIsAsked`).
* A stream id repeats when the sequence number wraps at 2^64 within a millisecond; ids increase
  over a run if and only if that does not happen (`Streams.IssuedIdsIncrease`). A bare
  millisecond makes a range and the read after it overlap (`Streams.BareRangeThenRead`).
* The base64 decoder also accepts texts that are not encodings: padding inside, one pad where
  two belong, non-zero unused bits (`Base64.AcceptedIsEncoding`, `Base64.AcceptedNotEncodings`).
* A `sub` request that times out before its `sub-ok` arrives leaves a server registration that
  nobody releases while the connection lasts (`SubscriptionTheorems.QuiescentServer`,
  `SubscriptionTheorems.TimeOutOrphans`).
* The server keeps no snapshot when it answers a `sub`, so its first push lists every row as
  added; the client then shows the initial rows twice unless there were none
  (`LiveRows.FirstPush`).
* A join that fails leaves a room in use that is not joined, and later operations keep the
  parity wrong (`Presence.MembershipAtRest`).
* Clearing the offline queue while a rejection is on its way brings the rejected entry back
  (`SyncQueue.RemovalStays`).
* The event reader strips all white space around a value where section 9.2.6 of the WHATWG HTML
  Standard strips one leading space, skips data and event lines without a colon, and lets an
  empty event name stand. It emits what the standard does if and only if no complete frame
  shows the difference (`Sse.ReaderMeetsStandard`, `Sse.TrailingSpaceIsLost`).
* A query subscribed before the first connection stays without a subscription: its request fails
  on the closed socket, and only a reconnect asks again
  (`SubscriptionAdoption.SubscribedBeforeConnecting`). Any live query is adopted once all has
  settled if and only if its newest request did not fail
  (`SubscriptionAdoption.AdoptedUnlessFailed`).

Three statements of the repository promise more than the code does: that the protocol cache is a
superset of Redis (docs/HORIZONTAL_SCALING.md:201), where Redis answers the two clamped ranges
with nothing; the comment above `subscribe`
(packages/client-core/src/query.ts:337-339) that one server subscription is created per query,
which the time-out above breaks on the server's side; and the one above the presence registry
(packages/react/src/use-presence.ts:54-56) that a room is only left once the last subscriber
releases it, which says nothing of failed operations.

## Model

| member | source | states |
|---|---|---|
| `Text.U64RoundTrip` | packages/cache/src/ddb_cache.rs:175-180 | a printed unsigned 64-bit number parses back to itself |
| `Text.I64RoundTrip` | packages/cache-server/src/codec.rs:100-104 | a printed signed 64-bit integer parses back to itself |
| `Text.DecimalIs` | packages/cache-server/src/codec.rs:100-114 | a printed number is decimal digits whose place values add up to it, without a leading zero |
| `Text.ParseU64Is` | packages/cache/src/ddb_cache.rs:175-180 | read as an unsigned 64-bit number is exactly an optional plus sign and digits worth at most 2^64 - 1 |
| `Text.ParseI64Is` | packages/cache-server/src/codec.rs:174-181 | read as a signed 64-bit integer is exactly an optional sign and digits within -2^63 and 2^63 - 1 |
| `TextGrammar.ValidIs` | packages/cache-server/src/codec.rs:218-228 | a line is taken as text if and only if it is the UTF-8 encoding of Unicode scalar values |
| `TextGrammar.FloatIs` | packages/cache-server/src/codec.rs:183-191 | read as a double is exactly an optional sign before digits with a point and an exponent, or before inf, infinity or nan in any case |
| `TextGrammar.WordsAre` | packages/cache-server/src/codec.rs:347-356 | the words of an inline command are all words of the line, in order, each a whole run between Unicode white space |
| `Utf8.FloatPlain` | packages/cache-server/src/codec.rs:183-191 | every text of the grammar of doubles is ASCII without line ends, so it survives a line |
| `Resp.ParseFrame` | packages/cache-server/src/codec.rs:165-216 | on arbitrary bytes the parser terminates, and what it consumes is at least one byte and at most the input |
| `Resp.ParseItems` | packages/cache-server/src/codec.rs:286-296 | as many elements as announced, within the input |
| `Resp.ParsePairs` | packages/cache-server/src/codec.rs:331-343 | as many pairs as announced, within the input |
| `RespTheorems.LineStable` | packages/cache-server/src/codec.rs:218-228 | an answer about a line does not change when bytes are appended |
| `RespTheorems.FrameStable` | packages/cache-server/src/codec.rs:165-216 | a frame or an error is the same answer whatever bytes are appended |
| `RespTheorems.ArrayStable` | packages/cache-server/src/codec.rs:263-303 | the same for arrays and sets, through every nested element |
| `RespTheorems.MapStable` | packages/cache-server/src/codec.rs:305-345 | the same for maps |
| `RespTheorems.LineRoundTrip` | packages/cache-server/src/codec.rs:218-228 | a UTF-8 text written as a line is read back if it holds no line end, and only then |
| `RespTheorems.FrameRoundTrip` | packages/cache-server/src/codec.rs:88-155 | for every frame the types allow, any depth and any bytes behind it: parsing what was written gives the frame and exactly its length if lines, lengths and nesting are within the limits, and never gives the frame otherwise |
| `RespTheorems.ItemsRoundTrip` | packages/cache-server/src/codec.rs:286-296 | the same for a list of nested frames |
| `RespTheorems.PairsRoundTrip` | packages/cache-server/src/codec.rs:331-343 | the same for key-value pairs |
| `RespTheorems.CutWaits` | packages/cache-server/src/codec.rs:165-216 | every strict prefix of bytes that parse as one frame asks for more |
| `RespTheorems.PrefixWaits` | packages/cache-server/src/codec.rs:88-155 | every strict prefix of a written frame asks for more: no error, no other frame |
| `RespTheorems.DrainStable` | packages/cache-server/src/codec.rs:73-81 | draining a buffer and then the rest with new bytes is draining it all at once; a protocol error stays |
| `RespTheorems.ChunkingInvisible` | packages/cache-server/src/server.rs:72-98 | frames, error and leftover of a connection depend on its bytes only, not on how they were cut into chunks |
| `RespTheorems.DrainFrames` | packages/cache-server/src/codec.rs:69-82 | draining the concatenation of written frames gives exactly those frames and an empty buffer |
| `RespTheorems.StreamRoundTrip` | packages/cache-server/src/codec.rs:60-82 | every list of encodable frames arrives in order with nothing left over, however its bytes are cut |
| `RespGrammar.WrittenBytes` | packages/cache-server/src/codec.rs:88-155 | for every variant, the written bytes one by one: tag, digits of the length, line ends, payload, `#t`, `#f`, `$-1`, `*-1`, `_` |
| `RespGrammar.FrameIs` | packages/cache-server/src/codec.rs:165-356 | on arbitrary bytes the parser reads a frame from the front if and only if those bytes spell it in the grammar of the wire format: which first byte is which variant, every length and nesting limit as a number |
| `RespGrammar.ItemsAre` | packages/cache-server/src/codec.rs:286-296 | the same for the elements of an array or set, one behind another |
| `RespGrammar.PairsAre` | packages/cache-server/src/codec.rs:331-343 | the same for the pairs of a map |
| `RespCodec.WriteFrame` | packages/cache-server/src/codec.rs:88-155 | the recursive writer appends the encoding of the frame, byte for byte the one of `WrittenBytes`, and changes nothing before it |
| `RespCodec.ReadLine` | packages/cache-server/src/codec.rs:218-228 | the scan for the line end finds the first one |
| `RespCodec.ReadArray` | packages/cache-server/src/codec.rs:263-303 | the array reader with its element loop is the specified parser |
| `RespCodec.ReadItems` | packages/cache-server/src/codec.rs:286-296 | the loop with a moving cursor reads the elements, stops at the first error or gap |
| `RespCodec.ReadMap` | packages/cache-server/src/codec.rs:305-345 | the map reader is the specified parser |
| `RespCodec.ReadPairs` | packages/cache-server/src/codec.rs:331-343 | the pair loop reads the pairs, stops at the first error or gap |
| `RespCodec.ReadFrame` | packages/cache-server/src/codec.rs:165-216 | the mutually recursive reader is the specified parser, which reads the grammar of `FrameIs` |
| `RespCodec.Decode` | packages/cache-server/src/codec.rs:73-81 | a decode step removes exactly the bytes of the frame it returns, and none on an error or a gap |
| `RespCodec.WriteThenDecode` | packages/cache-server/src/codec.rs:60-82 | encoding into an empty buffer and decoding gives the frame back if and only if it is within the limits, leaving the buffer empty |
| `Glob.RecursiveIsMatches` | packages/cache/src/l1.rs:841-861 | the recursive matcher decides exactly the declarative relation: star any segment, question mark one byte |
| `Glob.GlobMatch` | packages/cache/src/ddb_cache.rs:854-880 | the backtracking loop terminates and decides an exact relation for every pattern and text, stars in the text included |
| `Glob.OnlyStarsLeft` | packages/cache/src/ddb_cache.rs:874-877 | at the end of the text exactly an all-star remainder matches |
| `Glob.NewStarDominates` | packages/cache/src/ddb_cache.rs:863-869 | forgetting an older star for a newer one loses no match |
| `Glob.LiteralIsRecursive` | packages/cache/src/ddb_cache.rs:854-880 | the iterative matcher has no false positives |
| `Glob.RecursiveIsLiteral` | packages/cache/src/ddb_cache.rs:854-880 | on a text without a star byte it misses nothing |
| `Glob.StarTextMissed` | packages/cache/src/ddb_cache.rs:860 | for every text with a star byte there is a pattern it wrongly rejects |
| `Glob.StarPatternMisses` | packages/cache/src/ddb_cache.rs:860 | for every pattern with a star there is a text it wrongly rejects |
| `Glob.AgreeOnText` | packages/cache/src/ddb_cache.rs:854-880 | on a text the two matchers agree for all patterns if and only if the text has no star byte |
| `Glob.AgreeOnPattern` | packages/cache/src/ddb_cache.rs:854-880 | for a pattern the two matchers agree on all texts if and only if the pattern has no star |
| `StringTier.RefinesPlainMap` | packages/cache/src/ddb_cache.rs:313-453 | each operation acts as on the plain map of unexpired entries, and answers as it unless DEL meets an expired entry, exactly then |
| `StringTier.RunRefinesPlainMap` | packages/cache/src/ddb_cache.rs:313-453 | over every run with a nondecreasing clock the answers are those of the plain map of unexpired entries if and only if no DEL of the run reports an expired entry |
| `StringTier.WithoutDelIsQuiet` | packages/cache/src/ddb_cache.rs:348-372 | a run without DEL is always answered as by the plain map |
| `StringTier.SweepsInvisible` | packages/cache/src/ddb_cache.rs:717-731 | two caches that differ by swept entries give the same answers for ever |
| `StringTier.SweeperInvisible` | packages/cache/src/ddb_cache.rs:717-731 | however sweeps are inserted into a run no answer changes, if and only if no DEL of the run removes an expired entry |
| `StringTier.DelRevealsSweep` | packages/cache/src/ddb_cache.rs:348-372 | from every state in which no other tier holds the key, a DEL right after the deadline answers true, and false when the sweeper was first |
| `StringTier.HitsAndMisses` | packages/cache/src/ddb_cache.rs:324-346 | over every run hits plus misses grow by the number of GETs |
| `StringTier.ExpiredCountedOnce` | packages/cache/src/ddb_cache.rs:444-453 | over every run entries stored equal entries resident plus entries counted as expired: each is counted once |
| `StringTier.Retain` | packages/cache/src/ddb_cache.rs:719-726 | visiting the entries in any order keeps exactly the unexpired ones and counts the others |
| `StringTier.StringCache.SetValue` | packages/cache/src/ddb_cache.rs:313-322 | replaces value and deadline and nothing else |
| `StringTier.StringCache.GetValue` | packages/cache/src/ddb_cache.rs:324-346 | the whole new state and the answer of a GET, the expired case included |
| `StringTier.StringCache.ReclaimString` | packages/cache/src/ddb_cache.rs:444-453 | drops and counts the entry only when it is expired |
| `StringTier.StringCache.KeyExists` | packages/cache/src/ddb_cache.rs:374-390 | presence in any of the tiers, reclaiming an expired string |
| `StringTier.StringCache.ExpireIn` | packages/cache/src/ddb_cache.rs:392-406 | sets a deadline on a live string, reclaims an expired one |
| `StringTier.StringCache.TimeToLive` | packages/cache/src/ddb_cache.rs:408-429 | whole seconds left, -1 without deadline, -2 without live entry |
| `StringTier.StringCache.MatchingKeys` | packages/cache/src/ddb_cache.rs:431-440 | sweeps, then lists the matching live keys |
| `StringTier.StringCache.Delete` | packages/cache/src/ddb_cache.rs:348-372 | removes the key from every tier and says whether any held it |
| `StringTier.StringCache.SweepExpiredOnce` | packages/cache/src/ddb_cache.rs:717-731 | removes and counts exactly the expired strings |
| `StringLifetime.SetLifetime` | packages/cache/src/ddb_cache.rs:313-453 | after a SET with lifetime d at time t, and whatever is done that does not write, delete or expire the key, GET, EXISTS, KEYS and EXPIRE find it at time u if and only if u < t + d, always without a lifetime; TTL is the whole seconds of t + d - u |
| `StringLifetime.ExpireLifetime` | packages/cache/src/ddb_cache.rs:392-406 | EXPIRE of d at time u moves the end of a value still there to u + d, and brings nothing back that is gone |
| `StringLifetime.HistoryAnswers` | packages/cache/src/ddb_cache.rs:313-453 | over every run, what the operations on a key answer follows from its SETs, EXPIREs and DELs and their times alone |
| `StringLifetime.SweepRemoves` | packages/cache/src/ddb_cache.rs:717-731 | a sweep removes and counts exactly the entries whose deadline has been reached |
| `StringLifetime.HitsAreFound` | packages/cache/src/ddb_cache.rs:324-346 | over every run hits are the GETs answered with a value, misses those answered without |
| `Ordering.SortSorts` | packages/cache/src/ddb_cache.rs:90-97 | sorting gives a sorted permutation |
| `Ordering.SortedUnique` | packages/cache/src/ddb_cache.rs:90-97 | two sorted arrangements of the same distinguishable elements are the same |
| `Ordering.SortPermutation` | packages/agent-memory/src/tiers.rs:242-246 | the sorted list does not depend on the order of the input |
| `Ordering.LexIsPrecedes` | packages/cache/src/ddb_cache.rs:90-97 | the recursive byte order is equality or the smaller byte at the first difference, the shorter text first |
| `ZSet.ZSetEntry.Add` | packages/cache/src/ddb_cache.rs:78-88 | sets the score in the member-to-score map, keeps the vector strictly ordered, says whether the member is new |
| `ZSet.ZSetEntry.Remove` | packages/cache/src/ddb_cache.rs:99-103 | removes the member from the map, keeps the order, says whether it was there |
| `ZSet.Canonical` | packages/cache/src/ddb_cache.rs:72-146 | the vector is determined by the map it stands for |
| `ZSet.StrictlyOrdered` | packages/cache/src/ddb_cache.rs:90-97 | earlier pairs have a lower score, or the same score and a member that comes first in byte order |
| `ZSet.RankCounts` | packages/cache/src/ddb_cache.rs:105-114 | the rank of a member is the number of members with a lower score, or the same score and before it; none for an absent member |
| `ZSet.RangeAtRank` | packages/cache/src/ddb_cache.rs:116-137 | the range from a member's rank to itself is that member with its score |
| `ZSet.RangesPartition` | packages/cache/src/ddb_cache.rs:116-137 | the ranges before and from any inner position make up the set |
| `ZSet.RangeIsAsked` | packages/cache/src/ddb_cache.rs:116-137 | a range returns the pairs at exactly the positions its indices name, if and only if neither the start is clamped back onto a range that reaches the last pair nor the stop is clamped up onto one that begins with the first; in those two cases it returns the last or the first pair |
| `ZSet.RangeByScoreSlice` | packages/cache/src/ddb_cache.rs:139-145 | the pairs in a score interval are one contiguous slice, and exactly those pairs |
| `Streams.IdRoundTrip` | packages/cache/src/ddb_cache.rs:162-180 | reading a printed id back is the identity, whatever the default sequence number |
| `Streams.ParseIdIs` | packages/cache/src/ddb_cache.rs:175-180 | a text names an id if and only if it is two 64-bit numbers around its first dash, or one and the default sequence number |
| `Streams.FormatIs` | packages/cache/src/ddb_cache.rs:171 | an id is printed as the digits of its two numbers around a dash |
| `Streams.BareRoundTrip` | packages/cache/src/ddb_cache.rs:175-180 | a bare millisecond takes the default sequence number |
| `Streams.NextIdGrows` | packages/cache/src/ddb_cache.rs:163-172 | the next id is above the last one, if and only if the sequence number does not wrap |
| `Streams.IssuedIdsIncrease` | packages/cache/src/ddb_cache.rs:162-173 | from any last id and for every course of the clock, stalls and jumps back included, all later ids strictly increase if and only if no step wraps a sequence number |
| `Streams.IssuedIdsAre` | packages/cache/src/ddb_cache.rs:162-173 | the id of every add: its millisecond is the latest clock reading so far, its sequence number counts the ids issued before in that millisecond, modulo 2^64 |
| `Streams.ShortRunsNeverWrap` | packages/cache/src/ddb_cache.rs:162-173 | fewer adds than there are sequence numbers left never wrap |
| `Streams.StreamState.Add` | packages/cache/src/ddb_cache.rs:580-588 | appends one entry under the next id and keeps the stream ordered |
| `Streams.SplitExact` | packages/cache/src/ddb_cache.rs:610-642 | entries up to an id and entries after it make up the stream, in order |
| `Streams.RangeThenRead` | packages/cache/src/ddb_cache.rs:590-642 | a range up to a printed id followed by a read after it is the whole stream, nothing lost or repeated |
| `Streams.BareRangeThenRead` | packages/cache/src/ddb_cache.rs:590-642 | with a bare millisecond that holds if and only if the millisecond has no entry past its first |
| `Streams.XrangeExact` | packages/cache/src/ddb_cache.rs:590-623 | for every ordered stream and all bounds, XRANGE returns in order and once each exactly the entries from lo to hi, compared as numbers; `-` and `+` leave a side open, a bare millisecond is sequence 0 as a start and 2^64 - 1 as an end |
| `Streams.XrangeUnreadable` | packages/cache/src/ddb_cache.rs:594-609 | a bound that names no id gives nothing |
| `Streams.XreadExact` | packages/cache/src/ddb_cache.rs:625-642 | XREAD returns exactly the entries above the id given, a bare millisecond being its sequence 0 |
| `Streams.XreadUnreadable` | packages/cache/src/ddb_cache.rs:629-631 | an id that cannot be read gives nothing |
| `L1.EvictionMeetsBudget` | packages/cache/src/l1.rs:704-736 | corollary: after an eviction the stored bytes are within the budget |
| `L1.EvictionIsMinimal` | packages/cache/src/l1.rs:704-735 | only a store over its budget loses entries, the least recently used ones; nine tenths of the budget are enough to stop, and without its last victim usage would be above them |
| `L1.NewcomerGoesFirst` | packages/cache/src/l1.rs:66-84 | corollary: if a new entry survives its own insertion then only entries never read since stored were evicted |
| `L1.L1Cache.RemoveEntry` | packages/cache/src/l1.rs:194-199 | removes the entry and gives its bytes back |
| `L1.L1Cache.LruOrder` | packages/cache/src/l1.rs:715-722 | lists every stored key once, oldest tick first |
| `L1.L1Cache.MaybeEvict` | packages/cache/src/l1.rs:704-736 | used bytes are the sum of stored sizes and within the budget; evicted ticks are at most every surviving tick, usage was above the target before every removal, and each removal is counted |
| `L1.L1Cache.EvictInOrder` | packages/cache/src/l1.rs:724-735 | the eviction loop does one such pass |
| `L1.L1Cache.InsertEntry` | packages/cache/src/l1.rs:184-192 | replacing or adding an entry keeps the accounting and the budget |
| `L1.L1Cache.Touch` | packages/cache/src/l1.rs:93-97 | a read takes the next tick and changes no size |
| `L1.L1Cache.SetMaxBytes` | packages/cache/src/l1.rs:156-159 | a new budget is met at once |
| `L1.L1Cache.SetValue` | packages/cache/src/l1.rs:246-250 | stores the entry and keeps accounting and budget |
| `L1.L1Cache.GetValue` | packages/cache/src/l1.rs:253-285 | hit, miss, wrong kind and expiry: new store, ticks and counters, accounting kept |
| `L1.L1Cache.Delete` | packages/cache/src/l1.rs:288-297 | removes key and sketches, accounting kept |
| `L1.L1Cache.Exists` | packages/cache/src/l1.rs:300-318 | presence of a live entry or a sketch, reclaiming an expired entry |
| `L1.L1Cache.ExpireIn` | packages/cache/src/l1.rs:321-328 | sets a deadline even on an entry that has expired |
| `L1.L1Cache.CheckKind` | packages/cache/src/l1.rs:201-218 | a wrong kind is reported for a live entry only, an expired one is removed |
| `L1.L1Cache.LoadValue` | packages/cache/src/l1.rs:220-241 | reading a structured value: expiry, wrong kind, and the tick a value found takes; accounting kept |
| `L1.L1Cache.Rewrite` | packages/cache/src/l1.rs:380-395 | a structured write checks the kind, drops the deadline, and keeps accounting and budget |
| `L1.L1Cache.Flush` | packages/cache/src/l1.rs:360-365 | empties the store with nothing used |
| `Base64.Encode` | packages/cache/src/l1.rs:772-800 | four letters for every three bytes begun |
| `Base64.Base64Encode` | packages/cache/src/l1.rs:772-800 | the loop computes the encoding, with every table index in range |
| `Base64.EncodeSpells` | packages/cache/src/l1.rs:777-798 | every letter of the encoding stands for the next six bits of the input read as one bit string, zero bits filling up, and pads follow |
| `Base64.EncodingIsSpecified` | packages/cache/src/l1.rs:772-800 | a text is the encoding if and only if it has the length and, position by position, the letters and pads of section 4 of RFC 4648 |
| `Base64.Base64Decode` | packages/cache/src/l1.rs:802-838 | the loop computes the specified decoding, failing at the first bad letter or on a bad length |
| `Base64.ValueInjective` | packages/cache/src/l1.rs:803-812 | letters and six-bit values correspond one to one |
| `Base64.AlphabetIs` | packages/cache/src/l1.rs:774 | the 64 letters, in order, are those of table 1 of RFC 4648 |
| `Base64.RoundTrip` | packages/cache/src/l1.rs:772-838 | decoding an encoding gives the bytes back, for every byte sequence |
| `Base64.AcceptedIsEncoding` | packages/cache/src/l1.rs:802-838 | an accepted text is the encoding of what it decodes to if and only if its padding is canonical |
| `Base64.AcceptedTexts` | packages/cache/src/l1.rs:814-836 | exactly which texts are accepted: whole groups, pads allowed in any of them |
| `Base64.AcceptedNotEncodings` | packages/cache/src/l1.rs:827-834 | an accepted text that is no encoding, for each of the ways this happens |
| `SubscriptionInvariant.NextKeeps` | packages/client-core/src/query.ts:347-464 | every step of client, wire and server keeps the reference counts, the push handlers and the bookkeeping of every message in transit |
| `SubscriptionInvariant.RunKeeps` | packages/client-core/src/query.ts:347-464 | so does every run |
| `SubscriptionTheorems.RefCountIsOpenHandles` | packages/client-core/src/query.ts:365-405 | in every run a record's reference count is the number of its handles still open and a live record has a hook; which handles those are, by the calls, is `LiveWhileUsed` |
| `SubscriptionTheorems.OneSubscriptionPerQuery` | packages/client-core/src/query.ts:363-383 | two adopted subscriptions of the same query hash are the same one, and there is a push handler for exactly the adopted ones |
| `SubscriptionUse.UsersAreHolders` | packages/client-core/src/query.ts:395-402 | from the calls of a run alone: a handle is in use if and only if its subscribe call was made and no unsubscribe of it and no session end came after |
| `SubscriptionUse.LiveWhileUsed` | packages/client-core/src/query.ts:347-411 | in every run a query has a live record, with a reconnect hook, if and only if a handle on it is in use, and the record's reference count is the number of those handles, each once |
| `SubscriptionUse.UnusedIsGone` | packages/client-core/src/query.ts:404-411 | once no handle on a query is in use, no record of it is live, has a hook or a push handler |
| `SubscriptionUse.LastUserReleases` | packages/client-core/src/query.ts:404-415 | when the last user of an adopted subscription unsubscribes on an open socket, the handler goes, `unsub` is sent and the server drops the registration |
| `SubscriptionUse.AllGivenBack` | packages/client-core/src/query.ts:397-417 | a settled run without time-outs in which every handle was unsubscribed ends with no registration on the server and no record, hook or handler |
| `SubscriptionTheorems.QuiescentServer` | packages/client-core/src/query.ts:426-464 | when nothing is in transit the server holds the adopted subscriptions and the orphans; exactly the adopted ones if and only if no sub-ok came after its request had timed out |
| `SubscriptionTheorems.NoTimeOutNoLeak` | packages/client-core/src/query.ts:426-464 | in every run without request time-outs the settled server holds exactly the adopted subscriptions |
| `SubscriptionTheorems.TimeOutOrphans` | packages/client-core/src/client.ts:247-250 | from every reachable state, a request that times out before its sub-ok arrives leaves a registration nobody releases |
| `SubscriptionTheorems.TimeOutLeaks` | packages/client-core/src/client.ts:445-454 | one such run ends settled with nothing adopted and a registration on the server |
| `SubscriptionTheorems.SupersededIsReleased` | packages/client-core/src/query.ts:445-451 | corollary: on an open socket a sub-ok that is not adopted is unsubscribed, and the server drops it |
| `SubscriptionTheorems.EndedHandleDoesNothing` | packages/client-core/src/query.ts:397-402 | a handle from before a session end changes nothing, whatever has happened since |
| `SubscriptionTheorems.CanSettle` | packages/client-core/src/query.ts:426-464 | from every connected state delivery alone leads to a settled one |
| `SubscriptionAdoption.AdoptedUnlessFailed` | packages/client-core/src/query.ts:426-464 | in every run that ends settled, a live query has adopted the subscription of its newest request, held by the server, if and only if that request was not refused, timed out, lost with its connection or made on a closed socket |
| `SubscriptionAdoption.SubscribedBeforeConnecting` | packages/client-core/src/client.ts:364-373 | a query subscribed before the first connection is never asked for: the run settles with a live query, nothing adopted and an empty server |
| `SubscriptionClient.LiveQueries.OpenSubscription` | packages/client-core/src/query.ts:426-436 | a new generation and its request, refused at once on a closed socket |
| `SubscriptionClient.LiveQueries.SubscribeQuery` | packages/client-core/src/query.ts:347-395 | joins the record of the hash or creates it, installs its hook and opens it |
| `SubscriptionClient.LiveQueries.UnsubscribeHandle` | packages/client-core/src/query.ts:397-417 | a handle works once; the last one retires the record and gives its subscription back, the step `UnusedIsGone` and `LastUserReleases` are about |
| `SubscriptionClient.LiveQueries.Resume` | packages/client-core/src/query.ts:438-463 | the code after the reply adopts the id of the newest request of a live record and hands back any other |
| `SubscriptionClient.LiveQueries.ReopenAll` | packages/client-core/src/client.ts:502-512 | running the reconnect hooks one after another, in any order, is the simultaneous reopening of the state machine |
| `SubscriptionClient.LiveQueries.ConnectionAuthenticated` | packages/client-core/src/client.ts:364-373 | the first connection opens nothing, every later one reopens all |
| `SubscriptionClient.LiveQueries.ResetSubscriptions` | packages/client-core/src/query.ts:269-281 | after a session end no record, hook or push handler is left |
| `LiveRows.KeysRemoved` | packages/client-core/src/query.ts:470-472 | the loop over the removed rows collects exactly their keys, leaving out rows without one |
| `LiveRows.RowsUpdated` | packages/client-core/src/query.ts:473-480 | the loop over the updated rows builds a map in which a later row of a key replaces an earlier one |
| `LiveRows.FilterRows` | packages/client-core/src/query.ts:482-486 | the rows whose key was not removed, in order, rows without a key included |
| `LiveRows.MapRows` | packages/client-core/src/query.ts:487-490 | every row with an update in the map gives way to it |
| `LiveRows.ActiveRows.ApplyPush` | packages/client-core/src/query.ts:467-494 | set, map, filter, map and append together are the fold the theorems are about |
| `LiveRows.NormalKeepsKey` | packages/client-core/src/query.ts:61-63 | normalising keeps the key of a row if and only if there is no entity_id, no other identity, or both name the same key |
| `LiveRows.ServerRowShown` | packages/client-core/src/query.ts:61-63 | a row of the server is shown as it came, its identity in the public `id` as well |
| `LiveRows.KeylessRowsStay` | packages/client-core/src/query.ts:470-499 | no push removes or replaces a row whose first identity is missing, no string or empty |
| `LiveRows.PushShows` | packages/server/src/api/ws.rs:1506-1551 | folding the server's diff into rows equal to its old result, as keyed maps with distinct keys, gives rows equal to its new result |
| `LiveRows.PushOrder` | packages/client-core/src/query.ts:482-492 | rows that stay keep their relative order and added rows come last, for every diff |
| `LiveRows.SessionShows` | packages/server/src/api/ws.rs:1439-1471 | over every sequence of results the client shows the latest one, provided the server's first snapshot is what the client shows |
| `LiveRows.FirstPush` | packages/server/src/api/ws.rs:733-773 | as no snapshot is stored with the first answer, the first push is right if and only if the initial result was empty |
| `LiveRows.SessionFromEmpty` | packages/server/src/api/ws.rs:1439-1471 | from an empty initial result the client shows the latest result after every push |
| `Sse.AppendChunk` | packages/client-core/src/rest.ts:254-259 | the character loop appends the normalised chunk and carries a pending CR over |
| `Sse.ReadFrame` | packages/client-core/src/rest.ts:267-281 | the field loop reads a frame; a frame without data emits nothing |
| `Sse.DrainBuffer` | packages/client-core/src/rest.ts:261-282 | the boundary loop cuts off every complete frame, in order |
| `Sse.ReadStream` | packages/client-core/src/rest.ts:245-283 | events, leftover buffer and pending CR are those of one reading of the whole stream, however it was cut into chunks, even inside a CRLF |
| `Sse.NormaliseAppend` | packages/client-core/src/rest.ts:254-259 | normalising in two parts is normalising at once |
| `Sse.DrainAppend` | packages/client-core/src/rest.ts:261-282 | complete frames do not depend on what follows them |
| `Sse.NormaliserMeetsStandard` | packages/client-core/src/rest.ts:254-259 | the look-behind normaliser ends lines where section 9.2.5 of the WHATWG HTML Standard does: CRLF, LF or CR |
| `Sse.MixedEnds` | packages/client-core/src/rest.ts:254-259 | lines ended in any mixture of the three ways read like lines ended by LF if and only if no CR meets the LF of an empty line |
| `Sse.UniformEnds` | packages/client-core/src/rest.ts:254-283 | replacing LF by CR or by CRLF throughout a stream changes no event |
| `Sse.EveryStreamIsLines` | packages/client-core/src/rest.ts:254-259 | every stream without a CR is such a list of lines |
| `Sse.DrainIsByLine` | packages/client-core/src/rest.ts:261-282 | cutting the buffer at blank lines and reading each frame is reading line by line with a blank line dispatching |
| `Sse.ReaderIsByLine` | packages/client-core/src/rest.ts:245-283 | for every stream, buffer and frames emit what reading line by line emits, a blank line dispatching |
| `Sse.FaithfulLine` | packages/client-core/src/rest.ts:270-277 | the code reads a line as section 9.2.6 does, whatever came before, if and only if a data or event line has its colon, nothing to trim but one space, and a name that is not empty |
| `Sse.TrailingSpaceIsLost` | packages/client-core/src/rest.ts:274-275 | a data line the code reads differently from the standard |
| `Sse.TrimIs` | packages/client-core/src/rest.ts:272-275 | trimming takes all white space off both ends of a value and nothing else |
| `Sse.StandardIsSpecified` | packages/client-core/src/rest.ts:267-281 | gathering data lines and joining them is what the string buffers of section 9.2.6 do: each data field appends its value and a line feed, dispatch drops the last one |
| `Sse.FaithfulFrameOnly` | packages/client-core/src/rest.ts:267-281 | the code reads a frame as the standard does if and only if its data lines are faithful and, when it has any, so is its last event line, or that one has no colon and comes while the name is the default |
| `Sse.ReaderMeetsStandard` | packages/client-core/src/rest.ts:245-283 | for every stream the reader emits exactly what sections 9.2.5 and 9.2.6 of the standard emit if and only if every complete frame is faithful |
| `Sse.WrittenEventsArrive` | packages/client-core/src/rest.ts:267-281 | a written stream of events arrives event by event, trimmed, and events without data do not |
| `SyncQueue.NextKeeps` | packages/client-core/src/sync.ts:203-285 | every step, in any interleaving with a replay, keeps the bookkeeping of every entry |
| `SyncQueue.OneFate` | packages/client-core/src/sync.ts:241-277 | in every run an entry is queued, delivered or discarded, never two of them, and in none of them only if the caller removed it |
| `SyncQueue.AttemptsAreRejections` | packages/client-core/src/sync.ts:255-272 | a queued entry's attempts are its rejections, fewer than five; an entry is discarded at its fifth rejection and not before |
| `SyncQueue.AcceptedOnce` | packages/client-core/src/sync.ts:241-253 | however calls interleave no entry is accepted twice, and the numbers replays return add up to the entries delivered |
| `SyncQueue.TransportFailureLeavesRest` | packages/client-core/src/sync.ts:255-258 | a transport failure ends the replay; its entry and all later ones are as the replay had read them, and of these exactly the ones somebody removed in the meantime are gone |
| `SyncQueue.EnqueuedDuringReplay` | packages/client-core/src/sync.ts:203-213 | an entry enqueued during a replay stays as it is until the queue is read again, if and only if the caller does not remove it, whatever else is removed |
| `SyncQueue.RemovalStays` | packages/client-core/src/sync.ts:268-271 | a removed entry stays removed in every step if and only if the step does not store the rejection of an entry removed in flight |
| `SyncQueue.RemovalFinalAtRest` | packages/client-core/src/sync.ts:282-285 | if entries are only removed while no replay holds the queue, removal is final over every run |
| `SyncQueue.ClearedEntryReturns` | packages/client-core/src/sync.ts:282-285 | a run in which a cleared entry comes back |
| `SyncQueue.ListingUnique` | packages/client-core/src/sync.ts:218-221 | the queue in order of creation, ties by id, can be read in one way only |
| `SyncQueue.OldestFirst` | packages/client-core/src/sync.ts:218-221 | however the queue is read, earlier entries are older, or as old with an identifier that comes first |
| `SyncQueue.ReplayOutcome` | packages/client-core/src/sync.ts:241-277 | an undisturbed replay, entry by entry: before the first transport failure accepted entries are gone, rejected ones have one more attempt or are gone at the fifth; all others are unchanged; the number returned is the number accepted |
| `SyncQueue.SyncEngine.Enqueue` | packages/client-core/src/sync.ts:203-213 | stores a new entry with no attempts |
| `SyncQueue.SyncEngine.GetQueue` | packages/client-core/src/sync.ts:218-221 | every stored entry once, oldest first, entries of the same time by identifier in byte order |
| `SyncQueue.SyncEngine.Dequeue` | packages/client-core/src/sync.ts:228-231 | removes one entry |
| `SyncQueue.SyncEngine.ClearQueue` | packages/client-core/src/sync.ts:282-285 | removes all entries |
| `SyncQueue.SyncEngine.Submit` | packages/client-core/src/sync.ts:250-273 | the replay loop runs exactly the answer and store steps of the entries, up to the first transport failure |
| `SyncQueue.SyncEngine.ReplayQueue` | packages/client-core/src/sync.ts:241-277 | an undisturbed replay ends in the state its steps lead to and returns the number delivered; a second call at the same time returns 0 and does nothing |
| `Presence.RoomEntry.EnqueueOp` | packages/react/src/use-presence.ts:83-93 | an operation starts at once or waits for the tail, and becomes the tail |
| `Presence.RoomEntry.AcquireRoom` | packages/react/src/use-presence.ts:99-108 | counts the subscriber and joins for the first one only |
| `Presence.RoomEntry.ReleaseRoom` | packages/react/src/use-presence.ts:111-119 | counts the subscriber out and leaves after the last one only |
| `Presence.NextKeeps` | packages/react/src/use-presence.ts:83-119 | every step keeps order, alternation and the tie between count, tail and queue |
| `Presence.CountsUsers` | packages/react/src/use-presence.ts:99-119 | in every run the count is the acquires less the releases that found a subscriber, and one operation is queued for every first one in and last one out |
| `Presence.CanSettle` | packages/react/src/use-presence.ts:83-93 | nothing queued is ever stuck: starting and settling in turn gets everything done |
| `Presence.RestStartsAtOnce` | packages/react/src/use-presence.ts:83-93 | when everything has settled, clearing the tail lets the next first subscriber join at once, and its promise is that join |
| `Presence.OneAtATime` | packages/react/src/use-presence.ts:83-93 | in every run operations never overlap, run in the order queued, and alternate strictly from a join on |
| `Presence.MembershipAtRest` | packages/react/src/use-presence.ts:99-119 | when everything has settled the room is joined exactly when some subscriber of the run still uses it, if and only if an even number of operations failed since the last success |
| `Presence.FailedJoin` | packages/react/src/use-presence.ts:99-108 | a run that ends in use and not joined |
| `Presence.AcquireWaitsForJoin` | packages/react/src/use-presence.ts:103-105 | whatever it found, an acquire resolves only after the join it depends on has settled |
| `Demotion.WorkingTier.Push` | packages/agent-memory/src/tiers.rs:155-165 | the eviction loop hands out the oldest entries beyond the capacity and keeps the rest |
| `Demotion.WorkingTier.Len` | packages/agent-memory/src/tiers.rs:168-170 | the number of entries held, none for an unknown session |
| `Demotion.WorkingTier.DrainSession` | packages/agent-memory/src/tiers.rs:178-183 | hands out and forgets the whole buffer of a session |
| `Demotion.FirstInFirstOut` | packages/agent-memory/src/tiers.rs:151-183 | over every run, what was handed out for a session followed by what is held is what was pushed, in order |
| `Demotion.HoldsNewest` | packages/agent-memory/src/tiers.rs:151-165 | a session holds the newest twenty entries since its last drain |
| `Demotion.PlanSizes` | packages/agent-memory/src/tiers.rs:248-260 | n/20 archival ids and n/5 - n/20 semantic ids |
| `Demotion.PlanRanks` | packages/agent-memory/src/tiers.rs:233-263 | with distinct ids, the number of entries with a lower score, or the same score and an earlier id, decides: below n/20 the entry is archived, from n/20 to n/5 - 1 semantic, and it is its place in that list |
| `Demotion.PlanOrder` | packages/agent-memory/src/tiers.rs:252-260 | an archived entry has a lower score than one that is not, or the same score and an earlier id; likewise semantic against kept; no entry is in both lists |
| `Demotion.PlanPermutation` | packages/agent-memory/src/tiers.rs:237-246 | the plan is the same for every order of the input, repeated ids included |
| `Fusion.FirstPositionIs` | packages/agent-memory/src/hybrid_recall.rs:35-56 | the rank used is the first one-based position of the id, and none when it is absent |
| `Fusion.CountText` | packages/agent-memory/src/hybrid_recall.rs:36-57 | one row of the text list counts for its id only if that list has not named the id before |
| `Fusion.CountVector` | packages/agent-memory/src/hybrid_recall.rs:36-57 | one row of the vector list likewise |
| `Fusion.RankHits` | packages/agent-memory/src/hybrid_recall.rs:60-65 | sorting the table's values gives one ranking, whatever order they come out in |
| `Fusion.FuseRanks` | packages/agent-memory/src/hybrid_recall.rs:29-67 | the nested loops, sort and truncation compute the specified ranking, for every k and limit |
| `Fusion.EachOnce` | packages/agent-memory/src/hybrid_recall.rs:16-20 | supplied ids only, each once, at most the limit, with first positions, the raw scores found there, and the sum of 1 / (k + position), a negative or non-finite k being zero |
| `Fusion.BestFirst` | packages/agent-memory/src/hybrid_recall.rs:61-66 | a higher score first, equal scores by the earlier id in byte order; an id that is cut off has a full list of hits strictly before it |
| `Fusion.RawScoresIrrelevant` | packages/agent-memory/src/hybrid_recall.rs:20-21 | raw scores, of any type, change no id, order, fused score or rank |
| `Fusion.SwapKeeps` | packages/agent-memory/src/hybrid_recall.rs:35-57 | exchanging the two lists keeps ids, places and fused scores |
| `Fusion.SmallerLimit` | packages/agent-memory/src/hybrid_recall.rs:66 | corollary: the result for a smaller limit is a prefix of the result for a larger one |

## Left out

- RespTheorems.FrameRoundTrip: a double is carried as its decimal text, so printing and rounding of `f64` are not modelled; the text is any of the grammar `str::parse` accepts.
- L1.EvictionMeetsBudget: the target is nine tenths in integer arithmetic; the rounding of `max as f64 * 0.9` is not modelled.
- Demotion.PlanSizes: n/20 and n/5 are integer divisions; rounding of `n as f64 * 0.05` and `* 0.20` for n beyond 2^53 is not modelled.
- Demotion.PlanOrder: retention scores are reals given with the entries; the exponential and logarithm of the scoring functions and NaN are not modelled.
- Fusion.EachOnce: fused scores and a finite k are reals; rounding is not modelled.
- ZSet.StrictlyOrdered: scores are reals; NaN, which the comparison treats as equal to everything, is not modelled.
- StringTier.SweeperInvisible: each operation is one step at one clock reading; races between threads on the concurrent maps are not modelled. The map's iteration order is not modelled: KEYS is a set.
- StringTier.StringCache.Delete: hashes, lists, sorted sets and streams are one set of keys, bloom filters and HyperLogLog sketches another; their contents are elsewhere or not modelled.
- StringTier.HitsAndMisses: counters are unbounded integers.
- Streams.StreamState.Add: the add of the 64-bit sequence number wraps, as in a release build; a debug build would panic there. The lookup of a stream by key is not modelled.
- L1.L1Cache.Rewrite: a stored value is an opaque size; compression, JSON and the commands that differ only in the value they write are one operation, at one clock reading. TTL and KEYS of this tier read without changing anything.
- Sse.ReaderMeetsStandard: the id and retry fields, which the code ignores and which emit nothing, are not part of an event here.
- Sse.ReadStream: chunks are decoded characters; the decoding of UTF-8 across chunks and the abort signal are not modelled.
- SubscriptionTheorems.QuiescentServer: callbacks and row delivery are not part of the state machine, server replies to subscriptions are processed once the connection is authenticated, a closing socket is a closed one, and the server answers each request at most once.
- SubscriptionTheorems.NoTimeOutNoLeak: the client has one connection at a time. Calling `connect()` during back-off (packages/client-core/src/client.ts:187-202) opens a second socket, which the pending reconnect timer then replaces without closing it (lines 356-358, 491-500); an abandoned socket keeps its registrations with no time-out involved, and that is not modelled.
- SubscriptionAdoption.AdoptedUnlessFailed: about the same single connection; a reply of the server other than sub-ok or sub-err is not modelled.
- SubscriptionTheorems.CanSettle: says that settling is possible, not that the network does it.
- LiveRows.PushShows: a row is its identity fields and an opaque body; attribute aliases of normalisation and the difference between null and absent fields are not modelled. The identity the server puts in a row is assumed not to be shadowed by an attribute.
- SyncQueue.OneFate: failures of IndexedDB itself are not modelled, identifiers are assumed fresh, and a transaction whose answer was lost in transit counts as a transport failure.
- SyncQueue.SyncEngine.ReplayQueue: as one method it runs undisturbed; interleavings are covered by the step machine the theorems are about.
- Presence.OneAtATime: an operation that throws before it returns a promise is not modelled.
- RespGrammar.FrameIs: which of its errors the parser gives for bytes that spell no frame is in the definitions and the two stability results only; that it asks for more on any prefix of a frame is `CutWaits`.
- Hash, list, bloom filter, HyperLogLog and pub/sub commands: they would add easy members, or rest on hashing.
- One-shot queries and the REST transport: no shared state beyond one request.
- The database half of promotion, the second cache tier and the unified facade: their semantics live in Postgres, or follow from the tiers for non-overlapping calls.
- Optimistic updates, the query cache and the catch-up marker of the sync engine: single map operations.
- Presence publish throttling: its spacing depends on timers.
