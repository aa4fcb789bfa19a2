# ArangoDB core pieces in Dafny

This project models five small, sequential pieces of ArangoDB and proves properties about them:

- **Async-write bookkeeping of the RocksDB persisted replicated log** (`PersistedLog`).
  - An `AsyncLogWriteContext` counts a log's outstanding asynchronous operations.
  - An `AsyncLogOperationGuard` registers one operation on a context and finishes it at most once.
  - A write-batcher `Request` holds such a guard for as long as it lives.
  - The batcher has two fixed lanes.
  - A `RocksDBReplicatedStateInfo` record is saved and loaded field by field.
  - Contexts and guards refer to each other by pointer in C++. Here they live in a `World` value and refer to each other by position. The accounting invariant `Inv` says:
    - every context's counter equals the number of guards attached to it;
    - every registered operation is finished at most once, and it is held by a guard until then.
- **Follower compaction of the replicated log** (`InMemoryLog`, `ReplicatedLog`).
  - One leader and one follower in a term, as the `simple_release` test drives them: insert, replicate until quiescent, commit index, in-memory copy, and `release(stop)`.
  - Compaction only runs when at least 1000 entries would go.
  - Persistence completes inline, as with the test's synchronous executor.
- **The typed identifier** (`Identifiers`): a 64-bit unsigned wrapper. Its equality, order, hash, `std::equal_to` and formatter all derive from the wrapped id.
- **Transaction helpers** (`TransactionHelpers`).
  - `extractKeyPart` on a string: the part after the first '/'.
  - `BuilderLeaser`'s `steal` and move constructor.
- **The jsUnity test runner** (`JsUnityText`, `JsUnityHash`, `JsUnitySuite`, `JsUnityRun`).
  - `plural`.
  - `reduceStack` (line filtering, de-duplication and truncation).
  - The structural `hash` behind `assertEqual`/`assertNotEqual`.
  - `parseSuiteObject`.
  - The per-test setUp/test/tearDown retry loop.
  - The suite loop of `run` with its `total`/`passed`/`failed` accounting.

Shared helpers:
- `Wrappers`: `Option` and `Result`.
- `Uint`: the 64-bit unsigned range.
- `Decimal`: decimal text of integers, with its parser and the round trip between them.

Functions the test calls cannot be run in a model. Whether a call throws comes from an oracle, `Calls`, given as a parameter: it maps a function identity and an argument to a fault or to nothing.

A thrown `null` or `undefined` is a fault of its own kind. The `catch` blocks of `run` read its `stack`, which raises a TypeError that nothing catches, so `run` ends with that exception and no results.

## Model

| member | source | states |
|---|---|---|
| PersistedLog.AddContext | arangod/RocksDBEngine/RocksDBPersistedLog.h:38-42 | a new context carries the given vocbase and object ids and starts with nothing pending; nothing else in the world changes |
| PersistedLog.EmptyWorldInv | arangod/RocksDBEngine/RocksDBPersistedLog.h:59 | with no contexts, guards or operations the accounting invariant holds |
| PersistedLog.AddContextPreservesInv | arangod/RocksDBEngine/RocksDBPersistedLog.h:38-59 | adding a context keeps the accounting exact, and the new counter is 0 |
| PersistedLog.DefaultGuard | arangod/RocksDBEngine/RocksDBPersistedLog.h:63 | a default-constructed guard is detached; no counter and no operation changes |
| PersistedLog.DefaultGuardPreservesInv | arangod/RocksDBEngine/RocksDBPersistedLog.h:63 | creating a detached guard keeps the accounting invariant |
| PersistedLog.Construct | arangod/RocksDBEngine/RocksDBPersistedLog.h:67-69 | constructing on context c registers exactly one new unfinished operation there; c's counter rises by one, its ids stay, and every other context is untouched |
| PersistedLog.ConstructPreservesInv | arangod/RocksDBEngine/RocksDBPersistedLog.h:67-69 | after construction each counter still equals the number of guards attached to it, and each operation is held until finished |
| PersistedLog.Fire | arangod/RocksDBEngine/RocksDBPersistedLog.h:71-78 | firing an attached guard lowers its context's counter by one, marks its operation finished once more, and detaches it; a detached guard changes nothing |
| PersistedLog.FirePreservesInv | arangod/RocksDBEngine/RocksDBPersistedLog.h:71-78 | firing keeps the accounting exact, and an attached guard's operation ends up finished exactly once |
| PersistedLog.FireAtMostOnce | arangod/RocksDBEngine/RocksDBPersistedLog.h:63-78 | firing twice equals firing once, and firing a default-constructed guard leaves the world as it was |
| PersistedLog.MoveConstruct | arangod/RocksDBEngine/RocksDBPersistedLog.h:64 | the new guard takes over the source's context and operation, the source is left detached, and no counter moves |
| PersistedLog.MoveConstructPreservesInv | arangod/RocksDBEngine/RocksDBPersistedLog.h:62-87 | a move hands over the obligation and keeps the accounting exact |
| PersistedLog.TransferPreservesInv | arangod/RocksDBEngine/RocksDBPersistedLog.h:64-66 | handing a guard's pointer to a detached guard keeps the accounting exact |
| PersistedLog.MoveThenDestroyBoth | arangod/RocksDBEngine/RocksDBPersistedLog.h:64-78 | take a guard, move it, and destroy both ends: its operation is finished exactly once and the context's counter returns to its earlier value |
| PersistedLog.MoveAssignAsWritten | arangod/RocksDBEngine/RocksDBPersistedLog.h:62-87 | the defaulted move assignment: the target takes the source's pointer and the source is detached; no counter moves, even if the target held an operation |
| PersistedLog.MoveAssignAsWrittenLeaks | arangod/RocksDBEngine/RocksDBPersistedLog.h:62-87 | two guards on one context, one move-assigned onto the other: the invariant breaks, and after every guard has fired the counter stays at 1 |
| PersistedLog.MoveAssign | arangod/RocksDBEngine/RocksDBPersistedLog.h:65-78 | move assignment that first fires the target: counters and operations are those of firing the target; self-assignment changes nothing |
| PersistedLog.MoveAssignPreservesInv | arangod/RocksDBEngine/RocksDBPersistedLog.h:65-78 | the firing move assignment keeps the accounting exact |
| PersistedLog.DrainedMeansAllFinished | arangod/RocksDBEngine/RocksDBPersistedLog.h:38-87 | once no guard is attached, every counter is 0 and every registered operation was finished exactly once |
| PersistedLog.MakeRequest | arangod/RocksDBEngine/RocksDBPersistedLog.h:142-147 | a request copies its context's object id and its action, and holds a new guard attached to that context, whose counter rises by one |
| PersistedLog.RequestLifetime | arangod/RocksDBEngine/RocksDBPersistedLog.h:142-149 | a request keeps exactly one operation pending on its context from creation until it is destroyed; afterwards the counter is back and the operation is finished once |
| PersistedLog.ApplyAction | arangod/RocksDBEngine/RocksDBPersistedLog.h:128-140 | the three actions: insert appends a contiguous run after the last entry, with the k-th given entry at index last + 1 + k, or fails; remove-front keeps exactly the indices at or above `stop`; remove-back keeps exactly those below `start`; every entry that stays holds what it held before |
| InMemoryLog.AppendAllPlaces | arangod/RocksDBEngine/RocksDBPersistedLog.h:128-130 | a successful append puts the k-th given entry at index last + 1 + k |
| PersistedLog.MakeLane | arangod/RocksDBEngine/RocksDBPersistedLog.h:167-179 | a lane waits for sync exactly when built with the `WaitForSync` tag, and starts with no pending requests and no active persistor threads |
| PersistedLog.Lanes | arangod/RocksDBEngine/RocksDBPersistedLog.h:183-184 | there are exactly two lanes: lane 0 waits for sync, lane 1 does not, and both start empty |
| PersistedLog.DefaultStateInfo | arangod/RocksDBEngine/RocksDBPersistedLog.h:193-198 | object id and data-source id default to 0 |
| PersistedLog.InspectRoundTrip | arangod/RocksDBEngine/RocksDBPersistedLog.h:200-207 | loading the four inspected fields by name gives the record back, when the object-id and data-source-id attribute names differ from each other and from "stateId" and "state" |
| InMemoryLog.Push | tests/Replication2/ReplicatedLog/LogFollowerCompactionTest.cpp:71-73 | adding one entry keeps the first index, raises the last index by one, and keeps every earlier entry |
| InMemoryLog.Append | tests/Replication2/ReplicatedLog/LogFollowerCompactionTest.cpp:51-63 | only the entry right after the last index is accepted |
| InMemoryLog.AppendAll | tests/Replication2/ReplicatedLog/LogFollowerCompactionTest.cpp:66 | a run of entries is accepted iff its indices continue the log one by one; the old entries are kept and the new ones sit at their indices |
| InMemoryLog.AppendAllConcat | tests/Replication2/ReplicatedLog/LogFollowerCompactionTest.cpp:66 | a successful append of a run is concatenation of the entry sequences |
| InMemoryLog.RemoveFront | tests/Replication2/ReplicatedLog/LogFollowerCompactionTest.cpp:75-78 | exactly the entries below `stop` are dropped; the last index never moves, and the first index becomes `stop`, clamped to the log |
| InMemoryLog.RemoveBack | arangod/RocksDBEngine/RocksDBPersistedLog.h:136-138 | exactly the entries from `start` on are dropped; the first index never moves |
| InMemoryLog.AppendThenRemoveBack | arangod/RocksDBEngine/RocksDBPersistedLog.h:128-140 | removing the back from just after the old last index undoes an append |
| InMemoryLog.EntriesFrom | tests/Replication2/ReplicatedLog/LogFollowerCompactionTest.cpp:66 | the entries from an index on, in index order, and how many there are |
| ReplicatedLog.BecomeFollower | tests/Replication2/ReplicatedLog/LogFollowerCompactionTest.cpp:41 | a fresh follower has an empty log, identical storage, commit index 0 and release index 0 |
| ReplicatedLog.BecomeLeader | tests/Replication2/ReplicatedLog/LogFollowerCompactionTest.cpp:42 | a fresh leader is in office and has written and persisted one entry of its term at index 1 |
| ReplicatedLog.QuorumIndex | tests/Replication2/ReplicatedLog/LogFollowerCompactionTest.cpp:42 | the highest index at least `writeConcern` participants hold; no higher index in the log has that many |
| ReplicatedLog.Recompute | tests/Replication2/ReplicatedLog/LogFollowerCompactionTest.cpp:67-68 | the commit index never falls, it only rises to a quorum-held entry of the leader's own term, and it does rise to the quorum index whenever that index is above it and holds an entry of the leader's term; it ends either where it was or at the quorum index |
| ReplicatedLog.RecomputeSettles | tests/Replication2/ReplicatedLog/LogFollowerCompactionTest.cpp:67-68 | recomputing the commit index twice equals recomputing it once |
| ReplicatedLog.Insert | tests/Replication2/ReplicatedLog/LogFollowerCompactionTest.cpp:51-63 | an insert returns the index right after the last one, holding an entry of the leader's term; a resigned leader refuses, and a failed write makes the leader resign |
| ReplicatedLog.InsertSucceeds | tests/Replication2/ReplicatedLog/LogFollowerCompactionTest.cpp:51-63 | a sound leader's insert succeeds and returns last + 1 |
| ReplicatedLog.InsertKeepsInv | tests/Replication2/ReplicatedLog/LogFollowerCompactionTest.cpp:51-63 | inserting keeps the leader/follower invariant |
| ReplicatedLog.ClusterInsert | tests/Replication2/ReplicatedLog/LogFollowerCompactionTest.cpp:56-63 | the returned index is the new last index, and later inserts get larger indices |
| ReplicatedLog.InsertAllKeepsInv | tests/Replication2/ReplicatedLog/LogFollowerCompactionTest.cpp:51-54 | n inserts keep the invariant, advance the last index by n, and change nothing but log, storage and commit index |
| ReplicatedLog.HandleAppendEntries | tests/Replication2/ReplicatedLog/LogFollowerCompactionTest.cpp:44-45 | a stale term, or a predecessor whose term the follower does not hold, is rejected with the follower unchanged; an accepted request replaces the log after the predecessor by the request's entries and takes over the leader's commit index, capped at the new last index; when log and storage were equal before, they are equal after |
| ReplicatedLog.MakeAppendEntries | tests/Replication2/ReplicatedLog/LogFollowerCompactionTest.cpp:44-45 | the request carries the leader's term, id and commit index, names the follower's acknowledged index and its term as predecessor, and holds exactly the leader's entries after it, in index order |
| ReplicatedLog.HandleResponse | tests/Replication2/ReplicatedLog/LogFollowerCompactionTest.cpp:44-45 | the answer never touches the leader's log, storage or term, and never lowers its commit index; an acknowledgement becomes the follower's match index; a stale-term rejection makes the leader resign; a gap moves the match index back by one; other errors change nothing |
| ReplicatedLog.Round | tests/Replication2/ReplicatedLog/LogFollowerCompactionTest.cpp:44-45 | one request and its answer; what it keeps and achieves is stated by `RoundPreservesInv` and `StaleLeaderResigns` |
| ReplicatedLog.StartInv | tests/Replication2/ReplicatedLog/LogFollowerCompactionTest.cpp:41-42 | the fresh pair satisfies the invariant; with write concern 2, leadership is not yet established |
| ReplicatedLog.AcceptsContinuation | tests/Replication2/ReplicatedLog/LogFollowerCompactionTest.cpp:66 | a request that continues after the follower's last entry with a matching predecessor is applied to log and storage alike |
| ReplicatedLog.FollowerCatchesUp | tests/Replication2/ReplicatedLog/LogFollowerCompactionTest.cpp:66-70 | under the invariant the follower accepts the leader's request and ends with the leader's entries, durably, and with the leader's commit index |
| ReplicatedLog.LeaderLearnsMatch | tests/Replication2/ReplicatedLog/LogFollowerCompactionTest.cpp:67-68 | learning a higher acknowledged index keeps the leader sound and never lowers its commit index |
| ReplicatedLog.RoundPreservesInv | tests/Replication2/ReplicatedLog/LogFollowerCompactionTest.cpp:44-45 | one exchange keeps the invariant, brings the follower to the leader's last index, and changes nothing else |
| ReplicatedLog.StaleLeaderResigns | tests/Replication2/ReplicatedLog/LogFollowerCompactionTest.cpp:41-42 | a follower in a newer term rejects the request untouched; the leader resigns and refuses later inserts |
| ReplicatedLog.Replicate | tests/Replication2/ReplicatedLog/LogFollowerCompactionTest.cpp:45 | replication runs until nothing is pending and keeps the invariant; only logs, acknowledgement and commit indexes change |
| ReplicatedLog.QuiescentCommitsAll | tests/Replication2/ReplicatedLog/LogFollowerCompactionTest.cpp:66-70 | with write concern at most 2, a quiescent pair has committed the whole log on both sides, and leadership is established |
| ReplicatedLog.ReplicateCommitsAll | tests/Replication2/ReplicatedLog/LogFollowerCompactionTest.cpp:66-73 | after replication both commit indexes equal the leader's last index, and the follower's log spans its own first index to that index |
| ReplicatedLog.TestPayload | tests/Replication2/ReplicatedLog/LogFollowerCompactionTest.cpp:53 | the i-th payload is "log entry #" followed by a decimal text that reads back as i |
| ReplicatedLog.CheckCompaction | tests/Replication2/ReplicatedLog/LogFollowerCompactionTest.cpp:49-50 | compaction happens iff at least 1000 entries below the released and committed bound would go (the model also keeps the last entry; see Left out); then exactly those go, from log and storage; otherwise nothing changes; the last index never moves |
| ReplicatedLog.Release | tests/Replication2/ReplicatedLog/LogFollowerCompactionTest.cpp:75 | releasing beyond the commit index is an error that changes nothing; otherwise the watermark is recorded and the log keeps its last index and its remaining entries |
| ReplicatedLog.ReleaseCompactsOrDefers | tests/Replication2/ReplicatedLog/LogFollowerCompactionTest.cpp:49-78 | after releasing a committed k, the first index becomes min(k, last - 1) + 1 if at least 1000 entries were eligible, which is k + 1 whenever k is below the last index, as in the test (the cap at last - 1 is the model's; see Left out); otherwise the log is untouched |
| ReplicatedLog.ReleaseIdempotent | tests/Replication2/ReplicatedLog/LogFollowerCompactionTest.cpp:75 | releasing the same index twice equals releasing it once |
| ReplicatedLog.ReleasePreservesInv | tests/Replication2/ReplicatedLog/LogFollowerCompactionTest.cpp:75-78 | releasing on the follower keeps the invariant |
| ReplicatedLog.Established | tests/Replication2/ReplicatedLog/LogFollowerCompactionTest.cpp:41-46 | after the first exchange between a term-1 follower and a term-1 leader with write concern 2, leadership is established |
| ReplicatedLog.InsertFour | tests/Replication2/ReplicatedLog/LogFollowerCompactionTest.cpp:56-63 | the four further inserts return consecutive indexes, and the fourth is the new last index |
| ReplicatedLog.SimpleReleaseObservations | tests/Replication2/ReplicatedLog/LogFollowerCompactionTest.cpp:35-78 | for any number n of leading inserts: leadership is established; the indexes are n+2, n+3 and n+5; both commit indexes reach n+5; the snapshot spans 1 to n+5; release moves the first index to n+3 exactly when n+2 >= 1000, else nothing moves; the last index stays |
| ReplicatedLog.SimpleReleaseAsInTest | tests/Replication2/ReplicatedLog/LogFollowerCompactionTest.cpp:35-78 | the test's own numbers: commit index 1005 on both sides, snapshot 1 to 1005, and after releasing 1002 a log from 1003 to 1005 |
| Identifiers.Default | lib/Basics/Identifier.h:41 | the default identifier has id 0 and is not set |
| Identifiers.IdRoundTrip | lib/Basics/Identifier.h:38-49 | `id()` returns the constructor's 64-bit value, and an identifier is rebuilt from its id |
| Identifiers.EqualityIsIdEquality | lib/Basics/Identifier.h:57-61 | `==` holds iff the ids are equal, and `!=` is its negation |
| Identifiers.LessOrEqualIsTotalOrder | lib/Basics/Identifier.h:63-73 | `<=` is reflexive, antisymmetric, transitive and total |
| Identifiers.ComparisonsAgree | lib/Basics/Identifier.h:63-73 | exactly one of `<`, `==`, `>` holds; `<` is `<=` without `==`, `>` is `<` reversed, and `>=` is the negation of `<` |
| Identifiers.HashRespectsEquality | lib/Basics/Identifier.h:109-129 | the hash is that of the id, equal identifiers hash alike, and `std::equal_to` is `==` |
| Identifiers.Equal | lib/Basics/Identifier.h:57-58 | `==` compares the ids; `EqualityIsIdEquality` states that this is value identity |
| Identifiers.Hash | lib/Basics/Identifier.h:109-118 | the standard hash of `id()`; `HashRespectsEquality` states its agreement with `==` |
| Identifiers.EqualTo | lib/Basics/Identifier.h:120-129 | `std::equal_to` delegates to `==`, as `HashRespectsEquality` states |
| Identifiers.FormatWith | lib/Basics/Identifier.h:93-107 | the formatter under any spec: parsing and formatting defer to the integer formatter, applied to `id()` |
| Identifiers.FormatDefersToInteger | lib/Basics/Identifier.h:93-107 | under every spec an identifier formats as its id does, so equal identifiers format alike, and the default spec gives the decimal text of `Format` |
| Identifiers.Format | lib/Basics/Identifier.h:93-101 | the formatter under the default spec `{}`: the decimal text of `id()`; `FormatRoundTrip` states what it preserves |
| Identifiers.FormatRoundTrip | lib/Basics/Identifier.h:93-101 | the formatted text reads back as the id, and two identifiers format alike iff they are equal |
| TransactionHelpers.ExtractKeyPart | arangod/Transaction/Helpers.h:54-57 | without '/' the whole input; otherwise the text after the first '/', with prefix + "/" + result == input and a '/'-free prefix; always a suffix; strictly shorter iff a '/' occurs |
| TransactionHelpers.Steal | arangod/Transaction/Helpers.h:186-190 | hands out the held builder and leaves the leaser holding none |
| TransactionHelpers.MoveConstruct | arangod/Transaction/Helpers.h:165-167 | the new leaser shares the context and takes the builder; the source is left empty |
| TransactionHelpers.TransferConservesBuilders | arangod/Transaction/Helpers.h:165-190 | a move neither duplicates nor loses a builder, and a steal leaves the leaser holding none |
| Decimal.IntToStringRoundTrip | js/common/modules/jsunity/jsunity.js:72 | the decimal text of an integer is non-empty, has no space, and parses back to the integer |
| Decimal.NatToStringInjective | lib/Basics/Identifier.h:93-101 | different numbers have different decimal texts |
| JsUnityText.Split | js/common/modules/jsunity/jsunity.js:18 | `split('\n')` gives at least one piece, and no piece contains the separator |
| JsUnityText.SplitThenJoin | js/common/modules/jsunity/jsunity.js:18 | joining the pieces with the separator gives the text back |
| JsUnityText.JoinThenSplit | js/common/modules/jsunity/jsunity.js:18 | splitting a join of separator-free pieces gives the pieces back |
| JsUnityText.Retained | js/common/modules/jsunity/jsunity.js:18-20 | the filters keep exactly the non-blank, non-framework lines, and every kept line passes both |
| JsUnityText.RetainedSingle | js/common/modules/jsunity/jsunity.js:18-20 | the filters keep a single line exactly when it is neither blank nor a framework frame |
| JsUnityText.RetainedConcat | js/common/modules/jsunity/jsunity.js:18-20 | filtering a concatenation concatenates the filtered parts, so the kept lines keep their order and their repetitions |
| JsUnityText.ReduceStack | js/common/modules/jsunity/jsunity.js:13-36 | `reduceStack` on a stack text: split, filter, then the `forEach`; `ReduceStackIsPieces` states its output |
| JsUnityText.ReduceStackIsPieces | js/common/modules/jsunity/jsunity.js:13-36 | `reduceStack` agrees with a position-by-position description. Lines 0-4 and the last line print in full unless they repeat the line printed before them; every other line becomes '.' |
| JsUnityText.ReduceStackShowsAtMostSixLines | js/common/modules/jsunity/jsunity.js:13-36 | at most six stack lines appear in full: the first five retained lines and the last |
| JsUnityText.Plural | js/common/modules/jsunity/jsunity.js:262-264 | `plural(cnt, unit)`; `PluralReadsBack` states what the text says |
| JsUnityText.PluralReadsBack | js/common/modules/jsunity/jsunity.js:262-264 | the count reads back from the text before the first space; the unit follows, with an "s" exactly when the count is not 1 |
| JsUnityHash.StrLessTotal | js/common/modules/jsunity/jsunity.js:54 | the key order is total |
| JsUnityHash.StrLessTransitive | js/common/modules/jsunity/jsunity.js:54 | the key order is transitive |
| JsUnityHash.StrLessAsymmetric | js/common/modules/jsunity/jsunity.js:54 | the key order is asymmetric |
| JsUnityHash.StrLessIrreflexive | js/common/modules/jsunity/jsunity.js:54 | the key order is irreflexive |
| JsUnityHash.SortKeys | js/common/modules/jsunity/jsunity.js:54 | `Object.keys(v).sort()` holds exactly the keys, in strictly ascending order |
| JsUnityHash.SortedUnique | js/common/modules/jsunity/jsunity.js:54 | two strictly sorted key lists with the same elements are equal, so the sorted keys do not depend on creation order |
| JsUnityHash.Binding | js/common/modules/jsunity/jsunity.js:58-59 | the value of a key is its last binding |
| JsUnityHash.KeyHashes | js/common/modules/jsunity/jsunity.js:57-68 | each key contributes exactly two parts |
| JsUnityHash.KeyHashesPairs | js/common/modules/jsunity/jsunity.js:57-68 | key j contributes parts 2j and 2j + 1: the key itself, then the hash of the value bound to it |
| JsUnityHash.HashIgnoresPropertyOrder | js/common/modules/jsunity/jsunity.js:51-70 | two objects with the same properties hash alike, whatever order they were created in |
| JsUnityHash.Hash | js/common/modules/jsunity/jsunity.js:51-74 | `hash(v)` without shared or cyclic values; `HashIgnoresPropertyOrder`, `EmptyThingsAreEqual`, `NumberEqualsItsString` and `HashCollision` state its behaviour |
| JsUnityHash.AssertEqualPasses | js/common/modules/jsunity/jsunity.js:129-136 | `assertEqual` passes iff the two hashes are equal; `AssertionsComplementary` relates it to `assertNotEqual` |
| JsUnityHash.AssertNotEqualPasses | js/common/modules/jsunity/jsunity.js:138-145 | `assertNotEqual` passes iff the two hashes differ |
| JsUnityHash.AssertionsComplementary | js/common/modules/jsunity/jsunity.js:129-145 | `assertNotEqual` passes exactly when `assertEqual` fails; both are symmetric, and every value equals itself |
| JsUnityHash.NumberEqualsItsString | js/common/modules/jsunity/jsunity.js:129-136 | a number and its decimal string pass `assertEqual` |
| JsUnityHash.EmptyThingsAreEqual | js/common/modules/jsunity/jsunity.js:51-73 | an empty object, a function and the empty string all hash to "" |
| JsUnityHash.HashCollision | js/common/modules/jsunity/jsunity.js:51-74 | {a: "b#c#d"} and {a: "b", c: "d"} differ, yet `assertEqual` accepts one for the other |
| JsUnitySuite.NewSuite | js/common/modules/jsunity/jsunity.js:441-449 | a new suite carries its name, no tests and no fixtures |
| JsUnitySuite.ClassifyAllTests | js/common/modules/jsunity/jsunity.js:347-359 | a test is in the suite iff a function-valued property whose name starts with "test" contributed it |
| JsUnitySuite.ClassifyAllTestsInOrder | js/common/modules/jsunity/jsunity.js:347-359 | tests are appended in property order |
| JsUnitySuite.ClassifyAllFixture | js/common/modules/jsunity/jsunity.js:354-355 | each fixture is the last function-valued property of its name, if any |
| JsUnitySuite.ParseSuiteObject | js/common/modules/jsunity/jsunity.js:344-362 | `parseSuiteObject(obj)`; `ParseSuiteObjectClassifies` states the suite it builds |
| JsUnitySuite.ParseSuiteObjectClassifies | js/common/modules/jsunity/jsunity.js:344-362 | the suite is named by "suiteName"; its tests are exactly the function-valued "test…" properties, in order and in number; each fixture is set exactly when a function property of that name exists |
| JsUnitySuite.IgnoredPropertyHasNoEffect | js/common/modules/jsunity/jsunity.js:351-357 | a non-function property, or one with neither a test nor a fixture name, is ignored |
| JsUnityRun.AttemptProgress | js/common/modules/jsunity/jsunity.js:564-625 | every pass of the loop that throws is caught by one of the three branches, so the loop moves to a later stage |
| JsUnityRun.RunTest | js/common/modules/jsunity/jsunity.js:564-626 | one test's retry loop from fresh flags; `RunTestMatchesTable` states its calls, messages and escape |
| JsUnityRun.RunTestMatchesTable | js/common/modules/jsunity/jsunity.js:564-626 | for every combination of thrown values the loop makes the calls, records the messages, and lets a TypeError escape exactly as a reference table says |
| JsUnityRun.EscapesIffNullishThrown | js/common/modules/jsunity/jsunity.js:605-623 | a TypeError escapes the loop exactly when one of the calls made threw `null` or `undefined`, and that call is the last one made |
| JsUnityRun.SetUpFailureSkipsTest | js/common/modules/jsunity/jsunity.js:564-613 | if setUp throws, neither the body nor tearDown runs and the test does not pass; an error records "setUp failed", a nullish value escapes |
| JsUnityRun.BodyFailureStillTearsDown | js/common/modules/jsunity/jsunity.js:575-618 | if the body throws an error that is not a timeout, tearDown still runs and the test fails with "test failed" |
| JsUnityRun.BodyTimeoutSkipsTearDown | js/common/modules/jsunity/jsunity.js:599-623 | a cluster or lock timeout in the body skips tearDown and is recorded as "tearDown failed"; nothing escapes |
| JsUnityRun.PassedIffNoFault | js/common/modules/jsunity/jsunity.js:589-595 | a test passes exactly when none of its three calls throws |
| JsUnityRun.StagesRunOnceInOrder | js/common/modules/jsunity/jsunity.js:564-626 | setUp always runs; each stage runs at most once, in stage order; at most two messages |
| JsUnityRun.FixtureFault | js/common/modules/jsunity/jsunity.js:502-510 | a fixture the suite lacks is the empty function and never throws |
| JsUnityRun.Compile | js/common/modules/jsunity/jsunity.js:483-498 | compile rejects exactly the invalid arguments, returns a compiled suite as it is, and turns a plain object into its parsed suite |
| JsUnityRun.SuitesOfCompiles | js/common/modules/jsunity/jsunity.js:516-519 | the suites run are the compiled arguments, position by position |
| JsUnityRun.PassedAtMostTotal | js/common/modules/jsunity/jsunity.js:644-645 | passing tests never outnumber the total, so `failed` is never negative |
| JsUnityRun.TestsPassedAreFaultFree | js/common/modules/jsunity/jsunity.js:553-595 | the tests counted as passed are exactly those none of whose three calls throws |
| JsUnityRun.SetUpAllFailureSkipsSuite | js/common/modules/jsunity/jsunity.js:525-641 | if setUpAll throws, no test body runs and none passes, and all tests still count in `total`; tearDownAll is still called unless setUpAll threw a nullish value; the suite ends `run` exactly when one of the two threw one |
| JsUnityRun.TestEventsAreReachedBodies | js/common/modules/jsunity/jsunity.js:564-578 | a test's body is called exactly when its setUp did not throw |
| JsUnityRun.FirstEscape | js/common/modules/jsunity/jsunity.js:564-626 | the position of the first test that lets a TypeError escape, or the number of tests |
| JsUnityRun.RunTests | js/common/modules/jsunity/jsunity.js:562-626 | the tests run in order up to and including the first that lets a TypeError escape; the bodies reached follow the reference trace, and `passed` counts the passing tests before that one, or all of them when none escapes |
| JsUnityRun.RunSuite | js/common/modules/jsunity/jsunity.js:525-641 | one suite ends `run` exactly when setUpAll, a test that runs, or tearDownAll throws a nullish value; its calls follow the reference trace; otherwise it adds all its tests to `total`, plus one if tearDownAll throws, and `passed` counts the passing tests when setUpAll succeeded |
| JsUnityRun.FirstEscaping | js/common/modules/jsunity/jsunity.js:516-642 | the position of the first suite that ends `run` with a TypeError, or the number of suites |
| JsUnityRun.RunSuites | js/common/modules/jsunity/jsunity.js:516-642 | the suites run in order up to the first that ends `run` with a TypeError; the calls follow the reference trace, and the suites before the escaping one add up to the reference totals and names, which are those of all suites when none escapes |
| JsUnityRun.FirstInvalid | js/common/modules/jsunity/jsunity.js:516-523 | the position of the first argument `compile` rejects, or the number of arguments |
| JsUnityRun.Run | js/common/modules/jsunity/jsunity.js:501-651 | `run` goes through its arguments in order: it raises a TypeError at the first suite that lets one escape, returns false at an earlier invalid argument, and otherwise returns results whose names, `total` and `passed` match the reference tallies, with `failed == total - passed >= 0`; the calls made follow the reference trace in every case |

## Left out

- `AsyncLogWriteContext::waitForCompletion` and the atomic counter: their bodies are not in the source, and the model is sequential. The counter is an unbounded integer (the 32- or 64-bit `wait_t` is never near overflow in these sequences), and "drained" is stated by `PersistedLog.DrainedMeansAllFinished`.
- `queue`, `queueInsert`, `queueRemoveFront`, `queueRemoveBack`, `runPersistorWorker`, `prepareRequest` and `RocksDBLogStorageMethods`: these are declarations backed by RocksDB write batches and futures. Lanes are static data, and no batching order is claimed.
- `PersistedLog.Lanes`: the lanes' `waitForSync` flag is `const` in the source. The model builds the lanes once and has no operation that changes them, so "never changes" holds by construction and is not a separate lemma.
- The request's promise and the iterator inside `InsertEntries` are replaced by a sequence of entries.
- The leader, follower and in-memory-log implementations are not part of this model (`LogLeader`, `LogFollower`, `InMemoryLog`).
  - `ReplicatedLog` models their behaviour as the compaction test pins it down.
  - There is one follower, and the participants have no ids beyond names.
  - `becomeLeader` is modelled as writing one entry of the leader's term at index 1. "Leadership established" means that entry is committed.
- ReplicatedLog.CheckCompaction: the model never compacts the follower's last entry; the compaction stop is min(release, commit, last - 1) + 1. This cap is a choice of the model. The follower's code is not part of it, and the compaction test releases 1002 of 1005 entries, so the test never reaches the cap. The reason for the cap: the follower keeps the term of its last entry, which the next append-entries request needs as its predecessor term. With ≥ 1000 entries eligible and k equal to the last index, the model leaves first == last == k rather than first > k.
- ReplicatedLog.Release: sets the release watermark to k even when k is below an earlier watermark. The test releases once, so it does not show whether the follower keeps the higher watermark; the entries already compacted stay compacted either way.
- `ReplicatedLog.InsertAllKeepsInv`: states the last index and the invariant after n inserts, but not which payload sits at which index.
- `ReplicatedLog.SimpleReleaseObservations`: the test's `getQuickStatus` and `copyInMemoryLog` are read straight off the model's state rather than through those calls.
- `ThreadAsyncExecutor`: the test uses the synchronous executor (tests/Replication2/Mocks/FakeAsyncExecutor.h:46-50), so persistence completes inline.
- The VelocyPack overload of `extractKeyPart`, and the other VelocyPack extractors of `Helpers.h`: the binary layout is not part of this model.
- `BuilderLeaser`'s constructors and destructor: they lease from and return to a transaction context whose code is not part of this model. Builders are opaque handles.
- Identifiers.Format: only the default `{}` spec is given its text (the decimal digits of the id). For every other spec `FormatWith` takes the 64-bit integer formatter as a parameter, because fmt's format-spec language is not part of this model.
- Identifier.cpp is not part of this model.
  - The member bodies are taken from their declarations and doc comments.
  - `data()`, `operator bool` (modelled as `IsSet`, id != 0) and the `inspect` friend are not stated separately.
- jsUnity `fmt`, the assertion counter and every assertion other than `assertEqual`/`assertNotEqual`: these are output formatting through `internal.print`.
- jsUnity `splitFunction`, `parseSuiteFunction`, `parseSuiteString`, `parseSuiteArray` and `probeOutside`: they rely on `eval` and regular expressions over function source text. Function, array and string arguments to `run` are outside the model. An argument is a compiled suite, a plain object, or one `compile` rejects.
- The log and TAP result streams, and `Date` timing (`duration`): these are I/O and the clock. The stream callbacks are assumed not to throw.
- `results.suiteName`: the model keeps the list of suite names rather than their `join(",")`.
- The text of a thrown error (`e + " - "`, and the ArangoError check itself): a thrown value is either `null`/`undefined`, or an error given by `String(ex.stack)` plus whether it is a cluster or lock timeout. Only `reduceStack` of the stack is modelled. A thrown string is wrapped in an Error first, so it is an error like any other.
- The result stream's `fail` line for a throwing setUpAll or tearDownAll: it is output only, and it is skipped when the error has no stack.
- `JsUnityHash.Hash`: several things are outside it:
  - the `seen` list and its `&j` back-references for shared or cyclic values;
  - arrays;
  - non-integral numbers, and numbers whose `String` form uses an exponent (1e21 and beyond);
  - inherited or non-enumerable properties.
  - An object is its own properties in creation order, with distinct keys.
- `JsUnityHash.StrLess` compares by code point. JavaScript's `sort` compares UTF-16 code units. The two differ only for keys outside the Basic Multilingual Plane.
- `JsUnityRun.RunTestMatchesTable`: fixture calls are an oracle keyed by function and argument. A fixture whose behaviour depends on earlier calls (state kept between tests) is outside the model.

## Findings

| source | as written | input that shows it | evidently intended | confidence | as-written member | corrected member |
|---|---|---|---|---|---|---|
| arangod/RocksDBEngine/RocksDBPersistedLog.h:65-86 | The defaulted move assignment of `AsyncLogOperationGuard` moves the `unique_ptr` with the no-op deleter. An operation the target still held is dropped without `finishPendingAsyncOperation`. | Two guards constructed on one context (counter 2); assign the second onto the first by move; destroy both. The counter stays at 1, and a wait for completion would never return. | The target fires before it takes over the source's pointer, as its destructor would. Every registered operation is then finished exactly once. | medium, not executed | PersistedLog.MoveAssignAsWrittenLeaks | PersistedLog.MoveAssignPreservesInv |
