/**
 * An abstract leader/follower pair of the replicated log, as driven by
 * tests/Replication2/ReplicatedLog/LogFollowerCompactionTest.cpp: becoming follower and
 * leader, inserting on the leader, running append-entries until nothing is pending,
 * the commit index, taking an in-memory copy, and releasing (compacting) a prefix on the
 * follower. The leader and follower implementations are not part of this model; this is a
 * model of their documented behaviour, with persistence completing inline (the test's
 * synchronous executor).
 */
module ReplicatedLog {
  import opened Wrappers
  import opened InMemoryLog
  import PersistedLog
  import Decimal

  /** Compaction only runs when at least this many entries would be removed. */
  const CompactionThreshold: nat := 1000

  type ParticipantId = string

  datatype ReplicationError =
    | TermMismatch            // a stale leader's request
    | LogGap                  // the claimed predecessor entry is not present
    | OutOfSequence           // entries not contiguous
    | StorageFailure          // the storage write failed
    | NotLeader               // insert on a resigned leader
    | CompactionPrecondition  // release beyond the commit index

  /** The leader of one term, replicating to a single follower. `followerMatch` is the
      highest index that follower acknowledged; `termStart` the index of the entry the
      leader wrote when it took office. */
  datatype Leader = Leader(
    id: ParticipantId, term: LogTerm, writeConcern: nat,
    log: Log, store: Log,
    commitIndex: LogIndex, followerMatch: LogIndex, termStart: LogIndex,
    resigned: bool)

  datatype Follower = Follower(
    id: ParticipantId, term: LogTerm, leaderId: ParticipantId,
    log: Log, store: Log,
    commitIndex: LogIndex, releaseIndex: LogIndex)

  datatype Cluster = Cluster(leader: Leader, follower: Follower)

  datatype AppendEntriesRequest = AppendEntriesRequest(
    leaderTerm: LogTerm, leaderId: ParticipantId,
    prevLogIndex: LogIndex, prevLogTerm: LogTerm,
    entries: seq<LogEntry>, leaderCommit: LogIndex)

  function Min(a: int, b: int): int { if a <= b then a else b }
  function Max(a: int, b: int): int { if a >= b then a else b }

  /** `becomeFollower(id, term, leaderId)` on a fresh log. */
  function BecomeFollower(id: ParticipantId, term: LogTerm, leaderId: ParticipantId): (f: Follower)
    ensures f.log == Empty() && f.store == f.log && f.commitIndex == 0 && f.releaseIndex == 0
  {
    Follower(id, term, leaderId, Empty(), Empty(), 0, 0)
  }

  /** How many participants (leader included) hold index i. */
  function Acks(l: Leader, i: LogIndex): nat {
    (if i <= LastIndex(l.log) then 1 else 0) + (if l.followerMatch >= i then 1 else 0)
  }

  /** The highest index held by at least `writeConcern` participants. */
  function QuorumIndex(l: Leader): (q: LogIndex)
    ensures q > 0 ==> Acks(l, q) >= l.writeConcern
    ensures q <= LastIndex(l.log)
    ensures forall i: LogIndex :: q < i <= LastIndex(l.log) ==> Acks(l, i) < l.writeConcern
  {
    if l.writeConcern <= 1 then LastIndex(l.log)
    else if l.writeConcern == 2 then Min(l.followerMatch, LastIndex(l.log))
    else 0
  }

  /** Recomputes the commit index: it moves up to the quorum index, and only onto an entry
      of the leader's own term; it never moves down. */
  function Recompute(l: Leader): (r: Leader)
    ensures r == l.(commitIndex := r.commitIndex)
    ensures r.commitIndex >= l.commitIndex
    ensures r.commitIndex > l.commitIndex ==>
      Acks(l, r.commitIndex) >= l.writeConcern && TermAt(l.log, r.commitIndex) == Some(l.term)
    ensures QuorumIndex(l) > l.commitIndex && TermAt(l.log, QuorumIndex(l)) == Some(l.term) ==>
      r.commitIndex == QuorumIndex(l)
    ensures r.commitIndex in {l.commitIndex, QuorumIndex(l)}
  {
    var q := QuorumIndex(l);
    if q > l.commitIndex && TermAt(l.log, q) == Some(l.term) then l.(commitIndex := q) else l
  }

  /** Recomputing twice is recomputing once: the result is settled. */
  lemma RecomputeSettles(l: Leader)
    ensures Recompute(Recompute(l)) == Recompute(l)
  {
  }

  /** `becomeLeader(id, term, {follower}, writeConcern)` on a fresh log: the leader writes
      one entry of its term, without payload, and persists it. */
  function BecomeLeader(id: ParticipantId, term: LogTerm, writeConcern: nat): (l: Leader)
    ensures !l.resigned && l.termStart == 1 && l.followerMatch == 0
    ensures l.log == Push(Empty(), LogEntry(1, term, None)) && l.store == l.log
  {
    var e := LogEntry(1, term, None);
    var store := PersistedLog.ApplyAction(Empty(), PersistedLog.InsertEntries([e]));
    assert store.Ok?;
    assert store.value == Push(Empty(), e) by {
      assert AppendAll(Push(Empty(), e), []) == Ok(Push(Empty(), e));
    }
    Recompute(Leader(id, term, writeConcern, Push(Empty(), e), store.value, 0, 0, 1, false))
  }

  /** `isLeadershipEstablished()`: the entry of the leader's own term is committed. */
  predicate IsLeadershipEstablished(l: Leader) {
    !l.resigned && l.commitIndex >= l.termStart
  }

  /** `insert(payload)`: appends an entry of the leader's term right after the last one,
      persists it, and returns its index. A failed write makes the leader resign. */
  function Insert(l: Leader, payload: LogPayload): (r: (Leader, Result<LogIndex, ReplicationError>))
    ensures l.resigned ==> r == (l, Err(NotLeader))
    ensures r.1.Ok? ==>
      && r.1.value == LastIndex(l.log) + 1
      && r.0.log == Push(l.log, LogEntry(r.1.value, l.term, Some(payload)))
      && r.0 == Recompute(l.(log := r.0.log, store := r.0.store))
    ensures r.1.Err? && !l.resigned ==> r.0 == l.(resigned := true) && r.1 == Err(StorageFailure)
  {
    if l.resigned then (l, Err(NotLeader))
    else
      var e := LogEntry(LastIndex(l.log) + 1, l.term, Some(payload));
      match PersistedLog.ApplyAction(l.store, PersistedLog.InsertEntries([e]))
      case Ok(store) => (Recompute(l.(log := Push(l.log, e), store := store)), Ok(e.index))
      case Err(_) => (l.(resigned := true), Err(StorageFailure))
  }

  /** The next append-entries request: everything after the follower's acknowledged index. */
  function MakeAppendEntries(l: Leader): (req: AppendEntriesRequest)
    ensures req.leaderTerm == l.term && req.leaderId == l.id && req.leaderCommit == l.commitIndex
    ensures req.prevLogIndex == l.followerMatch
    ensures Contains(l.log, req.prevLogIndex) ==> TermAt(l.log, req.prevLogIndex) == Some(req.prevLogTerm)
    ensures l.followerMatch + 1 >= l.log.first ==>
      && |req.entries| == (if l.followerMatch >= LastIndex(l.log) then 0 else LastIndex(l.log) - l.followerMatch)
      && forall k :: 0 <= k < |req.entries| ==>
           Contains(l.log, l.followerMatch + 1 + k) && req.entries[k] == At(l.log, l.followerMatch + 1 + k)
  {
    var prev := l.followerMatch;
    AppendEntriesRequest(l.term, l.id, prev,
                         match TermAt(l.log, prev) case Some(t) => t case None => 0,
                         EntriesFrom(l.log, prev + 1), l.commitIndex)
  }

  /** The follower's handling of append-entries: term fencing, the predecessor check,
      dropping a divergent tail, appending, persisting, and taking over the commit index. */
  function HandleAppendEntries(f: Follower, req: AppendEntriesRequest): (r: (Follower, Result<LogIndex, ReplicationError>))
    ensures req.leaderTerm < f.term ==> r == (f, Err(TermMismatch))
    ensures req.leaderTerm >= f.term && req.prevLogIndex > 0 && TermAt(f.log, req.prevLogIndex) != Some(req.prevLogTerm)
            ==> r == (f, Err(LogGap))
    ensures r.1.Err? ==> r.0 == f
    ensures r.1.Ok? ==>
      && AppendAll(RemoveBack(f.log, req.prevLogIndex + 1), req.entries) == Ok(r.0.log)
      && r.1.value == LastIndex(r.0.log)
      && r.0.commitIndex == Max(f.commitIndex, Min(req.leaderCommit, LastIndex(r.0.log)))
      && r.0 == f.(log := r.0.log, store := r.0.store, commitIndex := r.0.commitIndex)
    ensures f.store == f.log && r.1.Ok? ==> r.0.store == r.0.log
  {
    if req.leaderTerm < f.term then (f, Err(TermMismatch))
    else if req.prevLogIndex > 0 && TermAt(f.log, req.prevLogIndex) != Some(req.prevLogTerm) then (f, Err(LogGap))
    else
      match AppendAll(RemoveBack(f.log, req.prevLogIndex + 1), req.entries)
      case Err(_) => (f, Err(OutOfSequence))
      case Ok(log) =>
        var kept := PersistedLog.ApplyAction(f.store, PersistedLog.RemoveBack(req.prevLogIndex + 1));
        match PersistedLog.ApplyAction(kept.value, PersistedLog.InsertEntries(req.entries))
        case Err(_) => (f, Err(StorageFailure))
        case Ok(store) =>
          var commit := Max(f.commitIndex, Min(req.leaderCommit, LastIndex(log)));
          (f.(log := log, store := store, commitIndex := commit), Ok(LastIndex(log)))
  }

  /** The leader's handling of the follower's answer. */
  function HandleResponse(l: Leader, resp: Result<LogIndex, ReplicationError>): (r: Leader)
    ensures r.log == l.log && r.store == l.store && r.term == l.term && r.writeConcern == l.writeConcern
    ensures r.commitIndex >= l.commitIndex
    ensures resp.Ok? ==> r.followerMatch == resp.value && !r.resigned == !l.resigned
    ensures resp == Err(TermMismatch) ==> r.resigned
    ensures resp == Err(LogGap) ==> r.followerMatch == Max(l.followerMatch - 1, 0) && r.commitIndex == l.commitIndex
    ensures resp.Err? && resp != Err(TermMismatch) && resp != Err(LogGap) ==> r == l
  {
    match resp
    case Ok(index) => Recompute(l.(followerMatch := index))
    case Err(TermMismatch) => l.(resigned := true)
    case Err(LogGap) => l.(followerMatch := if l.followerMatch > 0 then l.followerMatch - 1 else 0)
    case Err(_) => l
  }

  /** One append-entries exchange. */
  function Round(c: Cluster): Cluster {
    var (f, resp) := HandleAppendEntries(c.follower, MakeAppendEntries(c.leader));
    Cluster(HandleResponse(c.leader, resp), f)
  }

  /** Nothing left to send: the follower has every entry and knows the commit index. */
  predicate Quiescent(c: Cluster) {
    c.leader.followerMatch == LastIndex(c.leader.log) && c.follower.commitIndex == c.leader.commitIndex
  }

  /** The follower's log is a durable prefix of the leader's, ending at the acknowledged index. */
  ghost predicate Synced(c: Cluster) {
    var l := c.leader; var f := c.follower;
    && Valid(l.log) && l.log.first == 1 && l.store == l.log
    && Valid(f.log) && f.store == f.log
    && f.term <= l.term
    && LastIndex(f.log) == l.followerMatch <= LastIndex(l.log)
    && (l.followerMatch > 0 ==> Contains(f.log, l.followerMatch))
    && (forall i: LogIndex :: Contains(f.log, i) ==> Contains(l.log, i) && At(f.log, i) == At(l.log, i))
    && f.releaseIndex <= f.commitIndex <= l.commitIndex <= LastIndex(l.log)
  }

  /** The leader is in office, every entry is of its term, and its commit index is exactly
      what the acknowledgements justify. */
  ghost predicate LeaderSound(l: Leader) {
    && !l.resigned && l.termStart == 1 && LastIndex(l.log) >= 1
    && (forall i: LogIndex :: Contains(l.log, i) ==> At(l.log, i).term == l.term)
    && Recompute(l) == l
    && (l.commitIndex > 0 ==> Acks(l, l.commitIndex) >= l.writeConcern)
  }

  /** The invariant of a leader and its follower in one term. */
  ghost predicate Inv(c: Cluster) {
    Synced(c) && LeaderSound(c.leader)
  }

  /** The two fresh participants of the test, before any replication. */
  function Start(writeConcern: nat): Cluster {
    Cluster(BecomeLeader("leader", 1, writeConcern), BecomeFollower("follower", 1, "leader"))
  }

  lemma StartInv(writeConcern: nat)
    ensures Inv(Start(writeConcern))
    ensures writeConcern >= 2 ==> !IsLeadershipEstablished(Start(writeConcern).leader)
  {
    var c := Start(writeConcern);
    assert Contains(c.leader.log, 1) && At(c.leader.log, 1).term == 1;
  }

  /** In a valid log every entry sits at its own index. */
  lemma AtIndex(l: Log, i: LogIndex)
    requires Valid(l) && Contains(l, i)
    ensures At(l, i).index == i
  {
  }

  /** What the leader sends to a follower whose log ends at m: its entries from m + 1 on,
      each at its own index. */
  lemma EntriesAfter(ll: Log, m: LogIndex)
    requires Valid(ll) && ll.first == 1 && m <= LastIndex(ll)
    ensures EntriesFrom(ll, m + 1) == ll.entries[m..]
    ensures forall k :: 0 <= k < |ll.entries[m..]| ==> ll.entries[m..][k].index == m + 1 + k
  {
  }

  /** A log that agrees with a longer valid log on its own entries becomes that log's
      suffix-complete copy once the missing entries are appended. */
  lemma CatchUpLog(fl: Log, ll: Log)
    requires Valid(fl) && Valid(ll) && ll.first == 1 && LastIndex(fl) <= LastIndex(ll)
    requires forall i: LogIndex :: Contains(fl, i) ==> Contains(ll, i) && At(fl, i) == At(ll, i)
    ensures var r := AppendAll(fl, EntriesFrom(ll, LastIndex(fl) + 1));
      && r.Ok? && Valid(r.value) && r.value.first == fl.first && LastIndex(r.value) == LastIndex(ll)
      && forall i: LogIndex :: Contains(r.value, i) ==> Contains(ll, i) && At(r.value, i) == At(ll, i)
  {
    var m := LastIndex(fl);
    EntriesAfter(ll, m);
    var es := ll.entries[m..];
    assert AppendAll(fl, es).Ok?;
    AppendAllConcat(fl, es);
    AgreeAfterConcat(fl, ll);
  }

  lemma AgreeAfterConcat(fl: Log, ll: Log)
    requires Valid(ll) && ll.first == 1 && LastIndex(fl) <= LastIndex(ll)
    requires forall i: LogIndex :: Contains(fl, i) ==> Contains(ll, i) && At(fl, i) == At(ll, i)
    ensures var log := Log(fl.first, fl.entries + ll.entries[LastIndex(fl)..]);
      forall i: LogIndex :: Contains(log, i) ==> Contains(ll, i) && At(log, i) == At(ll, i)
  {
    var m := LastIndex(fl);
    var log := Log(fl.first, fl.entries + ll.entries[m..]);
    forall i: LogIndex | Contains(log, i)
      ensures Contains(ll, i) && At(log, i) == At(ll, i)
    {
      if i > m {
        assert At(log, i) == ll.entries[i - 1];
      } else {
        assert At(log, i) == At(fl, i);
      }
    }
  }

  /** A request that continues right after the follower's last entry, with a matching
      predecessor term and contiguous entries, is accepted and applied to log and storage alike. */
  lemma AcceptsContinuation(f: Follower, req: AppendEntriesRequest)
    requires req.leaderTerm >= f.term && f.store == f.log
    requires req.prevLogIndex == LastIndex(f.log)
    requires req.prevLogIndex > 0 ==> TermAt(f.log, req.prevLogIndex) == Some(req.prevLogTerm)
    requires AppendAll(f.log, req.entries).Ok?
    ensures var log := AppendAll(f.log, req.entries).value;
      HandleAppendEntries(f, req)
        == (f.(log := log, store := log, commitIndex := Max(f.commitIndex, Min(req.leaderCommit, LastIndex(log)))),
            Ok(LastIndex(log)))
  {
    assert RemoveBack(f.log, req.prevLogIndex + 1) == f.log;
    assert PersistedLog.ApplyAction(f.store, PersistedLog.RemoveBack(req.prevLogIndex + 1)).value == f.log;
  }

  /** The entries the follower of `c` ends up with after one exchange. */
  function CaughtUp(c: Cluster): Log
    requires AppendAll(c.follower.log, EntriesFrom(c.leader.log, c.leader.followerMatch + 1)).Ok?
  {
    AppendAll(c.follower.log, EntriesFrom(c.leader.log, c.leader.followerMatch + 1)).value
  }

  /** The follower's log after it appended what the leader sent is the leader's log from
      the follower's first index on. */
  lemma CaughtUpLog(c: Cluster)
    requires Synced(c)
    ensures AppendAll(c.follower.log, EntriesFrom(c.leader.log, c.leader.followerMatch + 1)).Ok?
    ensures Valid(CaughtUp(c)) && CaughtUp(c).first == c.follower.log.first
    ensures LastIndex(CaughtUp(c)) == LastIndex(c.leader.log)
    ensures forall i: LogIndex :: Contains(CaughtUp(c), i) ==> Contains(c.leader.log, i) && At(CaughtUp(c), i) == At(c.leader.log, i)
  {
    CatchUpLog(c.follower.log, c.leader.log);
  }

  /** The leader's request to a synced follower continues right after the follower's
      last entry, with the predecessor's term as the follower has it. */
  lemma RequestContinues(c: Cluster)
    requires Synced(c)
    ensures var req := MakeAppendEntries(c.leader);
      && req.leaderTerm >= c.follower.term && c.follower.store == c.follower.log
      && req.prevLogIndex == LastIndex(c.follower.log)
      && (req.prevLogIndex > 0 ==> TermAt(c.follower.log, req.prevLogIndex) == Some(req.prevLogTerm))
      && req.entries == EntriesFrom(c.leader.log, c.leader.followerMatch + 1)
      && req.leaderCommit == c.leader.commitIndex
      && c.follower.commitIndex <= c.leader.commitIndex <= LastIndex(c.leader.log)
  {
    var m := c.leader.followerMatch;
    if m > 0 {
      assert TermAt(c.follower.log, m) == TermAt(c.leader.log, m);
    }
  }

  /** Under the invariant the follower accepts the leader's next request: it ends up with
      the leader's entries, durably, and with the leader's commit index. */
  lemma FollowerCatchesUp(c: Cluster)
    requires Synced(c)
    ensures AppendAll(c.follower.log, EntriesFrom(c.leader.log, c.leader.followerMatch + 1)).Ok?
    ensures HandleAppendEntries(c.follower, MakeAppendEntries(c.leader))
      == (c.follower.(log := CaughtUp(c), store := CaughtUp(c), commitIndex := c.leader.commitIndex),
          Ok(LastIndex(c.leader.log)))
  {
    CaughtUpLog(c);
    RequestContinues(c);
    AcceptsContinuation(c.follower, MakeAppendEntries(c.leader));
  }

  /** A higher acknowledged index keeps the leader sound and never lowers its commit index. */
  lemma LeaderLearnsMatch(l: Leader, n: LogIndex)
    requires LeaderSound(l) && n >= l.followerMatch
    ensures LeaderSound(Recompute(l.(followerMatch := n)))
    ensures Recompute(l.(followerMatch := n)).commitIndex >= l.commitIndex
  {
    var l1 := l.(followerMatch := n);
    assert Acks(l, l.commitIndex) <= Acks(l1, l.commitIndex);
    RecomputeSettles(l1);
  }

  /** Under the invariant one exchange brings the follower fully up to date: it receives
      every missing entry and the leader's commit index, the leader learns the follower's
      new last index, and nothing else changes. */
  lemma RoundPreservesInv(c: Cluster)
    requires Inv(c)
    ensures Inv(Round(c))
    ensures Round(c).leader == Recompute(c.leader.(followerMatch := LastIndex(c.leader.log)))
    ensures Round(c).follower.commitIndex == c.leader.commitIndex
    ensures Round(c).follower.log.first == c.follower.log.first
    ensures Round(c).follower == c.follower.(log := Round(c).follower.log, store := Round(c).follower.log,
                                             commitIndex := c.leader.commitIndex)
  {
    CaughtUpLog(c);
    FollowerCatchesUp(c);
    LeaderLearnsMatch(c.leader, LastIndex(c.leader.log));
  }

  /** Term fencing: a follower that knows a newer term rejects the leader's request untouched,
      and the leader resigns, after which it refuses inserts. */
  lemma StaleLeaderResigns(c: Cluster, payload: LogPayload)
    requires c.follower.term > c.leader.term
    ensures Round(c).follower == c.follower
    ensures Round(c).leader == c.leader.(resigned := true)
    ensures Insert(Round(c).leader, payload) == (Round(c).leader, Err(NotLeader))
  {
  }

  /** `runAllAsyncAppendEntries()`: exchanges until nothing is pending. */
  function Replicate(c: Cluster): (r: Cluster)
    requires Inv(c)
    ensures Inv(r) && Quiescent(r)
    ensures r.leader == c.leader.(followerMatch := r.leader.followerMatch, commitIndex := r.leader.commitIndex)
    ensures r.leader.commitIndex >= c.leader.commitIndex
    ensures r.follower == c.follower.(log := r.follower.log, store := r.follower.store, commitIndex := r.follower.commitIndex)
    ensures r.follower.log.first == c.follower.log.first
    decreases LastIndex(c.leader.log) - c.leader.followerMatch, c.leader.commitIndex - c.follower.commitIndex
  {
    if Quiescent(c) then c
    else
      RoundPreservesInv(c);
      Replicate(Round(c))
  }

  /** With a write concern of at most two, a quiescent leader has committed its whole log,
      and so its leadership is established. */
  lemma QuiescentCommitsAll(c: Cluster)
    requires Inv(c) && Quiescent(c) && c.leader.writeConcern <= 2
    ensures c.leader.commitIndex == LastIndex(c.leader.log) == c.follower.commitIndex
    ensures IsLeadershipEstablished(c.leader)
  {
    var l := c.leader;
    var last := LastIndex(l.log);
    assert QuorumIndex(l) == last;
    assert TermAt(l.log, last) == Some(l.term);
  }

  /** Appending an entry of its own term keeps the leader sound. */
  lemma PushKeepsLeaderSound(l: Leader, e: LogEntry)
    requires LeaderSound(l) && e.term == l.term && e.index == LastIndex(l.log) + 1
    ensures LeaderSound(Recompute(l.(log := Push(l.log, e), store := Push(l.log, e))))
  {
    var l1 := l.(log := Push(l.log, e), store := Push(l.log, e));
    assert Acks(l, l.commitIndex) <= Acks(l1, l.commitIndex);
    RecomputeSettles(l1);
  }

  /** An insert on a leader in office whose storage matches its log succeeds: it returns the
      next index, and storage and log still match afterwards. */
  lemma InsertSucceeds(l: Leader, payload: LogPayload)
    requires !l.resigned && l.store == l.log
    ensures Insert(l, payload).1 == Ok(LastIndex(l.log) + 1)
    ensures !Insert(l, payload).0.resigned && Insert(l, payload).0.store == Insert(l, payload).0.log
  {
    var e := LogEntry(LastIndex(l.log) + 1, l.term, Some(payload));
    assert AppendAll(l.log, [e]).Ok?;
    AppendAllConcat(l.log, [e]);
    assert PersistedLog.ApplyAction(l.store, PersistedLog.InsertEntries([e])) == Ok(Push(l.log, e));
  }

  /** Under the invariant an insert succeeds, returns the next index, and keeps the invariant. */
  lemma InsertKeepsInv(c: Cluster, payload: LogPayload)
    requires Inv(c)
    ensures Insert(c.leader, payload).1 == Ok(LastIndex(c.leader.log) + 1)
    ensures Inv(Cluster(Insert(c.leader, payload).0, c.follower))
  {
    var e := LogEntry(LastIndex(c.leader.log) + 1, c.leader.term, Some(payload));
    InsertSucceeds(c.leader, payload);
    PushKeepsLeaderSound(c.leader, e);
    var l1 := Insert(c.leader, payload).0;
    assert l1 == Recompute(c.leader.(log := Push(c.leader.log, e), store := Push(c.leader.log, e)));
    PushKeepsSynced(c, e, l1);
  }

  /** Growing the leader's log at the end keeps the follower's log a prefix of it. */
  lemma PushKeepsSynced(c: Cluster, e: LogEntry, l1: Leader)
    requires Synced(c) && e.index == LastIndex(c.leader.log) + 1
    requires l1.log == Push(c.leader.log, e) && l1.store == l1.log
    requires l1.followerMatch == c.leader.followerMatch && l1.term == c.leader.term
    requires l1.commitIndex >= c.leader.commitIndex && l1.commitIndex <= LastIndex(l1.log)
    ensures Synced(Cluster(l1, c.follower))
  {
  }

  /** `insert` on the leader of a cluster in which the invariant holds. */
  function ClusterInsert(c: Cluster, payload: LogPayload): (r: (Cluster, LogIndex))
    requires Inv(c)
    ensures Inv(r.0) && r.0.follower == c.follower
    ensures r.1 == LastIndex(c.leader.log) + 1 == LastIndex(r.0.leader.log)
    ensures r.0.leader.log == Push(c.leader.log, LogEntry(r.1, c.leader.term, Some(payload)))
    ensures r.0.leader == c.leader.(log := r.0.leader.log, store := r.0.leader.store, commitIndex := r.0.leader.commitIndex)
  {
    InsertKeepsInv(c, payload);
    (Cluster(Insert(c.leader, payload).0, c.follower), Insert(c.leader, payload).1.value)
  }

  /** Inserts the payloads in order on the leader, without replicating in between. */
  function InsertAll(l: Leader, payloads: seq<LogPayload>): Leader
    decreases |payloads|
  {
    if |payloads| == 0 then l else InsertAll(Insert(l, payloads[0]).0, payloads[1..])
  }

  /** A run of inserts keeps the invariant, grows the leader's log by one entry per payload,
      and touches nothing but the leader's log, storage and commit index. */
  lemma {:induction false} InsertAllKeepsInv(c: Cluster, payloads: seq<LogPayload>)
    requires Inv(c)
    ensures var r := Cluster(InsertAll(c.leader, payloads), c.follower);
      && Inv(r)
      && LastIndex(r.leader.log) == LastIndex(c.leader.log) + |payloads|
      && r.leader == c.leader.(log := r.leader.log, store := r.leader.store, commitIndex := r.leader.commitIndex)
    decreases |payloads|
  {
    if |payloads| > 0 {
      InsertKeepsInv(c, payloads[0]);
      InsertAllKeepsInv(Cluster(Insert(c.leader, payloads[0]).0, c.follower), payloads[1..]);
    }
  }

  /** The payload the test inserts as its i-th entry. */
  function TestPayload(i: nat): (p: LogPayload)
    ensures |p| > |"log entry #"| && p[..|"log entry #"|] == "log entry #"
    ensures Decimal.ParseInt(p[|"log entry #"|..]) == Some(i as int)
  {
    Decimal.IntToStringRoundTrip(i);
    var p := "log entry #" + Decimal.IntToString(i);
    assert p[|"log entry #"|..] == Decimal.IntToString(i) && p[..|"log entry #"|] == "log entry #";
    p
  }

  function TestPayloads(from: nat, n: nat): (ps: seq<LogPayload>)
    ensures |ps| == n && forall k :: 0 <= k < n ==> ps[k] == TestPayload(from + k)
  {
    seq(n, k requires 0 <= k => TestPayload(from + k))
  }

  /** The first index `checkCompaction` keeps: one past the highest index that is released
      and committed, except that the last entry is always kept, so its term is still at hand
      as the predecessor of the next append-entries request. */
  function CompactionStop(f: Follower): int {
    Min(Min(f.releaseIndex, f.commitIndex), LastIndex(f.log) - 1) + 1
  }

  /** `checkCompaction()`: removes the released prefix from log and storage, but only when at
      least `CompactionThreshold` entries would go. */
  function CheckCompaction(f: Follower): (r: (Follower, bool))
    ensures r.1 <==> CompactionStop(f) - f.log.first >= CompactionThreshold
    ensures !r.1 ==> r.0 == f
    ensures r.1 ==> r.0 == f.(log := r.0.log, store := r.0.store) && r.0.log.first == CompactionStop(f)
    ensures LastIndex(r.0.log) == LastIndex(f.log)
    ensures Valid(f.log) ==> Valid(r.0.log)
    ensures forall i: LogIndex :: Contains(r.0.log, i) <==> Contains(f.log, i) && (r.1 ==> i >= CompactionStop(f))
    ensures forall i: LogIndex :: Contains(r.0.log, i) ==> At(r.0.log, i) == At(f.log, i)
    ensures f.store == f.log ==> r.0.store == r.0.log
  {
    var stop := CompactionStop(f);
    if stop - f.log.first >= CompactionThreshold then
      var store := PersistedLog.ApplyAction(f.store, PersistedLog.RemoveFront(stop));
      (f.(log := RemoveFront(f.log, stop), store := store.value), true)
    else (f, false)
  }

  /** `release(k)`: k must be committed; records it as the release watermark and compacts
      when enough has accumulated. */
  function Release(f: Follower, k: LogIndex): (r: (Follower, Result<bool, ReplicationError>))
    ensures k > f.commitIndex <==> r.1 == Err(CompactionPrecondition)
    ensures k > f.commitIndex ==> r.0 == f
    ensures k <= f.commitIndex ==> r.1.Ok? && r.0.releaseIndex == k && r.0.commitIndex == f.commitIndex
    ensures LastIndex(r.0.log) == LastIndex(f.log)
    ensures Valid(f.log) ==> Valid(r.0.log)
    ensures forall i: LogIndex :: Contains(r.0.log, i) ==> Contains(f.log, i) && At(r.0.log, i) == At(f.log, i)
    ensures f.store == f.log ==> r.0.store == r.0.log
  {
    if k > f.commitIndex then (f, Err(CompactionPrecondition))
    else
      var (f1, compacted) := CheckCompaction(f.(releaseIndex := k));
      (f1, Ok(compacted))
  }

  /** Compaction safety: after releasing a committed k, everything up to k (except the last
      entry) is gone, or fewer than `CompactionThreshold` entries were eligible and the log is
      untouched. */
  lemma ReleaseCompactsOrDefers(f: Follower, k: LogIndex)
    requires k <= f.commitIndex && Valid(f.log)
    ensures var upTo := Min(k, LastIndex(f.log) - 1);
      var r := Release(f, k).0;
      && (upTo + 1 - f.log.first >= CompactionThreshold ==> r.log.first == upTo + 1 && Release(f, k).1 == Ok(true))
      && (upTo + 1 - f.log.first < CompactionThreshold ==> r.log == f.log && Release(f, k).1 == Ok(false))
  {
  }

  /** Releasing the same index twice is releasing it once. */
  lemma ReleaseIdempotent(f: Follower, k: LogIndex)
    requires Valid(f.log)
    ensures Release(Release(f, k).0, k).0 == Release(f, k).0
  {
    if k <= f.commitIndex {
      var f1 := Release(f, k).0;
      assert CompactionStop(f1.(releaseIndex := k)) == CompactionStop(f.(releaseIndex := k));
    }
  }

  /** Releasing on the follower keeps the invariant. */
  lemma ReleasePreservesInv(c: Cluster, k: LogIndex)
    requires Inv(c)
    ensures Inv(Cluster(c.leader, Release(c.follower, k).0))
  {
    var f := c.follower;
    if k <= f.commitIndex && c.leader.followerMatch > 0 {
      assert CompactionStop(f.(releaseIndex := k)) <= LastIndex(f.log);
    }
  }

  /** Follower and leader in term 1, leader with write concern 2, after the first exchange
      (`triggerAsyncReplication` and `runAllAsyncAppendEntries`). */
  function Established(): (c: Cluster)
    ensures Inv(c) && IsLeadershipEstablished(c.leader) && c.leader.writeConcern == 2
    ensures LastIndex(c.leader.log) == 1 && c.follower.log.first == 1
  {
    StartInv(2);
    var c := Replicate(Start(2));
    QuiescentCommitsAll(c);
    c
  }

  /** n inserts on the leader of c, without replication. */
  function InsertMany(c: Cluster, first: nat, n: nat): (r: Cluster)
    requires Inv(c)
    ensures Inv(r) && r.follower == c.follower && r.leader.writeConcern == c.leader.writeConcern
    ensures LastIndex(r.leader.log) == LastIndex(c.leader.log) + n
  {
    InsertAllKeepsInv(c, TestPayloads(first, n));
    Cluster(InsertAll(c.leader, TestPayloads(first, n)), c.follower)
  }

  /** The test's four further inserts, returning the indexes of the first, second and fourth. */
  function InsertFour(c: Cluster, n: nat): (r: (Cluster, LogIndex, LogIndex, LogIndex))
    requires Inv(c)
    ensures Inv(r.0) && r.0.follower == c.follower && r.0.leader.writeConcern == c.leader.writeConcern
    ensures r.1 == LastIndex(c.leader.log) + 1 && r.2 == r.1 + 1 && r.3 == r.1 + 3 == LastIndex(r.0.leader.log)
  {
    var (c1, stop) := ClusterInsert(c, TestPayload(n));
    var (c2, firstUncompacted) := ClusterInsert(c1, TestPayload(n + 1));
    var (c3, _) := ClusterInsert(c2, TestPayload(n + 2));
    var (c4, latest) := ClusterInsert(c3, TestPayload(n + 3));
    (c4, stop, firstUncompacted, latest)
  }

  /** Replication until quiescence with write concern 2: everything is committed on both
      sides, and the follower holds the leader's whole log from its own first index on. */
  lemma ReplicateCommitsAll(c: Cluster)
    requires Inv(c) && c.leader.writeConcern == 2
    ensures var r := Replicate(c);
      && r.leader.commitIndex == LastIndex(c.leader.log) == r.follower.commitIndex
      && LastIndex(r.follower.log) == LastIndex(c.leader.log)
      && r.follower.log.first == c.follower.log.first && Valid(r.follower.log)
  {
    QuiescentCommitsAll(Replicate(c));
  }

  /** What `simple_release` observes. */
  datatype Observed = Observed(
    established: bool,
    stopIdx: LogIndex, firstUncompactedIdx: LogIndex, latestIdx: LogIndex,
    leaderCommit: LogIndex, followerCommit: LogIndex,
    fullLog: Log, compactedLog: Log)

  /** The `simple_release` scenario with n leading inserts (the test uses 1000): follower and
      leader in term 1, write concern 2; replicate; n + 4 inserts, keeping the indexes of the
      (n+1)-th, (n+2)-th and (n+4)-th; replicate; snapshot; release the (n+1)-th; snapshot. */
  function SimpleRelease(n: nat): Observed {
    var c1 := Established();
    var (c6, stop, firstUncompacted, latest) := InsertFour(InsertMany(c1, 0, n), n);
    var c7 := Replicate(c6);
    Observed(IsLeadershipEstablished(c1.leader), stop, firstUncompacted, latest,
             c7.leader.commitIndex, c7.follower.commitIndex,
             c7.follower.log, Release(c7.follower, stop).0.log)
  }

  /** The assertions of `simple_release`, for any number n of leading inserts: leadership is
      established by the first exchange, the returned indexes increase, after replication both
      commit indexes are the latest index, the follower's snapshot spans 1 to the latest
      index, and the release moves the first index to the entry after the released one exactly
      when at least `CompactionThreshold` entries are eligible; otherwise nothing moves. The
      last index never moves. */
  lemma SimpleReleaseObservations(n: nat)
    ensures var o := SimpleRelease(n);
      && o.established
      && o.stopIdx == n + 2 && o.firstUncompactedIdx == n + 3 && o.latestIdx == n + 5
      && o.leaderCommit == o.latestIdx && o.followerCommit == o.latestIdx
      && o.fullLog.first == 1 && LastIndex(o.fullLog) == o.latestIdx
      && LastIndex(o.compactedLog) == o.latestIdx
      && (o.compactedLog.first == o.firstUncompactedIdx <==> n + 2 >= CompactionThreshold)
      && (n + 2 < CompactionThreshold ==> o.compactedLog == o.fullLog)
  {
    var r := InsertFour(InsertMany(Established(), 0, n), n);
    ReplicateCommitsAll(r.0);
    ReleaseCompactsOrDefers(Replicate(r.0).follower, r.1);
  }

  /** `simple_release` exactly as written: 1000 leading inserts, so entry 1002 is released
      and the compacted snapshot starts at 1003 and ends at 1005. */
  lemma SimpleReleaseAsInTest()
    ensures var o := SimpleRelease(1000);
      && o.established
      && o.leaderCommit == o.latestIdx == 1005 && o.followerCommit == 1005
      && o.fullLog.first == 1 && LastIndex(o.fullLog) == 1005
      && o.stopIdx == 1002 && o.compactedLog.first == o.firstUncompactedIdx == 1003
      && LastIndex(o.compactedLog) == 1005
  {
    SimpleReleaseObservations(1000);
  }
}
