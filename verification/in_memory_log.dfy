/**
 * Log identity and entry model, and the in-memory log: a dense run of entries with
 * recorded first and last index. Values are immutable, so a snapshot
 * (`copyInMemoryLog`) is the value itself.
 */
module InMemoryLog {
  import opened Wrappers

  type LogIndex = nat
  type LogTerm = nat

  /** Log indexes start at 1; the first index of a log is never 0. */
  type FirstIndex = i: nat | i >= 1 witness 1

  /** Opaque application bytes. */
  type LogPayload = string

  /** `payload` is None for the entry a leader writes when it takes office. */
  datatype LogEntry = LogEntry(index: LogIndex, term: LogTerm, payload: Option<LogPayload>)

  /** `entries[k]` is the entry at index `first + k`. */
  datatype Log = Log(first: FirstIndex, entries: seq<LogEntry>)

  datatype LogError = SequenceViolation

  /** Indexes are dense: entry k sits at index first + k. */
  predicate Valid(l: Log) {
    forall k :: 0 <= k < |l.entries| ==> l.entries[k].index == l.first + k
  }

  function Empty(): Log {
    Log(1, [])
  }

  function LastIndex(l: Log): LogIndex {
    l.first + |l.entries| - 1
  }

  predicate Contains(l: Log, i: LogIndex) {
    l.first <= i <= LastIndex(l)
  }

  function At(l: Log, i: LogIndex): LogEntry
    requires Contains(l, i)
  {
    l.entries[i - l.first]
  }

  function TermAt(l: Log, i: LogIndex): Option<LogTerm> {
    if Contains(l, i) then Some(At(l, i).term) else None
  }

  /** Appends without checking the index; callers establish `e.index == LastIndex(l) + 1`. */
  function Push(l: Log, e: LogEntry): (r: Log)
    ensures r.first == l.first
    ensures LastIndex(r) == LastIndex(l) + 1
    ensures Valid(l) && e.index == LastIndex(l) + 1 ==> Valid(r)
    ensures forall i: LogIndex :: Contains(r, i) <==> Contains(l, i) || i == LastIndex(r)
    ensures forall i: LogIndex :: Contains(l, i) ==> At(r, i) == At(l, i)
    ensures At(r, LastIndex(r)) == e
  {
    Log(l.first, l.entries + [e])
  }

  /** `append`: only the entry right after the last one is accepted. */
  function Append(l: Log, e: LogEntry): (r: Result<Log, LogError>)
    ensures r.Ok? <==> e.index == LastIndex(l) + 1
    ensures r.Ok? ==> r.value == Push(l, e)
  {
    if e.index == LastIndex(l) + 1 then Ok(Push(l, e)) else Err(SequenceViolation)
  }

  /** Appends a run of entries one by one, failing on the first index out of sequence. */
  function AppendAll(l: Log, es: seq<LogEntry>): (r: Result<Log, LogError>)
    ensures r.Ok? <==> forall k :: 0 <= k < |es| ==> es[k].index == LastIndex(l) + 1 + k
    ensures r.Ok? ==> r.value.first == l.first && LastIndex(r.value) == LastIndex(l) + |es|
    ensures r.Ok? && Valid(l) ==> Valid(r.value)
    ensures r.Ok? ==> forall i: LogIndex :: Contains(l, i) ==> Contains(r.value, i) && At(r.value, i) == At(l, i)
    ensures r.Ok? ==> forall i: LogIndex :: LastIndex(l) < i <= LastIndex(r.value) ==>
              Contains(r.value, i) && At(r.value, i) == es[i - LastIndex(l) - 1]
    decreases |es|
  {
    if |es| == 0 then Ok(l)
    else match Append(l, es[0])
      case Err(e) => Err(e)
      case Ok(l1) =>
        var r := AppendAll(l1, es[1..]);
        r
  }

  /**
   * `removeFront(stop)`: drops every entry below `stop`. The last index never moves:
   * when everything goes, the empty log starts right after the old last index.
   */
  function RemoveFront(l: Log, stop: LogIndex): (r: Log)
    ensures LastIndex(r) == LastIndex(l)
    ensures r.first == if stop <= l.first then l.first
                       else if stop > LastIndex(l) then LastIndex(l) + 1
                       else stop
    ensures Valid(l) ==> Valid(r)
    ensures forall i: LogIndex :: Contains(r, i) <==> Contains(l, i) && i >= stop
    ensures forall i: LogIndex :: Contains(r, i) ==> At(r, i) == At(l, i)
  {
    if stop <= l.first then l
    else if stop > LastIndex(l) then Log(LastIndex(l) + 1, [])
    else Log(stop, l.entries[stop - l.first..])
  }

  /** `removeBack(start)`: drops every entry from `start` on; the first index never moves. */
  function RemoveBack(l: Log, start: LogIndex): (r: Log)
    ensures r.first == l.first
    ensures LastIndex(r) == if start > LastIndex(l) then LastIndex(l)
                            else if start <= l.first then l.first - 1
                            else start - 1
    ensures Valid(l) ==> Valid(r)
    ensures forall i: LogIndex :: Contains(r, i) <==> Contains(l, i) && i < start
    ensures forall i: LogIndex :: Contains(r, i) ==> At(r, i) == At(l, i)
  {
    if start > LastIndex(l) then l
    else if start <= l.first then Log(l.first, [])
    else Log(l.first, l.entries[..start - l.first])
  }

  /** The entries from index `from` on, in order (the leader's replication payload). */
  function EntriesFrom(l: Log, from: LogIndex): (es: seq<LogEntry>)
    ensures from >= l.first ==> |es| == if from > LastIndex(l) then 0 else LastIndex(l) + 1 - from
    ensures from >= l.first ==> forall k :: 0 <= k < |es| ==> Contains(l, from + k) && es[k] == At(l, from + k)
  {
    RemoveFront(l, from).entries
  }

  /** A successful append puts the k-th new entry at index last + 1 + k. */
  lemma AppendAllPlaces(l: Log, es: seq<LogEntry>)
    requires AppendAll(l, es).Ok?
    ensures forall k :: 0 <= k < |es| ==>
      Contains(AppendAll(l, es).value, LastIndex(l) + 1 + k) && At(AppendAll(l, es).value, LastIndex(l) + 1 + k) == es[k]
  {
    var r := AppendAll(l, es).value;
    forall k | 0 <= k < |es|
      ensures Contains(r, LastIndex(l) + 1 + k) && At(r, LastIndex(l) + 1 + k) == es[k]
    {
      var i := LastIndex(l) + 1 + k;
      assert LastIndex(l) < i <= LastIndex(r) && i - LastIndex(l) - 1 == k;
    }
  }

  /** A successful `AppendAll` is plain concatenation of the entry sequences. */
  lemma {:induction false} AppendAllConcat(l: Log, es: seq<LogEntry>)
    requires AppendAll(l, es).Ok?
    ensures AppendAll(l, es).value == Log(l.first, l.entries + es)
    decreases |es|
  {
    if |es| > 0 {
      var l1 := Push(l, es[0]);
      AppendAllConcat(l1, es[1..]);
      assert l1.entries + es[1..] == l.entries + es;
    }
  }

  /** Appending is undone by removing the back: `append` then `removeBack(last + 1)`
      restores the log, and a valid log stays dense with exactly last - first + 1 entries. */
  lemma {:induction false} AppendThenRemoveBack(l: Log, e: LogEntry)
    requires Valid(l)
    ensures Append(l, e).Ok? ==> RemoveBack(Append(l, e).value, LastIndex(l) + 1) == l
    ensures |l.entries| == LastIndex(l) - l.first + 1
  {
    if Append(l, e).Ok? {
      var r := Append(l, e).value;
      assert r.entries[..LastIndex(l) + 1 - l.first] == l.entries;
    }
  }
}
