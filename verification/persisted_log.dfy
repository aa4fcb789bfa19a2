/**
 * Bookkeeping of arangod/RocksDBEngine/RocksDBPersistedLog.h: the per-log async write
 * context, the scoped guard that registers one outstanding operation on it, the requests
 * the write batcher queues, its two lanes, and the persisted state-info record.
 *
 * In the C++ engine, contexts and guards live at stable addresses and refer to each other by
 * pointer; here they live in a `World` and refer to each other by position. Every guard
 * operation is a function from world to world, and `Inv` is the accounting invariant.
 */
module PersistedLog {
  import opened Wrappers
  import opened Uint
  import InMemoryLog

  /** `AsyncLogWriteContext`. The counter is the C++ `std::atomic<wait_t>`, a signed 32- or 64-bit integer. */
  datatype WriteContext = WriteContext(vocbaseId: U64, objectId: U64, pendingAsyncOperations: int)

  /** `AsyncLogOperationGuard`: `_context == nullptr`, or a pointer to context `ctx` together
      with the obligation to finish operation `op`, registered there on construction. */
  datatype Guard = Detached | Attached(ctx: nat, op: nat)

  /** One registered asynchronous operation and how often it has been finished. */
  datatype Operation = Operation(ctx: nat, finished: nat)

  datatype World = World(contexts: seq<WriteContext>, guards: seq<Guard>, ops: seq<Operation>)

  /** Number of guards attached to context c. */
  function AttachedTo(guards: seq<Guard>, c: nat): nat {
    if |guards| == 0 then 0
    else (if guards[0].Attached? && guards[0].ctx == c then 1 else 0) + AttachedTo(guards[1..], c)
  }

  predicate GuardWellFormed(w: World, g: nat)
    requires g < |w.guards|
  {
    w.guards[g].Attached? ==>
      && w.guards[g].ctx < |w.contexts|
      && w.guards[g].op < |w.ops|
      && w.ops[w.guards[g].op] == Operation(w.guards[g].ctx, 0)
  }

  /**
   * The accounting invariant: every attached guard holds an unfinished operation of its
   * context, no operation is held twice, every operation is finished at most once and is
   * held by a guard until then, and each context's counter equals the number of guards
   * attached to it.
   */
  ghost predicate Inv(w: World) {
    && (forall g :: 0 <= g < |w.guards| ==> GuardWellFormed(w, g))
    && (forall g, h :: 0 <= g < |w.guards| && 0 <= h < |w.guards| && g != h && w.guards[g].Attached? && w.guards[h].Attached?
          ==> w.guards[g].op != w.guards[h].op)
    && (forall o :: 0 <= o < |w.ops| ==> w.ops[o].ctx < |w.contexts| && w.ops[o].finished <= 1)
    && (forall o :: 0 <= o < |w.ops| && w.ops[o].finished == 0 ==>
          exists g :: 0 <= g < |w.guards| && w.guards[g] == Attached(w.ops[o].ctx, o))
    && (forall c :: 0 <= c < |w.contexts| ==> w.contexts[c].pendingAsyncOperations == AttachedTo(w.guards, c))
  }

  lemma AttachedToUpdate(guards: seq<Guard>, g: nat, v: Guard, c: nat)
    requires g < |guards|
    ensures AttachedTo(guards[g := v], c)
         == AttachedTo(guards, c)
            - (if guards[g].Attached? && guards[g].ctx == c then 1 else 0)
            + (if v.Attached? && v.ctx == c then 1 else 0)
  {
    if g > 0 {
      assert guards[g := v][1..] == guards[1..][g - 1 := v];
      AttachedToUpdate(guards[1..], g - 1, v, c);
    }
  }

  lemma AttachedToPush(guards: seq<Guard>, v: Guard, c: nat)
    ensures AttachedTo(guards + [v], c) == AttachedTo(guards, c) + (if v.Attached? && v.ctx == c then 1 else 0)
  {
    if |guards| > 0 {
      assert (guards + [v])[1..] == guards[1..] + [v];
      AttachedToPush(guards[1..], v, c);
    }
  }

  lemma AttachedToNone(guards: seq<Guard>, c: nat)
    requires forall g :: 0 <= g < |guards| ==> !(guards[g].Attached? && guards[g].ctx == c)
    ensures AttachedTo(guards, c) == 0
  {
    if |guards| > 0 {
      AttachedToNone(guards[1..], c);
    }
  }

  lemma AttachedToSome(guards: seq<Guard>, g: nat)
    requires g < |guards| && guards[g].Attached?
    ensures AttachedTo(guards, guards[g].ctx) > 0
  {
    if g > 0 {
      AttachedToSome(guards[1..], g - 1);
    }
  }

  function EmptyWorld(): World {
    World([], [], [])
  }

  /** Creating the storage handle of a log creates its context with nothing pending. */
  function AddContext(w: World, vocbaseId: U64, objectId: U64): (r: (World, nat))
    ensures r.1 == |w.contexts|
    ensures r.0.contexts == w.contexts + [WriteContext(vocbaseId, objectId, 0)]
    ensures r.0.guards == w.guards && r.0.ops == w.ops
  {
    (w.(contexts := w.contexts + [WriteContext(vocbaseId, objectId, 0)]), |w.contexts|)
  }

  /** The default constructor: a guard that refers to no context. */
  function DefaultGuard(w: World): (r: (World, nat))
    ensures r.1 == |w.guards| && r.0.guards == w.guards + [Detached]
    ensures r.0.contexts == w.contexts && r.0.ops == w.ops
  {
    (w.(guards := w.guards + [Detached]), |w.guards|)
  }

  /** The explicit constructor from a context: registers one new pending operation there. */
  function Construct(w: World, c: nat): (r: (World, nat))
    requires c < |w.contexts|
    ensures r.1 == |w.guards| && r.0.guards == w.guards + [Attached(c, |w.ops|)]
    ensures r.0.ops == w.ops + [Operation(c, 0)]
    ensures |r.0.contexts| == |w.contexts|
    ensures r.0.contexts[c].pendingAsyncOperations == w.contexts[c].pendingAsyncOperations + 1
    ensures forall d :: 0 <= d < |w.contexts| && d != c ==> r.0.contexts[d] == w.contexts[d]
    ensures r.0.contexts[c].objectId == w.contexts[c].objectId && r.0.contexts[c].vocbaseId == w.contexts[c].vocbaseId
  {
    var ctx := w.contexts[c];
    var w' := World(w.contexts[c := ctx.(pendingAsyncOperations := ctx.pendingAsyncOperations + 1)],
                    w.guards + [Attached(c, |w.ops|)],
                    w.ops + [Operation(c, 0)]);
    (w', |w.guards|)
  }

  /** `fire()` (and the destructor, which only calls it): finishes the held operation once
      and detaches; a detached guard changes nothing. */
  function Fire(w: World, g: nat): (r: World)
    requires g < |w.guards|
    ensures r.guards == w.guards[g := Detached]
    ensures w.guards[g].Detached? ==> r == w
    ensures w.guards[g].Attached? && w.guards[g].ctx < |w.contexts| && w.guards[g].op < |w.ops| ==>
      var (c, o) := (w.guards[g].ctx, w.guards[g].op);
      && r.contexts == w.contexts[c := w.contexts[c].(pendingAsyncOperations := w.contexts[c].pendingAsyncOperations - 1)]
      && r.ops == w.ops[o := w.ops[o].(finished := w.ops[o].finished + 1)]
  {
    match w.guards[g]
    case Detached => w
    case Attached(c, o) =>
      if c < |w.contexts| && o < |w.ops| then
        var ctx := w.contexts[c];
        World(w.contexts[c := ctx.(pendingAsyncOperations := ctx.pendingAsyncOperations - 1)],
              w.guards[g := Detached],
              w.ops[o := w.ops[o].(finished := w.ops[o].finished + 1)])
      else
        // a dangling pointer; Inv rules this out
        w.(guards := w.guards[g := Detached])
  }

  /** The move constructor: the new guard takes over the moved-from guard's pointer, and
      the moved-from guard is left detached; no counter moves. */
  function MoveConstruct(w: World, src: nat): (r: (World, nat))
    requires src < |w.guards|
    ensures r.1 == |w.guards|
    ensures r.0.guards == w.guards[src := Detached] + [w.guards[src]]
    ensures r.0.contexts == w.contexts && r.0.ops == w.ops
  {
    (w.(guards := w.guards[src := Detached] + [w.guards[src]]), |w.guards|)
  }

  /**
   * The defaulted move assignment as written: `unique_ptr` move assignment hands the old
   * pointer of `dst` to the no-op deleter, so an operation `dst` still held is never
   * finished. Self-assignment keeps the pointer.
   */
  function MoveAssignAsWritten(w: World, dst: nat, src: nat): (r: World)
    requires dst < |w.guards| && src < |w.guards|
    ensures dst != src ==> r.guards == w.guards[dst := w.guards[src]][src := Detached]
    ensures r.contexts == w.contexts && r.ops == w.ops
  {
    if dst == src then w else w.(guards := w.guards[dst := w.guards[src]][src := Detached])
  }

  /** Move assignment that first finishes what `dst` held, as the destructor would. */
  function MoveAssign(w: World, dst: nat, src: nat): (r: World)
    requires dst < |w.guards| && src < |w.guards|
    ensures dst != src ==> r.guards == w.guards[dst := w.guards[src]][src := Detached]
    ensures dst != src ==> r.contexts == Fire(w, dst).contexts && r.ops == Fire(w, dst).ops
    ensures dst == src ==> r == w
  {
    if dst == src then w
    else
      var w1 := Fire(w, dst);
      w1.(guards := w1.guards[dst := w.guards[src]][src := Detached])
  }

  /** Nothing has been registered yet. */
  lemma EmptyWorldInv()
    ensures Inv(EmptyWorld())
  {
  }

  lemma AddContextPreservesInv(w: World, vocbaseId: U64, objectId: U64)
    requires Inv(w)
    ensures Inv(AddContext(w, vocbaseId, objectId).0)
    ensures AddContext(w, vocbaseId, objectId).0.contexts[AddContext(w, vocbaseId, objectId).1].pendingAsyncOperations == 0
  {
    var (w', c) := AddContext(w, vocbaseId, objectId);
    forall g | 0 <= g < |w'.guards| ensures GuardWellFormed(w', g) && !(w.guards[g].Attached? && w.guards[g].ctx == c) {
      assert GuardWellFormed(w, g);
    }
    AttachedToNone(w.guards, c);
  }

  lemma DefaultGuardPreservesInv(w: World)
    requires Inv(w)
    ensures Inv(DefaultGuard(w).0)
  {
    var (w', g0) := DefaultGuard(w);
    forall c | 0 <= c < |w.contexts|
      ensures AttachedTo(w'.guards, c) == AttachedTo(w.guards, c)
    {
      AttachedToPush(w.guards, Detached, c);
    }
    forall g | 0 <= g < |w'.guards| ensures GuardWellFormed(w', g) {
      if g < |w.guards| { assert GuardWellFormed(w, g); }
    }
    forall o | 0 <= o < |w.ops| && w.ops[o].finished == 0
      ensures exists g :: 0 <= g < |w'.guards| && w'.guards[g] == Attached(w.ops[o].ctx, o)
    {
      var g :| 0 <= g < |w.guards| && w.guards[g] == Attached(w.ops[o].ctx, o);
      assert w'.guards[g] == w.guards[g];
    }
  }

  /** Constructing a guard on context c registers exactly one pending operation there and
      keeps the accounting exact. */
  lemma ConstructPreservesInv(w: World, c: nat)
    requires Inv(w) && c < |w.contexts|
    ensures Inv(Construct(w, c).0)
  {
    var (w', g0) := Construct(w, c);
    var v := Attached(c, |w.ops|);
    forall d | 0 <= d < |w'.contexts|
      ensures w'.contexts[d].pendingAsyncOperations == AttachedTo(w'.guards, d)
    {
      AttachedToPush(w.guards, v, d);
    }
    forall g | 0 <= g < |w'.guards| ensures GuardWellFormed(w', g) {
      if g < |w.guards| { assert GuardWellFormed(w, g); }
    }
    forall g, h | 0 <= g < |w'.guards| && 0 <= h < |w'.guards| && g != h && w'.guards[g].Attached? && w'.guards[h].Attached?
      ensures w'.guards[g].op != w'.guards[h].op
    {
      if g < |w.guards| { assert GuardWellFormed(w, g); }
      if h < |w.guards| { assert GuardWellFormed(w, h); }
    }
    forall o | 0 <= o < |w'.ops| && w'.ops[o].finished == 0
      ensures exists g :: 0 <= g < |w'.guards| && w'.guards[g] == Attached(w'.ops[o].ctx, o)
    {
      if o < |w.ops| {
        var g :| 0 <= g < |w.guards| && w.guards[g] == Attached(w.ops[o].ctx, o);
        assert w'.guards[g] == w.guards[g];
      } else {
        assert w'.guards[g0] == Attached(w'.ops[o].ctx, o);
      }
    }
  }

  /** Firing finishes the held operation exactly once and keeps the accounting exact. */
  lemma FirePreservesInv(w: World, g: nat)
    requires Inv(w) && g < |w.guards|
    ensures Inv(Fire(w, g))
    ensures w.guards[g].Attached? ==>
      var o := w.guards[g].op;
      o < |Fire(w, g).ops| && Fire(w, g).ops[o].finished == 1
  {
    var w' := Fire(w, g);
    assert GuardWellFormed(w, g);
    if w.guards[g].Attached? {
      var (c, o) := (w.guards[g].ctx, w.guards[g].op);
      forall d | 0 <= d < |w'.contexts|
        ensures w'.contexts[d].pendingAsyncOperations == AttachedTo(w'.guards, d)
      {
        AttachedToUpdate(w.guards, g, Detached, d);
      }
      forall h | 0 <= h < |w'.guards| ensures GuardWellFormed(w', h) {
        assert GuardWellFormed(w, h);
        if h != g && w.guards[h].Attached? {
          assert w.guards[h].op != o;
        }
      }
      forall p | 0 <= p < |w'.ops| && w'.ops[p].finished == 0
        ensures exists h :: 0 <= h < |w'.guards| && w'.guards[h] == Attached(w'.ops[p].ctx, p)
      {
        var h :| 0 <= h < |w.guards| && w.guards[h] == Attached(w.ops[p].ctx, p);
        assert h != g;
        assert w'.guards[h] == w.guards[h];
      }
    }
  }

  /** A move hands the obligation over: the world's accounting stays exact, and the moved-to
      guard holds what the moved-from guard held. */
  lemma MoveConstructPreservesInv(w: World, src: nat)
    requires Inv(w) && src < |w.guards|
    ensures Inv(MoveConstruct(w, src).0)
  {
    var (w', g0) := MoveConstruct(w, src);
    var v := w.guards[src];
    forall d | 0 <= d < |w'.contexts|
      ensures w'.contexts[d].pendingAsyncOperations == AttachedTo(w'.guards, d)
    {
      AttachedToUpdate(w.guards, src, Detached, d);
      AttachedToPush(w.guards[src := Detached], v, d);
    }
    forall g | 0 <= g < |w'.guards| ensures GuardWellFormed(w', g) {
      if g < |w.guards| { assert GuardWellFormed(w, g); } else { assert GuardWellFormed(w, src); }
    }
    forall g, h | 0 <= g < |w'.guards| && 0 <= h < |w'.guards| && g != h && w'.guards[g].Attached? && w'.guards[h].Attached?
      ensures w'.guards[g].op != w'.guards[h].op
    {
      var g1 := if g == g0 then src else g;
      var h1 := if h == g0 then src else h;
      assert w'.guards[g] == w.guards[g1] && w'.guards[h] == w.guards[h1];
    }
    forall o | 0 <= o < |w'.ops| && w'.ops[o].finished == 0
      ensures exists g :: 0 <= g < |w'.guards| && w'.guards[g] == Attached(w'.ops[o].ctx, o)
    {
      var g :| 0 <= g < |w.guards| && w.guards[g] == Attached(w.ops[o].ctx, o);
      if g == src {
        assert w'.guards[g0] == w.guards[g];
      } else {
        assert w'.guards[g] == w.guards[g];
      }
    }
  }

  /** Handing a guard's pointer to a detached guard keeps the accounting exact. */
  lemma TransferPreservesInv(w: World, dst: nat, src: nat)
    requires Inv(w) && dst < |w.guards| && src < |w.guards| && dst != src && w.guards[dst].Detached?
    ensures Inv(w.(guards := w.guards[dst := w.guards[src]][src := Detached]))
  {
    var v := w.guards[src];
    var w' := w.(guards := w.guards[dst := v][src := Detached]);
    forall d | 0 <= d < |w'.contexts|
      ensures w'.contexts[d].pendingAsyncOperations == AttachedTo(w'.guards, d)
    {
      AttachedToUpdate(w.guards, dst, v, d);
      AttachedToUpdate(w.guards[dst := v], src, Detached, d);
    }
    forall g | 0 <= g < |w'.guards| ensures GuardWellFormed(w', g) {
      if g == dst { assert GuardWellFormed(w, src); } else { assert GuardWellFormed(w, g); }
    }
    forall g, h | 0 <= g < |w'.guards| && 0 <= h < |w'.guards| && g != h && w'.guards[g].Attached? && w'.guards[h].Attached?
      ensures w'.guards[g].op != w'.guards[h].op
    {
      var g1 := if g == dst then src else g;
      var h1 := if h == dst then src else h;
      assert w'.guards[g] == w.guards[g1] && w'.guards[h] == w.guards[h1];
    }
    forall o | 0 <= o < |w'.ops| && w'.ops[o].finished == 0
      ensures exists g :: 0 <= g < |w'.guards| && w'.guards[g] == Attached(w'.ops[o].ctx, o)
    {
      var g :| 0 <= g < |w.guards| && w.guards[g] == Attached(w.ops[o].ctx, o);
      if g == src {
        assert w'.guards[dst] == w.guards[g];
      } else {
        assert w'.guards[g] == w.guards[g];
      }
    }
  }

  /** Move assignment that first fires the destination keeps the accounting exact. */
  lemma MoveAssignPreservesInv(w: World, dst: nat, src: nat)
    requires Inv(w) && dst < |w.guards| && src < |w.guards|
    ensures Inv(MoveAssign(w, dst, src))
  {
    if dst != src {
      var w1 := Fire(w, dst);
      FirePreservesInv(w, dst);
      assert w1.guards[src] == w.guards[src];
      TransferPreservesInv(w1, dst, src);
      assert MoveAssign(w, dst, src) == w1.(guards := w1.guards[dst := w1.guards[src]][src := Detached]);
    }
  }

  /**
   * The defaulted move assignment loses an obligation: with two guards attached to one
   * context, assigning one onto the other leaves the counter at 2 with one guard attached,
   * and after every guard has fired the counter stays at 1, so a drain never completes.
   */
  lemma MoveAssignAsWrittenLeaks()
    ensures var (w0, c) := AddContext(EmptyWorld(), 0, 0);
            var (w1, g0) := Construct(w0, c);
            var (w2, g1) := Construct(w1, c);
            var w3 := MoveAssignAsWritten(w2, g0, g1);
            var w4 := Fire(Fire(w3, g0), g1);
            && Inv(w2)
            && w3.contexts[c].pendingAsyncOperations == 2
            && AttachedTo(w3.guards, c) == 1
            && !Inv(w3)
            && (forall g :: 0 <= g < |w4.guards| ==> w4.guards[g].Detached?)
            && w4.contexts[c].pendingAsyncOperations == 1
  {
    var (w0, c) := AddContext(EmptyWorld(), 0, 0);
    EmptyWorldInv();
    AddContextPreservesInv(EmptyWorld(), 0, 0);
    var (w1, g0) := Construct(w0, c);
    ConstructPreservesInv(w0, c);
    var (w2, g1) := Construct(w1, c);
    ConstructPreservesInv(w1, c);
    var w3 := MoveAssignAsWritten(w2, g0, g1);
    assert w3.guards == [Attached(0, 1), Detached];
    assert AttachedTo(w3.guards, c) == 1 by {
      assert w3.guards[1..] == [Detached];
      assert w3.guards[1..][1..] == [];
    }
  }

  /** Once no guard is attached, every context has drained to zero and every operation
      ever registered has been finished exactly once. */
  lemma DrainedMeansAllFinished(w: World)
    requires Inv(w)
    requires forall g :: 0 <= g < |w.guards| ==> w.guards[g].Detached?
    ensures forall c :: 0 <= c < |w.contexts| ==> w.contexts[c].pendingAsyncOperations == 0
    ensures forall o :: 0 <= o < |w.ops| ==> w.ops[o].finished == 1
  {
    forall c | 0 <= c < |w.contexts| ensures w.contexts[c].pendingAsyncOperations == 0 {
      AttachedToNone(w.guards, c);
    }
  }

  /** Firing twice is firing once, and firing a default-constructed guard is a no-op. */
  lemma FireAtMostOnce(w: World, g: nat)
    requires g < |w.guards|
    ensures Fire(Fire(w, g), g) == Fire(w, g)
    ensures w.guards[g].Detached? ==> Fire(w, g) == w
    ensures DefaultGuard(w).1 < |DefaultGuard(w).0.guards|
    ensures Fire(DefaultGuard(w).0, DefaultGuard(w).1) == DefaultGuard(w).0
  {
  }

  /** Moving a guard and then destroying both ends finishes the operation exactly once. */
  lemma {:induction false} MoveThenDestroyBoth(w: World, c: nat)
    requires Inv(w) && c < |w.contexts|
    ensures var (w1, g) := Construct(w, c);
            var (w2, h) := MoveConstruct(w1, g);
            var w3 := Fire(Fire(w2, g), h);
            && Inv(w3)
            && w3.ops[|w.ops|].finished == 1
            && w3.contexts[c].pendingAsyncOperations == w.contexts[c].pendingAsyncOperations
  {
    var (w1, g) := Construct(w, c);
    ConstructPreservesInv(w, c);
    var (w2, h) := MoveConstruct(w1, g);
    MoveConstructPreservesInv(w1, g);
    var w25 := Fire(w2, g);
    FirePreservesInv(w2, g);
    FirePreservesInv(w25, h);
  }

  /** `Action`: the closed set of things a request can ask of storage. */
  datatype Action =
    | InsertEntries(entries: seq<InMemoryLog.LogEntry>)
    | RemoveFront(stop: InMemoryLog.LogIndex)
    | RemoveBack(start: InMemoryLog.LogIndex)

  /** `Request`: the context's object id, the action, and a guard on the context (by slot). */
  datatype Request = Request(objectId: U64, action: Action, asyncGuard: nat)

  /** The `Request` constructor: copies the object id and constructs the guard on the context. */
  function MakeRequest(w: World, c: nat, action: Action): (r: (World, Request))
    requires c < |w.contexts|
    ensures r.1.objectId == w.contexts[c].objectId
    ensures r.1.action == action
    ensures r.1.asyncGuard < |r.0.guards| && r.0.guards[r.1.asyncGuard] == Attached(c, |w.ops|)
    ensures |r.0.contexts| == |w.contexts|
    ensures r.0.contexts[c].pendingAsyncOperations == w.contexts[c].pendingAsyncOperations + 1
  {
    var (w', g) := Construct(w, c);
    (w', Request(w.contexts[c].objectId, action, g))
  }

  /** Destroying a request fires its guard. */
  function FinishRequest(w: World, req: Request): World
    requires req.asyncGuard < |w.guards|
  {
    Fire(w, req.asyncGuard)
  }

  /** A request keeps one operation pending on its context for exactly its lifetime. */
  lemma {:induction false} RequestLifetime(w: World, c: nat, action: Action)
    requires Inv(w) && c < |w.contexts|
    ensures var (w1, req) := MakeRequest(w, c, action);
            && Inv(w1)
            && w1.contexts[c].pendingAsyncOperations == AttachedTo(w1.guards, c)
            && Inv(FinishRequest(w1, req))
            && FinishRequest(w1, req).contexts[c].pendingAsyncOperations == w.contexts[c].pendingAsyncOperations
            && FinishRequest(w1, req).ops[|w.ops|].finished == 1
  {
    var (w1, req) := MakeRequest(w, c, action);
    ConstructPreservesInv(w, c);
    FirePreservesInv(w1, req.asyncGuard);
  }

  /** What storage does with an action: insert a contiguous run after the last entry, drop
      everything below `stop`, or drop everything from `start` on. */
  function ApplyAction(store: InMemoryLog.Log, a: Action): (r: Result<InMemoryLog.Log, InMemoryLog.LogError>)
    ensures a.InsertEntries? ==>
      (r.Ok? <==> forall k :: 0 <= k < |a.entries| ==> a.entries[k].index == InMemoryLog.LastIndex(store) + 1 + k)
    ensures a.InsertEntries? && r.Ok? ==>
      && InMemoryLog.LastIndex(r.value) == InMemoryLog.LastIndex(store) + |a.entries|
      && forall i: nat :: InMemoryLog.Contains(store, i) ==> InMemoryLog.Contains(r.value, i)
    ensures a.InsertEntries? && r.Ok? ==>
      forall k :: 0 <= k < |a.entries| ==>
        InMemoryLog.Contains(r.value, InMemoryLog.LastIndex(store) + 1 + k)
        && InMemoryLog.At(r.value, InMemoryLog.LastIndex(store) + 1 + k) == a.entries[k]
    ensures !a.InsertEntries? ==> r.Ok?
    ensures a.RemoveFront? ==> forall i: nat :: InMemoryLog.Contains(r.value, i) <==> InMemoryLog.Contains(store, i) && i >= a.stop
    ensures a.RemoveBack? ==> forall i: nat :: InMemoryLog.Contains(r.value, i) <==> InMemoryLog.Contains(store, i) && i < a.start
    ensures r.Ok? ==> forall i: nat :: InMemoryLog.Contains(store, i) && InMemoryLog.Contains(r.value, i) ==>
      InMemoryLog.At(r.value, i) == InMemoryLog.At(store, i)
  {
    match a
    case InsertEntries(es) =>
      var r := InMemoryLog.AppendAll(store, es);
      if r.Ok? then
        InMemoryLog.AppendAllPlaces(store, es);
        r
      else r
    case RemoveFront(stop) => Ok(InMemoryLog.RemoveFront(store, stop))
    case RemoveBack(start) => Ok(InMemoryLog.RemoveBack(store, start))
  }

  /** `Lane::WaitForSync` / `Lane::DontWaitForSync` tags of the lane constructors. */
  datatype LaneTag = WaitForSync | DontWaitForSync

  /** `Lane`: pending requests, the number of active persistor threads and a constant flag. */
  datatype Lane = Lane(pendingPersistRequests: seq<Request>, activePersistorThreads: nat, waitForSync: bool)

  function MakeLane(tag: LaneTag): (l: Lane)
    ensures l.waitForSync <==> tag == WaitForSync
    ensures l.pendingPersistRequests == [] && l.activePersistorThreads == 0
  {
    Lane([], 0, tag == WaitForSync)
  }

  /** `_lanes`: exactly two lanes, the first waiting for sync and the second not. */
  function Lanes(): (lanes: seq<Lane>)
    ensures |lanes| == 2
    ensures lanes[0].waitForSync && !lanes[1].waitForSync
    ensures forall k :: 0 <= k < 2 ==> lanes[k].pendingPersistRequests == [] && lanes[k].activePersistorThreads == 0
  {
    [MakeLane(WaitForSync), MakeLane(DontWaitForSync)]
  }

  /** `RocksDBReplicatedStateInfo`; the persisted state itself is opaque here. */
  datatype StateInfo<S> = StateInfo(stateId: U64, objectId: U64, dataSourceId: U64, state: S)

  function DefaultStateInfo<S>(stateId: U64, state: S): (r: StateInfo<S>)
    ensures r.objectId == 0 && r.dataSourceId == 0
    ensures r.stateId == stateId && r.state == state
  {
    StateInfo(stateId, 0, 0, state)
  }

  datatype FieldValue<S> = Number(n: U64) | Nested(s: S)

  /** The attribute names the inspector uses for the object id and the data-source id
      (`StaticStrings::ObjectId`, `StaticStrings::DataSourceId`; their values are not part of this model). */
  datatype FieldNames = FieldNames(objectId: string, dataSourceId: string)

  predicate DistinctNames(n: FieldNames) {
    && n.objectId != "stateId" && n.objectId != "state"
    && n.dataSourceId != "stateId" && n.dataSourceId != "state"
    && n.objectId != n.dataSourceId
  }

  /** `inspect`: the four fields, in order. */
  function Inspect<S>(x: StateInfo<S>, n: FieldNames): seq<(string, FieldValue<S>)> {
    [("stateId", Number(x.stateId)), (n.objectId, Number(x.objectId)),
     (n.dataSourceId, Number(x.dataSourceId)), ("state", Nested(x.state))]
  }

  function Lookup<S>(fields: seq<(string, FieldValue<S>)>, name: string): Option<FieldValue<S>> {
    if |fields| == 0 then None
    else if fields[0].0 == name then Some(fields[0].1)
    else Lookup(fields[1..], name)
  }

  /** Loading by attribute name, as the inspector does when reading. */
  function Load<S>(fields: seq<(string, FieldValue<S>)>, n: FieldNames): Option<StateInfo<S>> {
    match (Lookup(fields, "stateId"), Lookup(fields, n.objectId), Lookup(fields, n.dataSourceId), Lookup(fields, "state"))
    case (Some(Number(a)), Some(Number(b)), Some(Number(c)), Some(Nested(s))) => Some(StateInfo(a, b, c, s))
    case _ => None
  }

  /** Saving and loading a state-info record gives it back unchanged. */
  lemma InspectRoundTrip<S>(x: StateInfo<S>, n: FieldNames)
    requires DistinctNames(n)
    ensures Load(Inspect(x, n), n) == Some(x)
  {
    var f := Inspect(x, n);
    assert f[1..] == [(n.objectId, Number(x.objectId)), (n.dataSourceId, Number(x.dataSourceId)), ("state", Nested(x.state))];
    assert f[1..][1..] == [(n.dataSourceId, Number(x.dataSourceId)), ("state", Nested(x.state))];
    assert f[1..][1..][1..] == [("state", Nested(x.state))];
    assert Lookup(f, "stateId") == Some(Number(x.stateId));
    assert Lookup(f, n.objectId) == Some(Number(x.objectId));
    assert Lookup(f[1..][1..], n.dataSourceId) == Some(Number(x.dataSourceId));
    assert Lookup(f, n.dataSourceId) == Some(Number(x.dataSourceId));
    assert Lookup(f[1..][1..][1..], "state") == Some(Nested(x.state));
    assert Lookup(f[1..][1..], "state") == Some(Nested(x.state));
    assert Lookup(f, "state") == Some(Nested(x.state));
  }
}
