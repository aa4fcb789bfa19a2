/**
 * The string helper and the builder leaser of arangod/Transaction/Helpers.h.
 */
module TransactionHelpers {
  import opened Wrappers

  /**
   * `extractKeyPart(std::string_view)`: the part after the first '/' of a document id
   * ("collection/key"), or the whole string when it holds no '/'. The result is a view
   * into the input, i.e. one of its suffixes.
   */
  method ExtractKeyPart(s: string) returns (key: string)
    ensures '/' !in s ==> key == s
    ensures '/' in s ==> exists i :: 0 <= i < |s| && s[i] == '/' && '/' !in s[..i] && key == s[i + 1..]
    ensures key == s[|s| - |key|..]
    ensures '/' in s ==> exists prefix :: '/' !in prefix && s == prefix + "/" + key
    ensures |key| < |s| <==> '/' in s
  {
    var i := 0;
    while i < |s| && s[i] != '/'
      invariant 0 <= i <= |s|
      invariant '/' !in s[..i]
    {
      i := i + 1;
    }
    if i == |s| {
      assert s[..i] == s;
      key := s;
    } else {
      key := s[i + 1..];
      assert s == s[..i] + "/" + key;
    }
  }

  /** Opaque handles standing for the raw `transaction::Context*` and `velocypack::Builder*`
      pointers of `Helpers.h`. */
  type TransactionContextRef = nat
  type BuilderRef = nat

  /** `BuilderLeaser`: a transaction context plus a possibly null leased builder. */
  datatype BuilderLeaser = BuilderLeaser(transactionContext: TransactionContextRef, builder: Option<BuilderRef>)

  /** `steal()`: hands out the held builder and leaves the leaser holding none. */
  function Steal(l: BuilderLeaser): (r: (Option<BuilderRef>, BuilderLeaser))
    ensures r.0 == l.builder
    ensures r.1.builder.None?
    ensures r.1.transactionContext == l.transactionContext
  {
    (l.builder, l.(builder := None))
  }

  /** The move constructor: the new leaser shares the moved-from leaser's context and
      takes its builder through `steal()`; the moved-from leaser is left empty. */
  function MoveConstruct(source: BuilderLeaser): (r: (BuilderLeaser, BuilderLeaser))
    ensures r.0.transactionContext == source.transactionContext
    ensures r.0.builder == source.builder
    ensures r.1.builder.None?
    ensures r.1.transactionContext == source.transactionContext
  {
    var (stolen, emptied) := Steal(source);
    (BuilderLeaser(source.transactionContext, stolen), emptied)
  }

  /** Builders held by a group of leasers, counted with multiplicity. */
  function Held(ls: seq<BuilderLeaser>): multiset<BuilderRef> {
    if |ls| == 0 then multiset{}
    else (match ls[0].builder case Some(b) => multiset{b} case None => multiset{}) + Held(ls[1..])
  }

  /** Ownership is transferred, never duplicated nor lost: after a move the two leasers
      together hold exactly what the moved-from leaser held, and a steal moves the builder out. */
  lemma {:induction false} TransferConservesBuilders(source: BuilderLeaser)
    ensures Held([MoveConstruct(source).0, MoveConstruct(source).1]) == Held([source])
    ensures Held([Steal(source).1]) == multiset{}
  {
    var (moved, emptied) := MoveConstruct(source);
    assert [moved, emptied][1..] == [emptied];
    assert [emptied][1..] == [];
    assert [source][1..] == [];
    assert [Steal(source).1][1..] == [];
  }
}
