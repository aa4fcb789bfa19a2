/**
 * The typed identifier of lib/Basics/Identifier.h: a value type wrapping one 64-bit
 * unsigned id. Its operators are declared in the header and documented there; their
 * definitions live in Identifier.cpp, which is not part of this model, so each operator
 * below follows its documentation: everything is decided by the wrapped id.
 */
module Identifiers {
  import opened Uint
  import opened Wrappers
  import Decimal

  /** `Identifier::BaseType _id` is the only state; the static_assert pins the size to it. */
  datatype Identifier = Identifier(id: U64)

  /** The default constructor. */
  function Default(): (r: Identifier)
    ensures r.id == 0
    ensures !IsSet(r)
  {
    Identifier(0)
  }

  /** The explicit constructor from a BaseType value. */
  function FromId(id: U64): Identifier {
    Identifier(id)
  }

  /** `id()` */
  function Id(x: Identifier): U64 {
    x.id
  }

  /** `explicit operator bool`, documented as "isSet". */
  predicate IsSet(x: Identifier) {
    x.id != 0
  }

  predicate Equal(a: Identifier, b: Identifier) {
    a.id == b.id
  }

  predicate NotEqual(a: Identifier, b: Identifier) {
    a.id != b.id
  }

  predicate Less(a: Identifier, b: Identifier) {
    a.id < b.id
  }

  predicate LessOrEqual(a: Identifier, b: Identifier) {
    a.id <= b.id
  }

  predicate Greater(a: Identifier, b: Identifier) {
    a.id > b.id
  }

  predicate GreaterOrEqual(a: Identifier, b: Identifier) {
    a.id >= b.id
  }

  /** The std::hash specialisation: the standard hash of the underlying integer, given as `h`. */
  function Hash(h: U64 -> nat, x: Identifier): nat {
    h(x.id)
  }

  /** The std::equal_to specialisation: delegates to operator==. */
  predicate EqualTo(a: Identifier, b: Identifier) {
    Equal(a, b)
  }

  /** The fmt::formatter specialisation under any format spec: `parse` and `format` both
      defer to the formatter of the underlying 64-bit integer, given as `f` (format spec and
      value to text). */
  function FormatWith(f: (string, U64) -> string, spec: string, x: Identifier): string {
    f(spec, x.id)
  }

  /** The same formatter under the default spec `{}`: the decimal text of `id()`. */
  function Format(x: Identifier): string {
    Decimal.NatToString(x.id)
  }

  /** Construction and `id()` are inverse: an identifier is exactly its id. */
  lemma IdRoundTrip(id: U64, x: Identifier)
    ensures Id(FromId(id)) == id
    ensures FromId(Id(x)) == x
  {
  }

  /** `==` holds exactly for equal ids, which is value identity of the wrapper; `!=` negates it. */
  lemma EqualityIsIdEquality(a: Identifier, b: Identifier)
    ensures Equal(a, b) <==> a == b
    ensures Equal(a, b) <==> Id(a) == Id(b)
    ensures NotEqual(a, b) <==> !Equal(a, b)
  {
  }

  /** `<=` is a total order whose equivalence is `==`. */
  lemma LessOrEqualIsTotalOrder(a: Identifier, b: Identifier, c: Identifier)
    ensures LessOrEqual(a, a)
    ensures LessOrEqual(a, b) && LessOrEqual(b, a) ==> Equal(a, b)
    ensures LessOrEqual(a, b) && LessOrEqual(b, c) ==> LessOrEqual(a, c)
    ensures LessOrEqual(a, b) || LessOrEqual(b, a)
  {
  }

  /** The four comparison operators agree with each other and with `==`: exactly one of
      `<`, `==`, `>` holds, and `<=`, `>`, `>=` are derived from `<` and `==`. */
  lemma ComparisonsAgree(a: Identifier, b: Identifier)
    ensures Less(a, b) <==> LessOrEqual(a, b) && NotEqual(a, b)
    ensures Greater(a, b) <==> Less(b, a)
    ensures GreaterOrEqual(a, b) <==> !Less(a, b)
    ensures (Less(a, b) && !Equal(a, b) && !Greater(a, b))
         || (!Less(a, b) && Equal(a, b) && !Greater(a, b))
         || (!Less(a, b) && !Equal(a, b) && Greater(a, b))
  {
  }

  /** Hashing and std::equal_to are compatible, as unordered containers need. */
  lemma HashRespectsEquality(h: U64 -> nat, a: Identifier, b: Identifier)
    ensures EqualTo(a, b) <==> Equal(a, b)
    ensures EqualTo(a, b) ==> Hash(h, a) == Hash(h, b)
    ensures Hash(h, a) == h(Id(a))
  {
  }

  /** Under every spec an identifier formats as its id does, so equal identifiers format
      alike; with an integer formatter that prints the default spec in decimal, the default
      spec gives `Format`. */
  lemma FormatDefersToInteger(f: (string, U64) -> string, spec: string, a: Identifier, b: Identifier)
    ensures FormatWith(f, spec, a) == f(spec, Id(a))
    ensures Equal(a, b) ==> FormatWith(f, spec, a) == FormatWith(f, spec, b)
    ensures f("", Id(a)) == Decimal.NatToString(Id(a)) ==> FormatWith(f, "", a) == Format(a)
  {
  }

  /** The formatted text reads back as the id, so formatting loses nothing. */
  lemma {:induction false} FormatRoundTrip(a: Identifier, b: Identifier)
    ensures Decimal.ParseInt(Format(a)) == Some(Id(a) as int)
    ensures Format(a) == Format(b) <==> Equal(a, b)
  {
    Decimal.IntToStringRoundTrip(a.id);
    Decimal.NatToStringInjective(a.id, b.id);
  }
}
