/**
 * The cryptographic primitives the core relies on, which this model does not open up:
 * Poseidon hashing of raw values and the roots of pod2's Merkle `Set` and `Dictionary`.
 * They are total functions with no properties; a lemma that needs one of them to be
 * injective on particular arguments says so in its own `requires`.
 */
module Crypto {
  import opened Goldilocks

  datatype Primitives = Primitives(
    /** `hash_values` / `hash_no_pad` over the elements of the given raw values. */
    hash: seq<Raw> -> Raw,
    /** `Set::commitment` of a set of values, each given by its raw value. */
    setRoot: set<Raw> -> Raw,
    /** `Dictionary::commitment` of a dictionary, each value given by its raw value. */
    dictRoot: map<string, Raw> -> Raw,
    /** `Key::hash` (and `Key::raw`) of a dictionary key. */
    keyHash: string -> Raw,
    /** `Value::from(&str).raw()`: the raw value of a string. */
    strValue: string -> Raw)

  /** H^n(x): the hash applied n times to a single raw value. */
  function Iterate(c: Primitives, n: nat, x: Raw): Raw
    decreases n
  {
    if n == 0 then x else c.hash([Iterate(c, n - 1, x)])
  }

  /** One more application can be taken at the inside instead: H^(n+1)(x) = H^n(H(x)). */
  lemma {:induction false} IterateInside(c: Primitives, n: nat, x: Raw)
    ensures Iterate(c, n + 1, x) == Iterate(c, n, c.hash([x]))
    decreases n
  {
    if n > 0 {
      IterateInside(c, n - 1, x);
    }
  }

  /** H^(a+b)(x) = H^b(H^a(x)). */
  lemma {:induction false} IterateAdd(c: Primitives, a: nat, b: nat, x: Raw)
    ensures Iterate(c, a + b, x) == Iterate(c, b, Iterate(c, a, x))
    decreases b
  {
    if b > 0 {
      IterateAdd(c, a, b - 1, x);
    }
  }
}
