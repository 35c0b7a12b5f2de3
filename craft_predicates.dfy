/**
 * `craftlib/src/predicates.rs`: the difficulty literal and the recipe predicates IsStone,
 * IsWood, AxeInputs, IsAxe, WoodenAxeInputs and IsWoodenAxe, read as logical predicates over
 * the containers' contents and the intro statements of the sequential-work and
 * proof-of-work pods.
 */
module CraftPredicates {
  import opened Goldilocks
  import opened Results
  import Crypto
  import CommitPredicates
  import PowPod

  // ---------------------------------------------------------------- hexadecimal digits

  /** 16^n. */
  function Pow16(n: nat): (r: nat)
    ensures r >= 1
  {
    if n == 0 then 1 else 16 * Pow16(n - 1)
  }

  lemma {:induction false} Pow16Add(a: nat, b: nat)
    ensures Pow16(a + b) == Pow16(a) * Pow16(b)
    decreases b
  {
    if b > 0 {
      Pow16Add(a, b - 1);
    }
  }

  /** Sixteen hexadecimal digits hold exactly the 64-bit words. */
  lemma Pow16Is64Bits()
    ensures Pow16(16) == TWO_64
  {
    assert Pow16(4) == 0x1_0000;
    Pow16Add(4, 4);
    Pow16Add(8, 8);
  }

  const HEX_DIGITS: string := "0123456789abcdef"

  /** The lowercase digit of a value below 16 (`{:x}`). */
  function HexChar(v: nat): char
    requires v < 16
  {
    HEX_DIGITS[v]
  }

  /** The value of a hexadecimal digit, in either case. */
  function HexValue(ch: char): (r: Option<nat>)
    ensures r.Some? ==> r.value < 16
  {
    if '0' <= ch <= '9' then Some(ch as int - '0' as int)
    else if 'a' <= ch <= 'f' then Some(ch as int - 'a' as int + 10)
    else if 'A' <= ch <= 'F' then Some(ch as int - 'A' as int + 10)
    else None
  }

  /** `{:0width x}`: the last `width` hexadecimal digits of n, most significant first. */
  function Hex(n: nat, width: nat): (r: string)
    ensures |r| == width
  {
    if width == 0 then [] else Hex(n / 16, width - 1) + [HexChar(n % 16)]
  }

  /** Reading a string of hexadecimal digits, most significant first. */
  function ParseHex(s: string): Option<nat>
  {
    if s == [] then Some(0)
    else
      match (ParseHex(s[..|s| - 1]), HexValue(s[|s| - 1]))
      case (Some(high), Some(low)) => Some(high * 16 + low)
      case _ => None
  }

  /** Reading back what `Hex` wrote gives the number, as long as it fits. */
  lemma {:induction false} ParseHexOfHex(n: nat, width: nat)
    requires n < Pow16(width)
    ensures ParseHex(Hex(n, width)) == Some(n)
  {
    if width > 0 {
      ParseHexOfHex(n / 16, width - 1);
      var s := Hex(n, width);
      assert s[..|s| - 1] == Hex(n / 16, width - 1);
      assert HexValue(HexChar(n % 16)) == Some(n % 16);
    }
  }

  /** `Hex` writes lowercase digits only. */
  lemma {:induction false} HexDigitsLowercase(n: nat, width: nat)
    ensures forall i | 0 <= i < width :: Hex(n, width)[i] in HEX_DIGITS
  {
    if width > 0 {
      HexDigitsLowercase(n / 16, width - 1);
    }
  }

  // ---------------------------------------------------------------- difficulty_to_raw_string

  const RAW_PREFIX: string := "Raw(0x"

  /**
   * `difficulty_to_raw_string`: "Raw(0x" followed by three 16-digit zero words and then the
   * difficulty as 16 lowercase hexadecimal digits, and ")". The word printed is the u64 itself
   * (`from_canonical_u64(d).0`).
   */
  function DifficultyToRawString(difficulty: nat): (r: string)
    requires difficulty < TWO_64
    ensures |r| == 71
    ensures r[..6] == RAW_PREFIX && r[70] == ')'
    ensures forall i | 6 <= i < 54 :: r[i] == '0'
  {
    var zero := Hex(0, 16);
    HexZero(16);
    RAW_PREFIX + zero + zero + zero + Hex(difficulty, 16) + ")"
  }

  lemma {:induction false} HexZero(width: nat)
    ensures forall i | 0 <= i < width :: Hex(0, width)[i] == '0'
  {
    if width > 0 {
      HexZero(width - 1);
    }
  }

  /**
   * A `Raw(0x…)` literal: 64 hexadecimal digits in four 16-digit words, the last word being
   * element 0 (the order `RawValue`'s display uses); every word must be a canonical element.
   */
  function RawLiteralValue(s: string): Option<Raw>
  {
    if |s| != 71 || s[..6] != RAW_PREFIX || s[70] != ')' then None
    else
      match (ParseHex(s[54..70]), ParseHex(s[38..54]), ParseHex(s[22..38]), ParseHex(s[6..22]))
      case (Some(e0), Some(e1), Some(e2), Some(e3)) =>
        if e0 < P && e1 < P && e2 < P && e3 < P then Some([e0, e1, e2, e3]) else None
      case _ => None
  }

  /** The literal of a canonical difficulty d denotes [d, 0, 0, 0], the argument the PoW pod publishes. */
  lemma DifficultyLiteralValue(difficulty: nat)
    requires difficulty < P
    ensures RawLiteralValue(DifficultyToRawString(difficulty)) == Some(FromElem(difficulty))
  {
    OrderValue();
    Pow16Is64Bits();
    var s := DifficultyToRawString(difficulty);
    var zero := Hex(0, 16);
    assert s == RAW_PREFIX + zero + zero + zero + Hex(difficulty, 16) + ")";
    assert s[54..70] == Hex(difficulty, 16);
    assert s[38..54] == zero && s[22..38] == zero && s[6..22] == zero;
    ParseHexOfHex(difficulty, 16);
    ParseHexOfHex(0, 16);
  }

  // ---------------------------------------------------------------- intro statements

  /**
   * `PoW(hash, difficulty)`: a PoW pod publishes it exactly for the pairs its circuit accepts.
   * The corrected circuit is used (the circuit as written accepts every pair).
   */
  ghost predicate PoWHolds(hash: Raw, difficulty: Raw)
  {
    difficulty == FromElem(difficulty[0]) && PowPod.CorrectedAccepts(hash[0], difficulty[0], hash[0], difficulty[0])
  }

  /** `PoW(hash, <difficulty_to_raw_string(max)>)`. */
  ghost predicate PoWLiteral(hash: Raw, max: nat)
  {
    max < TWO_64 && RawLiteralValue(DifficultyToRawString(max)).Some?
    && PoWHolds(hash, RawLiteralValue(DifficultyToRawString(max)).value)
  }

  /** For a canonical maximum, the PoW statement with its literal says hash[0] <= max. */
  lemma PoWLiteralIff(hash: Raw, max: nat)
    requires max < P
    ensures PoWLiteral(hash, max) <==> hash[0] <= max
  {
    OrderValue();
    DifficultyLiteralValue(max);
    PowPod.CorrectedAcceptsIff(hash[0], max);
  }

  /**
   * `PoW(hash, difficulty)` for the circuit as written, where some 64-bit decompositions
   * satisfy its constraints.
   */
  ghost predicate PoWHoldsAsWritten(hash: Raw, difficulty: Raw)
  {
    difficulty == FromElem(difficulty[0])
    && exists vh: nat, vd: nat, vdiff: nat :: PowPod.AsWrittenAccepts(hash[0], difficulty[0], vh, vd, vdiff)
  }

  /**
   * With the circuit as written the difficulty literal bounds nothing: the PoW statement
   * holds for every hash against every canonical maximum.
   */
  lemma PoWLiteralAsWrittenAny(hash: Raw, max: nat)
    requires max < P
    ensures RawLiteralValue(DifficultyToRawString(max)) == Some(FromElem(max))
    ensures PoWHoldsAsWritten(hash, FromElem(max))
  {
    OrderValue();
    DifficultyLiteralValue(max);
    PowPod.AsWrittenAcceptsEverything(hash[0], max);
  }

  /**
   * `Vdf(count, input, output)`: a sequential-work pod publishes it for count n (2 <= n < p,
   * as `VdfPod::new` produces) and output H^n(input).
   */
  ghost predicate VdfHolds(c: Crypto.Primitives, count: Raw, input: Raw, output: Raw)
  {
    exists n: nat :: 2 <= n < P && count == FromElem(n) && output == Crypto.Iterate(c, n, input)
  }

  /** The integer literal 3 as a raw value. */
  const THREE: Raw := FromElem(3)

  /** `Vdf(3, input, output)` says output = H(H(H(input))). */
  lemma VdfThreeIff(c: Crypto.Primitives, input: Raw, output: Raw)
    ensures VdfHolds(c, THREE, input, output) <==> output == Crypto.Iterate(c, 3, input)
  {
    OrderValue();
    if VdfHolds(c, THREE, input, output) {
      var n: nat :| 2 <= n < P && THREE == FromElem(n) && output == Crypto.Iterate(c, n, input);
      assert FromElem(n)[0] == n;
    } else {
      assert !(THREE == FromElem(3) && output == Crypto.Iterate(c, 3, input));
    }
  }

  // ---------------------------------------------------------------- recipe predicates

  /** The mining maxima the recipes compile in; `craftlib` does not define them here. */
  datatype MiningMaxima = MiningMaxima(stone: nat, wood: nat, axe: nat)

  /** The private arguments of a recipe predicate and of its `ItemDef`. */
  datatype RecipeWitness = RecipeWitness(ingredients: map<string, Raw>, inputs: set<Raw>, key: Raw, work: Raw)

  ghost predicate ItemDefOf(c: Crypto.Primitives, item: Raw, w: RecipeWitness)
  {
    CommitPredicates.ItemDef(c, item, w.ingredients, w.inputs, w.key, w.work)
  }

  ghost predicate Blueprint(c: Crypto.Primitives, w: RecipeWitness, name: string)
  {
    CommitPredicates.DictContains(w.ingredients, "blueprint", c.strValue(name))
  }

  /**
   * The literal `{}` is read as `EMPTY_VALUE`, the root of an empty set or dictionary (the
   * builder proves `Equal(sub, {})` by `Equal(inputs_set, EMPTY_VALUE)`). Compared with a
   * work value, as in `Equal(work, {})`, it is that raw value; compared with a container,
   * as in `Equal(inputs, {})`, it says the container is empty, since containers are given by
   * their contents.
   *
   * The body of `IsStone(item, private: ingredients, inputs, key, work)`.
   */
  ghost predicate IsStoneW(c: Crypto.Primitives, m: MiningMaxima, item: Raw, w: RecipeWitness)
  {
    && ItemDefOf(c, item, w)
    && w.inputs == {}
    && Blueprint(c, w, "stone")
    && PoWLiteral(c.dictRoot(w.ingredients), m.stone)
    && VdfHolds(c, THREE, c.dictRoot(w.ingredients), w.work)
  }

  ghost predicate IsStone(c: Crypto.Primitives, m: MiningMaxima, item: Raw)
  {
    exists w: RecipeWitness :: IsStoneW(c, m, item, w)
  }

  /** The body of `IsWood(item, private: ingredients, inputs, key, work)`. */
  ghost predicate IsWoodW(c: Crypto.Primitives, m: MiningMaxima, item: Raw, w: RecipeWitness)
  {
    && ItemDefOf(c, item, w)
    && w.inputs == {}
    && Blueprint(c, w, "wood")
    && PoWLiteral(c.dictRoot(w.ingredients), m.wood)
    && w.work == EMPTY_VALUE
  }

  ghost predicate IsWood(c: Crypto.Primitives, m: MiningMaxima, item: Raw)
  {
    exists w: RecipeWitness :: IsWoodW(c, m, item, w)
  }

  /** The private arguments of `AxeInputs` and `WoodenAxeInputs`: the one-element set and the two inputs. */
  datatype PairWitness = PairWitness(s1: set<Raw>, first: Raw, second: Raw)

  /** The body of `AxeInputs(inputs, private: s1, wood, stone)`. */
  ghost predicate AxeInputsW(c: Crypto.Primitives, m: MiningMaxima, inputs: set<Raw>, w: PairWitness)
  {
    && CommitPredicates.SetInsert(w.s1, {}, w.first)
    && CommitPredicates.SetInsert(inputs, w.s1, w.second)
    && IsWood(c, m, w.first)
    && IsStone(c, m, w.second)
  }

  ghost predicate AxeInputs(c: Crypto.Primitives, m: MiningMaxima, inputs: set<Raw>)
  {
    exists w: PairWitness :: AxeInputsW(c, m, inputs, w)
  }

  /** The body of `IsAxe(item, private: ingredients, inputs, key, work)`. */
  ghost predicate IsAxeW(c: Crypto.Primitives, m: MiningMaxima, item: Raw, w: RecipeWitness)
  {
    && ItemDefOf(c, item, w)
    && Blueprint(c, w, "axe")
    && PoWLiteral(c.dictRoot(w.ingredients), m.axe)
    && w.work == EMPTY_VALUE
    && AxeInputs(c, m, w.inputs)
  }

  ghost predicate IsAxe(c: Crypto.Primitives, m: MiningMaxima, item: Raw)
  {
    exists w: RecipeWitness :: IsAxeW(c, m, item, w)
  }

  /** The body of `WoodenAxeInputs(inputs, private: s1, wood1, wood2)`. */
  ghost predicate WoodenAxeInputsW(c: Crypto.Primitives, m: MiningMaxima, inputs: set<Raw>, w: PairWitness)
  {
    && CommitPredicates.SetInsert(w.s1, {}, w.first)
    && CommitPredicates.SetInsert(inputs, w.s1, w.second)
    && IsWood(c, m, w.first)
    && IsWood(c, m, w.second)
  }

  ghost predicate WoodenAxeInputs(c: Crypto.Primitives, m: MiningMaxima, inputs: set<Raw>)
  {
    exists w: PairWitness :: WoodenAxeInputsW(c, m, inputs, w)
  }

  /** The body of `IsWoodenAxe(item, private: ingredients, inputs, key, work)`: no PoW. */
  ghost predicate IsWoodenAxeW(c: Crypto.Primitives, m: MiningMaxima, item: Raw, w: RecipeWitness)
  {
    && ItemDefOf(c, item, w)
    && Blueprint(c, w, "wooden-axe")
    && w.work == EMPTY_VALUE
    && WoodenAxeInputs(c, m, w.inputs)
  }

  ghost predicate IsWoodenAxe(c: Crypto.Primitives, m: MiningMaxima, item: Raw)
  {
    exists w: RecipeWitness :: IsWoodenAxeW(c, m, item, w)
  }

  // ---------------------------------------------------------------- what the recipes mean

  /**
   * A stone is a mined item with no inputs, blueprint "stone", ingredients root below the
   * stone maximum in its first element, and three rounds of sequential work on that root.
   */
  lemma IsStoneMeaning(c: Crypto.Primitives, m: MiningMaxima, item: Raw, w: RecipeWitness)
    requires m.stone < P
    ensures IsStoneW(c, m, item, w) <==>
              && ItemDefOf(c, item, w) && w.inputs == {} && Blueprint(c, w, "stone")
              && c.dictRoot(w.ingredients)[0] <= m.stone
              && w.work == Crypto.Iterate(c, 3, c.dictRoot(w.ingredients))
  {
    PoWLiteralIff(c.dictRoot(w.ingredients), m.stone);
    VdfThreeIff(c, c.dictRoot(w.ingredients), w.work);
  }

  /** A wood is a mined item with no inputs, blueprint "wood", the wood maximum met, and no work. */
  lemma IsWoodMeaning(c: Crypto.Primitives, m: MiningMaxima, item: Raw, w: RecipeWitness)
    requires m.wood < P
    ensures IsWoodW(c, m, item, w) <==>
              && ItemDefOf(c, item, w) && w.inputs == {} && Blueprint(c, w, "wood")
              && c.dictRoot(w.ingredients)[0] <= m.wood
              && w.work == EMPTY_VALUE
  {
    PoWLiteralIff(c.dictRoot(w.ingredients), m.wood);
  }

  /** Inserting `first` into the empty set and then `second` gives the two-element set {first, second}. */
  lemma TwoInsertions(inputs: set<Raw>, s1: set<Raw>, first: Raw, second: Raw)
    ensures (CommitPredicates.SetInsert(s1, {}, first) && CommitPredicates.SetInsert(inputs, s1, second))
              <==> s1 == {first} && first != second && inputs == {first, second}
  {
  }

  /** The chained set insertions make the axe's inputs exactly two distinct items, a wood and a stone. */
  lemma AxeInputsIff(c: Crypto.Primitives, m: MiningMaxima, inputs: set<Raw>)
    ensures AxeInputs(c, m, inputs) <==>
              exists wood: Raw, stone: Raw :: IsWood(c, m, wood) && IsStone(c, m, stone) && wood != stone && inputs == {wood, stone}
  {
    if AxeInputs(c, m, inputs) {
      var w :| AxeInputsW(c, m, inputs, w);
      TwoInsertions(inputs, w.s1, w.first, w.second);
      assert IsWood(c, m, w.first) && IsStone(c, m, w.second);
    }
    if exists wood: Raw, stone: Raw :: IsWood(c, m, wood) && IsStone(c, m, stone) && wood != stone && inputs == {wood, stone} {
      var wood: Raw, stone: Raw :| IsWood(c, m, wood) && IsStone(c, m, stone) && wood != stone && inputs == {wood, stone};
      TwoInsertions(inputs, {wood}, wood, stone);
      assert AxeInputsW(c, m, inputs, PairWitness({wood}, wood, stone));
    }
  }

  /** A wooden axe's inputs are exactly two distinct woods. */
  lemma WoodenAxeInputsIff(c: Crypto.Primitives, m: MiningMaxima, inputs: set<Raw>)
    ensures WoodenAxeInputs(c, m, inputs) <==>
              exists wood1: Raw, wood2: Raw :: IsWood(c, m, wood1) && IsWood(c, m, wood2) && wood1 != wood2 && inputs == {wood1, wood2}
  {
    if WoodenAxeInputs(c, m, inputs) {
      var w :| WoodenAxeInputsW(c, m, inputs, w);
      TwoInsertions(inputs, w.s1, w.first, w.second);
      assert IsWood(c, m, w.first) && IsWood(c, m, w.second);
    }
    if exists wood1: Raw, wood2: Raw :: IsWood(c, m, wood1) && IsWood(c, m, wood2) && wood1 != wood2 && inputs == {wood1, wood2} {
      var wood1: Raw, wood2: Raw :| IsWood(c, m, wood1) && IsWood(c, m, wood2) && wood1 != wood2 && inputs == {wood1, wood2};
      TwoInsertions(inputs, {wood1}, wood1, wood2);
      assert WoodenAxeInputsW(c, m, inputs, PairWitness({wood1}, wood1, wood2));
    }
  }

  /**
   * An axe is an item with blueprint "axe", the axe maximum met, no sequential work, and as
   * inputs exactly two distinct items, a wood and a stone.
   */
  lemma IsAxeMeaning(c: Crypto.Primitives, m: MiningMaxima, item: Raw, w: RecipeWitness)
    requires m.axe < P
    ensures IsAxeW(c, m, item, w) <==>
              && ItemDefOf(c, item, w) && Blueprint(c, w, "axe")
              && c.dictRoot(w.ingredients)[0] <= m.axe && w.work == EMPTY_VALUE
              && (exists wood: Raw, stone: Raw ::
                    IsWood(c, m, wood) && IsStone(c, m, stone) && wood != stone && w.inputs == {wood, stone})
  {
    PoWLiteralIff(c.dictRoot(w.ingredients), m.axe);
    AxeInputsIff(c, m, w.inputs);
  }

  /**
   * A wooden axe is an item with blueprint "wooden-axe", no proof of work, no sequential
   * work, and as inputs exactly two distinct woods.
   */
  lemma IsWoodenAxeMeaning(c: Crypto.Primitives, m: MiningMaxima, item: Raw, w: RecipeWitness)
    ensures IsWoodenAxeW(c, m, item, w) <==>
              && ItemDefOf(c, item, w) && Blueprint(c, w, "wooden-axe") && w.work == EMPTY_VALUE
              && (exists wood1: Raw, wood2: Raw ::
                    IsWood(c, m, wood1) && IsWood(c, m, wood2) && wood1 != wood2 && w.inputs == {wood1, wood2})
  {
    WoodenAxeInputsIff(c, m, w.inputs);
  }
}
