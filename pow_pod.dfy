/**
 * `craftlib/src/powpod.rs`: the proof-of-work pod, which is meant to prove hash[0] <= difficulty
 * for a raw value `hash` and a 64-bit difficulty.
 *
 * The circuit's constraints are modelled on canonical field elements with the prover's
 * choices (the values `split_le` decomposes into bits) as explicit witnesses.
 */
module PowPod {
  import opened Goldilocks
  import opened Results
  import IntroPods

  const POW_POD_TYPE_ID: nat := 2002
  const POW_POD_TYPE_NAME: string := "PoW"
  const DIFFICULTY_NOT_MET: string := "Hash does not meet difficulty requirement"

  /**
   * `builder.split_le(x, n)` is satisfiable with the bits of v exactly when v < 2^n
   * (`bound`) and v equals x in the field.
   */
  predicate SplitWitness(x: Elem, v: nat, bound: nat)
  {
    v < bound && v % P == x
  }

  /**
   * The limbs `le_sum(bits[0..32])` and `le_sum(bits[32..64])` of a 64-bit decomposition v,
   * recombined with `mul_add(hi, 2^32, lo)` and connected to x.
   */
  predicate LimbsReconstruct(x: Elem, v: nat)
  {
    ((v / TWO_32) * TWO_32 + v % TWO_32) % P == x
  }

  /**
   * `PoWPodTarget::add_targets` as written, with vh, vd and vdiff the values the three
   * `split_le(_, 64)` calls decompose: hash[0] and difficulty split into 32-bit limbs that
   * recombine to them, and difficulty - hash[0] (a field subtraction) split into 64 bits.
   */
  predicate AsWrittenAccepts(h: Elem, d: Elem, vh: nat, vd: nat, vdiff: nat)
  {
    && SplitWitness(h, vh, TWO_64) && LimbsReconstruct(h, vh)
    && SplitWitness(d, vd, TWO_64) && LimbsReconstruct(d, vd)
    && SplitWitness(Sub(d, h), vdiff, TWO_64)
  }

  /**
   * Since p < 2^64, every field element is its own 64-bit decomposition: the circuit as
   * written is satisfiable for every hash and every difficulty.
   */
  lemma AsWrittenAcceptsEverything(h: Elem, d: Elem)
    ensures AsWrittenAccepts(h, d, h, d, Sub(d, h))
  {
    OrderValue();
  }

  /** As written, a hash of 1 is accepted against difficulty 0, which the corrected circuit refuses. */
  lemma AsWrittenAcceptsAboveDifficulty()
    ensures AsWrittenAccepts(1, 0, 1, 0, Sub(0, 1))
    ensures forall vh: nat, vd: nat :: !CorrectedAccepts(1, 0, vh, vd)
  {
    AsWrittenAcceptsEverything(1, 0);
    CorrectedAcceptsIff(1, 0);
    forall vh: nat, vd: nat | CorrectedAccepts(1, 0, vh, vd)
      ensures false
    {
      CorrectedWitnessesCanonical(1, 0, vh, vd);
    }
  }

  /** The high and low 32-bit limbs of a 64-bit value. */
  function Hi(v: nat): nat { v / TWO_32 }
  function Lo(v: nat): nat { v % TWO_32 }

  /** A limb difference taken in the field (`builder.sub` on two 32-bit limbs). */
  function LimbSub(a: nat, b: nat): nat { (a - b) % P }

  /**
   * A circuit that does prove hash[0] <= difficulty: both 64-bit decompositions are checked
   * canonical (below p, so they are the elements themselves), the high limbs are compared by
   * range-checking their field difference to 32 bits, and where the high limbs are equal the
   * low limbs are compared the same way.
   */
  predicate CorrectedAccepts(h: Elem, d: Elem, vh: nat, vd: nat)
  {
    && SplitWitness(h, vh, TWO_64) && vh < P
    && SplitWitness(d, vd, TWO_64) && vd < P
    && LimbSub(Hi(vd), Hi(vh)) < TWO_32
    && (Hi(vd) == Hi(vh) ==> LimbSub(Lo(vd), Lo(vh)) < TWO_32)
  }

  /** A field difference of two 32-bit limbs fits in 32 bits exactly when it does not wrap. */
  lemma LimbDifference(a: nat, b: nat)
    requires a < TWO_32 && b < TWO_32
    ensures LimbSub(a, b) < TWO_32 <==> b <= a
  {
    OrderValue();
    if b > a {
      assert LimbSub(a, b) == P - (b - a);
    }
  }

  /** Two values below 2^64 compare as their (high, low) limb pairs do lexicographically. */
  lemma LimbsOrder(x: nat, y: nat)
    requires x < TWO_64 && y < TWO_64
    ensures Hi(x) < TWO_32 && Hi(y) < TWO_32
    ensures x <= y <==> Hi(x) < Hi(y) || (Hi(x) == Hi(y) && Lo(x) <= Lo(y))
  {
    assert x == Hi(x) * TWO_32 + Lo(x);
    assert y == Hi(y) * TWO_32 + Lo(y);
    if Hi(x) < Hi(y) {
      assert Hi(x) * TWO_32 + TWO_32 <= Hi(y) * TWO_32;
    } else if Hi(y) < Hi(x) {
      assert Hi(y) * TWO_32 + TWO_32 <= Hi(x) * TWO_32;
    }
  }

  /** Any satisfying assignment of the corrected circuit decomposes the elements themselves. */
  lemma CorrectedWitnessesCanonical(h: Elem, d: Elem, vh: nat, vd: nat)
    requires CorrectedAccepts(h, d, vh, vd)
    ensures vh == h && vd == d
  {
  }

  /** The corrected circuit has a satisfying assignment exactly when hash[0] <= difficulty. */
  lemma CorrectedAcceptsIff(h: Elem, d: Elem)
    ensures CorrectedAccepts(h, d, h, d) <==> h <= d
  {
    OrderValue();
    LimbsOrder(h, d);
    LimbDifference(Hi(d), Hi(h));
    LimbDifference(Lo(d), Lo(h));
  }

  /** `pub_self_statements`: Intro "PoW" with args_len 2, an empty verifier-data hash and args [hash, [difficulty, 0, 0, 0]]. */
  function PubSelfStatements(hash: Raw, difficulty: Elem): seq<IntroPods.IntroStatement>
  {
    [IntroPods.IntroStatement(POW_POD_TYPE_NAME, 2, EMPTY_VALUE, [hash, FromElem(difficulty)])]
  }

  /** `PoWPod`: the fields `verify` reads. */
  datatype PoWPod = PoWPod(hash: Raw, difficulty: Elem, statementsHash: Raw)

  /**
   * `PoWPod::new`: bails when the first element of the given value (not of its hash) exceeds
   * the difficulty; otherwise the circuit is provable (as written, and also in its corrected
   * form) and the pod is made.
   */
  function New(statementsHash: seq<IntroPods.IntroStatement> -> Raw, hash: Raw, difficulty: nat): (r: Result<PoWPod, string>)
    requires difficulty < P
    ensures r.Ok? <==> hash[0] <= difficulty
    ensures r.Err? ==> r.error == DIFFICULTY_NOT_MET
    ensures r.Ok? ==> r.value.hash == hash && r.value.difficulty == difficulty
                      && PubSelfStatements(r.value.hash, r.value.difficulty)[0].args == [hash, FromElem(difficulty)]
    ensures r.Ok? ==> AsWrittenAccepts(hash[0], difficulty, hash[0], difficulty, Sub(difficulty, hash[0]))
                      && CorrectedAccepts(hash[0], difficulty, hash[0], difficulty)
  {
    if hash[0] > difficulty then Err(DIFFICULTY_NOT_MET)
    else
      AsWrittenAcceptsEverything(hash[0], difficulty);
      CorrectedAcceptsIff(hash[0], difficulty);
      Ok(PoWPod(hash, difficulty, statementsHash(PubSelfStatements(hash, difficulty))))
  }

  /** `Pod::verify` of a `PoWPod`. */
  function Verify(statementsHash: seq<IntroPods.IntroStatement> -> Raw, pod: PoWPod, vdRoot: Raw,
                  circuitAccepts: seq<Elem> -> bool): Result<(), IntroPods.VerifyError>
  {
    IntroPods.Verify(statementsHash, PubSelfStatements(pod.hash, pod.difficulty), pod.statementsHash, vdRoot, circuitAccepts)
  }

  /** A pod `new` made passes the hash check of `verify`; the verdict is the circuit's. */
  lemma NewThenVerify(statementsHash: seq<IntroPods.IntroStatement> -> Raw, hash: Raw, difficulty: nat, vdRoot: Raw,
                      circuitAccepts: seq<Elem> -> bool)
    requires difficulty < P
    requires New(statementsHash, hash, difficulty).Ok?
    ensures var pod := New(statementsHash, hash, difficulty).value;
            Verify(statementsHash, pod, vdRoot, circuitAccepts).Ok? <==> circuitAccepts(pod.statementsHash + vdRoot)
  {
    IntroPods.VerifyFreshPod(statementsHash, PubSelfStatements(hash, difficulty), vdRoot, circuitAccepts);
  }

  /** `test_pow_pod_fails_above_difficulty`: with difficulty 1, any value whose first element exceeds 1 is refused. */
  lemma StrictDifficultyRefuses(statementsHash: seq<IntroPods.IntroStatement> -> Raw, hash: Raw)
    requires hash[0] > 1
    ensures New(statementsHash, hash, 1) == Err(DIFFICULTY_NOT_MET)
  {
  }
}
