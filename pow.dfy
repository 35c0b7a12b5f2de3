/**
 * `craftlib/src/pow.rs`: the recursion-count pod. Its inner circuit has the same witness
 * shape as the sequential-work step (`Vdf.StepInput`) but never looks at the proof it
 * verifies, so consecutive steps are not linked; `PowPod::new` proves one final step.
 */
module Pow {
  import opened Goldilocks
  import opened Results
  import Crypto
  import IntroPods
  import Vdf

  const ARITY: nat := 1
  const NUM_PUBLIC_INPUTS: nat := 9
  const POW_POD_TYPE_ID: nat := 2001
  const POW_POD_TYPE_NAME: string := "PoW"

  /** `builder.select(b, x, y)`. */
  function Select(b: bool, x: Elem, y: Elem): Elem
  {
    if b then x else y
  }

  /**
   * The base-case constraint as the circuit states it: both input and midput go through
   * `select(is_basecase, _, 0)` and the results are connected element by element.
   */
  predicate BaseCaseConnects(prevCount: Elem, input: Raw, midput: Raw)
  {
    forall i | 0 <= i < 4 :: Select(prevCount == 0, input[i], 0) == Select(prevCount == 0, midput[i], 0)
  }

  /** The selects force input = midput exactly in the base case and require nothing otherwise. */
  lemma BaseCaseConnectsMeaning(prevCount: Elem, input: Raw, midput: Raw)
    ensures BaseCaseConnects(prevCount, input, midput) <==> (prevCount == 0 ==> input == midput)
  {
    if prevCount == 0 && BaseCaseConnects(prevCount, input, midput) {
      forall i | 0 <= i < 4
        ensures input[i] == midput[i]
      {
        assert Select(true, input[i], 0) == Select(true, midput[i], 0);
      }
    }
  }

  /**
   * `PowInnerCircuit::build`: output = H(midput), count = prev_count + 1 in the field, and the
   * base-case selects. `_verified_proofs` is not used.
   */
  predicate StepHolds(c: Crypto.Primitives, w: Vdf.StepInput)
  {
    && w.output == c.hash([w.midput])
    && w.count == Add(w.prevCount, 1)
    && BaseCaseConnects(w.prevCount, w.input, w.midput)
  }

  /** The public inputs of a step proof: count@0, input@1..5, output@5..9. */
  function Encode(count: Elem, input: Raw, output: Raw): (r: seq<Elem>)
    ensures |r| == NUM_PUBLIC_INPUTS
  {
    [count] + input + output
  }

  /** How `PowPodVerifyTarget` reads the public inputs back. */
  function Decode(s: seq<Elem>): (r: (Elem, Raw, Raw))
    requires |s| == NUM_PUBLIC_INPUTS
  {
    (s[0], s[1..5], s[5..9])
  }

  lemma DecodeEncode(count: Elem, input: Raw, output: Raw)
    ensures Decode(Encode(count, input, output)) == (count, input, output)
  {
    var s := Encode(count, input, output);
    assert s[1..5] == input;
    assert s[5..9] == output;
  }

  lemma EncodeDecode(s: seq<Elem>)
    requires |s| == NUM_PUBLIC_INPUTS
    ensures Encode(Decode(s).0, Decode(s).1, Decode(s).2) == s
  {
    assert s == [s[0]] + s[1..5] + s[5..9];
  }

  /** `PowPod::new` proves the final step with prev_count = count - 1, computed in the field. */
  function NewStepInput(count: Elem, input: Raw, midput: Raw, output: Raw): (r: Vdf.StepInput)
    ensures Add(r.prevCount, 1) == count
  {
    Vdf.StepInput(Sub(count, 1), count, input, midput, output)
  }

  /**
   * The step `PowPod::new` proves is satisfiable exactly when output = H(midput) and, for
   * count 1 only, midput = input: nothing relates the output to the input for any other count.
   */
  lemma NewStepHoldsIff(c: Crypto.Primitives, count: Elem, input: Raw, midput: Raw, output: Raw)
    ensures StepHolds(c, NewStepInput(count, input, midput, output))
            <==> output == c.hash([midput]) && (count == 1 ==> input == midput)
  {
    BaseCaseConnectsMeaning(Sub(count, 1), input, midput);
  }

  /**
   * As written: a step claiming two recursions from `input` can carry the hash of any midput as
   * its output, so wherever that hash differs from H(H(input)) the claim is false.
   */
  lemma UnlinkedStepClaimsAnyOutput(c: Crypto.Primitives, input: Raw, midput: Raw)
    requires c.hash([midput]) != Crypto.Iterate(c, 2, input)
    ensures StepHolds(c, NewStepInput(2, input, midput, c.hash([midput])))
    ensures NewStepInput(2, input, midput, c.hash([midput])).output != Crypto.Iterate(c, 2, input)
  {
    NewStepHoldsIff(c, 2, input, midput, c.hash([midput]));
  }

  /** The witnesses of the test loop are the sequential-work loop's, and each satisfies this circuit. */
  lemma LoopWitnessHolds(c: Crypto.Primitives, k: nat, input: Raw)
    requires k < P
    ensures StepHolds(c, Vdf.LoopWitness(c, k, input))
  {
    Vdf.LoopWitnessValues(c, k, input);
    BaseCaseConnectsMeaning(Vdf.Count(k), input, Crypto.Iterate(c, k, input));
    Vdf.CountNext(k);
  }

  /** The error of a prover whose witness does not satisfy the circuit. */
  const PROVING_FAILED: string := "witness does not satisfy the circuit"

  /**
   * `get_pow_recursive_circuit` (a test helper): the same iteration as the sequential-work
   * loop, without its lower bound. It returns the last witness and the public inputs of the
   * last proof (the dummy proof's when no iteration runs); with no iteration the witness is
   * still the base step, whose count is 1.
   */
  method GetPowRecursiveCircuit(c: Crypto.Primitives, nIters: nat, startingInput: Raw, dummy: seq<Elem>)
    returns (r: Result<(Vdf.StepInput, seq<Elem>), string>)
    ensures nIters <= P ==> r.Ok?
    ensures r.Err? ==> r.error == PROVING_FAILED
    ensures r.Ok? && nIters == 0 ==> r.value == (Vdf.BaseStep(c, startingInput), dummy)
    ensures r.Ok? && nIters > 0 ==>
              && r.value.0.prevCount == Vdf.Count(nIters - 1)
              && r.value.0.count == Vdf.Count(nIters)
              && r.value.0.input == startingInput
              && r.value.0.midput == Crypto.Iterate(c, nIters - 1, startingInput)
              && r.value.0.output == Crypto.Iterate(c, nIters, startingInput)
              && r.value.1 == Encode(r.value.0.count, startingInput, r.value.0.output)
  {
    var inner := Vdf.BaseStep(c, startingInput);
    var proof := dummy;
    var i := 0;
    while i < nIters
      invariant 0 <= i <= nIters
      invariant inner == Vdf.LoopWitness(c, if i == 0 then 0 else i - 1, startingInput)
      invariant i == 0 ==> proof == dummy
      invariant i > 0 ==> proof == Encode(inner.count, inner.input, inner.output)
    {
      if i > 0 {
        inner := Vdf.NextStep(c, inner);
      }
      if !StepHolds(c, inner) {
        if nIters <= P {
          LoopWitnessHolds(c, i, startingInput);
        }
        return Err(PROVING_FAILED);
      }
      proof := Encode(inner.count, inner.input, inner.output);
      i := i + 1;
    }
    if nIters > 0 {
      Vdf.LoopWitnessValues(c, nIters - 1, startingInput);
    }
    return Ok((inner, proof));
  }

  /**
   * `pub_self_statements`: Intro "PoW" with args_len NUM_PUBLIC_INPUTS (9), the recursive
   * circuit's digest as verifier-data hash, and the three arguments [[count, 0, 0, 0], input, output].
   */
  function PubSelfStatements(circuitDigest: Raw, count: Elem, input: Raw, output: Raw): seq<IntroPods.IntroStatement>
  {
    [IntroPods.IntroStatement(POW_POD_TYPE_NAME, NUM_PUBLIC_INPUTS, circuitDigest, [FromElem(count), input, output])]
  }

  /** `pub_self_statements_target`, read from the public inputs of the verified step proof. */
  function TargetStatements(circuitDigest: Raw, pis: seq<Elem>): seq<IntroPods.IntroStatement>
    requires |pis| == NUM_PUBLIC_INPUTS
  {
    var zero: Elem := 0;
    [IntroPods.IntroStatement(POW_POD_TYPE_NAME, NUM_PUBLIC_INPUTS, circuitDigest, [[pis[0], zero, zero, zero], pis[1..5], pis[5..9]])]
  }

  /** The in-circuit and native statements agree on the public inputs of any step proof. */
  lemma TargetStatementsAgree(circuitDigest: Raw, count: Elem, input: Raw, output: Raw)
    ensures TargetStatements(circuitDigest, Encode(count, input, output)) == PubSelfStatements(circuitDigest, count, input, output)
  {
    DecodeEncode(count, input, output);
  }

  /** `PowPod`: the fields `verify` reads. */
  datatype PowPod = PowPod(count: Elem, input: Raw, output: Raw, statementsHash: Raw)

  /**
   * `PowPod::new`: proves the step (count - 1, count, input, midput, output) over the proof it
   * is given, then the verification circuit. `prevVerifies` says whether that given proof (the
   * previous step's, or the dummy proof before the first step) verifies under the recursive
   * circuit's verifier data; the recursive proof exists only when it does. It succeeds exactly
   * when the given proof verifies and the step is satisfiable, and the pod it makes passes the
   * hash check of `verify`.
   */
  function New(c: Crypto.Primitives, statementsHash: seq<IntroPods.IntroStatement> -> Raw, circuitDigest: Raw,
               count: Elem, input: Raw, midput: Raw, output: Raw, prevVerifies: bool): (r: Result<PowPod, string>)
    ensures r.Ok? <==> prevVerifies && output == c.hash([midput]) && (count == 1 ==> input == midput)
    ensures r.Ok? ==> r.value.count == count && r.value.input == input && r.value.output == output
    ensures r.Ok? ==> forall vdRoot, accepts ::
              Verify(statementsHash, circuitDigest, r.value, vdRoot, accepts).Ok? <==> accepts(r.value.statementsHash + vdRoot)
  {
    NewStepHoldsIff(c, count, input, midput, output);
    if !prevVerifies || !StepHolds(c, NewStepInput(count, input, midput, output)) then Err(PROVING_FAILED)
    else
      TargetStatementsAgree(circuitDigest, count, input, output);
      Ok(PowPod(count, input, output, statementsHash(PubSelfStatements(circuitDigest, count, input, output))))
  }

  /** `Pod::verify` of a `PowPod`. */
  function Verify(statementsHash: seq<IntroPods.IntroStatement> -> Raw, circuitDigest: Raw, pod: PowPod, vdRoot: Raw,
                  circuitAccepts: seq<Elem> -> bool): Result<(), IntroPods.VerifyError>
  {
    IntroPods.Verify(statementsHash, PubSelfStatements(circuitDigest, pod.count, pod.input, pod.output),
                     pod.statementsHash, vdRoot, circuitAccepts)
  }
}
