/**
 * `craftlib/src/vdfpod.rs`: the sequential-work pod. A recursive circuit proves one hash step
 * per proof, each step verifying the proof of the step before it; the final proof carries
 * (count, input, output) with output = H^count(input).
 *
 * Proving is modelled by its effect: `recursive_circuit.prove` succeeds exactly when the
 * witness satisfies the step constraints (`StepHolds`). A proof is represented by its public
 * inputs.
 */
module Vdf {
  import opened Goldilocks
  import opened Results
  import Crypto
  import IntroPods

  const ARITY: nat := 1
  const NUM_PUBLIC_INPUTS: nat := 13
  const VDF_POD_TYPE_ID: nat := 2001
  const VDF_POD_TYPE_NAME: string := "Vdf"

  const N_ITERS_TOO_SMALL: string := "n_iters must be equal or greater than 2"
  /** The error of a prover whose witness does not satisfy the circuit. */
  const PROVING_FAILED: string := "witness does not satisfy the circuit"

  /** The field element a natural number of steps is counted as. */
  function Count(n: nat): (r: Elem)
    ensures n < P ==> r == n
  {
    n % P
  }

  /** Counting one more step adds one in the field. */
  lemma CountNext(n: nat)
    ensures Count(n + 1) == Add(Count(n), 1)
  {
  }

  /** `VdfInnerCircuitInput`: the witness of one step. */
  datatype StepInput = StepInput(prevCount: Elem, count: Elem, input: Raw, midput: Raw, output: Raw)

  /** The public inputs a step proof registers: count, input, output, and a verifier-data hash. */
  datatype StepPublicInputs = StepPublicInputs(count: Elem, input: Raw, output: Raw, vdHash: Raw)

  /** The layout of the public inputs: count@0, input@1..5, output@5..9, vd hash@9..13. */
  function Encode(pi: StepPublicInputs): (r: seq<Elem>)
    ensures |r| == NUM_PUBLIC_INPUTS
  {
    [pi.count] + pi.input + pi.output + pi.vdHash
  }

  /** How `VdfPodTarget` and the next step read a proof's public inputs. */
  function Decode(s: seq<Elem>): (r: StepPublicInputs)
    requires |s| == NUM_PUBLIC_INPUTS
  {
    StepPublicInputs(s[0], s[1..5], s[5..9], s[9..13])
  }

  lemma DecodeEncode(pi: StepPublicInputs)
    ensures Decode(Encode(pi)) == pi
  {
    var s := Encode(pi);
    assert s[1..5] == pi.input;
    assert s[5..9] == pi.output;
    assert s[9..13] == pi.vdHash;
  }

  lemma EncodeDecode(s: seq<Elem>)
    requires |s| == NUM_PUBLIC_INPUTS
    ensures Encode(Decode(s)) == s
  {
    assert s == [s[0]] + s[1..5] + s[5..9] + s[9..13];
  }

  /**
   * `VdfInnerCircuit::build`: the constraints on one step, given the public inputs and the
   * verifier-data hash of the proof it verifies. The count is prev_count + 1 in the field, the
   * output is H(midput); the base case prev_count = 0 forces midput = input; otherwise the
   * previous proof must carry this step's input and, as its output, this step's midput; the
   * previous proof's count is always prev_count; from prev_count = 2 on, the verifier-data hash
   * the previous proof registered must be the one it is verified with now.
   */
  predicate StepHolds(c: Crypto.Primitives, w: StepInput, prev: StepPublicInputs, prevVdHash: Raw)
  {
    && w.output == c.hash([w.midput])
    && w.count == Add(w.prevCount, 1)
    && (w.prevCount == 0 ==> w.input == w.midput)
    && prev.count == w.prevCount
    && (w.prevCount != 0 ==> prev.input == w.input && prev.output == w.midput)
    && (w.prevCount != 0 && w.prevCount != 1 ==> prev.vdHash == prevVdHash)
  }

  /** The public inputs of a step proof: its count, input and output, then the verifier-data hash it used. */
  function StepProofInputs(w: StepInput, vdHash: Raw): (r: StepPublicInputs)
    ensures Decode(Encode(r)).count == w.count && Decode(Encode(r)).output == w.output
  {
    DecodeEncode(StepPublicInputs(w.count, w.input, w.output, vdHash));
    StepPublicInputs(w.count, w.input, w.output, vdHash)
  }

  /** The proof step k verifies: the dummy proof for k = 0, the proof of step k - 1 after that. */
  function PrevInputs(dummy: StepPublicInputs, ws: seq<StepInput>, vds: seq<Raw>, k: nat): StepPublicInputs
    requires k < |ws| == |vds|
  {
    if k == 0 then dummy else StepProofInputs(ws[k - 1], vds[k - 1])
  }

  /**
   * A recursive chain of step proofs: ws[k] is the witness of step k and vds[k] the hash of the
   * verifier data step k verifies its predecessor with.
   */
  ghost predicate Chain(c: Crypto.Primitives, dummy: StepPublicInputs, ws: seq<StepInput>, vds: seq<Raw>)
    decreases |ws|
  {
    && |ws| == |vds|
    && (|ws| == 0 ||
        (&& Chain(c, dummy, ws[..|ws| - 1], vds[..|vds| - 1])
         && StepHolds(c, ws[|ws| - 1], PrevInputs(dummy, ws, vds, |ws| - 1), vds[|ws| - 1])))
  }

  /** A chain is extended by a step that satisfies the constraints against the chain's last proof. */
  lemma ChainExtend(c: Crypto.Primitives, dummy: StepPublicInputs, ws: seq<StepInput>, vds: seq<Raw>, w: StepInput, vd: Raw)
    requires Chain(c, dummy, ws, vds)
    requires StepHolds(c, w, if |ws| == 0 then dummy else StepProofInputs(ws[|ws| - 1], vds[|vds| - 1]), vd)
    ensures Chain(c, dummy, ws + [w], vds + [vd])
  {
    assert (ws + [w])[..|ws|] == ws && (vds + [vd])[..|vds|] == vds;
  }

  /** Every step of a chain satisfies the step constraints against its predecessor. */
  lemma {:induction false} ChainAt(c: Crypto.Primitives, dummy: StepPublicInputs, ws: seq<StepInput>, vds: seq<Raw>, k: nat)
    requires Chain(c, dummy, ws, vds)
    requires k < |ws|
    ensures StepHolds(c, ws[k], PrevInputs(dummy, ws, vds, k), vds[k])
    decreases |ws|
  {
    if k < |ws| - 1 {
      var ws', vds' := ws[..|ws| - 1], vds[..|vds| - 1];
      ChainAt(c, dummy, ws', vds', k);
      assert ws'[k] == ws[k] && vds'[k] == vds[k];
      assert PrevInputs(dummy, ws', vds', k) == PrevInputs(dummy, ws, vds, k);
    }
  }

  /**
   * Any chain that starts from a dummy proof with count 0 (so step 0 is the base case) and has
   * at most p steps computes a hash chain: step k has count k + 1 (in the field), the starting
   * input, midput H^k(input) and output H^(k+1)(input).
   */
  lemma {:induction false} ChainOutputs(c: Crypto.Primitives, dummy: StepPublicInputs, ws: seq<StepInput>, vds: seq<Raw>, k: nat)
    requires Chain(c, dummy, ws, vds)
    requires dummy.count == 0
    requires |ws| <= P
    requires k < |ws|
    ensures ws[k].prevCount == k
    ensures ws[k].count == Count(k + 1)
    ensures ws[k].input == ws[0].input
    ensures ws[k].midput == Crypto.Iterate(c, k, ws[0].input)
    ensures ws[k].output == Crypto.Iterate(c, k + 1, ws[0].input)
    decreases k
  {
    ChainAt(c, dummy, ws, vds, k);
    if k > 0 {
      ChainOutputs(c, dummy, ws, vds, k - 1);
    }
  }

  /** From step 2 on, a chain verifies every proof with the verifier data of step 1. */
  lemma {:induction false} ChainVerifierData(c: Crypto.Primitives, dummy: StepPublicInputs, ws: seq<StepInput>, vds: seq<Raw>, k: nat)
    requires Chain(c, dummy, ws, vds)
    requires dummy.count == 0
    requires |ws| <= P
    requires 1 <= k < |ws|
    ensures vds[k] == vds[1]
    decreases k
  {
    if k > 1 {
      ChainAt(c, dummy, ws, vds, k);
      ChainOutputs(c, dummy, ws, vds, k);
      ChainVerifierData(c, dummy, ws, vds, k - 1);
    }
  }

  /** The witness the prover fills in for the first step: prev_count 0, count 1, midput = input, output = H(input). */
  function BaseStep(c: Crypto.Primitives, input: Raw): StepInput
  {
    StepInput(0, 1, input, input, c.hash([input]))
  }

  /** The update of every later iteration: count moves into prev_count, the output becomes the midput. */
  function NextStep(c: Crypto.Primitives, w: StepInput): StepInput
  {
    StepInput(w.count, Add(w.count, 1), w.input, w.output, c.hash([w.output]))
  }

  /** The base step satisfies the circuit against a dummy proof of count 0, whatever verifier data it uses. */
  lemma BaseStepHolds(c: Crypto.Primitives, input: Raw, dummy: StepPublicInputs, vd: Raw)
    requires dummy.count == 0
    ensures StepHolds(c, BaseStep(c, input), dummy, vd)
  {
  }

  /**
   * The update satisfies the circuit against the previous step's proof as long as the count has
   * not wrapped to 0 and, from prev_count 2 on, the verifier data stays the same.
   */
  lemma NextStepHolds(c: Crypto.Primitives, w: StepInput, vdPrev: Raw, vdNow: Raw, i: nat)
    requires 1 <= i < P
    requires w.count == i
    requires w.output == c.hash([w.midput])
    requires i >= 2 ==> vdPrev == vdNow
    ensures StepHolds(c, NextStep(c, w), StepProofInputs(w, vdPrev), vdNow)
  {
  }

  /** The witness of iteration k of `get_vdf_recursive_circuit_proof`. */
  function LoopWitness(c: Crypto.Primitives, k: nat, input: Raw): StepInput
    decreases k
  {
    if k == 0 then BaseStep(c, input) else NextStep(c, LoopWitness(c, k - 1, input))
  }

  /** Iteration k proves the k-th step of the hash chain. */
  lemma {:induction false} LoopWitnessValues(c: Crypto.Primitives, k: nat, input: Raw)
    ensures LoopWitness(c, k, input) ==
            StepInput(Count(k), Count(k + 1), input, Crypto.Iterate(c, k, input), Crypto.Iterate(c, k + 1, input))
    decreases k
  {
    if k > 0 {
      LoopWitnessValues(c, k - 1, input);
      CountNext(k);
    }
  }

  /** The witnesses of the first n iterations, and the verifier data each verifies its predecessor with. */
  function LoopTrace(c: Crypto.Primitives, n: nat, input: Raw, dummyVd: Raw, recursiveVd: Raw): (r: (seq<StepInput>, seq<Raw>))
    ensures |r.0| == n == |r.1|
    decreases n
  {
    if n == 0 then ([], [])
    else
      var prev := LoopTrace(c, n - 1, input, dummyVd, recursiveVd);
      (prev.0 + [LoopWitness(c, n - 1, input)], prev.1 + [if n == 1 then dummyVd else recursiveVd])
  }

  /** The last entry of a trace is the last iteration's. */
  lemma LoopTraceLast(c: Crypto.Primitives, n: nat, input: Raw, dummyVd: Raw, recursiveVd: Raw)
    requires n >= 1
    ensures LoopTrace(c, n, input, dummyVd, recursiveVd).0[n - 1] == LoopWitness(c, n - 1, input)
    ensures LoopTrace(c, n, input, dummyVd, recursiveVd).1[n - 1] == if n == 1 then dummyVd else recursiveVd
  {
  }

  /**
   * The iterations of `get_vdf_recursive_circuit_proof` form a chain in the sense of the inner
   * circuit, for any run of at most p iterations over a dummy proof of count 0.
   */
  lemma {:induction false} LoopTraceIsChain(c: Crypto.Primitives, n: nat, input: Raw, dummy: StepPublicInputs,
                                           dummyVd: Raw, recursiveVd: Raw)
    requires n <= P
    requires dummy.count == 0
    ensures Chain(c, dummy, LoopTrace(c, n, input, dummyVd, recursiveVd).0, LoopTrace(c, n, input, dummyVd, recursiveVd).1)
    decreases n
  {
    if n > 0 {
      var (ws, vds) := LoopTrace(c, n - 1, input, dummyVd, recursiveVd);
      LoopTraceIsChain(c, n - 1, input, dummy, dummyVd, recursiveVd);
      var vd := if n == 1 then dummyVd else recursiveVd;
      if n == 1 {
        BaseStepHolds(c, input, dummy, vd);
      } else {
        LoopTraceLast(c, n - 1, input, dummyVd, recursiveVd);
        LoopWitnessValues(c, n - 2, input);
        NextStepHolds(c, LoopWitness(c, n - 2, input), if n == 2 then dummyVd else recursiveVd, vd, n - 1);
      }
      ChainExtend(c, dummy, ws, vds, LoopWitness(c, n - 1, input), vd);
    }
  }

  /**
   * Iteration i of `get_vdf_recursive_circuit_proof` keeps the loop's invariant and, while the
   * count has not wrapped and the dummy proof has count 0, its witness satisfies the circuit.
   */
  lemma IterationHolds(c: Crypto.Primitives, i: nat, nIters: nat, startingInput: Raw, dummy: StepPublicInputs,
                       inner: StepInput, vd: Raw, proof: StepPublicInputs, recursiveVd: Raw)
    requires i == 0 ==> inner == BaseStep(c, startingInput) && proof == dummy
    requires i > 0 ==> && proof == StepProofInputs(inner, vd)
                       && inner.prevCount == Count(i - 1) && inner.count == Count(i)
                       && inner.input == startingInput
                       && inner.midput == Crypto.Iterate(c, i - 1, startingInput)
                       && inner.output == Crypto.Iterate(c, i, startingInput)
    requires i >= 2 ==> vd == recursiveVd
    ensures var w := if i > 0 then NextStep(c, inner) else inner;
            var vd' := if i > 0 then recursiveVd else vd;
            && w.prevCount == Count(i) && w.count == Count(i + 1)
            && w.input == startingInput
            && w.midput == Crypto.Iterate(c, i, startingInput)
            && w.output == Crypto.Iterate(c, i + 1, startingInput)
            && (i < nIters <= P && dummy.count == 0 ==> StepHolds(c, w, proof, vd'))
  {
    CountNext(i);
    if i > 0 {
      if i < nIters <= P {
        NextStepHolds(c, inner, vd, recursiveVd, i);
      }
    }
  }

  /**
   * `VdfPod::get_vdf_recursive_circuit_proof`: rejects fewer than two iterations, then proves
   * n_iters steps starting from the base case (prev_count 0, count 1, midput = input,
   * output = H(input)); every later iteration moves count into prev_count, increments count,
   * makes the last output the midput and hashes it. The first step verifies the dummy proof
   * with the dummy verifier data, every later one the previous step with the recursive
   * circuit's verifier data. Returns the last witness and the public inputs of the last proof;
   * `ws` and `vds` are the chain of proofs made on the way.
   */
  method GetVdfRecursiveCircuitProof(c: Crypto.Primitives, nIters: nat, startingInput: Raw,
                                     dummy: StepPublicInputs, dummyVd: Raw, recursiveVd: Raw)
    returns (r: Result<(StepInput, StepPublicInputs), string>)
    ensures nIters < 2 ==> r == Err(N_ITERS_TOO_SMALL)
    ensures 2 <= nIters <= P && dummy.count == 0 ==> r.Ok?
    ensures r.Err? ==> r.error in {N_ITERS_TOO_SMALL, PROVING_FAILED}
    ensures r.Ok? ==>
              && nIters >= 2
              && r.value.0.prevCount == Count(nIters - 1)
              && r.value.0.count == Count(nIters)
              && r.value.0.input == startingInput
              && r.value.0.midput == Crypto.Iterate(c, nIters - 1, startingInput)
              && r.value.0.output == Crypto.Iterate(c, nIters, startingInput)
              && r.value.1 == StepProofInputs(r.value.0, recursiveVd)
  {
    if nIters < 2 {
      return Err(N_ITERS_TOO_SMALL);
    }
    var inner := BaseStep(c, startingInput);
    var proof := dummy;
    var verifierData := dummyVd;
    var i := 0;
    while i < nIters
      invariant 0 <= i <= nIters
      invariant i == 0 ==> inner == BaseStep(c, startingInput) && proof == dummy
      invariant i > 0 ==> && proof == StepProofInputs(inner, verifierData)
                          && inner.prevCount == Count(i - 1) && inner.count == Count(i)
                          && inner.input == startingInput
                          && inner.midput == Crypto.Iterate(c, i - 1, startingInput)
                          && inner.output == Crypto.Iterate(c, i, startingInput)
      invariant i >= 2 ==> verifierData == recursiveVd
    {
      ghost var prevInner, prevVd := inner, verifierData;
      if i > 0 {
        inner := NextStep(c, inner);
        verifierData := recursiveVd;
      }
      IterationHolds(c, i, nIters, startingInput, dummy, prevInner, prevVd, proof, recursiveVd);
      if !StepHolds(c, inner, proof, verifierData) {
        return Err(PROVING_FAILED);
      }
      proof := StepProofInputs(inner, verifierData);
      i := i + 1;
    }
    return Ok((inner, proof));
  }

  /** `pub_self_statements`: Intro "Vdf" with three arguments [[count, 0, 0, 0], input, output] and an empty verifier-data hash. */
  function PubSelfStatements(count: Elem, input: Raw, output: Raw): seq<IntroPods.IntroStatement>
  {
    [IntroPods.IntroStatement(VDF_POD_TYPE_NAME, 3, EMPTY_VALUE, [FromElem(count), input, output])]
  }

  /** `pub_self_statements_target`: the same statement, read in-circuit from a proof's public inputs. */
  function TargetStatements(pis: seq<Elem>): seq<IntroPods.IntroStatement>
    requires |pis| == NUM_PUBLIC_INPUTS
  {
    var zero: Elem := 0;
    [IntroPods.IntroStatement(VDF_POD_TYPE_NAME, 3, EMPTY_VALUE, [[pis[0], zero, zero, zero], pis[1..5], pis[5..9]])]
  }

  /** The in-circuit and the native statements agree on the public inputs of a step proof. */
  lemma TargetStatementsAgree(w: StepInput, vdHash: Raw)
    ensures TargetStatements(Encode(StepProofInputs(w, vdHash))) == PubSelfStatements(w.count, w.input, w.output)
  {
    DecodeEncode(StepProofInputs(w, vdHash));
  }

  /** `VdfPod`: the fields that `verify` reads. */
  datatype VdfPod = VdfPod(count: Elem, input: Raw, output: Raw, statementsHash: Raw)

  /**
   * `VdfPod::construct`: the `VdfPodTarget` circuit verifies the last step proof, requires the
   * verifier-data hash it carries to be the recursive circuit's, and recomputes the statements
   * hash from its public inputs, which must equal the one computed from (count, input, output).
   */
  function Construct(statementsHash: seq<IntroPods.IntroStatement> -> Raw, count: Elem, input: Raw, output: Raw,
                     proof: StepPublicInputs, recursiveVd: Raw): (r: Result<VdfPod, string>)
    ensures r.Ok? <==> proof.vdHash == recursiveVd
                       && statementsHash(TargetStatements(Encode(proof))) == statementsHash(PubSelfStatements(count, input, output))
    ensures r.Ok? ==> r.value.count == count && r.value.input == input && r.value.output == output
                      && r.value.statementsHash == statementsHash(PubSelfStatements(count, input, output))
  {
    var hash := statementsHash(PubSelfStatements(count, input, output));
    if Decode(Encode(proof)).vdHash != recursiveVd || statementsHash(TargetStatements(Encode(proof))) != hash then
      Err(PROVING_FAILED)
    else
      Ok(VdfPod(count, input, output, hash))
  }

  /** `Pod::verify` of a `VdfPod`. */
  function Verify(statementsHash: seq<IntroPods.IntroStatement> -> Raw, pod: VdfPod, vdRoot: Raw,
                  circuitAccepts: seq<Elem> -> bool): Result<(), IntroPods.VerifyError>
  {
    IntroPods.Verify(statementsHash, PubSelfStatements(pod.count, pod.input, pod.output), pod.statementsHash,
                     vdRoot, circuitAccepts)
  }

  /**
   * `VdfPod::new`: a pod for n_iters >= 2 iterations (at most p of them, from a dummy proof of
   * count 0) is always made; its output is H^n_iters(input), its count n_iters in the field, and
   * its verdict under `verify` is the final circuit's alone.
   */
  method New(c: Crypto.Primitives, statementsHash: seq<IntroPods.IntroStatement> -> Raw, nIters: nat, input: Raw,
             dummy: StepPublicInputs, dummyVd: Raw, recursiveVd: Raw, vdRoot: Raw, circuitAccepts: seq<Elem> -> bool)
    returns (r: Result<VdfPod, string>)
    ensures nIters < 2 ==> r == Err(N_ITERS_TOO_SMALL)
    ensures 2 <= nIters <= P && dummy.count == 0 ==> r.Ok?
    ensures r.Ok? ==> && r.value.count == Count(nIters)
                      && r.value.input == input
                      && r.value.output == Crypto.Iterate(c, nIters, input)
                      && (Verify(statementsHash, r.value, vdRoot, circuitAccepts).Ok?
                          <==> circuitAccepts(r.value.statementsHash + vdRoot))
  {
    var last := GetVdfRecursiveCircuitProof(c, nIters, input, dummy, dummyVd, recursiveVd);
    if last.Err? {
      return Err(last.error);
    }
    var (inner, proof) := last.value;
    TargetStatementsAgree(inner, recursiveVd);
    r := Construct(statementsHash, inner.count, inner.input, inner.output, proof, recursiveVd);
    if r.Ok? {
      IntroPods.VerifyFreshPod(statementsHash, PubSelfStatements(inner.count, inner.input, inner.output), vdRoot, circuitAccepts);
    }
  }
}
