/**
 * What the introduction pods of `craftlib` (the sequential-work pod, the recursion-count pod
 * and the proof-of-work pod) share: the single `Intro` statement they publish, and the
 * two-stage `verify` that first recomputes the statements hash from the pod's own fields
 * and only then checks the proof.
 *
 * `calculate_statements_hash` and the plonky2 verifier are not opened up: they are passed in
 * as functions.
 */
module IntroPods {
  import opened Goldilocks
  import opened Results

  /** `Statement::Intro(IntroPredicateRef { name, args_len, verifier_data_hash }, args)`. */
  datatype IntroStatement = IntroStatement(name: string, argsLen: nat, verifierDataHash: Raw, args: seq<Raw>)

  /** The two ways `verify` fails. */
  datatype VerifyError =
    | StatementsHashNotEqual(expected: Raw, found: Raw)
    | ProofVerificationFailure

  /**
   * `Pod::verify` of an introduction pod: the hash of the statements recomputed from the
   * pod's fields must equal the stored one (`statements_hash_not_equal(stored, recomputed)`);
   * then the proof must verify against the public inputs [recomputed hash, vd-set root].
   */
  function Verify(statementsHash: seq<IntroStatement> -> Raw, statements: seq<IntroStatement>,
                  stored: Raw, vdRoot: Raw, circuitAccepts: seq<Elem> -> bool): (r: Result<(), VerifyError>)
    ensures r.Ok? <==> statementsHash(statements) == stored && circuitAccepts(stored + vdRoot)
    ensures statementsHash(statements) != stored ==>
              r == Err(StatementsHashNotEqual(stored, statementsHash(statements)))
    ensures statementsHash(statements) == stored && !circuitAccepts(stored + vdRoot) ==>
              r == Err(ProofVerificationFailure)
  {
    var recomputed := statementsHash(statements);
    if recomputed != stored then Err(StatementsHashNotEqual(stored, recomputed))
    else if !circuitAccepts(recomputed + vdRoot) then Err(ProofVerificationFailure)
    else Ok(())
  }

  /**
   * A pod whose stored hash was computed from the statements it now publishes passes the hash
   * check, so its verdict is the circuit's alone.
   */
  lemma VerifyFreshPod(statementsHash: seq<IntroStatement> -> Raw, statements: seq<IntroStatement>,
                       vdRoot: Raw, circuitAccepts: seq<Elem> -> bool)
    ensures Verify(statementsHash, statements, statementsHash(statements), vdRoot, circuitAccepts).Ok?
            <==> circuitAccepts(statementsHash(statements) + vdRoot)
  {
  }
}
