/**
 * The synchronizer's ledger (`synchronizer/src/main.rs`) as a state machine on values:
 * the state of a `Node`, the transition `process_do_blob` applies to one decoded payload,
 * and runs of transitions. The `Node` class in module `Synchronizer` is proved to follow it.
 */
module Ledger {
  import opened Results
  import opened Goldilocks
  import opened Bytes
  import Payload

  /** The mutable part of `Node`: the epoch, the root history (oldest first), the items and the nullifiers. */
  datatype State = State(epoch: nat, roots: seq<Raw>, items: set<Raw>, nullifiers: set<Raw>)

  /**
   * The payload fields the synchronizer reads (`item`, `nullifiers`, `created_items_root`,
   * `proof`); `common::payload::Payload` does not have them, so the record stands on its own.
   */
  datatype SyncPayload = SyncPayload(item: Raw, nullifiers: seq<Raw>, createdItemsRoot: Raw, proof: Payload.PayloadProof)

  /** The statement `CommitCreation(item, Set(nullifiers), created_items_root)` the proof must prove. */
  datatype CommitStatement = CommitStatement(item: Raw, nullifiers: set<Raw>, createdItemsRoot: Raw)

  /** The plonky2 verification of a compressed proof of a statement (against the node's verifier data). */
  type Verifier = (seq<byte>, CommitStatement) -> bool

  /** Which `bail!` of `process_do_blob` fired. */
  datatype Rejection =
    | RootNotInHistory(root: Raw)
    | ItemExists(item: Raw)
    | NullifierExists(nullifier: Raw)
    | ProofRejected

  /** `Panicked` is the `todo!()` a Groth16 proof reaches in `verify_shrunk_main_pod`. */
  datatype Outcome = Accepted(next: State) | Rejected(reason: Rejection) | Panicked

  /** `Node::new`: epoch 0, the history holding only the empty root, no items, no nullifiers. */
  function Init(): (s: State)
    ensures s.epoch == 0 && s.roots == [EMPTY_VALUE] && s.items == {} && s.nullifiers == {}
  {
    State(0, [EMPTY_VALUE], {}, {})
  }

  /**
   * What every reachable state satisfies: one root per epoch plus the initial one, the
   * initial empty root first, and after the first acceptance the newest root is the
   * commitment of the current items.
   */
  ghost predicate Invariant(s: State, setRoot: set<Raw> -> Raw)
  {
    |s.roots| == s.epoch + 1
    && s.roots[0] == EMPTY_VALUE
    && (s.epoch > 0 ==> s.roots[s.epoch] == setRoot(s.items))
  }

  /** The first nullifier of the payload, in payload order, that is already recorded. */
  function FirstRecorded(ns: seq<Raw>, recorded: set<Raw>): (r: Option<Raw>)
    ensures r.None? <==> forall i :: 0 <= i < |ns| ==> ns[i] !in recorded
    ensures r.Some? ==> exists i :: 0 <= i < |ns| && ns[i] == r.value && r.value in recorded
                                    && forall j :: 0 <= j < i ==> ns[j] !in recorded
  {
    if ns == [] then None
    else if ns[0] in recorded then Some(ns[0])
    else
      var r := FirstRecorded(ns[1..], recorded);
      if r.Some? then
        ghost var i :| 0 <= i < |ns[1..]| && ns[1..][i] == r.value && r.value in recorded
                       && forall j :: 0 <= j < i ==> ns[1..][j] !in recorded;
        assert ns[i + 1] == r.value;
        r
      else r
  }

  /** The nullifiers of a payload as a set (`HashSet::from_iter`). */
  function NullifierSet(p: SyncPayload): set<Raw>
  {
    set i | 0 <= i < |p.nullifiers| :: p.nullifiers[i]
  }

  /** The statement whose proof the node checks for payload `p`. */
  function StatementOf(p: SyncPayload): CommitStatement
  {
    CommitStatement(p.item, NullifierSet(p), p.createdItemsRoot)
  }

  /**
   * `process_do_blob` after decoding: the root, item and nullifier checks, the proof check,
   * then the insert-and-append step. `verify` is the plonky2 verification of a compressed
   * proof against the statement.
   */
  function Process(s: State, p: SyncPayload, verify: Verifier, setRoot: set<Raw> -> Raw): (r: Outcome)
    ensures r.Accepted? <==>
              p.createdItemsRoot in s.roots && p.item !in s.items
              && (forall i :: 0 <= i < |p.nullifiers| ==> p.nullifiers[i] !in s.nullifiers)
              && p.proof.Plonky2? && verify(p.proof.compressed, StatementOf(p))
    ensures r.Accepted? ==>
              r.next.nullifiers == s.nullifiers + NullifierSet(p)
              && r.next.items == s.items + {p.item}
              && r.next.epoch == s.epoch + 1
              && r.next.roots == s.roots + [setRoot(s.items + {p.item})]
    ensures p.createdItemsRoot !in s.roots ==> r == Rejected(RootNotInHistory(p.createdItemsRoot))
    ensures p.createdItemsRoot in s.roots && p.item in s.items ==> r == Rejected(ItemExists(p.item))
    ensures (p.createdItemsRoot in s.roots && p.item !in s.items
             && exists i :: 0 <= i < |p.nullifiers| && p.nullifiers[i] in s.nullifiers)
            ==> r.Rejected? && r.reason.NullifierExists?
    ensures r.Rejected? && r.reason.NullifierExists? ==>
              exists i :: 0 <= i < |p.nullifiers| && p.nullifiers[i] == r.reason.nullifier && r.reason.nullifier in s.nullifiers
                          && forall j :: 0 <= j < i ==> p.nullifiers[j] !in s.nullifiers
    ensures r.Panicked? ==> p.proof.Groth16?
  {
    if p.createdItemsRoot !in s.roots then Rejected(RootNotInHistory(p.createdItemsRoot))
    else if p.item in s.items then Rejected(ItemExists(p.item))
    else
      match FirstRecorded(p.nullifiers, s.nullifiers)
      case Some(n) => Rejected(NullifierExists(n))
      case None =>
        match p.proof
        case Groth16(_) => Panicked
        case Plonky2(c) =>
          if !verify(c, StatementOf(p)) then Rejected(ProofRejected)
          else
            var items := s.items + {p.item};
            Accepted(State(s.epoch + 1, s.roots + [setRoot(items)], items, s.nullifiers + NullifierSet(p)))
  }

  /** Every accepted transition keeps the invariant; `Init` has it. */
  lemma ProcessPreservesInvariant(s: State, p: SyncPayload, verify: Verifier, setRoot: set<Raw> -> Raw)
    requires Invariant(s, setRoot)
    ensures Process(s, p, verify, setRoot).Accepted? ==> Invariant(Process(s, p, verify, setRoot).next, setRoot)
    ensures Invariant(Init(), setRoot)
  {
  }

  /**
   * Nullifiers are only checked against the recorded set, not against each other: a payload
   * listing one fresh nullifier twice is accepted and records it once.
   */
  lemma DuplicateNullifiersAccepted(s: State, p: SyncPayload, verify: Verifier, setRoot: set<Raw> -> Raw, n: Raw)
    requires p.nullifiers == [n, n] && n !in s.nullifiers
    requires p.createdItemsRoot in s.roots && p.item !in s.items
    requires p.proof.Plonky2? && verify(p.proof.compressed, StatementOf(p))
    ensures Process(s, p, verify, setRoot).Accepted?
    ensures Process(s, p, verify, setRoot).next.nullifiers == s.nullifiers + {n}
  {
    assert NullifierSet(p) == {n};
  }

  // ---------------------------------------------------------------- runs

  /**
   * Payloads processed one after another, as `process_beacon_block_header` does: a rejected
   * payload is skipped, a panic ends the run.
   */
  function Run(s: State, ps: seq<SyncPayload>, verify: Verifier, setRoot: set<Raw> -> Raw): State
    decreases |ps|
  {
    if ps == [] then s
    else
      match Process(s, ps[0], verify, setRoot)
      case Accepted(next) => Run(next, ps[1..], verify, setRoot)
      case Rejected(_) => Run(s, ps[1..], verify, setRoot)
      case Panicked => s
  }

  /** The payloads a run accepts, in order. */
  function AcceptedPayloads(s: State, ps: seq<SyncPayload>, verify: Verifier, setRoot: set<Raw> -> Raw): seq<SyncPayload>
    decreases |ps|
  {
    if ps == [] then []
    else
      match Process(s, ps[0], verify, setRoot)
      case Accepted(next) => [ps[0]] + AcceptedPayloads(next, ps[1..], verify, setRoot)
      case Rejected(_) => AcceptedPayloads(s, ps[1..], verify, setRoot)
      case Panicked => []
  }

  /** A run keeps the invariant, and counts one epoch per accepted payload. */
  lemma {:induction false} RunInvariant(s: State, ps: seq<SyncPayload>, verify: Verifier, setRoot: set<Raw> -> Raw)
    requires Invariant(s, setRoot)
    ensures Invariant(Run(s, ps, verify, setRoot), setRoot)
    ensures Run(s, ps, verify, setRoot).epoch == s.epoch + |AcceptedPayloads(s, ps, verify, setRoot)|
    decreases |ps|
  {
    if ps != [] {
      match Process(s, ps[0], verify, setRoot)
      case Accepted(next) =>
        ProcessPreservesInvariant(s, ps[0], verify, setRoot);
        RunInvariant(next, ps[1..], verify, setRoot);
      case Rejected(_) =>
        RunInvariant(s, ps[1..], verify, setRoot);
      case Panicked =>
    }
  }

  /** The root history is append-only: every earlier entry stays where it was. */
  lemma {:induction false} RunAppendOnly(s: State, ps: seq<SyncPayload>, verify: Verifier, setRoot: set<Raw> -> Raw)
    ensures |s.roots| <= |Run(s, ps, verify, setRoot).roots|
    ensures Run(s, ps, verify, setRoot).roots[..|s.roots|] == s.roots
    ensures s.items <= Run(s, ps, verify, setRoot).items
    ensures s.nullifiers <= Run(s, ps, verify, setRoot).nullifiers
    decreases |ps|
  {
    if ps != [] {
      match Process(s, ps[0], verify, setRoot)
      case Accepted(next) =>
        RunAppendOnly(next, ps[1..], verify, setRoot);
        var t := Run(next, ps[1..], verify, setRoot);
        assert t.roots[..|s.roots|] == t.roots[..|next.roots|][..|s.roots|];
      case Rejected(_) =>
        RunAppendOnly(s, ps[1..], verify, setRoot);
      case Panicked =>
    }
  }

  /** The items of a sequence of payloads. */
  function ItemsOf(acc: seq<SyncPayload>): set<Raw>
  {
    set i | 0 <= i < |acc| :: acc[i].item
  }

  lemma ItemsOfCons(p: SyncPayload, rest: seq<SyncPayload>)
    ensures ItemsOf([p] + rest) == {p.item} + ItemsOf(rest)
  {
    var acc := [p] + rest;
    forall x | x in ItemsOf(acc) ensures x in {p.item} + ItemsOf(rest) {
      var i :| 0 <= i < |acc| && acc[i].item == x;
      if i > 0 { assert rest[i - 1].item == x; }
    }
    forall x | x in ItemsOf(rest) ensures x in ItemsOf(acc) {
      var i :| 0 <= i < |rest| && rest[i].item == x;
      assert acc[i + 1].item == x;
    }
    assert acc[0].item == p.item;
  }

  /** The items of a sequence of payloads are pairwise distinct and none is in `known`. */
  ghost predicate FreshDistinctItems(acc: seq<SyncPayload>, known: set<Raw>)
  {
    (forall i :: 0 <= i < |acc| ==> acc[i].item !in known)
    && (forall i, j :: 0 <= i < j < |acc| ==> acc[i].item != acc[j].item)
  }

  /**
   * Item ids stay unique: the run's accepted items are new and pairwise distinct, and the
   * final item set is the initial one plus exactly those.
   */
  lemma {:induction false} RunItemsUnique(s: State, ps: seq<SyncPayload>, verify: Verifier, setRoot: set<Raw> -> Raw)
    ensures FreshDistinctItems(AcceptedPayloads(s, ps, verify, setRoot), s.items)
    ensures Run(s, ps, verify, setRoot).items == s.items + ItemsOf(AcceptedPayloads(s, ps, verify, setRoot))
    decreases |ps|
  {
    if ps != [] {
      var o := Process(s, ps[0], verify, setRoot);
      if o.Accepted? {
        var next := o.next;
        RunItemsUnique(next, ps[1..], verify, setRoot);
        var rest := AcceptedPayloads(next, ps[1..], verify, setRoot);
        var acc := [ps[0]] + rest;
        assert AcceptedPayloads(s, ps, verify, setRoot) == acc;
        assert Run(s, ps, verify, setRoot) == Run(next, ps[1..], verify, setRoot);
        ItemsOfCons(ps[0], rest);
        assert FreshDistinctItems(acc, s.items) by {
          forall i | 0 <= i < |acc| ensures acc[i].item !in s.items {
            if i > 0 { assert acc[i] == rest[i - 1]; }
          }
          forall i, j | 0 <= i < j < |acc| ensures acc[i].item != acc[j].item {
            assert acc[j] == rest[j - 1];
            if i > 0 { assert acc[i] == rest[i - 1]; }
          }
        }
      } else if o.Rejected? {
        RunItemsUnique(s, ps[1..], verify, setRoot);
        assert AcceptedPayloads(s, ps, verify, setRoot) == AcceptedPayloads(s, ps[1..], verify, setRoot);
        assert Run(s, ps, verify, setRoot) == Run(s, ps[1..], verify, setRoot);
      } else {
        assert AcceptedPayloads(s, ps, verify, setRoot) == [];
      }
    } else {
      assert ItemsOf([]) == {};
    }
  }

  /**
   * No nullifier is accepted twice: the nullifiers of the run's accepted payloads are new
   * and pairwise disjoint, and the final nullifier set is the initial one plus all of them.
   */
  lemma {:induction false} RunNullifiersOnce(s: State, ps: seq<SyncPayload>, verify: Verifier, setRoot: set<Raw> -> Raw)
    ensures forall i :: 0 <= i < |AcceptedPayloads(s, ps, verify, setRoot)| ==> NullifierSet(AcceptedPayloads(s, ps, verify, setRoot)[i]) !! s.nullifiers
    ensures forall i, j :: 0 <= i < j < |AcceptedPayloads(s, ps, verify, setRoot)| ==>
              NullifierSet(AcceptedPayloads(s, ps, verify, setRoot)[i]) !! NullifierSet(AcceptedPayloads(s, ps, verify, setRoot)[j])
    ensures forall n :: n in Run(s, ps, verify, setRoot).nullifiers <==>
              n in s.nullifiers || exists i :: 0 <= i < |AcceptedPayloads(s, ps, verify, setRoot)| && n in NullifierSet(AcceptedPayloads(s, ps, verify, setRoot)[i])
    decreases |ps|
  {
    if ps != [] {
      match Process(s, ps[0], verify, setRoot)
      case Accepted(next) =>
        RunNullifiersOnce(next, ps[1..], verify, setRoot);
        var acc := AcceptedPayloads(s, ps, verify, setRoot);
        var rest := AcceptedPayloads(next, ps[1..], verify, setRoot);
        assert acc == [ps[0]] + rest;
        assert forall i :: 1 <= i < |acc| ==> acc[i] == rest[i - 1];
        var t := Run(next, ps[1..], verify, setRoot);
        assert Run(s, ps, verify, setRoot) == t;
        forall n ensures n in t.nullifiers <==> n in s.nullifiers || exists i :: 0 <= i < |acc| && n in NullifierSet(acc[i]) {
          if n in t.nullifiers && n !in s.nullifiers && n !in NullifierSet(acc[0]) {
            var i :| 0 <= i < |rest| && n in NullifierSet(rest[i]);
            assert n in NullifierSet(acc[i + 1]);
          }
          if exists i :: 0 <= i < |acc| && n in NullifierSet(acc[i]) {
            var i :| 0 <= i < |acc| && n in NullifierSet(acc[i]);
            if i > 0 { assert n in NullifierSet(rest[i - 1]); }
          }
        }
        forall i, j | 0 <= i < j < |acc| ensures NullifierSet(acc[i]) !! NullifierSet(acc[j]) {
          if i > 0 {
            assert NullifierSet(rest[i - 1]) !! NullifierSet(rest[j - 1]);
          } else {
            assert NullifierSet(rest[j - 1]) !! next.nullifiers;
          }
        }
        forall i | 0 <= i < |acc| ensures NullifierSet(acc[i]) !! s.nullifiers {
          if i > 0 { assert NullifierSet(rest[i - 1]) !! next.nullifiers; }
          else {
            forall n | n in NullifierSet(ps[0]) ensures n !in s.nullifiers {
              var k :| 0 <= k < |ps[0].nullifiers| && ps[0].nullifiers[k] == n;
            }
          }
        }
      case Rejected(_) =>
        RunNullifiersOnce(s, ps[1..], verify, setRoot);
        assert AcceptedPayloads(s, ps, verify, setRoot) == AcceptedPayloads(s, ps[1..], verify, setRoot);
        assert Run(s, ps, verify, setRoot) == Run(s, ps[1..], verify, setRoot);
      case Panicked =>
    }
  }
}
