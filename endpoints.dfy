/**
 * `synchronizer/src/endpoints.rs`: the lookups behind the GET handlers.
 *
 * The handlers read `node.created_item_roots_pair`, a field `Node` does not have: a pair of
 * the current epoch and a root list whose index 0 is the newest root. `Node` keeps the
 * history oldest first (`created_items_roots`, appended to on each acceptance), so the
 * model gives the handlers the view `(epoch, reversed history)` and proves what each
 * lookup then returns; `AppendOrderLookup` states what the same indexing would return on
 * the history as `Node` stores it.
 */
module Endpoints {
  import opened Results
  import opened Goldilocks
  import Ledger

  /** The epoch and the root list, newest first. */
  datatype RootsPair = RootsPair(epoch: nat, roots: seq<Raw>)

  function Reverse<T>(s: seq<T>): (r: seq<T>)
    ensures |r| == |s| && forall i :: 0 <= i < |s| ==> r[i] == s[|s| - 1 - i]
  {
    if s == [] then [] else Reverse(s[1..]) + [s[0]]
  }

  /** The pair the handlers expect, built from the node's state. */
  function PairOf(s: Ledger.State): RootsPair
  {
    RootsPair(s.epoch, Reverse(s.roots))
  }

  /** A handler's answer; `IndexPanic` is an out-of-range index into the root list. */
  datatype Answer<T> = Answer(value: T) | InvalidEpoch(epoch: nat) | IndexPanic

  /** GET /created_items_root: the current epoch and entry 0 of the list. */
  function LatestRoot(pair: RootsPair): (r: Answer<(nat, Raw)>)
    ensures r.Answer? <==> |pair.roots| > 0
    ensures r.Answer? ==> r.value == (pair.epoch, pair.roots[0])
  {
    if |pair.roots| == 0 then IndexPanic else Answer((pair.epoch, pair.roots[0]))
  }

  /** GET /created_items_root/{epoch}: entry `cur_epoch - epoch`, an error for a future epoch. */
  function RootAtEpoch(pair: RootsPair, epoch: nat): (r: Answer<Raw>)
    ensures epoch > pair.epoch <==> r == InvalidEpoch(epoch)
    ensures r.IndexPanic? <==> epoch <= pair.epoch && pair.epoch - epoch >= |pair.roots|
    ensures r.Answer? ==> r.value == pair.roots[pair.epoch - epoch]
  {
    if pair.epoch >= epoch then
      var index := pair.epoch - epoch;
      if index < |pair.roots| then Answer(pair.roots[index]) else IndexPanic
    else InvalidEpoch(epoch)
  }

  /** The latest-root answer is the answer for the current epoch. */
  lemma LatestIsCurrentEpoch(pair: RootsPair)
    ensures LatestRoot(pair).Answer? <==> RootAtEpoch(pair, pair.epoch).Answer?
    ensures LatestRoot(pair).Answer? ==> LatestRoot(pair).value.1 == RootAtEpoch(pair, pair.epoch).value
  {
  }

  /**
   * On the view of any reachable node state the lookup never panics, answers every epoch up
   * to the current one with the root recorded at that epoch, and the latest root is the
   * newest entry of the history.
   */
  lemma ViewLookup(s: Ledger.State, setRoot: set<Raw> -> Raw, epoch: nat)
    requires Ledger.Invariant(s, setRoot)
    ensures epoch <= s.epoch ==> RootAtEpoch(PairOf(s), epoch) == Answer(s.roots[epoch])
    ensures epoch > s.epoch ==> RootAtEpoch(PairOf(s), epoch) == InvalidEpoch(epoch)
    ensures LatestRoot(PairOf(s)) == Answer((s.epoch, s.roots[s.epoch]))
  {
  }

  /**
   * Indexing the history in the order `Node` stores it, oldest first, as the handlers do,
   * answers epoch e with the root of epoch `cur - e`: after one acceptance the query for
   * epoch 0 returns the newest root instead of the empty one.
   */
  lemma AppendOrderLookup(s: Ledger.State, setRoot: set<Raw> -> Raw, epoch: nat)
    requires Ledger.Invariant(s, setRoot)
    requires epoch <= s.epoch
    ensures RootAtEpoch(RootsPair(s.epoch, s.roots), epoch) == Answer(s.roots[s.epoch - epoch])
    ensures s.epoch == 1 && s.roots[1] != EMPTY_VALUE && epoch == 0 ==>
              RootAtEpoch(RootsPair(s.epoch, s.roots), epoch) != Answer(s.roots[epoch])
  {
  }

  /** GET /nullifier/{nullifier}: whether it is recorded. */
  function NullifierQuery(nullifiers: set<Raw>, nullifier: Raw): bool
  {
    nullifier in nullifiers
  }

  /**
   * On a node that has processed a sequence of payloads from its initial state, the query
   * reports exactly the nullifiers listed by the payloads it accepted.
   */
  lemma NullifierQueryAfterRun(ps: seq<Ledger.SyncPayload>, verify: Ledger.Verifier, setRoot: set<Raw> -> Raw, nullifier: Raw)
    ensures var acc := Ledger.AcceptedPayloads(Ledger.Init(), ps, verify, setRoot);
            NullifierQuery(Ledger.Run(Ledger.Init(), ps, verify, setRoot).nullifiers, nullifier) <==>
              exists i, k :: 0 <= i < |acc| && 0 <= k < |acc[i].nullifiers| && acc[i].nullifiers[k] == nullifier
  {
    var acc := Ledger.AcceptedPayloads(Ledger.Init(), ps, verify, setRoot);
    Ledger.RunNullifiersOnce(Ledger.Init(), ps, verify, setRoot);
    if exists i, k :: 0 <= i < |acc| && 0 <= k < |acc[i].nullifiers| && acc[i].nullifiers[k] == nullifier {
      var i, k :| 0 <= i < |acc| && 0 <= k < |acc[i].nullifiers| && acc[i].nullifiers[k] == nullifier;
      assert nullifier in Ledger.NullifierSet(acc[i]);
    }
  }

  /** A Merkle membership proof of `value` in the set whose root is `root`. */
  datatype MembershipProof = MembershipProof(value: Raw, root: Raw)

  /** GET /created_item/{item}: `Set::prove`, which fails for an absent item. */
  function CreatedItem(items: set<Raw>, setRoot: set<Raw> -> Raw, item: Raw): Result<MembershipProof, string>
  {
    if item in items then Ok(MembershipProof(item, setRoot(items))) else Err("key not found")
  }

  /** For a reachable node in a later epoch, an item's proof is against the newest root in the history. */
  lemma CreatedItemAgainstNewestRoot(s: Ledger.State, setRoot: set<Raw> -> Raw, item: Raw)
    requires Ledger.Invariant(s, setRoot) && s.epoch > 0
    requires item in s.items
    ensures CreatedItem(s.items, setRoot, item) == Ok(MembershipProof(item, s.roots[|s.roots| - 1]))
  {
  }

  /**
   * On a node that has processed a sequence of payloads from its initial state, a membership
   * proof is served exactly for the items of the accepted payloads, and once one payload was
   * accepted the proof is against the newest root of the history.
   */
  lemma CreatedItemAfterRun(ps: seq<Ledger.SyncPayload>, verify: Ledger.Verifier, setRoot: set<Raw> -> Raw, item: Raw)
    ensures var s := Ledger.Run(Ledger.Init(), ps, verify, setRoot);
            var acc := Ledger.AcceptedPayloads(Ledger.Init(), ps, verify, setRoot);
            && |s.roots| == |acc| + 1
            && (CreatedItem(s.items, setRoot, item).Ok? <==> exists i :: 0 <= i < |acc| && acc[i].item == item)
            && (CreatedItem(s.items, setRoot, item).Ok? ==>
                  CreatedItem(s.items, setRoot, item) == Ok(MembershipProof(item, s.roots[|s.roots| - 1])))
  {
    var s := Ledger.Run(Ledger.Init(), ps, verify, setRoot);
    var acc := Ledger.AcceptedPayloads(Ledger.Init(), ps, verify, setRoot);
    Ledger.RunItemsUnique(Ledger.Init(), ps, verify, setRoot);
    Ledger.RunInvariant(Ledger.Init(), ps, verify, setRoot);
    if exists i :: 0 <= i < |acc| && acc[i].item == item {
      var i :| 0 <= i < |acc| && acc[i].item == item;
      assert item in Ledger.ItemsOf(acc);
    }
    if item in s.items {
      assert s.epoch > 0;
      CreatedItemAgainstNewestRoot(s, setRoot, item);
    }
  }
}
