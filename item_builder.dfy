/**
 * `ItemBuilder` of `commitlib/src/lib.rs`: the steps that assemble the statements of a
 * commitment. Each step is modelled by the values it computes and the predicate of
 * `CommitPredicates` its statement asserts; the builder's statement log is not modelled.
 */
module ItemBuilder {
  import opened Results
  import opened Goldilocks
  import Crypto
  import Commit
  import CommitPredicates

  /** `st_custom!` refuses a statement whose operation does not hold (here a `SetContains`). */
  const SET_CONTAINS_FAILED: string := "SetContains does not hold"
  /** `Set::insert` refuses a value already present. */
  const ALREADY_PRESENT: string := "key already exists"

  // ---------------------------------------------------------------- st_nullifiers

  /** The public arguments of a proved `ItemKey(item, key)` statement. */
  datatype ItemKeyStatement = ItemKeyStatement(item: Raw, key: Raw)

  /** The inputs the statements name, in fold order. */
  ghost function InputsOf(sts: seq<ItemKeyStatement>): set<Raw>
  {
    if sts == [] then {} else InputsOf(sts[..|sts| - 1]) + {sts[|sts| - 1].item}
  }

  /** The nullifiers `st_nullifiers` derives from the statements' keys, in fold order. */
  ghost function NullifiersOf(c: Crypto.Primitives, sts: seq<ItemKeyStatement>): set<Raw>
  {
    if sts == [] then {} else NullifiersOf(c, sts[..|sts| - 1]) + {Commit.KeyNullifier(c, sts[|sts| - 1].key)}
  }

  /** Every insertion of the fold succeeds: each input and each nullifier is new when it comes. */
  ghost predicate Distinct(c: Crypto.Primitives, sts: seq<ItemKeyStatement>)
  {
    sts == [] ||
    (var init, last := sts[..|sts| - 1], sts[|sts| - 1];
     Distinct(c, init) && last.item !in InputsOf(init) && Commit.KeyNullifier(c, last.key) !in NullifiersOf(c, init))
  }

  /** What `st_nullifiers` returns besides its statement: the nullifier set and the inputs set. */
  datatype NullifierSets = NullifierSets(nullifiers: set<Raw>, inputs: set<Raw>)

  /**
   * `st_nullifiers(sts_item_key)`: folds the proved `ItemKey` statements into a nullifier set
   * and an inputs set, starting from two empty sets; a repeated input or nullifier makes an
   * insertion fail. On success the statement built is `Nullifiers(nullifiers, inputs)`.
   */
  method StNullifiers(c: Crypto.Primitives, sts: seq<ItemKeyStatement>) returns (r: Result<NullifierSets, string>)
    requires forall i :: 0 <= i < |sts| ==> CommitPredicates.ItemKey(c, sts[i].item, sts[i].key)
    ensures r.Ok? <==> Distinct(c, sts)
    ensures r.Ok? ==> r.value.nullifiers == NullifiersOf(c, sts) && r.value.inputs == InputsOf(sts)
    ensures r.Ok? ==> CommitPredicates.Nullifiers(c, r.value.nullifiers, r.value.inputs)
    ensures r.Err? ==> r.error == ALREADY_PRESENT
  {
    var nullifiers: set<Raw> := {};
    var inputs: set<Raw> := {};
    CommitPredicates.NullifiersOfNothing(c);
    var k := 0;
    while k < |sts|
      invariant 0 <= k <= |sts|
      invariant Distinct(c, sts[..k])
      invariant nullifiers == NullifiersOf(c, sts[..k]) && inputs == InputsOf(sts[..k])
      invariant CommitPredicates.Nullifiers(c, nullifiers, inputs)
    {
      var st := sts[k];
      var nullifier := Commit.KeyNullifier(c, st.key);
      assert sts[..k + 1][..k] == sts[..k] && sts[..k + 1][k] == st;
      if nullifier in nullifiers || st.item in inputs {
        if Distinct(c, sts) {
          DistinctPrefix(c, sts, k + 1);
        }
        return Err(ALREADY_PRESENT);
      }
      CommitPredicates.NullifiersInsert(c, nullifiers, inputs, st.item, st.key);
      nullifiers := nullifiers + {nullifier};
      inputs := inputs + {st.item};
      k := k + 1;
    }
    assert sts[..k] == sts;
    r := Ok(NullifierSets(nullifiers, inputs));
  }

  /** A prefix of a list that folds without failure folds without failure. */
  lemma {:induction false} DistinctPrefix(c: Crypto.Primitives, sts: seq<ItemKeyStatement>, k: nat)
    requires k <= |sts| && Distinct(c, sts)
    ensures Distinct(c, sts[..k])
    decreases |sts|
  {
    if k < |sts| {
      var init := sts[..|sts| - 1];
      DistinctPrefix(c, init, k);
      assert init[..k] == sts[..k];
    } else {
      assert sts[..k] == sts;
    }
  }

  /** The inputs of the fold are the statements' items. */
  lemma {:induction false} InputsOfMembers(sts: seq<ItemKeyStatement>, x: Raw)
    ensures x in InputsOf(sts) <==> exists i :: 0 <= i < |sts| && sts[i].item == x
  {
    if sts != [] {
      var n := |sts| - 1;
      InputsOfMembers(sts[..n], x);
      if x in InputsOf(sts[..n]) {
        var i :| 0 <= i < n && sts[..n][i].item == x;
        assert sts[i].item == x;
      }
      if exists i :: 0 <= i < |sts| && sts[i].item == x {
        var i :| 0 <= i < |sts| && sts[i].item == x;
        if i < n { assert sts[..n][i].item == x; }
      }
    }
  }

  /** The nullifiers of the fold are those of the statements' keys. */
  lemma {:induction false} NullifiersOfMembers(c: Crypto.Primitives, sts: seq<ItemKeyStatement>, x: Raw)
    ensures x in NullifiersOf(c, sts) <==> exists i :: 0 <= i < |sts| && Commit.KeyNullifier(c, sts[i].key) == x
  {
    if sts != [] {
      var n := |sts| - 1;
      NullifiersOfMembers(c, sts[..n], x);
      if x in NullifiersOf(c, sts[..n]) {
        var i :| 0 <= i < n && Commit.KeyNullifier(c, sts[..n][i].key) == x;
        assert Commit.KeyNullifier(c, sts[i].key) == x;
      }
      if exists i :: 0 <= i < |sts| && Commit.KeyNullifier(c, sts[i].key) == x {
        var i :| 0 <= i < |sts| && Commit.KeyNullifier(c, sts[i].key) == x;
        if i < n { assert Commit.KeyNullifier(c, sts[..n][i].key) == x; }
      }
    }
  }

  /** The fold fails exactly when two statements share an input or a nullifier. */
  lemma {:induction false} DistinctPairwise(c: Crypto.Primitives, sts: seq<ItemKeyStatement>)
    ensures Distinct(c, sts) <==> forall i, j :: 0 <= i < j < |sts| ==>
              sts[i].item != sts[j].item && Commit.KeyNullifier(c, sts[i].key) != Commit.KeyNullifier(c, sts[j].key)
  {
    if sts != [] {
      var n := |sts| - 1;
      var init, last := sts[..n], sts[n];
      DistinctPairwise(c, init);
      InputsOfMembers(init, last.item);
      NullifiersOfMembers(c, init, Commit.KeyNullifier(c, last.key));
      if Distinct(c, sts) {
        forall i, j | 0 <= i < j < |sts|
          ensures sts[i].item != sts[j].item && Commit.KeyNullifier(c, sts[i].key) != Commit.KeyNullifier(c, sts[j].key)
        {
          assert init[i] == sts[i];
          if j < n { assert init[j] == sts[j]; }
        }
      }
      if forall i, j :: 0 <= i < j < |sts| ==>
           sts[i].item != sts[j].item && Commit.KeyNullifier(c, sts[i].key) != Commit.KeyNullifier(c, sts[j].key)
      {
        forall i, j | 0 <= i < j < n
          ensures init[i].item != init[j].item && Commit.KeyNullifier(c, init[i].key) != Commit.KeyNullifier(c, init[j].key)
        {
          assert init[i] == sts[i] && init[j] == sts[j];
        }
        forall i | 0 <= i < n ensures init[i].item != last.item && Commit.KeyNullifier(c, init[i].key) != Commit.KeyNullifier(c, last.key) {
          assert init[i] == sts[i];
        }
      }
    }
  }

  /** A successful fold has as many inputs and as many nullifiers as statements. */
  lemma {:induction false} DistinctCount(c: Crypto.Primitives, sts: seq<ItemKeyStatement>)
    requires Distinct(c, sts)
    ensures |InputsOf(sts)| == |sts| && |NullifiersOf(c, sts)| == |sts|
  {
    if sts != [] {
      DistinctCount(c, sts[..|sts| - 1]);
    }
  }

  /**
   * Against the text as written no statement list with an input folds into a provable
   * `Nullifiers`: the builder hashes each key with the constant's value, while every
   * nullifier of the text hashes the placeholder, and such hashes differ whenever the hash
   * keeps the two tags apart for the key concerned.
   */
  lemma StNullifiersAsWrittenFails(c: Crypto.Primitives, sts: seq<ItemKeyStatement>)
    requires sts != []
    requires forall k: Raw :: c.hash([k, c.strValue(CommitPredicates.NULLIFIER_TAG_AS_WRITTEN)]) != Commit.KeyNullifier(c, sts[0].key)
    ensures !CommitPredicates.NullifiersAsWritten(c, NullifiersOf(c, sts), InputsOf(sts))
  {
    NullifiersOfMembers(c, sts, Commit.KeyNullifier(c, sts[0].key));
    if CommitPredicates.NullifiersAsWritten(c, NullifiersOf(c, sts), InputsOf(sts)) {
      CommitPredicates.NullifiersAsWrittenTagged(c, NullifiersOf(c, sts), InputsOf(sts));
      assert false;
    }
  }

  /** No statements: both sets empty. */
  lemma NoStatements(c: Crypto.Primitives)
    ensures Distinct(c, []) && InputsOf([]) == {} && NullifiersOf(c, []) == {}
  {
  }

  // ---------------------------------------------------------------- st_all_items_in_batch

  /** `order` lists every index of `keys` exactly once: the iteration order of the `HashMap`. */
  ghost predicate Enumerates(order: seq<string>, keys: map<string, Raw>)
  {
    (forall i :: 0 <= i < |order| ==> order[i] in keys)
    && (forall k :: k in keys ==> k in order)
    && (forall i, j :: 0 <= i < j < |order| ==> order[i] != order[j])
  }

  /** The dictionary the fold rebuilds from the indices `order` lists. */
  ghost function KeysAlong(keys: map<string, Raw>, order: seq<string>): map<string, Raw>
    requires forall i :: 0 <= i < |order| ==> order[i] in keys
  {
    if order == [] then map[] else KeysAlong(keys, order[..|order| - 1])[order[|order| - 1] := keys[order[|order| - 1]]]
  }

  /** The item ids of the indices `order` lists, in fold order. */
  ghost function ItemsAlong(c: Crypto.Primitives, batch: Raw, order: seq<string>): set<Raw>
  {
    if order == [] then {} else ItemsAlong(c, batch, order[..|order| - 1]) + {c.hash([batch, c.keyHash(order[|order| - 1])])}
  }

  /** Every item insertion of the fold succeeds. */
  ghost predicate FreshAlong(c: Crypto.Primitives, batch: Raw, order: seq<string>)
  {
    order == [] ||
    (var init := order[..|order| - 1];
     FreshAlong(c, batch, init) && c.hash([batch, c.keyHash(order[|order| - 1])]) !in ItemsAlong(c, batch, init))
  }

  /** What `st_all_items_in_batch` rebuilds: the items set and the keys dictionary. */
  datatype BatchSets = BatchSets(items: set<Raw>, keys: map<string, Raw>)

  /**
   * `st_all_items_in_batch(batch_def)`: folds over the batch keys, inserting each index
   * into a fresh dictionary and the item id H([batch_hash, H(index)]) into a fresh set.
   * On success the dictionary is the batch keys, the set holds one id per index, and the
   * statement built is `AllItemsInBatch(items, batch_hash, keys)`; it fails exactly when
   * two indices give the same id.
   */
  method StAllItemsInBatch(c: Crypto.Primitives, b: Commit.BatchDef, order: seq<string>) returns (r: Result<BatchSets, string>)
    requires Enumerates(order, b.ingredients.keys)
    ensures r.Ok? <==> CommitPredicates.ItemHashesDistinct(c, Commit.BatchHash(c, b), b.ingredients.keys)
    ensures r.Ok? ==> r.value.keys == b.ingredients.keys
    ensures r.Ok? ==> r.value.items == CommitPredicates.BatchItems(c, Commit.BatchHash(c, b), b.ingredients.keys)
    ensures r.Ok? ==> CommitPredicates.AllItemsInBatch(c, r.value.items, Commit.BatchHash(c, b), r.value.keys)
    ensures r.Err? ==> r.error == ALREADY_PRESENT
  {
    var batch := Commit.BatchHash(c, b);
    var all := b.ingredients.keys;
    var items: set<Raw> := {};
    var keys: map<string, Raw> := map[];
    assert CommitPredicates.AllItemsInBatchEmpty(items, keys);
    var k := 0;
    while k < |order|
      invariant 0 <= k <= |order|
      invariant keys == KeysAlong(all, order[..k]) && items == ItemsAlong(c, batch, order[..k])
      invariant FreshAlong(c, batch, order[..k])
      invariant CommitPredicates.AllItemsInBatch(c, items, batch, keys)
    {
      var index := order[k];
      var item := c.hash([batch, c.keyHash(index)]);
      assert order[..k + 1][..k] == order[..k] && order[..k + 1][k] == index;
      if item in items {
        if FreshAlong(c, batch, order) {
          FreshAlongPrefix(c, batch, order, k + 1);
        }
        FreshAlongIff(c, batch, all, order);
        return Err(ALREADY_PRESENT);
      }
      KeysAlongMembers(all, order, k);
      CommitPredicates.AllItemsInBatchInsert(c, items, batch, keys, index, all[index]);
      keys := keys[index := all[index]];
      items := items + {item};
      k := k + 1;
    }
    assert order[..k] == order;
    FreshAlongIff(c, batch, all, order);
    r := Ok(BatchSets(items, keys));
  }

  /** The next index of an enumeration is not yet in the rebuilt dictionary. */
  lemma KeysAlongMembers(keys: map<string, Raw>, order: seq<string>, k: nat)
    requires Enumerates(order, keys) && k < |order|
    ensures order[k] !in KeysAlong(keys, order[..k])
  {
    KeysAlongDomain(keys, order[..k]);
    forall i | 0 <= i < k ensures order[..k][i] != order[k] {
      assert order[..k][i] == order[i];
    }
  }

  /** The rebuilt dictionary holds exactly the listed indices, with the batch's keys. */
  lemma {:induction false} KeysAlongDomain(keys: map<string, Raw>, order: seq<string>)
    requires forall i :: 0 <= i < |order| ==> order[i] in keys
    ensures forall k :: k in KeysAlong(keys, order) <==> k in order
    ensures forall k :: k in KeysAlong(keys, order) ==> KeysAlong(keys, order)[k] == keys[k]
  {
    if order != [] {
      var init := order[..|order| - 1];
      KeysAlongDomain(keys, init);
      assert order == init + [order[|order| - 1]];
    }
  }

  /** A prefix of an order that folds without failure folds without failure. */
  lemma {:induction false} FreshAlongPrefix(c: Crypto.Primitives, batch: Raw, order: seq<string>, k: nat)
    requires k <= |order| && FreshAlong(c, batch, order)
    ensures FreshAlong(c, batch, order[..k])
    decreases |order|
  {
    if k < |order| {
      var init := order[..|order| - 1];
      FreshAlongPrefix(c, batch, init, k);
      assert init[..k] == order[..k];
    } else {
      assert order[..k] == order;
    }
  }

  /** The ids of the fold are those of the listed indices. */
  lemma {:induction false} ItemsAlongMembers(c: Crypto.Primitives, batch: Raw, order: seq<string>, x: Raw)
    ensures x in ItemsAlong(c, batch, order) <==> exists i :: 0 <= i < |order| && c.hash([batch, c.keyHash(order[i])]) == x
  {
    if order != [] {
      var n := |order| - 1;
      ItemsAlongMembers(c, batch, order[..n], x);
      if x in ItemsAlong(c, batch, order[..n]) {
        var i :| 0 <= i < n && c.hash([batch, c.keyHash(order[..n][i])]) == x;
        assert order[..n][i] == order[i];
      }
      if exists i :: 0 <= i < |order| && c.hash([batch, c.keyHash(order[i])]) == x {
        var i :| 0 <= i < |order| && c.hash([batch, c.keyHash(order[i])]) == x;
        if i < n { assert order[..n][i] == order[i]; }
      }
    }
  }

  /** The fold succeeds exactly when no two listed indices give the same id. */
  lemma {:induction false} FreshAlongPairwise(c: Crypto.Primitives, batch: Raw, order: seq<string>)
    ensures FreshAlong(c, batch, order) <==>
            forall i, j :: 0 <= i < j < |order| ==> c.hash([batch, c.keyHash(order[i])]) != c.hash([batch, c.keyHash(order[j])])
  {
    if order != [] {
      var n := |order| - 1;
      var init := order[..n];
      FreshAlongPairwise(c, batch, init);
      ItemsAlongMembers(c, batch, init, c.hash([batch, c.keyHash(order[n])]));
      if FreshAlong(c, batch, order) {
        forall i, j | 0 <= i < j < |order|
          ensures c.hash([batch, c.keyHash(order[i])]) != c.hash([batch, c.keyHash(order[j])])
        {
          assert init[i] == order[i];
          if j < n { assert init[j] == order[j]; }
        }
      }
      if forall i, j :: 0 <= i < j < |order| ==> c.hash([batch, c.keyHash(order[i])]) != c.hash([batch, c.keyHash(order[j])]) {
        forall i, j | 0 <= i < j < n
          ensures c.hash([batch, c.keyHash(init[i])]) != c.hash([batch, c.keyHash(init[j])])
        {
          assert init[i] == order[i] && init[j] == order[j];
        }
        forall i | 0 <= i < n ensures c.hash([batch, c.keyHash(init[i])]) != c.hash([batch, c.keyHash(order[n])]) {
          assert init[i] == order[i];
        }
      }
    }
  }

  /**
   * Over an enumeration of the keys: the fold succeeds exactly when the batch's ids are
   * distinct, and it rebuilds the batch keys and the batch's item set.
   */
  lemma FreshAlongIff(c: Crypto.Primitives, batch: Raw, keys: map<string, Raw>, order: seq<string>)
    requires Enumerates(order, keys)
    ensures FreshAlong(c, batch, order) <==> CommitPredicates.ItemHashesDistinct(c, batch, keys)
    ensures KeysAlong(keys, order) == keys
    ensures ItemsAlong(c, batch, order) == CommitPredicates.BatchItems(c, batch, keys)
  {
    FreshAlongPairwise(c, batch, order);
    if FreshAlong(c, batch, order) {
      forall k1, k2 | k1 in keys && k2 in keys && k1 != k2
        ensures c.hash([batch, c.keyHash(k1)]) != c.hash([batch, c.keyHash(k2)])
      {
        var i :| 0 <= i < |order| && order[i] == k1;
        var j :| 0 <= j < |order| && order[j] == k2;
        if i < j {} else { assert j < i; }
      }
    }
    if CommitPredicates.ItemHashesDistinct(c, batch, keys) {
      forall i, j | 0 <= i < j < |order|
        ensures c.hash([batch, c.keyHash(order[i])]) != c.hash([batch, c.keyHash(order[j])])
      {
        assert order[i] in keys && order[j] in keys && order[i] != order[j];
      }
    }
    KeysAlongDomain(keys, order);
    forall x ensures x in ItemsAlong(c, batch, order) <==> x in CommitPredicates.BatchItems(c, batch, keys) {
      ItemsAlongMembers(c, batch, order, x);
      if x in CommitPredicates.BatchItems(c, batch, keys) {
        var k :| k in keys && c.hash([batch, c.keyHash(k)]) == x;
        var i :| 0 <= i < |order| && order[i] == k;
      }
    }
  }

  // ---------------------------------------------------------------- st_commit_creation

  /**
   * `st_commit_creation(batch_def, st_nullifiers, created_items, st_batch_def)`: proves the
   * batch inputs a subset of `created_items`, builds `AllItemsInBatch`, and states
   * `CommitCreation(item, nullifiers, created_items)` from those and the two given
   * statements. It succeeds exactly when every input was created and the batch's item ids
   * are distinct. The statement as written holds whatever its `item` argument; with the
   * `SetContains(items, item)` the corrected predicate adds, the same witnesses prove it for
   * each item of the batch.
   */
  method StCommitCreation(c: Crypto.Primitives, b: Commit.BatchDef, nullifiers: set<Raw>, created: set<Raw>, order: seq<string>)
    returns (r: Result<BatchSets, string>)
    requires CommitPredicates.Nullifiers(c, nullifiers, b.ingredients.inputs)
    requires "inputs" !in b.ingredients.appLayer && "keys" !in b.ingredients.appLayer
    requires Enumerates(order, b.ingredients.keys)
    ensures r.Ok? <==> b.ingredients.inputs <= created
                       && CommitPredicates.ItemHashesDistinct(c, Commit.BatchHash(c, b), b.ingredients.keys)
    ensures r.Ok? ==> forall item :: CommitPredicates.CommitCreation(c, item, nullifiers, created)
    ensures r.Ok? ==> forall item :: item in CommitPredicates.BatchItems(c, Commit.BatchHash(c, b), b.ingredients.keys) ==>
              CommitPredicates.CommitCreationCorrected(c, item, nullifiers, created)
  {
    var subset := SuperSubSetOf(b.ingredients.inputs, created);
    if subset.Err? {
      return Err(subset.error);
    }
    r := StAllItemsInBatch(c, b, order);
    if r.Ok? {
      var ing := b.ingredients;
      var w := CommitPredicates.CreationWitness(Commit.Dict(c, ing), ing.inputs, EMPTY_VALUE, b.work,
                                                Commit.BatchHash(c, b), ing.keys, r.value.items);
      assert CommitPredicates.BatchDef(c, w.batch, w.ingredients, w.inputs, w.keys, w.work);
      forall item ensures CommitPredicates.CommitCreation(c, item, nullifiers, created) {
        assert CommitPredicates.CommitCreationW(c, item, nullifiers, created, w);
      }
      forall item | item in CommitPredicates.BatchItems(c, Commit.BatchHash(c, b), b.ingredients.keys)
        ensures CommitPredicates.CommitCreationCorrected(c, item, nullifiers, created)
      {
        assert CommitPredicates.CommitCreationW(c, item, nullifiers, created, w) && item in w.items;
      }
    }
  }

  /**
   * `st_super_sub_set(inputs, created_items)`: removes some element, proves the rest, then
   * states `SetContains(created_items, i)`. It succeeds exactly when every input was
   * created; the result is the recursion depth, the number of `SubsetOfRecursive`
   * statements built, and the statement built is `SubsetOf(inputs, created_items)`.
   */
  method SuperSubSetOf(inputs: set<Raw>, created: set<Raw>) returns (r: Result<nat, string>)
    ensures r.Ok? <==> inputs <= created
    ensures r.Ok? ==> r.value == |inputs| && CommitPredicates.SubsetOf(inputs, created)
    ensures r.Err? ==> r.error == SET_CONTAINS_FAILED
    decreases inputs
  {
    if inputs == {} {
      return Ok(0);
    }
    var i :| i in inputs;
    var smaller := inputs - {i};
    r := SuperSubSetOf(smaller, created);
    if r.Ok? {
      if i in created {
        assert CommitPredicates.SetInsert(inputs, smaller, i);
        r := Ok(r.value + 1);
      } else {
        r := Err(SET_CONTAINS_FAILED);
      }
    }
  }
}
