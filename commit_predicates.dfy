/**
 * `commitlib/src/predicates.rs`: the PODLang custom predicates of the on-ledger commitment,
 * read as logical predicates over the containers' contents.
 *
 * A private argument is an existential; where several are introduced together they are
 * gathered in a witness record. An index is a dictionary key; in `HashOf` it stands for its
 * key hash.
 *
 * The first part of the module is the corrected text, the predicates as the Rust builder
 * (`commitlib/src/lib.rs`) fills them and as the comments describe them: `BatchDef` hashes
 * into `batch`, `ItemInBatch` looks the index up in the batch keys, `ItemDef` ties `key` to
 * the index, the nullifier tag is the constant's value and `{{}}` is the empty set, the
 * recursive `AllItemsInBatch` step refers to the previous sets, and `CommitCreation` places
 * its item in the batch. The text as written, where undeclared names are free wildcards,
 * `key` is unused and the third batch is never formatted, follows at the end, with lemmas
 * that show how it departs from the corrected form.
 */
module CommitPredicates {
  import opened Goldilocks
  import Crypto
  import Commit

  // ---------------------------------------------------------------- native container statements

  /** `SetInsert(s, prev, v)`: s is prev with v added, and v was not in prev. */
  ghost predicate SetInsert(s: set<Raw>, prev: set<Raw>, v: Raw)
  {
    v !in prev && s == prev + {v}
  }

  /** `DictInsert(d, prev, k, v)`: d is prev with the new key k mapped to v. */
  ghost predicate DictInsert(d: map<string, Raw>, prev: map<string, Raw>, k: string, v: Raw)
  {
    k !in prev && d == prev[k := v]
  }

  /** `DictContains(d, k, v)`. */
  ghost predicate DictContains(d: map<string, Raw>, k: string, v: Raw)
  {
    k in d && d[k] == v
  }

  // ---------------------------------------------------------------- SubsetOf

  /** `SubsetOf(sub, super)`: sub is empty, or one element of super more than a subset of it. */
  ghost predicate SubsetOf(sub: set<Raw>, super: set<Raw>)
    decreases sub, 1
  {
    sub == {} || SubsetOfRecursive(sub, super)
  }

  /** `SubsetOfRecursive(sub, super, private: i, smaller)`. */
  ghost predicate SubsetOfRecursive(sub: set<Raw>, super: set<Raw>)
    decreases sub, 0
  {
    exists i: Raw, smaller: set<Raw> :: SetInsert(sub, smaller, i) && i in super && SubsetOf(smaller, super)
  }

  /** The recursive definition is exactly set inclusion. */
  lemma {:induction false} SubsetOfIff(sub: set<Raw>, super: set<Raw>)
    ensures SubsetOf(sub, super) <==> sub <= super
    decreases sub
  {
    if sub != {} {
      if SubsetOf(sub, super) {
        assert SubsetOfRecursive(sub, super);
        var i, smaller :| SetInsert(sub, smaller, i) && i in super && SubsetOf(smaller, super);
        assert smaller < sub;
        SubsetOfIff(smaller, super);
      }
      if sub <= super {
        var i :| i in sub;
        var smaller := sub - {i};
        SubsetOfIff(smaller, super);
        assert SetInsert(sub, smaller, i);
      }
    }
  }

  // ---------------------------------------------------------------- BatchDef, ItemInBatch, ItemDef, ItemKey

  /**
   * `BatchDef(batch, ingredients, inputs, keys, work)`: the ingredients hold the inputs and
   * the keys, and the batch is H([ingredients, work]).
   */
  ghost predicate BatchDef(c: Crypto.Primitives, batch: Raw, ingredients: map<string, Raw>, inputs: set<Raw>, keys: map<string, Raw>, work: Raw)
  {
    DictContains(ingredients, "inputs", c.setRoot(inputs))
    && DictContains(ingredients, "keys", c.dictRoot(keys))
    && batch == c.hash([c.dictRoot(ingredients), work])
  }

  /** The body of `ItemInBatch(item, batch, private: index, key)` for a given index and key. */
  ghost predicate ItemInBatchAt(c: Crypto.Primitives, item: Raw, batch: Raw, keys: map<string, Raw>, index: string, key: Raw)
  {
    item == c.hash([batch, c.keyHash(index)]) && DictContains(keys, index, key)
  }

  /** `ItemInBatch(item, batch)`: the item is H([batch, index]) for an index of the keys. */
  ghost predicate ItemInBatch(c: Crypto.Primitives, item: Raw, batch: Raw, keys: map<string, Raw>)
  {
    exists index: string, key: Raw :: ItemInBatchAt(c, item, batch, keys, index, key)
  }

  /** The private arguments of `ItemDef` (and the keys dictionary its `BatchDef` names). */
  datatype ItemDefWitness = ItemDefWitness(batch: Raw, index: string, keys: map<string, Raw>)

  /**
   * `ItemDef(item, ingredients, inputs, key, work, private: batch, index)` with its private
   * arguments given; the builder adds `DictContains(keys, index, key)` alongside `ItemInBatch`.
   */
  ghost predicate ItemDefW(c: Crypto.Primitives, item: Raw, ingredients: map<string, Raw>, inputs: set<Raw>, key: Raw, work: Raw, w: ItemDefWitness)
  {
    BatchDef(c, w.batch, ingredients, inputs, w.keys, work)
    && ItemInBatchAt(c, item, w.batch, w.keys, w.index, key)
    && DictContains(w.keys, w.index, key)
  }

  ghost predicate ItemDef(c: Crypto.Primitives, item: Raw, ingredients: map<string, Raw>, inputs: set<Raw>, key: Raw, work: Raw)
  {
    exists w: ItemDefWitness :: ItemDefW(c, item, ingredients, inputs, key, work, w)
  }

  /** The private arguments of `ItemKey`. */
  datatype ItemKeyWitness = ItemKeyWitness(ingredients: map<string, Raw>, inputs: set<Raw>, work: Raw, def: ItemDefWitness)

  /** `ItemKey(item, key, private: ingredients, inputs, work)`: an `ItemDef` with only item and key public. */
  ghost predicate ItemKey(c: Crypto.Primitives, item: Raw, key: Raw)
  {
    exists w: ItemKeyWitness :: ItemDefW(c, item, w.ingredients, w.inputs, key, w.work, w.def)
  }

  /**
   * Every item the Rust derivation defines satisfies `ItemDef` and `ItemKey`, with its item
   * hash and its key, as long as the application layer does not replace "inputs" or "keys".
   */
  lemma DerivedItemDef(c: Crypto.Primitives, d: Commit.ItemDef)
    requires d.index in d.batch.ingredients.keys
    requires "inputs" !in d.batch.ingredients.appLayer && "keys" !in d.batch.ingredients.appLayer
    ensures ItemDef(c, Commit.ItemHash(c, d), Commit.Dict(c, d.batch.ingredients), d.batch.ingredients.inputs, Commit.ItemKey(d), d.batch.work)
    ensures ItemKey(c, Commit.ItemHash(c, d), Commit.ItemKey(d))
    ensures ItemInBatch(c, Commit.ItemHash(c, d), Commit.BatchHash(c, d.batch), d.batch.ingredients.keys)
  {
    var ing := d.batch.ingredients;
    var w := ItemDefWitness(Commit.BatchHash(c, d.batch), d.index, ing.keys);
    assert ItemDefW(c, Commit.ItemHash(c, d), Commit.Dict(c, ing), ing.inputs, Commit.ItemKey(d), d.batch.work, w);
    assert ItemInBatchAt(c, Commit.ItemHash(c, d), w.batch, w.keys, w.index, Commit.ItemKey(d));
    var kw := ItemKeyWitness(Commit.Dict(c, ing), ing.inputs, d.batch.work, w);
    assert ItemDefW(c, Commit.ItemHash(c, d), kw.ingredients, kw.inputs, Commit.ItemKey(d), kw.work, kw.def);
  }

  /**
   * The converse of `DerivedItemDef`: a proved `ItemKey(item, key)` names the key that some
   * derivation stores under the index of `item`, for an item of that derivation.
   */
  lemma ItemKeySound(c: Crypto.Primitives, item: Raw, key: Raw)
    requires ItemKey(c, item, key)
    ensures exists d: Commit.ItemDef :: d.index in d.batch.ingredients.keys
              && Commit.ItemHash(c, d) == item && Commit.ItemKey(d) == key
  {
    var kw: ItemKeyWitness :| ItemDefW(c, item, kw.ingredients, kw.inputs, key, kw.work, kw.def);
    var w := kw.def;
    var ing := Commit.IngredientsDef(kw.inputs, w.keys, kw.ingredients - {"inputs", "keys"});
    var d := Commit.ItemDef(Commit.BatchDef(ing, kw.work), w.index);
    assert Commit.Dict(c, ing) == kw.ingredients;
    assert Commit.ItemHash(c, d) == item;
  }

  // ---------------------------------------------------------------- Nullifiers

  /** `NullifiersEmpty(nullifiers, inputs)`. */
  ghost predicate NullifiersEmpty(nullifiers: set<Raw>, inputs: set<Raw>)
  {
    nullifiers == {} && inputs == {}
  }

  /** The private arguments of `NullifiersRecursive`. */
  datatype NullifierStep = NullifierStep(input: Raw, nullifier: Raw, key: Raw, nullifiersPrev: set<Raw>, inputsPrev: set<Raw>)

  /** `Nullifiers(nullifiers, inputs)`. */
  ghost predicate Nullifiers(c: Crypto.Primitives, nullifiers: set<Raw>, inputs: set<Raw>)
    decreases inputs, 1
  {
    NullifiersEmpty(nullifiers, inputs) || NullifiersRecursive(c, nullifiers, inputs)
  }

  /**
   * `NullifiersRecursive`: one input, proved to carry `key` by `ItemKey`, is peeled off
   * together with its nullifier H([key, "consumed item external nullifier"]).
   */
  ghost predicate NullifiersRecursive(c: Crypto.Primitives, nullifiers: set<Raw>, inputs: set<Raw>)
    decreases inputs, 0
  {
    exists w: NullifierStep ::
      NullifierStepHolds(c, nullifiers, inputs, w)
      && w.inputsPrev < inputs
      && Nullifiers(c, w.nullifiersPrev, w.inputsPrev)
  }

  /** The statements of `NullifiersRecursive` other than the recursive one, for a given step. */
  ghost predicate NullifierStepHolds(c: Crypto.Primitives, nullifiers: set<Raw>, inputs: set<Raw>, w: NullifierStep)
  {
    SetInsert(inputs, w.inputsPrev, w.input)
    && ItemKey(c, w.input, w.key)
    && w.nullifier == c.hash([w.key, c.strValue(Commit.CONSUMED_ITEM_EXTERNAL_NULLIFIER)])
    && SetInsert(nullifiers, w.nullifiersPrev, w.nullifier)
  }

  /** Peels one step off a `Nullifiers` proof that is not the empty case. */
  lemma NullifiersUnfold(c: Crypto.Primitives, nullifiers: set<Raw>, inputs: set<Raw>) returns (w: NullifierStep)
    requires Nullifiers(c, nullifiers, inputs) && !NullifiersEmpty(nullifiers, inputs)
    ensures NullifierStepHolds(c, nullifiers, inputs, w) && w.inputsPrev < inputs
    ensures Nullifiers(c, w.nullifiersPrev, w.inputsPrev)
  {
    assert NullifiersRecursive(c, nullifiers, inputs);
    w :| NullifierStepHolds(c, nullifiers, inputs, w) && w.inputsPrev < inputs
         && Nullifiers(c, w.nullifiersPrev, w.inputsPrev);
  }

  /**
   * What `Nullifiers` establishes, in three lemmas: as many nullifiers as inputs, every input
   * contributes the nullifier of a key it is proved to carry, and every nullifier comes from
   * an input that way.
   */
  lemma {:induction false} NullifiersCount(c: Crypto.Primitives, nullifiers: set<Raw>, inputs: set<Raw>)
    requires Nullifiers(c, nullifiers, inputs)
    ensures |nullifiers| == |inputs|
    decreases inputs
  {
    if !NullifiersEmpty(nullifiers, inputs) {
      var w := NullifiersUnfold(c, nullifiers, inputs);
      NullifiersCount(c, w.nullifiersPrev, w.inputsPrev);
      NullifierStepCount(c, nullifiers, inputs, w);
    }
  }

  lemma {:induction false} NullifiersCoverInputs(c: Crypto.Primitives, nullifiers: set<Raw>, inputs: set<Raw>)
    requires Nullifiers(c, nullifiers, inputs)
    ensures forall x :: x in inputs ==> exists key :: ItemKey(c, x, key) && Commit.KeyNullifier(c, key) in nullifiers
    decreases inputs
  {
    if !NullifiersEmpty(nullifiers, inputs) {
      var w := NullifiersUnfold(c, nullifiers, inputs);
      NullifiersCoverInputs(c, w.nullifiersPrev, w.inputsPrev);
      NullifierStepInputs(c, nullifiers, inputs, w);
    }
  }

  lemma {:induction false} NullifiersFromInputs(c: Crypto.Primitives, nullifiers: set<Raw>, inputs: set<Raw>)
    requires Nullifiers(c, nullifiers, inputs)
    ensures forall n :: n in nullifiers ==> exists x, key :: x in inputs && ItemKey(c, x, key) && n == Commit.KeyNullifier(c, key)
    decreases inputs
  {
    if !NullifiersEmpty(nullifiers, inputs) {
      var w := NullifiersUnfold(c, nullifiers, inputs);
      NullifiersFromInputs(c, w.nullifiersPrev, w.inputsPrev);
      NullifierStepOrigins(c, nullifiers, inputs, w);
    }
  }

  /**
   * With `ItemKey` tying the key to the item, every consumed input contributes the nullifier
   * of the key that a derivation of it stores.
   */
  lemma NullifiersBindDerivedKeys(c: Crypto.Primitives, nullifiers: set<Raw>, inputs: set<Raw>)
    requires Nullifiers(c, nullifiers, inputs)
    ensures forall x :: x in inputs ==>
              (exists d: Commit.ItemDef :: d.index in d.batch.ingredients.keys
                 && Commit.ItemHash(c, d) == x && Commit.KeyNullifier(c, Commit.ItemKey(d)) in nullifiers)
  {
    NullifiersCoverInputs(c, nullifiers, inputs);
    forall x | x in inputs
      ensures exists d: Commit.ItemDef :: d.index in d.batch.ingredients.keys
                && Commit.ItemHash(c, d) == x && Commit.KeyNullifier(c, Commit.ItemKey(d)) in nullifiers
    {
      var key :| ItemKey(c, x, key) && Commit.KeyNullifier(c, key) in nullifiers;
      ItemKeySound(c, x, key);
    }
  }

  /** One step of `NullifiersRecursive` adds one input and one nullifier. */
  lemma NullifierStepCount(c: Crypto.Primitives, nullifiers: set<Raw>, inputs: set<Raw>, w: NullifierStep)
    requires NullifierStepHolds(c, nullifiers, inputs, w)
    requires |w.nullifiersPrev| == |w.inputsPrev|
    ensures |nullifiers| == |inputs|
  {
  }

  /** After one step of `NullifiersRecursive` every input still has its nullifier. */
  lemma NullifierStepInputs(c: Crypto.Primitives, nullifiers: set<Raw>, inputs: set<Raw>, w: NullifierStep)
    requires NullifierStepHolds(c, nullifiers, inputs, w)
    requires forall x :: x in w.inputsPrev ==> exists key :: ItemKey(c, x, key) && Commit.KeyNullifier(c, key) in w.nullifiersPrev
    ensures forall x :: x in inputs ==> exists key :: ItemKey(c, x, key) && Commit.KeyNullifier(c, key) in nullifiers
  {
    assert Commit.KeyNullifier(c, w.key) == w.nullifier;
    forall x | x in inputs
      ensures exists key :: ItemKey(c, x, key) && Commit.KeyNullifier(c, key) in nullifiers
    {
      if x == w.input {
        assert ItemKey(c, x, w.key);
      } else {
        var key :| ItemKey(c, x, key) && Commit.KeyNullifier(c, key) in w.nullifiersPrev;
        assert Commit.KeyNullifier(c, key) in nullifiers;
      }
    }
  }

  /** After one step of `NullifiersRecursive` every nullifier still comes from an input. */
  lemma NullifierStepOrigins(c: Crypto.Primitives, nullifiers: set<Raw>, inputs: set<Raw>, w: NullifierStep)
    requires NullifierStepHolds(c, nullifiers, inputs, w)
    requires forall n :: n in w.nullifiersPrev ==> exists x, key :: x in w.inputsPrev && ItemKey(c, x, key) && n == Commit.KeyNullifier(c, key)
    ensures forall n :: n in nullifiers ==> exists x, key :: x in inputs && ItemKey(c, x, key) && n == Commit.KeyNullifier(c, key)
  {
    assert Commit.KeyNullifier(c, w.key) == w.nullifier;
    forall n | n in nullifiers
      ensures exists x, key :: x in inputs && ItemKey(c, x, key) && n == Commit.KeyNullifier(c, key)
    {
      if n == w.nullifier {
        assert w.input in inputs && ItemKey(c, w.input, w.key);
      } else {
        var x, key :| x in w.inputsPrev && ItemKey(c, x, key) && n == Commit.KeyNullifier(c, key);
        assert x in inputs;
      }
    }
  }

  /**
   * The converse, one step at a time as `st_nullifiers` folds over its inputs: a new input
   * proved to carry `key`, whose nullifier is new too, extends a `Nullifiers` proof.
   */
  lemma NullifiersInsert(c: Crypto.Primitives, nullifiers: set<Raw>, inputs: set<Raw>, input: Raw, key: Raw)
    requires Nullifiers(c, nullifiers, inputs)
    requires ItemKey(c, input, key)
    requires input !in inputs && Commit.KeyNullifier(c, key) !in nullifiers
    ensures Nullifiers(c, nullifiers + {Commit.KeyNullifier(c, key)}, inputs + {input})
  {
    var w := NullifierStep(input, Commit.KeyNullifier(c, key), key, nullifiers, inputs);
    assert NullifierStepHolds(c, nullifiers + {w.nullifier}, inputs + {input}, w);
    assert NullifiersRecursive(c, nullifiers + {w.nullifier}, inputs + {input});
  }

  /** The start of the fold: two empty sets. */
  lemma NullifiersOfNothing(c: Crypto.Primitives)
    ensures Nullifiers(c, {}, {})
  {
    assert NullifiersEmpty({}, {});
  }

  // ---------------------------------------------------------------- AllItemsInBatch

  /** `AllItemsInBatchEmpty(items, batch, keys)`: the batch is left unconstrained. */
  ghost predicate AllItemsInBatchEmpty(items: set<Raw>, keys: map<string, Raw>)
  {
    items == {} && keys == map[]
  }

  /** The private arguments of one step of `AllItemsInBatchRecursive`. */
  datatype BatchStep = BatchStep(item: Raw, index: string, key: Raw, prevItems: set<Raw>, prevKeys: map<string, Raw>)

  /** The four statements of `AllItemsInBatchRecursive` as written, for a given step. */
  ghost predicate BatchStepHolds(c: Crypto.Primitives, items: set<Raw>, batch: Raw, keys: map<string, Raw>, w: BatchStep)
  {
    SetInsert(items, w.prevItems, w.item)
    && DictInsert(keys, w.prevKeys, w.index, w.key)
    && w.item == c.hash([batch, c.keyHash(w.index)])
    && DictContains(keys, w.index, w.key)
  }

  /**
   * `AllItemsInBatch(items, batch, keys)`, with the recursive step also requiring
   * `AllItemsInBatch(prev_items, batch, prev_keys)`, as `st_all_items_in_batch` supplies it.
   */
  ghost predicate AllItemsInBatch(c: Crypto.Primitives, items: set<Raw>, batch: Raw, keys: map<string, Raw>)
    decreases keys.Keys, 1
  {
    AllItemsInBatchEmpty(items, keys) || AllItemsInBatchRecursive(c, items, batch, keys)
  }

  ghost predicate AllItemsInBatchRecursive(c: Crypto.Primitives, items: set<Raw>, batch: Raw, keys: map<string, Raw>)
    decreases keys.Keys, 0
  {
    exists w: BatchStep ::
      BatchStepHolds(c, items, batch, keys, w)
      && w.prevKeys.Keys < keys.Keys
      && AllItemsInBatch(c, w.prevItems, batch, w.prevKeys)
  }

  /**
   * `AllItemsInBatch` as the text has it: the recursive case does not mention
   * `AllItemsInBatch(prev_items, batch, prev_keys)`, so the earlier items and keys are free.
   */
  ghost predicate AllItemsInBatchAsWritten(c: Crypto.Primitives, items: set<Raw>, batch: Raw, keys: map<string, Raw>)
  {
    AllItemsInBatchEmpty(items, keys) || exists w: BatchStep :: BatchStepHolds(c, items, batch, keys, w)
  }

  /** The ids of all items of a batch: H([batch, H(index)]) for each index of its keys. */
  ghost function BatchItems(c: Crypto.Primitives, batch: Raw, keys: map<string, Raw>): set<Raw>
  {
    set k | k in keys :: c.hash([batch, c.keyHash(k)])
  }

  /** Different indices of the batch give different item ids. */
  ghost predicate ItemHashesDistinct(c: Crypto.Primitives, batch: Raw, keys: map<string, Raw>)
  {
    forall k1, k2 :: k1 in keys && k2 in keys && k1 != k2 ==> c.hash([batch, c.keyHash(k1)]) != c.hash([batch, c.keyHash(k2)])
  }

  lemma BatchItemsInsert(c: Crypto.Primitives, batch: Raw, keys: map<string, Raw>, prev: map<string, Raw>, k: string, v: Raw)
    requires DictInsert(keys, prev, k, v)
    ensures BatchItems(c, batch, keys) == BatchItems(c, batch, prev) + {c.hash([batch, c.keyHash(k)])}
    ensures prev.Keys < keys.Keys && |keys| == |prev| + 1
  {
    assert keys.Keys == prev.Keys + {k};
  }

  /**
   * The recursive definition describes exactly the batch's items, one per key: items is
   * H([batch, H(index)]) over the indices, with as many items as keys.
   */
  lemma {:induction false} AllItemsInBatchSound(c: Crypto.Primitives, items: set<Raw>, batch: Raw, keys: map<string, Raw>)
    requires AllItemsInBatch(c, items, batch, keys)
    ensures items == BatchItems(c, batch, keys)
    ensures |items| == |keys|
    decreases keys.Keys
  {
    if !AllItemsInBatchEmpty(items, keys) {
      var w: BatchStep :| BatchStepHolds(c, items, batch, keys, w) && w.prevKeys.Keys < keys.Keys
                          && AllItemsInBatch(c, w.prevItems, batch, w.prevKeys);
      AllItemsInBatchSound(c, w.prevItems, batch, w.prevKeys);
      BatchItemsInsert(c, batch, keys, w.prevKeys, w.index, w.key);
    } else {
      assert BatchItems(c, batch, keys) == {};
    }
  }

  /** And every batch whose indices give distinct ids has its item set proved by it. */
  lemma {:induction false} AllItemsInBatchComplete(c: Crypto.Primitives, batch: Raw, keys: map<string, Raw>)
    requires ItemHashesDistinct(c, batch, keys)
    ensures AllItemsInBatch(c, BatchItems(c, batch, keys), batch, keys)
    decreases keys.Keys
  {
    if keys == map[] {
      assert BatchItems(c, batch, keys) == {};
      assert AllItemsInBatchEmpty(BatchItems(c, batch, keys), keys);
    } else {
      var k :| k in keys;
      var prev := keys - {k};
      assert keys == prev[k := keys[k]];
      BatchItemsInsert(c, batch, keys, prev, k, keys[k]);
      AllItemsInBatchComplete(c, batch, prev);
      var item := c.hash([batch, c.keyHash(k)]);
      assert item !in BatchItems(c, batch, prev) by {
        forall k2 | k2 in prev ensures c.hash([batch, c.keyHash(k2)]) != item {
          assert k2 != k;
        }
      }
      var w := BatchStep(item, k, keys[k], BatchItems(c, batch, prev), prev);
      assert BatchStepHolds(c, BatchItems(c, batch, keys), batch, keys, w);
    }
  }

  /** One step of the `st_all_items_in_batch` fold: a new index whose item id is new extends the proof. */
  lemma AllItemsInBatchInsert(c: Crypto.Primitives, items: set<Raw>, batch: Raw, keys: map<string, Raw>, index: string, key: Raw)
    requires AllItemsInBatch(c, items, batch, keys)
    requires index !in keys && c.hash([batch, c.keyHash(index)]) !in items
    ensures AllItemsInBatch(c, items + {c.hash([batch, c.keyHash(index)])}, batch, keys[index := key])
  {
    var w := BatchStep(c.hash([batch, c.keyHash(index)]), index, key, items, keys);
    BatchItemsInsert(c, batch, keys[index := key], keys, index, key);
    assert BatchStepHolds(c, items + {w.item}, batch, keys[index := key], w);
    assert AllItemsInBatchRecursive(c, items + {w.item}, batch, keys[index := key]);
  }

  /**
   * As written, any one item of the batch plus arbitrary other values passes: the set
   * {junk, H([batch, H(k)])} with the single key k satisfies the text but not the recursive form.
   */
  lemma AllItemsInBatchAsWrittenAdmitsJunk(c: Crypto.Primitives, batch: Raw, k: string, v: Raw, junk: Raw)
    requires junk != c.hash([batch, c.keyHash(k)])
    ensures AllItemsInBatchAsWritten(c, {junk, c.hash([batch, c.keyHash(k)])}, batch, map[k := v])
    ensures !AllItemsInBatch(c, {junk, c.hash([batch, c.keyHash(k)])}, batch, map[k := v])
  {
    var item := c.hash([batch, c.keyHash(k)]);
    var w := BatchStep(item, k, v, {junk}, map[]);
    assert BatchStepHolds(c, {junk, item}, batch, map[k := v], w);
    assert BatchItems(c, batch, map[k := v]) == {item};
    assert junk in {junk, item};
    if AllItemsInBatch(c, {junk, item}, batch, map[k := v]) {
      AllItemsInBatchSound(c, {junk, item}, batch, map[k := v]);
    }
  }

  // ---------------------------------------------------------------- CommitCreation

  /** The private arguments of `CommitCreation`, and the names its body uses without declaring. */
  datatype CreationWitness = CreationWitness(
    ingredients: map<string, Raw>, inputs: set<Raw>, key: Raw, work: Raw,
    batch: Raw, keys: map<string, Raw>, items: set<Raw>)

  ghost predicate CommitCreationW(c: Crypto.Primitives, item: Raw, nullifiers: set<Raw>, createdItems: set<Raw>, w: CreationWitness)
  {
    BatchDef(c, w.batch, w.ingredients, w.inputs, w.keys, w.work)
    && AllItemsInBatch(c, w.items, w.batch, w.keys)
    && SubsetOf(w.inputs, createdItems)
    && Nullifiers(c, nullifiers, w.inputs)
  }

  /** `CommitCreation(item, nullifiers, created_items, private: ingredients, inputs, key, work)`. */
  ghost predicate CommitCreation(c: Crypto.Primitives, item: Raw, nullifiers: set<Raw>, createdItems: set<Raw>)
  {
    exists w: CreationWitness :: CommitCreationW(c, item, nullifiers, createdItems, w)
  }

  /**
   * What a valid `CommitCreation` says about its public arguments: its nullifiers are those
   * of as many inputs, all taken from `created_items`, each proved to carry the key its
   * nullifier is computed from.
   */
  lemma CommitCreationMeaning(c: Crypto.Primitives, item: Raw, nullifiers: set<Raw>, createdItems: set<Raw>)
    requires CommitCreation(c, item, nullifiers, createdItems)
    ensures exists inputs: set<Raw> :: inputs <= createdItems && |inputs| == |nullifiers|
              && forall n :: n in nullifiers ==> exists x, key :: x in inputs && ItemKey(c, x, key) && n == Commit.KeyNullifier(c, key)
  {
    var w :| CommitCreationW(c, item, nullifiers, createdItems, w);
    SubsetOfIff(w.inputs, createdItems);
    NullifiersCount(c, nullifiers, w.inputs);
    NullifiersFromInputs(c, nullifiers, w.inputs);
  }

  /** The body never mentions `item`: whatever proves it for one item proves it for every other. */
  lemma CommitCreationIgnoresItem(c: Crypto.Primitives, item: Raw, other: Raw, nullifiers: set<Raw>, createdItems: set<Raw>)
    requires CommitCreation(c, item, nullifiers, createdItems)
    ensures CommitCreation(c, other, nullifiers, createdItems)
  {
    var w :| CommitCreationW(c, item, nullifiers, createdItems, w);
    assert CommitCreationW(c, other, nullifiers, createdItems, w);
  }

  /**
   * `CommitCreation` with the statement the ledger relies on and the text lacks,
   * `SetContains(items, item)`: the public item is one of the outputs of the committed batch.
   */
  ghost predicate CommitCreationCorrected(c: Crypto.Primitives, item: Raw, nullifiers: set<Raw>, createdItems: set<Raw>)
  {
    exists w: CreationWitness :: CommitCreationW(c, item, nullifiers, createdItems, w) && item in w.items
  }

  /**
   * A valid corrected `CommitCreation` places its item among the ids H([batch, H(index)]) of a
   * batch whose ingredients commit to inputs taken from `created_items`, one per nullifier.
   */
  lemma CommitCreationCorrectedMeaning(c: Crypto.Primitives, item: Raw, nullifiers: set<Raw>, createdItems: set<Raw>)
    requires CommitCreationCorrected(c, item, nullifiers, createdItems)
    ensures exists w: CreationWitness :: BatchDef(c, w.batch, w.ingredients, w.inputs, w.keys, w.work)
              && item in BatchItems(c, w.batch, w.keys) && w.inputs <= createdItems && |w.inputs| == |nullifiers|
  {
    var w :| CommitCreationW(c, item, nullifiers, createdItems, w) && item in w.items;
    AllItemsInBatchSound(c, w.items, w.batch, w.keys);
    SubsetOfIff(w.inputs, createdItems);
    NullifiersCount(c, nullifiers, w.inputs);
  }

  // ---------------------------------------------------------------- batches 1 to 3 as written

  /**
   * The third batch is a raw string that is never passed through `format!` (only the fourth
   * is), so its `HashOf` hashes the placeholder text itself, not the constant's value.
   */
  const NULLIFIER_TAG_AS_WRITTEN: string := "{CONSUMED_ITEM_EXTERNAL_NULLIFIER}"

  /**
   * `BatchDef` as written: its `HashOf(item, ingredients, work)` names an `item` that is not
   * among the arguments, a wildcard every value meets, so nothing binds `batch`.
   */
  ghost predicate BatchDefAsWritten(c: Crypto.Primitives, batch: Raw, ingredients: map<string, Raw>, inputs: set<Raw>, keys: map<string, Raw>, work: Raw)
  {
    DictContains(ingredients, "inputs", c.setRoot(inputs)) && DictContains(ingredients, "keys", c.dictRoot(keys))
  }

  /**
   * `ItemInBatch` as written: its `SetContains(keys, index, key)` names a `keys` that is not
   * among the arguments, which some dictionary always meets, so only the hash is checked.
   */
  ghost predicate ItemInBatchAsWritten(c: Crypto.Primitives, item: Raw, batch: Raw)
  {
    exists index: string, keys: map<string, Raw>, key: Raw :: ItemInBatchAt(c, item, batch, keys, index, key)
  }

  /**
   * `ItemDef` as written: the `keys` its `BatchDef` names is not among the arguments,
   * `ItemInBatch` receives the item and the batch, and `key` occurs in no statement.
   */
  ghost predicate ItemDefAsWritten(c: Crypto.Primitives, item: Raw, ingredients: map<string, Raw>, inputs: set<Raw>, key: Raw, work: Raw)
  {
    exists batch: Raw, keys: map<string, Raw> ::
      BatchDefAsWritten(c, batch, ingredients, inputs, keys, work) && ItemInBatchAsWritten(c, item, batch)
  }

  /** `ItemKey(item, key, private: ingredients, inputs, work)` over the `ItemDef` as written. */
  ghost predicate ItemKeyAsWritten(c: Crypto.Primitives, item: Raw, key: Raw)
  {
    exists ingredients: map<string, Raw>, inputs: set<Raw>, work: Raw :: ItemDefAsWritten(c, item, ingredients, inputs, key, work)
  }

  /**
   * As written, `ItemKey(item, key)` holds for every key of every item that is the hash of
   * some pair [batch, H(index)]: the key plays no part.
   */
  lemma ItemKeyAsWrittenIff(c: Crypto.Primitives, item: Raw, key: Raw)
    ensures ItemKeyAsWritten(c, item, key) <==> exists batch: Raw, index: string :: item == c.hash([batch, c.keyHash(index)])
  {
    if ItemKeyAsWritten(c, item, key) {
      var ingredients: map<string, Raw>, inputs: set<Raw>, work: Raw :| ItemDefAsWritten(c, item, ingredients, inputs, key, work);
      var batch: Raw, keys: map<string, Raw> :| BatchDefAsWritten(c, batch, ingredients, inputs, keys, work) && ItemInBatchAsWritten(c, item, batch);
      var index: string, ks: map<string, Raw>, k: Raw :| ItemInBatchAt(c, item, batch, ks, index, k);
      assert item == c.hash([batch, c.keyHash(index)]);
    }
    if exists batch: Raw, index: string :: item == c.hash([batch, c.keyHash(index)]) {
      var batch: Raw, index: string :| item == c.hash([batch, c.keyHash(index)]);
      var ingredients := map["inputs" := c.setRoot({}), "keys" := c.dictRoot(map[])];
      assert BatchDefAsWritten(c, batch, ingredients, {}, map[], item);
      assert ItemInBatchAt(c, item, batch, map[index := key], index, key);
      assert ItemDefAsWritten(c, item, ingredients, {}, key, item);
    }
  }

  /** So every item a derivation defines passes `ItemKey` as written with any key at all. */
  lemma DerivedItemAnyKeyAsWritten(c: Crypto.Primitives, d: Commit.ItemDef, key: Raw)
    ensures ItemKeyAsWritten(c, Commit.ItemHash(c, d), key)
  {
    assert Commit.ItemHash(c, d) == c.hash([Commit.BatchHash(c, d.batch), c.keyHash(d.index)]);
    ItemKeyAsWrittenIff(c, Commit.ItemHash(c, d), key);
  }

  /**
   * The statements of `NullifiersRecursive` as written: `ItemKey` as written and the hash of
   * the placeholder text. The base case reads `{{}}` as the empty set.
   */
  ghost predicate NullifierStepAsWrittenHolds(c: Crypto.Primitives, nullifiers: set<Raw>, inputs: set<Raw>, w: NullifierStep)
  {
    SetInsert(inputs, w.inputsPrev, w.input)
    && ItemKeyAsWritten(c, w.input, w.key)
    && w.nullifier == c.hash([w.key, c.strValue(NULLIFIER_TAG_AS_WRITTEN)])
    && SetInsert(nullifiers, w.nullifiersPrev, w.nullifier)
  }

  ghost predicate NullifiersAsWritten(c: Crypto.Primitives, nullifiers: set<Raw>, inputs: set<Raw>)
    decreases inputs, 1
  {
    NullifiersEmpty(nullifiers, inputs) || NullifiersRecursiveAsWritten(c, nullifiers, inputs)
  }

  ghost predicate NullifiersRecursiveAsWritten(c: Crypto.Primitives, nullifiers: set<Raw>, inputs: set<Raw>)
    decreases inputs, 0
  {
    exists w: NullifierStep ::
      NullifierStepAsWrittenHolds(c, nullifiers, inputs, w)
      && w.inputsPrev < inputs
      && NullifiersAsWritten(c, w.nullifiersPrev, w.inputsPrev)
  }

  /** Every nullifier of `Nullifiers` as written hashes some value with the placeholder text. */
  lemma {:induction false} NullifiersAsWrittenTagged(c: Crypto.Primitives, nullifiers: set<Raw>, inputs: set<Raw>)
    requires NullifiersAsWritten(c, nullifiers, inputs)
    ensures forall n :: n in nullifiers ==> exists key: Raw :: n == c.hash([key, c.strValue(NULLIFIER_TAG_AS_WRITTEN)])
    decreases inputs
  {
    if !NullifiersEmpty(nullifiers, inputs) {
      var w: NullifierStep :| NullifierStepAsWrittenHolds(c, nullifiers, inputs, w) && w.inputsPrev < inputs
                              && NullifiersAsWritten(c, w.nullifiersPrev, w.inputsPrev);
      NullifiersAsWrittenTagged(c, w.nullifiersPrev, w.inputsPrev);
      assert nullifiers == w.nullifiersPrev + {w.nullifier};
    }
  }

  /**
   * As written, one input can be consumed under two different nullifiers: any pair hash
   * passes `ItemKey` with any key, and the nullifier is computed from that key.
   */
  lemma NullifiersAsWrittenTwoKeys(c: Crypto.Primitives, batch: Raw, index: string, k1: Raw, k2: Raw)
    requires c.hash([k1, c.strValue(NULLIFIER_TAG_AS_WRITTEN)]) != c.hash([k2, c.strValue(NULLIFIER_TAG_AS_WRITTEN)])
    ensures NullifiersAsWritten(c, {c.hash([k1, c.strValue(NULLIFIER_TAG_AS_WRITTEN)])}, {c.hash([batch, c.keyHash(index)])})
    ensures NullifiersAsWritten(c, {c.hash([k2, c.strValue(NULLIFIER_TAG_AS_WRITTEN)])}, {c.hash([batch, c.keyHash(index)])})
    ensures {c.hash([k1, c.strValue(NULLIFIER_TAG_AS_WRITTEN)])} != {c.hash([k2, c.strValue(NULLIFIER_TAG_AS_WRITTEN)])}
  {
    var input := c.hash([batch, c.keyHash(index)]);
    assert NullifiersEmpty({}, {});
    ItemKeyAsWrittenIff(c, input, k1);
    ItemKeyAsWrittenIff(c, input, k2);
    var w1 := NullifierStep(input, c.hash([k1, c.strValue(NULLIFIER_TAG_AS_WRITTEN)]), k1, {}, {});
    var w2 := NullifierStep(input, c.hash([k2, c.strValue(NULLIFIER_TAG_AS_WRITTEN)]), k2, {}, {});
    assert NullifierStepAsWrittenHolds(c, {w1.nullifier}, {input}, w1);
    assert NullifierStepAsWrittenHolds(c, {w2.nullifier}, {input}, w2);
    assert NullifiersRecursiveAsWritten(c, {w1.nullifier}, {input});
    assert NullifiersRecursiveAsWritten(c, {w2.nullifier}, {input});
    assert w1.nullifier in {w1.nullifier};
  }
}
