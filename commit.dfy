/**
 * `commitlib/src/lib.rs`: how a batch and its items are identified. A batch is named by the
 * hash of its ingredients dictionary and its sequential work; each item of the batch by the
 * batch hash and its index; an item is spent by publishing a nullifier.
 *
 * Containers are given by their contents; their raw values are the Merkle roots of
 * `Crypto.Primitives`.
 */
module Commit {
  import opened Goldilocks
  import Crypto

  /** `CONSUMED_ITEM_EXTERNAL_NULLIFIER`. */
  const CONSUMED_ITEM_EXTERNAL_NULLIFIER: string := "consumed item external nullifier"

  /** `IngredientsDef`: the consumed inputs and one key per item are committed; the rest is the application's. */
  datatype IngredientsDef = IngredientsDef(inputs: set<Raw>, keys: map<string, Raw>, appLayer: map<string, Raw>)

  /** `BatchDef`. */
  datatype BatchDef = BatchDef(ingredients: IngredientsDef, work: Raw)

  /** `ItemDef`: one item of a batch, named by its index (a dictionary key of `keys`). */
  datatype ItemDef = ItemDef(batch: BatchDef, index: string)

  /**
   * `IngredientsDef::dict`: "inputs" holds the inputs set and "keys" the keys dictionary,
   * then every application entry is inserted, replacing either of those on a clash.
   */
  function Dict(c: Crypto.Primitives, ing: IngredientsDef): (r: map<string, Raw>)
    ensures r.Keys == {"inputs", "keys"} + ing.appLayer.Keys
    ensures forall k :: k in ing.appLayer ==> r[k] == ing.appLayer[k]
    ensures "inputs" !in ing.appLayer ==> r["inputs"] == c.setRoot(ing.inputs)
    ensures "keys" !in ing.appLayer ==> r["keys"] == c.dictRoot(ing.keys)
  {
    map["inputs" := c.setRoot(ing.inputs), "keys" := c.dictRoot(ing.keys)] + ing.appLayer
  }

  /** `IngredientsDef::hash`: the root of the ingredients dictionary. */
  function IngredientsHash(c: Crypto.Primitives, ing: IngredientsDef): Raw
  {
    c.dictRoot(Dict(c, ing))
  }

  /** `BatchDef::batch_hash` = H([dict, work]). */
  function BatchHash(c: Crypto.Primitives, b: BatchDef): Raw
  {
    c.hash([IngredientsHash(c, b.ingredients), b.work])
  }

  /** `ItemDef::item_key`: the key stored under the item's index; the `HashMap` index panics if it is absent. */
  function ItemKey(d: ItemDef): (r: Raw)
    requires d.index in d.batch.ingredients.keys
    ensures (d.index, r) in d.batch.ingredients.keys.Items
  {
    d.batch.ingredients.keys[d.index]
  }

  /** `ItemDef::item_hash` = H([batch_hash, H(index)]). */
  function ItemHash(c: Crypto.Primitives, d: ItemDef): Raw
  {
    c.hash([BatchHash(c, d.batch), c.keyHash(d.index)])
  }

  /** `ItemDef::nullifier` = H([item_hash, "consumed item external nullifier"]). */
  function ItemNullifier(c: Crypto.Primitives, d: ItemDef): Raw
  {
    c.hash([ItemHash(c, d), c.strValue(CONSUMED_ITEM_EXTERNAL_NULLIFIER)])
  }

  /** The nullifier `st_nullifiers` and the `Nullifiers` predicate compute from an item's key. */
  function KeyNullifier(c: Crypto.Primitives, key: Raw): Raw
  {
    c.hash([key, c.strValue(CONSUMED_ITEM_EXTERNAL_NULLIFIER)])
  }

  /**
   * An application entry named "inputs" or "keys" replaces the committed one, so the
   * dictionary no longer depends on the committed inputs (or keys) at all.
   */
  lemma AppLayerOverrides(c: Crypto.Primitives, ing: IngredientsDef, k: string)
    requires k in ing.appLayer
    ensures Dict(c, ing)[k] == ing.appLayer[k]
    ensures k == "inputs" ==> forall other: set<Raw> :: Dict(c, ing.(inputs := other)) == Dict(c, ing)
    ensures k == "keys" ==> forall other: map<string, Raw> :: Dict(c, ing.(keys := other)) == Dict(c, ing)
  {
  }

  /**
   * Items of one batch share the first hash input and differ only in the index: two of them
   * have the same id when their index hashes agree, and different ids for different indices
   * whenever the hash tells [batch, H(i)] and [batch, H(j)] apart.
   */
  lemma SameBatchItems(c: Crypto.Primitives, b: BatchDef, i: string, j: string)
    ensures c.keyHash(i) == c.keyHash(j) ==> ItemHash(c, ItemDef(b, i)) == ItemHash(c, ItemDef(b, j))
    ensures (c.hash([BatchHash(c, b), c.keyHash(i)]) != c.hash([BatchHash(c, b), c.keyHash(j)]))
              ==> ItemHash(c, ItemDef(b, i)) != ItemHash(c, ItemDef(b, j)) && i != j
  {
  }

  /**
   * `ItemDef::nullifier` is not the nullifier the predicates publish: where the hash tells the
   * two inputs apart, they agree only if the item's key equals its item hash.
   */
  lemma NullifierKinds(c: Crypto.Primitives, d: ItemDef)
    requires d.index in d.batch.ingredients.keys
    requires ItemHash(c, d) != ItemKey(d) ==>
               c.hash([ItemHash(c, d), c.strValue(CONSUMED_ITEM_EXTERNAL_NULLIFIER)])
               != c.hash([ItemKey(d), c.strValue(CONSUMED_ITEM_EXTERNAL_NULLIFIER)])
    ensures ItemNullifier(c, d) == KeyNullifier(c, ItemKey(d)) <==> ItemHash(c, d) == ItemKey(d)
  {
  }
}
