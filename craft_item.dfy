/**
 * `craftlib/src/item.rs`: the older item derivation, in which the ingredients carry a single
 * key next to a blueprint and a seed, and an item is named by H([dict, work]) directly.
 *
 * The nullifier constant is the one `commitlib` defines (`Commit.CONSUMED_ITEM_EXTERNAL_NULLIFIER`).
 */
module CraftItem {
  import opened Goldilocks
  import Crypto
  import Commit

  /** `IngredientsDef` of `craftlib`. */
  datatype IngredientsDef = IngredientsDef(inputs: set<Raw>, key: Raw, blueprint: string, seed: Raw)

  /** `ItemDef` of `craftlib`. */
  datatype ItemDef = ItemDef(ingredients: IngredientsDef, work: Raw)

  /** `IngredientsDef::dict`: exactly the four entries inputs, key, blueprint and seed. */
  function Dict(c: Crypto.Primitives, ing: IngredientsDef): map<string, Raw>
  {
    map["inputs" := c.setRoot(ing.inputs), "key" := ing.key, "blueprint" := c.strValue(ing.blueprint), "seed" := ing.seed]
  }

  /** `IngredientsDef::hash`: the commitment of the dictionary. */
  function IngredientsHash(c: Crypto.Primitives, ing: IngredientsDef): Raw
  {
    c.dictRoot(Dict(c, ing))
  }

  /** `ItemDef::item_hash` = H([dict, work]). */
  function ItemHash(c: Crypto.Primitives, d: ItemDef): Raw
  {
    c.hash([IngredientsHash(c, d.ingredients), d.work])
  }

  /** `ItemDef::nullifier` = H([item_hash, "consumed item external nullifier"]). */
  function Nullifier(c: Crypto.Primitives, d: ItemDef): Raw
  {
    c.hash([ItemHash(c, d), c.strValue(Commit.CONSUMED_ITEM_EXTERNAL_NULLIFIER)])
  }

  /**
   * The dictionary fixes every committed field: two ingredient definitions with the same
   * dictionary have the same key and seed, and their inputs and blueprints have the same raw values.
   */
  lemma DictDeterminesFields(c: Crypto.Primitives, a: IngredientsDef, b: IngredientsDef)
    requires Dict(c, a) == Dict(c, b)
    ensures a.key == b.key && a.seed == b.seed
    ensures c.setRoot(a.inputs) == c.setRoot(b.inputs) && c.strValue(a.blueprint) == c.strValue(b.blueprint)
  {
    assert Dict(c, a)["key"] == Dict(c, b)["key"];
    assert Dict(c, a)["seed"] == Dict(c, b)["seed"];
    assert Dict(c, a)["inputs"] == Dict(c, b)["inputs"];
    assert Dict(c, a)["blueprint"] == Dict(c, b)["blueprint"];
  }

  /**
   * The older dictionary never equals a `commitlib` ingredients dictionary, which always has a
   * "keys" entry: an older item hash H([dict, work]) and a newer batch hash are computed over
   * different dictionaries.
   */
  lemma DictDiffersFromCommit(c: Crypto.Primitives, older: IngredientsDef, newer: Commit.IngredientsDef)
    ensures Dict(c, older) != Commit.Dict(c, newer)
  {
    assert "keys" in Commit.Dict(c, newer);
    assert "keys" !in Dict(c, older);
  }

  /**
   * The older nullifier is a function of the item hash alone, as `commitlib`'s `ItemDef::nullifier`
   * is: the two agree whenever the item hashes do.
   */
  lemma NullifierFollowsItemHash(c: Crypto.Primitives, d: ItemDef, e: Commit.ItemDef)
    requires ItemHash(c, d) == Commit.ItemHash(c, e)
    ensures Nullifier(c, d) == Commit.ItemNullifier(c, e)
  {
  }
}
