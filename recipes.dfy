/**
 * `app_cli/src/lib.rs`: the command-line recipes. A recipe has a name, a production type
 * and an arity. `craft_item` turns a recipe and its inputs into the item definitions to
 * prove. `destroy_item` moves an item's file into a `used` directory next to it.
 */
module Recipes {
  import opened Goldilocks
  import opened Results
  import Crypto
  import Commit

  // ---------------------------------------------------------------- recipes and their names

  datatype Recipe = Stone | Wood | Axe | WoodenAxe | DustGem

  datatype ProductionType = Mine | Craft | Disassemble

  /** The position of a recipe in its declaration. */
  function Rank(r: Recipe): nat
  {
    match r
    case Stone => 0
    case Wood => 1
    case Axe => 2
    case WoodenAxe => 3
    case DustGem => 4
  }

  /** `Recipe::list`: the recipes offered to the user, in declaration order; DustGem is not offered. */
  function List(): (r: seq<Recipe>)
    ensures |r| == 4
    ensures forall i, j :: 0 <= i < j < |r| ==> Rank(r[i]) < Rank(r[j])
  {
    [Stone, Wood, Axe, WoodenAxe]
  }

  /** `Recipe::list` offers every recipe but DustGem. */
  lemma ListOmitsOnlyDustGem(x: Recipe)
    ensures x in List() <==> x != DustGem
  {
    var l := List();
    match x
    case Stone => assert l[0] == x;
    case Wood => assert l[1] == x;
    case Axe => assert l[2] == x;
    case WoodenAxe => assert l[3] == x;
    case DustGem => assert forall i :: 0 <= i < |l| ==> Rank(l[i]) < 4;
  }

  /** `Recipe::fmt`. */
  function Name(r: Recipe): string
  {
    match r
    case Stone => "stone"
    case Wood => "wood"
    case Axe => "axe"
    case WoodenAxe => "wooden-axe"
    case DustGem => "dust-gem"
  }

  /** `Recipe::from_str`: the five names, and an error naming anything else. */
  function Parse(s: string): (r: Result<Recipe, string>)
    ensures r.Err? ==> r.error == "unknown recipe " + s
  {
    match s
    case "stone" => Ok(Stone)
    case "wood" => Ok(Wood)
    case "axe" => Ok(Axe)
    case "wooden-axe" => Ok(WoodenAxe)
    case "dust-gem" => Ok(DustGem)
    case _ => Err("unknown recipe " + s)
  }

  /** Printing a recipe and parsing the text gives the recipe back. */
  lemma ParseName(r: Recipe)
    ensures Parse(Name(r)) == Ok(r)
  {
  }

  /** `from_str` accepts exactly the printed names, and what it accepts prints back to the same text. */
  lemma ParseAcceptsOnlyNames(s: string)
    ensures Parse(s).Ok? <==> exists r :: Name(r) == s
    ensures Parse(s).Ok? ==> Name(Parse(s).value) == s
  {
    if Parse(s).Err? {
      forall r ensures Name(r) != s {
        ParseName(r);
      }
    } else {
      match Parse(s).value {
        case Stone => assert s == "stone";
        case Wood => assert s == "wood";
        case Axe => assert s == "axe";
        case WoodenAxe => assert s == "wooden-axe";
        case DustGem => assert s == "dust-gem";
      }
      assert Name(Parse(s).value) == s;
    }
  }

  /** `ProductionType::fmt`. */
  function ProductionName(p: ProductionType): (r: string)
    ensures r in {"Mine", "Craft", "Disassemble"}
  {
    match p
    case Mine => "Mine"
    case Craft => "Craft"
    case Disassemble => "Disassemble"
  }

  /** The three production types print differently. */
  lemma ProductionNamesDistinct(p: ProductionType, q: ProductionType)
    ensures ProductionName(p) == ProductionName(q) <==> p == q
  {
  }

  /** `Recipe::production_type`. */
  function Production(r: Recipe): ProductionType
  {
    match r
    case Stone => Mine
    case Wood => Mine
    case Axe => Craft
    case WoodenAxe => Craft
    case DustGem => Disassemble
  }

  // ---------------------------------------------------------------- craft_item: arity and item definitions

  /** The number of input items `craft_item` accepts for a recipe. */
  function Arity(r: Recipe): nat
  {
    if r == Stone || r == Wood then 0 else 2
  }

  /** The number of item definitions `craft_item` builds for a recipe. */
  function OutputCount(r: Recipe): nat
  {
    if r == DustGem then 2 else 1
  }

  /**
   * The production type says how a recipe uses items: mining takes none and makes one,
   * crafting takes two and makes one, disassembling takes two and makes two.
   */
  lemma ProductionShape(r: Recipe)
    ensures Production(r) == Mine <==> Arity(r) == 0
    ensures Production(r) == Disassemble <==> OutputCount(r) == 2
    ensures Production(r) == Craft <==> Arity(r) == 2 && OutputCount(r) == 1
  {
  }

  /** The blueprints, mining maxima and work values the recipes use. */
  datatype RecipeConstants = RecipeConstants(
    stoneBlueprint: string, woodBlueprint: string, axeBlueprint: string,
    woodenAxeBlueprint: string, dustBlueprint: string, gemBlueprint: string,
    stoneMiningMax: nat, woodMiningMax: nat, axeMiningMax: nat, woodenAxeMiningMax: nat, dustMiningMax: nat,
    stoneWorkCost: nat, woodWork: Raw, axeWork: Raw, woodenAxeWork: Raw, dustWork: Raw)

  /** The blueprint mined for a recipe; a dust-gem batch is mined as "dust+gem". */
  function BlueprintOf(k: RecipeConstants, r: Recipe): string
  {
    match r
    case Stone => k.stoneBlueprint
    case Wood => k.woodBlueprint
    case Axe => k.axeBlueprint
    case WoodenAxe => k.woodenAxeBlueprint
    case DustGem => k.dustBlueprint + "+" + k.gemBlueprint
  }

  /** The mining maximum for a recipe; dust-gem uses the dust one. */
  function MiningMaxOf(k: RecipeConstants, r: Recipe): nat
  {
    match r
    case Stone => k.stoneMiningMax
    case Wood => k.woodMiningMax
    case Axe => k.axeMiningMax
    case WoodenAxe => k.woodenAxeMiningMax
    case DustGem => k.dustMiningMax
  }

  /** The keys dictionary: one key under the recipe name, or the dust and gem keys. */
  function KeysFor(k: RecipeConstants, r: Recipe, key: Raw, keyDust: Raw, keyGem: Raw): map<string, Raw>
  {
    if r == DustGem then map[k.dustBlueprint := keyDust, k.gemBlueprint := keyGem]
    else map[Name(r) := key]
  }

  /** The indices of the items `craft_item` defines, in order. */
  function IndicesFor(k: RecipeConstants, r: Recipe): (r': seq<string>)
    ensures |r'| == OutputCount(r)
  {
    if r == DustGem then [k.dustBlueprint, k.gemBlueprint] else [Name(r)]
  }

  /** The sequential work of the batch: the Vdf output on the ingredients root for a stone, a constant otherwise. */
  function WorkOf(c: Crypto.Primitives, k: RecipeConstants, r: Recipe, ing: Commit.IngredientsDef): Raw
  {
    match r
    case Stone => Crypto.Iterate(c, k.stoneWorkCost, Commit.IngredientsHash(c, ing))
    case Wood => k.woodWork
    case Axe => k.axeWork
    case WoodenAxe => k.woodenAxeWork
    case DustGem => k.dustWork
  }

  /** The error `craft_item` bails with for a wrong number of inputs. */
  function ArityError(r: Recipe): string
  {
    Name(r) + (if Arity(r) == 0 then " takes 0 inputs" else " takes 2 inputs")
  }

  /**
   * The item definitions `craft_item` builds. `inputHashes` are the item hashes of the
   * loaded input items, in the order given; `mine` is the miner, which searches for
   * ingredients whose root meets the maximum.
   */
  function CraftItemDefs(c: Crypto.Primitives, k: RecipeConstants,
                         mine: (string, seq<Raw>, map<string, Raw>, nat) -> Commit.IngredientsDef,
                         r: Recipe, inputHashes: seq<Raw>, key: Raw, keyDust: Raw, keyGem: Raw)
    : (res: Result<seq<Commit.ItemDef>, string>)
    ensures res.Err? <==> |inputHashes| != Arity(r)
    ensures res.Err? ==> res.error == ArityError(r)
    ensures res.Ok? ==> |res.value| == OutputCount(r)
    ensures res.Ok? ==> forall i :: 0 <= i < |res.value| ==> res.value[i].index == IndicesFor(k, r)[i]
  {
    if |inputHashes| != Arity(r) then Err(ArityError(r))
    else
      var ingredients := mine(BlueprintOf(k, r), inputHashes, KeysFor(k, r, key, keyDust, keyGem), MiningMaxOf(k, r));
      var batch := Commit.BatchDef(ingredients, WorkOf(c, k, r, ingredients));
      if r == DustGem then Ok([Commit.ItemDef(batch, k.dustBlueprint), Commit.ItemDef(batch, k.gemBlueprint)])
      else Ok([Commit.ItemDef(batch, Name(r))])
  }

  /**
   * All items `craft_item` defines belong to one mined batch, and each index names exactly
   * one of the keys handed to the miner (two keys when the dust and gem blueprints differ).
   */
  lemma CraftItemDefsShareBatch(c: Crypto.Primitives, k: RecipeConstants,
                                mine: (string, seq<Raw>, map<string, Raw>, nat) -> Commit.IngredientsDef,
                                r: Recipe, inputHashes: seq<Raw>, key: Raw, keyDust: Raw, keyGem: Raw)
    requires |inputHashes| == Arity(r)
    ensures var res := CraftItemDefs(c, k, mine, r, inputHashes, key, keyDust, keyGem);
            var keys := KeysFor(k, r, key, keyDust, keyGem);
            && res.Ok?
            && (forall i :: 0 <= i < |res.value| ==> res.value[i].batch == res.value[0].batch)
            && res.value[0].batch.ingredients == mine(BlueprintOf(k, r), inputHashes, keys, MiningMaxOf(k, r))
            && res.value[0].batch.work == WorkOf(c, k, r, res.value[0].batch.ingredients)
            && keys.Keys == set i | 0 <= i < |res.value| :: res.value[i].index
  {
    var res := CraftItemDefs(c, k, mine, r, inputHashes, key, keyDust, keyGem);
    if r == DustGem {
      assert res.value[0].index == k.dustBlueprint && res.value[1].index == k.gemBlueprint;
    } else {
      assert res.value[0].index == Name(r);
    }
  }

  /** A stone's batch work is the stone work cost of hash iterations on its ingredients root. */
  lemma StoneWork(c: Crypto.Primitives, k: RecipeConstants,
                  mine: (string, seq<Raw>, map<string, Raw>, nat) -> Commit.IngredientsDef, key: Raw)
    ensures var res := CraftItemDefs(c, k, mine, Stone, [], key, key, key);
            res.Ok? && res.value[0].batch.work == Crypto.Iterate(c, k.stoneWorkCost, Commit.IngredientsHash(c, res.value[0].batch.ingredients))
  {
  }

  // ---------------------------------------------------------------- destroy_item: the target path

  /**
   * A path as its components: a file or directory name each, none of them empty and none
   * containing '/'; "." does not occur, ".." may.
   */
  datatype Path = Path(absolute: bool, components: seq<string>)

  ghost predicate WellFormed(p: Path)
  {
    forall i :: 0 <= i < |p.components| ==> p.components[i] != "" && p.components[i] != "." && '/' !in p.components[i]
  }

  /** `Path::file_name`: the last component, unless the path has none or ends in "..". */
  function FileName(p: Path): (r: Option<string>)
    ensures r.Some? <==> |p.components| > 0 && p.components[|p.components| - 1] != ".."
    ensures WellFormed(p) && r.Some? ==> r.value != "" && r.value != "." && '/' !in r.value
  {
    if |p.components| == 0 || p.components[|p.components| - 1] == ".." then None
    else Some(p.components[|p.components| - 1])
  }

  /** `Path::parent`: the path without its last component; "/" and the empty path have none. */
  function Parent(p: Path): (r: Option<Path>)
    ensures r.Some? <==> |p.components| > 0
    ensures r.Some? ==> r.value.absolute == p.absolute && r.value.components + [p.components[|p.components| - 1]] == p.components
    ensures WellFormed(p) && r.Some? ==> WellFormed(r.value)
  {
    if |p.components| == 0 then None else Some(Path(p.absolute, p.components[..|p.components| - 1]))
  }

  /** The components joined by '/'. */
  function JoinComponents(cs: seq<string>): string
  {
    if |cs| == 0 then "" else if |cs| == 1 then cs[0] else cs[0] + "/" + JoinComponents(cs[1..])
  }

  /** `Path::display`. */
  function Display(p: Path): string
  {
    (if p.absolute then "/" else "") + JoinComponents(p.components)
  }

  /** The used-items directory name. */
  const USED_ITEM_SUBDIR_NAME: string := "used"

  /** The error `destroy_item` returns when the path names no file. */
  function NotAFile(p: Path): string
  {
    "Item at " + Display(p) + " is not a file."
  }

  /** The target `destroy_item` renames the item to, as written: the text "{parent}/used/{name}". */
  function DestroyTargetAsWritten(p: Path): (r: Result<string, string>)
    ensures r.Err? <==> FileName(p).None?
    ensures r.Err? ==> r.error == NotAFile(p)
  {
    match (FileName(p), Parent(p))
    case (Some(name), Some(parent)) => Ok(Display(parent) + "/" + USED_ITEM_SUBDIR_NAME + "/" + name)
    case _ => Err(NotAFile(p))
  }

  /** The evidently intended target: `parent.join("used").join(name)`, the `used` directory next to the item. */
  function DestroyTarget(p: Path): (r: Result<Path, string>)
    ensures r.Err? <==> FileName(p).None?
    ensures r.Err? ==> r.error == NotAFile(p)
  {
    match (FileName(p), Parent(p))
    case (Some(name), Some(parent)) => Ok(Path(parent.absolute, parent.components + [USED_ITEM_SUBDIR_NAME, name]))
    case _ => Err(NotAFile(p))
  }

  /** The corrected target keeps the item's directory and name, and lies below the item's own directory. */
  lemma DestroyTargetNextToItem(p: Path)
    requires FileName(p).Some?
    ensures DestroyTarget(p).Ok?
    ensures var t := DestroyTarget(p).value;
            && t.absolute == p.absolute
            && |t.components| == |p.components| + 1
            && t.components[..|p.components| - 1] == p.components[..|p.components| - 1]
            && t.components[|p.components| - 1] == USED_ITEM_SUBDIR_NAME
            && t.components[|p.components|] == p.components[|p.components| - 1]
            && FileName(t) == FileName(p)
  {
  }

  /** Joining one more component after a non-empty list adds "/" and the component to the text. */
  lemma {:induction false} JoinSnoc(cs: seq<string>, x: string)
    requires |cs| > 0
    ensures JoinComponents(cs + [x]) == JoinComponents(cs) + "/" + x
    decreases |cs|
  {
    if |cs| == 1 {
      assert cs + [x] == [cs[0], x];
      assert (cs + [x])[1..] == [x];
    } else {
      assert (cs + [x])[1..] == cs[1..] + [x];
      JoinSnoc(cs[1..], x);
    }
  }

  /** Where the item has a non-empty parent, the text as written is the intended path. */
  lemma DestroyTargetAgrees(p: Path)
    requires FileName(p).Some? && |p.components| >= 2
    ensures DestroyTargetAsWritten(p) == Ok(Display(DestroyTarget(p).value))
  {
    var parent := Parent(p).value;
    var name := FileName(p).value;
    assert DestroyTarget(p) == Ok(Path(p.absolute, parent.components + [USED_ITEM_SUBDIR_NAME, name]));
    assert DestroyTargetAsWritten(p) == Ok(Display(parent) + "/" + USED_ITEM_SUBDIR_NAME + "/" + name);
    JoinSnoc(parent.components, USED_ITEM_SUBDIR_NAME);
    JoinSnoc(parent.components + [USED_ITEM_SUBDIR_NAME], name);
    assert parent.components + [USED_ITEM_SUBDIR_NAME, name] == parent.components + [USED_ITEM_SUBDIR_NAME] + [name];
    var prefix := if p.absolute then "/" else "";
    calc {
      Display(DestroyTarget(p).value);
      prefix + JoinComponents(parent.components + [USED_ITEM_SUBDIR_NAME] + [name]);
      prefix + (JoinComponents(parent.components) + "/" + USED_ITEM_SUBDIR_NAME + "/" + name);
      Display(parent) + "/" + USED_ITEM_SUBDIR_NAME + "/" + name;
    }
  }

  /** A bare relative file name, as a user passes for an item in the working directory. */
  const BARE_ITEM: Path := Path(false, ["item.json"])

  /** For a relative path with no directory the text as written is the absolute "/used/item.json". */
  lemma DestroyBareNameGoesToRoot()
    ensures DestroyTargetAsWritten(BARE_ITEM) == Ok("/used/item.json")
    ensures DestroyTarget(BARE_ITEM) == Ok(Path(false, ["used", "item.json"]))
    ensures Display(DestroyTarget(BARE_ITEM).value) == "used/item.json"
  {
    assert FileName(BARE_ITEM) == Some("item.json");
    assert Parent(BARE_ITEM) == Some(Path(false, []));
    assert Display(Path(false, [])) == "";
    assert DestroyTargetAsWritten(BARE_ITEM) == Ok("" + "/" + USED_ITEM_SUBDIR_NAME + "/" + "item.json");
    assert "" + "/" + USED_ITEM_SUBDIR_NAME + "/" + "item.json" == "/used/item.json";
    assert [] + [USED_ITEM_SUBDIR_NAME, "item.json"] == ["used", "item.json"];
    assert JoinComponents(["used", "item.json"]) == "used" + "/" + JoinComponents(["item.json"]);
  }
}
