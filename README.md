# Digital objects end to end: a Dafny model

This project models the core of a proof of concept for provable digital objects. Items are
crafted off-chain, and every crafting step is committed to Ethereum as a
zero-knowledge proof. A synchronizer node reads the committed payloads from EIP-4844 blobs
and keeps an append-only ledger:

- a set of created items;
- a set of nullifiers of consumed items;
- a history of created-items roots, one per accepted payload.

The model covers:

- **Ledger** (`ledger.dfy`, `node.dfy`, `endpoints.dfy`, `simple_blob.dfy`): the
  synchronizer's node as a state machine.
  - `Node` is a class whose methods apply the four checks of `process_do_blob` and then its
    insert-and-append step. Its values are tied to a pure transition function `Ledger.Process`.
  - Invariants of runs of that function: unique items, nullifiers accepted once, and
    `|roots| == epoch + 1` with an append-only history.
  - The read lookups behind the HTTP handlers.
  - The blob directory names and `validate_blobs`.
  - The "simple" blob byte extraction with its encoding partner.
- **Item commitments** (`commit.dfy`, `commit_predicates.dfy`, `item_builder.dfy`,
  `craft_item.dfy`): how a batch, an item and a nullifier are identified by hashing.
  - The on-ledger PODLang predicates (`SubsetOf`, `Nullifiers`, `AllItemsInBatch`,
    `CommitCreation`, ...) are read as recursive predicates over finite sets, each proved
    equal to a plain set statement.
  - The `ItemBuilder` folds that build their statements.
  - The older item derivation of `craftlib`.
- **Recipes** (`craft_predicates.dfy`, `recipes.dfy`): the recipe predicates IsStone, IsWood,
  IsAxe and IsWoodenAxe together with the difficulty literal they embed. The command-line
  recipe names, production types, item definitions and destroy target.
- **Sequential work and proof of work** (`vdf.dfy`, `pow.dfy`, `pow_pod.dfy`, `intro_pod.dfy`):
  - the step constraints of the recursive hash-chain circuits;
  - the witness loops that drive them;
  - the public-input layouts;
  - the statements-hash check of `verify`;
  - the in-circuit difficulty comparison of the proof-of-work pod over the Goldilocks field
    p = 2^64 - 2^32 + 1 (`goldilocks.dfy`).
- **Codecs** (`payload.dfy`, `bytes.dfy`, `common.dfy`): the payload byte format, with a
  writer over a growing buffer and a reader over a byte cursor; the proof-type tags; and
  `set_from_value`.
- **Predicate lookups** (`predicate_defs.dfy`, `pod2lib_macros.dfy`): building the predicate
  batches of `PredicateDefs::new`, and the first-match lookups by name.

Hashing and the Merkle commitments of sets and dictionaries are modelled as uninterpreted
functions, gathered in `Crypto.Primitives`:

- `hash` over a sequence of raw values;
- `setRoot`;
- `dictRoot`;
- `keyHash`, the hash of a key;
- `strValue`, the raw value of a string.

Every lemma that needs two hashes to differ states that as a precondition about those two
particular values. A set or dictionary is identified with its contents. This is the
binding property of the commitments.

Proof verification and proving are likewise predicates passed in as parameters: the plonky2
verifier, the circuit satisfiability a prover needs, and the compressed-proof codec.

## Model

| member | source | states |
|---|---|---|
| Goldilocks.Add | craftlib/src/pow.rs:446-447 | field addition: a + b when that is below p, else a + b - p |
| Goldilocks.Sub | craftlib/src/powpod.rs:369 | field subtraction `builder.sub`: a - b without wrap, p - (b - a) with wrap, and the result r satisfies r + b = a in the field |
| Bytes.FromToLE | common/src/payload.rs:15-36 | reading back the little-endian bytes of a word that fits gives the word |
| Bytes.ToFromLE | common/src/payload.rs:15-36 | writing back the word read from little-endian bytes gives the same bytes |
| Bytes.ToLEInjective | common/src/payload.rs:18 | distinct words that fit have distinct little-endian encodings |
| Bytes.FromToBE | synchronizer/src/lib.rs:23 | reading back the big-endian bytes of a word that fits gives the word |
| Common.ProofTypeFromStr | common/src/lib.rs:50-60 | "plonky2" and "groth16" are accepted as the two proof types, every other string is an error |
| Common.FromByte | common/src/lib.rs:63-69 | bytes 0 and 1 are accepted and every byte of 2 or more is an error; an accepted byte is the tag of the proof type it gives |
| Common.TagRoundTrip | common/src/lib.rs:63-75 | `from_byte(to_byte(t)) == t`, and the two tags differ |
| Common.SetFromValue | common/src/lib.rs:78-83 | Ok exactly for a set value, giving its members; an error for every other kind of value |
| Commit.Dict | commitlib/src/lib.rs:32-46 | the ingredients dictionary has the keys "inputs", "keys" and the application keys; application entries win, and "inputs"/"keys" hold the inputs set root and keys dictionary root unless replaced |
| Commit.AppLayerOverrides | commitlib/src/lib.rs:42-44 | an application entry named "inputs" or "keys" replaces the committed one |
| Commit.ItemKey | commitlib/src/lib.rs:85-87 | `item_key` is the key stored under the item's index (the index must be in the keys) |
| Commit.SameBatchItems | commitlib/src/lib.rs:89-94 | items of one batch differ only in the index component of the item hash |
| Commit.NullifierKinds | commitlib/src/lib.rs:96-101 | `ItemDef::nullifier` (over the item hash) and the published nullifier (over the key) agree only when the item's key equals its item hash |
| CommitPredicates.SubsetOfIff | commitlib/src/predicates.rs:39-48 | the recursive `SubsetOf` holds exactly when sub is a subset of super |
| CommitPredicates.DerivedItemDef | commitlib/src/predicates.rs:57-81 | every item the Rust derivation defines satisfies `ItemDef`, `ItemKey` and `ItemInBatch` with its item hash and key, as long as the application layer does not replace "inputs" or "keys" |
| CommitPredicates.NullifiersUnfold | commitlib/src/predicates.rs:122-139 | a non-empty `Nullifiers` proof peels into one recursive step over strictly smaller sets that again satisfy `Nullifiers` |
| CommitPredicates.NullifiersCount | commitlib/src/predicates.rs:122-139 | `Nullifiers` proves as many nullifiers as inputs |
| CommitPredicates.NullifiersCoverInputs | commitlib/src/predicates.rs:132-139 | under `Nullifiers`, every input is proved to carry a key whose nullifier is in the set |
| CommitPredicates.NullifiersFromInputs | commitlib/src/predicates.rs:132-139 | under `Nullifiers`, every nullifier is the nullifier of the key of some input |
| CommitPredicates.NullifiersInsert | commitlib/src/predicates.rs:132-139 | a new input proved to carry a key, with a new nullifier, extends a `Nullifiers` proof |
| CommitPredicates.NullifiersOfNothing | commitlib/src/predicates.rs:127-130 | two empty sets satisfy `Nullifiers` |
| CommitPredicates.AllItemsInBatchSound | commitlib/src/predicates.rs:89-109 | the recursive `AllItemsInBatch` holds only for the set of the batch's item ids H([batch, H(index)]) over the keys, with as many items as keys |
| CommitPredicates.AllItemsInBatchComplete | commitlib/src/predicates.rs:89-109 | every batch whose indices give distinct ids has its item set proved by `AllItemsInBatch` |
| CommitPredicates.AllItemsInBatchInsert | commitlib/src/predicates.rs:100-109 | a new index with a new item id extends an `AllItemsInBatch` proof |
| CommitPredicates.AllItemsInBatchAsWrittenAdmitsJunk | commitlib/src/predicates.rs:100-109 | the recursive case as written (with no recursive conjunct) accepts one real item plus an arbitrary value, which the recursive form refuses |
| CommitPredicates.CommitCreationMeaning | commitlib/src/predicates.rs:151-164 | a valid `CommitCreation` exposes the nullifiers of as many inputs, all among `created_items`, each proved to carry the key its nullifier is computed from |
| CommitPredicates.CommitCreationIgnoresItem | commitlib/src/predicates.rs:151-164 | the body never constrains the public `item`: a proof for one item is a proof for any other |
| CommitPredicates.CommitCreationCorrectedMeaning | commitlib/src/predicates.rs:151-164 | with `SetContains(items, item)` added, a valid proof puts the public item among the items of a defined batch whose inputs are all created, with one nullifier per input |
| CommitPredicates.ItemKeySound | commitlib/src/predicates.rs:115-117 | a valid `ItemKey(item, key)` exhibits an item definition, its index among the batch keys, with that item id and that key |
| CommitPredicates.NullifiersBindDerivedKeys | commitlib/src/predicates.rs:132-139 | under `Nullifiers`, every input is the id of some item definition whose own key's nullifier is in the set |
| CommitPredicates.ItemKeyAsWrittenIff | commitlib/src/predicates.rs:57-81 | read as written (undeclared names free, `key` unused), `ItemKey(item, key)` holds for every key exactly when item has the shape H([batch, H(index)]) |
| CommitPredicates.DerivedItemAnyKeyAsWritten | commitlib/src/predicates.rs:115-117 | as written, every derived item id passes `ItemKey` with any key at all |
| CommitPredicates.NullifiersAsWrittenTagged | commitlib/src/predicates.rs:132-139 | as written, every nullifier is H([key, "{CONSUMED_ITEM_EXTERNAL_NULLIFIER}"]) for some key: the tag is the literal text, not the constant |
| CommitPredicates.NullifiersAsWrittenTwoKeys | commitlib/src/predicates.rs:132-139 | as written, one input is proved under two different nullifier sets, one per key |
| ItemBuilder.SuperSubSetOf | commitlib/src/lib.rs:125-173 | `st_super_sub_set` succeeds exactly when every input was created, with recursion depth equal to the number of inputs, and its statement satisfies `SubsetOf` |
| ItemBuilder.StNullifiers | commitlib/src/lib.rs:297-348 | the fold succeeds exactly when the statements have pairwise distinct items and nullifiers; the sets are then the items and the key nullifiers, and they satisfy `Nullifiers` |
| ItemBuilder.InputsOfMembers | commitlib/src/lib.rs:315-329 | the inputs of the fold are exactly the statements' items |
| ItemBuilder.NullifiersOfMembers | commitlib/src/lib.rs:315-329 | the nullifiers of the fold are exactly H([key, CONSUMED]) of the statements' keys |
| ItemBuilder.DistinctPairwise | commitlib/src/lib.rs:326-329 | the fold fails exactly when two statements share an input or a nullifier |
| ItemBuilder.DistinctPrefix | commitlib/src/lib.rs:315-345 | a prefix of a list that folds without failure also folds without failure |
| ItemBuilder.DistinctCount | commitlib/src/lib.rs:315-345 | a successful fold has as many inputs and as many nullifiers as statements |
| ItemBuilder.NoStatements | commitlib/src/lib.rs:302-313 | an empty list gives two empty sets |
| ItemBuilder.StAllItemsInBatch | commitlib/src/lib.rs:233-285 | the fold succeeds exactly when the batch's item ids are distinct; the rebuilt dictionary is then the batch keys, the set holds the batch's items, and the pair satisfies `AllItemsInBatch` |
| ItemBuilder.KeysAlongMembers | commitlib/src/lib.rs:251-261 | the next index of the enumeration is not yet in the rebuilt dictionary, so `keys.insert` cannot fail |
| ItemBuilder.KeysAlongDomain | commitlib/src/lib.rs:251-261 | the rebuilt dictionary holds exactly the listed indices, each with the batch's key |
| ItemBuilder.FreshAlongPrefix | commitlib/src/lib.rs:251-282 | a prefix of an order that folds without failure folds without failure |
| ItemBuilder.ItemsAlongMembers | commitlib/src/lib.rs:258-264 | the ids of the fold are exactly H([batch, H(index)]) of the listed indices |
| ItemBuilder.FreshAlongPairwise | commitlib/src/lib.rs:263-264 | the fold succeeds exactly when no two listed indices give the same id |
| ItemBuilder.FreshAlongIff | commitlib/src/lib.rs:233-285 | over an enumeration of the keys, the fold succeeds exactly when the batch's ids are distinct, and rebuilds both the keys and the batch's item set |
| ItemBuilder.StCommitCreation | commitlib/src/lib.rs:353-376 | `st_commit_creation` succeeds exactly when the batch inputs are created items, and then `CommitCreation` holds for the nullifiers and created items, and its corrected form holds for every item of the batch |
| ItemBuilder.StNullifiersAsWrittenFails | commitlib/src/predicates.rs:112-140 | when no hash with the literal tag equals the first statement's nullifier, the sets `st_nullifiers` builds fail the predicate as written |
| CraftItem.DictDeterminesFields | craftlib/src/item.rs:28-39 | the dictionary, and so the ingredients hash, fixes the key, seed, inputs root and blueprint value |
| CraftItem.DictDiffersFromCommit | craftlib/src/item.rs:28-35 | the older dictionary never equals a commitlib ingredients dictionary, which always has a "keys" entry |
| CraftItem.NullifierFollowsItemHash | craftlib/src/item.rs:54-66 | the older nullifier is a function of the item hash alone, agreeing with commitlib's `ItemDef::nullifier` on equal item hashes |
| CraftPredicates.Pow16Is64Bits | craftlib/src/predicates.rs:14 | sixteen hexadecimal digits hold exactly the 64-bit words |
| CraftPredicates.Hex | craftlib/src/predicates.rs:14 | `{:016x}` writes exactly the requested number of digits |
| CraftPredicates.ParseHexOfHex | craftlib/src/predicates.rs:14 | the hexadecimal digits written for a number that fits read back as the number |
| CraftPredicates.HexDigitsLowercase | craftlib/src/predicates.rs:14 | the digits are lowercase hexadecimal digits |
| CraftPredicates.DifficultyToRawString | craftlib/src/predicates.rs:11-17 | the literal is "Raw(0x", 48 zero digits, the 16-digit difficulty, ")": 71 characters |
| CraftPredicates.DifficultyLiteralValue | craftlib/src/predicates.rs:11-17 | the literal of a canonical difficulty d denotes the raw value [d, 0, 0, 0], the argument the PoW pod publishes |
| CraftPredicates.PoWLiteralIff | craftlib/src/predicates.rs:52 | for a canonical maximum, the PoW statement with its literal holds exactly when hash[0] <= max |
| CraftPredicates.PoWLiteralAsWrittenAny | craftlib/src/powpod.rs:365-370 | the literal names the maximum, and with the PoW circuit as written the PoW statement holds for every hash |
| CraftPredicates.VdfThreeIff | craftlib/src/predicates.rs:53 | `Vdf(3, input, output)` holds exactly when output = H(H(H(input))) |
| CraftPredicates.IsStoneMeaning | craftlib/src/predicates.rs:48-54 | a stone is exactly a defined item with no inputs, blueprint "stone", ingredients root within the stone maximum, and work = H^3(root) |
| CraftPredicates.IsWoodMeaning | craftlib/src/predicates.rs:60-66 | a wood is exactly a defined item with no inputs, blueprint "wood", the wood maximum met and empty work |
| CraftPredicates.AxeInputsIff | craftlib/src/predicates.rs:74-82 | axe inputs are exactly a set of two distinct items, a wood and a stone |
| CraftPredicates.WoodenAxeInputsIff | craftlib/src/predicates.rs:95-103 | wooden-axe inputs are exactly a set of two distinct woods |
| CraftPredicates.IsAxeMeaning | craftlib/src/predicates.rs:85-92 | an axe is exactly a defined item with blueprint "axe", the axe maximum met, empty work and inputs a distinct wood and stone |
| CraftPredicates.IsWoodenAxeMeaning | craftlib/src/predicates.rs:106-112 | a wooden axe is exactly a defined item with blueprint "wooden-axe", empty work and inputs two distinct woods, with no proof of work |
| PredicateDefs.FirstIndex | pod2utils/src/lib.rs:63 | the per-batch lookup gives an index holding the name, before every other, and None exactly when the batch lacks the name |
| PredicateDefs.FirstMatchNone | pod2utils/src/lib.rs:61-70 | the lookup finds nothing exactly when no batch declares the name |
| PredicateDefs.FirstMatchSome | pod2utils/src/macros.rs:65-80 | a hit names one of the given batches and an in-bounds index holding the name, before every other in batch order and then index order |
| PredicateDefs.PredicateRefByName | pod2utils/src/lib.rs:61-70 | `predicate_ref_by_name` returns the first match over the batches |
| PredicateDefs.FindCustomPredByName | pod2utils/src/macros.rs:65-80 | the nested loops return the first match over the batches |
| Pod2LibMacros.FindCustomPredByName | pod2lib/src/macros.rs:73-88 | the duplicate in pod2lib returns the same first match |
| PredicateDefs.New | pod2utils/src/lib.rs:23-58 | `PredicateDefs::new` fails exactly when one of the codes fails to parse; otherwise it records the batches, their ids and the import lines |
| PredicateDefs.BatchesErrPersists | pod2utils/src/lib.rs:30-42 | once a code fails to parse, the whole construction fails with that error |
| PredicateDefs.BatchesInOrder | pod2utils/src/lib.rs:30-51 | one batch per code, in order; batch k is parsed behind the external imports and the import lines of batches before it, with the external batches and those batches in scope |
| PredicateDefs.ImportsOneLinePerBatch | pod2utils/src/lib.rs:44-48 | the imports gain exactly one line per batch when no name or id contains a newline |
| PredicateDefs.IsStoneFound | craftlib/src/predicates.rs:124-126 | the `unwrap` of the "IsStone" lookup cannot fail: it finds the first predicate of the first batch |
| Recipes.List | app_cli/src/lib.rs:101-105 | `list` offers four recipes in declaration order |
| Recipes.ListOmitsOnlyDustGem | app_cli/src/lib.rs:101-105 | `list` offers every recipe except DustGem |
| Recipes.Parse | app_cli/src/lib.rs:135-148 | an unknown string is an error naming it |
| Recipes.ParseName | app_cli/src/lib.rs:135-160 | printing a recipe and parsing the text gives the recipe back |
| Recipes.ParseAcceptsOnlyNames | app_cli/src/lib.rs:138-146 | `from_str` accepts exactly the five printed names, and what it accepts prints back to the same text |
| Recipes.ProductionName | app_cli/src/lib.rs:113-122 | a production type prints as Mine, Craft or Disassemble |
| Recipes.ProductionNamesDistinct | app_cli/src/lib.rs:113-122 | the three production types print differently |
| Recipes.ProductionShape | app_cli/src/lib.rs:124-134 | mining takes no items and makes one, crafting takes two and makes one, disassembling takes two and makes two |
| Recipes.IndicesFor | app_cli/src/lib.rs:383-384 | one index per output item |
| Recipes.CraftItemDefs | app_cli/src/lib.rs:375-489 | `craft_item` bails exactly when the number of inputs differs from the recipe's arity; otherwise it defines one item per output, with the recipe's indices |
| Recipes.CraftItemDefsShareBatch | app_cli/src/lib.rs:375-489 | all items defined share one mined batch, with the miner's ingredients and the recipe's work, and each index names exactly one key |
| Recipes.StoneWork | app_cli/src/lib.rs:397-404 | a stone's work is the stone work cost of hash iterations on its ingredients root |
| Recipes.FileName | app_cli/src/lib.rs:576-580 | `file_name` is the last component, none for an empty path or one ending in ".." |
| Recipes.Parent | app_cli/src/lib.rs:576-580 | `parent` drops the last component and is none for a path with no components |
| Recipes.DestroyTargetAsWritten | app_cli/src/lib.rs:576-581 | the target text "{parent}/used/{name}" exists exactly when the item path has a file name |
| Recipes.DestroyTarget | app_cli/src/lib.rs:576-581 | the `used` path next to the item exists exactly when the item path has a file name |
| Recipes.DestroyTargetNextToItem | app_cli/src/lib.rs:576-581 | the corrected target keeps the item's directory and name and lies in its `used` subdirectory |
| Recipes.DestroyTargetAgrees | app_cli/src/lib.rs:576-581 | where the item has a non-empty parent, the text as written displays the intended path |
| Recipes.DestroyBareNameGoesToRoot | app_cli/src/lib.rs:576-581 | for a bare relative name the text as written is the absolute "/used/item.json", not "used/item.json" |
| Vdf.Count | craftlib/src/vdfpod.rs:248 | a step count below p is counted as itself in the field |
| Vdf.CountNext | craftlib/src/vdfpod.rs:248 | one more step adds one to the count in the field |
| Vdf.DecodeEncode | craftlib/src/vdfpod.rs:573-576 | the 13 public inputs read back as count, input, output and verifier-data hash |
| Vdf.EncodeDecode | craftlib/src/vdfpod.rs:573-576 | every 13-element public-input vector is the encoding of its fields |
| Vdf.StepProofInputs | craftlib/src/vdfpod.rs:573-576 | the public inputs of a step proof carry its count and output |
| Vdf.ChainExtend | craftlib/src/vdfpod.rs:507-585 | a step satisfying the constraints against a chain's last proof extends the chain |
| Vdf.ChainAt | craftlib/src/vdfpod.rs:507-585 | every step of a chain satisfies the step constraints against its predecessor |
| Vdf.ChainOutputs | craftlib/src/vdfpod.rs:516-570 | any chain of at most p steps from a count-0 dummy computes a hash chain: step k has count k + 1, the starting input, midput H^k(input) and output H^(k+1)(input) |
| Vdf.ChainVerifierData | craftlib/src/vdfpod.rs:556-566 | from step 2 on, every proof of a chain is verified with the verifier data of step 1 |
| Vdf.BaseStepHolds | craftlib/src/vdfpod.rs:522-536 | the base step satisfies the circuit against a count-0 dummy proof |
| Vdf.NextStepHolds | craftlib/src/vdfpod.rs:538-567 | the loop's update satisfies the circuit against the previous step's proof while the count has not wrapped |
| Vdf.LoopWitnessValues | craftlib/src/vdfpod.rs:231-251 | iteration k of the loop holds prev_count k, count k + 1, midput H^k(input), output H^(k+1)(input) |
| Vdf.LoopTrace | craftlib/src/vdfpod.rs:245-267 | the trace of n iterations has n witnesses and n verifier data |
| Vdf.LoopTraceLast | craftlib/src/vdfpod.rs:245-268 | the last entry of a trace is the last iteration's witness, verified with the dummy data only for one iteration |
| Vdf.LoopTraceIsChain | craftlib/src/vdfpod.rs:245-267 | the loop's iterations form a chain of the inner circuit |
| Vdf.IterationHolds | craftlib/src/vdfpod.rs:245-266 | each iteration keeps the loop invariant and its witness satisfies the circuit |
| Vdf.GetVdfRecursiveCircuitProof | craftlib/src/vdfpod.rs:215-269 | fewer than two iterations are rejected; otherwise the returned values have count n in the field, the starting input, midput H^(n-1)(input) and output H^n(input), and the proof carries them with the recursive verifier data |
| Vdf.TargetStatementsAgree | craftlib/src/vdfpod.rs:379-422 | the in-circuit and native statements agree on a step proof's public inputs |
| Vdf.Construct | craftlib/src/vdfpod.rs:167-212 | `construct` succeeds exactly when the proof carries the recursive circuit's verifier-data hash, and keeps count, input and output |
| Vdf.New | craftlib/src/vdfpod.rs:139-163 | a pod for n >= 2 iterations is made with output H^n(input), count n, and a passing hash check |
| Pow.BaseCaseConnectsMeaning | craftlib/src/pow.rs:444-467 | the selects force input = midput in the base case and nothing otherwise |
| Pow.DecodeEncode | craftlib/src/pow.rs:470-476 | the 9 public inputs read back as count, input and output |
| Pow.EncodeDecode | craftlib/src/pow.rs:470-476 | every 9-element public-input vector is the encoding of its fields |
| Pow.NewStepInput | craftlib/src/pow.rs:125-131 | the step `new` proves has prev_count + 1 = count in the field |
| Pow.NewStepHoldsIff | craftlib/src/pow.rs:428-484 | that step is satisfiable exactly when output = H(midput) and, for count 1 only, midput = input |
| Pow.UnlinkedStepClaimsAnyOutput | craftlib/src/pow.rs:428-484 | a step claiming two iterations from an input can carry the hash of any midput, a false claim whenever it differs from H(H(input)) |
| Pow.LoopWitnessHolds | craftlib/src/pow.rs:565-607 | the test loop's witnesses satisfy this circuit |
| Pow.GetPowRecursiveCircuit | craftlib/src/pow.rs:565-607 | after n iterations the test loop returns count n in the field, the starting input, midput H^(n-1)(input) and output H^n(input), with the public inputs of that proof; it fails only when proving fails |
| Pow.TargetStatementsAgree | craftlib/src/pow.rs:289-349 | the in-circuit and native statements agree on a step proof's public inputs |
| Pow.New | craftlib/src/pow.rs:113-180 | `PowPod::new` succeeds exactly when the proof it is given verifies and the step is satisfiable, and the pod keeps count, input and output with a passing hash check |
| PowPod.AsWrittenAcceptsEverything | craftlib/src/powpod.rs:343-370 | as written, every hash and difficulty satisfy the circuit, because every field element fits in 64 bits |
| PowPod.AsWrittenAcceptsAboveDifficulty | craftlib/src/powpod.rs:365-370 | as written, hash 1 is accepted against difficulty 0 |
| PowPod.LimbDifference | craftlib/src/powpod.rs:343-363 | a field difference of two 32-bit limbs fits in 32 bits exactly when it does not wrap |
| PowPod.LimbsOrder | craftlib/src/powpod.rs:343-363 | values below 2^64 compare as their (high, low) limb pairs |
| PowPod.CorrectedWitnessesCanonical | craftlib/src/powpod.rs:343-363 | the corrected circuit's assignments are the canonical decompositions |
| PowPod.CorrectedAcceptsIff | craftlib/src/powpod.rs:333-370 | the corrected circuit is satisfiable exactly when hash[0] <= difficulty |
| PowPod.New | craftlib/src/powpod.rs:106-160 | `new` succeeds exactly when the value's first element is at most the difficulty, and otherwise bails with the difficulty error |
| PowPod.NewThenVerify | craftlib/src/powpod.rs:174-203 | a pod `new` made passes the hash check of `verify` |
| PowPod.StrictDifficultyRefuses | craftlib/src/powpod.rs:455-467 | with difficulty 1, any value whose first element exceeds 1 is refused |
| IntroPods.Verify | craftlib/src/vdfpod.rs:285-314 | `verify` succeeds exactly when the recomputed statements hash equals the stored one and the proof verifies; a mismatch gives the hash error |
| IntroPods.VerifyFreshPod | craftlib/src/powpod.rs:174-203 | a pod whose stored hash was computed from its own statements passes the hash check |
| Payload.EncodeElems | common/src/payload.rs:15-21 | eight bytes per element |
| Payload.DecodeElems | common/src/payload.rs:23-36 | success gives n elements and the bytes after 8n; input shorter than 8n always fails |
| Payload.DecodeRaw | common/src/payload.rs:23-36 | reading a raw value consumes exactly 32 bytes |
| Payload.DecodePredicateRef | common/src/payload.rs:45-56 | reading a predicate reference consumes 33 bytes and gives an opaque "unknown" batch with an index below 256 |
| Payload.DecodeCreate | common/src/payload.rs:129-139 | a create payload needs at least 97 bytes |
| Payload.DecodeProof | common/src/payload.rs:172-198 | a Groth16 proof reports 9 + its length as the bytes consumed |
| Payload.DecodePayload | common/src/payload.rs:92-112 | a wrong magic or type is rejected with that error; an accepted payload starts 0x00 0xad and its type byte |
| Payload.MagicBytes | common/src/payload.rs:94-101 | the magic 0xad00 read little-endian is exactly the bytes 0x00 0xad |
| Payload.ElemsRoundTrip | common/src/payload.rs:15-36 | `read_elems(write_elems(e))` gives e back and consumes 8 bytes per element |
| Payload.RawRoundTrip | common/src/payload.rs:15-36 | a raw value round-trips |
| Payload.PredicateRefRoundTrip | common/src/payload.rs:38-56 | the reference is 33 bytes; its id round-trips and its index round-trips modulo 256 |
| Payload.PredicateIndexTruncated | common/src/payload.rs:41 | an index of 256 or more does not survive the `as u8` cast |
| Payload.CreateRoundTrip | common/src/payload.rs:122-140 | a create payload is exactly 97 bytes and round-trips, with the batch made opaque |
| Payload.Groth16RoundTrip | common/src/payload.rs:161-197 | a Groth16 proof round-trips with a consumed length of 1 + 8 + len |
| Payload.Plonky2RoundTrip | common/src/payload.rs:151-185 | a plonky2 proof round-trips whenever the compressed-proof codec does |
| Payload.ProofRoundTrip | common/src/payload.rs:149-198 | a proof round-trips and reports exactly its encoded length |
| Payload.UpdateRoundTrip | common/src/payload.rs:210-230 | an update payload round-trips, advancing past the proof by the length it reports |
| Payload.PayloadHeader | common/src/payload.rs:70-90 | every payload starts 0x00 0xad, then type 1 or 2 |
| Payload.CreatePayloadRoundTrip | common/src/payload.rs:70-139 | a create payload with an opaque batch round-trips through `to_bytes`/`from_bytes` |
| Payload.UpdatePayloadRoundTrip | common/src/payload.rs:70-112 | an update payload whose proof reads back round-trips through `to_bytes`/`from_bytes` |
| Payload.PayloadRoundTrip | common/src/payload.rs:70-112 | `from_bytes(to_bytes(p)) == p` for every representable payload |
| Payload.ByteWriter.constructor | common/src/payload.rs:71 | the buffer starts empty |
| Payload.ByteWriter.WriteAll | common/src/payload.rs:18 | `write_all` appends the bytes |
| Payload.ByteWriter.WriteElems | common/src/payload.rs:15-21 | the loop appends the encoding of the elements |
| Payload.ByteWriter.WritePredicateRef | common/src/payload.rs:38-43 | appends the encoding of the reference |
| Payload.ByteWriter.WriteCreate | common/src/payload.rs:123-127 | appends the encoding of the create payload |
| Payload.ByteWriter.WriteProof | common/src/payload.rs:149-171 | appends the encoding of the proof |
| Payload.ByteWriter.WriteUpdate | common/src/payload.rs:210-215 | appends the encoding of the update payload |
| Payload.ToBytes | common/src/payload.rs:70-90 | `to_bytes` gives the encoding of the payload |
| Payload.SliceReader.constructor | common/src/payload.rs:93 | the cursor starts at the first byte |
| Payload.SliceReader.ReadExact | common/src/payload.rs:94-98 | `read_exact` takes n bytes, or fails with end of input on a short slice, leaving it empty |
| Payload.SliceReader.ReadElems | common/src/payload.rs:23-36 | the loop reads what `DecodeElems` decodes and advances past it, or fails with its error |
| Payload.ReadPredicateRef | common/src/payload.rs:45-56 | reads what `DecodePredicateRef` decodes and advances past it |
| Payload.CreateFromBytes | common/src/payload.rs:129-139 | the cursor-based reader gives the decoded create payload |
| Payload.UpdateFromBytes | common/src/payload.rs:217-230 | the cursor-based reader, moved by hand past the proof, gives the decoded update payload |
| Payload.FromBytes | common/src/payload.rs:92-112 | the cursor-based reader gives the decoded payload |
| SimpleBlob.ChunkPayloads | synchronizer/src/lib.rs:36-39 | every full chunk contributes its 31 payload bytes |
| SimpleBlob.ChunkPayloadsIndex | synchronizer/src/lib.rs:36-39 | data byte i is byte 1 + i mod 31 of chunk i / 31 |
| SimpleBlob.Take | synchronizer/src/lib.rs:40 | `take(n)` keeps n bytes, or all of a shorter sequence |
| SimpleBlob.BytesFromSimpleBlob | synchronizer/src/lib.rs:21-42 | rejects a blob too small to hold data_len; otherwise exactly data_len bytes, byte i taken from blob[32(1 + i/31) + 1 + i mod 31] |
| SimpleBlob.AsWrittenAgrees | synchronizer/src/lib.rs:21-42 | on every blob of at least one field element, the code as written behaves as the corrected one |
| SimpleBlob.DebugShortBlobPanics | synchronizer/src/lib.rs:26-27 | a debug build panics on the subtraction for a blob of 9 to 31 bytes |
| SimpleBlob.ReleaseShortBlobAccepted | synchronizer/src/lib.rs:26-41 | a release build wraps around and accepts a 9-byte blob announcing one byte, returning none |
| SimpleBlob.DataElements | synchronizer/src/lib.rs:22 | each data field element is a zero byte and 31 data bytes |
| SimpleBlob.EncodeSimpleBlob | synchronizer/src/lib.rs:22 | the blob layout [0x00] ++ 8-byte length ++ zeros ++ data fills exactly the given field elements |
| SimpleBlob.ChunkPayloadsOfDataElements | synchronizer/src/lib.rs:36-39 | stripping the leading byte of each data element gives the data back |
| SimpleBlob.DecodeEncode | synchronizer/src/lib.rs:21-42 | decoding what the layout encodes gives the data back, for every blob size that fits it |
| Ledger.Init | synchronizer/src/main.rs:151-168 | epoch 0, history holding only the empty root, no items, no nullifiers |
| Ledger.FirstRecorded | synchronizer/src/main.rs:413-421 | the nullifier check finds the first recorded nullifier in payload order, none exactly when all are fresh |
| Ledger.Process | synchronizer/src/main.rs:386-461 | accepted exactly when the root is recorded, the item is new, every nullifier is new and the proof verifies; then nullifiers, item set, epoch + 1 and appended root; each rejection names its cause |
| Ledger.ProcessPreservesInvariant | synchronizer/src/main.rs:443-459 | every acceptance keeps the invariant: the history has epoch + 1 entries, the first is the empty root and, after the first acceptance, the newest is the root of the item set; the initial state has it |
| Ledger.DuplicateNullifiersAccepted | synchronizer/src/main.rs:413-447 | a payload listing one fresh nullifier twice is accepted and records it once |
| Ledger.RunInvariant | synchronizer/src/main.rs:371-381 | a run keeps the invariant and counts one epoch per accepted payload |
| Ledger.RunAppendOnly | synchronizer/src/main.rs:443-459 | the root history is append-only, and items and nullifiers only grow |
| Ledger.RunItemsUnique | synchronizer/src/main.rs:403-454 | accepted items are new and pairwise distinct, and the final set is the initial one plus exactly them |
| Ledger.RunNullifiersOnce | synchronizer/src/main.rs:413-447 | accepted nullifiers are new and pairwise disjoint between payloads, and the final set is the initial one plus exactly them |
| Synchronizer.Node.constructor | synchronizer/src/main.rs:131-172 | the new node holds the initial ledger state |
| Synchronizer.Node.ProcessPayload | synchronizer/src/main.rs:391-459 | the checks and the updates give the transition of `Ledger.Process`, changing nothing on a rejection |
| Synchronizer.Node.ProcessDoBlob | synchronizer/src/main.rs:386-461 | a blob that does not decode or a payload that does not parse leaves the state unchanged with that error; otherwise the payload is processed |
| Synchronizer.FirstRecordedAt | synchronizer/src/main.rs:416-419 | the loop stops at the first recorded nullifier |
| Synchronizer.SlotParts | synchronizer/src/main.rs:175-177 | hi * 10^6 + mid * 10^3 + lo = slot with mid, lo < 1000 |
| Synchronizer.Pad3 | synchronizer/src/main.rs:180-182 | `{:03}` gives at least three digits, exactly three below 1000 |
| Synchronizer.Pad3RoundTrip | synchronizer/src/main.rs:180-182 | the padded digits read back as the number |
| Synchronizer.SlotDir | synchronizer/src/main.rs:174-187 | the directory is the blobs path followed by three components |
| Synchronizer.SlotDirInjective | synchronizer/src/main.rs:174-187 | distinct slots get distinct directories |
| Synchronizer.ValidateBlobs | synchronizer/src/main.rs:238-245 | the first versioned hash with no blob, none exactly when every one has a blob |
| Endpoints.LatestRoot | synchronizer/src/endpoints.rs:40-45 | the latest-root answer is the current epoch and entry 0, an index panic on an empty list |
| Endpoints.RootAtEpoch | synchronizer/src/endpoints.rs:48-60 | a future epoch is an error; otherwise entry cur_epoch - epoch, an index panic when the list is too short |
| Endpoints.LatestIsCurrentEpoch | synchronizer/src/endpoints.rs:40-60 | the latest-root answer agrees with the lookup at the current epoch |
| Endpoints.ViewLookup | synchronizer/src/endpoints.rs:48-60 | on the newest-first view of any reachable state the lookup never panics and answers epoch e with the root recorded at e |
| Endpoints.AppendOrderLookup | synchronizer/src/endpoints.rs:48-60 | on the history in the node's own order, epoch e is answered with the root of epoch cur - e |
| Endpoints.NullifierQueryAfterRun | synchronizer/src/endpoints.rs:63-72 | after a run from the initial state, a nullifier is reported exactly when some accepted payload listed it |
| Endpoints.CreatedItemAfterRun | synchronizer/src/endpoints.rs:18-29 | after a run, a proof is returned exactly for an item some accepted payload created, and it is against the newest root of the history |
| Endpoints.CreatedItemAgainstNewestRoot | synchronizer/src/endpoints.rs:18-29 | for a reachable node, that proof is against the newest root in the history |

## Left out

- Network, disk and chain I/O are not modelled:
  - the beacon and RPC fetching and the slot loop of the synchronizer;
  - `get_blobs` and the blob disk cache;
  - the versioned-hash derivation;
  - transaction sending;
  - the HTTP layer of the handlers and of the command-line client.
  A run of the node is modelled as `Ledger.Run`, a fold of `Ledger.Process` over payloads.
- Locks, threads and channels are left out; the node is a single sequential writer.
- Poseidon hashing and the Merkle set and dictionary commitments are uninterpreted
  functions. A container is identified with its contents, and `hash_n_to_hash_no_pad` of a
  raw value is the same function as `hash_value`.
- plonky2 circuit building, proving and verification are predicates passed as parameters.
  - These include `verify_shrunk_main_pod`, the shrinking and Groth16 wrappers, and the
    compressed-proof serialisation of the plonky2 branch of `PayloadProof`.
  - A prover's failure is modelled only where satisfiability decides it; the prover's other
    errors are not.
- Ledger.Process: the Groth16 branch of `verify_shrunk_main_pod` is a `todo!` and is modelled
  as a panic outcome.
- The synchronizer's payload record (item, nullifiers, root, proof) does not match the
  encoded payload format. The byte parser feeding `Node.ProcessDoBlob` is therefore a
  parameter.
- Synchronizer.Node.ProcessDoBlob requires a blob of exactly 131072 bytes, the fixed size of
  the source's `Blob` type.
- The endpoints read a root-history pair that `Node` does not have. They are modelled over an
  explicit newest-first pair, and that pair is related to the node's append-order history
  by `Endpoints.ViewLookup` and `Endpoints.AppendOrderLookup`.
- Mining (`do_mining` and the mining recipe types) is not part of this model. The miner is a
  parameter of `Recipes.CraftItemDefs`, and the random keys are parameters.
- The mining maxima and work costs are parameters. `craftlib/src/constants.rs` defines only
  copper constants, and `craftlib/src/item.rs` imports a constant that it does not define.
- Loading items from disk and writing the crafted item files are left out. Renaming the file
  in `destroy_item` is also left out; only the target path is modelled.
- The predicates read the PODLang literal `{}` as `EMPTY_VALUE`, the root of an empty set or
  dictionary, as the builder does when it proves `Equal(sub, {})`. They read the literal `3`
  as the raw value [3, 0, 0, 0]. The other PODLang literal forms are not modelled.
- PowPod.New requires a difficulty below p. `from_canonical_u64` assumes this and does not
  reduce larger values.
- Pow.New: the recursion-count pod's Intro predicate declares 9 arguments but publishes 3.
  The model follows the published statement.
- The command-line client calls `PowPod::new` with a signature that does not appear in the
  crafting library. The proof-of-work pod is modelled from the library's own definition.
- The PODLang parser is a parameter, and so is the display format of batch ids.
  `CustomPredicateBatch::predicate_ref_by_name` is modelled as a first-index lookup.
- Ledger.DuplicateNullifiersAccepted records an observation, not a defect: the duplicate is
  stored once, and the proof's nullifier set has one element.
- CommitPredicates.CommitCreationMeaning states what the proof exposes about its public
  arguments as written. It says nothing about `item`, which the text does not constrain
  (see the findings); `CommitPredicates.CommitCreationCorrectedMeaning` states the corrected form.
- CommitPredicates.DerivedItemDef, CommitPredicates.NullifiersCoverInputs,
  CommitPredicates.NullifiersFromInputs, CommitPredicates.NullifiersInsert and
  CommitPredicates.NullifiersOfNothing are proved for the predicates as the builder reads
  them: declared `item`, `keys` and `key` arguments, and the tag formatted from
  `CONSUMED_ITEM_EXTERNAL_NULLIFIER`. The text as written is modelled by the `AsWritten`
  members (see the findings).
- CommitPredicates.NullifiersOfNothing also reads the doubled braces `{{}}` of the raw string
  as the empty set. How the PODLang parser reads them is not part of this model.
- ItemBuilder.StNullifiers and ItemBuilder.StCommitCreation prove the corrected predicates.
  Against the text as written, `ItemBuilder.StNullifiersAsWrittenFails` shows that the
  nullifiers the builder computes fail it.
- CraftPredicates.PoWLiteralIff, CraftPredicates.IsStoneMeaning, CraftPredicates.IsWoodMeaning
  and CraftPredicates.IsAxeMeaning assume the corrected proof-of-work circuit
  (`PowPod.CorrectedAccepts`). With the circuit as written,
  `CraftPredicates.PoWLiteralAsWrittenAny` shows that the PoW statement holds for every hash.
- Ledger.Process, Synchronizer.Node.ProcessPayload and the ItemBuilder folds do not model the
  capacity errors and panics of the Merkle containers. These are the `insert(...).unwrap()`
  calls of the node and the `?` after `dict()` and `insert()` in the builder. The
  containers here are unbounded.

## Findings

| source | as written | input that shows it | evidently intended | confidence | as-written member | corrected member |
|---|---|---|---|---|---|---|
| craftlib/src/powpod.rs:365-370 | `difficulty - hash[0]` is split into 64 bits, and both values are split into 64 bits | hash[0] = 1, difficulty = 0: the difference is p - 1 < 2^64 | the circuit refuses hash[0] > difficulty | not executed | PowPod.AsWrittenAcceptsAboveDifficulty | PowPod.CorrectedAcceptsIff |
| craftlib/src/pow.rs:428-484 | the step never reads the verified proof's public inputs | count 2 with output H(m) for any m where H(m) differs from H(H(input)) | consecutive steps linked as in the sequential-work circuit | not executed | Pow.UnlinkedStepClaimsAnyOutput | Vdf.ChainOutputs |
| synchronizer/src/lib.rs:26-34 | `(len / 32 - 1) * 31` on usize | a 9-byte blob 00 00 00 00 00 00 00 00 01 in a release build | blobs shorter than one field element rejected | not executed | SimpleBlob.ReleaseShortBlobAccepted | SimpleBlob.BytesFromSimpleBlob |
| app_cli/src/lib.rs:576-581 | the target is the text of the parent, then "/used/", then the file name | the relative path item.json: parent is empty, target /used/item.json | the `used` directory next to the item | not executed | Recipes.DestroyBareNameGoesToRoot | Recipes.DestroyTargetNextToItem |
| commitlib/src/predicates.rs:100-109 | `AllItemsInBatchRecursive` has no `AllItemsInBatch(prev_items, batch, prev_keys)` conjunct | items {junk, H([batch, H(k)])} with keys {k: v} | the recursive case proves the previous sets too, as the builder passes it | not executed | CommitPredicates.AllItemsInBatchAsWrittenAdmitsJunk | CommitPredicates.AllItemsInBatchSound |
| synchronizer/src/endpoints.rs:48-60 | the history is indexed newest first, while the node appends the newest root at the end | epoch 1 after one acceptance, query for epoch 0: the newest root is returned | entry e is the root of epoch e | not executed | Endpoints.AppendOrderLookup | Endpoints.ViewLookup |
| commitlib/src/predicates.rs:57-81 | `BatchDef` hashes an undeclared `item`, `ItemInBatch` reads an undeclared `keys`, and `ItemDef` never uses its `key` argument | any id H([b, H(i)]) with an arbitrary key k: `ItemKey(H([b, H(i)]), k)` holds | the batch hash and the keys dictionary are tied to the declared arguments, and `key` is the one stored under the index | not executed | CommitPredicates.ItemKeyAsWrittenIff | CommitPredicates.ItemKeySound |
| commitlib/src/predicates.rs:132-139 | `NullifiersRecursive` takes its `key` from an `ItemKey` that does not bind the key | one input H([b, H(i)]) with two keys k1 and k2 whose tagged hashes differ | an input has one nullifier, the one of the key its item was defined with | not executed | CommitPredicates.NullifiersAsWrittenTwoKeys | CommitPredicates.NullifiersBindDerivedKeys |
| commitlib/src/predicates.rs:112-140 | batch 3 is a raw string without `format!`, so the tag is the literal text "{CONSUMED_ITEM_EXTERNAL_NULLIFIER}" | one statement whose nullifier H([key, "consumed item external nullifier"]) is no hash with the literal tag | the tag is the value of `CONSUMED_ITEM_EXTERNAL_NULLIFIER`, as in `st_nullifiers` | not executed | ItemBuilder.StNullifiersAsWrittenFails | ItemBuilder.StNullifiers |
| commitlib/src/predicates.rs:151-164 | `CommitCreation` never relates its public `item` to the batch; `batch`, `keys` and `items` are undeclared | a valid proof for item x is a valid proof for any other value y | the item belongs to the batch's item set, `SetContains(items, item)` | not executed | CommitPredicates.CommitCreationIgnoresItem | CommitPredicates.CommitCreationCorrectedMeaning |
