/**
 * `pod2utils`: a set of custom-predicate batches compiled from PODLang code, each batch
 * importing the ones before it, and the lookup of a predicate by name across batches.
 *
 * A batch is given by the names of its predicates, in order, and its id. The PODLang
 * parser is outside this model: it is a parameter that, given the program text and the
 * batches the program may refer to, returns a batch or an error.
 */
module PredicateDefs {
  import opened Goldilocks
  import opened Results

  /** A custom-predicate batch: its predicates' names, in order, and its id (a hash of its contents). */
  datatype Batch = Batch(predicates: seq<string>, id: Raw)

  /** `CustomPredicateRef`: a batch and the index of one of its predicates. */
  datatype PredicateRef = PredicateRef(batch: Batch, index: nat)

  /** `PredicateDefs`. */
  datatype Defs = Defs(batches: seq<Batch>, batchIds: seq<Raw>, imports: string)

  /** The parser: program text and the batches in scope give a batch or an error. */
  type Parser = (string, seq<Batch>) -> Result<Batch, string>

  // ---------------------------------------------------------------- lookup by name

  /** `CustomPredicateBatch::predicate_ref_by_name`: the index of the first predicate with the name. */
  function FirstIndex(names: seq<string>, name: string): (r: Option<nat>)
    ensures r.Some? ==> r.value < |names| && names[r.value] == name
                        && forall i :: 0 <= i < r.value ==> names[i] != name
    ensures r.None? <==> name !in names
    decreases |names|
  {
    if |names| == 0 then None
    else if names[0] == name then Some(0)
    else match FirstIndex(names[1..], name)
      case None => None
      case Some(i) => Some(i + 1)
  }

  /** The first predicate with the name, in batch order and then in index order. */
  function FirstMatch(batches: seq<Batch>, name: string): Option<PredicateRef>
    decreases |batches|
  {
    if |batches| == 0 then None
    else match FirstIndex(batches[0].predicates, name)
      case Some(i) => Some(PredicateRef(batches[0], i))
      case None => FirstMatch(batches[1..], name)
  }

  /** Some batch declares a predicate with the name. */
  ghost predicate Declared(batches: seq<Batch>, name: string)
  {
    exists b :: b in batches && name in b.predicates
  }

  /** There is no match exactly when no batch declares the name. */
  lemma {:induction false} FirstMatchNone(batches: seq<Batch>, name: string)
    ensures FirstMatch(batches, name).None? <==> !Declared(batches, name)
    decreases |batches|
  {
    if |batches| > 0 {
      FirstMatchNone(batches[1..], name);
      if FirstIndex(batches[0].predicates, name).None? {
        if Declared(batches, name) {
          var b :| b in batches && name in b.predicates;
          assert b in batches[1..];
        }
        if Declared(batches[1..], name) {
          var b :| b in batches[1..] && name in b.predicates;
          assert b in batches;
        }
      } else {
        assert batches[0] in batches;
      }
    }
  }

  /**
   * A match names the predicate by its index in one of the batches and comes before every
   * other predicate with the name.
   */
  lemma {:induction false} FirstMatchSome(batches: seq<Batch>, name: string)
    requires FirstMatch(batches, name).Some?
    ensures var r := FirstMatch(batches, name).value;
            exists k :: 0 <= k < |batches| && batches[k] == r.batch
              && r.index < |r.batch.predicates| && r.batch.predicates[r.index] == name
              && (forall j :: 0 <= j < k ==> name !in batches[j].predicates)
              && (forall i :: 0 <= i < r.index ==> r.batch.predicates[i] != name)
    decreases |batches|
  {
    var r := FirstMatch(batches, name).value;
    if FirstIndex(batches[0].predicates, name).None? {
      FirstMatchSome(batches[1..], name);
      var k :| 0 <= k < |batches[1..]| && batches[1..][k] == r.batch
            && r.index < |r.batch.predicates| && r.batch.predicates[r.index] == name
            && (forall j :: 0 <= j < k ==> name !in batches[1..][j].predicates)
            && (forall i :: 0 <= i < r.index ==> r.batch.predicates[i] != name);
      assert batches[k + 1] == r.batch;
      forall j | 0 <= j < k + 1 ensures name !in batches[j].predicates {
        if j > 0 {
          assert batches[j] == batches[1..][j - 1];
        }
      }
    } else {
      assert batches[0] == r.batch;
    }
  }

  /** `PredicateDefs::predicate_ref_by_name`: ask each batch in turn, return the first hit. */
  method PredicateRefByName(defs: Defs, name: string) returns (r: Option<PredicateRef>)
    ensures r == FirstMatch(defs.batches, name)
  {
    var k := 0;
    while k < |defs.batches|
      invariant 0 <= k <= |defs.batches|
      invariant FirstMatch(defs.batches, name) == FirstMatch(defs.batches[k..], name)
    {
      assert defs.batches[k..][1..] == defs.batches[k + 1..];
      var found := FirstIndex(defs.batches[k].predicates, name);
      if found.Some? {
        return Some(PredicateRef(defs.batches[k], found.value));
      }
      k := k + 1;
    }
    return None;
  }

  /**
   * `find_custom_pred_by_name` (pod2utils): for each batch, for each predicate index,
   * return the first whose name matches.
   */
  method FindCustomPredByName(batches: seq<Batch>, name: string) returns (r: Option<PredicateRef>)
    ensures r == FirstMatch(batches, name)
  {
    var k := 0;
    while k < |batches|
      invariant 0 <= k <= |batches|
      invariant FirstMatch(batches, name) == FirstMatch(batches[k..], name)
    {
      assert batches[k..][1..] == batches[k + 1..];
      var preds := batches[k].predicates;
      var index := 0;
      while index < |preds|
        invariant 0 <= index <= |preds|
        invariant forall i :: 0 <= i < index ==> preds[i] != name
      {
        if preds[index] == name {
          assert FirstIndex(preds, name) == Some(index);
          return Some(PredicateRef(batches[k], index));
        }
        index := index + 1;
      }
      assert name !in preds;
      k := k + 1;
    }
    return None;
  }

  // ---------------------------------------------------------------- building the batches

  /** The names joined by ", ". */
  function JoinNames(names: seq<string>): string
  {
    if |names| == 0 then "" else if |names| == 1 then names[0] else names[0] + ", " + JoinNames(names[1..])
  }

  /** The strings joined by "\n". */
  function JoinLines(lines: seq<string>): string
  {
    if |lines| == 0 then "" else if |lines| == 1 then lines[0] else lines[0] + "\n" + JoinLines(lines[1..])
  }

  /** The import line for a batch: "use batch <names> from <id>\n"; `showId` formats the id. */
  function ImportLine(showId: Raw -> string, b: Batch): string
  {
    "use batch " + JoinNames(b.predicates) + " from " + showId(b.id) + "\n"
  }

  /** The imports of a sequence of batches: one line per batch, in order. */
  function ImportsOf(showId: Raw -> string, bs: seq<Batch>): string
  {
    if |bs| == 0 then "" else ImportsOf(showId, bs[..|bs| - 1]) + ImportLine(showId, bs[|bs| - 1])
  }

  /** The program batch k is parsed from: the external imports, the earlier batches' imports, the code. */
  function ProgramText(externalImports: string, imports: string, code: string): string
  {
    externalImports + "\n" + imports + "\n" + code
  }

  /** The batches `PredicateDefs::new` builds from the codes, or the first parse error. */
  function Batches(parse: Parser, showId: Raw -> string, externalImports: string, externalBatches: seq<Batch>,
                   codes: seq<string>): Result<seq<Batch>, string>
    decreases |codes|
  {
    if |codes| == 0 then Ok([])
    else match Batches(parse, showId, externalImports, externalBatches, codes[..|codes| - 1])
      case Err(e) => Err(e)
      case Ok(bs) =>
        match parse(ProgramText(externalImports, ImportsOf(showId, bs), codes[|codes| - 1]), externalBatches + bs)
        case Err(e) => Err(e)
        case Ok(b) => Ok(bs + [b])
  }

  /** The ids of the batches, in order. */
  function Ids(bs: seq<Batch>): seq<Raw>
  {
    seq(|bs|, i requires 0 <= i < |bs| => bs[i].id)
  }

  /** The imports of all external definitions, one per line. */
  function ExternalImports(externalDefs: seq<Defs>): string
  {
    JoinLines(seq(|externalDefs|, i requires 0 <= i < |externalDefs| => externalDefs[i].imports))
  }

  /** The batches of all external definitions, concatenated. */
  function ExternalBatches(externalDefs: seq<Defs>): seq<Batch>
    decreases |externalDefs|
  {
    if |externalDefs| == 0 then [] else externalDefs[0].batches + ExternalBatches(externalDefs[1..])
  }

  /**
   * `PredicateDefs::new`: parse each code in turn against the external batches and the
   * batches parsed so far, with their import lines in front, and append its import line.
   * A parse error is the panic of the `unwrap`.
   */
  method New(parse: Parser, showId: Raw -> string, codes: seq<string>, externalDefs: seq<Defs>)
    returns (r: Result<Defs, string>)
    ensures var expected := Batches(parse, showId, ExternalImports(externalDefs), ExternalBatches(externalDefs), codes);
            && (r.Ok? <==> expected.Ok?)
            && (r.Err? ==> r.error == expected.error)
            && (r.Ok? ==> r.value == Defs(expected.value, Ids(expected.value), ImportsOf(showId, expected.value)))
  {
    var externalImports := ExternalImports(externalDefs);
    var externalBatches := ExternalBatches(externalDefs);
    var batches: seq<Batch> := [];
    var imports := "";
    var k := 0;
    while k < |codes|
      invariant 0 <= k <= |codes|
      invariant Batches(parse, showId, externalImports, externalBatches, codes[..k]) == Ok(batches)
      invariant imports == ImportsOf(showId, batches)
    {
      assert codes[..k + 1][..k] == codes[..k];
      var parsed := parse(ProgramText(externalImports, imports, codes[k]), externalBatches + batches);
      if parsed.Err? {
        assert Batches(parse, showId, externalImports, externalBatches, codes[..k + 1]) == Err(parsed.error);
        BatchesErrPersists(parse, showId, externalImports, externalBatches, codes, k + 1);
        return Err(parsed.error);
      }
      var batch := parsed.value;
      imports := imports + ImportLine(showId, batch);
      assert (batches + [batch])[..|batches|] == batches;
      batches := batches + [batch];
      k := k + 1;
    }
    assert codes[..|codes|] == codes;
    return Ok(Defs(batches, Ids(batches), imports));
  }

  /** Once a prefix of the codes fails to parse, so does every longer one, with the same error. */
  lemma {:induction false} BatchesErrPersists(parse: Parser, showId: Raw -> string, externalImports: string,
                                              externalBatches: seq<Batch>, codes: seq<string>, k: nat)
    requires k <= |codes|
    requires Batches(parse, showId, externalImports, externalBatches, codes[..k]).Err?
    ensures Batches(parse, showId, externalImports, externalBatches, codes)
            == Batches(parse, showId, externalImports, externalBatches, codes[..k])
    decreases |codes| - k
  {
    if k == |codes| {
      assert codes[..k] == codes;
    } else {
      assert codes[..k + 1][..k] == codes[..k];
      BatchesErrPersists(parse, showId, externalImports, externalBatches, codes, k + 1);
    }
  }

  /**
   * One batch per code, in order: batch k is what the parser makes of code k, behind the
   * external imports and the import lines of batches 0..k-1, with the external batches and
   * those batches in scope.
   */
  lemma {:induction false} BatchesInOrder(parse: Parser, showId: Raw -> string, externalImports: string,
                                          externalBatches: seq<Batch>, codes: seq<string>)
    requires Batches(parse, showId, externalImports, externalBatches, codes).Ok?
    ensures var bs := Batches(parse, showId, externalImports, externalBatches, codes).value;
            && |bs| == |codes|
            && forall k :: 0 <= k < |codes| ==>
                 parse(ProgramText(externalImports, ImportsOf(showId, bs[..k]), codes[k]), externalBatches + bs[..k])
                 == Ok(bs[k])
    decreases |codes|
  {
    if |codes| > 0 {
      var n := |codes| - 1;
      var front := codes[..n];
      BatchesInOrder(parse, showId, externalImports, externalBatches, front);
      var bs0 := Batches(parse, showId, externalImports, externalBatches, front).value;
      var bs := Batches(parse, showId, externalImports, externalBatches, codes).value;
      assert bs[..n] == bs0;
      forall k | 0 <= k < |codes|
        ensures parse(ProgramText(externalImports, ImportsOf(showId, bs[..k]), codes[k]), externalBatches + bs[..k])
                == Ok(bs[k])
      {
        if k < n {
          assert bs[..k] == bs0[..k] && bs[k] == bs0[k] && codes[k] == front[k];
        }
      }
    }
  }

  /** The number of newline characters in a string. */
  function Newlines(s: string): nat
  {
    if |s| == 0 then 0 else (if s[|s| - 1] == '\n' then 1 else 0) + Newlines(s[..|s| - 1])
  }

  lemma {:induction false} NewlinesAppend(s: string, t: string)
    ensures Newlines(s + t) == Newlines(s) + Newlines(t)
    decreases |t|
  {
    if |t| == 0 {
      assert s + t == s;
    } else {
      assert (s + t)[..|s + t| - 1] == s + t[..|t| - 1];
      NewlinesAppend(s, t[..|t| - 1]);
    }
  }

  /** A string with no newline in it. */
  predicate OneLine(s: string)
  {
    '\n' !in s
  }

  lemma {:induction false} NoNewlines(s: string)
    requires OneLine(s)
    ensures Newlines(s) == 0
    decreases |s|
  {
    if |s| > 0 {
      assert s[..|s| - 1] + [s[|s| - 1]] == s;
      NoNewlines(s[..|s| - 1]);
    }
  }

  lemma {:induction false} JoinNamesOneLine(names: seq<string>)
    requires forall i :: 0 <= i < |names| ==> OneLine(names[i])
    ensures OneLine(JoinNames(names))
    decreases |names|
  {
    if |names| > 1 {
      JoinNamesOneLine(names[1..]);
    }
  }

  /**
   * `imports` gains exactly one line per batch: when no predicate name and no formatted id
   * holds a newline, the imports of n batches hold exactly n newlines.
   */
  lemma {:induction false} ImportsOneLinePerBatch(showId: Raw -> string, bs: seq<Batch>)
    requires forall b :: b in bs ==> OneLine(showId(b.id)) && forall i :: 0 <= i < |b.predicates| ==> OneLine(b.predicates[i])
    ensures Newlines(ImportsOf(showId, bs)) == |bs|
    decreases |bs|
  {
    if |bs| > 0 {
      var b := bs[|bs| - 1];
      assert b in bs;
      ImportsOneLinePerBatch(showId, bs[..|bs| - 1]);
      JoinNamesOneLine(b.predicates);
      var body := "use batch " + JoinNames(b.predicates) + " from " + showId(b.id);
      assert OneLine(body);
      NoNewlines(body);
      NewlinesAppend(body, "\n");
      assert ImportLine(showId, b) == body + "\n";
      NewlinesAppend(ImportsOf(showId, bs[..|bs| - 1]), ImportLine(showId, b));
    }
  }

  // ---------------------------------------------------------------- the item predicates

  /** The predicates of the two item-predicate batches, in declaration order. */
  const ITEM_BATCH_1: seq<string> := ["IsStone", "IsWood"]
  const ITEM_BATCH_2: seq<string> := ["AxeInputs", "IsAxe", "WoodenAxeInputs", "IsWoodenAxe"]

  /**
   * `ItemPredicates::compile` unwraps the lookup of "IsStone": whatever ids the parser
   * gives, the lookup finds the first predicate of the first batch, so the unwrap cannot fail.
   */
  lemma IsStoneFound(defs: Defs)
    requires |defs.batches| == 2
    requires defs.batches[0].predicates == ITEM_BATCH_1 && defs.batches[1].predicates == ITEM_BATCH_2
    ensures FirstMatch(defs.batches, "IsStone") == Some(PredicateRef(defs.batches[0], 0))
  {
    assert defs.batches[0].predicates[0] == "IsStone";
  }
}
