/**
 * `pod2lib/src/macros.rs`: a second copy of the lookup of a custom predicate by name,
 * written with the same nested loops as the one in `pod2utils`.
 */
module Pod2LibMacros {
  import opened Results
  import PredicateDefs

  /**
   * `find_custom_pred_by_name` (pod2lib): the first predicate with the name, in batch order
   * and then index order, exactly what the pod2utils copy returns.
   */
  method FindCustomPredByName(batches: seq<PredicateDefs.Batch>, name: string)
    returns (r: Option<PredicateDefs.PredicateRef>)
    ensures r == PredicateDefs.FirstMatch(batches, name)
  {
    for k := 0 to |batches|
      invariant PredicateDefs.FirstMatch(batches, name) == PredicateDefs.FirstMatch(batches[k..], name)
    {
      assert batches[k..][1..] == batches[k + 1..];
      for index := 0 to |batches[k].predicates|
        invariant forall i :: 0 <= i < index ==> batches[k].predicates[i] != name
      {
        if batches[k].predicates[index] == name {
          assert PredicateDefs.FirstIndex(batches[k].predicates, name) == Some(index);
          return Some(PredicateDefs.PredicateRef(batches[k], index));
        }
      }
      assert name !in batches[k].predicates;
    }
    return None;
  }
}
