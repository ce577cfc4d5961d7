/**
 * A JavaScript object filled by a loop of property assignments `obj[k] = v`,
 * starting from `{}`: a key assigned twice keeps the later value.
 */
module JsObject {

  function FromAssignments<V>(pairs: seq<(string, V)>): map<string, V>
    decreases |pairs|
  {
    if pairs == [] then map[]
    else
      var last := pairs[|pairs| - 1];
      FromAssignments(pairs[..|pairs| - 1])[last.0 := last.1]
  }

  /** One more turn of the assignment loop. */
  lemma AssignOneMore<V>(pairs: seq<(string, V)>, i: nat)
    requires i < |pairs|
    ensures FromAssignments(pairs[..i + 1]) == FromAssignments(pairs[..i])[pairs[i].0 := pairs[i].1]
  {
    assert pairs[..i + 1][..i] == pairs[..i];
  }

  /** The object's keys are exactly the keys assigned. */
  lemma {:induction false} FromAssignmentsKeys<V>(pairs: seq<(string, V)>)
    ensures FromAssignments(pairs).Keys == set i | 0 <= i < |pairs| :: pairs[i].0
    decreases |pairs|
  {
    if pairs != [] {
      var init := pairs[..|pairs| - 1];
      FromAssignmentsKeys(init);
      assert forall i :: 0 <= i < |init| ==> init[i] == pairs[i];
    }
  }

  /** A key holds the value of its last assignment. */
  lemma {:induction false} LastAssignmentWins<V>(pairs: seq<(string, V)>, i: nat)
    requires i < |pairs|
    requires forall j :: i < j < |pairs| ==> pairs[j].0 != pairs[i].0
    ensures pairs[i].0 in FromAssignments(pairs)
    ensures FromAssignments(pairs)[pairs[i].0] == pairs[i].1
    decreases |pairs|
  {
    if i < |pairs| - 1 {
      var init := pairs[..|pairs| - 1];
      assert init[i] == pairs[i];
      LastAssignmentWins(init, i);
    }
  }
}
