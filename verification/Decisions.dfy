/** Counting quality switches over a series of decisions, the way the client's counter does. */
module Decisions {
  /** The level in force after the decisions so far; a session starts at the lowest one. */
  function Current(decisions: seq<int>): int {
    if decisions == [] then 0 else decisions[|decisions| - 1]
  }

  function Switches(decisions: seq<int>): nat {
    if decisions == [] then
      0
    else
      var before := decisions[..|decisions| - 1];
      Switches(before) + if decisions[|decisions| - 1] != Current(before) then 1 else 0
  }

  lemma SwitchesAppend(decisions: seq<int>, next: int)
    ensures Switches(decisions + [next]) == Switches(decisions) + if next != Current(decisions) then 1 else 0
  {
    assert (decisions + [next])[..|decisions|] == decisions;
  }

  /** Decision i is not the one before it; the first is compared with the lowest level. */
  predicate Differs(decisions: seq<int>, i: nat)
    requires i < |decisions|
  {
    decisions[i] != if i == 0 then 0 else decisions[i - 1]
  }

  function SwitchedAt(decisions: seq<int>): set<int> { set i | 0 <= i < |decisions| && Differs(decisions, i) }

  lemma {:induction false} SwitchesCounted(decisions: seq<int>)
    ensures Switches(decisions) == |SwitchedAt(decisions)|
    decreases |decisions|
  {
    if decisions == [] {
      assert SwitchedAt(decisions) == {};
    } else {
      var before, last := decisions[..|decisions| - 1], |decisions| - 1;
      SwitchesCounted(before);
      assert forall i :: 0 <= i < last ==> Differs(decisions, i) == Differs(before, i);
      assert SwitchedAt(decisions) == SwitchedAt(before) + if Differs(decisions, last) then {last} else {};
      assert last !in SwitchedAt(before);
    }
  }
}
