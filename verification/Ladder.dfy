/** The bitrate ladder and the helpers every controller shares. Bitrates are exact numbers, in bits per second. */
module Ladder {
  import opened Arithmetic

  type Ladder = seq<real>

  predicate Rising(ladder: Ladder) {
    && ladder != [] && 0.0 < ladder[0]
    && forall i, j :: 0 <= i < j < |ladder| ==> ladder[i] < ladder[j]
  }

  /** Quality on a scale where the last level counts as one. */
  function Quality(ladder: Ladder, index: nat): real
    requires index < |ladder| && ladder[|ladder| - 1] != 0.0
  {
    ladder[index] / ladder[|ladder| - 1]
  }

  function Clamp(ladder: Ladder, index: int): int {
    var low := if |ladder| - 1 < index then |ladder| - 1 else index;
    if low < 0 then 0 else low
  }

  function Distance(a: int, b: int): nat { if a < b then b - a else a - b }

  /** Clamping takes an index to the nearest level of the ladder. */
  lemma ClampIsNearest(ladder: Ladder, index: int, level: int)
    requires 0 <= level < |ladder|
    ensures 0 <= Clamp(ladder, index) < |ladder|
    ensures Distance(Clamp(ladder, index), index) <= Distance(level, index)
  {
  }

  /** Qualities are to one another as the bitrates are. */
  lemma QualityIsProportional(ladder: Ladder, i: nat, j: nat)
    requires i < |ladder| && j < |ladder| && ladder[|ladder| - 1] != 0.0
    ensures Quality(ladder, i) * ladder[j] == Quality(ladder, j) * ladder[i]
  {
    var top := ladder[|ladder| - 1];
    var x, y := Quality(ladder, i), Quality(ladder, j);
    assert x * top == ladder[i] && y * top == ladder[j];
    assert x * (y * top) == y * (x * top);
  }

  /** On a rising ladder quality rises with the level and ends at one. */
  lemma QualityRises(ladder: Ladder, i: nat, j: nat)
    requires Rising(ladder) && i <= j < |ladder|
    ensures 0.0 < Quality(ladder, i) <= Quality(ladder, j) <= 1.0
    ensures i < j ==> Quality(ladder, i) < Quality(ladder, j)
    ensures Quality(ladder, |ladder| - 1) == 1.0
  {
    var top := ladder[|ladder| - 1];
    DivideKeepsOrder(0.0, ladder[i], top);
    DivideKeepsOrder(ladder[i], ladder[j], top);
    DivideKeepsOrder(ladder[j], top, top);
    assert top / top == 1.0;
  }

  // ---------------------------------------------------------------- the highest level that fits

  /** The level a scan stops on that climbs while bitrates fit the limit. */
  function LastFitting(ladder: Ladder, limit: real): (r: nat)
    ensures ladder != [] ==> r < |ladder|
  {
    var n := Climb(ladder, limit);
    if n == 0 then 0 else n - 1
  }

  /** The number of leading levels that fit. */
  function Climb(ladder: Ladder, limit: real): (n: nat)
    ensures n <= |ladder|
    ensures forall i :: 0 <= i < n ==> ladder[i] <= limit
    ensures n < |ladder| ==> limit < ladder[n]
  {
    if ladder == [] || limit < ladder[0] then 0 else 1 + Climb(ladder[1..], limit)
  }

  function Limit(throughput: real, safety: real): real { throughput * safety }

  method HighestFitting(ladder: Ladder, throughput: real, safety: real) returns (idx: nat)
    ensures idx == LastFitting(ladder, Limit(throughput, safety))
  {
    var limit := Limit(throughput, safety);
    idx := 0;
    var i := 0;
    while i < |ladder|
      invariant 0 <= i <= |ladder|
      invariant Climb(ladder, limit) == i + Climb(ladder[i..], limit)
      invariant idx == if i == 0 then 0 else i - 1
    {
      if ladder[i] <= limit {
        idx := i;
      } else {
        break;
      }
      assert ladder[i..][1..] == ladder[i + 1..];
      i := i + 1;
    }
  }

  /** On a rising ladder the scan finds the highest level that fits, or level 0 when none does. */
  lemma HighestFits(ladder: Ladder, limit: real)
    requires Rising(ladder)
    ensures var r := LastFitting(ladder, limit);
            && (forall i :: r < i < |ladder| ==> limit < ladder[i])
            && (ladder[r] <= limit || (r == 0 && limit < ladder[0]))
  {
    var n := Climb(ladder, limit);
    if n < |ladder| {
      assert forall i :: n <= i < |ladder| ==> ladder[n] <= ladder[i];
    }
  }
}
