/** The roll result: one independent draw per registered die, summed. The
    draw is not read from the die's resting pose. */
module RollOutcome {
  import opened DieTypes
  import opened Dice

  /** The sum of the per-die results. */
  function Total(rolls: seq<int>): int {
    if rolls == [] then 0 else Total(rolls[..|rolls| - 1]) + rolls[|rolls| - 1]
  }

  /** The largest total the registered dice can show. */
  function SumMax(ds: seq<Die>): nat {
    if ds == [] then 0 else SumMax(ds[..|ds| - 1]) + MaxRoll(ds[|ds| - 1].dieType)
  }

  /** One draw per die, in registry order, each in 1..MaxRoll of its type. */
  predicate ValidRolls(ds: seq<Die>, rolls: seq<int>) {
    |rolls| == |ds| &&
    forall i :: 0 <= i < |ds| ==> 1 <= rolls[i] <= MaxRoll(ds[i].dieType)
  }

  /** One more draw extends the valid results of a registry prefix by one die. */
  lemma ExtendRolls(ds: seq<Die>, i: nat, rolls: seq<int>, result: int)
    requires i < |ds| && ValidRolls(ds[..i], rolls)
    requires 1 <= result <= MaxRoll(ds[i].dieType)
    ensures ValidRolls(ds[..i + 1], rolls + [result])
    ensures Total(rolls + [result]) == Total(rolls) + result
  {
    assert (rolls + [result])[..i] == rolls;
  }

  /** Every total the roller can show lies between the number of dice and the
      sum of their face counts. */
  lemma {:induction false} TotalBounds(ds: seq<Die>, rolls: seq<int>)
    requires ValidRolls(ds, rolls)
    ensures |ds| <= Total(rolls) <= SumMax(ds)
  {
    if ds != [] {
      var n := |ds| - 1;
      assert ValidRolls(ds[..n], rolls[..n]);
      TotalBounds(ds[..n], rolls[..n]);
    }
  }

  /** Conversely every total in that range is shown for some choice of draws:
      the bounds are tight. */
  function RollsFor(ds: seq<Die>, total: int): (rolls: seq<int>)
    requires |ds| <= total <= SumMax(ds)
    ensures ValidRolls(ds, rolls) && Total(rolls) == total
  {
    if ds == [] then []
    else
      var n := |ds| - 1;
      SumMaxAtLeastCount(ds[..n]);
      var last := Clamp(total - SumMax(ds[..n]), 1, MaxRoll(ds[n].dieType));
      var front := RollsFor(ds[..n], total - last);
      assert front[..|front|] == front;
      front + [last]
  }

  /** Every face count is at least one, so the largest total is at least the number of dice. */
  lemma {:induction false} SumMaxAtLeastCount(ds: seq<Die>)
    ensures |ds| <= SumMax(ds)
  {
    if ds != [] {
      SumMaxAtLeastCount(ds[..|ds| - 1]);
    }
  }

  function Clamp(x: int, lo: int, hi: int): int
    requires lo <= hi
  {
    if x < lo then lo else if x > hi then hi else x
  }

  /** One d6 and one d20 show a total between 2 and 26. */
  lemma D6AndD20Total(d6: Die, d20: Die, rolls: seq<int>)
    requires d6.dieType == "d6" && d20.dieType == "d20"
    requires ValidRolls([d6, d20], rolls)
    ensures 2 <= Total(rolls) <= 26
  {
    TotalBounds([d6, d20], rolls);
    assert [d6, d20][..1] == [d6];
    assert [d6][..0] == [];
    assert SumMax([d6]) == 6;
  }
}
