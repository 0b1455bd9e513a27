/** The die types the roller accepts and the face count each one rolls. */
module DieTypes {

  /** The type names the spawn switch accepts; every other name is rejected. */
  const KnownTypes: seq<string> := ["d4", "d6", "d8", "d10", "d12", "d20", "d100"]

  predicate IsKnownType(dieType: string) {
    dieType in KnownTypes
  }

  /** The largest value a die of this type can roll; any unrecognised name rolls as a d6. */
  function MaxRoll(dieType: string): (r: nat)
    ensures 4 <= r <= 100
    ensures !IsKnownType(dieType) ==> r == 6
  {
    match dieType
    case "d4" => 4
    case "d6" => 6
    case "d8" => 8
    case "d10" => 10
    case "d12" => 12
    case "d20" => 20
    case "d100" => 100
    case _ => 6
  }

  /** The value of a string of decimal digits (a non-digit counts as 0). */
  function NumeralValue(s: string): nat {
    if s == [] then 0
    else NumeralValue(s[..|s| - 1]) * 10 + DigitValue(s[|s| - 1])
  }

  function DigitValue(c: char): nat {
    if '0' <= c <= '9' then (c as int) - ('0' as int) else 0
  }

  /** Every known type is written "d" followed by its face count, and the
      roll table gives exactly that face count. */
  lemma MaxRollIsNamedFaceCount(dieType: string)
    requires IsKnownType(dieType)
    ensures |dieType| >= 2 && dieType[0] == 'd'
    ensures MaxRoll(dieType) == NumeralValue(dieType[1..])
  {
    if dieType == "d4" {
      assert dieType[1..] == "4";
    } else if dieType == "d6" {
      assert dieType[1..] == "6";
    } else if dieType == "d8" {
      assert dieType[1..] == "8";
    } else if dieType == "d10" {
      assert dieType[1..] == "10" && "10"[..1] == "1";
    } else if dieType == "d12" {
      assert dieType[1..] == "12" && "12"[..1] == "1";
    } else if dieType == "d20" {
      assert dieType[1..] == "20" && "20"[..1] == "2";
    } else {
      assert dieType[1..] == "100" && "100"[..2] == "10" && "10"[..1] == "1";
    }
  }
}
