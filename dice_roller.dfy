/** The dice roller as the page runs it: mutable world, scene, registry,
    hover and result state, changed in place by each handler. */
module Tabletop {
  import opened Common
  import opened DieTypes
  import opened Dice
  import opened RollOutcome
  import opened Registry
  import Hover

  class DiceRoller {
    var world: set<BodyId>
    var scene: set<ObjId>
    var dice: seq<Die>
    var nextSerial: nat
    var motion: map<BodyId, Motion>
    var hoveredDie: Option<ObjId>
    var highlighted: set<ObjId>
    var displayedResult: Option<int>
    ghost var spawned: set<Die>

    /** The abstract state the handlers are specified on. */
    ghost function Abs(): Roller
      reads this
    {
      Roller(world, scene, dice, spawned, nextSerial, motion,
             Hover.HoverState(hoveredDie, highlighted), displayedResult)
    }

    ghost predicate Valid()
      reads this
    {
      Consistent(Abs())
    }

    /** Start-up: the boundaries are in the world, the lights in the scene, no dice. */
    constructor ()
      ensures Valid() && Abs() == Initial()
    {
      world := {Boundary(0), Boundary(1), Boundary(2), Boundary(3), Boundary(4), Boundary(5)};
      scene := {Light(0), Light(1)};
      dice := [];
      nextSerial := 0;
      motion := map[];
      hoveredDie := None;
      highlighted := {};
      displayedResult := None;
      spawned := {};
      new;
      InitialConsistent();
    }

    /** Spawns a die of the named type, or rejects an unknown name without change. */
    method AddDieToRoller(dieType: string)
      requires Valid()
      modifies this
      ensures Valid() && Abs() == AddDie(old(Abs()), dieType)
    {
      ghost var after := AddDie(Abs(), dieType);
      AddDieEffect(Abs(), dieType);
      if !IsKnownType(dieType) {
        return;
      }
      var mesh := DieMesh(nextSerial);
      var body := DieBody(nextSerial);
      nextSerial := nextSerial + 1;
      motion := motion[body := AtRest];
      world := world + {body};
      scene := scene + {mesh};
      var die := Die(mesh, body, dieType);
      dice := dice + [die];
      spawned := spawned + {die};
      assert Abs() == after;
    }

    /** Removes one die object from the world, the scene and the registry. */
    method RemoveDie(die: Die)
      requires Valid() && die in spawned
      modifies this
      ensures Valid() && Abs() == Registry.RemoveDie(old(Abs()), die)
    {
      ghost var after := Registry.RemoveDie(Abs(), die);
      RemoveDieEffect(Abs(), die);
      world := world - {die.body};
      scene := scene - {die.mesh};
      var index := IndexOf(dice, die);
      if index > -1 {
        dice := dice[..index] + dice[index + 1..];
      }
      assert dice == after.dice;
      assert Abs() == after;
    }

    /** Removes every die, one at a time in registry order, then the displayed total. */
    method ClearAllDice()
      requires Valid()
      modifies this
      ensures Valid() && Abs() == ClearAll(old(Abs()))
    {
      ClearAllEffect(Abs());
      var i := 0;
      while i < |dice|
        invariant 0 <= i <= |dice|
        invariant dice == old(dice)
        invariant world == old(world) - BodiesOf(dice[..i])
        invariant scene == old(scene) - MeshesOf(dice[..i])
        invariant unchanged(this`motion, this`hoveredDie, this`highlighted, this`displayedResult)
        invariant unchanged(this`nextSerial, this`spawned)
      {
        assert dice[..i + 1] == dice[..i] + [dice[i]];
        world := world - {dice[i].body};
        scene := scene - {dice[i].mesh};
        i := i + 1;
      }
      assert dice[..i] == dice;
      dice := [];
      displayedResult := None;
    }

    /** A click removes the registered die whose mesh is under the pointer, if any. */
    method OnCanvasClick(pick: Hover.Pick)
      requires Valid()
      modifies this
      ensures Valid() && Abs() == OnClick(old(Abs()), pick)
    {
      OnClickEffect(Abs(), pick);
      if pick.Hit? {
        var found := FindByMesh(dice, pick.obj);
        if found.Some? {
          assert found.value in spawned;
          RemoveDie(found.value);
        }
      }
    }

    /** Pointer movement: moves the highlight to a newly hovered die, clears it
      when nothing is under the pointer. */
    method OnCanvasHover(pick: Hover.Pick)
      requires Valid()
      modifies this`hoveredDie, this`highlighted
      ensures Valid() && Abs() == Registry.OnHover(old(Abs()), pick)
    {
      OnHoverEffect(Abs(), pick);
      if pick.Hit? {
        var found := FindByMesh(dice, pick.obj);
        if found.Some? && Some(found.value.mesh) != hoveredDie {
          if hoveredDie.Some? {
            UnhighlightDie(hoveredDie.value);
          }
          hoveredDie := Some(found.value.mesh);
          HighlightDie(found.value.mesh);
        }
      } else {
        if hoveredDie.Some? {
          UnhighlightDie(hoveredDie.value);
        }
        hoveredDie := None;
      }
    }

    method HighlightDie(mesh: ObjId)
      modifies this`highlighted
      ensures highlighted == old(highlighted) + {mesh}
    {
      highlighted := highlighted + {mesh};
    }

    method UnhighlightDie(mesh: ObjId)
      modifies this`highlighted
      ensures highlighted == old(highlighted) - {mesh}
    {
      highlighted := highlighted - {mesh};
    }

    /** Gives every registered die a fresh random impulse: its velocity is
      first zeroed, then set to a launch velocity and spin. */
    method RollDice()
      requires Valid()
      modifies this`motion
      ensures Valid() && Abs() == old(Abs()).(motion := motion)
      ensures motion.Keys == old(motion).Keys
      ensures forall d | d in dice :: Launched(motion[d.body])
      ensures forall b | b in motion && b !in BodiesOf(dice) :: motion[b] == old(motion)[b]
    {
      assert forall d | d in dice :: d.body in motion;
      var launched := LaunchAll(dice, motion);
      MotionOnlyConsistent(Abs(), launched);
      motion := launched;
    }

    /** The settle step of a roll: draws one result per die in 1..MaxRoll of
      its type, stops every die, and displays the sum. */
    method ShowTotalRollResult() returns (total: int, ghost rolls: seq<int>)
      requires Valid()
      modifies this`motion, this`displayedResult
      ensures Valid() && Abs() == Settle(old(Abs()), total)
      ensures ValidRolls(dice, rolls) && total == Total(rolls)
      ensures |dice| <= total <= SumMax(dice)
      ensures forall d | d in dice :: motion[d.body] == AtRest
    {
      displayedResult := None;
      var stopped;
      total, rolls, stopped := SumAndStop(dice, motion);
      SettleEffect(Abs(), total);
      motion := stopped;
      displayedResult := Some(total);
    }
  }

  /** The loop of a roll: each die in turn has its velocity zeroed and then
    receives a launch impulse. */
  method LaunchAll(ds: seq<Die>, motion: map<BodyId, Motion>) returns (m: map<BodyId, Motion>)
    requires forall d | d in ds :: d.body in motion
    ensures m.Keys == motion.Keys
    ensures forall d | d in ds :: Launched(m[d.body])
    ensures forall b | b in motion && b !in BodiesOf(ds) :: m[b] == motion[b]
  {
    m := motion;
    var i := 0;
    while i < |ds|
      invariant 0 <= i <= |ds|
      invariant m.Keys == motion.Keys
      invariant forall d | d in ds[..i] :: Launched(m[d.body])
      invariant forall b | b in motion && b !in BodiesOf(ds[..i]) :: m[b] == motion[b]
    {
      var body := ds[i].body;
      assert ds[i] in ds;
      m := m[body := AtRest];
      var impulse := RandomImpulse();
      m := m[body := impulse];
      assert ds[..i + 1] == ds[..i] + [ds[i]];
      i := i + 1;
    }
    assert ds[..i] == ds;
  }

  /** One die's launch: horizontal velocity (random - 0.5) times the roll
    force 20, upward velocity 3, and each spin component (random - 0.5)
    times the roll torque 30, with every random number in [0, 1). */
  method RandomImpulse() returns (m: Motion)
    ensures Launched(m)
  {
    var rx: real :| 0.0 <= rx < 1.0;
    var rz: real :| 0.0 <= rz < 1.0;
    var ax: real :| 0.0 <= ax < 1.0;
    var ay: real :| 0.0 <= ay < 1.0;
    var az: real :| 0.0 <= az < 1.0;
    m := Motion(Vec3((rx - 0.5) * 20.0, 3.0, (rz - 0.5) * 20.0),
                Vec3((ax - 0.5) * 30.0, (ay - 0.5) * 30.0, (az - 0.5) * 30.0));
  }

  /** The loop of the settle step: each die in turn contributes one draw to
    the total and is stopped. */
  method SumAndStop(ds: seq<Die>, motion: map<BodyId, Motion>)
    returns (total: int, ghost rolls: seq<int>, m: map<BodyId, Motion>)
    ensures ValidRolls(ds, rolls) && total == Total(rolls)
    ensures |ds| <= total <= SumMax(ds)
    ensures m == StopAll(motion, ds)
  {
    m := motion;
    total := 0;
    rolls := [];
    var i := 0;
    while i < |ds|
      invariant 0 <= i <= |ds|
      invariant ValidRolls(ds[..i], rolls)
      invariant total == Total(rolls)
      invariant m == StopAll(motion, ds[..i])
    {
      var result := DrawResult(ds[i].dieType);
      ExtendRolls(ds, i, rolls, result);
      total := total + result;
      rolls := rolls + [result];
      StopAllSnoc(motion, ds, i);
      m := m[ds[i].body := AtRest];
      i := i + 1;
    }
    assert ds[..i] == ds;
    TotalBounds(ds, rolls);
  }

  /** One die's result: `Math.floor(Math.random() * maxRoll) + 1`, with the
    random integer part a nondeterministic choice in [0, maxRoll). */
  method DrawResult(dieType: string) returns (result: int)
    ensures 1 <= result <= MaxRoll(dieType)
  {
    var maxRoll := MaxRoll(dieType);
    var draw: int :| 0 <= draw < maxRoll;
    result := draw + 1;
  }
}
