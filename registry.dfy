/** The dice roller's discrete state as a value: the physics world's bodies,
    the scene's objects, the ordered dice registry, body velocities, the
    hover state and the displayed total; and the effect of each operation. */
module Registry {
  import opened Common
  import opened DieTypes
  import opened Dice
  import Hover

  datatype Roller = Roller(
    world: set<BodyId>,
    scene: set<ObjId>,
    dice: seq<Die>,
    spawned: set<Die>,      // every die object created so far, registered or not
    nextSerial: nat,
    motion: map<BodyId, Motion>,
    hover: Hover.HoverState,
    result: Option<int>)

  function DieBodies(world: set<BodyId>): set<BodyId> {
    set b | b in world && b.DieBody?
  }

  function DieMeshes(scene: set<ObjId>): set<ObjId> {
    set o | o in scene && o.DieMesh?
  }

  /** A die object: its body and mesh carry the same serial, issued earlier. */
  predicate IsDieObject(d: Die, nextSerial: nat) {
    d.body.DieBody? && d.mesh == DieMesh(d.body.serial) && d.body.serial < nextSerial
  }

  /** World, scene and registry agree: the dynamic bodies of the world and the
      die meshes of the scene are exactly those of the registered dice. */
  predicate Consistent(r: Roller) {
    (forall d | d in r.spawned :: IsDieObject(d, r.nextSerial)) &&
    (forall d1, d2 | d1 in r.spawned && d2 in r.spawned && d1.body == d2.body :: d1 == d2) &&
    (forall d | d in r.dice :: d in r.spawned && IsKnownType(d.dieType) && d.body in r.motion) &&
    Distinct(r.dice) &&
    DieBodies(r.world) == BodiesOf(r.dice) &&
    DieMeshes(r.scene) == MeshesOf(r.dice) &&
    Hover.Coherent(r.hover)
  }

  /** The state right after start-up: six static boundaries (floor, four
      walls, ceiling), two lights, no dice. */
  function Initial(): Roller {
    Roller({Boundary(0), Boundary(1), Boundary(2), Boundary(3), Boundary(4), Boundary(5)},
           {Light(0), Light(1)}, [], {}, 0, map[], Hover.Unhovered, None)
  }

  /** The die object a spawn creates: a new mesh and a new body. */
  function NewDie(r: Roller, dieType: string): Die {
    Die(DieMesh(r.nextSerial), DieBody(r.nextSerial), dieType)
  }

  /** Spawning a die of the given type. */
  function AddDie(r: Roller, dieType: string): Roller {
    if !IsKnownType(dieType) then r
    else
      var d := NewDie(r, dieType);
      r.(world := r.world + {d.body}, scene := r.scene + {d.mesh}, dice := r.dice + [d],
         spawned := r.spawned + {d}, nextSerial := r.nextSerial + 1,
         motion := r.motion[d.body := AtRest])
  }

  /** Removing one die: its body leaves the world, its mesh the scene, and its
      entry is spliced out of the registry if it is there. */
  function RemoveDie(r: Roller, d: Die): Roller {
    r.(world := r.world - {d.body}, scene := r.scene - {d.mesh}, dice := SpliceOut(r.dice, d))
  }

  /** Removing every registered die and the displayed total. */
  function ClearAll(r: Roller): Roller {
    r.(world := r.world - BodiesOf(r.dice), scene := r.scene - MeshesOf(r.dice), dice := [],
       result := None)
  }

  /** The registered die whose mesh is `obj`, if any. */
  function FindByMesh(ds: seq<Die>, obj: ObjId): (found: Option<Die>)
    ensures found.None? <==> obj !in MeshesOf(ds)
    ensures found.Some? ==> found.value in ds && found.value.mesh == obj
  {
    if ds == [] then None
    else if ds[0].mesh == obj then Some(ds[0])
    else FindByMesh(ds[1..], obj)
  }

  /** A click removes the die under the pointer; any other click changes nothing. */
  function OnClick(r: Roller, pick: Hover.Pick): Roller {
    if pick.Hit? then
      match FindByMesh(r.dice, pick.obj)
      case Some(d) => RemoveDie(r, d)
      case None => r
    else r
  }

  function OnHover(r: Roller, pick: Hover.Pick): Roller {
    r.(hover := Hover.OnHover(r.hover, MeshesOf(r.dice), pick))
  }

  /** The velocities after each die of `ds`, in order, is set to rest. */
  function StopAll(motion: map<BodyId, Motion>, ds: seq<Die>): map<BodyId, Motion> {
    if ds == [] then motion
    else StopAll(motion, ds[..|ds| - 1])[ds[|ds| - 1].body := AtRest]
  }

  /** Stopping one more die of the registry extends the stopped velocities by that die. */
  lemma StopAllSnoc(motion: map<BodyId, Motion>, ds: seq<Die>, i: nat)
    requires i < |ds|
    ensures StopAll(motion, ds[..i + 1]) == StopAll(motion, ds[..i])[ds[i].body := AtRest]
  {
    assert ds[..i + 1][..i] == ds[..i];
  }

  /** Stopping the dice rests exactly their bodies and leaves every other velocity as it was. */
  lemma {:induction false} StopAllEffect(motion: map<BodyId, Motion>, ds: seq<Die>)
    ensures StopAll(motion, ds).Keys == motion.Keys + BodiesOf(ds)
    ensures forall d | d in ds :: StopAll(motion, ds)[d.body] == AtRest
    ensures forall b | b in motion && b !in BodiesOf(ds) :: StopAll(motion, ds)[b] == motion[b]
  {
    if ds != [] {
      var n := |ds| - 1;
      StopAllEffect(motion, ds[..n]);
      assert ds == ds[..n] + [ds[n]];
      assert BodiesOf(ds) == BodiesOf(ds[..n]) + {ds[n].body};
      forall d | d in ds ensures StopAll(motion, ds)[d.body] == AtRest {
        if d != ds[n] {
          assert d in ds[..n];
        }
      }
    }
  }

  /** The settle step of a roll: the dice stop and `total` is displayed. */
  function Settle(r: Roller, total: int): Roller {
    r.(motion := StopAll(r.motion, r.dice), result := Some(total))
  }

  /** The impulse a roll gives: horizontal velocity within 10 of zero, upward
      velocity 3, every angular component within 15 of zero. */
  predicate Launched(m: Motion) {
    -10.0 <= m.velocity.x < 10.0 && m.velocity.y == 3.0 && -10.0 <= m.velocity.z < 10.0 &&
    -15.0 <= m.angularVelocity.x < 15.0 && -15.0 <= m.angularVelocity.y < 15.0 &&
    -15.0 <= m.angularVelocity.z < 15.0
  }

  // ---------------------------------------------------------------------------
  // Properties

  lemma InitialConsistent()
    ensures Consistent(Initial())
  {
    assert DieBodies(Initial().world) == {};
    assert DieMeshes(Initial().scene) == {};
  }

  /** A die object's body is in the world, and its mesh in the scene, exactly
      while the die is in the registry. */
  lemma PresentExactlyWhileRegistered(r: Roller, d: Die)
    requires Consistent(r) && d in r.spawned
    ensures d.body in r.world <==> d in r.dice
    ensures d.mesh in r.scene <==> d in r.dice
  {
    if d.body in r.world {
      assert d.body in BodiesOf(r.dice);
      var e :| e in r.dice && e.body == d.body;
    }
    if d.mesh in r.scene {
      assert d.mesh in MeshesOf(r.dice);
      var e :| e in r.dice && e.mesh == d.mesh;
      assert e.body == d.body;
    }
    if d in r.dice {
      assert d.body in BodiesOf(r.dice);
      assert d.mesh in MeshesOf(r.dice);
    }
  }

  /** The registry, the world's dynamic bodies and the scene's die meshes have the same size. */
  lemma CountsAgree(r: Roller)
    requires Consistent(r)
    ensures |DieBodies(r.world)| == |r.dice| == |DieMeshes(r.scene)|
  {
    ConsistentDistinctIds(r);
    DistinctIdsCount(r.dice);
  }

  /** No two entries share a body or a mesh. */
  predicate DistinctIds(ds: seq<Die>) {
    forall i, j :: 0 <= i < j < |ds| ==> ds[i].body != ds[j].body && ds[i].mesh != ds[j].mesh
  }

  lemma {:induction false} DistinctIdsCount(ds: seq<Die>)
    requires DistinctIds(ds)
    ensures |BodiesOf(ds)| == |ds| == |MeshesOf(ds)|
  {
    if ds != [] {
      var n := |ds| - 1;
      var front, last := ds[..n], ds[n];
      LastIdsAreNew(ds);
      DistinctIdsCount(front);
      assert ds == front + [last];
      IdsOfAppend(front, last);
    }
  }

  /** The last entry's body and mesh are not among the earlier entries'. */
  lemma LastIdsAreNew(ds: seq<Die>)
    requires DistinctIds(ds) && ds != []
    ensures DistinctIds(ds[..|ds| - 1])
    ensures ds[|ds| - 1].body !in BodiesOf(ds[..|ds| - 1])
    ensures ds[|ds| - 1].mesh !in MeshesOf(ds[..|ds| - 1])
  {
    var n := |ds| - 1;
    forall e | e in ds[..n] ensures e.body != ds[n].body && e.mesh != ds[n].mesh {
      var k :| 0 <= k < n && ds[..n][k] == e;
    }
  }

  lemma IdsOfAppend(ds: seq<Die>, d: Die)
    ensures BodiesOf(ds + [d]) == BodiesOf(ds) + {d.body}
    ensures MeshesOf(ds + [d]) == MeshesOf(ds) + {d.mesh}
  {
    assert forall x | x in ds + [d] :: x in ds || x == d;
  }

  /** Spawning rejects an unknown type without any change; a known type
      appends exactly one entry of that type, whose body and mesh are new to
      the world and the scene, and leaves earlier entries untouched. */
  lemma AddDieEffect(r: Roller, dieType: string)
    requires Consistent(r)
    ensures Consistent(AddDie(r, dieType))
    ensures !IsKnownType(dieType) ==> AddDie(r, dieType) == r
    ensures IsKnownType(dieType) ==>
      var r' := AddDie(r, dieType);
      var d := r'.dice[|r'.dice| - 1];
      r'.dice == r.dice + [d] && d.dieType == dieType &&
      d.body !in r.world && d.mesh !in r.scene &&
      r'.world == r.world + {d.body} && r'.scene == r.scene + {d.mesh} &&
      |DieBodies(r'.world)| == |DieBodies(r.world)| + 1
  {
    if IsKnownType(dieType) {
      var d := NewDie(r, dieType);
      NewDieIsFresh(r, dieType);
      AddDieConsistent(r, dieType);
      DieBodiesAdd(r.world, d.body);
    }
  }

  /** A spawned die's body and mesh are used by no earlier die object and are
      in neither the world nor the scene. */
  lemma NewDieIsFresh(r: Roller, dieType: string)
    requires Consistent(r)
    ensures forall e | e in r.spawned :: e.body != NewDie(r, dieType).body && e.mesh != NewDie(r, dieType).mesh
    ensures NewDie(r, dieType).body !in r.world && NewDie(r, dieType).mesh !in r.scene
  {
    var d := NewDie(r, dieType);
    forall e | e in r.spawned ensures e.body != d.body && e.mesh != d.mesh {
      assert IsDieObject(e, r.nextSerial);
    }
    forall e | e in r.dice ensures e.body != d.body && e.mesh != d.mesh {
      assert e in r.spawned;
    }
    assert d.body !in DieBodies(r.world);
    assert d.mesh !in DieMeshes(r.scene);
  }

  lemma AddDieConsistent(r: Roller, dieType: string)
    requires Consistent(r) && IsKnownType(dieType)
    ensures Consistent(AddDie(r, dieType))
  {
    var d := NewDie(r, dieType);
    var r' := AddDie(r, dieType);
    NewDieIsFresh(r, dieType);
    forall e | e in r'.spawned ensures IsDieObject(e, r'.nextSerial) {
      if e != d {
        assert IsDieObject(e, r.nextSerial);
      }
    }
    forall e | e in r'.dice ensures e in r'.spawned && IsKnownType(e.dieType) && e.body in r'.motion {
      if e != d {
        assert e in r.dice;
      }
    }
    assert Distinct(r'.dice) by {
      forall i, j | 0 <= i < j < |r'.dice| ensures r'.dice[i] != r'.dice[j] {
        if j == |r.dice| {
          assert r.dice[i] in r.spawned;
        } else {
          assert r'.dice[i] == r.dice[i] && r'.dice[j] == r.dice[j];
        }
      }
    }
    IdsOfAppend(r.dice, d);
    DieBodiesAdd(r.world, d.body);
    DieMeshesAdd(r.scene, d.mesh);
  }

  lemma DieBodiesAdd(world: set<BodyId>, b: BodyId)
    requires b.DieBody?
    ensures DieBodies(world + {b}) == DieBodies(world) + {b}
  {
  }

  lemma DieMeshesAdd(scene: set<ObjId>, o: ObjId)
    requires o.DieMesh?
    ensures DieMeshes(scene + {o}) == DieMeshes(scene) + {o}
  {
  }

  /** Removing a die object takes its body out of the world, its mesh out of
      the scene and its entry out of the registry, keeping the order of the
      other entries; removing it when it is no longer registered changes nothing. */
  lemma RemoveDieEffect(r: Roller, d: Die)
    requires Consistent(r) && d in r.spawned
    ensures var r' := RemoveDie(r, d);
      Consistent(r') && r'.dice == Without(r.dice, d) &&
      d.body !in r'.world && d.mesh !in r'.scene &&
      (d in r.dice ==> |r'.dice| == |r.dice| - 1) &&
      (d !in r.dice ==> r' == r)
  {
    var r' := RemoveDie(r, d);
    SpliceOutIsWithout(r.dice, d);
    PresentExactlyWhileRegistered(r, d);
    if d in r.dice {
      WithoutLength(r.dice, d);
    } else {
      WithoutAbsent(r.dice, d);
    }
    assert Distinct(r'.dice) by {
      WithoutDistinct(r.dice, d);
    }
    RemoveDieBodies(r, d);
    RemoveDieMeshes(r, d);
  }

  lemma RemoveDieBodies(r: Roller, d: Die)
    requires Consistent(r) && d in r.spawned
    ensures DieBodies(r.world - {d.body}) == BodiesOf(Without(r.dice, d))
  {
    var w := Without(r.dice, d);
    forall b ensures b in DieBodies(r.world - {d.body}) <==> b in BodiesOf(w) {
      if b in BodiesOf(w) {
        var e :| e in w && e.body == b;
        assert e in r.dice && e != d;
        assert e in r.spawned;
      }
      if b in BodiesOf(r.dice) && b != d.body {
        var e :| e in r.dice && e.body == b;
        assert e in w;
      }
    }
  }

  lemma RemoveDieMeshes(r: Roller, d: Die)
    requires Consistent(r) && d in r.spawned
    ensures DieMeshes(r.scene - {d.mesh}) == MeshesOf(Without(r.dice, d))
  {
    var w := Without(r.dice, d);
    forall o ensures o in DieMeshes(r.scene - {d.mesh}) <==> o in MeshesOf(w) {
      if o in MeshesOf(w) {
        var e :| e in w && e.mesh == o;
        assert e in r.dice && e != d;
        assert e in r.spawned;
        assert IsDieObject(e, r.nextSerial) && IsDieObject(d, r.nextSerial);
      }
      if o in MeshesOf(r.dice) && o != d.mesh {
        var e :| e in r.dice && e.mesh == o;
        assert e in w;
      }
    }
  }

  /** Removal is idempotent. */
  lemma RemoveDieIdempotent(r: Roller, d: Die)
    requires Consistent(r) && d in r.spawned
    ensures RemoveDie(RemoveDie(r, d), d) == RemoveDie(r, d)
  {
    RemoveDieEffect(r, d);
    RemoveDieEffect(RemoveDie(r, d), d);
  }

  lemma {:induction false} WithoutDistinct(ds: seq<Die>, d: Die)
    requires Distinct(ds)
    ensures Distinct(Without(ds, d))
  {
    if ds != [] {
      DistinctTail(ds);
      WithoutDistinct(ds[1..], d);
      if ds[0] != d {
        var w := Without(ds[1..], d);
        assert ds[0] !in w;
        forall i, j | 0 <= i < j < |w| + 1 ensures ([ds[0]] + w)[i] != ([ds[0]] + w)[j] {
          if i == 0 {
            assert ([ds[0]] + w)[j] == w[j - 1];
          }
        }
      }
    }
  }

  /** Clearing empties the registry, takes every registered body out of the
      world and every registered mesh out of the scene, keeps the boundaries
      and lights, and removes the displayed total. */
  lemma ClearAllEffect(r: Roller)
    requires Consistent(r)
    ensures var r' := ClearAll(r);
      Consistent(r') && r'.dice == [] && r'.result == None && r'.hover == r.hover &&
      DieBodies(r'.world) == {} && DieMeshes(r'.scene) == {} &&
      (forall d | d in r.spawned :: d.body !in r'.world && d.mesh !in r'.scene) &&
      (forall b | b in r.world && !b.DieBody? :: b in r'.world) &&
      (forall o | o in r.scene && !o.DieMesh? :: o in r'.scene)
  {
    var r' := ClearAll(r);
    assert DieBodies(r'.world) == {} by {
      forall b | b in r'.world ensures !b.DieBody? {
        assert b !in BodiesOf(r.dice);
      }
    }
    assert DieMeshes(r'.scene) == {} by {
      forall o | o in r'.scene ensures !o.DieMesh? {
        assert o !in MeshesOf(r.dice);
      }
    }
    assert MeshesOf([]) == {} && BodiesOf([]) == {};
  }

  /** A click on a registered die's mesh removes that die and nothing else;
      any other click leaves the roller unchanged. */
  lemma OnClickEffect(r: Roller, pick: Hover.Pick)
    requires Consistent(r)
    ensures Consistent(OnClick(r, pick))
    ensures pick.Hit? && pick.obj in MeshesOf(r.dice) ==>
      exists d :: d in r.dice && d.mesh == pick.obj &&
        OnClick(r, pick).dice == Without(r.dice, d) && OnClick(r, pick) == RemoveDie(r, d)
    ensures !(pick.Hit? && pick.obj in MeshesOf(r.dice)) ==> OnClick(r, pick) == r
  {
    if pick.Hit? && pick.obj in MeshesOf(r.dice) {
      var d := FindByMesh(r.dice, pick.obj).value;
      RemoveDieEffect(r, d);
    }
  }

  /** Hovering only touches the hover state, and keeps it coherent. */
  lemma OnHoverEffect(r: Roller, pick: Hover.Pick)
    requires Consistent(r)
    ensures Consistent(OnHover(r, pick))
    ensures OnHover(r, pick).(hover := r.hover) == r
  {
  }

  /** Settling stops every registered die and displays the total, keeping consistency. */
  lemma SettleEffect(r: Roller, total: int)
    requires Consistent(r)
    ensures Consistent(Settle(r, total))
    ensures forall d | d in r.dice :: Settle(r, total).motion[d.body] == AtRest
    ensures Settle(r, total).result == Some(total)
  {
    StopAllEffect(r.motion, r.dice);
    forall d | d in r.dice ensures d.body in BodiesOf(r.dice) {
    }
    assert BodiesOf(r.dice) <= r.motion.Keys;
  }

  /** Changing only velocities, without adding or dropping bodies, keeps consistency. */
  lemma MotionOnlyConsistent(r: Roller, motion: map<BodyId, Motion>)
    requires Consistent(r) && motion.Keys == r.motion.Keys
    ensures Consistent(r.(motion := motion))
  {
  }

  /** Consistency implies no two registered dice share a body or a mesh. */
  lemma ConsistentDistinctIds(r: Roller)
    requires Consistent(r)
    ensures DistinctIds(r.dice)
  {
    forall i, j | 0 <= i < j < |r.dice|
      ensures r.dice[i].body != r.dice[j].body && r.dice[i].mesh != r.dice[j].mesh
    {
      assert r.dice[i] in r.spawned && r.dice[j] in r.spawned;
    }
  }
}
