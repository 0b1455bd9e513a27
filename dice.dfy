/** A registry entry: the mesh, the physics body and the type name of one die,
    and the array operations the registry is updated with. */
module Dice {
  import opened Common

  datatype Die = Die(mesh: ObjId, body: BodyId, dieType: string)

  function BodiesOf(ds: seq<Die>): set<BodyId> {
    set d | d in ds :: d.body
  }

  function MeshesOf(ds: seq<Die>): set<ObjId> {
    set d | d in ds :: d.mesh
  }

  /** No die object is registered twice. */
  predicate Distinct(ds: seq<Die>) {
    forall i, j :: 0 <= i < j < |ds| ==> ds[i] != ds[j]
  }

  /** The index of the first entry equal to `d`, or -1 when there is none. */
  function IndexOf(ds: seq<Die>, d: Die): (i: int)
    ensures -1 <= i < |ds|
    ensures i == -1 <==> d !in ds
    ensures 0 <= i ==> ds[i] == d && d !in ds[..i]
  {
    if ds == [] then -1
    else if ds[0] == d then 0
    else
      var j := IndexOf(ds[1..], d);
      if j == -1 then -1 else j + 1
  }

  /** The entries of `ds` other than `d`, in their original order. */
  function Without(ds: seq<Die>, d: Die): (r: seq<Die>)
    ensures d !in r
    ensures forall x :: x in r <==> x in ds && x != d
  {
    if ds == [] then []
    else if ds[0] == d then Without(ds[1..], d)
    else [ds[0]] + Without(ds[1..], d)
  }

  /** Deletes the first occurrence of `d`: the index lookup followed by a
      one-element splice that the registry's removal performs. */
  function SpliceOut(ds: seq<Die>, d: Die): seq<Die> {
    var i := IndexOf(ds, d);
    if i > -1 then ds[..i] + ds[i + 1..] else ds
  }

  /** When `d` is registered at most once, the splice removes `d` altogether
      and keeps the other entries in their original order. */
  lemma {:induction false} SpliceOutIsWithout(ds: seq<Die>, d: Die)
    requires Distinct(ds)
    ensures SpliceOut(ds, d) == Without(ds, d)
  {
    if ds == [] {
    } else if ds[0] == d {
      DistinctTail(ds);
      WithoutAbsent(ds[1..], d);
    } else {
      DistinctTail(ds);
      SpliceOutIsWithout(ds[1..], d);
      SpliceOutCons(ds, d);
    }
  }

  /** When the first entry is kept, the splice acts on the rest. */
  lemma SpliceOutCons(ds: seq<Die>, d: Die)
    requires ds != [] && ds[0] != d
    ensures SpliceOut(ds, d) == [ds[0]] + SpliceOut(ds[1..], d)
  {
    var tail := ds[1..];
    var j := IndexOf(tail, d);
    if j > -1 {
      assert IndexOf(ds, d) == j + 1;
      assert ds[..j + 1] == [ds[0]] + tail[..j];
      assert ds[j + 2..] == tail[j + 1..];
    } else {
      assert ds == [ds[0]] + tail;
    }
  }

  /** Without its first entry, a duplicate-free registry stays duplicate-free
      and no longer holds that entry. */
  lemma DistinctTail(ds: seq<Die>)
    requires Distinct(ds) && ds != []
    ensures Distinct(ds[1..]) && ds[0] !in ds[1..]
  {
    var tail := ds[1..];
    forall i, j | 0 <= i < j < |tail| ensures tail[i] != tail[j] {
      assert ds[i + 1] != ds[j + 1];
    }
    forall k | 0 <= k < |tail| ensures tail[k] != ds[0] {
      assert ds[k + 1] != ds[0];
    }
  }

  /** Removing an entry that is not registered changes nothing. */
  lemma {:induction false} WithoutAbsent(ds: seq<Die>, d: Die)
    requires d !in ds
    ensures Without(ds, d) == ds
  {
    if ds != [] {
      WithoutAbsent(ds[1..], d);
      assert ds == [ds[0]] + ds[1..];
    }
  }

  /** Deleting `d` from a registry that holds it once shortens it by one. */
  lemma {:induction false} WithoutLength(ds: seq<Die>, d: Die)
    requires Distinct(ds) && d in ds
    ensures |Without(ds, d)| == |ds| - 1
  {
    DistinctTail(ds);
    if ds[0] == d {
      WithoutAbsent(ds[1..], d);
    } else {
      WithoutLength(ds[1..], d);
    }
  }
}
