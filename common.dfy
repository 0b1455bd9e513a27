/** Identities and small value types shared by the dice roller and the dashboard. */
module Common {

  datatype Option<T> = None | Some(value: T)

  /** The set holding the value of `o`, if it has one. */
  function AsSet<T>(o: Option<T>): (s: set<T>)
    ensures o.None? <==> s == {}
    ensures o.Some? ==> s == {o.value}
  {
    if o.Some? then {o.value} else {}
  }

  /** A rigid body of the physics world: a static boundary built at start-up,
      or the body of a spawned die, identified by the die's serial number. */
  datatype BodyId = Boundary(index: nat) | DieBody(serial: nat)

  /** An object of the rendered scene: a light added at start-up, or the mesh
      of a spawned die. */
  datatype ObjId = Light(index: nat) | DieMesh(serial: nat)

  /** A three-component vector; the source's floating-point numbers are modelled as reals. */
  datatype Vec3 = Vec3(x: real, y: real, z: real)

  const Zero: Vec3 := Vec3(0.0, 0.0, 0.0)

  /** The linear and angular velocity of a body. */
  datatype Motion = Motion(velocity: Vec3, angularVelocity: Vec3)

  const AtRest: Motion := Motion(Zero, Zero)
}
