/** The generator alphabet of the free group F2 = <sigma, tau> used by the
    scenes, and the rotation each generator stands for. A component is a
    plain integer, as in the scenes: the four generators are 0..3 and any
    other integer is an unknown component. */
module Generators {

  const Sigma: int := 0
  const Tau: int := 1
  const SigmaInv: int := 2
  const TauInv: int := 3

  /** One of the four named components. */
  predicate IsGenerator(c: int) {
    Sigma <= c <= TauInv
  }

  /** The formal inverse of a generator: sigma <-> sigma^-1, tau <-> tau^-1. */
  function Inverse(c: int): (r: int)
    requires IsGenerator(c)
    ensures IsGenerator(r) && r != c
    ensures Cancels(c, r)
  {
    (c + 2) % 4
  }

  /** Inverting twice gives the generator back. */
  lemma InverseIsInvolution(c: int)
    requires IsGenerator(c)
    ensures Inverse(Inverse(c)) == c
  {
  }

  /** The rejection loop's test: appending `next` right after `last` would
      cancel (x followed by x^-1). Only two different generators cancel. */
  predicate Cancels(last: int, next: int)
    ensures Cancels(last, next) ==> IsGenerator(last) && IsGenerator(next) && last != next
  {
    (next == Sigma && last == SigmaInv)
    || (next == SigmaInv && last == Sigma)
    || (next == Tau && last == TauInv)
    || (next == TauInv && last == Tau)
  }

  /** The four-way test agrees with the arithmetic inverse, and only
      generators ever cancel. */
  lemma CancelsIffInverse(last: int, next: int)
    ensures Cancels(last, next) <==> IsGenerator(last) && IsGenerator(next) && next == Inverse(last)
  {
  }

  /** Cancelling is symmetric: if y undoes x then x undoes y. */
  lemma CancelsSymmetric(x: int, y: int)
    ensures Cancels(x, y) <==> Cancels(y, x)
  {
  }

  /** The two rotation axes the scenes use: RIGHT (the x-axis) for sigma
      and UP (the y-axis) for tau. */
  datatype Axis = Right | Up

  /** A rotation about `axis` by `sign` times arccos(1/3) radians. The
      magnitude arccos(1/3) is kept symbolic; only its sign is modelled. */
  datatype Rotation = Rotation(axis: Axis, sign: int)

  /** The rotation a component stands for; an unknown component leaves the
      default (RIGHT, 0) in place. */
  function AxisAngleFromRotationComponent(c: int): (r: Rotation)
    ensures r.sign == -1 || r.sign == 0 || r.sign == 1
    ensures r.sign == 0 <==> !IsGenerator(c)
    ensures !IsGenerator(c) ==> r == Rotation(Right, 0)
    ensures IsGenerator(c) ==> (r.axis == Up <==> c == Tau || c == TauInv)
    ensures IsGenerator(c) ==> (r.sign == 1 <==> c == Sigma || c == Tau)
  {
    if c == Sigma then Rotation(Right, 1)
    else if c == SigmaInv then Rotation(Right, -1)
    else if c == Tau then Rotation(Up, 1)
    else if c == TauInv then Rotation(Up, -1)
    else Rotation(Right, 0)
  }

  /** Rotation b, played right after a, returns every point to where it was
      before a: same axis, equal magnitude, opposite sign, and not the
      identity. */
  predicate Undoes(a: Rotation, b: Rotation) {
    a.axis == b.axis && a.sign != 0 && b.sign == -a.sign
  }

  /** A generator and its inverse share an axis and have opposite angles. */
  lemma InverseRotation(c: int)
    requires IsGenerator(c)
    ensures AxisAngleFromRotationComponent(Inverse(c)).axis == AxisAngleFromRotationComponent(c).axis
    ensures AxisAngleFromRotationComponent(Inverse(c)).sign == -AxisAngleFromRotationComponent(c).sign
    ensures Undoes(AxisAngleFromRotationComponent(c), AxisAngleFromRotationComponent(Inverse(c)))
  {
  }

  /** The four generators stand for four different rotations. */
  lemma AxisAngleInjective(c: int, d: int)
    requires IsGenerator(c) && IsGenerator(d)
    requires AxisAngleFromRotationComponent(c) == AxisAngleFromRotationComponent(d)
    ensures c == d
  {
  }

  /** The rotation of `next` undoes the rotation of `last` exactly when the
      rejection loop's test fires: the loop rejects precisely the letters
      whose animation would undo the previous one. */
  lemma UndoesIffCancels(last: int, next: int)
    ensures Undoes(AxisAngleFromRotationComponent(last), AxisAngleFromRotationComponent(next))
            <==> Cancels(last, next)
  {
  }
}
