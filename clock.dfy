/**
 * The economic clock face laid over the Cartesian plane: clock positions
 * run clockwise from 12 o'clock, angles run counter-clockwise from the
 * positive x axis.  Cosine and sine are not computed: they are carried,
 * together with the value used for pi, in a `Trig` value that every
 * operation takes as a parameter.
 */
module Clock {

  /** A point, or a force, in the plane. */
  datatype Vec = Vec(x: real, y: real)

  const Zero: Vec := Vec(0.0, 0.0)

  function Add(a: Vec, b: Vec): Vec {
    Vec(a.x + b.x, a.y + b.y)
  }

  /** The trigonometry the engine uses: pi and cosine and sine on radians. */
  datatype Trig = Trig(pi: real, cos: real -> real, sin: real -> real)

  /** Cosine and sine repeat after a full turn. */
  ghost predicate Periodic(trig: Trig) {
    forall a: real :: trig.cos(a + 2.0 * trig.pi) == trig.cos(a) && trig.sin(a + 2.0 * trig.pi) == trig.sin(a)
  }

  /** The angle of a clock position, in degrees. */
  function ClockToDegrees(clock: real): real {
    90.0 - clock * 30.0
  }

  /** Degrees to radians. */
  function Radians(degrees: real, pi: real): real {
    degrees * pi / 180.0
  }

  /** The angle of a clock position, in radians. */
  function ClockToRad(clock: real, pi: real): real {
    Radians(ClockToDegrees(clock), pi)
  }

  /** The unit direction a clock position points in. */
  function Direction(clock: real, trig: Trig): Vec {
    var rad := ClockToRad(clock, trig.pi);
    Vec(trig.cos(rad), trig.sin(rad))
  }

  /** A force of the given strength pulling towards a clock position. */
  function Force(strength: real, clock: real, trig: Trig): Vec {
    var dir := Direction(clock, trig);
    Vec(strength * dir.x, strength * dir.y)
  }

  /** The clock face: 12 o'clock is the positive y axis (90 degrees), 3 o'clock the
      positive x axis (0), 6 o'clock the negative y axis, 9 o'clock the negative x
      axis, and each hour turns the angle 30 degrees clockwise; position 12 is a
      full turn after position 0. */
  lemma ClockFace(pi: real)
    ensures ClockToDegrees(0.0) == 90.0 && ClockToRad(0.0, pi) == pi / 2.0
    ensures ClockToDegrees(3.0) == 0.0 && ClockToRad(3.0, pi) == 0.0
    ensures ClockToDegrees(6.0) == -90.0 && ClockToRad(6.0, pi) == -pi / 2.0
    ensures ClockToDegrees(9.0) == -180.0 && ClockToRad(9.0, pi) == -pi
    ensures ClockToDegrees(12.0) == ClockToDegrees(0.0) - 360.0
    ensures ClockToRad(12.0, pi) == ClockToRad(0.0, pi) - 2.0 * pi
    ensures forall c: real :: ClockToDegrees(c + 1.0) == ClockToDegrees(c) - 30.0
  {
  }

  /** With periodic trigonometry, positions 0 and 12 point the same way. */
  lemma DirectionAtTwelve(trig: Trig)
    requires Periodic(trig)
    ensures Direction(12.0, trig) == Direction(0.0, trig)
  {
    ClockFace(trig.pi);
    var a := ClockToRad(12.0, trig.pi);
    assert a + 2.0 * trig.pi == ClockToRad(0.0, trig.pi);
  }

  /** A force at 3 o'clock lies on the x axis with its full strength, given cos 0 = 1
      and sin 0 = 0. */
  lemma ForceAtThree(strength: real, trig: Trig)
    requires trig.cos(0.0) == 1.0 && trig.sin(0.0) == 0.0
    ensures Force(strength, 3.0, trig) == Vec(strength, 0.0)
  {
    ClockFace(trig.pi);
  }
}
