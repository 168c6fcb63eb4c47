/**
 * One simulated force sensor (`SimulateSensor`): a position in simulation
 * space, a force reading and a flag recording whether an arrow was made for
 * it. The fields are changed in place through property setters and two update
 * methods; the getters and setters are methods here, one pair per property.
 */
module Sensors {
  import opened Geometry

  /** The value of a sensor's three fields at one moment. */
  datatype SensorState = SensorState(position: Vec3, forceReading: Vec3, hasArrow: bool)

  /** A sensor as `ForceSensorSimulator.AddSensor` creates it. */
  const Blank := SensorState(Zero, Zero, false)

  class SimulateSensor {
    var position: Vec3
    var forceReading: Vec3
    var hasArrow: bool

    /** The three fields as one value. */
    function State(): SensorState
      reads this
    {
      SensorState(position, forceReading, hasArrow)
    }

    /** A new sensor holds the C# default field values: zero vectors and no arrow. */
    constructor ()
      ensures State() == Blank
    {
      position, forceReading, hasArrow := Zero, Zero, false;
    }

    /** The `Position` getter. */
    method GetPosition() returns (p: Vec3)
      ensures p == position
    {
      p := position;
    }

    /** The `Position` setter: stores the value and touches no other field. */
    method SetPosition(value: Vec3)
      modifies this
      ensures State() == old(State()).(position := value)
    {
      position := value;
    }

    /** The `ForceReading` getter. */
    method GetForceReading() returns (f: Vec3)
      ensures f == forceReading
    {
      f := forceReading;
    }

    /** The `ForceReading` setter: stores the value and touches no other field. */
    method SetForceReading(value: Vec3)
      modifies this
      ensures State() == old(State()).(forceReading := value)
    {
      forceReading := value;
    }

    /** The `HasArrow` getter. */
    method GetHasArrow() returns (h: bool)
      ensures h == hasArrow
    {
      h := hasArrow;
    }

    /** The `HasArrow` setter: stores the value and touches no other field. */
    method SetHasArrow(value: bool)
      modifies this
      ensures State() == old(State()).(hasArrow := value)
    {
      hasArrow := value;
    }

    /** Copies the three components of `newPosition` into the position. */
    method UpdatePosition(newPosition: Vec3)
      modifies this
      ensures State() == old(State()).(position := newPosition)
    {
      position := Vec3(newPosition.x, newPosition.y, newPosition.z);
    }

    /** Copies the three components of `newForce` into the force reading. */
    method UpdateForceReading(newForce: Vec3)
      modifies this
      ensures State() == old(State()).(forceReading := newForce)
    {
      forceReading := Vec3(newForce.x, newForce.y, newForce.z);
    }
  }

  /**
   * A caller of the properties: whatever a property is set to is what it reads
   * back, and setting one property leaves the values read from the others as
   * they were set.
   */
  method SetThenGet(s: SimulateSensor, p: Vec3, f: Vec3, h: bool)
    returns (p': Vec3, f': Vec3, h': bool)
    modifies s
    ensures p' == p && f' == f && h' == h
  {
    s.SetPosition(p);
    s.SetForceReading(f);
    s.SetHasArrow(h);
    p' := s.GetPosition();
    f' := s.GetForceReading();
    h' := s.GetHasArrow();
  }
}
