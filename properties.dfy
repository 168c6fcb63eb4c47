/**
 * What the simulator's operations amount to, stated over the pure passes the
 * methods of `ForceSensorSimulator` are specified by.
 */
module Properties {
  import opened Wrappers
  import opened Geometry
  import opened ColorRamp
  import opened Sensors
  import opened Arrows
  import opened Simulator

  /**
   * `AddSensor`: the appended sensor has a zero force, so the reconciliation
   * that follows leaves its new slot empty; the table stays consistent.
   */
  lemma AddSensorLeavesSlotEmpty(R: seq<SensorState>, ramp: Ramp, norm: Vec3 -> real, t: ArrowTable)
    requires |R| == |t.slots| && Live(t)
    ensures var t' := Reconcile(R + [Blank], ramp, norm, AppendSlot(t));
      |t'.slots| == |R| + 1 && t'.slots[|R|] == None && Live(t')
  {
    var R' := R + [Blank];
    AppendSlotLive(t);
    assert R'[|R|] == Blank;
    ReconcileKeepsStaleArrows(R', ramp, norm, AppendSlot(t));
    ReconcileSpec(R', ramp, norm, AppendSlot(t));
  }

  /**
   * `RemoveSensor`: the removed sensor's arrow is destroyed and stays destroyed
   * through the reconciliation that follows, while every other live arrow stays
   * live.
   */
  lemma RemoveSensorDestroysItsArrow(R: seq<SensorState>, ramp: Ramp, norm: Vec3 -> real, t: ArrowTable, sel: nat)
    requires |R| == |t.slots| && Live(t) && sel < |R|
    ensures var t' := Reconcile(RemoveAt(R, sel), ramp, norm, RemoveSlot(t, sel));
      && (t.slots[sel].Some? ==> t.slots[sel].value !in t'.scene)
      && (forall id :: id in t.scene && t.slots[sel] != Some(id) ==> id in t'.scene)
  {
    var t1 := RemoveSlot(t, sel);
    RemoveSlotLive(t, sel);
    ReconcileReusesArrows(RemoveAt(R, sel), ramp, norm, t1);
  }

  /**
   * `UpdateArrows` is idempotent: a second reconciliation with unchanged
   * sensors and ramp, as a deferred `Update` after a direct call performs,
   * changes nothing.
   */
  lemma ReconcileIdempotent(R: seq<SensorState>, ramp: Ramp, norm: Vec3 -> real, t: ArrowTable)
    requires |R| == |t.slots| && Live(t)
    ensures Reconcile(R, ramp, norm, Reconcile(R, ramp, norm, t)) == Reconcile(R, ramp, norm, t)
  {
    var t' := Reconcile(R, ramp, norm, t);
    ReconcileSpec(R, ramp, norm, t);
    ReconcileFromIdempotent(R, ramp, norm, 0, t');
  }

  /**
   * After `SetAllForces(f)` with a non-zero `f`, every slot holds a live arrow at
   * its sensor's unchanged position, scaled by the magnitude of `f`.
   */
  lemma SetAllForcesScalesEveryArrow(R: seq<SensorState>, f: Vec3, ramp: Ramp, norm: Vec3 -> real, t: ArrowTable)
    requires |R| == |t.slots| && Live(t) && f != Zero
    ensures var t' := Reconcile(WithForce(R, f), ramp, norm, t);
      forall k :: 0 <= k < |R| ==>
        && t'.slots[k].Some? && t'.slots[k].value in t'.scene
        && t'.scene[t'.slots[k].value].position == R[k].position
        && t'.scene[t'.slots[k].value].scale == norm(f)
  {
    ReconcileSpec(WithForce(R, f), ramp, norm, t);
  }

  /**
   * A sensor with force `(3, 4, 0)` is shown with scale `5`; under a threshold of
   * `10` its arrow takes the midpoint of the ramp, with the ramp's alpha.
   */
  lemma ThreeFourFiveArrow(p: Vec3, h: bool, ramp: Ramp, norm: Vec3 -> real)
    requires IsNorm(norm) && ramp.threshold == 10.0
    ensures var v := Visual(SensorState(p, Vec3(3.0, 4.0, 0.0), h), ramp, norm);
      v.position == p && v.scale == 5.0 && v.color == WithAlpha(Lerp(ramp.low, ramp.high, 0.5), ramp.alpha)
  {
    NormThreeFourFive(norm);
    ArrowColorHalfway(5.0, ramp.low, ramp.high, 10.0);
  }

  /**
   * The two colour setters recolour an arrow by the magnitude of its scale
   * vector `Vector3.one * m`, which is `sqrt(3) * m`, not by the force magnitude
   * `m`. With the default threshold 25, an arrow reconciled for a force of
   * magnitude 20 is below the threshold, so its red channel differs from the high
   * colour's (when the ramp's ends differ there); once recoloured, with no change
   * in force, it is given exactly the high colour.
   */
  lemma RecolourUsesScaleMagnitude(s: SensorState, ramp: Ramp, norm: Vec3 -> real)
    requires IsNorm(norm) && norm(s.forceReading) == 20.0
    requires ramp.threshold == 25.0 && ramp.low.r != ramp.high.r
    ensures Visual(s, ramp, norm).color.r != ramp.high.r
    ensures Retint(Visual(s, ramp, norm), ramp, norm).color == WithAlpha(ramp.high, ramp.alpha)
  {
    assert 20.0 / 25.0 == 0.8;
    MixReachesEnd(ramp.low.r, ramp.high.r, 0.8);
    var n := norm(Uniform(20.0));
    NormOfUniform(norm, 20.0);
    assert Sq(20.0) == 400.0 && Sq(25.0) == 625.0;
    SquareStrictMono(n, 25.0);
    assert 25.0 <= n;
  }
}
