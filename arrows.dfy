/**
 * The arrows of `ForceSensorSimulator` as values: the slot array that is kept
 * index-aligned with the sensors (a slot is empty or holds the handle of an
 * arrow), the engine's live arrow objects (`Instantiate` allocates a fresh
 * handle, `Destroy` frees one) and the passes that run over them:
 * reconciliation (`UpdateArrows`), recolouring (`SetLowForceColor` and
 * `SetHighForceColor`), removal of a slot (`RemoveSensor`) and appending an
 * empty slot (`AddSensor`).
 */
module Arrows {
  import opened Wrappers
  import opened Geometry
  import opened ColorRamp
  import opened Sensors

  /** A handle of an instantiated arrow object. */
  type ArrowId = nat

  /** What the engine shows of an arrow: its position, uniform scale and colour. */
  datatype ArrowVisual = ArrowVisual(position: Vec3, scale: real, color: Color)

  /**
   * The arrow slots (`arrows`), the live arrow objects by handle, and the next
   * handle `Instantiate` hands out.
   */
  datatype ArrowTable = ArrowTable(slots: seq<Option<ArrowId>>, scene: map<ArrowId, ArrowVisual>, next: ArrowId)

  /** The ramp settings of the simulator. */
  datatype Ramp = Ramp(low: Color, high: Color, alpha: real, threshold: real)

  /** The colour given to an arrow for magnitude `m`, with the ramp's transparency. */
  function Tint(m: real, ramp: Ramp): Color
  {
    WithAlpha(ArrowColor(m, ramp.low, ramp.high, ramp.threshold), ramp.alpha)
  }

  /**
   * How `UpdateArrows` dresses the arrow of a sensor: at the sensor's position,
   * scaled uniformly by the force magnitude, coloured by that magnitude.
   */
  function Visual(s: SensorState, ramp: Ramp, norm: Vec3 -> real): ArrowVisual
  {
    var m := norm(s.forceReading);
    ArrowVisual(s.position, m, Tint(m, ramp))
  }

  /**
   * How `SetLowForceColor` and `SetHighForceColor` recolour an arrow: by the
   * magnitude of its scale vector `Vector3.one * scale`, not by its scale.
   */
  function Retint(v: ArrowVisual, ramp: Ramp, norm: Vec3 -> real): ArrowVisual
  {
    v.(color := Tint(norm(Uniform(v.scale)), ramp))
  }

  // ---------------------------------------------------------------------------
  // Sequences

  /** The sequence without its element at `i`; later elements move down by one. */
  function RemoveAt<T>(s: seq<T>, i: nat): (r: seq<T>)
    requires i < |s|
    ensures |r| == |s| - 1
    ensures forall k :: 0 <= k < i ==> r[k] == s[k]
    ensures forall k :: i <= k < |r| ==> r[k] == s[k + 1]
  {
    s[..i] + s[i + 1..]
  }

  ghost predicate Distinct<T>(s: seq<T>)
  {
    forall j, k :: 0 <= j < k < |s| ==> s[j] != s[k]
  }

  /** Removing an element keeps the others distinct. */
  lemma RemoveAtDistinct<T>(s: seq<T>, i: nat)
    requires i < |s| && Distinct(s)
    ensures Distinct(RemoveAt(s, i))
  {
    var r := RemoveAt(s, i);
    forall j, k | 0 <= j < k < |r|
      ensures r[j] != r[k]
    {
      var j', k' := if j < i then j else j + 1, if k < i then k else k + 1;
      assert r[j] == s[j'] && r[k] == s[k'] && j' < k';
    }
  }

  // ---------------------------------------------------------------------------
  // Consistency of the slots and the live arrows

  /** Some slot holds the arrow `id`. */
  ghost predicate Held(slots: seq<Option<ArrowId>>, id: ArrowId)
  {
    exists k :: 0 <= k < |slots| && slots[k] == Some(id)
  }

  /**
   * Every slot holds a live arrow or none, no arrow is held twice, every live
   * arrow is held by a slot, and every handle in use is below the next one.
   */
  ghost predicate Live(t: ArrowTable)
  {
    && (forall k :: 0 <= k < |t.slots| && t.slots[k].Some? ==> t.slots[k].value in t.scene)
    && (forall j, k :: 0 <= j < k < |t.slots| && t.slots[j].Some? ==> t.slots[j] != t.slots[k])
    && (forall id :: id in t.scene ==> id < t.next && Held(t.slots, id))
  }

  /** Arrows outside slot `i` stay held when that slot is overwritten. */
  lemma HeldElsewhere(slots: seq<Option<ArrowId>>, i: nat, x: Option<ArrowId>, id: ArrowId)
    requires i < |slots| && Held(slots, id) && slots[i] != Some(id)
    ensures Held(slots[i := x], id)
  {
    var k :| 0 <= k < |slots| && slots[k] == Some(id);
    assert slots[i := x][k] == Some(id);
  }

  // ---------------------------------------------------------------------------
  // AddSensor: one more, empty slot

  function AppendSlot(t: ArrowTable): ArrowTable
  {
    t.(slots := t.slots + [None])
  }

  /** An empty slot appended to a consistent table keeps it consistent. */
  lemma AppendSlotLive(t: ArrowTable)
    requires Live(t)
    ensures Live(AppendSlot(t))
  {
    var t' := AppendSlot(t);
    forall id | id in t'.scene
      ensures Held(t'.slots, id)
    {
      var k :| 0 <= k < |t.slots| && t.slots[k] == Some(id);
      assert t'.slots[k] == Some(id);
    }
  }

  // ---------------------------------------------------------------------------
  // CreateArrows: a fresh table with one new arrow per sensor

  /** The slots of a fresh table: the `n` handles from `start` on, in order. */
  function Handles(start: ArrowId, n: nat): seq<Option<ArrowId>>
  {
    seq(n, k => Some(start + k))
  }

  /** The arrows made for the sensors `R`, the `k`-th under handle `start + k`. */
  function SpawnScene(R: seq<SensorState>, ramp: Ramp, norm: Vec3 -> real, start: ArrowId): map<ArrowId, ArrowVisual>
    decreases |R|
  {
    if R == [] then map[]
    else SpawnScene(R[..|R| - 1], ramp, norm, start)[start + |R| - 1 := Visual(R[|R| - 1], ramp, norm)]
  }

  /** The table `CreateArrows` builds, every old arrow destroyed, from handle `start` on. */
  function Spawn(R: seq<SensorState>, ramp: Ramp, norm: Vec3 -> real, start: ArrowId): ArrowTable
  {
    ArrowTable(Handles(start, |R|), SpawnScene(R, ramp, norm, start), start + |R|)
  }

  /** The `k`-th sensor's arrow is under handle `start + k`, and there are no others. */
  lemma {:induction false} SpawnSceneSpec(R: seq<SensorState>, ramp: Ramp, norm: Vec3 -> real, start: ArrowId)
    ensures forall id :: id in SpawnScene(R, ramp, norm, start) <==> start <= id < start + |R|
    ensures forall k :: 0 <= k < |R| ==> SpawnScene(R, ramp, norm, start)[start + k] == Visual(R[k], ramp, norm)
    decreases |R|
  {
    if R != [] {
      var P := R[..|R| - 1];
      SpawnSceneSpec(P, ramp, norm, start);
      forall k | 0 <= k < |P|
        ensures R[k] == P[k]
      {
      }
    }
  }

  /** A fresh table is consistent. */
  lemma SpawnLive(R: seq<SensorState>, ramp: Ramp, norm: Vec3 -> real, start: ArrowId)
    ensures Live(Spawn(R, ramp, norm, start))
  {
    var t := Spawn(R, ramp, norm, start);
    var H := Handles(start, |R|);
    assert t.slots == H;
    SpawnSceneSpec(R, ramp, norm, start);
    assert forall id :: id in t.scene <==> start <= id < start + |R|;
    forall id | id in t.scene
      ensures id < t.next && Held(H, id)
    {
      assert H[id - start] == Some(id);
    }
  }

  /**
   * A fresh table is consistent; it has one slot per sensor, the `k`-th holding
   * handle `start + k`; its arrows are exactly those handles (with the visuals
   * `SpawnSceneSpec` gives them); and the next handle follows them.
   */
  lemma SpawnSpec(R: seq<SensorState>, ramp: Ramp, norm: Vec3 -> real, start: ArrowId)
    ensures var t := Spawn(R, ramp, norm, start);
      && Live(t) && |t.slots| == |R| && t.next == start + |R|
      && (forall k :: 0 <= k < |R| ==> t.slots[k] == Some(start + k))
      && (forall id :: id in t.scene <==> start <= id < t.next)
  {
    SpawnLive(R, ramp, norm, start);
    SpawnSceneSpec(R, ramp, norm, start);
  }

  // ---------------------------------------------------------------------------
  // RemoveSensor: destroy the arrow of slot i and close the gap

  /** `Destroy` of the arrow a slot holds, if any. */
  function Forget(scene: map<ArrowId, ArrowVisual>, slot: Option<ArrowId>): map<ArrowId, ArrowVisual>
  {
    if slot.Some? then scene - {slot.value} else scene
  }

  function RemoveSlot(t: ArrowTable, i: nat): ArrowTable
    requires i < |t.slots|
  {
    ArrowTable(RemoveAt(t.slots, i), Forget(t.scene, t.slots[i]), t.next)
  }

  /**
   * Removing a slot from a consistent table keeps it consistent, its arrow is no
   * longer live, and every other arrow stays live and unchanged.
   */
  lemma RemoveSlotLive(t: ArrowTable, i: nat)
    requires i < |t.slots| && Live(t)
    ensures Live(RemoveSlot(t, i))
    ensures t.slots[i].Some? ==> t.slots[i].value !in RemoveSlot(t, i).scene
    ensures forall id :: id in t.scene && t.slots[i] != Some(id) ==>
      id in RemoveSlot(t, i).scene && RemoveSlot(t, i).scene[id] == t.scene[id]
  {
    var t' := RemoveSlot(t, i);
    forall k | 0 <= k < |t'.slots| && t'.slots[k].Some?
      ensures t'.slots[k].value in t'.scene
    {
      var k' := if k < i then k else k + 1;
      assert t'.slots[k] == t.slots[k'] && k' != i;
    }
    forall j, k | 0 <= j < k < |t'.slots| && t'.slots[j].Some?
      ensures t'.slots[j] != t'.slots[k]
    {
      var j', k' := if j < i then j else j + 1, if k < i then k else k + 1;
      assert t'.slots[j] == t.slots[j'] && t'.slots[k] == t.slots[k'] && j' < k';
    }
    forall id | id in t'.scene
      ensures Held(t'.slots, id)
    {
      var k :| 0 <= k < |t.slots| && t.slots[k] == Some(id);
      if k < i {
        assert t'.slots[k] == Some(id);
      } else {
        assert t'.slots[k - 1] == Some(id);
      }
    }
  }

  // ---------------------------------------------------------------------------
  // UpdateArrows: the reconciliation pass

  /**
   * One iteration of `UpdateArrows`, for slot `i`: a sensor with a zero force is
   * skipped; otherwise the slot's arrow, or a newly instantiated one when the
   * slot is empty, is given the sensor's visual.
   */
  function Step(R: seq<SensorState>, ramp: Ramp, norm: Vec3 -> real, i: nat, t: ArrowTable): (t': ArrowTable)
    requires i < |R| == |t.slots|
    ensures |t'.slots| == |t.slots|
  {
    if R[i].forceReading == Zero then t
    else
      var v := Visual(R[i], ramp, norm);
      match t.slots[i]
      case Some(id) => t.(scene := t.scene[id := v])
      case None => ArrowTable(t.slots[i := Some(t.next)], t.scene[t.next := v], t.next + 1)
  }

  /** The iterations of `UpdateArrows` from slot `i` on. */
  function ReconcileFrom(R: seq<SensorState>, ramp: Ramp, norm: Vec3 -> real, i: nat, t: ArrowTable): (t': ArrowTable)
    requires i <= |R| == |t.slots|
    ensures |t'.slots| == |R|
    decreases |R| - i
  {
    if i == |R| then t else ReconcileFrom(R, ramp, norm, i + 1, Step(R, ramp, norm, i, t))
  }

  /** The whole pass of `UpdateArrows`. */
  function Reconcile(R: seq<SensorState>, ramp: Ramp, norm: Vec3 -> real, t: ArrowTable): ArrowTable
    requires |R| == |t.slots|
  {
    ReconcileFrom(R, ramp, norm, 0, t)
  }

  /** Every sensor with a non-zero force has a live arrow showing its visual. */
  ghost predicate Reconciled(R: seq<SensorState>, ramp: Ramp, norm: Vec3 -> real, t: ArrowTable)
  {
    forall k :: 0 <= k < |R| && k < |t.slots| && R[k].forceReading != Zero ==>
      t.slots[k].Some? && t.slots[k].value in t.scene && t.scene[t.slots[k].value] == Visual(R[k], ramp, norm)
  }

  /** No slot from `i` on whose sensor has a non-zero force holds arrow `id`. */
  ghost predicate Untouched(R: seq<SensorState>, i: nat, slots: seq<Option<ArrowId>>, id: ArrowId)
  {
    forall k :: i <= k < |R| && k < |slots| && slots[k] == Some(id) ==> R[k].forceReading == Zero
  }

  /** One iteration changes slot `i` and its arrow only, and allocates at most the next handle. */
  lemma StepSpec(R: seq<SensorState>, ramp: Ramp, norm: Vec3 -> real, i: nat, t: ArrowTable)
    requires i < |R| == |t.slots| && Live(t)
    ensures var t' := Step(R, ramp, norm, i, t);
      && t.next <= t'.next
      && (forall k :: 0 <= k < |R| && k != i ==> t'.slots[k] == t.slots[k])
      && (R[i].forceReading == Zero ==> t' == t)
      && (R[i].forceReading != Zero ==>
            && t'.slots[i].Some? && t'.slots[i].value in t'.scene
            && t'.scene[t'.slots[i].value] == Visual(R[i], ramp, norm)
            && (t.slots[i].Some? ==> t'.slots[i] == t.slots[i])
            && (t.slots[i].None? ==> t'.slots[i] == Some(t.next)))
      && (forall id :: id in t.scene ==> id in t'.scene)
      && (forall id :: id in t'.scene ==> id in t.scene || t.next <= id)
      && (forall id :: id in t.scene && t.slots[i] != Some(id) ==> t'.scene[id] == t.scene[id])
  {
  }

  /** One iteration keeps a consistent table consistent. */
  lemma StepLive(R: seq<SensorState>, ramp: Ramp, norm: Vec3 -> real, i: nat, t: ArrowTable)
    requires i < |R| == |t.slots| && Live(t)
    ensures Live(Step(R, ramp, norm, i, t))
  {
    var t' := Step(R, ramp, norm, i, t);
    if R[i].forceReading != Zero && t.slots[i].None? {
      forall id | id in t'.scene
        ensures Held(t'.slots, id)
      {
        if id == t.next {
          assert t'.slots[i] == Some(id);
        } else {
          HeldElsewhere(t.slots, i, Some(t.next), id);
        }
      }
    }
  }

  /**
   * The iterations from slot `i` on leave earlier slots and the slots of zero-force
   * sensors as they were, fill every other slot (keeping its arrow, or with a
   * handle not handed out before), destroy nothing and allocate only new handles.
   */
  lemma {:induction false} ReconcileFromSlots(R: seq<SensorState>, ramp: Ramp, norm: Vec3 -> real, i: nat, t: ArrowTable)
    requires i <= |R| == |t.slots| && Live(t)
    ensures var t' := ReconcileFrom(R, ramp, norm, i, t);
      && |t'.slots| == |R| && t.next <= t'.next
      && (forall k :: 0 <= k < |R| && (k < i || R[k].forceReading == Zero) ==> t'.slots[k] == t.slots[k])
      && (forall k :: i <= k < |R| && R[k].forceReading != Zero ==>
            && t'.slots[k].Some?
            && (t.slots[k].Some? ==> t'.slots[k] == t.slots[k])
            && (t.slots[k].None? ==> t.next <= t'.slots[k].value))
      && (forall id :: id in t.scene ==> id in t'.scene)
      && (forall id :: id in t'.scene ==> id in t.scene || t.next <= id)
    decreases |R| - i
  {
    if i < |R| {
      StepSpec(R, ramp, norm, i, t);
      StepLive(R, ramp, norm, i, t);
      ReconcileFromSlots(R, ramp, norm, i + 1, Step(R, ramp, norm, i, t));
    }
  }

  /** The iterations from slot `i` on keep a consistent table consistent. */
  lemma {:induction false} ReconcileFromLive(R: seq<SensorState>, ramp: Ramp, norm: Vec3 -> real, i: nat, t: ArrowTable)
    requires i <= |R| == |t.slots| && Live(t)
    ensures Live(ReconcileFrom(R, ramp, norm, i, t))
    decreases |R| - i
  {
    if i < |R| {
      StepLive(R, ramp, norm, i, t);
      ReconcileFromLive(R, ramp, norm, i + 1, Step(R, ramp, norm, i, t));
    }
  }

  /**
   * After the iterations from slot `i` on, each of those slots whose sensor has a
   * non-zero force shows that sensor's visual, and every live arrow no such slot
   * holds is as it was.
   */
  lemma {:induction false} ReconcileFromVisuals(R: seq<SensorState>, ramp: Ramp, norm: Vec3 -> real, i: nat, t: ArrowTable)
    requires i <= |R| == |t.slots| && Live(t)
    ensures var t' := ReconcileFrom(R, ramp, norm, i, t);
      && (forall k :: i <= k < |R| && R[k].forceReading != Zero ==>
            t'.slots[k].Some? && t'.slots[k].value in t'.scene && t'.scene[t'.slots[k].value] == Visual(R[k], ramp, norm))
      && (forall id :: id in t.scene && Untouched(R, i, t.slots, id) ==> id in t'.scene && t'.scene[id] == t.scene[id])
    decreases |R| - i
  {
    if i < |R| {
      var t1 := Step(R, ramp, norm, i, t);
      StepSpec(R, ramp, norm, i, t);
      StepLive(R, ramp, norm, i, t);
      ReconcileFromSlots(R, ramp, norm, i + 1, t1);
      ReconcileFromVisuals(R, ramp, norm, i + 1, t1);
      if R[i].forceReading != Zero {
        assert Untouched(R, i + 1, t1.slots, t1.slots[i].value);
      }
      forall id | id in t.scene && Untouched(R, i, t.slots, id)
        ensures Untouched(R, i + 1, t1.slots, id)
      {
      }
    }
  }

  /**
   * `UpdateArrows` on a consistent table keeps it consistent and leaves every
   * sensor with a non-zero force with a live arrow showing its visual.
   */
  lemma ReconcileSpec(R: seq<SensorState>, ramp: Ramp, norm: Vec3 -> real, t: ArrowTable)
    requires |R| == |t.slots| && Live(t)
    ensures var t' := Reconcile(R, ramp, norm, t);
      Live(t') && Reconciled(R, ramp, norm, t') && t.next <= t'.next
  {
    ReconcileFromSlots(R, ramp, norm, 0, t);
    ReconcileFromLive(R, ramp, norm, 0, t);
    ReconcileFromVisuals(R, ramp, norm, 0, t);
  }

  /**
   * `UpdateArrows` skips the sensors whose force is zero: their slots keep what
   * they held, and an arrow left from an earlier non-zero force stays live with
   * its old position, scale and colour.
   */
  lemma ReconcileKeepsStaleArrows(R: seq<SensorState>, ramp: Ramp, norm: Vec3 -> real, t: ArrowTable)
    requires |R| == |t.slots| && Live(t)
    ensures var t' := Reconcile(R, ramp, norm, t);
      forall k :: 0 <= k < |R| && R[k].forceReading == Zero ==>
        && t'.slots[k] == t.slots[k]
        && (t.slots[k].Some? ==> t.slots[k].value in t'.scene && t'.scene[t.slots[k].value] == t.scene[t.slots[k].value])
  {
    ReconcileFromSlots(R, ramp, norm, 0, t);
    ReconcileFromVisuals(R, ramp, norm, 0, t);
    forall k | 0 <= k < |R| && R[k].forceReading == Zero && t.slots[k].Some?
      ensures Untouched(R, 0, t.slots, t.slots[k].value)
    {
    }
  }

  /**
   * `UpdateArrows` destroys no arrow, keeps the arrow of every filled slot, and
   * instantiates arrows only with handles not handed out before.
   */
  lemma ReconcileReusesArrows(R: seq<SensorState>, ramp: Ramp, norm: Vec3 -> real, t: ArrowTable)
    requires |R| == |t.slots| && Live(t)
    ensures var t' := Reconcile(R, ramp, norm, t);
      && (forall k :: 0 <= k < |R| && t.slots[k].Some? ==> t'.slots[k] == t.slots[k])
      && (forall k :: 0 <= k < |R| && t.slots[k].None? && t'.slots[k].Some? ==> t.next <= t'.slots[k].value)
      && (forall id :: id in t.scene ==> id in t'.scene)
      && (forall id :: id in t'.scene ==> id in t.scene || t.next <= id)
  {
    ReconcileFromSlots(R, ramp, norm, 0, t);
  }

  /** Reconciling an already reconciled table changes nothing. */
  lemma {:induction false} ReconcileFromIdempotent(R: seq<SensorState>, ramp: Ramp, norm: Vec3 -> real, i: nat, t: ArrowTable)
    requires i <= |R| == |t.slots| && Reconciled(R, ramp, norm, t)
    ensures ReconcileFrom(R, ramp, norm, i, t) == t
    decreases |R| - i
  {
    if i < |R| {
      if R[i].forceReading != Zero {
        var id := t.slots[i].value;
        assert t.scene[id := t.scene[id]] == t.scene;
        assert Step(R, ramp, norm, i, t) == t;
      }
      ReconcileFromIdempotent(R, ramp, norm, i + 1, t);
    }
  }

  // ---------------------------------------------------------------------------
  // SetLowForceColor / SetHighForceColor: recolour every held arrow

  /** The recolouring pass over the slots from `i` on. */
  function RetintFrom(ramp: Ramp, norm: Vec3 -> real, i: nat, t: ArrowTable): ArrowTable
    requires i <= |t.slots|
    decreases |t.slots| - i
  {
    if i == |t.slots| then t
    else match t.slots[i]
      case None => RetintFrom(ramp, norm, i + 1, t)
      case Some(id) =>
        var scene := if id in t.scene then t.scene[id := Retint(t.scene[id], ramp, norm)] else t.scene;
        RetintFrom(ramp, norm, i + 1, t.(scene := scene))
  }

  function RetintAll(ramp: Ramp, norm: Vec3 -> real, t: ArrowTable): ArrowTable
  {
    RetintFrom(ramp, norm, 0, t)
  }

  /** Some slot from `i` on holds arrow `id`. */
  ghost predicate HeldFrom(slots: seq<Option<ArrowId>>, i: nat, id: ArrowId)
  {
    exists k :: i <= k < |slots| && slots[k] == Some(id)
  }

  /** The pass from slot `i` on recolours exactly the arrows held from `i` on. */
  lemma {:induction false} RetintFromSpec(ramp: Ramp, norm: Vec3 -> real, i: nat, t: ArrowTable)
    requires i <= |t.slots|
    ensures var t' := RetintFrom(ramp, norm, i, t);
      && t'.slots == t.slots && t'.next == t.next
      && (forall id :: id in t'.scene <==> id in t.scene)
      && (forall id :: id in t.scene ==>
            t'.scene[id] == if HeldFrom(t.slots, i, id) then Retint(t.scene[id], ramp, norm) else t.scene[id])
    decreases |t.slots| - i
  {
    if i < |t.slots| {
      match t.slots[i]
      case None =>
        RetintFromSpec(ramp, norm, i + 1, t);
        forall id | id in t.scene
          ensures HeldFrom(t.slots, i, id) == HeldFrom(t.slots, i + 1, id)
        {
          if HeldFrom(t.slots, i, id) {
            var k :| i <= k < |t.slots| && t.slots[k] == Some(id);
            assert k != i;
          }
        }
      case Some(x) =>
        var scene := if x in t.scene then t.scene[x := Retint(t.scene[x], ramp, norm)] else t.scene;
        var t1 := t.(scene := scene);
        RetintFromSpec(ramp, norm, i + 1, t1);
        forall id | id in t.scene
          ensures RetintFrom(ramp, norm, i, t).scene[id] ==
            if HeldFrom(t.slots, i, id) then Retint(t.scene[id], ramp, norm) else t.scene[id]
        {
          if id == x {
            assert HeldFrom(t.slots, i, id);
          } else if HeldFrom(t.slots, i, id) {
            var k :| i <= k < |t.slots| && t.slots[k] == Some(id);
            assert k != i && HeldFrom(t.slots, i + 1, id);
          }
        }
    }
  }

  /**
   * Recolouring a consistent table keeps the slots and the set of live arrows,
   * and gives every live arrow the colour its scale vector's magnitude calls for,
   * leaving its position and scale as they were.
   */
  lemma RetintAllSpec(ramp: Ramp, norm: Vec3 -> real, t: ArrowTable)
    requires Live(t)
    ensures var t' := RetintAll(ramp, norm, t);
      && t'.slots == t.slots && t'.next == t.next && Live(t')
      && (forall id :: id in t'.scene <==> id in t.scene)
      && (forall id :: id in t.scene ==> t'.scene[id] == Retint(t.scene[id], ramp, norm))
  {
    RetintFromSpec(ramp, norm, 0, t);
    forall id | id in t.scene
      ensures HeldFrom(t.slots, 0, id)
    {
      var k :| 0 <= k < |t.slots| && t.slots[k] == Some(id);
    }
  }
}
