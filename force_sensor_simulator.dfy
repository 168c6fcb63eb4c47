/**
 * `ForceSensorSimulator`: the parallel arrays of simulated sensors and of their
 * arrows, the colour ramp settings, the selected sensor of the dropdown, and
 * the operations the UI buttons, sliders and the per-frame `Update` call.
 *
 * The engine's scene is the map `scene` from arrow handles to what each live
 * arrow shows; `Instantiate` hands out the handle `nextArrowId` and `Destroy`
 * removes a handle from the map. `Vector3.magnitude` is the function `norm`.
 * The ghost field `Readings` holds the states of the sensor objects, in array
 * order, and every method is specified by the pure passes of module `Arrows`.
 */
module Simulator {
  import opened Wrappers
  import opened Geometry
  import opened ColorRamp
  import opened Sensors
  import opened Arrows

  /** A `float.TryParse` of three input fields: a vector only when all three parse. */
  function Parse3(x: Option<real>, y: Option<real>, z: Option<real>): (r: Option<Vec3>)
    ensures r.Some? <==> x.Some? && y.Some? && z.Some?
    ensures r.Some? ==> r.value.x == x.value && r.value.y == y.value && r.value.z == z.value
  {
    if x.Some? && y.Some? && z.Some? then Some(Vec3(x.value, y.value, z.value)) else None
  }

  /** A sensor after `UpdateSelectedSensor`: each vector is replaced only when it parsed. */
  function Edit(s: SensorState, position: Option<Vec3>, force: Option<Vec3>): (r: SensorState)
    ensures r.hasArrow == s.hasArrow
    ensures r.position == if position.Some? then position.value else s.position
    ensures r.forceReading == if force.Some? then force.value else s.forceReading
  {
    var s' := if position.Some? then s.(position := position.value) else s;
    if force.Some? then s'.(forceReading := force.value) else s'
  }

  /** The sensors after `SetAllForces`: every force reading replaced, positions kept. */
  function WithForce(R: seq<SensorState>, f: Vec3): (r: seq<SensorState>)
    ensures |r| == |R|
    ensures forall k :: 0 <= k < |R| ==> r[k] == R[k].(forceReading := f)
  {
    if R == [] then [] else [R[0].(forceReading := f)] + WithForce(R[1..], f)
  }

  function Min(a: int, b: int): int
  {
    if a <= b then a else b
  }

  /**
   * `Array.Resize`: a new array of length `n` holding the first elements of `a`;
   * the slots past the old length hold `fill`, chosen by the caller (the
   * element type's default, or the value the caller stores there next).
   */
  method Resize<T>(a: array<T>, n: nat, fill: T) returns (b: array<T>)
    ensures fresh(b) && b.Length == n
    ensures forall k :: 0 <= k < n ==> b[k] == if k < a.Length then a[k] else fill
    ensures n <= a.Length ==> b[..] == a[..n]
    ensures n == a.Length + 1 ==> b[..] == a[..] + [fill]
  {
    b := new T[n](_ => fill);
    var i := 0;
    while i < n && i < a.Length
      invariant 0 <= i <= n && i <= a.Length
      invariant forall k :: 0 <= k < n ==> b[k] == if k < i then a[k] else fill
    {
      b[i] := a[i];
      i := i + 1;
    }
  }

  /**
   * The sensor objects a scene was saved with, each created with its saved
   * state; `objs` collects the objects created.
   */
  method Deserialize(initial: seq<SensorState>) returns (a: array<SimulateSensor>, ghost objs: set<object>)
    ensures fresh(a) && a.Length == |initial| && Distinct(a[..])
    ensures forall k :: 0 <= k < a.Length ==> a[k] in objs && a[k].State() == initial[k]
    ensures forall o :: o in objs ==> fresh(o)
  {
    var placeholder := new SimulateSensor();
    a := new SimulateSensor[|initial|](_ => placeholder);
    objs := {placeholder};
    for i := 0 to |initial|
      invariant forall o :: o in objs ==> fresh(o)
      invariant forall k :: 0 <= k < a.Length ==> a[k] in objs
      invariant forall k :: 0 <= k < i ==> a[k] != placeholder && a[k].State() == initial[k]
      invariant forall j, k :: 0 <= j < k < i ==> a[j] != a[k]
    {
      var s := new SimulateSensor();
      s.UpdatePosition(initial[i].position);
      s.UpdateForceReading(initial[i].forceReading);
      s.SetHasArrow(initial[i].hasArrow);
      a[i] := s;
      objs := objs + {s};
    }
  }

  class ForceSensorSimulator {
    var lowForceColor: Color
    var highForceColor: Color
    var colorTransparency: real
    var colorChangeThreshold: real
    var sensors: array<SimulateSensor>
    var arrows: array<Option<ArrowId>>
    var updateArrowsNeeded: bool
    /** The value of the sensor dropdown. */
    var selection: int
    /** The live arrow objects of the engine's scene. */
    var scene: map<ArrowId, ArrowVisual>
    var nextArrowId: ArrowId
    /** `Vector3.magnitude` */
    const norm: Vec3 -> real

    ghost var Readings: seq<SensorState>
    ghost var Repr: set<object>

    /** The arrow slots, the live arrows and the next handle as one value. */
    ghost function Table(): ArrowTable
      reads this, arrows
    {
      ArrowTable(arrows[..], scene, nextArrowId)
    }

    function CurrentRamp(): Ramp
      reads this`lowForceColor, this`highForceColor, this`colorTransparency, this`colorChangeThreshold
    {
      Ramp(lowForceColor, highForceColor, colorTransparency, colorChangeThreshold)
    }

    /**
     * The sensor objects are distinct and hold `Readings`, the arrow slots and
     * the live arrows are consistent, and `norm` is the Euclidean length.
     */
    ghost predicate Stored()
      reads this, Repr
    {
      SensorsStored() && arrows in Repr && Live(Table())
    }

    /** The sensor half of `Stored`. */
    ghost predicate SensorsStored()
      reads this, Repr
    {
      && this in Repr && sensors in Repr
      && sensors.Length == |Readings|
      && (forall k :: 0 <= k < sensors.Length ==> sensors[k] in Repr && sensors[k].State() == Readings[k])
      && Distinct(sensors[..])
      && IsNorm(norm)
    }

    /** As `Stored`, with one arrow slot per sensor. */
    ghost predicate Valid()
      reads this, Repr
    {
      Stored() && arrows.Length == sensors.Length
    }

    /**
     * The component as a saved scene brings it up: the serialized sensors, the
     * default ramp (green to red, transparency 0.66, threshold 25), the first
     * dropdown option selected; then `Start` creates the first batch of arrows,
     * one per sensor.
     */
    constructor (initial: seq<SensorState>, norm: Vec3 -> real)
      requires IsNorm(norm)
      ensures Valid() && fresh(Repr)
      ensures Readings == initial && selection == 0 && !updateArrowsNeeded
      ensures CurrentRamp() == Ramp(Green, Red, 0.66, 25.0)
      ensures Table() == Spawn(initial, CurrentRamp(), norm, 0)
    {
      this.norm := norm;
      lowForceColor, highForceColor := Green, Red;
      colorTransparency, colorChangeThreshold := 0.66, 25.0;
      updateArrowsNeeded, selection := false, 0;
      var a, objs := Deserialize(initial);
      var none := new Option<ArrowId>[0];
      sensors, arrows, scene, nextArrowId := a, none, map[], 0;
      Readings := initial;
      Repr := {this, a, none} + objs;
      new;
      CreateArrows();
    }

    /**
     * `CreateArrows`: destroy every arrow held, then instantiate one arrow per
     * sensor, the handles following on from those already used.
     */
    method CreateArrows()
      requires Stored()
      modifies this`arrows, this`scene, this`nextArrowId, this`Repr
      ensures Valid() && fresh(arrows) && Repr == old(Repr) + {arrows}
      ensures Table() == Spawn(Readings, CurrentRamp(), norm, old(nextArrowId))
    {
      DestroyArrows();
      var created, sc, next := NewArrows();
      InstallArrows(created, sc, next);
    }

    /** The end of `CreateArrows`: the new slot array and its arrows replace the old ones. */
    method InstallArrows(created: array<Option<ArrowId>>, sc: map<ArrowId, ArrowVisual>, next: ArrowId)
      requires SensorsStored()
      requires ArrowTable(created[..], sc, next) == Spawn(Readings, CurrentRamp(), norm, nextArrowId)
      modifies this`arrows, this`scene, this`nextArrowId, this`Repr
      ensures Valid() && Repr == old(Repr) + {created} && arrows == created
      ensures Table() == Spawn(Readings, CurrentRamp(), norm, old(nextArrowId))
    {
      SpawnSpec(Readings, CurrentRamp(), norm, nextArrowId);
      arrows, scene, nextArrowId := created, sc, next;
      Repr := Repr + {arrows};
    }

    /** The first loop of `CreateArrows`: destroy the arrow of every filled slot. */
    method DestroyArrows()
      requires Live(Table())
      modifies this`scene
      ensures scene == map[]
    {
      ghost var T0 := Table();
      var sc := scene;
      for k := 0 to arrows.Length
        invariant forall id :: id in sc ==> id in T0.scene && forall j :: 0 <= j < k ==> arrows[j] != Some(id)
      {
        match arrows[k] {
          case Some(id) => sc := sc - {id};
          case None =>
        }
      }
      assert sc.Keys == {};
      scene := sc;
    }

    /**
     * The second loop of `CreateArrows`: a new slot array and, for each sensor in
     * turn, a newly instantiated arrow at its position, scaled and coloured by its
     * force magnitude.
     */
    method NewArrows() returns (created: array<Option<ArrowId>>, sc: map<ArrowId, ArrowVisual>, next: ArrowId)
      requires scene == map[] && sensors.Length == |Readings|
      requires forall k :: 0 <= k < sensors.Length ==> sensors[k].State() == Readings[k]
      ensures fresh(created)
      ensures ArrowTable(created[..], sc, next) == Spawn(Readings, CurrentRamp(), norm, nextArrowId)
    {
      var n := sensors.Length;
      created := new Option<ArrowId>[n](_ => None);
      sc, next := scene, nextArrowId;
      for i := 0 to n
        invariant next == nextArrowId + i
        invariant forall k :: 0 <= k < i ==> created[k] == Some(nextArrowId + k)
        invariant sc == SpawnScene(Readings[..i], CurrentRamp(), norm, nextArrowId)
      {
        var sensor := sensors[i];
        var position := sensor.GetPosition();
        var force := sensor.GetForceReading();
        var initialForceMagnitude := norm(force);
        created[i] := Some(next);
        sc := sc[next := ArrowVisual(position, initialForceMagnitude, Tint(initialForceMagnitude, CurrentRamp()))];
        next := next + 1;
        assert Readings[..i + 1][..i] == Readings[..i];
      }
      assert Readings[..n] == Readings;
      assert created[..] == Handles(nextArrowId, n);
    }

    /** `TriggerUpdateArrows`: ask for the arrows to be reconciled on the next frame. */
    method TriggerUpdateArrows()
      modifies this`updateArrowsNeeded
      ensures updateArrowsNeeded
    {
      updateArrowsNeeded := true;
    }

    /** `Update`: once per frame, reconcile the arrows if that was asked for. */
    method Update()
      requires Valid()
      modifies this`updateArrowsNeeded, this`scene, this`nextArrowId, arrows
      ensures Valid() && !updateArrowsNeeded
      ensures Table() == if old(updateArrowsNeeded) then Reconcile(Readings, CurrentRamp(), norm, old(Table())) else old(Table())
    {
      if updateArrowsNeeded {
        UpdateArrows();
        updateArrowsNeeded := false;
      }
    }

    /**
     * `UpdateArrows`: for every sensor with a non-zero force, move, scale and
     * colour its arrow, instantiating one when its slot is empty; sensors with a
     * zero force are skipped.
     */
    method UpdateArrows()
      requires Valid()
      modifies this`scene, this`nextArrowId, arrows
      ensures Valid()
      ensures Table() == Reconcile(Readings, CurrentRamp(), norm, old(Table()))
    {
      ghost var T0 := Table();
      var sc, next := scene, nextArrowId;
      var i := 0;
      while i < sensors.Length
        modifies arrows
        invariant 0 <= i <= sensors.Length
        invariant forall k :: 0 <= k < sensors.Length ==> sensors[k].State() == Readings[k]
        invariant ReconcileFrom(Readings, CurrentRamp(), norm, i, ArrowTable(arrows[..], sc, next)) == Reconcile(Readings, CurrentRamp(), norm, T0)
      {
        var sensor := sensors[i];
        var force := sensor.GetForceReading();
        if force != Zero {
          var position := sensor.GetPosition();
          var forceMagnitude := norm(force);
          var visual := ArrowVisual(position, forceMagnitude, Tint(forceMagnitude, CurrentRamp()));
          match arrows[i] {
            case Some(id) =>
              sc := sc[id := visual];
            case None =>
              arrows[i] := Some(next);
              sc := sc[next := visual];
              next := next + 1;
          }
        }
        i := i + 1;
      }
      scene, nextArrowId := sc, next;
      ReconcileSpec(Readings, CurrentRamp(), norm, T0);
    }

    /**
     * The appending part of `AddSensor`: a new sensor with zero position and
     * force and no arrow at the end of the sensors, and an empty slot at the
     * end of the arrows.
     */
    method AppendSensor()
      requires Valid()
      modifies this`sensors, this`arrows, this`Readings, this`Repr
      ensures Valid() && fresh(Repr - old(Repr)) && fresh(arrows)
      ensures Readings == old(Readings) + [Blank]
      ensures Table() == AppendSlot(old(Table()))
    {
      var newSensor := new SimulateSensor();
      newSensor.SetPosition(Zero);
      newSensor.SetForceReading(Zero);
      newSensor.SetHasArrow(false);
      ghost var S0, T0 := sensors[..], Table();
      sensors := Resize(sensors, sensors.Length + 1, newSensor);
      arrows := Resize(arrows, arrows.Length + 1, None);
      Readings := Readings + [newSensor.State()];
      Repr := Repr + {newSensor, sensors, arrows};
      assert Table() == AppendSlot(T0);
      AppendSlotLive(T0);
      assert newSensor !in S0;
    }

    /** `AddSensor`: append a sensor at rest with an empty arrow slot, then reconcile. */
    method AddSensor()
      requires Valid()
      modifies this`sensors, this`arrows, this`scene, this`nextArrowId, this`Readings, this`Repr
      ensures Valid() && fresh(Repr - old(Repr))
      ensures Readings == old(Readings) + [Blank]
      ensures Table() == Reconcile(Readings, CurrentRamp(), norm, AppendSlot(old(Table())))
    {
      AppendSensor();
      UpdateArrows();
    }

    /**
     * The shifting loop of `RemoveSensor`: every sensor and slot after `sel`
     * moves down by one; the last element of each array is left in place.
     */
    method ShiftDown(sel: nat)
      requires sel < sensors.Length == arrows.Length
      modifies sensors, arrows
      ensures sensors[..sensors.Length - 1] == RemoveAt(old(sensors[..]), sel)
      ensures arrows[..arrows.Length - 1] == RemoveAt(old(arrows[..]), sel)
    {
      ghost var S0, A0 := sensors[..], arrows[..];
      var i := sel;
      while i < sensors.Length - 1
        invariant sel <= i <= sensors.Length - 1
        invariant forall k :: 0 <= k < sel ==> sensors[k] == S0[k] && arrows[k] == A0[k]
        invariant forall k :: sel <= k < i ==> sensors[k] == S0[k + 1] && arrows[k] == A0[k + 1]
        invariant forall k :: i <= k < sensors.Length ==> sensors[k] == S0[k] && arrows[k] == A0[k]
      {
        sensors[i] := sensors[i + 1];
        arrows[i] := arrows[i + 1];
        i := i + 1;
      }
      assert sensors[..sensors.Length - 1] == RemoveAt(S0, sel);
    }

    /** The shifting loop of `RemoveSensor` followed by the two `Array.Resize` calls. */
    method DropAt(sel: nat)
      requires sel < sensors.Length == arrows.Length
      modifies this`sensors, this`arrows, sensors, arrows
      ensures fresh(sensors) && fresh(arrows)
      ensures sensors[..] == RemoveAt(old(sensors[..]), sel)
      ensures arrows[..] == RemoveAt(old(arrows[..]), sel)
    {
      ShiftDown(sel);
      sensors := Resize(sensors, sensors.Length - 1, sensors[0]);
      arrows := Resize(arrows, arrows.Length - 1, None);
    }

    /**
     * The removal part of `RemoveSensor`: destroy the arrow of slot `sel`, move
     * the later sensors and slots down by one, and drop the last element of both
     * arrays.
     */
    method RemoveSlotAt(sel: nat)
      requires Valid() && sel < sensors.Length
      modifies this`sensors, this`arrows, this`scene, this`Readings, this`Repr, sensors, arrows
      ensures Valid() && fresh(Repr - old(Repr)) && fresh(sensors) && fresh(arrows)
      ensures Readings == RemoveAt(old(Readings), sel)
      ensures Table() == RemoveSlot(old(Table()), sel)
    {
      ghost var T0, S0, R0 := Table(), sensors[..], Readings;
      match arrows[sel] {
        case Some(id) => scene := scene - {id};
        case None =>
      }
      DropAt(sel);
      Readings := RemoveAt(Readings, sel);
      Repr := Repr + {sensors, arrows};
      assert sensors[..] == RemoveAt(S0, sel);
      RemoveAtDistinct(S0, sel);
      assert Table() == RemoveSlot(T0, sel);
      RemoveSlotLive(T0, sel);
      forall k | 0 <= k < sensors.Length
        ensures sensors[k] in Repr && sensors[k].State() == Readings[k]
      {
        var k' := if k < sel then k else k + 1;
        assert sensors[k] == S0[k'] && Readings[k] == R0[k'];
      }
      assert Stored();
    }

    /**
     * `RemoveSensor`: when the dropdown selects a sensor, remove it and its arrow
     * and move the selection to the sensor now at that index (the last one, or
     * `-1` when none is left); then reconcile.
     */
    method RemoveSensor()
      requires Valid()
      modifies this`sensors, this`arrows, this`scene, this`nextArrowId, this`selection, this`Readings, this`Repr, sensors, arrows
      ensures Valid() && fresh(Repr - old(Repr))
      ensures var sel := old(selection);
        if 0 <= sel < |old(Readings)| then
          && Readings == RemoveAt(old(Readings), sel)
          && selection == Min(sel, |Readings| - 1)
          && Table() == Reconcile(Readings, CurrentRamp(), norm, RemoveSlot(old(Table()), sel))
        else
          && Readings == old(Readings) && selection == sel
          && Table() == Reconcile(Readings, CurrentRamp(), norm, old(Table()))
    {
      var selectedIndex := selection;
      if 0 <= selectedIndex < sensors.Length {
        RemoveSlotAt(selectedIndex);
        if sensors.Length > 0 {
          if selectedIndex >= sensors.Length {
            selection := sensors.Length - 1;
          } else {
            selection := selectedIndex;
          }
        } else {
          selection := -1;
        }
      }
      UpdateArrows();
    }

    /**
     * `UpdateSelectedSensor`: when the dropdown selects a sensor, replace its
     * position and its force by the input fields' values, each only when all
     * three of its fields parse; then reconcile when there are any arrow slots.
     */
    method UpdateSelectedSensor(posX: Option<real>, posY: Option<real>, posZ: Option<real>,
                                forceX: Option<real>, forceY: Option<real>, forceZ: Option<real>)
      requires Valid()
      modifies this`Readings, this`scene, this`nextArrowId, arrows, sensors[..]
      ensures Valid()
      ensures Readings == if 0 <= selection < |old(Readings)|
        then old(Readings)[selection := Edit(old(Readings)[selection], Parse3(posX, posY, posZ), Parse3(forceX, forceY, forceZ))]
        else old(Readings)
      ensures Table() == if |Readings| > 0 then Reconcile(Readings, CurrentRamp(), norm, old(Table())) else old(Table())
    {
      var selectedIndex := selection;
      if 0 <= selectedIndex < sensors.Length {
        var sensor := sensors[selectedIndex];
        var position := Parse3(posX, posY, posZ);
        if position.Some? {
          sensor.SetPosition(position.value);
        }
        var force := Parse3(forceX, forceY, forceZ);
        if force.Some? {
          sensor.SetForceReading(force.value);
        }
        Readings := Readings[selectedIndex := sensor.State()];
      }
      if arrows.Length > 0 {
        UpdateArrows();
      }
    }

    /** `SetAllForces`: give every sensor the same force reading, then reconcile. */
    method SetAllForces(allForces: Vec3)
      requires Valid()
      modifies this`Readings, this`scene, this`nextArrowId, arrows, sensors[..]
      ensures Valid()
      ensures Readings == WithForce(old(Readings), allForces)
      ensures Table() == Reconcile(Readings, CurrentRamp(), norm, old(Table()))
    {
      var i := 0;
      while i < sensors.Length
        modifies sensors[..]
        invariant 0 <= i <= sensors.Length
        invariant forall k :: 0 <= k < sensors.Length ==>
          sensors[k].State() == if k < i then Readings[k].(forceReading := allForces) else Readings[k]
      {
        sensors[i].SetForceReading(allForces);
        i := i + 1;
      }
      Readings := WithForce(Readings, allForces);
      UpdateArrows();
    }

    /** `SetLowForceColor`: store the colour, then recolour every held arrow. */
    method SetLowForceColor(newColor: Color)
      requires Valid()
      modifies this`lowForceColor, this`scene
      ensures Valid() && lowForceColor == newColor
      ensures Table() == RetintAll(CurrentRamp(), norm, old(Table()))
    {
      lowForceColor := newColor;
      RetintArrows();
    }

    /** `SetHighForceColor`: store the colour, then recolour every held arrow. */
    method SetHighForceColor(newColor: Color)
      requires Valid()
      modifies this`highForceColor, this`scene
      ensures Valid() && highForceColor == newColor
      ensures Table() == RetintAll(CurrentRamp(), norm, old(Table()))
    {
      highForceColor := newColor;
      RetintArrows();
    }

    /**
     * The recolouring loop shared by both colour setters: every held arrow is
     * given the colour of the magnitude of its scale vector.
     */
    method RetintArrows()
      requires Live(Table())
      modifies this`scene
      ensures Table() == RetintAll(CurrentRamp(), norm, old(Table()))
      ensures Live(Table())
      ensures forall id :: id in scene <==> id in old(scene)
      ensures forall id :: id in old(scene) ==> scene[id] == Retint(old(scene)[id], CurrentRamp(), norm)
    {
      ghost var T0 := Table();
      var sc := scene;
      var i := 0;
      while i < arrows.Length
        invariant 0 <= i <= arrows.Length
        invariant sc.Keys == scene.Keys
        invariant RetintFrom(CurrentRamp(), norm, i, ArrowTable(arrows[..], sc, nextArrowId)) == RetintAll(CurrentRamp(), norm, T0)
      {
        match arrows[i] {
          case Some(id) =>
            var arrow := sc[id];
            var scaleMagnitude := norm(Uniform(arrow.scale));
            sc := sc[id := arrow.(color := Tint(scaleMagnitude, CurrentRamp()))];
          case None =>
        }
        i := i + 1;
      }
      scene := sc;
      RetintAllSpec(CurrentRamp(), norm, T0);
    }

    /** `UpdateThresholdValue`: store the slider's threshold, then reconcile. */
    method UpdateThresholdValue(sliderValue: real)
      requires Valid()
      modifies this`colorChangeThreshold, this`scene, this`nextArrowId, arrows
      ensures Valid() && colorChangeThreshold == sliderValue
      ensures Table() == Reconcile(Readings, CurrentRamp(), norm, old(Table()))
    {
      colorChangeThreshold := sliderValue;
      UpdateArrows();
    }

    /** The user picks an option of the sensor dropdown. */
    method SelectSensor(value: int)
      modifies this`selection
      ensures selection == value
    {
      selection := value;
    }
  }
}
