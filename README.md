# Force sensor simulator: sensor and arrow bookkeeping in Dafny

This project models the core of a Unity force-sensor visualiser.
`ForceSensorSimulator` keeps two index-aligned arrays:
- the simulated sensors (`SimulateSensor`: a position, a force reading and a `HasArrow` flag);
- the arrow objects that show each sensor's force, or an empty slot.

The model covers these operations:
- `CreateArrows`: the first batch of arrows, made in `Start`;
- the `UpdateArrows` reconciliation;
- the dirty flag that defers reconciliation to the next frame (`TriggerUpdateArrows` / `Update`);
- `AddSensor`, `RemoveSensor` (with its dropdown-selection clamping), `UpdateSelectedSensor` and `SetAllForces`;
- the colour ramp `GetArrowColor`;
- the two colour setters, which recolour every arrow;
- `UpdateThresholdValue`.

How the pieces are modelled:
- The sensor objects are a class whose fields the setters overwrite.
- The simulator is a class. Its `sensors` field is an `array<SimulateSensor>`, and its `arrows` field is an `array<Option<ArrowId>>`.
- The engine's scene is a map `scene` from arrow handles to what each live arrow shows (position, uniform scale, colour).
  - `Instantiate` hands out the handle `nextArrowId` and increments it.
  - `Destroy` removes a handle from the map.
- `Vector3.magnitude` is a function value `norm`. The model assumes only what defines it: it is never negative, and its square is `x² + y² + z²`.

Every method is proved against pure functions over an `ArrowTable`, the slots together with the scene and the next handle:
- `Spawn` for `CreateArrows`;
- `Reconcile` for `UpdateArrows`;
- `AppendSlot` and `RemoveSlot` for the array edits of `AddSensor` and `RemoveSensor`;
- `RetintAll` for the colour setters.

Lemmas about those functions state what the source promises:
- the tables stay consistent (`Live`: every slot holds a live arrow or none, no arrow is held twice, and every live arrow is held);
- zero-force slots are left untouched;
- every non-zero-force sensor ends up with an arrow at its position, scaled by its force magnitude;
- removal keeps order and destroys exactly the removed arrow;
- reconciliation is idempotent.

Where the code and its own comments differ, the model follows the code:
- `CreateArrows` makes an arrow for every sensor, including sensors with a zero force (they get scale 0). Its doc comment (`Assets/_Scripts/ForceSensorSimulator.cs:110-112`) says it creates arrows only for non-zero force readings.
- A sensor whose force goes back to zero keeps its stale arrow, with its old position, scale and colour (`Arrows.ReconcileKeepsStaleArrows`). The comment at `Assets/_Scripts/ForceSensorSimulator.cs:178-179` says such a sensor has no arrow.
- The colour setters recolour an arrow by `localScale.magnitude`. That is the length of `Vector3.one * m`, i.e. `sqrt(3) * m`, not the force magnitude `m` that `UpdateArrows` uses. So recolouring can change an arrow's colour with no change in force (`Properties.RecolourUsesScaleMagnitude`).
- No modelled operation sets `HasArrow` to true. The only assignment that would is in the `AddSensor` branch for a non-zero new force, and that branch cannot run because the new sensor's force is zero.

## Model

| member | source | states |
|---|---|---|
| Sensors.SimulateSensor.constructor | Assets/_Scripts/SimulateSensor.cs:13-17 | a new sensor has zero position, zero force and no arrow |
| Sensors.SimulateSensor.GetPosition | Assets/_Scripts/SimulateSensor.cs:22-23 | the getter returns the stored position |
| Sensors.SimulateSensor.SetPosition | Assets/_Scripts/SimulateSensor.cs:24 | the setter stores the value; force and flag are unchanged |
| Sensors.SimulateSensor.GetForceReading | Assets/_Scripts/SimulateSensor.cs:30-31 | the getter returns the stored force |
| Sensors.SimulateSensor.SetForceReading | Assets/_Scripts/SimulateSensor.cs:32-34 | the setter stores the value; position and flag are unchanged |
| Sensors.SimulateSensor.GetHasArrow | Assets/_Scripts/SimulateSensor.cs:37-38 | the getter returns the stored flag |
| Sensors.SimulateSensor.SetHasArrow | Assets/_Scripts/SimulateSensor.cs:39 | the setter stores the value; position and force are unchanged |
| Sensors.SimulateSensor.UpdatePosition | Assets/_Scripts/SimulateSensor.cs:46-48 | the position becomes the argument, component by component; the other fields are unchanged |
| Sensors.SimulateSensor.UpdateForceReading | Assets/_Scripts/SimulateSensor.cs:56-58 | the force becomes the argument, component by component; the other fields are unchanged |
| Sensors.SetThenGet | Assets/_Scripts/SimulateSensor.cs:15-40 | setting the three properties and reading them back returns the values set; each setter touches only its own field |
| Geometry.NormZeroIff | Assets/_Scripts/ForceSensorSimulator.cs:180-193 | the magnitude is zero exactly on the zero vector, so a skipped sensor is one with zero magnitude |
| Geometry.NormThreeFourFive | Assets/_Scripts/ForceSensorSimulator.cs:193 | the force (3, 4, 0) has magnitude 5 |
| Geometry.NormOfUniform | Assets/_Scripts/ForceSensorSimulator.cs:506 | the magnitude of a uniform scale `s` squares to `3 s²` and exceeds `s` for positive `s` |
| ColorRamp.Clamp01 | Assets/_Scripts/ForceSensorSimulator.cs:490 | `Mathf.Clamp01`: the factor clamped to `[0, 1]`; a definition, its use is stated by `ColorRamp.RatioBelowThreshold` |
| ColorRamp.Lerp | Assets/_Scripts/ForceSensorSimulator.cs:491 | `Color.Lerp`: channel-wise interpolation with a clamped factor; a definition, whose bounds and monotonicity `ColorRamp.MixBetween` and `ColorRamp.MixMonotone` state |
| ColorRamp.ArrowColor | Assets/_Scripts/ForceSensorSimulator.cs:484-494 | `GetArrowColor`: high at or above the threshold, otherwise the interpolation at the clamped ratio; a definition, whose properties the `ColorRamp.ArrowColor*` lemmas below state |
| ColorRamp.ArrowColorIsHighIff | Assets/_Scripts/ForceSensorSimulator.cs:484-494 | for a non-negative magnitude the colour is exactly the high colour iff the magnitude reaches the threshold or the two ends are equal |
| ColorRamp.ArrowColorAtZero | Assets/_Scripts/ForceSensorSimulator.cs:489-491 | a zero magnitude under a positive threshold gets exactly the low colour |
| ColorRamp.ArrowColorBetween | Assets/_Scripts/ForceSensorSimulator.cs:484-494 | every channel of the colour lies between the low and the high colour's channel |
| ColorRamp.ArrowColorMonotone | Assets/_Scripts/ForceSensorSimulator.cs:484-494 | a larger magnitude moves every channel no further from the high colour |
| ColorRamp.ArrowColorHalfway | Assets/_Scripts/ForceSensorSimulator.cs:490-491 | half the threshold gives `Lerp(low, high, 0.5)` |
| Arrows.Tint | Assets/_Scripts/ForceSensorSimulator.cs:197-198 | the arrow colour for a magnitude with the ramp's transparency as alpha; a definition, used by `Arrows.Visual` and `Arrows.Retint` |
| Arrows.Visual | Assets/_Scripts/ForceSensorSimulator.cs:188-222 | what a reconciled arrow shows: the sensor's position, its force magnitude as uniform scale, and the tinted colour; a definition, stated about by `Arrows.ReconcileSpec` and `Properties.ThreeFourFiveArrow` |
| Arrows.Retint | Assets/_Scripts/ForceSensorSimulator.cs:506-508 | a recoloured arrow: colour from the magnitude of its scale vector, position and scale kept; a definition, stated about by `Arrows.RetintAllSpec` and `Properties.RecolourUsesScaleMagnitude` |
| Arrows.RemoveAt | Assets/_Scripts/ForceSensorSimulator.cs:327-334 | dropping index `i` keeps earlier entries and moves every later entry down by one |
| Arrows.RemoveAtDistinct | Assets/_Scripts/ForceSensorSimulator.cs:327-334 | removing a sensor keeps the remaining sensor objects distinct |
| Arrows.AppendSlot | Assets/_Scripts/ForceSensorSimulator.cs:248 | one empty slot appended to the table; a definition, stated about by `Arrows.AppendSlotLive` and `Properties.AddSensorLeavesSlotEmpty` |
| Arrows.AppendSlotLive | Assets/_Scripts/ForceSensorSimulator.cs:248 | an empty slot appended to a consistent table keeps it consistent |
| Arrows.SpawnScene | Assets/_Scripts/ForceSensorSimulator.cs:126-153 | the arrows the creation loop instantiates, one per sensor in order; a definition, stated about by `Arrows.SpawnSceneSpec` |
| Arrows.Spawn | Assets/_Scripts/ForceSensorSimulator.cs:114-153 | the table `CreateArrows` builds: consecutive handles from `start`, their arrows, and the next handle; a definition, stated about by `Arrows.SpawnSpec` |
| Arrows.SpawnSceneSpec | Assets/_Scripts/ForceSensorSimulator.cs:126-153 | the `k`-th sensor's new arrow is under handle `start + k`, at its position, scaled and coloured by its magnitude; there are no other arrows |
| Arrows.SpawnLive | Assets/_Scripts/ForceSensorSimulator.cs:114-153 | the table `CreateArrows` builds is consistent |
| Arrows.SpawnSpec | Assets/_Scripts/ForceSensorSimulator.cs:114-153 | the table `CreateArrows` builds is consistent, has one slot per sensor (zero forces included), the `k`-th holding handle `start + k`, and its live arrows are exactly those handles |
| Arrows.Forget | Assets/_Scripts/ForceSensorSimulator.cs:322-324 | `Destroy` of the removed slot's arrow when there is one; a definition, stated about by `Arrows.RemoveSlotLive` |
| Arrows.RemoveSlot | Assets/_Scripts/ForceSensorSimulator.cs:320-334 | the table after a removal: slot `i` dropped and its arrow destroyed; a definition, stated about by `Arrows.RemoveSlotLive` and `Properties.RemoveSensorDestroysItsArrow` |
| Arrows.RemoveSlotLive | Assets/_Scripts/ForceSensorSimulator.cs:320-334 | removing slot `i` keeps the table consistent, destroys that slot's arrow and keeps every other live arrow as it was |
| Arrows.Step | Assets/_Scripts/ForceSensorSimulator.cs:176-222 | one iteration of the reconciliation loop; a definition, stated about by `Arrows.StepSpec` and `Arrows.StepLive` |
| Arrows.StepSpec | Assets/_Scripts/ForceSensorSimulator.cs:176-222 | one iteration changes only slot `i`; a zero force changes nothing; otherwise the slot keeps its arrow or gets the next handle, and the arrow shows the sensor's visual |
| Arrows.StepLive | Assets/_Scripts/ForceSensorSimulator.cs:204-222 | one iteration keeps the table consistent |
| Arrows.ReconcileFrom | Assets/_Scripts/ForceSensorSimulator.cs:174-224 | the pass keeps the number of slots equal to the number of sensors |
| Arrows.ReconcileFromSlots | Assets/_Scripts/ForceSensorSimulator.cs:174-224 | the remaining iterations keep earlier and zero-force slots, fill every other slot, destroy nothing and allocate only new handles |
| Arrows.ReconcileFromLive | Assets/_Scripts/ForceSensorSimulator.cs:174-224 | the remaining iterations keep the table consistent |
| Arrows.ReconcileFromVisuals | Assets/_Scripts/ForceSensorSimulator.cs:174-224 | each remaining non-zero-force slot shows its sensor's visual; arrows held by no such slot are unchanged |
| Arrows.Reconcile | Assets/_Scripts/ForceSensorSimulator.cs:174-224 | the whole reconciliation pass from slot 0; a definition, stated about by `Arrows.ReconcileSpec`, `Arrows.ReconcileKeepsStaleArrows`, `Arrows.ReconcileReusesArrows` and `Properties.ReconcileIdempotent` |
| Arrows.ReconcileSpec | Assets/_Scripts/ForceSensorSimulator.cs:174-224 | `UpdateArrows` keeps the table consistent and gives every non-zero-force sensor a live arrow at its position, scaled and coloured by its magnitude |
| Arrows.ReconcileKeepsStaleArrows | Assets/_Scripts/ForceSensorSimulator.cs:180-182 | zero-force slots keep what they held, and a stale arrow keeps its old visual |
| Arrows.ReconcileReusesArrows | Assets/_Scripts/ForceSensorSimulator.cs:185-222 | filled slots keep their arrow, empty ones get handles never used before, and no arrow is destroyed |
| Arrows.ReconcileFromIdempotent | Assets/_Scripts/ForceSensorSimulator.cs:174-224 | on a table that already shows every non-zero-force sensor, the pass changes nothing |
| Arrows.RetintFrom | Assets/_Scripts/ForceSensorSimulator.cs:504-510 | the recolouring loop from slot `i` on; a definition, stated about by `Arrows.RetintFromSpec` |
| Arrows.RetintAll | Assets/_Scripts/ForceSensorSimulator.cs:504-510 | the recolouring loop over every slot; a definition, stated about by `Arrows.RetintAllSpec` |
| Arrows.RetintFromSpec | Assets/_Scripts/ForceSensorSimulator.cs:504-510 | the recolouring pass from slot `i` recolours exactly the arrows held from `i` on and keeps the slots and the set of live arrows |
| Arrows.RetintAllSpec | Assets/_Scripts/ForceSensorSimulator.cs:504-510 | recolouring keeps slots, handles and live arrows; every live arrow takes the colour of its scale vector's magnitude and keeps its position and scale |
| Simulator.Parse3 | Assets/_Scripts/ForceSensorSimulator.cs:284-287 | three fields give a vector iff all three parse, with the parsed components |
| Simulator.Edit | Assets/_Scripts/ForceSensorSimulator.cs:282-300 | the position is replaced only when it parsed and the force only when it parsed, independently; the flag is unchanged |
| Simulator.WithForce | Assets/_Scripts/ForceSensorSimulator.cs:466-471 | every sensor's force becomes the given vector; positions and flags are unchanged |
| Simulator.Resize | Assets/_Scripts/ForceSensorSimulator.cs:244 | `Array.Resize` gives a new array whose prefix is the old contents; the new slots hold a fill value the caller chooses (`None` for the arrows, and for the sensors the new sensor the source stores next, at :245) |
| Simulator.Deserialize | Assets/_Scripts/ForceSensorSimulator.cs:46 | the saved sensors become distinct new objects holding the saved states |
| Simulator.ForceSensorSimulator.constructor | Assets/_Scripts/ForceSensorSimulator.cs:21-31 | defaults green/red/0.66/25, flag clear, first option selected; after `Start`, the table is the one `CreateArrows` builds from handle 0 |
| Simulator.ForceSensorSimulator.CreateArrows | Assets/_Scripts/ForceSensorSimulator.cs:114-158 | every old arrow is destroyed and the table becomes `Spawn` of the sensors from the next handle, in a new slot array |
| Simulator.ForceSensorSimulator.DestroyArrows | Assets/_Scripts/ForceSensorSimulator.cs:116-120 | destroying the held arrows of a consistent table leaves no live arrow |
| Simulator.ForceSensorSimulator.NewArrows | Assets/_Scripts/ForceSensorSimulator.cs:123-153 | the new slot array and scene are exactly `Spawn` of the sensors |
| Simulator.ForceSensorSimulator.InstallArrows | Assets/_Scripts/ForceSensorSimulator.cs:123-130 | installing the new slots and arrows gives a valid simulator whose table is `Spawn` |
| Simulator.ForceSensorSimulator.TriggerUpdateArrows | Assets/_Scripts/ForceSensorSimulator.cs:163-165 | the dirty flag is set |
| Simulator.ForceSensorSimulator.Update | Assets/_Scripts/ForceSensorSimulator.cs:100-107 | the table is reconciled iff the flag was set; the flag is then clear |
| Simulator.ForceSensorSimulator.UpdateArrows | Assets/_Scripts/ForceSensorSimulator.cs:171-229 | the loop leaves the table equal to `Reconcile` of the sensors and the old table; sensors unchanged; validity kept |
| Simulator.ForceSensorSimulator.AppendSensor | Assets/_Scripts/ForceSensorSimulator.cs:237-248 | one blank sensor appended, earlier sensors unchanged, one empty slot appended |
| Simulator.ForceSensorSimulator.AddSensor | Assets/_Scripts/ForceSensorSimulator.cs:235-272 | the sensors gain one blank sensor and the table is the reconciliation of the table with an empty slot appended |
| Simulator.ForceSensorSimulator.ShiftDown | Assets/_Scripts/ForceSensorSimulator.cs:327-330 | the loop moves every sensor and slot after `sel` down by one, both arrays alike |
| Simulator.ForceSensorSimulator.DropAt | Assets/_Scripts/ForceSensorSimulator.cs:327-334 | both arrays become new arrays with entry `sel` removed and order kept |
| Simulator.ForceSensorSimulator.RemoveSlotAt | Assets/_Scripts/ForceSensorSimulator.cs:320-334 | sensor `sel` removed, and the table becomes `RemoveSlot` of the old one (its arrow destroyed, the rest shifted) |
| Simulator.ForceSensorSimulator.RemoveSensor | Assets/_Scripts/ForceSensorSimulator.cs:316-356 | an in-range selection is removed and the selection becomes `min(sel, n-1)` (so `-1` when none remain); out of range, the sensors are unchanged; either way the table is then reconciled |
| Simulator.ForceSensorSimulator.UpdateSelectedSensor | Assets/_Scripts/ForceSensorSimulator.cs:279-310 | the selected sensor is edited as `Edit` says and no other; an out-of-range selection changes no sensor; reconciliation only when there are slots |
| Simulator.ForceSensorSimulator.SetAllForces | Assets/_Scripts/ForceSensorSimulator.cs:456-476 | every force becomes the slider vector, positions unchanged, then reconcile |
| Simulator.ForceSensorSimulator.SetLowForceColor | Assets/_Scripts/ForceSensorSimulator.cs:500-512 | the low colour is stored and the table becomes `RetintAll` of the old one under the new ramp |
| Simulator.ForceSensorSimulator.SetHighForceColor | Assets/_Scripts/ForceSensorSimulator.cs:518-530 | the high colour is stored and the table becomes `RetintAll` of the old one under the new ramp |
| Simulator.ForceSensorSimulator.RetintArrows | Assets/_Scripts/ForceSensorSimulator.cs:504-510 | the loop recolours every held arrow by its scale vector's magnitude; the set of live arrows is unchanged |
| Simulator.ForceSensorSimulator.UpdateThresholdValue | Assets/_Scripts/ForceSensorSimulator.cs:544-549 | the threshold takes the slider value, then the table is reconciled under the new ramp |
| Simulator.ForceSensorSimulator.SelectSensor | Assets/_Scripts/ForceSensorSimulator.cs:58 | the dropdown's value is the one picked |
| Properties.AddSensorLeavesSlotEmpty | Assets/_Scripts/ForceSensorSimulator.cs:235-269 | after `AddSensor` the new slot is empty, because the new sensor's force is zero; the table stays consistent |
| Properties.RemoveSensorDestroysItsArrow | Assets/_Scripts/ForceSensorSimulator.cs:320-352 | the removed sensor's arrow is gone after the following reconciliation; every other live arrow survives |
| Properties.ReconcileIdempotent | Assets/_Scripts/ForceSensorSimulator.cs:100-107 | reconciling twice with unchanged sensors and ramp equals reconciling once |
| Properties.SetAllForcesScalesEveryArrow | Assets/_Scripts/ForceSensorSimulator.cs:463-475 | after setting a non-zero force on all sensors, every slot holds a live arrow at its sensor's position, scaled by that force's magnitude |
| Properties.ThreeFourFiveArrow | Assets/_Scripts/ForceSensorSimulator.cs:193-198 | force (3, 4, 0) under threshold 10 gives scale 5 and the midpoint colour |
| Properties.RecolourUsesScaleMagnitude | Assets/_Scripts/ForceSensorSimulator.cs:506 | at threshold 25, an arrow for magnitude 20 is below the high colour, yet recolouring gives it exactly the high colour |

## Left out

- Unity rendering: the arrow's orientation (`transform.forward`, the normalised force), `transform.parent`, quaternions and materials. An arrow is its position, uniform scale and colour.
- Floating point: values are reals. There is no rounding, NaN or infinity. `Vector3 ==` is exact equality, though Unity's is approximate.
- `Vector3.magnitude` is characterised by `Geometry.IsNorm` rather than computed, since Dafny has no square root.
- UI text and dropdown population (`UpdateSensorsText`, `UpdateSensorDropdownOptions`, `UpdateSensorDataFields`, the `Update*ValText` methods, `UpdateThresholdText`) and `Debug.Log`: these write widgets (the dropdown's value is dealt with below).
- `float.TryParse` of the input fields is an `Option<real>` parameter per field. The slider values are parameters.
- The dropdown's own clamping of the value it is given is not modelled. `SelectSensor` stores any integer.
- `selection` is the value the source assigns to the dropdown (`Assets/_Scripts/ForceSensorSimulator.cs:337-348`). `UpdateSensorDropdownOptions` repopulates the dropdown with `ClearOptions` (:364) after `Start`, `AddSensor` and `RemoveSensor`; any reset of the dropdown's value by that repopulation is not modelled.
- The colour picker, the saturation/value control, the speech-recognition controllers and the UI panels (ColorPickerControl.cs, SVIControl.cs, LRControlTestI.cs, VoiceControlTestI.cs, ColorPickerUI.cs, SensorUI.cs): they are UI glue and platform wiring outside this model.
- Simulator.Deserialize: the sensors the inspector saved are modelled as distinct objects. Two array entries aliasing one object are not modelled.
- Simulator.ForceSensorSimulator.constructor: only the default ramp and an initial sensor list are modelled. The inspector can also override the ramp defaults.
- ColorRamp.ArrowColor: below the threshold, when the threshold is zero the float quotient is infinite and `Clamp01` takes it to 0; the model writes that case as factor 0. NaN is not modelled.
