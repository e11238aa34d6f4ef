# Speed-limit controller

A Dafny model of openpilot's speed-limit controller
(`selfdrive/controls/lib/speed_limit_controller.py`). The controller runs once per longitudinal
control cycle and has two cooperating parts.

- **`SpeedLimitResolver`** (`resolver.dfy`, module `Resolver`) fuses two speed-limit sources
  into one `(limit, distance, source)` triple.
  - The car-state source is the cruise-state limit, always at distance 0.
  - The map-data source has a staleness cut-off of 10 s on the GPS fix. It corrects the
    distance to an upcoming limit by dead reckoning.
  - It also has a sticky tracker for a lower limit ahead. The tracker is armed only once the car
    is inside the distance needed to brake to that limit at -1.2 m/s².
  - Consolidation applies one of five policies. It drops values that are not positive
    ("unknown") and keeps the first smallest remaining one.
- **`SpeedLimitController`** (`controller.dfy`, module `Controller`) owns a resolver. On each
  cycle it:
  - refreshes its configuration flags at most every 2 s;
  - debounces the displayed limit asymmetrically: a decrease applies at once, while an
    increase may be held for 2 s;
  - computes the velocity error against the limit plus a percent offset that is interpolated
    over speed;
  - runs the four-state machine `inactive` / `tempInactive` / `adapting` / `active`;
  - rewrites the velocity target and the caller's lower acceleration bound in place;
  - emits at most one event.

Both classes are Dafny classes with the source's fields. Each mutating method is proved against a
pure function of the inputs and the old state:

| method | pure function |
|---|---|
| GetFromMapData | `MapDataSolution` |
| Consolidate | `Consolidated` |
| UpdateCalculations | `Debounce` |
| StateTransition | `NextState` |
| UpdateSolution | `Solution` |
| UpdateEvents | `CycleEvents` |

The properties the source promises are proved about those functions as `ensures` clauses and
lemmas. `wrappers.dfy` holds the `Option` type used for "no map message yet".

Speeds are m/s, distances m and times s, all as `real`. A limit of 0 means "no limit known".

## Model

| member | source | states |
|---|---|---|
| Resolver.CorrectedDistance | selfdrive/controls/lib/speed_limit_controller.py:116-118 | The dead-reckoned distance to the ahead limit is `max(0, raw - speed * fix age)`: never negative, never below `raw - speed * fix age`, and equal to 0 or to it. |
| Resolver.MapDataSolution | selfdrive/controls/lib/speed_limit_controller.py:86-144 | Without a map message, or with a fix older than 10 s, the map solution is (0, 0) whatever the validity flags, and the tracker is untouched. Otherwise the reported value is the current or the ahead limit. A non-zero distance comes only with the ahead limit. With no ahead limit, the car stopped, or the ahead limit above the displayed one, the result is the current limit and the tracker is cleared. A tracked ahead limit is reported unchanged. A new ahead limit inside the braking envelope is reported with its corrected distance and armed; outside it, the current limit is reported at distance 0 and the tracker cleared. |
| Resolver.SpeedLimitResolver.constructor | selfdrive/controls/lib/speed_limit_controller.py:60-69 | Empty solution stores; everything zero; source none. |
| Resolver.SpeedLimitResolver.Resolve | selfdrive/controls/lib/speed_limit_controller.py:71-80 | Stores speed and current limit. Returns exactly the consolidated candidate of `Resolution` for the snapshot, and leaves the tracker at `Resolution`'s new tracker. |
| Resolver.SpeedLimitResolver.GetFromCarState | selfdrive/controls/lib/speed_limit_controller.py:82-84 | The car-state entry becomes (cruise-state limit, 0); the map entry is unchanged. |
| Resolver.SpeedLimitResolver.GetFromMapData | selfdrive/controls/lib/speed_limit_controller.py:86-144 | The map entry and the tracker become those of `MapDataSolution`; the car-state entry is unchanged. |
| Resolver.SpeedLimitResolver.Consolidate | selfdrive/controls/lib/speed_limit_controller.py:146-190 | The stored (limit, distance, source) is `Consolidated` of the two stored readings. |
| Resolver.MaxLimit | selfdrive/controls/lib/speed_limit_controller.py:165 | The largest limit of a non-empty candidate list is one of its limits and bounds all of them. |
| Resolver.Selected | selfdrive/controls/lib/speed_limit_controller.py:151-174 | Every selected candidate is the car-state or the map-data one. |
| Resolver.SelectedCases | selfdrive/controls/lib/speed_limit_controller.py:151-174 | The selection per policy, in appending order, with the fallback only when the primary value is exactly 0. |
| Resolver.SelectedSources | selfdrive/controls/lib/speed_limit_controller.py:151-174 | The car-state candidate is selected iff the policy is car-state-only, car-state-priority or combined, or it is map-data-priority with a map value of exactly 0. The map candidate is symmetric. The primary source is appended first. |
| Resolver.Positive | selfdrive/controls/lib/speed_limit_controller.py:177-180 | The mask is no longer than its input and keeps only positive limits. |
| Resolver.PositiveMembers | selfdrive/controls/lib/speed_limit_controller.py:177-180 | The mask keeps exactly the candidates with a positive limit. |
| Resolver.PositiveConcat | selfdrive/controls/lib/speed_limit_controller.py:177-180 | The mask distributes over concatenation, so with `PositiveOne` it keeps the input's order and multiplicity. |
| Resolver.PositiveSource | selfdrive/controls/lib/speed_limit_controller.py:177-180 | The `k`-th kept candidate sits at an input index `m`, and the candidates kept before `m` are exactly the first `k` kept ones. |
| Resolver.FirstMin | selfdrive/controls/lib/speed_limit_controller.py:183 | The index is of a smallest limit, and every earlier limit is strictly larger. |
| Resolver.FirstMinUnique | selfdrive/controls/lib/speed_limit_controller.py:183 | That first-minimum index is unique. |
| Resolver.ArgMin | selfdrive/controls/lib/speed_limit_controller.py:183 | The linear scan returns the first index of a smallest limit. |
| Resolver.Lowest | selfdrive/controls/lib/speed_limit_controller.py:176-190 | The result is `(0, 0, none)` iff no candidate is positive. Otherwise it is one of the candidates, positive, and no larger than any positive candidate, and every positive candidate before its first occurrence is strictly larger (argmin's tie-break). |
| Resolver.FirstPositiveMin | selfdrive/controls/lib/speed_limit_controller.py:177-183 | The first minimum of the masked list is, in the unmasked list, a positive entry preceded only by entries that are not positive or are strictly larger. |
| Resolver.MinPositive | selfdrive/controls/lib/speed_limit_controller.py:176-190 | Masking then taking the argmin returns `Lowest`. |
| Resolver.Consolidated | selfdrive/controls/lib/speed_limit_controller.py:146-190 | The source is none iff the limit is 0, and then the whole result is empty. A non-zero result is positive and is the car-state or the map-data reading with its own distance and source. |
| Resolver.LowestSelectedIsConsolidated | selfdrive/controls/lib/speed_limit_controller.py:146-190 | The masked first-minimum over the policy's selection equals the per-policy closed form `Consolidated`. |
| Resolver.ConsolidatedIsMostRestrictive | selfdrive/controls/lib/speed_limit_controller.py:176-190 | The consolidation is empty iff every selected candidate is 0 or below. Otherwise it is a selected candidate no larger than any positive selected one. |
| Resolver.TieGoesToFirstAppended | selfdrive/controls/lib/speed_limit_controller.py:151-186 | Under combined, equal positive values resolve to car state, as argmin keeps the first. A positive primary value wins under either priority policy. |
| Resolver.Resolution | selfdrive/controls/lib/speed_limit_controller.py:71-190 | The distance is never negative. A car-state result is (cruise-state limit, 0, car state). A non-zero result is positive and has a source; a zero result is empty. The "only" policies never report the other source. Absent or stale map data is never reported and leaves the tracker as it was. |
| Resolver.ScenarioCarStateFallback | selfdrive/controls/lib/speed_limit_controller.py:165-174 | Under map-data priority with no map message, a 25 m/s cruise-state limit is reported. |
| Resolver.ScenarioAheadInsideEnvelope | selfdrive/controls/lib/speed_limit_controller.py:130-139 | At 30 m/s, a 20 m/s limit 200 m ahead is inside the braking envelope (about 208 m), so it is reported and tracked. |
| Controller.InterpBetween | selfdrive/controls/lib/speed_limit_controller.py:264 | The interpolated value never leaves the range of the table's values. |
| Controller.InterpAtBreakpoints | selfdrive/controls/lib/speed_limit_controller.py:264 | Interpolation returns the table value at each breakpoint, and the last value beyond the last breakpoint. |
| Controller.PercOffsetBounds | selfdrive/controls/lib/speed_limit_controller.py:20-22 | The percent offset lies in [3.8 %, 10 %]. It is 10 % up to 13.9 m/s, 5 % at 27.8 m/s and 3.8 % from 36.1 m/s. |
| Controller.PercOffsetAntitone | selfdrive/controls/lib/speed_limit_controller.py:20-22 | The percent offset never grows with the limit. |
| Controller.OffsetBounds | selfdrive/controls/lib/speed_limit_controller.py:257-265 | A disabled offset adds nothing, so the offseted limit is the limit. An enabled one adds between 3.8 % and 10 % of a non-negative limit. |
| Controller.ScenarioOffsetAtBreakpoint | selfdrive/controls/lib/speed_limit_controller.py:257-265 | A 27.8 m/s limit with the offset on gives 29.19 m/s. |
| Controller.Debounce | selfdrive/controls/lib/speed_limit_controller.py:294-309 | The displayed limit is the set value with distance `distance_set`, except in one case. It is held, with distance 0, exactly when the displayed value is non-zero, the set value is larger, delayed increase is on, and at most 2 s have passed since the set value changed. So a decrease always applies in the same cycle. |
| Controller.NextState | selfdrive/controls/lib/speed_limit_controller.py:322-365 | Disengaged, disabled or a zero limit gives inactive from any state. Outside tempInactive, the offset alone picks adapting (below -1 m/s) or active. TempInactive is left, for inactive, iff the displayed limit changed. No transition targets tempInactive. |
| Controller.RunNeverTempInactive | selfdrive/controls/lib/speed_limit_controller.py:322-365 | Starting outside tempInactive, no sequence of cycles reaches it, so the setter's snap side effect never fires. |
| Controller.Solution | selfdrive/controls/lib/speed_limit_controller.py:367-387 | Pass-through when inactive, tempInactive or with the gas pressed. Adapting gives the offseted limit with the lower bound tightened to `min(-1.2, acc[0])`. Active gives the offseted limit alone. The lower bound is never loosened. |
| Controller.CycleEvents | selfdrive/controls/lib/speed_limit_controller.py:389-399 | At most one event, and none unless the state is above tempInactive. Active is raised iff the previous state was at most tempInactive. Otherwise increase iff the set change is positive, and decrease iff it is negative. |
| Controller.SpeedLimitController.constructor | selfdrive/controls/lib/speed_limit_controller.py:196-223 | Flags from the parameter record, a map-data-priority resolver, acc limits [0, 0], inactive, everything else zero. |
| Controller.SpeedLimitController.VLimit | selfdrive/controls/lib/speed_limit_controller.py:225-227 | In the adapting and active states it is the solution's velocity; in the inactive and tempInactive states it is the upstream setpoint. What the solution's velocity holds after a cycle is stated by `Update`: the offset limit while active without gas, the setpoint otherwise. |
| Controller.SpeedLimitController.SetState | selfdrive/controls/lib/speed_limit_controller.py:237-251 | Entering tempInactive from another state snaps the displayed limit, its distance and its previous value to the set values. Any other assignment changes only the state. |
| Controller.SpeedLimitController.IsActive | selfdrive/controls/lib/speed_limit_controller.py:253-255 | True iff adapting or active. |
| Controller.SpeedLimitController.SpeedLimitOffseted | selfdrive/controls/lib/speed_limit_controller.py:257-259 | With the offset disabled the offseted limit is the displayed limit; otherwise it is never below a non-negative displayed limit nor above 110 % of it. |
| Controller.SpeedLimitController.SpeedLimitOffset | selfdrive/controls/lib/speed_limit_controller.py:261-265 | The offset is 0 when percent offset is disabled. |
| Controller.SpeedLimitController.UpdateParams | selfdrive/controls/lib/speed_limit_controller.py:279-286 | The three flags and the timestamp are refreshed iff more than 2 s have passed; otherwise nothing changes. |
| Controller.SpeedLimitController.UpdateCalculations | selfdrive/controls/lib/speed_limit_controller.py:288-320 | The change timestamp moves to `now` iff the set value differs from last cycle. The displayed limit and distance are `Debounce`'s. The velocity error is the offseted limit minus the speed. The change flags and set change are taken against the previous values, which then roll forward. |
| Controller.SpeedLimitController.StateTransition | selfdrive/controls/lib/speed_limit_controller.py:322-365 | The previous state is recorded and the new state is `NextState`. The displayed limit, distance and previous limit are unchanged, since the snap never fires from here. |
| Controller.SpeedLimitController.UpdateSolution | selfdrive/controls/lib/speed_limit_controller.py:367-387 | The velocity target and the caller's `acc[0]` are `Solution`'s. `acc[1]` and the array identity are unchanged. |
| Controller.SpeedLimitController.UpdateEvents | selfdrive/controls/lib/speed_limit_controller.py:389-399 | The events are the input ones followed by `CycleEvents`. |
| Controller.SpeedLimitController.Steps | selfdrive/controls/lib/speed_limit_controller.py:409-413 | The five steps after resolution, stated against the state before them: the flags and timestamp refresh iff more than 2 s have passed, the change timestamp, the `Debounce`d display, the velocity error, the change flags and set change, the rolled previous values, `NextState`, `Solution` with `acc[1]` kept, and the events gain `CycleEvents`. |
| Controller.SpeedLimitController.Decide | selfdrive/controls/lib/speed_limit_controller.py:411-413 | Transition, solution and events, composed; the displayed limit is unchanged. |
| Controller.SpeedLimitController.Update | selfdrive/controls/lib/speed_limit_controller.py:401-413 | One cycle, stated against the old state, in full so that cycles chain. The resolver's set value and new tracker are `Resolution`'s. The flags and timestamp refresh iff more than 2 s have passed. The display is `Debounce`d, the change flags and set change are taken against the previous values, which roll forward, and the state is `NextState`. A state outside tempInactive never enters it. The caller's acc array gets `Solution`, with `acc[1]` kept. `v_limit` is the offseted limit iff active without gas, otherwise the setpoint. The events gain `CycleEvents`. |

## Left out

- The parameter store is replaced by a `Params` record argument, and the clocks by time arguments.
  - The resolver's wall-clock read becomes `wallNow`.
  - The controller's two monotonic reads in one cycle become a single `monoNow`, as though both
    happened at the same instant.
- The cereal messages and the `SubMaster` become a `Snapshot` record. It holds only the fields
  the core reads, and an `Option` for "no map message yet".
- The `Events` container, including its mutable default argument, is modelled as a sequence of
  event names that `Update` returns extended.
- `common/numpy_fast.py` is not part of this model. `interp` is modelled by `Interp`: linear
  between breakpoints and held flat outside them.
- numpy's arrays, `append`, masking, `amax` and `argmin` are modelled as sequences, with an
  explicit first-minimum search.
- IEEE floating point is modelled as `real`. Equality tests such as the tracker comparison are
  exact real equality, and there is no rounding.
- The numeric order of the cereal states is assumed to be inactive < tempInactive < adapting <
  active, as `State.Rank` defines. The cereal schema is not part of this model.
- Logging (`_debug`, `_description_for_state`) is left out.
- These unused parts are left out:
  - the `CarInterface` imports;
  - the commented-out tempInactive triggers;
  - the stray `distance_to_map_speed_limit` write;
  - the unused `_is_metric` and `_v_turn` fields;
  - the read-only `state`, `speed_limit`, `distance`, `source` and `acc_limits` properties, which
    are the class fields themselves.
- `_v_limit` is not set by the source's constructor. The model starts it at 0, and this is never
  observed, because `v_limit` reads it only in an active state.
- On absent or stale map data `_get_from_map_data` returns early (lines 89-106) without touching
  `_next_speed_limit_prev`. The model does the same, as `MapDataSolution` and `Resolution` state.
- Controller.SpeedLimitController.SpeedLimitOffset: only the disabled case is stated on the
  accessor. Its bounds are proved about `Offset`, which it returns, in `OffsetBounds`.
- `Steps` and `Decide` are not methods of the source. They split `update` into stages so that
  each stage is proved separately.
