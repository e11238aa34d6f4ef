/** The speed-limit controller: once per control cycle it resolves the limit, debounces the
    displayed value, runs the four-state machine and rewrites the velocity/acceleration bound. */
module Controller {
  import opened Wrappers
  import opened Resolver

  /** Minimum time (s) between two refreshes of the configuration flags. */
  const ParamsUpdatePeriod: real := 2.0
  /** Time (s) a raised limit is held back before it is displayed, when delayed increase is on. */
  const WaitTimeLimitRise: real := 2.0
  /** Velocity offset (m/s) below which the controller adapts (brakes) towards the limit. */
  const SpeedOffsetTh: real := -1.0

  /** The controller states; `Rank` is the numeric order the state comparisons use. */
  datatype State = Inactive | TempInactive | Adapting | Active {
    function Rank(): nat {
      match this
      case Inactive => 0
      case TempInactive => 1
      case Adapting => 2
      case Active => 3
    }
  }

  /** The events the controller may emit. */
  datatype EventName = SpeedLimitActive | SpeedLimitIncrease | SpeedLimitDecrease

  /** Current values of the configuration flags in the parameter store. */
  datatype Params = Params(speedLimitControl: bool, delayIncrease: bool, percOffset: bool)

  // ---------------------------------------------------------------------------------------------
  // Percent offset
  // ---------------------------------------------------------------------------------------------

  /** Strictly increasing breakpoints. */
  predicate Increasing(xp: seq<real>) {
    forall i :: 0 < i < |xp| ==> xp[i - 1] < xp[i]
  }

  /** One-dimensional linear interpolation of the table (`xp`, `fp`) at `x`, held flat at the first
      value left of the first breakpoint and at the last value right of the last one. */
  function Interp(x: real, xp: seq<real>, fp: seq<real>): real
    requires 1 <= |xp| == |fp| && Increasing(xp)
    decreases |xp|
  {
    if x <= xp[0] || |xp| == 1 then fp[0]
    else if x <= xp[1] then Segment(x, xp[0], xp[1], fp[0], fp[1])
    else Interp(x, xp[1..], fp[1..])
  }

  /** The value at `x` of the straight line through (`x0`, `f0`) and (`x1`, `f1`). */
  function Segment(x: real, x0: real, x1: real, f0: real, f1: real): real
    requires x0 < x1
  {
    (x - x0) * (f1 - f0) / (x1 - x0) + f0
  }

  /** The line passes through its right end point. */
  lemma SegmentEnd(x0: real, x1: real, f0: real, f1: real)
    requires x0 < x1
    ensures Segment(x1, x0, x1, f0, f1) == f1
  {
    assert (x1 - x0) * (f1 - f0) / (x1 - x0) == f1 - f0;
  }

  /** A point of a segment lies between the segment's end values. */
  lemma SegmentBetween(x: real, x0: real, x1: real, f0: real, f1: real, lo: real, hi: real)
    requires x0 < x <= x1
    requires lo <= f0 <= hi && lo <= f1 <= hi
    ensures lo <= Segment(x, x0, x1, f0, f1) <= hi
  {
    var t := (x - x0) / (x1 - x0);
    assert 0.0 < t <= 1.0;
    assert (x - x0) * (f1 - f0) / (x1 - x0) == t * (f1 - f0);
    assert t * (f1 - f0) + f0 == (1.0 - t) * f0 + t * f1;
    assert (1.0 - t) * lo <= (1.0 - t) * f0 <= (1.0 - t) * hi;
    assert t * lo <= t * f1 <= t * hi;
  }

  /** The interpolated value never leaves the range of the table's values. */
  lemma {:induction false} InterpBetween(x: real, xp: seq<real>, fp: seq<real>, lo: real, hi: real)
    requires 1 <= |xp| == |fp| && Increasing(xp)
    requires forall j :: 0 <= j < |fp| ==> lo <= fp[j] <= hi
    ensures lo <= Interp(x, xp, fp) <= hi
    decreases |xp|
  {
    if x <= xp[0] || |xp| == 1 {
      assert lo <= fp[0] <= hi;
    } else if x <= xp[1] {
      SegmentBetween(x, xp[0], xp[1], fp[0], fp[1], lo, hi);
    } else {
      assert forall j :: 0 <= j < |fp[1..]| ==> fp[1..][j] == fp[j + 1];
      InterpBetween(x, xp[1..], fp[1..], lo, hi);
    }
  }

  /** At a breakpoint the table's own value comes back; beyond the last one, the last value. */
  lemma {:induction false} InterpAtBreakpoints(x: real, xp: seq<real>, fp: seq<real>)
    requires 1 <= |xp| == |fp| && Increasing(xp)
    ensures forall k :: 0 <= k < |xp| && x == xp[k] ==> Interp(x, xp, fp) == fp[k]
    ensures x >= xp[|xp| - 1] ==> Interp(x, xp, fp) == fp[|fp| - 1]
    decreases |xp|
  {
    if |xp| > 1 {
      assert xp[0] < xp[1];
      if x > xp[1] {
        assert Increasing(xp[1..]);
        InterpAtBreakpoints(x, xp[1..], fp[1..]);
        assert forall k :: 1 <= k < |xp| ==> xp[1..][k - 1] == xp[k] && fp[1..][k - 1] == fp[k];
        assert x != xp[0];
      } else {
        IncreasingFrom(xp, 1);
        SegmentEnd(xp[0], xp[1], fp[0], fp[1]);
      }
    }
  }

  /** Every breakpoint after the `i`-th lies above it. */
  lemma IncreasingFrom(xp: seq<real>, i: nat)
    requires Increasing(xp) && i < |xp|
    ensures forall k :: i < k < |xp| ==> xp[i] < xp[k]
  {
    var k := i + 1;
    while k < |xp|
      invariant i < k <= |xp|
      invariant forall j :: i < j < k ==> xp[i] < xp[j]
    {
      assert xp[k - 1] < xp[k];
      k := k + 1;
    }
  }

  /** The speed-limit breakpoints (m/s) of the percent-offset table: 50, 100, 130 km/h. */
  const PercOffsetBp: seq<real> := [13.9, 27.8, 36.1]
  /** The percent offsets at those breakpoints. */
  const PercOffsetV: seq<real> := [0.1, 0.05, 0.038]

  /** The percent offset for a limit `v`, interpolated in the table. */
  function PercOffset(v: real): real {
    Interp(v, PercOffsetBp, PercOffsetV)
  }

  /** The percent offset stays between its end values and passes through every breakpoint. */
  lemma PercOffsetBounds(v: real)
    ensures 0.038 <= PercOffset(v) <= 0.1
    ensures v <= 13.9 ==> PercOffset(v) == 0.1
    ensures v == 27.8 ==> PercOffset(v) == 0.05
    ensures v >= 36.1 ==> PercOffset(v) == 0.038
  {
    InterpBetween(v, PercOffsetBp, PercOffsetV, 0.038, 0.1);
    InterpAtBreakpoints(v, PercOffsetBp, PercOffsetV);
  }

  /** The percent offset never grows with the limit. */
  lemma PercOffsetAntitone(v: real, w: real)
    requires v <= w
    ensures PercOffset(w) <= PercOffset(v)
  {
  }

  /** The share `p` of `x`. */
  function Scaled(p: real, x: real): real {
    p * x
  }

  /** A share between the smallest and the largest percent offset of a non-negative value lies
      between those shares of it. */
  lemma ScaledBounds(p: real, x: real)
    requires 0.038 <= p <= 0.1
    ensures x >= 0.0 ==> 0.038 * x <= Scaled(p, x) <= 0.1 * x
  {
    if x >= 0.0 {
      assert (p - 0.038) * x >= 0.0;
      assert (0.1 - p) * x >= 0.0;
    }
  }

  /** The offset added to a displayed limit: its percent offset times the limit when enabled,
      otherwise 0. Its bounds are stated in `OffsetBounds`. */
  function Offset(limit: real, offsetEnabled: bool): real {
    if offsetEnabled then Scaled(PercOffset(limit), limit) else 0.0
  }

  /** The displayed limit with its offset. */
  function Offseted(limit: real, offsetEnabled: bool): real {
    limit + Offset(limit, offsetEnabled)
  }

  /** A disabled offset adds nothing; an enabled one adds between 3.8 % and 10 % of a
      non-negative limit, so the offseted limit never lies below the limit itself. */
  lemma {:induction false} OffsetBounds(limit: real, offsetEnabled: bool)
    ensures !offsetEnabled ==> Offset(limit, false) == 0.0 && Offseted(limit, false) == limit
    ensures offsetEnabled && limit >= 0.0 ==> 0.038 * limit <= Offset(limit, true) <= 0.1 * limit
    ensures limit >= 0.0 ==> limit <= Offseted(limit, offsetEnabled) <= 1.1 * limit
  {
    PercOffsetBounds(limit);
    ScaledBounds(PercOffset(limit), limit);
  }

  // ---------------------------------------------------------------------------------------------
  // One-cycle specifications
  // ---------------------------------------------------------------------------------------------

  /** What is displayed after the debounce: a limit and the distance to it. */
  datatype Shown = Shown(limit: real, distance: real)

  /** The asymmetric debounce: the displayed limit follows the set value, except that an
      increase over a non-zero displayed limit is held while delayed increase is on and no more
      than `WaitTimeLimitRise` has passed since the set value last changed. */
  function Debounce(displayed: real, limitSet: real, distanceSet: real, delayIncrease: bool,
                    now: real, lastChangeTs: real): (r: Shown)
    ensures displayed != 0.0 && limitSet > displayed && delayIncrease && now <= lastChangeTs + WaitTimeLimitRise
            ==> r == Shown(displayed, 0.0)
    ensures !(displayed != 0.0 && limitSet > displayed && delayIncrease && now <= lastChangeTs + WaitTimeLimitRise)
            ==> r == Shown(limitSet, distanceSet)
    // tightening (or keeping) the limit always applies in the same cycle
    ensures limitSet <= displayed ==> r == Shown(limitSet, distanceSet)
    // an increase is applied at once when nothing was displayed or the delay is off
    ensures displayed == 0.0 || !delayIncrease ==> r == Shown(limitSet, distanceSet)
  {
    if displayed == limitSet then Shown(displayed, distanceSet)
    else if displayed == 0.0 || limitSet < displayed || !delayIncrease || now > lastChangeTs + WaitTimeLimitRise then
      Shown(limitSet, distanceSet)
    else Shown(displayed, 0.0)
  }

  /** The one state transition of a cycle. */
  function NextState(state: State, opEnabled: bool, isEnabled: bool, speedLimit: real,
                     vOffset: real, speedLimitChanged: bool): (r: State)
    // disengaged, disabled or no displayed limit: inactive, from any state
    ensures !opEnabled || !isEnabled || speedLimit == 0.0 ==> r == Inactive
    // otherwise, outside tempInactive, the offset alone decides between adapting and active
    ensures opEnabled && isEnabled && speedLimit != 0.0 && state != TempInactive ==>
              r == (if vOffset < SpeedOffsetTh then Adapting else Active)
    // tempInactive is left (for inactive) exactly when the displayed limit changed
    ensures opEnabled && isEnabled && speedLimit != 0.0 && state == TempInactive ==>
              r == (if speedLimitChanged then Inactive else TempInactive)
    // no transition ever targets tempInactive
    ensures r == TempInactive ==> state == TempInactive
  {
    if !opEnabled || !isEnabled || speedLimit == 0.0 then Inactive
    else
      match state
      case Inactive => if vOffset < SpeedOffsetTh then Adapting else Active
      case TempInactive => if speedLimitChanged then Inactive else TempInactive
      case Adapting => if vOffset >= SpeedOffsetTh then Active else Adapting
      case Active => if vOffset < SpeedOffsetTh then Adapting else Active
  }

  /** The inputs of one state transition. */
  datatype Step = Step(opEnabled: bool, isEnabled: bool, speedLimit: real, vOffset: real,
                       speedLimitChanged: bool)

  /** The state after a sequence of cycles. */
  function Run(state: State, steps: seq<Step>): State
    decreases |steps|
  {
    if steps == [] then state
    else
      var s := steps[0];
      Run(NextState(state, s.opEnabled, s.isEnabled, s.speedLimit, s.vOffset, s.speedLimitChanged),
          steps[1..])
  }

  /** Starting outside tempInactive (the initial state is inactive), no sequence of cycles ever
      reaches tempInactive. */
  lemma {:induction false} RunNeverTempInactive(state: State, steps: seq<Step>)
    requires state != TempInactive
    ensures Run(state, steps) != TempInactive
    decreases |steps|
  {
    if steps != [] {
      var s := steps[0];
      RunNeverTempInactive(
        NextState(state, s.opEnabled, s.isEnabled, s.speedLimit, s.vOffset, s.speedLimitChanged),
        steps[1..]);
    }
  }

  /** The velocity target and lower acceleration bound of a cycle. */
  datatype Output = Output(vLimit: real, accMin: real)

  /** The solution for a state: pass-through when inactive, temporarily inactive or with the
      gas pressed; the offseted limit when adapting or active; the lower acceleration bound
      tightened to at most `LimitAdaptAcc` only when adapting. */
  function Solution(state: State, gasPressed: bool, vCruiseSetpoint: real, accMin: real,
                    limitOffseted: real): (r: Output)
    ensures state.Rank() <= TempInactive.Rank() || gasPressed ==> r == Output(vCruiseSetpoint, accMin)
    ensures state == Adapting && !gasPressed ==> r == Output(limitOffseted, if accMin <= LimitAdaptAcc then accMin else LimitAdaptAcc)
    ensures state == Active && !gasPressed ==> r == Output(limitOffseted, accMin)
    // the lower bound is only ever tightened, never loosened
    ensures r.accMin <= accMin
  {
    if state.Rank() <= TempInactive.Rank() || gasPressed then Output(vCruiseSetpoint, accMin)
    else if state == Adapting then Output(limitOffseted, Min(LimitAdaptAcc, accMin))
    else Output(limitOffseted, accMin)
  }

  function Min(a: real, b: real): real { if a <= b then a else b }

  /** The events of a cycle: at most one, only while active, in priority order. */
  function CycleEvents(statePrev: State, state: State, setChange: real): (es: seq<EventName>)
    ensures |es| <= 1
    ensures es != [] ==> state.Rank() > TempInactive.Rank()
    ensures es == [SpeedLimitActive] <==>
              state.Rank() > TempInactive.Rank() && statePrev.Rank() <= TempInactive.Rank()
    ensures es == [SpeedLimitIncrease] <==>
              state.Rank() > TempInactive.Rank() && statePrev.Rank() > TempInactive.Rank() && setChange > 0.0
    ensures es == [SpeedLimitDecrease] <==>
              state.Rank() > TempInactive.Rank() && statePrev.Rank() > TempInactive.Rank() && setChange < 0.0
  {
    if state.Rank() <= TempInactive.Rank() then []
    else if statePrev.Rank() <= TempInactive.Rank() then [SpeedLimitActive]
    else if setChange > 0.0 then [SpeedLimitIncrease]
    else if setChange < 0.0 then [SpeedLimitDecrease]
    else []
  }

  // ---------------------------------------------------------------------------------------------
  // The controller object
  // ---------------------------------------------------------------------------------------------

  class SpeedLimitController {
    const resolver: SpeedLimitResolver
    var lastParamsUpdate: real
    var isEnabled: bool
    var delayIncrease: bool
    var offsetEnabled: bool
    var opEnabled: bool
    /** The (min, max) acceleration bound; the caller's own array once `Update` has run. */
    var accLimits: array<real>
    var vEgo: real
    var vOffset: real
    var vCruiseSetpoint: real
    var vCruiseSetpointPrev: real
    var vCruiseSetpointChanged: bool
    /** The resolver's raw value this cycle and the previous one, and its change. */
    var speedLimitSet: real
    var speedLimitSetPrev: real
    var speedLimitSetChange: real
    var distanceSet: real
    /** The displayed (debounced) limit, its previous value and whether it changed. */
    var speedLimit: real
    var speedLimitPrev: real
    var speedLimitChanged: bool
    var distance: real
    var source: Source
    var lastSpeedLimitSetChangeTs: real
    var state: State
    var statePrev: State
    var vLimit: real

    /** A controller with the flags read from the parameter store and everything else zero. */
    constructor (params: Params)
      ensures fresh(resolver) && resolver.policy == MapDataPriority && resolver.nextSpeedLimitPrev == 0.0
      ensures fresh(accLimits) && accLimits[..] == [0.0, 0.0]
      ensures isEnabled == params.speedLimitControl && delayIncrease == params.delayIncrease
      ensures offsetEnabled == params.percOffset && lastParamsUpdate == 0.0 && !opEnabled
      ensures state == Inactive && statePrev == Inactive
      ensures speedLimit == 0.0 && speedLimitPrev == 0.0 && distance == 0.0 && source == NoSource
      ensures speedLimitSet == 0.0 && speedLimitSetPrev == 0.0 && speedLimitSetChange == 0.0
      ensures distanceSet == 0.0 && lastSpeedLimitSetChangeTs == 0.0
      ensures vEgo == 0.0 && vOffset == 0.0 && vCruiseSetpoint == 0.0 && vCruiseSetpointPrev == 0.0
      ensures !vCruiseSetpointChanged && !speedLimitChanged && vLimit == 0.0
    {
      resolver := new SpeedLimitResolver(MapDataPriority);
      lastParamsUpdate := 0.0;
      isEnabled := params.speedLimitControl;
      delayIncrease := params.delayIncrease;
      offsetEnabled := params.percOffset;
      opEnabled := false;
      accLimits := new real[] [0.0, 0.0];
      vEgo := 0.0;
      vOffset := 0.0;
      vCruiseSetpoint := 0.0;
      vCruiseSetpointPrev := 0.0;
      vCruiseSetpointChanged := false;
      speedLimitSet := 0.0;
      speedLimitSetPrev := 0.0;
      speedLimitSetChange := 0.0;
      distanceSet := 0.0;
      speedLimit := 0.0;
      speedLimitPrev := 0.0;
      speedLimitChanged := false;
      distance := 0.0;
      source := NoSource;
      lastSpeedLimitSetChangeTs := 0.0;
      state := Inactive;
      statePrev := Inactive;
      vLimit := 0.0;
    }

    /** True in the adapting and active states. */
    function IsActive(): (r: bool)
      reads this`state
      ensures r <==> state == Adapting || state == Active
    {
      state.Rank() > TempInactive.Rank()
    }

    /** The offset added to the displayed limit (0 when the percent offset is disabled). */
    function SpeedLimitOffset(): (r: real)
      reads this`offsetEnabled, this`speedLimit
      ensures !offsetEnabled ==> r == 0.0
    {
      Offset(speedLimit, offsetEnabled)
    }

    /** The displayed limit with its offset: the limit itself when the offset is disabled, and
        never below a non-negative limit nor above 110 % of it. */
    function SpeedLimitOffseted(): (r: real)
      reads this`offsetEnabled, this`speedLimit
      ensures !offsetEnabled ==> r == speedLimit
      ensures speedLimit >= 0.0 ==> speedLimit <= r <= 1.1 * speedLimit
    {
      OffsetBounds(speedLimit, offsetEnabled);
      speedLimit + SpeedLimitOffset()
    }

    /** The velocity target: the solution while active, otherwise the upstream setpoint. */
    function VLimit(): (r: real)
      reads this`state, this`vLimit, this`vCruiseSetpoint
      ensures state == Adapting || state == Active ==> r == vLimit
      ensures state == Inactive || state == TempInactive ==> r == vCruiseSetpoint
    {
      if IsActive() then vLimit else vCruiseSetpoint
    }

    /** The state setter: entering tempInactive snaps the displayed limit to the set value. */
    method SetState(value: State)
      modifies this`state, this`speedLimit, this`distance, this`speedLimitPrev
      ensures state == value
      ensures value == TempInactive && old(state) != TempInactive ==>
                speedLimit == speedLimitSet && distance == distanceSet && speedLimitPrev == speedLimitSet
      ensures value != TempInactive || old(state) == TempInactive ==>
                speedLimit == old(speedLimit) && distance == old(distance) && speedLimitPrev == old(speedLimitPrev)
    {
      if value != state {
        if value == TempInactive {
          speedLimit := speedLimitSet;
          distance := distanceSet;
          speedLimitPrev := speedLimit;
        }
      }
      state := value;
    }

    /** Refreshes the configuration flags when more than `ParamsUpdatePeriod` has passed. */
    method UpdateParams(now: real, params: Params)
      modifies this`isEnabled, this`delayIncrease, this`offsetEnabled, this`lastParamsUpdate
      ensures now > old(lastParamsUpdate) + ParamsUpdatePeriod ==>
                isEnabled == params.speedLimitControl && delayIncrease == params.delayIncrease
                && offsetEnabled == params.percOffset && lastParamsUpdate == now
      ensures now <= old(lastParamsUpdate) + ParamsUpdatePeriod ==>
                isEnabled == old(isEnabled) && delayIncrease == old(delayIncrease)
                && offsetEnabled == old(offsetEnabled) && lastParamsUpdate == old(lastParamsUpdate)
    {
      if now > lastParamsUpdate + ParamsUpdatePeriod {
        isEnabled := params.speedLimitControl;
        delayIncrease := params.delayIncrease;
        offsetEnabled := params.percOffset;
        lastParamsUpdate := now;
      }
    }

    /** Debounces the displayed limit (through `Debounce`, the rule written once), computes the
        velocity offset and rolls the change trackers. */
    method UpdateCalculations(now: real)
      modifies this`lastSpeedLimitSetChangeTs, this`distance, this`speedLimit, this`vOffset,
               this`speedLimitChanged, this`vCruiseSetpointChanged, this`speedLimitSetChange,
               this`speedLimitPrev, this`vCruiseSetpointPrev, this`speedLimitSetPrev
      ensures lastSpeedLimitSetChangeTs
              == if speedLimitSet != old(speedLimitSetPrev) then now else old(lastSpeedLimitSetChangeTs)
      ensures Shown(speedLimit, distance)
              == Debounce(old(speedLimit), speedLimitSet, distanceSet, delayIncrease, now, lastSpeedLimitSetChangeTs)
      ensures vOffset == Offseted(speedLimit, offsetEnabled) - vEgo
      ensures speedLimitChanged == (speedLimit != old(speedLimitPrev))
      ensures vCruiseSetpointChanged == (vCruiseSetpoint != old(vCruiseSetpointPrev))
      ensures speedLimitSetChange == speedLimitSet - old(speedLimitSetPrev)
      ensures speedLimitPrev == speedLimit && vCruiseSetpointPrev == vCruiseSetpoint
      ensures speedLimitSetPrev == speedLimitSet
    {
      var changeTs := lastSpeedLimitSetChangeTs;
      if speedLimitSet != speedLimitSetPrev {
        changeTs := now;
      }

      var shown := Debounce(speedLimit, speedLimitSet, distanceSet, delayIncrease, now, changeTs);
      lastSpeedLimitSetChangeTs, speedLimit, distance := changeTs, shown.limit, shown.distance;

      vOffset := Offseted(speedLimit, offsetEnabled) - vEgo;

      speedLimitChanged := speedLimit != speedLimitPrev;
      vCruiseSetpointChanged := vCruiseSetpoint != vCruiseSetpointPrev;
      speedLimitSetChange := speedLimitSet - speedLimitSetPrev;
      speedLimitPrev := speedLimit;
      vCruiseSetpointPrev := vCruiseSetpoint;
      speedLimitSetPrev := speedLimitSet;
    }

    /** Performs this cycle's single state transition through the state setter. */
    method StateTransition()
      modifies this`state, this`statePrev, this`speedLimit, this`distance, this`speedLimitPrev
      ensures statePrev == old(state)
      ensures state == NextState(old(state), opEnabled, isEnabled, speedLimit, vOffset, speedLimitChanged)
      // the setter's tempInactive side effect never fires from here
      ensures speedLimit == old(speedLimit) && distance == old(distance) && speedLimitPrev == old(speedLimitPrev)
    {
      statePrev := state;

      if !opEnabled || !isEnabled || speedLimit == 0.0 {
        SetState(Inactive);
        return;
      }

      if state == Inactive {
        if vOffset < SpeedOffsetTh {
          SetState(Adapting);
        } else {
          SetState(Active);
        }
      } else if state == TempInactive {
        if speedLimitChanged {
          SetState(Inactive);
        }
      } else if state == Adapting {
        if vOffset >= SpeedOffsetTh {
          SetState(Active);
        }
      } else if state == Active {
        if vOffset < SpeedOffsetTh {
          SetState(Adapting);
        }
      }
    }

    /** Writes the velocity target and, when adapting, tightens the caller's lower acceleration
        bound in place. */
    method UpdateSolution(sm: Snapshot)
      requires accLimits.Length == 2
      modifies this`vLimit, this`accLimits, accLimits
      ensures accLimits == old(accLimits)
      ensures Output(vLimit, accLimits[0])
              == Solution(state, sm.carState.gasPressed, vCruiseSetpoint, old(accLimits[0]), Offseted(speedLimit, offsetEnabled))
      ensures accLimits[1] == old(accLimits[1])
    {
      var acc := accLimits;
      var v := vCruiseSetpoint;

      if state.Rank() <= TempInactive.Rank() || sm.carState.gasPressed {
        // keep the upstream values
      } else if state == Adapting {
        v := SpeedLimitOffseted();
        acc[0] := Min(LimitAdaptAcc, acc[0]);
      } else if state == Active {
        v := SpeedLimitOffseted();
      }

      vLimit := v;
      accLimits := acc;
    }

    /** Appends this cycle's event, if any, to `events`. */
    method UpdateEvents(events: seq<EventName>) returns (out: seq<EventName>)
      ensures out == events + CycleEvents(statePrev, state, speedLimitSetChange)
    {
      out := events;
      if !IsActive() {
        return;
      }

      if statePrev.Rank() <= TempInactive.Rank() {
        out := out + [SpeedLimitActive];
      } else if speedLimitSetChange > 0.0 {
        out := out + [SpeedLimitIncrease];
      } else if speedLimitSetChange < 0.0 {
        out := out + [SpeedLimitDecrease];
      }
    }

    /** The steps of a cycle that follow the resolution: parameter refresh, calculations, then
        `Decide`. */
    method Steps(sm: Snapshot, events: seq<EventName>, monoNow: real, params: Params)
      returns (out: seq<EventName>)
      requires accLimits.Length == 2
      modifies this`isEnabled, this`delayIncrease, this`offsetEnabled, this`lastParamsUpdate,
               this`lastSpeedLimitSetChangeTs, this`distance, this`speedLimit, this`vOffset,
               this`speedLimitChanged, this`vCruiseSetpointChanged, this`speedLimitSetChange,
               this`speedLimitPrev, this`vCruiseSetpointPrev, this`speedLimitSetPrev,
               this`state, this`statePrev, this`vLimit, this`accLimits, accLimits
      ensures accLimits == old(accLimits)
      ensures monoNow > old(lastParamsUpdate) + ParamsUpdatePeriod ==>
                isEnabled == params.speedLimitControl && delayIncrease == params.delayIncrease
                && offsetEnabled == params.percOffset && lastParamsUpdate == monoNow
      ensures monoNow <= old(lastParamsUpdate) + ParamsUpdatePeriod ==>
                isEnabled == old(isEnabled) && delayIncrease == old(delayIncrease)
                && offsetEnabled == old(offsetEnabled) && lastParamsUpdate == old(lastParamsUpdate)
      ensures lastSpeedLimitSetChangeTs
              == if speedLimitSet != old(speedLimitSetPrev) then monoNow else old(lastSpeedLimitSetChangeTs)
      ensures Shown(speedLimit, distance)
              == Debounce(old(speedLimit), speedLimitSet, distanceSet, delayIncrease, monoNow, lastSpeedLimitSetChangeTs)
      ensures vOffset == Offseted(speedLimit, offsetEnabled) - vEgo
      ensures speedLimitChanged == (speedLimit != old(speedLimitPrev))
      ensures vCruiseSetpointChanged == (vCruiseSetpoint != old(vCruiseSetpointPrev))
      ensures speedLimitSetChange == speedLimitSet - old(speedLimitSetPrev)
      ensures speedLimitPrev == speedLimit && vCruiseSetpointPrev == vCruiseSetpoint
      ensures speedLimitSetPrev == speedLimitSet
      ensures statePrev == old(state)
      ensures state == NextState(old(state), opEnabled, isEnabled, speedLimit, vOffset, speedLimitChanged)
      ensures old(state) != TempInactive ==> state != TempInactive
      ensures Output(vLimit, accLimits[0])
              == Solution(state, sm.carState.gasPressed, vCruiseSetpoint, old(accLimits[0]), Offseted(speedLimit, offsetEnabled))
      ensures accLimits[1] == old(accLimits[1])
      ensures out == events + CycleEvents(old(state), state, speedLimitSet - old(speedLimitSetPrev))
    {
      UpdateParams(monoNow, params);
      UpdateCalculations(monoNow);
      out := Decide(sm, events);
    }

    /** The last three steps of a cycle: state transition, solution and events, in that order. */
    method Decide(sm: Snapshot, events: seq<EventName>) returns (out: seq<EventName>)
      requires accLimits.Length == 2
      modifies this`distance, this`speedLimit, this`speedLimitPrev,
               this`state, this`statePrev, this`vLimit, this`accLimits, accLimits
      ensures accLimits == old(accLimits)
      ensures speedLimit == old(speedLimit) && distance == old(distance) && speedLimitPrev == old(speedLimitPrev)
      ensures statePrev == old(state)
      ensures state == NextState(old(state), opEnabled, isEnabled, speedLimit, vOffset, speedLimitChanged)
      ensures Output(vLimit, accLimits[0])
              == Solution(state, sm.carState.gasPressed, vCruiseSetpoint, old(accLimits[0]), Offseted(speedLimit, offsetEnabled))
      ensures accLimits[1] == old(accLimits[1])
      ensures out == events + CycleEvents(old(state), state, speedLimitSetChange)
    {
      StateTransition();
      UpdateSolution(sm);
      out := UpdateEvents(events);
    }

    /** One control cycle. `wallNow` is the wall-clock time (s) the resolver compares the map fix
        against; `monoNow` the monotonic time (s) used for the parameter refresh and the debounce. */
    method Update(enabled: bool, vEgo: real, sm: Snapshot, vCruiseSetpoint: real, acc: array<real>,
                  events: seq<EventName>, wallNow: real, monoNow: real, params: Params)
      returns (out: seq<EventName>)
      requires acc.Length == 2
      modifies this, resolver, acc
      ensures accLimits == acc && opEnabled == enabled && this.vEgo == vEgo
      ensures this.vCruiseSetpoint == vCruiseSetpoint
      ensures var r := Resolution(resolver.policy, vEgo, old(speedLimit), sm, wallNow, old(resolver.nextSpeedLimitPrev));
              Candidate(speedLimitSet, distanceSet, source) == r.candidate
              && resolver.nextSpeedLimitPrev == r.tracker
      ensures monoNow > old(lastParamsUpdate) + ParamsUpdatePeriod ==>
                isEnabled == params.speedLimitControl && delayIncrease == params.delayIncrease
                && offsetEnabled == params.percOffset && lastParamsUpdate == monoNow
      ensures monoNow <= old(lastParamsUpdate) + ParamsUpdatePeriod ==>
                isEnabled == old(isEnabled) && delayIncrease == old(delayIncrease)
                && offsetEnabled == old(offsetEnabled) && lastParamsUpdate == old(lastParamsUpdate)
      ensures lastSpeedLimitSetChangeTs
              == if speedLimitSet != old(speedLimitSetPrev) then monoNow else old(lastSpeedLimitSetChangeTs)
      ensures Shown(speedLimit, distance)
              == Debounce(old(speedLimit), speedLimitSet, distanceSet, delayIncrease, monoNow, lastSpeedLimitSetChangeTs)
      ensures vOffset == Offseted(speedLimit, offsetEnabled) - vEgo
      ensures speedLimitChanged == (speedLimit != old(speedLimitPrev))
      ensures vCruiseSetpointChanged == (vCruiseSetpoint != old(vCruiseSetpointPrev))
      ensures speedLimitSetChange == speedLimitSet - old(speedLimitSetPrev)
      ensures speedLimitPrev == speedLimit && vCruiseSetpointPrev == vCruiseSetpoint
      ensures speedLimitSetPrev == speedLimitSet
      ensures statePrev == old(state)
      ensures state == NextState(old(state), enabled, isEnabled, speedLimit, vOffset, speedLimitChanged)
      ensures old(state) != TempInactive ==> state != TempInactive
      ensures Output(vLimit, acc[0])
              == Solution(state, sm.carState.gasPressed, vCruiseSetpoint, old(acc[0]), Offseted(speedLimit, offsetEnabled))
      ensures acc[1] == old(acc[1])
      ensures VLimit()
              == if IsActive() && !sm.carState.gasPressed then Offseted(speedLimit, offsetEnabled) else vCruiseSetpoint
      ensures out == events + CycleEvents(old(state), state, speedLimitSet - old(speedLimitSetPrev))
    {
      var limitSet, distSet, src := resolver.Resolve(vEgo, speedLimit, sm, wallNow);
      opEnabled, this.vEgo, speedLimitSet, distanceSet, source, this.vCruiseSetpoint, accLimits
        := enabled, vEgo, limitSet, distSet, src, vCruiseSetpoint, acc;
      out := Steps(sm, events, monoNow, params);
    }
  }

  // ---------------------------------------------------------------------------------------------
  // Worked scenario
  // ---------------------------------------------------------------------------------------------

  /** A displayed limit of 27.8 m/s sits on a breakpoint: offset 5 %, target 29.19 m/s. */
  lemma ScenarioOffsetAtBreakpoint()
    ensures Offseted(27.8, true) == 29.19
  {
  }
}
