/** Fusion of the car-state and map-data speed-limit sources into one (limit, distance, source)
    candidate, as done once per control cycle by the speed-limit resolver.
    Speeds are m/s, distances m, times s, all modelled as `real`. A limit of 0 means "unknown". */
module Resolver {
  import opened Wrappers

  /** Map data whose GPS fix is older than this (s) is discarded. */
  const MaxMapDataAge: real := 10.0
  /** Ideal deceleration (m/s^2) when adapting to a lower limit. */
  const LimitAdaptAcc: real := -1.2

  /** Where a candidate comes from; `NoSource` is the source's `none`. */
  datatype Source = NoSource | CarState | MapData

  /** Which sources are consulted, and the fallback rule when the primary ones yield nothing. */
  datatype Policy = CarStateOnly | MapDataOnly | CarStatePriority | MapDataPriority | Combined

  /** The per-source solution stored for one source: a limit and the distance to where it starts. */
  datatype Reading = Reading(limit: real, distance: real)

  /** One entry of the consolidation arrays (limit, distance and source side by side). */
  datatype Candidate = Candidate(limit: real, distance: real, source: Source)

  /** The "no limit known" result. */
  const NoCandidate := Candidate(0.0, 0.0, NoSource)

  /** The fields of the `carState` message the core reads. */
  datatype CarStateMsg = CarStateMsg(cruiseSpeedLimit: real, gasPressed: bool)

  /** The fields of the `liveMapData` message the core reads; `lastGpsTimestamp` is in ms. */
  datatype LiveMapData = LiveMapData(
    speedLimit: real,
    speedLimitValid: bool,
    speedLimitAhead: real,
    speedLimitAheadValid: bool,
    speedLimitAheadDistance: real,
    lastGpsTimestamp: real)

  /** The per-cycle message snapshot; `liveMapData` is `None` when no map message ever arrived. */
  datatype Snapshot = Snapshot(carState: CarStateMsg, liveMapData: Option<LiveMapData>)

  // ---------------------------------------------------------------------------------------------
  // Map-data source
  // ---------------------------------------------------------------------------------------------

  /** Age (s) of the map data's GPS fix at wall-clock time `now` (s). */
  function FixAge(md: LiveMapData, now: real): real {
    now - md.lastGpsTimestamp * 0.001
  }

  /** The map's current limit, 0 when flagged invalid. */
  function CurrentLimit(md: LiveMapData): real {
    if md.speedLimitValid then md.speedLimit else 0.0
  }

  /** The map's ahead limit, 0 when flagged invalid. */
  function AheadLimit(md: LiveMapData): real {
    if md.speedLimitAheadValid then md.speedLimitAhead else 0.0
  }

  /** Distance to the ahead limit, corrected by dead reckoning over the fix age and floored at 0. */
  function CorrectedDistance(vEgo: real, md: LiveMapData, now: real): (d: real)
    ensures d >= 0.0
    ensures d == 0.0 || d == md.speedLimitAheadDistance - vEgo * FixAge(md, now)
    ensures d >= md.speedLimitAheadDistance - vEgo * FixAge(md, now)
  {
    var raw := md.speedLimitAheadDistance - vEgo * FixAge(md, now);
    if 0.0 >= raw then 0.0 else raw
  }

  /** Distance covered while braking at `LimitAdaptAcc` from `vEgo` down to `target`. */
  function AdaptDistance(vEgo: real, target: real): real {
    var adaptTime := (target - vEgo) / LimitAdaptAcc;
    vEgo * adaptTime + 0.5 * LimitAdaptAcc * adaptTime * adaptTime
  }

  /** True when the map data is present and its fix is at most `MaxMapDataAge` old. */
  predicate Fresh(mapData: Option<LiveMapData>, now: real) {
    mapData.Some? && FixAge(mapData.value, now) <= MaxMapDataAge
  }

  /** True when the ahead limit is not considered at all: absent, car stopped, or above the
      currently displayed limit. */
  predicate IgnoreAhead(vEgo: real, currentSpeedLimit: real, md: LiveMapData) {
    AheadLimit(md) == 0.0 || vEgo <= 0.0 || AheadLimit(md) > currentSpeedLimit
  }

  /** Result of the map-data step: the stored solution and the new sticky ahead-limit tracker. */
  datatype MapSolution = MapSolution(limit: real, distance: real, tracker: real)

  /** The map-data solution and tracker update for one cycle, given the previous tracker value. */
  function MapDataSolution(vEgo: real, currentSpeedLimit: real, mapData: Option<LiveMapData>,
                           now: real, trackerPrev: real): (r: MapSolution)
    // distances are never negative
    ensures r.distance >= 0.0
    // no message or a stale fix: (0, 0), and the tracker is left as it was
    ensures !Fresh(mapData, now) ==> r == MapSolution(0.0, 0.0, trackerPrev)
    // the reported value is always the map's current or ahead limit (or 0 without fresh data)
    ensures Fresh(mapData, now) ==>
              r.limit == CurrentLimit(mapData.value) || r.limit == AheadLimit(mapData.value)
    // a non-zero distance is only ever reported together with the ahead limit
    ensures r.distance != 0.0 ==> Fresh(mapData, now) && r.limit == AheadLimit(mapData.value)
    // no ahead limit, car stopped, or ahead limit above the displayed one: current limit, tracker cleared
    ensures Fresh(mapData, now) && IgnoreAhead(vEgo, currentSpeedLimit, mapData.value) ==>
              r == MapSolution(CurrentLimit(mapData.value), 0.0, 0.0)
    // sticky continuation: the tracked ahead limit is reported unchanged, tracker kept
    ensures Fresh(mapData, now) && !IgnoreAhead(vEgo, currentSpeedLimit, mapData.value)
            && AheadLimit(mapData.value) == trackerPrev ==>
              r == MapSolution(trackerPrev, CorrectedDistance(vEgo, mapData.value, now), trackerPrev)
    // every non-sticky evaluation clears the tracker or sets it to the ahead limit
    ensures Fresh(mapData, now) && AheadLimit(mapData.value) != trackerPrev ==>
              r.tracker == 0.0 || r.tracker == AheadLimit(mapData.value)
    // the tracker is only ever (re)armed inside the deceleration envelope, reporting the ahead limit
    ensures r.tracker != trackerPrev && r.tracker != 0.0 ==>
              r.limit == r.tracker && r.distance <= AdaptDistance(vEgo, r.tracker)
    // without fresh data nothing changes the tracker; with it, the ahead limit is armed exactly
    // when the corrected distance is inside the envelope
    ensures Fresh(mapData, now) && !IgnoreAhead(vEgo, currentSpeedLimit, mapData.value)
            && AheadLimit(mapData.value) != trackerPrev ==>
              (r.tracker == AheadLimit(mapData.value) <==>
               CorrectedDistance(vEgo, mapData.value, now) <= AdaptDistance(vEgo, AheadLimit(mapData.value)))
    // a new ahead limit: inside the envelope it is reported with its corrected distance and
    // armed; outside, the current limit is reported at distance 0 and the tracker cleared
    ensures Fresh(mapData, now) && !IgnoreAhead(vEgo, currentSpeedLimit, mapData.value)
            && AheadLimit(mapData.value) != trackerPrev ==>
              var md, d := mapData.value, CorrectedDistance(vEgo, mapData.value, now);
              r == if d <= AdaptDistance(vEgo, AheadLimit(md)) then MapSolution(AheadLimit(md), d, AheadLimit(md))
                   else MapSolution(CurrentLimit(md), 0.0, 0.0)
  {
    if mapData.None? then MapSolution(0.0, 0.0, trackerPrev)
    else
      var md := mapData.value;
      if FixAge(md, now) > MaxMapDataAge then MapSolution(0.0, 0.0, trackerPrev)
      else if IgnoreAhead(vEgo, currentSpeedLimit, md) then MapSolution(CurrentLimit(md), 0.0, 0.0)
      else
        var distance := CorrectedDistance(vEgo, md, now);
        if AheadLimit(md) == trackerPrev then MapSolution(AheadLimit(md), distance, trackerPrev)
        else if distance <= AdaptDistance(vEgo, AheadLimit(md)) then
          MapSolution(AheadLimit(md), distance, AheadLimit(md))
        else MapSolution(CurrentLimit(md), 0.0, 0.0)
  }

  // ---------------------------------------------------------------------------------------------
  // Consolidation
  // ---------------------------------------------------------------------------------------------

  function CarCandidate(fromCar: Reading): Candidate { Candidate(fromCar.limit, fromCar.distance, CarState) }

  function MapCandidate(fromMap: Reading): Candidate { Candidate(fromMap.limit, fromMap.distance, MapData) }

  /** The largest limit among the candidates (numpy's `amax`). */
  function MaxLimit(s: seq<Candidate>): (m: real)
    requires |s| > 0
    ensures exists i :: 0 <= i < |s| && s[i].limit == m
    ensures forall i :: 0 <= i < |s| ==> s[i].limit <= m
  {
    if |s| == 1 then s[0].limit
    else
      var rest := MaxLimit(s[1..]);
      assert forall i :: 1 <= i < |s| ==> s[i] == s[1..][i - 1];
      if s[0].limit >= rest then s[0].limit else rest
  }

  /** The candidates of the policy's primary sources, car state first. */
  function Primary(policy: Policy, fromCar: Reading, fromMap: Reading): seq<Candidate> {
    match policy
    case CarStateOnly => [CarCandidate(fromCar)]
    case MapDataOnly => [MapCandidate(fromMap)]
    case CarStatePriority => [CarCandidate(fromCar)]
    case MapDataPriority => [MapCandidate(fromMap)]
    case Combined => [CarCandidate(fromCar), MapCandidate(fromMap)]
  }

  /** The candidates the policy selects, in the order they are appended, fallback included. */
  function Selected(policy: Policy, fromCar: Reading, fromMap: Reading): (r: seq<Candidate>)
    ensures forall c :: c in r ==> c == CarCandidate(fromCar) || c == MapCandidate(fromMap)
  {
    var primary := Primary(policy, fromCar, fromMap);
    assert MaxLimit([CarCandidate(fromCar)]) == fromCar.limit;
    assert MaxLimit([MapCandidate(fromMap)]) == fromMap.limit;
    if MaxLimit(primary) == 0.0 then
      if policy == CarStatePriority then primary + [MapCandidate(fromMap)]
      else if policy == MapDataPriority then primary + [CarCandidate(fromCar)]
      else primary
    else primary
  }

  /** The candidates with a positive limit, in their original order (the `limits > 0` mask). */
  function Positive(s: seq<Candidate>): (r: seq<Candidate>)
    ensures |r| <= |s|
    ensures forall i :: 0 <= i < |r| ==> r[i].limit > 0.0
  {
    if s == [] then []
    else (if s[0].limit > 0.0 then [s[0]] else []) + Positive(s[1..])
  }

  /** The mask keeps exactly the candidates with a positive limit. */
  lemma {:induction false} PositiveMembers(s: seq<Candidate>)
    ensures forall c :: c in Positive(s) <==> c in s && c.limit > 0.0
    decreases |s|
  {
    if s != [] {
      PositiveMembers(s[1..]);
      assert forall c :: c in s <==> c == s[0] || c in s[1..];
    }
  }

  /** The mask distributes over concatenation; with `PositiveOne` this pins the order and the
      multiplicity of what it keeps. */
  lemma {:induction false} PositiveConcat(a: seq<Candidate>, b: seq<Candidate>)
    ensures Positive(a + b) == Positive(a) + Positive(b)
    decreases |a|
  {
    if a == [] {
      assert a + b == b;
    } else {
      assert (a + b)[0] == a[0] && (a + b)[1..] == a[1..] + b;
      PositiveConcat(a[1..], b);
    }
  }

  /** Taking past a prefix keeps the prefix. */
  lemma TakeConcat(a: seq<Candidate>, b: seq<Candidate>, n: nat)
    requires n <= |b|
    ensures (a + b)[..|a| + n] == a + b[..n]
  {
  }

  /** The tail of a prefix is a prefix of the tail. */
  lemma TakeTail(s: seq<Candidate>, n: nat)
    requires n < |s|
    ensures s[..n + 1][0] == s[0] && s[..n + 1][1..] == s[1..][..n]
  {
  }

  /** One step of the mask. */
  lemma PositiveUnfold(s: seq<Candidate>)
    requires |s| > 0
    ensures Positive(s) == (if s[0].limit > 0.0 then [s[0]] else []) + Positive(s[1..])
  {
  }

  /** The `k`-th kept candidate sits at some index `m` of the input, and the candidates kept
      before index `m` are exactly the first `k` kept ones. */
  lemma {:induction false} PositiveSource(s: seq<Candidate>, k: nat) returns (m: nat)
    requires k < |Positive(s)|
    ensures m < |s| && s[m] == Positive(s)[k]
    ensures Positive(s[..m]) == Positive(s)[..k]
    decreases |s|
  {
    PositiveUnfold(s);
    var head := if s[0].limit > 0.0 then [s[0]] else [];
    var rest := Positive(s[1..]);
    if s[0].limit > 0.0 && k == 0 {
      m := 0;
      assert s[..0] == [];
    } else {
      var k' := if s[0].limit > 0.0 then k - 1 else k;
      assert k == |head| + k';
      var m' := PositiveSource(s[1..], k');
      m := m' + 1;
      assert Positive(s) == head + rest;
      assert Positive(s)[k] == rest[k'];
      assert s[m] == s[1..][m'];
      TakeTail(s, m');
      PositiveUnfold(s[..m]);
      assert Positive(s[..m]) == head + Positive(s[1..][..m']);
      TakeConcat(head, rest, k');
      assert Positive(s)[..k] == head + rest[..k'];
    }
  }

  /** `k` is the first index of a smallest limit in `s` (numpy's `argmin`). */
  predicate IsFirstMin(s: seq<Candidate>, k: nat) {
    k < |s|
    && (forall j :: 0 <= j < |s| ==> s[k].limit <= s[j].limit)
    && (forall j :: 0 <= j < k ==> s[j].limit > s[k].limit)
  }

  /** The first index of a smallest limit, defined by recursion on the prefix. */
  function FirstMin(s: seq<Candidate>): (k: nat)
    requires |s| > 0
    ensures IsFirstMin(s, k)
  {
    if |s| == 1 then 0
    else
      var j := FirstMin(s[..|s| - 1]);
      assert forall i :: 0 <= i < |s| - 1 ==> s[..|s| - 1][i] == s[i];
      if s[|s| - 1].limit < s[j].limit then |s| - 1 else j
  }

  /** The first-minimum index is unique. */
  lemma FirstMinUnique(s: seq<Candidate>, k1: nat, k2: nat)
    requires IsFirstMin(s, k1) && IsFirstMin(s, k2)
    ensures k1 == k2
  {
    assert s[k1].limit == s[k2].limit;
  }

  lemma FirstMinIsLeast(s: seq<Candidate>, k: nat)
    requires IsFirstMin(s, k)
    ensures s[k] in s
    ensures forall c :: c in s ==> s[k].limit <= c.limit
  {
  }

  /** The linear scan numpy's `argmin` performs: the first index of a smallest limit. */
  method ArgMin(s: seq<Candidate>) returns (k: nat)
    requires |s| > 0
    ensures IsFirstMin(s, k)
  {
    k := 0;
    var i := 1;
    while i < |s|
      invariant 1 <= i <= |s| && k < i
      invariant forall j :: 0 <= j < i ==> s[k].limit <= s[j].limit
      invariant forall j :: 0 <= j < k ==> s[j].limit > s[k].limit
    {
      if s[i].limit < s[k].limit {
        k := i;
      }
      i := i + 1;
    }
  }

  /** Which sources each policy consults: the `_only` policies exactly their own, `Combined`
      both, and a priority policy the other source only when its primary value is exactly 0. */
  lemma SelectedSources(policy: Policy, fromCar: Reading, fromMap: Reading)
    ensures var r := Selected(policy, fromCar, fromMap);
            && (CarCandidate(fromCar) in r <==>
                  (policy in {CarStateOnly, CarStatePriority, Combined}
                   || (policy == MapDataPriority && fromMap.limit == 0.0)))
            && (MapCandidate(fromMap) in r <==>
                  (policy in {MapDataOnly, MapDataPriority, Combined}
                   || (policy == CarStatePriority && fromCar.limit == 0.0)))
            // the primary source is appended first
            && (policy in {CarStateOnly, CarStatePriority, Combined} ==> r[0] == CarCandidate(fromCar))
            && (policy in {MapDataOnly, MapDataPriority} ==> r[0] == MapCandidate(fromMap))
  {
    SelectedCases(policy, fromCar, fromMap);
  }

  /** The consolidation of a selection: its first smallest positive entry, or `NoCandidate`. */
  function Lowest(s: seq<Candidate>): (r: Candidate)
    // zero (or below) means "none": the result is empty exactly when no value is positive
    ensures r.limit == 0.0 <==> forall c :: c in s ==> c.limit <= 0.0
    ensures r.limit == 0.0 ==> r == NoCandidate
    // otherwise it is an entry, positive, and no larger than any positive entry
    ensures r.limit != 0.0 ==>
              r in s && r.limit > 0.0 && forall c :: c in s && c.limit > 0.0 ==> r.limit <= c.limit
    // and it is the first such entry: every positive entry before it is strictly larger
    ensures r.limit != 0.0 ==> exists m :: FirstPositiveAt(s, m, r)
  {
    var positive := Positive(s);
    PositiveMembers(s);
    if |positive| > 0 then
      var k := FirstMin(positive);
      FirstMinIsLeast(positive, k);
      FirstPositiveMin(s, k);
      positive[k]
    else NoCandidate
  }

  /** Every positive entry before index `m` is one of the first `k` kept candidates. */
  lemma KeptBefore(s: seq<Candidate>, m: nat, k: nat, j: nat) returns (i: nat)
    requires j < m <= |s| && k <= |Positive(s)| && Positive(s[..m]) == Positive(s)[..k]
    requires s[j].limit > 0.0
    ensures i < k && Positive(s)[i] == s[j]
  {
    var pre := s[..m];
    assert pre[j] == s[j];
    PositiveMembers(pre);
    assert s[j] in Positive(pre);
    i :| 0 <= i < k && Positive(s)[..k][i] == s[j];
  }

  /** `s[m]` is `r`, and every positive entry before it is strictly larger than `r`. */
  predicate FirstPositiveAt(s: seq<Candidate>, m: nat, r: Candidate) {
    m < |s| && s[m] == r && forall j :: 0 <= j < m ==> !(0.0 < s[j].limit <= r.limit)
  }

  /** The first minimum of the masked candidates is the first smallest positive input entry. */
  lemma FirstPositiveMin(s: seq<Candidate>, k: nat)
    requires IsFirstMin(Positive(s), k)
    ensures exists m :: FirstPositiveAt(s, m, Positive(s)[k])
  {
    var m := PositiveSource(s, k);
    forall j | 0 <= j < m && s[j].limit > 0.0
      ensures s[j].limit > Positive(s)[k].limit
    {
      var i := KeptBefore(s, m, k, j);
    }
    assert FirstPositiveAt(s, m, Positive(s)[k]);
  }

  /** Masks out the non-positive candidates and picks the first smallest remaining one, or
      `NoCandidate` when none remains. */
  method MinPositive(candidates: seq<Candidate>) returns (r: Candidate)
    ensures r == Lowest(candidates)
  {
    var positive := Positive(candidates);
    if |positive| > 0 {
      var k := ArgMin(positive);
      FirstMinUnique(positive, k, FirstMin(positive));
      r := positive[k];
    } else {
      r := NoCandidate;
    }
  }

  /** The consolidated candidate, written out per policy: the primary reading when it is positive;
      under a priority policy the other reading only when the primary value is exactly 0; under
      `Combined` the smaller positive reading, the car-state one on a tie; otherwise `NoCandidate`. */
  function Consolidated(policy: Policy, fromCar: Reading, fromMap: Reading): (r: Candidate)
    ensures r.source == NoSource <==> r.limit == 0.0
    ensures r.limit == 0.0 ==> r == NoCandidate
    ensures r.limit != 0.0 ==> r.limit > 0.0 && (r == CarCandidate(fromCar) || r == MapCandidate(fromMap))
  {
    match policy
    case CarStateOnly => if fromCar.limit > 0.0 then CarCandidate(fromCar) else NoCandidate
    case MapDataOnly => if fromMap.limit > 0.0 then MapCandidate(fromMap) else NoCandidate
    case CarStatePriority =>
      if fromCar.limit > 0.0 then CarCandidate(fromCar)
      else if fromCar.limit == 0.0 && fromMap.limit > 0.0 then MapCandidate(fromMap)
      else NoCandidate
    case MapDataPriority =>
      if fromMap.limit > 0.0 then MapCandidate(fromMap)
      else if fromMap.limit == 0.0 && fromCar.limit > 0.0 then CarCandidate(fromCar)
      else NoCandidate
    case Combined =>
      if fromCar.limit > 0.0 && (fromMap.limit <= 0.0 || fromCar.limit <= fromMap.limit) then CarCandidate(fromCar)
      else if fromMap.limit > 0.0 then MapCandidate(fromMap)
      else NoCandidate
  }

  lemma PositiveOne(a: Candidate)
    ensures Positive([a]) == if a.limit > 0.0 then [a] else []
  {
    assert [a][1..] == [];
  }

  lemma PositiveTwo(a: Candidate, b: Candidate)
    ensures Positive([a, b]) == (if a.limit > 0.0 then [a] else []) + (if b.limit > 0.0 then [b] else [])
  {
    assert [a, b][1..] == [b];
    PositiveOne(b);
  }

  lemma FirstMinTwo(a: Candidate, b: Candidate)
    ensures FirstMin([a, b]) == if b.limit < a.limit then 1 else 0
  {
    FirstMinUnique([a, b], FirstMin([a, b]), if b.limit < a.limit then 1 else 0);
  }

  /** The selection written out per policy. */
  lemma SelectedCases(policy: Policy, fromCar: Reading, fromMap: Reading)
    ensures var c, m := CarCandidate(fromCar), MapCandidate(fromMap);
            Selected(policy, fromCar, fromMap)
            == match policy
               case CarStateOnly => [c]
               case MapDataOnly => [m]
               case CarStatePriority => if fromCar.limit == 0.0 then [c, m] else [c]
               case MapDataPriority => if fromMap.limit == 0.0 then [m, c] else [m]
               case Combined => [c, m]
  {
    var c, m := CarCandidate(fromCar), MapCandidate(fromMap);
    assert [c] + [m] == [c, m] && [m] + [c] == [m, c];
  }

  lemma LowestOne(a: Candidate)
    ensures Lowest([a]) == if a.limit > 0.0 then a else NoCandidate
  {
    PositiveOne(a);
  }

  lemma LowestTwo(a: Candidate, b: Candidate)
    ensures Lowest([a, b])
            == if a.limit > 0.0 && (b.limit <= 0.0 || a.limit <= b.limit) then a
               else if b.limit > 0.0 then b
               else NoCandidate
  {
    PositiveTwo(a, b);
    if a.limit > 0.0 && b.limit > 0.0 {
      FirstMinTwo(a, b);
    } else {
      PositiveOne(a);
      PositiveOne(b);
    }
  }

  /** The masked first-minimum over the selected candidates is the per-policy rule. */
  lemma {:induction false} LowestSelectedIsConsolidated(policy: Policy, fromCar: Reading, fromMap: Reading)
    ensures Lowest(Selected(policy, fromCar, fromMap)) == Consolidated(policy, fromCar, fromMap)
  {
    var c, m := CarCandidate(fromCar), MapCandidate(fromMap);
    SelectedCases(policy, fromCar, fromMap);
    match policy
    case CarStateOnly => LowestOne(c);
    case MapDataOnly => LowestOne(m);
    case CarStatePriority => LowestOne(c); LowestTwo(c, m);
    case MapDataPriority => LowestOne(m); LowestTwo(m, c);
    case Combined => LowestTwo(c, m);
  }

  /** The most restrictive selected limit wins, and a value of 0 (or below) means "no limit": the
      consolidation is empty exactly when no selected candidate is positive. */
  lemma {:induction false} ConsolidatedIsMostRestrictive(policy: Policy, fromCar: Reading, fromMap: Reading)
    ensures var r, s := Consolidated(policy, fromCar, fromMap), Selected(policy, fromCar, fromMap);
            (r.limit == 0.0 <==> forall c :: c in s ==> c.limit <= 0.0)
            && (r.limit != 0.0 ==> r in s && forall c :: c in s && c.limit > 0.0 ==> r.limit <= c.limit)
  {
    LowestSelectedIsConsolidated(policy, fromCar, fromMap);
  }

  /** Under `Combined`, equal positive readings resolve to the car-state one, appended first;
      under a priority policy a positive primary reading always wins. */
  lemma {:induction false} TieGoesToFirstAppended(fromCar: Reading, fromMap: Reading)
    ensures fromCar.limit > 0.0 && fromCar.limit == fromMap.limit ==>
              Lowest(Selected(Combined, fromCar, fromMap)) == CarCandidate(fromCar)
    ensures fromCar.limit > 0.0 ==> Lowest(Selected(CarStatePriority, fromCar, fromMap)) == CarCandidate(fromCar)
    ensures fromMap.limit > 0.0 ==> Lowest(Selected(MapDataPriority, fromCar, fromMap)) == MapCandidate(fromMap)
  {
    LowestSelectedIsConsolidated(Combined, fromCar, fromMap);
    LowestSelectedIsConsolidated(CarStatePriority, fromCar, fromMap);
    LowestSelectedIsConsolidated(MapDataPriority, fromCar, fromMap);
  }

  // ---------------------------------------------------------------------------------------------
  // One resolution
  // ---------------------------------------------------------------------------------------------

  /** The outcome of one resolution: the consolidated candidate and the new sticky tracker. */
  datatype Resolved = Resolved(candidate: Candidate, tracker: real)

  /** One full resolution: car-state reading, map-data reading, consolidation. */
  function Resolution(policy: Policy, vEgo: real, currentSpeedLimit: real, sm: Snapshot,
                      now: real, trackerPrev: real): (r: Resolved)
    ensures r.candidate.distance >= 0.0
    // the car-state candidate is the cruise-state limit, always in effect immediately
    ensures r.candidate.source == CarState ==>
              r.candidate == Candidate(sm.carState.cruiseSpeedLimit, 0.0, CarState)
    // a reported limit is positive and tagged with its source; otherwise the result is empty
    ensures r.candidate.limit != 0.0 ==> r.candidate.limit > 0.0 && r.candidate.source != NoSource
    ensures r.candidate.limit == 0.0 ==> r.candidate == NoCandidate
    // the `_only` policies never report the other source
    ensures policy == CarStateOnly ==> r.candidate.source != MapData
    ensures policy == MapDataOnly ==> r.candidate.source != CarState
    // absent or stale map data is never reported and leaves the tracker alone
    ensures !Fresh(sm.liveMapData, now) ==> r.candidate.source != MapData && r.tracker == trackerPrev
  {
    var m := MapDataSolution(vEgo, currentSpeedLimit, sm.liveMapData, now, trackerPrev);
    Resolved(Consolidated(policy, Reading(sm.carState.cruiseSpeedLimit, 0.0), Reading(m.limit, m.distance)),
             m.tracker)
  }

  // ---------------------------------------------------------------------------------------------
  // The resolver object
  // ---------------------------------------------------------------------------------------------

  class SpeedLimitResolver {
    /** Per-source limit solutions of the current cycle. */
    var limitSolutions: map<Source, real>
    /** Per-source distance solutions of the current cycle. */
    var distanceSolutions: map<Source, real>
    var vEgo: real
    var currentSpeedLimit: real
    const policy: Policy
    /** The ahead limit being tracked across cycles (0 when none). */
    var nextSpeedLimitPrev: real
    var speedLimit: real
    var distance: real
    var source: Source

    constructor (policy: Policy)
      ensures this.policy == policy
      ensures limitSolutions == map[] && distanceSolutions == map[]
      ensures vEgo == 0.0 && currentSpeedLimit == 0.0 && nextSpeedLimitPrev == 0.0
      ensures speedLimit == 0.0 && distance == 0.0 && source == NoSource
    {
      limitSolutions := map[];
      distanceSolutions := map[];
      vEgo := 0.0;
      currentSpeedLimit := 0.0;
      this.policy := policy;
      nextSpeedLimitPrev := 0.0;
      speedLimit := 0.0;
      distance := 0.0;
      source := NoSource;
    }

    /** The stored solution for source `s`. */
    function ReadingOf(s: Source): Reading
      reads this`limitSolutions, this`distanceSolutions
      requires s in limitSolutions && s in distanceSolutions
    {
      Reading(limitSolutions[s], distanceSolutions[s])
    }

    /** Resolves this cycle's limit from the snapshot; `now` is the wall-clock time (s). */
    method Resolve(vEgo: real, currentSpeedLimit: real, sm: Snapshot, now: real)
      returns (limit: real, distance: real, source: Source)
      modifies this
      ensures this.vEgo == vEgo && this.currentSpeedLimit == currentSpeedLimit
      ensures limit == speedLimit && distance == this.distance && source == this.source
      ensures Candidate(limit, distance, source)
              == Resolution(policy, vEgo, currentSpeedLimit, sm, now, old(nextSpeedLimitPrev)).candidate
      ensures nextSpeedLimitPrev == Resolution(policy, vEgo, currentSpeedLimit, sm, now, old(nextSpeedLimitPrev)).tracker
    {
      this.vEgo := vEgo;
      this.currentSpeedLimit := currentSpeedLimit;
      GetFromCarState(sm);
      GetFromMapData(sm, now);
      Consolidate();
      limit, distance, source := speedLimit, this.distance, this.source;
    }

    /** Stores the car-state solution: the cruise-state limit at distance 0. */
    method GetFromCarState(sm: Snapshot)
      modifies this`limitSolutions, this`distanceSolutions
      ensures limitSolutions == old(limitSolutions)[CarState := sm.carState.cruiseSpeedLimit]
      ensures distanceSolutions == old(distanceSolutions)[CarState := 0.0]
    {
      limitSolutions := limitSolutions[CarState := sm.carState.cruiseSpeedLimit];
      distanceSolutions := distanceSolutions[CarState := 0.0];
    }

    /** Stores the map-data solution and updates the sticky ahead-limit tracker. */
    method GetFromMapData(sm: Snapshot, now: real)
      modifies this`limitSolutions, this`distanceSolutions, this`nextSpeedLimitPrev
      ensures var r := MapDataSolution(vEgo, currentSpeedLimit, sm.liveMapData, now, old(nextSpeedLimitPrev));
              limitSolutions == old(limitSolutions)[MapData := r.limit]
              && distanceSolutions == old(distanceSolutions)[MapData := r.distance]
              && nextSpeedLimitPrev == r.tracker
    {
      if sm.liveMapData.None? {
        limitSolutions := limitSolutions[MapData := 0.0];
        distanceSolutions := distanceSolutions[MapData := 0.0];
        return;
      }

      var mapData := sm.liveMapData.value;
      var speedLimit := if mapData.speedLimitValid then mapData.speedLimit else 0.0;
      var nextSpeedLimit := if mapData.speedLimitAheadValid then mapData.speedLimitAhead else 0.0;

      var gpsFixAge := now - mapData.lastGpsTimestamp * 0.001;
      if gpsFixAge > MaxMapDataAge {
        limitSolutions := limitSolutions[MapData := 0.0];
        distanceSolutions := distanceSolutions[MapData := 0.0];
        return;
      }

      if nextSpeedLimit == 0.0 || vEgo <= 0.0 || nextSpeedLimit > currentSpeedLimit {
        limitSolutions := limitSolutions[MapData := speedLimit];
        distanceSolutions := distanceSolutions[MapData := 0.0];
        nextSpeedLimitPrev := 0.0;
        return;
      }

      var distanceSinceFix := vEgo * gpsFixAge;
      var distanceToSpeedLimitAhead := mapData.speedLimitAheadDistance - distanceSinceFix;
      if 0.0 >= distanceToSpeedLimitAhead {
        distanceToSpeedLimitAhead := 0.0;
      }
      assert distanceToSpeedLimitAhead == CorrectedDistance(vEgo, mapData, now);

      if nextSpeedLimit == nextSpeedLimitPrev {
        limitSolutions := limitSolutions[MapData := nextSpeedLimit];
        distanceSolutions := distanceSolutions[MapData := distanceToSpeedLimitAhead];
        return;
      }

      nextSpeedLimitPrev := 0.0;

      var adaptTime := (nextSpeedLimit - vEgo) / LimitAdaptAcc;
      var adaptDistance := vEgo * adaptTime + 0.5 * LimitAdaptAcc * adaptTime * adaptTime;

      if distanceToSpeedLimitAhead <= adaptDistance {
        limitSolutions := limitSolutions[MapData := nextSpeedLimit];
        distanceSolutions := distanceSolutions[MapData := distanceToSpeedLimitAhead];
        nextSpeedLimitPrev := nextSpeedLimit;
        return;
      }

      limitSolutions := limitSolutions[MapData := speedLimit];
      distanceSolutions := distanceSolutions[MapData := 0.0];
    }

    /** Builds the policy's candidate list, falls back when its largest value is 0, drops
        non-positive values and keeps the first smallest one. */
    method Consolidate()
      requires CarState in limitSolutions && CarState in distanceSolutions
      requires MapData in limitSolutions && MapData in distanceSolutions
      modifies this`speedLimit, this`distance, this`source
      ensures Candidate(speedLimit, distance, source)
              == Consolidated(policy, ReadingOf(CarState), ReadingOf(MapData))
    {
      var fromCar := Candidate(limitSolutions[CarState], distanceSolutions[CarState], CarState);
      var fromMap := Candidate(limitSolutions[MapData], distanceSolutions[MapData], MapData);
      var candidates: seq<Candidate> := [];

      if policy == CarStateOnly || policy == CarStatePriority || policy == Combined {
        candidates := candidates + [fromCar];
      }
      if policy == MapDataOnly || policy == MapDataPriority || policy == Combined {
        candidates := candidates + [fromMap];
      }
      ghost var carReading, mapReading := ReadingOf(CarState), ReadingOf(MapData);
      assert candidates == Primary(policy, carReading, mapReading);

      if MaxLimit(candidates) == 0.0 {
        if policy == CarStatePriority {
          candidates := candidates + [fromMap];
        } else if policy == MapDataPriority {
          candidates := candidates + [fromCar];
        }
      }
      assert candidates == Selected(policy, carReading, mapReading);

      var best := MinPositive(candidates);
      LowestSelectedIsConsolidated(policy, carReading, mapReading);
      speedLimit, distance, source := best.limit, best.distance, best.source;
    }
  }

  // ---------------------------------------------------------------------------------------------
  // Worked scenarios
  // ---------------------------------------------------------------------------------------------

  /** Car-state limit 25 m/s and no map data under the default policy resolve to (25, 0, car state). */
  lemma ScenarioCarStateFallback(tracker: real, now: real)
    ensures Resolution(MapDataPriority, 30.0, 0.0, Snapshot(CarStateMsg(25.0, false), None), now, tracker).candidate
            == Candidate(25.0, 0.0, CarState)
  {
  }

  /** At 30 m/s, under a 30 m/s limit, a 20 m/s ahead limit 200 m away (fresh fix) lies inside the
      braking envelope of about 208 m, so it is reported and tracked. */
  lemma ScenarioAheadInsideEnvelope(now: real)
    ensures var md := LiveMapData(30.0, true, 20.0, true, 200.0, now * 1000.0);
            MapDataSolution(30.0, 30.0, Some(md), now, 0.0) == MapSolution(20.0, 200.0, 20.0)
  {
    var md := LiveMapData(30.0, true, 20.0, true, 200.0, now * 1000.0);
    assert FixAge(md, now) == 0.0;
    assert AdaptDistance(30.0, 20.0) > 200.0;
  }
}
