/** The preloader: the latch that waits for both the page's `load` event and
    a two-second minimum before running `onPageLoaded`, the simulated
    progress that creeps towards 95 % meanwhile, the final ramp to 100 %,
    and the coordinates the counter shows for a progress value.

    Timers and animation callbacks are modelled as events arriving in some
    order; the random increment of a tick travels with its event. The GSAP
    tweens, colours and the exit animation are not modelled. */
module Preloader {
  import opened Arith

  /** The callbacks the preloader reacts to. */
  datatype Event =
    | WindowLoad          // the window's `load` listener
    | MinTimeElapsed      // the 2000 ms `setTimeout`
    | FadeInDone          // the logo fade-in's `onComplete`, which starts the cycling
    | Tick(rand: real)    // one `onRepeat` of the counter timeline, with its `Math.random()`

  /** The closure's state. `ticking` and `colorCycling` say whether the
      counter and colour timelines exist and have not been killed;
      `loadedCalls` counts the runs of `onPageLoaded`. */
  datatype State = State(
    pageComplete: bool,
    hasCounter: bool,
    hasLoaded: bool,
    minTimeReached: bool,
    isLoaded: bool,
    colorCycling: bool,
    ticking: bool,
    progress: real,
    loadedCalls: nat)

  /** Simulated progress never goes past this before the page is loaded. */
  const ProgressCap := 0.95
  const MinIncrement := 0.005
  const IncrementRange := 0.02

  /** The state when the DOM is ready: `pageComplete` is whether the
      document had already finished loading, `hasCounter` whether the
      percentage element exists. */
  function Init(pageComplete: bool, hasCounter: bool): (s: State)
    ensures !s.isLoaded && s.loadedCalls == 0 && s.progress == 0.0
    ensures !s.ticking && !s.colorCycling
  {
    State(pageComplete, hasCounter, false, false, false, false, false, 0.0, 0)
  }

  /** `onPageLoaded`: marks the page loaded and kills both cycling
      timelines. */
  function OnPageLoaded(s: State): (r: State)
    ensures r.isLoaded && !r.ticking && !r.colorCycling
    ensures r.loadedCalls == s.loadedCalls + 1 && r.progress == s.progress
  {
    s.(isLoaded := true, colorCycling := false, ticking := false, loadedCalls := s.loadedCalls + 1)
  }

  /** The simulated progress after one tick: the increment `rand * 0.02 +
      0.005` added and the sum capped at 0.95. */
  function Advance(progress: real, rand: real): (p: real)
    requires 0.0 <= progress <= ProgressCap && 0.0 <= rand < 1.0
    ensures progress < p <= ProgressCap || p == progress == ProgressCap
    ensures p == ProgressCap || p - progress >= MinIncrement
    ensures p - progress < MinIncrement + IncrementRange
  {
    var q := progress + (rand * IncrementRange + MinIncrement);
    if q < ProgressCap then q else ProgressCap
  }

  /** The random numbers a trace carries are those `Math.random()` can
      return. */
  predicate RandOk(e: Event) {
    e.Tick? ==> 0.0 <= e.rand < 1.0
  }

  /** One callback. A completed page listens only to its timer. The counter
      ticks only while its timeline is alive and the page is not loaded, and
      starting the cycling does nothing once the page is loaded. */
  function Step(s: State, e: Event): (r: State)
    requires RandOk(e) && 0.0 <= s.progress <= ProgressCap
    ensures 0.0 <= s.progress <= r.progress <= ProgressCap
    ensures r.pageComplete == s.pageComplete && r.hasCounter == s.hasCounter
    ensures r.loadedCalls == s.loadedCalls || r.loadedCalls == s.loadedCalls + 1
    ensures s.isLoaded ==> r.isLoaded && r.progress == s.progress
    ensures e == FadeInDone && s.isLoaded ==> r == s
    ensures e.Tick? && s.ticking && !s.isLoaded ==>
              r.progress == ProgressCap || r.progress - s.progress >= MinIncrement
  {
    match e
    case WindowLoad =>
      if s.pageComplete then s
      else
        var t := s.(hasLoaded := true);
        if t.minTimeReached then OnPageLoaded(t) else t
    case MinTimeElapsed =>
      if s.pageComplete then OnPageLoaded(s)
      else
        var t := s.(minTimeReached := true);
        if t.hasLoaded then OnPageLoaded(t) else t
    case FadeInDone =>
      if s.isLoaded then s
      else s.(colorCycling := true, ticking := s.hasCounter)
    case Tick(rand) =>
      if s.ticking && !s.isLoaded then s.(progress := Advance(s.progress, rand)) else s
  }

  predicate AllRandOk(evs: seq<Event>) {
    forall i :: 0 <= i < |evs| ==> RandOk(evs[i])
  }

  /** Each of the three one-shot callbacks fires at most once. */
  predicate OneShot(evs: seq<Event>) {
    forall i, j :: 0 <= i < j < |evs| && !evs[i].Tick? ==> evs[i] != evs[j]
  }

  /** The state after the callbacks `evs`, in order. */
  function Run(s: State, evs: seq<Event>): (r: State)
    requires AllRandOk(evs) && 0.0 <= s.progress <= ProgressCap
    ensures 0.0 <= s.progress <= r.progress <= ProgressCap
    ensures r.pageComplete == s.pageComplete && r.hasCounter == s.hasCounter
    decreases |evs|
  {
    if |evs| == 0 then s else Step(Run(s, evs[..|evs| - 1]), evs[|evs| - 1])
  }

  /** Whether `onPageLoaded` is due after `evs`: on a completed page once
      the timer has fired, otherwise once both the load event and the timer
      have fired, in either order. */
  predicate Due(pageComplete: bool, evs: seq<Event>) {
    if pageComplete then MinTimeElapsed in evs
    else WindowLoad in evs && MinTimeElapsed in evs
  }

  /** What holds after every prefix of a one-shot trace. */
  predicate Invariant(s: State, evs: seq<Event>) {
    && s.hasLoaded == (!s.pageComplete && WindowLoad in evs)
    && s.minTimeReached == (!s.pageComplete && MinTimeElapsed in evs)
    && s.loadedCalls == (if Due(s.pageComplete, evs) then 1 else 0)
    && s.isLoaded == Due(s.pageComplete, evs)
    && (s.isLoaded ==> !s.ticking && !s.colorCycling)
  }

  /** One more callback keeps the invariant, provided a one-shot callback
      has not fired before. */
  lemma StepKeepsInvariant(s: State, evs: seq<Event>, e: Event)
    requires RandOk(e) && 0.0 <= s.progress <= ProgressCap
    requires Invariant(s, evs) && (!e.Tick? ==> e !in evs)
    ensures Invariant(Step(s, e), evs + [e])
  {
    var evs' := evs + [e];
    assert WindowLoad in evs' <==> WindowLoad in evs || e == WindowLoad;
    assert MinTimeElapsed in evs' <==> MinTimeElapsed in evs || e == MinTimeElapsed;
  }

  lemma {:induction false} InvariantHolds(pageComplete: bool, hasCounter: bool, evs: seq<Event>)
    requires AllRandOk(evs) && OneShot(evs)
    ensures Invariant(Run(Init(pageComplete, hasCounter), evs), evs)
    decreases |evs|
  {
    if |evs| > 0 {
      var pre, e := evs[..|evs| - 1], evs[|evs| - 1];
      assert AllRandOk(pre) && OneShot(pre);
      InvariantHolds(pageComplete, hasCounter, pre);
      assert evs == pre + [e];
      assert !e.Tick? ==> e !in pre;
      StepKeepsInvariant(Run(Init(pageComplete, hasCounter), pre), pre, e);
    }
  }

  /** The latch: `onPageLoaded` has run exactly once once it is due and not
      at all before, and never more than once, whatever the order of the
      callbacks. */
  lemma PageLoadedExactlyOnce(pageComplete: bool, hasCounter: bool, evs: seq<Event>)
    requires AllRandOk(evs) && OneShot(evs)
    ensures var s := Run(Init(pageComplete, hasCounter), evs);
            s.loadedCalls <= 1 &&
            (s.loadedCalls == 1 <==> Due(pageComplete, evs)) &&
            (s.isLoaded <==> s.loadedCalls == 1)
  {
    InvariantHolds(pageComplete, hasCounter, evs);
  }

  /** Once loaded, neither timeline runs any more. */
  lemma LoadedStopsCycling(pageComplete: bool, hasCounter: bool, evs: seq<Event>)
    requires AllRandOk(evs) && OneShot(evs)
    ensures var s := Run(Init(pageComplete, hasCounter), evs);
            s.isLoaded ==> !s.ticking && !s.colorCycling
  {
    InvariantHolds(pageComplete, hasCounter, evs);
  }

  /** Progress only grows along a trace: every prefix shows at most the
      progress of the whole. */
  lemma {:induction false} ProgressMonotone(s: State, evs: seq<Event>, k: nat)
    requires AllRandOk(evs) && 0.0 <= s.progress <= ProgressCap && k <= |evs|
    ensures AllRandOk(evs[..k])
    ensures Run(s, evs[..k]).progress <= Run(s, evs).progress
    decreases |evs|
  {
    if k < |evs| {
      var pre := evs[..|evs| - 1];
      assert AllRandOk(pre);
      assert pre[..k] == evs[..k];
      ProgressMonotone(s, pre, k);
    } else {
      assert evs[..k] == evs;
    }
  }

  /** Once loaded, the progress is frozen. */
  lemma {:induction false} FrozenAfterLoad(s: State, evs: seq<Event>)
    requires AllRandOk(evs) && 0.0 <= s.progress <= ProgressCap && s.isLoaded
    ensures Run(s, evs).progress == s.progress
    decreases |evs|
  {
    if |evs| > 0 {
      var pre := evs[..|evs| - 1];
      assert AllRandOk(pre);
      FrozenAfterLoad(s, pre);
      RunKeepsLoaded(s, pre);
    }
  }

  lemma {:induction false} RunKeepsLoaded(s: State, evs: seq<Event>)
    requires AllRandOk(evs) && 0.0 <= s.progress <= ProgressCap && s.isLoaded
    ensures Run(s, evs).isLoaded
    decreases |evs|
  {
    if |evs| > 0 {
      var pre := evs[..|evs| - 1];
      assert AllRandOk(pre);
      RunKeepsLoaded(s, pre);
    }
  }

  // ---------------------------------------------------------------------
  // The final ramp and the coordinates
  // ---------------------------------------------------------------------

  /** The `onUpdate` of the final tween: tween progress `t` in [0, 1] shown
      as `0.95 + 0.05 t`. */
  function RampProgress(t: real): (p: real)
    requires 0.0 <= t <= 1.0
    ensures ProgressCap <= p <= 1.0
    ensures t == 0.0 ==> p == ProgressCap
    ensures t == 1.0 ==> p == 1.0
  {
    0.95 + t * 0.05
  }

  /** The ramp runs forward and starts where the simulated progress stops,
      so the counter never moves backwards. */
  lemma RampForward(p: real, t1: real, t2: real)
    requires 0.0 <= p <= ProgressCap && 0.0 <= t1 <= t2 <= 1.0
    ensures p <= RampProgress(t1) <= RampProgress(t2)
  {
  }

  const StartLat := 0.0
  const StartLng := 0.0
  /** The destination: south of the equator, east of Greenwich. */
  const EndLat := -7.946
  const EndLng := 14.375

  datatype Coordinates = Coordinates(lat: real, lng: real)

  /** `updateCoordinates`: the point a fraction `p` of the way from the
      start to the destination. */
  function CoordinatesAt(p: real): (c: Coordinates)
    ensures p == 0.0 ==> c == Coordinates(StartLat, StartLng)
    ensures p == 1.0 ==> c == Coordinates(EndLat, EndLng)
    ensures 0.0 <= p <= 1.0 ==> EndLat <= c.lat <= StartLat && StartLng <= c.lng <= EndLng
  {
    Coordinates(StartLat + (EndLat - StartLat) * p, StartLng + (EndLng - StartLng) * p)
  }

  /** Moving further along never moves back: latitude falls and longitude
      rises with progress. */
  lemma CoordinatesMonotone(p: real, q: real)
    requires p <= q
    ensures CoordinatesAt(q).lat <= CoordinatesAt(p).lat
    ensures CoordinatesAt(p).lng <= CoordinatesAt(q).lng
  {
  }

  /** The counter's text before digit formatting: each magnitude with its
      hemisphere letter. The three-decimal rendering is not modelled. */
  datatype CoordinateLabel = CoordinateLabel(latAbs: real, latDir: char, lngAbs: real, lngDir: char)

  /** `formatCoordinates`: 'N' for a latitude of zero or more and 'S'
      otherwise, 'E' for a longitude of zero or more and 'W' otherwise,
      with the magnitudes shown unsigned. */
  function FormatCoordinates(c: Coordinates): (l: CoordinateLabel)
    ensures l.latDir == 'N' <==> c.lat >= 0.0
    ensures l.latDir in {'N', 'S'} && l.lngDir in {'E', 'W'}
    ensures l.lngDir == 'E' <==> c.lng >= 0.0
    ensures l.latAbs >= 0.0 && l.lngAbs >= 0.0
  {
    CoordinateLabel(Abs(c.lat), if c.lat >= 0.0 then 'N' else 'S',
                    Abs(c.lng), if c.lng >= 0.0 then 'E' else 'W')
  }

  /** Reading a label back: the letter gives the sign. */
  function ReadLabel(l: CoordinateLabel): Coordinates {
    Coordinates(if l.latDir == 'S' then -l.latAbs else l.latAbs,
                if l.lngDir == 'W' then -l.lngAbs else l.lngAbs)
  }

  /** The label loses nothing: it reads back as the coordinates it shows. */
  lemma ReadFormatCoordinates(c: Coordinates)
    ensures ReadLabel(FormatCoordinates(c)) == c
  {
  }

  /** On the way the counter reads south and east; at the very start it
      reads north and east. */
  lemma LabelsAlongTheWay(p: real)
    requires 0.0 <= p <= 1.0
    ensures FormatCoordinates(CoordinatesAt(p)).lngDir == 'E'
    ensures FormatCoordinates(CoordinatesAt(p)).latDir == (if p == 0.0 then 'N' else 'S')
  {
  }

  /** The last update shows the destination, read south and east. */
  lemma FinalLabel()
    ensures FormatCoordinates(CoordinatesAt(RampProgress(1.0))) == CoordinateLabel(7.946, 'S', 14.375, 'E')
  {
  }
}
