/**
 Signing timestamps over sessions: loaded from the database with a guard of fifteen seconds, raised to the
 wall clock, and saved by forked processes that cap the value at the wall clock. Timestamps count units of
 10 microseconds since 2015; the clock counts microseconds since 1970.
 */
module Signing {
  import opened Bytes

  const EPOCH_OFFSET: nat := 1420070400
  const GUARD: nat := 15 * 100 * 1000
  const SECOND: nat := 1000 * 1000
  const CHANNELS: nat := 102
  const TWO64: nat := 0x1_0000_0000_0000_0000

  /** The wall clock as a signing timestamp, as loading and saving compute it. */
  function MavTime(now: nat): nat {
    if now > EPOCH_OFFSET * SECOND then (now - EPOCH_OFFSET * SECOND) / SECOND * (100 * 1000) else 0
  }

  /** The wall clock as a signing timestamp, as raising computes it. */
  function Target(now: nat): nat {
    (if now / SECOND > EPOCH_OFFSET then now / SECOND - EPOCH_OFFSET else now / SECOND) * (100 * 1000)
  }

  function Loaded(stored: nat, now: nat): nat {
    Max((stored + GUARD) % TWO64, MavTime(now))
  }

  function Raised(channels: seq<Option<nat>>, target: nat): (r: seq<Option<nat>>)
    ensures |r| == |channels|
  {
    seq(|channels|, i requires 0 <= i < |channels| =>
      if channels[i].Some? && channels[i].value < target then Some(target) else channels[i])
  }

  /** What a save makes of the stored value, channel after channel from `i` on. */
  function Saved(stored: nat, channels: seq<Option<nat>>, cap: nat, i: nat): nat
    requires i <= |channels|
    decreases |channels| - i
  {
    if i == |channels| then stored
    else Saved(if channels[i].Some? then Max(stored, Min(channels[i].value, cap)) else stored, channels, cap, i + 1)
  }

  // ---------------------------------------------------------------- the system

  /**
   The stored value, the clock, the links' values where signing is on, each link's last save, and the forked
   saves with the values they copied. `top` is the highest value any link has ever held.
   */
  datatype System = System(stored: nat, now: nat, channels: seq<Option<nat>>, lastSave: seq<nat>,
                           jobs: seq<seq<Option<nat>>>, top: nat)

  datatype Step =
    | Tick(now: nat)
    | Load(ch: nat, found: bool, secret: bool)
    | Update(ch: nat)
    | Save(n: nat, found: bool)
    | Advance(ch: nat, value: nat)
    | Restart

  function Highest(channels: seq<Option<nat>>): nat {
    if channels == [] then 0
    else Max(Highest(channels[..|channels| - 1]), if channels[|channels| - 1].Some? then channels[|channels| - 1].value else 0)
  }

  function Holding(s: System, channels: seq<Option<nat>>): System {
    s.(channels := channels, top := Max(s.top, Highest(channels)))
  }

  /** Without a key the link's value is cleared; a key with no secret and no timestamp turns signing off. */
  function LoadStep(s: System, ch: nat, found: bool, secret: bool): System
    requires ch < |s.channels| == |s.lastSave|
  {
    var value :=
      if !found then (if s.channels[ch].Some? then Some(0) else None)
      else if s.stored == 0 && !secret then None
      else Some(Loaded(s.stored, s.now));
    Holding(s, s.channels[ch := value]).(lastSave := s.lastSave[ch := 0])
  }

  function UpdateStep(s: System, ch: nat): System
    requires ch < |s.lastSave|
  {
    if s.now - s.lastSave[ch] < 10 * SECOND then s
    else
      var raised := Raised(s.channels, Target(s.now));
      Holding(s, raised).(lastSave := s.lastSave[ch := s.now], jobs := s.jobs + [raised])
  }

  function SaveStep(s: System, n: nat, found: bool): System
    requires n < |s.jobs|
  {
    s.(stored := if found then Saved(s.stored, s.jobs[n], MavTime(s.now), 0) else s.stored,
       jobs := s.jobs[..n] + s.jobs[n + 1..])
  }

  /** The clock does not go back and its timestamp leaves room for the guard in 64 bits. */
  predicate Enabled(s: System, step: Step)
    requires Shaped(s)
  {
    match step
    case Tick(now) => s.now <= now && MavTime(now) + GUARD < TWO64
    case Load(ch, _, _) => ch < CHANNELS
    case Update(ch) => ch < CHANNELS
    case Save(n, _) => n < |s.jobs|
    case Advance(ch, value) => ch < CHANNELS && s.channels[ch].Some? && s.channels[ch].value <= value
    case Restart => true
  }

  predicate Shaped(s: System) {
    |s.channels| == CHANNELS && |s.lastSave| == CHANNELS
  }

  function Next(s: System, step: Step): (t: System)
    requires Shaped(s) && Enabled(s, step)
    ensures Shaped(t)
  {
    match step
    case Tick(now) => s.(now := now)
    case Load(ch, found, secret) => LoadStep(s, ch, found, secret)
    case Update(ch) => UpdateStep(s, ch)
    case Save(n, found) => SaveStep(s, n, found)
    case Advance(ch, value) => Holding(s, s.channels[ch := Some(value)])
    case Restart => s.(channels := seq(CHANNELS, i => None), lastSave := seq(CHANNELS, i => 0))
  }

  ghost predicate Trace(s: System, steps: seq<Step>)
    requires Shaped(s)
    decreases |steps|
  {
    steps == [] || (Enabled(s, steps[0]) && Trace(Next(s, steps[0]), steps[1..]))
  }

  function Run(s: System, steps: seq<Step>): (t: System)
    requires Shaped(s) && Trace(s, steps)
    ensures Shaped(t)
    decreases |steps|
  {
    if steps == [] then s else Run(Next(s, steps[0]), steps[1..])
  }

  /** A stored value with room for the guard, and a clock past 2015. */
  predicate StartOk(stored: nat, now: nat) {
    stored + GUARD < TWO64 && now / SECOND > EPOCH_OFFSET && MavTime(now) + GUARD < TWO64
  }

  function Init(stored: nat, now: nat): System {
    System(stored, now, seq(CHANNELS, i => None), seq(CHANNELS, i => 0), [], 0)
  }

  // ---------------------------------------------------------------- saving

  /** A save stores the least value that is at least the stored one and every link's value capped at the clock. */
  lemma {:induction false} SavedIsLeast(stored: nat, channels: seq<Option<nat>>, cap: nat, i: nat, bound: nat)
    requires i <= |channels|
    ensures Saved(stored, channels, cap, i) <= bound <==>
            stored <= bound && forall j :: i <= j < |channels| && channels[j].Some? ==> Min(channels[j].value, cap) <= bound
    decreases |channels| - i
  {
    if i < |channels| {
      var next := if channels[i].Some? then Max(stored, Min(channels[i].value, cap)) else stored;
      SavedIsLeast(next, channels, cap, i + 1, bound);
    }
  }

  lemma SavedBounds(stored: nat, channels: seq<Option<nat>>, cap: nat)
    ensures stored <= Saved(stored, channels, cap, 0) <= Max(stored, cap)
  {
    SavedIsLeast(stored, channels, cap, 0, Saved(stored, channels, cap, 0));
    SavedIsLeast(stored, channels, cap, 0, Max(stored, cap));
  }

  /** Saves commute: the stored value does not depend on the order in which two of them write. */
  lemma SavesCommute(stored: nat, a: seq<Option<nat>>, b: seq<Option<nat>>, cap: nat)
    ensures Saved(Saved(stored, a, cap, 0), b, cap, 0) == Saved(Saved(stored, b, cap, 0), a, cap, 0)
  {
    var x, y := Saved(Saved(stored, a, cap, 0), b, cap, 0), Saved(Saved(stored, b, cap, 0), a, cap, 0);
    OneOrder(stored, a, b, cap, x);
    OneOrder(stored, b, a, cap, x);
    OneOrder(stored, a, b, cap, y);
    OneOrder(stored, b, a, cap, y);
  }

  lemma OneOrder(stored: nat, a: seq<Option<nat>>, b: seq<Option<nat>>, cap: nat, bound: nat)
    ensures Saved(Saved(stored, a, cap, 0), b, cap, 0) <= bound <==>
            stored <= bound && (forall j :: 0 <= j < |a| && a[j].Some? ==> Min(a[j].value, cap) <= bound)
                            && (forall j :: 0 <= j < |b| && b[j].Some? ==> Min(b[j].value, cap) <= bound)
  {
    SavedIsLeast(stored, a, cap, 0, bound);
    SavedIsLeast(Saved(stored, a, cap, 0), b, cap, 0, bound);
  }

  // ---------------------------------------------------------------- the clock

  lemma WholeSeconds(now: nat)
    ensures now / SECOND > EPOCH_OFFSET ==> MavTime(now) == Target(now)
    ensures now / SECOND <= EPOCH_OFFSET ==> MavTime(now) == 0
  {
    var s := now / SECOND;
    assert now == SECOND * s + now % SECOND;
    if now > EPOCH_OFFSET * SECOND {
      assert (now - EPOCH_OFFSET * SECOND) == SECOND * (s - EPOCH_OFFSET) + now % SECOND;
      assert (now - EPOCH_OFFSET * SECOND) / SECOND == s - EPOCH_OFFSET;
    }
  }

  /** Raising uses the same clock as loading and saving exactly when the clock is past 2015, or in its first second. */
  lemma ClocksAgreeExactlyWhen(now: nat)
    ensures Target(now) == MavTime(now) <==> now / SECOND > EPOCH_OFFSET || now / SECOND == 0
  {
    WholeSeconds(now);
  }

  lemma MavTimeGrows(a: nat, b: nat)
    requires a <= b
    ensures MavTime(a) <= MavTime(b)
  {
    WholeSeconds(a);
    WholeSeconds(b);
  }

  lemma {:induction false} HighestIs(channels: seq<Option<nat>>, bound: nat)
    ensures Highest(channels) <= bound <==>
            forall i :: 0 <= i < |channels| && channels[i].Some? ==> channels[i].value <= bound
  {
    if channels != [] {
      var init := channels[..|channels| - 1];
      HighestIs(init, bound);
      assert forall i :: 0 <= i < |init| ==> init[i] == channels[i];
    }
  }

  // ---------------------------------------------------------------- the stored value

  /** The stored value is at most the clock or its first value, and the clock is past 2015. */
  ghost predicate StoredOk(s: System, first: nat) {
    && Shaped(s) && s.stored <= Max(first, MavTime(s.now)) && first + GUARD < TWO64
    && MavTime(s.now) + GUARD < TWO64 && s.now / SECOND > EPOCH_OFFSET
  }

  lemma StepStored(s: System, step: Step, first: nat)
    requires StoredOk(s, first) && Enabled(s, step)
    ensures StoredOk(Next(s, step), first) && Next(s, step).stored >= s.stored && Next(s, step).now >= s.now
  {
    match step
    case Tick(now) =>
      MavTimeGrows(s.now, now);
      assert now / SECOND >= s.now / SECOND;
    case Save(n, found) => SavedBounds(s.stored, s.jobs[n], MavTime(s.now));
    case _ =>
  }

  lemma {:induction false} RunStored(s: System, steps: seq<Step>, first: nat)
    requires StoredOk(s, first) && Trace(s, steps)
    ensures StoredOk(Run(s, steps), first)
    ensures Run(s, steps).stored >= s.stored && Run(s, steps).now >= s.now
    decreases |steps|
  {
    assert Shaped(s);
    hide Next, StoredOk, Enabled;
    if steps != [] {
      StepStored(s, steps[0], first);
      RunStored(Next(s, steps[0]), steps[1..], first);
    }
  }

  /**
   However links come and go, are advanced by peers and are saved in whatever order: the stored value never
   decreases, and never exceeds the clock unless it did at the start.
   */
  lemma StoredNeverAhead(stored: nat, now: nat, before: seq<Step>, after: seq<Step>)
    requires StartOk(stored, now) && Trace(Init(stored, now), before)
    requires Trace(Run(Init(stored, now), before), after)
    ensures var s := Run(Init(stored, now), before);
            var t := Run(s, after);
            && s.stored <= t.stored && t.stored <= Max(stored, MavTime(t.now))
  {
    RunStored(Init(stored, now), before, stored);
    RunStored(Run(Init(stored, now), before), after, stored);
  }

  // ---------------------------------------------------------------- values in use

  /** The value a link would be loaded with now. */
  function Cover(s: System): nat {
    Max(s.stored + GUARD, MavTime(s.now))
  }

  /** An advance stays within the guard: at most fifteen seconds past the stored value, or behind the clock. */
  predicate Within(s: System, step: Step) {
    step.Advance? ==> step.value <= Cover(s)
  }

  ghost predicate AllWithin(s: System, steps: seq<Step>)
    requires Shaped(s) && Trace(s, steps)
    decreases |steps|
  {
    steps == [] || (Within(s, steps[0]) && AllWithin(Next(s, steps[0]), steps[1..]))
  }

  ghost predicate Covered(s: System) {
    Shaped(s) && s.top <= Cover(s) && Highest(s.channels) <= s.top
  }

  lemma HoldingCovered(s: System, channels: seq<Option<nat>>)
    requires Covered(s) && |channels| == CHANNELS
    requires forall i :: 0 <= i < CHANNELS && channels[i].Some? ==> channels[i] == s.channels[i] || channels[i].value <= Cover(s)
    ensures Covered(Holding(s, channels))
  {
    HighestIs(s.channels, Cover(s));
    HighestIs(channels, Cover(s));
  }

  lemma StepCovered(s: System, step: Step, first: nat)
    requires StoredOk(s, first) && Covered(s)
    requires Enabled(s, step) && Within(s, step)
    ensures Covered(Next(s, step))
  {
    match step
    case Tick(now) => MavTimeGrows(s.now, now);
    case Save(n, found) => SavedBounds(s.stored, s.jobs[n], MavTime(s.now));
    case Load(ch, found, secret) =>
      HoldingCovered(s, LoadStep(s, ch, found, secret).channels);
    case Update(ch) =>
      WholeSeconds(s.now);
      HoldingCovered(s, Raised(s.channels, Target(s.now)));
    case Advance(ch, value) => HoldingCovered(s, s.channels[ch := Some(value)]);
    case Restart => HighestIs(Next(s, step).channels, 0);
  }

  lemma {:induction false} RunCovered(s: System, steps: seq<Step>, first: nat)
    requires StoredOk(s, first) && Covered(s) && Trace(s, steps) && AllWithin(s, steps)
    ensures Covered(Run(s, steps))
    decreases |steps|
  {
    assert Shaped(s);
    hide Next, StoredOk, Enabled, Covered, Within;
    if steps != [] {
      StepStored(s, steps[0], first);
      StepCovered(s, steps[0], first);
      RunCovered(Next(s, steps[0]), steps[1..], first);
    }
  }

  lemma CoverBound(s: System, first: nat)
    requires StoredOk(s, first) && Covered(s)
    ensures s.top <= Loaded(s.stored, s.now) <= Max(first, MavTime(s.now)) + GUARD
  {
  }

  lemma InitOk(stored: nat, now: nat)
    requires StartOk(stored, now)
    ensures StoredOk(Init(stored, now), stored) && Covered(Init(stored, now))
  {
    HighestIs(Init(stored, now).channels, 0);
  }

  /**
   While advances stay within the guard, a link that is loaded starts at or above every value used before, in
   this session or an earlier one, and no value is more than fifteen seconds past the clock or the first value.
   */
  lemma NoReplay(stored: nat, now: nat, steps: seq<Step>)
    requires StartOk(stored, now) && Trace(Init(stored, now), steps) && AllWithin(Init(stored, now), steps)
    ensures var s := Run(Init(stored, now), steps);
            s.top <= Loaded(s.stored, s.now) <= Max(stored, MavTime(s.now)) + GUARD
  {
    hide Init, Run, AllWithin, StoredOk, Covered, Loaded, MavTime;
    InitOk(stored, now);
    RunStored(Init(stored, now), steps, stored);
    RunCovered(Init(stored, now), steps, stored);
    CoverBound(Run(Init(stored, now), steps), stored);
  }

  /** An advance keeps all used values below what a load would give exactly when it stays within the guard. */
  lemma AdvanceKeepsExactlyWhen(s: System, ch: nat, value: nat)
    requires Covered(s) && Enabled(s, Advance(ch, value))
    ensures Covered(Next(s, Advance(ch, value))) <==> Within(s, Advance(ch, value))
  {
    var channels := s.channels[ch := Some(value)];
    HighestIs(s.channels, Cover(s));
    HighestIs(channels, Cover(s));
    assert channels[ch] == Some(value);
  }

  /** In this state and every later one of the run, a load would start at or above every value used before. */
  ghost predicate AlwaysCovered(s: System, steps: seq<Step>)
    requires Shaped(s) && Trace(s, steps)
    decreases |steps|
  {
    s.top <= Loaded(s.stored, s.now) && (steps == [] || AlwaysCovered(Next(s, steps[0]), steps[1..]))
  }

  lemma NextTop(s: System, step: Step)
    requires Shaped(s) && Enabled(s, step) && Highest(s.channels) <= s.top
    ensures Highest(Next(s, step).channels) <= Next(s, step).top
  {
    if step == Restart {
      HighestIs(Next(s, step).channels, 0);
    }
  }

  lemma CoveredIsLoaded(s: System, first: nat)
    requires StoredOk(s, first) && Highest(s.channels) <= s.top
    ensures Covered(s) <==> s.top <= Loaded(s.stored, s.now)
  {
  }

  lemma {:induction false} AlwaysCoveredExactlyWhen(s: System, steps: seq<Step>, first: nat)
    requires StoredOk(s, first) && Covered(s) && Trace(s, steps)
    ensures AlwaysCovered(s, steps) <==> AllWithin(s, steps)
    decreases |steps|
  {
    assert Shaped(s) && Highest(s.channels) <= s.top;
    hide Next, StoredOk, Enabled, Covered, Within, Loaded, Highest;
    CoveredIsLoaded(s, first);
    if steps != [] {
      var t := Next(s, steps[0]);
      StepStored(s, steps[0], first);
      NextTop(s, steps[0]);
      CoveredIsLoaded(t, first);
      StepCoveredExactlyWhen(s, steps[0], first);
      if Covered(t) {
        AlwaysCoveredExactlyWhen(t, steps[1..], first);
      }
    }
  }

  lemma StepCoveredExactlyWhen(s: System, step: Step, first: nat)
    requires StoredOk(s, first) && Covered(s)
    requires Enabled(s, step)
    ensures Covered(Next(s, step)) <==> Within(s, step)
  {
    hide Next, StoredOk, Covered;
    if step.Advance? {
      AdvanceKeepsExactlyWhen(s, step.ch, step.value);
    } else {
      StepCovered(s, step, first);
    }
  }

  /**
   Over any run: in every state a load would start at or above every value ever used if and only if every advance
   stayed within the guard when it was made.
   */
  lemma NoReplayExactlyWhen(stored: nat, now: nat, steps: seq<Step>)
    requires StartOk(stored, now) && Trace(Init(stored, now), steps)
    ensures AlwaysCovered(Init(stored, now), steps) <==> AllWithin(Init(stored, now), steps)
  {
    hide Init, Trace, AllWithin, AlwaysCovered, StoredOk, Covered;
    InitOk(stored, now);
    AlwaysCoveredExactlyWhen(Init(stored, now), steps, stored);
  }

  /** Loads, raises, saves and restarts of the program itself always stay within the guard. */
  lemma {:induction false} LocalStepsStayWithin(s: System, steps: seq<Step>)
    requires Shaped(s) && Trace(s, steps) && forall i :: 0 <= i < |steps| ==> !steps[i].Advance?
    ensures AllWithin(s, steps)
    decreases |steps|
  {
    if steps != [] {
      LocalStepsStayWithin(Next(s, steps[0]), steps[1..]);
    }
  }

  /** An advance beyond the guard can be used again after a restart: the save caps it at the clock. */
  lemma BeyondTheGuard()
    ensures var s := Init(1000, (EPOCH_OFFSET + 10) * SECOND);
            var far := Advance(0, 9000000);
            && StartOk(1000, (EPOCH_OFFSET + 10) * SECOND)
            && var a := Next(s, Load(0, true, true));
               && Enabled(a, far) && !Within(a, far)
               && Loaded(Next(a, far).stored, a.now) < Next(a, far).top
  {
    var now := (EPOCH_OFFSET + 10) * SECOND;
    WholeSeconds(now);
    assert MavTime(now) == 1000000;
    var s := Init(1000, now);
    var a := Next(s, Load(0, true, true));
    assert a.channels[0] == Some(1501000);
    var b := a.channels[0 := Some(9000000)];
    HighestIs(b, 8999999);
    assert b[0].Some? && b[0].value > 8999999;
  }

  // ---------------------------------------------------------------- the steps in numbers

  /** Past 2015 both clocks count units of 10 microseconds in whole seconds. */
  lemma ClockIs(now: nat)
    requires now / 1_000_000 > 1420070400
    ensures MavTime(now) == Target(now) == (now / 1_000_000 - 1420070400) * 100_000
  {
    WholeSeconds(now);
  }

  /** A link that is loaded starts fifteen seconds past the stored value or at the clock, if that is later. */
  lemma LoadGives(s: System, ch: nat, found: bool, secret: bool)
    requires Shaped(s) && ch < 102
    requires s.now / 1_000_000 > 1420070400 && s.stored + 1_500_000 < 0x1_0000_0000_0000_0000
    ensures var t := LoadStep(s, ch, found, secret);
            && t.stored == s.stored && t.jobs == s.jobs && t.lastSave == s.lastSave[ch := 0]
            && (forall i :: 0 <= i < 102 && i != ch ==> t.channels[i] == s.channels[i])
            && t.channels[ch] ==
               if !found then (if s.channels[ch].Some? then Some(0) else None)
               else if s.stored == 0 && !secret then None
               else Some(Max(s.stored + 1_500_000, (s.now / 1_000_000 - 1420070400) * 100_000))
  {
    ClockIs(s.now);
  }

  /** Every ten seconds each signing link is raised to the clock, and the raised values are copied for a save. */
  lemma UpdateRaises(s: System, ch: nat)
    requires Shaped(s) && ch < 102 && s.now / 1_000_000 > 1420070400
    ensures var t := UpdateStep(s, ch);
            if s.now - s.lastSave[ch] < 10_000_000 then t == s
            else
              && t.stored == s.stored && t.lastSave == s.lastSave[ch := s.now] && t.jobs == s.jobs + [t.channels]
              && |t.channels| == 102
              && forall i :: 0 <= i < 102 ==>
                   t.channels[i] ==
                   if s.channels[i].None? then None
                   else Some(Max(s.channels[i].value, (s.now / 1_000_000 - 1420070400) * 100_000))
  {
    ClockIs(s.now);
  }

  /** A save stores the largest of the stored value and the copied ones, each cut to the clock. */
  lemma SaveStores(s: System, n: nat, found: bool, bound: nat)
    requires n < |s.jobs| && s.now / 1_000_000 > 1420070400
    ensures var clock := (s.now / 1_000_000 - 1420070400) * 100_000;
            SaveStep(s, n, found).stored <= bound <==>
            && s.stored <= bound
            && (found ==> forall j :: 0 <= j < |s.jobs[n]| && s.jobs[n][j].Some? ==> Min(s.jobs[n][j].value, clock) <= bound)
  {
    ClockIs(s.now);
    SavedIsLeast(s.stored, s.jobs[n], MavTime(s.now), 0, bound);
  }
}
