/** When the scheduler's loop ends and when it cannot, from what a caller can know beforehand:
    how far apart requests arrive and how long batches take. */
module SchedulerBounds {
  import opened Sums
  import opened Scheduler

  /** A batch takes at least `perItem` for each of its requests and never more than `longest`, and
      gaps are at most `gap`. */
  datatype Pace = Pace(perItem: nat, longest: nat, gap: nat)

  ghost predicate Keeps(d: Draws, p: Pace) {
    Fine(d) && d.gap <= p.gap && forall n: nat | n <= MAX_COUNT :: p.perItem * n <= d.service(n) <= p.longest
  }

  ghost predicate AllKeep(script: seq<Draws>, p: Pace) {
    forall i | 0 <= i < |script| :: Keeps(script[i], p)
  }

  /** All connections' time so far: a busy one's to the end of its batch, a free one's to now. */
  function Spent(busy: seq<nat>, now: nat): nat {
    if busy == [] then 0
    else Spent(busy[..|busy| - 1], now) + if busy[|busy| - 1] > 0 then busy[|busy| - 1] else now
  }

  lemma {:induction false} SpentUpdate(busy: seq<nat>, now: nat, i: nat, x: nat)
    requires i < |busy| && busy[i] == 0 && x > 0
    ensures Spent(busy[i := x], now) == Spent(busy, now) - now + x
  {
    var n := |busy| - 1;
    if i == n {
      assert busy[i := x][..n] == busy[..n];
    } else {
      SpentUpdate(busy[..n], now, i, x);
      assert busy[i := x][..n] == busy[..n][i := x];
    }
  }

  lemma {:induction false} SpentFreed(busy: seq<nat>, now: nat)
    ensures Spent(Freed(busy, now), now) >= Spent(busy, now)
  {
    if busy != [] {
      SpentFreed(busy[..|busy| - 1], now);
      assert Freed(busy, now)[..|busy| - 1] == Freed(busy[..|busy| - 1], now);
    }
  }

  lemma {:induction false} SpentLater(busy: seq<nat>, now: nat, later: nat)
    requires now <= later
    ensures Spent(busy, now) <= Spent(busy, later)
  {
    if busy != [] {
      SpentLater(busy[..|busy| - 1], now, later);
    }
  }

  lemma {:induction false} SpentAtMost(busy: seq<nat>, now: nat, most: nat)
    requires now <= most && forall i | 0 <= i < |busy| :: busy[i] <= most
    ensures Spent(busy, now) <= |busy| * most
  {
    if busy != [] {
      SpentAtMost(busy[..|busy| - 1], now, most);
      assert |busy| * most == (|busy| - 1) * most + most;
    }
  }

  lemma TimesSum(a: nat, b: nat, c: nat)
    ensures a * (b + c) == a * b + a * c
  {
  }

  // ---- What a paced run keeps ----

  /** Some batch started after the arrivals had ended. */
  ghost predicate StartedLate(busy: seq<nat>, longest: nat) {
    exists i | 0 <= i < |busy| :: busy[i] > END + 1 + longest
  }

  ghost predicate Steady(s: State, p: Pace) {
    && s.now <= HORIZON && (s.now < END ==> s.nextArrival <= END + p.gap)
    && p.perItem * s.items <= Spent(s.busy, s.now)
    && (forall i | 0 <= i < |s.busy| :: s.busy[i] <= s.now + 1 + p.longest)
    && (s.crowded ==> s.items + s.count > QUEUE)
    && (StartedLate(s.busy, p.longest) ==> s.now >= END && (s.crowded || s.count <= QUEUE))
  }

  lemma SettledSteady(s: State, p: Pace)
    requires Steady(s, p)
    ensures Steady(Settled(s), p)
  {
    SpentFreed(s.busy, s.now);
    hide Spent, Busy;
    var t := Settled(s);
    if i :| 0 <= i < |t.busy| && t.busy[i] > END + 1 + p.longest {
      assert s.busy[i] > END + 1 + p.longest;
    }
  }

  lemma LaunchCrowds(s: State, free: nat, service: nat)
    requires Sound(s) && free < CONNECTIONS
    ensures Launch(s, free, service).crowded == (s.crowded || s.count > QUEUE)
  {
  }

  lemma StartedLateUpdate(busy: seq<nat>, longest: nat, i: nat, x: nat)
    requires i < |busy|
    ensures StartedLate(busy[i := x], longest) ==> StartedLate(busy, longest) || x > END + 1 + longest
  {
    var after := busy[i := x];
    if k :| 0 <= k < |after| && after[k] > END + 1 + longest {
      assert k == i || busy[k] > END + 1 + longest;
    }
  }

  lemma BusyLength(s: State)
    requires Sound(s)
    ensures |s.busy| == CONNECTIONS
  {
  }

  lemma LaunchSteady(s: State, p: Pace, free: nat, service: nat)
    requires Sound(s) && Steady(s, p) && free < CONNECTIONS && s.busy[free] == 0 && s.count > 0
    requires p.perItem * Size(s.count) <= service <= p.longest
    ensures Steady(Launch(s, free, service), p)
  {
    hide Sound, Launch, Spent, StartedLate, Slot;
    BusyLength(s);
    LaunchFields(s, free, service);
    LaunchCrowds(s, free, service);
    SpentUpdate(s.busy, s.now, free, s.now + 1 + service);
    TimesSum(p.perItem, s.items, Size(s.count));
    StartedLateUpdate(s.busy, p.longest, free, s.now + 1 + service);
  }

  lemma {:induction false} DueSteady(s: State, p: Pace, d: Draws, j: nat)
    requires Sound(s) && Steady(s, p) && Keeps(d, p)
    ensures Steady(Due(s, d, j), p)
    decreases CONNECTIONS - j
  {
    hide Sound, Steady, Launch, FirstFree;
    var free := FirstFree(s.busy);
    if j < CONNECTIONS && free < CONNECTIONS && s.count > 0 && (d.due[j] || s.now >= END) {
      var service := d.service(Size(s.count));
      BusyLength(s);
      LaunchSound(s, free, service);
      LaunchSteady(s, p, free, service);
      DueSteady(Launch(s, free, service), p, d, j + 1);
    }
  }

  /** The next event is not before now. */
  lemma NextNotBefore(s: State, deadline: int)
    requires Ready(s) && s.now <= HORIZON
    ensures s.now <= NextTime(s, deadline)
  {
    NextTimeMeans(s, deadline);
    hide Sound, Earliest, FirstFree;
    if s.now >= END {
      assert Earliest(s.busy, HORIZON) >= s.now;
    }
  }

  lemma MovedSteady(s: State, p: Pace, d: Draws)
    requires Ready(s) && Steady(s, p) && p.gap <= END && d.gap <= p.gap && |s.ring| == QUEUE
    ensures Steady(Moved(Marked(s), d), p)
    ensures Moved(Marked(s), d).now >= s.now
  {
    NextTimeMeans(s, d.deadline);
    NextNotBefore(s, d.deadline);
    NextTimeMarked(s, d.deadline);
    SpentLater(s.busy, s.now, NextTime(s, d.deadline));
    hide Sound, Ready, NextTime, Spent, Slot, StartedLate, Overruns;
  }

  lemma TurnSteady(s: State, p: Pace, d: Draws)
    requires Sound(s) && Steady(s, p) && Keeps(d, p) && p.gap <= END
    ensures Steady(Turn(s, d), p)
  {
    hide Sound, Steady, Ahead, Settled, Due, Moved, Marked, Ready;
    TurnParts(s, d);
    SettledSteady(s, p);
    DueSteady(Settled(s), p, d, 0);
    MovedSteady(Begun(s, d), p, d);
  }

  lemma Fines(script: seq<Draws>, p: Pace)
    requires AllKeep(script, p)
    ensures forall d | d in script :: Fine(d)
    ensures script != [] ==> AllKeep(script[1..], p)
  {
  }

  lemma {:induction false} RunSteady(s: State, p: Pace, script: seq<Draws>)
    requires Sound(s) && Steady(s, p) && AllKeep(script, p) && p.gap <= END
    requires forall d | d in script :: Fine(d)
    ensures Steady(Run(s, script), p)
    decreases |script|
  {
    if script != [] && Working(s) {
      hide Sound, Steady, Turn, Working, Run;
      Fines(script, p);
      TurnSteady(s, p, script[0]);
      RunSteady(Turn(s, script[0]), p, script[1..]);
      RunStep(s, script);
    }
  }

  lemma InitialSteady(ring: seq<nat>, p: Pace, gap: nat)
    requires gap <= p.gap
    ensures Steady(Initial(ring, gap), p)
  {
    assert Spent([0, 0, 0, 0], 0) >= 0;
  }

  // ---- How many requests arrive ----

  ghost predicate GapsWithin(gaps: seq<nat>, least: nat, most: nat) {
    forall i | 0 <= i < |gaps| :: least <= gaps[i] <= most
  }

  lemma TimesLast(gaps: seq<nat>)
    requires gaps != []
    ensures var n := |gaps| - 1;
      Times(gaps)[n] == (if n == 0 then 0 else Times(gaps[..n])[n - 1] + 1) + gaps[n]
  {
  }

  /** Arrivals whose gaps are within bounds come no sooner and no later than multiples of them. */
  lemma {:induction false} TimesWithin(gaps: seq<nat>, least: nat, most: nat)
    requires GapsWithin(gaps, least, most) && gaps != []
    ensures |gaps| * (least + 1) <= Times(gaps)[|gaps| - 1] + 1 <= |gaps| * (most + 1)
  {
    hide Times;
    var n := |gaps| - 1;
    TimesLast(gaps);
    TimesSum(least + 1, n, 1);
    TimesSum(most + 1, n, 1);
    if n > 0 {
      TimesWithin(gaps[..n], least, most);
    }
  }

  lemma TurnGaps(s: State, d: Draws, least: nat, most: nat)
    requires Sound(s) && Fine(d) && GapsWithin(s.log.drawn, least, most) && least <= d.gap <= most
    ensures GapsWithin(Turn(s, d).log.drawn, least, most)
  {
    hide Sound, Ahead, Due, Begun, NextTime, Slot, Ready;
    TurnParts(s, d);
  }

  lemma {:induction false} RunGaps(s: State, script: seq<Draws>, least: nat, most: nat)
    requires Sound(s) && GapsWithin(s.log.drawn, least, most)
    requires (forall d | d in script :: Fine(d)) && forall i | 0 <= i < |script| :: least <= script[i].gap <= most
    ensures GapsWithin(Run(s, script).log.drawn, least, most)
    decreases |script|
  {
    if script != [] && Working(s) {
      hide Sound, GapsWithin, Turn, Working;
      TurnGaps(s, script[0], least, most);
      RunGaps(Turn(s, script[0]), script[1..], least, most);
    }
  }

  lemma TimesPrefix(gaps: seq<nat>)
    requires gaps != []
    ensures Times(gaps)[..|gaps| - 1] == Times(gaps[..|gaps| - 1])
  {
  }

  /** Once the arrivals have ended, as many have come as the gaps allow. */
  lemma ArrivalsBound(s: State, least: nat, most: nat)
    requires Sound(s) && GapsWithin(s.log.drawn, least, most)
    ensures |s.log.arrived| * (least + 1) <= END
    ensures s.now >= END ==> (|s.log.arrived| + 1) * (most + 1) > END
    ensures s.items + s.count == |s.log.arrived|
  {
    CountedSizes(s.log, s.items, s.batches, s.count);
    var gaps, n := s.log.drawn, |s.log.arrived|;
    assert Times(gaps) == s.log.arrived + [s.nextArrival];
    TimesWithin(gaps, least, most);
    hide Counted, RingShows, Tallied, Exact, Busy;
    if n > 0 {
      TimesPrefix(gaps);
      TimesWithin(gaps[..n], least, most);
      assert Times(gaps[..n])[n - 1] == s.log.arrived[n - 1] < END;
    }
  }

  // ---- Too much work ----

  lemma FirstGap(ring: seq<nat>, gap: nat, least: nat, most: nat)
    requires least <= gap <= most
    ensures GapsWithin(Initial(ring, gap).log.drawn, least, most)
  {
  }

  lemma GapsOf(script: seq<Draws>, p: Pace)
    requires AllKeep(script, p)
    ensures forall i | 0 <= i < |script| :: script[i].gap <= p.gap
  {
    assert forall i | 0 <= i < |script| :: Keeps(script[i], p);
  }

  /** What a paced run from the start has come to. */
  lemma PacedRun(ring: seq<nat>, gap: nat, script: seq<Draws>, p: Pace, least: nat)
    requires |ring| == QUEUE && least <= gap <= p.gap <= END && AllKeep(script, p)
    requires forall i | 0 <= i < |script| :: least <= script[i].gap
    ensures Sound(Initial(ring, gap)) && forall d | d in script :: Fine(d)
    ensures var r := Run(Initial(ring, gap), script);
      && Steady(r, p) && r.items + r.count == |r.log.arrived|
      && |r.log.arrived| * (least + 1) <= END
      && (r.now >= END ==> (|r.log.arrived| + 1) * (p.gap + 1) > END)
  {
    hide Sound, Steady, Initial, Run, GapsWithin, AllKeep, Keeps;
    InitialSound(ring, gap);
    Fines(script, p);
    InitialSteady(ring, p, gap);
    FirstGap(ring, gap, least, p.gap);
    GapsOf(script, p);
    var s := Initial(ring, gap);
    RunSteady(s, p, script);
    RunGaps(s, script, least, p.gap);
    ArrivalsBound(Run(s, script), least, p.gap);
  }

  lemma TimesUp(a: nat, b: nat, c: nat)
    requires b <= c
    ensures a * b <= a * c
  {
    TimesSum(a, b, c - b);
  }

  lemma AtLeast(arrived: nat, gap: nat)
    requires (arrived + 1) * (gap + 1) > END
    ensures arrived >= END / (gap + 1)
  {
    if arrived + 1 <= END / (gap + 1) {
      TimesUp(gap + 1, arrived + 1, END / (gap + 1));
    }
  }

  /** A paced run that has ended was not given more than it could do. */
  lemma Exhausted(r: State, p: Pace)
    requires Sound(r) && Steady(r, p) && !Working(r)
    requires r.now >= END ==> (|r.log.arrived| + 1) * (p.gap + 1) > END
    ensures p.perItem * (END / (p.gap + 1)) <= CONNECTIONS * HORIZON
  {
    EndedMeans(r);
    BusyLength(r);
    hide Sound, Spent, StartedLate;
    SpentAtMost(r.busy, r.now, HORIZON);
    AtLeast(|r.log.arrived|, p.gap);
    TimesUp(p.perItem, END / (p.gap + 1), |r.log.arrived|);
  }

  /** Four connections do not get through more than four times the last resort event in work. So when
      the requests that arrive add up to more, the loop never ends, whatever the clock answers. */
  lemma Overloaded(ring: seq<nat>, gap: nat, script: seq<Draws>, p: Pace)
    requires |ring| == QUEUE && gap <= p.gap <= END && AllKeep(script, p)
    requires p.perItem * (END / (p.gap + 1)) > CONNECTIONS * HORIZON
    ensures Sound(Initial(ring, gap)) && forall d | d in script :: Fine(d)
    ensures Working(Run(Initial(ring, gap), script))
    ensures |script| >= HORIZON + 2 ==> Run(Initial(ring, gap), script).late
  {
    hide Sound, Steady, Initial, Run, AllKeep, Working;
    PacedRun(ring, gap, script, p, 0);
    var r := Run(Initial(ring, gap), script);
    if !Working(r) {
      Exhausted(r, p);
    }
    if |script| >= HORIZON + 2 {
      EndsUnlessLate(ring, gap, script);
    }
  }

  /** The service time of `n` requests at the greatest stretch, 20, less a microsecond lost in rounding. */
  function Saturated(n: nat): nat {
    1399 + 400 * n
  }

  /** Draws of a saturated box, with requests `gap` and one microsecond apart. */
  ghost predicate SaturatedDraws(script: seq<Draws>, gap: nat) {
    forall i | 0 <= i < |script| ::
      Fine(script[i]) && script[i].gap == gap && forall n: nat | n <= MAX_COUNT :: script[i].service(n) == Saturated(n)
  }

  function Box(gap: nat): Pace {
    Pace(400, Saturated(MAX_COUNT), gap)
  }

  lemma SaturatedKeeps(script: seq<Draws>, gap: nat)
    requires SaturatedDraws(script, gap)
    ensures AllKeep(script, Box(gap)) && forall i | 0 <= i < |script| :: script[i].gap == gap
  {
    forall i | 0 <= i < |script| ensures Keeps(script[i], Box(gap)) {
      forall n: nat | n <= MAX_COUNT
        ensures 400 * n <= script[i].service(n) <= Saturated(MAX_COUNT)
      {
        assert script[i].service(n) == Saturated(n);
      }
    }
  }

  /** The loop need not end: with a request every 33 microseconds, about 30300 a second, and service
      times no longer than 52599, it is still at work after any number of turns, whatever the clock
      answers. All the while the ring has room for every request. */
  lemma Stalls(ring: seq<nat>, gap: nat, script: seq<Draws>)
    requires |ring| == QUEUE && gap == 32 && SaturatedDraws(script, gap)
    ensures Sound(Initial(ring, gap)) && forall d | d in script :: Fine(d)
    ensures var r := Run(Initial(ring, gap), script);
      && Working(r) && (|script| >= HORIZON + 2 ==> r.late)
      && |r.log.arrived| <= QUEUE && !r.crowded
    ensures forall n: nat | n <= MAX_COUNT :: Saturated(n) <= 52599
  {
    hide Sound, Initial, Run, AllKeep, Working, SaturatedDraws, Spent, StartedLate;
    SaturatedKeeps(script, gap);
    Overloaded(ring, gap, script, Box(gap));
    PacedRun(ring, gap, script, Box(gap), gap);
  }

  lemma LateMeans(s: State)
    requires Sound(s) && s.late
    ensures END <= s.now <= HORIZON && exists i :: 0 <= i < |s.busy| && s.busy[i] > HORIZON
  {
  }

  lemma LateIsCrowded(s: State, p: Pace)
    requires Sound(s) && s.late && Steady(s, p) && p == Box(0)
    requires s.now >= END ==> s.items + s.count + 1 > END
    ensures s.crowded
  {
    LateMeans(s);
    BusyLength(s);
    hide Sound, Spent;
    SpentAtMost(s.busy, s.now, HORIZON + 1 + p.longest);
    var i :| 0 <= i < |s.busy| && s.busy[i] > HORIZON;
    assert StartedLate(s.busy, p.longest);
  }

  /** The ring need not be large enough: with a request every microsecond a batch starts while more
      wait than it holds, and some of the waits counted are not the requests' own. */
  lemma Overfills(ring: seq<nat>, gap: nat, script: seq<Draws>)
    requires |ring| == QUEUE && gap == 0 && SaturatedDraws(script, gap) && |script| >= HORIZON + 2
    ensures Sound(Initial(ring, gap)) && forall d | d in script :: Fine(d)
    ensures Run(Initial(ring, gap), script).crowded
  {
    hide Sound, Initial, Run, AllKeep, Working, SaturatedDraws, Steady;
    SaturatedKeeps(script, gap);
    Overloaded(ring, gap, script, Box(gap));
    PacedRun(ring, gap, script, Box(gap), gap);
    LateIsCrowded(Run(Initial(ring, gap), script), Box(gap));
  }

  // ---- Work that ends in time ----

  /** What the batches in flight still take. */
  function Residual(busy: seq<nat>, now: nat): nat {
    if busy == [] then 0
    else Residual(busy[..|busy| - 1], now) + if busy[|busy| - 1] > now then busy[|busy| - 1] - now else 0
  }

  /** How many batches the waiting requests make. */
  function Batches(count: nat): nat {
    (count + MAX_COUNT - 1) / MAX_COUNT
  }

  lemma {:induction false} ResidualUpdate(busy: seq<nat>, now: nat, i: nat, x: nat)
    requires i < |busy| && busy[i] == 0 && x >= now
    ensures Residual(busy[i := x], now) == Residual(busy, now) + (x - now)
  {
    var n := |busy| - 1;
    if i == n {
      assert busy[i := x][..n] == busy[..n];
    } else {
      ResidualUpdate(busy[..n], now, i, x);
      assert busy[i := x][..n] == busy[..n][i := x];
    }
  }

  lemma {:induction false} ResidualFreed(busy: seq<nat>, now: nat)
    ensures Residual(Freed(busy, now), now) == Residual(busy, now)
  {
    if busy != [] {
      ResidualFreed(busy[..|busy| - 1], now);
      assert Freed(busy, now)[..|busy| - 1] == Freed(busy[..|busy| - 1], now);
    }
  }

  /** While every connection is busy, all of them get on. */
  lemma {:induction false} ResidualLater(busy: seq<nat>, now: nat, later: nat)
    requires now <= later && forall i | 0 <= i < |busy| :: busy[i] >= later
    ensures Residual(busy, later) + |busy| * (later - now) == Residual(busy, now)
  {
    if busy != [] {
      ResidualLater(busy[..|busy| - 1], now, later);
      assert |busy| * (later - now) == (|busy| - 1) * (later - now) + (later - now);
    }
  }

  lemma {:induction false} ResidualHolds(busy: seq<nat>, now: nat, i: nat)
    requires i < |busy|
    ensures busy[i] <= now + Residual(busy, now)
  {
    if i < |busy| - 1 {
      ResidualHolds(busy[..|busy| - 1], now, i);
    }
  }

  lemma {:induction false} ResidualAtMost(busy: seq<nat>, now: nat, most: nat)
    requires forall i | 0 <= i < |busy| :: busy[i] <= now + most
    ensures Residual(busy, now) <= |busy| * most
  {
    if busy != [] {
      ResidualAtMost(busy[..|busy| - 1], now, most);
      assert |busy| * most == (|busy| - 1) * most + most;
    }
  }

  /** After the arrivals: what is left to do fits before the last resort event. While requests wait
      all connections work, so the time that passes and the work left trade off; the last batch to
      start may run alone. */
  ghost predicate InTime(s: State, longest: nat) {
    && END <= s.now <= HORIZON && !s.late
    && (forall i | 0 <= i < |s.busy| :: s.busy[i] <= s.now + 1 + longest)
    && if s.count > 0
       then CONNECTIONS * s.now + Residual(s.busy, s.now) + (longest + 1) * (Batches(s.count) + 3) <= CONNECTIONS * HORIZON
       else forall i | 0 <= i < |s.busy| :: s.busy[i] <= HORIZON
  }

  lemma InTimeFits(s: State, longest: nat)
    requires InTime(s, longest)
    ensures !Overruns(s.busy)
  {
    if s.count > 0 {
      hide Residual;
      TimesUp(longest + 1, 3, Batches(s.count) + 3);
      forall i | 0 <= i < |s.busy| ensures s.busy[i] <= HORIZON {
        ResidualHolds(s.busy, s.now, i);
      }
    }
  }

  lemma SettledInTime(s: State, longest: nat)
    requires InTime(s, longest)
    ensures InTime(Settled(s), longest)
  {
    ResidualFreed(s.busy, s.now);
    hide Residual, Busy;
  }

  lemma LaunchInTime(s: State, longest: nat, free: nat, service: nat)
    requires Sound(s) && InTime(s, longest) && free < CONNECTIONS && s.busy[free] == 0 && s.count > 0
    requires service <= longest
    ensures InTime(Launch(s, free, service), longest)
  {
    hide Sound, Launch, Residual, Slot;
    BusyLength(s);
    LaunchFields(s, free, service);
    var t := Launch(s, free, service);
    ResidualUpdate(s.busy, s.now, free, s.now + 1 + service);
    assert Batches(t.count) == Batches(s.count) - 1;
    TimesSum(longest + 1, Batches(t.count) + 3, 1);
    if t.count == 0 {
      forall i | 0 <= i < |t.busy| ensures t.busy[i] <= HORIZON {
        ResidualHolds(t.busy, t.now, i);
      }
    }
  }

  lemma {:induction false} DueInTime(s: State, longest: nat, d: Draws, j: nat)
    requires Sound(s) && InTime(s, longest) && Fine(d)
    requires forall n: nat | n <= MAX_COUNT :: d.service(n) <= longest
    ensures InTime(Due(s, d, j), longest)
    decreases CONNECTIONS - j
  {
    hide Sound, InTime, Launch, FirstFree;
    var free := FirstFree(s.busy);
    if j < CONNECTIONS && free < CONNECTIONS && s.count > 0 && (d.due[j] || s.now >= END) {
      var service := d.service(Size(s.count));
      BusyLength(s);
      LaunchSound(s, free, service);
      LaunchInTime(s, longest, free, service);
      DueInTime(Launch(s, free, service), longest, d, j + 1);
    }
  }

  lemma MovedInTime(s: State, longest: nat, d: Draws)
    requires Ready(s) && InTime(s, longest) && |s.ring| == QUEUE
    ensures InTime(Moved(Marked(s), d), longest)
  {
    InTimeFits(s, longest);
    NextTimeMeans(s, d.deadline);
    NextNotBefore(s, d.deadline);
    NextTimeMarked(s, d.deadline);
    BusyLength(s);
    hide Sound, Residual, Slot, Overruns, Batches;
    if s.count > 0 {
      ResidualLater(s.busy, s.now, NextTime(s, d.deadline));
    }
  }

  lemma TurnInTime(s: State, longest: nat, d: Draws)
    requires Sound(s) && InTime(s, longest) && Fine(d)
    requires forall n: nat | n <= MAX_COUNT :: d.service(n) <= longest
    ensures InTime(Turn(s, d), longest)
  {
    hide Sound, InTime, Ahead, Settled, Due, Moved, Marked, Ready;
    TurnParts(s, d);
    SettledInTime(s, longest);
    DueInTime(Settled(s), longest, d, 0);
    MovedInTime(Begun(s, d), longest, d);
  }

  lemma NotLate(s: State, longest: nat)
    requires InTime(s, longest)
    ensures !s.late && s.now >= END
  {
  }

  lemma LeftSome(s: State)
    ensures Left(s) > 0
  {
  }

  lemma KeepsFirst(script: seq<Draws>, p: Pace)
    requires AllKeep(script, p) && script != []
    ensures Keeps(script[0], p) && Fine(script[0]) && AllKeep(script[1..], p)
    ensures forall n: nat | n <= MAX_COUNT :: script[0].service(n) <= p.longest
  {
    assert Keeps(script[0], p);
    forall i | 0 <= i < |script[1..]| ensures Keeps(script[1..][i], p) {
      assert script[1..][i] == script[i + 1];
    }
  }

  lemma {:induction false} EndsInTime(s: State, p: Pace, script: seq<Draws>)
    requires Sound(s) && InTime(s, p.longest) && AllKeep(script, p) && forall d | d in script :: Fine(d)
    requires |script| >= Left(s)
    ensures !Working(Run(s, script)) && !Run(s, script).late
    decreases |script|
  {
    hide Sound, InTime, Turn, Run, Working, Keeps, AllKeep, Left;
    NotLate(s, p.longest);
    LeftSome(s);
    if Working(s) {
      var d, t := script[0], Turn(s, script[0]);
      KeepsFirst(script, p);
      TurnInTime(s, p.longest, d);
      NotLate(t, p.longest);
      TurnAdvances(s, d);
      RunStep(s, script);
      if Working(t) {
        LeftShrinks(s, t);
        EndsInTime(t, p, script[1..]);
      } else {
        RunStops(t, script[1..]);
      }
    } else {
      RunStops(s, script);
    }
  }

  /** A backlog of `count` requests when the arrivals end can be worked off in time. */
  predicate Drainable(count: nat, p: Pace) {
    CONNECTIONS * (END + p.gap) + (p.longest + 1) * (Batches(count) + 7) <= CONNECTIONS * HORIZON
  }

  lemma SteadyBusy(s: State, p: Pace)
    requires Steady(s, p)
    ensures s.now <= HORIZON && (s.now < END ==> s.nextArrival <= END + p.gap)
    ensures forall i | 0 <= i < |s.busy| :: s.busy[i] <= s.now + 1 + p.longest
  {
  }

  lemma DrainableMeans(t: State, p: Pace)
    requires |t.busy| == CONNECTIONS && END <= t.now <= HORIZON && t.now <= END + p.gap && !t.late
    requires forall i | 0 <= i < |t.busy| :: t.busy[i] <= t.now + 1 + p.longest
    requires Drainable(t.count, p)
    ensures InTime(t, p.longest)
  {
    ResidualAtMost(t.busy, t.now, 1 + p.longest);
    hide Residual, Batches;
    TimesSum(p.longest + 1, Batches(t.count) + 3, 4);
    TimesUp(p.longest + 1, 1, Batches(t.count) + 7);
  }

  lemma TurnEndsBy(s: State, d: Draws)
    requires Sound(s) && Fine(d) && s.now < END
    ensures Turn(s, d).now <= s.nextArrival
  {
    var b := Begun(s, d);
    NextTimeMeans(b, d.deadline);
    NextTimeMarked(b, d.deadline);
    hide Sound, Ready, Begun, NextTime, Slot, Busy, Freed, Overruns, FirstFree;
    MovedSound(b, d);
  }

  lemma KeepsFine(d: Draws, p: Pace)
    requires Keeps(d, p)
    ensures Fine(d)
  {
  }

  /** The turn in which the arrivals end. */
  lemma EntersInTime(s: State, p: Pace, d: Draws)
    requires Sound(s) && Steady(s, p) && !s.late && s.now < END && Keeps(d, p) && p.gap <= END
    requires Turn(s, d).now >= END && Drainable(Turn(s, d).count, p)
    ensures InTime(Turn(s, d), p.longest)
  {
    hide Sound, Turn, Steady, Working, Keeps, Begun, Overruns, InTime, Drainable;
    KeepsFine(d, p);
    var t := Turn(s, d);
    TurnSteady(s, p, d);
    TurnAdvances(s, d);
    TurnEndsBy(s, d);
    SteadyBusy(s, p);
    SteadyBusy(t, p);
    BusyLength(t);
    DrainableMeans(t, p);
  }

  lemma {:induction false} RunAppend(s: State, a: seq<Draws>, b: seq<Draws>)
    requires Sound(s) && (forall d | d in a :: Fine(d)) && forall d | d in b :: Fine(d)
    ensures Run(s, a + b) == Run(Run(s, a), b)
    decreases |a|
  {
    hide Sound, Turn, Working;
    if a == [] {
      assert a + b == b;
    } else if Working(s) {
      RunAppend(Turn(s, a[0]), a[1..], b);
      assert (a + b)[1..] == a[1..] + b;
    } else {
      RunStops(s, b);
    }
  }

  lemma NotYetLate(s: State)
    requires Sound(s) && s.now < END
    ensures !s.late
  {
  }

  lemma StillWorks(s: State)
    ensures s.now < END ==> Working(s)
  {
  }

  /** When the requests that wait as the arrivals end can be worked off in time, the loop ends:
      whatever the clock has answered before and answers then. */
  lemma EndsIfDrained(ring: seq<nat>, gap: nat, before: seq<Draws>, d: Draws, after: seq<Draws>, p: Pace)
    requires |ring| == QUEUE && gap <= p.gap <= END
    requires AllKeep(before, p) && Keeps(d, p) && AllKeep(after, p) && |after| >= HORIZON + 2
    ensures Sound(Initial(ring, gap)) && forall x | x in before + [d] + after :: Fine(x)
    ensures var s := Run(Initial(ring, gap), before);
      s.now < END <= Turn(s, d).now && Drainable(Turn(s, d).count, p) ==>
      !Working(Run(Initial(ring, gap), before + [d] + after))
  {
    hide Sound, Steady, Initial, Run, Turn, Working, AllKeep, Keeps, Drainable, InTime;
    Fines(before, p);
    Fines(after, p);
    KeepsFine(d, p);
    PacedRun(ring, gap, before, p, 0);
    var start := Initial(ring, gap);
    var s := Run(start, before);
    if s.now < END <= Turn(s, d).now && Drainable(Turn(s, d).count, p) {
      NotYetLate(s);
      EntersInTime(s, p, d);
      EndsInTime(Turn(s, d), p, after);
      RunAppend(start, before, [d] + after);
      assert before + [d] + after == before + ([d] + after);
      StillWorks(s);
      RunStep(s, [d] + after);
      assert ([d] + after)[1..] == after;
    }
  }

  /** The bound in numbers: with batches of at most 52600 microseconds and gaps of at most 10000,
      193664 waiting requests are not too many. */
  lemma DrainableBacklog(count: nat, p: Pace)
    requires p.longest <= 52600 && p.gap <= 10000 && count <= 193664
    ensures Drainable(count, p)
  {
    assert Batches(count) <= 1513;
    TimesUp(p.longest + 1, Batches(count) + 7, 1520);
    TimesUp(1520, p.longest + 1, 52601);
  }

  lemma KeepsGap(d: Draws, p: Pace)
    requires Keeps(d, p)
    ensures d.gap <= p.gap
  {
  }

  lemma FewArrive(arrived: nat, least: nat)
    requires arrived * (least + 1) <= END
    ensures arrived <= END / (least + 1)
  {
    if arrived >= END / (least + 1) + 1 {
      TimesUp(least + 1, END / (least + 1) + 1, arrived);
    }
  }

  lemma DrainableLess(a: nat, b: nat, p: Pace)
    requires a <= b && Drainable(b, p)
    ensures Drainable(a, p)
  {
    assert Batches(a) <= Batches(b);
    TimesUp(p.longest + 1, Batches(a) + 7, Batches(b) + 7);
  }

  lemma TurnLeft(s: State, d: Draws)
    requires Sound(s) && Fine(d) && s.now < END
    ensures Left(Turn(s, d)) < Left(s)
  {
    TurnAdvances(s, d);
    var b := Begun(s, d);
    NextTimeMeans(b, d.deadline);
    NextTimeMarked(b, d.deadline);
    hide Sound, Ready, Begun, NextTime, Slot, Busy, Freed, Overruns, FirstFree;
    MovedSound(b, d);
  }

  /** A run whose arrivals are so far apart that even all of them together could be worked off. */
  lemma {:induction false} SparseRun(s: State, p: Pace, least: nat, script: seq<Draws>)
    requires Sound(s) && AllKeep(script, p) && p.gap <= END && Drainable(END / (least + 1), p)
    requires (forall d | d in script :: Fine(d)) && forall i | 0 <= i < |script| :: least <= script[i].gap
    requires if s.now < END then Steady(s, p) && GapsWithin(s.log.drawn, least, p.gap) else InTime(s, p.longest)
    requires |script| >= Left(s)
    ensures !Working(Run(s, script))
    decreases |script|
  {
    hide Sound, Steady, InTime, Turn, Run, Working, Keeps, AllKeep, Left, GapsWithin, Drainable;
    if s.now >= END {
      EndsInTime(s, p, script);
    } else {
      LeftSome(s);
      var d, t := script[0], Turn(s, script[0]);
      KeepsFirst(script, p);
      KeepsGap(d, p);
      NotYetLate(s);
      StillWorks(s);
      RunStep(s, script);
      TurnSteady(s, p, d);
      TurnGaps(s, d, least, p.gap);
      if t.now >= END {
        ArrivalsBound(t, least, p.gap);
        FewArrive(t.items + t.count, least);
        DrainableLess(t.count, END / (least + 1), p);
        EntersInTime(s, p, d);
      }
      TurnLeft(s, d);
      SparseRun(t, p, least, script[1..]);
    }
  }

  /** With gaps and service times that a caller can bound beforehand, the loop ends. */
  lemma EndsIfSparse(ring: seq<nat>, gap: nat, script: seq<Draws>, p: Pace, least: nat)
    requires |ring| == QUEUE && least <= gap <= p.gap <= END && AllKeep(script, p)
    requires (forall i | 0 <= i < |script| :: least <= script[i].gap) && |script| >= HORIZON + 2
    requires Drainable(END / (least + 1), p)
    ensures Sound(Initial(ring, gap)) && forall d | d in script :: Fine(d)
    ensures !Working(Run(Initial(ring, gap), script))
  {
    InitialSound(ring, gap);
    Fines(script, p);
    InitialSteady(ring, p, gap);
    FirstGap(ring, gap, least, p.gap);
    hide Sound, Steady, Run, GapsWithin, AllKeep, Drainable;
    SparseRun(Initial(ring, gap), p, least, script);
  }
}
