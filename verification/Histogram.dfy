/** Four tasks fill one histogram: by local tallies and one atomic add a bin, by an atomic add
    a value, or under a lock taken once a value. Under every interleaving of their steps the
    bins come out as on one thread. */
module Histogram {
  import opened Words
  import opened Sums

  const BINS: nat := 256

  // ---- The values ----

  /** One round of xorshift32, on the bits of an `i32`. */
  function Xorshift(x: u32): u32 {
    Exp2Of32();
    var a := Xor(x, x * 0x2000 % U32_SIZE, 32);
    var b := Xor(a, a / 0x2_0000, 32);
    Xor(b, b * 0x20 % U32_SIZE, 32)
  }

  /** The state after `i` rounds from `seed`. */
  function State(seed: u32, i: nat): u32 {
    if i == 0 then seed else Xorshift(State(seed, i - 1))
  }

  /** The bits before and after one shift to the left by `n` and exclusive or. */
  ghost predicate MixedLeft(x: nat, n: nat, y: nat) {
    forall k | 0 <= k < 32 :: Bit(y, k) <==> Bit(x, k) != (k >= n && Bit(x, k - n))
  }

  /** The bits before and after one shift to the right by `n` and exclusive or. */
  ghost predicate MixedRight(x: nat, n: nat, y: nat) {
    forall k | 0 <= k < 32 :: Bit(y, k) <==> Bit(x, k) != Bit(x, k + n)
  }

  lemma MixLeft(x: nat, n: nat)
    ensures MixedLeft(x, n, Xor(x, x * Exp2(n) % Exp2(32), 32))
  {
    var width := 32;
    hide Bit, Xor, Exp2;
    forall k | 0 <= k < 32
      ensures Bit(Xor(x, x * Exp2(n) % Exp2(32), 32), k) <==> Bit(x, k) != (k >= n && Bit(x, k - n))
    {
      XorBits(x, x * Exp2(n) % Exp2(width), width, k);
      ShiftLeftBits(x, n, width, k);
    }
  }

  lemma MixRight(x: nat, n: nat)
    ensures MixedRight(x, n, Xor(x, ShiftRight(x, n), 32))
  {
    var width := 32;
    hide Bit, Xor, Exp2, ShiftRight;
    forall k | 0 <= k < 32 ensures Bit(Xor(x, ShiftRight(x, n), 32), k) <==> Bit(x, k) != Bit(x, k + n) {
      XorBits(x, ShiftRight(x, n), width, k);
      ShiftRightBits(x, n, k);
    }
  }

  /** One round is three mixes: by 13 to the left, by 17 to the right and by 5 to the left. */
  lemma XorshiftBits(x: u32)
    ensures exists a: u32, b: u32 :: MixedLeft(x, 13, a) && MixedRight(a, 17, b) && MixedLeft(b, 5, Xorshift(x))
  {
    hide MixedLeft, MixedRight, Xor;
    var a := Xor(x, x * 0x2000 % U32_SIZE, 32);
    var b := Xor(a, a / 0x2_0000, 32);
    Exp2Of32();
    assert Exp2(13) == 0x2000 && Exp2(17) == 0x2_0000 && Exp2(5) == 0x20;
    ShiftRightDivides(a, 17);
    MixLeft(x, 13);
    MixRight(a, 17);
    MixLeft(b, 5);
  }

  /** `x >>> 24`. */
  function Bin(x: u32): (b: nat)
    ensures b < 256 && b * 16777216 <= x < (b + 1) * 16777216
  {
    x / 0x100_0000
  }

  /** How many of the first `n` values from `seed` fall into bin `b`. */
  function Count(seed: u32, n: nat, b: nat): (c: nat)
    ensures c <= n
  {
    if n == 0 then 0
    else Count(seed, n - 1, b) + if Bin(State(seed, n)) == b then 1 else 0
  }

  /** Which of the values after 1 to `n` rounds have the top byte `b`. */
  function Hits(seed: u32, n: nat, b: nat): set<int> {
    set i: int | 1 <= i <= n && b * 16777216 <= State(seed, i) < (b + 1) * 16777216
  }

  /** The count of a bin is the number of rounds from the first to the `n`-th that hit it. */
  lemma {:induction false} CountMeans(seed: u32, n: nat, b: nat)
    ensures Count(seed, n, b) == |Hits(seed, n, b)|
  {
    hide State;
    if n > 0 {
      CountMeans(seed, n - 1, b);
      assert Hits(seed, n, b) == Hits(seed, n - 1, b) + if Bin(State(seed, n)) == b then {n} else {};
    } else {
      assert Hits(seed, 0, b) == {};
    }
  }

  function Counts(seeds: seq<u32>, n: nat, b: nat): seq<int> {
    seq(|seeds|, t requires 0 <= t < |seeds| => Count(seeds[t], n, b))
  }

  /** What every mode should put into bin `b`. */
  function Expected(seeds: seq<u32>, n: nat, b: nat): int {
    Sum(Counts(seeds, n, b))
  }

  // ---- One thread ----

  /** Bins `n` values from `seed` into plain counters. */
  method BinPlain(seed: u32, n: nat, bins: array<int>)
    requires bins.Length == BINS
    modifies bins
    ensures forall b | 0 <= b < BINS :: bins[b] == old(bins[b]) + Count(seed, n, b)
  {
    var x := seed;
    for i := 0 to n
      invariant x == State(seed, i)
      invariant forall b | 0 <= b < BINS :: bins[b] == old(bins[b]) + Count(seed, i, b)
    {
      x := Xorshift(x);
      var bin := Bin(x);
      if bin < bins.Length {
        bins[bin] := bins[bin] + 1;
      }
    }
  }

  lemma SumAppend(xs: seq<int>, x: int)
    ensures Sum(xs + [x]) == Sum(xs) + x
  {
    assert (xs + [x])[..|xs|] == xs;
  }

  lemma ExpectedPush(seeds: seq<u32>, t: nat, n: nat, b: nat)
    requires t < |seeds|
    ensures Expected(seeds[..t + 1], n, b) == Expected(seeds[..t], n, b) + Count(seeds[t], n, b)
  {
    assert Counts(seeds[..t + 1], n, b) == Counts(seeds[..t], n, b) + [Count(seeds[t], n, b) as int];
    SumAppend(Counts(seeds[..t], n, b), Count(seeds[t], n, b));
  }

  lemma ExpectedOfNone(n: nat)
    ensures forall b :: Expected([], n, b) == 0
  {
  }

  /** A round on one thread. */
  method Single(seeds: seq<u32>, n: nat) returns (out: seq<int>)
    ensures |out| == BINS && forall b | 0 <= b < BINS :: out[b] == Expected(seeds, n, b)
  {
    hide Expected, Count;
    ExpectedOfNone(n);
    var bins := new int[BINS](_ => 0);
    for t := 0 to |seeds|
      invariant forall b | 0 <= b < BINS :: bins[b] == Expected(seeds[..t], n, b)
    {
      forall b | 0 <= b < BINS
        ensures Expected(seeds[..t + 1], n, b) == Expected(seeds[..t], n, b) + Count(seeds[t], n, b)
      {
        ExpectedPush(seeds, t, n, b);
      }
      BinPlain(seeds[t], n, bins);
    }
    assert seeds[..|seeds|] == seeds;
    out := bins[..];
  }

  // ---- Many threads ----

  datatype Program = Shards | PerValue | Locked

  /** Where a task is: binning with `i` values done; inside the lock before and after reading the
      bin and after writing it; adding its tally with `k` bins done; finished. */
  datatype At =
    | Binning(i: nat, x: u32)
    | Entered(i: nat, x: u32)
    | Loaded(i: nat, x: u32, r: int)
    | Stored(i: nat, x: u32)
    | Publishing(k: nat)
    | Finished

  datatype Task = Task(at: At, local: seq<int>)

  /** The shared bins, the task inside the lock if any, and the tasks. */
  datatype World = World(bins: seq<int>, holder: Option<nat>, tasks: seq<Task>)

  function Zeros(): (z: seq<int>)
    ensures |z| == BINS && forall b | 0 <= b < BINS :: z[b] == 0
  {
    seq(BINS, _ => 0)
  }

  function Start(seeds: seq<u32>): World {
    World(Zeros(), None, seq(|seeds|, t requires 0 <= t < |seeds| => Task(Binning(0, seeds[t]), Zeros())))
  }

  ghost predicate Shaped(w: World) {
    |w.bins| == BINS && forall t | 0 <= t < |w.tasks| :: |w.tasks[t].local| == BINS
  }

  /** The next step of task `t` in a world; a task that waits for the lock or has finished stays put. */
  function Step(p: Program, n: nat, w: World, t: nat): (w': World)
    requires Shaped(w) && t < |w.tasks|
    ensures Shaped(w') && |w'.tasks| == |w.tasks|
  {
    var task := w.tasks[t];
    match task.at
    case Binning(i, x0) =>
      var x := Xorshift(x0);
      if i == n then
        w.(tasks := w.tasks[t := task.(at := if p.Shards? then Publishing(0) else Finished)])
      else if p.Shards? then
        w.(tasks := w.tasks[t := Task(Binning(i + 1, x), task.local[Bin(x) := task.local[Bin(x)] + 1])])
      else if p.PerValue? then
        World(w.bins[Bin(x) := w.bins[Bin(x)] + 1], w.holder, w.tasks[t := task.(at := Binning(i + 1, x))])
      else if w.holder == None then
        w.(holder := Some(t), tasks := w.tasks[t := task.(at := Entered(i, x))])
      else w
    case Entered(i, x) => w.(tasks := w.tasks[t := task.(at := Loaded(i, x, w.bins[Bin(x)]))])
    case Loaded(i, x, r) => World(w.bins[Bin(x) := r + 1], w.holder, w.tasks[t := task.(at := Stored(i, x))])
    case Stored(i, x) => World(w.bins, None, w.tasks[t := task.(at := Binning(i + 1, x))])
    case Publishing(k) =>
      if k >= BINS then w.(tasks := w.tasks[t := task.(at := Finished)])
      else World(w.bins[k := w.bins[k] + task.local[k]], w.holder, w.tasks[t := task.(at := Publishing(k + 1))])
    case Finished => w
  }

  /** The world after the steps of a schedule, which names the task of each step. */
  function Run(p: Program, seeds: seq<u32>, n: nat, schedule: seq<nat>): (w: World)
    ensures Shaped(w) && |w.tasks| == |seeds|
  {
    if schedule == [] then Start(seeds)
    else
      var w := Run(p, seeds, n, schedule[..|schedule| - 1]);
      var t := schedule[|schedule| - 1];
      if t < |seeds| then Step(p, n, w, t) else w
  }

  // ---- The invariant ----

  /** What task `t` has put into shared bin `b` so far. */
  function Given(p: Program, seed: u32, n: nat, at: At, b: nat): nat {
    match at
    case Binning(i, _) => if p.Shards? then 0 else Count(seed, i, b)
    case Entered(i, _) => Count(seed, i, b)
    case Loaded(i, _, _) => Count(seed, i, b)
    case Stored(i, _) => Count(seed, i + 1, b)
    case Publishing(k) => if b < k then Count(seed, n, b) else 0
    case Finished => Count(seed, n, b)
  }

  function AllGiven(p: Program, seeds: seq<u32>, n: nat, w: World, b: nat): seq<int>
    requires |w.tasks| == |seeds|
  {
    seq(|seeds|, t requires 0 <= t < |seeds| => Given(p, seeds[t], n, w.tasks[t].at, b))
  }

  predicate InLock(at: At) {
    at.Entered? || at.Loaded? || at.Stored?
  }

  ghost predicate Tallied(local: seq<int>, seed: u32, i: nat)
    requires |local| == BINS
  {
    forall b | 0 <= b < BINS :: local[b] == Count(seed, i, b)
  }

  /** A task's own state is what its program has made it; the bin it has read is still as it was. */
  ghost predicate TaskInv(p: Program, seed: u32, n: nat, w: World, t: nat)
    requires Shaped(w) && t < |w.tasks|
  {
    var task := w.tasks[t];
    && (InLock(task.at) <==> w.holder == Some(t))
    && match task.at
       case Binning(i, x) => i <= n && x == State(seed, i) && (p.Shards? ==> Tallied(task.local, seed, i))
       case Entered(i, x) => p.Locked? && i < n && x == State(seed, i + 1)
       case Loaded(i, x, r) => p.Locked? && i < n && x == State(seed, i + 1) && r == w.bins[Bin(x)]
       case Stored(i, x) => p.Locked? && i < n && x == State(seed, i + 1)
       case Publishing(k) => p.Shards? && k <= BINS && Tallied(task.local, seed, n)
       case Finished => true
  }

  ghost predicate Inv(p: Program, seeds: seq<u32>, n: nat, w: World) {
    && Shaped(w) && |w.tasks| == |seeds|
    && (w.holder.Some? ==> w.holder.value < |seeds|)
    && (forall t: nat | t < |seeds| :: TaskInv(p, seeds[t], n, w, t))
    && (forall b: nat | b < BINS :: w.bins[b] == Sum(AllGiven(p, seeds, n, w, b)))
  }

  /** Task `t`'s step adds to each bin exactly what the task counts as given. */
  lemma StepGives(p: Program, seeds: seq<u32>, n: nat, w: World, t: nat, b: nat)
    requires Inv(p, seeds, n, w) && t < |seeds| && b < BINS
    ensures var w' := Step(p, n, w, t);
      w'.bins[b] - w.bins[b] == Given(p, seeds[t], n, w'.tasks[t].at, b) - Given(p, seeds[t], n, w.tasks[t].at, b)
  {
    hide Xorshift, Bin, Sum, AllGiven;
    assert TaskInv(p, seeds[t], n, w, t);
  }

  lemma StepTouches(p: Program, n: nat, w: World, t: nat)
    requires Shaped(w) && t < |w.tasks|
    ensures forall u | 0 <= u < |w.tasks| && u != t :: Step(p, n, w, t).tasks[u] == w.tasks[u]
  {
  }

  lemma StepSums(p: Program, seeds: seq<u32>, n: nat, w: World, t: nat, b: nat)
    requires Inv(p, seeds, n, w) && t < |seeds| && b < BINS
    ensures Step(p, n, w, t).bins[b] == Sum(AllGiven(p, seeds, n, Step(p, n, w, t), b))
  {
    hide Given, Sum;
    var w' := Step(p, n, w, t);
    StepGives(p, seeds, n, w, t, b);
    StepTouches(p, n, w, t);
    var g := AllGiven(p, seeds, n, w, b);
    SumUpdate(g, t, Given(p, seeds[t], n, w'.tasks[t].at, b));
    assert AllGiven(p, seeds, n, w', b) == g[t := Given(p, seeds[t], n, w'.tasks[t].at, b)];
  }

  /** The stepping task stays what its program makes it. */
  lemma StepSelf(p: Program, seeds: seq<u32>, n: nat, w: World, t: nat)
    requires Inv(p, seeds, n, w) && t < |seeds|
    ensures TaskInv(p, seeds[t], n, Step(p, n, w, t), t)
  {
    hide Xorshift, Bin, Sum, AllGiven, Given;
    assert TaskInv(p, seeds[t], n, w, t);
  }

  /** Another task is not disturbed: a bin it has read under the lock is not written meanwhile. */
  lemma StepOther(p: Program, seeds: seq<u32>, n: nat, w: World, t: nat, u: nat)
    requires Inv(p, seeds, n, w) && t < |seeds| && u < |seeds| && t != u
    ensures TaskInv(p, seeds[u], n, Step(p, n, w, t), u)
  {
    hide Xorshift, Bin, Sum, AllGiven, Given;
    assert TaskInv(p, seeds[t], n, w, t) && TaskInv(p, seeds[u], n, w, u);
    StepTouches(p, n, w, t);
  }

  lemma StepKeeps(p: Program, seeds: seq<u32>, n: nat, w: World, t: nat)
    requires Inv(p, seeds, n, w) && t < |seeds|
    ensures Inv(p, seeds, n, Step(p, n, w, t))
  {
    hide Sum, AllGiven, TaskInv, Xorshift, Bin;
    var w' := Step(p, n, w, t);
    forall u: nat | u < |seeds| ensures TaskInv(p, seeds[u], n, w', u) {
      if u == t {
        StepSelf(p, seeds, n, w, t);
      } else {
        StepOther(p, seeds, n, w, t, u);
      }
    }
    forall b: nat | b < BINS ensures w'.bins[b] == Sum(AllGiven(p, seeds, n, w', b)) {
      StepSums(p, seeds, n, w, t, b);
    }
  }

  lemma {:induction false} InvHolds(p: Program, seeds: seq<u32>, n: nat, schedule: seq<nat>)
    ensures Inv(p, seeds, n, Run(p, seeds, n, schedule))
  {
    if schedule == [] {
      forall b: nat | b < BINS ensures 0 == Sum(AllGiven(p, seeds, n, Start(seeds), b)) {
        SumZeros(AllGiven(p, seeds, n, Start(seeds), b));
      }
    } else {
      hide Inv;
      InvHolds(p, seeds, n, schedule[..|schedule| - 1]);
      if schedule[|schedule| - 1] < |seeds| {
        StepKeeps(p, seeds, n, Run(p, seeds, n, schedule[..|schedule| - 1]), schedule[|schedule| - 1]);
      }
    }
  }

  // ---- What follows ----

  ghost predicate Joined(w: World) {
    forall t | 0 <= t < |w.tasks| :: w.tasks[t].at.Finished?
  }

  /** Whatever the program and the schedule, once all tasks are joined the bins are the
      single-threaded ones: no increment is lost. */
  lemma AnyScheduleAgrees(p: Program, seeds: seq<u32>, n: nat, schedule: seq<nat>, b: nat)
    requires Joined(Run(p, seeds, n, schedule)) && b < BINS
    ensures Run(p, seeds, n, schedule).bins[b] == Expected(seeds, n, b)
  {
    hide Run, Sum;
    InvHolds(p, seeds, n, schedule);
    assert AllGiven(p, seeds, n, Run(p, seeds, n, schedule), b) == Counts(seeds, n, b);
  }

  lemma {:induction false} SumBound(xs: seq<int>, n: nat)
    requires forall i | 0 <= i < |xs| :: 0 <= xs[i] <= n
    ensures 0 <= Sum(xs) <= |xs| * n
  {
    if xs != [] {
      SumBound(xs[..|xs| - 1], n);
      assert |xs| * n == (|xs| - 1) * n + n;
    }
  }

  lemma GivenBound(p: Program, seed: u32, n: nat, w: World, t: nat, b: nat)
    requires Shaped(w) && t < |w.tasks| && TaskInv(p, seed, n, w, t)
    ensures Given(p, seed, n, w.tasks[t].at, b) <= n
  {
  }

  /** No bin ever exceeds the number of values, so at the program's size no `i32` overflows. */
  lemma NoOverflow(p: Program, seeds: seq<u32>, n: nat, schedule: seq<nat>, b: nat)
    requires b < BINS
    ensures 0 <= Run(p, seeds, n, schedule).bins[b] <= |seeds| * n
    ensures |seeds| == 4 && n == 2000000 ==> IsI32(Run(p, seeds, n, schedule).bins[b])
  {
    hide Run, Sum, Given, Count;
    InvHolds(p, seeds, n, schedule);
    var w := Run(p, seeds, n, schedule);
    forall t: nat | t < |seeds| ensures Given(p, seeds[t], n, w.tasks[t].at, b) <= n {
      GivenBound(p, seeds[t], n, w, t, b);
    }
    SumBound(AllGiven(p, seeds, n, w, b), n);
  }

  /** At most one task is ever inside the lock. */
  lemma MutualExclusion(p: Program, seeds: seq<u32>, n: nat, schedule: seq<nat>, t: nat, u: nat)
    requires t < |seeds| && u < |seeds|
    requires InLock(Run(p, seeds, n, schedule).tasks[t].at) && InLock(Run(p, seeds, n, schedule).tasks[u].at)
    ensures t == u
  {
    InvHolds(p, seeds, n, schedule);
    var w := Run(p, seeds, n, schedule);
    assert TaskInv(p, seeds[t], n, w, t) && TaskInv(p, seeds[u], n, w, u);
  }

  /** Until all are joined some task can move: no schedule gets stuck. */
  lemma NoDeadlock(p: Program, seeds: seq<u32>, n: nat, schedule: seq<nat>)
    requires !Joined(Run(p, seeds, n, schedule))
    ensures exists t: nat :: t < |seeds| && Step(p, n, Run(p, seeds, n, schedule), t) != Run(p, seeds, n, schedule)
  {
    InvHolds(p, seeds, n, schedule);
    var w := Run(p, seeds, n, schedule);
    var u :| 0 <= u < |seeds| && !w.tasks[u].at.Finished?;
    var t := if w.holder.Some? then w.holder.value else u;
    assert TaskInv(p, seeds[t], n, w, t) && TaskInv(p, seeds[u], n, w, u);
    assert Step(p, n, w, t).tasks[t].at != w.tasks[t].at;
  }

  /** What a task still has to do, counted in steps or more. */
  function Work(n: nat, at: At): int {
    match at
    case Binning(i, _) => 4 * (n - i) + BINS + 3
    case Entered(i, _) => 4 * (n - i) + BINS + 2
    case Loaded(i, _, _) => 4 * (n - i) + BINS + 1
    case Stored(i, _) => 4 * (n - i) + BINS
    case Publishing(k) => BINS - k + 1
    case Finished => 0
  }

  /** Every step that changes anything brings its task nearer to the end: with no deadlock, every
      schedule that goes on picking tasks that can move joins them all. */
  lemma StepProgress(p: Program, seeds: seq<u32>, n: nat, schedule: seq<nat>, t: nat)
    requires t < |seeds|
    ensures var w := Run(p, seeds, n, schedule); var w' := Step(p, n, w, t);
      w' != w ==> 0 <= Work(n, w'.tasks[t].at) < Work(n, w.tasks[t].at)
  {
    hide Run, Xorshift, Bin;
    InvHolds(p, seeds, n, schedule);
    assert TaskInv(p, seeds[t], n, Run(p, seeds, n, schedule), t);
    StepSelf(p, seeds, n, Run(p, seeds, n, schedule), t);
  }

  // ---- The bins add up ----

  /** The bins below `k` of one task. */
  function Below(seed: u32, n: nat, k: nat): nat {
    if k == 0 then 0 else Below(seed, n, k - 1) + Count(seed, n, k - 1)
  }

  lemma {:induction false} BelowStep(seed: u32, n: nat, k: nat)
    requires n > 0
    ensures Below(seed, n, k) == Below(seed, n - 1, k) + if Bin(State(seed, n)) < k then 1 else 0
  {
    if k > 0 {
      BelowStep(seed, n, k - 1);
    }
  }

  lemma {:induction false} BelowNone(seed: u32, k: nat)
    ensures Below(seed, 0, k) == 0
  {
    if k > 0 {
      BelowNone(seed, k - 1);
    }
  }

  /** Every value lands in exactly one bin. */
  lemma {:induction false} BinsTotal(seed: u32, n: nat)
    ensures Below(seed, n, BINS) == n
  {
    hide Below, Count, State;
    if n > 0 {
      BinsTotal(seed, n - 1);
      BelowStep(seed, n, BINS);
    } else {
      BelowNone(seed, BINS);
    }
  }

  /** The sum of the expected bins below `k`. */
  function ExpectedBelow(seeds: seq<u32>, n: nat, k: nat): int {
    if k == 0 then 0 else ExpectedBelow(seeds, n, k - 1) + Expected(seeds, n, k - 1)
  }

  lemma {:induction false} ExpectedSplit(seeds: seq<u32>, n: nat, k: nat)
    requires seeds != []
    ensures ExpectedBelow(seeds, n, k) ==
            ExpectedBelow(seeds[..|seeds| - 1], n, k) + Below(seeds[|seeds| - 1], n, k)
  {
    if k > 0 {
      ExpectedSplit(seeds, n, k - 1);
      var m := |seeds| - 1;
      assert Counts(seeds, n, k - 1)[..m] == Counts(seeds[..m], n, k - 1);
    }
  }

  lemma {:induction false} ExpectedNone(n: nat, k: nat)
    ensures ExpectedBelow([], n, k) == 0
  {
    if k > 0 {
      ExpectedNone(n, k - 1);
    }
  }

  lemma {:induction false} ExpectedTotal(seeds: seq<u32>, n: nat)
    ensures ExpectedBelow(seeds, n, BINS) == |seeds| * n
  {
    hide ExpectedBelow, Below;
    if seeds == [] {
      ExpectedNone(n, BINS);
    } else {
      ExpectedTotal(seeds[..|seeds| - 1], n);
      ExpectedSplit(seeds, n, BINS);
      BinsTotal(seeds[|seeds| - 1], n);
      assert |seeds| * n == (|seeds| - 1) * n + n;
    }
  }

  lemma {:induction false} SumBelow(bins: seq<int>, seeds: seq<u32>, n: nat, k: nat)
    requires k <= |bins| && forall b | 0 <= b < k :: bins[b] == Expected(seeds, n, b)
    ensures Sum(bins[..k]) == ExpectedBelow(seeds, n, k)
  {
    if k > 0 {
      hide Expected;
      SumBelow(bins, seeds, n, k - 1);
      assert bins[..k][..k - 1] == bins[..k - 1];
    }
  }

  /** Whatever the program and the schedule, the joined bins total the number of values generated. */
  lemma RoundTotal(p: Program, seeds: seq<u32>, n: nat, schedule: seq<nat>)
    requires Joined(Run(p, seeds, n, schedule))
    ensures Sum(Run(p, seeds, n, schedule).bins) == |seeds| * n
  {
    hide Run, Joined, Expected, Sum;
    var bins := Run(p, seeds, n, schedule).bins;
    forall b | 0 <= b < BINS ensures bins[b] == Expected(seeds, n, b) {
      AnyScheduleAgrees(p, seeds, n, schedule, b);
    }
    SumBelow(bins, seeds, n, BINS);
    ExpectedTotal(seeds, n);
    assert bins[..BINS] == bins;
  }
}
