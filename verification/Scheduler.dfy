/** A simulated batch clock: requests arrive, batches of them start on free connections, and
    the waits are counted in buckets. Arrival gaps, service times, deadlines and the clock's
    answers are arbitrary. */
module Scheduler {
  import opened Sums

  const CONNECTIONS: nat := 4
  const MAX_COUNT: nat := 128
  const QUEUE: nat := 1048576
  const BUCKET_US: nat := 10
  const BUCKETS: nat := 100000
  /** The arrivals end here, and the loop's last resort event is as long again after it. */
  const END: nat := 20_000_000
  const HORIZON: nat := 2 * END

  /** What one turn of the loop draws: the clock's answers for the batches it may start, how long a
      batch of a given size takes, the clock's deadline and the gap to the arrival after next. */
  datatype Draws = Draws(due: seq<bool>, service: nat -> nat, deadline: int, gap: nat)

  predicate Fine(d: Draws) {
    |d.due| == CONNECTIONS
  }

  // ---- Waits in buckets ----

  /** Buckets are ten microseconds wide; the last one takes all waits from 999990 on. */
  function Bucket(wait: nat): (b: nat)
    ensures b < BUCKETS
    ensures wait < 999_990 ==> 10 * b <= wait < 10 * b + 10
    ensures wait >= 999_990 ==> b == 99_999
  {
    if wait / BUCKET_US < BUCKETS then wait / BUCKET_US else BUCKETS - 1
  }

  function Tallied(waits: seq<nat>): (hist: seq<int>)
    ensures |hist| == BUCKETS
  {
    if waits == [] then seq(BUCKETS, _ => 0)
    else
      var hist := Tallied(waits[..|waits| - 1]);
      var at := Bucket(waits[|waits| - 1]);
      hist[at := hist[at] + 1]
  }

  /** How many waits fall into a bucket below `i`. */
  function Below(waits: seq<nat>, i: nat): (n: nat)
    ensures n <= |waits|
  {
    if waits == [] then 0
    else Below(waits[..|waits| - 1], i) + if Bucket(waits[|waits| - 1]) < i then 1 else 0
  }

  /** The buckets below `i` together hold exactly the waits that fall below it. */
  lemma {:induction false} TalliedBelow(waits: seq<nat>, i: nat)
    requires i <= BUCKETS
    ensures Sum(Tallied(waits)[..i]) == Below(waits, i)
  {
    if waits == [] {
      SumZeros(Tallied(waits)[..i]);
    } else {
      var init, at := waits[..|waits| - 1], Bucket(waits[|waits| - 1]);
      var hist := Tallied(init);
      TalliedBelow(init, i);
      if at < i {
        assert Tallied(waits)[..i] == hist[..i][at := hist[at] + 1];
        SumUpdate(hist[..i], at, hist[at] + 1);
      } else {
        assert Tallied(waits)[..i] == hist[..i];
      }
    }
  }

  lemma {:induction false} AllBelow(waits: seq<nat>)
    ensures Below(waits, BUCKETS) == |waits|
  {
    if waits != [] {
      AllBelow(waits[..|waits| - 1]);
    }
  }

  /** The buckets hold every wait once. */
  lemma TalliedTotal(waits: seq<nat>)
    ensures Sum(Tallied(waits)) == |waits|
  {
    TalliedBelow(waits, BUCKETS);
    AllBelow(waits);
    assert Tallied(waits)[..BUCKETS] == Tallied(waits);
  }

  // ---- Percentiles ----

  /** Bucket `us / BUCKET_US` is the first with at least `want` waits up to it; past all of
      them when there are fewer. */
  ghost predicate IsRank(hist: seq<int>, want: int, us: int) {
    && us % BUCKET_US == 0 && 0 <= us / BUCKET_US <= |hist|
    && (forall j | 1 <= j <= us / BUCKET_US :: Sum(hist[..j]) < want)
    && (us / BUCKET_US < |hist| ==> Sum(hist[..us / BUCKET_US + 1]) >= want)
  }

  /** The smallest rank that is at least `p` percent of the count. */
  function Want(count: nat, p: nat): (r: nat)
    ensures 100 * (r - 1) < count * p <= 100 * r
  {
    (count * p + 99) / 100
  }

  method Percentile(hist: array<int>, count: nat, p: nat) returns (us: int)
    requires hist.Length == BUCKETS
    ensures IsRank(hist[..], Want(count, p), us)
  {
    var want := (count * p + 99) / 100;
    var seen := 0;
    for i := 0 to hist.Length
      invariant seen == Sum(hist[..i])
      invariant forall j | 1 <= j <= i :: Sum(hist[..][..j]) < want
    {
      assert hist[..i + 1][..i] == hist[..i] && hist[..][..i + 1] == hist[..i + 1];
      seen := seen + hist[i];
      if seen >= want {
        return i * BUCKET_US;
      }
    }
    us := BUCKETS * BUCKET_US;
  }

  lemma WantInside(count: nat, p: nat)
    requires count >= 1 && 1 <= p <= 100
    ensures 1 <= Want(count, p) <= count
  {
    assert count * p <= count * 100;
    assert count * p >= 1;
  }

  lemma {:induction false} BelowConcat(u: seq<nat>, v: seq<nat>, i: nat)
    ensures Below(u + v, i) == Below(u, i) + Below(v, i)
  {
    if v == [] {
      assert u + v == u;
    } else {
      BelowConcat(u, v[..|v| - 1], i);
      assert (u + v)[..|u + v| - 1] == u + v[..|v| - 1];
    }
  }

  /** The sequence without its `k`-th wait. */
  function Without(v: seq<nat>, k: nat): seq<nat>
    requires k < |v|
  {
    v[..k] + v[k + 1..]
  }

  lemma WithoutMeans(v: seq<nat>, k: nat, i: nat)
    requires k < |v|
    ensures multiset(Without(v, k)) == multiset(v) - multiset{v[k]}
    ensures Below(v, i) == Below(Without(v, k), i) + if Bucket(v[k]) < i then 1 else 0
  {
    hide Bucket;
    var front, back := v[..k], v[k + 1..];
    assert v == front + [v[k]] + back;
    BelowConcat(front, back, i);
    BelowConcat(front + [v[k]], back, i);
    BelowConcat(front, [v[k]], i);
    assert [v[k]][..0] == [];
  }

  lemma {:induction false} BelowPermuted(u: seq<nat>, v: seq<nat>, i: nat)
    requires multiset(u) == multiset(v)
    ensures Below(u, i) == Below(v, i)
    decreases |u|
  {
    hide Below, Bucket, Without;
    if u == [] {
      assert |v| == |multiset(v)| == 0;
    } else {
      var last := |u| - 1;
      assert u[last] in multiset(v);
      var k :| 0 <= k < |v| && v[k] == u[last];
      WithoutMeans(u, last, i);
      WithoutMeans(v, k, i);
      assert |Without(u, last)| == |multiset(Without(u, last))| == |multiset(u)| - 1 == last;
      BelowPermuted(Without(u, last), Without(v, k), i);
    }
  }

  lemma BucketMonotone(a: nat, b: nat)
    requires a <= b
    ensures Bucket(a) <= Bucket(b)
  {
  }

  predicate Ascending(w: seq<nat>) {
    forall a, b | 0 <= a <= b < |w| :: w[a] <= w[b]
  }

  /** When the first `r` of ascending waits fall below `i`, so do at least `r`. */
  lemma {:induction false} BelowAtLeast(w: seq<nat>, r: nat, i: nat)
    requires r <= |w| && forall k | 0 <= k < r :: Bucket(w[k]) < i
    ensures Below(w, i) >= r
    decreases |w|
  {
    if w != [] {
      var init := w[..|w| - 1];
      BelowAtLeast(init, if r == |w| then r - 1 else r, i);
    }
  }

  lemma {:induction false} BelowAtMost(w: seq<nat>, r: nat, i: nat)
    requires r <= |w| && forall k | r <= k < |w| :: Bucket(w[k]) >= i
    ensures Below(w, i) <= r
    decreases |w|
  {
    if w != [] {
      var init := w[..|w| - 1];
      if r < |w| {
        BelowAtMost(init, r, i);
      }
    }
  }

  /** The percentile is the bucket of the nearest rank: of the `Want`-th of the waits in order. */
  lemma NearestRank(waits: seq<nat>, ordered: seq<nat>, p: nat, us: int)
    requires waits != [] && 1 <= p <= 100
    requires multiset(ordered) == multiset(waits) && Ascending(ordered)
    requires IsRank(Tallied(waits), Want(|waits|, p), us)
    ensures |ordered| == |waits| && 1 <= Want(|waits|, p) <= |waits|
    ensures us == Bucket(ordered[Want(|waits|, p) - 1]) * 10
  {
    hide Below, Tallied, Want, Bucket;
    assert |ordered| == |multiset(ordered)| == |waits|;
    var want := Want(|waits|, p);
    WantInside(|waits|, p);
    var i, hit := us / BUCKET_US, Bucket(ordered[want - 1]);
    if i == BUCKETS || hit < i {
      forall k | 0 <= k < want ensures Bucket(ordered[k]) < hit + 1 {
        BucketMonotone(ordered[k], ordered[want - 1]);
      }
      BelowAtLeast(ordered, want, hit + 1);
      BelowPermuted(ordered, waits, hit + 1);
      TalliedBelow(waits, hit + 1);
      assert false;
    }
    if hit > i {
      forall k | want - 1 <= k < |ordered| ensures Bucket(ordered[k]) >= i + 1 {
        BucketMonotone(ordered[want - 1], ordered[k]);
      }
      BelowAtMost(ordered, want - 1, i + 1);
      BelowPermuted(ordered, waits, i + 1);
      TalliedBelow(waits, i + 1);
      assert false;
    }
  }

  // ---- The ring of waiting requests ----

  /** Of `count` waiting requests, the last one that was written where the `k`-th is read. */
  function Newest(k: nat, count: nat): (m: nat)
    requires k < count
    ensures k <= m < count
    ensures m == k <==> count <= k + QUEUE
  {
    k + (count - 1 - k) / QUEUE * QUEUE
  }

  function Slot(head: nat, k: nat): (at: nat)
    ensures at < QUEUE
  {
    (head + k) % QUEUE
  }

  ghost predicate RingShows(ring: seq<int>, head: nat, waiting: seq<int>) {
    && |ring| == QUEUE && head < QUEUE
    && forall k | 0 <= k < |waiting| :: ring[Slot(head, k)] == waiting[Newest(k, |waiting|)]
  }

  lemma SlotMeets(head: nat, k: nat, count: nat)
    requires k < count
    ensures Slot(head, k) == Slot(head, count) ==> Newest(k, count + 1) == count
    ensures Slot(head, k) != Slot(head, count) ==> Newest(k, count + 1) == Newest(k, count)
  {
    var q := (count - k) / QUEUE;
    if (count - k) % QUEUE == 0 {
      assert head + count == head + k + q * QUEUE;
    } else {
      assert (count - 1 - k) / QUEUE == q;
    }
  }

  lemma RingSize(ring: seq<int>, head: nat, waiting: seq<int>)
    requires RingShows(ring, head, waiting)
    ensures |ring| == QUEUE && head < QUEUE
  {
  }

  lemma RingPush(ring: seq<int>, head: nat, waiting: seq<int>, x: int)
    requires RingShows(ring, head, waiting)
    ensures RingShows(ring[Slot(head, |waiting|) := x], head, waiting + [x])
  {
    hide Slot, Newest;
    var count := |waiting|;
    forall k | 0 <= k < count + 1
      ensures ring[Slot(head, count) := x][Slot(head, k)] == (waiting + [x])[Newest(k, count + 1)]
    {
      if k < count {
        SlotMeets(head, k, count);
      }
    }
  }

  lemma SlotShift(head: nat, n: nat, k: nat, count: nat)
    requires n + k < count
    ensures Slot(Slot(head, n), k) == Slot(head, n + k)
    ensures Newest(n + k, count) == n + Newest(k, count - n)
  {
  }

  lemma RingPop(ring: seq<int>, head: nat, waiting: seq<int>, n: nat)
    requires RingShows(ring, head, waiting) && n <= |waiting|
    ensures RingShows(ring, Slot(head, n), waiting[n..])
  {
    hide Slot, Newest;
    var rest := waiting[n..];
    forall k | 0 <= k < |rest|
      ensures ring[Slot(Slot(head, n), k)] == rest[Newest(k, |rest|)]
    {
      SlotShift(head, n, k, |waiting|);
    }
  }

  // ---- What a run has done so far ----

  /** The gaps drawn, the arrivals accepted, the sizes of the batches started, and for each
      request started, in the order of arrival, when it started and the wait counted for it. */
  datatype Log = Log(drawn: seq<nat>, arrived: seq<nat>, sizes: seq<int>, starts: seq<nat>, waits: seq<nat>)

  /** Arrivals whose gaps are `gaps`, no two at once. */
  function Times(gaps: seq<nat>): (t: seq<nat>)
    ensures |t| == |gaps|
  {
    if gaps == [] then []
    else
      var before := Times(gaps[..|gaps| - 1]);
      before + [(if before == [] then 0 else before[|before| - 1] + 1) + gaps[|gaps| - 1]]
  }

  predicate Rising(t: seq<nat>) {
    forall a, b | 0 <= a < b < |t| :: t[a] < t[b]
  }

  lemma {:induction false} TimesRise(gaps: seq<nat>)
    ensures Rising(Times(gaps))
  {
    if gaps != [] {
      TimesRise(gaps[..|gaps| - 1]);
    }
  }

  lemma TimesPush(gaps: seq<nat>, before: seq<nat>, last: nat, gap: nat)
    requires Times(gaps) == before + [last]
    ensures Times(gaps + [gap]) == before + [last] + [last + 1 + gap]
  {
    assert (gaps + [gap])[..|gaps|] == gaps;
  }

  /** Rising times below `bound` are at most that many. */
  lemma {:induction false} RisingFew(t: seq<nat>, bound: nat)
    requires Rising(t) && forall i | 0 <= i < |t| :: t[i] < bound
    ensures |t| <= bound
    decreases bound
  {
    if t != [] {
      RisingFew(t[..|t| - 1], t[|t| - 1]);
    }
  }

  ghost predicate Counted(l: Log, items: nat, batches: nat, count: nat) {
    && |l.arrived| == items + count && |l.starts| == |l.waits| == items
    && |l.sizes| == batches && Sum(l.sizes) == items
    && forall b | 0 <= b < batches :: 1 <= l.sizes[b] <= MAX_COUNT
  }

  ghost predicate Timed(l: Log, now: nat, nextArrival: nat) {
    && Times(l.drawn) == l.arrived + [nextArrival]
    && (forall i | 0 <= i < |l.arrived| :: l.arrived[i] <= now && l.arrived[i] < END)
    && nextArrival >= if now < END then now else END
  }

  /** The wait counted for request `j` is the time from its own arrival to its batch's start. */
  ghost predicate ExactAt(l: Log, j: nat) {
    j < |l.starts| && j < |l.waits| && j < |l.arrived| && l.arrived[j] + l.waits[j] == l.starts[j]
  }

  ghost predicate Exact(l: Log) {
    forall j | 0 <= j < |l.waits| :: ExactAt(l, j)
  }

  /** The waits counted for the next `n` of the waiting requests. */
  function Recorded(waiting: seq<nat>, n: nat, now: nat): (waits: seq<nat>)
    requires n <= |waiting| && forall i | 0 <= i < |waiting| :: waiting[i] <= now
    ensures |waits| == n
  {
    seq(n, k requires 0 <= k < n => now - waiting[Newest(k, |waiting|)])
  }

  function Launched(l: Log, items: nat, n: nat, now: nat): Log
    requires items + n <= |l.arrived| && forall i | 0 <= i < |l.arrived| :: l.arrived[i] <= now
  {
    Log(l.drawn, l.arrived, l.sizes + [n], l.starts + seq(n, _ => now), l.waits + Recorded(l.arrived[items..], n, now))
  }

  lemma LaunchedCounts(l: Log, items: nat, batches: nat, count: nat, n: nat, now: nat)
    requires Counted(l, items, batches, count) && 1 <= n <= count && n <= MAX_COUNT
    requires forall i | 0 <= i < |l.arrived| :: l.arrived[i] <= now
    ensures Counted(Launched(l, items, n, now), items + n, batches + 1, count - n)
  {
    assert (l.sizes + [n])[..|l.sizes|] == l.sizes;
  }

  lemma LaunchedAt(l: Log, items: nat, count: nat, n: nat, now: nat, j: nat)
    requires |l.arrived| == items + count && |l.starts| == |l.waits| == items && n <= count && j < items + n
    requires Rising(l.arrived) && forall i | 0 <= i < |l.arrived| :: l.arrived[i] <= now
    ensures |Launched(l, items, n, now).waits| == items + n
    ensures ExactAt(Launched(l, items, n, now), j) <==>
            if j < items then ExactAt(l, j) else count <= j - items + QUEUE
  {
    if j >= items {
      var m := Newest(j - items, count);
      hide Newest;
      assert l.arrived[items..][m] == l.arrived[items + m];
      assert Launched(l, items, n, now).waits[j] == now - l.arrived[items + m];
    }
  }

  /** A batch keeps the waits exact precisely when no more than `QUEUE` requests are waiting. */
  lemma LaunchedExact(l: Log, items: nat, count: nat, n: nat, now: nat)
    requires |l.arrived| == items + count && |l.starts| == |l.waits| == items && 1 <= n <= count
    requires Rising(l.arrived) && forall i | 0 <= i < |l.arrived| :: l.arrived[i] <= now
    ensures Exact(Launched(l, items, n, now)) <==> Exact(l) && count <= QUEUE
  {
    hide Launched, ExactAt;
    var m := Launched(l, items, n, now);
    LaunchedAt(l, items, count, n, now, items);
    forall j | 0 <= j < items + n
      ensures ExactAt(m, j) <==> if j < items then ExactAt(l, j) else count <= j - items + QUEUE
    {
      LaunchedAt(l, items, count, n, now, j);
    }
    if Exact(m) {
      assert ExactAt(m, items);
      forall j | 0 <= j < items ensures ExactAt(l, j) {
        assert ExactAt(m, j);
      }
    }
  }

  // ---- Connections ----

  function Busy(busy: seq<nat>): (n: nat)
    ensures n <= |busy|
  {
    if busy == [] then 0
    else Busy(busy[..|busy| - 1]) + if busy[|busy| - 1] > 0 then 1 else 0
  }

  lemma {:induction false} BusyUpdate(busy: seq<nat>, i: nat, x: nat)
    requires i < |busy|
    ensures Busy(busy[i := x]) == Busy(busy) - (if busy[i] > 0 then 1 else 0) + if x > 0 then 1 else 0
  {
    var n := |busy| - 1;
    if i == n {
      assert busy[i := x][..n] == busy[..n];
    } else {
      BusyUpdate(busy[..n], i, x);
      assert busy[i := x][..n] == busy[..n][i := x];
    }
  }

  lemma {:induction false} BusyNone(busy: seq<nat>)
    ensures Busy(busy) == 0 <==> forall i | 0 <= i < |busy| :: busy[i] == 0
    ensures Busy(busy) == |busy| <==> forall i | 0 <= i < |busy| :: busy[i] > 0
  {
    if busy != [] {
      BusyNone(busy[..|busy| - 1]);
    }
  }

  /** The connections after those whose batch is done at `now` are freed. */
  function Freed(busy: seq<nat>, now: nat): (after: seq<nat>)
    ensures |after| == |busy|
  {
    seq(|busy|, i requires 0 <= i < |busy| => if busy[i] <= now then 0 else busy[i])
  }

  /** The first free connection, or the number of connections. */
  function FirstFree(busy: seq<nat>): (free: nat)
    ensures free <= |busy|
    ensures forall i | 0 <= i < free :: busy[i] > 0
    ensures free < |busy| ==> busy[free] == 0
  {
    if busy == [] then 0
    else
      var free := FirstFree(busy[..|busy| - 1]);
      if free < |busy| - 1 || busy[free] == 0 then free else |busy|
  }

  /** The earliest of `base` and the ends of the batches in flight. */
  function Earliest(busy: seq<nat>, base: nat): (e: nat)
    ensures e <= base && forall i | 0 <= i < |busy| && busy[i] > 0 :: e <= busy[i]
    ensures e == base || exists i | 0 <= i < |busy| :: busy[i] > 0 && busy[i] == e
  {
    if busy == [] then base
    else
      var e, last := Earliest(busy[..|busy| - 1], base), busy[|busy| - 1];
      if 0 < last < e then last else e
  }

  /** Some batch ends after the loop's last resort event. */
  ghost predicate Overruns(busy: seq<nat>) {
    exists i | 0 <= i < |busy| :: busy[i] > HORIZON
  }

  // ---- The loop on values ----

  /** The variables of the loop. `crowded`: a batch has started while more requests waited than
      the ring holds. `late`: after the arrivals ended a batch was in flight that ends past the
      last resort event. */
  datatype State = State(ring: seq<nat>, hist: seq<int>, busy: seq<nat>, head: nat, count: nat, inFlight: int,
                         now: nat, nextArrival: nat, items: nat, batches: nat, log: Log, crowded: bool, late: bool)

  ghost predicate Sound(s: State) {
    && |s.busy| == CONNECTIONS && s.inFlight == Busy(s.busy)
    && Counted(s.log, s.items, s.batches, s.count) && Timed(s.log, s.now, s.nextArrival)
    && RingShows(s.ring, s.head, s.log.arrived[s.items..])
    && s.hist == Tallied(s.log.waits)
    && (s.crowded <==> !Exact(s.log))
    && (s.late ==> END <= s.now <= HORIZON && Overruns(s.busy))
  }

  predicate Working(s: State) {
    s.now < END || s.count > 0 || s.inFlight > 0
  }

  /** The size of the next batch. */
  function Size(count: nat): nat {
    if count < MAX_COUNT then count else MAX_COUNT
  }

  function Launch(s: State, free: nat, service: nat): State
    requires Sound(s) && free < |s.busy|
  {
    var n := Size(s.count);
    var log := Launched(s.log, s.items, n, s.now);
    s.(hist := Tallied(log.waits), head := Slot(s.head, n), count := s.count - n, items := s.items + n,
       batches := s.batches + 1, busy := s.busy[free := s.now + 1 + service], inFlight := s.inFlight + 1,
       log := log, crowded := s.crowded || s.count > QUEUE)
  }

  lemma CountedSizes(l: Log, items: nat, batches: nat, count: nat)
    requires Counted(l, items, batches, count)
    ensures |l.arrived| == items + count && |l.starts| == |l.waits| == items
  {
  }

  lemma OverrunsKept(busy: seq<nat>, free: nat, x: nat)
    requires free < |busy| && busy[free] == 0
    ensures Overruns(busy) ==> Overruns(busy[free := x])
  {
    if i :| 0 <= i < |busy| && busy[i] > HORIZON {
      assert busy[free := x][i] > HORIZON;
    }
  }

  lemma RisingTake(arrived: seq<nat>, next: nat)
    requires Rising(arrived + [next])
    ensures Rising(arrived)
  {
    assert forall a | 0 <= a < |arrived| :: (arrived + [next])[a] == arrived[a];
  }

  lemma LaunchedRest(l: Log, items: nat, n: nat, now: nat)
    requires items + n <= |l.arrived| && forall i | 0 <= i < |l.arrived| :: l.arrived[i] <= now
    ensures var m := Launched(l, items, n, now);
      && m.drawn == l.drawn && m.arrived == l.arrived && m.arrived[items + n..] == l.arrived[items..][n..]
      && m.waits == l.waits + Recorded(l.arrived[items..], n, now)
  {
  }

  lemma LaunchSound(s: State, free: nat, service: nat)
    requires Sound(s) && free < CONNECTIONS && s.busy[free] == 0 && s.count > 0
    ensures Sound(Launch(s, free, service))
    ensures Busy(Launch(s, free, service).busy) == Busy(s.busy) + 1
  {
    hide Tallied, Newest, Slot, Exact, ExactAt, RingShows, Launched, Recorded, Busy, Times, Rising, Overruns,
         Counted, Bucket;
    var n := Size(s.count);
    CountedSizes(s.log, s.items, s.batches, s.count);
    TimesRise(s.log.drawn);
    RisingTake(s.log.arrived, s.nextArrival);
    LaunchedCounts(s.log, s.items, s.batches, s.count, n, s.now);
    LaunchedExact(s.log, s.items, s.count, n, s.now);
    LaunchedRest(s.log, s.items, n, s.now);
    RingPop(s.ring, s.head, s.log.arrived[s.items..], n);
    BusyUpdate(s.busy, free, s.now + 1 + service);
    OverrunsKept(s.busy, free, s.now + 1 + service);
  }

  /** The accepted arrival. */
  function Accept(s: State, gap: nat): State
    requires |s.ring| == QUEUE
  {
    s.(ring := s.ring[Slot(s.head, s.count) := s.now], count := s.count + 1, nextArrival := s.now + 1 + gap,
       log := s.log.(drawn := s.log.drawn + [gap], arrived := s.log.arrived + [s.now]))
  }

  lemma CountedPush(l: Log, m: Log, items: nat, batches: nat, count: nat)
    requires Counted(l, items, batches, count) && |m.arrived| == |l.arrived| + 1
    requires m.sizes == l.sizes && m.starts == l.starts && m.waits == l.waits
    ensures Counted(m, items, batches, count + 1)
  {
  }

  lemma ExactKept(l: Log, m: Log)
    requires l.starts == m.starts && l.waits == m.waits && |l.waits| <= |l.arrived| && l.arrived <= m.arrived
    ensures Exact(m) <==> Exact(l)
  {
    assert forall j | 0 <= j < |l.waits| :: ExactAt(m, j) <==> ExactAt(l, j);
  }

  lemma AcceptSound(s: State, gap: nat)
    requires Sound(s) && s.now == s.nextArrival < END
    ensures Sound(Accept(s, gap))
  {
    hide Tallied, Newest, Slot, RingShows, Busy, Times, Rising, Overruns, Bucket, Exact, Counted;
    CountedSizes(s.log, s.items, s.batches, s.count);
    RingSize(s.ring, s.head, s.log.arrived[s.items..]);
    RingPush(s.ring, s.head, s.log.arrived[s.items..], s.now);
    assert s.log.arrived[s.items..] + [s.now] == (s.log.arrived + [s.now])[s.items..];
    TimesPush(s.log.drawn, s.log.arrived, s.now, gap);
    ExactKept(s.log, Accept(s, gap).log);
    CountedPush(s.log, Accept(s, gap).log, s.items, s.batches, s.count);
  }

  /** The state once the finished batches are freed. */
  function Settled(s: State): State {
    var busy := Freed(s.busy, s.now);
    s.(busy := busy, inFlight := Busy(busy))
  }

  /** The state once every batch that is due has started, `j` of them before. */
  ghost function Due(s: State, d: Draws, j: nat): State
    requires Sound(s) && Fine(d)
    decreases CONNECTIONS - j
  {
    var free := FirstFree(s.busy);
    if j < CONNECTIONS && free < CONNECTIONS && s.count > 0 && (d.due[j] || s.now >= END) then
      var service := d.service(Size(s.count));
      LaunchSound(s, free, service);
      Due(Launch(s, free, service), d, j + 1)
    else s
  }

  /** The time of the next event. */
  function NextTime(s: State, deadline: int): nat {
    var base := if s.now < END then s.nextArrival else HORIZON;
    var e := Earliest(s.busy, base);
    var free := FirstFree(s.busy) < |s.busy|;
    if s.now >= END && s.count > 0 && free then s.now
    else if free && deadline > s.now && deadline < e then deadline
    else e
  }

  ghost function Marked(s: State): State {
    s.(late := s.late || (s.now >= END && Overruns(s.busy)))
  }

  /** Time moves to the next event; an arrival is accepted. */
  function Moved(s: State, d: Draws): State
    requires |s.ring| == QUEUE
  {
    var t := s.(now := NextTime(s, d.deadline));
    if t.now == t.nextArrival && t.now < END then Accept(t, d.gap) else t
  }

  // ---- What one turn keeps ----

  /** Every batch in flight ends later than now. */
  ghost predicate Ahead(s: State) {
    forall i | 0 <= i < |s.busy| && s.busy[i] > 0 :: s.busy[i] > s.now
  }

  lemma SettledSound(s: State)
    requires Sound(s)
    ensures Sound(Settled(s)) && Ahead(Settled(s))
  {
    hide Counted, Timed, RingShows, Tallied, Exact, Busy;
    if s.late {
      var i :| 0 <= i < |s.busy| && s.busy[i] > HORIZON;
      assert Freed(s.busy, s.now)[i] > HORIZON;
    }
  }

  /** What the starts of a turn do not change, and that they only add to the log. */
  ghost predicate Follows(s: State, t: State) {
    && s.now == t.now && s.nextArrival == t.nextArrival && s.late == t.late && s.ring == t.ring
    && s.log.drawn == t.log.drawn && s.log.arrived == t.log.arrived
    && s.log.sizes <= t.log.sizes && s.log.starts <= t.log.starts && s.log.waits <= t.log.waits
  }

  lemma LaunchFollows(s: State, free: nat, service: nat)
    requires Sound(s) && free < CONNECTIONS && Ahead(s)
    ensures Ahead(Launch(s, free, service)) && Follows(s, Launch(s, free, service))
  {
    hide Counted, RingShows, Tallied, Exact, Busy, Overruns, Recorded, Newest, Slot;
  }

  /** After the starts of a turn that is past the arrivals, nothing waits while a connection is free. */
  lemma {:induction false} DueSound(s: State, d: Draws, j: nat)
    requires Sound(s) && Fine(d) && Ahead(s) && j <= Busy(s.busy)
    ensures var t := Due(s, d, j);
      && Sound(t) && Ahead(t) && Follows(s, t)
      && (t.now >= END && t.count > 0 ==> FirstFree(t.busy) == CONNECTIONS)
    decreases CONNECTIONS - j
  {
    hide Counted, Timed, RingShows, Tallied, Exact, Busy, Overruns, Launch, FirstFree, Ahead;
    BusyNone(s.busy);
    var free := FirstFree(s.busy);
    if j < CONNECTIONS && free < CONNECTIONS && s.count > 0 && (d.due[j] || s.now >= END) {
      LaunchSound(s, free, d.service(Size(s.count)));
      LaunchFollows(s, free, d.service(Size(s.count)));
      DueSound(Launch(s, free, d.service(Size(s.count))), d, j + 1);
    }
  }

  /** After the starts, nothing waits beside a free connection once the arrivals have ended. */
  ghost predicate Ready(s: State) {
    Sound(s) && Ahead(s) && (s.now >= END && s.count > 0 ==> FirstFree(s.busy) == CONNECTIONS)
  }

  /** Some connection is free. */
  ghost predicate SomeFree(busy: seq<nat>) {
    exists i | 0 <= i < |busy| :: busy[i] == 0
  }

  /** `next` is the earliest of what can happen: the next arrival, or past the arrivals the last
      resort event; the end of a batch in flight; and, while a connection is free, the deadline. */
  ghost predicate IsNextEvent(busy: seq<nat>, now: nat, nextArrival: nat, deadline: int, next: nat) {
    var base := if now < 20_000_000 then nextArrival else 40_000_000;
    var timer := SomeFree(busy) && deadline > now;
    && next <= base && (forall i | 0 <= i < |busy| && busy[i] > 0 :: next <= busy[i]) && (timer ==> next <= deadline)
    && (next == base || (exists i | 0 <= i < |busy| :: busy[i] > 0 && busy[i] == next) || (timer && next == deadline))
  }

  /** Time moves to what happens first: no turn jumps over an arrival, over the end of a batch, or
      over a deadline that is still to come while a connection is free. */
  lemma NextIsEarliest(s: State, deadline: int)
    requires Ready(s)
    ensures IsNextEvent(s.busy, s.now, s.nextArrival, deadline, NextTime(s, deadline))
  {
    hide Counted, RingShows, Tallied, Exact, Busy, Timed, Ahead, Earliest, FirstFree;
    assert SomeFree(s.busy) <==> FirstFree(s.busy) < |s.busy|;
    assert |s.busy| == 4;
  }

  lemma NextTimeMeans(s: State, deadline: int)
    requires Ready(s)
    ensures var next := NextTime(s, deadline);
      && (s.now < END ==> s.now <= next <= s.nextArrival && (s.now < s.nextArrival ==> s.now < next))
      && (s.now >= END ==> END <= next <= HORIZON)
      && (s.now >= END && !Overruns(s.busy) && s.inFlight > 0 ==> s.now < next)
  {
    BusyNone(s.busy);
    hide Counted, RingShows, Tallied, Exact, Busy, Earliest, FirstFree;
    var base := if s.now < END then s.nextArrival else HORIZON;
    assert Earliest(s.busy, base) <= base;
    if s.now >= END && !Overruns(s.busy) && s.inFlight > 0 {
      var i :| 0 <= i < |s.busy| && s.busy[i] > 0;
      assert s.now < s.busy[i] <= HORIZON;
    }
  }

  lemma NextTimeMarked(s: State, deadline: int)
    ensures NextTime(Marked(s), deadline) == NextTime(s, deadline)
  {
  }

  lemma MovedSound(s: State, d: Draws)
    requires Ready(s)
    ensures |s.ring| == QUEUE && Sound(Moved(Marked(s), d))
  {
    RingSize(s.ring, s.head, s.log.arrived[s.items..]);
    NextTimeMeans(s, d.deadline);
    hide Counted, RingShows, Tallied, Exact, Busy, Overruns, NextTime, Accept, Ahead;
    var m := Marked(s);
    NextTimeMarked(s, d.deadline);
    var t := m.(now := NextTime(m, d.deadline));
    assert Sound(t);
    if t.now == t.nextArrival && t.now < END {
      AcceptSound(t, d.gap);
    }
  }

  /** The state in which a turn looks for its next event. */
  ghost function Begun(s: State, d: Draws): (t: State)
    requires Sound(s) && Fine(d)
    ensures Ready(t) && Follows(Settled(s), t)
  {
    SettledSound(s);
    DueSound(Settled(s), d, 0);
    Due(Settled(s), d, 0)
  }

  /** One turn of the loop. */
  ghost function Turn(s: State, d: Draws): (t: State)
    requires Sound(s) && Fine(d)
    ensures Sound(t)
  {
    MovedSound(Begun(s, d), d);
    Moved(Marked(Begun(s, d)), d)
  }

  /** A turn only adds to what has been done. */
  ghost predicate Extends(l: Log, m: Log) {
    && l.drawn <= m.drawn && l.arrived <= m.arrived
    && l.sizes <= m.sizes && l.starts <= m.starts && l.waits <= m.waits
  }

  lemma TurnExtends(s: State, d: Draws)
    requires Sound(s) && Fine(d)
    ensures Extends(s.log, Turn(s, d).log)
  {
    var b := Begun(s, d);
    hide Sound, Ready, Begun, NextTime, Slot, Busy, Freed;
    MovedSound(b, d);
  }

  lemma ReadyIdle(s: State)
    requires Ready(s)
    ensures s.now >= END && s.count > 0 ==> s.inFlight > 0
    ensures s.inFlight > 0 && s.now >= HORIZON ==> Overruns(s.busy)
  {
    BusyNone(s.busy);
    hide Counted, RingShows, Tallied, Exact, Busy;
    if s.inFlight > 0 && s.now >= HORIZON {
      var i :| 0 <= i < |s.busy| && s.busy[i] > 0;
      assert s.busy[i] > HORIZON;
    }
  }

  /** A turn advances the time, or the first arrival; past the arrivals it does so while work is
      left, unless the run is late. */
  lemma TurnAdvances(s: State, d: Draws)
    requires Sound(s) && Fine(d)
    ensures var t := Turn(s, d);
      && (t.now < END ==> t.now < t.nextArrival)
      && (s.late ==> t.late)
      && (t.late <==> s.late || (s.now >= END && Overruns(Begun(s, d).busy)))
      && (!t.late && Working(t) ==> s.now < HORIZON && (s.now < t.now || s.now == s.nextArrival == t.now < END))
  {
    var b := Begun(s, d);
    NextTimeMeans(b, d.deadline);
    MovedSound(b, d);
    NextTimeMarked(b, d.deadline);
    BusyNone(b.busy);
    ReadyIdle(b);
    hide Sound, Ready, Begun, NextTime, Slot, Busy, Freed, Overruns, FirstFree;
  }

  // ---- Whole runs ----

  /** The loop over the draws of its turns; it stops early when no work is left. */
  ghost function Run(s: State, script: seq<Draws>): (r: State)
    requires Sound(s) && forall d | d in script :: Fine(d)
    ensures Sound(r)
    decreases |script|
  {
    if script == [] || !Working(s) then s else Run(Turn(s, script[0]), script[1..])
  }

  /** A late run never ends, however many turns it takes. */
  lemma {:induction false} LateRuns(s: State, script: seq<Draws>)
    requires Sound(s) && s.late && forall d | d in script :: Fine(d)
    ensures Run(s, script).late && Working(Run(s, script))
    decreases |script|
  {
    BusyNone(s.busy);
    assert Working(s);
    if script != [] {
      hide Sound, Turn, Working;
      TurnAdvances(s, script[0]);
      LateRuns(Turn(s, script[0]), script[1..]);
    }
  }

  /** How many turns are left at most, for a run that is not late. */
  function Left(s: State): nat {
    (if s.now < HORIZON then HORIZON - s.now else 0) + if s.now == s.nextArrival < END then 2 else 1
  }

  lemma LeftShrinks(s: State, t: State)
    requires t.now < END ==> t.now < t.nextArrival
    requires s.now < HORIZON && (s.now < t.now || s.now == s.nextArrival == t.now < END)
    ensures Left(t) < Left(s)
  {
  }

  /** The loop ends after boundedly many turns, or is late. */
  lemma {:induction false} OnTimeEnds(s: State, script: seq<Draws>)
    requires Sound(s) && (forall d | d in script :: Fine(d)) && |script| >= Left(s)
    ensures Run(s, script).late || !Working(Run(s, script))
    decreases |script|
  {
    if Working(s) {
      var t := Turn(s, script[0]);
      TurnAdvances(s, script[0]);
      hide Sound, Turn;
      if t.late {
        LateRuns(t, script[1..]);
      } else if Working(t) {
        LeftShrinks(s, t);
        hide Left;
        OnTimeEnds(t, script[1..]);
      }
    }
  }

  /** The state before the first turn. */
  function Initial(ring: seq<nat>, gap: nat): State {
    State(ring, Tallied([]), [0, 0, 0, 0], 0, 0, 0, 0, gap, 0, 0, Log([gap], [], [], [], []), false, false)
  }

  lemma InitialSound(ring: seq<nat>, gap: nat)
    requires |ring| == QUEUE
    ensures Sound(Initial(ring, gap))
  {
    hide Tallied;
    BusyNone([0, 0, 0, 0]);
    assert Times([gap]) == [gap] by {
      assert [gap][..0] == [];
    }
  }

  /** A long enough run ends exactly when it is not late: no batch in flight after the arrivals
      ends past the last resort event. */
  lemma EndsUnlessLate(ring: seq<nat>, gap: nat, script: seq<Draws>)
    requires |ring| == QUEUE && (forall d | d in script :: Fine(d)) && |script| >= HORIZON + 2
    ensures Sound(Initial(ring, gap))
    ensures !Working(Run(Initial(ring, gap), script)) <==> !Run(Initial(ring, gap), script).late
  {
    InitialSound(ring, gap);
    var s := Initial(ring, gap);
    OnTimeEnds(s, script);
    var r := Run(s, script);
    if r.late {
      LateRuns(r, []);
    }
  }

  /** The loop has ended exactly when the time is past the arrivals, every request accepted has
      started and no connection is busy. Then every arrival drawn before the end was accepted and
      started once, in batches of 1 to 128, and the buckets hold every wait. */
  lemma EndedMeans(s: State)
    requires Sound(s)
    ensures !Working(s) <==>
            s.now >= 20_000_000 && |s.log.arrived| == |s.log.starts| && forall i | 0 <= i < |s.busy| :: s.busy[i] == 0
    ensures !Working(s) ==>
            && |s.log.arrived| == |s.log.starts| == Sum(s.log.sizes) == Sum(s.hist) == s.items && |s.busy| == 4
            && Times(s.log.drawn) == s.log.arrived + [s.nextArrival] && s.nextArrival >= 20_000_000
    ensures forall i | 0 <= i < |s.log.arrived| :: s.log.arrived[i] < 20_000_000
    ensures forall b | 0 <= b < |s.log.sizes| :: 1 <= s.log.sizes[b] <= 128
  {
    BusyNone(s.busy);
    hide RingShows, Tallied, Exact, Busy;
    TalliedTotal(s.log.waits);
  }

  /** At any time: started and waiting requests make up the arrivals, at most four connections are
      busy, no arithmetic on `head` and `count` leaves an `i32`, and the buckets hold the waits of
      the requests started. */
  lemma AlwaysMeans(s: State)
    requires Sound(s)
    ensures s.items + s.count == |s.log.arrived| <= 20_000_000 && s.head + s.count < 0x8000_0000
    ensures s.inFlight == Busy(s.busy) <= 4
    ensures Sum(s.hist) == s.items == Sum(s.log.sizes)
    ensures forall b | 0 <= b < |s.log.sizes| :: 1 <= s.log.sizes[b] <= 128
  {
    RingSize(s.ring, s.head, s.log.arrived[s.items..]);
    TimesRise(s.log.drawn);
    hide RingShows, Tallied, Exact, Busy, Times;
    TalliedTotal(s.log.waits);
    RisingTake(s.log.arrived, s.nextArrival);
    RisingFew(s.log.arrived, END);
  }

  /** What has arrived or started stays as it is for the rest of the run. */
  lemma {:induction false} RunExtends(s: State, script: seq<Draws>)
    requires Sound(s) && forall d | d in script :: Fine(d)
    ensures Extends(s.log, Run(s, script).log)
    decreases |script|
  {
    if script != [] && Working(s) {
      hide Sound, Turn;
      TurnExtends(s, script[0]);
      RunExtends(Turn(s, script[0]), script[1..]);
    }
  }

  /** Every request's own wait is counted, in the order of arrival, exactly when no batch has
      started while more requests waited than the ring holds. */
  lemma ExactUnlessCrowded(s: State)
    requires Sound(s)
    ensures !s.crowded <==>
            |s.log.arrived| >= |s.log.starts| == |s.log.waits|
            && forall j | 0 <= j < |s.log.waits| :: s.log.waits[j] == s.log.starts[j] - s.log.arrived[j] as int
  {
    CountedSizes(s.log, s.items, s.batches, s.count);
    hide RingShows, Tallied, Busy;
    var l := s.log;
    if forall j | 0 <= j < |l.waits| :: l.waits[j] == l.starts[j] - l.arrived[j] as int {
      assert forall j | 0 <= j < |l.waits| :: l.arrived[j] + l.waits[j] == l.starts[j];
      assert Exact(l);
    }
    if Exact(l) {
      forall j | 0 <= j < |l.waits| ensures l.arrived[j] + l.waits[j] == l.starts[j] {
        assert ExactAt(l, j);
      }
    }
  }

  // ---- Which batches a turn starts ----

  /** How many of the first `i` connections have no batch left at `now`. */
  function Idle(busy: seq<nat>, now: nat, i: nat): nat
    requires i <= |busy|
  {
    if i == 0 then 0 else Idle(busy, now, i - 1) + if busy[i - 1] <= now then 1 else 0
  }

  /** The size of batch number `r` of a turn that found `count` requests waiting. */
  function BatchSize(count: nat, r: nat): int {
    if count - 128 * r < 128 then count - 128 * r else 128
  }

  function Sizes(count: nat, k: nat): seq<int> {
    seq(k, r requires 0 <= r < k => BatchSize(count, r))
  }

  /** Connection `i` after a turn's starts: a batch still running stays, and of the others the
      first `k` get one batch each. */
  ghost predicate Assigned(s: State, d: Draws, k: nat, after: seq<nat>, i: nat)
    requires i < |s.busy| == |after|
  {
    var r := Idle(s.busy, s.now, i);
    after[i] == if s.busy[i] > s.now then s.busy[i]
                else if r < k && BatchSize(s.count, r) >= 0 then s.now + 1 + d.service(BatchSize(s.count, r))
                else 0
  }

  /** `k` batches start, each for the draw's answer or because the arrivals have ended, and then
      nothing waits, no connection is free, or the answer is no. The turn has started `j` before. */
  ghost predicate StartsWanted(s: State, d: Draws, j: nat, t: State, k: nat)
    requires |d.due| == 4
  {
    && j + k <= 4
    && (forall r | 0 <= r < k :: BatchSize(s.count, r) >= 1 && (d.due[j + r] || s.now >= 20_000_000))
    && (t.count == 0 || !SomeFree(t.busy) || (j + k < 4 && !d.due[j + k] && s.now < 20_000_000))
  }

  /** Batch `r` takes up to 128 of what waits, and every request starts now. The waits are no
      longer all exact once a batch has started while more than 1048576 requests waited. */
  ghost predicate StartsCounted(s: State, t: State, k: nat) {
    && t.log.sizes == s.log.sizes + Sizes(s.count, k)
    && t.count == (if s.count < 128 * k then 0 else s.count - 128 * k)
    && t.items == s.items + s.count - t.count >= s.items
    && t.log.starts == s.log.starts + seq(t.items - s.items, _ => s.now)
    && (t.crowded <==> s.crowded || (k > 0 && s.count > 1048576))
  }

  /** What starting batches does. */
  ghost predicate Started(s: State, d: Draws, j: nat, t: State, k: nat)
    requires |d.due| == 4
  {
    && |t.busy| == |s.busy| == 4
    && StartsWanted(s, d, j, t, k) && StartsCounted(s, t, k)
    && forall i | 0 <= i < 4 :: Assigned(s, d, k, t.busy, i)
  }

  lemma {:induction false} IdleLaunch(busy: seq<nat>, now: nat, free: nat, x: nat, i: nat)
    requires free < |busy| && i <= |busy| && busy[free] <= now < x && forall y | 0 <= y < free :: busy[y] > now
    ensures i <= free ==> Idle(busy, now, i) == 0
    ensures Idle(busy[free := x], now, i) == Idle(busy, now, i) - if i > free then 1 else 0
  {
    if i > 0 {
      IdleLaunch(busy, now, free, x, i - 1);
    }
  }

  lemma InFlightIsBusy(s: State)
    requires Sound(s)
    ensures |s.busy| == CONNECTIONS && s.inFlight == Busy(s.busy)
  {
  }

  lemma LaunchAssigned(s: State, d: Draws, free: nat, t: State, k: nat, i: nat)
    requires Sound(s) && Ahead(s) && free < 4 && s.busy[free] == 0 && s.count > 0 && i < 4 == |t.busy|
    requires forall y | 0 <= y < free :: s.busy[y] > 0
    requires var u := Launch(s, free, d.service(Size(s.count)));
      (k > 0 ==> s.count >= 128) && Assigned(u, d, k, t.busy, i)
    ensures Assigned(s, d, k + 1, t.busy, i)
  {
    hide Sound, Launched;
    assert |s.busy| == 4 by { InFlightIsBusy(s); }
    IdleLaunch(s.busy, s.now, free, s.now + 1 + d.service(Size(s.count)), i);
  }

  lemma SizesStep(count: nat, k: nat)
    requires count > 0 && (k > 0 ==> count > 128)
    ensures Sizes(count, k + 1) == [Size(count)] + Sizes(count - Size(count), k)
  {
  }

  lemma LaunchLog(s: State, free: nat, service: nat)
    requires Sound(s) && free < CONNECTIONS && s.busy[free] == 0 && s.count > 0
    ensures var n, u := Size(s.count), Launch(s, free, service);
      && u.log.sizes == s.log.sizes + [n] && u.log.starts == s.log.starts + seq(n, _ => s.now)
      && (u.crowded <==> s.crowded || s.count > 1048576)
  {
    hide RingShows, Tallied, Exact, Recorded;
  }

  lemma LaunchFields(s: State, free: nat, service: nat)
    requires Sound(s) && free < CONNECTIONS && s.busy[free] == 0 && s.count > 0
    ensures var n, t := Size(s.count), Launch(s, free, service);
      && Sound(t)
      && t == s.(hist := t.hist, head := Slot(s.head, n), count := s.count - n, items := s.items + n,
                 batches := s.batches + 1, busy := s.busy[free := s.now + 1 + service],
                 inFlight := s.inFlight + 1, log := t.log, crowded := t.crowded)
  {
    LaunchSound(s, free, service);
    hide Sound;
  }

  lemma LaunchCounted(s: State, free: nat, service: nat, t: State, k: nat)
    requires Sound(s) && free < 4 && s.busy[free] == 0 && s.count > 0
    requires StartsCounted(Launch(s, free, service), t, k) && (k > 0 ==> s.count > 128)
    ensures StartsCounted(s, t, k + 1)
  {
    hide Sound, Launch, Sizes;
    LaunchFields(s, free, service);
    LaunchLog(s, free, service);
    SizesStep(s.count, k);
  }

  lemma LaunchWanted(s: State, d: Draws, j: nat, free: nat, service: nat, t: State, k: nat)
    requires Sound(s) && Fine(d) && free < 4 && s.busy[free] == 0 && s.count > 0
    requires j < 4 && (d.due[j] || s.now >= END) && StartsWanted(Launch(s, free, service), d, j + 1, t, k)
    ensures StartsWanted(s, d, j, t, k + 1) && (k > 0 ==> s.count > 128)
  {
    hide Sound, Launch;
    InFlightIsBusy(s);
    LaunchFields(s, free, service);
    var u := Launch(s, free, service);
    assert k > 0 ==> BatchSize(u.count, 0) >= 1;
    forall r | 0 <= r < k + 1 ensures BatchSize(s.count, r) >= 1 && (d.due[j + r] || s.now >= 20_000_000) {
      if r > 0 {
        assert BatchSize(u.count, r - 1) >= 1 && (d.due[j + 1 + (r - 1)] || u.now >= 20_000_000);
      }
    }
  }

  lemma LaunchStarted(s: State, d: Draws, j: nat, free: nat, t: State, k: nat)
    requires Sound(s) && Fine(d) && Ahead(s) && free < 4 && s.busy[free] == 0 && s.count > 0
    requires forall y | 0 <= y < free :: s.busy[y] > 0
    requires j < 4 && (d.due[j] || s.now >= END)
    requires Started(Launch(s, free, d.service(Size(s.count))), d, j + 1, t, k)
    ensures Started(s, d, j, t, k + 1)
  {
    var service := d.service(Size(s.count));
    hide Sound, Launch, Ahead, Assigned, StartsWanted, StartsCounted;
    InFlightIsBusy(s);
    LaunchWanted(s, d, j, free, service, t, k);
    LaunchCounted(s, free, service, t, k);
    var more := k + 1;
    forall i | 0 <= i < 4 ensures Assigned(s, d, more, t.busy, i) {
      assert Assigned(Launch(s, free, service), d, k, t.busy, i);
      LaunchAssigned(s, d, free, t, k, i);
    }
  }

  lemma NoneStarted(s: State, d: Draws, j: nat)
    requires Sound(s) && Fine(d) && Ahead(s) && j <= Busy(s.busy)
    requires FirstFree(s.busy) == CONNECTIONS || s.count == 0 || (j < CONNECTIONS && !(d.due[j] || s.now >= END))
    ensures Started(s, d, j, s, 0)
  {
    hide Counted, Timed, RingShows, Tallied, Exact, FirstFree;
    BusyNone(s.busy);
  }

  lemma DueStep(s: State, d: Draws, j: nat)
    requires Sound(s) && Fine(d) && j <= Busy(s.busy) && j <= CONNECTIONS
    ensures var free := FirstFree(s.busy);
      && (free < CONNECTIONS ==> j < CONNECTIONS)
      && if free < CONNECTIONS && s.count > 0 && (d.due[j] || s.now >= END)
         then var t := Launch(s, free, d.service(Size(s.count))); Sound(t) && Due(s, d, j) == Due(t, d, j + 1)
         else Due(s, d, j) == s
  {
    BusyNone(s.busy);
    var free := FirstFree(s.busy);
    if free < CONNECTIONS && s.count > 0 {
      LaunchSound(s, free, d.service(Size(s.count)));
    }
  }

  lemma LaunchKeeps(s: State, free: nat, service: nat)
    requires Sound(s) && free < CONNECTIONS && s.busy[free] == 0 && s.count > 0 && Ahead(s)
    ensures Ahead(Launch(s, free, service)) && Busy(Launch(s, free, service).busy) == Busy(s.busy) + 1
  {
    LaunchSound(s, free, service);
    LaunchFollows(s, free, service);
  }

  /** Which batches a turn starts, and where. */
  lemma {:induction false} DueMeans(s: State, d: Draws, j: nat)
    requires Sound(s) && Fine(d) && Ahead(s) && j <= Busy(s.busy)
    ensures exists k: nat :: Started(s, d, j, Due(s, d, j), k)
    decreases CONNECTIONS - j
  {
    hide Sound, Launch, Ahead, Busy, FirstFree, Started, Due;
    InFlightIsBusy(s);
    DueStep(s, d, j);
    var free := FirstFree(s.busy);
    if free < CONNECTIONS && s.count > 0 && (d.due[j] || s.now >= END) {
      LaunchKeeps(s, free, d.service(Size(s.count)));
      var u := Launch(s, free, d.service(Size(s.count)));
      DueMeans(u, d, j + 1);
      var k: nat :| Started(u, d, j + 1, Due(u, d, j + 1), k);
      LaunchStarted(s, d, j, free, Due(u, d, j + 1), k);
    } else {
      NoneStarted(s, d, j);
    }
  }

  lemma TurnParts(s: State, d: Draws)
    requires Sound(s) && Fine(d)
    ensures Sound(Settled(s)) && Ahead(Settled(s)) && |Begun(s, d).ring| == QUEUE
    ensures Begun(s, d) == Due(Settled(s), d, 0)
    ensures Turn(s, d) == Moved(Marked(Begun(s, d)), d)
  {
    SettledSound(s);
    MovedSound(Begun(s, d), d);
  }

  lemma {:induction false} IdleFreed(busy: seq<nat>, now: nat, i: nat)
    requires i <= |busy|
    ensures Idle(Freed(busy, now), now, i) == Idle(busy, now, i)
  {
    if i > 0 {
      IdleFreed(busy, now, i - 1);
    }
  }

  lemma StartedSettled(s: State, d: Draws, t: State, k: nat)
    requires Fine(d) && |s.busy| == 4 && Started(Settled(s), d, 0, t, k)
    ensures Started(s, d, 0, t, k)
  {
    hide Idle, BatchSize, Sizes, Busy, SomeFree;
    forall i | 0 <= i < 4 ensures Assigned(s, d, k, t.busy, i) {
      assert Assigned(Settled(s), d, k, t.busy, i);
      IdleFreed(s.busy, s.now, i);
    }
  }

  /** The starts of a turn, from the state before it: batches that end by now make their connections free. */
  lemma BegunMeans(s: State, d: Draws)
    requires Sound(s) && Fine(d)
    ensures exists k: nat :: Started(s, d, 0, Begun(s, d), k)
  {
    hide Sound, Due, Begun, Idle, BatchSize, Sizes;
    TurnParts(s, d);
    InFlightIsBusy(s);
    DueMeans(Settled(s), d, 0);
    var k: nat :| Started(Settled(s), d, 0, Begun(s, d), k);
    StartedSettled(s, d, Begun(s, d), k);
  }

  /** The end of a turn: time moves to the next event; if that is an arrival before the end, it is
      accepted and the one after it comes later by a microsecond and its gap. */
  lemma TurnEvent(s: State, d: Draws)
    requires Sound(s) && Fine(d)
    ensures var b, t := Begun(s, d), Turn(s, d); var accepted := t.now == s.nextArrival && t.now < 20_000_000;
      && IsNextEvent(b.busy, s.now, s.nextArrival, d.deadline, t.now) && t.busy == b.busy
      && t.log == b.log.(drawn := t.log.drawn, arrived := t.log.arrived)
      && t.log.arrived == s.log.arrived + (if accepted then [t.now] else [])
      && t.nextArrival == (if accepted then t.now + 1 + d.gap else s.nextArrival)
      && t.count == b.count + (if accepted then 1 else 0)
  {
    var b := Begun(s, d);
    TurnParts(s, d);
    NextIsEarliest(b, d.deadline);
    NextTimeMarked(b, d.deadline);
    hide Sound, Ready, Begun, NextTime, Slot, Busy, Freed, Overruns, IsNextEvent;
  }

  lemma RunStep(s: State, script: seq<Draws>)
    requires Sound(s) && (forall d | d in script :: Fine(d)) && script != [] && Working(s)
    ensures Run(s, script) == Run(Turn(s, script[0]), script[1..])
  {
  }

  lemma RunStops(s: State, script: seq<Draws>)
    requires Sound(s) && (forall d | d in script :: Fine(d)) && (script == [] || !Working(s))
    ensures Run(s, script) == s
  {
  }

  lemma RecordReady(s: State, n: nat)
    requires Sound(s) && n <= s.count
    ensures s.items + n <= |s.log.arrived| && RingShows(s.ring, s.head, s.log.arrived[s.items..])
    ensures (forall i | 0 <= i < |s.log.arrived| :: s.log.arrived[i] <= s.now) && s.hist == Tallied(s.log.waits)
    ensures Launched(s.log, s.items, n, s.now).waits ==
            s.log.waits + Recorded(s.log.arrived[s.items..], n, s.now)
    ensures s.head + n < 0x8000_0000
  {
    AlwaysMeans(s);
    hide RingShows, Tallied, Newest;
  }

  lemma TalliedPush(before: seq<nat>, waits: seq<nat>, k: nat)
    requires k < |waits|
    ensures Tallied(before + waits[..k + 1]) ==
            Tallied(before + waits[..k])[Bucket(waits[k]) := Tallied(before + waits[..k])[Bucket(waits[k])] + 1]
  {
    var more := before + waits[..k + 1];
    assert more[..|more| - 1] == before + waits[..k];
  }

  // ---- The loop ----

  class Simulation {
    const arrivals: array<nat>
    const hist: array<int>
    const busyUntil: array<nat>
    var head: nat
    var count: nat
    var inFlight: int
    var now: nat
    var nextArrival: nat
    var items: nat
    var batches: nat
    ghost var log: Log
    ghost var crowded: bool
    ghost var late: bool

    ghost function Value(): State
      reads this, arrivals, hist, busyUntil
    {
      State(arrivals[..], hist[..], busyUntil[..], head, count, inFlight, now, nextArrival, items, batches,
            log, crowded, late)
    }

    ghost predicate Valid()
      reads this, arrivals, hist, busyUntil
    {
      && arrivals.Length == QUEUE && hist.Length == BUCKETS && busyUntil.Length == CONNECTIONS
      && arrivals != busyUntil && Sound(Value())
    }

    constructor (arrivals: array<nat>, hist: array<int>, gap: nat)
      requires arrivals.Length == QUEUE && hist.Length == BUCKETS
      modifies hist
      ensures this.arrivals == arrivals && this.hist == hist && fresh(busyUntil)
      ensures Valid() && Value() == Initial(arrivals[..], gap)
    {
      this.arrivals, this.hist := arrivals, hist;
      busyUntil := new nat[CONNECTIONS](_ => 0);
      head, count, inFlight, now, items, batches := 0, 0, 0, 0, 0, 0;
      nextArrival := gap;
      log := Log([gap], [], [], [], []);
      crowded, late := false, false;
      new;
      hide Sound;
      for i := 0 to hist.Length
        modifies hist
        invariant forall j | 0 <= j < i :: hist[j] == 0
      {
        hist[i] := 0;
      }
      assert busyUntil[..] == [0, 0, 0, 0];
      assert hist[..] == Tallied([]);
      InitialSound(arrivals[..], gap);
    }

    /** Every batch that has ended leaves its connection free. */
    method Free()
      requires Valid()
      modifies this`inFlight, busyUntil
      ensures Valid() && Value() == Settled(old(Value()))
    {
      ghost var s := Value();
      SettledSound(s);
      InFlightIsBusy(s);
      hide Sound, Busy;
      for i := 0 to busyUntil.Length
        invariant inFlight == Busy(busyUntil[..])
        invariant forall j | 0 <= j < busyUntil.Length ::
          busyUntil[j] == if j < i && s.busy[j] <= now then 0 else s.busy[j]
      {
        if busyUntil[i] > 0 && busyUntil[i] <= now {
          BusyUpdate(busyUntil[..], i, 0);
          ghost var freed := busyUntil[..][i := 0];
          busyUntil[i] := 0;
          assert busyUntil[..] == freed;
          inFlight := inFlight - 1;
        }
      }
      assert busyUntil[..] == Freed(s.busy, now);
    }

    /** The first free connection, or -1. */
    method FindFree() returns (free: int)
      requires busyUntil.Length == CONNECTIONS
      ensures free == if FirstFree(busyUntil[..]) < CONNECTIONS then FirstFree(busyUntil[..]) else -1
    {
      hide FirstFree;
      free := -1;
      for i := 0 to busyUntil.Length
        invariant forall j | 0 <= j < i :: busyUntil[..][j] > 0
      {
        if busyUntil[i] == 0 {
          return i;
        }
      }
    }

    /** Counts the waits of the `n` requests at the head of the ring. */
    method Record(n: nat, ghost waiting: seq<nat>, ghost before: seq<nat>)
      requires arrivals.Length == QUEUE && hist.Length == BUCKETS
      requires RingShows(arrivals[..], head, waiting) && n <= |waiting|
      requires forall i | 0 <= i < |waiting| :: waiting[i] <= now
      requires hist[..] == Tallied(before)
      modifies hist
      ensures hist[..] == Tallied(before + Recorded(waiting, n, now))
    {
      hide Tallied, Newest;
      ghost var waits := Recorded(waiting, n, now);
      assert before + waits[..0] == before;
      for k := 0 to n
        invariant hist[..] == Tallied(before + waits[..k])
      {
        assert arrivals[..][Slot(head, k)] == waiting[Newest(k, |waiting|)];
        var wait := now - arrivals[(head + k) % QUEUE];
        var b := wait / BUCKET_US;
        var at := if b < BUCKETS then b else BUCKETS - 1;
        TalliedPush(before, waits, k);
        hist[at] := hist[at] + 1;
      }
      assert waits[..n] == waits;
    }

    /** Counts the waits of a batch. */
    method RecordBatch(free: nat, n: nat, service: nat)
      requires Valid() && n == Size(count) && free < CONNECTIONS
      modifies hist
      ensures Value() == old(Value()).(hist := Launch(old(Value()), free, service).hist)
    {
      ghost var s := Value();
      RecordReady(s, n);
      hide Sound, Tallied, RingShows, Launched, Recorded, Slot, Size;
      Record(n, log.arrived[items..], log.waits);
    }

    /** Moves `n` requests from the ring to connection `free`. */
    method Take(free: nat, n: nat, service: nat, ghost t: State)
      requires n <= count && free < busyUntil.Length && arrivals != busyUntil
      modifies this, busyUntil
      ensures Value() == old(Value()).(
        head := Slot(old(head), n), count := old(count) - n, items := old(items) + n, batches := old(batches) + 1,
        busy := old(busyUntil[..])[free := now + 1 + service], inFlight := old(inFlight) + 1,
        log := t.log, crowded := t.crowded)
    {
      head := (head + n) % QUEUE;
      count := count - n;
      items := items + n;
      batches := batches + 1;
      busyUntil[free] := now + 1 + service;
      inFlight := inFlight + 1;
      log, crowded := t.log, t.crowded;
      assert busyUntil[..] == old(busyUntil[..])[free := now + 1 + service];
    }

    /** Starts one batch on connection `free`. */
    method StartBatch(free: nat, service: nat)
      requires Valid() && count > 0 && free < CONNECTIONS && busyUntil[free] == 0
      modifies this, hist, busyUntil
      ensures Valid() && Value() == Launch(old(Value()), free, service)
    {
      hide Sound, Launch, Slot;
      ghost var s := Value();
      ghost var t := Launch(s, free, service);
      LaunchFields(s, free, service);
      var n := if count < MAX_COUNT then count else MAX_COUNT;
      RecordBatch(free, n, service);
      Take(free, n, service, t);
      assert Value() == t;
    }

    /** Starts every batch that is due; `free` is the first connection left free, or -1. */
    method StartDue(d: Draws) returns (free: int)
      requires Valid() && Fine(d) && Ahead(Value())
      modifies this, hist, busyUntil
      ensures Valid() && Value() == Due(old(Value()), d, 0)
      ensures free == if FirstFree(busyUntil[..]) < CONNECTIONS then FirstFree(busyUntil[..]) else -1
    {
      hide Sound, Launch, FirstFree, Due, Ahead, Busy;
      ghost var s := Value();
      free := FindFree();
      var j := 0;
      while true
        invariant Valid() && Ahead(Value()) && j <= Busy(busyUntil[..]) && j <= CONNECTIONS
        invariant Due(s, d, 0) == Due(Value(), d, j)
        invariant free == if FirstFree(busyUntil[..]) < CONNECTIONS then FirstFree(busyUntil[..]) else -1
        decreases CONNECTIONS - j
      {
        DueStep(Value(), d, j);
        if !(free >= 0 && count > 0 && (d.due[j] || now >= END)) {
          break;
        }
        var service := d.service(Size(count));
        LaunchKeeps(Value(), free, service);
        StartBatch(free, service);
        j := j + 1;
        free := FindFree();
      }
    }

    /** Sets the clock to what happens first. */
    method PickNext(free: int, deadline: int)
      requires busyUntil.Length == CONNECTIONS
      requires free == if FirstFree(busyUntil[..]) < CONNECTIONS then FirstFree(busyUntil[..]) else -1
      modifies this`now
      ensures now == NextTime(old(Value()), deadline)
    {
      hide FirstFree;
      var next := if now < END then nextArrival else HORIZON;
      ghost var base := next;
      assert busyUntil[..][..0] == [];
      for i := 0 to busyUntil.Length
        invariant next == Earliest(busyUntil[..][..i], base)
      {
        assert busyUntil[..][..i + 1][..i] == busyUntil[..][..i];
        if busyUntil[i] > 0 && busyUntil[i] < next {
          next := busyUntil[i];
        }
      }
      assert busyUntil[..][..CONNECTIONS] == busyUntil[..];
      if free >= 0 && deadline > now && deadline < next {
        next := deadline;
      }
      if now >= END && count > 0 && free >= 0 {
        next := now;
      }
      now := next;
    }

    /** Accepts the arrival that is now. */
    method Arrive(gap: nat)
      requires arrivals.Length == QUEUE && arrivals != busyUntil
      modifies this, arrivals
      ensures Value() == Accept(old(Value()), gap)
    {
      ghost var ring := arrivals[..][Slot(head, count) := now];
      arrivals[(head + count) % QUEUE] := now;
      assert arrivals[..] == ring;
      count := count + 1;
      nextArrival := now + 1 + gap;
      log := log.(drawn := log.drawn + [gap], arrived := log.arrived + [now]);
    }

    /** One turn of the loop. */
    method Step(d: Draws)
      requires Valid() && Fine(d)
      modifies this, arrivals, hist, busyUntil
      ensures Valid() && Value() == Turn(old(Value()), d)
    {
      hide Sound, Due, Settled, Begun, Ready, Ahead, NextTime, Overruns, Slot;
      ghost var s := Value();
      TurnParts(s, d);
      Free();
      var free := StartDue(d);
      ghost var b := Value();
      late := late || (now >= END && Overruns(busyUntil[..]));
      NextTimeMarked(b, d.deadline);
      PickNext(free, d.deadline);
      if now == nextArrival && now < END {
        Arrive(d.gap);
      }
      assert Value() == Turn(s, d);
    }

    /** The loop, over the draws of its turns; it stops when no work is left. */
    method RunLoop(script: seq<Draws>) returns (ended: bool)
      requires Valid() && forall d | d in script :: Fine(d)
      modifies this, arrivals, hist, busyUntil
      ensures Valid() && Value() == Run(old(Value()), script) && ended == !Working(Value())
    {
      hide Sound, Turn, Run;
      ghost var s := Value();
      var k := 0;
      assert script[0..] == script;
      while k < |script| && (now < END || count > 0 || inFlight > 0)
        invariant k <= |script| && Valid()
        invariant Run(s, script) == Run(Value(), script[k..])
      {
        RunStep(Value(), script[k..]);
        assert script[k..][1..] == script[k + 1..];
        Step(script[k]);
        k := k + 1;
      }
      RunStops(Value(), script[k..]);
      ended := !(now < END || count > 0 || inFlight > 0);
    }
  }
}
