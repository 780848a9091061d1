/** When an insertion-ordered table rebuilds, and what that costs over whole runs. The three layouts
    share one policy. A deletion frees no bucket; once an insertion has taken more than three quarters
    of them the dead entries are dropped, and unless those were the majority the table doubles. */
module LoadPolicy {
  import opened Words

  const INITIAL_SLOTS: nat := 8
  /** The largest size whose load test fits an `i32`, and the largest a table of at most 2^24 - 1 entries gets. */
  const MAX_SLOTS: nat := 0x4000_0000
  const CAP_SLOTS: nat := 0x200_0000

  /** The size of a table and what its run so far did: `used` entries in `slots`
      buckets, `live` of them not deleted, the largest `live` was `peak`,
      `inserted` keys were new and all rebuilds together scanned `scanned` entries. */
  datatype Load = Load(slots: nat, used: nat, live: nat, peak: nat, inserted: nat, scanned: nat)

  const START: Load := Load(INITIAL_SLOTS, 0, 0, 0, 0, 0)

  predicate Full(l: Load) {
    l.used * 4 > l.slots * 3
  }

  function RebuiltSlots(l: Load): nat {
    if l.live * 2 >= l.used then l.slots * 2 else l.slots
  }

  function Rebuilt(l: Load): Load {
    l.(slots := RebuiltSlots(l), used := l.live, scanned := l.scanned + l.used)
  }

  function Appended(l: Load): Load {
    l.(used := l.used + 1, live := l.live + 1, inserted := l.inserted + 1,
       peak := if l.live + 1 > l.peak then l.live + 1 else l.peak)
  }

  /** A new key: append, then rebuild if that filled the table. */
  function Insert(l: Load): Load {
    if Full(Appended(l)) then Rebuilt(Appended(l)) else Appended(l)
  }

  function Delete(l: Load): Load
    requires l.live > 0
  {
    l.(live := l.live - 1)
  }

  /** What an insertion does: with the new entry up to three quarters of the buckets may be taken;
      past that the entries are scanned and the dead ones dropped, and the table doubles exactly
      when at most half of the entries are dead. */
  lemma InsertExactly(l: Load)
    requires l.live <= l.used
    ensures var r := Insert(l);
      && r.live == l.live + 1 && r.inserted == l.inserted + 1 && r.peak == Max(l.peak, l.live + 1)
      && (4 * (l.used + 1) <= 3 * l.slots ==>
            r.slots == l.slots && r.used == l.used + 1 && r.scanned == l.scanned)
      && (4 * (l.used + 1) > 3 * l.slots ==>
            && r.slots == (if 2 * (l.used - l.live) <= l.used + 1 then 2 * l.slots else l.slots)
            && r.used == r.live && r.scanned == l.scanned + l.used + 1)
  {
  }

  /** A table without tombstones doubles past three quarters: its size once `live` keys are in. */
  function Widened(slots: nat, live: nat): nat {
    if 4 * live > 3 * slots then 2 * slots else slots
  }

  // ---- Every state a run reaches ----

  /** `Insert(true)` is a new key, `Insert(false)` the deletion of a live one. */
  function Run(steps: seq<bool>): Load
    requires Possible(steps)
    decreases |steps|, 1
  {
    if steps == [] then START
    else
      var l := Run(steps[..|steps| - 1]);
      if steps[|steps| - 1] then Insert(l) else Delete(l)
  }

  /** Only live entries can be deleted. */
  predicate Possible(steps: seq<bool>)
    decreases |steps|, 0
  {
    steps == [] ||
    (Possible(steps[..|steps| - 1]) && (steps[|steps| - 1] || Run(steps[..|steps| - 1]).live > 0))
  }

  /** The last line pays for the next rebuild in advance: after a rebuild at most 3/8 of
      the buckets, and one, are taken, so filling up takes enough insertions to cover the scan. */
  ghost predicate Paid(l: Load) {
    && l.slots >= INITIAL_SLOTS && l.slots % 8 == 0
    && l.live <= l.used && l.live <= l.peak
    && 4 * l.used <= 3 * l.slots
    && 8 * l.scanned + 3 * Max(0, 8 * l.used - (3 * l.slots + 8)) <= 24 * l.inserted
  }

  /** What holds between operations. */
  ghost predicate Sound(l: Load) {
    Pow2(l.slots) && Paid(l) && 3 * l.slots <= Max(24, 16 * l.peak)
  }

  lemma PaidInsert(l: Load)
    requires Paid(l)
    ensures Paid(Insert(l))
  {
    var e := l.slots / 8;
    assert l.slots == 8 * e;
    if Full(Appended(l)) {
      assert l.used == 6 * e;
      assert 8 * Insert(l).used <= 3 * Insert(l).slots + 8;
    }
  }

  lemma SoundInsert(l: Load)
    requires Sound(l)
    ensures Sound(Insert(l))
  {
    PaidInsert(l);
    assert Pow2(l.slots * 2);
  }

  lemma {:induction false} SoundRun(steps: seq<bool>)
    requires Possible(steps)
    ensures Sound(Run(steps))
  {
    if steps != [] {
      SoundRun(steps[..|steps| - 1]);
      SoundInsert(Run(steps[..|steps| - 1]));
    }
  }

  /** Rebuilding is amortised: over any run, at most three entries are scanned per new key. */
  lemma RebuildsAmortised(steps: seq<bool>)
    requires Possible(steps)
    ensures Run(steps).scanned <= 3 * Run(steps).inserted
  {
    SoundRun(steps);
  }

  /** Space follows the largest live count, however long the run. */
  lemma SpaceFollowsPeak(steps: seq<bool>)
    requires Possible(steps)
    ensures 3 * Run(steps).slots <= Max(24, 16 * Run(steps).peak)
  {
    SoundRun(steps);
  }

  /** Three quarters of the buckets at most are taken between operations. */
  lemma NeverFull(steps: seq<bool>)
    requires Possible(steps)
    ensures Pow2(Run(steps).slots) && 4 * Run(steps).used <= 3 * Run(steps).slots
  {
    SoundRun(steps);
  }

  // ---- Capacity ----

  /** Every size an insert computes fits an `i32`: its two products, and the doubling. */
  ghost predicate ProductsFit(l: Load) {
    var a := Appended(l);
    && IsI32(a.used * 4) && IsI32(a.slots * 3)
    && (Full(a) ==> IsI32(a.live * 2) && IsI32(a.slots * 2))
  }

  lemma TopPow2()
    ensures Pow2(MAX_SLOTS)
  {
    assert Pow2(0x8000);
  }

  /** A power of two below another is at most half of it. */
  lemma Pow2Below(n: nat, m: nat)
    requires Pow2(n) && Pow2(m) && n < m
    ensures 2 * n <= m
  {
    if 2 * n > m {
      Pow2Gap(m, n);
    }
  }

  /** Without a cap, an insert overflows exactly when the table has 2^30 buckets. */
  lemma OverflowBound(l: Load)
    requires Sound(l) && l.slots <= MAX_SLOTS
    ensures ProductsFit(l) <==> l.slots < MAX_SLOTS
    ensures ProductsFit(l) ==> Insert(l).slots <= MAX_SLOTS
  {
    if l.slots < MAX_SLOTS {
      TopPow2();
      Pow2Below(l.slots, MAX_SLOTS);
    }
  }

  lemma CapPow2()
    ensures Pow2(CAP_SLOTS)
  {
    assert Pow2(0x1000);
  }

  /** The 24-bit index cap bounds the table: an insert that passes the cap check, with at
      most 2^24 - 1 entries, never takes it past 2^25 buckets, and no product overflows. */
  lemma CapBound(l: Load)
    requires Sound(l) && l.slots <= CAP_SLOTS && l.used < 0xFF_FFFF
    ensures ProductsFit(l) && Insert(l).slots <= CAP_SLOTS
  {
    if l.slots < CAP_SLOTS {
      CapPow2();
      Pow2Below(l.slots, CAP_SLOTS);
    }
  }

  /** The same for a table that only ever doubles: with at most 2^24 - 1 entries it has at
      most 2^25 buckets, and the products of the load test fit. */
  lemma DoublingBound(used: nat, slots: nat)
    requires Pow2(slots) && slots <= CAP_SLOTS && used <= 0xFF_FFFF
    ensures IsI32(used * 4) && IsI32(slots * 3) && IsI32(slots * 2)
    ensures used * 4 > slots * 3 ==> slots * 2 <= CAP_SLOTS
  {
    if slots < CAP_SLOTS {
      CapPow2();
      Pow2Below(slots, CAP_SLOTS);
    }
  }

  /** `n` new keys and no deletion. */
  function Insertions(n: nat): seq<bool> {
    seq(n, _ => true)
  }

  /** With nothing deleted a table has at most twice the buckets it needs. */
  lemma {:induction false} OnlyInsertions(n: nat)
    ensures Possible(Insertions(n))
    ensures var l := Run(Insertions(n));
      l.live == l.used == n && (l.slots == INITIAL_SLOTS || 8 * n > 3 * l.slots)
  {
    if n > 0 {
      OnlyInsertions(n - 1);
      assert Insertions(n)[..n - 1] == Insertions(n - 1);
    }
  }

  /** The size at which an insertion overflows is reached, by 402653185 new keys. */
  lemma TopReached()
    ensures Possible(Insertions(0x1800_0001)) && Run(Insertions(0x1800_0001)).slots == MAX_SLOTS
  {
    var n := 0x1800_0001;
    OnlyInsertions(n);
    SoundRun(Insertions(n));
    TopPow2();
    var slots := Run(Insertions(n)).slots;
    hide Possible, Run, Insertions, Pow2;
    if slots < MAX_SLOTS {
      Pow2Below(slots, MAX_SLOTS);
    } else if slots > MAX_SLOTS {
      Pow2Below(MAX_SLOTS, slots);
    }
  }
}
