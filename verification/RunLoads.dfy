/** What a run of operations costs: the load it builds up, the most keys it ever holds, and
    exactly which runs a layout gets through without a panic. */
module RunLoads {
  import opened Words
  import opened InsertionOrder
  import opened Packing
  import opened Runs
  import L = LoadPolicy

  // ---- The load of a run ----

  /** The operation brings in a key the map does not have. */
  predicate NewKey<K(==)>(e: Entries<K>, op: Op<K>) {
    !op.Delete? && Find(e, op.key) < 0
  }

  /** The operation takes away a key the map has. */
  predicate Drops<K(==)>(e: Entries<K>, op: Op<K>) {
    op.Delete? && Find(e, op.key) >= 0
  }

  function Charged<K(==)>(l: L.Load, e: Entries<K>, op: Op<K>): L.Load {
    if NewKey(e, op) then L.Insert(l)
    else if Drops(e, op) && l.live > 0 then L.Delete(l)
    else l
  }

  function LoadRun<K(==)>(ops: seq<Op<K>>): L.Load {
    if ops == [] then L.START
    else Charged(LoadRun(ops[..|ops| - 1]), Run(ops[..|ops| - 1]), ops[|ops| - 1])
  }

  /** The most keys the map holds at any time of the run. */
  function Peak<K(==)>(ops: seq<Op<K>>): (peak: nat) {
    if ops == [] then 0 else Max(Peak(ops[..|ops| - 1]), |Run(ops)|)
  }

  /** How many operations bring in a key the map does not have. */
  function NewKeys<K(==)>(ops: seq<Op<K>>): nat {
    if ops == [] then 0
    else NewKeys(ops[..|ops| - 1]) + if NewKey(Run(ops[..|ops| - 1]), ops[|ops| - 1]) then 1 else 0
  }

  /** The insertions and deletions of the run, as the load policy sees them. */
  function History<K(==)>(ops: seq<Op<K>>): seq<bool> {
    if ops == [] then []
    else
      var e, op := Run(ops[..|ops| - 1]), ops[|ops| - 1];
      History(ops[..|ops| - 1]) + if NewKey(e, op) then [true] else if Drops(e, op) then [false] else []
  }

  lemma RunLast<K>(ops: seq<Op<K>>)
    requires ops != []
    ensures Run(ops) == Step(Run(ops[..|ops| - 1]), ops[|ops| - 1])
  {
  }

  /** What an operation does to the number of keys. */
  lemma StepLength<K>(e: Entries<K>, op: Op<K>)
    ensures |Step(e, op)| == |e| + (if NewKey(e, op) then 1 else 0) - (if Drops(e, op) then 1 else 0)
  {
  }

  lemma LoadRunNone<K>()
    ensures L.Sound(LoadRun<K>([])) && Run<K>([]) == []
  {
  }

  lemma NewOrDropped<K>(e: Entries<K>, op: Op<K>)
    ensures !(NewKey(e, op) && Drops(e, op)) && (Drops(e, op) ==> e != [])
  {
  }

  lemma SoundLive(l: L.Load)
    requires L.Sound(l)
    ensures l.live <= l.peak
  {
  }

  lemma SoundDelete(l: L.Load)
    requires L.Sound(l)
    ensures l.live > 0 ==> L.Sound(L.Delete(l))
  {
  }

  /** The load of a run counts its keys, its peak and its new keys, and keeps the policy's invariant. */
  lemma {:induction false} LoadRunMeans<K>(ops: seq<Op<K>>)
    ensures L.Sound(LoadRun(ops))
    ensures LoadRun(ops).live == |Run(ops)| && LoadRun(ops).peak == Peak(ops)
    ensures LoadRun(ops).inserted == NewKeys(ops)
  {
    hide L.Sound, Run, Step, NewKey, Drops, L.Full;
    if ops == [] {
      LoadRunNone<K>();
    } else {
      var front, op := ops[..|ops| - 1], ops[|ops| - 1];
      LoadRunMeans(front);
      RunLast(ops);
      StepLength(Run(front), op);
      NewOrDropped(Run(front), op);
      L.SoundInsert(LoadRun(front));
      SoundLive(LoadRun(front));
      SoundDelete(LoadRun(front));
    }
  }

  /** A run's load is the policy's load of its insertions and deletions. */
  lemma {:induction false} HistoryMeans<K>(ops: seq<Op<K>>)
    ensures L.Possible(History(ops)) && L.Run(History(ops)) == LoadRun(ops)
  {
    if ops != [] {
      var front, op := ops[..|ops| - 1], ops[|ops| - 1];
      hide Run, NewKey, Drops, L.Insert, L.Delete;
      HistoryMeans(front);
      LoadRunMeans(front);
      NewOrDropped(Run(front), op);
      var h := History(front);
      assert (h + [true])[..|h|] == h && (h + [false])[..|h|] == h && h + [] == h;
    }
  }

  /** The peak is reached, and no time of the run has more keys. */
  lemma {:induction false} PeakIsLargest<K>(ops: seq<Op<K>>)
    ensures forall i | 0 <= i <= |ops| :: |Run(ops[..i])| <= Peak(ops)
    ensures exists i :: 0 <= i <= |ops| && |Run(ops[..i])| == Peak(ops)
  {
    hide Run;
    assert ops[..|ops|] == ops;
    if ops == [] {
      LoadRunNone<K>();
      assert |Run(ops[..0])| == Peak(ops);
    } else {
      var front := ops[..|ops| - 1];
      PeakIsLargest(front);
      forall i | 0 <= i <= |ops| ensures |Run(ops[..i])| <= Peak(ops) {
        assert i <= |front| ==> ops[..i] == front[..i];
      }
      var i :| 0 <= i <= |front| && |Run(front[..i])| == Peak(front);
      assert ops[..i] == front[..i];
      assert Peak(ops) == |Run(ops[..i])| || Peak(ops) == |Run(ops[..|ops|])|;
    }
  }

  /** All rebuilds of a run together scan at most three entries per new key, and the table never
      has more buckets than the largest number of keys asks for. */
  lemma RunCosts<K>(ops: seq<Op<K>>)
    ensures LoadRun(ops).scanned <= 3 * NewKeys(ops)
    ensures 3 * LoadRun(ops).slots <= Max(24, 16 * Peak(ops))
    ensures 4 * LoadRun(ops).used <= 3 * LoadRun(ops).slots
  {
    LoadRunMeans(ops);
  }

  // ---- Runs without a panic ----

  /** What a table runs out of: buckets whose number an `i32` product still holds, entry numbers of
      24 bits, or the buckets of a table that only doubles. */
  datatype Limit = Slots | Entries24 | Buckets

  /** The number of buckets of the unordered table after a run. */
  function BucketRun<K(==)>(ops: seq<Op<K>>): nat {
    if ops == [] then L.INITIAL_SLOTS else L.Widened(BucketRun(ops[..|ops| - 1]), |Run(ops)|)
  }

  /** After the run another key can come in. */
  predicate Room<K(==)>(limit: Limit, ops: seq<Op<K>>) {
    match limit
    case Slots => LoadRun(ops).slots < L.MAX_SLOTS
    case Entries24 => LoadRun(ops).used < INDEX_CAP
    case Buckets => BucketRun(ops) < L.MAX_SLOTS
  }

  /** Adding to a value the map has leaves it an `i32`. */
  predicate Fits<K(==)>(e: Entries<K>, op: Op<K>) {
    op.Add? && Find(e, op.key) >= 0 ==> IsI32(Lookup(e, op.key, 0) + op.delta)
  }

  /** No value overflows, at any time of the run. */
  predicate FitsAll<K(==)>(ops: seq<Op<K>>) {
    forall i | 0 <= i < |ops| :: Fits(Run(ops[..i]), ops[i])
  }

  /** Each operation of the run fits, and finds room when it brings in a key. */
  predicate Passes<K(==)>(limit: Limit, ops: seq<Op<K>>) {
    ops == [] ||
    (var front, op := ops[..|ops| - 1], ops[|ops| - 1];
     Passes(limit, front) && Fits(Run(front), op) && (NewKey(Run(front), op) ==> Room(limit, front)))
  }

  lemma {:induction false} PassesPrefix<K>(limit: Limit, ops: seq<Op<K>>, i: nat)
    requires Passes(limit, ops) && i <= |ops|
    ensures Passes(limit, ops[..i])
    decreases |ops|
  {
    if i == |ops| {
      assert ops[..i] == ops;
    } else {
      PassesPrefix(limit, ops[..|ops| - 1], i);
      assert ops[..|ops| - 1][..i] == ops[..i];
    }
  }

  lemma {:induction false} BucketRunMeans<K>(ops: seq<Op<K>>)
    ensures 4 * |Run(ops)| <= 3 * BucketRun(ops) && BucketRun(ops) >= 8
    ensures BucketRun(ops) == 8 || 3 * BucketRun(ops) < 8 * Peak(ops)
  {
    if ops != [] {
      hide Run;
      BucketRunMeans(ops[..|ops| - 1]);
    }
  }

  /** As many keys as a run may hold at a time for there always to be room. */
  function Bound(limit: Limit): nat {
    match limit
    case Slots => 0xBFF_FFFF
    case Entries24 => 0x3F_FFFF
    case Buckets => 0x17FF_FFFF
  }

  lemma RoomBelow<K>(limit: Limit, ops: seq<Op<K>>)
    requires Peak(ops) <= Bound(limit)
    ensures Room(limit, ops)
  {
    hide LoadRun, BucketRun, Peak;
    RunCosts(ops);
    BucketRunMeans(ops);
  }

  /** However long a run is, it passes when no value overflows and it never holds too many keys. */
  lemma {:induction false} PassesBelow<K>(limit: Limit, ops: seq<Op<K>>)
    requires FitsAll(ops) && Peak(ops) <= Bound(limit)
    ensures Passes(limit, ops)
    decreases |ops|
  {
    if ops != [] {
      hide Fits, Run, Bound, NewKey, Room;
      var front := ops[..|ops| - 1];
      assert forall i | 0 <= i < |front| :: front[..i] == ops[..i] && front[i] == ops[i];
      assert Peak(front) <= Peak(ops);
      PassesBelow(limit, front);
      RoomBelow(limit, front);
    }
  }

  /** A run that passes overflows no value. */
  lemma {:induction false} PassesFits<K>(limit: Limit, ops: seq<Op<K>>)
    requires Passes(limit, ops)
    ensures FitsAll(ops)
    decreases |ops|
  {
    if ops != [] {
      hide Fits, Run, NewKey, Room;
      var front := ops[..|ops| - 1];
      PassesFits(limit, front);
      forall i | 0 <= i < |ops| ensures Fits(Run(ops[..i]), ops[i]) {
        assert i < |front| ==> front[..i] == ops[..i] && front[i] == ops[i];
      }
    }
  }

  // ---- A run that does panic ----

  /** `n` different keys. */
  function Fill(n: nat): seq<Op<int>> {
    seq(n, i => Set(i, 0))
  }

  /** Entry `i` of the filled table has key `i`. */
  ghost predicate Filled(e: Entries<int>, n: nat) {
    |e| == n && forall i | 0 <= i < n :: e[i].0 == i
  }

  lemma FillStep(e: Entries<int>, n: nat)
    requires Filled(e, n)
    ensures NewKey(e, Set(n, 0)) && Filled(Step(e, Set(n, 0)), n + 1)
  {
  }

  lemma {:induction false} FillMeans(n: nat)
    ensures Filled(Run(Fill(n)), n) && History(Fill(n)) == L.Insertions(n)
  {
    if n > 0 {
      hide NewKey, Drops, Step, Filled;
      FillMeans(n - 1);
      FillStep(Run(Fill(n - 1)), n - 1);
      assert Fill(n)[..n - 1] == Fill(n - 1);
      assert L.Insertions(n) == L.Insertions(n - 1) + [true];
    }
  }

  lemma PassesLast<K>(limit: Limit, ops: seq<Op<K>>)
    requires ops != [] && NewKey(Run(ops[..|ops| - 1]), ops[|ops| - 1])
    ensures Passes(limit, ops) ==> Room(limit, ops[..|ops| - 1])
  {
  }

  /** Without a cap a table can run out of buckets: one more key than 402653185 does not pass. */
  lemma FillPanics()
    ensures !Passes(Slots, Fill(0x1800_0002)) && FitsAll(Fill(0x1800_0002))
  {
    var n := 0x1800_0001;
    FillMeans(n);
    HistoryMeans(Fill(n));
    L.TopReached();
    assert Fill(n + 1)[..n] == Fill(n);
    FillStep(Run(Fill(n)), n);
    hide Run, LoadRun, History, Passes, NewKey;
    assert Fill(n + 1)[n] == Set(n, 0);
    PassesLast(Slots, Fill(n + 1));
  }
}
