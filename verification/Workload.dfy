/** The keys and the churn workload of the map benchmarks, on all four layouts. */
module Workload {
  import opened Words
  import opened InsertionOrder
  import opened OrderedTable
  import opened Packing
  import opened RunLoads
  import opened Runs
  import opened Layouts
  import L = LoadPolicy
  import P = PlainMap

  lemma IntKeyIs(i: nat)
    ensures IntKey(i) == ToI32(ToU32(ToU32(i) * 2654435761))
    ensures (IntKey(i) - i * 2654435761) % 4294967296 == 0
  {
    assert i == i / U32_SIZE * U32_SIZE + i % U32_SIZE;
    assert (i - i / U32_SIZE * U32_SIZE) * 2654435761 == i * 2654435761 - i / U32_SIZE * 2654435761 * U32_SIZE;
    var y := ToU32(i) * 2654435761;
    assert y == y / U32_SIZE * U32_SIZE + y % U32_SIZE;
    var q := i / U32_SIZE * 2654435761 + y / U32_SIZE;
    assert IntKey(i) - i * 2654435761 == -q * U32_SIZE || IntKey(i) - i * 2654435761 == (-q - 1) * U32_SIZE;
    ModUnique(IntKey(i) - i * 2654435761, if IntKey(i) >= 0 then -q else -q - 1, 0, U32_SIZE);
  }

  /** The keys, all different. */
  method IntKeys(n: nat) returns (keys: seq<i32>)
    requires IsI32(2 * n)
    ensures |keys| == 2 * n && Distinct(keys)
    ensures forall i | 0 <= i < 2 * n :: keys[i] == IntKey(i) && (keys[i] - i * 2654435761) % 4294967296 == 0
  {
    hide IntKey;
    keys := [];
    for i := 0 to 2 * n
      invariant |keys| == i && forall j | 0 <= j < i :: keys[j] == IntKey(j)
    {
      keys := keys + [ToI32(ToU32(ToU32(i) * 2654435761))];
      assert keys[i] == IntKey(i) by {
        IntKeyIs(i);
      }
    }
    forall i, j | 0 <= i < j < |keys| ensures keys[i] != keys[j] {
      IntKeysDistinct(i, j);
    }
    forall i | 0 <= i < 2 * n ensures (keys[i] - i * 2654435761) % 4294967296 == 0 {
      IntKeyIs(i);
    }
  }

  // ---- What the churn costs ----

  lemma PeakPush<K>(ops: seq<Op<K>>, op: Op<K>)
    ensures Peak(ops + [op]) == Max(Peak(ops), |Run(ops + [op])|)
    ensures |Run(ops + [op])| <= |Run(ops)| + 1
  {
    assert (ops + [op])[..|ops|] == ops;
    StepLength(Run(ops), op);
  }

  lemma FitsPush<K>(ops: seq<Op<K>>, op: Op<K>)
    requires FitsAll(ops) && !op.Add?
    ensures FitsAll(ops + [op])
  {
    var more := ops + [op];
    forall i | 0 <= i < |more| ensures Fits(Run(more[..i]), more[i]) {
      if i < |ops| {
        assert more[..i] == ops[..i] && more[i] == ops[i];
      }
    }
  }

  lemma NothingCosts<K>()
    ensures FitsAll<K>([]) && Peak<K>([]) == 0
  {
  }

  /** The churn overflows no value and holds at most one key more than half of `n`. */
  lemma {:induction false} ChurnCosts<K>(keys: seq<K>, n: nat, i: nat)
    requires |keys| == 2 * n && Pow2(2 * n) && IsI32(i) && Distinct(keys)
    ensures FitsAll(Churn(keys, n, i)) && Peak(Churn(keys, n, i)) <= n / 2 + 1
  {
    hide Run, Pow2, Distinct, And, FitsAll, Peak;
    if i == 0 {
      NothingCosts<K>();
    } else {
      var ops, turn := Churn(keys, n, i - 1), ChurnTurn(keys, n, i - 1);
      ChurnCosts(keys, n, i - 1);
      ChurnHolds(keys, n, i - 1);
      ChurnHolds(keys, n, i);
      PeakPush(ops, turn[0]);
      FitsPush(ops, turn[0]);
      if |turn| == 2 {
        PeakPush(ops + [turn[0]], turn[1]);
        FitsPush(ops + [turn[0]], turn[1]);
        assert Churn(keys, n, i) == ops + [turn[0]] + [turn[1]];
      } else {
        assert Churn(keys, n, i) == ops + [turn[0]];
      }
    }
  }

  /** So the churn passes wherever half of `n` keys and one more do. */
  lemma ChurnPasses<K>(limit: Limit, keys: seq<K>, n: nat)
    requires |keys| == 2 * n && Pow2(2 * n) && 2 <= n && IsI32(8 * n) && Distinct(keys)
    ensures n / 2 + 1 <= Bound(limit) ==> Passes(limit, Churn(keys, n, 8 * n))
    ensures limit != Entries24 ==> n / 2 + 1 <= Bound(limit)
  {
    ChurnCosts(keys, n, 8 * n);
    hide Pow2, Distinct, FitsAll, Peak, Passes, Churn;
    if n / 2 + 1 <= Bound(limit) {
      PassesBelow(limit, Churn(keys, n, 8 * n));
    }
  }

  // ---- The churn ----

  /** What the plain table is after `i` turns of the churn. */
  ghost predicate Churned<K(!new)>(t: P.PlainMap<K>, keys: seq<K>, n: nat, i: nat)
    requires |keys| == 2 * n && Pow2(2 * n) && IsI32(i)
    reads t, t.slots
  {
    t.Valid() && t.Contents() == Run(Churn(keys, n, i)) && t.t.load.peak <= n / 2 + 1
  }

  /** Before each turn at most half of `n` keys are live, so the next set does not panic. */
  lemma ChurnRoom<K(!new)>(t: P.PlainMap<K>, keys: seq<K>, n: nat, i: nat)
    requires |keys| == 2 * n && Pow2(2 * n) && IsI32(8 * n) && i < 8 * n && Distinct(keys)
    requires Churned(t, keys, n, i)
    ensures t.slots.Length < L.MAX_SLOTS && t.t.load.live <= n / 2
    ensures L.Insert(t.t.load).peak <= n / 2 + 1
  {
    hide Run, Churn, Pow2, Distinct, Usable;
    ChurnHolds(keys, n, i);
    LiveCount(t.hash, t.t);
  }

  /** The churn turn by turn on the plain table: set the next key of the pool, and drop the one set
      half of `n` turns before. It never panics, and ends with half of `n` live keys and a known sum. */
  method ChurnPlain<K(==,!new)>(hash: K -> u32, keys: seq<K>, n: nat) returns (live: nat, total: u32)
    requires |keys| == 2 * n && Pow2(2 * n) && 2 <= n && IsI32(8 * n) && Distinct(keys)
    ensures live == n / 2 && total == ToU32(n * (31 * n - 2) / 8)
  {
    hide Run, Churn, Pow2, Distinct, Tracked, Usable, Put, Remove, L.Sound, And, Lookup, ToU32, Total;
    var pool := 2 * n - 1;
    var t := new P.PlainMap(hash);
    RunNone(keys, n);
    for i := 0 to 8 * n
      invariant fresh(t) && fresh(t.slots) && Churned(t, keys, n, i)
    {
      RunTurn(keys, n, i);
      ChurnRoom(t, keys, n, i);
      AndMask(i, 2 * n);
      AndMask(i - n / 2, 2 * n);
      var add := And(i, pool);
      var out := t.Set(keys[add], i);
      if i >= n / 2 {
        var drop := And(i - n / 2, pool);
        var removed := t.Delete(keys[drop]);
      }
    }
    ChurnResult(keys, n);
    LiveCount(t.hash, t.t);
    live := t.live;
    total := t.Sum();
  }

  /** The churn's operations on the `i64` layout print the same. */
  method ChurnFp64<K(==,!new)>(hash: K -> u32, keys: seq<K>, n: nat) returns (live: nat, total: u32)
    requires NonZero(hash)
    requires |keys| == 2 * n && Pow2(2 * n) && 2 <= n && IsI32(8 * n) && Distinct(keys)
    ensures live == n / 2 && total == ToU32(n * (31 * n - 2) / 8)
  {
    hide Run, Churn, Pow2, Distinct, Tracked, Usable, ToU32, Total, Passes, NonZero, FitsAll, Peak, NewKeys, LoadRun;
    ChurnPasses(Slots, keys, n);
    ChurnResult(keys, n);
    var t, out := RunFp64(hash, Churn(keys, n, 8 * n));
    LiveCount(t.hash, t.t);
    live := t.live;
    total := t.Sum();
  }

  /** On the `u32` layout they do so exactly when the run passes under the cap on entry numbers. */
  method ChurnFp32<K(==,!new)>(hash: K -> u32, keys: seq<K>, n: nat) returns (live: nat, total: u32, out: Outcome)
    requires NonZero(hash)
    requires |keys| == 2 * n && Pow2(2 * n) && 2 <= n && IsI32(8 * n) && Distinct(keys)
    ensures out.Done? <==> Passes(Entries24, Churn(keys, n, 8 * n))
    ensures n / 2 + 1 <= 0x3F_FFFF ==> out.Done?
    ensures out.Done? ==> live == n / 2 && total == ToU32(n * (31 * n - 2) / 8)
  {
    hide Run, Churn, Pow2, Distinct, Tracked, Usable, ToU32, Total, Passes, NonZero, FitsAll, Peak, NewKeys, LoadRun;
    ChurnPasses(Entries24, keys, n);
    ChurnResult(keys, n);
    var t;
    live, total := 0, 0;
    t, out := RunFp32(hash, Churn(keys, n, 8 * n));
    if out.Done? {
      LiveCount(t.hash, t.t);
      live := t.live;
      total := t.Sum();
    }
  }

  /** And on the unordered layout they always do. */
  method ChurnUnordered<K(==,!new)>(hash: K -> u32, keys: seq<K>, n: nat) returns (live: nat, total: u32)
    requires NonZero(hash)
    requires |keys| == 2 * n && Pow2(2 * n) && 2 <= n && IsI32(8 * n) && Distinct(keys)
    ensures live == n / 2 && total == ToU32(n * (31 * n - 2) / 8)
  {
    hide Run, Churn, Pow2, Distinct, ToU32, Total, Passes, NonZero, FitsAll, Peak, BucketRun, MapRun, AsMap, Unique;
    ghost var ops := Churn(keys, n, 8 * n);
    ChurnPasses(Buckets, keys, n);
    ChurnResult(keys, n);
    RunsAgree(ops);
    var t, out := RunUnordered(hash, Churn(keys, n, 8 * n));
    var seen := SeeUnordered(t, Run(ops), keys[0], 0);
    live, total := seen.live, seen.sum;
  }
}
