/** Whole runs of operations: the ordered map and the plain finite map they act on, and the
    churn workload every layout is measured with. */
module Runs {
  import opened Words
  import opened InsertionOrder

  datatype Op<K> = Set(key: K, value: i32) | Add(key: K, delta: i32) | Delete(key: K)

  function Step<K(==)>(e: Entries<K>, op: Op<K>): Entries<K> {
    match op
    case Set(k, v) => Put(e, k, v)
    case Add(k, d) => Bump(e, k, d)
    case Delete(k) => Remove(e, k)
  }

  /** The insertion-ordered map after a run from an empty one. */
  function Run<K(==)>(ops: seq<Op<K>>): Entries<K> {
    if ops == [] then [] else Step(Run(ops[..|ops| - 1]), ops[|ops| - 1])
  }

  function MapStep<K>(m: map<K, int>, op: Op<K>): map<K, int> {
    match op
    case Set(k, v) => m[k := v]
    case Add(k, d) => Raised(m, k, d)
    case Delete(k) => m - {k}
  }

  /** The finite map after the same run. */
  function MapRun<K>(ops: seq<Op<K>>): map<K, int> {
    if ops == [] then map[] else MapStep(MapRun(ops[..|ops| - 1]), ops[|ops| - 1])
  }

  lemma StepsAgree<K>(e: Entries<K>, op: Op<K>)
    requires Unique(e)
    ensures Unique(Step(e, op)) && AsMap(Step(e, op)) == MapStep(AsMap(e), op)
  {
    hide Put, Remove, Unique;
    AsMapLookup(e, op.key);
    match op
    case Set(k, v) =>
      PutLaws(e, k, v, k, 0);
      AsMapPut(e, k, v);
    case Add(k, d) =>
      PutLaws(e, k, Lookup(e, k, 0) + d, k, 0);
      AsMapPut(e, k, Lookup(e, k, 0) + d);
    case Delete(k) =>
      RemoveLaws(e, k, k, 0);
      AsMapRemove(e, k);
  }

  /** Any run leaves distinct keys, and the ordered map is the finite map with an order. */
  lemma {:induction false} RunsAgree<K>(ops: seq<Op<K>>)
    ensures Unique(Run(ops)) && AsMap(Run(ops)) == MapRun(ops) && |Run(ops)| == |MapRun(ops)|
  {
    if ops != [] {
      RunsAgree(ops[..|ops| - 1]);
      StepsAgree(Run(ops[..|ops| - 1]), ops[|ops| - 1]);
    }
    AsMapSize(Run(ops));
  }

  /** What a reader can see is the same: every value, the count and the sum. */
  lemma ObservationsAgree<K>(ops: seq<Op<K>>, other: Entries<K>, key: K, missing: int)
    requires Unique(other) && AsMap(other) == MapRun(ops)
    ensures Lookup(Run(ops), key, missing) == At(MapRun(ops), key, missing)
    ensures Total(Run(ops)) == Total(other) && |Run(ops)| == |other|
  {
    RunsAgree(ops);
    AsMapLookup(Run(ops), key);
    TotalOrderFree(Run(ops), other);
    AsMapSize(other);
  }

  /** What one operation changes: the value of its own key, and nothing else. */
  lemma StepLaws<K>(e: Entries<K>, op: Op<K>, other: K, missing: int)
    requires Unique(e)
    ensures Lookup(Step(e, op), other, missing) ==
            if other != op.key then Lookup(e, other, missing)
            else match op
              case Set(_, v) => v
              case Add(_, d) => if Find(e, other) >= 0 then Lookup(e, other, missing) + d else d
              case Delete(_) => missing
  {
    hide Put, Bump, Remove, Lookup, Find;
    match op
    case Set(k, v) => PutLaws(e, k, v, other, missing);
    case Add(k, d) => BumpLaws(e, k, d, other, missing);
    case Delete(k) => RemoveLaws(e, k, other, missing);
  }

  /** The sum of what the operations add to `key`. */
  function Deltas<K(==)>(ops: seq<Op<K>>, key: K): int {
    if ops == [] then 0
    else
      var op := ops[|ops| - 1];
      Deltas(ops[..|ops| - 1], key) + if op.Add? && op.key == key then op.delta else 0
  }

  lemma MissingIsZero<K>(e: Entries<K>, key: K)
    ensures Find(e, key) < 0 ==> Lookup(e, key, 0) == 0
  {
  }

  lemma DeltasLast<K>(ops: seq<Op<K>>, i: nat, key: K)
    requires i < |ops|
    ensures var op := ops[|ops| - 1];
      Deltas(ops[i..], key) == Deltas(ops[..|ops| - 1][i..], key) + if op.Add? && op.key == key then op.delta else 0
  {
    assert ops[i..][..|ops| - 1 - i] == ops[..|ops| - 1][i..];
  }

  lemma LastStep<K>(ops: seq<Op<K>>)
    requires ops != []
    ensures Run(ops) == Step(Run(ops[..|ops| - 1]), ops[|ops| - 1])
  {
  }

  /** From operation `i` on, while a key is only added to, its value grows by the sum of what is added. */
  lemma {:induction false} ValueIsSum<K>(ops: seq<Op<K>>, i: nat, key: K)
    requires i <= |ops| && forall j | i <= j < |ops| :: ops[j].key == key ==> ops[j].Add?
    ensures Lookup(Run(ops), key, 0) == Lookup(Run(ops[..i]), key, 0) + Deltas(ops[i..], key)
    decreases |ops|
  {
    if i == |ops| {
      assert ops[..i] == ops;
    } else {
      hide Step, Lookup, Find, Run, Deltas, Unique;
      var n := |ops| - 1;
      ValueIsSum(ops[..n], i, key);
      assert ops[..n][..i] == ops[..i];
      DeltasLast(ops, i, key);
      LastStep(ops);
      RunsAgree(ops[..n]);
      StepLaws(Run(ops[..n]), ops[n], key, 0);
      MissingIsZero(Run(ops[..n]), key);
    }
  }

  // ---- The keys ----

  /** `toI32(toU32(i) * 2654435761)`. */
  function IntKey(i: nat): i32 {
    ToI32(ToU32(ToU32(i) * 2654435761))
  }

  lemma Rescale(i: int, q: int, r: int)
    requires r == i * 2654435761 - q * U32_SIZE
    ensures r * 244002641 == (i * 150801925 - q * 244002641) * U32_SIZE + i
  {
  }

  /** An odd multiplier is undone by its inverse. */
  lemma Unscramble(i: nat)
    requires i < U32_SIZE
    ensures (i * 2654435761 % U32_SIZE) * 244002641 % U32_SIZE == i
  {
    var q, r := i * 2654435761 / U32_SIZE, i * 2654435761 % U32_SIZE;
    Rescale(i, q, r);
    ModUnique(r * 244002641, i * 150801925 - q * 244002641, i, U32_SIZE);
  }

  lemma IntKeysDistinct(i: nat, j: nat)
    requires i < j < U32_SIZE
    ensures IntKey(i) != IntKey(j)
  {
    Unscramble(i);
    Unscramble(j);
  }

  // ---- The churn workload ----

  /** The run's `i`-th turn: set a key of the pool, and once the window is full drop the oldest. */
  function ChurnTurn<K>(keys: seq<K>, n: nat, i: nat): seq<Op<K>>
    requires |keys| == 2 * n && Pow2(2 * n) && IsI32(i)
  {
    AndMask(i, 2 * n);
    AndMask(i - n / 2, 2 * n);
    var add, drop := And(i, 2 * n - 1), And(i - n / 2, 2 * n - 1);
    [Set(keys[add], i)] + if i >= n / 2 then [Delete(keys[drop])] else []
  }

  /** The first `i` turns. */
  function Churn<K>(keys: seq<K>, n: nat, i: nat): seq<Op<K>>
    requires |keys| == 2 * n && Pow2(2 * n) && IsI32(i)
  {
    if i == 0 then [] else Churn(keys, n, i - 1) + ChurnTurn(keys, n, i - 1)
  }

  /** The entries set in turns `lo` to `hi`, oldest first. */
  function Window<K>(keys: seq<K>, lo: nat, hi: nat): (e: Entries<K>)
    requires lo <= hi && keys != []
  {
    seq(hi - lo, d requires 0 <= d < hi - lo => (keys[(lo + d) % |keys|], lo + d))
  }

  ghost predicate Distinct<K>(keys: seq<K>) {
    forall i, j | 0 <= i < j < |keys| :: keys[i] != keys[j]
  }

  lemma ModDistinct(x: int, y: int, m: int)
    requires 0 < x - y < m
    ensures x % m != y % m
  {
    if x % m == y % m {
      assert x == x / m * m + x % m && y == y / m * m + y % m;
      assert (x / m - y / m) * m == x - y;
      MulSpread(x / m - y / m, m);
    }
  }

  lemma WindowUnique<K>(keys: seq<K>, lo: nat, hi: nat)
    requires lo <= hi < lo + |keys| && Distinct(keys)
    ensures Unique(Window(keys, lo, hi))
    ensures Find(Window(keys, lo, hi), keys[hi % |keys|]) < 0
  {
    var w := Window(keys, lo, hi);
    forall i, j | 0 <= i < j < |w| ensures w[i].0 != w[j].0 {
      ModDistinct(lo + j, lo + i, |keys|);
    }
    if Find(w, keys[hi % |keys|]) >= 0 {
      ModDistinct(hi, lo + Find(w, keys[hi % |keys|]), |keys|);
    }
  }

  lemma RunAppend<K>(ops: seq<Op<K>>, op: Op<K>)
    ensures Run(ops + [op]) == Step(Run(ops), op)
  {
    assert (ops + [op])[..|ops|] == ops;
  }

  lemma SetTurn<K>(keys: seq<K>, lo: nat, k: nat)
    requires lo <= k < lo + |keys| && Distinct(keys)
    ensures Put(Window(keys, lo, k), keys[k % |keys|], k) == Window(keys, lo, k + 1)
  {
    hide Distinct, Unique;
    WindowUnique(keys, lo, k);
    assert Window(keys, lo, k) + [(keys[k % |keys|], k)] == Window(keys, lo, k + 1);
  }

  lemma DropTurn<K>(keys: seq<K>, lo: nat, hi: nat)
    requires lo < hi < lo + |keys| && Distinct(keys)
    ensures Remove(Window(keys, lo, hi), keys[lo % |keys|]) == Window(keys, lo + 1, hi)
  {
    WindowUnique(keys, lo, hi);
    var w := Window(keys, lo, hi);
    assert w[0].0 == keys[lo % |keys|];
    FindUnique(w, 0);
    assert w[..0] + w[1..] == Window(keys, lo + 1, hi);
  }

  lemma RunTurn<K>(keys: seq<K>, n: nat, k: nat)
    requires |keys| == 2 * n && Pow2(2 * n) && IsI32(k + 1)
    ensures var e := Put(Run(Churn(keys, n, k)), keys[k % |keys|], k);
      Run(Churn(keys, n, k + 1)) == if k >= n / 2 then Remove(e, keys[(k - n / 2) % |keys|]) else e
  {
    hide Put, Remove, And, Pow2;
    var ops := Churn(keys, n, k);
    AndMask(k, 2 * n);
    AndMask(k - n / 2, 2 * n);
    RunAppend(ops, Set(keys[k % |keys|], k));
    if k >= n / 2 {
      RunAppend(ops + [Set(keys[k % |keys|], k)], Delete(keys[(k - n / 2) % |keys|]));
      assert Churn(keys, n, k + 1) == ops + [Set(keys[k % |keys|], k)] + [Delete(keys[(k - n / 2) % |keys|])];
    } else {
      assert Churn(keys, n, k + 1) == ops + [Set(keys[k % |keys|], k)];
    }
  }

  lemma RunNone<K>(keys: seq<K>, n: nat)
    requires |keys| == 2 * n && Pow2(2 * n)
    ensures Run(Churn(keys, n, 0)) == [] == Window(keys, 0, 0)
  {
  }

  /** After `i` turns the table holds exactly the last `n / 2` turns' keys, oldest first. */
  lemma {:induction false} ChurnHolds<K>(keys: seq<K>, n: nat, i: nat)
    requires |keys| == 2 * n && Pow2(2 * n) && IsI32(i) && Distinct(keys)
    ensures Run(Churn(keys, n, i)) == Window(keys, if i >= n / 2 then i - n / 2 else 0, i)
  {
    hide Put, Remove, Run, Pow2, Distinct;
    if i == 0 {
      RunNone(keys, n);
    } else {
      var k := i - 1;
      var lo := if k >= n / 2 then k - n / 2 else 0;
      ChurnHolds(keys, n, k);
      RunTurn(keys, n, k);
      SetTurn(keys, lo, k);
      if k >= n / 2 {
        DropTurn(keys, lo, i);
      }
    }
  }

  lemma Gauss(lo: int, hi: int)
    ensures (hi - lo) * (lo + hi - 1) == (hi - 1 - lo) * (lo + hi - 2) + 2 * (hi - 1)
  {
  }

  lemma WindowPush<K>(keys: seq<K>, lo: nat, hi: nat)
    requires lo < hi && keys != []
    ensures Total(Window(keys, lo, hi)) == Total(Window(keys, lo, hi - 1)) + hi - 1
  {
    assert Window(keys, lo, hi)[..hi - lo - 1] == Window(keys, lo, hi - 1);
  }

  lemma {:induction false} WindowTotal<K>(keys: seq<K>, lo: nat, hi: nat)
    requires lo <= hi && keys != []
    ensures 2 * Total(Window(keys, lo, hi)) == (hi - lo) * (lo + hi - 1)
    decreases hi
  {
    if lo < hi {
      WindowTotal(keys, lo, hi - 1);
      Gauss(lo, hi);
      WindowPush(keys, lo, hi);
    }
  }

  lemma HalfSquare(h: int)
    ensures (2 * h) * (31 * (2 * h) - 2) == 4 * ((16 * h - 15 * h) * (15 * h + 16 * h - 1))
  {
  }

  /** The line the churn workload prints: exactly `n / 2` live entries, and their sum. */
  lemma ChurnResult<K>(keys: seq<K>, n: nat)
    requires |keys| == 2 * n && Pow2(2 * n) && 2 <= n && IsI32(8 * n) && Distinct(keys)
    ensures |Run(Churn(keys, n, 8 * n))| == n / 2
    ensures 8 * Total(Run(Churn(keys, n, 8 * n))) == n * (31 * n - 2)
  {
    hide Total, Run, Distinct;
    var h := n / 2;
    assert n == 2 * h by {
      assert Pow2(n);
    }
    ChurnHolds(keys, n, 8 * n);
    WindowTotal(keys, 15 * h, 16 * h);
    HalfSquare(h);
  }
}
