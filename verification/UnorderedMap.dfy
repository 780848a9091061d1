/** The layout without an order: a bucket is the entry. A deletion closes the gap it leaves by moving
    entries back, so a table never holds anything dead. */
module UnorderedMap {
  import opened Words
  import opened Probing
  import opened OrderedTable
  import opened LoadPolicy
  import opened Packing
  import opened BackwardShift
  import opened InsertionOrder

  /** What the arrays hold for bucket `x`. A stale value may stay in an empty one. */
  ghost predicate Cell<K>(hash: K -> u32, x: Bucket<K>, h: u32, k: Option<K>) {
    match x
    case Empty => h == 0
    case Tomb => false
    case Holds(key, _) => h == hash(key) && h != 0 && k == Some(key)
  }

  /** `key` may be filed in the empty bucket `b`. */
  ghost predicate Free<K>(hash: K -> u32, bs: seq<Bucket<K>>, b: nat, key: K) {
    b < |bs| && bs[b] == Empty && Absent(bs, key) && PathTaken(bs, Home(hash(key), |bs| - 1), b)
  }

  /** The buckets hold the map `m`, every key reachable, one bucket a key. */
  ghost predicate Holding<K>(hash: K -> u32, bs: seq<Bucket<K>>, vals: seq<i32>, m: map<K, int>, live: nat) {
    Reachable(hash, bs) && Means(bs, vals, m) && live == |m| == Taken(bs)
  }

  /** A probe of the whole table finds the key's bucket, with its value, or where to put it. */
  lemma ProbeMeans<K>(hash: K -> u32, bs: seq<Bucket<K>>, vals: seq<i32>, m: map<K, int>, live: nat, key: K)
    requires Holding(hash, bs, vals, m, live) && Roomy(live, |bs|)
    ensures HasEmpty(bs) && Reachable(hash, bs) && |vals| == |bs|
    ensures var a := Seek(hash, bs, key);
      && !a.Stuck?
      && (a.Hit? ==> Occupied(bs, a.bucket) && bs[a.bucket].key == key && key in m && m[key] == vals[a.bucket])
      && (a.Miss? ==> Free(hash, bs, a.bucket, key) && key !in m)
  {
    NotAllTaken(bs);
    SeekFinds(hash, bs, key);
  }

  lemma HoldingWrite<K>(hash: K -> u32, bs: seq<Bucket<K>>, vals: seq<i32>, m: map<K, int>, live: nat, b: nat, value: i32)
    requires Holding(hash, bs, vals, m, live) && Occupied(bs, b)
    ensures |vals| == |bs| && Holding(hash, bs, vals[b := value], m[bs[b].key := value], live)
  {
    WriteMeans(hash, bs, vals, m, b, value);
    assert m[bs[b].key := value].Keys == m.Keys;
  }

  lemma HoldingInsert<K>(hash: K -> u32, bs: seq<Bucket<K>>, vals: seq<i32>, m: map<K, int>, live: nat,
                         b: nat, key: K, value: i32)
    requires Holding(hash, bs, vals, m, live) && Free(hash, bs, b, key)
    ensures b < |bs| == |vals|
    ensures Holding(hash, bs[b := Holds(key, 0)], vals[b := value], m[key := value], live + 1)
    ensures |bs| <= MAX_SLOTS ==> |bs| == MAX_SLOTS || |bs| * 2 <= MAX_SLOTS
  {
    FileMeans(bs, vals, m, b, key, value);
    FileKeeps(hash, bs, b, key, 0);
    TopPow2();
    if |bs| < MAX_SLOTS {
      Pow2Below(|bs|, MAX_SLOTS);
    }
  }

  lemma NonZeroHash<K(!new)>(hash: K -> u32, key: K)
    requires NonZero(hash)
    ensures hash(key) != 0
  {
  }

  lemma HoldingEmpty<K>(hash: K -> u32, bs: seq<Bucket<K>>)
    requires Pow2(|bs|) && forall b | 0 <= b < |bs| :: bs[b] == Empty
    ensures Reachable(hash, bs)
  {
  }

  lemma HoldingHas<K>(hash: K -> u32, bs: seq<Bucket<K>>, vals: seq<i32>, m: map<K, int>, live: nat)
    requires Holding(hash, bs, vals, m, live)
    ensures Reachable(hash, bs) && Means(bs, vals, m)
  {
  }

  lemma HoldingGrown<K>(hash: K -> u32, bs0: seq<Bucket<K>>, vals0: seq<i32>,
                        bs: seq<Bucket<K>>, vals: seq<i32>, m: map<K, int>, live: nat)
    requires Holding(hash, bs0, vals0, m, live) && Reachable(hash, bs) && Means(bs, vals, m) && Taken(bs) == Taken(bs0)
    ensures Holding(hash, bs, vals, m, live)
  {
  }

  /** Starting a deletion: the bucket found is the first hole. */
  lemma HoldingDelete<K>(hash: K -> u32, bs: seq<Bucket<K>>, vals: seq<i32>, m: map<K, int>, live: nat, hole: nat)
    requires Holding(hash, bs, vals, m, live) && Occupied(bs, hole) && |bs| >= 2
    ensures live == Taken(bs) > 0 && bs[hole].key in m && |m - {bs[hole].key}| == live - 1
    ensures Shifting(hash, bs, hole, Next(hole, |bs|))
    ensures Means(bs[hole := Empty], vals, m - {bs[hole].key})
  {
    ShiftStarts(hash, bs, hole);
    EmptyMeans(hash, bs, vals, m, hole);
    assert (m - {bs[hole].key}).Keys == m.Keys - {bs[hole].key};
  }

  lemma CellHash<K>(hash: K -> u32, x: Bucket<K>, h: u32, k: Option<K>)
    requires Cell(hash, x, h, k)
    ensures h == 0 <==> x == Empty
    ensures h != 0 ==> x.Holds? && k == Some(x.key) && h == hash(x.key)
  {
  }

  lemma HoldingShrunk<K>(hash: K -> u32, bs: seq<Bucket<K>>, vals: seq<i32>, m: map<K, int>, live: nat)
    requires Reachable(hash, bs) && Means(bs, vals, m) && live == |m| == Taken(bs)
    ensures Holding(hash, bs, vals, m, live)
  {
  }

  lemma NextCloser(b: nat, e: nat, n: nat)
    requires b < n && e < n && b != e
    ensures 0 <= Dist(Next(b, n), e, n) < Dist(b, e, n)
  {
  }

  lemma SumSpelled<K(!new)>(hash: K -> u32, bs: seq<Bucket<K>>, vals: seq<i32>, m: map<K, int>, live: nat)
    requires Holding(hash, bs, vals, m, live)
    ensures |vals| == |bs|
    ensures forall e: Entries<K> | Unique(e) && AsMap(e) == m :: Total(e) == Total(Cells(bs, vals, |bs|))
  {
    CellsMean(hash, bs, vals, m);
    forall e: Entries<K> | Unique(e) && AsMap(e) == m ensures Total(e) == Total(Cells(bs, vals, |bs|)) {
      TotalOrderFree(e, Cells(bs, vals, |bs|));
    }
  }

  lemma CellsNone<K>(bs: seq<Bucket<K>>, vals: seq<i32>)
    requires |bs| == |vals|
    ensures Total(Cells(bs, vals, 0)) == 0
  {
  }

  lemma CellStep<K>(bs: seq<Bucket<K>>, vals: seq<i32>, i: nat)
    requires i < |bs| == |vals|
    ensures Total(Cells(bs, vals, i + 1)) == Total(Cells(bs, vals, i)) + if bs[i].Holds? then vals[i] else 0
  {
    var m := Cells(bs, vals, i);
    if bs[i].Holds? {
      assert (m + [(bs[i].key, vals[i] as int)])[..|m|] == m;
    } else {
      assert Cells(bs, vals, i + 1) == m;
    }
  }

  lemma RemoveAbsent<K>(m: map<K, int>, key: K)
    requires key !in m
    ensures m - {key} == m
  {
  }

  class UnorderedMap<K(==,!new)> {
    const hash: K -> u32
    /** What each bucket's key hashes to. No hash is 0, so 0 says that the bucket is empty. */
    var hashes: array<u32>
    var keys: array<Option<K>>
    var values: array<i32>
    var mask: nat
    var live: nat
    /** The buckets the arrays spell, and the map they mean. */
    ghost var bs: seq<Bucket<K>>
    ghost var m: map<K, int>

    ghost predicate Spelled()
      reads this, hashes, keys
    {
      && hashes.Length == keys.Length == values.Length == |bs| == mask + 1 <= MAX_SLOTS && Pow2(|bs|)
      && values as object != hashes
      && (forall b | 0 <= b < |bs| :: Cell(hash, bs[b], hashes[b], keys[b]))
    }

    ghost predicate Valid()
      reads this, hashes, keys, values
    {
      Spelled() && NonZero(hash) && Holding(hash, bs, values[..], m, live) && Roomy(live, |bs|)
    }

    constructor (hash: K -> u32)
      requires NonZero(hash)
      ensures Valid() && fresh(hashes) && fresh(keys) && fresh(values)
      ensures this.hash == hash && m == map[] && live == 0 && hashes.Length == INITIAL_SLOTS
    {
      this.hash := hash;
      hashes := new u32[INITIAL_SLOTS](_ => 0);
      keys := new Option<K>[INITIAL_SLOTS](_ => None);
      values := new i32[INITIAL_SLOTS](_ => 0);
      mask := 7;
      live := 0;
      bs, m := seq(8, _ => Empty), map[];
      new;
      assert Pow2(8);
      TakenNone(bs);
    }

    /** Answers as the search over the buckets does, a miss as a negative number. The loop is only
        left by a return, so what follows it in the source is unreachable. */
    method Probe(key: K, h: u32) returns (r: int)
      requires Spelled() && h == hash(key) && HasEmpty(bs) && Reachable(hash, bs)
      ensures r >= 0 ==> Seek(hash, bs, key) == Hit(r)
      ensures r < 0 ==> Seek(hash, bs, key) == Miss(-1 - r)
    {
      hide Reachable, HasEmpty, Walk, Seek, Home, And, Pow2;
      SeekFinds(hash, bs, key);
      SeekIsWalk(hash, bs, key);
      var n := hashes.Length;
      var b := Home(h, mask);
      ghost var left: nat := n;
      r := 0;
      while 0 <= b < n
        invariant 0 <= b < n
        invariant Walk(bs, key, b, left) == Seek(hash, bs, key)
        decreases left
      {
        WalkStep(bs, key, b, left);
        var s := hashes[b];
        if s == 0 {
          return -1 - b;
        }
        if s == h && b < keys.Length {
          var k := keys[b];
          if k.Some? && k.value == key {
            return b;
          }
        }
        MaskNext(b, n);
        b := And(b + 1, mask);
        left := left - 1;
      }
    }

    method Get(key: K, missing: int) returns (v: int)
      requires Valid()
      ensures v == At(m, key, missing)
    {
      hide Holding, Free, Home, Pow2, NonZero, Cell;
      ProbeMeans(hash, bs, values[..], m, live, key);
      var b := Probe(key, hash(key));
      v := if b >= 0 && b < values.Length then values[b] else missing;
    }

    method Set(key: K, value: i32) returns (out: Outcome)
      requires Valid()
      modifies this, hashes, keys, values
      ensures hashes == old(hashes) || fresh(hashes)
      ensures keys == old(keys) || fresh(keys)
      ensures values == old(values) || fresh(values)
      ensures out.Panicked? <==> key !in old(m) && old(hashes.Length) == MAX_SLOTS
      ensures out.Done? ==> Valid() && m == old(m)[key := value]
      ensures out.Done? ==>
        hashes.Length == if key in old(m) then old(hashes.Length) else Widened(old(hashes.Length), live)
    {
      hide Holding, Free, Home, Pow2, NonZero, Cell;
      ProbeMeans(hash, bs, values[..], m, live, key);
      var b := Probe(key, hash(key));
      if b >= 0 {
        Overwrite(b, value);
        return Done;
      }
      out := InsertAt(-1 - b, key, hash(key), value);
    }

    /** Adds `delta` to the value of `key`, or inserts it at `delta`. */
    method Add(key: K, delta: i32) returns (out: Outcome)
      requires Valid()
      modifies this, hashes, keys, values
      ensures hashes == old(hashes) || fresh(hashes)
      ensures keys == old(keys) || fresh(keys)
      ensures values == old(values) || fresh(values)
      ensures out.Panicked? <==>
        if key in old(m) then !IsI32(old(m)[key] + delta) else old(hashes.Length) == MAX_SLOTS
      ensures out.Done? ==> Valid() && m == Raised(old(m), key, delta)
      ensures out.Done? ==>
        hashes.Length == if key in old(m) then old(hashes.Length) else Widened(old(hashes.Length), live)
    {
      hide Holding, Free, Home, Pow2, NonZero, Cell;
      ProbeMeans(hash, bs, values[..], m, live, key);
      var b := Probe(key, hash(key));
      if b >= 0 {
        var v: int := values[b];
        if !IsI32(v + delta) {
          return Panicked;
        }
        Overwrite(b, v + delta);
        return Done;
      }
      out := InsertAt(-1 - b, key, hash(key), delta);
    }

    method Overwrite(b: nat, value: i32)
      requires Valid() && Occupied(bs, b)
      modifies this`m, values
      ensures Valid() && m == old(m)[bs[b].key := value]
    {
      hide Holding, NonZero, Cell, Pow2;
      HoldingWrite(hash, bs, values[..], m, live, b, value);
      values[b] := value;
      m := m[bs[b].key := value];
      assert values[..] == old(values[..])[b := value];
    }

    method InsertAt(b: int, key: K, h: u32, value: i32) returns (out: Outcome)
      requires Valid() && h == hash(key) && b >= 0 && Free(hash, bs, b, key)
      modifies this, hashes, keys, values
      ensures hashes == old(hashes) || fresh(hashes)
      ensures keys == old(keys) || fresh(keys)
      ensures values == old(values) || fresh(values)
      ensures out.Panicked? <==> old(hashes.Length) == MAX_SLOTS
      ensures out.Done? ==> Valid() && m == old(m)[key := value]
      ensures out.Done? ==> live == old(live) + 1 && hashes.Length == Widened(old(hashes.Length), live)
    {
      hide Holding, NonZero, Cell, Free, Pow2, Home;
      HoldingInsert(hash, bs, values[..], m, live, b, key, value);
      assert h != 0 by {
        NonZeroHash(hash, key);
      }
      Write(b, Some(key), h, value);
      m := m[key := value];
      live := live + 1;
      if !IsI32(live * 4) || !IsI32(hashes.Length * 3) {
        return Panicked;
      }
      if live * 4 > hashes.Length * 3 {
        Grow();
      }
      out := Done;
    }

    /** Fills the empty bucket `b`. */
    method Write(b: nat, k: Option<K>, h: u32, value: i32)
      requires Spelled() && b < |bs| && k.Some? && h == hash(k.value) && h != 0
      modifies this`bs, hashes, keys, values
      ensures Spelled() && bs == old(bs)[b := Holds(k.value, 0)]
      ensures values[..] == old(values[..])[b := value]
    {
      hashes[b] := h;
      keys[b] := k;
      values[b] := value;
      bs := bs[b := Holds(k.value, 0)];
    }

    /** Double, filing every entry again by its stored hash. */
    method Grow()
      requires Spelled() && NonZero(hash) && Holding(hash, bs, values[..], m, live)
      requires |bs| * 2 <= MAX_SLOTS && 4 <= |bs| && live <= |bs|
      modifies this
      ensures fresh(hashes) && fresh(keys) && fresh(values)
      ensures Valid() && m == old(m) && hashes.Length == 2 * old(hashes.Length) && live == old(live)
    {
      hide NonZero, Holding, Copied, Means, Reachable, Cell, Pow2;
      var oldHashes, oldKeys, oldValues := hashes, keys, values;
      ghost var bs0, vals0 := bs, values[..];
      HoldingHas(hash, bs0, vals0, m, live);
      Widen();
      Refile(oldHashes, oldKeys, oldValues, bs0);
      CopyEnds(bs0, vals0, m, bs, values[..]);
      HoldingGrown(hash, bs0, vals0, bs, values[..], m, live);
    }

    /** Empty arrays of twice the size. */
    method Widen()
      requires Spelled() && |bs| * 2 <= MAX_SLOTS
      modifies this`hashes, this`keys, this`values, this`mask, this`bs
      ensures fresh(hashes) && fresh(keys) && fresh(values)
      ensures Spelled() && bs == seq(old(|bs|) * 2, _ => Empty)
    {
      var size := hashes.Length * 2;
      hashes := new u32[size](_ => 0);
      keys := new Option<K>[size](_ => None);
      values := new i32[size](_ => 0);
      mask := size - 1;
      bs := seq(size, _ => Empty);
    }

    /** The filing loop of `Grow`. */
    method Refile(oldHashes: array<u32>, oldKeys: array<Option<K>>, oldValues: array<i32>, ghost bs0: seq<Bucket<K>>)
      requires Spelled() && |bs0| < |bs| && bs == seq(|bs|, _ => Empty)
      requires oldHashes != hashes && oldKeys != keys && oldValues != values
      requires oldHashes as object != values && oldValues as object != hashes
      requires oldHashes.Length == oldKeys.Length == oldValues.Length == |bs0|
      requires forall b | 0 <= b < |bs0| :: Cell(hash, bs0[b], oldHashes[b], oldKeys[b])
      requires Reachable(hash, bs0) && Means(bs0, oldValues[..], m)
      modifies this`bs, hashes, keys, values
      ensures Spelled() && |bs| == old(|bs|) && Reachable(hash, bs) && Copied(bs0, m, bs, values[..], |bs0|)
    {
      hide Reachable, Copied, Means, Cell, PathTaken, Home, Pow2;
      ghost var vals0 := oldValues[..];
      CopyStarts(bs0, m, bs, values[..]);
      HoldingEmpty(hash, bs);
      for i := 0 to oldHashes.Length
        invariant Spelled() && |bs| == old(|bs|)
        invariant Reachable(hash, bs) && Copied(bs0, m, bs, values[..], i)
        invariant oldValues[..] == vals0
        invariant forall b | 0 <= b < |bs0| :: Cell(hash, bs0[b], oldHashes[b], oldKeys[b])
      {
        CellHash(hash, bs0[i], oldHashes[i], oldKeys[i]);
        var h := oldHashes[i];
        if h != 0 {
          CopyRoom(bs0, m, bs, values[..], i);
          var b := FindFree(Home(h, mask));
          CopyFiles(hash, bs0, vals0, m, bs, values[..], i, b);
          Write(b, oldKeys[i], h, oldValues[i]);
        } else {
          CopySkips(bs0, m, bs, values[..], i);
        }
      }
    }

    /** Adds up what the map holds, modulo 2^32; no order of its entries gives another answer. */
    method Sum() returns (total: u32)
      requires Valid()
      ensures forall e: Entries<K> | Unique(e) && AsMap(e) == m :: total == ToU32(Total(e))
    {
      hide Holding, Total, ToU32, Unique, AsMap, NonZero, Cell, Cells, Pow2;
      SumSpelled(hash, bs, values[..], m, live);
      total := SumCells();
    }

    /** The summing loop. */
    method SumCells() returns (total: u32)
      requires Spelled()
      ensures total == ToU32(Total(Cells(bs, values[..], |bs|)))
    {
      hide Total, ToU32, Cell, Cells, Pow2;
      ghost var vals: seq<i32> := values[..];
      CellsNone(bs, vals);
      ghost var sum: int := 0;
      total := ToU32(0);
      for i := 0 to hashes.Length
        invariant sum == Total(Cells(bs, vals, i)) && total == ToU32(sum)
      {
        CellStep(bs, vals, i);
        CellHash(hash, bs[i], hashes[i], keys[i]);
        if hashes[i] != 0 {
          WrapAdd(sum, values[i]);
          total := ToU32(total + ToU32(values[i]));
          sum := sum + values[i];
        }
      }
    }

    /** The first empty bucket from `h` on. */
    method FindFree(h: nat) returns (b: nat)
      requires Spelled() && HasEmpty(bs) && h < |bs|
      ensures b < |bs| && bs[b] == Empty && PathTaken(bs, h, b)
    {
      hide PathTaken, And, Pow2;
      PathHere(bs, h);
      b := h;
      ghost var e :| 0 <= e < |bs| && bs[e] == Empty;
      while b < hashes.Length && hashes[b] != 0
        invariant b < |bs| && PathTaken(bs, h, b)
        decreases Dist(b, e, |bs|)
      {
        PathStep(bs, h, b);
        MaskNext(b, |bs|);
        b := And(b + 1, mask);
      }
    }

    /** Deletion by shifting back. Exactly `key` goes, no bucket is lost to it, and every other key is
        still reachable from its home. */
    method Delete(key: K) returns (removed: bool)
      requires Valid()
      modifies this, hashes, keys, values
      ensures Valid() && hashes == old(hashes) && keys == old(keys) && values == old(values)
      ensures removed == (key in old(m)) && m == old(m) - {key}
    {
      hide Holding, Free, Home, And, Pow2, NonZero, Cell, Shifting, Means, Reachable, HasEmpty, Taken, Seek, Next;
      ProbeMeans(hash, bs, values[..], m, live, key);
      var hole := Probe(key, hash(key));
      if hole < 0 {
        RemoveAbsent(m, key);
        return false;
      }
      HoldingDelete(hash, bs, values[..], m, live, hole);
      m := m - {key};
      var last := Shift(hole);
      Erase(last);
      live := live - 1;
      HoldingShrunk(hash, bs, values[..], m, live);
      removed := true;
    }

    /** The shifting loop. The bucket it returns is the one to empty. */
    method Shift(start: nat) returns (hole: nat)
      requires Spelled() && HasEmpty(bs) && start < |bs| && Shifting(hash, bs, start, Next(start, |bs|))
      requires Means(bs[start := Empty], values[..], m)
      modifies this`bs, hashes, keys, values
      ensures Spelled() && |bs| == |old(bs)| && hole < |bs|
      ensures Reachable(hash, bs[hole := Empty]) && Taken(bs[hole := Empty]) == Taken(old(bs)) - 1
      ensures Means(bs[hole := Empty], values[..], m)
    {
      hide Shifting, Means, Reachable, Home, And, Pow2, Cell, Dist, OnWay;
      hole := start;
      MaskNext(hole, |bs|);
      var b: nat := And(hole + 1, mask);
      ghost var e :| 0 <= e < |bs| && bs[e] == Empty;
      while b < hashes.Length && hashes[b] != 0
        invariant Spelled() && |bs| == |old(bs)| && Taken(bs) == Taken(old(bs)) && bs[e] == Empty
        invariant hole < |bs| && b < |bs| && Shifting(hash, bs, hole, b) && Means(bs[hole := Empty], values[..], m)
        decreases Dist(b, e, |bs|)
      {
        CellHash(hash, bs[b], hashes[b], keys[b]);
        var want := Home(hashes[b], mask);
        MaskDist(want, b, |bs|);
        MaskDist(hole, b, |bs|);
        MayMove(hash, bs, hole, b);
        if And(b - want, mask) >= And(b - hole, mask) {
          ShiftMoves(hash, bs, hole, b);
          MoveMeans(bs, values[..], m, hole, b);
          Move(hole, b);
          hole := b;
        } else {
          ShiftPasses(hash, bs, hole, b);
        }
        NextCloser(b, e, |bs|);
        MaskNext(b, |bs|);
        b := And(b + 1, mask);
      }
      CellHash(hash, bs[b], hashes[b], keys[b]);
      ShiftEnds(hash, bs, hole, b);
    }

    /** Empties bucket `b`. */
    method Erase(b: nat)
      requires Spelled() && b < |bs|
      modifies this`bs, hashes, keys
      ensures Spelled() && bs == old(bs[b := Empty]) && values[..] == old(values[..])
    {
      hashes[b] := 0;
      keys[b] := None;
      bs := bs[b := Empty];
    }

    /** Copies bucket `b` over bucket `hole`. */
    method Move(hole: nat, b: nat)
      requires Spelled() && hole < |bs| && b < |bs|
      modifies this`bs, hashes, keys, values
      ensures Spelled() && bs == old(bs[hole := bs[b]]) && values[..] == old(values[..][hole := values[b]])
    {
      hashes[hole] := hashes[b];
      keys[hole] := keys[b];
      values[hole] := values[b];
      bs := bs[hole := bs[b]];
    }

  }

  /** A table at rest is not due to grow. */
  lemma AtRest<K(!new)>(t: UnorderedMap<K>)
    requires t.Valid()
    ensures t.live == |t.m| && Widened(t.hashes.Length, t.live) == t.hashes.Length
  {
  }
}
