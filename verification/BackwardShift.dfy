/** Deleting without tombstones: the later entries of the run move back until the hole can
    be emptied. What every step of the shift keeps, and why the end is a sound table. */
module BackwardShift {
  import opened Words
  import opened Probing
  import opened InsertionOrder

  /** The home of the entry in bucket `c`. */
  function Wants<K>(hash: K -> u32, bs: seq<Bucket<K>>, c: int): (h: nat)
    requires Occupied(bs, c)
    ensures h < |bs|
  {
    Home(hash(bs[c].key), |bs| - 1)
  }

  /** Bucket `x` lies on the way from `h` to `c`. */
  predicate OnWay(h: nat, x: nat, c: nat, n: nat) {
    Dist(h, x, n) < Dist(h, c, n)
  }

  /** Half-way through a deletion: `hole` holds a stale entry to be overwritten or emptied, and
      the buckets after it up to `b` were looked at. All other entries are reachable as the
      table stands, and those looked at do not need the hole. */
  ghost predicate Shifting<K>(hash: K -> u32, bs: seq<Bucket<K>>, hole: nat, b: nat) {
    && Pow2(|bs|) && hole < |bs| && b < |bs| && hole != b && bs[hole].Holds? && PathTaken(bs, hole, b)
    && (forall c | Occupied(bs, c) && c != hole :: PathTaken(bs, Wants(hash, bs, c), c))
    && (forall c, d | Occupied(bs, c) && Occupied(bs, d) && c != hole && d != hole && bs[c].key == bs[d].key :: c == d)
    && (forall c | Occupied(bs, c) && c != hole && Dist(hole, c, |bs|) < Dist(hole, b, |bs|) ::
          !OnWay(Wants(hash, bs, c), hole, c, |bs|))
  }

  lemma ShiftStarts<K>(hash: K -> u32, bs: seq<Bucket<K>>, hole: nat)
    requires Reachable(hash, bs) && Occupied(bs, hole) && |bs| >= 2
    ensures Shifting(hash, bs, hole, Next(hole, |bs|))
  {
    forall c | Occupied(bs, c) ensures PathTaken(bs, Wants(hash, bs, c), c) {
    }
  }

  /** The comparison of distances that `delete` makes answers whether the hole is on the entry's way. */
  lemma MayMove<K>(hash: K -> u32, bs: seq<Bucket<K>>, hole: nat, b: nat)
    requires Shifting(hash, bs, hole, b) && Occupied(bs, b)
    ensures hole != b
    ensures var want := Wants(hash, bs, b);
      Dist(want, b, |bs|) >= Dist(hole, b, |bs|) <==> OnWay(want, hole, b, |bs|)
  {
  }

  /** The entry at `b` moves into the hole and leaves the new one. */
  lemma ShiftMoves<K>(hash: K -> u32, bs: seq<Bucket<K>>, hole: nat, b: nat)
    requires Shifting(hash, bs, hole, b) && Occupied(bs, b) && OnWay(Wants(hash, bs, b), hole, b, |bs|)
    ensures Shifting(hash, bs[hole := bs[b]], b, Next(b, |bs|)) && Taken(bs[hole := bs[b]]) == Taken(bs)
    ensures forall e | 0 <= e < |bs| && bs[e] == Empty :: bs[hole := bs[b]][e] == Empty
  {
    hide Home, Pow2;
    var bs' := bs[hole := bs[b]];
    TakenUpdate(bs, hole, bs[b]);
    forall c | Occupied(bs', c) && c != b
      ensures PathTaken(bs', Wants(hash, bs', c), c)
    {
      if c != hole {
        assert PathTaken(bs, Wants(hash, bs, c), c);
      } else {
        assert PathTaken(bs, Wants(hash, bs, b), b);
      }
    }
    forall c, d | Occupied(bs', c) && Occupied(bs', d) && c != b && d != b && bs'[c].key == bs'[d].key
      ensures c == d
    {
      var c0, d0 := if c == hole then b else c, if d == hole then b else d;
      assert Occupied(bs, c0) && Occupied(bs, d0) && bs[c0].key == bs[d0].key;
    }
  }

  /** The entry at `b` stays. */
  lemma ShiftPasses<K>(hash: K -> u32, bs: seq<Bucket<K>>, hole: nat, b: nat)
    requires Shifting(hash, bs, hole, b) && HasEmpty(bs) && Occupied(bs, b)
    requires !OnWay(Wants(hash, bs, b), hole, b, |bs|)
    ensures Shifting(hash, bs, hole, Next(b, |bs|))
  {
    var e :| 0 <= e < |bs| && bs[e] == Empty;
    assert Dist(hole, e, |bs|) < |bs|;
    PathStep(bs, hole, b);
    forall c | Occupied(bs, c) && c != hole && Dist(hole, c, |bs|) < Dist(hole, Next(b, |bs|), |bs|)
      ensures !OnWay(Wants(hash, bs, c), hole, c, |bs|)
    {
      assert c != b ==> Dist(hole, c, |bs|) < Dist(hole, b, |bs|);
    }
  }

  /** At an empty bucket no entry needs the hole any more: emptying it keeps all reachable. */
  lemma ShiftEnds<K>(hash: K -> u32, bs: seq<Bucket<K>>, hole: nat, b: nat)
    requires Shifting(hash, bs, hole, b) && bs[b] == Empty
    ensures Reachable(hash, bs[hole := Empty])
    ensures Taken(bs[hole := Empty]) == Taken(bs) - 1
  {
    hide Home, Pow2;
    var bs' := bs[hole := Empty];
    TakenUpdate(bs, hole, Empty);
    forall c | Occupied(bs', c)
      ensures PathTaken(bs', Home(hash(bs'[c].key), |bs'| - 1), c)
    {
      assert Occupied(bs, c) && PathTaken(bs, Wants(hash, bs, c), c);
      assert Home(hash(bs'[c].key), |bs'| - 1) == Wants(hash, bs, c);
      assert !OnWay(Wants(hash, bs, c), b, c, |bs|);
      assert !OnWay(Wants(hash, bs, c), hole, c, |bs|);
    }
    forall c, d | Occupied(bs', c) && Occupied(bs', d) && bs'[c].key == bs'[d].key
      ensures c == d
    {
      assert Occupied(bs, c) && Occupied(bs, d);
    }
  }

  // ---- What the table means ----

  /** The table holds exactly the map `m`, its values in `vals`. */
  ghost predicate Means<K>(bs: seq<Bucket<K>>, vals: seq<i32>, m: map<K, int>) {
    && |vals| == |bs|
    && (forall b | Occupied(bs, b) :: bs[b].key in m && m[bs[b].key] == vals[b])
    && (forall k | k in m :: !Absent(bs, k))
  }

  /** Moving an entry from `b` to the empty `hole` changes nothing the table means. */
  lemma MoveMeans<K>(bs: seq<Bucket<K>>, vals: seq<i32>, m: map<K, int>, hole: nat, b: nat)
    requires hole < |bs| && b < |bs| && hole != b && Occupied(bs, b)
    requires Means(bs[hole := Empty], vals, m)
    ensures Means(bs[hole := bs[b]][b := Empty], vals[hole := vals[b]], m)
  {
    var bs1, bs2 := bs[hole := Empty], bs[hole := bs[b]][b := Empty];
    forall c | Occupied(bs2, c) ensures bs2[c].key in m && m[bs2[c].key] == vals[hole := vals[b]][c] {
      assert Occupied(bs1, if c == hole then b else c);
    }
    forall k | k in m ensures !Absent(bs2, k) {
      var c :| Occupied(bs1, c) && bs1[c].key == k;
      assert Occupied(bs2, if c == b then hole else c);
    }
  }

  /** Emptying the bucket of `key` removes it from the map, and only it. */
  lemma EmptyMeans<K>(hash: K -> u32, bs: seq<Bucket<K>>, vals: seq<i32>, m: map<K, int>, hole: nat)
    requires Means(bs, vals, m) && Occupied(bs, hole) && Reachable(hash, bs)
    ensures Means(bs[hole := Empty], vals, m - {bs[hole].key})
  {
    var bs' := bs[hole := Empty];
    forall c | Occupied(bs', c) ensures bs'[c].key in m - {bs[hole].key} && m[bs'[c].key] == vals[c] {
      assert Occupied(bs, c);
    }
    forall k | k in m - {bs[hole].key} ensures !Absent(bs', k) {
      var c :| Occupied(bs, c) && bs[c].key == k;
      assert Occupied(bs', c);
    }
  }

  lemma FileMeans<K>(bs: seq<Bucket<K>>, vals: seq<i32>, m: map<K, int>, b: nat, key: K, value: i32)
    requires Means(bs, vals, m) && b < |bs| && bs[b] == Empty && Absent(bs, key)
    ensures key !in m && Means(bs[b := Holds(key, 0)], vals[b := value], m[key := value])
  {
    var bs' := bs[b := Holds(key, 0)];
    forall k | k in m[key := value] ensures !Absent(bs', k) {
      if k == key {
        assert Occupied(bs', b);
      } else {
        var c :| Occupied(bs, c) && bs[c].key == k;
        assert Occupied(bs', c);
      }
    }
    forall c | Occupied(bs', c) ensures bs'[c].key in m[key := value] && m[key := value][bs'[c].key] == vals[b := value][c] {
      assert c != b ==> Occupied(bs, c);
    }
  }

  lemma WriteMeans<K>(hash: K -> u32, bs: seq<Bucket<K>>, vals: seq<i32>, m: map<K, int>, b: nat, value: i32)
    requires Means(bs, vals, m) && Reachable(hash, bs) && Occupied(bs, b)
    ensures bs[b].key in m && Means(bs, vals[b := value], m[bs[b].key := value])
  {
    forall k | k in m[bs[b].key := value] ensures !Absent(bs, k) {
    }
  }

  // ---- Filing everything again in a larger table ----

  /** The entries of the first `i` buckets of `bs0` are in `bs` with their values, the others are not. */
  ghost predicate Copied<K>(bs0: seq<Bucket<K>>, m: map<K, int>, bs: seq<Bucket<K>>, vals: seq<i32>, i: nat) {
    && i <= |bs0| && |vals| == |bs| && Taken(bs) == Taken(bs0[..i])
    && (forall b | Occupied(bs, b) :: bs[b].key in m && m[bs[b].key] == vals[b])
    && (forall c | Occupied(bs0, c) && c < i :: !Absent(bs, bs0[c].key))
    && (forall c | Occupied(bs0, c) && i <= c :: Absent(bs, bs0[c].key))
  }

  lemma CopyStarts<K>(bs0: seq<Bucket<K>>, m: map<K, int>, bs: seq<Bucket<K>>, vals: seq<i32>)
    requires |vals| == |bs| && forall b | 0 <= b < |bs| :: bs[b] == Empty
    ensures Copied(bs0, m, bs, vals, 0)
  {
    TakenNone(bs);
  }

  lemma CopySkips<K>(bs0: seq<Bucket<K>>, m: map<K, int>, bs: seq<Bucket<K>>, vals: seq<i32>, i: nat)
    requires Copied(bs0, m, bs, vals, i) && i < |bs0| && bs0[i] == Empty
    ensures Copied(bs0, m, bs, vals, i + 1)
  {
    assert bs0[..i + 1][..i] == bs0[..i];
  }

  /** Half of the new table at least stays empty. */
  lemma CopyRoom<K>(bs0: seq<Bucket<K>>, m: map<K, int>, bs: seq<Bucket<K>>, vals: seq<i32>, i: nat)
    requires Copied(bs0, m, bs, vals, i) && |bs0| < |bs|
    ensures HasEmpty(bs)
  {
    NotAllTaken(bs);
  }

  lemma CopyFiles<K>(hash: K -> u32, bs0: seq<Bucket<K>>, vals0: seq<i32>, m: map<K, int>,
                     bs: seq<Bucket<K>>, vals: seq<i32>, i: nat, b: nat)
    requires Copied(bs0, m, bs, vals, i) && Occupied(bs0, i) && Means(bs0, vals0, m)
    requires Reachable(hash, bs0) && Reachable(hash, bs)
    requires b < |bs| && bs[b] == Empty && PathTaken(bs, Home(hash(bs0[i].key), |bs| - 1), b)
    ensures Reachable(hash, bs[b := Holds(bs0[i].key, 0)])
    ensures Copied(bs0, m, bs[b := Holds(bs0[i].key, 0)], vals[b := vals0[i]], i + 1)
  {
    hide Home, Pow2, PathTaken;
    var key := bs0[i].key;
    var bs' := bs[b := Holds(key, 0)];
    FileKeeps(hash, bs, b, key, 0);
    assert bs0[..i + 1][..i] == bs0[..i];
    forall c | Occupied(bs', c) ensures bs'[c].key in m && m[bs'[c].key] == vals[b := vals0[i]][c] {
      assert c != b ==> Occupied(bs, c);
    }
    forall c | Occupied(bs0, c) && c < i + 1 ensures !Absent(bs', bs0[c].key) {
      if c == i {
        assert Occupied(bs', b);
      } else {
        var d :| Occupied(bs, d) && bs[d].key == bs0[c].key;
        assert Occupied(bs', d);
      }
    }
    forall c | Occupied(bs0, c) && i + 1 <= c ensures Absent(bs', bs0[c].key) {
      forall d | Occupied(bs', d) ensures bs'[d].key != bs0[c].key {
        assert d != b ==> Occupied(bs, d);
      }
    }
  }

  lemma CopyEnds<K>(bs0: seq<Bucket<K>>, vals0: seq<i32>, m: map<K, int>, bs: seq<Bucket<K>>, vals: seq<i32>)
    requires Copied(bs0, m, bs, vals, |bs0|) && Means(bs0, vals0, m)
    ensures Means(bs, vals, m) && Taken(bs) == Taken(bs0)
  {
    assert bs0[..|bs0|] == bs0;
    forall k | k in m ensures !Absent(bs, k) {
      var c :| Occupied(bs0, c) && bs0[c].key == k;
      assert !Absent(bs, bs0[c].key);
    }
  }

  // ---- The entries in bucket order ----

  /** The entries of the first `i` buckets. */
  function Cells<K>(bs: seq<Bucket<K>>, vals: seq<i32>, i: nat): Entries<K>
    requires i <= |bs| == |vals|
  {
    if i == 0 then []
    else Cells(bs, vals, i - 1) + if bs[i - 1].Holds? then [(bs[i - 1].key, vals[i - 1] as int)] else []
  }

  ghost predicate AbsentBefore<K>(bs: seq<Bucket<K>>, key: K, i: nat) {
    forall b | Occupied(bs, b) && b < i :: bs[b].key != key
  }

  /** What is known of the first `i` buckets read in order: each key once, with its value. */
  ghost predicate ReadSoFar<K>(bs: seq<Bucket<K>>, vals: seq<i32>, e: Entries<K>, i: nat)
    requires |bs| == |vals|
  {
    && Unique(e)
    && (forall b | Occupied(bs, b) && b < i :: bs[b].key in AsMap(e) && AsMap(e)[bs[b].key] == vals[b])
    && (forall k | k in AsMap(e) :: !AbsentBefore(bs, k, i))
  }

  lemma CellsStep<K>(bs: seq<Bucket<K>>, vals: seq<i32>, i: nat)
    requires i <= |bs| == |vals|
    ensures i == 0 ==> Cells(bs, vals, i) == []
    ensures i > 0 && !bs[i - 1].Holds? ==> Cells(bs, vals, i) == Cells(bs, vals, i - 1)
    ensures i > 0 && bs[i - 1].Holds? ==>
      Cells(bs, vals, i) == Cells(bs, vals, i - 1) + [(bs[i - 1].key, vals[i - 1] as int)]
  {
  }

  lemma ReadNone<K>(bs: seq<Bucket<K>>, vals: seq<i32>)
    requires |bs| == |vals|
    ensures ReadSoFar(bs, vals, [], 0)
  {
  }

  lemma KeyOnce<K>(hash: K -> u32, bs: seq<Bucket<K>>, b: nat)
    requires Reachable(hash, bs) && Occupied(bs, b)
    ensures AbsentBefore(bs, bs[b].key, b)
  {
  }

  lemma ReadSkips<K>(bs: seq<Bucket<K>>, vals: seq<i32>, e: Entries<K>, i: nat)
    requires i < |bs| == |vals| && !bs[i].Holds? && ReadSoFar(bs, vals, e, i)
    ensures ReadSoFar(bs, vals, e, i + 1)
  {
    hide Unique, AsMap;
    forall k | k in AsMap(e) ensures !AbsentBefore(bs, k, i + 1) {
      assert !AbsentBefore(bs, k, i);
    }
  }

  lemma UniquePush<K>(e: Entries<K>, key: K, value: int)
    requires Unique(e) && Find(e, key) < 0
    ensures Unique(e + [(key, value)])
  {
  }

  lemma AsMapPush<K>(e: Entries<K>, key: K, value: int)
    ensures AsMap(e + [(key, value)]) == AsMap(e)[key := value]
  {
    assert (e + [(key, value)])[..|e|] == e;
  }

  lemma ReadHeld<K>(bs: seq<Bucket<K>>, vals: seq<i32>, e: Entries<K>, i: nat)
    requires i < |bs| == |vals| && Occupied(bs, i) && AbsentBefore(bs, bs[i].key, i) && ReadSoFar(bs, vals, e, i)
    ensures ReadSoFar(bs, vals, e + [(bs[i].key, vals[i] as int)], i + 1)
  {
    var key, more := bs[i].key, e + [(bs[i].key, vals[i] as int)];
    assert key !in AsMap(e);
    AsMapLookup(e, key);
    UniquePush(e, key, vals[i]);
    AsMapPush(e, key, vals[i]);
    hide Unique, AsMap, Find;
    forall k | k in AsMap(more) ensures !AbsentBefore(bs, k, i + 1) {
      assert k != key ==> !AbsentBefore(bs, k, i);
    }
  }

  lemma {:induction false} CellsAre<K>(hash: K -> u32, bs: seq<Bucket<K>>, vals: seq<i32>, i: nat)
    requires i <= |bs| == |vals| && Reachable(hash, bs)
    ensures ReadSoFar(bs, vals, Cells(bs, vals, i), i)
  {
    hide Reachable, ReadSoFar, Unique, Cells, AsMap, Find, AbsentBefore;
    CellsStep(bs, vals, i);
    if i == 0 {
      ReadNone(bs, vals);
    } else {
      CellsAre(hash, bs, vals, i - 1);
      if bs[i - 1].Holds? {
        KeyOnce(hash, bs, i - 1);
        ReadHeld(bs, vals, Cells(bs, vals, i - 1), i - 1);
      } else {
        ReadSkips(bs, vals, Cells(bs, vals, i - 1), i - 1);
      }
    }
  }

  /** Read in bucket order the table is its map. */
  lemma CellsMean<K>(hash: K -> u32, bs: seq<Bucket<K>>, vals: seq<i32>, m: map<K, int>)
    requires Reachable(hash, bs) && Means(bs, vals, m)
    ensures Unique(Cells(bs, vals, |bs|)) && AsMap(Cells(bs, vals, |bs|)) == m
  {
    CellsAre(hash, bs, vals, |bs|);
    hide AsMap, Cells, Unique, Reachable;
    var a := AsMap(Cells(bs, vals, |bs|));
    forall k | k in a || k in m ensures k in a && k in m && a[k] == m[k] {
      assert k in a ==> !AbsentBefore(bs, k, |bs|);
      assert k in m ==> !Absent(bs, k);
      var b :| Occupied(bs, b) && bs[b].key == k;
    }
  }
}
