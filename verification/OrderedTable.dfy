/** The three insertion-ordered layouts share one idea: a bucket table that
    points into parallel entry arrays. This module states when the two agree
    and proves that each write keeps them agreeing and means what the
    insertion-ordered map says it means. */
module OrderedTable {
  import opened Words
  import opened Probing
  import opened InsertionOrder
  import opened LoadPolicy

  /** Bucket `b` points at entry `at`: the entry is live and filed there. */
  ghost predicate Backed(where: seq<nat>, alive: seq<bool>, at: nat, b: int) {
    at < |where| && at < |alive| && alive[at] && where[at] == b
  }

  /** `bs` files exactly the live entries, entry `i` in bucket `where[i]`, and
      one bucket is taken for every entry appended, live or dead. */
  ghost predicate Filed<K>(hash: K -> u32, bs: seq<Bucket<K>>, where: seq<nat>, keys: seq<K>, alive: seq<bool>) {
    && |where| == |keys| == |alive|
    && Reachable(hash, bs)
    && Taken(bs) == |keys|
    && (forall i | 0 <= i < |keys| && alive[i] :: where[i] < |bs| && bs[where[i]] == Holds(keys[i], i))
    && (forall b | Occupied(bs, b) :: Backed(where, alive, bs[b].at, b))
  }

  /** Every bucket in use points at a live entry with its key. */
  ghost predicate Points<K>(bs: seq<Bucket<K>>, keys: seq<K>, alive: seq<bool>) {
    forall b | Occupied(bs, b) ::
      bs[b].at < |keys| == |alive| && alive[bs[b].at] && keys[bs[b].at] == bs[b].key
  }

  /** At most three quarters of the buckets are taken. */
  predicate Roomy(used: nat, n: nat) {
    8 <= n && 4 * used <= 3 * n
  }

  lemma EmptyTable<K>(hash: K -> u32, bs: seq<Bucket<K>>)
    requires Pow2(|bs|) && forall b | 0 <= b < |bs| :: bs[b] == Empty
    ensures Filed(hash, bs, [], [], [])
  {
    TakenNone(bs);
  }

  lemma FiledDistinct<K>(hash: K -> u32, bs: seq<Bucket<K>>, where: seq<nat>, keys: seq<K>, alive: seq<bool>)
    requires Filed(hash, bs, where, keys, alive)
    ensures DistinctLive(keys, alive)
  {
    forall i, j | 0 <= i < j < |keys| && alive[i] && alive[j] ensures keys[i] != keys[j] {
      assert Occupied(bs, where[i]) && Occupied(bs, where[j]);
    }
  }

  /** Appending an entry and pointing the empty bucket the probe stopped at to it. */
  lemma FiledPush<K>(hash: K -> u32, bs: seq<Bucket<K>>, where: seq<nat>, keys: seq<K>, alive: seq<bool>,
                     b: nat, key: K)
    requires Filed(hash, bs, where, keys, alive) && Absent(bs, key)
    requires b < |bs| && bs[b] == Empty && PathTaken(bs, Home(hash(key), |bs| - 1), b)
    ensures Filed(hash, bs[b := Holds(key, |keys|)], where + [b], keys + [key], alive + [true])
  {
    FileKeeps(hash, bs, b, key, |keys|);
    var bs' := bs[b := Holds(key, |keys|)];
    forall c | Occupied(bs', c)
      ensures Backed(where + [b], alive + [true], bs'[c].at, c)
    {
      if c != b {
        assert Occupied(bs, c);
      }
    }
  }

  /** Deleting: a tombstone in the entry's bucket, and the entry dead. */
  lemma FiledBury<K>(hash: K -> u32, bs: seq<Bucket<K>>, where: seq<nat>, keys: seq<K>, alive: seq<bool>, b: nat)
    requires Filed(hash, bs, where, keys, alive) && Occupied(bs, b)
    ensures Filed(hash, bs[b := Tomb], where, keys, alive[bs[b].at := false])
  {
    BuryKeeps(hash, bs, b);
    forall c | Occupied(bs[b := Tomb], c)
      ensures Backed(where, alive[bs[b].at := false], bs[c].at, c)
    {
      assert Occupied(bs, c) && Backed(where, alive, bs[c].at, c) && Backed(where, alive, bs[b].at, b);
    }
  }

  lemma {:induction false} RankBury(alive: seq<bool>, i: nat, n: nat)
    requires i < |alive| && alive[i] && n <= |alive|
    ensures Rank(alive[i := false], n) == Rank(alive, n) - if i < n then 1 else 0
  {
    if n > 0 {
      RankBury(alive, i, n - 1);
    }
  }

  /** What a layout's probe returns for the answer `a`: the entry's index, its bucket in
      `found`, or the empty bucket as a negative number. */
  ghost predicate Probed<K>(a: Answer, bs: seq<Bucket<K>>, r: int, found: nat) {
    match a
    case Hit(b) => found == b && Occupied(bs, b) && r == bs[b].at
    case Miss(b) => r == -1 - b
    case Stuck => false
  }

  // ---- The whole table as one value ----

  /** A table: its buckets, where each entry is filed, the entry arrays, and its history. */
  datatype Table<K> = Table(bs: seq<Bucket<K>>, where: seq<nat>,
                                  keys: seq<K>, values: seq<i32>, alive: seq<bool>, load: Load)

  /** The buckets and the entries agree. */
  ghost predicate Indexed<K>(hash: K -> u32, t: Table<K>) {
    && |t.keys| == |t.values| == |t.alive|
    && Filed(hash, t.bs, t.where, t.keys, t.alive)
  }

  /** ... and there is room left, so every probe answers. */
  ghost predicate Usable<K>(hash: K -> u32, t: Table<K>) {
    Indexed(hash, t) && Roomy(|t.keys|, |t.bs|)
  }

  ghost predicate Counted<K>(t: Table<K>) {
    t.load.slots == |t.bs| && t.load.used == |t.keys| && t.load.live == Rank(t.alive, |t.alive|)
  }

  /** The table's size is what its history says, and that history is sound. */
  ghost predicate Tracked<K>(t: Table<K>) {
    Counted(t) && Sound(t.load)
  }

  /** What a table means: its live entries, oldest first. */
  ghost function Meaning<K>(t: Table<K>): Entries<K> {
    if |t.keys| == |t.values| == |t.alive| then Pairs(t.keys, t.values, t.alive) else []
  }

  lemma UsablePoints<K>(hash: K -> u32, t: Table<K>)
    requires Usable(hash, t)
    ensures Reachable(hash, t.bs) && HasEmpty(t.bs)
    ensures Points(t.bs, t.keys, t.alive) && |t.keys| <= |t.bs|
  {
    hide Rank;
    NotAllTaken(t.bs);
    forall b | Occupied(t.bs, b)
      ensures t.bs[b].at < |t.keys| && t.alive[t.bs[b].at] && t.keys[t.bs[b].at] == t.bs[b].key
    {
      assert Backed(t.where, t.alive, t.bs[b].at, b);
    }
  }

  /** Entry `at` is the live one of `key`, and the map has it at its rank. */
  ghost predicate Owns<K>(t: Table<K>, at: nat, key: K) {
    && at < |t.keys| == |t.values| == |t.alive| && t.alive[at] && t.keys[at] == key
    && Rank(t.alive, at) < |Meaning(t)|
    && Find(Meaning(t), key) == Rank(t.alive, at)
    && Meaning(t)[Rank(t.alive, at)] == (key, t.values[at] as int)
  }

  lemma LiveOwned<K>(hash: K -> u32, t: Table<K>, at: nat)
    requires Indexed(hash, t) && at < |t.keys| && t.alive[at]
    ensures Owns(t, at, t.keys[at])
  {
    FiledDistinct(hash, t.bs, t.where, t.keys, t.alive);
    PairsFind(t.keys, t.values, t.alive, t.keys[at]);
    PairsAt(t.keys, t.values, t.alive);
  }

  lemma AbsentUnknown<K>(hash: K -> u32, t: Table<K>, key: K)
    requires Indexed(hash, t) && Absent(t.bs, key)
    ensures Find(Meaning(t), key) < 0
  {
    FiledDistinct(hash, t.bs, t.where, t.keys, t.alive);
    PairsFind(t.keys, t.values, t.alive, key);
    forall i | 0 <= i < |t.keys| && t.alive[i] ensures t.keys[i] != key {
      assert Occupied(t.bs, t.where[i]);
    }
  }

  /** Bucket `b` is the empty one a new `key` belongs in. */
  ghost predicate Vacant<K>(hash: K -> u32, t: Table<K>, b: nat, key: K) {
    && b < |t.bs| && t.bs[b] == Empty && Absent(t.bs, key)
    && PathTaken(t.bs, Home(hash(key), |t.bs| - 1), b)
  }

  /** A probe of a usable table answers, and truly: it hits the live entry of `key`, or
      stops at an empty bucket when the map has no such key. */
  lemma UsableProbe<K>(hash: K -> u32, t: Table<K>, key: K)
    requires Usable(hash, t)
    ensures Points(t.bs, t.keys, t.alive) && |t.keys| <= |t.bs|
    ensures var a := Seek(hash, t.bs, key);
      && Walk(t.bs, key, Home(hash(key), |t.bs| - 1), |t.bs|) == a
      && !a.Stuck?
      && (a.Hit? ==> Occupied(t.bs, a.bucket) && Owns(t, t.bs[a.bucket].at, key))
      && (a.Miss? ==> Vacant(hash, t, a.bucket, key) && Find(Meaning(t), key) < 0)
  {
    hide Filed, Owns, Find, Pairs, Rank, Absent, PathTaken;
    UsablePoints(hash, t);
    SeekFinds(hash, t.bs, key);
    var a := Seek(hash, t.bs, key);
    if a.Hit? {
      LiveOwned(hash, t, t.bs[a.bucket].at);
    } else {
      AbsentUnknown(hash, t, key);
    }
  }

  lemma IndexedUsable<K>(hash: K -> u32, t: Table<K>)
    requires Indexed(hash, t) && Roomy(|t.keys|, |t.bs|)
    ensures Usable(hash, t)
  {
  }

  lemma IndexedUnique<K>(hash: K -> u32, t: Table<K>)
    requires Indexed(hash, t)
    ensures Unique(Meaning(t))
  {
    FiledDistinct(hash, t.bs, t.where, t.keys, t.alive);
    if t.keys != [] {
      PairsFind(t.keys, t.values, t.alive, t.keys[0]);
    }
  }

  ghost function Overwritten<K>(t: Table<K>, at: nat, value: i32): Table<K>
    requires at < |t.values|
  {
    t.(values := t.values[at := value])
  }

  lemma OverwrittenMeans<K>(hash: K -> u32, t: Table<K>, at: nat, key: K, value: i32)
    requires Usable(hash, t) && Owns(t, at, key)
    ensures Usable(hash, Overwritten(t, at, value))
    ensures Tracked(t) ==> Tracked(Overwritten(t, at, value))
    ensures Meaning(Overwritten(t, at, value)) == Put(Meaning(t), key, value)
  {
    PairsOverwrite(t.keys, t.values, t.alive, at, value);
  }

  ghost function Pushed<K>(t: Table<K>, b: nat, key: K, value: i32): Table<K>
    requires b < |t.bs|
  {
    Table(t.bs[b := Holds(key, |t.keys|)], t.where + [b],
          t.keys + [key], t.values + [value], t.alive + [true], Appended(t.load))
  }

  lemma PushedMeans<K>(hash: K -> u32, t: Table<K>, b: nat, key: K, value: i32)
    requires Usable(hash, t) && Vacant(hash, t, b, key) && Find(Meaning(t), key) < 0
    ensures b < |t.bs| && Roomy(|t.keys|, |t.bs|) && |t.values| == |t.keys| == |t.alive|
    ensures Indexed(hash, Pushed(t, b, key, value))
    ensures Meaning(Pushed(t, b, key, value)) == Put(Meaning(t), key, value)
  {
    hide Filed, Pairs, Find, Absent, PathTaken;
    FiledPush(hash, t.bs, t.where, t.keys, t.alive, b, key);
    PairsPush(t.keys, t.values, t.alive, key, value);
  }

  /** An append either leaves room or calls for a rebuild that will make it. */
  lemma PushedFits<K>(hash: K -> u32, t: Table<K>, b: nat, key: K, value: i32)
    requires Tracked(t) && b < |t.bs| && |t.values| == |t.keys| == |t.alive|
    ensures var p := Pushed(t, b, key, value);
      && Counted(p) && Sound(t.load) && t.load.slots == |t.bs| && t.load.used == |t.keys|
      && if Full(p.load) then Sound(Rebuilt(p.load))
         else Tracked(p) && (Indexed(hash, p) ==> Usable(hash, p))
  {
    hide Filed;
    SoundInsert(t.load);
    RankPrefix(t.alive, t.alive + [true], |t.alive|);
  }

  ghost function Buried<K>(t: Table<K>, b: nat): Table<K>
    requires Occupied(t.bs, b) && t.bs[b].at < |t.alive| && t.load.live > 0
  {
    t.(bs := t.bs[b := Tomb], alive := t.alive[t.bs[b].at := false], load := Delete(t.load))
  }

  lemma BuriedMeans<K>(hash: K -> u32, t: Table<K>, b: nat, key: K)
    requires Usable(hash, t) && Tracked(t) && Occupied(t.bs, b) && Owns(t, t.bs[b].at, key)
    ensures t.load.live > 0 && Usable(hash, Buried(t, b)) && Tracked(Buried(t, b))
    ensures Meaning(Buried(t, b)) == Remove(Meaning(t), key)
  {
    var at := t.bs[b].at;
    PairsAt(t.keys, t.values, t.alive);
    RankBury(t.alive, at, |t.alive|);
    FiledBury(hash, t.bs, t.where, t.keys, t.alive, b);
    PairsBury(t.keys, t.values, t.alive, at);
  }

  function AllLive(n: nat): (alive: seq<bool>)
    ensures |alive| == n && forall i | 0 <= i < n :: alive[i]
  {
    seq(n, _ => true)
  }

  /** The entry arrays hold exactly `m`. */
  ghost predicate Spells<K>(m: Entries<K>, keys: seq<K>, values: seq<i32>) {
    && |keys| == |values| == |m|
    && forall i | 0 <= i < |m| :: keys[i] == m[i].0 && values[i] == m[i].1
  }

  /** The next entry to file again is not in the table yet. */
  lemma RefileFresh<K>(hash: K -> u32, bs: seq<Bucket<K>>, where: seq<nat>, m: Entries<K>, keys: seq<K>, i: nat)
    requires |keys| == |m| && (forall j | 0 <= j < |m| :: keys[j] == m[j].0) && Unique(m) && i < |keys|
    requires Filed(hash, bs, where, keys[..i], AllLive(i))
    ensures Absent(bs, keys[i])
  {
    forall b | Occupied(bs, b) ensures bs[b].key != keys[i] {
      assert Backed(where, AllLive(i), bs[b].at, b);
      assert bs[b].key == keys[..i][bs[b].at] == m[bs[b].at].0;
      assert m[i].0 == keys[i];
    }
  }

  /** Filing entry `i` again in the first empty bucket from its home on. */
  lemma RefileStep<K>(hash: K -> u32, bs: seq<Bucket<K>>, where: seq<nat>, m: Entries<K>, keys: seq<K>, i: nat, b: nat)
    requires |keys| == |m| && (forall j | 0 <= j < |m| :: keys[j] == m[j].0) && Unique(m) && i < |keys|
    requires Filed(hash, bs, where, keys[..i], AllLive(i))
    requires b < |bs| && bs[b] == Empty && PathTaken(bs, Home(hash(keys[i]), |bs| - 1), b)
    ensures Filed(hash, bs[b := Holds(keys[i], i)], where + [b], keys[..i + 1], AllLive(i + 1))
  {
    RefileFresh(hash, bs, where, m, keys, i);
    FiledPush(hash, bs, where, keys[..i], AllLive(i), b, keys[i]);
    assert keys[..i + 1] == keys[..i] + [keys[i]];
    assert AllLive(i + 1) == AllLive(i) + [true];
  }

  lemma FiledRoom<K>(hash: K -> u32, bs: seq<Bucket<K>>, where: seq<nat>, keys: seq<K>, alive: seq<bool>)
    requires Filed(hash, bs, where, keys, alive) && |keys| < |bs|
    ensures HasEmpty(bs)
  {
    NotAllTaken(bs);
  }

  lemma {:induction false} RankLength(alive: seq<bool>, i: nat)
    requires i <= |alive|
    ensures Rank(alive, i) <= i
  {
    if i > 0 {
      RankLength(alive, i - 1);
    }
  }

  /** A rebuild has room for every live entry. */
  lemma RebuildRoom<K>(hash: K -> u32, t: Table<K>)
    requires Indexed(hash, t) && Counted(t) && Sound(Rebuilt(t.load))
    ensures Unique(Meaning(t)) && |Meaning(t)| <= |t.keys|
    ensures |Meaning(t)| < RebuiltSlots(t.load) && Pow2(RebuiltSlots(t.load))
    ensures t.load.slots == |t.bs| && t.load.live <= t.load.used == |t.keys| <= |t.bs|
    ensures |t.keys| == |t.values| == |t.alive|
  {
    IndexedUnique(hash, t);
    PairsAt(t.keys, t.values, t.alive);
    RankLength(t.alive, |t.alive|);
  }

  /** Once every live entry is filed again the rebuilt table is sane and means what it meant. */
  lemma RebuiltMeans<K>(hash: K -> u32, t: Table<K>, r: Table<K>)
    requires Indexed(hash, t) && Counted(t) && Sound(Rebuilt(t.load))
    requires Spells(Meaning(t), r.keys, r.values) && r.alive == AllLive(|r.keys|)
    requires Filed(hash, r.bs, r.where, r.keys, r.alive) && |r.bs| == RebuiltSlots(t.load)
    requires r.load == Rebuilt(t.load)
    ensures Usable(hash, r) && Tracked(r) && Meaning(r) == Meaning(t)
  {
    PairsAt(t.keys, t.values, t.alive);
    PairsWhole(Meaning(t), r.keys, r.values, r.alive);
    PairsAt(r.keys, r.values, r.alive);
  }
}
