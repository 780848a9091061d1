/** What an insertion-ordered table means: its live entries, oldest first. */
module InsertionOrder {
  import opened Words

  type Entries<K> = seq<(K, int)>

  /** The position of `key`, or -1. */
  function Find<K(==)>(m: Entries<K>, key: K): (i: int)
    ensures -1 <= i < |m|
    ensures i >= 0 ==> m[i].0 == key
    ensures i < 0 ==> forall j | 0 <= j < |m| :: m[j].0 != key
  {
    if m == [] then -1
    else if m[|m| - 1].0 == key then |m| - 1
    else Find(m[..|m| - 1], key)
  }

  ghost predicate Unique<K>(m: Entries<K>) {
    forall i, j | 0 <= i < j < |m| :: m[i].0 != m[j].0
  }

  function Lookup<K(==)>(m: Entries<K>, key: K, missing: int): int {
    var i := Find(m, key);
    if i < 0 then missing else m[i].1
  }

  /** Overwrite in place, or append. */
  function Put<K(==)>(m: Entries<K>, key: K, value: int): Entries<K> {
    var i := Find(m, key);
    if i < 0 then m + [(key, value)] else m[i := (key, value)]
  }

  function Bump<K(==)>(m: Entries<K>, key: K, delta: int): Entries<K> {
    Put(m, key, Lookup(m, key, 0) + delta)
  }

  function Remove<K(==)>(m: Entries<K>, key: K): Entries<K> {
    var i := Find(m, key);
    if i < 0 then m else m[..i] + m[i + 1..]
  }

  /** The sum of the values. */
  function Total<K>(m: Entries<K>): int {
    if m == [] then 0 else Total(m[..|m| - 1]) + m[|m| - 1].1
  }

  // ---- It is a finite map that remembers the order keys came in ----

  lemma FindUnique<K>(m: Entries<K>, i: nat)
    requires Unique(m) && i < |m|
    ensures Find(m, m[i].0) == i
  {
  }

  lemma FindRange<K>(m: Entries<K>, key: K)
    ensures Find(m, key) >= -1
  {
  }

  lemma PutLaws<K>(m: Entries<K>, key: K, value: int, other: K, missing: int)
    requires Unique(m)
    ensures Unique(Put(m, key, value))
    ensures Lookup(Put(m, key, value), other, missing) ==
            if other == key then value else Lookup(m, other, missing)
  {
    var p := Put(m, key, value);
    if Find(m, other) >= 0 {
      assert p[Find(m, other)].0 == other;
      FindUnique(p, Find(m, other));
    }
    if other == key && Find(m, key) < 0 {
      assert p[|m|].0 == key;
      FindUnique(p, |m|);
    }
  }

  lemma RemoveLaws<K>(m: Entries<K>, key: K, other: K, missing: int)
    requires Unique(m)
    ensures Unique(Remove(m, key)) && Find(Remove(m, key), key) < 0
    ensures Lookup(Remove(m, key), other, missing) ==
            if other == key then missing else Lookup(m, other, missing)
  {
    var i, j := Find(m, key), Find(m, other);
    var r := Remove(m, key);
    if i >= 0 && j >= 0 && i != j {
      assert r[if j < i then j else j - 1] == m[j];
      FindUnique(r, if j < i then j else j - 1);
    }
  }

  /** Adding to a key that is there raises its value, and a key that is not there begins at the amount added. */
  lemma BumpLaws<K>(m: Entries<K>, key: K, delta: int, other: K, missing: int)
    requires Unique(m)
    ensures Unique(Bump(m, key, delta))
    ensures Lookup(Bump(m, key, delta), other, missing) ==
            if other != key then Lookup(m, other, missing)
            else if Find(m, key) >= 0 then Lookup(m, key, missing) + delta
            else delta
  {
    hide Put, Unique;
    PutLaws(m, key, Lookup(m, key, 0) + delta, other, missing);
  }

  /** A key deleted and set again moves to the end; a key overwritten stays where it was. */
  lemma OrderLaws<K>(m: Entries<K>, key: K, value: int)
    requires Unique(m)
    ensures Put(Remove(m, key), key, value) == Remove(m, key) + [(key, value)]
    ensures Find(m, key) >= 0 ==>
      |Put(m, key, value)| == |m| && forall i | 0 <= i < |m| :: Put(m, key, value)[i].0 == m[i].0
  {
    RemoveLaws(m, key, key, 0);
  }

  /** Without deletions a key keeps its position for ever. */
  lemma PositionStable<K>(m: Entries<K>, key: K, other: K, value: int)
    requires Unique(m) && Find(m, key) >= 0
    ensures Find(Put(m, other, value), key) == Find(m, key)
  {
    PutLaws(m, other, value, other, 0);
    assert Put(m, other, value)[Find(m, key)].0 == key;
    FindUnique(Put(m, other, value), Find(m, key));
  }

  /** Any number of writes later, too. */
  function PutAll<K(==)>(m: Entries<K>, writes: seq<(K, int)>): Entries<K> {
    if writes == [] then m
    else Put(PutAll(m, writes[..|writes| - 1]), writes[|writes| - 1].0, writes[|writes| - 1].1)
  }

  lemma {:induction false} PositionForEver<K>(m: Entries<K>, key: K, writes: seq<(K, int)>)
    requires Unique(m) && Find(m, key) >= 0
    ensures Unique(PutAll(m, writes)) && Find(PutAll(m, writes), key) == Find(m, key)
  {
    if writes != [] {
      var n := |writes| - 1;
      PositionForEver(m, key, writes[..n]);
      PutLaws(PutAll(m, writes[..n]), writes[n].0, writes[n].1, key, 0);
      PositionStable(PutAll(m, writes[..n]), key, writes[n].0, writes[n].1);
    }
  }

  // ---- Forgetting the order ----

  /** The finite map the entries are, whatever their order. */
  function AsMap<K>(m: Entries<K>): map<K, int> {
    if m == [] then map[]
    else AsMap(m[..|m| - 1])[m[|m| - 1].0 := m[|m| - 1].1]
  }

  function At<K>(m: map<K, int>, key: K, missing: int): int {
    if key in m then m[key] else missing
  }

  function Raised<K>(m: map<K, int>, key: K, delta: int): map<K, int> {
    m[key := At(m, key, 0) + delta]
  }

  lemma {:induction false} AsMapLookup<K>(m: Entries<K>, key: K)
    ensures key in AsMap(m) <==> Find(m, key) >= 0
    ensures key in AsMap(m) ==> AsMap(m)[key] == m[Find(m, key)].1
  {
    if m != [] {
      AsMapLookup(m[..|m| - 1], key);
    }
  }

  lemma {:induction false} AsMapSize<K>(m: Entries<K>)
    requires Unique(m)
    ensures |AsMap(m)| == |m|
  {
    if m != [] {
      AsMapSize(m[..|m| - 1]);
      AsMapLookup(m[..|m| - 1], m[|m| - 1].0);
    }
  }

  lemma PutFind<K>(m: Entries<K>, key: K, value: int, other: K)
    requires Unique(m)
    ensures Find(Put(m, key, value), other) >= 0 <==> other == key || Find(m, other) >= 0
  {
    PutLaws(m, key, value, other, 0);
    PutLaws(m, key, value, other, value + 1);
    PutLaws(m, key, value, other, 1);
  }

  lemma AsMapPutAt<K>(m: Entries<K>, key: K, value: int, k: K)
    requires Unique(m)
    ensures k in AsMap(Put(m, key, value)) <==> k == key || k in AsMap(m)
    ensures k in AsMap(Put(m, key, value)) ==>
      AsMap(Put(m, key, value))[k] == if k == key then value else AsMap(m)[k]
  {
    hide AsMap, Put, Unique;
    AsMapLookup(m, k);
    AsMapLookup(Put(m, key, value), k);
    PutLaws(m, key, value, k, 0);
    PutFind(m, key, value, k);
  }

  /** The ordered writes are the plain map's writes. */
  lemma AsMapPut<K>(m: Entries<K>, key: K, value: int)
    requires Unique(m)
    ensures AsMap(Put(m, key, value)) == AsMap(m)[key := value]
  {
    hide AsMap, Put, Find, Unique;
    var a, b := AsMap(Put(m, key, value)), AsMap(m)[key := value];
    forall k | k in a.Keys + b.Keys ensures k in a && k in b && a[k] == b[k] {
      AsMapPutAt(m, key, value, k);
    }
    assert a.Keys == b.Keys;
  }

  lemma RemoveFind<K>(m: Entries<K>, key: K, other: K)
    requires Unique(m)
    ensures Find(Remove(m, key), other) >= 0 <==> other != key && Find(m, other) >= 0
  {
    RemoveLaws(m, key, other, 0);
    RemoveLaws(m, key, other, 1);
  }

  lemma AsMapRemoveAt<K>(m: Entries<K>, key: K, k: K)
    requires Unique(m)
    ensures k in AsMap(Remove(m, key)) <==> k != key && k in AsMap(m)
    ensures k in AsMap(Remove(m, key)) ==> AsMap(Remove(m, key))[k] == AsMap(m)[k]
  {
    hide AsMap, Remove, Unique;
    AsMapLookup(m, k);
    AsMapLookup(Remove(m, key), k);
    RemoveLaws(m, key, k, 0);
    RemoveFind(m, key, k);
  }

  lemma AsMapRemove<K>(m: Entries<K>, key: K)
    requires Unique(m)
    ensures AsMap(Remove(m, key)) == AsMap(m) - {key}
  {
    hide AsMap, Remove, Find, Unique;
    var a, b := AsMap(Remove(m, key)), AsMap(m) - {key};
    forall k | k in a.Keys + b.Keys ensures k in a && k in b && a[k] == b[k] {
      AsMapRemoveAt(m, key, k);
    }
    assert a.Keys == b.Keys;
  }

  lemma SkipInner<T>(m: seq<T>, i: nat)
    requires i < |m| - 1
    ensures m[..i] + m[i + 1..] == m[..|m| - 1][..i] + m[..|m| - 1][i + 1..] + [m[|m| - 1]]
  {
    var n := |m| - 1;
    assert m[..n][..i] == m[..i];
    assert m[i + 1..] == m[..n][i + 1..] + [m[n]];
  }

  lemma RemoveInner<K>(m: Entries<K>, key: K)
    requires 0 <= Find(m, key) < |m| - 1
    ensures Find(m[..|m| - 1], key) == Find(m, key)
    ensures Remove(m, key) == Remove(m[..|m| - 1], key) + [m[|m| - 1]]
  {
    SkipInner(m, Find(m, key));
  }

  lemma TotalPush<K>(m: Entries<K>, x: (K, int))
    ensures Total(m + [x]) == Total(m) + x.1
  {
    assert (m + [x])[..|m|] == m;
  }

  lemma {:induction false} TotalRemove<K>(m: Entries<K>, key: K)
    requires Find(m, key) >= 0
    ensures Total(Remove(m, key)) == Total(m) - m[Find(m, key)].1
  {
    var n, i := |m| - 1, Find(m, key);
    if i == n {
      assert Remove(m, key) == m[..n];
    } else {
      hide Find, Remove;
      RemoveInner(m, key);
      TotalRemove(m[..n], key);
      TotalPush(Remove(m[..n], key), m[n]);
    }
  }

  /** The sum does not depend on the order. */
  lemma {:induction false} TotalOrderFree<K>(m: Entries<K>, other: Entries<K>)
    requires Unique(m) && Unique(other) && AsMap(m) == AsMap(other)
    ensures Total(m) == Total(other)
    decreases |m|
  {
    AsMapSize(m);
    AsMapSize(other);
    if m != [] {
      var n := |m| - 1;
      var key := m[n].0;
      AsMapLookup(m, key);
      AsMapLookup(other, key);
      TotalRemove(m, key);
      TotalRemove(other, key);
      RemoveLaws(m, key, key, 0);
      RemoveLaws(other, key, key, 0);
      AsMapRemove(m, key);
      AsMapRemove(other, key);
      TotalOrderFree(Remove(m, key), Remove(other, key));
    }
  }

  // ---- The live entries of parallel arrays ----

  /** The live pairs, in array order. */
  function Pairs<K>(keys: seq<K>, values: seq<i32>, alive: seq<bool>): Entries<K>
    requires |keys| == |values| == |alive|
  {
    if keys == [] then []
    else
      var n := |keys| - 1;
      Pairs(keys[..n], values[..n], alive[..n]) + if alive[n] then [(keys[n], values[n])] else []
  }

  /** How many of the first `i` entries are live: where entry `i` lands among the live ones. */
  function Rank(alive: seq<bool>, i: nat): nat
    requires i <= |alive|
  {
    if i == 0 then 0 else Rank(alive, i - 1) + if alive[i - 1] then 1 else 0
  }

  /** Which of the first `i` entries is live one number `r`. */
  ghost function Nth(alive: seq<bool>, i: nat, r: nat): (k: nat)
    requires i <= |alive| && r < Rank(alive, i)
    ensures k < i && alive[k] && Rank(alive, k) == r
  {
    if alive[i - 1] && Rank(alive, i - 1) == r then i - 1 else Nth(alive, i - 1, r)
  }

  lemma {:induction false} RankPrefix(alive: seq<bool>, more: seq<bool>, i: nat)
    requires i <= |alive| <= |more| && alive == more[..|alive|]
    ensures Rank(alive, i) == Rank(more, i)
  {
    if i > 0 {
      RankPrefix(alive, more, i - 1);
    }
  }

  lemma {:induction false} PairsAt<K>(keys: seq<K>, values: seq<i32>, alive: seq<bool>)
    requires |keys| == |values| == |alive|
    ensures |Pairs(keys, values, alive)| == Rank(alive, |alive|)
    ensures forall i | 0 <= i < |keys| && alive[i] :: Rank(alive, i) < Rank(alive, |alive|)
    ensures forall i | 0 <= i < |keys| && alive[i] ::
      Pairs(keys, values, alive)[Rank(alive, i)] == (keys[i], values[i] as int)
  {
    if keys != [] {
      var n := |keys| - 1;
      PairsAt(keys[..n], values[..n], alive[..n]);
      forall i | 0 <= i <= n ensures Rank(alive[..n], i) == Rank(alive, i) {
        RankPrefix(alive[..n], alive, i);
      }
    }
  }

  lemma PairsPush<K>(keys: seq<K>, values: seq<i32>, alive: seq<bool>, key: K, value: i32)
    requires |keys| == |values| == |alive|
    ensures Pairs(keys + [key], values + [value], alive + [true]) == Pairs(keys, values, alive) + [(key, value as int)]
  {
    assert (keys + [key])[..|keys|] == keys;
    assert (values + [value])[..|keys|] == values;
    assert (alive + [true])[..|keys|] == alive;
  }

  lemma {:induction false} PairsOverwrite<K>(keys: seq<K>, values: seq<i32>, alive: seq<bool>, i: nat, value: i32)
    requires |keys| == |values| == |alive| && i < |keys| && alive[i]
    ensures Rank(alive, i) < |Pairs(keys, values, alive)|
    ensures Pairs(keys, values[i := value], alive) ==
            Pairs(keys, values, alive)[Rank(alive, i) := (keys[i], value as int)]
  {
    var n := |keys| - 1;
    PairsAt(keys, values, alive);
    if i == n {
      assert values[i := value][..n] == values[..n];
      PairsAt(keys[..n], values[..n], alive[..n]);
      RankPrefix(alive[..n], alive, n);
    } else {
      assert values[i := value][..n] == values[..n][i := value];
      PairsOverwrite(keys[..n], values[..n], alive[..n], i, value);
      RankPrefix(alive[..n], alive, i);
    }
  }

  lemma SkipOne<T>(q: seq<T>, tail: seq<T>, r: nat)
    requires r < |q|
    ensures (q + tail)[..r] + (q + tail)[r + 1..] == q[..r] + q[r + 1..] + tail
  {
    assert (q + tail)[..r] == q[..r];
    assert (q + tail)[r + 1..] == q[r + 1..] + tail;
  }

  lemma {:induction false} PairsBury<K>(keys: seq<K>, values: seq<i32>, alive: seq<bool>, i: nat)
    requires |keys| == |values| == |alive| && i < |keys| && alive[i]
    ensures Rank(alive, i) < |Pairs(keys, values, alive)|
    ensures Pairs(keys, values, alive[i := false]) ==
            Pairs(keys, values, alive)[..Rank(alive, i)] + Pairs(keys, values, alive)[Rank(alive, i) + 1..]
  {
    var n := |keys| - 1;
    var q := Pairs(keys[..n], values[..n], alive[..n]);
    PairsAt(keys, values, alive);
    RankPrefix(alive[..n], alive, i);
    if i == n {
      assert alive[i := false][..n] == alive[..n];
      PairsAt(keys[..n], values[..n], alive[..n]);
    } else {
      assert alive[i := false][..n] == alive[..n][i := false];
      PairsBury(keys[..n], values[..n], alive[..n], i);
      hide Rank;
      SkipOne(q, if alive[n] then [(keys[n], values[n] as int)] else [], Rank(alive, i));
    }
  }

  /** No two live entries with one key: the live pairs are a map. */
  ghost predicate DistinctLive<K>(keys: seq<K>, alive: seq<bool>)
    requires |keys| == |alive|
  {
    forall i, j | 0 <= i < j < |keys| && alive[i] && alive[j] :: keys[i] != keys[j]
  }

  lemma PairsFind<K>(keys: seq<K>, values: seq<i32>, alive: seq<bool>, key: K)
    requires |keys| == |values| == |alive| && DistinctLive(keys, alive)
    ensures Unique(Pairs(keys, values, alive))
    ensures forall i | 0 <= i < |keys| && alive[i] && keys[i] == key ::
      Find(Pairs(keys, values, alive), key) == Rank(alive, i)
    ensures (forall i | 0 <= i < |keys| && alive[i] :: keys[i] != key) ==>
      Find(Pairs(keys, values, alive), key) < 0
  {
    PairsAt(keys, values, alive);
    var p := Pairs(keys, values, alive);
    assert forall r | 0 <= r < |p| :: p[r].0 == keys[Nth(alive, |alive|, r)] by {
      forall r | 0 <= r < |p| ensures p[r].0 == keys[Nth(alive, |alive|, r)] {
        assert p[Rank(alive, Nth(alive, |alive|, r))].0 == keys[Nth(alive, |alive|, r)];
      }
    }
    forall r, s | 0 <= r < s < |p| ensures p[r].0 != p[s].0 {
      var i, j := Nth(alive, |alive|, r), Nth(alive, |alive|, s);
      assert i != j;
    }
    forall i | 0 <= i < |keys| && alive[i] && keys[i] == key
      ensures Find(p, key) == Rank(alive, i)
    {
      FindUnique(p, Rank(alive, i));
    }
    if Find(p, key) >= 0 {
      assert p[Find(p, key)].0 == keys[Nth(alive, |alive|, Find(p, key))];
    }
  }

  /** Entries that are all live are their own pairs. */
  lemma {:induction false} PairsWhole<K>(m: Entries<K>, keys: seq<K>, values: seq<i32>, alive: seq<bool>)
    requires |keys| == |values| == |alive| == |m|
    requires forall i | 0 <= i < |m| :: alive[i] && keys[i] == m[i].0 && values[i] == m[i].1
    ensures Pairs(keys, values, alive) == m
  {
    if m != [] {
      var n := |m| - 1;
      PairsWhole(m[..n], keys[..n], values[..n], alive[..n]);
    }
  }

  lemma TotalNone<K>(keys: seq<K>, values: seq<i32>, alive: seq<bool>)
    requires |keys| == |values| == |alive|
    ensures Total(Pairs(keys[..0], values[..0], alive[..0])) == 0
  {
  }

  lemma TotalStep<K>(keys: seq<K>, values: seq<i32>, alive: seq<bool>, i: nat)
    requires |keys| == |values| == |alive| && i < |keys|
    ensures Total(Pairs(keys[..i + 1], values[..i + 1], alive[..i + 1])) ==
            Total(Pairs(keys[..i], values[..i], alive[..i])) + if alive[i] then values[i] else 0
  {
    var k, v, a := keys[..i + 1], values[..i + 1], alive[..i + 1];
    var m := Pairs(keys[..i], values[..i], alive[..i]);
    assert k[..i] == keys[..i] && v[..i] == values[..i] && a[..i] == alive[..i];
    assert Pairs(k, v, a) == m + if alive[i] then [(keys[i], values[i] as int)] else [];
    if alive[i] {
      assert (m + [(keys[i], values[i] as int)])[..|m|] == m;
    } else {
      assert Pairs(k, v, a) == m;
    }
  }

  // ---- Compaction in place ----

  /** Half-way through a compaction of `keys0`, `values0`, `alive0`: the live ones of the first
      `from` entries are the first `to`, in order, and the entries still to come are untouched. */
  ghost predicate Compacted<K>(keys: seq<K>, values: seq<i32>, alive: seq<bool>,
                               keys0: seq<K>, values0: seq<i32>, alive0: seq<bool>, to: nat, from: nat)
    requires |keys0| == |values0| == |alive0|
  {
    && |keys| == |values| == |alive| == |keys0| && to <= from <= |keys0|
    && (var m := Pairs(keys0[..from], values0[..from], alive0[..from]);
        to == |m| && forall i | 0 <= i < to :: keys[i] == m[i].0 && values[i] == m[i].1 && alive[i])
    && (forall i | from <= i < |keys0| :: keys[i] == keys0[i] && values[i] == values0[i] && alive[i] == alive0[i])
  }

  /** One step: a live entry moves down to `to`, a dead one is passed over. */
  lemma CompactStep<K>(keys: seq<K>, values: seq<i32>, alive: seq<bool>,
                       keys0: seq<K>, values0: seq<i32>, alive0: seq<bool>, to: nat, from: nat)
    requires |keys0| == |values0| == |alive0|
    requires Compacted(keys, values, alive, keys0, values0, alive0, to, from) && from < |keys0|
    ensures if alive[from]
            then Compacted(keys[to := keys[from]], values[to := values[from]], alive[to := true],
                           keys0, values0, alive0, to + 1, from + 1)
            else Compacted(keys, values, alive, keys0, values0, alive0, to, from + 1)
  {
    assert keys0[..from + 1][..from] == keys0[..from];
    assert values0[..from + 1][..from] == values0[..from];
    assert alive0[..from + 1][..from] == alive0[..from];
  }
}
