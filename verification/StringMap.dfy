/** The compiler's own table: the packed `u32` layout without deletion. Entries never move,
    so an index a caller holds stays good. */
module StringMap {
  import opened Words
  import opened Probing
  import opened InsertionOrder
  import opened OrderedTable
  import opened LoadPolicy
  import opened Packing

  const INITIAL: nat := 16

  lemma {:induction false} RankAll(n: nat, i: nat)
    requires i <= n
    ensures Rank(AllLive(n), i) == i
  {
    if i > 0 {
      RankAll(n, i - 1);
    }
  }

  lemma AllPairs<K>(t: Table<K>)
    requires |t.keys| == |t.values| && t.alive == AllLive(|t.keys|)
    ensures |Meaning(t)| == |t.keys|
    ensures forall i | 0 <= i < |t.keys| :: Meaning(t)[i] == (t.keys[i], t.values[i] as int)
  {
    PairsAt(t.keys, t.values, t.alive);
    RankAll(|t.keys|, |t.keys|);
    forall i | 0 <= i < |t.keys| ensures Meaning(t)[i] == (t.keys[i], t.values[i] as int) {
      RankAll(|t.keys|, i);
      assert Meaning(t)[Rank(t.alive, i)] == (t.keys[i], t.values[i] as int);
    }
  }

  class StringMap<K(==)> {
    /** Any hash does, 0 included. */
    const hash: K -> u32
    var slots: array<u32>
    var mask: nat
    var keys: seq<K>
    var values: seq<i32>
    var hashes: seq<u32>
    /** The table the fields spell. */
    ghost var t: Table<K>

    ghost predicate Spelled()
      reads this, slots
    {
      && slots.Length == |t.bs| == mask + 1 <= CAP_SLOTS && Pow2(|t.bs|)
      && (forall b | 0 <= b < |t.bs| :: slots[b] == Word32(hash, t.bs[b]) && t.bs[b] != Tomb)
    }

    ghost predicate Listed()
      reads this
    {
      && keys == t.keys && values == t.values && t.alive == AllLive(|keys|) && t.load == START
      && Hashed(hash, keys, t.alive, hashes)
    }

    ghost predicate Valid()
      reads this, slots
    {
      Spelled() && Listed() && Usable(hash, t) && |keys| <= INDEX_CAP
    }

    ghost function Contents(): Entries<K>
      reads this
    {
      Meaning(t)
    }

    constructor (hash: K -> u32)
      ensures Valid() && fresh(slots) && this.hash == hash && Contents() == [] && slots.Length == 16
    {
      this.hash := hash;
      slots := new u32[INITIAL](_ => 0);
      mask := 15;
      keys, values, hashes := [], [], [];
      t := Table(seq(16, _ => Empty), [], [], [], [], START);
      new;
      assert Pow2(16);
      EmptyTable(hash, t.bs);
    }

    /** Answers as the search over the buckets does, a miss as a negative number. The loop has no
        guards, and needs none: every index it uses is in range. */
    method Probe(key: K, h: u32) returns (r: int)
      requires Spelled() && Points(t.bs, keys, t.alive) && Hashed(hash, keys, t.alive, hashes)
      requires h == hash(key) && |keys| <= INDEX_CAP
      requires Walk(t.bs, key, Home(hash(key), |t.bs| - 1), |t.bs|) == Seek(hash, t.bs, key) != Stuck
      ensures var a := Seek(hash, t.bs, key);
        Probed(a, t.bs, r, a.bucket)
    {
      hide Walk, Seek, Home, And, Pow2, SlotOf32, Word32, EntryOf32, Hashed, Fingerprint;
      var bucket := Home(h, mask);
      var slot := slots[bucket];
      ghost var left: nat := |t.bs|;
      WalkStep(t.bs, key, bucket, left);
      FingerprintExact32(hash, t.bs[bucket], key, keys, t.alive, hashes);
      while slot != 0
        invariant bucket < |t.bs| && slot == slots[bucket]
        invariant Walk(t.bs, key, bucket, left) == Seek(hash, t.bs, key)
        decreases left
      {
        WalkStep(t.bs, key, bucket, left);
        FingerprintExact32(hash, t.bs[bucket], key, keys, t.alive, hashes);
        HashedLength(hash, keys, t.alive, hashes);
        if Fingerprint(slot) == Fingerprint(h) {
          var at := EntryOf32(slot);
          if hashes[at] == h && keys[at] == key {
            return at;
          }
        }
        MaskNext(bucket, |t.bs|);
        bucket := And(bucket + 1, mask);
        slot := slots[bucket];
        left := left - 1;
      }
      FingerprintExact32(hash, t.bs[bucket], key, keys, t.alive, hashes);
      WalkStep(t.bs, key, bucket, left);
      return -1 - bucket;
    }

    /** The position of `key` in insertion order, or -1. */
    method Index(key: K) returns (r: int)
      requires Valid()
      ensures r == Find(Contents(), key)
    {
      hide Usable, Vacant, Find, Walk, Seek, Points, Home, Pow2, Hashed, Spelled;
      UsableProbe(hash, t, key);
      var at := Probe(key, hash(key));
      if at >= 0 {
        RankAll(|keys|, at);
      }
      r := if at < 0 then -1 else at;
      FindRange(Contents(), key);
    }

    method Get(key: K, missing: int) returns (v: int)
      requires Valid()
      ensures v == Lookup(Contents(), key, missing)
    {
      var at := Index(key);
      AllPairs(t);
      v := if at < 0 then missing else values[at];
    }

    method Set(key: K, value: i32) returns (out: Outcome)
      requires Valid()
      modifies this, slots
      ensures slots == old(slots) || fresh(slots)
      ensures out.Panicked? <==> Find(old(Contents()), key) < 0 && |old(keys)| >= INDEX_CAP
      ensures out.Done? ==> Valid() && Contents() == Put(old(Contents()), key, value)
      ensures out.Done? ==> old(keys) <= keys
      ensures out.Done? ==>
        slots.Length == if |keys| > |old(keys)| && 4 * |keys| > 3 * old(slots.Length) then 2 * old(slots.Length)
                        else old(slots.Length)
    {
      hide Usable, Vacant, Find, Meaning, Walk, Seek, Points, Home, Pow2, Hashed;
      UsableProbe(hash, t, key);
      var at := Probe(key, hash(key));
      if at >= 0 {
        Overwrite(at, key, value);
        return Done;
      }
      out := InsertAt(-1 - at, key, hash(key), value);
    }

    /** A key that is absent goes last with `value`; a present one keeps what it has. */
    method Add(key: K, value: i32) returns (out: Outcome, absent: bool)
      requires Valid()
      modifies this, slots
      ensures slots == old(slots) || fresh(slots)
      ensures out.Panicked? <==> Find(old(Contents()), key) < 0 && |old(keys)| >= INDEX_CAP
      ensures out.Done? ==> Valid() && absent == (Find(old(Contents()), key) < 0)
      ensures out.Done? ==> Contents() == if absent then Put(old(Contents()), key, value) else old(Contents())
      ensures out.Done? ==> old(keys) <= keys
      ensures out.Done? ==>
        slots.Length == if |keys| > |old(keys)| && 4 * |keys| > 3 * old(slots.Length) then 2 * old(slots.Length)
                        else old(slots.Length)
    {
      hide Usable, Vacant, Find, Meaning, Walk, Seek, Points, Home, Pow2, Hashed;
      UsableProbe(hash, t, key);
      var at := Probe(key, hash(key));
      if at >= 0 {
        return Done, false;
      }
      out := InsertAt(-1 - at, key, hash(key), value);
      absent := true;
    }

    /** The fused count: one probe, then bump the entry or insert it at 1. It is
        `set(key, get(key, 0) + 1)`. */
    method Count(key: K) returns (out: Outcome)
      requires Valid()
      modifies this, slots
      ensures slots == old(slots) || fresh(slots)
      ensures out.Panicked? <==>
        if Find(old(Contents()), key) < 0 then |old(keys)| >= INDEX_CAP
        else !IsI32(Lookup(old(Contents()), key, 0) + 1)
      ensures out.Done? ==> Valid() && Contents() == Put(old(Contents()), key, Lookup(old(Contents()), key, 0) + 1)
      ensures out.Done? ==> old(keys) <= keys
      ensures out.Done? ==>
        slots.Length == if |keys| > |old(keys)| && 4 * |keys| > 3 * old(slots.Length) then 2 * old(slots.Length)
                        else old(slots.Length)
    {
      hide Usable, Vacant, Find, Meaning, Walk, Seek, Points, Home, Pow2, Hashed;
      UsableProbe(hash, t, key);
      var found := Probe(key, hash(key));
      if found >= 0 {
        var count: int := values[found];
        if !IsI32(count + 1) {
          return Panicked;
        }
        Overwrite(found, key, count + 1);
        return Done;
      }
      out := InsertAt(-1 - found, key, hash(key), 1);
    }

    method Overwrite(at: nat, key: K, value: i32)
      requires Valid() && Owns(t, at, key)
      modifies this`values, this`t
      ensures Valid() && Contents() == Put(old(Contents()), key, value) && keys == old(keys)
    {
      hide Usable, Meaning, Find, Hashed;
      OverwrittenMeans(hash, t, at, key, value);
      values := values[at := value];
      t := Overwritten(t, at, value);
    }

    /** Insertion of a key the map lacks: the last position is its, and no other key moves. */
    method InsertAt(bucket: int, key: K, h: u32, value: i32) returns (out: Outcome)
      requires Valid() && h == hash(key) && bucket >= 0 && Vacant(hash, t, bucket, key) && Find(Contents(), key) < 0
      modifies this, slots
      ensures slots == old(slots) || fresh(slots)
      ensures out.Panicked? <==> |old(keys)| >= INDEX_CAP
      ensures out.Done? ==> Valid() && Contents() == Put(old(Contents()), key, value)
      ensures out.Done? ==> keys == old(keys) + [key]
      ensures out.Done? ==>
        slots.Length == if 4 * |keys| > 3 * old(slots.Length) then 2 * old(slots.Length) else old(slots.Length)
    {
      hide Usable, Vacant, Find, Filed, Pairs, Hashed, Pow2;
      PushedMeans(hash, t, bucket, key, value);
      if |keys| >= INDEX_CAP {
        return Panicked;
      }
      Append(bucket, key, h, value);
      DoublingBound(|keys|, slots.Length);
      assert IsI32(|keys| * 4) && IsI32(slots.Length * 3);
      if |keys| * 4 > slots.Length * 3 {
        Grow();
      } else {
        IndexedUsable(hash, t);
      }
      out := Done;
    }

    /** The writes of an insertion. */
    method Append(b: nat, key: K, h: u32, value: i32)
      requires Spelled() && Listed() && b < |t.bs| && |keys| < INDEX_CAP && h == hash(key)
      requires |t.values| == |t.keys|
      modifies this`keys, this`values, this`hashes, this`t, slots
      ensures Spelled() && Listed() && t == Pushed(old(t), b, key, value).(load := START)
    {
      hide SlotOf32, Word32;
      keys := keys + [key];
      values := values + [value];
      hashes := hashes + [h];
      WordHolds32(hash, key, |keys| - 1);
      slots[b] := SlotOf32(h, |keys| - 1);
      t := Pushed(t, b, key, value).(load := START);
    }

    /** Twice the buckets, the same map, every key at the position it had. */
    method Grow()
      requires Spelled() && Listed() && Indexed(hash, t) && |keys| <= INDEX_CAP
      requires slots.Length * 2 <= CAP_SLOTS && 8 <= slots.Length && |keys| <= slots.Length
      modifies this`slots, this`mask, this`t
      ensures fresh(slots) && Valid() && Contents() == old(Contents()) && keys == old(keys)
      ensures slots.Length == 2 * old(slots.Length)
    {
      hide Filed, Unique, SlotOf32, Word32, Pairs, Find;
      IndexedUnique(hash, t);
      AllPairs(t);
      ghost var m := Meaning(t);
      var wider := slots.Length * 2;
      WordOfEmpty<K>(hash);
      slots := new u32[wider](_ => 0);
      mask := wider - 1;
      t := t.(bs := seq(wider, _ => Empty), where := []);
      Refile(m);
    }

    /** The filing loop of `Grow`. */
    method Refile(ghost m: Entries<K>)
      requires Spelled() && t == Table(seq(|t.bs|, _ => Empty), [], keys, values, AllLive(|keys|), START)
      requires Spells(m, keys, values) && Unique(m) && |m| < |t.bs| && |m| <= INDEX_CAP
      requires |hashes| == |keys| && forall i | 0 <= i < |keys| :: hashes[i] == hash(keys[i])
      modifies this`t, slots
      ensures Spelled() && t == Table(t.bs, t.where, keys, values, AllLive(|keys|), START)
      ensures |t.bs| == old(|t.bs|) && Filed(hash, t.bs, t.where, keys, AllLive(|keys|))
    {
      hide Filed, Unique, AllLive, Pow2, Word32, Home, PathTaken, HasEmpty;
      EmptyTable(hash, t.bs);
      assert t.keys == keys;
      var i := 0;
      while i < |keys|
        invariant i <= |keys|
        invariant Spelled() && |t.bs| == old(|t.bs|) && t == Table(t.bs, t.where, keys, values, AllLive(|keys|), START)
        invariant Filed(hash, t.bs, t.where, keys[..i], AllLive(i))
      {
        FiledRoom(hash, t.bs, t.where, keys[..i], AllLive(i));
        var bucket := FindFree(Home(hashes[i], mask));
        RefileStep(hash, t.bs, t.where, m, keys, i, bucket);
        File(bucket, i);
        i := i + 1;
      }
      assert keys[..|keys|] == keys;
    }

    /** Points bucket `b` at entry `i`. */
    method File(b: nat, i: nat)
      requires Spelled() && b < |t.bs| && i < |keys| == |hashes| && i < INDEX_CAP && hashes[i] == hash(keys[i])
      modifies this`t, slots
      ensures Spelled() && t == old(t.(bs := t.bs[b := Holds(keys[i], i)], where := t.where + [b]))
    {
      hide SlotOf32, Word32;
      WordHolds32(hash, keys[i], i);
      slots[b] := SlotOf32(hashes[i], i);
      t := t.(bs := t.bs[b := Holds(keys[i], i)], where := t.where + [b]);
    }

    /** The first empty bucket from `h` on. */
    method FindFree(h: nat) returns (b: nat)
      requires Spelled() && HasEmpty(t.bs) && h < |t.bs|
      ensures b < |t.bs| && t.bs[b] == Empty && PathTaken(t.bs, h, b)
    {
      hide SlotOf32, PathTaken, And, Pow2;
      PathHere(t.bs, h);
      b := h;
      ghost var e :| 0 <= e < |t.bs| && t.bs[e] == Empty;
      while slots[b] != 0
        invariant b < |t.bs| && PathTaken(t.bs, h, b)
        decreases Dist(b, e, |t.bs|)
      {
        PathStep(t.bs, h, b);
        MaskNext(b, |t.bs|);
        b := And(b + 1, mask);
      }
      WordEmpty32(hash, t.bs[b]);
    }
  }

  // ---- With nothing deleted, entry numbers are positions ----
}
