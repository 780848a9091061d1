/** The ordered layout in 32-bit buckets. A bucket has room for a byte of the hash and for an entry
    number of 24 bits; the rest of the hash is kept beside the entry. */
module Fp32Map {
  import opened Words
  import opened Probing
  import opened InsertionOrder
  import opened OrderedTable
  import opened LoadPolicy
  import opened Packing

  class Fp32Map<K(==,!new)> {
    const hash: K -> u32
    var slots: array<u32>
    var mask: nat
    var keys: seq<K>
    var values: seq<i32>
    /** Beside each live key its hash; a 0 says that the entry is dead. */
    var hashes: seq<u32>
    var live: nat
    var found: nat
    /** The table the fields spell, and its history. */
    ghost var t: Table<K>

    /** The words in `slots` spell the buckets. */
    ghost predicate Spelled()
      reads this, slots
    {
      && slots.Length == |t.bs| == mask + 1 <= CAP_SLOTS && Pow2(|t.bs|)
      && (forall b | 0 <= b < |t.bs| :: slots[b] == Word32(hash, t.bs[b]))
    }

    /** The entry arrays and the count spell the rest. */
    ghost predicate Listed()
      reads this
    {
      && keys == t.keys && values == t.values && live == t.load.live
      && Hashed(hash, t.keys, t.alive, hashes)
    }

    ghost predicate Valid()
      reads this, slots
    {
      Spelled() && Listed() && Usable(hash, t) && Tracked(t) && NonZero(hash) && |t.keys| <= INDEX_CAP
    }

    /** The live entries, oldest first. */
    ghost function Contents(): Entries<K>
      reads this
    {
      Meaning(t)
    }

    constructor (hash: K -> u32)
      requires NonZero(hash)
      ensures Valid() && fresh(slots) && this.hash == hash
      ensures Contents() == [] && t.load == START
    {
      this.hash := hash;
      slots := new u32[INITIAL_SLOTS](_ => 0);
      mask := 7;
      keys, values, hashes, live, found := [], [], [], 0, 0;
      t := Table(seq(8, _ => Empty), [], [], [], [], START);
      new;
      assert Pow2(8);
      EmptyTable(hash, t.bs);
    }

    /** The index of `key`'s entry, its bucket in `found`; or the empty bucket a probe stops
        at, as a negative number. The panic after the loop is never reached: the loop is only
        left at a match. */
    method Probe(key: K, h: u32) returns (r: int)
      requires Spelled() && Points(t.bs, keys, t.alive) && Hashed(hash, keys, t.alive, hashes)
      requires h == hash(key) && |keys| <= INDEX_CAP
      requires Walk(t.bs, key, Home(hash(key), |t.bs| - 1), |t.bs|) == Seek(hash, t.bs, key) != Stuck
      modifies this`found
      ensures Probed(Seek(hash, t.bs, key), t.bs, r, found)
    {
      hide Walk, Seek, Home, And, Pow2, SlotOf32, Match32, Word32, EntryOf32, Hashed;
      var n := slots.Length;
      var b := Home(h, mask);
      ghost var left: nat := n;
      while 0 <= b < n
        invariant 0 <= b < n
        invariant Walk(t.bs, key, b, left) == Seek(hash, t.bs, key)
        decreases left
        modifies {}
      {
        WalkStep(t.bs, key, b, left);
        var s := slots[b];
        FingerprintExact32(hash, t.bs[b], key, keys, t.alive, hashes);
        if s == 0 {
          return -1 - b;
        }
        if Match32(s, h, key, keys, hashes) {
          r := EntryOf32(s);
          break;
        }
        MaskNext(b, n);
        b := And(b + 1, mask);
        left := left - 1;
      }
      assert 0 <= b < n;
      found := b;
    }

    method Get(key: K, missing: int) returns (v: int)
      requires Valid()
      modifies this`found
      ensures Valid()
      ensures Contents() == old(Contents()) && t.load == old(t.load)
      ensures v == Lookup(Contents(), key, missing)
    {
      hide Usable, Tracked, Vacant, Find, Meaning, Walk, Seek, Points, Home, Pow2;
      UsableProbe(hash, t, key);
      var at := Probe(key, hash(key));
      v := if at >= 0 && at < |values| then values[at] else missing;
    }

    /** Overwrites the value of `key`, or appends it; panics when the table cannot grow any more. */
    method Set(key: K, value: i32) returns (out: Outcome)
      requires Valid()
      modifies this, slots
      ensures slots == old(slots) || fresh(slots)
      ensures out.Panicked? <==> Find(old(Contents()), key) < 0 && old(|keys|) >= INDEX_CAP
      ensures out.Done? ==> Valid() && Contents() == Put(old(Contents()), key, value)
      ensures out.Done? ==> t.load == if Find(old(Contents()), key) < 0 then Insert(old(t.load)) else old(t.load)
    {
      hide Usable, Tracked, Vacant, Find, Meaning, Walk, Seek, Points, Home, Pow2;
      UsableProbe(hash, t, key);
      var at := Probe(key, hash(key));
      if at >= 0 {
        if at < |values| {
          OverwrittenMeans(hash, t, at, key, value);
          values := values[at := value];
          t := Overwritten(t, at, value);
        }
        return Done;
      }
      out := InsertAt(-1 - at, key, hash(key), value);
    }

    /** Adds `delta` to the value of `key`, or appends it at `delta`; panics on overflow too. */
    method Add(key: K, delta: i32) returns (out: Outcome)
      requires Valid()
      modifies this, slots
      ensures slots == old(slots) || fresh(slots)
      ensures out.Panicked? <==>
        if Find(old(Contents()), key) < 0 then old(|keys|) >= INDEX_CAP
        else !IsI32(Lookup(old(Contents()), key, 0) + delta)
      ensures out.Done? ==> Valid() && Contents() == Bump(old(Contents()), key, delta)
      ensures out.Done? ==> t.load == if Find(old(Contents()), key) < 0 then Insert(old(t.load)) else old(t.load)
    {
      hide Usable, Tracked, Vacant, Find, Meaning, Walk, Seek, Points, Home, Pow2;
      UsableProbe(hash, t, key);
      var at := Probe(key, hash(key));
      if at >= 0 {
        if at < |values| {
          if !IsI32(values[at] + delta) {
            return Panicked;
          }
          OverwrittenMeans(hash, t, at, key, values[at] + delta);
          t := Overwritten(t, at, values[at] + delta);
          values := values[at := values[at] + delta];
        }
        return Done;
      }
      out := InsertAt(-1 - at, key, hash(key), delta);
    }

    /** Insertion of a key the map lacks: one entry more, last in order, the table made larger or
        denser when the policy asks for it. */
    method InsertAt(b: int, key: K, h: u32, value: i32) returns (out: Outcome)
      requires Valid() && h == hash(key) && b >= 0 && Vacant(hash, t, b, key) && Find(Contents(), key) < 0
      modifies this, slots
      ensures slots == old(slots) || fresh(slots)
      ensures out.Panicked? <==> old(|keys|) >= INDEX_CAP
      ensures out.Done? ==> Valid() && Contents() == Put(old(Contents()), key, value)
      ensures out.Done? ==> t.load == Insert(old(t.load))
    {
      hide Usable, Tracked, Vacant, Find, Meaning, Indexed, Sound;
      PushedMeans(hash, t, b, key, value);
      PushedFits(hash, t, b, key, value);
      if |keys| >= INDEX_CAP {
        return Panicked;
      }
      CapBound(t.load);
      Append(b, key, h, value);
      var used := |keys|;
      assert IsI32(used * 4) && IsI32(slots.Length * 3);
      if used * 4 > slots.Length * 3 {
        Rebuild();
      }
      out := Done;
    }

    /** The writes of an insertion. */
    method Append(b: nat, key: K, h: u32, value: i32)
      requires Spelled() && Listed() && b < |t.bs| && |t.keys| < INDEX_CAP && h == hash(key) && h != 0
      modifies this`keys, this`values, this`hashes, this`live, this`t, slots
      ensures Spelled() && Listed() && t == Pushed(old(t), b, key, value)
    {
      hide SlotOf32, Word32;
      keys := keys + [key];
      values := values + [value];
      hashes := hashes + [h];
      live := live + 1;
      var used := |keys|;
      if b < slots.Length {
        WordHolds32(hash, key, used - 1);
        slots[b] := SlotOf32(h, used - 1);
      }
      t := Pushed(t, b, key, value);
    }

    method Delete(key: K) returns (removed: bool)
      requires Valid()
      modifies this, slots
      ensures Valid() && slots == old(slots)
      ensures removed == (Find(old(Contents()), key) >= 0)
      ensures Contents() == Remove(old(Contents()), key)
      ensures if removed then old(t.load).live > 0 && t.load == LoadPolicy.Delete(old(t.load)) else t.load == old(t.load)
    {
      hide Usable, Tracked, Vacant, Find, Meaning, Walk, Seek, Points, Home, Pow2;
      UsableProbe(hash, t, key);
      var at := Probe(key, hash(key));
      if at < 0 || at >= |hashes| {
        return false;
      }
      BuriedMeans(hash, t, found, key);
      Bury(at);
      removed := true;
    }

    /** The writes of a deletion. */
    method Bury(at: nat)
      requires Spelled() && Listed() && Occupied(t.bs, found)
      requires at == t.bs[found].at < |t.alive| && t.load.live > 0
      modifies this`hashes, this`live, this`t, slots
      ensures Spelled() && Listed() && t == Buried(old(t), found)
    {
      if found < slots.Length {
        slots[found] := 0x100_0000;
      }
      hashes := hashes[at := 0];
      live := live - 1;
      t := Buried(t, found);
    }

    /** The table is filed anew from its live entries and the hashes kept beside them: same map, no
        tombstones, at the size the policy gives. */
    method Rebuild()
      requires Spelled() && Listed() && Indexed(hash, t) && Counted(t)
      requires Sound(Rebuilt(t.load)) && RebuiltSlots(t.load) <= CAP_SLOTS
      requires NonZero(hash) && |t.keys| <= INDEX_CAP
      modifies this, slots
      ensures slots == old(slots) || fresh(slots)
      ensures Valid() && Contents() == old(Contents()) && t.load == Rebuilt(old(t.load))
    {
      hide Usable, Tracked, Indexed, Sound, Filed, Unique, Spells;
      ghost var t0 := t;
      RebuildRoom(hash, t);
      var used := |keys|;
      assert IsI32(live * 2) && (live * 2 >= used ==> IsI32(slots.Length * 2));
      var size := if live * 2 >= used then slots.Length * 2 else slots.Length;
      Compact();
      Clear(size);
      Refile(Meaning(t0));
      t := t.(load := Rebuilt(t0.load));
      RebuiltMeans(hash, t0, t);
    }

    /** The live entries move down over the dead ones, in order, and the rest is popped. */
    method Compact()
      requires Listed() && |t.keys| == |t.values| == |t.alive| && NonZero(hash)
      modifies this`keys, this`values, this`hashes
      ensures Spells(Pairs(t.keys, t.values, t.alive), keys, values)
      ensures Hashed(hash, keys, AllLive(|keys|), hashes)
    {
      ghost var alive := t.alive;
      var used := |keys|;
      var end := 0;
      for from := 0 to used
        invariant Compacted(keys, values, alive, t.keys, t.values, t.alive, end, from)
        invariant Hashed(hash, keys, alive, hashes)
      {
        CompactStep(keys, values, alive, t.keys, t.values, t.alive, end, from);
        var h := hashes[from];
        if h != 0 && from < |values| {
          keys := keys[end := keys[from]];
          values := values[end := values[from]];
          hashes := hashes[end := h];
          alive := alive[end := true];
          end := end + 1;
        }
      }
      assert t.keys[..used] == t.keys && t.values[..used] == t.values && t.alive[..used] == t.alive;
      ghost var m := Pairs(t.keys, t.values, t.alive);
      while |keys| > end
        invariant end == |m| <= |keys| == |values| == |hashes|
        invariant forall i | 0 <= i < end :: keys[i] == m[i].0 && values[i] == m[i].1 && hashes[i] == hash(keys[i])
        decreases |keys|
      {
        keys := keys[..|keys| - 1];
        values := values[..|values| - 1];
        hashes := hashes[..|hashes| - 1];
      }
    }

    /** An empty table of `size` buckets; the same one, cleared, when the size is the same. */
    method Clear(size: nat)
      requires Pow2(size) && size <= CAP_SLOTS
      modifies this`slots, this`mask, this`t, slots
      ensures slots == old(slots) || fresh(slots)
      ensures Spelled() && slots.Length == size
      ensures t == Table(seq(size, _ => Empty), [], [], [], [], START)
    {
      if size == slots.Length {
        var cleared := slots;
        for i := 0 to cleared.Length
          invariant forall b | 0 <= b < i :: cleared[b] == 0
          modifies cleared
        {
          cleared[i] := 0;
        }
      } else {
        slots := new u32[size](_ => 0);
      }
      mask := size - 1;
      t := Table(seq(size, _ => Empty), [], [], [], [], START);
    }

    /** Files every entry in the first empty bucket from its home on. */
    method Refile(ghost m: Entries<K>)
      requires Spelled() && t == Table(seq(|t.bs|, _ => Empty), [], [], [], [], START)
      requires Spells(m, keys, values) && Unique(m) && |m| < |t.bs| && |m| <= INDEX_CAP
      requires |hashes| == |keys| && forall i | 0 <= i < |keys| :: hashes[i] == hash(keys[i])
      modifies this`t, slots
      ensures Spelled() && t == Table(t.bs, t.where, keys, values, AllLive(|keys|), START)
      ensures |t.bs| == old(|t.bs|) && Filed(hash, t.bs, t.where, keys, AllLive(|keys|))
    {
      hide Filed, Unique, AllLive, Pow2, Word32, Home, PathTaken, HasEmpty;
      EmptyTable(hash, t.bs);
      for i := 0 to |keys|
        invariant Spelled() && |t.bs| == old(|t.bs|)
        invariant Filed(hash, t.bs, t.where, keys[..i], AllLive(i))
      {
        FiledRoom(hash, t.bs, t.where, keys[..i], AllLive(i));
        var b := FindFree(Home(hashes[i], mask));
        RefileStep(hash, t.bs, t.where, m, keys, i, b);
        File(b, i);
      }
      assert keys[..|keys|] == keys;
      t := Table(t.bs, t.where, keys, values, AllLive(|keys|), START);
    }

    /** Points bucket `b` at entry `i`. */
    method File(b: nat, i: nat)
      requires Spelled() && b < |t.bs| && i < |keys| == |hashes| && i < INDEX_CAP && hashes[i] == hash(keys[i])
      modifies this`t, slots
      ensures Spelled() && t == old(t.(bs := t.bs[b := Holds(keys[i], i)], where := t.where + [b]))
    {
      hide SlotOf32, Word32;
      WordHolds32(hash, keys[i], i);
      slots[b] := SlotOf32(hashes[i], i);
      t := t.(bs := t.bs[b := Holds(keys[i], i)], where := t.where + [b]);
    }

    /** The first empty bucket from `h` on. */
    method FindFree(h: nat) returns (b: nat)
      requires Spelled() && HasEmpty(t.bs) && h < |t.bs|
      ensures b < |t.bs| && t.bs[b] == Empty && PathTaken(t.bs, h, b)
    {
      hide SlotOf32, PathTaken, And, Pow2;
      PathHere(t.bs, h);
      b := h;
      ghost var e :| 0 <= e < |t.bs| && t.bs[e] == Empty;
      while b < slots.Length && slots[b] != 0
        invariant b < |t.bs| && PathTaken(t.bs, h, b)
        decreases Dist(b, e, |t.bs|)
      {
        PathStep(t.bs, h, b);
        MaskNext(b, |t.bs|);
        b := And(b + 1, mask);
      }
      WordEmpty32(hash, t.bs[b]);
    }

    /** Adds up what the map holds, modulo 2^32. */
    method Sum() returns (total: u32)
      requires Listed() && |t.keys| == |t.values| == |t.alive| && NonZero(hash)
      ensures total == ToU32(Total(Contents()))
    {
      hide Pairs, Total, ToU32;
      ghost var sum: int := 0;
      total := ToU32(0);
      TotalNone(keys, values, t.alive);
      for i := 0 to |hashes|
        invariant sum == Total(Pairs(keys[..i], values[..i], t.alive[..i])) && total == ToU32(sum)
      {
        TotalStep(keys, values, t.alive, i);
        if hashes[i] != 0 && i < |values| {
          WrapAdd(sum, values[i]);
          total := ToU32(total + ToU32(values[i]));
          sum := sum + values[i];
        }
      }
      assert keys[..|keys|] == keys && values[..|keys|] == values && t.alive[..|keys|] == t.alive;
    }
  }
}
