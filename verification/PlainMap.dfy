/** The plain insertion-ordered layout: a bucket is an entry index plus one. */
module PlainMap {
  import opened Words
  import opened Probing
  import opened InsertionOrder
  import opened OrderedTable
  import opened LoadPolicy

  const EMPTY: i32 := 0
  const TOMB: i32 := -1

  /** The word that stands for a bucket. */
  function Word<K>(x: Bucket<K>): int {
    match x
    case Empty => EMPTY
    case Tomb => TOMB
    case Holds(_, at) => at + 1
  }

  class PlainMap<K(==)> {
    const hash: K -> u32
    var slots: array<i32>
    var mask: nat
    var keys: seq<K>
    var values: seq<i32>
    var alive: seq<bool>
    var live: nat
    var found: nat
    /** The table the fields spell, and its history. */
    ghost var t: Table<K>

    /** The words in `slots` spell the buckets. */
    ghost predicate Spelled()
      reads this, slots
    {
      && slots.Length == |t.bs| == mask + 1 <= MAX_SLOTS && Pow2(|t.bs|)
      && (forall b | 0 <= b < |t.bs| :: slots[b] == Word(t.bs[b]))
    }

    /** The entry arrays and the count spell the rest. */
    ghost predicate Listed()
      reads this
    {
      keys == t.keys && values == t.values && alive == t.alive && live == t.load.live
    }

    ghost predicate Valid()
      reads this, slots
    {
      Spelled() && Listed() && Usable(hash, t) && Tracked(t)
    }

    /** The live entries, oldest first. */
    ghost function Contents(): Entries<K>
      reads this
    {
      Meaning(t)
    }

    constructor (hash: K -> u32)
      ensures Valid() && fresh(slots) && this.hash == hash
      ensures Contents() == [] && t.load == START
    {
      this.hash := hash;
      slots := new i32[INITIAL_SLOTS](_ => 0);
      mask := 7;
      keys, values, alive, live, found := [], [], [], 0, 0;
      t := Table(seq(8, _ => Empty), [], [], [], [], START);
      new;
      assert Pow2(8);
      EmptyTable(hash, t.bs);
    }

    /** The index of `key`'s entry, its bucket in `found`; or the empty bucket a probe stops
        at, as a negative number. The panic after the loop is never reached: the loop is only
        left at a match. */
    method Probe(key: K) returns (r: int)
      requires Spelled() && Points(t.bs, keys, t.alive)
      requires Walk(t.bs, key, Home(hash(key), |t.bs| - 1), |t.bs|) == Seek(hash, t.bs, key) != Stuck
      modifies this`found
      ensures Probed(Seek(hash, t.bs, key), t.bs, r, found)
    {
      hide Walk, Seek, Home, And, Pow2;
      var n := slots.Length;
      var b := Home(hash(key), mask);
      ghost var left: nat := n;
      while 0 <= b < n
        invariant 0 <= b < n
        invariant Walk(t.bs, key, b, left) == Seek(hash, t.bs, key)
        decreases left
        modifies {}
      {
        WalkStep(t.bs, key, b, left);
        var s: int := slots[b];
        if s == EMPTY {
          return -1 - b;
        }
        r := s - 1;
        if r >= 0 && r < |keys| && keys[r] == key {
          break;
        }
        MaskNext(b, n);
        b := And(b + 1, mask);
        left := left - 1;
      }
      assert 0 <= b < n;
      found := b;
    }

    method Get(key: K, missing: int) returns (v: int)
      requires Valid()
      modifies this`found
      ensures Valid()
      ensures Contents() == old(Contents()) && t.load == old(t.load)
      ensures v == Lookup(Contents(), key, missing)
    {
      hide Usable, Tracked, Vacant, Find, Meaning, Walk, Seek, Points, Home, Pow2;
      UsableProbe(hash, t, key);
      var at := Probe(key);
      v := if at >= 0 && at < |values| then values[at] else missing;
    }

    /** Overwrites the value of `key`, or appends it; panics when the table cannot grow any more. */
    method Set(key: K, value: i32) returns (out: Outcome)
      requires Valid()
      modifies this, slots
      ensures slots == old(slots) || fresh(slots)
      ensures out.Panicked? <==> Find(old(Contents()), key) < 0 && old(slots.Length) == MAX_SLOTS
      ensures out.Done? ==> Valid() && Contents() == Put(old(Contents()), key, value)
      ensures out.Done? ==> t.load == if Find(old(Contents()), key) < 0 then Insert(old(t.load)) else old(t.load)
    {
      hide Usable, Tracked, Vacant, Find, Meaning, Walk, Seek, Points, Home, Pow2;
      UsableProbe(hash, t, key);
      var at := Probe(key);
      if at >= 0 {
        if at < |values| {
          OverwrittenMeans(hash, t, at, key, value);
          values := values[at := value];
          t := Overwritten(t, at, value);
        }
        return Done;
      }
      out := InsertAt(-1 - at, key, value);
    }

    /** Adds `delta` to the value of `key`, or appends it at `delta`; panics on overflow too. */
    method Add(key: K, delta: i32) returns (out: Outcome)
      requires Valid()
      modifies this, slots
      ensures slots == old(slots) || fresh(slots)
      ensures out.Panicked? <==>
        if Find(old(Contents()), key) < 0 then old(slots.Length) == MAX_SLOTS
        else !IsI32(Lookup(old(Contents()), key, 0) + delta)
      ensures out.Done? ==> Valid() && Contents() == Bump(old(Contents()), key, delta)
      ensures out.Done? ==> t.load == if Find(old(Contents()), key) < 0 then Insert(old(t.load)) else old(t.load)
    {
      hide Usable, Tracked, Vacant, Find, Meaning, Walk, Seek, Points, Home, Pow2;
      UsableProbe(hash, t, key);
      var at := Probe(key);
      if at >= 0 {
        if at < |values| {
          if !IsI32(values[at] + delta) {
            return Panicked;
          }
          OverwrittenMeans(hash, t, at, key, values[at] + delta);
          t := Overwritten(t, at, values[at] + delta);
          values := values[at := values[at] + delta];
        }
        return Done;
      }
      out := InsertAt(-1 - at, key, delta);
    }

    /** Insertion of a key the map lacks: one entry more, last in order, the table made larger or
        denser when the policy asks for it. */
    method InsertAt(b: int, key: K, value: i32) returns (out: Outcome)
      requires Valid() && b >= 0 && Vacant(hash, t, b, key) && Find(Contents(), key) < 0
      modifies this, slots
      ensures slots == old(slots) || fresh(slots)
      ensures out.Panicked? <==> old(slots.Length) == MAX_SLOTS
      ensures out.Done? ==> Valid() && Contents() == Put(old(Contents()), key, value)
      ensures out.Done? ==> t.load == Insert(old(t.load))
    {
      hide Usable, Tracked, Vacant, Find, Meaning, Indexed, Sound;
      PushedMeans(hash, t, b, key, value);
      PushedFits(hash, t, b, key, value);
      OverflowBound(t.load);
      Append(b, key, value);
      var used := |keys|;
      if !IsI32(used * 4) || !IsI32(slots.Length * 3) {
        return Panicked;
      }
      if used * 4 > slots.Length * 3 {
        Rebuild();
      }
      out := Done;
    }

    /** The writes of an insertion. */
    method Append(b: nat, key: K, value: i32)
      requires Spelled() && Listed() && b < |t.bs| && |t.keys| < MAX_SLOTS
      modifies this`keys, this`values, this`alive, this`live, this`t, slots
      ensures Spelled() && Listed() && t == Pushed(old(t), b, key, value)
    {
      keys := keys + [key];
      values := values + [value];
      alive := alive + [true];
      live := live + 1;
      var used := |keys|;
      if b < slots.Length {
        slots[b] := used;
      }
      t := Pushed(t, b, key, value);
    }

    method Delete(key: K) returns (removed: bool)
      requires Valid()
      modifies this, slots
      ensures Valid() && slots == old(slots)
      ensures removed == (Find(old(Contents()), key) >= 0)
      ensures Contents() == Remove(old(Contents()), key)
      ensures if removed then old(t.load).live > 0 && t.load == LoadPolicy.Delete(old(t.load)) else t.load == old(t.load)
    {
      hide Usable, Tracked, Vacant, Find, Meaning, Walk, Seek, Points, Home, Pow2;
      UsableProbe(hash, t, key);
      var at := Probe(key);
      if at < 0 || at >= |alive| {
        return false;
      }
      BuriedMeans(hash, t, found, key);
      Bury(at);
      removed := true;
    }

    /** The writes of a deletion. */
    method Bury(at: nat)
      requires Spelled() && Listed() && Occupied(t.bs, found)
      requires at == t.bs[found].at < |t.alive| && t.load.live > 0
      modifies this`alive, this`live, this`t, slots
      ensures Spelled() && Listed() && t == Buried(old(t), found)
    {
      if found < slots.Length {
        slots[found] := TOMB;
      }
      alive := alive[at := false];
      live := live - 1;
      t := Buried(t, found);
    }

    /** The table is filed anew from its live entries, whose hashes are taken again: same map, no
        tombstones, at the size the policy gives. */
    method Rebuild()
      requires Spelled() && Listed() && Indexed(hash, t) && Counted(t)
      requires Sound(Rebuilt(t.load)) && RebuiltSlots(t.load) <= MAX_SLOTS
      modifies this, slots
      ensures slots == old(slots) || fresh(slots)
      ensures Valid() && Contents() == old(Contents()) && t.load == Rebuilt(old(t.load))
    {
      hide Usable, Tracked, Indexed, Sound, Filed, Unique, Spells;
      ghost var t0 := t;
      RebuildRoom(hash, t);
      var used := |keys|;
      assert IsI32(live * 2) && (live * 2 >= used ==> IsI32(slots.Length * 2));
      var size := if live * 2 >= used then slots.Length * 2 else slots.Length;
      Compact();
      Clear(size);
      Refile(Meaning(t0));
      t := t.(load := Rebuilt(t0.load));
      RebuiltMeans(hash, t0, t);
    }

    /** The live entries move down over the dead ones, in order, and the rest is popped. */
    method Compact()
      requires |keys| == |values| == |alive|
      modifies this`keys, this`values, this`alive
      ensures Spells(Pairs(old(keys), old(values), old(alive)), keys, values) && alive == AllLive(|keys|)
    {
      ghost var keys0, values0, alive0 := keys, values, alive;
      var used := |keys|;
      var end := 0;
      for from := 0 to used
        invariant Compacted(keys, values, alive, keys0, values0, alive0, end, from)
      {
        CompactStep(keys, values, alive, keys0, values0, alive0, end, from);
        if alive[from] && from < |values| {
          keys := keys[end := keys[from]];
          values := values[end := values[from]];
          alive := alive[end := true];
          end := end + 1;
        }
      }
      assert keys0[..used] == keys0 && values0[..used] == values0 && alive0[..used] == alive0;
      ghost var m := Pairs(keys0, values0, alive0);
      while |keys| > end
        invariant end == |m| <= |keys| == |values| == |alive|
        invariant forall i | 0 <= i < end :: keys[i] == m[i].0 && values[i] == m[i].1 && alive[i]
        decreases |keys|
      {
        keys := keys[..|keys| - 1];
        values := values[..|values| - 1];
        alive := alive[..|alive| - 1];
      }
    }

    /** An empty table of `size` buckets; the same one, cleared, when the size is the same. */
    method Clear(size: nat)
      requires Pow2(size) && size <= MAX_SLOTS
      modifies this`slots, this`mask, this`t, slots
      ensures slots == old(slots) || fresh(slots)
      ensures Spelled() && slots.Length == size
      ensures t == Table(seq(size, _ => Empty), [], [], [], [], START)
    {
      if size == slots.Length {
        var cleared := slots;
        for i := 0 to cleared.Length
          invariant forall b | 0 <= b < i :: cleared[b] == 0
          modifies cleared
        {
          cleared[i] := 0;
        }
      } else {
        slots := new i32[size](_ => 0);
      }
      mask := size - 1;
      t := Table(seq(size, _ => Empty), [], [], [], [], START);
    }

    /** Files every entry in the first empty bucket from its home on. */
    method Refile(ghost m: Entries<K>)
      requires Spelled() && t == Table(seq(|t.bs|, _ => Empty), [], [], [], [], START)
      requires Spells(m, keys, values) && Unique(m) && |m| < |t.bs|
      modifies this`t, slots
      ensures Spelled() && t == Table(t.bs, t.where, keys, values, AllLive(|keys|), START)
      ensures |t.bs| == old(|t.bs|) && Filed(hash, t.bs, t.where, keys, AllLive(|keys|))
    {
      hide Filed, Unique, AllLive, Pow2, Word, Home, PathTaken, HasEmpty;
      EmptyTable(hash, t.bs);
      for i := 0 to |keys|
        invariant Spelled() && |t.bs| == old(|t.bs|)
        invariant Filed(hash, t.bs, t.where, keys[..i], AllLive(i))
      {
        FiledRoom(hash, t.bs, t.where, keys[..i], AllLive(i));
        var b := FindFree(Home(hash(keys[i]), mask));
        RefileStep(hash, t.bs, t.where, m, keys, i, b);
        File(b, i);
      }
      assert keys[..|keys|] == keys;
      t := Table(t.bs, t.where, keys, values, AllLive(|keys|), START);
    }

    /** Points bucket `b` at entry `i`. */
    method File(b: nat, i: nat)
      requires Spelled() && b < |t.bs| && i < |keys| && i < MAX_SLOTS
      modifies this`t, slots
      ensures Spelled() && t == old(t.(bs := t.bs[b := Holds(keys[i], i)], where := t.where + [b]))
    {
      slots[b] := i + 1;
      t := t.(bs := t.bs[b := Holds(keys[i], i)], where := t.where + [b]);
    }

    /** The first empty bucket from `h` on. */
    method FindFree(h: nat) returns (b: nat)
      requires Spelled() && HasEmpty(t.bs) && h < |t.bs|
      ensures b < |t.bs| && t.bs[b] == Empty && PathTaken(t.bs, h, b)
    {
      hide PathTaken, And, Pow2;
      PathHere(t.bs, h);
      b := h;
      ghost var e :| 0 <= e < |t.bs| && t.bs[e] == Empty;
      while b < slots.Length && slots[b] != EMPTY
        invariant b < |t.bs| && PathTaken(t.bs, h, b)
        decreases Dist(b, e, |t.bs|)
      {
        PathStep(t.bs, h, b);
        MaskNext(b, |t.bs|);
        b := And(b + 1, mask);
      }
    }

    /** Adds up what the map holds, modulo 2^32. */
    method Sum() returns (total: u32)
      requires Listed() && |t.keys| == |t.values| == |t.alive|
      ensures total == ToU32(Total(Contents()))
    {
      hide Pairs, Total, ToU32;
      ghost var sum: int := 0;
      total := ToU32(0);
      TotalNone(keys, values, alive);
      for i := 0 to |alive|
        invariant sum == Total(Pairs(keys[..i], values[..i], alive[..i])) && total == ToU32(sum)
      {
        TotalStep(keys, values, alive, i);
        if alive[i] && i < |values| {
          WrapAdd(sum, values[i]);
          total := ToU32(total + ToU32(values[i]));
          sum := sum + values[i];
        }
      }
      assert keys[..|keys|] == keys && values[..|keys|] == values && alive[..|keys|] == alive;
    }
  }
}
