/** Whole runs on the compiler's table: what it holds, when it panics, and that an index once
    handed out stays good. */
module StringRuns {
  import opened Words
  import opened InsertionOrder
  import opened OrderedTable
  import opened Packing
  import S = StringMap

  datatype Call<K> = Set(key: K, value: i32) | Add(key: K, value: i32) | Count(key: K)

  /** The write a call makes; adding a key that is present makes none. */
  function Write<K(==)>(e: Entries<K>, c: Call<K>): seq<(K, int)> {
    match c
    case Set(k, v) => [(k, v as int)]
    case Add(k, v) => if Find(e, k) < 0 then [(k, v as int)] else []
    case Count(k) => [(k, Lookup(e, k, 0) + 1)]
  }

  /** What the table holds after the calls, `e` before them. */
  function StringRun<K(==)>(e: Entries<K>, calls: seq<Call<K>>): Entries<K> {
    if calls == [] then e
    else
      var before := StringRun(e, calls[..|calls| - 1]);
      PutAll(before, Write(before, calls[|calls| - 1]))
  }

  /** A call finds room for a new key, and a count stays an `i32`. */
  predicate CallFits<K(==)>(e: Entries<K>, c: Call<K>) {
    if Find(e, c.key) < 0 then |e| < INDEX_CAP
    else c.Count? ==> IsI32(Lookup(e, c.key, 0) + 1)
  }

  predicate StringPasses<K(==)>(e: Entries<K>, calls: seq<Call<K>>) {
    calls == [] ||
    (var front := calls[..|calls| - 1];
     StringPasses(e, front) && CallFits(StringRun(e, front), calls[|calls| - 1]))
  }

  function Writes<K(==)>(e: Entries<K>, calls: seq<Call<K>>): seq<(K, int)> {
    if calls == [] then []
    else
      var front := calls[..|calls| - 1];
      Writes(e, front) + Write(StringRun(e, front), calls[|calls| - 1])
  }

  lemma WriteOne<K>(e: Entries<K>, c: Call<K>)
    ensures var w := Write(e, c);
      |w| <= 1 && PutAll(e, w) == if w == [] then e else Put(e, w[0].0, w[0].1)
  {
    var w := Write(e, c);
    if w != [] {
      assert PutAll(e, w[..0]) == e;
    }
  }

  /** The calls are one sequence of writes. */
  lemma {:induction false} WritesMean<K>(e: Entries<K>, calls: seq<Call<K>>)
    ensures StringRun(e, calls) == PutAll(e, Writes(e, calls))
  {
    if calls != [] {
      var front, c := calls[..|calls| - 1], calls[|calls| - 1];
      hide Put, Write;
      WritesMean(e, front);
      var before, w := StringRun(e, front), Write(StringRun(e, front), c);
      WriteOne(before, c);
      if w == [] {
        assert Writes(e, front) + w == Writes(e, front);
      } else {
        assert (Writes(e, front) + w)[..|Writes(e, front)|] == Writes(e, front);
      }
    }
  }

  lemma {:induction false} PutAllUnique<K>(e: Entries<K>, writes: seq<(K, int)>)
    requires Unique(e)
    ensures Unique(PutAll(e, writes))
  {
    if writes != [] {
      var front, w := writes[..|writes| - 1], writes[|writes| - 1];
      hide Unique, Put;
      PutAllUnique(e, front);
      PutLaws(PutAll(e, front), w.0, w.1, w.0, 0);
    }
  }

  /** An index once found for a key is that key's index after any further calls. */
  lemma IndexForEver<K>(e: Entries<K>, calls: seq<Call<K>>, key: K)
    requires Unique(e)
    ensures Unique(StringRun(e, calls))
    ensures Find(e, key) >= 0 ==> Find(StringRun(e, calls), key) == Find(e, key)
  {
    WritesMean(e, calls);
    hide StringRun, Unique, Find;
    PutAllUnique(e, Writes(e, calls));
    if Find(e, key) >= 0 {
      PositionForEver(e, key, Writes(e, calls));
    }
  }

  lemma RunLast<K>(e: Entries<K>, calls: seq<Call<K>>)
    ensures calls == [] ==> StringRun(e, calls) == e
    ensures calls != [] ==>
      var before := StringRun(e, calls[..|calls| - 1]);
      StringRun(e, calls) == PutAll(before, Write(before, calls[|calls| - 1]))
  {
  }

  lemma {:induction false} StringPassesPrefix<K>(e: Entries<K>, calls: seq<Call<K>>, i: nat)
    requires StringPasses(e, calls) && i <= |calls|
    ensures StringPasses(e, calls[..i])
    decreases |calls|
  {
    if i == |calls| {
      assert calls[..i] == calls;
    } else {
      StringPassesPrefix(e, calls[..|calls| - 1], i);
      assert calls[..|calls| - 1][..i] == calls[..i];
    }
  }

  /** One more call of a run that has passed so far. */
  lemma StringAdvances<K>(e: Entries<K>, calls: seq<Call<K>>, i: nat)
    requires i < |calls| && StringPasses(e, calls[..i])
    ensures var b, c := StringRun(e, calls[..i]), calls[i];
      && StringRun(e, calls[..i + 1]) == PutAll(b, Write(b, c))
      && (CallFits(b, c) ==> StringPasses(e, calls[..i + 1]))
      && (!CallFits(b, c) ==> !StringPasses(e, calls))
  {
    hide StringRun, CallFits, Write;
    assert calls[..i + 1][..i] == calls[..i];
    if StringPasses(e, calls) {
      StringPassesPrefix(e, calls, i + 1);
    }
    RunLast(e, calls[..i + 1]);
  }

  lemma ContentsLength<K>(t: S.StringMap<K>)
    requires t.Valid()
    ensures |t.keys| == |t.Contents()|
  {
    S.AllPairs(t.t);
  }

  lemma CallCases<K>(e: Entries<K>, c: Call<K>)
    ensures c.Set? ==> PutAll(e, Write(e, c)) == Put(e, c.key, c.value)
    ensures c.Add? ==> PutAll(e, Write(e, c)) == if Find(e, c.key) < 0 then Put(e, c.key, c.value) else e
    ensures c.Count? ==> PutAll(e, Write(e, c)) == Put(e, c.key, Lookup(e, c.key, 0) + 1)
    ensures CallFits(e, c) ==
            if Find(e, c.key) < 0 then |e| < INDEX_CAP else c.Count? ==> IsI32(Lookup(e, c.key, 0) + 1)
  {
    WriteOne(e, c);
  }

  /** One call. It panics exactly when it does not fit. */
  method Make<K(==)>(t: S.StringMap<K>, c: Call<K>) returns (out: Outcome)
    requires t.Valid()
    modifies t, t.slots
    ensures t.slots == old(t.slots) || fresh(t.slots)
    ensures out.Done? <==> CallFits(old(t.Contents()), c)
    ensures out.Done? ==> t.Valid() && t.Contents() == PutAll(old(t.Contents()), Write(old(t.Contents()), c))
  {
    hide Put, Find, Meaning, PutAll, Usable, Write, CallFits, Lookup, Pairs, Hashed;
    ContentsLength(t);
    CallCases(t.Contents(), c);
    match c
    case Set(k, v) => out := t.Set(k, v);
    case Add(k, v) =>
      var absent;
      out, absent := t.Add(k, v);
    case Count(k) => out := t.Count(k);
  }

  lemma PassesNone<K>(e: Entries<K>)
    ensures StringPasses(e, [])
  {
  }

  /** Makes the calls one by one. The table ends as their run, unless the run does not pass. */
  method MakeAll<K(==)>(t: S.StringMap<K>, calls: seq<Call<K>>) returns (out: Outcome)
    requires t.Valid()
    modifies t, t.slots
    ensures t.slots == old(t.slots) || fresh(t.slots)
    ensures out.Done? <==> StringPasses(old(t.Contents()), calls)
    ensures out.Done? ==> t.Valid() && t.Contents() == StringRun(old(t.Contents()), calls)
  {
    hide StringRun, StringPasses, CallFits, Write, PutAll, Meaning, Usable;
    ghost var e := t.Contents();
    RunLast(e, []);
    PassesNone(e);
    assert calls[..0] == [];
    for i := 0 to |calls|
      invariant t.slots == old(t.slots) || fresh(t.slots)
      invariant t.Valid() && t.Contents() == StringRun(e, calls[..i]) && StringPasses(e, calls[..i])
    {
      StringAdvances(e, calls, i);
      out := Make(t, calls[i]);
      if out.Panicked? {
        return;
      }
    }
    assert calls[..|calls|] == calls;
    out := Done;
  }

  lemma ContentsUnique<K>(t: S.StringMap<K>)
    requires t.Valid()
    ensures Unique(t.Contents())
  {
    IndexedUnique(t.hash, t.t);
  }

  /** A caller may hold on to an index: whatever is called afterwards, the key still has it. */
  method HoldIndex<K(==)>(t: S.StringMap<K>, key: K, calls: seq<Call<K>>) returns (held: int, later: int, out: Outcome)
    requires t.Valid()
    modifies t, t.slots
    ensures held == Find(old(t.Contents()), key)
    ensures out.Done? <==> StringPasses(old(t.Contents()), calls)
    ensures out.Done? && held >= 0 ==> later == held
  {
    hide StringRun, StringPasses, Find, Unique, Usable;
    ghost var e := t.Contents();
    assert Unique(e) by {
      ContentsUnique(t);
    }
    held := t.Index(key);
    out := MakeAll(t, calls);
    later := held;
    if out.Done? {
      IndexForEver(e, calls, key);
      later := t.Index(key);
    }
  }

  // ---- Counting counts ----

  /** Which of the calls count `key`. */
  function Counts<K(==)>(calls: seq<Call<K>>, key: K): set<int> {
    set i | 0 <= i < |calls| && calls[i] == Count(key)
  }

  lemma CountsLast<K>(calls: seq<Call<K>>, key: K)
    requires calls != []
    ensures |Counts(calls, key)| ==
            |Counts(calls[..|calls| - 1], key)| + if calls[|calls| - 1] == Count(key) then 1 else 0
  {
    var n := |calls| - 1;
    assert Counts(calls, key) == Counts(calls[..n], key) + if calls[n] == Count(key) then {n} else {};
  }

  lemma WriteLaws<K>(e: Entries<K>, c: Call<K>, key: K)
    requires Unique(e) && (c.key == key ==> c.Count?)
    ensures Unique(PutAll(e, Write(e, c)))
    ensures Lookup(PutAll(e, Write(e, c)), key, 0) == Lookup(e, key, 0) + if c.key == key then 1 else 0
  {
    hide PutAll, Put, Lookup, Find;
    var w := Write(e, c);
    WriteOne(e, c);
    if w != [] {
      PutLaws(e, w[0].0, w[0].1, key, 0);
    }
  }

  /** A key that is only counted has been counted as often as it was asked to be. */
  lemma {:induction false} CountsCounted<K>(e: Entries<K>, calls: seq<Call<K>>, key: K)
    requires Unique(e) && forall i | 0 <= i < |calls| :: calls[i].key == key ==> calls[i].Count?
    ensures Unique(StringRun(e, calls))
    ensures Lookup(StringRun(e, calls), key, 0) == Lookup(e, key, 0) + |Counts(calls, key)|
    decreases |calls|
  {
    if calls == [] {
      assert Counts(calls, key) == {};
    } else {
      hide PutAll, Lookup, Unique, Write, Counts;
      var front := calls[..|calls| - 1];
      CountsCounted(e, front, key);
      CountsLast(calls, key);
      WriteLaws(StringRun(e, front), calls[|calls| - 1], key);
    }
  }
}
