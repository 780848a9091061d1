/** The same run on every layout: what a reader can see is the same. */
module Layouts {
  import opened Words
  import opened InsertionOrder
  import opened OrderedTable
  import opened Packing
  import opened RunLoads
  import opened Runs
  import L = LoadPolicy
  import P = PlainMap
  import F64 = Fp64Map
  import F32 = Fp32Map
  import U = UnorderedMap

  /** What a reader sees of a table: a lookup, the count of live keys, the wrapping sum. */
  datatype Seen = Seen(value: int, live: nat, sum: u32)

  /** What a run should show. */
  function Expected<K(==)>(ops: seq<Op<K>>, key: K, missing: int): Seen {
    Seen(Lookup(Run(ops), key, missing), |Run(ops)|, ToU32(Total(Run(ops))))
  }

  lemma RunPrefix<K>(ops: seq<Op<K>>, i: nat)
    requires i < |ops|
    ensures Run(ops[..i + 1]) == Step(Run(ops[..i]), ops[i])
    ensures MapRun(ops[..i + 1]) == MapStep(MapRun(ops[..i]), ops[i])
  {
    assert ops[..i + 1][..i] == ops[..i];
  }

  /** The live count is the number of entries the map has. */
  lemma LiveCount<K>(hash: K -> u32, t: Table<K>)
    requires Usable(hash, t) && Tracked(t)
    ensures t.load.live == |Meaning(t)|
  {
    PairsAt(t.keys, t.values, t.alive);
  }

  lemma MapStepCases<K>(m: map<K, int>, op: Op<K>)
    ensures op.Set? ==> MapStep(m, op) == m[op.key := op.value]
    ensures op.Add? ==> MapStep(m, op) == Raised(m, op.key, op.delta)
    ensures op.Delete? ==> MapStep(m, op) == m - {op.key}
  {
  }

  /** An operation case by case: its effect, when it fits, and what it adds to the load. */
  lemma StepCases<K>(e: Entries<K>, op: Op<K>, l: L.Load)
    ensures op.Set? ==> Step(e, op) == Put(e, op.key, op.value) && Fits(e, op)
    ensures op.Add? ==>
      Step(e, op) == Bump(e, op.key, op.delta)
      && (Fits(e, op) <==> Find(e, op.key) < 0 || IsI32(Lookup(e, op.key, 0) + op.delta))
    ensures op.Delete? ==> Step(e, op) == Remove(e, op.key) && Fits(e, op)
    ensures NewKey(e, op) <==> !op.Delete? && Find(e, op.key) < 0
    ensures !op.Delete? ==> Charged(l, e, op) == if Find(e, op.key) < 0 then L.Insert(l) else l
    ensures op.Delete? && Find(e, op.key) < 0 ==> Charged(l, e, op) == l
    ensures op.Delete? && Find(e, op.key) >= 0 && l.live > 0 ==> Charged(l, e, op) == L.Delete(l)
  {
  }

  /** The size of a tracked table is its load's. */
  lemma TrackedLoad<K>(t: Table<K>)
    requires Tracked(t)
    ensures t.load.slots == |t.bs| && t.load.used == |t.keys|
  {
  }

  /** The empty run passes and leaves nothing. */
  lemma Starts<K>(limit: Limit)
    ensures Run<K>([]) == [] && MapRun<K>([]) == map[] && LoadRun<K>([]) == L.START
    ensures BucketRun<K>([]) == L.INITIAL_SLOTS && Passes<K>(limit, [])
  {
  }

  /** One more operation of a run that has passed so far. */
  lemma Advances<K>(limit: Limit, ops: seq<Op<K>>, i: nat)
    requires i < |ops| && Passes(limit, ops[..i])
    ensures var e, ok := Run(ops[..i]), Fits(Run(ops[..i]), ops[i]) && (NewKey(Run(ops[..i]), ops[i]) ==> Room(limit, ops[..i]));
      && LoadRun(ops[..i + 1]) == Charged(LoadRun(ops[..i]), e, ops[i])
      && BucketRun(ops[..i + 1]) == L.Widened(BucketRun(ops[..i]), |Run(ops[..i + 1])|)
      && (ok ==> Passes(limit, ops[..i + 1]))
      && (!ok ==> !Passes(limit, ops))
    ensures match limit
      case Slots => Room(limit, ops[..i]) == (LoadRun(ops[..i]).slots < L.MAX_SLOTS)
      case Entries24 => Room(limit, ops[..i]) == (LoadRun(ops[..i]).used < INDEX_CAP)
      case Buckets => Room(limit, ops[..i]) == (BucketRun(ops[..i]) < L.MAX_SLOTS)
  {
    hide Run, Step, Charged, Fits, NewKey;
    assert ops[..i + 1][..i] == ops[..i];
    if Passes(limit, ops) {
      PassesPrefix(limit, ops, i + 1);
    }
  }

  /** One operation on the plain layout. It panics exactly when a value overflows or there is no room. */
  method StepPlain<K(==)>(t: P.PlainMap<K>, op: Op<K>) returns (out: Outcome)
    requires t.Valid()
    modifies t, t.slots
    ensures t.slots == old(t.slots) || fresh(t.slots)
    ensures out.Panicked? <==>
      !Fits(old(t.Contents()), op) || (NewKey(old(t.Contents()), op) && old(t.slots.Length) == L.MAX_SLOTS)
    ensures out.Done? ==> t.Valid() && t.Contents() == Step(old(t.Contents()), op)
    ensures out.Done? ==> t.t.load == Charged(old(t.t.load), old(t.Contents()), op)
  {
    hide Step, Lookup, Find, Put, Bump, Remove, Tracked, L.Insert, L.Delete, Usable, Fits, NewKey, Charged, Meaning;
    StepCases(t.Contents(), op, t.t.load);
    out := Done;
    match op
    case Set(k, v) => out := t.Set(k, v);
    case Add(k, d) => out := t.Add(k, d);
    case Delete(k) => var removed := t.Delete(k);
  }

  /** A run on the plain layout. It panics exactly when the run does not pass, and else the table is
      the ordered map of the run, with the run's load. */
  method RunPlain<K(==)>(hash: K -> u32, ops: seq<Op<K>>) returns (t: P.PlainMap<K>, out: Outcome)
    ensures fresh(t)
    ensures out.Done? <==> Passes(Slots, ops)
    ensures FitsAll(ops) && Peak(ops) <= Bound(Slots) ==> out.Done?
    ensures out.Done? ==> t.Valid() && t.hash == hash && t.Contents() == Run(ops) && t.t.load == LoadRun(ops)
    ensures out.Done? ==> 3 * t.slots.Length <= Max(24, 16 * Peak(ops)) && t.t.load.scanned <= 3 * NewKeys(ops)
  {
    hide Run, Step, Tracked, Usable, Charged, L.Sound, LoadRun, Passes, Room, Bound, FitsAll, Peak, NewKeys, Fits, NewKey;
    if FitsAll(ops) && Peak(ops) <= Bound(Slots) {
      PassesBelow(Slots, ops);
    }
    t := new P.PlainMap(hash);
    Starts<K>(Slots);
    assert ops[..0] == [];
    for i := 0 to |ops|
      invariant fresh(t) && fresh(t.slots) && t.hash == hash && t.Valid() && t.Contents() == Run(ops[..i])
      invariant t.t.load == LoadRun(ops[..i]) && Passes(Slots, ops[..i])
    {
      RunPrefix(ops, i);
      Advances(Slots, ops, i);
      TrackedLoad(t.t);
      out := StepPlain(t, ops[i]);
      if out.Panicked? {
        return;
      }
    }
    assert ops[..|ops|] == ops;
    TrackedLoad(t.t);
    RunCosts(ops);
    out := Done;
  }

  /** One operation on the `i64` layout. It panics exactly when a value overflows or there is no room. */
  method StepFp64<K(==,!new)>(t: F64.Fp64Map<K>, op: Op<K>) returns (out: Outcome)
    requires t.Valid()
    modifies t, t.slots
    ensures t.slots == old(t.slots) || fresh(t.slots)
    ensures out.Panicked? <==>
      !Fits(old(t.Contents()), op) || (NewKey(old(t.Contents()), op) && old(t.slots.Length) == L.MAX_SLOTS)
    ensures out.Done? ==> t.Valid() && t.Contents() == Step(old(t.Contents()), op)
    ensures out.Done? ==> t.t.load == Charged(old(t.t.load), old(t.Contents()), op)
  {
    hide Step, Lookup, Find, Put, Bump, Remove, Tracked, L.Insert, L.Delete, Usable, Fits, NewKey, Charged, Meaning;
    StepCases(t.Contents(), op, t.t.load);
    out := Done;
    match op
    case Set(k, v) => out := t.Set(k, v);
    case Add(k, d) => out := t.Add(k, d);
    case Delete(k) => var removed := t.Delete(k);
  }

  /** A run on the `i64` layout. It panics exactly when the run does not pass, and else the table is
      the ordered map of the run, with the run's load. */
  method RunFp64<K(==,!new)>(hash: K -> u32, ops: seq<Op<K>>) returns (t: F64.Fp64Map<K>, out: Outcome)
    requires NonZero(hash)
    ensures fresh(t)
    ensures out.Done? <==> Passes(Slots, ops)
    ensures FitsAll(ops) && Peak(ops) <= Bound(Slots) ==> out.Done?
    ensures out.Done? ==> t.Valid() && t.hash == hash && t.Contents() == Run(ops) && t.t.load == LoadRun(ops)
    ensures out.Done? ==> 3 * t.slots.Length <= Max(24, 16 * Peak(ops)) && t.t.load.scanned <= 3 * NewKeys(ops)
  {
    hide Run, Step, Tracked, Usable, Charged, L.Sound, LoadRun, Passes, Room, Bound, FitsAll, Peak, NewKeys, Fits, NewKey;
    if FitsAll(ops) && Peak(ops) <= Bound(Slots) {
      PassesBelow(Slots, ops);
    }
    t := new F64.Fp64Map(hash);
    Starts<K>(Slots);
    assert ops[..0] == [];
    for i := 0 to |ops|
      invariant fresh(t) && fresh(t.slots) && t.hash == hash && t.Valid() && t.Contents() == Run(ops[..i])
      invariant t.t.load == LoadRun(ops[..i]) && Passes(Slots, ops[..i])
    {
      RunPrefix(ops, i);
      Advances(Slots, ops, i);
      TrackedLoad(t.t);
      out := StepFp64(t, ops[i]);
      if out.Panicked? {
        return;
      }
    }
    assert ops[..|ops|] == ops;
    TrackedLoad(t.t);
    RunCosts(ops);
    out := Done;
  }

  /** One operation on the `u32` layout. It panics exactly when a value overflows or there is no room. */
  method StepFp32<K(==,!new)>(t: F32.Fp32Map<K>, op: Op<K>) returns (out: Outcome)
    requires t.Valid()
    modifies t, t.slots
    ensures t.slots == old(t.slots) || fresh(t.slots)
    ensures out.Panicked? <==>
      !Fits(old(t.Contents()), op) || (NewKey(old(t.Contents()), op) && old(|t.keys|) >= INDEX_CAP)
    ensures out.Done? ==> t.Valid() && t.Contents() == Step(old(t.Contents()), op)
    ensures out.Done? ==> t.t.load == Charged(old(t.t.load), old(t.Contents()), op)
  {
    hide Step, Lookup, Find, Put, Bump, Remove, Tracked, L.Insert, L.Delete, Usable, Fits, NewKey, Charged, Meaning;
    StepCases(t.Contents(), op, t.t.load);
    out := Done;
    match op
    case Set(k, v) => out := t.Set(k, v);
    case Add(k, d) => out := t.Add(k, d);
    case Delete(k) => var removed := t.Delete(k);
  }

  /** A run on the `u32` layout. It panics exactly when the run does not pass, and else the table is
      the ordered map of the run, with the run's load. */
  method RunFp32<K(==,!new)>(hash: K -> u32, ops: seq<Op<K>>) returns (t: F32.Fp32Map<K>, out: Outcome)
    requires NonZero(hash)
    ensures fresh(t)
    ensures out.Done? <==> Passes(Entries24, ops)
    ensures FitsAll(ops) && Peak(ops) <= Bound(Entries24) ==> out.Done?
    ensures out.Done? ==> t.Valid() && t.hash == hash && t.Contents() == Run(ops) && t.t.load == LoadRun(ops)
    ensures out.Done? ==> 3 * t.slots.Length <= Max(24, 16 * Peak(ops)) && t.t.load.scanned <= 3 * NewKeys(ops)
  {
    hide Run, Step, Tracked, Usable, Charged, L.Sound, LoadRun, Passes, Room, Bound, FitsAll, Peak, NewKeys, Fits, NewKey;
    if FitsAll(ops) && Peak(ops) <= Bound(Entries24) {
      PassesBelow(Entries24, ops);
    }
    t := new F32.Fp32Map(hash);
    Starts<K>(Entries24);
    assert ops[..0] == [];
    for i := 0 to |ops|
      invariant fresh(t) && fresh(t.slots) && t.hash == hash && t.Valid() && t.Contents() == Run(ops[..i])
      invariant t.t.load == LoadRun(ops[..i]) && Passes(Entries24, ops[..i])
    {
      RunPrefix(ops, i);
      Advances(Entries24, ops, i);
      TrackedLoad(t.t);
      out := StepFp32(t, ops[i]);
      if out.Panicked? {
        return;
      }
    }
    assert ops[..|ops|] == ops;
    TrackedLoad(t.t);
    RunCosts(ops);
    out := Done;
  }

  /** One operation on the unordered layout, seen as an ordered map with the same entries. */
  method StepUnordered<K(==,!new)>(t: U.UnorderedMap<K>, op: Op<K>, ghost e: Entries<K>) returns (out: Outcome)
    requires t.Valid() && Unique(e) && AsMap(e) == t.m
    modifies t, t.hashes, t.keys, t.values
    ensures (t.hashes == old(t.hashes) || fresh(t.hashes)) && (t.keys == old(t.keys) || fresh(t.keys))
    ensures t.values == old(t.values) || fresh(t.values)
    ensures out.Panicked? <==> !Fits(e, op) || (NewKey(e, op) && old(t.hashes.Length) == L.MAX_SLOTS)
    ensures out.Done? ==> t.Valid() && t.m == MapStep(old(t.m), op) && t.live == |t.m|
    ensures out.Done? ==> t.hashes.Length == L.Widened(old(t.hashes.Length), t.live)
  {
    hide MapStep, Raised, AsMap, Unique, U.Holding, U.Cell, L.Widened;
    MapStepCases(t.m, op);
    AsMapLookup(e, op.key);
    out := Done;
    match op {
      case Set(k, v) => out := t.Set(k, v);
      case Add(k, d) => out := t.Add(k, d);
      case Delete(k) => var removed := t.Delete(k);
    }
    if out.Done? {
      U.AtRest(t);
    }
  }

  /** A run on the unordered layout. It panics exactly when the run does not pass, and else the table
      is the finite map of the run. */
  method RunUnordered<K(==,!new)>(hash: K -> u32, ops: seq<Op<K>>) returns (t: U.UnorderedMap<K>, out: Outcome)
    requires NonZero(hash)
    ensures out.Done? <==> Passes(Buckets, ops)
    ensures FitsAll(ops) && Peak(ops) <= Bound(Buckets) ==> out.Done?
    ensures out.Done? ==> t.Valid() && t.m == MapRun(ops) && t.hashes.Length == BucketRun(ops)
    ensures out.Done? ==> 3 * t.hashes.Length <= Max(24, 8 * Peak(ops))
  {
    hide Run, MapRun, MapStep, At, Raised, U.Holding, U.Cell, NonZero, Pow2, L.Widened, Passes, Room, Bound, FitsAll, Peak,
         Fits, NewKey, BucketRun, LoadRun, AsMap, Unique;
    if FitsAll(ops) && Peak(ops) <= Bound(Buckets) {
      PassesBelow(Buckets, ops);
    }
    t := new U.UnorderedMap(hash);
    Starts<K>(Buckets);
    assert ops[..0] == [];
    for i := 0 to |ops|
      invariant fresh(t) && fresh(t.hashes) && fresh(t.keys) && fresh(t.values) && t.Valid() && t.m == MapRun(ops[..i])
      invariant t.hashes.Length == BucketRun(ops[..i]) <= L.MAX_SLOTS && Passes(Buckets, ops[..i])
    {
      RunPrefix(ops, i);
      Advances(Buckets, ops, i);
      RunsAgree(ops[..i]);
      RunsAgree(ops[..i + 1]);
      out := StepUnordered(t, ops[i], Run(ops[..i]));
      if out.Panicked? {
        return;
      }
    }
    assert ops[..|ops|] == ops;
    BucketRunMeans(ops);
    out := Done;
  }

  method SeePlain<K(==)>(t: P.PlainMap<K>, key: K, missing: int) returns (seen: Seen)
    requires t.Valid()
    modifies t`found
    ensures seen == Seen(Lookup(old(t.Contents()), key, missing), |old(t.Contents())|, ToU32(Total(old(t.Contents()))))
  {
    hide Lookup, Total, ToU32;
    LiveCount(t.hash, t.t);
    var v := t.Get(key, missing);
    var sum := t.Sum();
    seen := Seen(v, t.live, sum);
  }

  method SeeFp64<K(==,!new)>(t: F64.Fp64Map<K>, key: K, missing: int) returns (seen: Seen)
    requires t.Valid()
    modifies t`found
    ensures seen == Seen(Lookup(old(t.Contents()), key, missing), |old(t.Contents())|, ToU32(Total(old(t.Contents()))))
  {
    hide Lookup, Total, ToU32;
    LiveCount(t.hash, t.t);
    var v := t.Get(key, missing);
    var sum := t.Sum();
    seen := Seen(v, t.live, sum);
  }

  method SeeFp32<K(==,!new)>(t: F32.Fp32Map<K>, key: K, missing: int) returns (seen: Seen)
    requires t.Valid()
    modifies t`found
    ensures seen == Seen(Lookup(old(t.Contents()), key, missing), |old(t.Contents())|, ToU32(Total(old(t.Contents()))))
  {
    hide Lookup, Total, ToU32;
    LiveCount(t.hash, t.t);
    var v := t.Get(key, missing);
    var sum := t.Sum();
    seen := Seen(v, t.live, sum);
  }

  method SeeUnordered<K(==,!new)>(t: U.UnorderedMap<K>, ghost e: Entries<K>, key: K, missing: int) returns (seen: Seen)
    requires t.Valid() && Unique(e) && AsMap(e) == t.m
    ensures seen == Seen(Lookup(e, key, missing), |e|, ToU32(Total(e)))
  {
    AsMapLookup(e, key);
    AsMapSize(e);
    hide Total, ToU32, AsMap, Unique, Find;
    var v := t.Get(key, missing);
    var sum := t.Sum();
    seen := Seen(v, t.live, sum);
  }

  /** All four layouts show the same value for any key, the same count and the same wrapping sum: the
      ordered map's. They do so after exactly the runs that pass under all three limits, which are all
      runs, however long, that overflow no value and never hold more than 2^22 - 1 keys, and more. */
  method Observe<K(==,!new)>(hash: K -> u32, ops: seq<Op<K>>, key: K, missing: int) returns (seen: seq<Seen>, out: Outcome)
    requires NonZero(hash)
    ensures out.Done? <==> Passes(Slots, ops) && Passes(Entries24, ops) && Passes(Buckets, ops)
    ensures FitsAll(ops) && Peak(ops) <= Bound(Entries24) ==> out.Done?
    ensures out.Done? ==> seen == [Expected(ops, key, missing), Expected(ops, key, missing),
                                   Expected(ops, key, missing), Expected(ops, key, missing)]
  {
    hide NonZero, Usable, Tracked, Run, MapRun, AsMap, Unique, Passes, FitsAll, Peak, LoadRun, NewKeys, BucketRun;
    RunsAgree(ops);
    seen := [];
    var p, o := RunPlain(hash, ops);
    if o.Panicked? {
      return [], Panicked;
    }
    var s1 := SeePlain(p, key, missing);
    var f, o2 := RunFp64(hash, ops);
    if o2.Panicked? {
      return [], Panicked;
    }
    var s2 := SeeFp64(f, key, missing);
    var g, o3 := RunFp32(hash, ops);
    if o3.Panicked? {
      return [], Panicked;
    }
    var s3 := SeeFp32(g, key, missing);
    var u, o4 := RunUnordered(hash, ops);
    if o4.Panicked? {
      return [], Panicked;
    }
    var s4 := SeeUnordered(u, Run(ops), key, missing);
    return [s1, s2, s3, s4], Done;
  }
}
