/** Linear probing over a cyclic bucket table, for every layout at once.

    A table is seen as a sequence of buckets. The five layouts differ in what
    they store in a bucket, not in where a key may sit, so what a probe finds,
    why it stops, and which writes keep every key findable are proved here,
    and each layout's loops are tied to these functions. */
module Probing {
  import opened Words

  /** A bucket: empty, a deleted entry's, or one that holds `key`, whose entry is number `at`. */
  datatype Bucket<K> = Empty | Tomb | Holds(key: K, at: nat)

  /** What a probe answers: the bucket that holds the key, the empty one it stopped at, or neither. */
  datatype Answer = Hit(bucket: nat) | Miss(bucket: nat) | Stuck

  /** `h ^ (h >>> 16)`. */
  function Fold(h: u32): u32 {
    Exp2Of32();
    Xor(h, h / 0x1_0000, 32)
  }

  /** Where the path of hash `h` begins. */
  function Home(h: u32, mask: nat): (b: nat)
    ensures b <= mask
  {
    And(ToI32(Fold(h)), mask)
  }

  lemma {:induction false} ExpSplit(a: nat, b: nat)
    ensures Exp2(a + b) == Exp2(a) * Exp2(b)
  {
    if a > 0 {
      ExpSplit(a - 1, b);
      assert 2 * Exp2(a - 1) * Exp2(b) == 2 * (Exp2(a - 1) * Exp2(b));
    }
  }

  lemma {:induction false} ExpPow2(k: nat)
    ensures Pow2(Exp2(k))
  {
    if k > 0 {
      ExpPow2(k - 1);
    }
  }

  /** Reading a word as signed does not change its low bits. */
  lemma SignedMod(v: u32, k: nat)
    requires k <= 32
    ensures ToI32(v) % Exp2(k) == v % Exp2(k)
  {
    hide Exp2;
    Exp2Of32();
    ExpSplit(32 - k, k);
    var n := Exp2(k);
    if v >= 0x8000_0000 {
      assert v == v / n * n + v % n;
      assert (v / n - Exp2(32 - k)) * n == v / n * n - Exp2(32 - k) * n;
      ModUnique(ToI32(v), v / n - Exp2(32 - k), v % n, n);
    }
  }

  lemma Exp2Of16()
    ensures Exp2(0) == 1 && Exp2(16) == 0x1_0000
  {
    assert Exp2(8) == 0x100;
  }

  /** In a table of `2^k` buckets bit `j` of the home is bit `j` of the hash, flipped by bit `j + 16`. */
  lemma HomeBits(h: u32, k: nat, j: nat)
    requires j < k <= 32
    ensures Bit(Home(h, Exp2(k) - 1), j) <==> Bit(h, j) != Bit(h, j + 16)
  {
    hide Bit, Xor, And, Pow2, Exp2;
    var width := 32;
    ExpPow2(k);
    AndMask(ToI32(Fold(h)), Exp2(k));
    SignedMod(Fold(h), k);
    ShiftLeftBits(Fold(h), 0, k, j);
    assert Exp2(0) == 1 && Exp2(16) == 0x1_0000 by { Exp2Of16(); }
    XorBits(h, h / 0x1_0000, width, j);
    ShiftRightDivides(h, 16);
    ShiftRightBits(h, 16, j);
  }

  function Next(b: nat, n: nat): nat {
    if b + 1 == n then 0 else b + 1
  }

  /** Steps from bucket `a` on to bucket `b`. */
  function Dist(a: nat, b: nat, n: nat): int {
    if a <= b then b - a else b + n - a
  }

  // ---- The mask arithmetic is the cyclic arithmetic ----

  lemma MaskNext(b: nat, n: nat)
    requires Pow2(n) && b < n
    ensures And(b + 1, n - 1) == Next(b, n)
  {
    AndMask(b + 1, n);
    if b + 1 == n {
      ModUnique(b + 1, 1, 0, n);
    } else {
      ModUnique(b + 1, 0, b + 1, n);
    }
  }

  lemma MaskDist(a: nat, b: nat, n: nat)
    requires Pow2(n) && a < n && b < n
    ensures And(b - a, n - 1) == Dist(a, b, n)
  {
    AndMask(b - a, n);
    if a <= b {
      ModUnique(b - a, 0, b - a, n);
    } else {
      ModUnique(b - a, -1, b - a + n, n);
    }
  }

  // ---- Probing ----

  /** The reference probe: from bucket `b`, compare every key met with `key`, for at most `steps` buckets. */
  function Walk<K(==)>(bs: seq<Bucket<K>>, key: K, b: nat, steps: nat): Answer
    requires b < |bs|
    decreases steps
  {
    if steps == 0 then Stuck
    else match bs[b]
      case Empty => Miss(b)
      case Tomb => Walk(bs, key, Next(b, |bs|), steps - 1)
      case Holds(k, _) => if k == key then Hit(b) else Walk(bs, key, Next(b, |bs|), steps - 1)
  }

  ghost predicate Occupied<K>(bs: seq<Bucket<K>>, b: int) {
    0 <= b < |bs| && bs[b].Holds?
  }

  /** One step of a probe that answers. */
  lemma WalkStep<K>(bs: seq<Bucket<K>>, key: K, b: nat, steps: nat)
    requires b < |bs| && Walk(bs, key, b, steps) != Stuck
    ensures steps > 0
    ensures bs[b].Empty? ==> Walk(bs, key, b, steps) == Miss(b)
    ensures bs[b].Holds? && bs[b].key == key ==> Walk(bs, key, b, steps) == Hit(b) && Occupied(bs, b)
    ensures bs[b].Tomb? || (Occupied(bs, b) && bs[b].key != key) ==>
      Walk(bs, key, b, steps) == Walk(bs, key, Next(b, |bs|), steps - 1)
  {
  }

  /** A probe for `key` over the whole table. */
  function Seek<K(==)>(hash: K -> u32, bs: seq<Bucket<K>>, key: K): Answer
    requires bs != []
  {
    Walk(bs, key, Home(hash(key), |bs| - 1), |bs|)
  }

  lemma SeekIsWalk<K>(hash: K -> u32, bs: seq<Bucket<K>>, key: K)
    requires bs != []
    ensures Seek(hash, bs, key) == Walk(bs, key, Home(hash(key), |bs| - 1), |bs|)
  {
  }

  /** No empty bucket lies on the way from bucket `h` to bucket `b`. */
  ghost predicate PathTaken<K>(bs: seq<Bucket<K>>, h: nat, b: nat) {
    forall c | 0 <= c < |bs| && Dist(h, c, |bs|) < Dist(h, b, |bs|) :: bs[c] != Empty
  }

  /** Every key in the table is reachable from its home, and no key is there twice. */
  ghost predicate Reachable<K>(hash: K -> u32, bs: seq<Bucket<K>>) {
    && Pow2(|bs|)
    && (forall b | Occupied(bs, b) :: PathTaken(bs, Home(hash(bs[b].key), |bs| - 1), b))
    && (forall b, c | Occupied(bs, b) && Occupied(bs, c) && bs[b].key == bs[c].key :: b == c)
  }

  ghost predicate Absent<K>(bs: seq<Bucket<K>>, key: K) {
    forall b | Occupied(bs, b) :: bs[b].key != key
  }

  ghost predicate HasEmpty<K>(bs: seq<Bucket<K>>) {
    exists b :: 0 <= b < |bs| && bs[b] == Empty
  }

  /** How many buckets are taken, by live and dead entries alike. */
  function Taken<K>(bs: seq<Bucket<K>>): (n: nat)
    ensures n <= |bs|
  {
    if bs == [] then 0
    else Taken(bs[..|bs| - 1]) + if bs[|bs| - 1].Empty? then 0 else 1
  }

  lemma {:induction false} TakenUpdate<K>(bs: seq<Bucket<K>>, b: nat, x: Bucket<K>)
    requires b < |bs|
    ensures Taken(bs[b := x]) ==
            Taken(bs) - (if bs[b].Empty? then 0 else 1) + (if x.Empty? then 0 else 1)
  {
    var last := |bs| - 1;
    if b == last {
      assert bs[b := x][..last] == bs[..last];
    } else {
      assert bs[b := x][..last] == bs[..last][b := x];
      TakenUpdate(bs[..last], b, x);
    }
  }

  lemma {:induction false} TakenNone<K>(bs: seq<Bucket<K>>)
    requires forall b | 0 <= b < |bs| :: bs[b] == Empty
    ensures Taken(bs) == 0
  {
    if bs != [] {
      TakenNone(bs[..|bs| - 1]);
    }
  }

  /** A table that is not full of taken buckets has an empty one. */
  lemma {:induction false} NotAllTaken<K>(bs: seq<Bucket<K>>)
    requires Taken(bs) < |bs|
    ensures HasEmpty(bs)
  {
    var last := |bs| - 1;
    if bs[last] != Empty {
      NotAllTaken(bs[..last]);
      var b :| 0 <= b < last && bs[..last][b] == Empty;
      assert bs[b] == Empty;
    }
  }

  lemma {:induction false} WalkFinds<K>(bs: seq<Bucket<K>>, key: K, h: nat, b: nat, steps: nat)
    requires h < |bs| && b < |bs| && steps == |bs| - Dist(h, b, |bs|)
    requires HasEmpty(bs) && PathTaken(bs, h, b)
    requires forall c | Occupied(bs, c) && bs[c].key == key ::
      PathTaken(bs, h, c) && Dist(h, c, |bs|) >= Dist(h, b, |bs|)
    ensures match Walk(bs, key, b, steps)
      case Hit(b) => Occupied(bs, b) && bs[b].key == key
      case Miss(b) => b < |bs| && bs[b] == Empty && PathTaken(bs, h, b) && Absent(bs, key)
      case Stuck => false
    decreases steps
  {
    if bs[b] == Empty {
      assert Absent(bs, key);
    } else if !(bs[b].Holds? && bs[b].key == key) {
      var e :| 0 <= e < |bs| && bs[e] == Empty;
      assert Dist(h, e, |bs|) < |bs|;
      if Next(b, |bs|) != h {
        WalkFinds(bs, key, h, Next(b, |bs|), steps - 1);
      }
    }
  }

  /** The heart of probing: with an empty bucket left, a probe always answers; it hits
      the bucket that holds the key when there is one, and otherwise stops at an empty
      bucket that the key could be put in. */
  lemma SeekFinds<K>(hash: K -> u32, bs: seq<Bucket<K>>, key: K)
    requires Reachable(hash, bs) && HasEmpty(bs)
    ensures var h := Home(hash(key), |bs| - 1);
      match Seek(hash, bs, key)
      case Hit(b) => Occupied(bs, b) && bs[b].key == key
      case Miss(b) => b < |bs| && bs[b] == Empty && PathTaken(bs, h, b) && Absent(bs, key)
      case Stuck => false
  {
    var h := Home(hash(key), |bs| - 1);
    forall c | Occupied(bs, c) && bs[c].key == key ensures PathTaken(bs, h, c) {
      assert PathTaken(bs, Home(hash(bs[c].key), |bs| - 1), c);
    }
    WalkFinds(bs, key, h, h, |bs|);
  }

  /** A probe for a key hits exactly when some bucket holds it, and then at that bucket. */
  lemma SeekHits<K>(hash: K -> u32, bs: seq<Bucket<K>>, b: nat)
    requires Reachable(hash, bs) && HasEmpty(bs) && Occupied(bs, b)
    ensures Seek(hash, bs, bs[b].key) == Hit(b)
  {
    SeekFinds(hash, bs, bs[b].key);
  }

  // ---- The writes that keep every key findable ----

  /** Filing a new key in the empty bucket its probe stops at. */
  lemma FileKeeps<K>(hash: K -> u32, bs: seq<Bucket<K>>, b: nat, key: K, at: nat)
    requires Reachable(hash, bs) && Absent(bs, key)
    requires b < |bs| && bs[b] == Empty && PathTaken(bs, Home(hash(key), |bs| - 1), b)
    ensures Reachable(hash, bs[b := Holds(key, at)])
    ensures Taken(bs[b := Holds(key, at)]) == Taken(bs) + 1
  {
    var bs' := bs[b := Holds(key, at)];
    TakenUpdate(bs, b, Holds(key, at));
    forall c | Occupied(bs', c)
      ensures PathTaken(bs', Home(hash(bs'[c].key), |bs'| - 1), c)
    {
      if c != b {
        assert Occupied(bs, c);
        assert PathTaken(bs, Home(hash(bs[c].key), |bs| - 1), c);
      }
    }
    forall c, d | Occupied(bs', c) && Occupied(bs', d) && bs'[c].key == bs'[d].key
      ensures c == d
    {
      assert c != b ==> Occupied(bs, c);
      assert d != b ==> Occupied(bs, d);
    }
  }

  /** A tombstone in place of an entry: its key is gone and the rest stay findable. */
  lemma BuryKeeps<K>(hash: K -> u32, bs: seq<Bucket<K>>, b: nat)
    requires Reachable(hash, bs) && Occupied(bs, b)
    ensures Reachable(hash, bs[b := Tomb]) && Absent(bs[b := Tomb], bs[b].key)
    ensures Taken(bs[b := Tomb]) == Taken(bs)
  {
    var bs' := bs[b := Tomb];
    TakenUpdate(bs, b, Tomb);
    forall c | Occupied(bs', c)
      ensures PathTaken(bs', Home(hash(bs'[c].key), |bs'| - 1), c) && Occupied(bs, c)
    {
      assert PathTaken(bs, Home(hash(bs[c].key), |bs| - 1), c);
    }
  }

  lemma PathHere<K>(bs: seq<Bucket<K>>, h: nat)
    requires h < |bs|
    ensures PathTaken(bs, h, h)
  {
  }

  /** Stepping over a taken bucket extends the path walked. */
  lemma PathStep<K>(bs: seq<Bucket<K>>, h: nat, b: nat)
    requires h < |bs| && b < |bs| && bs[b] != Empty && PathTaken(bs, h, b)
    ensures PathTaken(bs, h, Next(b, |bs|))
  {
  }
}
