/** Words that pack a fingerprint and an entry number, and what their fields give back. */
module Packing {
  import opened Words
  import opened Probing
  import opened OrderedTable

  /** 2^24 - 1: how many entries the `u32` layouts allow, and the mask of the field that numbers them. */
  const INDEX_CAP: int := 0xFF_FFFF

  // ---- `u32`: eight bits of the hash above 24 bits ----

  /** `h >>> 24`. */
  function Fingerprint(h: u32): (r: u32)
    ensures 16777216 * r <= h < 16777216 * (r + 1)
  {
    h / 0x100_0000
  }

  lemma {:induction false} OrBound(x: nat, y: nat, k: nat)
    requires x < Exp2(k) && y < Exp2(k)
    ensures Or(x, y) < Exp2(k)
  {
    if k > 0 && x > 0 && y > 0 {
      OrBound(x / 2, y / 2, k - 1);
    }
  }

  /** The word of the `u32` layouts. */
  function SlotOf32(h: u32, index: i32): (s: u32)
    requires IsI32(index + 1)
  {
    Exp2Of32();
    OrBound(Fingerprint(h) * 0x100_0000, ToU32(index + 1), 32);
    Or(Fingerprint(h) * 0x100_0000, ToU32(index + 1))
  }

  /** `toI32(slot & 16777215) - 1`. */
  function EntryOf32(s: u32): int {
    And(s, INDEX_CAP) - 1
  }

  lemma OrZero(x: nat, y: nat)
    ensures x == 0 ==> Or(x, y) == y
    ensures y == 0 ==> Or(x, y) == x
  {
  }

  lemma OrDouble(x: nat, y: nat)
    requires x > 0 && y > 0
    ensures Or(2 * x, y) % 2 == y % 2 && Or(2 * x, y) / 2 == Or(x, y / 2)
  {
  }

  lemma OrHalf(x: nat, y: nat, e: nat)
    requires x > 0 && y > 0 && e > 0
    ensures Or(2 * x, y) % (2 * e) == y % 2 + 2 * (Or(x, y / 2) % e)
  {
    hide Or;
    OrDouble(x, y);
    HalfMod(Or(2 * x, y), e);
  }

  /** Bits above the field do not reach into it. */
  lemma {:induction false} OrLow(a: nat, y: nat, k: nat)
    ensures Or(a * Exp2(k), y) % Exp2(k) == y % Exp2(k)
    decreases k
  {
    hide Or;
    OrZero(a * Exp2(k), y);
    if a > 0 && y == 0 {
      ModUnique(a * Exp2(k), a, 0, Exp2(k));
    } else if a > 0 && k > 0 {
      var e := Exp2(k - 1);
      MulSpread(a, e);
      assert a * Exp2(k) == 2 * (a * e);
      OrLow(a, y / 2, k - 1);
      OrHalf(a * e, y, e);
      HalfMod(y, e);
    }
  }

  lemma FieldMask(s: u32)
    ensures And(s, INDEX_CAP) == s % 0x100_0000
  {
    assert Pow2(0x1000);
    assert Pow2(0x100_0000);
    AndMask(s, 0x100_0000);
  }

  lemma Field24(a: nat, y: nat)
    ensures y < 0x100_0000 ==> Or(a * 0x100_0000, y) == a * 0x100_0000 + y
    ensures Or(a * 0x100_0000, y) % 0x100_0000 == y % 0x100_0000
  {
    hide Or;
    Exp2Of32();
    if y < 0x100_0000 {
      OrDisjoint(a, y, 24);
    }
    OrLow(a, y, 24);
  }

  /** Up to the cap, packing and unpacking undo each other, and a packed slot is neither
      the empty word nor the tombstone. */
  lemma PackUnpack32(h: u32, index: nat)
    requires index < INDEX_CAP
    ensures SlotOf32(h, index) == Fingerprint(h) * 16777216 + index + 1
    ensures Fingerprint(SlotOf32(h, index)) == Fingerprint(h)
    ensures EntryOf32(SlotOf32(h, index)) == index
    ensures SlotOf32(h, index) != 0 && SlotOf32(h, index) != 0x100_0000
  {
    hide Or, And;
    Field24(Fingerprint(h), index + 1);
    FieldMask(SlotOf32(h, index));
  }

  /** The cap is a real bound: past it the index does not come back. */
  lemma CapIsReal(h: u32, index: i32)
    requires 0 <= index && IsI32(index + 1)
    ensures EntryOf32(SlotOf32(h, index)) == index <==> index < INDEX_CAP
  {
    hide Or, And;
    Field24(Fingerprint(h), index + 1);
    FieldMask(SlotOf32(h, index));
  }

  /** The word of the `u32` layout for a bucket. */
  function Word32<K>(hash: K -> u32, x: Bucket<K>): int {
    match x
    case Empty => 0
    case Tomb => 0x100_0000
    case Holds(key, at) => if at < INDEX_CAP then SlotOf32(hash(key), at) else -1
  }

  /** What filing entry `index` of `key` writes. */
  lemma WordHolds32<K>(hash: K -> u32, key: K, index: nat)
    requires index < INDEX_CAP
    ensures Word32(hash, Holds(key, index)) == SlotOf32(hash(key), index)
  {
  }

  lemma WordOfEmpty<K>(hash: K -> u32)
    ensures Word32(hash, Empty) == 0
  {
  }

  /** Only the empty bucket's word is 0. */
  lemma WordEmpty32<K>(hash: K -> u32, x: Bucket<K>)
    requires Word32(hash, x) >= 0
    ensures Word32(hash, x) == 0 <==> x == Empty
  {
    if x.Holds? {
      PackUnpack32(hash(x.key), x.at);
    }
  }

  /** The test a `u32` probe makes of a word `s`: fingerprint, then stored hash, then key. */
  predicate Match32<K(==)>(s: u32, h: u32, key: K, keys: seq<K>, hashes: seq<u32>) {
    && Fingerprint(s) == Fingerprint(h)
    && var at := EntryOf32(s);
       at >= 0 && at < |hashes| && hashes[at] == h && at < |keys| && keys[at] == key
  }

  /** Each entry's stored hash: its key's while it lives, 0 once it is deleted. */
  ghost predicate Hashed<K>(hash: K -> u32, keys: seq<K>, alive: seq<bool>, hashes: seq<u32>) {
    && |hashes| == |keys| == |alive|
    && forall i | 0 <= i < |keys| :: hashes[i] == if alive[i] then hash(keys[i]) else 0
  }

  lemma HashedLength<K>(hash: K -> u32, keys: seq<K>, alive: seq<bool>, hashes: seq<u32>)
    requires Hashed(hash, keys, alive, hashes)
    ensures |hashes| == |keys| == |alive|
  {
  }

  /** The prototypes' hashes are never 0: a stored 0 marks a dead entry or an empty bucket. */
  ghost predicate NonZero<K(!new)>(hash: K -> u32) {
    forall k :: hash(k) != 0
  }

  /** The fingerprint test is the plain one: of any bucket, it passes exactly when the bucket
      holds the key. A deleted bucket never passes. */
  lemma FingerprintExact32<K>(hash: K -> u32, x: Bucket<K>, key: K, keys: seq<K>, alive: seq<bool>, hashes: seq<u32>)
    requires Hashed(hash, keys, alive, hashes) && |keys| <= INDEX_CAP
    requires x.Holds? ==> x.at < |keys| && alive[x.at] && keys[x.at] == x.key
    ensures 0 <= Word32(hash, x) < U32_SIZE
    ensures Word32(hash, x) == 0 <==> x == Empty
    ensures x.Holds? && x.key == key <==> x != Empty && Match32(Word32(hash, x), hash(key), key, keys, hashes)
    ensures x.Holds? ==> EntryOf32(Word32(hash, x)) == x.at
  {
    match x
    case Empty =>
    case Tomb => FieldMask(0x100_0000);
    case Holds(k, at) => PackUnpack32(hash(k), at);
  }

  // ---- `i64`: the whole hash above 32 bits ----

  const I64_SIZE: int := 0x1_0000_0000_0000_0000

  type i64 = x: int | -0x8000_0000_0000_0000 <= x < 0x8000_0000_0000_0000

  /** The 64 bits of an `i64`, read as unsigned. */
  function Bits64(x: int): (r: nat)
    ensures r < I64_SIZE
  {
    x % I64_SIZE
  }

  /** The `i64` with these 64 bits. */
  function Signed64(x: nat): (r: i64)
    requires x < I64_SIZE
    ensures Bits64(r) == x
  {
    if x < 0x8000_0000_0000_0000 then x else x - I64_SIZE
  }

  /** The word of the `i64` layout; a hash of 2^31 and up makes it negative. */
  function SlotOf64(h: u32, index: nat): (s: i64)
    requires index + 1 < 0x8000_0000
    ensures Bits64(s) == h * U32_SIZE + index + 1
  {
    Exp2Of32();
    OrDisjoint(h, index + 1, 32);
    Signed64(Or(h * U32_SIZE, index + 1))
  }

  /** `toU32(s >>> 32)`, the hash field. */
  function HashField(s: i64): u32 {
    Bits64(s) / U32_SIZE
  }

  /** `toI32(toU32(s)) - 1`, the entry index. */
  function EntryOf64(s: i64): int {
    ToI32(Bits64(s) % U32_SIZE) - 1
  }

  const TOMB64: i64 := 0xFFFF_FFFF

  function Word64<K>(hash: K -> u32, x: Bucket<K>): int {
    match x
    case Empty => 0
    case Tomb => TOMB64
    case Holds(key, at) => if at + 1 < 0x8000_0000 then SlotOf64(hash(key), at) else I64_SIZE
  }

  lemma WordHolds64<K>(hash: K -> u32, key: K, index: nat)
    requires index + 1 < 0x8000_0000
    ensures Word64(hash, Holds(key, index)) == SlotOf64(hash(key), index)
  {
  }

  lemma PackUnpack64(h: u32, index: nat)
    requires index + 1 < 0x8000_0000
    ensures HashField(SlotOf64(h, index)) == h && EntryOf64(SlotOf64(h, index)) == index
    ensures SlotOf64(h, index) != 0 && (h != 0 ==> SlotOf64(h, index) != TOMB64)
  {
  }

  lemma WordEmpty64<K>(hash: K -> u32, x: Bucket<K>)
    requires Word64(hash, x) < I64_SIZE
    ensures Word64(hash, x) == 0 <==> x == Empty
  {
    if x.Holds? {
      PackUnpack64(hash(x.key), x.at);
    }
  }

  /** The test an `i64` probe makes of a word: the whole hash, then the key. */
  predicate Match64<K(==)>(s: i64, h: u32, key: K, keys: seq<K>) {
    && HashField(s) == h
    && var at := EntryOf64(s);
       at >= 0 && at < |keys| && keys[at] == key
  }

  /** The same for the `i64` layout, where a tombstone has the fingerprint 0. */
  lemma FingerprintExact64<K>(hash: K -> u32, x: Bucket<K>, key: K, keys: seq<K>)
    requires hash(key) != 0 && |keys| < 0x7FFF_FFFF
    requires x.Holds? ==> x.at < |keys| && keys[x.at] == x.key
    ensures -0x8000_0000_0000_0000 <= Word64(hash, x) < 0x8000_0000_0000_0000
    ensures Word64(hash, x) == 0 <==> x == Empty
    ensures x.Holds? && x.key == key <==> x != Empty && Match64(Word64(hash, x), hash(key), key, keys)
    ensures x.Holds? ==> EntryOf64(Word64(hash, x)) == x.at
  {
    if x.Holds? {
      PackUnpack64(hash(x.key), x.at);
    }
  }
}
