/** JSON texts, by the grammar of sections 2 to 7 of RFC 8259, and what the scanner makes of them. */
module JsonPrint {
  import opened JsonScan
  import opened Words

  /** White space before and after a structural character. */
  datatype Pad = Pad(before: seq<byte>, after: seq<byte>)

  /** A character of a string: itself, a backslash and one of eight letters, or `u` and four hexadecimal digits. */
  datatype Char = Plain(b: byte) | Short(b: byte) | Long(hex: seq<byte>)

  datatype Exponent = NoExponent | Exponent(mark: byte, sign: seq<byte>, digits: seq<byte>)

  /** A number: its whole part, the digits after its point, none when it has no point, and its exponent. */
  datatype Number = Number(minus: bool, whole: seq<byte>, fraction: seq<byte>, exponent: Exponent)

  /** A value as it is written. */
  datatype Json =
    | Null
    | True
    | False
    | Numeric(n: Number)
    | String(text: seq<Char>)
    | Array(open: Pad, items: Items, close: Pad)
    | Object(open: Pad, members: Members, close: Pad)

  datatype Items = NoItems | OneItem(v: Json) | MoreItems(v: Json, comma: Pad, rest: Items)

  datatype Members =
    | NoMembers
    | OneMember(key: seq<Char>, colon: Pad, v: Json)
    | MoreMembers(key: seq<Char>, colon: Pad, v: Json, comma: Pad, rest: Members)

  // ---- The grammar ----

  /** White space is any number of spaces, tabs, line feeds and carriage returns. */
  predicate IsWhite(bytes: seq<byte>) {
    forall i | 0 <= i < |bytes| :: bytes[i] in {32, 9, 10, 13}
  }

  predicate GoodPad(p: Pad) {
    IsWhite(p.before) && IsWhite(p.after)
  }

  predicate AllDigits(bytes: seq<byte>) {
    forall i | 0 <= i < |bytes| :: 48 <= bytes[i] <= 57
  }

  predicate GoodExponent(e: Exponent) {
    e.Exponent? ==>
      && e.mark in {69, 101} && (e.sign == [] || e.sign == [43] || e.sign == [45])
      && e.digits != [] && AllDigits(e.digits)
  }

  /** The whole part is not empty and has no leading zero. */
  predicate GoodNumber(n: Number) {
    && n.whole != [] && AllDigits(n.whole) && (n.whole[0] == 48 ==> |n.whole| == 1)
    && AllDigits(n.fraction) && GoodExponent(n.exponent)
  }

  predicate AllHex(bytes: seq<byte>) {
    forall i | 0 <= i < |bytes| :: 48 <= bytes[i] <= 57 || 65 <= bytes[i] <= 70 || 97 <= bytes[i] <= 102
  }

  /** Control characters, the quote and the backslash must be escaped; bytes from 128 on, which
      spell the other characters in UTF-8, are let through. */
  predicate GoodChar(c: Char) {
    match c
    case Plain(b) => b >= 32 && b != 34 && b != 92
    case Short(b) => b in {34, 92, 47, 98, 102, 110, 114, 116}
    case Long(hex) => |hex| == 4 && AllHex(hex)
  }

  predicate GoodText(text: seq<Char>) {
    forall i | 0 <= i < |text| :: GoodChar(text[i])
  }

  predicate GoodJson(j: Json) {
    match j
    case Null => true
    case True => true
    case False => true
    case Numeric(n) => GoodNumber(n)
    case String(text) => GoodText(text)
    case Array(open, items, close) => GoodPad(open) && GoodItems(items) && GoodPad(close)
    case Object(open, members, close) => GoodPad(open) && GoodMembers(members) && GoodPad(close)
  }

  predicate GoodItems(xs: Items) {
    match xs
    case NoItems => true
    case OneItem(v) => GoodJson(v)
    case MoreItems(v, comma, rest) => GoodJson(v) && GoodPad(comma) && rest != NoItems && GoodItems(rest)
  }

  predicate GoodMembers(xs: Members) {
    match xs
    case NoMembers => true
    case OneMember(key, colon, v) => GoodText(key) && GoodPad(colon) && GoodJson(v)
    case MoreMembers(key, colon, v, comma, rest) =>
      GoodText(key) && GoodPad(colon) && GoodJson(v) && GoodPad(comma) && rest != NoMembers && GoodMembers(rest)
  }

  // ---- Printing ----

  function Padded(p: Pad, b: byte): seq<byte> {
    p.before + [b] + p.after
  }

  function PrintChar(c: Char): seq<byte> {
    match c
    case Plain(b) => [b]
    case Short(b) => [92, b]
    case Long(hex) => [92, 117] + hex
  }

  function PrintText(text: seq<Char>): seq<byte> {
    if text == [] then [] else PrintText(text[..|text| - 1]) + PrintChar(text[|text| - 1])
  }

  function Quoted(text: seq<Char>): seq<byte> {
    [34] + PrintText(text) + [34]
  }

  function PrintExponent(e: Exponent): seq<byte> {
    match e
    case NoExponent => []
    case Exponent(mark, sign, digits) => [mark] + sign + digits
  }

  function PrintNumber(n: Number): seq<byte> {
    (if n.minus then [45] else []) + n.whole
    + (if n.fraction == [] then [] else [46] + n.fraction) + PrintExponent(n.exponent)
  }

  function Print(j: Json): seq<byte> {
    match j
    case Null => [110, 117, 108, 108]
    case True => [116, 114, 117, 101]
    case False => [102, 97, 108, 115, 101]
    case Numeric(n) => PrintNumber(n)
    case String(text) => Quoted(text)
    case Array(open, items, close) => Padded(open, 91) + PrintItems(items) + Padded(close, 93)
    case Object(open, members, close) => Padded(open, 123) + PrintMembers(members) + Padded(close, 125)
  }

  function PrintItems(xs: Items): seq<byte> {
    match xs
    case NoItems => []
    case OneItem(v) => Print(v)
    case MoreItems(v, comma, rest) => Print(v) + Padded(comma, 44) + PrintItems(rest)
  }

  function PrintMembers(xs: Members): seq<byte> {
    match xs
    case NoMembers => []
    case OneMember(key, colon, v) => Quoted(key) + Padded(colon, 58) + Print(v)
    case MoreMembers(key, colon, v, comma, rest) =>
      Quoted(key) + Padded(colon, 58) + Print(v) + Padded(comma, 44) + PrintMembers(rest)
  }

  // ---- Counting and nesting ----

  /** Strings, brackets, commas and colons. */
  function Weight(j: Json): nat {
    match j
    case Null => 0
    case True => 0
    case False => 0
    case Numeric(_) => 0
    case String(_) => 1
    case Array(_, items, _) => 2 + ItemsWeight(items)
    case Object(_, members, _) => 2 + MembersWeight(members)
  }

  function ItemsWeight(xs: Items): nat {
    match xs
    case NoItems => 0
    case OneItem(v) => Weight(v)
    case MoreItems(v, _, rest) => Weight(v) + 1 + ItemsWeight(rest)
  }

  function MembersWeight(xs: Members): nat {
    match xs
    case NoMembers => 0
    case OneMember(_, _, v) => 2 + Weight(v)
    case MoreMembers(_, _, v, _, rest) => 2 + Weight(v) + 1 + MembersWeight(rest)
  }

  function Nesting(j: Json): nat {
    match j
    case Null => 0
    case True => 0
    case False => 0
    case Numeric(_) => 0
    case String(_) => 0
    case Array(_, items, _) => 1 + ItemsNesting(items)
    case Object(_, members, _) => 1 + MembersNesting(members)
  }

  function ItemsNesting(xs: Items): nat {
    match xs
    case NoItems => 0
    case OneItem(v) => Nesting(v)
    case MoreItems(v, _, rest) => Max(Nesting(v), ItemsNesting(rest))
  }

  function MembersNesting(xs: Members): nat {
    match xs
    case NoMembers => 0
    case OneMember(_, _, v) => Nesting(v)
    case MoreMembers(_, _, v, _, rest) => Max(Nesting(v), MembersNesting(rest))
  }

  // ---- Scanning what was printed ----

  /** Outside strings, in the middle of a document. */
  predicate Between(s: Scanner) {
    !s.inString && !s.escaped && !s.failed && 0 <= s.depth <= MAX_DEPTH
  }

  ghost predicate After(s: Scanner, bytes: seq<byte>, weight: nat, nesting: nat) {
    var r := Fold(s, bytes);
    if s.depth + nesting <= MAX_DEPTH then r == s.(tokens := s.tokens + weight) else r.failed
  }

  /** What reading `bytes` of weight `weight` and nesting `nesting` does: fail if the nesting does
      not fit under the depth the scanner is at, and otherwise count. */
  ghost predicate Reads(bytes: seq<byte>, weight: nat, nesting: nat) {
    forall s | Between(s) :: After(s, bytes, weight, nesting)
  }

  lemma ReadsConcat(a: seq<byte>, wa: nat, na: nat, b: seq<byte>, wb: nat, nb: nat)
    requires Reads(a, wa, na) && Reads(b, wb, nb)
    ensures Reads(a + b, wa + wb, Max(na, nb))
  {
    forall s | Between(s) ensures After(s, a + b, wa + wb, Max(na, nb)) {
      hide Fold, Next;
      FoldConcat(s, a, b);
      assert After(s, a, wa, na);
      if s.depth + na <= MAX_DEPTH {
        assert After(s.(tokens := s.tokens + wa), b, wb, nb);
      } else {
        FoldFailed(Fold(s, a), b);
      }
    }
  }

  /** None of the seven bytes that mean something outside strings. */
  predicate Inert(bytes: seq<byte>) {
    forall i | 0 <= i < |bytes| :: bytes[i] !in {34, 44, 58, 91, 93, 123, 125}
  }

  lemma {:induction false} ReadsInert(bytes: seq<byte>)
    requires Inert(bytes)
    ensures Reads(bytes, 0, 0)
  {
    if bytes != [] {
      var n := |bytes| - 1;
      ReadsInert(bytes[..n]);
      forall s | Between(s) ensures After(s, bytes, 0, 0) {
        assert After(s, bytes[..n], 0, 0);
      }
    }
  }

  lemma ReadsWhite(bytes: seq<byte>)
    requires IsWhite(bytes)
    ensures Reads(bytes, 0, 0)
  {
    ReadsInert(bytes);
  }

  lemma InertConcat(a: seq<byte>, b: seq<byte>)
    requires Inert(a) && Inert(b)
    ensures Inert(a + b)
  {
  }

  lemma InertDigits(digits: seq<byte>)
    requires AllDigits(digits)
    ensures Inert(digits)
  {
  }

  lemma InertExponent(e: Exponent)
    requires GoodExponent(e)
    ensures Inert(PrintExponent(e))
  {
    if e.Exponent? {
      hide AllDigits;
      InertDigits(e.digits);
      InertConcat([e.mark], e.sign);
      InertConcat([e.mark] + e.sign, e.digits);
    }
  }

  lemma InertNumber(n: Number)
    requires GoodNumber(n)
    ensures Inert(PrintNumber(n))
  {
    var sign, point: seq<byte> := if n.minus then [45] else [], if n.fraction == [] then [] else [46] + n.fraction;
    assert Inert(sign);
    InertDigits(n.whole);
    InertDigits(n.fraction);
    assert Inert([46]);
    hide Inert, PrintExponent, GoodExponent, AllDigits;
    InertExponent(n.exponent);
    InertConcat([46], n.fraction);
    InertConcat(sign, n.whole);
    InertConcat(sign + n.whole, point);
    InertConcat(sign + n.whole + point, PrintExponent(n.exponent));
  }

  /** Reading inside a string what is neither a quote nor a backslash. */
  lemma {:induction false} FoldPlain(s: Scanner, bytes: seq<byte>)
    requires s.inString && !s.escaped && !s.failed && forall i | 0 <= i < |bytes| :: bytes[i] !in {34, 92}
    ensures Fold(s, bytes) == s
  {
    if bytes != [] {
      FoldPlain(s, bytes[..|bytes| - 1]);
    }
  }

  lemma FoldChar(s: Scanner, c: Char)
    requires s.inString && !s.escaped && !s.failed && GoodChar(c)
    ensures Fold(s, PrintChar(c)) == s
  {
    match c
    case Plain(b) => FoldTwo(s, [b]);
    case Short(b) => FoldTwo(s, [92, b]);
    case Long(hex) =>
      FoldTwo(s, [92, 117]);
      FoldConcat(s, [92, 117], hex);
      FoldPlain(s, hex);
  }

  lemma {:induction false} FoldString(s: Scanner, text: seq<Char>)
    requires s.inString && !s.escaped && !s.failed && GoodText(text)
    ensures Fold(s, PrintText(text)) == s
  {
    if text != [] {
      hide Fold, PrintChar, GoodChar;
      var n := |text| - 1;
      FoldString(s, text[..n]);
      FoldConcat(s, PrintText(text[..n]), PrintChar(text[n]));
      FoldChar(s, text[n]);
    }
  }

  lemma ReadsQuoted(text: seq<Char>)
    requires GoodText(text)
    ensures Reads(Quoted(text), 1, 0)
  {
    forall s | Between(s) ensures After(s, Quoted(text), 1, 0) {
      var t := s.(inString := true);
      FoldTwo(s, [34]);
      FoldConcat(s, [34], PrintText(text));
      FoldString(t, text);
      FoldConcat(s, [34] + PrintText(text), [34]);
      FoldTwo(t, [34]);
    }
  }

  lemma ReadsSeparator(p: Pad, b: byte)
    requires GoodPad(p) && b in {44, 58}
    ensures Reads(Padded(p, b), 1, 0)
  {
    ReadsWhite(p.before);
    ReadsWhite(p.after);
    forall s | Between(s) ensures After(s, [b], 1, 0) {
      FoldTwo(s, [b]);
    }
    ReadsConcat(p.before, 0, 0, [b], 1, 0);
    ReadsConcat(p.before + [b], 1, 0, p.after, 0, 0);
  }

  lemma ReadsAfter(s: Scanner, bytes: seq<byte>, weight: nat, nesting: nat)
    requires Reads(bytes, weight, nesting) && Between(s)
    ensures After(s, bytes, weight, nesting)
  {
  }

  /** A padded bracket moves the depth. */
  lemma FoldBracket(s: Scanner, p: Pad, b: byte)
    requires Between(s) && GoodPad(p) && b in {91, 93, 123, 125}
    ensures var d := s.depth + if b in {91, 123} then 1 else -1; var r := Fold(s, Padded(p, b));
      if 0 <= d <= MAX_DEPTH then r == s.(depth := d, tokens := s.tokens + 1) else r.failed
  {
    hide Fold, Reads, IsWhite, Inert;
    ReadsWhite(p.before);
    ReadsWhite(p.after);
    ReadsAfter(s, p.before, 0, 0);
    FoldConcat(s, p.before, [b]);
    FoldTwo(s, [b]);
    var m := Next(s, b);
    FoldConcat(s, p.before + [b], p.after);
    if m.failed {
      FoldFailed(m, p.after);
    } else {
      ReadsAfter(m, p.after, 0, 0);
    }
  }

  lemma BracketedAfter(s: Scanner, open: Pad, o: byte, bytes: seq<byte>, close: Pad, c: byte, weight: nat, nesting: nat)
    requires GoodPad(open) && o in {91, 123} && GoodPad(close) && c in {93, 125}
    requires Reads(bytes, weight, nesting) && Between(s)
    ensures After(s, Padded(open, o) + bytes + Padded(close, c), 2 + weight, 1 + nesting)
  {
    hide Fold, Padded, Next, GoodPad, Reads;
    var s1 := Fold(s, Padded(open, o));
    var s2 := Fold(s1, bytes);
    FoldConcat(s, Padded(open, o), bytes);
    FoldConcat(s, Padded(open, o) + bytes, Padded(close, c));
    FoldBracket(s, open, o);
    if s1.failed {
      FoldFailed(s1, bytes);
      FoldFailed(s1, Padded(close, c));
    } else {
      ReadsAfter(s1, bytes, weight, nesting);
      if s2.failed {
        FoldFailed(s2, Padded(close, c));
      } else {
        FoldBracket(s2, close, c);
      }
    }
  }

  /** Brackets around what reads well: one level deeper, two tokens more. */
  lemma ReadsBracketed(open: Pad, o: byte, bytes: seq<byte>, close: Pad, c: byte, weight: nat, nesting: nat)
    requires GoodPad(open) && o in {91, 123} && GoodPad(close) && c in {93, 125} && Reads(bytes, weight, nesting)
    ensures Reads(Padded(open, o) + bytes + Padded(close, c), 2 + weight, 1 + nesting)
  {
    forall s | Between(s) ensures After(s, Padded(open, o) + bytes + Padded(close, c), 2 + weight, 1 + nesting) {
      BracketedAfter(s, open, o, bytes, close, c, weight, nesting);
    }
  }

  lemma {:induction false} ReadsJson(j: Json)
    requires GoodJson(j)
    ensures Reads(Print(j), Weight(j), Nesting(j))
    decreases j
  {
    hide Reads;
    match j
    case Null => ReadsInert([110, 117, 108, 108]);
    case True => ReadsInert([116, 114, 117, 101]);
    case False => ReadsInert([102, 97, 108, 115, 101]);
    case Numeric(n) =>
      InertNumber(n);
      ReadsInert(PrintNumber(n));
    case String(text) => ReadsQuoted(text);
    case Array(open, items, close) =>
      ReadsItems(items);
      ReadsBracketed(open, 91, PrintItems(items), close, 93, ItemsWeight(items), ItemsNesting(items));
    case Object(open, members, close) =>
      ReadsMembers(members);
      ReadsBracketed(open, 123, PrintMembers(members), close, 125, MembersWeight(members), MembersNesting(members));
  }

  lemma {:induction false} ReadsItems(xs: Items)
    requires GoodItems(xs)
    ensures Reads(PrintItems(xs), ItemsWeight(xs), ItemsNesting(xs))
    decreases xs
  {
    hide Reads, Padded;
    match xs
    case NoItems => ReadsInert([]);
    case OneItem(v) => ReadsJson(v);
    case MoreItems(v, comma, rest) =>
      ReadsJson(v);
      ReadsSeparator(comma, 44);
      ReadsItems(rest);
      ReadsConcat(Print(v), Weight(v), Nesting(v), Padded(comma, 44), 1, 0);
      ReadsConcat(Print(v) + Padded(comma, 44), Weight(v) + 1, Nesting(v),
                  PrintItems(rest), ItemsWeight(rest), ItemsNesting(rest));
  }

  lemma ReadsPair(key: seq<Char>, colon: Pad, v: Json)
    requires GoodText(key) && GoodPad(colon) && Reads(Print(v), Weight(v), Nesting(v))
    ensures Reads(Quoted(key) + Padded(colon, 58) + Print(v), 2 + Weight(v), Nesting(v))
  {
    hide Reads, Padded, Quoted;
    ReadsQuoted(key);
    ReadsSeparator(colon, 58);
    ReadsConcat(Quoted(key), 1, 0, Padded(colon, 58), 1, 0);
    ReadsConcat(Quoted(key) + Padded(colon, 58), 2, 0, Print(v), Weight(v), Nesting(v));
  }

  lemma {:induction false} ReadsMembers(xs: Members)
    requires GoodMembers(xs)
    ensures Reads(PrintMembers(xs), MembersWeight(xs), MembersNesting(xs))
    decreases xs
  {
    hide Reads, Padded, Quoted;
    match xs
    case NoMembers => ReadsInert([]);
    case OneMember(key, colon, v) =>
      ReadsJson(v);
      ReadsPair(key, colon, v);
    case MoreMembers(key, colon, v, comma, rest) =>
      ReadsJson(v);
      ReadsPair(key, colon, v);
      ReadsSeparator(comma, 44);
      ReadsMembers(rest);
      var pair := Quoted(key) + Padded(colon, 58) + Print(v);
      ReadsConcat(pair, 2 + Weight(v), Nesting(v), Padded(comma, 44), 1, 0);
      ReadsConcat(pair + Padded(comma, 44), 3 + Weight(v), Nesting(v),
                  PrintMembers(rest), MembersWeight(rest), MembersNesting(rest));
  }

  /** Scanning a JSON text, with white space around it, gives exactly its number of strings,
      brackets, commas and colons when it nests at most 64 deep, and the depth error otherwise. */
  lemma ScanPrinted(before: seq<byte>, j: Json, after: seq<byte>)
    requires GoodJson(j) && IsWhite(before) && IsWhite(after)
    ensures Scan(before + Print(j) + after) == if Nesting(j) <= 64 then Weight(j) else -1
  {
    hide Reads, Fold, IsWhite, GoodJson, Print;
    ReadsWhite(before);
    ReadsJson(j);
    ReadsWhite(after);
    ReadsConcat(before, 0, 0, Print(j), Weight(j), Nesting(j));
    ReadsConcat(before + Print(j), Weight(j), Nesting(j), after, 0, 0);
    ReadsAfter(FRESH, before + Print(j) + after, Weight(j), Nesting(j));
  }
}
