/** The byte-level JSON scanner: what its one pass counts and when it refuses. */
module JsonScan {
  import opened Words

  const ERR_DEPTH: int := -1
  const ERR_UNTERMINATED: int := -2
  const MAX_DEPTH: int := 64

  const QUOTE: byte := 34
  const BACKSLASH: byte := 92

  // ---- The scanner ----

  /** The loop's variables; `failed` once it has returned early. */
  datatype Scanner = Scanner(tokens: int, depth: int, inString: bool, escaped: bool, failed: bool)

  const FRESH: Scanner := Scanner(0, 0, false, false, false)

  function Next(s: Scanner, b: byte): Scanner {
    if s.failed then s
    else if s.inString then
      if s.escaped then s.(escaped := false)
      else if b == BACKSLASH then s.(escaped := true)
      else if b == QUOTE then s.(inString := false, tokens := s.tokens + 1)
      else s
    else if b == QUOTE then s.(inString := true)
    else if b == 123 || b == 91 then
      if s.depth + 1 > MAX_DEPTH then s.(failed := true) else s.(depth := s.depth + 1, tokens := s.tokens + 1)
    else if b == 125 || b == 93 then
      if s.depth - 1 < 0 then s.(failed := true) else s.(depth := s.depth - 1, tokens := s.tokens + 1)
    else if b == 44 || b == 58 then s.(tokens := s.tokens + 1)
    else s
  }

  function Fold(s: Scanner, bytes: seq<byte>): Scanner {
    if bytes == [] then s else Next(Fold(s, bytes[..|bytes| - 1]), bytes[|bytes| - 1])
  }

  function Answer(s: Scanner): int {
    if s.failed then ERR_DEPTH
    else if s.inString || s.depth != 0 then ERR_UNTERMINATED
    else s.tokens
  }

  function Scan(bytes: seq<byte>): int {
    Answer(Fold(FRESH, bytes))
  }

  lemma {:induction false} FoldFailed(s: Scanner, bytes: seq<byte>)
    requires s.failed
    ensures Fold(s, bytes) == s
  {
    if bytes != [] {
      FoldFailed(s, bytes[..|bytes| - 1]);
    }
  }

  lemma {:induction false} FoldConcat(s: Scanner, a: seq<byte>, b: seq<byte>)
    ensures Fold(s, a + b) == Fold(Fold(s, a), b)
  {
    if b == [] {
      assert a + b == a;
    } else {
      assert (a + b)[..|a + b| - 1] == a + b[..|b| - 1];
      FoldConcat(s, a, b[..|b| - 1]);
    }
  }

  /** One pass over the bytes: the number of structural tokens, or a negative error code. */
  method ScanJson(bytes: array<byte>) returns (r: int)
    ensures r == Scan(bytes[..])
  {
    var tokens, depth := 0, 0;
    var inString, escaped := false, false;
    for i := 0 to bytes.Length
      invariant Fold(FRESH, bytes[..i]) == Scanner(tokens, depth, inString, escaped, false)
    {
      var b := bytes[i];
      assert bytes[..i + 1][..i] == bytes[..i];
      assert bytes[..] == bytes[..i + 1] + bytes[i + 1..];
      FoldConcat(FRESH, bytes[..i + 1], bytes[i + 1..]);
      if inString {
        if escaped {
          escaped := false;
        } else if b == 92 {
          escaped := true;
        } else if b == 34 {
          inString := false;
          tokens := tokens + 1;
        }
      } else if b == 34 {
        inString := true;
      } else if b == 123 || b == 91 {
        depth := depth + 1;
        if depth > MAX_DEPTH {
          FoldFailed(Fold(FRESH, bytes[..i + 1]), bytes[i + 1..]);
          return ERR_DEPTH;
        }
        tokens := tokens + 1;
      } else if b == 125 || b == 93 {
        depth := depth - 1;
        if depth < 0 {
          FoldFailed(Fold(FRESH, bytes[..i + 1]), bytes[i + 1..]);
          return ERR_DEPTH;
        }
        tokens := tokens + 1;
      } else if b == 44 || b == 58 {
        tokens := tokens + 1;
      }
    }
    assert bytes[..bytes.Length] == bytes[..];
    if inString || depth != 0 {
      return ERR_UNTERMINATED;
    }
    r := tokens;
  }

  /** `isJsonShaped`. */
  method IsJsonShaped(bytes: array<byte>) returns (shaped: bool)
    ensures shaped <==> Scan(bytes[..]) >= 0
  {
    var r := ScanJson(bytes);
    shaped := r >= 0;
  }

  // ---- What a byte sequence is made of ----

  /** A piece of a string: a byte that is neither quote nor backslash, or a backslash and any byte. */
  datatype Piece = Plain(b: byte) | Escape(b: byte)

  /** A token: a closed string, or one byte outside strings. */
  datatype Token = Text(body: seq<Piece>) | Mark(b: byte)

  /** Tokens, and then perhaps the start of a string that is never closed, perhaps at a backslash. */
  datatype Document = Whole(tokens: seq<Token>) | Cut(tokens: seq<Token>, body: seq<Piece>, dangling: bool)

  function Spell(p: Piece): seq<byte> {
    match p
    case Plain(b) => [b]
    case Escape(b) => [BACKSLASH, b]
  }

  function SpellAll(body: seq<Piece>): seq<byte> {
    if body == [] then [] else SpellAll(body[..|body| - 1]) + Spell(body[|body| - 1])
  }

  function Render(t: Token): seq<byte> {
    match t
    case Text(body) => [QUOTE] + SpellAll(body) + [QUOTE]
    case Mark(b) => [b]
  }

  function RenderAll(ts: seq<Token>): seq<byte> {
    if ts == [] then [] else RenderAll(ts[..|ts| - 1]) + Render(ts[|ts| - 1])
  }

  function Bytes(d: Document): seq<byte> {
    match d
    case Whole(ts) => RenderAll(ts)
    case Cut(ts, body, dangling) =>
      RenderAll(ts) + [QUOTE] + SpellAll(body) + if dangling then [BACKSLASH] else []
  }

  predicate GoodPiece(p: Piece) {
    p.Plain? ==> p.b != QUOTE && p.b != BACKSLASH
  }

  predicate GoodBody(body: seq<Piece>) {
    forall i | 0 <= i < |body| :: GoodPiece(body[i])
  }

  predicate GoodToken(t: Token) {
    match t
    case Text(body) => GoodBody(body)
    case Mark(b) => b != QUOTE
  }

  predicate Good(d: Document) {
    (forall i | 0 <= i < |d.tokens| :: GoodToken(d.tokens[i])) && (d.Cut? ==> GoodBody(d.body))
  }

  // ---- The verdict on a document, without reading it byte by byte ----

  /** The bytes `,:[]{}`. */
  predicate Structural(b: byte) {
    b in {44, 58, 91, 93, 123, 125}
  }

  /** How many of the tokens are counted: the strings and the structural bytes. */
  function Counted(ts: seq<Token>): nat {
    if ts == [] then 0
    else Counted(ts[..|ts| - 1]) + if ts[|ts| - 1].Text? || Structural(ts[|ts| - 1].b) then 1 else 0
  }

  function Opens(t: Token): int {
    match t
    case Text(_) => 0
    case Mark(b) => if b in {91, 123} then 1 else if b in {93, 125} then -1 else 0
  }

  /** Brackets opened and not closed. */
  function Depth(ts: seq<Token>): int {
    if ts == [] then 0 else Depth(ts[..|ts| - 1]) + Opens(ts[|ts| - 1])
  }

  /** The bracket depth outside strings stays within bounds at every token. */
  predicate InBounds(ts: seq<Token>) {
    ts == [] || (InBounds(ts[..|ts| - 1]) && 0 <= Depth(ts) <= 64)
  }

  lemma {:induction false} InBoundsEverywhere(ts: seq<Token>)
    ensures InBounds(ts) <==> forall i | 0 <= i <= |ts| :: 0 <= Depth(ts[..i]) <= 64
  {
    assert ts[..|ts|] == ts;
    if ts != [] {
      var front := ts[..|ts| - 1];
      InBoundsEverywhere(front);
      assert forall i | 0 <= i <= |front| :: front[..i] == ts[..i];
    }
  }

  function Verdict(d: Document): int {
    if !InBounds(d.tokens) then -1
    else if d.Cut? || Depth(d.tokens) != 0 then -2
    else Counted(d.tokens)
  }

  lemma FoldTwo(s: Scanner, b: seq<byte>)
    ensures |b| == 1 ==> Fold(s, b) == Next(s, b[0])
    ensures |b| == 2 ==> Fold(s, b) == Next(Next(s, b[0]), b[1])
  {
    if |b| == 2 {
      assert b[..1] == [b[0]] && b[..1][..0] == [];
    }
    if |b| == 1 {
      assert b[..0] == [];
    }
  }

  lemma {:induction false} FoldBody(s: Scanner, body: seq<Piece>)
    requires GoodBody(body) && s.inString && !s.escaped && !s.failed
    ensures Fold(s, SpellAll(body)) == s
  {
    if body != [] {
      var n := |body| - 1;
      FoldBody(s, body[..n]);
      assert GoodPiece(body[n]);
      FoldConcat(s, SpellAll(body[..n]), Spell(body[n]));
      FoldTwo(s, Spell(body[n]));
    }
  }

  lemma FoldText(s: Scanner, body: seq<Piece>)
    requires GoodBody(body) && !s.inString && !s.escaped && !s.failed
    ensures Fold(s, [QUOTE] + SpellAll(body)) == s.(inString := true)
    ensures Fold(s, Render(Text(body))) == s.(tokens := s.tokens + 1)
  {
    FoldTwo(s, [QUOTE]);
    FoldConcat(s, [QUOTE], SpellAll(body));
    FoldBody(s.(inString := true), body);
    FoldConcat(s, [QUOTE] + SpellAll(body), [QUOTE]);
    FoldTwo(s.(inString := true), [QUOTE]);
  }

  lemma FoldToken(s: Scanner, t: Token)
    requires GoodToken(t) && !s.inString && !s.escaped && !s.failed && 0 <= s.depth <= MAX_DEPTH
    ensures var r := Fold(s, Render(t));
      if 0 <= s.depth + Opens(t) <= MAX_DEPTH
      then r == s.(tokens := s.tokens + (if t.Text? || Structural(t.b) then 1 else 0), depth := s.depth + Opens(t))
      else r.failed
  {
    match t
    case Text(body) => FoldText(s, body);
    case Mark(b) => FoldTwo(s, [b]);
  }

  /** After some tokens the scanner has counted them and knows the depth, unless it has failed. */
  lemma {:induction false} FoldTokens(ts: seq<Token>)
    requires forall i | 0 <= i < |ts| :: GoodToken(ts[i])
    ensures var s := Fold(FRESH, RenderAll(ts));
      if InBounds(ts) then s == Scanner(Counted(ts), Depth(ts), false, false, false) && 0 <= s.depth <= 64
      else s.failed
  {
    if ts != [] {
      hide Fold, Render, GoodToken, Opens;
      var n := |ts| - 1;
      var s := Fold(FRESH, RenderAll(ts[..n]));
      FoldTokens(ts[..n]);
      FoldConcat(FRESH, RenderAll(ts[..n]), Render(ts[n]));
      if s.failed {
        FoldFailed(s, Render(ts[n]));
      } else {
        FoldToken(s, ts[n]);
      }
    }
  }

  /** However a document is written down, the scanner's answer is the verdict on it. */
  lemma ScanIsVerdict(d: Document)
    requires Good(d)
    ensures Scan(Bytes(d)) == Verdict(d)
  {
    FoldTokens(d.tokens);
    if d.Cut? {
      var s, tail := Fold(FRESH, RenderAll(d.tokens)), if d.dangling then [BACKSLASH] else [];
      var start := [QUOTE] + SpellAll(d.body);
      assert Bytes(d) == RenderAll(d.tokens) + (start + tail);
      FoldConcat(FRESH, RenderAll(d.tokens), start + tail);
      if s.failed {
        FoldFailed(s, start + tail);
      } else {
        FoldText(s, d.body);
        FoldConcat(s, start, tail);
        FoldTwo(s.(inString := true), tail);
      }
    }
  }

  // ---- Every byte sequence is a document ----

  function Read(d: Document, b: byte): Document {
    match d
    case Whole(ts) => if b == QUOTE then Cut(ts, [], false) else Whole(ts + [Mark(b)])
    case Cut(ts, body, dangling) =>
      if dangling then Cut(ts, body + [Escape(b)], false)
      else if b == BACKSLASH then Cut(ts, body, true)
      else if b == QUOTE then Whole(ts + [Text(body)])
      else Cut(ts, body + [Plain(b)], false)
  }

  function Parse(bytes: seq<byte>): Document {
    if bytes == [] then Whole([]) else Read(Parse(bytes[..|bytes| - 1]), bytes[|bytes| - 1])
  }

  lemma RenderPush(ts: seq<Token>, t: Token)
    ensures RenderAll(ts + [t]) == RenderAll(ts) + Render(t)
  {
    assert (ts + [t])[..|ts|] == ts;
  }

  lemma SpellPush(body: seq<Piece>, p: Piece)
    ensures SpellAll(body + [p]) == SpellAll(body) + Spell(p)
  {
    assert (body + [p])[..|body|] == body;
  }

  lemma SpellNone()
    ensures SpellAll([]) == []
  {
  }

  lemma ReadBytes(d: Document, b: byte)
    requires Good(d)
    ensures Good(Read(d, b)) && Bytes(Read(d, b)) == Bytes(d) + [b]
  {
    hide RenderAll, SpellAll;
    match d
    case Whole(ts) => RenderPush(ts, Mark(b));
      SpellNone();
    case Cut(ts, body, dangling) =>
      RenderPush(ts, Text(body));
      SpellPush(body, if dangling then Escape(b) else Plain(b));
  }

  /** Any bytes at all are some document's, so the verdict is known for all of them. */
  lemma {:induction false} ParseBytes(bytes: seq<byte>)
    ensures Good(Parse(bytes)) && Bytes(Parse(bytes)) == bytes
  {
    if bytes != [] {
      hide Good, Bytes, Read;
      ParseBytes(bytes[..|bytes| - 1]);
      ReadBytes(Parse(bytes[..|bytes| - 1]), bytes[|bytes| - 1]);
    }
  }

  /** The scanner accepts exactly the bytes in which all strings close and the bracket depth
      outside strings stays in bounds and ends at 0; then it answers the number of tokens. */
  lemma AcceptsExactly(bytes: seq<byte>)
    ensures var d := Parse(bytes);
      && (Scan(bytes) >= 0 <==> d.Whole? && InBounds(d.tokens) && Depth(d.tokens) == 0)
      && (Scan(bytes) >= 0 ==> Scan(bytes) == Counted(d.tokens))
      && (Scan(bytes) == -1 <==> !InBounds(d.tokens))
      && (Scan(bytes) < 0 && Scan(bytes) != -1 ==> Scan(bytes) == -2)
  {
    ParseBytes(bytes);
    ScanIsVerdict(Parse(bytes));
  }

  // ---- Which bytes outside strings matter ----

  /** The bytes end between two tokens, with no bracket too many. */
  predicate BetweenTokens(bytes: seq<byte>) {
    var d := Parse(bytes);
    d.Whole? && InBounds(d.tokens)
  }

  ghost predicate SameScan(a: seq<byte>, b: seq<byte>) {
    Scan(a) == Scan(b)
  }

  function Closers(n: nat): (r: seq<byte>)
    ensures |r| == n
  {
    if n == 0 then [] else Closers(n - 1) + [93]
  }

  lemma FoldNone(s: Scanner)
    ensures Fold(s, []) == s
  {
  }

  lemma {:induction false} FoldClosers(s: Scanner, n: nat)
    requires !s.failed && !s.escaped && s.depth >= 0
    ensures var r := Fold(s, Closers(n));
      if s.inString then r == s
      else if n <= s.depth then r == s.(depth := s.depth - n, tokens := s.tokens + n)
      else r.failed
  {
    hide Fold;
    if n == 0 {
      FoldNone(s);
    } else {
      FoldClosers(s, n - 1);
      FoldConcat(s, Closers(n - 1), [93]);
      FoldTwo(Fold(s, Closers(n - 1)), [93]);
    }
  }

  lemma ScanFrom(before: seq<byte>, s: Scanner, b: byte, after: seq<byte>)
    requires Fold(FRESH, before) == s
    ensures Scan(before + after) == Answer(Fold(s, after))
    ensures Scan(before + [b] + after) == Answer(Fold(Next(s, b), after))
  {
    FoldConcat(FRESH, before, after);
    FoldConcat(FRESH, before, [b]);
    FoldConcat(FRESH, before + [b], after);
    FoldTwo(s, [b]);
  }

  /** Between tokens a byte can be left out, whatever follows, exactly when it is not a quote,
      a bracket, a brace, a comma or a colon. */
  lemma SevenBytes(before: seq<byte>, b: byte)
    requires BetweenTokens(before)
    ensures (forall after :: SameScan(before + [b] + after, before + after)) <==> b !in {34, 44, 58, 91, 93, 123, 125}
  {
    hide Fold, Scan, Parse;
    var s := Fold(FRESH, before);
    ParseBytes(before);
    FoldTokens(Parse(before).tokens);
    if b in {34, 44, 58, 91, 93, 123, 125} {
      var after := Closers(s.depth);
      ScanFrom(before, s, b, after);
      FoldClosers(s, s.depth);
      if Next(s, b).failed {
        FoldFailed(Next(s, b), after);
      } else {
        FoldClosers(Next(s, b), s.depth);
      }
      assert !SameScan(before + [b] + after, before + after);
    } else {
      forall after ensures SameScan(before + [b] + after, before + after) {
        ScanFrom(before, s, b, after);
      }
    }
  }
}
