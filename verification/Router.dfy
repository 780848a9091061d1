/** The linear route table: how patterns are split and stored, and what a match returns. */
module Router {
  import opened Words

  const SLASH: byte := 47

  datatype Kind = LITERAL | PARAM | WILD

  /** A stored segment: its kind and its bytes. */
  datatype Seg = Seg(kind: Kind, text: seq<byte>)

  datatype Route = Route(verb: seq<byte>, pattern: seq<byte>)

  // ---- Paths and their segments ----

  /** Where the segment that starts at `pos` ends. */
  function SegEnd(t: seq<byte>, pos: nat): (e: nat)
    requires pos <= |t|
    ensures pos <= e <= |t|
    ensures e == |t| || t[e] == SLASH
    ensures forall i | pos <= i < e :: t[i] != SLASH
    decreases |t| - pos
  {
    if pos == |t| || t[pos] == SLASH then pos else SegEnd(t, pos + 1)
  }

  /** The segments from `pos` on; none past the end, one empty one right at it. */
  function Parts(t: seq<byte>, pos: nat): seq<seq<byte>>
    decreases |t| + 1 - pos
  {
    if pos > |t| then [] else [t[pos..SegEnd(t, pos)]] + Parts(t, SegEnd(t, pos) + 1)
  }

  /** Segments joined by slashes. */
  function Join(parts: seq<seq<byte>>): seq<byte> {
    if parts == [] then []
    else if |parts| == 1 then parts[0]
    else parts[0] + [47] + Join(parts[1..])
  }

  lemma SplitAt(t: seq<byte>, pos: nat, e: nat)
    requires pos <= e < |t|
    ensures t[pos..] == t[pos..e] + [t[e]] + t[e + 1..]
  {
  }

  lemma PartsStep(t: seq<byte>, pos: nat)
    requires pos <= |t|
    ensures Parts(t, pos) == [t[pos..SegEnd(t, pos)]] + Parts(t, SegEnd(t, pos) + 1)
    ensures Parts(t, |t| + 1) == []
  {
  }

  lemma JoinCons(first: seq<byte>, rest: seq<seq<byte>>)
    ensures Join([first] + rest) == if rest == [] then first else first + [SLASH] + Join(rest)
  {
    assert ([first] + rest)[1..] == rest;
  }

  /** Joining the segments gives the path back. */
  lemma {:induction false} JoinParts(t: seq<byte>, pos: nat)
    requires pos <= |t|
    ensures Parts(t, pos) != [] && Join(Parts(t, pos)) == t[pos..]
    decreases |t| - pos
  {
    hide Parts, Join, SegEnd;
    var e := SegEnd(t, pos);
    PartsStep(t, pos);
    JoinCons(t[pos..e], Parts(t, e + 1));
    if e < |t| {
      JoinParts(t, e + 1);
      SplitAt(t, pos, e);
    }
  }

  /** No segment holds a slash. */
  lemma {:induction false} PartsClean(t: seq<byte>, pos: nat)
    ensures forall i | 0 <= i < |Parts(t, pos)| :: 47 !in Parts(t, pos)[i]
    decreases |t| + 1 - pos
  {
    if pos <= |t| {
      PartsClean(t, SegEnd(t, pos) + 1);
    }
  }

  // ---- Patterns ----

  /** A segment `:x` is a parameter, `*` alone the rest of the path, anything else itself. */
  function KindOf(text: seq<byte>): Kind {
    if text != [] && text[0] == 58 then PARAM
    else if text == [42] then WILD
    else LITERAL
  }

  function SegsOf(parts: seq<seq<byte>>): (segs: seq<Seg>)
    ensures |segs| == |parts|
    ensures forall i | 0 <= i < |parts| :: segs[i] == Seg(KindOf(parts[i]), parts[i])
  {
    seq(|parts|, i requires 0 <= i < |parts| => Seg(KindOf(parts[i]), parts[i]))
  }

  function Labels(segs: seq<Seg>): (parts: seq<seq<byte>>)
    ensures |parts| == |segs|
    ensures forall i | 0 <= i < |segs| :: parts[i] == segs[i].text
  {
    seq(|segs|, i requires 0 <= i < |segs| => segs[i].text)
  }

  /** What `add` stores for a pattern. */
  function Stored(pattern: seq<byte>): seq<Seg> {
    SegsOf(Parts(pattern, 1))
  }

  /** Joining the stored segments gives the pattern back. */
  lemma StoredJoins(pattern: seq<byte>)
    requires pattern != [] && pattern[0] == SLASH
    ensures [SLASH] + Join(Labels(Stored(pattern))) == pattern
  {
    JoinParts(pattern, 1);
    assert Labels(Stored(pattern)) == Parts(pattern, 1);
    assert pattern == [pattern[0]] + pattern[1..];
  }

  // ---- Matching ----

  /** A route fits the segments of a target: literals are equal, a parameter is not empty, the
      wildcard takes everything left. */
  predicate Fits(segs: seq<Seg>, parts: seq<seq<byte>>) {
    if segs == [] then parts == []
    else if parts == [] then false
    else match segs[0].kind
      case WILD => true
      case PARAM => parts[0] != [] && Fits(segs[1..], parts[1..])
      case LITERAL => parts[0] == segs[0].text && Fits(segs[1..], parts[1..])
  }

  /** Where the parameters and the wildcard of a route lie in the target. */
  function Captures(segs: seq<Seg>, t: seq<byte>, pos: nat): seq<(nat, nat)> {
    if segs == [] || pos > |t| then []
    else match segs[0].kind
      case WILD => [(pos, |t|)]
      case PARAM => [(pos, SegEnd(t, pos))] + Captures(segs[1..], t, SegEnd(t, pos) + 1)
      case LITERAL => Captures(segs[1..], t, SegEnd(t, pos) + 1)
  }

  function Slices(t: seq<byte>, caps: seq<(nat, nat)>): (vals: seq<seq<byte>>)
    requires forall i | 0 <= i < |caps| :: caps[i].0 <= caps[i].1 <= |t|
    ensures |vals| == |caps| && forall i | 0 <= i < |caps| :: vals[i] == t[caps[i].0..caps[i].1]
  {
    seq(|caps|, i requires 0 <= i < |caps| => t[caps[i].0..caps[i].1])
  }

  /** The route's segments with values for its parameters; nothing follows a wildcard. */
  function Filled(segs: seq<Seg>, vals: seq<seq<byte>>): seq<seq<byte>> {
    if segs == [] then []
    else if segs[0].kind == LITERAL then [segs[0].text] + Filled(segs[1..], vals)
    else if vals == [] then []
    else if segs[0].kind == WILD then [vals[0]]
    else [vals[0]] + Filled(segs[1..], vals[1..])
  }

  lemma {:induction false} CapturesInside(segs: seq<Seg>, t: seq<byte>, pos: nat)
    ensures forall i | 0 <= i < |Captures(segs, t, pos)| ::
      Captures(segs, t, pos)[i].0 <= Captures(segs, t, pos)[i].1 <= |t|
    decreases |segs|
  {
    if segs != [] && pos <= |t| {
      CapturesInside(segs[1..], t, SegEnd(t, pos) + 1);
    }
  }

  lemma FitsStep(segs: seq<Seg>, t: seq<byte>, pos: nat)
    requires segs != [] && pos <= |t|
    ensures Parts(t, pos) != [] && Parts(t, pos)[0] == t[pos..SegEnd(t, pos)]
    ensures Parts(t, pos)[1..] == Parts(t, SegEnd(t, pos) + 1)
    ensures Fits(segs, Parts(t, pos)) == match segs[0].kind
      case WILD => true
      case PARAM => SegEnd(t, pos) != pos && Fits(segs[1..], Parts(t, SegEnd(t, pos) + 1))
      case LITERAL => t[pos..SegEnd(t, pos)] == segs[0].text && Fits(segs[1..], Parts(t, SegEnd(t, pos) + 1))
  {
  }

  /** The values captured by a match. */
  function Values(segs: seq<Seg>, t: seq<byte>, pos: nat): seq<seq<byte>> {
    CapturesInside(segs, t, pos);
    Slices(t, Captures(segs, t, pos))
  }

  /** How many pairs a route's match may write. */
  function PairCount(segs: seq<Seg>): nat {
    if segs == [] then 0
    else if segs[0].kind == WILD then 1
    else (if segs[0].kind == LITERAL then 0 else 1) + PairCount(segs[1..])
  }

  lemma CapturesStep(segs: seq<Seg>, t: seq<byte>, pos: nat)
    requires segs != [] && pos <= |t|
    ensures Captures(segs, t, pos) == match segs[0].kind
      case WILD => [(pos, |t|)]
      case PARAM => [(pos, SegEnd(t, pos))] + Captures(segs[1..], t, SegEnd(t, pos) + 1)
      case LITERAL => Captures(segs[1..], t, SegEnd(t, pos) + 1)
    ensures PairCount(segs) == match segs[0].kind
      case WILD => 1
      case PARAM => 1 + PairCount(segs[1..])
      case LITERAL => PairCount(segs[1..])
  {
  }

  lemma ValuesStep(segs: seq<Seg>, t: seq<byte>, pos: nat)
    requires segs != [] && pos <= |t|
    ensures Values(segs, t, pos) == match segs[0].kind
      case WILD => [t[pos..]]
      case PARAM => [t[pos..SegEnd(t, pos)]] + Values(segs[1..], t, SegEnd(t, pos) + 1)
      case LITERAL => Values(segs[1..], t, SegEnd(t, pos) + 1)
  {
    hide Captures, SegEnd, PairCount;
    CapturesInside(segs, t, pos);
    CapturesInside(segs[1..], t, SegEnd(t, pos) + 1);
    CapturesStep(segs, t, pos);
    assert t[pos..|t|] == t[pos..];
  }

  lemma FilledStep(segs: seq<Seg>, first: seq<byte>, vals: seq<seq<byte>>)
    requires segs != []
    ensures segs[0].kind == LITERAL ==> Filled(segs, vals) == [segs[0].text] + Filled(segs[1..], vals)
    ensures segs[0].kind == PARAM ==> Filled(segs, [first] + vals) == [first] + Filled(segs[1..], vals)
    ensures segs[0].kind == WILD ==> Filled(segs, [first]) == [first]
  {
    assert ([first] + vals)[1..] == vals;
  }

  lemma FilledCons(segs: seq<Seg>, t: seq<byte>, pos: nat)
    requires segs != [] && pos <= |t|
    requires segs[0].kind == LITERAL ==> segs[0].text == t[pos..SegEnd(t, pos)]
    ensures Filled(segs, Values(segs, t, pos)) ==
            if segs[0].kind == WILD then [t[pos..]]
            else [t[pos..SegEnd(t, pos)]] + Filled(segs[1..], Values(segs[1..], t, SegEnd(t, pos) + 1))
  {
    hide Filled, Values, SegEnd;
    var e := SegEnd(t, pos);
    ValuesStep(segs, t, pos);
    FilledStep(segs, if segs[0].kind == WILD then t[pos..] else t[pos..e], Values(segs[1..], t, e + 1));
    FilledStep(segs, [], Values(segs, t, pos));
  }

  lemma FilledNone(t: seq<byte>, pos: nat)
    ensures Filled([], Values([], t, pos)) == []
  {
  }

  lemma FitsNone(segs: seq<Seg>, t: seq<byte>, pos: nat)
    requires pos <= |t| && Fits(segs, Parts(t, pos))
    ensures segs != []
  {
  }

  lemma FitsEnd(segs: seq<Seg>, t: seq<byte>, pos: nat)
    requires pos > |t| && Fits(segs, Parts(t, pos))
    ensures segs == []
  {
  }

  /** Putting the captured slices into the route's pattern rebuilds the target exactly. */
  lemma {:induction false} FilledRebuilds(segs: seq<Seg>, t: seq<byte>, pos: nat)
    requires pos <= |t| && Fits(segs, Parts(t, pos))
    ensures Filled(segs, Values(segs, t, pos)) != []
    ensures Join(Filled(segs, Values(segs, t, pos))) == t[pos..]
    decreases |segs|
  {
    hide Fits, Join, Filled, Values, Captures, Parts, SegEnd;
    FitsNone(segs, t, pos);
    FitsStep(segs, t, pos);
    FilledCons(segs, t, pos);
    var e := SegEnd(t, pos);
    if segs[0].kind == WILD {
      JoinCons(t[pos..], []);
      assert [t[pos..]] + [] == [t[pos..]];
    } else {
      var rest := Filled(segs[1..], Values(segs[1..], t, e + 1));
      JoinCons(t[pos..e], rest);
      if e == |t| {
        FitsEnd(segs[1..], t, e + 1);
        FilledNone(t, e + 1);
      } else {
        FilledRebuilds(segs[1..], t, e + 1);
        assert t[pos..] == t[pos..e] + [SLASH] + t[e + 1..];
      }
    }
  }

  /** What a match means for a reader: the target is the pattern with the captured slices in place. */
  lemma MatchRebuilds(segs: seq<Seg>, t: seq<byte>)
    requires t != [] && t[0] == SLASH && Fits(segs, Parts(t, 1))
    ensures [SLASH] + Join(Filled(segs, Values(segs, t, 1))) == t
  {
    FilledRebuilds(segs, t, 1);
    assert t == [t[0]] + t[1..];
  }

  /** Values that may stand for a route's parameters: no slash and not empty, the wildcard's free. */
  predicate Fillable(segs: seq<Seg>, vals: seq<seq<byte>>) {
    if segs == [] then true
    else match segs[0].kind
      case WILD => vals != []
      case PARAM => vals != [] && vals[0] != [] && SLASH !in vals[0] && Fillable(segs[1..], vals[1..])
      case LITERAL => SLASH !in segs[0].text && Fillable(segs[1..], vals)
  }

  /** One segment of a filled route, and what is left of the route and of the values. */
  lemma FillableStep(segs: seq<Seg>, vals: seq<seq<byte>>)
    requires segs != [] && Fillable(segs, vals)
    ensures segs[0].kind == WILD ==> vals != [] && Filled(segs, vals) == [vals[0]]
    ensures segs[0].kind == PARAM ==>
      && vals != [] && vals[0] != [] && SLASH !in vals[0] && Fillable(segs[1..], vals[1..])
      && Filled(segs, vals) == [vals[0]] + Filled(segs[1..], vals[1..])
    ensures segs[0].kind == LITERAL ==>
      && SLASH !in segs[0].text && Fillable(segs[1..], vals)
      && Filled(segs, vals) == [segs[0].text] + Filled(segs[1..], vals)
  {
  }

  lemma FilledSome(segs: seq<Seg>, vals: seq<seq<byte>>)
    requires Fillable(segs, vals)
    ensures Filled(segs, vals) == [] <==> segs == []
  {
  }

  lemma SegEndIs(t: seq<byte>, pos: nat, first: seq<byte>, rest: seq<byte>)
    requires pos <= |t| && SLASH !in first
    requires t[pos..] == first || t[pos..] == first + [SLASH] + rest
    ensures SegEnd(t, pos) == pos + |first| && t[pos..SegEnd(t, pos)] == first
    ensures t[pos..] != first ==> SegEnd(t, pos) < |t| && t[SegEnd(t, pos) + 1..] == rest
  {
    hide SegEnd;
    var e := pos + |first|;
    assert t[pos..e] == first by {
      assert t[pos..e] == t[pos..][..|first|];
    }
    assert forall i | pos <= i < e :: t[i] == first[i - pos];
    if t[pos..] != first {
      assert t[e] == t[pos..][|first|] == SLASH;
      assert t[e + 1..] == t[pos..][|first| + 1..];
    }
  }

  /** At the end of a route, or of the target. */
  lemma EndStep(segs: seq<Seg>, t: seq<byte>, pos: nat)
    requires pos <= |t| + 1 && (segs == [] || pos > |t|)
    ensures Fits(segs, Parts(t, pos)) <==> segs == [] && pos > |t|
    ensures Captures(segs, t, pos) == []
  {
  }

  /** Conversely, a target spelled by putting values into a route's pattern is matched by that route. */
  lemma {:induction false} FilledFits(segs: seq<Seg>, vals: seq<seq<byte>>, t: seq<byte>, pos: nat)
    requires segs != [] && Fillable(segs, vals)
    requires pos <= |t| && t[pos..] == Join(Filled(segs, vals))
    ensures Fits(segs, Parts(t, pos))
    decreases |segs|
  {
    hide Fits, Join, Filled, Parts, SegEnd, Fillable;
    FillableStep(segs, vals);
    FitsStep(segs, t, pos);
    if segs[0].kind != WILD {
      var first := if segs[0].kind == PARAM then vals[0] else segs[0].text;
      var left := if segs[0].kind == PARAM then vals[1..] else vals;
      var rest := Filled(segs[1..], left);
      JoinCons(first, rest);
      FilledSome(segs[1..], left);
      SegEndIs(t, pos, first, Join(rest));
      if segs[1..] == [] {
        EndStep([], t, |t| + 1);
      } else {
        FilledFits(segs[1..], left, t, pos + |first| + 1);
      }
    }
  }

  lemma PartsNone(segs: seq<Seg>, t: seq<byte>, pos: nat)
    requires segs != [] && Fits(segs, Parts(t, pos))
    ensures pos <= |t|
  {
  }

  /** The values of a match are values that may stand for the parameters. */
  lemma {:induction false} ValuesFill(segs: seq<Seg>, t: seq<byte>, pos: nat)
    requires Fits(segs, Parts(t, pos))
    requires forall i | 0 <= i < |segs| :: segs[i].kind == LITERAL ==> SLASH !in segs[i].text
    ensures Fillable(segs, Values(segs, t, pos))
    decreases |segs|
  {
    hide Values, Parts, SegEnd, Fits;
    if segs == [] {
    } else {
      PartsNone(segs, t, pos);
      var e := SegEnd(t, pos);
      FitsStep(segs, t, pos);
      ValuesStep(segs, t, pos);
      if segs[0].kind != WILD {
        ValuesFill(segs[1..], t, e + 1);
        var inner := Values(segs[1..], t, e + 1);
        assert ([t[pos..e]] + inner)[1..] == inner;
      }
    }
  }

  // ---- What a match is, on the bytes of the pattern ----

  /** A segment that begins with a colon. */
  predicate IsName(p: seq<byte>) {
    p != [] && p[0] == 58
  }

  /** Where the first segment that is just `*` is, or past the end. */
  function RestAt(pat: seq<seq<byte>>): (w: nat)
    ensures w <= |pat| && (w < |pat| ==> pat[w] == [42])
    ensures forall i | 0 <= i < w :: pat[i] != [42]
  {
    if pat == [] || pat[0] == [42] then 0 else 1 + RestAt(pat[1..])
  }

  /** Segment by segment up to the `*`: a name stands for any segment that is not empty, anything
      else for itself; `*` stands for one segment or more, and without it the numbers are equal. */
  predicate Agrees(pat: seq<seq<byte>>, ts: seq<seq<byte>>) {
    var w := RestAt(pat);
    && (if w < |pat| then w < |ts| else |ts| == |pat|)
    && forall i | 0 <= i < w :: if IsName(pat[i]) then ts[i] != [] else ts[i] == pat[i]
  }

  /** The pattern answers the target. */
  predicate Matches(pattern: seq<byte>, target: seq<byte>) {
    Agrees(Parts(pattern, 1), Parts(target, 1))
  }

  /** How many of the first `n` segments are names. */
  function NamesBefore(pat: seq<seq<byte>>, n: nat): nat
    requires n <= |pat|
  {
    if n == 0 then 0 else (if IsName(pat[0]) then 1 else 0) + NamesBefore(pat[1..], n - 1)
  }

  /** How many pairs a match of the pattern writes: one for each name before the `*`, and its own. */
  function Pairs(pat: seq<seq<byte>>): nat {
    NamesBefore(pat, RestAt(pat)) + if RestAt(pat) < |pat| then 1 else 0
  }

  /** Where segment `n` starts, when the first one starts at `pos`. */
  function StartOf(ts: seq<seq<byte>>, pos: nat, n: nat): nat
    requires n <= |ts|
  {
    if n == 0 then pos else StartOf(ts[1..], pos + |ts[0]| + 1, n - 1)
  }

  lemma PartsSome(t: seq<byte>, pos: nat)
    requires Parts(t, pos) != []
    ensures pos <= |t|
  {
  }

  /** Segments lie where `StartOf` says. */
  lemma {:induction false} StartOfPart(t: seq<byte>, pos: nat, n: nat)
    requires n < |Parts(t, pos)|
    ensures var ts := Parts(t, pos); var start := StartOf(ts, pos, n);
      && start + |ts[n]| <= |t| && t[start..start + |ts[n]|] == ts[n] && t[start..] == Join(ts[n..])
    decreases n
  {
    hide Parts, SegEnd, Join;
    PartsSome(t, pos);
    PartsStep(t, pos);
    if n == 0 {
      JoinParts(t, pos);
      assert Parts(t, pos)[0..] == Parts(t, pos);
    } else {
      var rest := Parts(t, SegEnd(t, pos) + 1);
      StartOfPart(t, SegEnd(t, pos) + 1, n - 1);
      assert Parts(t, pos)[1..] == rest && Parts(t, pos)[n..] == rest[n - 1..];
    }
  }

  predicate NameCaptured(caps: seq<(nat, nat)>, pat: seq<seq<byte>>, ts: seq<seq<byte>>, pos: nat, i: nat)
    requires i < |pat| && i < |ts|
  {
    var k := NamesBefore(pat, i);
    k < |caps| && caps[k] == (StartOf(ts, pos, i), StartOf(ts, pos, i) + |ts[i]|)
  }

  /** The two pairs of what a match captures: names before the `*`, and the rest at the `*`. */
  predicate Captured(caps: seq<(nat, nat)>, pat: seq<seq<byte>>, ts: seq<seq<byte>>, pos: nat, end: nat)
    requires Agrees(pat, ts)
  {
    var w := RestAt(pat);
    && |caps| == Pairs(pat)
    && (forall i | 0 <= i < w && IsName(pat[i]) :: NameCaptured(caps, pat, ts, pos, i))
    && (w < |pat| ==> caps[NamesBefore(pat, w)] == (StartOf(ts, pos, w), end))
  }

  lemma AgreesStep(pat: seq<seq<byte>>, ts: seq<seq<byte>>)
    requires pat != [] && ts != [] && pat[0] != [42]
    ensures RestAt(pat) == 1 + RestAt(pat[1..])
    ensures Agrees(pat, ts) <==>
      (if IsName(pat[0]) then ts[0] != [] else ts[0] == pat[0]) && Agrees(pat[1..], ts[1..])
  {
    hide IsName;
    var w := RestAt(pat[1..]);
    assert forall i | 0 <= i < w :: pat[i + 1] == pat[1..][i];
    if |ts| > w {
      assert forall i | 0 <= i < w :: ts[i + 1] == ts[1..][i];
    }
    if Agrees(pat, ts) {
      forall i | 0 <= i < w
        ensures if IsName(pat[1..][i]) then ts[1..][i] != [] else ts[1..][i] == pat[1..][i]
      {
        assert if IsName(pat[i + 1]) then ts[i + 1] != [] else ts[i + 1] == pat[i + 1];
      }
    }
    if Agrees(pat[1..], ts[1..]) && (if IsName(pat[0]) then ts[0] != [] else ts[0] == pat[0]) {
      forall i | 0 <= i < 1 + w ensures if IsName(pat[i]) then ts[i] != [] else ts[i] == pat[i] {
        if i > 0 {
          assert pat[i] == pat[1..][i - 1] && ts[i] == ts[1..][i - 1];
        }
      }
    }
  }

  lemma SegsOfStep(pat: seq<seq<byte>>)
    requires pat != []
    ensures SegsOf(pat) != [] && SegsOf(pat)[0] == Seg(KindOf(pat[0]), pat[0]) && SegsOf(pat)[1..] == SegsOf(pat[1..])
  {
  }

  /** What is stored for a pattern fits exactly the segments its bytes agree with. */
  lemma {:induction false} FitsAgrees(pat: seq<seq<byte>>, ts: seq<seq<byte>>)
    ensures Fits(SegsOf(pat), ts) <==> Agrees(pat, ts)
  {
    if pat == [] {
    } else {
      SegsOfStep(pat);
      if ts != [] && pat[0] != [42] {
        AgreesStep(pat, ts);
        FitsAgrees(pat[1..], ts[1..]);
      }
    }
  }

  lemma {:induction false} NamesRise(pat: seq<seq<byte>>, i: nat, n: nat)
    requires i < n <= |pat| && IsName(pat[i])
    ensures NamesBefore(pat, i) < NamesBefore(pat, n)
    decreases n
  {
    if i > 0 {
      NamesRise(pat[1..], i - 1, n - 1);
    }
  }

  lemma AgreesLength(pat: seq<seq<byte>>, ts: seq<seq<byte>>)
    requires Agrees(pat, ts)
    ensures RestAt(pat) <= |ts| && (pat != [] ==> ts != [])
  {
  }

  /** One segment before the `*` puts its pair, when it is a name, in front of the others. */
  lemma CapturedStep(caps: seq<(nat, nat)>, pat: seq<seq<byte>>, ts: seq<seq<byte>>, pos: nat, end: nat)
    requires pat != [] && ts != [] && pat[0] != [42] && Agrees(pat, ts) && Agrees(pat[1..], ts[1..])
    requires Captured(caps, pat[1..], ts[1..], pos + |ts[0]| + 1, end)
    ensures Captured((if IsName(pat[0]) then [(pos, pos + |ts[0]|)] else []) + caps, pat, ts, pos, end)
  {
    hide Agrees, IsName;
    var w, next := RestAt(pat[1..]), pos + |ts[0]| + 1;
    var all := (if IsName(pat[0]) then [(pos, pos + |ts[0]|)] else []) + caps;
    AgreesStep(pat, ts);
    AgreesLength(pat, ts);
    forall i | 0 <= i < 1 + w && IsName(pat[i]) ensures NameCaptured(all, pat, ts, pos, i) {
      if i > 0 {
        assert pat[1..][i - 1] == pat[i] && ts[1..][i - 1] == ts[i];
        assert NameCaptured(caps, pat[1..], ts[1..], next, i - 1);
      }
    }
  }

  lemma CapturedNone(t: seq<byte>, pos: nat)
    requires Agrees([], Parts(t, pos))
    ensures Captured(Captures(SegsOf([]), t, pos), [], Parts(t, pos), pos, |t|)
  {
  }

  lemma CapturesRest(pat: seq<seq<byte>>, t: seq<byte>, pos: nat)
    requires pat != [] && pat[0] == [42] && pos <= |t|
    ensures Captures(SegsOf(pat), t, pos) == [(pos, |t|)]
  {
  }

  lemma CapturesFirst(pat: seq<seq<byte>>, t: seq<byte>, pos: nat)
    requires pat != [] && pat[0] != [42] && pos <= |t|
    ensures Captures(SegsOf(pat), t, pos) ==
            (if IsName(pat[0]) then [(pos, SegEnd(t, pos))] else []) + Captures(SegsOf(pat[1..]), t, SegEnd(t, pos) + 1)
  {
    hide Captures;
    SegsOfStep(pat);
    CapturesStep(SegsOf(pat), t, pos);
  }

  lemma CapturedRest(pat: seq<seq<byte>>, ts: seq<seq<byte>>, pos: nat, end: nat)
    requires Agrees(pat, ts) && pat != [] && pat[0] == [42]
    ensures Captured([(pos, end)], pat, ts, pos, end)
  {
  }

  /** The pairs a match captures are those of the names before the `*`, and of the rest at the `*`. */
  lemma {:induction false} CapturesAgree(pat: seq<seq<byte>>, t: seq<byte>, pos: nat)
    requires Agrees(pat, Parts(t, pos))
    ensures Captured(Captures(SegsOf(pat), t, pos), pat, Parts(t, pos), pos, |t|)
    decreases |pat|
  {
    hide Captured, Parts, SegEnd, Agrees, Captures, SegsOf, KindOf;
    var ts := Parts(t, pos);
    if pat == [] {
      CapturedNone(t, pos);
    } else {
      AgreesLength(pat, ts);
      PartsSome(t, pos);
      PartsStep(t, pos);
      if pat[0] == [42] {
        CapturesRest(pat, t, pos);
        CapturedRest(pat, ts, pos, |t|);
      } else {
        AgreesStep(pat, ts);
        CapturesAgree(pat[1..], t, SegEnd(t, pos) + 1);
        CapturesFirst(pat, t, pos);
        CapturedStep(Captures(SegsOf(pat[1..]), t, SegEnd(t, pos) + 1), pat, ts, pos, |t|);
      }
    }
  }

  lemma {:induction false} PairCountIs(pat: seq<seq<byte>>)
    ensures PairCount(SegsOf(pat)) == Pairs(pat)
  {
    if pat != [] {
      SegsOfStep(pat);
      if pat[0] != [42] {
        PairCountIs(pat[1..]);
      }
    }
  }

  // ---- Walking a route along a target ----

  /** After `done`, what is left of the route decides the match from `pos` on. */
  ghost predicate Reach(segs: seq<Seg>, t: seq<byte>, done: seq<(nat, nat)>, left: seq<Seg>, pos: nat) {
    && (Fits(segs, Parts(t, 1)) <==> Fits(left, Parts(t, pos)))
    && Captures(segs, t, 1) == done + Captures(left, t, pos)
    && PairCount(segs) == |done| + PairCount(left)
  }

  lemma ReachStart(segs: seq<Seg>, t: seq<byte>)
    ensures Reach(segs, t, [], segs, 1)
  {
    assert [] + Captures(segs, t, 1) == Captures(segs, t, 1);
  }

  lemma ReachEnd(segs: seq<Seg>, t: seq<byte>, done: seq<(nat, nat)>, left: seq<Seg>, pos: nat)
    requires Reach(segs, t, done, left, pos) && pos <= |t| + 1 && (left == [] || pos > |t|)
    ensures Fits(segs, Parts(t, 1)) <==> left == [] && pos > |t|
    ensures Captures(segs, t, 1) == done
  {
    hide Fits, Captures, Parts;
    EndStep(left, t, pos);
    assert done + [] == done;
  }

  lemma ReachWild(segs: seq<Seg>, t: seq<byte>, done: seq<(nat, nat)>, left: seq<Seg>, pos: nat)
    requires Reach(segs, t, done, left, pos) && left != [] && pos <= |t| && left[0].kind == WILD
    ensures Fits(segs, Parts(t, 1)) && Captures(segs, t, 1) == done + [(pos, |t|)]
    ensures |done| < PairCount(segs)
  {
    hide Fits, Captures, Parts, SegEnd;
    FitsStep(left, t, pos);
    CapturesStep(left, t, pos);
  }

  lemma ReachParam(segs: seq<Seg>, t: seq<byte>, done: seq<(nat, nat)>, left: seq<Seg>, pos: nat)
    requires Reach(segs, t, done, left, pos) && left != [] && pos <= |t| && left[0].kind == PARAM
    ensures SegEnd(t, pos) == pos ==> !Fits(segs, Parts(t, 1))
    ensures SegEnd(t, pos) != pos ==>
      Reach(segs, t, done + [(pos, SegEnd(t, pos))], left[1..], SegEnd(t, pos) + 1)
    ensures |done| < PairCount(segs)
  {
    hide Fits, Captures, Parts, SegEnd;
    FitsStep(left, t, pos);
    CapturesStep(left, t, pos);
    var rest := Captures(left[1..], t, SegEnd(t, pos) + 1);
    assert done + ([(pos, SegEnd(t, pos))] + rest) == done + [(pos, SegEnd(t, pos))] + rest;
  }

  lemma ReachLiteral(segs: seq<Seg>, t: seq<byte>, done: seq<(nat, nat)>, left: seq<Seg>, pos: nat)
    requires Reach(segs, t, done, left, pos) && left != [] && pos <= |t| && left[0].kind == LITERAL
    ensures t[pos..SegEnd(t, pos)] != left[0].text ==> !Fits(segs, Parts(t, 1))
    ensures t[pos..SegEnd(t, pos)] == left[0].text ==>
      Reach(segs, t, done, left[1..], SegEnd(t, pos) + 1)
  {
    hide Fits, Captures, Parts, SegEnd;
    FitsStep(left, t, pos);
    CapturesStep(left, t, pos);
  }

  /** `method` spells `text`. */
  method SameMethod(verb: seq<byte>, text: seq<byte>) returns (same: bool)
    ensures same <==> verb == text
  {
    if |verb| != |text| {
      return false;
    }
    for k := 0 to |verb|
      invariant verb[..k] == text[..k]
    {
      if verb[k] != text[k] {
        return false;
      }
    }
    same := true;
  }

  /** The first pairs of `params` are `caps`. */
  ghost predicate Written(params: array<int>, caps: seq<(nat, nat)>)
    reads params
  {
    2 * |caps| <= params.Length &&
    forall i | 0 <= i < |caps| :: params[2 * i] == caps[i].0 && params[2 * i + 1] == caps[i].1
  }

  lemma WrittenNone(params: array<int>)
    ensures Written(params, [])
  {
  }

  /** Writes pair number `pairs`. */
  method Put(params: array<int>, pairs: nat, start: nat, end: nat, ghost done: seq<(nat, nat)>)
    requires Written(params, done) && pairs == |done| && 2 * pairs + 2 <= params.Length
    modifies params
    ensures Written(params, done + [(start, end)])
  {
    params[2 * pairs] := start;
    params[2 * pairs + 1] := end;
  }

  lemma MatchesFits(pattern: seq<byte>, target: seq<byte>)
    ensures Fits(Stored(pattern), Parts(target, 1)) <==> Matches(pattern, target)
    ensures PairCount(Stored(pattern)) == Pairs(Parts(pattern, 1))
  {
    FitsAgrees(Parts(pattern, 1), Parts(target, 1));
    PairCountIs(Parts(pattern, 1));
  }

  /** A pattern matches a target exactly when some values put into it spell the target. */
  lemma MatchMeans(pattern: seq<byte>, t: seq<byte>)
    requires pattern != [] && t != [] && t[0] == 47
    ensures Matches(pattern, t) <==>
            exists vals :: Fillable(Stored(pattern), vals) && t == [47] + Join(Filled(Stored(pattern), vals))
  {
    hide Matches, Fits, Join, Filled, Fillable, Parts, Values, SegEnd;
    var segs := Stored(pattern);
    JoinParts(pattern, 1);
    MatchesFits(pattern, t);
    PartsClean(pattern, 1);
    if Fits(segs, Parts(t, 1)) {
      MatchRebuilds(segs, t);
      ValuesFill(segs, t, 1);
    }
    if vals :| Fillable(segs, vals) && t == [SLASH] + Join(Filled(segs, vals)) {
      assert t[1..] == Join(Filled(segs, vals));
      FilledFits(segs, vals, t, 1);
    }
  }

  /** Pair number `k` of `params`. */
  ghost predicate PairAt(params: array<int>, k: nat, start: nat, end: nat)
    reads params
  {
    2 * k + 1 < params.Length && params[2 * k] == start && params[2 * k + 1] == end
  }

  /** The pairs of a match are in `params`: in their order the names before the `*`, each with the
      stretch of its segment, and for the `*` the stretch from its segment to the end. */
  ghost predicate Answered(params: array<int>, pattern: seq<byte>, target: seq<byte>)
    requires Matches(pattern, target)
    reads params
  {
    var pat, ts := Parts(pattern, 1), Parts(target, 1);
    var w := RestAt(pat);
    && (forall i | 0 <= i < w && IsName(pat[i]) ::
          PairAt(params, NamesBefore(pat, i), StartOf(ts, 1, i), StartOf(ts, 1, i) + |ts[i]|))
    && (w < |pat| ==> PairAt(params, NamesBefore(pat, w), StartOf(ts, 1, w), |target|))
  }

  lemma PairWritten(params: array<int>, caps: seq<(nat, nat)>, k: nat)
    requires Written(params, caps) && k < |caps|
    ensures PairAt(params, k, caps[k].0, caps[k].1)
  {
  }

  /** The pairs written for a match are the ones the pattern's bytes ask for. */
  lemma WrittenAnswers(params: array<int>, pattern: seq<byte>, target: seq<byte>)
    requires Fits(Stored(pattern), Parts(target, 1)) && Written(params, Captures(Stored(pattern), target, 1))
    ensures Matches(pattern, target) && Answered(params, pattern, target)
  {
    hide Fits, Parts, Captures, Written, Agrees, IsName, PairAt, StartOf;
    var pat, ts := Parts(pattern, 1), Parts(target, 1);
    var w, caps := RestAt(pat), Captures(Stored(pattern), target, 1);
    FitsAgrees(pat, ts);
    AgreesLength(pat, ts);
    CapturesAgree(pat, target, 1);
    forall i | 0 <= i < w && IsName(pat[i])
      ensures PairAt(params, NamesBefore(pat, i), StartOf(ts, 1, i), StartOf(ts, 1, i) + |ts[i]|)
    {
      assert NameCaptured(caps, pat, ts, 1, i);
      PairWritten(params, caps, NamesBefore(pat, i));
    }
    if w < |pat| {
      PairWritten(params, caps, NamesBefore(pat, w));
    }
  }

  lemma SegsOfCons(segs: seq<Seg>, t: seq<byte>, pos: nat)
    requires pos <= |t|
    ensures var text := t[pos..SegEnd(t, pos)];
      segs + SegsOf(Parts(t, pos)) == segs + [Seg(KindOf(text), text)] + SegsOf(Parts(t, SegEnd(t, pos) + 1))
  {
  }

  lemma SegsOfNone(t: seq<byte>, pos: nat)
    requires pos > |t|
    ensures SegsOf(Parts(t, pos)) == []
  {
  }

  class LinearTable {
    var methods: seq<seq<byte>>
    var segFirst: seq<nat>
    var segCount: seq<nat>
    var kind: seq<Kind>
    var labelStart: seq<nat>
    var labelEnd: seq<nat>
    var labels: seq<byte>
    /** All segments the fields spell, and the routes they belong to. */
    ghost var segs: seq<Seg>
    ghost var routes: seq<Route>

    ghost predicate Spelled()
      reads this
    {
      && |kind| == |labelStart| == |labelEnd| == |segs|
      && (forall s | 0 <= s < |segs| ::
            labelStart[s] <= labelEnd[s] <= |labels| && segs[s] == Seg(kind[s], labels[labelStart[s]..labelEnd[s]]))
    }

    ghost predicate Valid()
      reads this
    {
      && Spelled() && |methods| == |segFirst| == |segCount| == |routes|
      && (forall r | 0 <= r < |routes| ::
            segFirst[r] + segCount[r] <= |segs|
            && routes[r].verb == methods[r]
            && Stored(routes[r].pattern) == segs[segFirst[r]..segFirst[r] + segCount[r]])
    }

    constructor ()
      ensures Valid() && routes == []
    {
      methods, segFirst, segCount := [], [], [];
      kind, labelStart, labelEnd, labels := [], [], [], [];
      segs, routes := [], [];
    }

    /** Adds a route; its stored segments are the pattern's, and no other route changes. */
    method Add(verb: seq<byte>, pattern: seq<byte>)
      requires Valid()
      modifies this
      ensures Valid() && routes == old(routes) + [Route(verb, pattern)]
    {
      hide Stored, SegEnd;
      ghost var segs0 := segs;
      methods := methods + [verb];
      segFirst := segFirst + [|kind|];
      var count := AddSegments(pattern);
      segCount := segCount + [count];
      routes := routes + [Route(verb, pattern)];
      forall r | 0 <= r < |routes|
        ensures segFirst[r] + segCount[r] <= |segs|
        ensures routes[r].verb == methods[r]
        ensures Stored(routes[r].pattern) == segs[segFirst[r]..segFirst[r] + segCount[r]]
      {
        if r < |routes| - 1 {
          assert segs[segFirst[r]..segFirst[r] + segCount[r]] == segs0[segFirst[r]..segFirst[r] + segCount[r]];
        } else {
          assert segs[|segs0|..|segs0| + count] == Stored(pattern);
        }
      }
    }

    /** The splitting loop: appends the pattern's segments. */
    method AddSegments(pattern: seq<byte>) returns (count: nat)
      requires Spelled()
      modifies this`kind, this`labelStart, this`labelEnd, this`labels, this`segs
      ensures Spelled() && segs == old(segs) + Stored(pattern) && count == |Stored(pattern)|
    {
      hide Parts, SegsOf;
      count := 0;
      var start := 1;
      var length := |pattern|;
      for i := 1 to length + 1
        invariant 1 <= start <= i && start <= length + 1
        invariant start <= length ==> i <= SegEnd(pattern, start)
        invariant start > length ==> i == start
        invariant Spelled() && |segs| == old(|segs|) + count
        invariant segs + SegsOf(Parts(pattern, start)) == old(segs) + Stored(pattern)
      {
        if i < length && pattern[i] != SLASH {
          continue;
        }
        var first0: int := if start < length then pattern[start] else 0;
        var k := LITERAL;
        if first0 == 58 {
          k := PARAM;
        } else if first0 == 42 && i - start == 1 {
          k := WILD;
        }
        assert i == SegEnd(pattern, start) && k == KindOf(pattern[start..i]);
        SegsOfCons(segs, pattern, start);
        AddSegment(k, pattern, start, i);
        count := count + 1;
        start := i + 1;
      }
      SegsOfNone(pattern, start);
    }

    /** Appends one segment, its bytes one by one. */
    method AddSegment(k: Kind, pattern: seq<byte>, start: nat, end: nat)
      requires Spelled() && start <= end <= |pattern|
      modifies this`kind, this`labelStart, this`labelEnd, this`labels, this`segs
      ensures Spelled() && segs == old(segs) + [Seg(k, pattern[start..end])]
    {
      ghost var labels0 := labels;
      kind := kind + [k];
      labelStart := labelStart + [|labels|];
      for j := start to end
        invariant labels == labels0 + pattern[start..j]
        modifies this`labels
      {
        labels := labels + [pattern[j]];
      }
      labelEnd := labelEnd + [|labels|];
      segs := segs + [Seg(k, pattern[start..end])];
    }

    /** Searches the routes in their order; no earlier route matches than the one found. */
    method LinearMatch(verb: seq<byte>, target: seq<byte>, params: array<int>) returns (found: int)
      requires Valid() && forall r | 0 <= r < |routes| :: 2 * Pairs(Parts(routes[r].pattern, 1)) <= params.Length
      modifies params
      ensures -1 <= found < |routes|
      ensures forall r | 0 <= r < |routes| && (found < 0 || r < found) ::
        !(routes[r].verb == verb && Matches(routes[r].pattern, target))
      ensures found >= 0 ==>
        && routes[found].verb == verb && Matches(routes[found].pattern, target)
        && Answered(params, routes[found].pattern, target)
    {
      hide Matches, Parts, Fits, Captures, Written, Answered, Pairs, PairCount;
      for r := 0 to |methods|
        invariant forall q | 0 <= q < r :: !(routes[q].verb == verb && Matches(routes[q].pattern, target))
      {
        var same := SameMethod(verb, methods[r]);
        if !same {
          continue;
        }
        MatchesFits(routes[r].pattern, target);
        var ok := MatchRoute(segFirst[r], segCount[r], target, params);
        if ok {
          WrittenAnswers(params, routes[r].pattern, target);
          return r;
        }
      }
      found := -1;
    }

    /** The body of the search: walks the segments `first .. first + count` along the target. */
    method MatchRoute(first: nat, count: nat, target: seq<byte>, params: array<int>) returns (matched: bool)
      requires Spelled() && first + count <= |segs|
      requires 2 * PairCount(segs[first..first + count]) <= params.Length
      modifies params
      ensures matched == Fits(segs[first..first + count], Parts(target, 1))
      ensures matched ==> Written(params, Captures(segs[first..first + count], target, 1))
    {
      hide Fits, Parts, Captures, PairCount, SegEnd, Written, Reach;
      ghost var route := segs[first..first + count];
      ghost var done: seq<(nat, nat)> := [];
      var end := |target|;
      var pos := 1;
      var pairs := 0;
      var s := first;
      WrittenNone(params);
      ReachStart(route, target);
      while s < first + count
        invariant first <= s <= first + count && pos <= end + 1 && pairs == |done|
        invariant Written(params, done) && Reach(route, target, done, route[s - first..], pos)
      {
        ghost var left := route[s - first..];
        assert left[0] == segs[s] && left[1..] == route[s + 1 - first..];
        if pos > end {
          ReachEnd(route, target, done, left, pos);
          return false;
        }
        var e := pos;
        while e < end && target[e] != SLASH
          invariant pos <= e <= SegEnd(target, pos)
        {
          e := e + 1;
        }
        if kind[s] == WILD {
          ReachWild(route, target, done, left, pos);
          Put(params, pairs, pos, end, done);
          return true;
        }
        if kind[s] == PARAM {
          ReachParam(route, target, done, left, pos);
          if e == pos {
            return false;
          }
          Put(params, pairs, pos, e, done);
          done := done + [(pos, e)];
          pairs := pairs + 1;
        } else {
          ReachLiteral(route, target, done, left, pos);
          var at := labelStart[s];
          if labelEnd[s] - at != e - pos {
            return false;
          }
          var same := SameBytes(at, target, pos, e);
          if !same {
            return false;
          }
        }
        pos := e + 1;
        s := s + 1;
      }
      assert route[s - first..] == [];
      ReachEnd(route, target, done, [], pos);
      matched := pos == end + 1;
    }

    /** The byte comparison of a literal. */
    method SameBytes(at: nat, target: seq<byte>, pos: nat, e: nat) returns (same: bool)
      requires pos <= e <= |target| && at + (e - pos) <= |labels|
      ensures same <==> labels[at..at + (e - pos)] == target[pos..e]
    {
      for k := 0 to e - pos
        invariant labels[at..at + k] == target[pos..pos + k]
      {
        assert labels[at..at + k + 1] == labels[at..at + k] + [labels[at + k]];
        assert target[pos..pos + k + 1] == target[pos..pos + k] + [target[pos + k]];
        if labels[at + k] != target[pos + k] {
          assert labels[at..at + (e - pos)][k] == labels[at + k] && target[pos..e][k] == target[pos + k];
          return false;
        }
      }
      same := true;
    }
  }
}
