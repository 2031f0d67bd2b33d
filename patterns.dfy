/** One matcher per regular expression of the extractors. Each follows the
    order in which Python's backtracking engine tries the alternatives of its
    pattern; where giving characters back can never lead to a match, the
    matcher takes the greedy choice only and says why. */
module Patterns {
  import opened Base
  import opened Strings
  import opened Scan

  /** `\d*\.\d*` */
  predicate IsPointNumber(t: string)
  {
    exists k :: 0 <= k < |t| && t[k] == '.' && AllDigits(t[..k]) && AllDigits(t[k + 1..])
  }

  lemma DigitsSlice(s: string, a: nat, b: nat)
    requires a <= b <= |s| && DigitsIn(s, a, b)
    ensures AllDigits(s[a..b])
  {
  }

  /** A space at `w - 1` followed by `lit` is an occurrence of `" " + lit`. */
  lemma SpaceThenLiteral(s: string, w: nat, lit: string)
    requires 0 < w <= |s| && s[w - 1] == ' ' && OccursAt(s, lit, w)
    ensures OccursAt(s, " " + lit, w - 1)
  {
    assert s[w - 1..w + |lit|] == [s[w - 1]] + s[w..w + |lit|];
  }

  /** `s[c..e]` is digits, a '.' at `d`, digits. */
  lemma PointNumberSlice(s: string, c: nat, d: nat, e: nat)
    requires c <= d < e <= |s| && s[d] == '.'
    requires DigitsIn(s, c, d) && DigitsIn(s, d + 1, e)
    ensures IsPointNumber(s[c..e])
  {
    var t := s[c..e];
    assert t[d - c] == '.';
    assert t[..d - c] == s[c..d];
    assert t[d - c + 1..] == s[d + 1..e];
  }

  /** `\d*\.?\d*` */
  predicate IsLooseNumber(t: string)
  {
    AllDigits(t) || IsPointNumber(t)
  }

  // ---------------------------------------------------------------------
  // (\d*)\s*x\s*(\d*\.\d*)\s* GHz
  // Every quantifier is greedy and the character after it cannot start the
  // next item, so giving characters back never helps; the only backtracking
  // that succeeds is `\s*` returning its last character for the space of
  // " GHz".

  datatype Freq = Freq(count: string, clock: string)

  /** A frequency match from `p`: a digit count, a `\d*\.\d*` clock, and
      the match ends with " GHz". */
  predicate IsFreqMatch(s: string, p: nat, m: Found<Freq>)
  {
    && p + 4 <= m.end <= |s| && OccursAt(s, " GHz", m.end - 4)
    && AllDigits(m.groups.count) && IsPointNumber(m.groups.clock)
  }

  function FreqAt(s: string, p: nat): (r: Option<Found<Freq>>)
    ensures r.Some? ==> IsFreqMatch(s, p, r.value)
  {
    if p > |s| then None
    else
      var a := DigitEnd(s, p);
      var b := SpaceEnd(s, a);
      if b == |s| || s[b] != 'x' then None
      else ClockAt(s, p, a, SpaceEnd(s, b + 1))
  }

  /** The rest of a frequency match once the count `s[p..a]` and the `x`
      are read: the clock from `c` on, then spaces and " GHz". */
  function ClockAt(s: string, p: nat, a: nat, c: nat): (r: Option<Found<Freq>>)
    requires p <= a < c <= |s| && DigitsIn(s, p, a)
    ensures r.Some? ==> IsFreqMatch(s, p, r.value)
  {
    var d := DigitEnd(s, c);
    if d == |s| || s[d] != '.' then None
    else
      var e := DigitEnd(s, d + 1);
      var w := SpaceEnd(s, e);
      if w > e && s[w - 1] == ' ' && OccursAt(s, "GHz", w) then
        FreqShape(s, p, a, c, d, e, w);
        Some(Found(Freq(s[p..a], s[c..e]), w + 3))
      else None
  }

  /** The groups and end of a frequency match found by `FreqAt`. */
  lemma FreqShape(s: string, p: nat, a: nat, c: nat, d: nat, e: nat, w: nat)
    requires p <= a <= |s| && DigitsIn(s, p, a)
    requires c <= d < e <= |s| && s[d] == '.' && DigitsIn(s, c, d) && DigitsIn(s, d + 1, e)
    requires p + 1 <= w <= |s| && s[w - 1] == ' ' && OccursAt(s, "GHz", w)
    ensures IsFreqMatch(s, p, Found(Freq(s[p..a], s[c..e]), w + 3))
  {
    PointNumberSlice(s, c, d, e);
    DigitsSlice(s, p, a);
    SpaceThenLiteral(s, w, "GHz");
  }

  /** `re.findall(r'(\d*)\s*x\s*(\d*\.\d*)\s* GHz', s)` */
  function CpuFreqs(s: string): (r: seq<Freq>)
    ensures forall k :: 0 <= k < |r| ==> AllDigits(r[k].count) && IsPointNumber(r[k].clock)
  {
    var at := q => FreqAt(s, q);
    FindAllKeeps(at, (g: Freq) => AllDigits(g.count) && IsPointNumber(g.clock), 0, |s|);
    FindAll(at, 0, |s|)
  }

  // ---------------------------------------------------------------------
  // Kryo( ?\d*) and Krait( ?\d*): the match starts at every occurrence of
  // the literal and always succeeds; the group is greedy and ends the pattern.

  /** ` ?\d*` from `q`, both quantifiers greedy: the end of the group. */
  function GroupEnd(s: string, q: nat): (e: nat)
    requires q <= |s|
    ensures q <= e <= |s|
    ensures var g := s[q..e]; AllDigits(if g != [] && g[0] == ' ' then g[1..] else g)
    ensures q < |s| && s[q] == ' ' ==> e > q
    ensures e < |s| ==> !IsDigit(s[e])
  {
    if q < |s| && s[q] == ' ' then
      var e := DigitEnd(s, q + 1);
      DigitsSlice(s, q + 1, e);
      assert s[q..e][1..] == s[q + 1..e];
      e
    else
      var e := DigitEnd(s, q);
      DigitsSlice(s, q, e);
      e
  }

  /** `t` is the match of `tag( ?\d*)` at `i`: the tag, then an optional
      space and digits, taking the space when there is one and every digit
      that follows. */
  predicate TaggedMatch(s: string, tag: string, i: nat, t: string)
  {
    && OccursAt(s, t, i) && |tag| <= |t| && t[..|tag|] == tag
    && (var g := t[|tag|..]; AllDigits(if g != [] && g[0] == ' ' then g[1..] else g))
    && (i + |tag| < |s| && s[i + |tag|] == ' ' ==> |t| > |tag|)
    && (i + |t| < |s| ==> !IsDigit(s[i + |t|]))
  }

  /** `tag + re.findall(tag + r'( ?\d*)', s)[0]`, when there is a match: the
      match at the first occurrence of the tag. */
  function TaggedVersion(s: string, tag: string): (r: Option<string>)
    ensures r.Some? <==> Contains(s, tag)
    ensures r.Some? ==> TaggedMatch(s, tag, IndexOf(s, tag, 0).value, r.value)
  {
    match IndexOf(s, tag, 0)
    case None => None
    case Some(i) =>
      var e := GroupEnd(s, i + |tag|);
      TaggedShape(s, tag, i, e);
      Some(s[i..e])
  }

  /** The tag at `i`, then the group up to `e`. */
  lemma TaggedShape(s: string, tag: string, i: nat, e: nat)
    requires OccursAt(s, tag, i) && i + |tag| <= e <= |s|
    requires var g := s[i + |tag|..e]; AllDigits(if g != [] && g[0] == ' ' then g[1..] else g)
    requires i + |tag| < |s| && s[i + |tag|] == ' ' ==> e > i + |tag|
    requires e < |s| ==> !IsDigit(s[e])
    ensures TaggedMatch(s, tag, i, s[i..e])
  {
    var t := s[i..e];
    assert t[..|tag|] == s[i..i + |tag|];
    assert t[|tag|..] == s[i + |tag|..e];
  }

  // ---------------------------------------------------------------------
  // Cortex[-\s]A\d*

  function CortexAt(s: string, p: nat): (r: Option<Found<string>>)
    ensures r.Some? ==> p < r.value.end <= |s| && r.value.groups == s[p..r.value.end]
    ensures r.Some? ==> var g := r.value.groups;
                        |g| >= 8 && g[..6] == "Cortex" && (g[6] == '-' || IsSpace(g[6])) &&
                        g[7] == 'A' && AllDigits(g[8..])
  {
    if OccursAt(s, "Cortex", p) && p + 7 < |s| && (s[p + 6] == '-' || IsSpace(s[p + 6])) && s[p + 7] == 'A' then
      var e := DigitEnd(s, p + 8);
      assert s[p..e][..6] == s[p..p + 6];
      assert s[p..e][8..] == s[p + 8..e];
      Some(Found(s[p..e], e))
    else None
  }

  /** `re.findall(r'Cortex[-\s]A\d*', s)` */
  function CortexCores(s: string): (r: seq<string>)
    ensures forall k :: 0 <= k < |r| ==> |r[k]| >= 8 && r[k][..6] == "Cortex" && r[k][7] == 'A'
  {
    var at := q => CortexAt(s, q);
    FindAllKeeps(at, (g: string) => |g| >= 8 && g[..6] == "Cortex" && g[7] == 'A', 0, |s|);
    FindAll(at, 0, |s|)
  }

  // ---------------------------------------------------------------------
  // Adreno \d*

  /** `re.findall(r'Adreno \d*', s)[0]`, when there is a match. */
  function AdrenoModel(s: string): (r: Option<string>)
    ensures r.Some? <==> Contains(s, "Adreno ")
    ensures r.Some? ==> |r.value| >= 7 && r.value[..7] == "Adreno " && AllDigits(r.value[7..])
    ensures r.Some? ==> var i := IndexOf(s, "Adreno ", 0).value;
                        OccursAt(s, r.value, i) && (i + |r.value| == |s| || !IsDigit(s[i + |r.value|]))
  {
    match IndexOf(s, "Adreno ", 0)
    case None => None
    case Some(i) =>
      var e := DigitEnd(s, i + 7);
      var t := s[i..e];
      assert t[..7] == s[i..i + 7] && t[7..] == s[i + 7..e];
      Some(t)
  }

  // ---------------------------------------------------------------------
  // (\d*\.?\d*)\s*x\s*(\d*\.?\d*)\s*x\s*(\d*\.?\d*)
  // A shorter number than the greedy one ends before a digit or a '.', where
  // neither `\s` nor 'x' can follow, so only the greedy numbers can match.

  datatype Triple = Triple(x: string, y: string, z: string)

  /** The end of the greedy `\d*\.?\d*` that starts at `p`. */
  function NumberEnd(s: string, p: nat): (e: nat)
    requires p <= |s|
    ensures p <= e <= |s|
  {
    var a := DigitEnd(s, p);
    if a < |s| && s[a] == '.' then DigitEnd(s, a + 1) else a
  }

  /** What `NumberEnd` takes is a `\d*\.?\d*`. */
  lemma NumberEndLoose(s: string, p: nat)
    requires p <= |s|
    ensures IsLooseNumber(s[p..NumberEnd(s, p)])
  {
    var a := DigitEnd(s, p);
    if a < |s| && s[a] == '.' {
      PointNumberSlice(s, p, a, DigitEnd(s, a + 1));
    } else {
      DigitsSlice(s, p, a);
    }
  }

  /** `\s*x\s*` from `p`: the position after it. */
  function CrossEnd(s: string, p: nat): (r: Option<nat>)
    requires p <= |s|
    ensures r.Some? ==> p < r.value <= |s|
  {
    var b := SpaceEnd(s, p);
    if b < |s| && s[b] == 'x' then Some(SpaceEnd(s, b + 1)) else None
  }

  /** A run of digits ended by a non-digit is where `DigitEnd` stops. */
  lemma DigitEndAt(s: string, p: nat, e: nat)
    requires p <= e <= |s| && DigitsIn(s, p, e) && (e == |s| || !IsDigit(s[e]))
    ensures DigitEnd(s, p) == e
  {
  }

  /** Digits, a '.', digits: `NumberEnd` takes all of them. */
  lemma PointNumberAt(s: string, p: nat, a: nat, e: nat)
    requires p <= a < e <= |s| && DigitsIn(s, p, a) && s[a] == '.'
    requires DigitsIn(s, a + 1, e) && (e == |s| || !IsDigit(s[e]))
    ensures NumberEnd(s, p) == e
  {
    DigitEndAt(s, p, a);
    DigitEndAt(s, a + 1, e);
  }

  /** `" x "` at `c..d` followed by a non-space is one cross. */
  lemma CrossAt(s: string, c: nat, d: nat)
    requires c <= d < |s| && s[c..d] == " x " && !IsSpace(s[d])
    ensures CrossEnd(s, c) == Some(d)
  {
    assert s[c] == s[c..d][0] && s[c + 1] == s[c..d][1] && s[c + 2] == s[c..d][2];
    assert SpaceEnd(s, c + 1) == c + 1;
    assert SpaceEnd(s, d) == d;
  }

  /** No triple starts at `p` when `s[p]` cannot start a number and the
      spaces from `p` end at a character other than 'x'. */
  lemma NoTripleAt(s: string, p: nat, b: nat)
    requires p <= b < |s| && !IsDigit(s[p]) && s[p] != '.'
    requires (forall k :: p <= k < b ==> IsSpace(s[k])) && !IsSpace(s[b]) && s[b] != 'x'
    ensures TripleAt(s, p).None?
  {
  }

  /** The last two numbers of a triple, read from `b`:
      `\d*\.?\d*\s*x\s*\d*\.?\d*` as their texts and the end of the match. */
  function PairAt(s: string, b: nat): (r: Option<(string, string, nat)>)
    requires b <= |s|
    ensures r.Some? ==> b <= r.value.2 <= |s|
  {
    var c := NumberEnd(s, b);
    match CrossEnd(s, c)
    case None => None
    case Some(d) =>
      var e := NumberEnd(s, d);
      Some((s[b..c], s[d..e], e))
  }

  function TripleAt(s: string, p: nat): (r: Option<Found<Triple>>)
    ensures r.Some? ==> p < r.value.end <= |s|
  {
    if p > |s| then None
    else
      var a := NumberEnd(s, p);
      match CrossEnd(s, a)
      case None => None
      case Some(b) =>
        match PairAt(s, b)
        case None => None
        case Some((y, z, e)) => Some(Found(Triple(s[p..a], y, z), e))
  }

  /** `x x y x z` as a dimensions field writes it: one space around each 'x'. */
  function TripleText(g: Triple): string
  {
    g.x + " x " + g.y + " x " + g.z
  }

  /** Each number of `g` is a non-empty `\d*\.?\d*`. */
  predicate Written(g: Triple)
  {
    && g.x != [] && g.y != [] && g.z != []
    && IsLooseNumber(g.x) && IsLooseNumber(g.y) && IsLooseNumber(g.z)
  }

  /** A non-empty number starts with a digit or a '.', never a space. */
  lemma NumberStart(x: string)
    requires x != [] && IsLooseNumber(x)
    ensures IsDigit(x[0]) || x[0] == '.'
  {
    if !AllDigits(x) {
      var k :| 0 <= k < |x| && x[k] == '.' && AllDigits(x[..k]) && AllDigits(x[k + 1..]);
      if k > 0 {
        assert x[..k][0] == x[0];
      }
    }
  }

  /** A number written at `p..e` and followed by neither a digit nor a '.'
      is exactly what `NumberEnd` takes. */
  lemma NumberEndOf(s: string, p: nat, e: nat, x: string)
    requires p <= e < |s| && s[p..e] == x && IsLooseNumber(x)
    requires !IsDigit(s[e]) && s[e] != '.'
    ensures NumberEnd(s, p) == e
  {
    if AllDigits(x) {
      DigitsFrom(s, p, e, x);
      DigitEndAt(s, p, e);
    } else {
      var k :| 0 <= k < |x| && x[k] == '.' && AllDigits(x[..k]) && AllDigits(x[k + 1..]);
      var a := p + k;
      var y, z := x[..k], x[k + 1..];
      assert s[p..a] == y && s[a] == '.' && s[a + 1..e] == z;
      PointNumberSpelled(s, p, a, e, y, z);
    }
  }

  /** Digits `y`, a '.', digits `z` spelled at `p..e`: `NumberEnd` takes
      all of them. */
  lemma PointNumberSpelled(s: string, p: nat, a: nat, e: nat, y: string, z: string)
    requires p <= a < e <= |s| && s[p..a] == y && s[a] == '.' && s[a + 1..e] == z
    requires AllDigits(y) && AllDigits(z) && (e == |s| || !IsDigit(s[e]))
    ensures NumberEnd(s, p) == e
  {
    DigitsFrom(s, p, a, y);
    DigitsFrom(s, a + 1, e, z);
    PointNumberAt(s, p, a, e);
  }

  /** A slice that spells a run of digits is a run of digits of `s`. */
  lemma DigitsFrom(s: string, p: nat, e: nat, x: string)
    requires p <= e <= |s| && s[p..e] == x && AllDigits(x)
    ensures DigitsIn(s, p, e)
  {
    forall j | p <= j < e ensures IsDigit(s[j]) {
      assert s[j] == x[j - p];
    }
  }

  /** A written number at `p..a` followed by `" x "` at `a..b` and a
      number starting at `b`: one number and one cross. */
  lemma NumberThenCross(s: string, p: nat, a: nat, b: nat, x: string, y: string)
    requires p <= a <= b < |s| && s[p..a] == x && IsLooseNumber(x)
    requires s[a..b] == " x " && y != [] && IsLooseNumber(y) && s[b] == y[0]
    ensures NumberEnd(s, p) == a && CrossEnd(s, a) == Some(b)
  {
    assert s[a] == s[a..b][0];
    NumberStart(y);
    NumberEndOf(s, p, a, x);
    CrossAt(s, a, b);
  }

  /** The three ends a pair match is read from. */
  lemma PairAtEnds(s: string, b: nat, c: nat, d: nat, e: nat)
    requires b <= |s| && NumberEnd(s, b) == c && CrossEnd(s, c) == Some(d) && NumberEnd(s, d) == e
    ensures PairAt(s, b) == Some((s[b..c], s[d..e], e))
  {
  }

  /** Two written numbers at `b..c` and `d..e` around `" x "`, followed by
      neither a digit nor a '.', are the pair read at `b`. */
  lemma PairAtPieces(s: string, b: nat, c: nat, d: nat, e: nat, y: string, z: string)
    requires b <= c <= d <= e < |s| && s[b..c] == y && s[c..d] == " x " && s[d..e] == z
    requires IsLooseNumber(y) && z != [] && IsLooseNumber(z)
    requires !IsDigit(s[e]) && s[e] != '.'
    ensures PairAt(s, b) == Some((y, z, e))
  {
    assert s[d] == s[d..e][0];
    NumberThenCross(s, b, c, d, y, z);
    NumberEndOf(s, d, e, z);
    PairAtEnds(s, b, c, d, e);
  }

  /** The first number, its cross and the pair after it give the match. */
  lemma TripleAtEnds(s: string, p: nat, a: nat, b: nat, e: nat, g: Triple)
    requires p <= a <= |s| && NumberEnd(s, p) == a && s[p..a] == g.x && CrossEnd(s, a) == Some(b)
    requires PairAt(s, b) == Some((g.y, g.z, e))
    ensures TripleAt(s, p) == Some(Found(g, e))
  {
  }

  /** A written triple laid out at `p..e` with `" x "` between its numbers,
      followed by neither a digit nor a '.', is the triple matched at `p`. */
  lemma TripleAtPieces(s: string, p: nat, a: nat, b: nat, c: nat, d: nat, e: nat, g: Triple)
    requires p <= a <= b <= c <= d <= e < |s|
    requires s[p..a] == g.x && s[a..b] == " x " && s[b..c] == g.y && s[c..d] == " x " && s[d..e] == g.z
    requires Written(g) && !IsDigit(s[e]) && s[e] != '.'
    ensures TripleAt(s, p) == Some(Found(g, e))
  {
    assert s[b] == s[b..c][0];
    NumberThenCross(s, p, a, b, g.x, g.y);
    PairAtPieces(s, b, c, d, e, g.y, g.z);
    TripleAtEnds(s, p, a, b, e, g);
  }

  /** Where the pieces of `TripleText(g)` sit in `pre + TripleText(g) + post`. */
  lemma TripleLayout(s: string, pre: string, g: Triple, post: string,
                     p: nat, a: nat, b: nat, c: nat, d: nat, e: nat)
    requires s == pre + TripleText(g) + post && p == |pre|
    requires a == p + |g.x| && b == a + 3 && c == b + |g.y| && d == c + 3 && e == d + |g.z|
    ensures e == p + |TripleText(g)| && e + |post| == |s|
    ensures s[p..a] == g.x && s[a..b] == " x " && s[b..c] == g.y
    ensures s[c..d] == " x " && s[d..e] == g.z && s[e..] == post
  {
  }

  /** A written triple between `pre` and a `post` that starts with neither
      a digit nor a '.' is matched at `p`, right after `pre`, and the match
      ends at `e`, where `post` begins. */
  lemma TripleAtText(s: string, pre: string, g: Triple, post: string, p: nat, e: nat)
    requires s == pre + TripleText(g) + post && Written(g)
    requires post != [] && !IsDigit(post[0]) && post[0] != '.'
    requires p == |pre| && e == p + |TripleText(g)|
    ensures TripleAt(s, p) == Some(Found(g, e))
  {
    var a := p + |g.x|;
    var b := a + 3;
    var c := b + |g.y|;
    var d := c + 3;
    TripleLayout(s, pre, g, post, p, a, b, c, d, e);
    assert s[e] == s[e..][0];
    TripleAtPieces(s, p, a, b, c, d, e, g);
  }

  /** Every triple matched is three `\d*\.?\d*` numbers. */
  lemma TripleAtLoose(s: string, q: nat)
    ensures TripleAt(s, q).Some? ==>
              var g := TripleAt(s, q).value.groups;
              IsLooseNumber(g.x) && IsLooseNumber(g.y) && IsLooseNumber(g.z)
  {
    if q <= |s| {
      var a := NumberEnd(s, q);
      NumberEndLoose(s, q);
      if CrossEnd(s, a).Some? {
        var b := CrossEnd(s, a).value;
        var c := NumberEnd(s, b);
        NumberEndLoose(s, b);
        if CrossEnd(s, c).Some? {
          NumberEndLoose(s, CrossEnd(s, c).value);
        }
      }
    }
  }

  lemma AllTriplesLoose(s: string)
    ensures forall q: nat :: TripleAt(s, q).Some? ==>
              var g := TripleAt(s, q).value.groups;
              IsLooseNumber(g.x) && IsLooseNumber(g.y) && IsLooseNumber(g.z)
  {
    forall q: nat
      ensures TripleAt(s, q).Some? ==>
                var g := TripleAt(s, q).value.groups;
                IsLooseNumber(g.x) && IsLooseNumber(g.y) && IsLooseNumber(g.z)
    {
      TripleAtLoose(s, q);
    }
  }

  /** The triple matcher over `s`, by start position. */
  function TripleMatcher(s: string): nat -> Option<Found<Triple>>
  {
    (q: nat) => TripleAt(s, q)
  }

  /** `re.findall(r'(\d*\.?\d*)\s*x\s*(\d*\.?\d*)\s*x\s*(\d*\.?\d*)', s)` */
  function Triples(s: string): (r: seq<Triple>)
    ensures forall k :: 0 <= k < |r| ==>
              IsLooseNumber(r[k].x) && IsLooseNumber(r[k].y) && IsLooseNumber(r[k].z)
  {
    var at := TripleMatcher(s);
    AllTriplesLoose(s);
    FindAllKeeps(at, (g: Triple) => IsLooseNumber(g.x) && IsLooseNumber(g.y) && IsLooseNumber(g.z), 0, |s|);
    FindAll(at, 0, |s|)
  }

  // ---------------------------------------------------------------------
  // (\d+\.?\d* MP)
  // Giving back digits or the '.' leaves a digit or a '.' where " MP" must
  // start, so only the greedy number can match.

  function MegapixelAt(s: string, p: nat): (r: Option<Found<string>>)
    ensures r.Some? ==> p < r.value.end <= |s| && r.value.groups == s[p..r.value.end]
    ensures r.Some? ==> var g := r.value.groups;
                        |g| >= 4 && IsDigit(g[0]) && g[|g| - 3..] == " MP"
  {
    if p < |s| && IsDigit(s[p]) then
      var d := DigitEnd(s, p);
      var e := if d < |s| && s[d] == '.' then DigitEnd(s, d + 1) else d;
      if OccursAt(s, " MP", e) then
        assert s[p..e + 3][e + 3 - p - 3..] == s[e..e + 3];
        Some(Found(s[p..e + 3], e + 3))
      else None
    else None
  }

  /** `re.findall(r'(\d+\.?\d* MP)', s)[0]`, when there is a match. */
  function Megapixels(s: string): (r: Option<string>)
    ensures r.Some? ==> |r.value| >= 4 && IsDigit(r.value[0]) && r.value[|r.value| - 3..] == " MP"
    ensures r.Some? ==> Contains(s, r.value)
  {
    var at := q => MegapixelAt(s, q);
    match Leftmost(at, 0, |s|)
    case None => None
    case Some((p, m)) =>
      ContainsIff(s, m.groups, p);
      Some(m.groups)
  }

  /** The resolution reported is the leftmost match: there is none exactly
      when no position matches, and otherwise it is the match at a position
      before which none matches. */
  lemma MegapixelsLeftmost(s: string)
    ensures Megapixels(s).None? <==> forall q: nat :: q <= |s| ==> MegapixelAt(s, q).None?
    ensures Megapixels(s).Some? ==>
              exists p: nat :: p <= |s| && MegapixelAt(s, p).Some? && MegapixelAt(s, p).value.groups == Megapixels(s).value &&
                               forall q: nat :: q < p ==> MegapixelAt(s, q).None?
  {
    var at := q => MegapixelAt(s, q);
    match Leftmost(at, 0, |s|)
    case None =>
      assert forall q: nat :: q <= |s| ==> MegapixelAt(s, q).None? by {
        forall q: nat | q <= |s| ensures MegapixelAt(s, q).None? {
          assert at(q).None?;
        }
      }
    case Some((p, m)) =>
      assert at(p) == Some(m);
      assert forall q: nat :: q < p ==> MegapixelAt(s, q).None? by {
        forall q: nat | q < p ensures MegapixelAt(s, q).None? {
          assert at(q).None?;
        }
      }
  }

  // ---------------------------------------------------------------------
  // (~?\d*) ppi density
  // Without its '~' or with fewer digits the literal would have to start at
  // a '~' or a digit, so only the greedy choice can match.

  function DensityAt(s: string, p: nat): (r: Option<Found<string>>)
    ensures r.Some? ==> p + 12 <= r.value.end <= |s| && OccursAt(s, " ppi density", r.value.end - 12)
    ensures r.Some? ==> var g := r.value.groups;
                        AllDigits(if g != [] && g[0] == '~' then g[1..] else g)
  {
    if p > |s| then None
    else
      var a := if p < |s| && s[p] == '~' then p + 1 else p;
      var d := DigitEnd(s, a);
      if OccursAt(s, " ppi density", d) then
        assert s[p..d] != [] && s[p..d][0] == '~' ==> s[p..d][1..] == s[a..d];
        Some(Found(s[p..d], d + 12))
      else None
  }

  /** `re.findall(r'(~?\d*) ppi density', s)[0]`, when there is a match. */
  function PixelDensity(s: string): (r: Option<string>)
    ensures r.Some? ==> AllDigits(if r.value != [] && r.value[0] == '~' then r.value[1..] else r.value)
  {
    var at := q => DensityAt(s, q);
    match Leftmost(at, 0, |s|)
    case None => None
    case Some((p, m)) => Some(m.groups)
  }

  /** The density reported is the leftmost match: there is one exactly when
      some position matches, and it is the match at a position before which
      none matches. */
  lemma PixelDensityLeftmost(s: string)
    ensures PixelDensity(s).Some? <==> exists q: nat :: q <= |s| && DensityAt(s, q).Some?
    ensures PixelDensity(s).Some? ==>
              exists p: nat :: p <= |s| && DensityAt(s, p).Some? && DensityAt(s, p).value.groups == PixelDensity(s).value &&
                               forall q: nat :: q < p ==> DensityAt(s, q).None?
  {
    var at := q => DensityAt(s, q);
    match Leftmost(at, 0, |s|)
    case None =>
      assert forall q: nat :: q <= |s| ==> DensityAt(s, q).None? by {
        forall q: nat | q <= |s| ensures DensityAt(s, q).None? {
          assert at(q).None?;
        }
      }
    case Some((p, m)) =>
      assert at(p) == Some(m);
      assert forall q: nat :: q < p ==> DensityAt(s, q).None? by {
        forall q: nat | q < p ensures DensityAt(s, q).None? {
          assert at(q).None?;
        }
      }
  }


  // ---------------------------------------------------------------------
  // (\d+)\s?x\s?(\d+)
  // Giving back a digit or the optional space puts 'x' or `\d` on a
  // character it cannot match, so the greedy choice is the only one.

  datatype Pixels = Pixels(width: string, height: string)

  function PixelsAt(s: string, p: nat): (r: Option<Found<Pixels>>)
    ensures r.Some? ==> p < r.value.end <= |s|
    ensures r.Some? ==> var g := r.value.groups;
                        g.width != [] && AllDigits(g.width) && g.height != [] && AllDigits(g.height)
  {
    if p < |s| && IsDigit(s[p]) then
      var d := DigitEnd(s, p);
      var b := if d < |s| && IsSpace(s[d]) then d + 1 else d;
      if b < |s| && s[b] == 'x' then
        var c := if b + 1 < |s| && IsSpace(s[b + 1]) then b + 2 else b + 1;
        if c < |s| && IsDigit(s[c]) then
          var e := DigitEnd(s, c);
          Some(Found(Pixels(s[p..d], s[c..e]), e))
        else None
      else None
    else None
  }

  /** `re.findall(r'(\d+)\s?x\s?(\d+)', s)[0]`, when there is a match. */
  function ScreenPixels(s: string): (r: Option<Pixels>)
    ensures r.Some? ==> r.value.width != [] && AllDigits(r.value.width)
    ensures r.Some? ==> r.value.height != [] && AllDigits(r.value.height)
  {
    var at := q => PixelsAt(s, q);
    match Leftmost(at, 0, |s|)
    case None => None
    case Some((p, m)) => Some(m.groups)
  }

  /** The resolution reported is the leftmost match: there is one exactly
      when some position matches, and it is the match at a position before
      which none matches. */
  lemma ScreenPixelsLeftmost(s: string)
    ensures ScreenPixels(s).Some? <==> exists q: nat :: q <= |s| && PixelsAt(s, q).Some?
    ensures ScreenPixels(s).Some? ==>
              exists p: nat :: p <= |s| && PixelsAt(s, p).Some? && PixelsAt(s, p).value.groups == ScreenPixels(s).value &&
                               forall q: nat :: q < p ==> PixelsAt(s, q).None?
  {
    var at := q => PixelsAt(s, q);
    match Leftmost(at, 0, |s|)
    case None =>
      assert forall q: nat :: q <= |s| ==> PixelsAt(s, q).None? by {
        forall q: nat | q <= |s| ensures PixelsAt(s, q).None? {
          assert at(q).None?;
        }
      }
    case Some((p, m)) =>
      assert at(p) == Some(m);
      assert forall q: nat :: q < p ==> PixelsAt(s, q).None? by {
        forall q: nat | q < p ensures PixelsAt(s, q).None? {
          assert at(q).None?;
        }
      }
  }


  // ---------------------------------------------------------------------
  // (\d+)\s?GB (\d+)\s?GB RAM
  // Same argument as for the resolution: only the greedy choice can match.

  datatype MemConfig = MemConfig(storage: string, ram: string)

  function MemConfigAt(s: string, p: nat): (r: Option<Found<MemConfig>>)
    ensures r.Some? ==> p < r.value.end <= |s|
    ensures r.Some? ==> var g := r.value.groups;
                        g.storage != [] && AllDigits(g.storage) && g.ram != [] && AllDigits(g.ram)
  {
    if p < |s| && IsDigit(s[p]) then
      var d := DigitEnd(s, p);
      var b := if d < |s| && IsSpace(s[d]) then d + 1 else d;
      if OccursAt(s, "GB ", b) && b + 3 < |s| && IsDigit(s[b + 3]) then
        var e := DigitEnd(s, b + 3);
        var f := if e < |s| && IsSpace(s[e]) then e + 1 else e;
        if OccursAt(s, "GB RAM", f) then Some(Found(MemConfig(s[p..d], s[b + 3..e]), f + 6))
        else None
      else None
    else None
  }

  /** `re.findall(r'(\d+)\s?GB (\d+)\s?GB RAM', s)` */
  function MemConfigs(s: string): (r: seq<MemConfig>)
    ensures forall k :: 0 <= k < |r| ==>
              r[k].storage != [] && AllDigits(r[k].storage) && r[k].ram != [] && AllDigits(r[k].ram)
    ensures r == [] <==> forall q: nat :: q <= |s| ==> MemConfigAt(s, q).None?
  {
    var at := q => MemConfigAt(s, q);
    FindAllKeeps(at, (g: MemConfig) => g.storage != [] && AllDigits(g.storage) && g.ram != [] && AllDigits(g.ram), 0, |s|);
    FindAllNone(at, 0, |s|);
    assert (forall q: nat :: q <= |s| ==> at(q).None?) <==> (forall q: nat :: q <= |s| ==> MemConfigAt(s, q).None?) by {
      if forall q: nat :: q <= |s| ==> at(q).None? {
        forall q: nat | q <= |s| ensures MemConfigAt(s, q).None? {
          assert at(q).None?;
        }
      }
      if forall q: nat :: q <= |s| ==> MemConfigAt(s, q).None? {
        forall q: nat | q <= |s| ensures at(q).None? {
          assert MemConfigAt(s, q).None?;
        }
      }
    }
    FindAll(at, 0, |s|)
  }

  // ---------------------------------------------------------------------
  // \b(\d+\.?\d*[a-zA-Z]?)\b
  // Here backtracking matters: "5.0a_" matches as "5." because the boundary
  // after "5.0a" or "5.0" fails. The helpers below try the choices in the
  // engine's order: `\d+` longest first, `\.?` present first, `\d*` longest
  // first, `[a-zA-Z]?` present first, and the first choice followed by a
  // word boundary wins.

  /** `\b` at position `t`. */
  predicate Boundary(s: string, t: nat)
    requires t <= |s|
  {
    (t > 0 && IsWordChar(s[t - 1])) != (t < |s| && IsWordChar(s[t]))
  }

  /** The token `s[p..e]` has the shape `\d+\.?\d*[a-zA-Z]?`, with the
      integer part ending at `n`, the fraction part at `q..f`. */
  predicate VersionSpan(s: string, p: nat, n: nat, q: nat, f: nat, e: nat)
  {
    && p < n <= q <= f <= e <= |s|
    && DigitsIn(s, p, n)
    && (q == n || (q == n + 1 && s[n] == '.'))
    && DigitsIn(s, q, f)
    && (e == f || (e == f + 1 && IsAsciiLetter(s[f])))
  }

  /** `[a-zA-Z]?\b` from `f`. */
  function LetterThenBoundary(s: string, f: nat): (r: Option<nat>)
    requires f <= |s|
    ensures r.Some? ==> (r.value == f || (r.value == f + 1 && f < |s| && IsAsciiLetter(s[f])))
    ensures r.Some? ==> r.value <= |s| && Boundary(s, r.value)
  {
    if f < |s| && IsAsciiLetter(s[f]) && Boundary(s, f + 1) then Some(f + 1)
    else if Boundary(s, f) then Some(f)
    else None
  }

  /** `\d*[a-zA-Z]?\b` where `\d*` starts at `q` and first takes `q..f`. */
  function FractionThenBoundary(s: string, q: nat, f: nat): (r: Option<(nat, nat)>)
    requires q <= f <= |s| && DigitsIn(s, q, f)
    ensures r.Some? ==> var (f', e) := r.value;
                        q <= f' <= f && DigitsIn(s, q, f') &&
                        (e == f' || (e == f' + 1 && f' < |s| && IsAsciiLetter(s[f']))) &&
                        e <= |s| && Boundary(s, e)
    decreases f - q
  {
    match LetterThenBoundary(s, f)
    case Some(e) => Some((f, e))
    case None => if f > q then FractionThenBoundary(s, q, f - 1) else None
  }

  /** `\.?\d*[a-zA-Z]?\b` after an integer part ending at `n`. */
  function DotThenBoundary(s: string, n: nat): (r: Option<(nat, nat, nat)>)
    requires n <= |s|
    ensures r.Some? ==> var (q, f, e) := r.value;
                        n <= q <= f <= e <= |s| && (q == n || (q == n + 1 && s[n] == '.')) &&
                        DigitsIn(s, q, f) && (e == f || (e == f + 1 && IsAsciiLetter(s[f]))) &&
                        Boundary(s, e)
  {
    var plain := match FractionThenBoundary(s, n, DigitEnd(s, n))
                 case Some((f, e)) => Some((n, f, e))
                 case None => None;
    if n < |s| && s[n] == '.' then
      match FractionThenBoundary(s, n + 1, DigitEnd(s, n + 1))
      case Some((f, e)) => Some((n + 1, f, e))
      case None => plain
    else plain
  }

  /** The whole pattern after `\b`, with `\d+` first taking `p..n`. */
  function IntegerThenRest(s: string, p: nat, n: nat): (r: Option<(nat, nat, nat, nat)>)
    requires p < n <= |s| && DigitsIn(s, p, n)
    ensures r.Some? ==> var (n', q, f, e) := r.value;
                        VersionSpan(s, p, n', q, f, e) && Boundary(s, e)
    decreases n
  {
    match DotThenBoundary(s, n)
    case Some((q, f, e)) => Some((n, q, f, e))
    case None => if n > p + 1 then IntegerThenRest(s, p, n - 1) else None
  }

  function VersionAt(s: string, p: nat): (r: Option<Found<string>>)
    ensures r.Some? ==> p < r.value.end <= |s| && r.value.groups == s[p..r.value.end]
    ensures r.Some? ==> Boundary(s, p) && Boundary(s, r.value.end)
    ensures r.Some? ==> exists n, q, f :: VersionSpan(s, p, n, q, f, r.value.end)
  {
    if p < |s| && IsDigit(s[p]) && Boundary(s, p) then
      match IntegerThenRest(s, p, DigitEnd(s, p))
      case Some((n, q, f, e)) => Some(Found(s[p..e], e))
      case None => None
    else None
  }

  /** `re.findall(r'\b(\d+\.?\d*[a-zA-Z]?)\b', s)[0]`, when there is a match. */
  function VersionToken(s: string): (r: Option<string>)
    ensures r.Some? ==> r.value != [] && IsDigit(r.value[0]) && Contains(s, r.value)
    ensures r.None? <==> forall q: nat :: q <= |s| ==> VersionAt(s, q).None?
    ensures r.Some? ==> exists p: nat :: p <= |s| && VersionAt(s, p).Some? && VersionAt(s, p).value.groups == r.value &&
                          forall q: nat :: q < p ==> VersionAt(s, q).None?
  {
    var at := q => VersionAt(s, q);
    match Leftmost(at, 0, |s|)
    case None =>
      assert forall q: nat :: q <= |s| ==> VersionAt(s, q).None? by {
        forall q: nat | q <= |s| ensures VersionAt(s, q).None? {
          assert at(q).None?;
        }
      }
      None
    case Some((p, m)) =>
      ContainsIff(s, m.groups, p);
      assert forall q: nat :: q < p ==> VersionAt(s, q).None? by {
        forall q: nat | q < p ensures VersionAt(s, q).None? {
          assert at(q).None?;
        }
      }
      Some(m.groups)
  }
}
