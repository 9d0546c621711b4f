/**
 The two glob matchers of the cache: the recursive one of the L1 tier and the iterative
 one, with a single backtracking point, of the protocol cache.
 */
module Glob {
  import opened Options
  import opened Text

  const STAR: Byte := 42
  const QUESTION: Byte := 63

  // ----- what a glob means -----

  /** A `*`, byte 42, stands for any segment, a `?`, byte 63, for any one byte, every other byte for itself. */
  predicate Stands(c: Byte, segment: Bytes) {
    c == 42 || (|segment| == 1 && (c == 63 || segment[0] == c))
  }

  function Join(segments: seq<Bytes>): Bytes {
    if segments == [] then [] else segments[0] + Join(segments[1..])
  }

  /** `t` can be cut into one segment per pattern byte. */
  ghost predicate Matches(p: Bytes, t: Bytes) {
    exists segments: seq<Bytes> :: Cuts(p, t, segments)
  }

  ghost predicate Cuts(p: Bytes, t: Bytes, segments: seq<Bytes>) {
    |segments| == |p| && Join(segments) == t && forall i | 0 <= i < |p| :: Stands(p[i], segments[i])
  }

  // ----- the recursive matcher of the L1 tier -----

  predicate Recursive(p: Bytes, t: Bytes)
    decreases |p| + |t|
  {
    if p == [] then t == []
    else if p[0] == STAR then Recursive(p[1..], t) || (t != [] && Recursive(p, t[1..]))
    else if p[0] == QUESTION then t != [] && Recursive(p[1..], t[1..])
    else t != [] && t[0] == p[0] && Recursive(p[1..], t[1..])
  }

  lemma {:induction false} RecursiveCuts(p: Bytes, t: Bytes) returns (segments: seq<Bytes>)
    requires Recursive(p, t)
    ensures Cuts(p, t, segments)
    decreases |p| + |t|
  {
    if p == [] {
      segments := [];
    } else if p[0] == STAR && !Recursive(p[1..], t) {
      var rest := RecursiveCuts(p, t[1..]);
      segments := [[t[0]] + rest[0]] + rest[1..];
      assert segments[1..] == rest[1..];
      assert t == [t[0]] + t[1..];
    } else {
      var head := if p[0] == STAR then [] else t[..1];
      var rest := RecursiveCuts(p[1..], t[|head|..]);
      segments := [head] + rest;
      assert segments[1..] == rest && t == head + t[|head|..];
    }
  }

  lemma {:induction false} CutsRecursive(p: Bytes, t: Bytes, segments: seq<Bytes>)
    requires Cuts(p, t, segments)
    ensures Recursive(p, t)
    decreases |p| + |t|
  {
    if p != [] {
      var s, rest := segments[0], segments[1..];
      assert Stands(p[0], s) && t == s + Join(rest);
      if p[0] == STAR && s != [] {
        var shorter := [s[1..]] + rest;
        assert shorter[1..] == rest && t[1..] == s[1..] + Join(rest);
        forall i | 0 <= i < |p| ensures Stands(p[i], shorter[i]) {
          if i > 0 { assert shorter[i] == segments[i]; }
        }
        CutsRecursive(p, t[1..], shorter);
      } else {
        assert t[|s|..] == Join(rest);
        forall i | 0 <= i < |p| - 1 ensures Stands(p[1..][i], rest[i]) {
          assert p[1..][i] == p[i + 1] && rest[i] == segments[i + 1];
        }
        CutsRecursive(p[1..], t[|s|..], rest);
      }
    }
  }

  /** The recursive matcher decides exactly the meaning of the pattern. */
  lemma RecursiveIsMatches(p: Bytes, t: Bytes)
    ensures Recursive(p, t) <==> Matches(p, t)
  {
    if Recursive(p, t) {
      var segments := RecursiveCuts(p, t);
    }
    if Matches(p, t) {
      var segments :| Cuts(p, t, segments);
      CutsRecursive(p, t, segments);
    }
  }

  // ----- what the iterative matcher decides -----

  predicate Accepts(c: Byte, b: Byte) {
    c == QUESTION || c == b
  }

  /**
   The byte test comes before the star test, so a star that meets a literal star byte is
   spent on that byte; any other star stands for a segment of any length.
   */
  predicate Literal(p: Bytes, t: Bytes)
    decreases |p|, 0
  {
    if p == [] then t == []
    else if t != [] && Accepts(p[0], t[0]) then Literal(p[1..], t[1..])
    else p[0] == STAR && Anywhere(p[1..], t)
  }

  /** The pattern matches some suffix of the text. */
  predicate Anywhere(p: Bytes, t: Bytes)
    decreases |p|, 1
  {
    exists j | 0 <= j <= |t| :: Literal(p, t[j..])
  }

  lemma AnywhereStep(p: Bytes, t: Bytes)
    ensures t == [] ==> Anywhere(p, t) == Literal(p, t)
    ensures t != [] ==> Anywhere(p, t) == (Literal(p, t) || Anywhere(p, t[1..]))
  {
    assert t[0..] == t;
    if t != [] {
      if j :| 0 < j <= |t| && Literal(p, t[j..]) {
        assert t[1..][j - 1..] == t[j..];
      }
      if k :| 0 <= k <= |t[1..]| && Literal(p, t[1..][k..]) {
        assert t[1..][k..] == t[k + 1..];
      }
    }
  }

  lemma AnywhereLater(p: Bytes, t: Bytes, k: nat)
    requires k <= |t| && Anywhere(p, t[k..])
    ensures Anywhere(p, t)
  {
    var j :| 0 <= j <= |t[k..]| && Literal(p, t[k..][j..]);
    assert t[k..][j..] == t[k + j..];
  }

  /** A pattern part spent byte for byte on a text part. */
  predicate Aligned(u: Bytes, t: Bytes) {
    |u| == |t| && forall k | 0 <= k < |u| :: Accepts(u[k], t[k])
  }

  /**
   A later start never gets ahead: if `u` is spent byte for byte on `s`, then any match of
   `u + w` from a later position leaves for `w` a text starting no earlier than after `s`.
   */
  lemma {:induction false} LaterStaysLater(u: Bytes, w: Bytes, s: Bytes, t: Bytes, d: nat) returns (e: nat)
    requires Aligned(u, s) && d <= |s + t| && Literal(u + w, (s + t)[d..])
    ensures e <= |t| && Literal(w, t[e..])
    decreases |u|
  {
    var rest := (s + t)[d..];
    if u == [] {
      e := d;
      assert u + w == w && s + t == t;
    } else {
      var p := u + w;
      assert p[1..] == u[1..] + w;
      assert s[1..] + t == (s + t)[1..];
      if rest != [] && Accepts(p[0], rest[0]) {
        assert rest[1..] == (s[1..] + t)[d..];
        e := LaterStaysLater(u[1..], w, s[1..], t, d);
      } else {
        var j :| 0 <= j <= |rest| && Literal(p[1..], rest[j..]);
        assert d + j > 0;
        assert rest[j..] == (s[1..] + t)[d + j - 1..];
        e := LaterStaysLater(u[1..], w, s[1..], t, d + j - 1);
      }
    }
  }

  /** Meeting a new star, every match an older star could still find is also found by the new one. */
  lemma NewStarDominates(u: Bytes, w: Bytes, s: Bytes, t: Bytes)
    requires Aligned(u, s) && s + t != [] && Anywhere(u + w, (s + t)[1..])
    ensures Anywhere(w, t)
  {
    var j :| 0 <= j <= |(s + t)[1..]| && Literal(u + w, (s + t)[1..][j..]);
    assert (s + t)[1..][j..] == (s + t)[j + 1..];
    var e := LaterStaysLater(u, w, s, t, j + 1);
  }

  predicate AllStars(p: Bytes) {
    p == [] || (p[0] == STAR && AllStars(p[1..]))
  }

  lemma {:induction false} StarsMatchEmpty(p: Bytes)
    ensures Literal(p, []) == AllStars(p)
  {
    if p != [] {
      StarsMatchEmpty(p[1..]);
      AnywhereStep(p[1..], []);
    }
  }

  /**
   What the loop knows once a star is active: the pattern since the star is spent byte for
   byte on the text since its position, and the answer is yes exactly when the current
   attempt succeeds or one from a later position of the same star does.
   */
  ghost predicate AfterStar(p: Bytes, h: Bytes, pi: nat, hi: nat, sp: nat, sh: nat) {
    && sp < pi <= |p| && sh <= hi <= |h| && p[sp] == STAR
    && Aligned(p[sp + 1..pi], h[sh..hi])
    && Literal(p, h) == (Literal(p[pi..], h[hi..]) || (sh < |h| && Anywhere(p[sp + 1..], h[sh + 1..])))
  }

  lemma SpendByte(p: Bytes, h: Bytes, pi: nat, hi: nat, sp: nat, sh: nat)
    requires AfterStar(p, h, pi, hi, sp, sh)
    requires pi < |p| && hi < |h| && Accepts(p[pi], h[hi])
    ensures AfterStar(p, h, pi + 1, hi + 1, sp, sh)
  {
    assert p[pi..][1..] == p[pi + 1..] && h[hi..][1..] == h[hi + 1..];
    assert p[sp + 1..pi + 1] == p[sp + 1..pi] + [p[pi]];
    assert h[sh..hi + 1] == h[sh..hi] + [h[hi]];
  }

  lemma StarAnywhere(p: Bytes, t: Bytes)
    requires p != [] && p[0] == STAR && Anywhere(p, t)
    ensures Anywhere(p[1..], t)
  {
    var j :| 0 <= j <= |t| && Literal(p, t[j..]);
    if t[j..] != [] && Accepts(STAR, t[j]) {
      assert t[j..][1..] == t[j + 1..];
    } else {
      AnywhereLater(p[1..], t, j);
    }
  }

  /** Nothing an older star could still find is out of reach from the current position. */
  lemma OlderStar(p: Bytes, h: Bytes, pi: nat, hi: nat, sp: nat, sh: nat)
    requires AfterStar(p, h, pi, hi, sp, sh) && sh < |h|
    requires Anywhere(p[sp + 1..], h[sh + 1..])
    ensures Anywhere(p[pi..], h[hi..])
  {
    var u, w, s, t := p[sp + 1..pi], p[pi..], h[sh..hi], h[hi..];
    assert u + w == p[sp + 1..] && (s + t)[1..] == h[sh + 1..];
    NewStarDominates(u, w, s, t);
  }

  lemma NewStar(p: Bytes, h: Bytes, pi: nat, hi: nat)
    requires pi < |p| && hi < |h| && p[pi] == STAR && !Accepts(STAR, h[hi])
    requires Literal(p, h) == Anywhere(p[pi + 1..], h[hi..])
    ensures AfterStar(p, h, pi + 1, hi, pi, hi)
  {
    AnywhereStep(p[pi + 1..], h[hi..]);
    assert h[hi..][1..] == h[hi + 1..];
  }

  lemma ReplaceStar(p: Bytes, h: Bytes, pi: nat, hi: nat, sp: nat, sh: nat)
    requires AfterStar(p, h, pi, hi, sp, sh)
    requires pi < |p| && hi < |h| && p[pi] == STAR && !Accepts(STAR, h[hi])
    ensures AfterStar(p, h, pi + 1, hi, pi, hi)
  {
    assert p[pi..][1..] == p[pi + 1..];
    if Anywhere(p[sp + 1..], h[sh + 1..]) {
      OlderStar(p, h, pi, hi, sp, sh);
      StarAnywhere(p[pi..], h[hi..]);
    }
    NewStar(p, h, pi, hi);
  }

  lemma MoveStar(p: Bytes, h: Bytes, pi: nat, hi: nat, sp: nat, sh: nat)
    requires AfterStar(p, h, pi, hi, sp, sh) && hi < |h| && !Literal(p[pi..], h[hi..])
    ensures AfterStar(p, h, sp + 1, sh + 1, sp, sh + 1)
  {
    AnywhereStep(p[sp + 1..], h[sh + 1..]);
    if sh + 1 < |h| { assert h[sh + 1..][1..] == h[sh + 2..]; }
  }

  lemma StarAtEnd(p: Bytes, h: Bytes, pi: nat, sp: nat, sh: nat)
    requires AfterStar(p, h, pi, |h|, sp, sh)
    ensures Literal(p, h) == Literal(p[pi..], [])
  {
    assert h[|h|..] == [];
    if sh < |h| && Anywhere(p[sp + 1..], h[sh + 1..]) {
      OlderStar(p, h, pi, |h|, sp, sh);
      AnywhereStep(p[pi..], []);
    }
  }

  ghost predicate Tracks(p: Bytes, h: Bytes, pi: nat, hi: nat, star: Option<(nat, nat)>) {
    && pi <= |p| && hi <= |h|
    && match star
       case None => Literal(p, h) == Literal(p[pi..], h[hi..])
       case Some((sp, sh)) => AfterStar(p, h, pi, hi, sp, sh)
  }

  lemma StepByte(p: Bytes, h: Bytes, pi: nat, hi: nat, star: Option<(nat, nat)>)
    requires Tracks(p, h, pi, hi, star) && pi < |p| && hi < |h| && Accepts(p[pi], h[hi])
    ensures Tracks(p, h, pi + 1, hi + 1, star)
  {
    assert p[pi..][1..] == p[pi + 1..] && h[hi..][1..] == h[hi + 1..];
    if star.Some? { SpendByte(p, h, pi, hi, star.value.0, star.value.1); }
  }

  lemma StepStar(p: Bytes, h: Bytes, pi: nat, hi: nat, star: Option<(nat, nat)>)
    requires Tracks(p, h, pi, hi, star) && pi < |p| && hi < |h| && p[pi] == STAR && !Accepts(STAR, h[hi])
    ensures Tracks(p, h, pi + 1, hi, Some((pi, hi)))
  {
    assert p[pi..][1..] == p[pi + 1..];
    if star.Some? { ReplaceStar(p, h, pi, hi, star.value.0, star.value.1); } else { NewStar(p, h, pi, hi); }
  }

  lemma StepMismatch(p: Bytes, h: Bytes, pi: nat, hi: nat, star: Option<(nat, nat)>)
    requires Tracks(p, h, pi, hi, star) && hi < |h|
    requires pi < |p| ==> !Accepts(p[pi], h[hi]) && p[pi] != STAR
    ensures match star
            case None => !Literal(p, h)
            case Some((sp, sh)) => Tracks(p, h, sp + 1, sh + 1, Some((sp, sh + 1)))
  {
    if star.Some? { MoveStar(p, h, pi, hi, star.value.0, star.value.1); }
  }

  lemma StepEnd(p: Bytes, h: Bytes, pi: nat, star: Option<(nat, nat)>)
    requires Tracks(p, h, pi, |h|, star)
    ensures Literal(p, h) == AllStars(p[pi..])
  {
    assert h[|h|..] == [];
    if star.Some? { StarAtEnd(p, h, pi, star.value.0, star.value.1); }
    StarsMatchEmpty(p[pi..]);
  }

  /**
   The loop of the protocol cache. `star` is the last star met with the text position it
   currently reaches; a mismatch moves that position on by one.
   */
  method GlobMatch(p: Bytes, h: Bytes) returns (b: bool)
    ensures b == Literal(p, h)
  {
    var pi: nat, hi: nat := 0, 0;
    var star: Option<(nat, nat)> := None;
    assert p[0..] == p && h[0..] == h;
    while hi < |h|
      invariant Tracks(p, h, pi, hi, star)
      decreases if star.None? then |p| + 1 else |p| - star.value.0,
                if star.None? then 0 else |h| - star.value.1,
                |h| - hi
    {
      if pi < |p| && (p[pi] == QUESTION || p[pi] == h[hi]) {
        StepByte(p, h, pi, hi, star);
        pi := pi + 1;
        hi := hi + 1;
      } else if pi < |p| && p[pi] == STAR {
        StepStar(p, h, pi, hi, star);
        star := Some((pi, hi));
        pi := pi + 1;
      } else if star.Some? {
        StepMismatch(p, h, pi, hi, star);
        var (sp, sh) := star.value;
        pi := sp + 1;
        hi := sh + 1;
        star := Some((sp, sh + 1));
      } else {
        StepMismatch(p, h, pi, hi, star);
        return false;
      }
    }
    StepEnd(p, h, pi, star);
    b := OnlyStarsLeft(p, pi);
  }

  /** The closing loop of `GlobMatch`. */
  method OnlyStarsLeft(p: Bytes, start: nat) returns (b: bool)
    requires start <= |p|
    ensures b == AllStars(p[start..])
  {
    var pi := start;
    while pi < |p| && p[pi] == STAR
      invariant pi <= |p|
      invariant AllStars(p[start..]) == AllStars(p[pi..])
    {
      assert p[pi..][1..] == p[pi + 1..];
      pi := pi + 1;
    }
    b := pi == |p|;
  }

  // ----- when the two matchers agree -----

  /** The iterative matcher has no false positives. */
  lemma {:induction false} LiteralIsRecursive(p: Bytes, t: Bytes)
    requires Literal(p, t)
    ensures Recursive(p, t)
    decreases |p|
  {
    if p != [] {
      if t != [] && Accepts(p[0], t[0]) {
        LiteralIsRecursive(p[1..], t[1..]);
        if p[0] == STAR { RecursiveStar(p, t[1..], 0); }
      } else {
        var j :| 0 <= j <= |t| && Literal(p[1..], t[j..]);
        LiteralIsRecursive(p[1..], t[j..]);
        RecursiveStar(p, t, j);
      }
    }
  }

  lemma {:induction false} RecursiveStar(p: Bytes, t: Bytes, j: nat)
    requires p != [] && p[0] == STAR && j <= |t| && Recursive(p[1..], t[j..])
    ensures Recursive(p, t)
    decreases j
  {
    if j > 0 {
      assert t[1..][j - 1..] == t[j..];
      RecursiveStar(p, t[1..], j - 1);
    } else {
      assert t[0..] == t;
    }
  }

  lemma {:induction false} RecursiveIsLiteral(p: Bytes, t: Bytes)
    requires STAR !in t && Recursive(p, t)
    ensures Literal(p, t)
    decreases |p| + |t|
  {
    if p != [] {
      if p[0] == STAR {
        assert t != [] ==> t[0] in t;
        AnywhereStep(p[1..], t);
        if Recursive(p[1..], t) {
          RecursiveIsLiteral(p[1..], t);
        } else {
          RecursiveIsLiteral(p, t[1..]);
          if t[1..] != [] { assert t[1..][0] in t; }
        }
      } else {
        RecursiveIsLiteral(p[1..], t[1..]);
      }
    }
  }

  lemma {:induction false} PlainPattern(p: Bytes, t: Bytes)
    requires STAR !in p
    ensures Literal(p, t) == Recursive(p, t)
    ensures Literal(p, t) ==> |p| == |t|
    decreases |p|
  {
    if p != [] {
      assert p[0] in p;
      if t != [] { PlainPattern(p[1..], t[1..]); }
    }
  }

  lemma {:induction false} SamePrefix(u: Bytes, w: Bytes, t: Bytes)
    ensures Literal(u + w, u + t) == Literal(w, t)
    decreases |u|
  {
    if u == [] {
      assert u + w == w && u + t == t;
    } else {
      assert (u + w)[1..] == u[1..] + w && (u + t)[1..] == u[1..] + t;
      SamePrefix(u[1..], w, t);
    }
  }

  function Questions(n: nat): (q: Bytes)
    ensures |q| == n && STAR !in q
  {
    seq(n, _ => QUESTION)
  }

  lemma {:induction false} QuestionsMatch(n: nat, w: Bytes, t: Bytes)
    requires n <= |t|
    ensures Literal(Questions(n) + w, t) == Literal(w, t[n..])
    ensures Recursive(Questions(n) + w, t) == Recursive(w, t[n..])
    decreases n
  {
    if n == 0 {
      assert Questions(n) + w == w && t[n..] == t;
    } else {
      assert (Questions(n) + w)[1..] == Questions(n - 1) + w && t[n..] == t[1..][n - 1..];
      QuestionsMatch(n - 1, w, t[1..]);
    }
  }

  /** A text with a star byte at `i` is missed by the iterative matcher for this pattern. */
  lemma StarTextMissed(t: Bytes, i: nat)
    requires i < |t| && t[i] == STAR
    ensures var p := Questions(i) + ([STAR] + Questions(|t| - i)); Recursive(p, t) && !Literal(p, t)
  {
    var n := |t| - i;
    var w := [STAR] + Questions(n);
    QuestionsMatch(i, w, t);
    assert w[1..] == Questions(n);
    QuestionsMatch(n, [], t[i..]);
    assert Questions(n) + [] == Questions(n) && t[i..][n..] == [];
    PlainPattern(Questions(n), t[i..][1..]);
  }

  lemma {:induction false} ExtraStar(p: Bytes, i: nat)
    requires i < |p| && p[i] == STAR
    ensures Recursive(p, p[..i] + [STAR] + p[i..])
    decreases i
  {
    var t := p[..i] + [STAR] + p[i..];
    if i == 0 {
      assert t[1..] == p;
      SelfRecursive(p);
    } else {
      var q := p[1..];
      assert t[1..] == q[..i - 1] + [STAR] + q[i - 1..];
      ExtraStar(q, i - 1);
      if p[0] == STAR { RecursiveStar(p, t[1..], 0); }
    }
  }

  lemma {:induction false} SelfRecursive(p: Bytes)
    ensures Recursive(p, p)
  {
    if p != [] {
      SelfRecursive(p[1..]);
      if p[0] == STAR { RecursiveStar(p, p[1..], 0); }
    }
  }

  /** A pattern whose last star is at `i` misses the text that repeats that star. */
  lemma StarPatternMisses(p: Bytes, i: nat)
    requires i < |p| && p[i] == STAR && STAR !in p[i + 1..]
    ensures var t := p[..i] + [STAR] + p[i..]; Recursive(p, t) && !Literal(p, t)
  {
    hide Literal, Recursive;
    var front, u, v, t := p[..i], p[..i + 1], p[i + 1..], p[i..];
    ExtraStar(p, i);
    assert front + [STAR] == u;
    assert p == u + v;
    assert t[0] == STAR && t[1..] == v;
    SamePrefix(u, v, t);
    PlainPattern(v, t);
  }

  lemma {:induction false} LastStar(p: Bytes) returns (i: nat)
    requires STAR in p
    ensures i < |p| && p[i] == STAR && STAR !in p[i + 1..]
  {
    i := |p| - 1;
    while p[i] != STAR
      invariant i < |p| && STAR in p[..i + 1] && STAR !in p[i + 1..]
      decreases i
    {
      assert i > 0 && forall c :: c in p[i..] <==> c == p[i] || c in p[i + 1..];
      i := i - 1;
    }
  }

  /** For a given text, the two matchers agree on every pattern exactly when it holds no star byte. */
  lemma AgreeOnText(t: Bytes)
    ensures (forall p :: Literal(p, t) == Recursive(p, t)) <==> 42 !in t
  {
    if STAR in t {
      var i :| 0 <= i < |t| && t[i] == STAR;
      StarTextMissed(t, i);
    } else {
      forall p ensures Literal(p, t) == Recursive(p, t) {
        if Literal(p, t) { LiteralIsRecursive(p, t); }
        if Recursive(p, t) { RecursiveIsLiteral(p, t); }
      }
    }
  }

  /** For a given pattern, the two matchers agree on every text exactly when it holds no star. */
  lemma AgreeOnPattern(p: Bytes)
    ensures (forall t :: Literal(p, t) == Recursive(p, t)) <==> 42 !in p
  {
    if STAR in p {
      var i := LastStar(p);
      StarPatternMisses(p, i);
    } else {
      forall t ensures Literal(p, t) == Recursive(p, t) {
        PlainPattern(p, t);
      }
    }
  }
}
