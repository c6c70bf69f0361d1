/**
 The LIKE / ILIKE matcher: a loop that remembers one star. `Run` is that loop as a function of its four
 variables; `Matches` is the declarative meaning of the wildcards.
 */
module Like {
  import opened Results
  import opened Types

  function Norm(c: char, ci: bool): char {
    if ci then LowerChar(c) else c
  }

  predicate CharFits(p: char, t: char, ci: bool) {
    p == '_' || Norm(p, ci) == Norm(t, ci)
  }

  // ---- Declarative meaning ----

  /** `%` stands for any run of characters, `_` for one character, anything else for itself. */
  ghost predicate Matches(t: string, p: string, ci: bool)
    decreases |p|
  {
    if p == [] then t == []
    else if p[0] == '%' then exists k :: 0 <= k <= |t| && Matches(t[k..], p[1..], ci)
    else t != [] && CharFits(p[0], t[0], ci) && Matches(t[1..], p[1..], ci)
  }

  // ---- The loop ----

  function SkipPercents(p: string, pi: nat): nat
    requires pi <= |p|
    decreases |p| - pi
  {
    if pi < |p| && p[pi] == '%' then SkipPercents(p, pi + 1) else pi
  }

  predicate LoopState(t: string, p: string, ti: nat, pi: nat, star: Option<nat>, tstar: nat) {
    ti <= |t| && pi <= |p| && tstar <= ti && (star.Some? ==> star.value < pi)
  }

  predicate Run(t: string, p: string, ci: bool, ti: nat, pi: nat, star: Option<nat>, tstar: nat)
    requires LoopState(t, p, ti, pi, star, tstar)
    decreases |t| - tstar, |p| - pi
  {
    if ti == |t| then SkipPercents(p, pi) == |p|
    else if pi < |p| && CharFits(p[pi], t[ti], ci) then Run(t, p, ci, ti + 1, pi + 1, star, tstar)
    else if pi < |p| && p[pi] == '%' then Run(t, p, ci, ti, pi + 1, Some(pi), ti)
    else if star.Some? then Run(t, p, ci, tstar + 1, star.value + 1, star, tstar + 1)
    else false
  }

  predicate LikeMatch(t: string, p: string, ci: bool) {
    Run(t, p, ci, 0, 0, None, 0)
  }

  /** The loop itself, and a bound on how often it iterates. */
  method LikeMatchLoop(text: string, pattern: string, ci: bool) returns (r: bool, ghost steps: nat)
    ensures r == LikeMatch(text, pattern, ci)
    ensures steps <= (|text| + 1) * (|pattern| + 1)
  {
    var ti: nat, pi: nat, tstar: nat := 0, 0, 0;
    var star: Option<nat> := None;
    steps := 0;
    ghost var width := |pattern| + 1;
    ghost var position := 0;  // tstar * width + pi
    while ti < |text|
      invariant LoopState(text, pattern, ti, pi, star, tstar)
      invariant Run(text, pattern, ci, ti, pi, star, tstar) == LikeMatch(text, pattern, ci)
      invariant position == tstar * width + pi
      invariant steps <= position
      decreases |text| - tstar, |pattern| - pi
    {
      ghost var t0, p0 := tstar, pi;
      if pi < |pattern| && CharFits(pattern[pi], text[ti], ci) {
        ti, pi := ti + 1, pi + 1;
      } else if pi < |pattern| && pattern[pi] == '%' {
        star, tstar := Some(pi), ti;
        pi := pi + 1;
      } else if star.Some? {
        tstar := tstar + 1;
        ti, pi := tstar, star.value + 1;
      } else {
        LinearBound(tstar, |text|, width, pi);
        r := false;
        return;
      }
      Advances(t0, p0, tstar, pi, width);
      position := tstar * width + pi;
      steps := steps + 1;
    }
    LinearBound(tstar, |text|, width, pi);
    ghost var p1 := pi;
    while pi < |pattern| && pattern[pi] == '%'
      invariant p1 <= pi <= |pattern|
      invariant SkipPercents(pattern, pi) == SkipPercents(pattern, p1)
    {
      pi := pi + 1;
    }
    r := pi == |pattern|;
  }

  lemma LinearBound(a: nat, n: nat, width: nat, pi: nat)
    requires a <= n && pi < width
    ensures a * width + pi <= (n + 1) * width
  {
    assert a * width <= n * width;
  }

  /** A step that moves tstar forward, or keeps it and moves pi forward, moves the position forward. */
  lemma Advances(t0: nat, p0: nat, t1: nat, p1: nat, width: nat)
    requires p0 < width && p1 < width
    requires t0 < t1 || (t0 == t1 && p0 < p1)
    ensures t0 * width + p0 < t1 * width + p1
  {
    if t0 < t1 {
      assert (t0 + 1) * width <= t1 * width;
    }
  }

  // ---- The loop answers the declarative question ----

  /** Some later start of the remembered star still matches. */
  ghost predicate Retry(t: string, p: string, ci: bool, star: Option<nat>, tstar: nat) {
    star.Some? && star.value < |p|
    && exists k :: tstar < k <= |t| && Matches(t[k..], p[star.value + 1..], ci)
  }

  lemma {:induction false} TrailingPercents(p: string, pi: nat, ci: bool)
    requires pi <= |p|
    ensures SkipPercents(p, pi) == |p| <==> Matches("", p[pi..], ci)
    decreases |p| - pi
  {
    if pi < |p| && p[pi] == '%' {
      TrailingPercents(p, pi + 1, ci);
      assert p[pi..][1..] == p[pi + 1..];
      assert ""[0..] == "";
    }
  }

  /** A matching % may take more characters first. */
  lemma StarAbsorbs(t: string, a: nat, b: nat, p: string, ci: bool)
    requires a <= b <= |t|
    requires p != [] && p[0] == '%' && Matches(t[b..], p, ci)
    ensures Matches(t[a..], p, ci)
  {
    var k :| 0 <= k <= |t[b..]| && Matches(t[b..][k..], p[1..], ci);
    assert t[a..][b - a + k..] == t[b..][k..];
  }

  /** No false positives, whatever the text contains. */
  lemma {:induction false} RunSound(t: string, p: string, ci: bool, ti: nat, pi: nat, star: Option<nat>, tstar: nat)
    requires LoopState(t, p, ti, pi, star, tstar)
    requires Run(t, p, ci, ti, pi, star, tstar)
    ensures Matches(t[ti..], p[pi..], ci) || Retry(t, p, ci, star, tstar)
    decreases |t| - tstar, |p| - pi
  {
    if ti == |t| {
      TrailingPercents(p, pi, ci);
      assert t[ti..] == "";
    } else if pi < |p| && CharFits(p[pi], t[ti], ci) {
      RunSound(t, p, ci, ti + 1, pi + 1, star, tstar);
      StepMatches(t, p, ci, ti, pi);
    } else if pi < |p| && p[pi] == '%' {
      RunSound(t, p, ci, ti, pi + 1, Some(pi), ti);
      OpenStar(t, p, ci, ti, pi);
    } else {
      RunSound(t, p, ci, tstar + 1, star.value + 1, star, tstar + 1);
      CloseRetry(t, p, ci, star.value, tstar);
    }
  }

  lemma StepMatches(t: string, p: string, ci: bool, ti: nat, pi: nat)
    requires ti < |t| && pi < |p| && CharFits(p[pi], t[ti], ci)
    ensures Matches(t[ti + 1..], p[pi + 1..], ci) ==> Matches(t[ti..], p[pi..], ci)
    ensures p[pi] != '%' && Matches(t[ti..], p[pi..], ci) ==> Matches(t[ti + 1..], p[pi + 1..], ci)
  {
    assert t[ti..][1..] == t[ti + 1..] && p[pi..][1..] == p[pi + 1..];
  }

  lemma OpenStar(t: string, p: string, ci: bool, ti: nat, pi: nat)
    requires ti <= |t| && pi < |p| && p[pi] == '%'
    ensures Matches(t[ti..], p[pi..], ci)
            <==> Matches(t[ti..], p[pi + 1..], ci) || Retry(t, p, ci, Some(pi), ti)
  {
    assert p[pi..][1..] == p[pi + 1..];
    assert forall k :: 0 <= k <= |t| - ti ==> t[ti..][k..] == t[ti + k..];
    if Matches(t[ti..], p[pi..], ci) {
      var k :| 0 <= k <= |t[ti..]| && Matches(t[ti..][k..], p[pi + 1..], ci);
      assert Matches(t[ti + k..], p[pi + 1..], ci);
    }
    if Matches(t[ti..], p[pi + 1..], ci) {
      assert Matches(t[ti..][0..], p[pi + 1..], ci);
    }
    if Retry(t, p, ci, Some(pi), ti) {
      var k :| ti < k <= |t| && Matches(t[k..], p[pi + 1..], ci);
      assert Matches(t[ti..][k - ti..], p[pi + 1..], ci);
    }
  }

  lemma CloseRetry(t: string, p: string, ci: bool, star: nat, tstar: nat)
    requires star < |p| && tstar < |t|
    ensures Retry(t, p, ci, Some(star), tstar)
            <==> Matches(t[tstar + 1..], p[star + 1..], ci) || Retry(t, p, ci, Some(star), tstar + 1)
  {
  }

  /** The characters between the remembered star and pi have each taken one text character. */
  ghost predicate Segment(p: string, ti: nat, pi: nat, star: Option<nat>, tstar: nat) {
    star.Some? ==>
      && star.value < pi <= |p|
      && ti - tstar == pi - (star.value + 1)
      && forall j :: star.value < j < pi ==> p[j] != '%'
  }

  /** A %-free prefix of the pattern takes exactly its own length of text. */
  lemma {:induction false} SegmentTakes(t: string, a: nat, p: string, s: nat, e: nat, ci: bool)
    requires a <= |t| && s <= e <= |p|
    requires forall j :: s <= j < e ==> p[j] != '%'
    requires Matches(t[a..], p[s..], ci)
    ensures a + (e - s) <= |t| && Matches(t[a + (e - s)..], p[e..], ci)
    decreases e - s
  {
    if s < e {
      assert p[s..][1..] == p[s + 1..] && t[a..][1..] == t[a + 1..];
      SegmentTakes(t, a + 1, p, s + 1, e, ci);
    }
  }

  /** Forgetting the earlier star at a new star loses no match. */
  lemma ForgetStar(t: string, p: string, ci: bool, ti: nat, pi: nat, star: Option<nat>, tstar: nat)
    requires LoopState(t, p, ti, pi, star, tstar) && Segment(p, ti, pi, star, tstar)
    requires pi < |p| && p[pi] == '%'
    requires Retry(t, p, ci, star, tstar)
    ensures Matches(t[ti..], p[pi..], ci)
  {
    var k :| tstar < k <= |t| && Matches(t[k..], p[star.value + 1..], ci);
    SegmentTakes(t, k, p, star.value + 1, pi, ci);
    StarAbsorbs(t, ti, k + (pi - (star.value + 1)), p[pi..], ci);
  }

  /** No false negatives, for a text without %. */
  lemma {:induction false} RunComplete(t: string, p: string, ci: bool, ti: nat, pi: nat, star: Option<nat>, tstar: nat)
    requires '%' !in t
    requires LoopState(t, p, ti, pi, star, tstar) && Segment(p, ti, pi, star, tstar)
    requires Matches(t[ti..], p[pi..], ci) || Retry(t, p, ci, star, tstar)
    ensures Run(t, p, ci, ti, pi, star, tstar)
    decreases |t| - tstar, |p| - pi
  {
    if ti == |t| {
      TrailingPercents(p, pi, ci);
      assert t[ti..] == "";
      if Retry(t, p, ci, star, tstar) {
        // A later start would need more text than there is.
        var k :| tstar < k <= |t| && Matches(t[k..], p[star.value + 1..], ci);
        SegmentTakes(t, k, p, star.value + 1, pi, ci);
      }
    } else if pi < |p| && CharFits(p[pi], t[ti], ci) {
      PercentFitsOnlyPercent(p[pi], t[ti], ci);
      assert t[ti] in t;
      StepMatches(t, p, ci, ti, pi);
      RunComplete(t, p, ci, ti + 1, pi + 1, star, tstar);
    } else if pi < |p| && p[pi] == '%' {
      if Retry(t, p, ci, star, tstar) {
        ForgetStar(t, p, ci, ti, pi, star, tstar);
      }
      OpenStar(t, p, ci, ti, pi);
      RunComplete(t, p, ci, ti, pi + 1, Some(pi), ti);
    } else {
      assert !Matches(t[ti..], p[pi..], ci);
      CloseRetry(t, p, ci, star.value, tstar);
      RunComplete(t, p, ci, tstar + 1, star.value + 1, star, tstar + 1);
    }
  }

  lemma PercentFitsOnlyPercent(p: char, t: char, ci: bool)
    ensures p == '%' && CharFits(p, t, ci) ==> t == '%'
  {
  }

  /** Every answer `true` is right, whatever the text contains. */
  lemma LikeSound(t: string, p: string, ci: bool)
    requires LikeMatch(t, p, ci)
    ensures Matches(t, p, ci)
  {
    RunSound(t, p, ci, 0, 0, None, 0);
    assert t[0..] == t && p[0..] == p;
  }

  lemma LikeExact(t: string, p: string, ci: bool)
    requires '%' !in t
    ensures LikeMatch(t, p, ci) <==> Matches(t, p, ci)
  {
    assert t[0..] == t && p[0..] == p;
    if Matches(t, p, ci) {
      RunComplete(t, p, ci, 0, 0, None, 0);
    }
    if LikeMatch(t, p, ci) {
      LikeSound(t, p, ci);
    }
  }

  // ---- Exactly the texts without % are matched correctly ----

  function Underscores(n: nat): (s: string)
    ensures |s| == n && forall j :: 0 <= j < n ==> s[j] == '_'
  {
    seq(n, _ => '_')
  }

  /** The pattern that a text with % at position i fails: `_` up to i, then %, then one `_` too many. */
  function Breaker(t: string, i: nat): string
    requires i < |t|
  {
    Underscores(i) + "%" + Underscores(|t| - i)
  }

  lemma {:induction false} UnderscoresMatch(t: string, ci: bool)
    ensures Matches(t, Underscores(|t|), ci)
    decreases |t|
  {
    if t != [] {
      UnderscoresMatch(t[1..], ci);
      assert Underscores(|t|)[1..] == Underscores(|t| - 1);
    }
  }

  lemma {:induction false} BreakerMatches(t: string, i: nat, j: nat, ci: bool)
    requires j <= i < |t|
    ensures Matches(t[j..], Breaker(t, i)[j..], ci)
    decreases i - j
  {
    var p := Breaker(t, i);
    if j == i {
      assert p[i..][1..] == Underscores(|t| - i);
      UnderscoresMatch(t[i..], ci);
      assert t[i..][0..] == t[i..];
    } else {
      BreakerMatches(t, i, j + 1, ci);
      assert p[j..][1..] == p[j + 1..] && t[j..][1..] == t[j + 1..];
    }
  }

  lemma {:induction false} BreakerFails(t: string, i: nat, j: nat, ci: bool)
    requires j <= |t| && i < |t| && t[i] == '%'
    ensures !Run(t, Breaker(t, i), ci, j, j, None, 0)
    decreases |t| - j
  {
    if j < |t| {
      BreakerFails(t, i, j + 1, ci);
    }
  }

  /** The loop answers every pattern correctly on a text if and only if the text has no %. */
  lemma LikeExactIffNoPercent(t: string, ci: bool)
    ensures (forall p :: LikeMatch(t, p, ci) <==> Matches(t, p, ci)) <==> '%' !in t
  {
    if '%' !in t {
      forall p ensures LikeMatch(t, p, ci) <==> Matches(t, p, ci) { LikeExact(t, p, ci); }
    } else {
      var i :| 0 <= i < |t| && t[i] == '%';
      var p := Breaker(t, i);
      BreakerMatches(t, i, 0, ci);
      assert t[0..] == t && p[0..] == p;
      BreakerFails(t, i, 0, ci);
      assert !LikeMatch(t, p, ci) && Matches(t, p, ci);
    }
  }
}
