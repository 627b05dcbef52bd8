/** The variant ranker: picks the A/B variant of one email with the highest
    open ratio, breaking ties on the recipient count and then on position. */
module Ranking {
  import opened Errors

  /** A variant of an email together with the statistics fetched for it. */
  datatype Variant = Variant(name: string, recipients: nat, opens: nat)

  /** All variants have a defined open ratio. */
  predicate AllDelivered(vs: seq<Variant>) {
    forall j :: 0 <= j < |vs| ==> vs[j].recipients > 0
  }

  // Open ratios, opens / recipients, compared exactly by cross-multiplication.
  // Both are meaningful only when both variants have recipients.

  /** The open ratio of a is at most that of b. */
  predicate RatioAtMost(a: Variant, b: Variant) {
    a.opens * b.recipients <= b.opens * a.recipients
  }

  /** a and b have the same open ratio. */
  predicate SameRatio(a: Variant, b: Variant) {
    a.opens * b.recipients == b.opens * a.recipients
  }

  /** The ranker's replacement test: v displaces the current best t when its
      ratio is strictly greater, or equal with strictly more recipients. */
  predicate Replaces(v: Variant, t: Variant) {
    !RatioAtMost(v, t) || (SameRatio(v, t) && v.recipients > t.recipients)
  }

  /** Position k holds the top variant of vs: no variant has a higher ratio,
      none with the same ratio has more recipients, and no earlier variant
      ties with it on both. */
  ghost predicate IsTop(vs: seq<Variant>, k: int) {
    0 <= k < |vs| &&
    (forall j :: 0 <= j < |vs| ==> RatioAtMost(vs[j], vs[k])) &&
    (forall j :: 0 <= j < |vs| && SameRatio(vs[j], vs[k]) ==> vs[j].recipients <= vs[k].recipients) &&
    (forall j :: 0 <= j < k ==> !(SameRatio(vs[j], vs[k]) && vs[j].recipients == vs[k].recipients))
  }

  /** The name the ranker reports for vs: empty when there are no variants,
      otherwise the name of the top variant. */
  ghost predicate IsWinnerName(vs: seq<Variant>, w: string) {
    (vs == [] ==> w == "") &&
    (vs != [] ==> exists k :: IsTop(vs, k) && w == vs[k].name)
  }

  lemma MulMonotone(x: nat, y: nat, z: nat)
    requires x <= y
    ensures x * z <= y * z
  {
  }

  lemma MulStrict(x: nat, y: nat, z: nat)
    requires x < y && z > 0
    ensures x * z < y * z
  {
  }

  /** a/b <= c/d <= e/f implies a/f <= e/b-style transitivity of fractions. */
  lemma CrossLe(a: nat, b: nat, c: nat, d: nat, e: nat, f: nat)
    requires b > 0 && d > 0 && f > 0
    requires a * d <= c * b && c * f <= e * d
    ensures a * f <= e * b
  {
    MulMonotone(a * d, c * b, f);
    MulMonotone(c * f, e * d, b);
    assert (a * f) * d <= (e * b) * d by {
      assert a * d * f == (a * f) * d;
      assert c * b * f == c * f * b;
      assert e * d * b == (e * b) * d;
    }
    if a * f > e * b {
      MulStrict(e * b, a * f, d);
    }
  }

  /** a/b <= c/d < e/f implies a/b < e/f. */
  lemma CrossLt(a: nat, b: nat, c: nat, d: nat, e: nat, f: nat)
    requires b > 0 && d > 0 && f > 0
    requires a * d <= c * b && c * f < e * d
    ensures a * f < e * b
  {
    MulMonotone(a * d, c * b, f);
    MulStrict(c * f, e * d, b);
    assert (a * f) * d < (e * b) * d by {
      assert a * d * f == (a * f) * d;
      assert c * b * f == c * f * b;
      assert e * d * b == (e * b) * d;
    }
    if a * f >= e * b {
      MulMonotone(e * b, a * f, d);
    }
  }

  lemma RatioAtMostTrans(a: Variant, b: Variant, c: Variant)
    requires a.recipients > 0 && b.recipients > 0 && c.recipients > 0
    requires RatioAtMost(a, b) && RatioAtMost(b, c)
    ensures RatioAtMost(a, c)
  {
    CrossLe(a.opens, a.recipients, b.opens, b.recipients, c.opens, c.recipients);
  }

  /** A ratio at most b's is never equal to one strictly above b's. */
  lemma RatioBelowNotSame(a: Variant, b: Variant, c: Variant)
    requires a.recipients > 0 && b.recipients > 0 && c.recipients > 0
    requires RatioAtMost(a, b) && !RatioAtMost(c, b)
    ensures !SameRatio(a, c) && RatioAtMost(a, c)
  {
    CrossLt(a.opens, a.recipients, b.opens, b.recipients, c.opens, c.recipients);
  }

  lemma SameRatioTrans(a: Variant, b: Variant, c: Variant)
    requires a.recipients > 0 && b.recipients > 0 && c.recipients > 0
    requires SameRatio(a, b) && SameRatio(b, c)
    ensures SameRatio(a, c)
  {
    CrossLe(a.opens, a.recipients, b.opens, b.recipients, c.opens, c.recipients);
    CrossLe(c.opens, c.recipients, b.opens, b.recipients, a.opens, a.recipients);
  }

  /** One step of the scan: appending v either makes v the new top (exactly
      when the replacement test of the ranker holds against the current top)
      or leaves the top where it was. */
  lemma TopExtend(vs: seq<Variant>, k: int, v: Variant)
    requires AllDelivered(vs) && v.recipients > 0 && IsTop(vs, k)
    ensures Replaces(v, vs[k]) ==> IsTop(vs + [v], |vs|)
    ensures !Replaces(v, vs[k]) ==> IsTop(vs + [v], k)
  {
    var ws := vs + [v];
    var t := vs[k];
    if !RatioAtMost(v, t) {
      forall j | 0 <= j < |vs|
        ensures RatioAtMost(ws[j], v) && !SameRatio(ws[j], v)
      {
        RatioBelowNotSame(vs[j], t, v);
      }
      assert IsTop(ws, |vs|);
    } else if SameRatio(v, t) && v.recipients > t.recipients {
      forall j | 0 <= j < |vs|
        ensures RatioAtMost(ws[j], v)
        ensures SameRatio(ws[j], v) ==> ws[j].recipients < v.recipients
      {
        RatioAtMostTrans(vs[j], t, v);
        if SameRatio(vs[j], v) {
          SameRatioTrans(vs[j], v, t);
        }
      }
      assert IsTop(ws, |vs|);
    } else {
      assert ws[|vs|] == v;
      assert IsTop(ws, k);
    }
  }

  /** Every non-empty list of delivered variants has a top variant. */
  lemma {:induction false} TopExists(vs: seq<Variant>)
    requires vs != [] && AllDelivered(vs)
    ensures exists k :: IsTop(vs, k)
  {
    var n := |vs| - 1;
    if n == 0 {
      assert IsTop(vs, 0);
    } else {
      var init := vs[..n];
      assert AllDelivered(init);
      TopExists(init);
      var k :| IsTop(init, k);
      TopExtend(init, k, vs[n]);
      assert init + [vs[n]] == vs;
    }
  }

  /** At most one position is the top: the winner is well defined. */
  lemma TopUnique(vs: seq<Variant>, k1: int, k2: int)
    requires AllDelivered(vs) && IsTop(vs, k1) && IsTop(vs, k2)
    ensures k1 == k2
  {
    // each ranks at least as high as the other, so they tie on both counts
    assert RatioAtMost(vs[k1], vs[k2]) && RatioAtMost(vs[k2], vs[k1]);
    assert SameRatio(vs[k1], vs[k2]) && SameRatio(vs[k2], vs[k1]);
    assert vs[k1].recipients == vs[k2].recipients;
  }

  /** Ranks the variants of email emailId as the script's scan does: the
      running best starts at ratio 0 with 0 recipients and is replaced by a
      variant whose ratio is strictly greater, or equal with strictly more
      recipients. Fails at the first variant with zero recipients. fetched
      counts the variant statistics looked up. */
  method TopVariant(emailId: int, variants: seq<Variant>) returns (r: Result<string>, fetched: nat)
    ensures r.Ok? <==> AllDelivered(variants)
    ensures r.Ok? ==> IsWinnerName(variants, r.value) && fetched == |variants|
    ensures r.Ok? && variants != [] ==> exists k :: 0 <= k < |variants| && r.value == variants[k].name
    ensures r.Err? ==> r.error.DivisionByZero? && r.error.emailId == emailId
    ensures r.Err? ==> var z := r.error.variant;
              z < |variants| && variants[z].recipients == 0 && AllDelivered(variants[..z]) &&
              fetched == z + 1
    ensures variants == [] ==> r == Ok("") && fetched == 0
  {
    var topVariant := "";
    // the running best ratio is topOpens / topDen, initially 0 / 1
    var topOpens, topDen := 0, 1;
    var topRecipients := 0;
    ghost var k := 0;
    fetched := 0;
    for i := 0 to |variants|
      invariant fetched == i
      invariant AllDelivered(variants[..i])
      invariant topDen > 0
      invariant i == 0 ==> topVariant == "" && topOpens == 0 && topDen == 1 && topRecipients == 0
      invariant i > 0 ==> IsTop(variants[..i], k) && topVariant == variants[k].name &&
                          topOpens == variants[k].opens && topDen == variants[k].recipients &&
                          topRecipients == variants[k].recipients
    {
      var v := variants[i];
      fetched := fetched + 1;
      if v.recipients == 0 {
        return Err(DivisionByZero(emailId, i)), fetched;
      }
      if v.opens * topDen > topOpens * v.recipients ||
         (v.opens * topDen == topOpens * v.recipients && v.recipients > topRecipients) {
        if i > 0 {
          TopExtend(variants[..i], k, v);
        }
        topVariant := v.name;
        topOpens, topDen := v.opens, v.recipients;
        topRecipients := v.recipients;
        k := i;
      } else {
        assert i > 0;
        TopExtend(variants[..i], k, v);
      }
      assert variants[..i + 1] == variants[..i] + [v];
    }
    assert variants[..|variants|] == variants;
    r := Ok(topVariant);
  }

  /** What callers can conclude from TopVariant's contract on small inputs:
      a full tie keeps the earlier variant, a higher ratio beats more
      recipients, and more recipients break a tie on the ratio. */
  method RankingExamples()
  {
    var vs := [Variant("A", 100, 50), Variant("B", 100, 50)];
    var r, n := TopVariant(7, vs);
    assert SameRatio(vs[0], vs[1]) && vs[0].recipients == vs[1].recipients;
    assert r == Ok("A") && n == 2;

    vs := [Variant("A", 50, 20), Variant("B", 10, 6)];
    r, n := TopVariant(7, vs);
    assert !RatioAtMost(vs[1], vs[0]);
    assert r == Ok("B");

    vs := [Variant("A", 80, 40), Variant("B", 120, 60)];
    r, n := TopVariant(7, vs);
    assert SameRatio(vs[1], vs[0]) && vs[1].recipients > vs[0].recipients;
    assert r == Ok("B");

    vs := [vs[0], Variant("C", 0, 0), vs[1]];
    r, n := TopVariant(7, vs);
    assert vs[1].recipients == 0;
    assert vs[0].recipients > 0 && vs[2].recipients > 0;
    assert r == Err(DivisionByZero(7, 1)) && n == 2;

    r, n := TopVariant(7, []);
    assert r == Ok("") && n == 0;
  }
}
