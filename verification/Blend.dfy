/**
 * The recency-weighted comp blend. A comp's weight is a fixed factor per day raised to its age, the factor
 * being the one that halves the weight every 30 days; the results hold for every positive factor.
 */
module Blend {
  import opened Reals

  const COMP_ANCHOR_ALPHA: real := 0.7

  datatype Comp = Comp(id: string, price: real, sqft: real, ageDays: int)
  {
    function PricePerSqft(): real
    {
      if sqft > 0.0 then price / sqft else 0.0
    }

    predicate Usable()
    {
      sqft > 0.0 && price > 0.0
    }
  }

  datatype Prediction = Prediction(estimate: real, low: real, high: real)

  datatype MarketResult = MarketResult(estimate: real, low: real, high: real, cited: seq<string>)

  /** `_recency_weight` */
  function RecencyWeight(q: real, ageDays: int): real
  {
    Pow(q, if ageDays > 0 then ageDays else 0)
  }

  function Sum(f: Comp -> real, cs: seq<Comp>): real
  {
    if cs == [] then 0.0 else f(cs[0]) + Sum(f, cs[1..])
  }

  function Weight(q: real): Comp -> real
  {
    (c: Comp) => RecencyWeight(q, c.ageDays)
  }

  function WeightedPrice(q: real): Comp -> real
  {
    (c: Comp) => RecencyWeight(q, c.ageDays) * c.PricePerSqft()
  }

  function Implied(sqft: real): Comp -> real
  {
    (c: Comp) => c.PricePerSqft() * sqft
  }

  function UsableComps(cs: seq<Comp>): seq<Comp>
  {
    if cs == [] then [] else (if cs[0].Usable() then [cs[0]] else []) + UsableComps(cs[1..])
  }

  /** `sorted(...)[0]` */
  function Lowest(f: Comp -> real, cs: seq<Comp>): (m: real)
    requires cs != []
    ensures forall c :: c in cs ==> m <= f(c)
    ensures exists c :: c in cs && m == f(c)
  {
    if |cs| == 1 then f(cs[0]) else Min(f(cs[0]), Lowest(f, cs[1..]))
  }

  /** `sorted(...)[-1]` */
  function Highest(f: Comp -> real, cs: seq<Comp>): (m: real)
    requires cs != []
    ensures forall c :: c in cs ==> f(c) <= m
    ensures exists c :: c in cs && m == f(c)
  {
    if |cs| == 1 then f(cs[0]) else Max(f(cs[0]), Highest(f, cs[1..]))
  }

  function Ids(cs: seq<Comp>): seq<string>
  {
    if cs == [] then [] else ["comp:" + cs[0].id] + Ids(cs[1..])
  }

  /** The comp anchor of the subject: weighted mean price per square foot times its area. */
  function CompAnchor(q: real, sqft: real, usable: seq<Comp>): real
  {
    var wsum := Sum(Weight(q), usable);
    Sum(WeightedPrice(q), usable) / (if wsum == 0.0 then 1.0 else wsum) * sqft
  }

  /** `anchor_and_blend` */
  function AnchorAndBlend(q: real, p: Prediction, sqft: real, comps: seq<Comp>): MarketResult
  {
    var usable := UsableComps(comps);
    if usable == [] || sqft <= 0.0 then MarketResult(p.estimate, p.low, p.high, [])
    else
      var estimate := COMP_ANCHOR_ALPHA * CompAnchor(q, sqft, usable) + (1.0 - COMP_ANCHOR_ALPHA) * p.estimate;
      var low := Min(Min(p.low, Lowest(Implied(sqft), usable)), estimate);
      var high := Max(Max(p.high, Highest(Implied(sqft), usable)), estimate);
      MarketResult(estimate, Max(0.0, low), high, Ids(usable))
  }

  // ---- Bounds ----

  lemma {:induction false} WeightsPositive(q: real, cs: seq<Comp>)
    requires q > 0.0
    ensures Sum(Weight(q), cs) >= 0.0 && (cs != [] ==> Sum(Weight(q), cs) > 0.0)
  {
    if cs == [] {
    } else {
      PowPositive(q, if cs[0].ageDays > 0 then cs[0].ageDays else 0);
      WeightsPositive(q, cs[1..]);
    }
  }

  lemma ScaleBound(w: real, x: real, sqft: real, lo: real, hi: real)
    requires w > 0.0 && lo <= x * sqft <= hi
    ensures lo * w <= w * x * sqft <= hi * w
  {
    assert w * x * sqft == (x * sqft) * w;
  }

  lemma TermBounds(q: real, sqft: real, c: Comp, lo: real, hi: real)
    requires q > 0.0 && lo <= Implied(sqft)(c) <= hi
    ensures lo * Weight(q)(c) <= WeightedPrice(q)(c) * sqft <= hi * Weight(q)(c)
  {
    PowPositive(q, if c.ageDays > 0 then c.ageDays else 0);
    ScaleBound(RecencyWeight(q, c.ageDays), c.PricePerSqft(), sqft, lo, hi);
  }

  lemma AddBounds(w: real, p: real, sqft: real, lo: real, hi: real, ws: real, ps: real)
    requires lo * w <= p * sqft <= hi * w && lo * ws <= ps * sqft <= hi * ws
    ensures lo * (w + ws) <= (p + ps) * sqft <= hi * (w + ws)
  {
    assert (p + ps) * sqft == p * sqft + ps * sqft;
    assert lo * (w + ws) == lo * w + lo * ws && hi * (w + ws) == hi * w + hi * ws;
  }

  lemma {:induction false} WeightedBounds(q: real, sqft: real, cs: seq<Comp>, lo: real, hi: real)
    requires q > 0.0 && forall c :: c in cs ==> lo <= Implied(sqft)(c) <= hi
    ensures lo * Sum(Weight(q), cs) <= Sum(WeightedPrice(q), cs) * sqft <= hi * Sum(Weight(q), cs)
  {
    hide Weight;
    hide WeightedPrice;
    hide Implied;
    if cs == [] {
    } else {
      var c, rest := cs[0], cs[1..];
      assert c in cs;
      TermBounds(q, sqft, c, lo, hi);
      WeightedBounds(q, sqft, rest, lo, hi);
      SumFirst(Weight(q), cs);
      SumFirst(WeightedPrice(q), cs);
      hide Sum;
      AddBounds(Weight(q)(c), WeightedPrice(q)(c), sqft, lo, hi, Sum(Weight(q), rest), Sum(WeightedPrice(q), rest));
    }
  }

  lemma SumFirst(f: Comp -> real, cs: seq<Comp>)
    requires cs != []
    ensures Sum(f, cs) == f(cs[0]) + Sum(f, cs[1..])
  {
  }

  lemma DivideBounds(a: real, w: real, sqft: real, lo: real, hi: real)
    requires w > 0.0 && lo * w <= a * sqft <= hi * w
    ensures lo <= a / w * sqft <= hi
  {
    var x := a / w * sqft;
    assert x * w == a * sqft;
    assert x < lo ==> x * w < lo * w;
    assert x > hi ==> x * w > hi * w;
  }

  /** The anchor lies between the lowest and the highest implied subject price. */
  lemma AnchorBetweenImplied(q: real, sqft: real, usable: seq<Comp>)
    requires q > 0.0 && usable != []
    ensures Lowest(Implied(sqft), usable) <= CompAnchor(q, sqft, usable) <= Highest(Implied(sqft), usable)
  {
    hide Weight;
    hide WeightedPrice;
    hide Implied;
    hide Lowest;
    hide Highest;
    var lo, hi := Lowest(Implied(sqft), usable), Highest(Implied(sqft), usable);
    WeightsPositive(q, usable);
    WeightedBounds(q, sqft, usable, lo, hi);
    DivideBounds(Sum(WeightedPrice(q), usable), Sum(Weight(q), usable), sqft, lo, hi);
  }

  ghost predicate SoundPrediction(p: Prediction)
  {
    0.0 <= p.low <= p.estimate <= p.high
  }

  lemma {:induction false} UsableOnly(cs: seq<Comp>, c: Comp)
    ensures c in UsableComps(cs) <==> c in cs && c.Usable()
  {
    if cs == [] {
    } else {
      UsableOnly(cs[1..], c);
    }
  }

  lemma LowestPositive(sqft: real, comps: seq<Comp>)
    requires sqft > 0.0 && UsableComps(comps) != []
    ensures Lowest(Implied(sqft), UsableComps(comps)) >= 0.0
  {
    hide UsableComps;
    var usable, f := UsableComps(comps), Implied(sqft);
    var m := Lowest(f, usable);
    var c :| c in usable && m == f(c);
    UsableOnly(comps, c);
    assert c.PricePerSqft() * sqft >= 0.0;
  }

  /**
   * The band holds the estimate and is never negative, and the union of the model band with the comp
   * spread already holds it: neither the estimate inside the min and max nor the floor at zero matters.
   */
  lemma BandHoldsEstimate(q: real, p: Prediction, sqft: real, comps: seq<Comp>)
    requires q > 0.0 && SoundPrediction(p)
    ensures var r, usable := AnchorAndBlend(q, p, sqft, comps), UsableComps(comps);
            && 0.0 <= r.low <= r.estimate <= r.high
            && r.low <= p.low && p.high <= r.high
            && (usable != [] && sqft > 0.0 ==>
                  && r.low == Min(p.low, Lowest(Implied(sqft), usable))
                  && r.high == Max(p.high, Highest(Implied(sqft), usable)))
  {
    hide UsableComps;
    hide Lowest;
    hide Highest;
    hide Implied;
    hide CompAnchor;
    var usable := UsableComps(comps);
    if usable != [] && sqft > 0.0 {
      AnchorBetweenImplied(q, sqft, usable);
      LowestPositive(sqft, comps);
    }
  }

  // ---- Order does not matter ----

  lemma {:induction false} SumSplit(f: Comp -> real, a: seq<Comp>, b: seq<Comp>)
    ensures Sum(f, a + b) == Sum(f, a) + Sum(f, b)
  {
    if a == [] {
      assert a + b == b;
    } else {
      SumSplit(f, a[1..], b);
      assert (a + b)[1..] == a[1..] + b;
    }
  }

  lemma SplitAt(b: seq<Comp>, i: nat)
    requires i < |b|
    ensures b == b[..i] + ([b[i]] + b[i + 1..])
  {
  }

  lemma {:induction false} SumPermutes(f: Comp -> real, a: seq<Comp>, b: seq<Comp>)
    requires multiset(a) == multiset(b)
    ensures Sum(f, a) == Sum(f, b)
  {
    if a == [] {
      assert |multiset(b)| == 0;
    } else {
      assert a[0] in multiset(b);
      var i :| 0 <= i < |b| && b[i] == a[0];
      var before, after := b[..i], b[i + 1..];
      RemoveOne(a, b, i);
      SumPermutes(f, a[1..], before + after);
      SumSplit(f, before, after);
      SumSplit(f, before, [b[i]] + after);
      SplitAt(b, i);
      assert ([b[i]] + after)[1..] == after;
    }
  }

  lemma RemoveOne(a: seq<Comp>, b: seq<Comp>, i: nat)
    requires a != [] && i < |b| && b[i] == a[0] && multiset(a) == multiset(b)
    ensures multiset(a[1..]) == multiset(b[..i] + b[i + 1..])
  {
    var before, after := b[..i], b[i + 1..];
    SplitAt(b, i);
    assert a == [a[0]] + a[1..];
    assert multiset(a[1..]) == multiset(a) - multiset{a[0]};
    assert multiset([b[i]] + after) == multiset{b[i]} + multiset(after);
    assert multiset(b) == multiset(before) + multiset([b[i]] + after);
    assert multiset(before + after) == multiset(b) - multiset{a[0]};
  }

  lemma {:induction false} UsableCount(cs: seq<Comp>, c: Comp)
    ensures multiset(UsableComps(cs))[c] == if c.Usable() then multiset(cs)[c] else 0
  {
    if cs == [] {
    } else {
      UsableCount(cs[1..], c);
      assert cs == [cs[0]] + cs[1..];
    }
  }

  lemma UsablePermutes(a: seq<Comp>, b: seq<Comp>)
    requires multiset(a) == multiset(b)
    ensures multiset(UsableComps(a)) == multiset(UsableComps(b))
  {
    forall c: Comp
      ensures multiset(UsableComps(a))[c] == multiset(UsableComps(b))[c]
    {
      UsableCount(a, c);
      UsableCount(b, c);
    }
  }

  lemma SpreadPermutes(f: Comp -> real, a: seq<Comp>, b: seq<Comp>)
    requires multiset(a) == multiset(b) && a != [] && b != []
    ensures Lowest(f, a) == Lowest(f, b) && Highest(f, a) == Highest(f, b)
  {
    assert forall c :: c in a <==> c in multiset(a);
    assert forall c :: c in b <==> c in multiset(b);
  }

  /** Permuting the comps changes neither the estimate nor the band. */
  lemma OrderDoesNotMatter(q: real, p: Prediction, sqft: real, a: seq<Comp>, b: seq<Comp>)
    requires multiset(a) == multiset(b)
    ensures var x, y := AnchorAndBlend(q, p, sqft, a), AnchorAndBlend(q, p, sqft, b);
            x.estimate == y.estimate && x.low == y.low && x.high == y.high
  {
    hide UsableComps;
    hide CompAnchor;
    hide Lowest;
    hide Highest;
    hide Ids;
    UsablePermutes(a, b);
    var u, v := UsableComps(a), UsableComps(b);
    assert |multiset(u)| == |u| && |multiset(v)| == |v|;
    if u != [] {
      AnchorPermutes(q, sqft, u, v);
      SpreadPermutes(Implied(sqft), u, v);
      hide Implied;
    }
  }

  lemma AnchorPermutes(q: real, sqft: real, u: seq<Comp>, v: seq<Comp>)
    requires multiset(u) == multiset(v) && u != [] && v != []
    ensures CompAnchor(q, sqft, u) == CompAnchor(q, sqft, v)
  {
    SumPermutes(Weight(q), u, v);
    SumPermutes(WeightedPrice(q), u, v);
    hide Sum;
    hide Weight;
    hide WeightedPrice;
  }

  // ---- Ageing together does not matter ----

  function Aged(c: Comp, days: nat): Comp
  {
    c.(ageDays := c.ageDays + days)
  }

  function Older(cs: seq<Comp>, days: nat): seq<Comp>
  {
    if cs == [] then [] else [Aged(cs[0], days)] + Older(cs[1..], days)
  }

  lemma Regroup(q: real, x: real, y: real, xy: real, qx: real, qxy: real)
    requires xy == x * y && qx == q * x && qxy == q * xy
    ensures qxy == qx * y
  {
  }

  lemma PowStep(q: real, n: nat)
    ensures Pow(q, 0) == 1.0
    ensures n > 0 ==> Pow(q, n) == q * Pow(q, n - 1)
  {
  }

  lemma {:induction false} PowAdds(q: real, m: nat, n: nat)
    ensures Pow(q, m + n) == Pow(q, m) * Pow(q, n)
  {
    hide *;
    PowStep(q, m);
    if m == 0 {
      Regroup(1.0, 1.0, Pow(q, n), Pow(q, n), Pow(q, m), Pow(q, m + n));
    } else {
      PowStep(q, m + n);
      PowAdds(q, m - 1, n);
      Regroup(q, Pow(q, m - 1), Pow(q, n), Pow(q, m - 1 + n), Pow(q, m), Pow(q, m + n));
    }
  }

  lemma OlderFirst(cs: seq<Comp>, days: nat)
    requires cs != []
    ensures var o := Older(cs, days); o != [] && o[0] == Aged(cs[0], days) && o[1..] == Older(cs[1..], days)
  {
  }

  lemma {:induction false} OlderUsable(cs: seq<Comp>, days: nat)
    ensures UsableComps(Older(cs, days)) == Older(UsableComps(cs), days)
  {
    if cs == [] {
    } else {
      OlderFirst(cs, days);
      OlderUsable(cs[1..], days);
      assert Aged(cs[0], days).Usable() == cs[0].Usable();
      if cs[0].Usable() {
        var u := [cs[0]] + UsableComps(cs[1..]);
        assert u[1..] == UsableComps(cs[1..]);
        OlderFirst(u, days);
        assert Older(u, days) == [Aged(cs[0], days)] + Older(UsableComps(cs[1..]), days);
        var o := Older(cs, days);
        assert UsableComps(o) == [o[0]] + UsableComps(o[1..]);
        assert UsableComps(cs) == u;
      } else {
        var o := Older(cs, days);
        assert UsableComps(o) == UsableComps(o[1..]);
        assert UsableComps(cs) == UsableComps(cs[1..]);
      }
    }
  }

  lemma AgedTerm(q: real, c: Comp, days: nat)
    ensures Weight(q)(Aged(c, days)) == RecencyWeight(q, c.ageDays + days)
    ensures WeightedPrice(q)(Aged(c, days)) == RecencyWeight(q, c.ageDays + days) * c.PricePerSqft()
    ensures Weight(q)(c) == RecencyWeight(q, c.ageDays)
    ensures WeightedPrice(q)(c) == RecencyWeight(q, c.ageDays) * c.PricePerSqft()
  {
    hide RecencyWeight;
    assert Aged(c, days).PricePerSqft() == c.PricePerSqft();
  }

  lemma RecencyAdds(q: real, n: nat, days: nat)
    ensures RecencyWeight(q, n + days) == RecencyWeight(q, n) * Pow(q, days)
  {
    PowAdds(q, n, days);
    hide Pow;
  }

  lemma ScaledSums(aged: real, w: real, k: real, x: real, ws: real, ps: real)
    requires aged == w * k
    ensures aged + k * ws == k * (w + ws)
    ensures aged * x + k * ps == k * (w * x + ps)
  {
    assert aged * x == k * (w * x);
  }

  lemma {:induction false} OlderSums(q: real, cs: seq<Comp>, days: nat)
    requires forall c :: c in cs ==> c.ageDays >= 0
    ensures Sum(Weight(q), Older(cs, days)) == Pow(q, days) * Sum(Weight(q), cs)
    ensures Sum(WeightedPrice(q), Older(cs, days)) == Pow(q, days) * Sum(WeightedPrice(q), cs)
  {
    hide Weight;
    hide WeightedPrice;
    hide Pow;
    hide RecencyWeight;
    if cs == [] {
    } else {
      var c, k, o := cs[0], Pow(q, days), Older(cs, days);
      assert c in cs;
      OlderFirst(cs, days);
      OlderSums(q, cs[1..], days);
      AgedTerm(q, c, days);
      RecencyAdds(q, c.ageDays, days);
      SumFirst(Weight(q), cs);
      SumFirst(Weight(q), o);
      SumFirst(WeightedPrice(q), cs);
      SumFirst(WeightedPrice(q), o);
      hide *;
      ScaledSums(RecencyWeight(q, c.ageDays + days), RecencyWeight(q, c.ageDays), k, c.PricePerSqft(),
                 Sum(Weight(q), cs[1..]), Sum(WeightedPrice(q), cs[1..]));
    }
  }

  lemma {:induction false} OlderSpread(sqft: real, cs: seq<Comp>, days: nat)
    requires cs != []
    ensures Lowest(Implied(sqft), Older(cs, days)) == Lowest(Implied(sqft), cs)
    ensures Highest(Implied(sqft), Older(cs, days)) == Highest(Implied(sqft), cs)
  {
    OlderFirst(cs, days);
    assert Implied(sqft)(Aged(cs[0], days)) == Implied(sqft)(cs[0]);
    OlderLength(cs, days);
    if |cs| == 1 {
    } else {
      hide Implied;
      hide Older;
      OlderSpread(sqft, cs[1..], days);
    }
  }

  lemma CancelFactor(a: real, w: real, k: real)
    requires k > 0.0 && w > 0.0
    ensures k * w > 0.0 && (k * a) / (k * w) == a / w
  {
    var x := a / w;
    assert k * a == x * (k * w);
  }

  /** Ageing every comp of non-negative age by the same number of days changes neither estimate nor band. */
  lemma AgeingTogetherDoesNotMatter(q: real, p: Prediction, sqft: real, comps: seq<Comp>, days: nat)
    requires q > 0.0 && forall c :: c in comps ==> c.ageDays >= 0
    ensures var x, y := AnchorAndBlend(q, p, sqft, Older(comps, days)), AnchorAndBlend(q, p, sqft, comps);
            x.estimate == y.estimate && x.low == y.low && x.high == y.high
  {
    hide UsableComps;
    hide Sum;
    hide Lowest;
    hide Highest;
    hide Older;
    OlderUsable(comps, days);
    var u := UsableComps(comps);
    OlderLength(u, days);
    if u != [] && sqft > 0.0 {
      forall c | c in u
        ensures c.ageDays >= 0
      {
        UsableOnly(comps, c);
      }
      OlderSpread(sqft, u, days);
      OlderAnchor(q, sqft, u, days);
      hide CompAnchor;
      hide Implied;
      hide Ids;
    }
  }

  lemma OlderAnchor(q: real, sqft: real, u: seq<Comp>, days: nat)
    requires q > 0.0 && u != [] && forall c :: c in u ==> c.ageDays >= 0
    ensures CompAnchor(q, sqft, Older(u, days)) == CompAnchor(q, sqft, u)
  {
    hide Sum;
    hide Older;
    hide Weight;
    hide WeightedPrice;
    hide Pow;
    OlderSums(q, u, days);
    PowPositive(q, days);
    WeightsPositive(q, u);
    CancelFactor(Sum(WeightedPrice(q), u), Sum(Weight(q), u), Pow(q, days));
  }

  lemma {:induction false} OlderLength(cs: seq<Comp>, days: nat)
    ensures |Older(cs, days)| == |cs|
  {
    if cs == [] {
    } else {
      OlderLength(cs[1..], days);
    }
  }

  /** With the 30-day factor, a comp 30 days older counts half. */
  lemma HalfLife(q: real, ageDays: nat)
    requires Pow(q, 30) == 0.5
    ensures RecencyWeight(q, ageDays + 30) == RecencyWeight(q, ageDays) / 2.0
  {
    RecencyAdds(q, ageDays, 30);
    hide Pow;
    hide RecencyWeight;
  }

  // ---- How the estimate moves ----

  /** Weights balance around the anchor: it is the mean of the implied prices, each counted by its weight. */
  lemma AnchorBalances(q: real, sqft: real, usable: seq<Comp>)
    requires q > 0.0 && usable != []
    ensures CompAnchor(q, sqft, usable) * Sum(Weight(q), usable) == Sum(WeightedPrice(q), usable) * sqft
  {
    WeightsPositive(q, usable);
    hide Sum;
    hide Weight;
    hide WeightedPrice;
    QuotientTimes(Sum(WeightedPrice(q), usable), Sum(Weight(q), usable));
    Shuffle(Sum(WeightedPrice(q), usable) / Sum(Weight(q), usable), sqft, Sum(Weight(q), usable));
  }

  lemma Shuffle(x: real, y: real, z: real)
    ensures x * y * z == x * z * y
  {
  }

  /** A comp counts by its own weight and price, and fresh or future-dated comps count fully. */
  lemma WeightIs(q: real, c: Comp)
    ensures Weight(q)(c) == Pow(q, if c.ageDays > 0 then c.ageDays else 0)
    ensures c.Usable() ==> WeightedPrice(q)(c) == Weight(q)(c) * (c.price / c.sqft)
    ensures c.ageDays <= 0 ==> Weight(q)(c) == 1.0
  {
  }

  /** The estimate lies seventy per cent of the way from the prediction to the anchor. */
  lemma EstimateIs(q: real, p: Prediction, sqft: real, comps: seq<Comp>)
    ensures var r, u := AnchorAndBlend(q, p, sqft, comps), UsableComps(comps);
            if u == [] || sqft <= 0.0 then r == MarketResult(p.estimate, p.low, p.high, [])
            else r.estimate - p.estimate == 0.7 * (CompAnchor(q, sqft, u) - p.estimate) && |r.cited| == |u|
  {
    hide CompAnchor;
    hide Lowest;
    hide Highest;
    IdsAre(UsableComps(comps));
    hide UsableComps;
    hide Ids;
  }

  lemma {:induction false} IdsAre(cs: seq<Comp>)
    ensures |Ids(cs)| == |cs| && forall i :: 0 <= i < |cs| ==> Ids(cs)[i] == "comp:" + cs[i].id
  {
    if cs == [] {
    } else {
      IdsAre(cs[1..]);
    }
  }

  /** With one usable comp the anchor is its price per square foot times the subject's area. */
  lemma OneComp(q: real, p: Prediction, sqft: real, c: Comp)
    requires q > 0.0 && c.sqft > 0.0 && c.price > 0.0 && sqft > 0.0
    ensures AnchorAndBlend(q, p, sqft, [c]).estimate == 0.7 * (c.price / c.sqft * sqft) + 0.3 * p.estimate
    ensures AnchorAndBlend(q, p, sqft, [c]).cited == ["comp:" + c.id]
  {
    assert [c][1..] == [] && UsableComps([c]) == [c];
    IdsAre([c]);
    EstimateIs(q, p, sqft, [c]);
    SumOne(Weight(q), c);
    SumOne(WeightedPrice(q), c);
    WeightsPositive(q, [c]);
    assert [c] != [];
    WeightIs(q, c);
    hide *;
    AnchorOfOne(q, sqft, c);
    CancelWeight(Weight(q)(c), c.price / c.sqft);
  }

  lemma AnchorOfOne(q: real, sqft: real, c: Comp)
    requires Sum(Weight(q), [c]) > 0.0
    ensures CompAnchor(q, sqft, [c]) == Sum(WeightedPrice(q), [c]) / Sum(Weight(q), [c]) * sqft
  {
    hide Sum;
    hide Weight;
    hide WeightedPrice;
  }

  lemma CancelWeight(w: real, x: real)
    requires w > 0.0
    ensures w * x / w == x
  {
  }

  lemma SumOne(f: Comp -> real, c: Comp)
    ensures Sum(f, [c]) == f(c)
  {
    assert [c][1..] == [];
  }

  /** Of two comps thirty days apart the newer counts twice. */
  lemma NewerCountsTwice(q: real, sqft: real, newer: Comp, older: Comp)
    requires q > 0.0 && Pow(q, 30) == 0.5 && newer.ageDays == 0 && older.ageDays == 30
    requires newer.Usable() && older.Usable()
    ensures CompAnchor(q, sqft, [newer, older])
            == (2.0 * (newer.price / newer.sqft) + older.price / older.sqft) / 3.0 * sqft
  {
    WeightIs(q, newer);
    WeightIs(q, older);
    SumTwo(Weight(q), newer, older);
    SumTwo(WeightedPrice(q), newer, older);
    WeightsPositive(q, [newer, older]);
    var x, y := newer.price / newer.sqft, older.price / older.sqft;
    assert Sum(Weight(q), [newer, older]) == 1.5 && Sum(WeightedPrice(q), [newer, older]) == x + 0.5 * y;
    hide Sum;
    hide Weight;
    hide WeightedPrice;
    assert (x + 0.5 * y) / 1.5 == (2.0 * x + y) / 3.0;
  }

  lemma SumTwo(f: Comp -> real, a: Comp, b: Comp)
    ensures Sum(f, [a, b]) == f(a) + f(b)
  {
    assert [a, b][1..] == [b];
    SumOne(f, b);
  }
}
