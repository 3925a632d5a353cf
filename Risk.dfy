/** The risk model: `classify_risk` and `contingency_suggestions`. */
module Risk {
  import opened Base
  import opened Stats

  datatype Band = Low | Moderate | High | Unavailable

  /** Buyer pool for a price point; a narrower pool is a larger risk. */
  datatype Pool = Broad | Moderate | Narrow | VeryNarrow

  /** The reasoning sentences, in the order they are appended, as tags
      carrying the numbers each sentence shows. */
  datatype Reason =
    | NoComps
    | PriceGap(subjectPrice: real, medianPrice: real, pct: real)
    | PriceInsufficient
    | DomGap(subjectDom: int, medianDom: real, pct: real)
    | DomWithoutComps(subjectDom: int)
    | PoolNote(pool: Pool)
    | CompositeNote(score: real, band: Band)

  /** What `classify_risk` returns, without the sale probability. */
  datatype Assessment = Assessment(band: Band, score: Option<real>, reasons: seq<Reason>)

  /** `price_diff_pct`: percentage of the subject price over the comp median. */
  function PriceDiffPct(subjectPrice: Option<real>, median: Option<real>): Option<real> {
    if NonZero(subjectPrice) && NonZero(median)
    then Some((subjectPrice.value - median.value) / median.value * 100.0)
    else None
  }

  /** `avg_dom`: the comp DOM median, `None` for an empty list. */
  function DomMedian(compDoms: seq<Option<real>>): Option<real> {
    if compDoms == [] then None else SafeMedian(compDoms)
  }

  /** `dom_diff_pct`: a subject DOM of 0 still counts, a comp median of 0 does not. */
  function DomDiffPct(subjectDom: Option<int>, median: Option<real>): Option<real> {
    if subjectDom.Some? && NonZero(median)
    then Some((subjectDom.value as real - median.value) / median.value * 100.0)
    else None
  }

  /** `max(0.0, min(10.0, x))` */
  function Clamp(x: real): (r: real)
    ensures 0.0 <= r <= 10.0
    ensures 0.0 <= x <= 10.0 ==> r == x
    ensures x <= 0.0 ==> r == 0.0
    ensures x >= 10.0 ==> r == 10.0
  {
    if x > 10.0 then 10.0 else if x < 0.0 then 0.0 else x
  }

  /** Price penalty: 0 at or below the comp median, 10 from 25% above it,
      4 when the gap is unknown. */
  function PricePenalty(diff: Option<real>): (p: real)
    ensures 0.0 <= p <= 10.0
    ensures diff.None? ==> p == 4.0
    ensures diff.Some? && diff.value <= 0.0 ==> p == 0.0
    ensures diff.Some? && diff.value >= 25.0 ==> p == 10.0
  {
    match diff
    case None => 4.0
    case Some(d) => Clamp(d / 25.0 * 10.0)
  }

  /** DOM penalty: 0 at or below the comp median, 10 from 150% above it,
      2.5 when the gap is unknown. */
  function DomPenalty(diff: Option<real>): (p: real)
    ensures 0.0 <= p <= 10.0
    ensures diff.None? ==> p == 2.5
    ensures diff.Some? && diff.value <= 0.0 ==> p == 0.0
    ensures diff.Some? && diff.value >= 150.0 ==> p == 10.0
  {
    match diff
    case None => 2.5
    case Some(d) => Clamp(d / 150.0 * 10.0)
  }

  /** The buyer-pool tier of the subject price: from 900000 very narrow,
      from 700000 narrow, from 500000 moderate, and broad below that or
      with no price (or 0). */
  function PoolOf(subjectPrice: Option<real>): (pool: Pool)
    ensures !NonZero(subjectPrice) ==> pool == Broad
    ensures NonZero(subjectPrice) ==>
              && (pool == VeryNarrow <==> subjectPrice.value >= 900000.0)
              && (pool == Narrow <==> 700000.0 <= subjectPrice.value < 900000.0)
              && (pool == Pool.Moderate <==> 500000.0 <= subjectPrice.value < 700000.0)
              && (pool == Broad <==> subjectPrice.value < 500000.0)
  {
    if !NonZero(subjectPrice) then Broad
    else if subjectPrice.value >= 900000.0 then VeryNarrow
    else if subjectPrice.value >= 700000.0 then Narrow
    else if subjectPrice.value >= 500000.0 then Pool.Moderate
    else Broad
  }

  /** `pool_penalty_map`: 1.5, 4.0, 6.5 and 8.0 from the broadest pool
      to the narrowest. */
  function PoolPenalty(pool: Pool): (p: real)
    ensures 1.5 <= p <= 8.0
    ensures pool == Broad ==> p == 1.5
    ensures pool == Pool.Moderate ==> p == 4.0
    ensures pool == Narrow ==> p == 6.5
    ensures pool == VeryNarrow ==> p == 8.0
  {
    match pool
    case Broad => 1.5
    case Moderate => 4.0
    case Narrow => 6.5
    case VeryNarrow => 8.0
  }

  /** The order of the tiers, broadest first. */
  function PoolRank(pool: Pool): nat {
    match pool
    case Broad => 0
    case Moderate => 1
    case Narrow => 2
    case VeryNarrow => 3
  }

  /** The unrounded composite score `0.55 p + 0.25 d + 0.20 q`; the sum
      itself is never clamped, yet always lies in [0.3, 9.6]. */
  function Score(subjectPrice: Option<real>, subjectDom: Option<int>,
                 compPrices: seq<Option<real>>, compDoms: seq<Option<real>>): (s: real)
    ensures 0.3 <= s <= 9.6
  {
    0.55 * PricePenalty(PriceDiffPct(subjectPrice, SafeMedian(compPrices)))
    + 0.25 * DomPenalty(DomDiffPct(subjectDom, DomMedian(compDoms)))
    + 0.20 * PoolPenalty(PoolOf(subjectPrice))
  }

  /** Banding of the unrounded score: below 3 is low, from 6 on is high,
      moderate in between; never unavailable. */
  function BandOf(score: real): (b: Band)
    ensures b != Unavailable
    ensures b == Low <==> score < 3.0
    ensures b == High <==> 6.0 <= score
  {
    if score < 3.0 then Low else if score < 6.0 then Band.Moderate else High
  }

  function BandRank(band: Band): nat {
    match band
    case Low => 0
    case Moderate => 1
    case High => 2
    case Unavailable => 3
  }

  /** A higher score never gives a lower band. */
  lemma BandMonotone(s1: real, s2: real)
    requires s1 <= s2
    ensures BandRank(BandOf(s1)) <= BandRank(BandOf(s2))
    ensures BandOf(s1) != Unavailable
  {
  }

  function PriceReasons(subjectPrice: Option<real>, median: Option<real>): seq<Reason> {
    if NonZero(subjectPrice) && NonZero(median)
    then [PriceGap(subjectPrice.value, median.value, PriceDiffPct(subjectPrice, median).value)]
    else [PriceInsufficient]
  }

  function DomReasons(subjectDom: Option<int>, median: Option<real>): seq<Reason> {
    if subjectDom.Some? && NonZero(median) then [DomGap(subjectDom.value, median.value, DomDiffPct(subjectDom, median).value)]
    else if subjectDom.Some? then [DomWithoutComps(subjectDom.value)]
    else []
  }

  function PoolReasons(subjectPrice: Option<real>): seq<Reason> {
    if NonZero(subjectPrice) then [PoolNote(PoolOf(subjectPrice))] else []
  }

  /** The price section of `classify_risk`: the gap to the comp median
      and the sentence reporting it. */
  method PriceSection(subjectPrice: Option<real>, avgPrice: Option<real>)
    returns (priceDiff: Option<real>, reasons: seq<Reason>)
    ensures priceDiff == PriceDiffPct(subjectPrice, avgPrice)
    ensures reasons == PriceReasons(subjectPrice, avgPrice)
  {
    priceDiff := None;
    if subjectPrice.Some? && subjectPrice.value != 0.0 && avgPrice.Some? && avgPrice.value != 0.0 {
      priceDiff := Some((subjectPrice.value - avgPrice.value) / avgPrice.value * 100.0);
      reasons := [PriceGap(subjectPrice.value, avgPrice.value, priceDiff.value)];
    } else {
      reasons := [PriceInsufficient];
    }
  }

  /** The DOM section: the gap to the comp DOM median and its sentence,
      if any. */
  method DomSection(subjectDom: Option<int>, avgDom: Option<real>)
    returns (domDiff: Option<real>, reasons: seq<Reason>)
    ensures domDiff == DomDiffPct(subjectDom, avgDom)
    ensures reasons == DomReasons(subjectDom, avgDom)
  {
    domDiff := None;
    reasons := [];
    if subjectDom.Some? && avgDom.Some? && avgDom.value != 0.0 {
      domDiff := Some((subjectDom.value as real - avgDom.value) / avgDom.value * 100.0);
      reasons := [DomGap(subjectDom.value, avgDom.value, domDiff.value)];
    } else if subjectDom.Some? {
      reasons := [DomWithoutComps(subjectDom.value)];
    }
  }

  /** The buyer-pool section: the tier and, for a truthy price, its sentence. */
  method PoolSection(subjectPrice: Option<real>) returns (pool: Pool, reasons: seq<Reason>)
    ensures pool == PoolOf(subjectPrice)
    ensures reasons == PoolReasons(subjectPrice)
  {
    pool := Broad;
    reasons := [];
    if subjectPrice.Some? && subjectPrice.value != 0.0 {
      if subjectPrice.value >= 900000.0 {
        pool := VeryNarrow;
      } else if subjectPrice.value >= 700000.0 {
        pool := Narrow;
      } else if subjectPrice.value >= 500000.0 {
        pool := Pool.Moderate;
      } else {
        pool := Broad;
      }
      reasons := [PoolNote(pool)];
    }
  }

  /** The weighted sum `0.55 * price + 0.25 * dom + 0.20 * pool` of the
      three penalties, each clamped to [0, 10]. */
  method CompositeScore(priceDiff: Option<real>, domDiff: Option<real>, pool: Pool) returns (score: real)
    ensures score == 0.55 * PricePenalty(priceDiff) + 0.25 * DomPenalty(domDiff) + 0.20 * PoolPenalty(pool)
    ensures 0.3 <= score <= 9.6
  {
    score := 0.0;
    var pricePenalty := 4.0;
    if priceDiff.Some? {
      pricePenalty := priceDiff.value / 25.0 * 10.0;
      pricePenalty := if pricePenalty > 10.0 then 10.0 else pricePenalty;
      pricePenalty := if pricePenalty < 0.0 then 0.0 else pricePenalty;
    }
    score := score + 0.55 * pricePenalty;

    var domPenalty := 2.5;
    if domDiff.Some? {
      domPenalty := domDiff.value / 150.0 * 10.0;
      domPenalty := if domPenalty > 10.0 then 10.0 else domPenalty;
      domPenalty := if domPenalty < 0.0 then 0.0 else domPenalty;
    }
    score := score + 0.25 * domPenalty;
    score := score + 0.20 * PoolPenalty(pool);
  }

  /** `classify_risk`: `Unavailable` exactly when the list of comp prices
      is empty; otherwise the score, its band and the reasons in order. */
  method ClassifyRisk(subjectPrice: Option<real>, subjectDom: Option<int>,
                      compPrices: seq<Option<real>>, compDoms: seq<Option<real>>)
    returns (a: Assessment)
    ensures a.band == Unavailable <==> compPrices == []
    ensures compPrices == [] ==> a == Assessment(Unavailable, None, [NoComps])
    ensures compPrices != [] ==>
              && a.score == Some(Score(subjectPrice, subjectDom, compPrices, compDoms))
              && a.band == BandOf(a.score.value)
              && a.reasons == PriceReasons(subjectPrice, SafeMedian(compPrices))
                              + DomReasons(subjectDom, DomMedian(compDoms))
                              + PoolReasons(subjectPrice)
                              + [CompositeNote(a.score.value, a.band)]
  {
    if compPrices == [] {
      return Assessment(Unavailable, None, [NoComps]);
    }
    var avgPrice := SafeMedian(compPrices);
    var avgDom := if compDoms != [] then SafeMedian(compDoms) else None;

    var priceDiff, reasons := PriceSection(subjectPrice, avgPrice);
    var domDiff, domReasons := DomSection(subjectDom, avgDom);
    reasons := reasons + domReasons;
    var pool, poolReasons := PoolSection(subjectPrice);
    reasons := reasons + poolReasons;

    var score := CompositeScore(priceDiff, domDiff, pool);
    assert score == Score(subjectPrice, subjectDom, compPrices, compDoms);

    var band := if score < 3.0 then Low else if score < 6.0 then Band.Moderate else High;
    reasons := reasons + [CompositeNote(score, band)];
    return Assessment(band, Some(score), reasons);
  }

  /** Division by a positive number keeps the order. */
  lemma DivideKeepsOrder(x: real, y: real, m: real)
    requires x <= y && m > 0.0
    ensures x / m <= y / m
  {
    assert x / m * m == x && y / m * m == y;
  }

  /** The price gap grows with the subject price. */
  lemma PriceDiffMonotone(p1: real, p2: real, m: real)
    requires 0.0 < p1 <= p2 && m > 0.0
    ensures PriceDiffPct(Some(p1), Some(m)).value <= PriceDiffPct(Some(p2), Some(m)).value
  {
    DivideKeepsOrder(p1 - m, p2 - m, m);
  }

  /** A higher price never falls in a broader buyer pool. */
  lemma PoolMonotone(p1: real, p2: real)
    requires 0.0 < p1 <= p2
    ensures PoolRank(PoolOf(Some(p1))) <= PoolRank(PoolOf(Some(p2)))
    ensures PoolPenalty(PoolOf(Some(p1))) <= PoolPenalty(PoolOf(Some(p2)))
  {
  }

  /** With the comp median price fixed and positive, raising the subject
      price never lowers the score, and so never lowers the band. */
  lemma ScoreMonotoneInPrice(p1: real, p2: real, subjectDom: Option<int>,
                             compPrices: seq<Option<real>>, compDoms: seq<Option<real>>)
    requires 0.0 < p1 <= p2
    requires SafeMedian(compPrices).Some? && SafeMedian(compPrices).value > 0.0
    ensures Score(Some(p1), subjectDom, compPrices, compDoms) <= Score(Some(p2), subjectDom, compPrices, compDoms)
    ensures BandRank(BandOf(Score(Some(p1), subjectDom, compPrices, compDoms)))
            <= BandRank(BandOf(Score(Some(p2), subjectDom, compPrices, compDoms)))
  {
    var m := SafeMedian(compPrices).value;
    PriceDiffMonotone(p1, p2, m);
    var d1 := PriceDiffPct(Some(p1), Some(m)).value;
    var d2 := PriceDiffPct(Some(p2), Some(m)).value;
    DivideKeepsOrder(d1, d2, 25.0);
    PoolMonotone(p1, p2);
    BandMonotone(Score(Some(p1), subjectDom, compPrices, compDoms), Score(Some(p2), subjectDom, compPrices, compDoms));
  }

  /** A subject priced at the comp median carries no price penalty. */
  lemma AtMedianNoPricePenalty(compPrices: seq<Option<real>>)
    requires SafeMedian(compPrices).Some? && SafeMedian(compPrices).value != 0.0
    ensures PricePenalty(PriceDiffPct(SafeMedian(compPrices), SafeMedian(compPrices))) == 0.0
  {
  }

  /** A subject under 500000 priced at the comp median, with no DOM of
      its own, scores 0.925: `Low`. */
  lemma AtMedianLowRisk(subjectPrice: real, compPrices: seq<Option<real>>, compDoms: seq<Option<real>>)
    requires 0.0 < subjectPrice < 500000.0
    requires SafeMedian(compPrices) == Some(subjectPrice)
    ensures Score(Some(subjectPrice), None, compPrices, compDoms) == 0.925
    ensures BandOf(Score(Some(subjectPrice), None, compPrices, compDoms)) == Low
  {
    assert PriceDiffPct(Some(subjectPrice), Some(subjectPrice)) == Some(0.0);
  }

  /** A subject from 900000 up, at least 25% over the comp median price
      and 150% over the comp median DOM, reaches the highest score, 9.6. */
  lemma OverpricedStaleHighRisk(subjectPrice: real, subjectDom: int,
                                compPrices: seq<Option<real>>, compDoms: seq<Option<real>>)
    requires subjectPrice >= 900000.0
    requires SafeMedian(compPrices).Some? && SafeMedian(compPrices).value > 0.0
    requires subjectPrice >= 1.25 * SafeMedian(compPrices).value
    requires compDoms != [] && SafeMedian(compDoms).Some? && SafeMedian(compDoms).value > 0.0
    requires subjectDom as real >= 2.5 * SafeMedian(compDoms).value
    ensures Score(Some(subjectPrice), Some(subjectDom), compPrices, compDoms) == 9.6
    ensures BandOf(Score(Some(subjectPrice), Some(subjectDom), compPrices, compDoms)) == High
  {
    var pd := PriceDiffPct(Some(subjectPrice), SafeMedian(compPrices));
    GapAtLeast(subjectPrice, SafeMedian(compPrices).value, 0.25);
    assert PricePenalty(pd) == 10.0;
    var dd := DomDiffPct(Some(subjectDom), DomMedian(compDoms));
    GapAtLeast(subjectDom as real, SafeMedian(compDoms).value, 1.5);
    assert DomPenalty(dd) == 10.0;
    assert PoolPenalty(PoolOf(Some(subjectPrice))) == 8.0;
  }

  /** A subject at 550000 listed for 45 days against comps at 500000,
      520000 and 480000 listed for 20, 25 and 22 days: 10% over the
      median price gives a price penalty of 4, 23/22 over the median DOM
      gives a DOM penalty of 23/22 * 100 / 15, and the moderate pool adds
      0.8, so the score is about 4.74 and the band moderate. */
  lemma ScenarioModerate()
    ensures Score(Some(550000.0), Some(45), [Some(500000.0), Some(520000.0), Some(480000.0)],
                  [Some(20.0), Some(25.0), Some(22.0)])
            == 2.2 + 0.25 * (23.0 / 22.0 * 100.0 / 15.0) + 0.8
    ensures BandOf(Score(Some(550000.0), Some(45), [Some(500000.0), Some(520000.0), Some(480000.0)],
                         [Some(20.0), Some(25.0), Some(22.0)])) == Band.Moderate
  {
    MedianOfThree(500000.0, 520000.0, 480000.0, 480000.0, 500000.0, 520000.0);
    MedianOfThree(20.0, 25.0, 22.0, 20.0, 22.0, 25.0);
    assert PriceDiffPct(Some(550000.0), Some(500000.0)) == Some(10.0);
    assert PricePenalty(Some(10.0)) == 4.0;
    assert DomDiffPct(Some(45), Some(22.0)) == Some(23.0 / 22.0 * 100.0);
    assert PoolOf(Some(550000.0)) == Pool.Moderate;
  }

  /** A value at least `(1 + f)` times a positive median is at least
      `100 f` percent over it. */
  lemma GapAtLeast(x: real, m: real, f: real)
    requires m > 0.0 && x >= (1.0 + f) * m
    ensures (x - m) / m * 100.0 >= f * 100.0
  {
    DivideKeepsOrder(f * m, x - m, m);
    assert f * m / m == f;
  }

  /** `contingency_suggestions`: a fixed list per band name; any other
      name, "Unavailable" included, gets the single fallback line. */
  function ContingencySuggestions(riskBand: string): (r: seq<string>)
    ensures riskBand in {"Low", "Moderate", "High"} <==> |r| == 3
    ensures riskBand !in {"Low", "Moderate", "High"} <==> r == [InsufficientAdvice]
  {
    if riskBand == "Low" then LowAdvice
    else if riskBand == "Moderate" then ModerateAdvice
    else if riskBand == "High" then HighAdvice
    else [InsufficientAdvice]
  }

  const LowAdvice: seq<string> := [
    "List at or very near the median comp value.",
    "Standard buyer incentives only if showing traffic is weak after 2 weeks.",
    "Maintain normal contingency deadlines."
  ]

  const ModerateAdvice: seq<string> := [
    "Price within 1\U{2013}2% of comp median and prepare a 1% scheduled reduction after 21 days if no offers.",
    "Highlight move-in readiness and include light concessions (e.g., closing cost credit or rate buydown).",
    "Shorten buyer response windows to keep momentum."
  ]

  const HighAdvice: seq<string> := [
    "Start 2\U{2013}4% below comp median or implement a staged reduction plan (1% every 14 days).",
    "Increase marketing cadence: refreshed media, weekly open houses, agent outreach.",
    "Consider lender buy-down credits and extended rate lock options to expand buyer pool."
  ]

  const InsufficientAdvice: string := "Insufficient data for recommendations."

  /** The name `classify_risk` gives each band. */
  function BandName(band: Band): string {
    match band
    case Low => "Low"
    case Moderate => "Moderate"
    case High => "High"
    case Unavailable => "Unavailable"
  }

  /** Each band gets its own advice, and only `Unavailable` gets the fallback. */
  lemma AdvicePerBand(b1: Band, b2: Band)
    ensures b1 != b2 ==> ContingencySuggestions(BandName(b1)) != ContingencySuggestions(BandName(b2))
    ensures ContingencySuggestions(BandName(b1)) == [InsufficientAdvice] <==> b1 == Unavailable
  {
  }
}
