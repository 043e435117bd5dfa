/** Concrete documents on which the two revenue waterfalls, and a run of the
    ticker event log, are worked out to the value. The two waterfalls read
    the same company-facts document differently: different tag orders,
    different tie-breaks among points with the same `end`, and only the
    sync loop of engine/update_tickers.py skips a falsy value. */
module Worked {
  import opened Opt
  import opened Text
  import opened Facts
  import Engine
  import Layer
  import EventLog

  /** The annual filter keeps a list of annual points whole. */
  lemma {:induction false} AllAnnualKept(points: seq<Point>)
    requires forall p :: p in points ==> Engine.IsAnnual(p)
    ensures Engine.Annual(points) == points
    ensures |points| > 0 ==> Engine.Preferred(points) == points
  {
    if |points| > 0 {
      var n := |points| - 1;
      var init := points[..n];
      assert Engine.Annual(init) == init by {
        assert forall p :: p in init ==> p in points;
        AllAnnualKept(init);
      }
      assert points[n] in points && Engine.IsAnnual(points[n]);
      assert Engine.Annual(points) == init + [points[n]];
      SnocSplit(points);
      assert Engine.HasAnnual(points);
    }
  }

  lemma SnocSplit<T>(s: seq<T>)
    requires |s| > 0
    ensures s[..|s| - 1] + [s[|s| - 1]] == s
  {
  }

  /** Among points that all share one `end`, the sync loop reads the last
      and the enrichment layer the first. */
  lemma EqualEndsTieBreak(points: seq<Point>)
    requires |points| > 0 && AllDated(points)
    requires forall i :: 0 <= i < |points| ==> points[i].end == points[0].end
    ensures Engine.LastLatest(points) == |points| - 1
    ensures Layer.FirstLatest(points) == 0
  {
    LexLeReflexive(points[0].end.value);
    assert EndLe(points[Engine.LastLatest(points)], points[|points| - 1]);
    assert EndLe(points[Layer.FirstLatest(points)], points[0]);
  }

  /** A last point strictly later than all others is read by both. */
  lemma StrictlyLatestPoint(points: seq<Point>)
    requires |points| > 0 && AllDated(points)
    requires forall j :: 0 <= j < |points| - 1 ==> !EndLe(points[|points| - 1], points[j])
    ensures Engine.LastLatest(points) == |points| - 1
    ensures Layer.FirstLatest(points) == |points| - 1
  {
    assert EndLe(points[|points| - 1], points[Engine.LastLatest(points)]);
    assert EndLe(points[|points| - 1], points[Layer.FirstLatest(points)]);
  }

  /** A tag whose only unit is `USD` and whose points are annual: the sync
      loop's probe reads the point `LastLatest` picks. */
  lemma EngineProbeOfUsd(doc: Doc, t: Tag, points: seq<Point>)
    requires UnitsOf(doc, t) == Some([Unit("USD", points)])
    requires |points| > 0 && AllDated(points)
    requires forall p :: p in points ==> Engine.IsAnnual(p)
    requires points[Engine.LastLatest(points)].val.Some?
    ensures Engine.EngineProbe(doc, t) == Engine.Value(points[Engine.LastLatest(points)].val.value)
  {
    assert Engine.SelectCurrency(UnitsOf(doc, t).value) == Some(points) by {
      UsdOnly(points);
    }
    assert Engine.Preferred(points) == points by {
      AllAnnualKept(points);
    }
  }

  /** A unit list holding only `USD` selects the `USD` points. */
  lemma UsdOnly(points: seq<Point>)
    ensures Engine.SelectCurrency([Unit("USD", points)]) == Some(points)
  {
    assert [Unit("USD", points)][0].code == "USD";
  }

  /** A tag whose only unit is `USD`: the layer's probe reads the point
      `FirstLatest` picks. */
  lemma LayerProbeOfUsd(doc: Doc, t: Tag, points: seq<Point>)
    requires UnitsOf(doc, t) == Some([Unit("USD", points)])
    requires |points| > 0 && AllDated(points)
    requires points[Layer.FirstLatest(points)].val.Some?
    ensures Layer.LayerProbe(doc, t) == Layer.Found(points[Layer.FirstLatest(points)].val.value)
  {
    assert Unit("USD", points).code == "USD";
    assert Layer.UsdPoints(doc, t) == Some(points);
  }

  /** A truthy probe at position 2 or 3 after falsy ones decides the revenue. */
  lemma TagWins(doc: Doc, tags: seq<Tag>, k: nat)
    requires 2 <= k <= 3 && k < |tags| && Engine.Truthy(Engine.EngineProbe(doc, tags[k]))
    requires !Engine.Truthy(Engine.EngineProbe(doc, tags[0])) && !Engine.Truthy(Engine.EngineProbe(doc, tags[1]))
    requires k == 3 ==> !Engine.Truthy(Engine.EngineProbe(doc, tags[2]))
    ensures Engine.EngineRevenue(doc, tags) == Engine.EngineProbe(doc, tags[k]).v
  {
    forall j | 0 <= j < k ensures !Engine.Truthy(Engine.EngineProbe(doc, tags[j])) {
      if j == 1 { } else if j == 2 { }
    }
    Engine.FirstTruthyDecides(doc, tags, k);
  }

  const Revenues: Tag := Tag("us-gaap", "Revenues")
  const IfrsRevenue: Tag := Tag("ifrs-full", "RevenueFromContractsWithCustomers")

  /** With the sync loop's first two tags absent, it stores what it reads
      under `Revenues`, when that is not zero. */
  lemma EngineReadsRevenues(doc: Doc, points: seq<Point>)
    requires UnitsOf(doc, Engine.EngineTags[0]).None? && UnitsOf(doc, Engine.EngineTags[1]).None?
    requires UnitsOf(doc, Revenues) == Some([Unit("USD", points)])
    requires |points| > 0 && AllDated(points)
    requires forall p :: p in points ==> Engine.IsAnnual(p)
    requires points[Engine.LastLatest(points)].val.Some? && points[Engine.LastLatest(points)].val.value != 0
    ensures Engine.EngineRevenue(doc, Engine.EngineTags) == points[Engine.LastLatest(points)].val.value
  {
    RevenuesProbes(doc, points);
    TagWins(doc, Engine.EngineTags, 2);
  }

  lemma RevenuesProbes(doc: Doc, points: seq<Point>)
    requires UnitsOf(doc, Engine.EngineTags[0]).None? && UnitsOf(doc, Engine.EngineTags[1]).None?
    requires UnitsOf(doc, Revenues) == Some([Unit("USD", points)])
    requires |points| > 0 && AllDated(points)
    requires forall p :: p in points ==> Engine.IsAnnual(p)
    requires points[Engine.LastLatest(points)].val.Some? && points[Engine.LastLatest(points)].val.value != 0
    ensures Engine.EngineProbe(doc, Engine.EngineTags[0]) == Engine.Skipped
    ensures Engine.EngineProbe(doc, Engine.EngineTags[1]) == Engine.Skipped
    ensures Engine.EngineProbe(doc, Engine.EngineTags[2]) == Engine.Value(points[Engine.LastLatest(points)].val.value)
  {
    EngineProbeOfUsd(doc, Revenues, points);
    assert Engine.EngineTags[2] == Revenues;
  }

  /** The layer tries `Revenues` first. */
  lemma LayerReadsRevenues(doc: Doc, points: seq<Point>)
    requires UnitsOf(doc, Revenues) == Some([Unit("USD", points)])
    requires |points| > 0 && AllDated(points)
    requires points[Layer.FirstLatest(points)].val.Some?
    ensures Layer.GetRevenueFromFacts(Some(doc)) == points[Layer.FirstLatest(points)].val
  {
    LayerProbeOfUsd(doc, Revenues, points);
    assert Layer.LayerTags[0] == Revenues;
    FoundAtHead(doc, Layer.LayerTags);
  }

  lemma LayerReadsZero(doc: Doc, zero: Point)
    requires UnitsOf(doc, Revenues) == Some([Unit("USD", [zero])])
    requires zero.end.Some? && zero.val == Some(0)
    ensures Layer.GetRevenueFromFacts(Some(doc)) == Some(0)
  {
    assert Layer.FirstLatest([zero]) == 0;
    LayerReadsRevenues(doc, [zero]);
  }

  /** The layer stops at a first tag that is found. */
  lemma FoundAtHead(doc: Doc, tags: seq<Tag>)
    requires |tags| > 0 && Layer.LayerProbe(doc, tags[0]).Found?
    ensures Layer.LayerWaterfall(doc, tags) == Some(Layer.LayerProbe(doc, tags[0]).v)
  {
  }

  /** Revenue points under `Revenues` only, annual, the last strictly later
      than the others (two fiscal years, 100 then 120, say): both waterfalls
      read the latest point. */
  lemma LaterAnnualPointWins(doc: Doc, points: seq<Point>)
    requires UnitsOf(doc, Engine.EngineTags[0]).None? && UnitsOf(doc, Engine.EngineTags[1]).None?
    requires UnitsOf(doc, Revenues) == Some([Unit("USD", points)])
    requires |points| > 0 && AllDated(points)
    requires forall p :: p in points ==> Engine.IsAnnual(p)
    requires forall j :: 0 <= j < |points| - 1 ==> !EndLe(points[|points| - 1], points[j])
    requires points[|points| - 1].val.Some? && points[|points| - 1].val.value != 0
    ensures Engine.EngineRevenue(doc, Engine.EngineTags) == points[|points| - 1].val.value
    ensures Layer.GetRevenueFromFacts(Some(doc)) == points[|points| - 1].val
  {
    EngineReadsLatest(doc, points);
    LayerReadsLatest(doc, points);
  }

  /** The engine half of `LaterAnnualPointWins`. */
  lemma EngineReadsLatest(doc: Doc, points: seq<Point>)
    requires UnitsOf(doc, Engine.EngineTags[0]).None? && UnitsOf(doc, Engine.EngineTags[1]).None?
    requires UnitsOf(doc, Revenues) == Some([Unit("USD", points)])
    requires |points| > 0 && AllDated(points)
    requires forall p :: p in points ==> Engine.IsAnnual(p)
    requires forall j :: 0 <= j < |points| - 1 ==> !EndLe(points[|points| - 1], points[j])
    requires points[|points| - 1].val.Some? && points[|points| - 1].val.value != 0
    ensures Engine.EngineRevenue(doc, Engine.EngineTags) == points[|points| - 1].val.value
  {
    StrictlyLatestPoint(points);
    EngineReadsRevenues(doc, points);
  }

  /** The layer half of `LaterAnnualPointWins`. */
  lemma LayerReadsLatest(doc: Doc, points: seq<Point>)
    requires UnitsOf(doc, Revenues) == Some([Unit("USD", points)])
    requires |points| > 0 && AllDated(points)
    requires forall j :: 0 <= j < |points| - 1 ==> !EndLe(points[|points| - 1], points[j])
    requires points[|points| - 1].val.Some?
    ensures Layer.GetRevenueFromFacts(Some(doc)) == points[|points| - 1].val
  {
    StrictlyLatestPoint(points);
    LayerReadsRevenues(doc, points);
  }

  /** Annual `Revenues` points that all share one `end` (5 then 7, say): the
      sync loop stores the last (`sorted(...)[-1]`), the enrichment layer
      returns the first (`sorted(..., reverse=True)[0]`). */
  lemma TieBreaksDiffer(doc: Doc, points: seq<Point>)
    requires UnitsOf(doc, Engine.EngineTags[0]).None? && UnitsOf(doc, Engine.EngineTags[1]).None?
    requires UnitsOf(doc, Revenues) == Some([Unit("USD", points)])
    requires |points| > 0 && AllDated(points)
    requires forall p :: p in points ==> Engine.IsAnnual(p)
    requires forall i :: 0 <= i < |points| ==> points[i].end == points[0].end
    requires points[0].val.Some? && points[|points| - 1].val.Some? && points[|points| - 1].val.value != 0
    ensures Engine.EngineRevenue(doc, Engine.EngineTags) == points[|points| - 1].val.value
    ensures Layer.GetRevenueFromFacts(Some(doc)) == points[0].val
  {
    EqualEndsTieBreak(points);
    EngineReadsRevenues(doc, points);
    LayerReadsRevenues(doc, points);
  }

  /** `Revenues` reports `0` and the IFRS tag a non-zero `v`: the sync loop
      treats the `0` as falsy and goes on to `v`; the layer returns the `0`,
      which its `if rev:` then declines to write. */
  lemma ZeroIsSkippedOnlyBySync(doc: Doc, zero: Point, other: Point)
    requires UnitsOf(doc, Engine.EngineTags[0]).None? && UnitsOf(doc, Engine.EngineTags[1]).None?
    requires UnitsOf(doc, Revenues) == Some([Unit("USD", [zero])])
    requires UnitsOf(doc, IfrsRevenue) == Some([Unit("USD", [other])])
    requires zero.end.Some? && Engine.IsAnnual(zero) && zero.val == Some(0)
    requires other.end.Some? && Engine.IsAnnual(other) && other.val.Some? && other.val.value != 0
    ensures Engine.EngineRevenue(doc, Engine.EngineTags) == other.val.value
    ensures Layer.GetRevenueFromFacts(Some(doc)) == Some(0)
    ensures !Layer.TruthyRevenue(Layer.GetRevenueFromFacts(Some(doc)))
  {
    assert ZeroThenOther(doc, zero, other);
    EngineSkipsZero(doc, zero, other);
    LayerReadsZero(doc, zero);
  }

  /** The document of `ZeroIsSkippedOnlyBySync`. */
  predicate ZeroThenOther(doc: Doc, zero: Point, other: Point)
  {
    && UnitsOf(doc, Engine.EngineTags[0]).None? && UnitsOf(doc, Engine.EngineTags[1]).None?
    && UnitsOf(doc, Revenues) == Some([Unit("USD", [zero])])
    && UnitsOf(doc, IfrsRevenue) == Some([Unit("USD", [other])])
    && zero.end.Some? && Engine.IsAnnual(zero) && zero.val == Some(0)
    && other.end.Some? && Engine.IsAnnual(other) && other.val.Some? && other.val.value != 0
  }

  lemma EngineSkipsZero(doc: Doc, zero: Point, other: Point)
    requires ZeroThenOther(doc, zero, other)
    ensures Engine.EngineRevenue(doc, Engine.EngineTags) == other.val.value
  {
    ZeroDocProbes(doc, zero, other);
    TagWins(doc, Engine.EngineTags, 3);
  }

  lemma ZeroDocProbes(doc: Doc, zero: Point, other: Point)
    requires ZeroThenOther(doc, zero, other)
    ensures Engine.EngineProbe(doc, Engine.EngineTags[0]) == Engine.Skipped
    ensures Engine.EngineProbe(doc, Engine.EngineTags[1]) == Engine.Skipped
    ensures Engine.EngineProbe(doc, Engine.EngineTags[2]) == Engine.Value(0)
    ensures Engine.EngineProbe(doc, Engine.EngineTags[3]) == Engine.Value(other.val.value)
  {
    EngineProbeOfUsd(doc, Revenues, [zero]);
    EngineProbeOfUsd(doc, IfrsRevenue, [other]);
    assert Engine.EngineTags[2] == Revenues && Engine.EngineTags[3] == IfrsRevenue;
  }

  /** No candidate tag at all: the sync loop stores `0`, the layer reports
      `None`. */
  lemma NoCandidateTag(doc: Doc)
    requires forall t :: UnitsOf(doc, t).None?
    ensures Engine.EngineRevenue(doc, Engine.EngineTags) == 0
    ensures Layer.GetRevenueFromFacts(Some(doc)) == None
  {
    assert forall t :: Engine.EngineProbe(doc, t).Skipped?;
    assert forall t :: Layer.LayerProbe(doc, t).Absent?;
  }

  /** A logged `AAA` listing whose registry entry now reads `bbb`: exactly
      one ticker change `AAA → BBB` is appended, stamped with the run's
      time and carrying the ticker-change note. */
  lemma TickerChangeWorked()
    ensures EventLog.RunEvents([EventLog.Event(1, "AAA", "Alpha", "-", EventLog.NoNote, 1, 10)],
                               [EventLog.Listing(1, "bbb", "Alpha")], 20)
            == [EventLog.Event(1, "BBB", "Alpha", "TICKER_CHANGE: AAA \U{2192} BBB", EventLog.TickerNote, 1, 20)]
  {
    var log := [EventLog.Event(1, "AAA", "Alpha", "-", EventLog.NoNote, 1, 10)];
    var snapshot := [EventLog.Listing(1, "bbb", "Alpha")];
    var ev := EventLog.Event(1, "BBB", "Alpha", "TICKER_CHANGE: AAA \U{2192} BBB", EventLog.TickerNote, 1, 20);
    assert EventLog.KeyByCik(snapshot) == snapshot;
    assert EventLog.EventFor(log, snapshot[0], false, 20) == Some(ev) by {
      assert Upper("bbb") == "BBB";
      assert EventLog.Latest(log, 1) == Some(log[0]);
      assert EventLog.Classify(Some(log[0]), "BBB", "Alpha", false) == Some(EventLog.TickerChange("AAA", "BBB"));
      assert EventLog.Render(EventLog.TickerChange("AAA", "BBB")) == "TICKER_CHANGE: AAA \U{2192} BBB";
    }
    assert EventLog.Planned(log, snapshot, false, 20) == [ev] by {
      assert snapshot[..0] == [];
      assert EventLog.AsSeq(Some(ev)) == [ev];
    }
  }
}
