/** The metadata and revenue sync of engine/update_tickers.py: for every
    registry entry, a revenue waterfall over the company-facts document,
    location and 10-K link built from the submissions document, and an
    upsert into a table keyed by CIK. Fetched JSON documents are inputs;
    a fetch that failed is `None`. */
module Engine {
  import opened Opt
  import opened Text
  import opened Decimal
  import opened Facts

  // =====================================================================
  // Revenue waterfall
  // =====================================================================

  /** The priority order of the waterfall (engine/update_tickers.py:65-70). */
  const EngineTags: seq<Tag> := [
    Tag("us-gaap", "RevenueFromContractWithCustomerExcludingAssessedTax"),
    Tag("us-gaap", "SalesRevenueNet"),
    Tag("us-gaap", "Revenues"),
    Tag("ifrs-full", "RevenueFromContractsWithCustomers")
  ]

  /** What one pass of the loop body does: the tag is skipped (a `KeyError`
      or `IndexError` was caught), or `revenue` was assigned `v`. */
  datatype Probe = Skipped | Value(v: int)

  predicate Truthy(p: Probe)
  {
    p.Value? && p.v != 0
  }

  /** `'USD' if 'USD' in units else list(units.keys())[0]`; `None` is the
      `IndexError` of an empty unit map. */
  function SelectCurrency(units: seq<Unit>): (r: Option<seq<Point>>)
    ensures r.None? <==> |units| == 0
    ensures HasCode(units, "USD") ==> r == PointsFor(units, "USD")
    ensures !HasCode(units, "USD") && |units| > 0 ==> r == Some(units[0].points)
  {
    if HasCode(units, "USD") then PointsFor(units, "USD")
    else if |units| == 0 then None
    else Some(units[0].points)
  }

  predicate IsAnnual(p: Point)
  {
    p.fp == Some("FY")
  }

  predicate HasAnnual(points: seq<Point>)
  {
    exists p :: p in points && IsAnnual(p)
  }

  /** The positions of the annual points, in increasing order. */
  function AnnualIndices(points: seq<Point>): (idx: seq<nat>)
    ensures forall k :: 0 <= k < |idx| ==> idx[k] < |points| && IsAnnual(points[idx[k]])
    ensures forall k, l :: 0 <= k < l < |idx| ==> idx[k] < idx[l]
    ensures forall j :: 0 <= j < |points| && IsAnnual(points[j]) ==> j in idx
  {
    if |points| == 0 then []
    else
      var n := |points| - 1;
      var init := points[..n];
      var idx := AnnualIndices(init);
      assert forall k :: 0 <= k < |idx| ==> points[idx[k]] == init[idx[k]];
      assert forall j :: 0 <= j < n ==> points[j] == init[j];
      idx + (if IsAnnual(points[n]) then [n] else [])
  }

  /** `[p for p in points if p.get('fp') == 'FY']`: the points at the annual
      positions, each once, in stored order. */
  function Annual(points: seq<Point>): (r: seq<Point>)
    ensures |r| == |AnnualIndices(points)|
    ensures forall k :: 0 <= k < |r| ==> r[k] == points[AnnualIndices(points)[k]]
  {
    if |points| == 0 then []
    else
      var n := |points| - 1;
      var r0 := Annual(points[..n]);
      var r := r0 + (if IsAnnual(points[n]) then [points[n]] else []);
      AnnualSnoc(points, points[..n], r0);
      r
  }

  /** The index contract of `Annual` carries over from all but the last point. */
  lemma AnnualSnoc(points: seq<Point>, init: seq<Point>, r0: seq<Point>)
    requires |points| > 0 && init == points[..|points| - 1]
    requires |r0| == |AnnualIndices(init)|
    requires forall k :: 0 <= k < |r0| ==> r0[k] == init[AnnualIndices(init)[k]]
    ensures var last := points[|points| - 1];
            var r := r0 + (if IsAnnual(last) then [last] else []);
            && |r| == |AnnualIndices(points)|
            && forall k :: 0 <= k < |r| ==> r[k] == points[AnnualIndices(points)[k]]
  {
    var idx0 := AnnualIndices(init);
    var idx := AnnualIndices(points);
    assert idx == idx0 + (if IsAnnual(points[|points| - 1]) then [|points| - 1] else []);
    forall k | 0 <= k < |r0| ensures r0[k] == points[idx[k]] {
      assert idx[k] == idx0[k];
    }
  }

  /** The annual filter keeps exactly the annual points. */
  lemma AnnualMembers(points: seq<Point>)
    ensures forall p :: p in Annual(points) <==> p in points && IsAnnual(p)
  {
    var r := Annual(points);
    var idx := AnnualIndices(points);
    forall p ensures p in r <==> p in points && IsAnnual(p) {
      if p in r {
        var k :| 0 <= k < |r| && r[k] == p;
        assert points[idx[k]] == p;
      }
      if p in points && IsAnnual(p) {
        var j :| 0 <= j < |points| && points[j] == p;
        var k :| 0 <= k < |idx| && idx[k] == j;
        assert r[k] == p;
      }
    }
  }

  /** The points the waterfall sorts: the annual ones if there are any, else all. */
  function Preferred(points: seq<Point>): (r: seq<Point>)
    ensures HasAnnual(points) ==> r == Annual(points)
    ensures HasAnnual(points) ==> forall p :: p in r <==> p in points && IsAnnual(p)
    ensures !HasAnnual(points) ==> r == points
  {
    var annual := Annual(points);
    AnnualMembers(points);
    if |annual| > 0 then
      assert annual[0] in annual;
      annual
    else points
  }

  /** `sorted(points, key=lambda x: x['end'])[-1]`, as an index: a point with
      the greatest `end`, and of those the last in stored order (the sort is
      stable). */
  function LastLatest(points: seq<Point>): (i: nat)
    requires |points| > 0 && AllDated(points)
    ensures i < |points|
    ensures forall j :: 0 <= j < |points| ==> EndLe(points[j], points[i])
    ensures forall j :: i < j < |points| ==> !EndLe(points[i], points[j])
  {
    if |points| == 1 then
      LexLeReflexive(points[0].end.value);
      0
    else
      var init := points[..|points| - 1];
      var k := LastLatest(init);
      var last := points[|points| - 1];
      LexLeTotal(init[k].end.value, last.end.value);
      if EndLe(init[k], last) then
        assert forall j :: 0 <= j < |points| ==> EndLe(points[j], last) by {
          forall j | 0 <= j < |points|
            ensures EndLe(points[j], last)
          {
            if j < |points| - 1 {
              assert points[j] == init[j];
              LexLeTransitive(points[j].end.value, init[k].end.value, last.end.value);
            } else {
              LexLeReflexive(last.end.value);
            }
          }
        }
        |points| - 1
      else
        assert forall j :: 0 <= j < |points| - 1 ==> points[j] == init[j];
        k
  }

  /** Position `j` takes part in the sort: every point when none is annual,
      only the annual ones otherwise. */
  predicate Eligible(points: seq<Point>, j: int)
  {
    0 <= j < |points| && (HasAnnual(points) ==> IsAnnual(points[j]))
  }

  /** Position `i` is the one `sorted(...)[-1]` reads, stated on the stored
      points: it takes part in the sort, its `end` is the greatest of those
      that do, and every later one that does has a strictly smaller `end`. */
  predicate SortedLastAt(points: seq<Point>, i: int)
  {
    && Eligible(points, i) && points[i].end.Some?
    && (forall j :: 0 <= j < |points| && Eligible(points, j) ==>
                     points[j].end.Some? && LexLe(points[j].end.value, points[i].end.value))
    && (forall j :: i < j < |points| && Eligible(points, j) ==> !LexLe(points[i].end.value, points[j].end.value))
  }

  /** At most one position is the one the sort reads. */
  lemma SortedLastAtUnique(points: seq<Point>, i: int, k: int)
    requires SortedLastAt(points, i) && SortedLastAt(points, k)
    ensures i == k
  {
  }

  /** The stored position of the point `sorted(preferred, key=end)[-1]` reads. */
  function PickIndex(points: seq<Point>): (i: nat)
    requires |Preferred(points)| > 0 && AllDated(Preferred(points))
    ensures i < |points| && points[i] == Preferred(points)[LastLatest(Preferred(points))]
    ensures SortedLastAt(points, i)
  {
    if HasAnnual(points) then
      PickAnnual(points);
      AnnualIndices(points)[LastLatest(Annual(points))]
    else
      var i := LastLatest(points);
      assert forall j :: 0 <= j < |points| && Eligible(points, j) ==> EndLe(points[j], points[i]);
      i
  }

  lemma PickAnnual(points: seq<Point>)
    requires HasAnnual(points) && |Annual(points)| > 0 && AllDated(Annual(points))
    ensures |AnnualIndices(points)| == |Annual(points)|
    ensures AnnualIndices(points)[LastLatest(Annual(points))] < |points|
    ensures points[AnnualIndices(points)[LastLatest(Annual(points))]] == Annual(points)[LastLatest(Annual(points))]
    ensures SortedLastAt(points, AnnualIndices(points)[LastLatest(Annual(points))])
  {
    var sel := Annual(points);
    var idx := AnnualIndices(points);
    var m := LastLatest(sel);
    assert points[idx[m]] == sel[m];
    PickGreatest(points, sel, idx, m);
    PickLast(points, sel, idx, m);
    SortedAmongAnnual(points, idx[m]);
  }

  /** With some point annual, `SortedLastAt` is a statement about the
      annual positions only. */
  lemma SortedAmongAnnual(points: seq<Point>, i: nat)
    requires HasAnnual(points) && i < |points| && IsAnnual(points[i]) && points[i].end.Some?
    requires forall j :: 0 <= j < |points| && IsAnnual(points[j]) ==>
                           points[j].end.Some? && LexLe(points[j].end.value, points[i].end.value)
    requires forall j :: i < j < |points| && IsAnnual(points[j]) ==> !LexLe(points[i].end.value, points[j].end.value)
    ensures SortedLastAt(points, i)
  {
  }

  /** The greatest `end` among the selected points is the greatest among
      the annual positions of `points`. */
  lemma PickGreatest(points: seq<Point>, sel: seq<Point>, idx: seq<nat>, m: nat)
    requires |sel| == |idx| && m < |sel| && AllDated(sel)
    requires forall k :: 0 <= k < |idx| ==> idx[k] < |points| && sel[k] == points[idx[k]]
    requires forall j :: 0 <= j < |points| && IsAnnual(points[j]) ==> j in idx
    requires forall k :: 0 <= k < |sel| ==> EndLe(sel[k], sel[m])
    ensures forall j :: 0 <= j < |points| && IsAnnual(points[j]) ==>
                          points[j].end.Some? && LexLe(points[j].end.value, points[idx[m]].end.value)
  {
    forall j | 0 <= j < |points| && IsAnnual(points[j])
      ensures points[j].end.Some? && LexLe(points[j].end.value, points[idx[m]].end.value)
    {
      var k :| 0 <= k < |idx| && idx[k] == j;
      assert points[j] == sel[k];
    }
  }

  /** No later annual position of `points` reaches the `end` of the
      selected point `m`, the last of the greatest. */
  lemma PickLast(points: seq<Point>, sel: seq<Point>, idx: seq<nat>, m: nat)
    requires |sel| == |idx| && m < |sel| && AllDated(sel)
    requires forall k :: 0 <= k < |idx| ==> idx[k] < |points| && sel[k] == points[idx[k]]
    requires forall k, l :: 0 <= k < l < |idx| ==> idx[k] < idx[l]
    requires forall j :: 0 <= j < |points| && IsAnnual(points[j]) ==> j in idx
    requires forall k :: m < k < |sel| ==> !EndLe(sel[m], sel[k])
    ensures forall j :: idx[m] < j < |points| && IsAnnual(points[j]) ==>
                          !LexLe(points[idx[m]].end.value, points[j].end.value)
  {
    forall j | idx[m] < j < |points| && IsAnnual(points[j])
      ensures !LexLe(points[idx[m]].end.value, points[j].end.value)
    {
      var k :| 0 <= k < |idx| && idx[k] == j;
      assert points[j] == sel[k];
      assert m < k;
    }
  }

  /** The body of the `try` block for one tag (engine/update_tickers.py:73-87). */
  function EngineProbe(doc: Doc, t: Tag): (r: Probe)
    ensures UnitsOf(doc, t).None? ==> r.Skipped?
    ensures UnitsOf(doc, t) == Some([]) ==> r.Skipped?
    ensures UnitsOf(doc, t).Some? && SelectCurrency(UnitsOf(doc, t).value) == Some([]) ==> r.Skipped?
  {
    match UnitsOf(doc, t)
    case None => Skipped
    case Some(units) =>
      match SelectCurrency(units)
      case None => Skipped
      case Some(points) =>
        var sel := Preferred(points);
        if |sel| == 0 || !AllDated(sel) then Skipped
        else
          var p := sel[LastLatest(sel)];
          if p.val.None? then Skipped else Value(p.val.value)
  }

  /** When the probe yields a value, and which: exactly when the chosen
      currency has points, the sorted ones all carry an `end`, and the one
      the sort reads carries a `val`; the value is then the `val` at the
      stored position `SortedLastAt` singles out. */
  lemma EngineProbeReads(doc: Doc, t: Tag)
    ensures EngineProbe(doc, t).Value? <==>
              (&& UnitsOf(doc, t).Some?
               && SelectCurrency(UnitsOf(doc, t).value).Some?
               && var sel := Preferred(SelectCurrency(UnitsOf(doc, t).value).value);
               && |sel| > 0 && AllDated(sel)
               && sel[LastLatest(sel)].val.Some?)
    ensures EngineProbe(doc, t).Value? ==>
              var points := SelectCurrency(UnitsOf(doc, t).value).value;
              exists i :: SortedLastAt(points, i) && points[i].val == Some(EngineProbe(doc, t).v)
  {
    match UnitsOf(doc, t)
    case None =>
    case Some(units) =>
      match SelectCurrency(units)
      case None =>
      case Some(points) =>
        var sel := Preferred(points);
        if |sel| > 0 && AllDated(sel) {
          var i := PickIndex(points);
          assert points[i] == sel[LastLatest(sel)];
        }
  }

  /** The revenue the loop ends with: the value of the first tag whose probe
      is truthy, and `0` (the falsy initial value, or a falsy `val`) when
      there is none. */
  function EngineRevenue(doc: Doc, tags: seq<Tag>): (r: int)
    ensures r != 0 ==> exists k :: 0 <= k < |tags| && EngineProbe(doc, tags[k]) == Value(r)
                                   && forall j :: 0 <= j < k ==> !Truthy(EngineProbe(doc, tags[j]))
    ensures r == 0 ==> forall k :: 0 <= k < |tags| ==> !Truthy(EngineProbe(doc, tags[k]))
  {
    if |tags| == 0 then 0
    else
      var probe := EngineProbe(doc, tags[0]);
      if Truthy(probe) then probe.v
      else
        var r := EngineRevenue(doc, tags[1..]);
        FalsyHeadShift(doc, tags, r);
        r
  }

  /** What the waterfall promises about the tags after a falsy first probe
      carries over to the whole list. */
  lemma FalsyHeadShift(doc: Doc, tags: seq<Tag>, r: int)
    requires |tags| > 0 && !Truthy(EngineProbe(doc, tags[0]))
    requires r != 0 ==> exists k :: 0 <= k < |tags[1..]| && EngineProbe(doc, tags[1..][k]) == Value(r)
                                    && forall j :: 0 <= j < k ==> !Truthy(EngineProbe(doc, tags[1..][j]))
    requires r == 0 ==> forall k :: 0 <= k < |tags[1..]| ==> !Truthy(EngineProbe(doc, tags[1..][k]))
    ensures r != 0 ==> exists k :: 0 <= k < |tags| && EngineProbe(doc, tags[k]) == Value(r)
                                   && forall j :: 0 <= j < k ==> !Truthy(EngineProbe(doc, tags[j]))
    ensures r == 0 ==> forall k :: 0 <= k < |tags| ==> !Truthy(EngineProbe(doc, tags[k]))
  {
    FalsyShift(tags, tags[1..], (t: Tag) => EngineProbe(doc, t), r);
  }

  /** The first position of `xs` whose probe is truthy, and its value, carry
      over from all but the first element when the first one's probe is
      falsy. */
  lemma FalsyShift<T>(xs: seq<T>, rest: seq<T>, probe: T -> Probe, r: int)
    requires |xs| > 0 && rest == xs[1..] && !Truthy(probe(xs[0]))
    requires r != 0 ==> exists k :: 0 <= k < |rest| && probe(rest[k]) == Value(r)
                                    && forall j :: 0 <= j < k ==> !Truthy(probe(rest[j]))
    requires r == 0 ==> forall k :: 0 <= k < |rest| ==> !Truthy(probe(rest[k]))
    ensures r != 0 ==> exists k :: 0 <= k < |xs| && probe(xs[k]) == Value(r)
                                   && forall j :: 0 <= j < k ==> !Truthy(probe(xs[j]))
    ensures r == 0 ==> forall k :: 0 <= k < |xs| ==> !Truthy(probe(xs[k]))
  {
    if r != 0 {
      var k :| 0 <= k < |rest| && probe(rest[k]) == Value(r)
               && forall j :: 0 <= j < k ==> !Truthy(probe(rest[j]));
      forall j | 0 <= j < k + 1 ensures !Truthy(probe(xs[j])) {
        if j > 0 { assert xs[j] == rest[j - 1]; }
      }
      assert xs[k + 1] == rest[k];
    } else {
      forall k | 0 <= k < |xs| ensures !Truthy(probe(xs[k])) {
        if k > 0 { assert xs[k] == rest[k - 1]; }
      }
    }
  }

  /** The first tag whose probe is truthy decides the revenue, whatever
      the tags after it give. */
  lemma FirstTruthyDecides(doc: Doc, tags: seq<Tag>, k: nat)
    requires k < |tags| && Truthy(EngineProbe(doc, tags[k]))
    requires forall j :: 0 <= j < k ==> !Truthy(EngineProbe(doc, tags[j]))
    ensures EngineRevenue(doc, tags) == EngineProbe(doc, tags[k]).v
  {
    var r := EngineRevenue(doc, tags);
    assert r != 0;
    var m :| 0 <= m < |tags| && EngineProbe(doc, tags[m]) == Value(r)
             && forall j :: 0 <= j < m ==> !Truthy(EngineProbe(doc, tags[j]));
    assert Truthy(EngineProbe(doc, tags[m]));
    assert m == k;
  }

  /** One step of the waterfall from position `i`. */
  lemma RevenueStep(doc: Doc, tags: seq<Tag>, i: nat)
    requires i < |tags|
    ensures EngineRevenue(doc, tags[i..])
            == if Truthy(EngineProbe(doc, tags[i])) then EngineProbe(doc, tags[i]).v else EngineRevenue(doc, tags[i + 1..])
  {
    assert tags[i..][0] == tags[i] && tags[i..][1..] == tags[i + 1..];
  }

  /** The waterfall loop of engine/update_tickers.py:64-87, with its `break`. */
  method ExtractRevenue(doc: Doc) returns (revenue: int)
    ensures revenue == EngineRevenue(doc, EngineTags)
  {
    revenue := 0;
    var i := 0;
    while i < |EngineTags|
      invariant 0 <= i <= |EngineTags|
      invariant revenue == 0
      invariant EngineRevenue(doc, EngineTags) == EngineRevenue(doc, EngineTags[i..])
    {
      RevenueStep(doc, EngineTags, i);
      var probe := EngineProbe(doc, EngineTags[i]);
      if probe.Value? {
        revenue := probe.v;
        if revenue != 0 {
          break;
        }
      }
      i := i + 1;
    }
  }

  // =====================================================================
  // Submissions metadata: industry, location and the latest 10-K
  // =====================================================================

  /** `addresses.business`; a missing `addresses` or `business` is `None`. */
  datatype Address = Address(city: Option<string>, stateProvince: Option<string>)

  /** `filings.recent`: parallel lists, each of which may be missing. */
  datatype Recent = Recent(form: Option<seq<string>>, accessionNumber: Option<seq<string>>,
                           primaryDocument: Option<seq<string>>, reportDate: Option<seq<string>>)

  datatype Submissions = Submissions(sicDescription: Option<string>, business: Option<Address>,
                                     recent: Option<Recent>)

  const LocationPadding: set<char> := {',', ' '}

  /** `f"{city}, {state}".strip(", ")`. */
  function Location(city: string, state: string): (r: string)
    ensures Clean(r, LocationPadding)
  {
    Strip(city + ", " + state, LocationPadding)
  }

  lemma LocationBoth(city: string, state: string)
    requires |city| > 0 && Clean(city, LocationPadding)
    requires |state| > 0 && Clean(state, LocationPadding)
    ensures Location(city, state) == city + ", " + state
  {
    var core := city + ", " + state;
    assert core[0] == city[0] && core[|core| - 1] == state[|state| - 1];
    StripFrame([], core, [], LocationPadding);
    assert [] + core + [] == core;
  }

  lemma LocationCityOnly(city: string)
    requires |city| > 0 && Clean(city, LocationPadding)
    ensures Location(city, "") == city
  {
    StripFrame([], city, ", ", LocationPadding);
    assert [] + city + ", " == city + ", " + "";
  }

  lemma LocationStateOnly(state: string)
    requires |state| > 0 && Clean(state, LocationPadding)
    ensures Location("", state) == state
  {
    StripFrame(", ", state, [], LocationPadding);
    assert ", " + state + [] == "" + ", " + state;
  }

  lemma LocationNeither()
    ensures Location("", "") == ""
  {
    assert "" + ", " + "" == ", ";
    StripAllPadding(", ", LocationPadding);
  }

  /** The location of the business address; a missing address or part
      counts as the empty string. */
  function LocationOf(sub: Submissions): (r: string)
    ensures Clean(r, LocationPadding)
    ensures sub.business.None? ==> r == ""
    ensures sub.business.Some? ==>
              r == Location(sub.business.value.city.GetOr(""), sub.business.value.stateProvince.GetOr(""))
  {
    LocationNeither();
    var biz := sub.business.GetOr(Address(None, None));
    Location(biz.city.GetOr(""), biz.stateProvince.GetOr(""))
  }

  datatype Filing = Filing(date: string, link: string)

  const ArchiveBase: string := "https://www.sec.gov/Archives/edgar/data/"

  /** `f"https://www.sec.gov/Archives/edgar/data/{int(cik_str)}/{acc}/{doc}"`
      with `acc` the accession number without dashes. */
  function FilingLink(cikStr: string, accession: string, document: string): (r: string)
    requires AllDigits(cikStr)
    ensures |r| >= |ArchiveBase| + |document| && r[..|ArchiveBase|] == ArchiveBase
    ensures r[|r| - |document|..] == document
  {
    ArchiveBase + NatToDecimal(DigitsValue(cikStr)) + "/" + RemoveChar(accession, '-') + "/" + document
  }

  /** Whether `xs` is long enough to be read at `idx` (`None` is a missing key). */
  predicate Readable(xs: Option<seq<string>>, idx: nat)
  {
    xs.Some? && idx < |xs.value|
  }

  /** The 10-K date and link of engine/update_tickers.py:94-102. `None` is
      the `KeyError`/`IndexError` that makes the whole entity skipped. */
  function LatestTenK(recent: Option<Recent>, cikStr: string): (r: Option<Filing>)
    requires AllDigits(cikStr)
    ensures var forms := recent.GetOr(Recent(None, None, None, None)).form.GetOr([]);
            "10-K" !in forms ==> r == Some(Filing("N/A", ""))
    ensures var rec := recent.GetOr(Recent(None, None, None, None));
            var forms := rec.form.GetOr([]);
            "10-K" in forms ==>
              var idx := IndexOf(forms, "10-K");
              && (r.Some? <==> Readable(rec.accessionNumber, idx) && Readable(rec.primaryDocument, idx)
                                && Readable(rec.reportDate, idx))
              && (r.Some? ==>
                    && r.value.date == rec.reportDate.value[idx]
                    && r.value.link == FilingLink(cikStr, rec.accessionNumber.value[idx], rec.primaryDocument.value[idx]))
  {
    var rec := recent.GetOr(Recent(None, None, None, None));
    var forms := rec.form.GetOr([]);
    if "10-K" !in forms then Some(Filing("N/A", ""))
    else
      var idx := IndexOf(forms, "10-K");
      if Readable(rec.accessionNumber, idx) && Readable(rec.primaryDocument, idx) && Readable(rec.reportDate, idx)
      then Some(Filing(rec.reportDate.value[idx],
                       FilingLink(cikStr, rec.accessionNumber.value[idx], rec.primaryDocument.value[idx])))
      else None
  }

  /** The link names the CIK unpadded and the accession number without a
      dash: the zero padding of `cik_str` does not reach the URL. */
  lemma FilingLinkShape(cik: nat, accession: string, document: string)
    ensures AllDigits(ZFill(NatToDecimal(cik), 10))
    ensures FilingLink(ZFill(NatToDecimal(cik), 10), accession, document)
            == ArchiveBase + NatToDecimal(cik) + "/" + RemoveChar(accession, '-') + "/" + document
    ensures '-' !in RemoveChar(accession, '-')
  {
    PaddedRoundTrip(cik);
  }

  // =====================================================================
  // The CIK-keyed table and its upsert
  // =====================================================================

  datatype Row = Row(ticker: string, name: string, industry: string, location: string,
                     last10k: string, link10k: string, revenue: int, timestamp: int)

  /** `ON CONFLICT(cik) DO UPDATE SET ...`: the incoming ticker, industry,
      revenue, 10-K date, 10-K link and timestamp; name and location stay. */
  function Merge(existing: Row, incoming: Row): (r: Row)
    ensures r.name == existing.name && r.location == existing.location
    ensures r.ticker == incoming.ticker && r.industry == incoming.industry && r.revenue == incoming.revenue
    ensures r.last10k == incoming.last10k && r.link10k == incoming.link10k && r.timestamp == incoming.timestamp
  {
    incoming.(name := existing.name, location := existing.location)
  }

  /** The table after the `INSERT ... ON CONFLICT` of engine/update_tickers.py:105-115. */
  function Upserted(rows: map<nat, Row>, cik: nat, incoming: Row): (m: map<nat, Row>)
    ensures m.Keys == rows.Keys + {cik}
    ensures forall c :: c in rows && c != cik ==> m[c] == rows[c]
    ensures cik !in rows ==> m[cik] == incoming
    ensures cik in rows ==> m[cik] == Merge(rows[cik], incoming)
  {
    rows[cik := if cik in rows then Merge(rows[cik], incoming) else incoming]
  }

  /** Upserting the same row twice leaves the table as upserting it once. */
  lemma UpsertIdempotent(rows: map<nat, Row>, cik: nat, incoming: Row)
    ensures Upserted(Upserted(rows, cik, incoming), cik, incoming) == Upserted(rows, cik, incoming)
  {
  }

  /** One entry of `company_tickers.json` together with what the two
      requests for it returned (`None`: the request or its JSON failed)
      and the clock reading `datetime.now()` gives at its upsert. */
  datatype Entry = Entry(cik: nat, ticker: string, title: string,
                         submissions: Option<Submissions>, facts: Option<Doc>, clock: int)

  /** `str(cik).zfill(10)`, whose `int` is the CIK again. */
  function CikString(cik: nat): (s: string)
    ensures AllDigits(s) && DigitsValue(s) == cik
  {
    PaddedRoundTrip(cik);
    ZFill(NatToDecimal(cik), 10)
  }

  /** The loop body for `e` reaches the upsert: both requests returned a
      document and the 10-K lookup did not raise. */
  predicate Processed(e: Entry)
  {
    e.submissions.Some? && e.facts.Some? && LatestTenK(e.submissions.value.recent, CikString(e.cik)).Some?
  }

  /** The row the loop body upserts for `e` (engine/update_tickers.py:64-115). */
  function BuildRow(e: Entry): (r: Row)
    requires Processed(e)
    ensures r.ticker == Upper(e.ticker) && r.name == e.title && r.timestamp == e.clock
    ensures r.revenue == EngineRevenue(e.facts.value, EngineTags)
    ensures r.industry == e.submissions.value.sicDescription.GetOr("N/A")
    ensures r.location == LocationOf(e.submissions.value)
    ensures var filing := LatestTenK(e.submissions.value.recent, CikString(e.cik)).value;
            r.last10k == filing.date && r.link10k == filing.link
  {
    var sub := e.submissions.value;
    var filing := LatestTenK(sub.recent, CikString(e.cik)).value;
    Row(Upper(e.ticker), e.title, sub.sicDescription.GetOr("N/A"), LocationOf(sub),
        filing.date, filing.link, EngineRevenue(e.facts.value, EngineTags), e.clock)
  }

  /** The key and row the loop body upserts for `e`, or `None` when the body
      raised and the entity is skipped (engine/update_tickers.py:49-122). */
  function EntityRow(e: Entry): (r: Option<(nat, Row)>)
    ensures r.Some? <==> Processed(e)
    ensures r.Some? ==> r.value.0 == e.cik && r.value.1 == BuildRow(e)
    ensures e.submissions.None? || e.facts.None? ==> r.None?
  {
    if Processed(e) then Some((DigitsValue(CikString(e.cik)), BuildRow(e))) else None
  }

  /** The table after the loop over `entries`, in order. */
  function SyncAll(rows: map<nat, Row>, entries: seq<Entry>): (m: map<nat, Row>)
    ensures rows.Keys <= m.Keys
    ensures forall c :: c in m && c !in rows ==> exists i :: 0 <= i < |entries| && Processed(entries[i]) && entries[i].cik == c
  {
    if |entries| == 0 then rows
    else
      var before := SyncAll(rows, entries[..|entries| - 1]);
      match EntityRow(entries[|entries| - 1])
      case None => before
      case Some(kr) => Upserted(before, kr.0, kr.1)
  }

  /** The CIKs of the entries the loop processed without an exception. */
  function ProcessedCiks(entries: seq<Entry>): (cs: set<nat>)
    ensures forall i :: 0 <= i < |entries| && Processed(entries[i]) ==> entries[i].cik in cs
    ensures forall c :: c in cs ==> exists i :: 0 <= i < |entries| && Processed(entries[i]) && entries[i].cik == c
  {
    if |entries| == 0 then {}
    else
      var init := entries[..|entries| - 1];
      var last := entries[|entries| - 1];
      var cs := ProcessedCiks(init);
      var r := if Processed(last) then cs + {last.cik} else cs;
      assert forall i :: 0 <= i < |entries| && Processed(entries[i]) ==> entries[i].cik in r by {
        forall i | 0 <= i < |entries| - 1 && Processed(entries[i]) ensures entries[i].cik in cs {
          assert entries[i] == init[i];
        }
      }
      assert forall c :: c in r ==> exists i :: 0 <= i < |entries| && Processed(entries[i]) && entries[i].cik == c by {
        forall c | c in r
          ensures exists i :: 0 <= i < |entries| && Processed(entries[i]) && entries[i].cik == c
        {
          if c in cs {
            var i :| 0 <= i < |init| && Processed(init[i]) && init[i].cik == c;
            assert entries[i] == init[i];
          } else {
            assert entries[|entries| - 1] == last;
          }
        }
      }
      r
  }

  /** The CIKs the table holds after a sync: the old ones and those of the
      entries that were processed without an exception. */
  lemma {:induction false} SyncKeys(rows: map<nat, Row>, entries: seq<Entry>)
    ensures SyncAll(rows, entries).Keys == rows.Keys + ProcessedCiks(entries)
  {
    if |entries| > 0 {
      SyncKeys(rows, entries[..|entries| - 1]);
    }
  }

  /** Once a CIK has a row, no later sync changes its name or location. */
  lemma {:induction false} SyncKeepsNameAndLocation(rows: map<nat, Row>, entries: seq<Entry>, cik: nat)
    requires cik in rows
    ensures cik in SyncAll(rows, entries)
    ensures SyncAll(rows, entries)[cik].name == rows[cik].name
    ensures SyncAll(rows, entries)[cik].location == rows[cik].location
  {
    if |entries| > 0 {
      SyncKeepsNameAndLocation(rows, entries[..|entries| - 1], cik);
    }
  }

  /** The CIK-keyed table (`cik INTEGER UNIQUE`); a map holds at most one
      row per CIK by construction. */
  class CompanyTable {
    var rows: map<nat, Row>

    constructor ()
      ensures rows == map[]
    {
      rows := map[];
    }

    method Upsert(cik: nat, incoming: Row)
      modifies this
      ensures rows == Upserted(old(rows), cik, incoming)
    {
      if cik in rows {
        rows := rows[cik := Merge(rows[cik], incoming)];
      } else {
        rows := rows[cik := incoming];
      }
    }

    /** One pass of the loop body of engine/update_tickers.py:50-119: the
        row built for `e` is upserted, unless a request or a lookup failed. */
    method SyncEntry(e: Entry)
      modifies this
      ensures EntityRow(e).None? ==> rows == old(rows)
      ensures EntityRow(e).Some? ==> rows == Upserted(old(rows), EntityRow(e).value.0, EntityRow(e).value.1)
    {
      var cikStr := CikString(e.cik);
      var ticker := Upper(e.ticker);
      if e.submissions.Some? && e.facts.Some? {
        var sub := e.submissions.value;
        var revenue := ExtractRevenue(e.facts.value);
        var industry := sub.sicDescription.GetOr("N/A");
        var location := LocationOf(sub);
        var filing := LatestTenK(sub.recent, cikStr);
        if filing.Some? {
          Upsert(DigitsValue(cikStr), Row(ticker, e.title, industry, location,
                                          filing.value.date, filing.value.link, revenue, e.clock));
        }
      }
    }

    /** The per-entity loop of engine/update_tickers.py:49-122. */
    method Sync(entries: seq<Entry>)
      modifies this
      ensures rows == SyncAll(old(rows), entries)
    {
      var i := 0;
      while i < |entries|
        invariant 0 <= i <= |entries|
        invariant rows == SyncAll(old(rows), entries[..i])
      {
        assert entries[..i + 1][..i] == entries[..i];
        SyncEntry(entries[i]);
        i := i + 1;
      }
      assert entries[..i] == entries;
    }
  }
}
