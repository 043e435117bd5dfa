/** The revenue enrichment layer of engine/extract_revenue.py: a second,
    differently ordered waterfall over the company-facts document, and a
    pass over the table that writes each company's revenue to every row
    with the same ticker. The facts request is an input: `fetch(cik)` is
    the parsed document, or `None` when the request failed (non-200, a
    network error or a JSON error), which the source turns into `None`. */
module Layer {
  import opened Opt
  import opened Text
  import opened Facts

  /** `TAG_WATERFALL` (engine/extract_revenue.py:10-16). */
  const LayerTags: seq<Tag> := [
    Tag("us-gaap", "Revenues"),
    Tag("us-gaap", "SalesRevenueNet"),
    Tag("ifrs-full", "RevenueFromContractsWithCustomers"),
    Tag("us-gaap", "SalesRevenueGoodsNet"),
    Tag("us-gaap", "InterestAndDividendIncomeOperating")
  ]

  /** One pass of the `for` body: the tag is absent (`KeyError`, caught by
      the inner handler), its value is found, or an `IndexError` escaped to
      the outer handler and ends the search. */
  datatype Probe = Absent | Found(v: int) | Aborted

  /** `sorted(points, key=lambda x: x['end'], reverse=True)[0]`, as an index:
      a point with the greatest `end`, and of those the FIRST in stored
      order (the reversed sort is still stable). */
  function FirstLatest(points: seq<Point>): (i: nat)
    requires |points| > 0 && AllDated(points)
    ensures i < |points|
    ensures forall j :: 0 <= j < |points| ==> EndLe(points[j], points[i])
    ensures forall j :: 0 <= j < i ==> !EndLe(points[i], points[j])
  {
    if |points| == 1 then
      LexLeReflexive(points[0].end.value);
      0
    else
      var rest := points[1..];
      var k := FirstLatest(rest);
      LexLeTotal(points[0].end.value, rest[k].end.value);
      if EndLe(rest[k], points[0]) then
        assert forall j :: 0 <= j < |points| ==> EndLe(points[j], points[0]) by {
          forall j | 0 <= j < |points|
            ensures EndLe(points[j], points[0])
          {
            if j > 0 {
              assert points[j] == rest[j - 1];
              LexLeTransitive(points[j].end.value, rest[k].end.value, points[0].end.value);
            } else {
              LexLeReflexive(points[0].end.value);
            }
          }
        }
        0
      else
        assert forall j :: 1 <= j < |points| ==> points[j] == rest[j - 1];
        k + 1
  }

  /** `data['facts'][namespace][tag]['units']['USD']`, `None` on a `KeyError`. */
  function UsdPoints(doc: Doc, t: Tag): (r: Option<seq<Point>>)
    ensures r.Some? <==> UnitsOf(doc, t).Some? && HasCode(UnitsOf(doc, t).value, "USD")
    ensures r.Some? ==> var units := UnitsOf(doc, t).value;
                        exists i :: 0 <= i < |units| && units[i].code == "USD" && units[i].points == r.value
  {
    match UnitsOf(doc, t)
    case None => None
    case Some(units) => PointsFor(units, "USD")
  }

  /** The `try` body for one tag (engine/extract_revenue.py:30-37). */
  function LayerProbe(doc: Doc, t: Tag): (r: Probe)
    ensures UsdPoints(doc, t).None? ==> r == Absent
    ensures UsdPoints(doc, t) == Some([]) ==> r == Aborted
    ensures r.Aborted? ==> UsdPoints(doc, t) == Some([])
    ensures r.Found? ==> var points := UsdPoints(doc, t).value;
                         exists i :: 0 <= i < |points| && points[i].val == Some(r.v) && points[i].end.Some?
                                     && AllDated(points)
                                     && (forall j :: 0 <= j < |points| ==> EndLe(points[j], points[i]))
                                     && (forall j :: 0 <= j < i ==> !EndLe(points[i], points[j]))
    ensures UsdPoints(doc, t).Some? ==>
              var points := UsdPoints(doc, t).value;
              |points| > 0 && AllDated(points) && points[FirstLatest(points)].val.Some? ==>
                r == Found(points[FirstLatest(points)].val.value)
    ensures r.Absent? <==> (|| UsdPoints(doc, t).None?
                            || (var points := UsdPoints(doc, t).value;
                                |points| > 0 && (!AllDated(points) || points[FirstLatest(points)].val.None?)))
  {
    match UsdPoints(doc, t)
    case None => Absent
    case Some(points) =>
      if |points| == 0 then Aborted
      else if !AllDated(points) then Absent
      else
        var i := FirstLatest(points);
        if points[i].val.None? then Absent else Found(points[i].val.value)
  }

  /** The `for` loop with its early `return` (engine/extract_revenue.py:29-40):
      the value of the first tag that is not absent, without a truthiness
      check, or `None` when every tag is absent or the first non-absent one
      aborted. */
  function LayerWaterfall(doc: Doc, tags: seq<Tag>): (r: Option<int>)
    ensures r.Some? ==> exists k :: 0 <= k < |tags| && LayerProbe(doc, tags[k]) == Found(r.value)
                                    && forall j :: 0 <= j < k ==> LayerProbe(doc, tags[j]).Absent?
    ensures r.None? ==> forall k :: 0 <= k < |tags| && (forall j :: 0 <= j < k ==> LayerProbe(doc, tags[j]).Absent?)
                                    ==> !LayerProbe(doc, tags[k]).Found?
  {
    if |tags| == 0 then None
    else
      match LayerProbe(doc, tags[0])
      case Found(v) => Some(v)
      case Aborted => None
      case Absent =>
        var r := LayerWaterfall(doc, tags[1..]);
        AbsentHeadShift(doc, tags, r);
        r
  }

  /** What the waterfall promises about the tags after an absent first tag
      carries over to the whole list. */
  lemma AbsentHeadShift(doc: Doc, tags: seq<Tag>, r: Option<int>)
    requires |tags| > 0 && LayerProbe(doc, tags[0]).Absent?
    requires r.Some? ==> exists k :: 0 <= k < |tags[1..]| && LayerProbe(doc, tags[1..][k]) == Found(r.value)
                                     && forall j :: 0 <= j < k ==> LayerProbe(doc, tags[1..][j]).Absent?
    requires r.None? ==> forall k :: 0 <= k < |tags[1..]| && (forall j :: 0 <= j < k ==> LayerProbe(doc, tags[1..][j]).Absent?)
                                     ==> !LayerProbe(doc, tags[1..][k]).Found?
    ensures r.Some? ==> exists k :: 0 <= k < |tags| && LayerProbe(doc, tags[k]) == Found(r.value)
                                    && forall j :: 0 <= j < k ==> LayerProbe(doc, tags[j]).Absent?
    ensures r.None? ==> forall k :: 0 <= k < |tags| && (forall j :: 0 <= j < k ==> LayerProbe(doc, tags[j]).Absent?)
                                    ==> !LayerProbe(doc, tags[k]).Found?
  {
    FirstFoundShift(tags, tags[1..], (t: Tag) => LayerProbe(doc, t), r);
  }

  /** The first position of `xs` whose probe is not absent, and what it
      found, carry over from all but the first element when the first one's
      probe is absent. */
  lemma FirstFoundShift<T>(xs: seq<T>, rest: seq<T>, probe: T -> Probe, r: Option<int>)
    requires |xs| > 0 && rest == xs[1..] && probe(xs[0]).Absent?
    requires r.Some? ==> exists k :: 0 <= k < |rest| && probe(rest[k]) == Found(r.value)
                                     && forall j :: 0 <= j < k ==> probe(rest[j]).Absent?
    requires r.None? ==> forall k :: 0 <= k < |rest| && (forall j :: 0 <= j < k ==> probe(rest[j]).Absent?)
                                     ==> !probe(rest[k]).Found?
    ensures r.Some? ==> exists k :: 0 <= k < |xs| && probe(xs[k]) == Found(r.value)
                                    && forall j :: 0 <= j < k ==> probe(xs[j]).Absent?
    ensures r.None? ==> forall k :: 0 <= k < |xs| && (forall j :: 0 <= j < k ==> probe(xs[j]).Absent?)
                                    ==> !probe(xs[k]).Found?
  {
    if r.Some? {
      var k :| 0 <= k < |rest| && probe(rest[k]) == Found(r.value)
               && forall j :: 0 <= j < k ==> probe(rest[j]).Absent?;
      forall j | 0 <= j < k + 1 ensures probe(xs[j]).Absent? {
        if j > 0 { assert xs[j] == rest[j - 1]; }
      }
      assert xs[k + 1] == rest[k];
    } else {
      forall k | 0 <= k < |xs| && (forall j :: 0 <= j < k ==> probe(xs[j]).Absent?)
        ensures !probe(xs[k]).Found?
      {
        if k > 0 {
          forall j | 0 <= j < k - 1 ensures probe(rest[j]).Absent? {
            assert rest[j] == xs[j + 1];
          }
          assert xs[k] == rest[k - 1];
        }
      }
    }
  }

  /** `get_revenue_from_facts`: the response's document through the waterfall. */
  function GetRevenueFromFacts(response: Option<Doc>): (r: Option<int>)
    ensures response.None? ==> r.None?
    ensures response.Some? ==> r == LayerWaterfall(response.value, LayerTags)
  {
    match response
    case None => None
    case Some(doc) => LayerWaterfall(doc, LayerTags)
  }

  /** An empty `USD` list on the first tag that is present ends the search with
      `None`: the tags after it are never tried, whatever they hold. */
  lemma {:induction false} EmptyUsdListStopsSearch(doc: Doc, tags: seq<Tag>, k: nat)
    requires k < |tags| && UsdPoints(doc, tags[k]) == Some([])
    requires forall j :: 0 <= j < k ==> UsdPoints(doc, tags[j]).None?
    ensures LayerWaterfall(doc, tags) == None
  {
    if k > 0 {
      assert forall j :: 0 <= j < k - 1 ==> tags[1..][j] == tags[j + 1];
      EmptyUsdListStopsSearch(doc, tags[1..], k - 1);
    }
  }

  /** A present tag whose latest point reports `0` yields `Some(0)`: the
      layer does not skip falsy values. */
  lemma {:induction false} ZeroIsReturned(doc: Doc, tags: seq<Tag>, k: nat)
    requires k < |tags| && LayerProbe(doc, tags[k]) == Found(0)
    requires forall j :: 0 <= j < k ==> UsdPoints(doc, tags[j]).None?
    ensures LayerWaterfall(doc, tags) == Some(0)
  {
    if k > 0 {
      assert forall j :: 0 <= j < k - 1 ==> tags[1..][j] == tags[j + 1];
      ZeroIsReturned(doc, tags[1..], k - 1);
    }
  }

  // =====================================================================
  // run_layer: the ticker-keyed revenue update
  // =====================================================================

  /** A row of the table run_layer reads and writes: `name` stands for every
      column the layer neither reads nor writes; `revenue` is a nullable REAL. */
  datatype Record = Record(cik: int, ticker: string, name: string, revenue: Option<int>)

  /** `UPDATE ticker_event_log SET revenue = ? WHERE ticker = ?`. */
  function SetRevenueWhere(rows: seq<Record>, ticker: string, rev: int): (r: seq<Record>)
    ensures |r| == |rows|
    ensures forall i :: 0 <= i < |rows| && rows[i].ticker == ticker ==> r[i] == rows[i].(revenue := Some(rev))
    ensures forall i :: 0 <= i < |rows| && rows[i].ticker != ticker ==> r[i] == rows[i]
  {
    seq(|rows|, i requires 0 <= i < |rows| =>
      if rows[i].ticker == ticker then rows[i].(revenue := Some(rev)) else rows[i])
  }

  /** `if rev:` on the waterfall's result. */
  predicate TruthyRevenue(rev: Option<int>)
  {
    rev.Some? && rev.value != 0
  }

  /** The table after processing the selected `(ticker, cik)` pairs in order
      (engine/extract_revenue.py:58-61). */
  function LayerPass(rows: seq<Record>, selected: seq<Record>, fetch: int -> Option<Doc>): (r: seq<Record>)
    ensures |r| == |rows|
    ensures forall i :: 0 <= i < |rows| ==> r[i].cik == rows[i].cik && r[i].ticker == rows[i].ticker
                                            && r[i].name == rows[i].name
  {
    if |selected| == 0 then rows
    else
      var before := LayerPass(rows, selected[..|selected| - 1], fetch);
      var s := selected[|selected| - 1];
      var rev := GetRevenueFromFacts(fetch(s.cik));
      if TruthyRevenue(rev) then SetRevenueWhere(before, s.ticker, rev.value) else before
  }

  /** The selected row `s` writes a revenue to the rows with `ticker`. */
  predicate Writes(s: Record, ticker: string, fetch: int -> Option<Doc>)
  {
    s.ticker == ticker && TruthyRevenue(GetRevenueFromFacts(fetch(s.cik)))
  }

  /** The revenue the last selected row with this ticker and a truthy
      revenue contributes, if any. */
  function LastRevenueFor(selected: seq<Record>, ticker: string, fetch: int -> Option<Doc>): (r: Option<int>)
    ensures r.Some? ==> r.value != 0
  {
    if |selected| == 0 then None
    else
      var s := selected[|selected| - 1];
      var rev := GetRevenueFromFacts(fetch(s.cik));
      if s.ticker == ticker && TruthyRevenue(rev) then rev
      else LastRevenueFor(selected[..|selected| - 1], ticker, fetch)
  }

  /** `LastRevenueFor` is the revenue of the LAST selected row that writes
      to the ticker, and `None` exactly when no selected row does. */
  lemma {:induction false} LastRevenueForIsLast(selected: seq<Record>, ticker: string, fetch: int -> Option<Doc>)
    ensures LastRevenueFor(selected, ticker, fetch).None? <==> forall i :: 0 <= i < |selected| ==> !Writes(selected[i], ticker, fetch)
    ensures LastRevenueFor(selected, ticker, fetch).Some? ==>
              exists i :: 0 <= i < |selected| && Writes(selected[i], ticker, fetch)
                          && GetRevenueFromFacts(fetch(selected[i].cik)) == LastRevenueFor(selected, ticker, fetch)
                          && forall j :: i < j < |selected| ==> !Writes(selected[j], ticker, fetch)
  {
    if |selected| > 0 && !Writes(selected[|selected| - 1], ticker, fetch) {
      var init := selected[..|selected| - 1];
      LastRevenueForIsLast(init, ticker, fetch);
      LastMatchShift(selected, init, (x: Record) => Writes(x, ticker, fetch),
                     (x: Record) => GetRevenueFromFacts(fetch(x.cik)), LastRevenueFor(init, ticker, fetch));
    }
  }

  /** The last position of `xs` that satisfies `ok`, and its `val`, carry
      over from all but the last element when the last one fails `ok`. */
  lemma LastMatchShift<T>(xs: seq<T>, init: seq<T>, ok: T -> bool, val: T -> Option<int>, r: Option<int>)
    requires |xs| > 0 && init == xs[..|xs| - 1] && !ok(xs[|xs| - 1])
    requires r.None? <==> forall i :: 0 <= i < |init| ==> !ok(init[i])
    requires r.Some? ==> exists i :: 0 <= i < |init| && ok(init[i]) && val(init[i]) == r
                                     && forall j :: i < j < |init| ==> !ok(init[j])
    ensures r.None? <==> forall i :: 0 <= i < |xs| ==> !ok(xs[i])
    ensures r.Some? ==> exists i :: 0 <= i < |xs| && ok(xs[i]) && val(xs[i]) == r
                                    && forall j :: i < j < |xs| ==> !ok(xs[j])
  {
    if r.Some? {
      var i :| 0 <= i < |init| && ok(init[i]) && val(init[i]) == r
               && forall j :: i < j < |init| ==> !ok(init[j]);
      assert xs[i] == init[i];
      forall j | i < j < |xs| ensures !ok(xs[j]) {
        if j < |init| { assert xs[j] == init[j]; }
      }
    } else {
      forall i | 0 <= i < |xs| ensures !ok(xs[i]) {
        if i < |init| { assert xs[i] == init[i]; }
      }
    }
  }

  /** What a whole pass does to each row: its revenue becomes the one of the
      last processed row that shares its ticker and had a truthy revenue;
      rows without such a partner, and every other column, are unchanged. */
  lemma {:induction false} LayerPassEffect(rows: seq<Record>, selected: seq<Record>, fetch: int -> Option<Doc>)
    ensures |LayerPass(rows, selected, fetch)| == |rows|
    ensures forall i :: 0 <= i < |rows| ==>
              LayerPass(rows, selected, fetch)[i]
              == match LastRevenueFor(selected, rows[i].ticker, fetch)
                 case None => rows[i]
                 case Some(v) => rows[i].(revenue := Some(v))
  {
    if |selected| > 0 {
      LayerPassEffect(rows, selected[..|selected| - 1], fetch);
    }
  }

  /** The table run_layer updates. */
  class RevenueTable {
    var rows: seq<Record>

    constructor (initial: seq<Record>)
      ensures rows == initial
    {
      rows := initial;
    }

    method SetRevenue(ticker: string, rev: int)
      modifies this
      ensures rows == SetRevenueWhere(old(rows), ticker, rev)
    {
      rows := SetRevenueWhere(rows, ticker, rev);
    }

    /** `run_layer` (engine/extract_revenue.py:53-61): select every row, then
        for each selected row fetch its facts and, when the waterfall gives a
        truthy value, write it to every row with the same ticker. */
    method RunLayer(fetch: int -> Option<Doc>)
      modifies this
      ensures rows == LayerPass(old(rows), old(rows), fetch)
    {
      var selected := rows;
      var i := 0;
      while i < |selected|
        invariant 0 <= i <= |selected|
        invariant rows == LayerPass(selected, selected[..i], fetch)
      {
        assert selected[..i + 1][..i] == selected[..i];
        var s := selected[i];
        var rev := GetRevenueFromFacts(fetch(s.cik));
        if rev.Some? && rev.value != 0 {
          SetRevenue(s.ticker, rev.value);
        }
        i := i + 1;
      }
      assert selected[..i] == selected;
    }
  }
}
