/** The ticker event log of update_tickers.py: each run compares every
    company of the SEC registry snapshot with the latest logged event for
    its CIK, classifies the difference, and appends at most one event per
    CIK; a read-only projection lists the latest active event of every CIK
    ordered by ticker. The snapshot and the run's clock reading are inputs;
    timestamps are integers ordered like the `'%Y-%m-%d %H:%M:%S'` strings. */
module EventLog {
  import opened Opt
  import opened Text

  // =====================================================================
  // Data
  // =====================================================================

  /** One value of the registry JSON: `{cik_str, ticker, title}`. */
  datatype Listing = Listing(cik: int, ticker: string, title: string)

  /** The `ai_research` column: one constant text per kind of change. */
  datatype Note = NoNote | RebrandNote | TickerNote | NameNote

  /** A row of `ticker_event_log`; its position in the log is its `id`. */
  datatype Event = Event(cik: int, ticker: string, name: string, scenario: string,
                         note: Note, isActive: int, timestamp: int)

  /** The kinds of change the classification chain distinguishes. */
  datatype Scenario =
    | Baseline
    | NewListing
    | Rebrand(from: string, to: string)
    | TickerChange(from: string, to: string)
    | NameChange(from: string, to: string)

  /** The `event_scenario` text. */
  function Render(s: Scenario): string
  {
    match s
    case Baseline => "-"
    case NewListing => "NEW_LISTING"
    case Rebrand(a, b) => "REBRAND: " + a + " \U{2192} " + b
    case TickerChange(a, b) => "TICKER_CHANGE: " + a + " \U{2192} " + b
    case NameChange(a, b) => "NAME_CHANGE: " + a + " \U{2192} " + b
  }

  /** A change reads as its label, the old value, an arrow and the new
      value; a first sighting has no space in it. */
  lemma RenderShape(s: Scenario)
    ensures s.Baseline? || s.NewListing? ==> ' ' !in Render(s)
    ensures !(s.Baseline? || s.NewListing?) ==>
              var r := Render(s);
              && |r| >= |s.from| + 3 + |s.to|
              && r[|r| - |s.to|..] == s.to
              && r[|r| - |s.to| - 3..|r| - |s.to|] == " \U{2192} "
              && r[|r| - |s.to| - 3 - |s.from|..|r| - |s.to| - 3] == s.from
  {
  }

  /** Each kind renders under its own label, so the text tells the kinds apart. */
  lemma RenderLabels(s: Scenario)
    ensures s.Baseline? <==> Render(s) == "-"
    ensures s.NewListing? <==> Render(s) == "NEW_LISTING"
    ensures s.Rebrand? <==> |Render(s)| >= 9 && Render(s)[..9] == "REBRAND: "
    ensures s.TickerChange? <==> |Render(s)| >= 15 && Render(s)[..15] == "TICKER_CHANGE: "
    ensures s.NameChange? <==> |Render(s)| >= 13 && Render(s)[..13] == "NAME_CHANGE: "
  {
    var r := Render(s);
    match s
    case Baseline =>
    case NewListing =>
      assert r[0] == 'N' && r[1] == 'E';
    case Rebrand(a, b) =>
      assert r[..9] == "REBRAND: ";
      assert r[0] == 'R' && r[1] == 'E';
    case TickerChange(a, b) =>
      assert r[..15] == "TICKER_CHANGE: ";
      assert r[0] == 'T';
    case NameChange(a, b) =>
      assert r[..13] == "NAME_CHANGE: ";
      assert r[0] == 'N' && r[1] == 'A';
  }

  /** The `ai_note`: none for a first sighting, and one note per kind of change. */
  function NoteFor(s: Scenario): (r: Note)
    ensures r == NoNote <==> s.Baseline? || s.NewListing?
    ensures r == RebrandNote <==> s.Rebrand?
    ensures r == TickerNote <==> s.TickerChange?
    ensures r == NameNote <==> s.NameChange?
  {
    match s
    case Baseline => NoNote
    case NewListing => NoNote
    case Rebrand(_, _) => RebrandNote
    case TickerChange(_, _) => TickerNote
    case NameChange(_, _) => NameNote
  }

  // =====================================================================
  // The snapshot keyed by CIK: `{item['cik_str']: item for item in data.values()}`
  // =====================================================================

  function CikSet(s: seq<Listing>): set<int>
  {
    set x | x in s :: x.cik
  }

  predicate DistinctCiks(s: seq<Listing>)
  {
    forall i, j :: 0 <= i < j < |s| ==> s[i].cik != s[j].cik
  }

  /** The last item of `items` with this CIK: the value a dict keeps. */
  function LastWithCik(items: seq<Listing>, cik: int): (r: Option<Listing>)
    ensures r.None? <==> forall i :: 0 <= i < |items| ==> items[i].cik != cik
    ensures r.Some? ==> exists i :: 0 <= i < |items| && items[i] == r.value && r.value.cik == cik
                                    && forall j :: i < j < |items| ==> items[j].cik != cik
    ensures r.Some? ==> r.value in items
  {
    if |items| == 0 then None
    else if items[|items| - 1].cik == cik then Some(items[|items| - 1])
    else
      var r := LastWithCik(items[..|items| - 1], cik);
      LastWithCikShift(items, items[..|items| - 1], cik, r);
      r
  }

  /** The contract of `LastWithCik` carries over from all but the last item
      to the whole list when the last item has another CIK. */
  lemma LastWithCikShift(items: seq<Listing>, init: seq<Listing>, cik: int, r: Option<Listing>)
    requires |items| > 0 && init == items[..|items| - 1] && items[|items| - 1].cik != cik
    requires r.None? <==> forall i :: 0 <= i < |init| ==> init[i].cik != cik
    requires r.Some? ==> exists i :: 0 <= i < |init| && init[i] == r.value && r.value.cik == cik
                                     && forall j :: i < j < |init| ==> init[j].cik != cik
    ensures r.None? <==> forall i :: 0 <= i < |items| ==> items[i].cik != cik
    ensures r.Some? ==> exists i :: 0 <= i < |items| && items[i] == r.value && r.value.cik == cik
                                    && forall j :: i < j < |items| ==> items[j].cik != cik
    ensures r.Some? ==> r.value in items
  {
    if r.Some? {
      var i :| 0 <= i < |init| && init[i] == r.value && r.value.cik == cik
               && forall j :: i < j < |init| ==> init[j].cik != cik;
      assert items[i] == init[i];
      forall j | i < j < |items| ensures items[j].cik != cik {
        if j < |init| { assert items[j] == init[j]; }
      }
    } else {
      forall i | 0 <= i < |items| ensures items[i].cik != cik {
        if i < |init| { assert items[i] == init[i]; }
      }
    }
  }

  lemma CikSetCons(x: Listing, s: seq<Listing>)
    ensures CikSet([x] + s) == {x.cik} + CikSet(s)
  {
    assert forall y :: y in [x] + s <==> y == x || y in s;
  }

  /** The tail of a list with distinct CIKs has distinct CIKs, none of them the head's. */
  lemma DistinctTail(d: seq<Listing>)
    requires |d| > 0
    ensures DistinctCiks(d) ==> DistinctCiks(d[1..]) && forall y :: y in d[1..] ==> y.cik != d[0].cik
  {
    if DistinctCiks(d) {
      forall y | y in d[1..] ensures y.cik != d[0].cik {
        var k :| 0 <= k < |d[1..]| && d[1..][k] == y;
        assert d[k + 1] == y;
      }
    }
  }

  lemma DistinctCons(x: Listing, s: seq<Listing>)
    ensures DistinctCiks(s) && (forall y :: y in s ==> y.cik != x.cik) ==> DistinctCiks([x] + s)
  {
    if DistinctCiks(s) && (forall y :: y in s ==> y.cik != x.cik) {
      var r := [x] + s;
      forall i, j | 0 <= i < j < |r| ensures r[i].cik != r[j].cik {
        if i == 0 { assert r[j] in s; }
        else { assert r[i] == s[i - 1] && r[j] == s[j - 1]; }
      }
    }
  }

  /** `d[x.cik] = x`: replace the entry with that key in place, or append. */
  function Put(d: seq<Listing>, x: Listing): (r: seq<Listing>)
    ensures CikSet(r) == CikSet(d) + {x.cik}
    ensures x in r
    ensures DistinctCiks(d) ==> forall y :: y in r ==> y == x || (y in d && y.cik != x.cik)
    ensures DistinctCiks(d) ==> DistinctCiks(r)
  {
    if |d| == 0 then [x]
    else
      var tail := d[1..];
      assert d == [d[0]] + tail;
      CikSetCons(d[0], tail);
      DistinctTail(d);
      if d[0].cik == x.cik then
        CikSetCons(x, tail);
        DistinctCons(x, tail);
        [x] + tail
      else
        var rest := Put(tail, x);
        CikSetCons(d[0], rest);
        DistinctCons(d[0], rest);
        [d[0]] + rest
  }

  /** The dict comprehension: one entry per CIK, holding the last item with
      that CIK. */
  function KeyByCik(items: seq<Listing>): (d: seq<Listing>)
    ensures DistinctCiks(d)
    ensures CikSet(d) == CikSet(items)
    ensures forall y :: y in d ==> LastWithCik(items, y.cik) == Some(y)
  {
    if |items| == 0 then []
    else
      var init := items[..|items| - 1];
      var last := items[|items| - 1];
      var d0 := KeyByCik(init);
      assert items == init + [last];
      assert CikSet(items) == CikSet(init) + {last.cik};
      Put(d0, last)
  }

  /** `d[x.cik] = x` never moves an entry: an existing key keeps its place,
      and a new key goes at the end. */
  lemma PutKeepsPositions(d: seq<Listing>, x: Listing)
    ensures |Put(d, x)| == if x.cik in CikSet(d) then |d| else |d| + 1
    ensures forall i :: 0 <= i < |d| ==> Put(d, x)[i].cik == d[i].cik
    ensures x.cik !in CikSet(d) ==> Put(d, x)[|d|] == x
  {
    PutLength(d, x);
    PutPositions(d, x);
    if x.cik !in CikSet(d) {
      PutNewAtEnd(d, x);
    }
  }

  lemma {:induction false} PutLength(d: seq<Listing>, x: Listing)
    ensures |Put(d, x)| == if x.cik in CikSet(d) then |d| else |d| + 1
  {
    if |d| > 0 {
      var tail := d[1..];
      assert x.cik in CikSet(d) <==> d[0].cik == x.cik || x.cik in CikSet(tail) by {
        assert d == [d[0]] + tail;
        CikSetCons(d[0], tail);
      }
      if d[0].cik != x.cik {
        PutLength(tail, x);
      }
    }
  }

  lemma {:induction false} PutPositions(d: seq<Listing>, x: Listing)
    ensures |Put(d, x)| >= |d|
    ensures forall i :: 0 <= i < |d| ==> Put(d, x)[i].cik == d[i].cik
  {
    if |d| > 0 {
      var tail := d[1..];
      assert d == [d[0]] + tail;
      if d[0].cik == x.cik {
        assert Put(d, x) == [x] + tail;
        ConsPositions(x, d[0], tail, tail);
      } else {
        PutPositions(tail, x);
        assert Put(d, x) == [d[0]] + Put(tail, x);
        ConsPositions(d[0], d[0], Put(tail, x), tail);
      }
    }
  }

  /** Position-wise equal CIKs survive putting heads with equal CIKs in front. */
  lemma ConsPositions(h: Listing, g: Listing, r: seq<Listing>, t: seq<Listing>)
    requires h.cik == g.cik && |r| >= |t|
    requires forall i :: 0 <= i < |t| ==> r[i].cik == t[i].cik
    ensures |[h] + r| >= |[g] + t|
    ensures forall i :: 0 <= i < |[g] + t| ==> ([h] + r)[i].cik == ([g] + t)[i].cik
  {
    forall i | 0 <= i < |[g] + t| ensures ([h] + r)[i].cik == ([g] + t)[i].cik {
      if i > 0 { assert ([h] + r)[i] == r[i - 1] && ([g] + t)[i] == t[i - 1]; }
    }
  }

  lemma {:induction false} PutNewAtEnd(d: seq<Listing>, x: Listing)
    requires forall i :: 0 <= i < |d| ==> d[i].cik != x.cik
    ensures |Put(d, x)| == |d| + 1 && Put(d, x)[|d|] == x
  {
    if |d| > 0 {
      var tail := d[1..];
      PutNewAtEnd(tail, x);
      assert Put(d, x) == [d[0]] + Put(tail, x);
    }
  }

  /** The CIKs of `items`, each once, in the order of their first occurrence. */
  function FirstCiks(items: seq<Listing>): seq<int>
  {
    if |items| == 0 then []
    else
      var init := items[..|items| - 1];
      var last := items[|items| - 1];
      FirstCiks(init) + (if last.cik in CikSet(init) then [] else [last.cik])
  }

  /** A dict keeps its keys in insertion order: the keyed snapshot lists its
      CIKs in the order they first occur in the registry. */
  lemma {:induction false} KeyByCikOrder(items: seq<Listing>)
    ensures |KeyByCik(items)| == |FirstCiks(items)|
    ensures forall i :: 0 <= i < |KeyByCik(items)| ==> KeyByCik(items)[i].cik == FirstCiks(items)[i]
  {
    if |items| > 0 {
      var init := items[..|items| - 1];
      var last := items[|items| - 1];
      KeyByCikOrder(init);
      var d0 := KeyByCik(init);
      var isNew := last.cik !in CikSet(init);
      assert CikSet(d0) == CikSet(init);
      PutKeepsPositions(d0, last);
      assert KeyByCik(items) == Put(d0, last);
      assert FirstCiks(items) == FirstCiks(init) + (if isNew then [last.cik] else []);
      OrderSnoc(d0, FirstCiks(init), Put(d0, last), last, isNew);
    }
  }

  /** Position-wise agreement of CIKs survives one more `Put`. */
  lemma OrderSnoc(d0: seq<Listing>, f0: seq<int>, r: seq<Listing>, x: Listing, isNew: bool)
    requires |d0| == |f0| && forall i :: 0 <= i < |d0| ==> d0[i].cik == f0[i]
    requires |r| == (if isNew then |d0| + 1 else |d0|)
    requires forall i :: 0 <= i < |d0| ==> r[i].cik == d0[i].cik
    requires isNew ==> r[|d0|] == x
    ensures var f := f0 + (if isNew then [x.cik] else []);
            |r| == |f| && forall i :: 0 <= i < |r| ==> r[i].cik == f[i]
  {
  }

  // =====================================================================
  // The latest event of a CIK
  // =====================================================================

  /** `SELECT ... WHERE cik = ? ORDER BY timestamp DESC LIMIT 1`, as a
      position: an event of this CIK with the greatest timestamp; among
      equal timestamps, which SQLite leaves unspecified, the one appended
      last. */
  function LatestIndex(log: seq<Event>, cik: int): (r: Option<nat>)
    ensures r.None? <==> forall j :: 0 <= j < |log| ==> log[j].cik != cik
    ensures r.Some? ==> r.value < |log| && log[r.value].cik == cik
    ensures r.Some? ==> forall j :: 0 <= j < |log| && log[j].cik == cik ==> log[j].timestamp <= log[r.value].timestamp
    ensures r.Some? ==> forall j :: r.value < j < |log| && log[j].cik == cik ==> log[j].timestamp < log[r.value].timestamp
  {
    if |log| == 0 then None
    else
      var init := log[..|log| - 1];
      var e := log[|log| - 1];
      var r := LatestIndex(init, cik);
      assert forall j :: 0 <= j < |init| ==> log[j] == init[j];
      if e.cik == cik && (r.None? || init[r.value].timestamp <= e.timestamp) then Some(|log| - 1) else r
  }

  function Latest(log: seq<Event>, cik: int): (r: Option<Event>)
    ensures r.None? <==> forall e :: e in log ==> e.cik != cik
    ensures r.Some? ==> r.value in log && r.value.cik == cik
    ensures r.Some? ==> forall e :: e in log && e.cik == cik ==> e.timestamp <= r.value.timestamp
  {
    match LatestIndex(log, cik)
    case None => None
    case Some(i) => Some(log[i])
  }

  /** The conditions on `LatestIndex` single out one position. */
  lemma LatestIndexUnique(log: seq<Event>, cik: int, q: nat)
    requires q < |log| && log[q].cik == cik
    requires forall j :: 0 <= j < |log| && log[j].cik == cik ==> log[j].timestamp <= log[q].timestamp
    requires forall j :: q < j < |log| && log[j].cik == cik ==> log[j].timestamp < log[q].timestamp
    ensures LatestIndex(log, cik) == Some(q)
  {
    var r := LatestIndex(log, cik);
    assert r.Some?;
  }

  /** Events of other CIKs never change which event is the latest of a CIK. */
  lemma {:induction false} LatestIgnoresOtherCiks(log: seq<Event>, extra: seq<Event>, cik: int)
    requires forall e :: e in extra ==> e.cik != cik
    ensures LatestIndex(log + extra, cik) == LatestIndex(log, cik)
    ensures Latest(log + extra, cik) == Latest(log, cik)
  {
    if |extra| > 0 {
      var init := extra[..|extra| - 1];
      assert (log + extra)[..|log + extra| - 1] == log + init;
      LatestIgnoresOtherCiks(log, init, cik);
    } else {
      assert log + extra == log;
    }
  }

  /** An appended event that is the only one of its CIK among the appended,
      and no older than any logged event of its CIK, becomes the latest. */
  lemma LatestIsNewcomer(log: seq<Event>, extra: seq<Event>, q: nat)
    requires q < |extra|
    requires forall j :: 0 <= j < |extra| && extra[j].cik == extra[q].cik ==> j == q
    requires forall e :: e in log && e.cik == extra[q].cik ==> e.timestamp <= extra[q].timestamp
    ensures Latest(log + extra, extra[q].cik) == Some(extra[q])
  {
    var full := log + extra;
    var p := |log| + q;
    assert full[p] == extra[q];
    forall j | 0 <= j < |full| && full[j].cik == extra[q].cik
      ensures full[j].timestamp <= full[p].timestamp
    {
      if j < |log| { assert full[j] == log[j]; } else { assert full[j] == extra[j - |log|]; }
    }
    assert forall j :: |log| <= j < |full| ==> full[j] == extra[j - |log|];
    LatestIndexUnique(full, extra[q].cik, p);
  }

  // =====================================================================
  // Classification (update_tickers.py:51-67)
  // =====================================================================

  /** The if/elif chain. `ticker` is already upper-cased; `logWasEmpty` is
      sampled once, before the loop. */
  function Classify(latest: Option<Event>, ticker: string, name: string, logWasEmpty: bool): (r: Option<Scenario>)
    ensures r.None? <==> latest.Some? && latest.value.ticker == ticker && latest.value.name == name
  {
    if latest.None? then Some(if logWasEmpty then Baseline else NewListing)
    else if latest.value.ticker != ticker then
      if ticker == "DCH" && Contains(Upper(name), "DAUCH") then Some(Rebrand(latest.value.ticker, ticker))
      else Some(TickerChange(latest.value.ticker, ticker))
    else if latest.value.name != name then Some(NameChange(latest.value.name, name))
    else None
  }

  /** A CIK without a prior event is a baseline exactly when the log was
      empty before the run, and a new listing otherwise. */
  lemma ClassifyFirstSighting(ticker: string, name: string, logWasEmpty: bool)
    ensures Classify(None, ticker, name, logWasEmpty) == Some(Baseline) <==> logWasEmpty
    ensures Classify(None, ticker, name, logWasEmpty) == Some(NewListing) <==> !logWasEmpty
  {
  }

  /** A ticker difference wins over a name difference: the scenario is a
      rebrand exactly when the new ticker is `DCH` and the upper-cased name
      contains `DAUCH`, and a ticker change otherwise; both carry the old
      and the new ticker. */
  lemma ClassifyTickerFirst(latest: Event, ticker: string, name: string, logWasEmpty: bool)
    requires latest.ticker != ticker
    ensures Classify(Some(latest), ticker, name, logWasEmpty)
            == Some(Rebrand(latest.ticker, ticker))
            <==> ticker == "DCH" && exists i :: OccursAt(Upper(name), "DAUCH", i)
    ensures Classify(Some(latest), ticker, name, logWasEmpty)
            == Some(TickerChange(latest.ticker, ticker))
            <==> !(ticker == "DCH" && exists i :: OccursAt(Upper(name), "DAUCH", i))
  {
  }

  /** A name change is reported exactly when the ticker is unchanged and the
      name differs, with the old and the new name. */
  lemma ClassifyNameChange(latest: Option<Event>, ticker: string, name: string, logWasEmpty: bool)
    ensures (exists a, b :: Classify(latest, ticker, name, logWasEmpty) == Some(NameChange(a, b)))
            <==> latest.Some? && latest.value.ticker == ticker && latest.value.name != name
    ensures latest.Some? && latest.value.ticker == ticker && latest.value.name != name ==>
              Classify(latest, ticker, name, logWasEmpty) == Some(NameChange(latest.value.name, name))
  {
    if latest.Some? && latest.value.ticker == ticker && latest.value.name != name {
      assert Classify(latest, ticker, name, logWasEmpty) == Some(NameChange(latest.value.name, name));
    }
  }

  // =====================================================================
  // One run (update_tickers.py:30-75)
  // =====================================================================

  /** The event the loop body appends for `x`, if any. */
  function EventFor(log: seq<Event>, x: Listing, logWasEmpty: bool, now: int): (r: Option<Event>)
    ensures r.Some? ==> r.value.cik == x.cik && r.value.ticker == Upper(x.ticker) && r.value.name == x.title
                        && r.value.isActive == 1 && r.value.timestamp == now
    ensures r.None? <==> Latest(log, x.cik).Some? && Latest(log, x.cik).value.ticker == Upper(x.ticker)
                         && Latest(log, x.cik).value.name == x.title
    ensures r.Some? ==> var c := Classify(Latest(log, x.cik), Upper(x.ticker), x.title, logWasEmpty);
                        c.Some? && r.value.scenario == Render(c.value) && r.value.note == NoteFor(c.value)
  {
    var ticker := Upper(x.ticker);
    match Classify(Latest(log, x.cik), ticker, x.title, logWasEmpty)
    case None => None
    case Some(s) => Some(Event(x.cik, ticker, x.title, Render(s), NoteFor(s), 1, now))
  }

  /** The events a run appends for the keyed snapshot `incoming`, each
      classified against the log `log` as it was before the run. */
  function Planned(log: seq<Event>, incoming: seq<Listing>, logWasEmpty: bool, now: int): (p: seq<Event>)
    ensures |p| <= |incoming|
    ensures forall e :: e in p ==> e.cik in CikSet(incoming) && e.isActive == 1 && e.timestamp == now
  {
    if |incoming| == 0 then []
    else
      var init := incoming[..|incoming| - 1];
      var x := incoming[|incoming| - 1];
      assert incoming == init + [x];
      assert CikSet(incoming) == CikSet(init) + {x.cik};
      Planned(log, init, logWasEmpty, now) + AsSeq(EventFor(log, x, logWasEmpty, now))
  }

  function AsSeq(o: Option<Event>): (r: seq<Event>)
    ensures forall e :: e in r <==> o == Some(e)
  {
    match o
    case None => []
    case Some(e) => [e]
  }

  /** Planning one more listing appends its own event, if any. */
  lemma PlannedStep(log: seq<Event>, incoming: seq<Listing>, logWasEmpty: bool, now: int, i: nat)
    requires i < |incoming|
    ensures Planned(log, incoming[..i + 1], logWasEmpty, now)
            == Planned(log, incoming[..i], logWasEmpty, now) + AsSeq(EventFor(log, incoming[i], logWasEmpty, now))
  {
    var s := incoming[..i + 1];
    assert s[..|s| - 1] == incoming[..i];
  }

  /** With distinct CIKs, nothing planned before position `i` is of the CIK at `i`. */
  lemma PlannedAvoids(log: seq<Event>, incoming: seq<Listing>, logWasEmpty: bool, now: int, i: nat)
    requires DistinctCiks(incoming) && i < |incoming|
    ensures forall e :: e in Planned(log, incoming[..i], logWasEmpty, now) ==> e.cik != incoming[i].cik
  {
    assert incoming[i].cik !in CikSet(incoming[..i]) by {
      forall y | y in incoming[..i] ensures y.cik != incoming[i].cik {
        var k :| 0 <= k < i && incoming[k] == y;
      }
    }
  }

  /** One iteration of the run: the listing at `i`, classified against the
      log grown by the events planned before it, appends what planning it
      against the log before the run would. */
  lemma RunStep(log: seq<Event>, incoming: seq<Listing>, logWasEmpty: bool, now: int, i: nat)
    requires DistinctCiks(incoming) && i < |incoming|
    ensures log + Planned(log, incoming[..i + 1], logWasEmpty, now)
            == (log + Planned(log, incoming[..i], logWasEmpty, now))
               + AsSeq(EventFor(log + Planned(log, incoming[..i], logWasEmpty, now), incoming[i], logWasEmpty, now))
  {
    var done := Planned(log, incoming[..i], logWasEmpty, now);
    var next := AsSeq(EventFor(log, incoming[i], logWasEmpty, now));
    PlannedStep(log, incoming, logWasEmpty, now, i);
    PlannedAvoids(log, incoming, logWasEmpty, now, i);
    EventForIgnoresOtherCiks(log, done, incoming[i], logWasEmpty, now);
    assert log + (done + next) == (log + done) + next;
  }

  /** `EventFor` only looks at the latest event of the listing's CIK. */
  lemma EventForIgnoresOtherCiks(log: seq<Event>, extra: seq<Event>, x: Listing, logWasEmpty: bool, now: int)
    requires forall e :: e in extra ==> e.cik != x.cik
    ensures EventFor(log + extra, x, logWasEmpty, now) == EventFor(log, x, logWasEmpty, now)
  {
    LatestIgnoresOtherCiks(log, extra, x.cik);
  }

  predicate DistinctEventCiks(s: seq<Event>)
  {
    forall i, j :: 0 <= i < j < |s| ==> s[i].cik != s[j].cik
  }

  /** A run appends at most one event per CIK: the snapshot is keyed by CIK. */
  lemma {:induction false} PlannedOnePerCik(log: seq<Event>, incoming: seq<Listing>, logWasEmpty: bool, now: int)
    requires DistinctCiks(incoming)
    ensures DistinctEventCiks(Planned(log, incoming, logWasEmpty, now))
  {
    if |incoming| > 0 {
      var init := incoming[..|incoming| - 1];
      var x := incoming[|incoming| - 1];
      assert DistinctCiks(init);
      PlannedOnePerCik(log, init, logWasEmpty, now);
      assert x.cik !in CikSet(init);
      var p0 := Planned(log, init, logWasEmpty, now);
      var p := Planned(log, incoming, logWasEmpty, now);
      forall i, j | 0 <= i < j < |p| ensures p[i].cik != p[j].cik {
        if j < |p0| {
          assert p[i] == p0[i] && p[j] == p0[j];
        } else {
          assert p[i] == p0[i] && p0[i] in p0;
        }
      }
    }
  }

  /** Every event of `x` that `EventFor` produces is among the planned ones. */
  lemma {:induction false} PlannedContains(log: seq<Event>, incoming: seq<Listing>, logWasEmpty: bool, now: int, i: nat)
    requires i < |incoming|
    requires EventFor(log, incoming[i], logWasEmpty, now).Some?
    ensures EventFor(log, incoming[i], logWasEmpty, now).value in Planned(log, incoming, logWasEmpty, now)
  {
    var init := incoming[..|incoming| - 1];
    if i < |incoming| - 1 {
      assert incoming[i] == init[i];
      PlannedContains(log, init, logWasEmpty, now, i);
    }
  }

  /** Nothing is planned for a CIK whose `EventFor` is `None`, or for a CIK
      outside the snapshot. */
  lemma {:induction false} PlannedOnlyFor(log: seq<Event>, incoming: seq<Listing>, logWasEmpty: bool, now: int)
    ensures forall e :: e in Planned(log, incoming, logWasEmpty, now) ==>
              exists i :: 0 <= i < |incoming| && EventFor(log, incoming[i], logWasEmpty, now) == Some(e)
  {
    if |incoming| > 0 {
      var init := incoming[..|incoming| - 1];
      PlannedOnlyFor(log, init, logWasEmpty, now);
      forall e | e in Planned(log, incoming, logWasEmpty, now)
        ensures exists i :: 0 <= i < |incoming| && EventFor(log, incoming[i], logWasEmpty, now) == Some(e)
      {
        if e in Planned(log, init, logWasEmpty, now) {
          var i :| 0 <= i < |init| && EventFor(log, init[i], logWasEmpty, now) == Some(e);
          assert incoming[i] == init[i];
        } else {
          assert EventFor(log, incoming[|incoming| - 1], logWasEmpty, now) == Some(e);
        }
      }
    }
  }

  /** The events a run appends, for the raw registry values `snapshot`:
      the emptiness of the log is sampled once, before any insert. */
  function RunEvents(log: seq<Event>, snapshot: seq<Listing>, now: int): seq<Event>
  {
    Planned(log, KeyByCik(snapshot), |log| == 0, now)
  }

  /** A run appends one event per snapshot CIK that changed, and nothing
      else: each event is the `EventFor` of a keyed listing, active and
      stamped with the run's time, and no two are about the same CIK. */
  lemma RunEventsSpec(log: seq<Event>, snapshot: seq<Listing>, now: int)
    ensures RunEvents(log, snapshot, now) == Planned(log, KeyByCik(snapshot), |log| == 0, now)
    ensures DistinctEventCiks(Planned(log, KeyByCik(snapshot), |log| == 0, now))
    ensures forall e :: e in Planned(log, KeyByCik(snapshot), |log| == 0, now) ==>
              e.cik in CikSet(snapshot) && e.isActive == 1 && e.timestamp == now
    ensures forall e :: e in Planned(log, KeyByCik(snapshot), |log| == 0, now) ==>
              exists i :: 0 <= i < |KeyByCik(snapshot)| && EventFor(log, KeyByCik(snapshot)[i], |log| == 0, now) == Some(e)
    ensures forall i :: 0 <= i < |KeyByCik(snapshot)| && EventFor(log, KeyByCik(snapshot)[i], |log| == 0, now).Some? ==>
              EventFor(log, KeyByCik(snapshot)[i], |log| == 0, now).value in Planned(log, KeyByCik(snapshot), |log| == 0, now)
  {
    var d := KeyByCik(snapshot);
    PlannedOnePerCik(log, d, |log| == 0, now);
    PlannedOnlyFor(log, d, |log| == 0, now);
    forall i | 0 <= i < |d| && EventFor(log, d[i], |log| == 0, now).Some?
      ensures EventFor(log, d[i], |log| == 0, now).value in Planned(log, d, |log| == 0, now)
    {
      PlannedContains(log, d, |log| == 0, now, i);
    }
  }

  /** In a first run every CIK of the snapshot gets exactly one baseline
      event `-`, even after earlier inserts of that run. */
  lemma {:induction false} FirstRunIsBaseline(incoming: seq<Listing>, now: int)
    ensures |Planned([], incoming, true, now)| == |incoming|
    ensures forall i :: 0 <= i < |incoming| ==>
              Planned([], incoming, true, now)[i]
              == Event(incoming[i].cik, Upper(incoming[i].ticker), incoming[i].title, "-", NoNote, 1, now)
  {
    if |incoming| > 0 {
      var init := incoming[..|incoming| - 1];
      var x := incoming[|incoming| - 1];
      FirstRunIsBaseline(init, now);
      var ev := Event(x.cik, Upper(x.ticker), x.title, "-", NoNote, 1, now);
      var p0 := Planned([], init, true, now);
      assert Planned([], incoming, true, now) == p0 + [ev] by {
        BaselineEvent(x, now);
        assert AsSeq(Some(ev)) == [ev];
      }
      BaselineSnoc(p0, incoming, now);
    }
  }

  /** Baseline events line up with their listings one more step. */
  lemma BaselineSnoc(p0: seq<Event>, incoming: seq<Listing>, now: int)
    requires |incoming| > 0 && |p0| == |incoming| - 1
    requires forall i :: 0 <= i < |p0| ==>
               p0[i] == Event(incoming[i].cik, Upper(incoming[i].ticker), incoming[i].title, "-", NoNote, 1, now)
    ensures var x := incoming[|incoming| - 1];
            var p := p0 + [Event(x.cik, Upper(x.ticker), x.title, "-", NoNote, 1, now)];
            && |p| == |incoming|
            && forall i :: 0 <= i < |incoming| ==>
                 p[i] == Event(incoming[i].cik, Upper(incoming[i].ticker), incoming[i].title, "-", NoNote, 1, now)
  {
  }

  /** On an empty log a listing gets its baseline event. */
  lemma BaselineEvent(x: Listing, now: int)
    ensures EventFor([], x, true, now) == Some(Event(x.cik, Upper(x.ticker), x.title, "-", NoNote, 1, now))
  {
    assert Latest([], x.cik) == None;
  }

  /** A first run, on an empty log, appends one baseline event `-` with no
      note for every CIK of the snapshot, in the keyed snapshot's order. */
  lemma FirstRunBaselines(snapshot: seq<Listing>, now: int)
    ensures |RunEvents([], snapshot, now)| == |KeyByCik(snapshot)|
    ensures forall i :: 0 <= i < |KeyByCik(snapshot)| ==>
              var x := KeyByCik(snapshot)[i];
              RunEvents([], snapshot, now)[i] == Event(x.cik, Upper(x.ticker), x.title, "-", NoNote, 1, now)
  {
    var d := KeyByCik(snapshot);
    assert RunEvents([], snapshot, now) == Planned([], d, true, now);
    FirstRunIsBaseline(d, now);
  }

  /** On a log that is not empty, a CIK never seen before is a new listing. */
  lemma NewCikIsNewListing(log: seq<Event>, x: Listing, now: int)
    requires |log| > 0
    requires forall e :: e in log ==> e.cik != x.cik
    ensures EventFor(log, x, |log| == 0, now)
            == Some(Event(x.cik, Upper(x.ticker), x.title, "NEW_LISTING", NoNote, 1, now))
  {
  }

  /** A run on a log that is not empty appends a `NEW_LISTING` event for
      every CIK of the snapshot that the log has never seen. */
  lemma NewCikInRun(log: seq<Event>, snapshot: seq<Listing>, now: int, x: Listing)
    requires |log| > 0
    requires x in KeyByCik(snapshot)
    requires forall e :: e in log ==> e.cik != x.cik
    ensures Event(x.cik, Upper(x.ticker), x.title, "NEW_LISTING", NoNote, 1, now) in RunEvents(log, snapshot, now)
  {
    var d := KeyByCik(snapshot);
    var i :| 0 <= i < |d| && d[i] == x;
    NewCikIsNewListing(log, x, now);
    PlannedContains(log, d, false, now, i);
    assert RunEvents(log, snapshot, now) == Planned(log, d, false, now);
  }

  /** The log as a table that is only ever appended to. */
  class TickerLog {
    var events: seq<Event>

    constructor ()
      ensures events == []
    {
      events := [];
    }

    /** The `INSERT INTO ticker_event_log ...` of update_tickers.py:70-73. */
    method Append(e: Event)
      modifies this
      ensures events == old(events) + [e]
    {
      events := events + [e];
    }

    /** The loop body of update_tickers.py:42-73 for one listing: look up
        the latest event of its CIK, classify, and append if anything changed. */
    method Visit(x: Listing, logWasEmpty: bool, now: int)
      modifies this
      ensures events == old(events) + AsSeq(EventFor(old(events), x, logWasEmpty, now))
    {
      var ticker := Upper(x.ticker);
      var name := x.title;
      var latest := Latest(events, x.cik);
      var scenario := Classify(latest, ticker, name, logWasEmpty);
      if scenario.Some? {
        Append(Event(x.cik, ticker, name, Render(scenario.value), NoteFor(scenario.value), 1, now));
      }
    }

    /** One run: sample whether the log is empty, key the snapshot by CIK,
        then classify and append for every CIK in turn, against the log as
        it grows. */
    method Run(snapshot: seq<Listing>, now: int)
      modifies this
      ensures events == old(events) + RunEvents(old(events), snapshot, now)
    {
      var logWasEmpty := |events| == 0;
      var incoming := KeyByCik(snapshot);
      ghost var before := events;
      var i := 0;
      while i < |incoming|
        invariant 0 <= i <= |incoming|
        invariant events == before + Planned(before, incoming[..i], logWasEmpty, now)
      {
        RunStep(before, incoming, logWasEmpty, now, i);
        Visit(incoming[i], logWasEmpty, now);
        i := i + 1;
      }
      assert incoming[..i] == incoming;
    }
  }

  // =====================================================================
  // Run-level properties
  // =====================================================================

  /** After a run whose clock is not behind the log, every CIK of the
      snapshot has as its latest event one that carries the snapshot's
      upper-cased ticker and its name. */
  lemma RunLeavesSnapshotLatest(log: seq<Event>, snapshot: seq<Listing>, now: int, x: Listing)
    requires forall e :: e in log ==> e.timestamp <= now
    requires x in KeyByCik(snapshot)
    ensures Latest(log + RunEvents(log, snapshot, now), x.cik).Some?
    ensures Latest(log + RunEvents(log, snapshot, now), x.cik).value.ticker == Upper(x.ticker)
    ensures Latest(log + RunEvents(log, snapshot, now), x.cik).value.name == x.title
  {
    var incoming := KeyByCik(snapshot);
    var wasEmpty := |log| == 0;
    var i :| 0 <= i < |incoming| && incoming[i] == x;
    if EventFor(log, x, wasEmpty, now).Some? {
      PlannedNewcomer(log, incoming, wasEmpty, now, i);
    } else {
      PlannedNoneAvoids(log, incoming, wasEmpty, now, i);
      LatestIgnoresOtherCiks(log, Planned(log, incoming, wasEmpty, now), x.cik);
    }
  }

  /** A listing whose `EventFor` is `None` gets no planned event of its CIK. */
  lemma PlannedNoneAvoids(log: seq<Event>, incoming: seq<Listing>, logWasEmpty: bool, now: int, i: nat)
    requires DistinctCiks(incoming) && i < |incoming|
    requires EventFor(log, incoming[i], logWasEmpty, now).None?
    ensures forall e :: e in Planned(log, incoming, logWasEmpty, now) ==> e.cik != incoming[i].cik
  {
    PlannedOnlyFor(log, incoming, logWasEmpty, now);
    forall e | e in Planned(log, incoming, logWasEmpty, now) ensures e.cik != incoming[i].cik {
      var j :| 0 <= j < |incoming| && EventFor(log, incoming[j], logWasEmpty, now) == Some(e);
      assert j != i;
    }
  }

  /** A listing whose `EventFor` is an event makes that event the latest of
      its CIK, when the clock is not behind the log. */
  lemma PlannedNewcomer(log: seq<Event>, incoming: seq<Listing>, logWasEmpty: bool, now: int, i: nat)
    requires DistinctCiks(incoming) && i < |incoming|
    requires forall e :: e in log ==> e.timestamp <= now
    requires EventFor(log, incoming[i], logWasEmpty, now).Some?
    ensures Latest(log + Planned(log, incoming, logWasEmpty, now), incoming[i].cik)
            == EventFor(log, incoming[i], logWasEmpty, now)
  {
    var p := Planned(log, incoming, logWasEmpty, now);
    var ev := EventFor(log, incoming[i], logWasEmpty, now).value;
    PlannedOnePerCik(log, incoming, logWasEmpty, now);
    PlannedContains(log, incoming, logWasEmpty, now, i);
    var q :| 0 <= q < |p| && p[q] == ev;
    assert forall j :: 0 <= j < |p| && p[j].cik == p[q].cik ==> j == q;
    LatestIsNewcomer(log, p, q);
  }

  /** Idempotence: a second run with the same snapshot, after a first run
      whose clock was not behind the log, appends nothing. */
  lemma RerunAppendsNothing(log: seq<Event>, snapshot: seq<Listing>, now: int, later: int)
    requires forall e :: e in log ==> e.timestamp <= now
    ensures RunEvents(log + RunEvents(log, snapshot, now), snapshot, later) == []
  {
    var log1 := log + RunEvents(log, snapshot, now);
    var incoming := KeyByCik(snapshot);
    forall i | 0 <= i < |incoming|
      ensures EventFor(log1, incoming[i], |log1| == 0, later) == None
    {
      RunLeavesSnapshotLatest(log, snapshot, now, incoming[i]);
      UpperIdempotent(incoming[i].ticker);
    }
    NothingPlanned(log1, incoming, |log1| == 0, later);
  }

  lemma {:induction false} NothingPlanned(log: seq<Event>, incoming: seq<Listing>, logWasEmpty: bool, now: int)
    requires forall i :: 0 <= i < |incoming| ==> EventFor(log, incoming[i], logWasEmpty, now) == None
    ensures Planned(log, incoming, logWasEmpty, now) == []
  {
    if |incoming| > 0 {
      var init := incoming[..|incoming| - 1];
      assert forall i :: 0 <= i < |init| ==> init[i] == incoming[i];
      NothingPlanned(log, init, logWasEmpty, now);
    }
  }

  /** No two events of one CIK share a timestamp. */
  predicate UniqueStamps(log: seq<Event>)
  {
    forall i, j :: 0 <= i < j < |log| && log[i].cik == log[j].cik ==> log[i].timestamp != log[j].timestamp
  }

  /** A run whose clock is strictly ahead of the log keeps timestamps unique
      per CIK. */
  lemma RunKeepsStampsUnique(log: seq<Event>, snapshot: seq<Listing>, now: int)
    requires UniqueStamps(log)
    requires forall e :: e in log ==> e.timestamp < now
    ensures UniqueStamps(log + RunEvents(log, snapshot, now))
  {
    var p := RunEvents(log, snapshot, now);
    PlannedOnePerCik(log, KeyByCik(snapshot), |log| == 0, now);
    var full := log + p;
    forall i, j | 0 <= i < j < |full| && full[i].cik == full[j].cik
      ensures full[i].timestamp != full[j].timestamp
    {
      if j < |log| {
        assert full[i] == log[i] && full[j] == log[j];
      } else if i < |log| {
        assert full[i] == log[i] && full[j] == p[j - |log|] && p[j - |log|] in p;
      }
    }
  }

  // =====================================================================
  // Projection (update_tickers.py:78-84)
  // =====================================================================

  /** The `WHERE` of the export query: the event's timestamp is the greatest
      of its CIK, and it is active. */
  predicate Selected(log: seq<Event>, e: Event)
  {
    e.isActive == 1 && Latest(log, e.cik).Some? && e.timestamp == Latest(log, e.cik).value.timestamp
  }

  /** For a row of the log, `Selected` is the `WHERE` as written: the row is
      active and no event of its CIK has a greater timestamp. */
  lemma SelectedIsMax(log: seq<Event>, e: Event)
    requires e in log
    ensures Selected(log, e) <==> e.isActive == 1 && forall f :: f in log && f.cik == e.cik ==> f.timestamp <= e.timestamp
  {
    var l := Latest(log, e.cik).value;
    if forall f :: f in log && f.cik == e.cik ==> f.timestamp <= e.timestamp {
      assert l.timestamp <= e.timestamp;
    }
  }

  /** The rows of `part` that the `WHERE` keeps, judged against the whole log. */
  function Where(log: seq<Event>, part: seq<Event>): (r: seq<Event>)
    ensures forall e :: e in r <==> e in part && Selected(log, e)
    ensures forall e :: multiset(r)[e] == if Selected(log, e) then multiset(part)[e] else 0
  {
    if |part| == 0 then []
    else
      var init := part[..|part| - 1];
      var e := part[|part| - 1];
      assert part == init + [e];
      assert multiset(part) == multiset(init) + multiset{e};
      Where(log, init) + (if Selected(log, e) then [e] else [])
  }

  predicate SortedByTicker(s: seq<Event>)
  {
    forall i, j :: 0 <= i < j < |s| ==> LexLe(s[i].ticker, s[j].ticker)
  }

  function EventCiks(s: seq<Event>): set<int>
  {
    set e | e in s :: e.cik
  }

  lemma ConsSorted(x: Event, s: seq<Event>)
    requires SortedByTicker(s)
    requires forall y :: y in s ==> LexLe(x.ticker, y.ticker)
    ensures SortedByTicker([x] + s)
  {
    var r := [x] + s;
    forall i, j | 0 <= i < j < |r| ensures LexLe(r[i].ticker, r[j].ticker) {
      if i == 0 { assert r[j] == s[j - 1]; } else { assert r[i] == s[i - 1] && r[j] == s[j - 1]; }
    }
  }

  lemma ConsDistinct(x: Event, s: seq<Event>)
    requires DistinctEventCiks(s) && x.cik !in EventCiks(s)
    ensures DistinctEventCiks([x] + s)
  {
    var r := [x] + s;
    forall i, j | 0 <= i < j < |r| ensures r[i].cik != r[j].cik {
      if i == 0 { assert r[j] == s[j - 1] && r[j] in s; } else { assert r[i] == s[i - 1] && r[j] == s[j - 1]; }
    }
  }

  lemma SameCiks(a: seq<Event>, b: seq<Event>)
    requires multiset(a) == multiset(b)
    ensures EventCiks(a) == EventCiks(b)
  {
    forall e ensures e in a <==> e in b {
      assert e in a <==> e in multiset(a);
      assert e in b <==> e in multiset(b);
    }
  }

  /** `e` goes in front when the head's ticker is greater. */
  lemma FrontSorted(e: Event, s: seq<Event>)
    requires SortedByTicker(s) && |s| > 0 && !LexLe(s[0].ticker, e.ticker)
    ensures SortedByTicker([e] + s)
  {
    LexLeTotal(s[0].ticker, e.ticker);
    forall y | y in s ensures LexLe(e.ticker, y.ticker) {
      var j :| 0 <= j < |s| && s[j] == y;
      if j > 0 { LexLeTransitive(e.ticker, s[0].ticker, s[j].ticker); }
    }
    ConsSorted(e, s);
  }

  /** The head stays in front of the tail with `e` inserted into it. */
  lemma HeadSorted(e: Event, s: seq<Event>, rest: seq<Event>)
    requires SortedByTicker(s) && |s| > 0 && LexLe(s[0].ticker, e.ticker)
    requires SortedByTicker(rest) && multiset(rest) == multiset(s[1..]) + multiset{e}
    ensures SortedByTicker([s[0]] + rest)
  {
    forall y | y in rest ensures LexLe(s[0].ticker, y.ticker) {
      assert y in multiset(rest);
      if y != e {
        assert y in multiset(s[1..]);
        var k :| 0 <= k < |s[1..]| && s[1..][k] == y;
        assert s[k + 1] == y;
      }
    }
    ConsSorted(s[0], rest);
  }

  /** Place `e` after every event of `s` whose ticker is not greater. */
  function InsertByTicker(e: Event, s: seq<Event>): (r: seq<Event>)
    requires SortedByTicker(s)
    ensures SortedByTicker(r)
    ensures multiset(r) == multiset(s) + multiset{e}
  {
    if |s| == 0 then [e]
    else if !LexLe(s[0].ticker, e.ticker) then
      FrontSorted(e, s);
      assert s == [s[0]] + s[1..];
      [e] + s
    else
      assert s == [s[0]] + s[1..];
      var rest := InsertByTicker(e, s[1..]);
      HeadSorted(e, s, rest);
      [s[0]] + rest
  }

  lemma {:induction false} InsertKeepsDistinct(e: Event, s: seq<Event>)
    requires SortedByTicker(s) && DistinctEventCiks(s) && e.cik !in EventCiks(s)
    ensures DistinctEventCiks(InsertByTicker(e, s))
  {
    if |s| == 0 {
    } else if !LexLe(s[0].ticker, e.ticker) {
      ConsDistinct(e, s);
    } else {
      var tail := s[1..];
      assert EventCiks(tail) <= EventCiks(s);
      assert DistinctEventCiks(tail);
      InsertKeepsDistinct(e, tail);
      HeadAvoidsInsert(e, s);
      ConsDistinct(s[0], InsertByTicker(e, tail));
    }
  }

  /** The head of `s` shares its CIK with nothing inserted behind it. */
  lemma HeadAvoidsInsert(e: Event, s: seq<Event>)
    requires SortedByTicker(s) && DistinctEventCiks(s) && e.cik !in EventCiks(s) && |s| > 0
    ensures s[0].cik !in EventCiks(InsertByTicker(e, s[1..]))
  {
    var tail := s[1..];
    var rest := InsertByTicker(e, tail);
    assert s[0] in s;
    forall y | y in rest ensures y.cik != s[0].cik {
      assert y in multiset(rest);
      if y != e {
        assert y in multiset(tail);
        var k :| 0 <= k < |tail| && tail[k] == y;
        assert s[k + 1] == y;
      }
    }
  }

  /** `ORDER BY ticker ASC`, by insertion: a sorted permutation. */
  function SortByTicker(s: seq<Event>): (r: seq<Event>)
    ensures SortedByTicker(r)
    ensures multiset(r) == multiset(s)
  {
    if |s| == 0 then []
    else
      var init := s[..|s| - 1];
      assert s == init + [s[|s| - 1]];
      InsertByTicker(s[|s| - 1], SortByTicker(init))
  }

  /** Sorting keeps CIKs distinct when they were. */
  lemma {:induction false} SortKeepsDistinct(s: seq<Event>)
    requires DistinctEventCiks(s)
    ensures DistinctEventCiks(SortByTicker(s))
  {
    if |s| > 0 {
      var init := s[..|s| - 1];
      var e := s[|s| - 1];
      assert DistinctEventCiks(init);
      SortKeepsDistinct(init);
      var sorted := SortByTicker(init);
      SameCiks(sorted, init);
      assert e.cik !in EventCiks(init) by {
        forall y | y in init ensures y.cik != e.cik {
          var k :| 0 <= k < |init| && init[k] == y;
          assert s[k] == y;
        }
      }
      InsertKeepsDistinct(e, sorted);
    }
  }

  /** The export query: the latest active events, ordered by ticker. */
  function Project(log: seq<Event>): (r: seq<Event>)
    ensures SortedByTicker(r)
    ensures multiset(r) == multiset(Where(log, log))
  {
    SortByTicker(Where(log, log))
  }

  /** The projection holds exactly the logged events whose timestamp is the
      greatest of their CIK and that are active, is ordered by ticker, and is
      a permutation of those rows. */
  lemma ProjectContents(log: seq<Event>)
    ensures forall e :: e in Project(log) <==> (e in log && e.isActive == 1
                                               && forall f :: f in log && f.cik == e.cik ==> f.timestamp <= e.timestamp)
    ensures SortedByTicker(Project(log))
    ensures forall e :: multiset(Project(log))[e] == if Selected(log, e) then multiset(log)[e] else 0
  {
    forall e | e in log
      ensures Selected(log, e) <==> e.isActive == 1 && forall f :: f in log && f.cik == e.cik ==> f.timestamp <= e.timestamp
    {
      SelectedIsMax(log, e);
    }
    forall e ensures e in Project(log) <==> e in Where(log, log) {
      assert e in Project(log) <==> e in multiset(Project(log));
    }
  }

  /** With timestamps unique per CIK, the projection has at most one row per CIK. */
  lemma {:induction false} ProjectOnePerCik(log: seq<Event>)
    requires UniqueStamps(log)
    ensures DistinctEventCiks(Project(log))
  {
    WhereOnePerCik(log, log);
    SortKeepsDistinct(Where(log, log));
  }

  lemma {:induction false} WhereOnePerCik(log: seq<Event>, part: seq<Event>)
    requires UniqueStamps(part)
    ensures DistinctEventCiks(Where(log, part))
  {
    if |part| > 0 {
      var init := part[..|part| - 1];
      var e := part[|part| - 1];
      assert UniqueStamps(init);
      WhereOnePerCik(log, init);
      var w0 := Where(log, init);
      if Selected(log, e) {
        assert Where(log, part) == w0 + [e];
        NoClashWithLast(log, part, init, w0);
        DistinctSnoc(w0, e);
      } else {
        assert Where(log, part) == w0;
      }
    }
  }

  /** In a part with per-CIK unique timestamps, no selected row before the
      last shares its CIK with a selected last row. */
  lemma NoClashWithLast(log: seq<Event>, part: seq<Event>, init: seq<Event>, w0: seq<Event>)
    requires UniqueStamps(part) && |part| > 0 && init == part[..|part| - 1]
    requires Selected(log, part[|part| - 1])
    requires forall x :: x in w0 ==> x in init && Selected(log, x)
    ensures forall i :: 0 <= i < |w0| ==> w0[i].cik != part[|part| - 1].cik
  {
    forall i | 0 <= i < |w0| ensures w0[i].cik != part[|part| - 1].cik {
      assert w0[i] in w0;
      var k :| 0 <= k < |init| && init[k] == w0[i];
      assert part[k] == w0[i];
    }
  }

  lemma DistinctSnoc(s: seq<Event>, x: Event)
    requires DistinctEventCiks(s)
    requires forall i :: 0 <= i < |s| ==> s[i].cik != x.cik
    ensures DistinctEventCiks(s + [x])
  {
    var t := s + [x];
    forall i, j | 0 <= i < j < |t| ensures t[i].cik != t[j].cik {
      assert t[i] == s[i];
      if j < |s| { assert t[j] == s[j]; }
    }
  }

  /** When every logged event is active, every CIK in the log has a row. */
  lemma ProjectCoversEveryCik(log: seq<Event>, cik: int)
    requires forall e :: e in log ==> e.isActive == 1
    requires exists e :: e in log && e.cik == cik
    ensures exists e :: e in Project(log) && e.cik == cik
  {
    var l := Latest(log, cik).value;
    assert Selected(log, l);
    assert l in Where(log, log);
    assert l in multiset(Project(log));
  }
}
