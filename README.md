# Security master: ticker event log, company sync and revenue layer

This project models the three scripts at the core of the security master
in Dafny, and proves properties of the model.

- The ticker event log (`update_tickers.py`). Each run reads the SEC
  registry snapshot (`company_tickers.json`) and keys it by CIK. For every
  company it finds the latest logged event for that CIK and classifies the
  difference: baseline, new listing, rebrand, ticker change, name change,
  or nothing. It appends at most one event per CIK, all stamped with the
  run's clock reading. A read-only projection lists the latest active
  event of every CIK, ordered by ticker.
- The company sync (`engine/update_tickers.py`). For every registry entry
  it reads a revenue value from the company-facts document. That
  "waterfall" tries four XBRL tags in order, prefers `USD`, prefers annual
  (`fp == 'FY'`) points, takes the latest `end` and skips a falsy value.
  It also builds a location string and finds the first 10-K filing with
  its archive link. Then it upserts one row per CIK. On conflict the
  upsert keeps the stored name and location.
- The revenue layer (`engine/extract_revenue.py`). A second waterfall over
  the same document: five tags in another order, `USD` only, latest `end`
  with a different tie-break, and no truthiness check. Then a pass over the
  table writes each truthy value to every row with the same ticker.

Modules:

- `Opt`, `Text`, `Decimal`, `Facts`: option values, the string operations
  the scripts use (`upper`, `in`, `strip`, `replace`, `index`, code-point
  ordering), decimal rendering with `zfill`, and the company-facts
  document.
- `Engine`: the company sync, with `ExtractRevenue` and the
  `CompanyTable` class.
- `Layer`: the revenue layer, with the `RevenueTable` class.
- `EventLog`: the ticker event log, with the `TickerLog` class.
- `Worked`: the two waterfalls and a log run worked out on concrete
  shapes of input.

Where the system's documentation and the code differ, the model follows
the code:

- Only the sync loop skips a zero revenue. If the first present tag
  reports `0`, the layer returns `0`, and its `if rev:` then writes
  nothing (`Worked.ZeroIsSkippedOnlyBySync`).
- With no candidate tag the sync loop stores `0`, not an empty value
  (`Worked.NoCandidateTag`).
- The log records no removal of listings and no reinstatement. A CIK
  missing from the snapshot simply gets no event.

## Model

| member | source | states |
|---|---|---|
| Text.Upper | update_tickers.py:42 | ASCII letters are mapped to upper case and every other character is kept; the length is unchanged |
| Text.UpperIdempotent | update_tickers.py:42 | an upper-cased string holds no lower-case ASCII letter, and upper-casing it again changes nothing |
| Text.Contains | update_tickers.py:59 | `p in s` holds exactly when `p` occurs in `s` at some index |
| Text.StripFrame | engine/update_tickers.py:92 | `strip(chars)` removes a padding prefix and a padding suffix and nothing inside a core whose two ends are not padding |
| Text.StripAllPadding | engine/update_tickers.py:92 | a string made only of padding strips to the empty string |
| Text.Strip | engine/update_tickers.py:92 | `strip(chars)` is no longer than its input and neither begins nor ends with a padding character |
| Text.StripPiece | engine/update_tickers.py:92 | what `strip` keeps is one contiguous piece of the input with only padding before and after it |
| Text.RemoveChar | engine/update_tickers.py:99 | `replace('-', '')` leaves no dash; a string without a dash is unchanged; every other character keeps its count |
| Text.RemoveCharConcat | engine/update_tickers.py:99 | removing a character distributes over concatenation |
| Text.IndexOf | engine/update_tickers.py:98 | `list.index` gives a position holding the element, with no earlier occurrence |
| Text.LexLeTotal | engine/update_tickers.py:81 | the string order used for `end` dates and tickers is total |
| Text.LexLeTransitive | engine/update_tickers.py:81 | the string order is transitive |
| Text.LexLeAntisymmetric | update_tickers.py:83 | two strings ordered both ways are equal |
| Decimal.NatToDecimal | engine/update_tickers.py:50 | `str(n)` is a non-empty string of digits with no leading zero (except for `0` itself) |
| Decimal.DigitsValue | engine/update_tickers.py:102 | `int()` of a digit string is zero exactly when every digit is `0`; `DecimalRoundTrip` and `LeadingZerosIgnored` fix its value |
| Decimal.ZFill | engine/update_tickers.py:50 | `zfill(w)` gives a result of length `max(len, w)` and leaves a string already that long unchanged |
| Decimal.DecimalRoundTrip | engine/update_tickers.py:102 | `int(str(n)) == n` |
| Decimal.LeadingZerosIgnored | engine/update_tickers.py:102 | leading zeros do not change the value `int()` gives |
| Decimal.PaddedRoundTrip | engine/update_tickers.py:50 | `int(str(cik).zfill(10)) == cik`: the padded CIK is all digits and names the same company |
| Facts.UnitsOf | engine/update_tickers.py:74 | a missing `facts` object, namespace or tag gives no units, which are the `KeyError` paths here and at engine/extract_revenue.py:32; when `facts`, the namespace and the tag are all present, the result is the tag's stored `units` |
| Facts.PointsFor | engine/extract_revenue.py:32 | `units[code]` is found exactly when some unit has that code, and its points are that unit's points |
| Engine.SelectCurrency | engine/update_tickers.py:75-76 | `None` (an `IndexError`) exactly when there are no units; otherwise the `USD` points when `USD` is present, else the first unit's points |
| Engine.AnnualIndices | engine/update_tickers.py:79 | strictly increasing positions of the input, each holding an annual point, and covering every annual position |
| Engine.Annual | engine/update_tickers.py:79 | the filter result is the input read at `AnnualIndices`, position by position, so it keeps the annual points in stored order, each once |
| Engine.AnnualMembers | engine/update_tickers.py:79 | a point is in the filter result exactly when it is in the input and has `fp == 'FY'` |
| Engine.Preferred | engine/update_tickers.py:79-83 | the annual filter result (in stored order) when an annual point exists, else all points unchanged |
| Engine.LastLatest | engine/update_tickers.py:81-83 | `sorted(..., key=end)[-1]` picks a point with the greatest `end`; every later point in stored order has a strictly smaller `end` |
| Engine.SortedLastAtUnique | engine/update_tickers.py:79-83 | at most one stored position is the sorted list's last: eligible, with the greatest `end`, and strictly greater than every later eligible one |
| Engine.PickIndex | engine/update_tickers.py:79-83 | the point `sorted(preferred, key=end)[-1]` reads sits at that unique stored position of the chosen currency's points |
| Engine.EngineProbe | engine/update_tickers.py:73-87 | a tag is skipped when its units are missing or empty or the chosen currency has no points; `EngineProbeReads` states when it gives a value and which |
| Engine.EngineProbeReads | engine/update_tickers.py:73-87 | a value comes exactly when the units and a currency are found, the preferred points are non-empty and all dated, and the one the sort reads has a `val`; that value is the `val` at the stored position that is eligible, latest, and last among ties |
| Engine.EngineRevenue | engine/update_tickers.py:64-87 | the result is the value of the first tag whose probe is truthy; it is `0` exactly when no tag gives a truthy value |
| Engine.FirstTruthyDecides | engine/update_tickers.py:72-87 | when every earlier tag is falsy, the first tag with a truthy probe decides the revenue whatever the later tags hold |
| Engine.ExtractRevenue | engine/update_tickers.py:64-87 | the loop with its `break` returns the waterfall's revenue for the four tags |
| Engine.LocationBoth | engine/update_tickers.py:92 | city and state both present: `"city, state"` |
| Engine.LocationCityOnly | engine/update_tickers.py:92 | only a city: the city, without the trailing separator |
| Engine.LocationStateOnly | engine/update_tickers.py:92 | only a state: the state, without the leading separator |
| Engine.LocationNeither | engine/update_tickers.py:92 | neither: the empty string |
| Engine.Location | engine/update_tickers.py:92 | the location string neither begins nor ends with `,` or a space; `LocationBoth`, `LocationCityOnly`, `LocationStateOnly` and `LocationNeither` give its value |
| Engine.LocationOf | engine/update_tickers.py:91-92 | a present business address gives `Location(city, state)` with a missing part read as `''`; a missing address gives the empty string |
| Engine.FilingLink | engine/update_tickers.py:102 | the link starts with the EDGAR archive prefix and ends with the primary document name; `FilingLinkShape` fixes the parts between |
| Engine.LatestTenK | engine/update_tickers.py:94-102 | no 10-K gives `("N/A", "")`; otherwise the lookup fails exactly when one of the three lists is missing or too short at the first 10-K index, and succeeds with that index's report date and archive link |
| Engine.FilingLinkShape | engine/update_tickers.py:99-102 | the 10-K link names the CIK without zero padding and the accession number without dashes |
| Engine.Merge | engine/update_tickers.py:108-114 | on conflict the stored name and location stay; ticker, industry, revenue, 10-K date, link and timestamp come from the incoming row |
| Engine.Upserted | engine/update_tickers.py:105-115 | the keys gain the CIK; other rows are unchanged; a new CIK gets the incoming row, an existing one the merged row |
| Engine.UpsertIdempotent | engine/update_tickers.py:105-115 | upserting the same row twice gives the same table as upserting it once |
| Engine.CikString | engine/update_tickers.py:50 | the padded CIK string is all digits and its value is the CIK |
| Engine.BuildRow | engine/update_tickers.py:89-115 | the row carries the upper-cased ticker, the registry title, the `sicDescription` or `N/A`, the business location, the first 10-K's date and link, the waterfall's revenue and the clock reading |
| Engine.EntityRow | engine/update_tickers.py:56-122 | an entity reaches the upsert exactly when both requests and the 10-K lookup succeed; it is keyed by its own CIK and its row is `BuildRow(e)` |
| Engine.SyncAll | engine/update_tickers.py:49-122 | the sync keeps every old CIK and adds only CIKs of processed entries; `SyncKeys` and `SyncKeepsNameAndLocation` state the rest |
| Engine.ProcessedCiks | engine/update_tickers.py:49-122 | exactly the CIKs of the entries that reached the upsert |
| Engine.SyncKeys | engine/update_tickers.py:49-122 | after a sync the table holds the old CIKs plus those of the processed entries, and no others |
| Engine.SyncKeepsNameAndLocation | engine/update_tickers.py:108-114 | once a CIK has a row, no later sync changes its name or its location |
| Engine.CompanyTable.Upsert | engine/update_tickers.py:105-115 | the table becomes the upserted table |
| Engine.CompanyTable.SyncEntry | engine/update_tickers.py:50-119 | a failed entity leaves the table unchanged; a processed one upserts its own row under its CIK |
| Engine.CompanyTable.Sync | engine/update_tickers.py:49-122 | the loop leaves the table as the ordered fold of entity upserts over the entries |
| Layer.FirstLatest | engine/extract_revenue.py:34 | `sorted(..., reverse=True)[0]` picks a point with the greatest `end`; every earlier point in stored order has a strictly smaller `end` |
| Layer.UsdPoints | engine/extract_revenue.py:32 | the `USD` list is found exactly when the tag's units are found and hold a `USD` entry, and it is that entry's points |
| Layer.LayerProbe | engine/extract_revenue.py:30-37 | a missing `USD` list is absent; an empty list aborts (the `IndexError` reaches the outer handler), and only an empty list does; a non-empty, dated list whose first-latest point has a `val` gives that `val`; it is absent exactly when the list is missing, undated, or its first-latest point has no `val` |
| Layer.LayerWaterfall | engine/extract_revenue.py:29-40 | a result is the value of the first tag that is not absent, with every earlier tag absent; `None` means no tag is found before the first abort |
| Layer.GetRevenueFromFacts | engine/extract_revenue.py:18-40 | a failed request gives `None`; otherwise the result is `LayerWaterfall` over the five tags |
| Layer.EmptyUsdListStopsSearch | engine/extract_revenue.py:34-40 | an empty `USD` list on the first present tag gives `None`, whatever the later tags hold |
| Layer.ZeroIsReturned | engine/extract_revenue.py:35 | a first present tag whose latest point reports `0` gives `Some(0)`: no falsy value is skipped |
| Layer.SetRevenueWhere | engine/extract_revenue.py:61 | every row with the ticker gets the revenue; every other row is unchanged |
| Layer.LastRevenueFor | engine/extract_revenue.py:58-61 | a revenue some selected row writes is never zero; `LastRevenueForIsLast` says which row it comes from |
| Layer.LastRevenueForIsLast | engine/extract_revenue.py:58-61 | `None` exactly when no selected row with the ticker fetches a truthy revenue; otherwise the revenue of the last such row |
| Layer.LayerPass | engine/extract_revenue.py:58-61 | the pass keeps the number of rows and each row's CIK, ticker and name; `LayerPassEffect` states the revenues |
| Layer.LayerPassEffect | engine/extract_revenue.py:58-61 | after the pass a row whose ticker got a truthy value holds the last one written; a row whose ticker got none keeps its revenue |
| Layer.RevenueTable.SetRevenue | engine/extract_revenue.py:61 | the table becomes the table updated by ticker |
| Layer.RevenueTable.RunLayer | engine/extract_revenue.py:53-61 | the loop over the rows selected up front leaves the table as the pass over that selection |
| EventLog.RenderLabels | update_tickers.py:54-67 | each scenario kind renders under its own label, so the text tells the kinds apart |
| EventLog.RenderShape | update_tickers.py:56-66 | `Render`, the `event_scenario` f-strings: a change reads as its label, then the old value, ` → ` and the new value; `-` and `NEW_LISTING` hold no space |
| EventLog.NoteFor | update_tickers.py:51-67 | `ai_note` stays empty for a first sighting, and each kind of change has its own note |
| EventLog.LastWithCik | update_tickers.py:39 | `None` exactly when no listing has the CIK; otherwise the listing at the last position holding that CIK |
| EventLog.Put | update_tickers.py:39 | a later listing replaces the earlier one for its CIK, and the CIKs stay distinct |
| EventLog.KeyByCik | update_tickers.py:39 | the keyed snapshot has one listing per CIK, the same CIKs as the snapshot, and for each CIK the last listing given for it |
| EventLog.PutKeepsPositions | update_tickers.py:39 | `d[cik] = x` keeps an existing key in place, appends a new key at the end, and keeps every other key's position |
| EventLog.KeyByCikOrder | update_tickers.py:39-41 | the keyed snapshot lists its CIKs in the order they first occur in the registry, which is the order the loop visits them |
| EventLog.LatestIndex | update_tickers.py:45-49 | no result exactly when the CIK has no event; otherwise an event of the CIK with the greatest timestamp, the last appended among equal timestamps |
| EventLog.Latest | update_tickers.py:45-49 | `None` exactly when the CIK has no event; otherwise one of its events with the greatest timestamp |
| EventLog.LatestIndexUnique | update_tickers.py:45-49 | the latest index is the only position that is latest and last among ties |
| EventLog.LatestIgnoresOtherCiks | update_tickers.py:45-49 | events of other CIKs do not change a CIK's latest event |
| EventLog.LatestIsNewcomer | update_tickers.py:45-49 | an appended event, stamped no earlier than the CIK's old events, is the CIK's latest event |
| EventLog.Classify | update_tickers.py:51-69 | no scenario exactly when a prior event has the same ticker and the same name; the three `Classify…` lemmas give the scenario in every other case |
| EventLog.ClassifyFirstSighting | update_tickers.py:54-56 | a CIK with no prior event is a baseline exactly when the log was empty at the start of the run, and a new listing otherwise |
| EventLog.ClassifyTickerFirst | update_tickers.py:57-64 | a changed ticker is a rebrand exactly when the ticker is `DCH` and the upper-cased name contains `DAUCH`, and a ticker change otherwise |
| EventLog.ClassifyNameChange | update_tickers.py:65-67 | a name change is reported exactly when the ticker is unchanged and the name differs, with the old and the new name |
| EventLog.EventFor | update_tickers.py:42-73 | no event exactly when the CIK's latest event has the same ticker and name; otherwise an active event with the CIK, upper-cased ticker and title, the run's time, and the rendered scenario and note of the classification |
| EventLog.Planned | update_tickers.py:41-73 | at most one event per listing, each for a snapshot CIK, active and stamped with the run's time |
| EventLog.PlannedStep | update_tickers.py:41-73 | the planned events for a prefix extend by the next listing's event |
| EventLog.PlannedAvoids | update_tickers.py:41-73 | with distinct CIKs, no event planned for earlier listings is about the next listing's CIK |
| EventLog.RunStep | update_tickers.py:41-73 | classifying against the growing log gives the same events as classifying against the log before the run |
| EventLog.EventForIgnoresOtherCiks | update_tickers.py:45-49 | events of other CIKs do not change the event planned for a listing |
| EventLog.PlannedOnePerCik | update_tickers.py:39-73 | a run appends at most one event per CIK |
| EventLog.PlannedContains | update_tickers.py:41-73 | every listing that has a change gets its event in the run |
| EventLog.PlannedOnlyFor | update_tickers.py:41-73 | every appended event is the event of some listing of the snapshot |
| EventLog.FirstRunIsBaseline | update_tickers.py:30-56 | on an empty log every listing gets a baseline event `-` with an empty note, one per listing in order |
| EventLog.NewCikIsNewListing | update_tickers.py:54-56 | on a non-empty log a CIK never logged before gets a `NEW_LISTING` event |
| EventLog.FirstRunBaselines | update_tickers.py:31-56 | a run on an empty log appends one `-` event with no note for every CIK of the keyed snapshot, in order, even after that run's earlier inserts |
| EventLog.NewCikInRun | update_tickers.py:31-56 | a run on a non-empty log appends a `NEW_LISTING` event for every snapshot CIK the log has never seen |
| EventLog.TickerLog.Append | update_tickers.py:70-73 | the insert appends exactly one event |
| EventLog.TickerLog.Visit | update_tickers.py:42-73 | one loop pass appends the listing's event, if it has one, and nothing else |
| EventLog.TickerLog.Run | update_tickers.py:30-75 | the log becomes the old log plus the run's planned events for the keyed snapshot |
| EventLog.RunEventsSpec | update_tickers.py:31-73 | `RunEvents`, the events of one run with the log's emptiness sampled once before any insert: every event is the `EventFor` of a keyed listing, and every keyed listing's event is among them; no two are about the same CIK; each is for a snapshot CIK, active and stamped with the run's time; `TickerLog.Run` proves that the loop, classifying against the log as it grows, appends exactly these events |
| EventLog.RunLeavesSnapshotLatest | update_tickers.py:41-73 | after a run, for every CIK of the snapshot the latest event has the snapshot's ticker and name |
| EventLog.RerunAppendsNothing | update_tickers.py:45-69 | a second run on the same snapshot appends nothing |
| EventLog.NothingPlanned | update_tickers.py:69 | when no listing has a change the run appends nothing |
| EventLog.RunKeepsStampsUnique | update_tickers.py:38 | when a run's time is later than every logged event, no CIK gets two events with the same timestamp |
| EventLog.SelectedIsMax | update_tickers.py:81-82 | `Selected`, the `WHERE`, holds for a row of the log exactly when the row is active and no event of its CIK has a greater timestamp |
| EventLog.Where | update_tickers.py:81-82 | the filter keeps exactly the active events that carry their CIK's greatest timestamp, each as often as it occurs, and adds none |
| EventLog.InsertByTicker | update_tickers.py:83 | insertion keeps the order by ticker and adds exactly the one event |
| EventLog.InsertKeepsDistinct | update_tickers.py:83 | inserting an event of a new CIK keeps the CIKs distinct |
| EventLog.SortByTicker | update_tickers.py:83 | the result is ordered by ticker and is a permutation of the input |
| EventLog.SortKeepsDistinct | update_tickers.py:83 | sorting keeps the CIKs distinct |
| EventLog.Project | update_tickers.py:78-84 | the projection is ordered by ticker and holds the filtered events with their multiplicities; `ProjectContents` restates this on the log |
| EventLog.ProjectContents | update_tickers.py:78-84 | the projection holds exactly the active events with their CIK's greatest timestamp, ordered by ticker, each exactly as often as it occurs in the log |
| EventLog.WhereOnePerCik | update_tickers.py:81 | with no two events of one CIK sharing a timestamp, the filter keeps at most one event per CIK |
| EventLog.ProjectOnePerCik | update_tickers.py:78-84 | with no two events of one CIK sharing a timestamp, the projection lists each CIK at most once |
| EventLog.ProjectCoversEveryCik | update_tickers.py:78-84 | when every event is active, every logged CIK appears in the projection |
| Worked.EqualEndsTieBreak | engine/update_tickers.py:81 | among points sharing one `end`, the sync loop reads the last and the layer the first |
| Worked.StrictlyLatestPoint | engine/extract_revenue.py:34 | a last point strictly later than the others is read by both waterfalls |
| Worked.LaterAnnualPointWins | engine/update_tickers.py:79-85 | annual `Revenues` points whose last is strictly latest: both waterfalls give that point's value |
| Worked.TieBreaksDiffer | engine/extract_revenue.py:34 | annual `Revenues` points with one shared `end`: the sync loop stores the last point's value, the layer returns the first |
| Worked.ZeroIsSkippedOnlyBySync | engine/extract_revenue.py:35-61 | `Revenues` reporting `0` and the IFRS tag a non-zero value: the sync loop stores the IFRS value; the layer returns `0`, which is not truthy |
| Worked.NoCandidateTag | engine/extract_revenue.py:40 | a document with no tag at all: the sync loop stores `0`, the layer returns `None` |
| Worked.TickerChangeWorked | update_tickers.py:57-64 | a logged `AAA` whose registry entry now reads `bbb` gets exactly one event, `TICKER_CHANGE: AAA → BBB`, with the ticker-change note and the run's time |

## Left out

- HTTP requests, headers, status codes and JSON parsing: each document is an input. `fetch(cik)` is a function that gives `None` for a failed request. Being a function, it gives two rows with the same CIK the same response, where the layer makes a fresh request per row. With a response per request, `LayerPassEffect` would keep its shape: a row's revenue is the last truthy response among the rows with its ticker.
- `time.sleep` rate limiting: it has no effect on the data.
- SQLite plumbing: connections, `CREATE TABLE`, `ALTER TABLE`, commits and the periodic commit every 100 entities. The tables are values and classes.
- The CSV exports, including the sync's `ORDER BY revenue DESC` export. Only the event-log projection's row selection and order are modelled, without the file writing.
- `print` progress output and the error message of the layer's outer handler.
- `datetime.now()`: the clock reading is an integer parameter. Timestamps compare as integers in place of the `'%Y-%m-%d %H:%M:%S'` strings.
- Engine.EngineRevenue: `val` is an integer, not a JSON float. The `REAL` revenue column is an integer too.
- Text.Upper: upper-cases ASCII letters only; `str.upper` also maps other Unicode letters.
- The `ai_research` texts: each is an opaque constant of the `Note` datatype, not the literal prose.
- JSON `null`, non-string tickers and non-dictionary values are not modelled. An optional document field is present or missing.
- Engine.Entry: the registry fields `cik_str`, `ticker` and `title` are always present. In the source, a missing `title` (engine/update_tickers.py:115, inside the `try`) skips the entity, and a missing `cik_str` or `ticker` (lines 50-51, before the `try`) ends the whole sync.
- Negative CIKs: a CIK is a natural number, so `zfill` of a negative number is not reached from the sync loop.
- EventLog.Latest: the log's `ORDER BY timestamp DESC LIMIT 1` does not fix an order among equal timestamps. The model takes the event appended last.
- EventLog.SortByTicker: SQLite's order among equal tickers is not fixed. The model keeps log order among them.
- EventLog.ProjectOnePerCik and EventLog.WhereOnePerCik: both require `UniqueStamps`, which the source does not promise. Two runs with the same clock reading can give a CIK two events at its greatest timestamp, and the projection then lists that CIK twice. `RunKeepsStampsUnique` gives the condition under which runs keep stamps unique: the clock is strictly ahead of the log.
- EventLog.RerunAppendsNothing: requires every logged timestamp to be no later than the first run's time. The source takes the clock reading as given.
- The two scripts that write `ticker_event_log` in `tickers.db` use different schemas. The model keeps the log, the CIK-keyed company table and the layer's table separate.
- Layer.Record: `name` stands for every column the layer neither reads nor writes.
- Facts.PointsFor: currencies are an ordered list, and a duplicated currency key takes its first entry. The parsed `dict` holds each key once, so only distinct codes can occur.
- The event log's failure to fetch the snapshot ends the script before any change. It is not modelled.
- The event log's `if scenario:` truthiness test: every rendered scenario is non-empty, so the test is modelled as "a scenario exists".
- The sync's `except Exception` also covers failures of the upsert itself. Only a failed request or a failed 10-K lookup skips an entity.
- Layer.GetRevenueFromFacts: the non-200 response and the outer handler are both the `None` document.
