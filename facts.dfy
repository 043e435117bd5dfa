/** The company-facts document both revenue waterfalls read:
    `facts -> namespace -> tag -> "units" -> currency -> [point]`.

    Lookups by namespace and tag are keyed, so those levels are maps. The
    currency level is an ordered list because one waterfall falls back to
    the FIRST currency key of the JSON object; a JSON object has distinct
    keys, and when an association list holds a key twice the lookups here
    take the first entry. `None` stands for a key the JSON does not have. */
module Facts {
  import opened Opt
  import opened Text

  /** One reported value. `end` and `val` are optional because a point
      without them makes `p['end']` / `p['val']` raise `KeyError`. */
  datatype Point = Point(end: Option<string>, val: Option<int>, fp: Option<string>)

  datatype Unit = Unit(code: string, points: seq<Point>)

  datatype Concept = Concept(units: Option<seq<Unit>>)

  datatype Doc = Doc(facts: Option<map<string, map<string, Concept>>>)

  datatype Tag = Tag(namespace: string, name: string)

  /** `doc['facts'][namespace][tag]['units']`, `None` where a key is missing. */
  function UnitsOf(doc: Doc, t: Tag): (r: Option<seq<Unit>>)
    ensures doc.facts.None? ==> r.None?
    ensures doc.facts.Some? && t.namespace !in doc.facts.value ==> r.None?
    ensures doc.facts.Some? && t.namespace in doc.facts.value && t.name !in doc.facts.value[t.namespace] ==> r.None?
    ensures doc.facts.Some? && t.namespace in doc.facts.value && t.name in doc.facts.value[t.namespace] ==>
              r == doc.facts.value[t.namespace][t.name].units
    ensures r.Some? ==> doc.facts.Some? && t.namespace in doc.facts.value && t.name in doc.facts.value[t.namespace]
                        && doc.facts.value[t.namespace][t.name].units == r
  {
    if doc.facts.Some? && t.namespace in doc.facts.value && t.name in doc.facts.value[t.namespace]
    then doc.facts.value[t.namespace][t.name].units
    else None
  }

  predicate HasCode(units: seq<Unit>, code: string)
  {
    exists i :: 0 <= i < |units| && units[i].code == code
  }

  /** `units[code]`: the points of the first unit entry named `code`. */
  function PointsFor(units: seq<Unit>, code: string): (r: Option<seq<Point>>)
    ensures r.Some? <==> HasCode(units, code)
    ensures r.Some? ==> exists i :: 0 <= i < |units| && units[i].code == code && units[i].points == r.value
  {
    if |units| == 0 then None
    else if units[0].code == code then Some(units[0].points)
    else
      var r := PointsFor(units[1..], code);
      assert HasCode(units, code) <==> HasCode(units[1..], code) by {
        if HasCode(units, code) {
          var i :| 0 <= i < |units| && units[i].code == code;
          assert units[1..][i - 1].code == code;
        }
        if HasCode(units[1..], code) {
          var i :| 0 <= i < |units[1..]| && units[1..][i].code == code;
          assert units[i + 1].code == code;
        }
      }
      assert r.Some? ==> exists i :: 0 <= i < |units| && units[i].code == code && units[i].points == r.value by {
        if r.Some? {
          var i :| 0 <= i < |units[1..]| && units[1..][i].code == code && units[1..][i].points == r.value;
          assert units[i + 1] == units[1..][i];
        }
      }
      r
  }

  /** Every point has an `end`, so `sorted(points, key=lambda x: x['end'])` does not raise. */
  predicate AllDated(points: seq<Point>)
  {
    forall i :: 0 <= i < |points| ==> points[i].end.Some?
  }

  /** `p['end'] <= q['end']` on ISO date strings. */
  predicate EndLe(p: Point, q: Point)
    requires p.end.Some? && q.end.Some?
  {
    LexLe(p.end.value, q.end.value)
  }
}
