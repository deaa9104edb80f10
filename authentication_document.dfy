/**
 * What the registry takes from an Authentication For OPDS document
 * (authentication_document.py): the coverage of its service and focus
 * areas resolved to places, the library's service-area rows replaced from
 * them, its audiences and collection sizes, and the links it declares.
 */
module AuthenticationDocument {
  import opened Wrappers
  import opened Text
  import opened Places
  import opened Libraries
  import Languages
  import ProblemDetails

  // ---------------------------------------------------------------------
  // Coverage
  // ---------------------------------------------------------------------

  const COVERAGE_EVERYWHERE := "everywhere"

  /** A coverage value: one place name, or a list of them. */
  datatype PlaceNames = OneName(name: string) | NameList(names: seq<string>)

  /**
   * A coverage object: names without a nation, or a JSON object from nation
   * to names. The entries come from a parsed JSON object, so their nations
   * are distinct; a repeated nation would be read once per entry.
   */
  datatype Coverage = Plain(value: PlaceNames) | ByNation(entries: seq<(string, PlaceNames)>)

  /** A JSON object from names to coverage values, in insertion order. */
  type Dict = seq<(string, PlaceNames)>

  /** Where `d[k]` sits, or -1. */
  function KeyIndex(d: Dict, k: string): (r: int)
    ensures -1 <= r < |d|
    ensures r >= 0 ==> d[r].0 == k
    ensures r < 0 ==> forall i | 0 <= i < |d| :: d[i].0 != k
    decreases |d|
  {
    if |d| == 0 then -1
    else if d[|d| - 1].0 == k then |d| - 1
    else KeyIndex(d[..|d| - 1], k)
  }

  function Get(d: Dict, k: string): Option<PlaceNames>
  {
    var i := KeyIndex(d, k);
    if i >= 0 then Some(d[i].1) else None
  }

  /** `d[k] = v`: a key already present keeps its place, a new one goes last. */
  function Put(d: Dict, k: string, v: PlaceNames): (r: Dict)
    ensures Get(r, k) == Some(v)
    ensures forall other | other != k :: Get(r, other) == Get(d, other)
  {
    var i := KeyIndex(d, k);
    if i >= 0 then
      var r := d[i := (k, v)];
      assert forall x :: KeyIndex(r, x) == KeyIndex(d, x) by {
        forall x ensures KeyIndex(r, x) == KeyIndex(d, x) {
          KeyIndexOfUpdate(d, i, (k, v), x);
        }
      }
      r
    else
      var r := d + [(k, v)];
      assert r[..|r| - 1] == d;
      r
  }

  /** Replacing the value of an entry leaves every key where it was. */
  lemma {:induction false} KeyIndexOfUpdate(d: Dict, i: nat, e: (string, PlaceNames), x: string)
    requires i < |d| && d[i].0 == e.0
    ensures KeyIndex(d[i := e], x) == KeyIndex(d, x)
    decreases |d|
  {
    var r := d[i := e];
    if i < |d| - 1 {
      assert r[..|r| - 1] == d[..|d| - 1][i := e];
      KeyIndexOfUpdate(d[..|d| - 1], i, e, x);
    } else {
      assert r[..|r| - 1] == d[..|d| - 1];
    }
  }

  /** The dictionary a JSON object denotes, for `==`. */
  function AsMap(d: Dict): (m: map<string, PlaceNames>)
    ensures |d| == 0 <==> m == map[]
    decreases |d|
  {
    if |d| == 0 then map[]
    else
      var m := AsMap(d[..|d| - 1])[d[|d| - 1].0 := d[|d| - 1].1];
      assert d[|d| - 1].0 in m;
      m
  }

  /** `parse_coverage` returns a tuple; the callers in the tests pass lists. */
  datatype Shape = AsTuple | AsList

  /** The triple (places, unknown, ambiguous). */
  datatype Areas = Areas(shape: Shape, places: seq<Place>, unknown: Dict, ambiguous: Dict)

  /**
   * The registry's geography as `parse_coverage` sees it: the place table,
   * the overlap test and the ZIP code oracle, the everywhere place, and the
   * abbreviation of the configured default nation, when one is found.
   */
  datatype Geography = Geography(store: Store, overlaps: Overlap, zips: ZipOracle, everywhere: Place,
                                 defaultNation: Option<string>)

  /** `nation.lookup_inside`: no overlap, the ZIP fallback allowed. */
  function Within(geo: Geography, nation: Place): string -> Lookup
  {
    name => Resolve(geo.store, nation, name, false, true, geo.overlaps, geo.zips)
  }

  /** What became of the names looked up inside one nation. */
  datatype Outcome = Outcome(found: seq<Place>, missing: seq<string>, unclear: seq<string>)

  /**
   * The names, one by one, each looked up with `find`: a found place is
   * kept, a missing or ambiguous name is recorded.
   */
  function Classify(find: string -> Lookup, names: seq<string>): (r: Outcome)
    ensures |r.found| + |r.missing| + |r.unclear| == |names|
    decreases |names|
  {
    if |names| == 0 then Outcome([], [], [])
    else
      var last := names[|names| - 1];
      Tally(Classify(find, names[..|names| - 1]), last, find(last))
  }

  lemma ClassifySnoc(find: string -> Lookup, names: seq<string>, j: nat)
    requires j < |names|
    ensures Classify(find, names[..j + 1]) == Tally(Classify(find, names[..j]), names[j], find(names[j]))
  {
    assert names[..j + 1][..j] == names[..j];
  }

  /** One name's lookup, recorded. */
  function Tally(acc: Outcome, name: string, l: Lookup): (r: Outcome)
    ensures |r.found| + |r.missing| + |r.unclear| == |acc.found| + |acc.missing| + |acc.unclear| + 1
  {
    match l
    case Found(p) => acc.(found := acc.found + [p])
    case NotFound => acc.(missing := acc.missing + [name])
    case Ambiguous => acc.(unclear := acc.unclear + [name])
  }

  /** A bare name is read as a one-element list. */
  function NamesOf(v: PlaceNames): seq<string>
  {
    if v.OneName? then [v.name] else v.names
  }

  /** One nation of the coverage object. */
  function CoverNation(geo: Geography, acc: Areas, nation: string, value: PlaceNames): Areas
  {
    match LookupOneByName(geo.store, nation, Some(Nation))
    case Ambiguous => acc.(ambiguous := Put(acc.ambiguous, nation, value))
    case NotFound => acc.(unknown := Put(acc.unknown, nation, value))
    case Found(n) =>
      if value == OneName(COVERAGE_EVERYWHERE) then acc.(places := acc.places + [n])
      else
        var o := Classify(Within(geo, n), NamesOf(value));
        Areas(acc.shape, acc.places + o.found,
              if |o.missing| > 0 then Put(acc.unknown, nation, NameList(o.missing)) else acc.unknown,
              if |o.unclear| > 0 then Put(acc.ambiguous, nation, NameList(o.unclear)) else acc.ambiguous)
  }

  /** The nations of a coverage object, in order. */
  function CoverNations(geo: Geography, entries: seq<(string, PlaceNames)>): (r: Areas)
    ensures r.shape == AsTuple
    decreases |entries|
  {
    if |entries| == 0 then Areas(AsTuple, [], [], [])
    else
      var last := entries[|entries| - 1];
      CoverNation(geo, CoverNations(geo, entries[..|entries| - 1]), last.0, last.1)
  }

  /**
   * `parse_coverage`: "everywhere" is the everywhere place; names without a
   * nation belong to the default nation, or are all unknown under "??" when
   * there is none; a JSON object is read nation by nation.
   */
  function CoverageAreas(geo: Geography, coverage: Coverage): (r: Areas)
    ensures r.shape == AsTuple
  {
    if coverage == Plain(OneName(COVERAGE_EVERYWHERE)) then Areas(AsTuple, [geo.everywhere], [], [])
    else
      match coverage
      case ByNation(entries) => CoverNations(geo, entries)
      case Plain(v) =>
        if geo.defaultNation.Some? then CoverNations(geo, [(geo.defaultNation.value, v)])
        else Areas(AsTuple, [], [("??", v)], [])
  }

  /** `parse_coverage`, filling the three results nation by nation. */
  method ParseCoverage(geo: Geography, coverage: Coverage) returns (r: Areas)
    ensures r == CoverageAreas(geo, coverage)
  {
    if coverage == Plain(OneName(COVERAGE_EVERYWHERE)) {
      return Areas(AsTuple, [geo.everywhere], [], []);
    }
    var entries: seq<(string, PlaceNames)>;
    if coverage.Plain? {
      if geo.defaultNation.None? {
        return Areas(AsTuple, [], [("??", coverage.value)], []);
      }
      entries := [(geo.defaultNation.value, coverage.value)];
    } else {
      entries := coverage.entries;
    }
    r := ParseNations(geo, entries);
  }

  /** The loop over the nations of a coverage object. */
  method ParseNations(geo: Geography, entries: seq<(string, PlaceNames)>) returns (r: Areas)
    ensures r == CoverNations(geo, entries)
  {
    r := Areas(AsTuple, [], [], []);
    var i := 0;
    while i < |entries|
      invariant 0 <= i <= |entries|
      invariant r == CoverNations(geo, entries[..i])
    {
      CoverNationsSnoc(geo, entries, i);
      r := ParseNation(geo, r, entries[i].0, entries[i].1);
      i := i + 1;
    }
    assert entries[..i] == entries;
  }

  lemma CoverNationsSnoc(geo: Geography, entries: seq<(string, PlaceNames)>, i: nat)
    requires i < |entries|
    ensures CoverNations(geo, entries[..i + 1]) == CoverNation(geo, CoverNations(geo, entries[..i]), entries[i].0, entries[i].1)
  {
    assert entries[..i + 1][..i] == entries[..i];
  }

  /** The body of the loop over nations in `parse_coverage`. */
  method ParseNation(geo: Geography, acc: Areas, nation: string, value: PlaceNames) returns (r: Areas)
    ensures r == CoverNation(geo, acc, nation, value)
  {
    var nationPlace := LookupOneByName(geo.store, nation, Some(Nation));
    if nationPlace.Ambiguous? {
      return acc.(ambiguous := Put(acc.ambiguous, nation, value));
    } else if nationPlace.NotFound? {
      return acc.(unknown := Put(acc.unknown, nation, value));
    } else if value == OneName(COVERAGE_EVERYWHERE) {
      return acc.(places := acc.places + [nationPlace.place]);
    }
    var o := ParseNames(geo, nationPlace.place, NamesOf(value));
    r := acc.(places := acc.places + o.found);
    if |o.missing| > 0 {
      r := r.(unknown := Put(r.unknown, nation, NameList(o.missing)));
    }
    if |o.unclear| > 0 {
      r := r.(ambiguous := Put(r.ambiguous, nation, NameList(o.unclear)));
    }
  }

  /** The loop over the names of one nation in `parse_coverage`. */
  method ParseNames(geo: Geography, nation: Place, names: seq<string>) returns (o: Outcome)
    ensures o == Classify(Within(geo, nation), names)
  {
    ghost var find := Within(geo, nation);
    o := Outcome([], [], []);
    var j := 0;
    while j < |names|
      invariant 0 <= j <= |names|
      invariant o == Classify(find, names[..j])
    {
      ClassifySnoc(find, names, j);
      var place := LookupWithin(geo, nation, names[j]);
      o := Record(o, names[j], place);
      j := j + 1;
    }
    assert names[..j] == names;
  }

  /** One pass of the loop in `parse_coverage`: the place, or the name, is added to its list. */
  method Record(acc: Outcome, name: string, l: Lookup) returns (r: Outcome)
    ensures r == Tally(acc, name, l)
  {
    var found, missing, unclear := acc.found, acc.missing, acc.unclear;
    if l.Found? {
      found := found + [l.place];
    } else if l.NotFound? {
      missing := missing + [name];
    } else {
      unclear := unclear + [name];
    }
    r := Outcome(found, missing, unclear);
  }

  /** `nation.lookup_inside(name)`. */
  method LookupWithin(geo: Geography, nation: Place, name: string) returns (l: Lookup)
    ensures l == Within(geo, nation)(name)
  {
    l := LookupInside(geo.store, nation, name, false, true, geo.overlaps, geo.zips);
  }

  /** A coverage object of one nation, unfolded. */
  lemma OneNation(geo: Geography, nation: string, value: PlaceNames)
    ensures CoverNations(geo, [(nation, value)]) == CoverNation(geo, Areas(AsTuple, [], [], []), nation, value)
  {
    assert [(nation, value)][..0] == [];
  }

  /**
   * A nation the registry does not know leaves its whole value under
   * unknown, an ambiguous one under ambiguous; a known nation covered
   * "everywhere" is itself the place.
   */
  lemma NationOutcomes(geo: Geography, nation: string, value: PlaceNames)
    ensures var r := CoverageAreas(geo, ByNation([(nation, value)]));
      match LookupOneByName(geo.store, nation, Some(Nation))
      case NotFound => r == Areas(AsTuple, [], [(nation, value)], [])
      case Ambiguous => r == Areas(AsTuple, [], [], [(nation, value)])
      case Found(n) => value == OneName(COVERAGE_EVERYWHERE) ==> r == Areas(AsTuple, [n], [], [])
  {
    OneNation(geo, nation, value);
    var empty: Dict := [];
    assert Put(empty, nation, value) == [(nation, value)];
  }

  /** Under a known nation a bare place name means the same as a list holding only it. */
  lemma BareNameIsList(geo: Geography, nation: string, name: string)
    requires name != COVERAGE_EVERYWHERE
    requires LookupOneByName(geo.store, nation, Some(Nation)).Found?
    ensures CoverageAreas(geo, ByNation([(nation, OneName(name))]))
         == CoverageAreas(geo, ByNation([(nation, NameList([name]))]))
  {
    OneNation(geo, nation, OneName(name));
    OneNation(geo, nation, NameList([name]));
  }

  /** Names without a nation are read as the default nation's. */
  lemma UnscopedNamesUseDefaultNation(geo: Geography, v: PlaceNames)
    requires v != OneName(COVERAGE_EVERYWHERE)
    ensures geo.defaultNation.Some? ==>
      CoverageAreas(geo, Plain(v)) == CoverageAreas(geo, ByNation([(geo.defaultNation.value, v)]))
    ensures geo.defaultNation.None? ==>
      var r := CoverageAreas(geo, Plain(v));
      r.places == [] && r.unknown == [("??", v)] && r.ambiguous == []
  {
  }

  /**
   * Every listed name lands in exactly one list: a name that resolves to a
   * place gives that place, a missing name is unknown, an ambiguous one
   * ambiguous, and nothing else is recorded.
   */
  lemma {:induction false} EveryNameAccounted(find: string -> Lookup, names: seq<string>)
    ensures var o := Classify(find, names);
      && (forall n | n in o.missing :: n in names && find(n).NotFound?)
      && (forall n | n in o.unclear :: n in names && find(n).Ambiguous?)
      && (forall p | p in o.found :: exists n | n in names :: find(n) == Found(p))
      && (forall n | n in names && find(n).NotFound? :: n in o.missing)
      && (forall n | n in names && find(n).Ambiguous? :: n in o.unclear)
      && (forall n | n in names && find(n).Found? :: find(n).place in o.found)
    decreases |names|
  {
    if |names| > 0 {
      var init := names[..|names| - 1];
      EveryNameAccounted(find, init);
      assert names == init + [names[|names| - 1]];
    }
  }

  // ---------------------------------------------------------------------
  // Service and focus areas
  // ---------------------------------------------------------------------

  /** Whether a document value is truthy: a missing, empty string, empty list or empty object is not. */
  predicate Given(c: Option<Coverage>)
  {
    c.Some? &&
    match c.value
    case Plain(OneName(s)) => s != ""
    case Plain(NameList(ns)) => |ns| > 0
    case ByNation(es) => |es| > 0
  }

  /**
   * `parse_service_and_focus_area`: a missing service area is everywhere; a
   * missing focus area is the service area itself.
   */
  function ServiceAndFocus(geo: Geography, service: Option<Coverage>, focus: Option<Coverage>): (Areas, Areas)
  {
    var s := if Given(service) then CoverageAreas(geo, service.value) else Areas(AsTuple, [geo.everywhere], [], []);
    var f := if Given(focus) then CoverageAreas(geo, focus.value) else s;
    (s, f)
  }

  /** The `[[], {}, {}]` that `set_service_areas` compares against. */
  const EMPTY := Areas(AsList, [], [], [])

  /** Python's `==` on two triples: a tuple never equals a list; dictionaries compare as maps. */
  predicate SameAreas(a: Areas, b: Areas)
  {
    a.shape == b.shape && a.places == b.places && AsMap(a.unknown) == AsMap(b.unknown)
    && AsMap(a.ambiguous) == AsMap(b.ambiguous)
  }

  /**
   * Both areas come back as tuples, so neither ever equals the empty list
   * `set_service_areas` looks for; without a focus area both are the same.
   */
  lemma ParsedAreasAreNeverEmpty(geo: Geography, service: Option<Coverage>, focus: Option<Coverage>)
    ensures var (s, f) := ServiceAndFocus(geo, service, focus);
      && !SameAreas(s, EMPTY) && !SameAreas(f, EMPTY)
      && (!Given(focus) ==> SameAreas(s, f))
      && (!Given(service) ==> s.places == [geo.everywhere])
  {
  }

  /** The detail of the problem for unresolved names; `json.dumps` is a parameter. */
  type Dumps = Dict -> string

  function AreasProblem(invalid: ProblemDetails.ProblemDetail, dumps: Dumps, a: Areas): (r: Option<ProblemDetails.ProblemDetail>)
    ensures r.None? <==> |a.unknown| == 0 && |a.ambiguous| == 0
    ensures r.Some? ==> r.value.uri == invalid.uri && r.value.detail.Some?
    ensures r.Some? && |a.ambiguous| == 0 ==>
      r.value.detail == Some("The following service area was unknown: " + dumps(a.unknown) + ".")
    ensures r.Some? && |a.unknown| == 0 ==>
      r.value.detail == Some("The following service area was ambiguous: " + dumps(a.ambiguous) + ".")
  {
    if |a.unknown| == 0 && |a.ambiguous| == 0 then None
    else
      var msgs := (if |a.unknown| > 0 then ["The following service area was unknown: " + dumps(a.unknown) + "."] else [])
                + (if |a.ambiguous| > 0 then ["The following service area was ambiguous: " + dumps(a.ambiguous) + "."] else []);
      Some(ProblemDetails.Detailed(invalid, Some(Join(msgs, " ")), None, None, None, None))
  }

  /** One row per place, in order, with the given role. */
  function Gather(a: Areas, role: AreaRole): (r: seq<AreaRow>)
    ensures |r| == |a.places|
    ensures forall i | 0 <= i < |r| :: r[i] == AreaRow(Some(a.places[i]), role)
  {
    seq(|a.places|, i requires 0 <= i < |a.places| => AreaRow(Some(a.places[i]), role))
  }

  /** The library's rows once `get_one_or_create` has found or created each of the new rows. */
  function Attach(rows: seq<AreaRow>, added: seq<AreaRow>): (r: seq<AreaRow>)
    ensures forall x | x in rows :: x in r
    ensures forall x | x in added :: x in r
    ensures forall x | x in r :: x in rows || x in added
    decreases |added|
  {
    if |added| == 0 then rows
    else
      var prev := Attach(rows, added[..|added| - 1]);
      var x := added[|added| - 1];
      assert forall y | y in added :: y in added[..|added| - 1] || y == x;
      if x in prev then prev else prev + [x]
  }

  /**
   * `_update_service_areas`: a problem when any name went unresolved,
   * otherwise one row per place, gathered in order and attached to the
   * library.
   */
  method UpdateServiceAreas(library: Library, invalid: ProblemDetails.ProblemDetail, dumps: Dumps, areas: Areas,
                            role: AreaRole, gathered: seq<AreaRow>)
    returns (problem: Option<ProblemDetails.ProblemDetail>, rows: seq<AreaRow>)
    modifies library`serviceAreas
    ensures problem == AreasProblem(invalid, dumps, areas)
    ensures problem.Some? ==> rows == gathered && library.serviceAreas == old(library.serviceAreas)
    ensures problem.None? ==>
      rows == gathered + Gather(areas, role) && library.serviceAreas == Attach(old(library.serviceAreas), Gather(areas, role))
  {
    problem := AreasProblem(invalid, dumps, areas);
    if problem.Some? {
      return problem, gathered;
    }
    var added := Gather(areas, role);
    rows := gathered;
    var i := 0;
    while i < |areas.places|
      invariant 0 <= i <= |areas.places|
      invariant rows == gathered + added[..i]
      invariant library.serviceAreas == Attach(old(library.serviceAreas), added[..i])
    {
      assert added[..i + 1][..i] == added[..i];
      var row := AreaRow(Some(areas.places[i]), role);
      if row !in library.serviceAreas {
        library.serviceAreas := library.serviceAreas + [row];
      }
      rows := rows + [row];
      i := i + 1;
    }
    assert added[..i] == added;
  }

  /** The first branch of `set_service_areas`: everything is registered as focus. */
  predicate FocusOnly(service: Areas, focus: Areas)
  {
    (SameAreas(focus, EMPTY) && !SameAreas(service, EMPTY)) || SameAreas(service, focus)
  }

  /**
   * What `set_service_areas` returns and leaves as the library's rows,
   * starting from `rows`.
   */
  function ServiceAreasAfter(invalid: ProblemDetails.ProblemDetail, dumps: Dumps, rows: seq<AreaRow>,
                             service: Areas, focus: Areas): (Option<ProblemDetails.ProblemDetail>, seq<AreaRow>)
  {
    if SameAreas(focus, EMPTY) && SameAreas(service, EMPTY) then (None, rows)
    else if FocusOnly(service, focus) then
      var p := AreasProblem(invalid, dumps, service);
      if p.Some? then (p, rows) else (None, Gather(service, Focus))
    else
      var p := AreasProblem(invalid, dumps, service);
      if p.Some? then (p, rows)
      else
        var q := AreasProblem(invalid, dumps, focus);
        if q.Some? then (q, Attach(rows, Gather(service, Eligibility)))
        else (None, Gather(service, Eligibility) + Gather(focus, Focus))
  }

  /** `set_service_areas`. */
  method SetServiceAreas(library: Library, invalid: ProblemDetails.ProblemDetail, dumps: Dumps,
                         service: Areas, focus: Areas) returns (problem: Option<ProblemDetails.ProblemDetail>)
    modifies library`serviceAreas
    ensures (problem, library.serviceAreas) == ServiceAreasAfter(invalid, dumps, old(library.serviceAreas), service, focus)
  {
    if SameAreas(focus, EMPTY) && SameAreas(service, EMPTY) {
      return None;
    }
    ghost var before := library.serviceAreas;
    var rows: seq<AreaRow> := [];
    if FocusOnly(service, focus) {
      problem, rows := UpdateServiceAreas(library, invalid, dumps, service, Focus, rows);
      if problem.Some? {
        return;
      }
      assert rows == Gather(service, Focus);
    } else {
      problem, rows := UpdateServiceAreas(library, invalid, dumps, service, Eligibility, rows);
      if problem.Some? {
        return;
      }
      assert library.serviceAreas == Attach(before, Gather(service, Eligibility));
      problem, rows := UpdateServiceAreas(library, invalid, dumps, focus, Focus, rows);
      if problem.Some? {
        assert problem == AreasProblem(invalid, dumps, focus);
        return;
      }
      assert rows == Gather(service, Eligibility) + Gather(focus, Focus);
    }
    library.serviceAreas := rows;
  }

  /**
   * On success the library's rows are exactly the gathered ones: each a
   * place of the service area (eligibility, or focus when the areas are the
   * same) or of the focus area (focus); a problem is about the service area
   * first, and leaves at most the service area's rows added.
   */
  lemma ServiceAreasOutcome(invalid: ProblemDetails.ProblemDetail, dumps: Dumps, rows: seq<AreaRow>,
                            service: Areas, focus: Areas)
    requires !(SameAreas(focus, EMPTY) && SameAreas(service, EMPTY))
    ensures var (p, after) := ServiceAreasAfter(invalid, dumps, rows, service, focus);
      && (p.None? <==> AreasProblem(invalid, dumps, service).None?
                       && (FocusOnly(service, focus) || AreasProblem(invalid, dumps, focus).None?))
      && (p.None? ==> forall x | x in after ::
            || (x.role == Focus && x.place.Some? && x.place.value in focus.places + service.places)
            || (x.role == Eligibility && x.place.Some? && x.place.value in service.places))
      && (p.None? && !FocusOnly(service, focus) ==> |after| == |service.places| + |focus.places|)
      && (p.Some? ==> forall x | x in after :: x in rows || (x.role == Eligibility && x.place.Some? && x.place.value in service.places))
  {
    var (p, after) := ServiceAreasAfter(invalid, dumps, rows, service, focus);
    if p.None? {
      if FocusOnly(service, focus) {
        assert after == Gather(service, Focus);
      } else {
        var e := Gather(service, Eligibility);
        var f := Gather(focus, Focus);
        assert after == e + f;
        forall x | x in after
          ensures || (x.role == Focus && x.place.Some? && x.place.value in focus.places + service.places)
                  || (x.role == Eligibility && x.place.Some? && x.place.value in service.places)
        {
          if x in e {
            var i :| 0 <= i < |e| && e[i] == x;
            assert x.place.value == service.places[i];
          } else {
            assert x in f;
            var i :| 0 <= i < |f| && f[i] == x;
            assert x.place.value == focus.places[i];
          }
        }
      }
    }
  }

  /**
   * A document whose service area resolves to no place and no problem, and
   * which gives no focus area, erases every service-area row of the library
   * (a coverage of `{"US": []}`, say): the empty-input guard compares
   * against a list and never sees the parsed tuple.
   */
  lemma NothingCoveredErasesRows(geo: Geography, invalid: ProblemDetails.ProblemDetail, dumps: Dumps,
                                 rows: seq<AreaRow>, service: Option<Coverage>)
    requires Given(service)
    requires var a := CoverageAreas(geo, service.value); a.places == [] && a.unknown == [] && a.ambiguous == []
    ensures var (s, f) := ServiceAndFocus(geo, service, None);
      ServiceAreasAfter(invalid, dumps, rows, s, f) == (None, [])
  {
  }

  /** An example of it: a known nation with an empty list of places. */
  lemma EmptyNationListErasesRows(geo: Geography, invalid: ProblemDetails.ProblemDetail, dumps: Dumps,
                                  rows: seq<AreaRow>, nation: string)
    requires LookupOneByName(geo.store, nation, Some(Nation)).Found?
    ensures var (s, f) := ServiceAndFocus(geo, Some(ByNation([(nation, NameList([]))])), None);
      ServiceAreasAfter(invalid, dumps, rows, s, f) == (None, [])
  {
    OneNation(geo, nation, NameList([]));
    var n := LookupOneByName(geo.store, nation, Some(Nation)).place;
    assert Classify(Within(geo, n), []) == Outcome([], [], []);
    NothingCoveredErasesRows(geo, invalid, dumps, rows, Some(ByNation([(nation, NameList([]))])));
  }

  // ---------------------------------------------------------------------
  // Audiences
  // ---------------------------------------------------------------------

  const PUBLIC_AUDIENCE := "public"
  const OTHER_AUDIENCE := "other"

  /** `Audience.KNOWN_AUDIENCES`. */
  const KNOWN_AUDIENCES: seq<string> :=
    ["educational-primary", "educational-secondary", "other", "print-disability", "public", "research"]

  /**
   * The `audience` member: absent (or another false value), one name, a
   * list of names, or a value of some other type, shown as `str` shows it.
   */
  datatype AudienceInput = NoAudience | OneAudience(name: string) | AudienceList(names: seq<string>) | NotAList(shown: string)

  /** The names to file, before filtering: none given means the general public. */
  function AudienceNames(input: AudienceInput): Option<seq<string>>
  {
    match input
    case NoAudience => Some([PUBLIC_AUDIENCE])
    case OneAudience(n) => Some(if n == "" then [PUBLIC_AUDIENCE] else [n])
    case AudienceList(ns) => Some(if |ns| == 0 then [PUBLIC_AUDIENCE] else ns)
    case NotAList(_) => None
  }

  function Filed(name: string): string
  {
    if name in KNOWN_AUDIENCES then name else OTHER_AUDIENCE
  }

  /** `_update_audiences`: the library's audiences, or the problem's detail. */
  function AudiencesFor(input: AudienceInput): Result<set<string>, string>
  {
    match AudienceNames(input)
    case None => Err("'audience' must be a list: " + input.shown)
    case Some(names) => Ok(FiledAs(names))
  }

  /** The audiences the names are filed under. */
  function FiledAs(names: seq<string>): set<string>
  {
    set n | n in names :: Filed(n)
  }

  lemma FiledAsSnoc(names: seq<string>, i: nat)
    requires i < |names|
    ensures FiledAs(names[..i + 1]) == FiledAs(names[..i]) + {Filed(names[i])}
  {
    assert names[..i + 1] == names[..i] + [names[i]];
  }

  /**
   * The audiences filed are known ones, never none; a known audience given
   * is filed as itself; "other" is filed exactly when some name given is
   * unknown or is "other"; nothing else is filed, so no name given means
   * exactly the general public.
   */
  lemma AudiencesAreKnown(input: AudienceInput)
    ensures var r := AudiencesFor(input);
      && (r.Err? <==> input.NotAList?)
      && (r.Ok? ==>
        && r.value != {}
        && (forall a | a in r.value :: a in KNOWN_AUDIENCES)
        && (forall a | a in r.value :: a == OTHER_AUDIENCE || a in AudienceNames(input).value)
        && (forall n | n in AudienceNames(input).value && n in KNOWN_AUDIENCES :: n in r.value)
        && (OTHER_AUDIENCE in r.value <==> exists n | n in AudienceNames(input).value :: Filed(n) == OTHER_AUDIENCE))
    ensures input == NoAudience || input == OneAudience("") || input == AudienceList([]) ==>
      AudiencesFor(input) == Ok({PUBLIC_AUDIENCE})
  {
    if !input.NotAList? {
      var names := AudienceNames(input).value;
      assert names[0] in names;
      assert Filed(names[0]) in AudiencesFor(input).value;
      if names == [PUBLIC_AUDIENCE] {
        assert Filed(PUBLIC_AUDIENCE) == PUBLIC_AUDIENCE;
        assert FiledAs(names) == {PUBLIC_AUDIENCE};
      }
    }
  }

  /** `_update_audiences`, filtering the names into a set. */
  method UpdateAudiences(library: Library, invalid: ProblemDetails.ProblemDetail, input: AudienceInput)
    returns (problem: Option<ProblemDetails.ProblemDetail>)
    modifies library`audiences
    ensures AudiencesFor(input).Err? ==>
      && problem == Some(ProblemDetails.Detailed(invalid, Some(AudiencesFor(input).error), None, None, None, None))
      && library.audiences == old(library.audiences)
    ensures AudiencesFor(input).Ok? ==> problem.None? && library.audiences == AudiencesFor(input).value
  {
    var given := AudienceNames(input);
    if given.None? {
      return Some(ProblemDetails.Detailed(invalid, Some("'audience' must be a list: " + input.shown), None, None, None, None));
    }
    var names := given.value;
    var filtered: set<string> := {};
    var i := 0;
    while i < |names|
      invariant 0 <= i <= |names|
      invariant filtered == FiledAs(names[..i])
    {
      FiledAsSnoc(names, i);
      if names[i] in KNOWN_AUDIENCES {
        filtered := filtered + {names[i]};
      } else {
        filtered := filtered + {OTHER_AUDIENCE};
      }
      i := i + 1;
    }
    assert names[..i] == names;
    library.audiences := filtered;
    return None;
  }

  // ---------------------------------------------------------------------
  // Collection sizes
  // ---------------------------------------------------------------------

  /**
   * The `collection_size` member: absent, one size (a string or an
   * integer), sizes by language (a JSON object), or any other value, which
   * includes a floating-point number.
   */
  datatype CollectionSizes = NoSizes | OneSize(size: SizeValue) | ByLanguage(entries: seq<(string, SizeValue)>) | NotSizes

  const SIZES_MESSAGE := "'collection_size' must be a number or an object mapping language codes to numbers"

  /** The (language, size) pairs handed to `CollectionSummary.set`. */
  function SizeEntries(sizes: CollectionSizes): seq<(Option<string>, SizeValue)>
  {
    match sizes
    case NoSizes => []
    case OneSize(s) => [(None, s)]
    case ByLanguage(es) => Tagged(es)
    case NotSizes => []
  }

  function Tagged(es: seq<(string, SizeValue)>): (r: seq<(Option<string>, SizeValue)>)
    ensures |r| == |es|
    ensures forall i | 0 <= i < |es| :: r[i] == (Some(es[i].0), es[i].1)
  {
    if |es| == 0 then [] else [(Some(es[0].0), es[0].1)] + Tagged(es[1..])
  }

  /** The state of the loop: the summaries, the codes set so far, the unknown-language total, a failure. */
  datatype SizeRun = SizeRun(collections: map<Option<string>, nat>, touched: set<Option<string>>, unknownSize: nat,
                             error: Option<string>)

  /** The loop over the sizes; the first ValueError stops it, keeping what was set before. */
  function RunSizes(t: Languages.Tables, start: map<Option<string>, nat>, entries: seq<(Option<string>, SizeValue)>): (r: SizeRun)
    ensures r.error.None? ==> forall i | 0 <= i < |entries| :: CheckedSize(entries[i].1).Ok?
    ensures r.error.Some? ==> exists i | 0 <= i < |entries| :: CheckedSize(entries[i].1) == Err(r.error.value)
    decreases |entries|
  {
    if |entries| == 0 then SizeRun(start, {}, 0, None)
    else SizeStep(t, RunSizes(t, start, entries[..|entries| - 1]), entries[|entries| - 1])
  }

  /** One pass of the loop: after a failure nothing changes; otherwise the size is set or refused. */
  function SizeStep(t: Languages.Tables, run: SizeRun, entry: (Option<string>, SizeValue)): (r: SizeRun)
    ensures run.error.Some? ==> r == run
    ensures r.error.Some? && run.error.None? ==> CheckedSize(entry.1) == Err(r.error.value)
    ensures r.error.None? ==> CheckedSize(entry.1).Ok?
  {
    if run.error.Some? then run
    else
      match CheckedSize(entry.1)
      case Err(m) => run.(error := Some(m))
      case Ok(n) =>
        var code := Languages.StringToAlpha3(t, entry.0);
        SizeRun(run.collections[code := n], run.touched + {code},
                run.unknownSize + (if code.None? then n else 0), None)
  }

  lemma RunSizesSnoc(t: Languages.Tables, start: map<Option<string>, nat>,
                     entries: seq<(Option<string>, SizeValue)>, i: nat)
    requires i < |entries|
    ensures RunSizes(t, start, entries[..i + 1]) == SizeStep(t, RunSizes(t, start, entries[..i]), entries[i])
  {
    assert entries[..i + 1][..i] == entries[..i];
  }

  /**
   * `_update_collection_size`: the failure's message and the summaries left
   * behind. On success the summaries are those just set, plus the total of
   * the unknown languages under None when it is not zero.
   */
  function SizesOutcome(t: Languages.Tables, start: map<Option<string>, nat>, sizes: CollectionSizes)
    : (Option<string>, map<Option<string>, nat>)
  {
    if sizes.NotSizes? then (Some(SIZES_MESSAGE), start)
    else
      var run := RunSizes(t, start, SizeEntries(sizes));
      if run.error.Some? then (run.error, run.collections)
      else
        var cols := if run.unknownSize != 0 then run.collections[None := run.unknownSize] else run.collections;
        var kept := if run.unknownSize != 0 then run.touched + {None} else run.touched;
        (None, map code | code in cols && code in kept :: cols[code])
  }

  /** The sum of the valid sizes given for languages that no code is found for. */
  function UnknownTotal(t: Languages.Tables, entries: seq<(Option<string>, SizeValue)>): nat
    decreases |entries|
  {
    if |entries| == 0 then 0
    else
      var (language, size) := entries[|entries| - 1];
      UnknownTotal(t, entries[..|entries| - 1])
        + (if Languages.StringToAlpha3(t, language).None? && CheckedSize(size).Ok? then CheckedSize(size).value else 0)
  }

  /** A loop that did not fail has added up the unknown-language sizes. */
  lemma {:induction false} RunSizesUnknown(t: Languages.Tables, start: map<Option<string>, nat>,
                                           entries: seq<(Option<string>, SizeValue)>)
    requires RunSizes(t, start, entries).error.None?
    ensures RunSizes(t, start, entries).unknownSize == UnknownTotal(t, entries)
    decreases |entries|
  {
    if |entries| > 0 {
      RunSizesUnknown(t, start, entries[..|entries| - 1]);
    }
  }

  /** The size last given for an unknown language is part of the unknown total. */
  lemma {:induction false} LastUnknownWithinTotal(t: Languages.Tables, entries: seq<(Option<string>, SizeValue)>)
    ensures LastSize(t, entries, None).Some? ==> LastSize(t, entries, None).value <= UnknownTotal(t, entries)
    decreases |entries|
  {
    if |entries| > 0 {
      LastUnknownWithinTotal(t, entries[..|entries| - 1]);
    }
  }

  /** The size last given for a language code, if any. */
  function LastSize(t: Languages.Tables, entries: seq<(Option<string>, SizeValue)>, code: Option<string>): Option<nat>
    decreases |entries|
  {
    if |entries| == 0 then None
    else
      var (language, size) := entries[|entries| - 1];
      if Languages.StringToAlpha3(t, language) == code && CheckedSize(size).Ok? then Some(CheckedSize(size).value)
      else LastSize(t, entries[..|entries| - 1], code)
  }

  lemma {:induction false} RunSizesContents(t: Languages.Tables, start: map<Option<string>, nat>,
                                            entries: seq<(Option<string>, SizeValue)>)
    requires RunSizes(t, start, entries).error.None?
    ensures var run := RunSizes(t, start, entries);
      && (forall code | code in run.touched :: code in run.collections && LastSize(t, entries, code) == Some(run.collections[code]))
      && (forall code | LastSize(t, entries, code).Some? :: code in run.touched)
    decreases |entries|
  {
    if |entries| > 0 {
      RunSizesContents(t, start, entries[..|entries| - 1]);
    }
  }

  /**
   * After a successful update the library has a summary for exactly the
   * languages just given, each with the size last given for it, and under
   * None the sum of the sizes given for unknown languages; a known language
   * is never merged into None.
   */
  lemma SizesAreLastGiven(t: Languages.Tables, start: map<Option<string>, nat>, sizes: CollectionSizes)
    requires SizesOutcome(t, start, sizes).0.None?
    ensures var entries := SizeEntries(sizes);
      var after := SizesOutcome(t, start, sizes).1;
      && (forall code | code in after && code.Some? :: LastSize(t, entries, code) == Some(after[code]))
      && (forall code: Option<string> | code.Some? && LastSize(t, entries, code).Some? :: code in after)
      && (forall code | code in after :: code.None? || LastSize(t, entries, code).Some?)
    ensures var entries := SizeEntries(sizes);
      var after := SizesOutcome(t, start, sizes).1;
      && (None in after <==> UnknownTotal(t, entries) != 0 || LastSize(t, entries, None).Some?)
      && (None in after ==> after[None] == UnknownTotal(t, entries))
  {
    var entries := SizeEntries(sizes);
    RunSizesContents(t, start, entries);
    RunSizesUnknown(t, start, entries);
    LastUnknownWithinTotal(t, entries);
  }

  /** A document without sizes removes every collection summary; a floating-point size is refused. */
  lemma SizesEdgeCases(t: Languages.Tables, start: map<Option<string>, nat>)
    ensures SizesOutcome(t, start, NoSizes) == (None, map[])
    ensures SizesOutcome(t, start, NotSizes) == (Some(SIZES_MESSAGE), start)
  {
    assert SizeEntries(NoSizes) == [];
  }

  /** `_update_collection_size`, calling `CollectionSummary.set` for each entry. */
  method UpdateCollectionSize(library: Library, t: Languages.Tables, invalid: ProblemDetails.ProblemDetail,
                              sizes: CollectionSizes) returns (problem: Option<ProblemDetails.ProblemDetail>)
    modifies library`collections
    ensures library.collections == SizesOutcome(t, old(library.collections), sizes).1
    ensures var error := SizesOutcome(t, old(library.collections), sizes).0;
      problem == (if error.Some? then Some(ProblemDetails.Detailed(invalid, error, None, None, None, None)) else None)
  {
    if sizes.NotSizes? {
      return Some(ProblemDetails.Detailed(invalid, Some(SIZES_MESSAGE), None, None, None, None));
    }
    var run := SetSizes(library, t, SizeEntries(sizes));
    if run.error.Some? {
      return Some(ProblemDetails.Detailed(invalid, run.error, None, None, None, None));
    }
    var touched := run.touched;
    if run.unknownSize != 0 {
      var total := library.SetCollectionSummary(t, None, Number(run.unknownSize as real));
      touched := touched + {None};
    }
    var cols := library.collections;
    library.collections := map code | code in cols && code in touched :: cols[code];
    return None;
  }

  /** The loop of `_update_collection_size`: one summary per entry, until a size is refused. */
  method SetSizes(library: Library, t: Languages.Tables, entries: seq<(Option<string>, SizeValue)>) returns (run: SizeRun)
    modifies library`collections
    ensures run == RunSizes(t, old(library.collections), entries)
    ensures library.collections == run.collections
  {
    ghost var start := library.collections;
    run := SizeRun(library.collections, {}, 0, None);
    var i := 0;
    while i < |entries|
      invariant 0 <= i <= |entries|
      invariant run == RunSizes(t, start, entries[..i])
      invariant run.error.None? && library.collections == run.collections
    {
      RunSizesSnoc(t, start, entries, i);
      var summary := library.SetCollectionSummary(t, entries[i].0, entries[i].1);
      if summary.Err? {
        run := run.(error := Some(summary.error));
        RunSizesStops(t, start, entries, i + 1);
        return;
      }
      var (code, n) := summary.value;
      run := SizeRun(library.collections, run.touched + {code}, run.unknownSize + (if code.None? then n else 0), None);
      i := i + 1;
    }
    assert entries[..i] == entries;
  }

  /** Once the loop has failed, later entries change nothing. */
  lemma {:induction false} RunSizesStops(t: Languages.Tables, start: map<Option<string>, nat>,
                                         entries: seq<(Option<string>, SizeValue)>, k: nat)
    requires k <= |entries| && RunSizes(t, start, entries[..k]).error.Some?
    ensures RunSizes(t, start, entries) == RunSizes(t, start, entries[..k])
    decreases |entries| - k
  {
    if k < |entries| {
      RunSizesSnoc(t, start, entries, k);
      assert RunSizes(t, start, entries[..k + 1]) == RunSizes(t, start, entries[..k]);
      RunSizesStops(t, start, entries, k + 1);
    } else {
      assert entries[..k] == entries;
    }
  }

  // ---------------------------------------------------------------------
  // Links
  // ---------------------------------------------------------------------

  /** A link object: `rel`, `type` and `href`, each possibly missing. */
  datatype Link = Link(rel: Option<string>, linkType: Option<string>, href: Option<string>)

  /** A link whose type is given and starts with `t`. */
  predicate TypedAs(link: Link, t: string)
  {
    Truthy(link.linkType) && StartsWith(link.linkType.value, t)
  }

  function FirstWithRel(links: seq<Link>, rel: string): (r: Option<Link>)
    ensures r.Some? ==> r.value in links && r.value.rel == Some(rel)
    ensures r.None? <==> forall l | l in links :: l.rel != Some(rel)
    decreases |links|
  {
    if |links| == 0 then None
    else if links[0].rel == Some(rel) then Some(links[0])
    else FirstWithRel(links[1..], rel)
  }

  function FirstTyped(links: seq<Link>, rel: string, t: string): (r: Option<Link>)
    ensures r.Some? ==> r.value in links && r.value.rel == Some(rel) && TypedAs(r.value, t)
    ensures r.None? <==> forall l | l in links :: !(l.rel == Some(rel) && TypedAs(l, t))
    decreases |links|
  {
    if |links| == 0 then None
    else if links[0].rel == Some(rel) && TypedAs(links[0], t) then Some(links[0])
    else FirstTyped(links[1..], rel, t)
  }

  const BOTH_TYPES_MESSAGE := "At most one of require_type and prefer_type may be specified."

  /**
   * What `_extract_link` promises: the first link with the relation; with a
   * required type, the first such link of that type or nothing; with a
   * preferred type, the first of that type, else the first with the
   * relation. `links` is None when the value is not a list.
   */
  function ChosenLink(links: Option<seq<Link>>, rel: string, requireType: Option<string>, preferType: Option<string>)
    : Result<Option<Link>, string>
  {
    if Truthy(requireType) && Truthy(preferType) then Err(BOTH_TYPES_MESSAGE)
    else if links.None? || |links.value| == 0 then Ok(None)
    else if Truthy(requireType) then Ok(FirstTyped(links.value, rel, requireType.value))
    else if Truthy(preferType) then
      Ok(if FirstTyped(links.value, rel, preferType.value).Some? then FirstTyped(links.value, rel, preferType.value)
         else FirstWithRel(links.value, rel))
    else Ok(FirstWithRel(links.value, rel))
  }

  /** `_extract_link`, with its loop carrying the fallback `good_enough`. */
  method ExtractLink(links: Option<seq<Link>>, rel: string, requireType: Option<string>, preferType: Option<string>)
    returns (r: Result<Option<Link>, string>)
    ensures r == ChosenLink(links, rel, requireType, preferType)
  {
    if Truthy(requireType) && Truthy(preferType) {
      return Err(BOTH_TYPES_MESSAGE);
    }
    if links.None? || |links.value| == 0 {
      return Ok(None);
    }
    var ls := links.value;
    var goodEnough: Option<Link> := None;
    var i := 0;
    while i < |ls|
      invariant 0 <= i <= |ls|
      invariant !Truthy(requireType) && !Truthy(preferType) ==> FirstWithRel(ls, rel) == FirstWithRel(ls[i..], rel)
      invariant !Truthy(preferType) ==> goodEnough.None?
      invariant Truthy(requireType) ==> FirstTyped(ls, rel, requireType.value) == FirstTyped(ls[i..], rel, requireType.value)
      invariant Truthy(preferType) ==>
        && FirstTyped(ls, rel, preferType.value) == FirstTyped(ls[i..], rel, preferType.value)
        && FirstWithRel(ls, rel) == (if goodEnough.Some? then goodEnough else FirstWithRel(ls[i..], rel))
    {
      FirstWithRelStep(ls, rel, i);
      if Truthy(requireType) { FirstTypedStep(ls, rel, requireType.value, i); }
      if Truthy(preferType) { FirstTypedStep(ls, rel, preferType.value, i); }
      var link := ls[i];
      if link.rel != Some(rel) {
        i := i + 1;
        continue;
      }
      if !Truthy(requireType) && !Truthy(preferType) {
        return Ok(Some(link));
      }
      if Truthy(link.linkType) && ((Truthy(requireType) && StartsWith(link.linkType.value, requireType.value))
                                   || (Truthy(preferType) && StartsWith(link.linkType.value, preferType.value))) {
        return Ok(Some(link));
      }
      if !Truthy(requireType) && goodEnough.None? {
        goodEnough := Some(link);
      }
      i := i + 1;
    }
    return Ok(goodEnough);
  }

  lemma FirstWithRelStep(ls: seq<Link>, rel: string, i: nat)
    requires i < |ls|
    ensures FirstWithRel(ls[i..], rel) == if ls[i].rel == Some(rel) then Some(ls[i]) else FirstWithRel(ls[i + 1..], rel)
  {
    assert ls[i..][0] == ls[i] && ls[i..][1..] == ls[i + 1..];
  }

  lemma FirstTypedStep(ls: seq<Link>, rel: string, t: string, i: nat)
    requires i < |ls|
    ensures FirstTyped(ls[i..], rel, t)
         == if ls[i].rel == Some(rel) && TypedAs(ls[i], t) then Some(ls[i]) else FirstTyped(ls[i + 1..], rel, t)
  {
    assert ls[i..][0] == ls[i] && ls[i..][1..] == ls[i + 1..];
  }

  /**
   * The link chosen has the relation; with a required type it has that
   * type; a preferred type is taken whenever some link with the relation
   * has it; a link with the relation is found unless a type is required.
   */
  lemma ChosenLinkMeets(links: Option<seq<Link>>, rel: string, requireType: Option<string>, preferType: Option<string>)
    ensures var r := ChosenLink(links, rel, requireType, preferType);
      && (r.Err? <==> Truthy(requireType) && Truthy(preferType))
      && (r.Ok? && r.value.Some? ==> links.Some? && r.value.value in links.value && r.value.value.rel == Some(rel))
      && (r.Ok? && r.value.Some? && Truthy(requireType) ==> TypedAs(r.value.value, requireType.value))
      && (r.Ok? && Truthy(preferType) && links.Some? && (exists l | l in links.value :: l.rel == Some(rel) && TypedAs(l, preferType.value))
          ==> r.value.Some? && TypedAs(r.value.value, preferType.value))
      && (r.Ok? && !Truthy(requireType) && links.Some? && (exists l | l in links.value :: l.rel == Some(rel)) ==> r.value.Some?)
  {
  }

  /** An entry of `authentication`: a flow object, with its type and links, or something else. */
  datatype AuthEntry = Flow(flowType: Option<string>, links: Option<seq<Link>>) | NotAFlow

  /** `authentication_flows`: the entries that are objects, in order. */
  function AuthenticationFlows(entries: seq<AuthEntry>): (r: seq<AuthEntry>)
    ensures forall f | f in r :: f.Flow? && f in entries
    ensures forall f | f in entries && f.Flow? :: f in r
    decreases |entries|
  {
    if |entries| == 0 then []
    else (if entries[0].Flow? then [entries[0]] else []) + AuthenticationFlows(entries[1..])
  }

  /** `has_link`: some link of the document, or of one of its flows, has the relation. */
  function HasLink(links: Option<seq<Link>>, entries: seq<AuthEntry>, rel: string): bool
  {
    ChosenLink(links, rel, None, None).value.Some?
    || exists f | f in AuthenticationFlows(entries) :: ChosenLink(f.links, rel, None, None).value.Some?
  }

  predicate LinkedIn(links: Option<seq<Link>>, rel: string)
  {
    links.Some? && exists l | l in links.value :: l.rel == Some(rel)
  }

  lemma HasLinkMeansRelation(links: Option<seq<Link>>, entries: seq<AuthEntry>, rel: string)
    ensures HasLink(links, entries, rel) <==> LinkedIn(links, rel) || exists f | f in entries && f.Flow? :: LinkedIn(f.links, rel)
  {
    if exists f | f in entries && f.Flow? :: LinkedIn(f.links, rel) {
      var f :| f in entries && f.Flow? && LinkedIn(f.links, rel);
      assert f in AuthenticationFlows(entries);
    }
  }

  const ANONYMOUS_ACCESS_REL := "https://librarysimplified.org/rel/auth/anonymous"

  /** `anonymous_access`: some flow's type is the anonymous-access relation. */
  predicate AnonymousAccess(entries: seq<AuthEntry>)
  {
    exists f | f in AuthenticationFlows(entries) :: f.flowType == Some(ANONYMOUS_ACCESS_REL)
  }
}
