/**
 * Place-name resolution: the `Place` table, name parsing, lookup by name,
 * the scoped lookup of a name inside a containing place (with its ZIP-code
 * fallback), the parent hierarchy, human-friendly names and library types.
 *
 * The database is a finite sequence of place rows. PostGIS overlap is an
 * uninterpreted predicate and the uszipcode search engine an oracle.
 */
module Places {
  import opened Wrappers
  import opened Text

  datatype PlaceType = Nation | State | County | City | PostalCode | LibraryServiceArea | Everywhere

  type PlaceId = nat

  /** One row of the `places` table, with its aliases. */
  datatype Place = Place(
    id: PlaceId,
    placeType: PlaceType,
    externalName: string,
    abbreviatedName: Option<string>,
    aliases: seq<string>,
    parent: Option<PlaceId>,
    hasGeometry: bool)

  type Store = seq<Place>

  /** The outcome of a lookup that may find one place, none, or raise `MultipleResultsFound`. */
  datatype Lookup = Found(place: Place) | NotFound | Ambiguous

  /** A ZIP code as the uszipcode engine reports it: five ASCII digits. */
  type ZipCode = s: string | |s| == 5 && AllDigits(s) witness "00000"

  /** uszipcode: the ZIP codes of a city in a state (empty when the state or city is unknown to it). */
  type ZipOracle = (Option<string>, string) -> seq<ZipCode>

  /** PostGIS: the candidate's shape has points inside the container's shape, borders not counted. */
  type Overlap = (Place, Place) -> bool

  /** The first row with this id; `None` for a dangling reference. */
  function Find(store: Store, id: PlaceId): (r: Option<Place>)
    ensures r.Some? ==> r.value in store && r.value.id == id
    ensures r.None? ==> forall p | p in store :: p.id != id
    decreases |store|
  {
    if |store| == 0 then None
    else if store[0].id == id then Some(store[0])
    else Find(store[1..], id)
  }

  function ParentOf(store: Store, p: Place): Option<Place>
  {
    if p.parent.Some? then Find(store, p.parent.value) else None
  }

  // ---------------------------------------------------------------------
  // Names
  // ---------------------------------------------------------------------

  function StripAllReversed(pieces: seq<string>): (r: seq<string>)
    ensures forall i | 0 <= i < |r| :: r[i] != ""
    decreases |pieces|
  {
    if |pieces| == 0 then []
    else
      var t := Strip(pieces[|pieces| - 1]);
      (if t == "" then [] else [t]) + StripAllReversed(pieces[..|pieces| - 1])
  }

  /** `Place.name_parts`: the comma-separated parts, stripped, empties dropped, largest place first. */
  function NameParts(name: string): seq<string>
  {
    StripAllReversed(Split(name, At(',')))
  }

  /** `Place.parse_name`: a trailing " county" or " state" (any case) becomes the place type. */
  function ParseName(name: string): (r: (string, Option<PlaceType>))
    ensures r.1 == Some(County) <==> EndsWith(Lower(name), " county")
    ensures r.1 == Some(State) <==> EndsWith(Lower(name), " state")
    ensures r.1 == None <==> r.0 == name
    ensures r.1 == Some(County) ==> |r.0| + 7 == |name| && StartsWith(name, r.0)
    ensures r.1 == Some(State) ==> |r.0| + 6 == |name| && StartsWith(name, r.0)
  {
    var check := Lower(name);
    if EndsWith(check, " state") then
      LastOfSuffix(check, " state");
      LastOfSuffix(check, " county");
      (name[..|name| - 6], Some(State))
    else if EndsWith(check, " county") then (name[..|name| - 7], Some(County))
    else (name, None)
  }

  lemma LastOfSuffix(s: string, suffix: string)
    requires |suffix| > 0
    ensures EndsWith(s, suffix) ==> s[|s| - 1] == suffix[|suffix| - 1]
  {
    if EndsWith(s, suffix) {
      assert s[|s| - |suffix|..][|suffix| - 1] == s[|s| - 1];
    }
  }

  /** `Place.larger_place_types`: the types known to be bigger than `t`. */
  function LargerPlaceTypes(t: PlaceType): (r: seq<PlaceType>)
    ensures Everywhere in r
    ensures Nation in r <==> t != Nation && t != Everywhere
    ensures State in r <==> t in {County, City, PostalCode}
    ensures County in r <==> t == City
    ensures City !in r && PostalCode !in r && LibraryServiceArea !in r
  {
    [Everywhere]
      + (if t != Nation && t != Everywhere then [Nation] else [])
      + (if t in {County, City, PostalCode} then [State] else [])
      + (if t == City then [County] else [])
  }

  predicate NameMatches(p: Place, name: string)
  {
    p.externalName == name || p.abbreviatedName == Some(name) || name in p.aliases
  }

  predicate TypeAdmitted(p: Place, t: Option<PlaceType>)
  {
    if t.Some? then p.placeType == t.value else p.placeType != County
  }

  function Named(store: Store, name: string, t: Option<PlaceType>): (r: seq<Place>)
    ensures forall p | p in r :: p in store && NameMatches(p, name) && TypeAdmitted(p, t)
    ensures forall p | p in store && NameMatches(p, name) && TypeAdmitted(p, t) :: p in r
    decreases |store|
  {
    if |store| == 0 then []
    else
      var rest := Named(store[1..], name, t);
      if NameMatches(store[0], name) && TypeAdmitted(store[0], t) then [store[0]] + rest else rest
  }

  /**
   * `Place.lookup_by_name`: exact matches on external name, abbreviation or
   * alias. Without a type, the name's own " county"/" state" suffix gives
   * one, and counties are excluded when none is found.
   */
  function LookupByName(store: Store, name: string, placeType: Option<PlaceType>): (r: seq<Place>)
    ensures forall p | p in r :: p in store
    ensures placeType.Some? ==> forall p | p in r :: p.placeType == placeType.value && NameMatches(p, name)
    ensures placeType.None? ==> forall p | p in r :: p.placeType == County ==> EndsWith(Lower(name), " county")
    ensures placeType.None? ==> forall p | p in r :: NameMatches(p, ParseName(name).0)
  {
    var (n, t) := if placeType.None? then ParseName(name) else (name, placeType);
    Named(store, n, t)
  }

  /** `Place.lookup_one_by_name`: `.one()` raises for no row and for several. */
  function LookupOneByName(store: Store, name: string, placeType: Option<PlaceType>): (r: Lookup)
    ensures r.Found? <==> |LookupByName(store, name, placeType)| == 1
    ensures r.Found? ==> r.place in store
  {
    var rows := LookupByName(store, name, placeType);
    if |rows| == 0 then NotFound else if |rows| > 1 then Ambiguous else Found(rows[0])
  }

  // ---------------------------------------------------------------------
  // lookup_inside
  // ---------------------------------------------------------------------

  /**
   * Parent mode: the candidate's parent row exists and is the container, or
   * the candidate is a postal code whose grandparent is the container.
   */
  predicate ParentLinked(store: Store, container: Place, c: Place)
  {
    c.parent.Some? && Find(store, c.parent.value).Some?
    && (c.parent.value == container.id
        || (c.placeType == PostalCode
            && Find(store, c.parent.value).value.parent == Some(container.id)
            && Find(store, container.id).Some?))
  }

  predicate Inside(store: Store, container: Place, c: Place, usingOverlap: bool, overlaps: Overlap)
  {
    if container.placeType == Everywhere then true
    else if usingOverlap && container.hasGeometry then overlaps(c, container)
    else ParentLinked(store, container, c)
  }

  predicate Survives(store: Store, container: Place, c: Place, usingOverlap: bool, overlaps: Overlap)
  {
    c.placeType != container.placeType
    && c.placeType !in LargerPlaceTypes(container.placeType)
    && Inside(store, container, c, usingOverlap, overlaps)
  }

  function Surviving(store: Store, cands: seq<Place>, container: Place, usingOverlap: bool, overlaps: Overlap): (r: seq<Place>)
    ensures forall p | p in r :: p in cands && Survives(store, container, p, usingOverlap, overlaps)
    ensures forall p | p in cands && Survives(store, container, p, usingOverlap, overlaps) :: p in r
    decreases |cands|
  {
    if |cands| == 0 then []
    else
      var rest := Surviving(store, cands[1..], container, usingOverlap, overlaps);
      if Survives(store, container, cands[0], usingOverlap, overlaps) then [cands[0]] + rest else rest
  }

  /** The rows a single-part lookup of `name` inside `container` selects. */
  function Candidates(store: Store, container: Place, name: string, usingOverlap: bool, overlaps: Overlap): seq<Place>
  {
    Surviving(store, LookupByName(store, name, None), container, usingOverlap, overlaps)
  }

  /** The depth of the call tree below a lookup: chains, then the ZIP fallback, then plain lookups. */
  function Rank(name: string, usingExternal: bool): nat
  {
    if |NameParts(name)| > 1 then 3 else if usingExternal then 1 else 0
  }

  /**
   * `Place.lookup_inside`. A comma-scoped name is resolved part by part
   * (each part with the ZIP fallback allowed); a single name must select
   * exactly one surviving row; none falls back to uszipcode when allowed.
   */
  function Resolve(store: Store, container: Place, name: string, usingOverlap: bool, usingExternal: bool,
                   overlaps: Overlap, zips: ZipOracle): Lookup
    decreases Rank(name, usingExternal), 1, 0
  {
    var parts := NameParts(name);
    if |parts| > 1 then
      PartsAreSingle(name);
      ResolveChain(store, container, parts, usingOverlap, overlaps, zips)
    else
      var cands := Candidates(store, container, name, usingOverlap, overlaps);
      if |cands| == 0 then
        if usingExternal then ResolveExternally(store, container, name, overlaps, zips) else NotFound
      else if |cands| > 1 then Ambiguous
      else Found(cands[0])
  }

  predicate AllSingle(parts: seq<string>)
  {
    forall i | 0 <= i < |parts| :: |NameParts(parts[i])| <= 1
  }

  function ResolveChain(store: Store, lookIn: Place, parts: seq<string>, usingOverlap: bool,
                        overlaps: Overlap, zips: ZipOracle): Lookup
    requires AllSingle(parts)
    decreases 2, 0, |parts|
  {
    if |parts| == 0 then Found(lookIn)
    else
      match Resolve(store, lookIn, parts[0], usingOverlap, true, overlaps, zips)
      case Found(p) => ResolveChain(store, p, parts[1..], usingOverlap, overlaps, zips)
      case NotFound => NotFound
      case Ambiguous => Ambiguous
  }

  /** `Place.lookup_one_through_external_source`: only a state consults uszipcode. */
  function ResolveExternally(store: Store, container: Place, name: string, overlaps: Overlap, zips: ZipOracle): Lookup
    decreases 1, 0, |zips(container.abbreviatedName, name)| + 1
  {
    if container.placeType != State then NotFound
    else ResolveZips(store, container, zips(container.abbreviatedName, name), overlaps, zips)
  }

  /** The first ZIP code the table knows inside the container; a raise stops the search. */
  function ResolveZips(store: Store, container: Place, matches: seq<ZipCode>, overlaps: Overlap, zips: ZipOracle): Lookup
    decreases 1, 0, |matches|
  {
    if |matches| == 0 then NotFound
    else
      ZipIsSingle(matches[0]);
      var r := Resolve(store, container, matches[0], false, false, overlaps, zips);
      if r.NotFound? then ResolveZips(store, container, matches[1..], overlaps, zips) else r
  }

  // ---------------------------------------------------------------------
  // The imperative lookup, proved against Resolve
  // ---------------------------------------------------------------------

  /** `Place.lookup_inside`, with its loop over the parts of a scoped name. */
  method LookupInside(store: Store, container: Place, name: string, usingOverlap: bool, usingExternal: bool,
                      overlaps: Overlap, zips: ZipOracle) returns (r: Lookup)
    ensures r == Resolve(store, container, name, usingOverlap, usingExternal, overlaps, zips)
    decreases Rank(name, usingExternal), 1, 0
  {
    var parts := NameParts(name);
    if |parts| > 1 {
      PartsAreSingle(name);
      r := LookupChain(store, container, parts, usingOverlap, overlaps, zips);
      return;
    }
    var places := Candidates(store, container, name, usingOverlap, overlaps);
    if |places| == 0 {
      if usingExternal {
        r := LookupOneThroughExternalSource(store, container, name, overlaps, zips);
      } else {
        r := NotFound;
      }
      return;
    }
    if |places| > 1 {
      return Ambiguous;
    }
    return Found(places[0]);
  }

  /** The loop of `Place.lookup_inside` over the parts of a scoped name: each part is looked up inside the last place found. */
  method LookupChain(store: Store, container: Place, parts: seq<string>, usingOverlap: bool,
                     overlaps: Overlap, zips: ZipOracle) returns (r: Lookup)
    requires AllSingle(parts)
    ensures r == ResolveChain(store, container, parts, usingOverlap, overlaps, zips)
    decreases 2, 0, |parts|
  {
    var lookInHere := container;
    var i := 0;
    while i < |parts|
      invariant 0 <= i <= |parts|
      invariant ResolveChain(store, container, parts, usingOverlap, overlaps, zips)
             == ResolveChain(store, lookInHere, parts[i..], usingOverlap, overlaps, zips)
    {
      assert parts[i..][1..] == parts[i + 1..];
      var next := LookupInside(store, lookInHere, parts[i], usingOverlap, true, overlaps, zips);
      if !next.Found? {
        return next;
      }
      lookInHere := next.place;
      i := i + 1;
    }
    return Found(lookInHere);
  }

  /** `Place.lookup_one_through_external_source`, with its loop over the ZIP codes. */
  method LookupOneThroughExternalSource(store: Store, container: Place, name: string, overlaps: Overlap, zips: ZipOracle)
    returns (r: Lookup)
    ensures r == ResolveExternally(store, container, name, overlaps, zips)
    decreases 1, 0, |zips(container.abbreviatedName, name)| + 1
  {
    if container.placeType != State {
      return NotFound;
    }
    var matches := zips(container.abbreviatedName, name);
    var i := 0;
    while i < |matches|
      invariant 0 <= i <= |matches|
      invariant ResolveZips(store, container, matches, overlaps, zips)
             == ResolveZips(store, container, matches[i..], overlaps, zips)
    {
      assert matches[i..][1..] == matches[i + 1..];
      ZipIsSingle(matches[i]);
      var place := LookupInside(store, container, matches[i], false, false, overlaps, zips);
      if !place.NotFound? {
        return place;
      }
      i := i + 1;
    }
    return NotFound;
  }

  // ---------------------------------------------------------------------
  // Facts about names and lookups
  // ---------------------------------------------------------------------

  lemma {:induction false} StripAllReversedParts(pieces: seq<string>)
    requires forall x | x in pieces :: Free(x, At(','))
    ensures forall x | x in StripAllReversed(pieces) :: Free(x, At(',')) && Strip(x) == x
    decreases |pieces|
  {
    if |pieces| > 0 {
      var last := pieces[|pieces| - 1];
      var t := Strip(last);
      StripOfFree(last, At(','));
      StripOfStripped(t);
      var init := pieces[..|pieces| - 1];
      assert forall x | x in init :: x in pieces;
      StripAllReversedParts(init);
    }
  }

  /** Every part of a name is non-empty, stripped and free of commas. */
  lemma NamePartsShape(name: string)
    ensures forall i | 0 <= i < |NameParts(name)| ::
      NameParts(name)[i] != "" && Free(NameParts(name)[i], At(',')) && Strip(NameParts(name)[i]) == NameParts(name)[i]
  {
    var pieces := Split(name, At(','));
    forall x | x in pieces ensures Free(x, At(',')) {
      var k :| 0 <= k < |pieces| && pieces[k] == x;
    }
    StripAllReversedParts(pieces);
    var parts := StripAllReversed(pieces);
    assert parts == NameParts(name);
    forall i | 0 <= i < |parts| ensures parts[i] != "" && Free(parts[i], At(',')) && Strip(parts[i]) == parts[i] {
      assert parts[i] in parts;
    }
  }

  /** A name without a comma has at most one part. */
  lemma CommaFreeIsSingle(s: string)
    requires Free(s, At(','))
    ensures |NameParts(s)| <= 1
  {
    SplitOfFree(s, At(','));
  }

  lemma PartsAreSingle(name: string)
    ensures AllSingle(NameParts(name))
  {
    NamePartsShape(name);
    forall i | 0 <= i < |NameParts(name)| ensures |NameParts(NameParts(name)[i])| <= 1 {
      CommaFreeIsSingle(NameParts(name)[i]);
    }
  }

  lemma ZipIsSingle(z: ZipCode)
    ensures |NameParts(z)| <= 1
  {
    assert Free(z, At(',')) by {
      forall i | 0 <= i < |z| ensures z[i] != ',' {
        assert IsDigit(z[i]);
      }
    }
    CommaFreeIsSingle(z);
  }

  /** "Boston, MA" is looked up as ["MA", "Boston"]: the larger place comes first. */
  lemma NamePartsOfScopedName(smaller: string, larger: string)
    requires Free(smaller, At(',')) && Free(larger, At(','))
    requires Strip(smaller) != "" && Strip(larger) != ""
    ensures NameParts(smaller + [','] + larger) == [Strip(larger), Strip(smaller)]
  {
    SplitAfterFree(smaller, ',', larger, At(','));
    SplitOfFree(larger, At(','));
    var pieces := [smaller, larger];
    assert Split(smaller + [','] + larger, At(',')) == pieces;
    assert pieces[..1] == [smaller];
    assert [smaller][..0] == [];
    assert StripAllReversed([smaller]) == [Strip(smaller)] + StripAllReversed([]);
    assert StripAllReversed(pieces) == [Strip(larger)] + StripAllReversed([smaller]);
  }

  /**
   * A single-part lookup never yields a place of the container's own type
   * nor of a type known to be larger, whether found directly or through a
   * ZIP code.
   */
  lemma {:induction false} SingleLookupExcludesLargerTypes(store: Store, container: Place, name: string,
      usingOverlap: bool, usingExternal: bool, overlaps: Overlap, zips: ZipOracle)
    requires |NameParts(name)| <= 1
    requires Resolve(store, container, name, usingOverlap, usingExternal, overlaps, zips).Found?
    ensures var p := Resolve(store, container, name, usingOverlap, usingExternal, overlaps, zips).place;
      p in store && p.placeType != container.placeType && p.placeType !in LargerPlaceTypes(container.placeType)
    decreases if usingExternal then 1 else 0, 0
  {
    var cands := Candidates(store, container, name, usingOverlap, overlaps);
    if |cands| == 0 && usingExternal {
      ZipsExcludeLargerTypes(store, container, zips(container.abbreviatedName, name), overlaps, zips);
    } else {
      assert cands[0] in cands;
    }
  }

  lemma {:induction false} ZipsExcludeLargerTypes(store: Store, container: Place, matches: seq<ZipCode>,
      overlaps: Overlap, zips: ZipOracle)
    requires ResolveZips(store, container, matches, overlaps, zips).Found?
    ensures var p := ResolveZips(store, container, matches, overlaps, zips).place;
      p in store && p.placeType != container.placeType && p.placeType !in LargerPlaceTypes(container.placeType)
    decreases 0, |matches| + 1
  {
    ZipIsSingle(matches[0]);
    var r := Resolve(store, container, matches[0], false, false, overlaps, zips);
    if r.NotFound? {
      ZipsExcludeLargerTypes(store, container, matches[1..], overlaps, zips);
    } else {
      SingleLookupExcludesLargerTypes(store, container, matches[0], false, false, overlaps, zips);
    }
  }

  /**
   * Without usable overlap, a single-part lookup inside anything but
   * EVERYWHERE returns a child of the container, or a postal code whose
   * grandparent it is.
   */
  lemma {:induction false} ParentModeFindsChildren(store: Store, container: Place, name: string,
      usingOverlap: bool, usingExternal: bool, overlaps: Overlap, zips: ZipOracle)
    requires |NameParts(name)| <= 1
    requires container.placeType != Everywhere && !(usingOverlap && container.hasGeometry)
    requires Resolve(store, container, name, usingOverlap, usingExternal, overlaps, zips).Found?
    ensures ParentLinked(store, container, Resolve(store, container, name, usingOverlap, usingExternal, overlaps, zips).place)
    decreases if usingExternal then 1 else 0, 0
  {
    var cands := Candidates(store, container, name, usingOverlap, overlaps);
    if |cands| == 0 {
      if usingExternal {
        assert Resolve(store, container, name, usingOverlap, usingExternal, overlaps, zips)
            == ResolveZips(store, container, zips(container.abbreviatedName, name), overlaps, zips);
        ZipsFindChildren(store, container, zips(container.abbreviatedName, name), overlaps, zips);
      }
    } else {
      assert Resolve(store, container, name, usingOverlap, usingExternal, overlaps, zips) == Found(cands[0]);
      assert cands[0] in cands;
      assert Survives(store, container, cands[0], usingOverlap, overlaps);
    }
  }

  lemma {:induction false} ZipsFindChildren(store: Store, container: Place, matches: seq<ZipCode>,
      overlaps: Overlap, zips: ZipOracle)
    requires container.placeType != Everywhere
    requires ResolveZips(store, container, matches, overlaps, zips).Found?
    ensures ParentLinked(store, container, ResolveZips(store, container, matches, overlaps, zips).place)
    decreases 0, |matches| + 1
  {
    ZipIsSingle(matches[0]);
    var r := Resolve(store, container, matches[0], false, false, overlaps, zips);
    if r.NotFound? {
      ZipsFindChildren(store, container, matches[1..], overlaps, zips);
    } else {
      ParentModeFindsChildren(store, container, matches[0], false, false, overlaps, zips);
    }
  }

  /** Several surviving rows raise; one is the answer; none is None unless the ZIP fallback is allowed. */
  lemma SingleLookupOutcome(store: Store, container: Place, name: string, usingOverlap: bool, usingExternal: bool,
      overlaps: Overlap, zips: ZipOracle)
    requires |NameParts(name)| <= 1
    ensures var cands := Candidates(store, container, name, usingOverlap, overlaps);
      var r := Resolve(store, container, name, usingOverlap, usingExternal, overlaps, zips);
      && (|cands| > 1 ==> r == Ambiguous)
      && (|cands| == 1 ==> r == Found(cands[0]))
      && (|cands| == 0 && (!usingExternal || container.placeType != State) ==> r == NotFound)
  {
  }

  /**
   * A chain succeeds exactly when there is a path of places, starting at
   * the container, in which each part is found inside the previous place.
   */
  predicate ChainPath(store: Store, path: seq<Place>, parts: seq<string>, usingOverlap: bool,
                      overlaps: Overlap, zips: ZipOracle)
  {
    |path| == |parts| + 1
    && forall i | 0 <= i < |parts| :: Resolve(store, path[i], parts[i], usingOverlap, true, overlaps, zips) == Found(path[i + 1])
  }

  lemma {:induction false} ChainFoundHasPath(store: Store, lookIn: Place, parts: seq<string>, usingOverlap: bool,
      overlaps: Overlap, zips: ZipOracle) returns (path: seq<Place>)
    requires AllSingle(parts)
    requires ResolveChain(store, lookIn, parts, usingOverlap, overlaps, zips).Found?
    ensures ChainPath(store, path, parts, usingOverlap, overlaps, zips) && path[0] == lookIn
    ensures path[|parts|] == ResolveChain(store, lookIn, parts, usingOverlap, overlaps, zips).place
    decreases |parts|
  {
    if |parts| == 0 {
      path := [lookIn];
    } else {
      var first := Resolve(store, lookIn, parts[0], usingOverlap, true, overlaps, zips);
      assert first.Found?;
      var q := first.place;
      assert AllSingle(parts[1..]);
      assert ResolveChain(store, lookIn, parts, usingOverlap, overlaps, zips)
          == ResolveChain(store, q, parts[1..], usingOverlap, overlaps, zips);
      var tail := ChainFoundHasPath(store, q, parts[1..], usingOverlap, overlaps, zips);
      path := [lookIn] + tail;
      forall i | 0 <= i < |parts|
        ensures Resolve(store, path[i], parts[i], usingOverlap, true, overlaps, zips) == Found(path[i + 1])
      {
        if i > 0 {
          assert path[i] == tail[i - 1] && path[i + 1] == tail[i] && parts[i] == parts[1..][i - 1];
          assert Resolve(store, tail[i - 1], parts[1..][i - 1], usingOverlap, true, overlaps, zips) == Found(tail[i]);
        } else {
          assert path[0] == lookIn && path[1] == q;
        }
      }
    }
  }

  lemma {:induction false} PathGivesChain(store: Store, path: seq<Place>, parts: seq<string>, usingOverlap: bool,
      overlaps: Overlap, zips: ZipOracle)
    requires AllSingle(parts)
    requires ChainPath(store, path, parts, usingOverlap, overlaps, zips)
    ensures ResolveChain(store, path[0], parts, usingOverlap, overlaps, zips) == Found(path[|parts|])
    decreases |parts|
  {
    if |parts| > 0 {
      assert AllSingle(parts[1..]);
      ChainPathTail(store, path, parts, usingOverlap, overlaps, zips);
      PathGivesChain(store, path[1..], parts[1..], usingOverlap, overlaps, zips);
      assert path[1..][|parts| - 1] == path[|parts|];
    }
  }

  /** A path without its first step is a path for the remaining parts. */
  lemma ChainPathTail(store: Store, path: seq<Place>, parts: seq<string>, usingOverlap: bool,
      overlaps: Overlap, zips: ZipOracle)
    requires ChainPath(store, path, parts, usingOverlap, overlaps, zips) && |parts| > 0
    ensures Resolve(store, path[0], parts[0], usingOverlap, true, overlaps, zips) == Found(path[1])
    ensures ChainPath(store, path[1..], parts[1..], usingOverlap, overlaps, zips)
  {
    var tail := path[1..];
    forall i | 0 <= i < |parts| - 1
      ensures Resolve(store, tail[i], parts[1..][i], usingOverlap, true, overlaps, zips) == Found(tail[i + 1])
    {
      assert tail[i] == path[i + 1] && tail[i + 1] == path[i + 2] && parts[1..][i] == parts[i + 1];
    }
  }

  /**
   * A scoped name is found exactly when there is a path of places, starting
   * at the container, in which each part is found inside the previous place.
   */
  lemma ScopedLookupIsPath(store: Store, container: Place, name: string, usingOverlap: bool, usingExternal: bool,
      overlaps: Overlap, zips: ZipOracle, target: Place)
    requires |NameParts(name)| > 1
    ensures Resolve(store, container, name, usingOverlap, usingExternal, overlaps, zips) == Found(target)
        <==> exists path :: ChainPath(store, path, NameParts(name), usingOverlap, overlaps, zips)
                         && path[0] == container && path[|NameParts(name)|] == target
  {
    var parts := NameParts(name);
    PartsAreSingle(name);
    assert Resolve(store, container, name, usingOverlap, usingExternal, overlaps, zips)
        == ResolveChain(store, container, parts, usingOverlap, overlaps, zips);
    if ResolveChain(store, container, parts, usingOverlap, overlaps, zips) == Found(target) {
      var path := ChainFoundHasPath(store, container, parts, usingOverlap, overlaps, zips);
    }
    if exists path :: ChainPath(store, path, parts, usingOverlap, overlaps, zips)
                      && path[0] == container && path[|parts|] == target {
      var path :| ChainPath(store, path, parts, usingOverlap, overlaps, zips)
                  && path[0] == container && path[|parts|] == target;
      PathGivesChain(store, path, parts, usingOverlap, overlaps, zips);
    }
  }

  /** A chain stops with None at the first part that is not found. */
  lemma ChainStopsAtFirstMiss(store: Store, lookIn: Place, parts: seq<string>, usingOverlap: bool,
      overlaps: Overlap, zips: ZipOracle, path: seq<Place>, k: nat)
    requires AllSingle(parts)
    requires k < |parts| && |path| == k + 1 && path[0] == lookIn
    requires forall i | 0 <= i < k :: Resolve(store, path[i], parts[i], usingOverlap, true, overlaps, zips) == Found(path[i + 1])
    requires Resolve(store, path[k], parts[k], usingOverlap, true, overlaps, zips) == NotFound
    ensures ResolveChain(store, lookIn, parts, usingOverlap, overlaps, zips) == NotFound
  {
    ChainMissFrom(store, parts, usingOverlap, overlaps, zips, path, k, 0);
    assert parts[0..] == parts;
  }

  lemma {:induction false} ChainMissFrom(store: Store, parts: seq<string>, usingOverlap: bool,
      overlaps: Overlap, zips: ZipOracle, path: seq<Place>, k: nat, j: nat)
    requires AllSingle(parts)
    requires j <= k < |parts| && |path| == k + 1
    requires forall i | j <= i < k :: Resolve(store, path[i], parts[i], usingOverlap, true, overlaps, zips) == Found(path[i + 1])
    requires Resolve(store, path[k], parts[k], usingOverlap, true, overlaps, zips) == NotFound
    ensures AllSingle(parts[j..])
    ensures ResolveChain(store, path[j], parts[j..], usingOverlap, overlaps, zips) == NotFound
    decreases k - j
  {
    assert parts[j..][1..] == parts[j + 1..];
    assert parts[j..][0] == parts[j];
    if j < k {
      ChainMissFrom(store, parts, usingOverlap, overlaps, zips, path, k, j + 1);
    }
  }

  // ---------------------------------------------------------------------
  // Hierarchy
  // ---------------------------------------------------------------------

  /** The ancestors of `p`, nearest first, if the parent chain ends within `fuel` steps. */
  function AncestorsWithin(store: Store, p: Place, fuel: nat): Option<seq<Place>>
    decreases fuel
  {
    match ParentOf(store, p)
    case None => Some([])
    case Some(q) =>
      if fuel == 0 then None
      else
        match AncestorsWithin(store, q, fuel - 1)
        case None => None
        case Some(rest) => Some([q] + rest)
  }

  /** The table's parent links from `p` end, as they do for any acyclic table. */
  predicate ChainEnds(store: Store, p: Place)
  {
    AncestorsWithin(store, p, |store|).Some?
  }

  function Ancestors(store: Store, p: Place): seq<Place>
    requires ChainEnds(store, p)
  {
    AncestorsWithin(store, p, |store|).value
  }

  /** The ancestor list is the parent chain: parent first, each the parent of the one before, the last parentless. */
  lemma {:induction false} AncestorsAreParentChain(store: Store, p: Place, fuel: nat)
    requires AncestorsWithin(store, p, fuel).Some?
    ensures var a := AncestorsWithin(store, p, fuel).value;
      && (|a| == 0 <==> ParentOf(store, p).None?)
      && (|a| > 0 ==> ParentOf(store, p) == Some(a[0]) && ParentOf(store, a[|a| - 1]).None?)
      && (forall i | 0 <= i < |a| - 1 :: ParentOf(store, a[i]) == Some(a[i + 1]))
      && (forall i | 0 <= i < |a| :: a[i] in store)
    decreases fuel
  {
    match ParentOf(store, p)
    case None =>
    case Some(q) =>
      AncestorsAreParentChain(store, q, fuel - 1);
      var rest := AncestorsWithin(store, q, fuel - 1).value;
      var a := [q] + rest;
      assert forall i | 0 < i < |a| :: a[i] == rest[i - 1];
  }

  /** `Place.hierarchy`: the parent, the parent's parent, and so on. */
  method Hierarchy(store: Store, p: Place) returns (parents: seq<Place>)
    requires ChainEnds(store, p)
    ensures parents == Ancestors(store, p)
  {
    parents := [];
    var current := ParentOf(store, p);
    ghost var fuel: nat := |store|;
    while current.Some?
      invariant AncestorsFrom(store, current, fuel).Some?
      invariant Ancestors(store, p) == parents + AncestorsFrom(store, current, fuel).value
      decreases fuel
    {
      var q := current.value;
      parents := parents + [q];
      current := ParentOf(store, q);
      fuel := fuel - 1;
    }
  }

  /** The ancestors counted from an optional node on the chain (itself included). */
  function AncestorsFrom(store: Store, node: Option<Place>, fuel: nat): Option<seq<Place>>
  {
    match node
    case None => Some([])
    case Some(q) =>
      if fuel == 0 then None
      else
        match AncestorsWithin(store, q, fuel - 1)
        case None => None
        case Some(rest) => Some([q] + rest)
  }

  // ---------------------------------------------------------------------
  // Human-friendly names and library types
  // ---------------------------------------------------------------------

  const LOCAL := "local"
  const COUNTY_LIBRARY := "county"
  const STATE_LIBRARY := "state"
  const PROVINCE := "province"
  const NATIONAL := "national"
  const UNIVERSAL := "universal"

  /** The unpacking `[state_ancestor] = ...` fails when two ancestors are states. */
  datatype NameError = SeveralStateAncestors

  function StatesAmong(a: seq<Place>): (r: seq<Place>)
    ensures forall p | p in r :: p in a && p.placeType == State
    ensures forall p | p in a && p.placeType == State :: p in r
    decreases |a|
  {
    if |a| == 0 then []
    else (if a[0].placeType == State then [a[0]] else []) + StatesAmong(a[1..])
  }

  function CountyWord(stateName: string): string
  {
    if Lower(stateName) in ["la", "louisiana"] then "Parish" else "County"
  }

  /**
   * `Place.human_friendly_name`: None for EVERYWHERE; "Name County, ST"
   * for a county and "Name, ST" for a city below a state; otherwise the
   * external name.
   */
  function HumanFriendlyName(store: Store, p: Place): (r: Result<Option<string>, NameError>)
    requires ChainEnds(store, p)
    ensures r == Ok(None) <==> p.placeType == Everywhere
    ensures r.Err? <==>
      p.placeType in {County, City} && ParentOf(store, p).Some? && |StatesAmong(Ancestors(store, p))| > 1
    ensures p.placeType != Everywhere
      && (ParentOf(store, p).None? || p.placeType !in {County, City} || |StatesAmong(Ancestors(store, p))| == 0)
      ==> r == Ok(Some(p.externalName))
  {
    if p.placeType == Everywhere then Ok(None)
    else if ParentOf(store, p).None? then Ok(Some(p.externalName))
    else
      var states := StatesAmong(Ancestors(store, p));
      if (p.placeType == County || p.placeType == City) && |states| > 0 then
        if |states| > 1 then Err(SeveralStateAncestors) else Ok(Some(StateScopedName(p, states[0])))
      else Ok(Some(p.externalName))
  }

  /** The state's abbreviation when it has one, else its name. */
  function StateName(s: Place): string
  {
    if Truthy(s.abbreviatedName) then s.abbreviatedName.value else s.externalName
  }

  /** The name of a county or city qualified by its state: "Kern County, CA", "Boston, MA". */
  function StateScopedName(p: Place, s: Place): string
  {
    var stateName := StateName(s);
    var word := CountyWord(stateName);
    if p.placeType == City || Contains(Lower(p.externalName), Lower(word)) then p.externalName + ", " + stateName
    else p.externalName + " " + word + ", " + stateName
  }

  /** A name without commas and without blanks at its ends: one part of a scoped name. */
  predicate PlainName(s: string)
  {
    s != "" && Free(s, At(',')) && !IsSpace(s[0]) && !IsSpace(s[|s| - 1])
  }

  lemma CountySuffixParses(name: string)
    ensures ParseName(name + " County") == (name, Some(County))
  {
    var county := name + " County";
    var check := Lower(county);
    assert check[|check| - 7..] == " county" by {
      assert forall i | 0 <= i < 7 :: county[|name| + i] == " County"[i];
    }
    LastOfSuffix(check, " state");
    assert county[..|county| - 7] == name;
  }

  lemma PlainParts(name: string, stateName: string)
    requires PlainName(name) && PlainName(stateName)
    ensures var county := name + " County";
      Free(county, At(',')) && Free(" " + stateName, At(','))
      && Strip(county) == county && Strip(" " + stateName) == stateName && county != ""
  {
    var county := name + " County";
    var larger := " " + stateName;
    assert Free(county, At(',')) by {
      forall i | 0 <= i < |county| ensures county[i] != ',' {
        if i < |name| { assert county[i] == name[i]; }
      }
    }
    assert Free(larger, At(',')) by {
      forall i | 0 <= i < |larger| ensures larger[i] != ',' {
        if i > 0 { assert larger[i] == stateName[i - 1]; }
      }
    }
    assert larger[1..] == stateName;
    assert TrimLeft(larger) == TrimLeft(stateName);
    StripOfStripped(county);
    StripOfStripped(stateName);
  }

  /** "Kern County, CA" splits into ["CA", "Kern County"], and "Kern County" parses as ("Kern", COUNTY). */
  lemma CountyNameParts(name: string, stateName: string)
    requires PlainName(name) && PlainName(stateName)
    ensures NameParts(name + " County, " + stateName) == [stateName, name + " County"]
    ensures ParseName(name + " County") == (name, Some(County))
  {
    var county := name + " County";
    var larger := " " + stateName;
    assert name + " County, " + stateName == county + [','] + larger;
    PlainParts(name, stateName);
    NamePartsOfScopedName(county, larger);
    CountySuffixParses(name);
  }

  /** Below exactly one state ancestor, a county or city is named relative to that state. */
  lemma StateScopedWhenOneState(store: Store, p: Place, s: Place)
    requires ChainEnds(store, p)
    requires (p.placeType == County || p.placeType == City) && ParentOf(store, p).Some?
    requires StatesAmong(Ancestors(store, p)) == [s]
    ensures HumanFriendlyName(store, p) == Ok(Some(StateScopedName(p, s)))
  {
  }

  /**
   * A county outside Louisiana without the word "county" in its name is
   * called "Name County, ST"; that name reads back through `name_parts` and
   * `parse_name` as the state and the county.
   */
  lemma CountyNameReadsBack(p: Place, s: Place)
    requires p.placeType == County && PlainName(p.externalName) && PlainName(StateName(s))
    requires CountyWord(StateName(s)) == "County" && !Contains(Lower(p.externalName), "county")
    ensures StateScopedName(p, s) == p.externalName + " County, " + StateName(s)
    ensures NameParts(StateScopedName(p, s)) == [StateName(s), p.externalName + " County"]
    ensures ParseName(p.externalName + " County") == (p.externalName, Some(County))
  {
    var word := CountyWord(StateName(s));
    LowerCountyWord();
    assert !Contains(Lower(p.externalName), Lower(word));
    assert StateScopedName(p, s) == p.externalName + " " + word + ", " + StateName(s);
    CountyWordSpelled(p.externalName, StateName(s));
    CountyNameParts(p.externalName, StateName(s));
  }

  /**
   * Below a state named "LA" or "Louisiana", a county whose name lacks the
   * word is called "Name Parish, ST".
   */
  lemma ParishInLouisiana(store: Store, p: Place, s: Place)
    requires ChainEnds(store, p) && p.placeType == County && ParentOf(store, p).Some?
    requires StatesAmong(Ancestors(store, p)) == [s]
    requires Lower(StateName(s)) in ["la", "louisiana"] && !Contains(Lower(p.externalName), "parish")
    ensures HumanFriendlyName(store, p) == Ok(Some(p.externalName + " Parish, " + StateName(s)))
  {
    assert CountyWord(StateName(s)) == "Parish";
    LowerParishWord();
    assert p.externalName + " " + "Parish" + ", " + StateName(s) == p.externalName + " Parish, " + StateName(s);
  }

  lemma LowerParishWord()
    ensures Lower("Parish") == "parish"
  {
    forall i | 0 <= i < 6 ensures Lower("Parish")[i] == "parish"[i] { }
  }

  lemma LowerCountyWord()
    ensures Lower("County") == "county"
  {
    forall i | 0 <= i < 6 ensures Lower("County")[i] == "county"[i] { }
  }

  lemma CountyWordSpelled(name: string, stateName: string)
    ensures name + " " + "County" + ", " + stateName == name + " County, " + stateName
  {
  }

  /** `Place.library_type`: the kind of library that serves a place. */
  function LibraryType(store: Store, p: Place): (r: string)
    ensures r in {LOCAL, COUNTY_LIBRARY, STATE_LIBRARY, PROVINCE, NATIONAL, UNIVERSAL}
    ensures r == UNIVERSAL <==> p.placeType == Everywhere
    ensures r == NATIONAL <==> p.placeType == Nation
    ensures r == COUNTY_LIBRARY <==> p.placeType == County
    ensures r == PROVINCE <==> (p.placeType == State && ParentOf(store, p).Some?
      && ParentOf(store, p).value.placeType == Nation && ParentOf(store, p).value.abbreviatedName == Some("CA"))
    ensures r == LOCAL <==> p.placeType in {City, PostalCode, LibraryServiceArea}
  {
    match p.placeType
    case Everywhere => UNIVERSAL
    case Nation => NATIONAL
    case State =>
      var parent := ParentOf(store, p);
      if parent.Some? && parent.value.placeType == Nation then
        match parent.value.abbreviatedName
        case Some("US") => STATE_LIBRARY
        case Some("CA") => PROVINCE
        case _ => STATE_LIBRARY
      else STATE_LIBRARY
    case County => COUNTY_LIBRARY
    case _ => LOCAL
  }
}
