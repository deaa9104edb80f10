/**
 * How `Library.search` (model.py) shapes a free-text query and merges what
 * its three strategies find: by library name, by place name and by
 * description. The strategies themselves are SQL queries; here they are
 * functions given as parameters, and only the fuzzy predicates they apply to
 * each field are defined.
 */
module LibrarySearch {
  import opened Wrappers
  import opened Text
  import opened Places

  // ---------------------------------------------------------------------
  // Shaping the query
  // ---------------------------------------------------------------------

  /**
   * `query_cleanup`: lower-case, every run of blanks made one space, outer
   * blanks stripped (the regex substitution followed by `strip`, which is
   * `" ".join(s.split())`), then "libary" corrected to "library".
   */
  function QueryCleanup(query: string): (r: string)
    ensures |Squash(Lower(query))| == 0 ==> r == ""
  {
    ReplaceAll(Squash(Lower(query)), "libary", "library")
  }

  /**
   * The cleaned query has no upper-case letter, no outer or doubled blanks,
   * and its words are the words of the lower-cased query, each with
   * "libary" corrected.
   */
  lemma CleanupShape(query: string)
    ensures Lower(QueryCleanup(query)) == QueryCleanup(query)
    ensures Squash(QueryCleanup(query)) == QueryCleanup(query)
    ensures Words(QueryCleanup(query)) == ReplaceEach(Words(Lower(query)), "libary", "library")
  {
    CleanupWords(query);
    CleanupLower(query);
  }

  /** The words of the cleaned query are the lower-cased words, each corrected. */
  lemma CleanupWords(query: string)
    ensures var r := ReplaceAll(Squash(Lower(query)), "libary", "library");
      Squash(r) == r && Words(r) == ReplaceEach(Words(Lower(query)), "libary", "library")
  {
    var pat, rep := "libary", "library";
    var ws := Words(Lower(query));
    var rs := ReplaceEach(ws, pat, rep);
    assert Free(pat, At(' '));
    ReplaceJoin(ws, pat, rep);
    forall i | 0 <= i < |rs| ensures rs[i] != "" && Free(rs[i], AnySpace) {
      ReplaceChars(ws[i], pat, rep);
      forall k | 0 <= k < |rs[i]| ensures !IsSpace(rs[i][k]) {
        assert rs[i][k] in rs[i];
        if rs[i][k] in ws[i] {
          CharOfFree(ws[i], AnySpace, rs[i][k]);
        }
      }
    }
    WordsOfJoin(rs);
  }

  /** The cleaned query holds no upper-case letter. */
  lemma CleanupLower(query: string)
    ensures var r := ReplaceAll(Squash(Lower(query)), "libary", "library");
      Lower(r) == r
  {
    var r := ReplaceAll(Squash(Lower(query)), "libary", "library");
    SquashOfLower(query);
    ReplaceChars(Squash(Lower(query)), "libary", "library");
    forall i | 0 <= i < |r| ensures LowerChar(r[i]) == r[i] {
      assert r[i] in r;
      if r[i] in Squash(Lower(query)) {
        LowerCharOfLower(Squash(query), r[i]);
      }
    }
  }

  lemma CharOfFree(s: string, sep: Sep, c: char)
    requires Free(s, sep) && c in s
    ensures !Separates(sep, c)
  {
    var k :| 0 <= k < |s| && s[k] == c;
  }

  lemma LowerCharOfLower(s: string, c: char)
    requires c in Lower(s)
    ensures LowerChar(c) == c
  {
    var k :| 0 <= k < |Lower(s)| && Lower(s)[k] == c;
  }

  /** `$` in a Python regex also matches just before a final newline. */
  predicate EndsAt(s: string, n: nat)
  {
    |s| == n || (|s| == n + 1 && s[n] == '\n')
  }

  predicate DigitsAt(s: string, from: nat, count: nat)
  {
    from + count <= |s| && AllDigits(s[from..from + count])
  }

  /**
   * `as_postal_code`: a five-digit ZIP code is returned as it is, a ZIP+4
   * code as its first five digits, anything else gives None.
   */
  function AsPostalCode(query: string): (r: Option<string>)
    ensures r.Some? ==> DigitsAt(query, 0, 5) && |r.value| >= 5 && r.value[..5] == query[..5]
    ensures r.Some? && !HasChar(query, '\n') ==> |r.value| == 5 && AllDigits(r.value)
  {
    if DigitsAt(query, 0, 5) && EndsAt(query, 5) then Some(query)
    else if DigitsAt(query, 0, 5) && |query| > 5 && query[5] == '-' && DigitsAt(query, 6, 4) && EndsAt(query, 10) then
      Some(query[..5])
    else None
  }

  /** The three parts of a query: a library name, a place name and a place type. */
  datatype QueryParts = QueryParts(libraryQuery: Option<string>, placeQuery: string, placeType: Option<PlaceType>)

  /** The words that mark a query as the name of a library, longest first. */
  const LIBRARY_INDICATORS: seq<string> := ["public library", "library"]

  /** The place part: every indicator the text holds is removed, the rest stripped. */
  function DropIndicators(place: string, indicators: seq<string>): (r: string)
    requires forall i | 0 <= i < |indicators| :: |indicators[i]| > 0
    ensures |r| <= |place|
    decreases |indicators|
  {
    if |indicators| == 0 then place
    else
      var next := if Contains(place, indicators[0]) then Strip(ReplaceAll(place, indicators[0], "")) else place;
      ReplaceAllShrinks(place, indicators[0]);
      DropIndicators(next, indicators[1..])
  }

  lemma {:induction false} ReplaceAllShrinks(s: string, pat: string)
    requires |pat| > 0
    ensures |ReplaceAll(s, pat, "")| <= |s|
    decreases |s|
  {
    if |s| >= |pat| {
      if s[..|pat|] == pat {
        ReplaceAllShrinks(s[|pat|..], pat);
      } else {
        ReplaceAllShrinks(s[1..], pat);
      }
    }
  }

  /**
   * `query_parts`: a postal code is looked up as a place only; any other
   * query is both a library name and, once the library words are gone and a
   * " county" or " state" suffix is read as a place type, a place name.
   */
  function QueryPartsOf(query: string): (r: QueryParts)
    ensures AsPostalCode(QueryCleanup(query)).Some? ==>
      r == QueryParts(None, AsPostalCode(QueryCleanup(query)).value, Some(PostalCode))
    ensures AsPostalCode(QueryCleanup(query)).None? ==>
      && r.libraryQuery == Some(QueryCleanup(query))
      && var place := DropIndicators(QueryCleanup(query), LIBRARY_INDICATORS);
      && (r.placeType == Some(County) <==> EndsWith(Lower(place), " county"))
      && (r.placeType == Some(State) <==> EndsWith(Lower(place), " state"))
      && (r.placeType.Some? ==> StartsWith(place, r.placeQuery) && |r.placeQuery| < |place|)
      && (r.placeType.None? ==> r.placeQuery == place)
  {
    var cleaned := QueryCleanup(query);
    match AsPostalCode(cleaned)
    case Some(code) => QueryParts(None, code, Some(PostalCode))
    case None =>
      var (place, placeType) := ParseName(DropIndicators(cleaned, LIBRARY_INDICATORS));
      QueryParts(Some(cleaned), place, placeType)
  }

  /** Digits are untouched by lower-casing, blank collapsing and the spelling fix. */
  lemma {:induction false} CleanupKeepsDigitCodes(s: string)
    requires AllDigits(s) || (|s| == 10 && DigitsAt(s, 0, 5) && s[5] == '-' && DigitsAt(s, 6, 4))
    ensures QueryCleanup(s) == s
  {
    DigitCodeChars(s);
    assert Lower(s) == s;
    if |s| > 0 {
      assert Free(s, AnySpace);
      SplitOfFree(s, AnySpace);
      assert Words(s) == [s];
    } else {
      assert Words(s) == [];
    }
    assert Squash(s) == s;
    NoLInReplace(s);
  }

  /** A ZIP code or ZIP+4 holds only digits and '-'. */
  lemma DigitCodeChars(s: string)
    requires AllDigits(s) || (|s| == 10 && DigitsAt(s, 0, 5) && s[5] == '-' && DigitsAt(s, 6, 4))
    ensures forall i | 0 <= i < |s| :: IsDigit(s[i]) || s[i] == '-'
  {
    forall i | 0 <= i < |s| ensures IsDigit(s[i]) || s[i] == '-' {
      if !AllDigits(s) {
        if i < 5 { assert s[0..5][i] == s[i]; }
        else if 6 <= i { assert s[6..10][i - 6] == s[i]; }
      }
    }
  }

  /** A text without an 'l' holds no "libary" to correct. */
  lemma {:induction false} NoLInReplace(s: string)
    requires forall i | 0 <= i < |s| :: s[i] != 'l'
    ensures ReplaceAll(s, "libary", "library") == s
    decreases |s|
  {
    if |s| >= 6 {
      assert s[..6] != "libary" by { assert s[0] != 'l'; }
      NoLInReplace(s[1..]);
      assert [s[0]] + s[1..] == s;
    }
  }

  /** A five-digit query, or a ZIP+4 query, is searched for as that postal code only. */
  lemma PostalQueryParts(zip: string, plus4: string)
    requires |zip| == 5 && AllDigits(zip) && |plus4| == 4 && AllDigits(plus4)
    ensures QueryPartsOf(zip) == QueryParts(None, zip, Some(PostalCode))
    ensures QueryPartsOf(zip + "-" + plus4) == QueryParts(None, zip, Some(PostalCode))
  {
    FiveDigitQuery(zip);
    ZipPlus4Query(zip, plus4);
  }

  lemma FiveDigitQuery(zip: string)
    requires |zip| == 5 && AllDigits(zip)
    ensures QueryPartsOf(zip) == QueryParts(None, zip, Some(PostalCode))
  {
    CleanupKeepsDigitCodes(zip);
    assert zip[0..5] == zip;
  }

  lemma ZipPlus4Query(zip: string, plus4: string)
    requires |zip| == 5 && AllDigits(zip) && |plus4| == 4 && AllDigits(plus4)
    ensures QueryPartsOf(zip + "-" + plus4) == QueryParts(None, zip, Some(PostalCode))
  {
    var long := zip + "-" + plus4;
    assert long[..5] == zip && long[0..5] == zip && long[6..10] == plus4;
    CleanupKeepsDigitCodes(long);
    ZipPlus4Code(long);
  }

  lemma ZipPlus4Code(long: string)
    requires |long| == 10 && DigitsAt(long, 0, 5) && long[5] == '-' && DigitsAt(long, 6, 4)
    ensures AsPostalCode(long).Some? && AsPostalCode(long).value == long[..5]
  {
    assert !EndsAt(long, 5);
    assert EndsAt(long, 10);
  }

  // ---------------------------------------------------------------------
  // The fuzzy predicates
  // ---------------------------------------------------------------------

  function Min3(a: nat, b: nat, c: nat): nat
  {
    if a <= b && a <= c then a else if b <= c then b else c
  }

  /** Levenshtein distance with unit costs, as PostgreSQL's `levenshtein`. */
  function Levenshtein(a: string, b: string): nat
    decreases |a| + |b|
  {
    if |a| == 0 then |b|
    else if |b| == 0 then |a|
    else Min3(Levenshtein(a[1..], b) + 1,
              Levenshtein(a, b[1..]) + 1,
              Levenshtein(a[1..], b[1..]) + (if a[0] == b[0] then 0 else 1))
  }

  lemma {:induction false} LevenshteinSelf(a: string)
    ensures Levenshtein(a, a) == 0
    decreases |a|
  {
    if |a| > 0 {
      LevenshteinSelf(a[1..]);
    }
  }

  /** Each edit changes the length by at most one. */
  lemma {:induction false} LevenshteinLengthBound(a: string, b: string)
    ensures Levenshtein(a, b) >= |a| - |b| && Levenshtein(a, b) >= |b| - |a|
    decreases |a| + |b|
  {
    if |a| > 0 && |b| > 0 {
      LevenshteinLengthBound(a[1..], b);
      LevenshteinLengthBound(a, b[1..]);
      LevenshteinLengthBound(a[1..], b[1..]);
    }
  }

  /** `field ILIKE value` for a value without `%` or `_`: equal up to case. */
  predicate ILike(field: string, value: string)
  {
    Lower(field) == Lower(value)
  }

  /**
   * `fuzzy_match`: a field of six characters or more matches a value within
   * Levenshtein distance 2 of its lower-cased form; any field matches a value
   * equal to it up to case.
   */
  predicate FuzzyMatch(field: string, value: string)
  {
    (|field| >= 6 && Levenshtein(Lower(field), value) <= 2) || ILike(field, value)
  }

  /** `partial_match`: `field ILIKE '%value%'`. */
  predicate PartialMatch(field: string, value: string)
  {
    Contains(Lower(field), Lower(value))
  }

  /**
   * A short field needs an exact match up to case; any match is within two
   * characters of the value's length; an exact match is also a partial one.
   */
  lemma FuzzyMatchBounds(field: string, value: string)
    ensures |field| < 6 ==> (FuzzyMatch(field, value) <==> ILike(field, value))
    ensures FuzzyMatch(field, value) ==> |field| - |value| <= 2 && |value| - |field| <= 2
    ensures ILike(field, value) ==> FuzzyMatch(field, value) && PartialMatch(field, value)
  {
    LevenshteinLengthBound(Lower(field), value);
    if ILike(field, value) {
      assert |field| == |Lower(field)| == |Lower(value)| == |value|;
      assert StartsWith(Lower(field)[0..], Lower(value));
    }
  }

  /** A lower-case value matches a long field that differs from it in one place. */
  lemma OneTypoMatches(field: string, value: string, k: nat)
    requires |field| >= 6 && |value| == |field| && k < |field|
    requires forall i | 0 <= i < |field| && i != k :: LowerChar(field[i]) == value[i]
    ensures FuzzyMatch(field, value)
  {
    OneSubstitution(Lower(field), value, k);
  }

  lemma {:induction false} OneSubstitution(a: string, b: string, k: nat)
    requires |a| == |b| && k < |a|
    requires forall i | 0 <= i < |a| && i != k :: a[i] == b[i]
    ensures Levenshtein(a, b) <= 1
    decreases k
  {
    if k == 0 {
      assert a[1..] == b[1..];
      LevenshteinSelf(a[1..]);
    } else {
      OneSubstitution(a[1..], b[1..], k - 1);
    }
  }

  // ---------------------------------------------------------------------
  // Merging the strategies
  // ---------------------------------------------------------------------

  type LibraryId = int

  /**
   * One result row of a strategy with a target point: the library and the
   * least distance from the target to the places it serves. The distance is
   * `None` (SQL NULL) for a library none of whose service areas has a
   * geometry, such as one serving only EVERYWHERE or no area at all.
   */
  datatype Hit = Hit(library: LibraryId, distance: Option<real>)

  /** The strategies, each for a feed (`production`). */
  type NameSearch = (string, bool) -> seq<Hit>
  type LocationSearch = (string, Option<PlaceType>, bool) -> seq<Hit>
  type DescriptionSearch = (string, bool) -> seq<Hit>

  /** `.limit(max_libraries)`. */
  const MAX_LIBRARIES: nat := 10

  function Limit(xs: seq<Hit>): (r: seq<Hit>)
    ensures |r| <= MAX_LIBRARIES && |r| <= |xs| && r == xs[..|r|]
    ensures |xs| <= MAX_LIBRARIES ==> r == xs
  {
    if |xs| <= MAX_LIBRARIES then xs else xs[..MAX_LIBRARIES]
  }

  /**
   * Without a target point the strategies return bare libraries, and `x[0]`
   * on one raises TypeError (`NotSubscriptable`); `sorted` raises TypeError
   * when it has to compare a missing distance (`Unorderable`).
   */
  datatype SearchError = NotSubscriptable | Unorderable

  predicate DistinctLibraries(xs: seq<Hit>)
  {
    forall i, j | 0 <= i < j < |xs| :: xs[i].library != xs[j].library
  }

  /** Where a library sits among the hits, or -1. */
  function IndexOf(xs: seq<Hit>, id: LibraryId): (r: int)
    ensures -1 <= r < |xs|
    ensures r >= 0 ==> xs[r].library == id
    ensures r < 0 <==> forall i | 0 <= i < |xs| :: xs[i].library != id
    decreases |xs|
  {
    if |xs| == 0 then -1
    else if xs[|xs| - 1].library == id then |xs| - 1
    else IndexOf(xs[..|xs| - 1], id)
  }

  /** The last hit for a library among the hits. */
  function LastHit(xs: seq<Hit>, id: LibraryId): (r: Option<Hit>)
    ensures r.Some? ==> r.value in xs && r.value.library == id
    ensures r.None? <==> forall i | 0 <= i < |xs| :: xs[i].library != id
    decreases |xs|
  {
    if |xs| == 0 then None
    else if xs[|xs| - 1].library == id then Some(xs[|xs| - 1])
    else LastHit(xs[..|xs| - 1], id)
  }

  /**
   * `list({x[0].id: x for x in results}.values())`: a later hit for a library
   * replaces the earlier one where it stands; a new library goes at the end.
   */
  function Dedupe(xs: seq<Hit>): (r: seq<Hit>)
    ensures |r| <= |xs|
    decreases |xs|
  {
    if |xs| == 0 then []
    else
      var rest := Dedupe(xs[..|xs| - 1]);
      var x := xs[|xs| - 1];
      var k := IndexOf(rest, x.library);
      if k >= 0 then rest[k := x] else rest + [x]
  }

  /** The merged hits name each library once. */
  lemma {:induction false} DedupeDistinct(xs: seq<Hit>)
    ensures DistinctLibraries(Dedupe(xs))
    decreases |xs|
  {
    if |xs| > 0 {
      var init := xs[..|xs| - 1];
      var x := xs[|xs| - 1];
      var d := Dedupe(init);
      DedupeDistinct(init);
      var k := IndexOf(d, x.library);
      if k >= 0 {
        DistinctUpdate(d, k, x);
      } else {
        DistinctAppend(d, x);
      }
    }
  }

  lemma DistinctUpdate(d: seq<Hit>, k: nat, x: Hit)
    requires DistinctLibraries(d) && k < |d| && d[k].library == x.library
    ensures DistinctLibraries(d[k := x])
  {
    var r := d[k := x];
    assert forall i | 0 <= i < |r| :: r[i].library == d[i].library;
  }

  lemma DistinctAppend(d: seq<Hit>, x: Hit)
    requires DistinctLibraries(d) && forall i | 0 <= i < |d| :: d[i].library != x.library
    ensures DistinctLibraries(d + [x])
  {
    var r := d + [x];
    assert forall i | 0 <= i < |d| :: r[i] == d[i];
  }

  /** Each merged hit is the last hit for its library. */
  lemma {:induction false} DedupeKeepsLast(xs: seq<Hit>)
    ensures forall i | 0 <= i < |Dedupe(xs)| :: LastHit(xs, Dedupe(xs)[i].library) == Some(Dedupe(xs)[i])
    decreases |xs|
  {
    if |xs| > 0 {
      var init := xs[..|xs| - 1];
      var x := xs[|xs| - 1];
      var d := Dedupe(init);
      DedupeKeepsLast(init);
      DedupeDistinct(init);
      var k := IndexOf(d, x.library);
      var r := Dedupe(xs);
      forall i | 0 <= i < |r| ensures LastHit(xs, r[i].library) == Some(r[i]) {
        if r[i] != x {
          assert r[i] == d[i];
          if k >= 0 {
            assert i != k;
            assert d[i].library != d[k].library;
          }
          assert LastHit(xs, d[i].library) == LastHit(init, d[i].library);
        }
      }
    }
  }

  /** Every library among the hits is among the merged hits. */
  lemma {:induction false} DedupeCovers(xs: seq<Hit>)
    ensures forall x | x in xs :: IndexOf(Dedupe(xs), x.library) >= 0
    decreases |xs|
  {
    if |xs| > 0 {
      var init := xs[..|xs| - 1];
      var x := xs[|xs| - 1];
      var d := Dedupe(init);
      DedupeCovers(init);
      var r := Dedupe(xs);
      assert forall i | 0 <= i < |d| :: r[i].library == d[i].library;
      assert xs == init + [x];
      forall y | y in xs ensures IndexOf(r, y.library) >= 0 {
        if y in init {
          var j := IndexOf(d, y.library);
          assert r[j].library == y.library;
        } else {
          assert y == x;
          var k := IndexOf(d, x.library);
          if k < 0 {
            assert r[|d|].library == y.library;
          } else {
            assert r[k].library == y.library;
          }
        }
      }
    }
  }

  /** The first place a library appears among the hits, or -1. */
  function FirstIndex(xs: seq<Hit>, id: LibraryId): (r: int)
    ensures -1 <= r < |xs|
    ensures r >= 0 ==> xs[r].library == id && forall i | 0 <= i < r :: xs[i].library != id
    ensures r < 0 <==> forall i | 0 <= i < |xs| :: xs[i].library != id
    decreases |xs|
  {
    if |xs| == 0 then -1
    else
      var k := FirstIndex(xs[..|xs| - 1], id);
      if k >= 0 then k else if xs[|xs| - 1].library == id then |xs| - 1 else -1
  }

  /**
   * A dict keeps the position at which a key was first inserted: the merged
   * hits follow the order in which their libraries first appeared.
   */
  lemma {:induction false} DedupeFirstOrder(xs: seq<Hit>)
    ensures forall i | 0 <= i < |Dedupe(xs)| :: FirstIndex(xs, Dedupe(xs)[i].library) >= 0
    ensures forall i, j | 0 <= i < j < |Dedupe(xs)| ::
      FirstIndex(xs, Dedupe(xs)[i].library) < FirstIndex(xs, Dedupe(xs)[j].library)
    decreases |xs|
  {
    if |xs| > 0 {
      var init := xs[..|xs| - 1];
      var x := xs[|xs| - 1];
      assert xs == init + [x];
      var d := Dedupe(init);
      var r := Dedupe(xs);
      DedupeFirstOrder(init);
      DedupeStep(init, x);
      forall i | 0 <= i < |d| ensures FirstIndex(xs, r[i].library) == FirstIndex(init, d[i].library) >= 0 {
        FirstIndexExtends(init, x, d[i].library);
      }
      if |r| > |d| {
        NewLibraryLast(init, x);
        assert FirstIndex(xs, r[|d|].library) == |init|;
      }
      forall i, j | 0 <= i < j < |r| ensures FirstIndex(xs, r[i].library) < FirstIndex(xs, r[j].library) {
        if j < |d| {
          assert FirstIndex(init, d[i].library) < FirstIndex(init, d[j].library);
        }
      }
    }
  }

  /** One more hit either replaces a merged hit of its library or is appended, new, at the end. */
  lemma DedupeStep(init: seq<Hit>, x: Hit)
    ensures var d := Dedupe(init);
      var r := Dedupe(init + [x]);
      && |d| <= |r|
      && (forall i | 0 <= i < |d| :: r[i].library == d[i].library)
      && (|r| == |d| || (r == d + [x] && IndexOf(d, x.library) < 0))
  {
    var xs := init + [x];
    assert xs[..|xs| - 1] == init;
  }

  /** A library already among the hits keeps its first index when a hit is added. */
  lemma FirstIndexExtends(init: seq<Hit>, x: Hit, id: LibraryId)
    requires FirstIndex(init, id) >= 0
    ensures FirstIndex(init + [x], id) == FirstIndex(init, id)
  {
    assert (init + [x])[..|init|] == init;
  }

  /** A library the merge has not seen first appears with the added hit. */
  lemma NewLibraryLast(init: seq<Hit>, x: Hit)
    requires IndexOf(Dedupe(init), x.library) < 0
    ensures FirstIndex(init + [x], x.library) == |init|
  {
    NotYetSeen(init, x.library);
    var s := init + [x];
    assert s[..|s| - 1] == init;
  }

  /** A library the merge has not seen is not among the hits. */
  lemma NotYetSeen(xs: seq<Hit>, id: LibraryId)
    requires IndexOf(Dedupe(xs), id) < 0
    ensures FirstIndex(xs, id) < 0
  {
    DedupeCovers(xs);
    forall i | 0 <= i < |xs| ensures xs[i].library != id {
      assert xs[i] in xs;
    }
  }

  /** Every hit has a distance. */
  predicate Measured(xs: seq<Hit>)
  {
    forall i | 0 <= i < |xs| :: xs[i].distance.Some?
  }

  /** Both distances are known, and the first is no larger: Python can compare them. */
  predicate NoFarther(a: Hit, b: Hit)
  {
    a.distance.Some? && b.distance.Some? && a.distance.value <= b.distance.value
  }

  /** What `sorted` by distance returns: every pair in order, so any two hits have distances. */
  predicate SortedByDistance(xs: seq<Hit>)
  {
    forall i, j | 0 <= i < j < |xs| :: NoFarther(xs[i], xs[j])
  }

  lemma ConsSorted(a: Hit, rest: seq<Hit>)
    requires SortedByDistance(rest)
    requires |rest| > 0 ==> NoFarther(a, rest[0])
    ensures SortedByDistance([a] + rest)
  {
    var s := [a] + rest;
    forall i, j | 0 <= i < j < |s| ensures NoFarther(s[i], s[j]) {
      if i == 0 && j > 1 {
        assert NoFarther(rest[0], rest[j - 1]);
      }
    }
  }

  /** Places a measured hit after every hit no farther than it, as a stable sort does. */
  function Insert(x: Hit, xs: seq<Hit>): (r: seq<Hit>)
    requires x.distance.Some? && Measured(xs) && SortedByDistance(xs)
    ensures |r| == |xs| + 1
    ensures r[0] == x || (|xs| > 0 && r[0] == xs[0])
    ensures Measured(r) && SortedByDistance(r)
    ensures multiset(r) == multiset(xs) + multiset{x}
    decreases |xs|
  {
    if |xs| == 0 then [x]
    else if x.distance.value < xs[0].distance.value then
      ConsSorted(x, xs);
      [x] + xs
    else
      var rest := Insert(x, xs[1..]);
      assert xs == [xs[0]] + xs[1..];
      ConsSorted(xs[0], rest);
      [xs[0]] + rest
  }

  /**
   * `sorted(results, key=lambda x: x[1])` on hits that all have distances:
   * each hit goes in after the sorted hits before it, so it lands behind
   * those at the same distance, as Python's stable sort keeps them.
   */
  function SortByDistance(xs: seq<Hit>): (r: seq<Hit>)
    requires Measured(xs)
    ensures Measured(r) && SortedByDistance(r)
    ensures multiset(r) == multiset(xs)
    decreases |xs|
  {
    if |xs| == 0 then []
    else
      var init := xs[..|xs| - 1];
      assert xs == init + [xs[|xs| - 1]];
      Insert(xs[|xs| - 1], SortByDistance(init))
  }

  /** The hits at distance `w`, in their order. */
  function WithDistance(xs: seq<Hit>, w: real): (r: seq<Hit>)
    ensures forall i | 0 <= i < |r| :: r[i].distance == Some(w)
    decreases |xs|
  {
    if |xs| == 0 then []
    else
      var x := xs[|xs| - 1];
      WithDistance(xs[..|xs| - 1], w) + (if x.distance == Some(w) then [x] else [])
  }

  lemma {:induction false} WithDistanceAppend(a: seq<Hit>, b: seq<Hit>, w: real)
    ensures WithDistance(a + b, w) == WithDistance(a, w) + WithDistance(b, w)
    decreases |b|
  {
    if |b| > 0 {
      var b' := b[..|b| - 1];
      assert (a + b)[..|a + b| - 1] == a + b';
      WithDistanceAppend(a, b', w);
    } else {
      assert a + b == a;
    }
  }

  lemma {:induction false} WithDistanceNone(xs: seq<Hit>, w: real)
    requires forall i | 0 <= i < |xs| :: xs[i].distance != Some(w)
    ensures WithDistance(xs, w) == []
    decreases |xs|
  {
    if |xs| > 0 {
      WithDistanceNone(xs[..|xs| - 1], w);
    }
  }

  lemma WithDistanceOne(x: Hit, w: real)
    ensures WithDistance([x], w) == (if x.distance == Some(w) then [x] else [])
  {
    assert [x][..0] == [];
  }

  /** Inserting a hit puts it behind every hit at its distance and moves no other. */
  lemma {:induction false} InsertStable(x: Hit, xs: seq<Hit>, w: real)
    requires x.distance.Some? && Measured(xs) && SortedByDistance(xs)
    ensures WithDistance(Insert(x, xs), w) == WithDistance(xs, w) + WithDistance([x], w)
    decreases |xs|
  {
    if |xs| == 0 {
      assert Insert(x, xs) == [x];
      assert xs + [x] == [x];
    } else if x.distance.value < xs[0].distance.value {
      InsertFront(x, xs, w);
    } else {
      TailSorted(xs);
      InsertStable(x, xs[1..], w);
      InsertBehind(x, xs, w);
    }
  }

  lemma InsertBehind(x: Hit, xs: seq<Hit>, w: real)
    requires x.distance.Some? && Measured(xs) && SortedByDistance(xs)
    requires |xs| > 0 && xs[0].distance.value <= x.distance.value
    requires Measured(xs[1..]) && SortedByDistance(xs[1..])
    requires WithDistance(Insert(x, xs[1..]), w) == WithDistance(xs[1..], w) + WithDistance([x], w)
    ensures WithDistance(Insert(x, xs), w) == WithDistance(xs, w) + WithDistance([x], w)
  {
    var h, t := xs[0], xs[1..];
    assert xs == [h] + t;
    assert Insert(x, xs) == [h] + Insert(x, t);
    WithDistanceAppend([h], t, w);
    WithDistanceAppend([h], Insert(x, t), w);
  }

  lemma InsertFront(x: Hit, xs: seq<Hit>, w: real)
    requires x.distance.Some? && Measured(xs) && SortedByDistance(xs)
    requires |xs| > 0 && x.distance.value < xs[0].distance.value
    ensures WithDistance(Insert(x, xs), w) == WithDistance(xs, w) + WithDistance([x], w)
  {
    assert Insert(x, xs) == [x] + xs;
    WithDistanceAppend([x], xs, w);
    if x.distance == Some(w) {
      FartherThan(x, xs, w);
    } else {
      WithDistanceOne(x, w);
    }
  }

  /** No hit of a sorted list that starts beyond `w` is at `w`. */
  lemma FartherThan(x: Hit, xs: seq<Hit>, w: real)
    requires Measured(xs) && SortedByDistance(xs) && |xs| > 0
    requires x.distance == Some(w) && w < xs[0].distance.value
    ensures WithDistance(xs, w) == []
  {
    forall i | 0 <= i < |xs| ensures xs[i].distance != Some(w) {
      if i > 0 {
        assert NoFarther(xs[0], xs[i]);
      }
    }
    WithDistanceNone(xs, w);
  }

  lemma TailSorted(xs: seq<Hit>)
    requires Measured(xs) && SortedByDistance(xs) && |xs| > 0
    ensures Measured(xs[1..]) && SortedByDistance(xs[1..])
  {
    var t := xs[1..];
    assert forall i | 0 <= i < |t| :: t[i] == xs[i + 1];
  }

  /** Hits at the same distance keep their relative order through the sort. */
  lemma {:induction false} SortIsStable(xs: seq<Hit>, w: real)
    requires Measured(xs)
    ensures WithDistance(SortByDistance(xs), w) == WithDistance(xs, w)
    decreases |xs|
  {
    if |xs| > 0 {
      var init := xs[..|xs| - 1];
      var x := xs[|xs| - 1];
      SortIsStable(init, w);
      InsertStable(x, SortByDistance(init), w);
      WithDistanceOne(x, w);
    }
  }

  /** Sorting keeps the libraries distinct. */
  lemma SortKeepsDistinct(xs: seq<Hit>)
    requires Measured(xs) && DistinctLibraries(xs)
    ensures DistinctLibraries(SortByDistance(xs))
  {
    var s := SortByDistance(xs);
    forall i, j | 0 <= i < j < |s| ensures s[i].library != s[j].library {
      if s[i].library == s[j].library {
        assert s[i] in multiset(xs) && s[j] in multiset(xs);
        var p := Position(xs, s[i]);
        var q := Position(xs, s[j]);
        if p == q {
          DistinctCount(xs, p);
          TwiceCounted(s, i, j);
          assert false;
        } else {
          assert false;
        }
      }
    }
  }

  /** Some index at which a member stands. */
  function Position(xs: seq<Hit>, x: Hit): (p: nat)
    requires x in xs
    ensures p < |xs| && xs[p] == x
  {
    if xs[0] == x then 0 else Position(xs[1..], x) + 1
  }

  lemma TwiceCounted(s: seq<Hit>, i: nat, j: nat)
    requires i < j < |s| && s[i] == s[j]
    ensures multiset(s)[s[i]] >= 2
  {
    assert s == s[..i] + [s[i]] + s[i + 1..j] + [s[j]] + s[j + 1..];
  }

  /** In a list with distinct libraries, a hit occurs once. */
  lemma {:induction false} DistinctCount(d: seq<Hit>, p: nat)
    requires DistinctLibraries(d) && p < |d|
    ensures multiset(d)[d[p]] == 1
    decreases |d|
  {
    if p == |d| - 1 {
      assert d == d[..p] + [d[p]];
      assert d[p] !in d[..p];
    } else {
      assert d == d[..|d| - 1] + [d[|d| - 1]];
      DistinctCount(d[..|d| - 1], p);
    }
  }

  /** What the three strategies contribute, in order, before the merge. */
  function Preliminary(query: string, production: bool, byName: NameSearch, byLocation: LocationSearch,
                       byDescription: DescriptionSearch): (r: seq<Hit>)
    ensures |r| <= 3 * MAX_LIBRARIES
  {
    var parts := QueryPartsOf(query);
    var names := if Truthy(parts.libraryQuery) then Limit(byName(parts.libraryQuery.value, production)) else [];
    var places := if parts.placeQuery != "" then Limit(byLocation(parts.placeQuery, parts.placeType, production)) else [];
    names + places + Limit(byDescription(query, production))
  }

  /**
   * `search`: nothing for an empty query, else the merged hits ordered by
   * distance; sorting two or more of them fails if one has no distance.
   */
  function SearchResult(hasTarget: bool, query: string, production: bool, byName: NameSearch,
                        byLocation: LocationSearch, byDescription: DescriptionSearch): Result<seq<Hit>, SearchError>
  {
    if query == "" then Ok([])
    else
      var hits := Preliminary(query, production, byName, byLocation, byDescription);
      if !hasTarget && |hits| > 0 then Err(NotSubscriptable)
      else
        var merged := Dedupe(hits);
        if |merged| <= 1 then Ok(merged)
        else if !Measured(merged) then Err(Unorderable)
        else Ok(SortByDistance(merged))
  }

  /**
   * The search result names each library once, is ordered by distance, holds
   * at most thirty hits, and each hit is the last one the strategies returned
   * for its library; every library a strategy returned is in it, and hits at
   * the same distance keep the order of the merged hits.
   */
  lemma SearchResultShape(hasTarget: bool, query: string, production: bool, byName: NameSearch,
                          byLocation: LocationSearch, byDescription: DescriptionSearch)
    ensures var r := SearchResult(hasTarget, query, production, byName, byLocation, byDescription);
      var hits := Preliminary(query, production, byName, byLocation, byDescription);
      && (query == "" ==> r == Ok([]))
      && (r == Err(NotSubscriptable) <==> query != "" && !hasTarget && |hits| > 0)
      && (r == Err(Unorderable) <==>
            query != "" && hasTarget && |Dedupe(hits)| >= 2 && !Measured(Dedupe(hits)))
      && (r.Ok? ==>
        && DistinctLibraries(r.value)
        && SortedByDistance(r.value)
        && |r.value| <= 3 * MAX_LIBRARIES
        && (forall x | x in r.value :: LastHit(hits, x.library) == Some(x))
        && (query != "" ==> forall x | x in hits :: exists y | y in r.value :: y.library == x.library)
        && (query != "" ==> forall w :: WithDistance(r.value, w) == WithDistance(Dedupe(hits), w)))
  {
    var r := SearchResult(hasTarget, query, production, byName, byLocation, byDescription);
    var hits := Preliminary(query, production, byName, byLocation, byDescription);
    if query != "" && r.Ok? {
      var d := Dedupe(hits);
      DedupeDistinct(hits);
      DedupeKeepsLast(hits);
      DedupeCovers(hits);
      if |d| > 1 {
        SortedMergeShape(hits);
      }
    }
  }

  /** Sorting the merged hits keeps what the merge promised and the order at equal distances. */
  lemma SortedMergeShape(hits: seq<Hit>)
    requires Measured(Dedupe(hits))
    ensures var d := Dedupe(hits);
      var s := SortByDistance(d);
      && DistinctLibraries(s)
      && |s| == |d|
      && (forall x | x in s :: LastHit(hits, x.library) == Some(x))
      && (forall x | x in hits :: exists y | y in s :: y.library == x.library)
      && (forall w :: WithDistance(s, w) == WithDistance(d, w))
  {
    var d := Dedupe(hits);
    var s := SortByDistance(d);
    DedupeDistinct(hits);
    DedupeKeepsLast(hits);
    DedupeCovers(hits);
    SortKeepsDistinct(d);
    assert |s| == |d| by {
      assert |multiset(s)| == |multiset(d)|;
    }
    forall x | x in s ensures LastHit(hits, x.library) == Some(x) {
      assert x in multiset(d);
      var p := Position(d, x);
    }
    forall x | x in hits ensures exists y | y in s :: y.library == x.library {
      var k := IndexOf(d, x.library);
      assert d[k] in multiset(s);
    }
    forall w ensures WithDistance(s, w) == WithDistance(d, w) {
      SortIsStable(d, w);
    }
  }

  /** A postal-code query never asks the name strategy. */
  lemma PostalQuerySkipsNames(hasTarget: bool, query: string, production: bool, byName: NameSearch,
                              otherNames: NameSearch, byLocation: LocationSearch, byDescription: DescriptionSearch)
    requires AsPostalCode(QueryCleanup(query)).Some?
    ensures SearchResult(hasTarget, query, production, byName, byLocation, byDescription)
      == SearchResult(hasTarget, query, production, otherNames, byLocation, byDescription)
  {
  }

  /** The accumulation of `preliminary_results` in `search`: each strategy's hits, cut to the limit, in turn. */
  method PreliminaryResults(query: string, production: bool, byName: NameSearch, byLocation: LocationSearch,
                            byDescription: DescriptionSearch) returns (preliminary: seq<Hit>)
    ensures preliminary == Preliminary(query, production, byName, byLocation, byDescription)
  {
    var parts := QueryPartsOf(query);
    ghost var names := if Truthy(parts.libraryQuery) then Limit(byName(parts.libraryQuery.value, production)) else [];
    ghost var places := if parts.placeQuery != "" then Limit(byLocation(parts.placeQuery, parts.placeType, production)) else [];
    preliminary := [];
    if Truthy(parts.libraryQuery) {
      preliminary := preliminary + Limit(byName(parts.libraryQuery.value, production));
    }
    assert preliminary == names;
    if parts.placeQuery != "" {
      preliminary := preliminary + Limit(byLocation(parts.placeQuery, parts.placeType, production));
    }
    assert preliminary == names + places;
    preliminary := preliminary + Limit(byDescription(query, production));
  }

  /** `search`. */
  method Search(hasTarget: bool, query: string, production: bool, byName: NameSearch, byLocation: LocationSearch,
                byDescription: DescriptionSearch) returns (r: Result<seq<Hit>, SearchError>)
    ensures r == SearchResult(hasTarget, query, production, byName, byLocation, byDescription)
  {
    if query == "" {
      return Ok([]);
    }
    var preliminary := PreliminaryResults(query, production, byName, byLocation, byDescription);
    if !hasTarget && |preliminary| > 0 {
      return Err(NotSubscriptable);
    }
    var merged := Dedupe(preliminary);
    if |merged| <= 1 {
      return Ok(merged);
    }
    if !Measured(merged) {
      return Err(Unorderable);
    }
    return Ok(SortByDistance(merged));
  }
}
