/**
 * The state rules of `Library`, `Validation`, `ConfigurationSetting` and
 * `CollectionSummary` (model.py): stages and feeds, short names, hyperlinks,
 * the choice of one service area, validation deadlines, inherited settings
 * and collection sizes.
 */
module Libraries {
  import opened Wrappers
  import opened Text
  import opened Places
  import Languages

  // ---------------------------------------------------------------------
  // Stages and feeds
  // ---------------------------------------------------------------------

  /** The `stage_enum` column: 'testing', 'production' or 'cancelled'. */
  datatype Stage = Testing | Production | Cancelled

  /**
   * `_feed_restriction`: the production feed wants both parties at
   * production; the other feed wants each of them at production or testing.
   */
  predicate FeedRestriction(production: bool, libraryStage: Stage, registryStage: Stage)
  {
    if production then libraryStage == Production && registryStage == Production
    else libraryStage in {Production, Testing} && registryStage in {Production, Testing}
  }

  /** Whatever the production feed shows, the other feed shows too; a cancelled library is in neither. */
  lemma FeedsNest(libraryStage: Stage, registryStage: Stage)
    ensures FeedRestriction(true, libraryStage, registryStage) ==> FeedRestriction(false, libraryStage, registryStage)
    ensures libraryStage == Cancelled || registryStage == Cancelled ==>
      !FeedRestriction(true, libraryStage, registryStage) && !FeedRestriction(false, libraryStage, registryStage)
    ensures FeedRestriction(false, libraryStage, registryStage) && !FeedRestriction(true, libraryStage, registryStage) ==>
      Testing in {libraryStage, registryStage}
  {
  }

  /** The ValueErrors the `Library` setters raise. */
  datatype LibraryError =
    | StillInProduction      // "This library is already in production; only the registry can take it out of production."
    | PipeInShortName        // "Short name cannot contain the pipe character."
    | NoLinkRelation         // "No link relation was specified"
    | NoHrefs                // "No Hyperlink hrefs were specified"

  /**
   * `validate_short_name`: a missing or empty short name is kept as it is; one
   * with a '|' is refused; any other is upper-cased.
   */
  function ValidateShortName(value: Option<string>): (r: Result<Option<string>, LibraryError>)
    ensures !Truthy(value) ==> r == Ok(value)
    ensures Truthy(value) ==> (r.Err? <==> HasChar(value.value, '|'))
    ensures r.Ok? && Truthy(value) ==>
      (r.value.Some? && |r.value.value| == |value.value|
       && forall i | 0 <= i < |value.value| :: r.value.value[i] == UpperChar(value.value[i]))
  {
    if !Truthy(value) then Ok(value)
    else if HasChar(value.value, '|') then Err(PipeInShortName)
    else Ok(Some(Upper(value.value)))
  }

  /** A validated short name has no '|' and validates to itself again. */
  lemma ShortNameValidationIsStable(value: Option<string>)
    requires ValidateShortName(value).Ok?
    ensures var v := ValidateShortName(value).value;
      && (v.Some? ==> !HasChar(v.value, '|'))
      && ValidateShortName(v) == Ok(v)
  {
    var v := ValidateShortName(value).value;
    if Truthy(value) {
      var s := value.value;
      assert Upper(v.value) == v.value;
    }
  }

  // ---------------------------------------------------------------------
  // Service areas
  // ---------------------------------------------------------------------

  /** `ServiceArea.type`. */
  datatype AreaRole = Eligibility | Focus

  /** A `ServiceArea` row of a library; its place can be missing. */
  datatype AreaRow = AreaRow(place: Option<Place>, role: AreaRole)

  /** A row with a place more specific than everywhere, in the given role. */
  predicate Specific(row: AreaRow, role: AreaRole)
  {
    row.place.Some? && row.place.value.placeType != Everywhere && row.role == role
  }

  function SpecificRows(rows: seq<AreaRow>, role: AreaRole): (r: seq<AreaRow>)
    ensures forall x :: x in r <==> x in rows && Specific(x, role)
    decreases |rows|
  {
    if |rows| == 0 then []
    else (if Specific(rows[0], role) then [rows[0]] else []) + SpecificRows(rows[1..], role)
  }

  /** Exactly one distinct row: the `len(by_type[area_type]) == 1` test on a set of rows. */
  predicate SingleRow(rows: seq<AreaRow>)
  {
    |rows| > 0 && forall i | 0 <= i < |rows| :: rows[i] == rows[0]
  }

  /** The place of the last everywhere row: the loop overwrites `everywhere` at each one. */
  function LastEverywhere(rows: seq<AreaRow>): (r: Option<Place>)
    ensures r.Some? ==> r.value.placeType == Everywhere && exists x | x in rows :: x.place == r
    ensures r.None? <==> forall x | x in rows :: x.place.None? || x.place.value.placeType != Everywhere
    decreases |rows|
  {
    if |rows| == 0 then None
    else
      var last := rows[|rows| - 1];
      if last.place.Some? && last.place.value.placeType == Everywhere then last.place
      else
        assert forall x | x in rows :: x in rows[..|rows| - 1] || x == last;
        LastEverywhere(rows[..|rows| - 1])
  }

  /**
   * `service_area`: the single focus place, else the single eligibility place,
   * else the everywhere place, else None.
   */
  function ServiceAreaOf(rows: seq<AreaRow>): Option<Place>
  {
    var focus := SpecificRows(rows, Focus);
    var eligibility := SpecificRows(rows, Eligibility);
    if SingleRow(focus) then focus[0].place
    else if SingleRow(eligibility) then eligibility[0].place
    else LastEverywhere(rows)
  }

  /**
   * The service area is the place of one of the library's rows; a specific
   * place is the only one of its role, and focus beats eligibility; the
   * everywhere place comes only when no role has exactly one specific place.
   */
  lemma ServiceAreaChoice(rows: seq<AreaRow>)
    ensures var r := ServiceAreaOf(rows);
      && (r.Some? ==> exists x | x in rows :: x.place == r)
      && (r.Some? && r.value.placeType != Everywhere ==>
            (|| (forall x | x in rows && Specific(x, Focus) :: x.place == r)
             || (forall x | x in rows && Specific(x, Eligibility) :: x.place == r)))
      && (SingleRow(SpecificRows(rows, Focus)) ==> r == SpecificRows(rows, Focus)[0].place)
      && (r.Some? && r.value.placeType == Everywhere ==>
            !SingleRow(SpecificRows(rows, Focus)) && !SingleRow(SpecificRows(rows, Eligibility)))
      && (r.None? ==> forall x | x in rows :: x.place.None? || x.place.value.placeType != Everywhere)
  {
    var focus := SpecificRows(rows, Focus);
    var eligibility := SpecificRows(rows, Eligibility);
    var r := ServiceAreaOf(rows);
    if SingleRow(focus) {
      assert focus[0] in rows;
      assert forall x | x in rows && Specific(x, Focus) :: x.place == r by {
        forall x | x in rows && Specific(x, Focus) ensures x.place == r {
          var i :| 0 <= i < |focus| && focus[i] == x;
        }
      }
    } else if SingleRow(eligibility) {
      assert eligibility[0] in rows;
      assert forall x | x in rows && Specific(x, Eligibility) :: x.place == r by {
        forall x | x in rows && Specific(x, Eligibility) ensures x.place == r {
          var i :| 0 <= i < |eligibility| && eligibility[i] == x;
        }
      }
    }
  }

  /** A set of rows with one element is a sequence of rows that are all the same. */
  lemma SingletonRows(s: set<AreaRow>, rows: seq<AreaRow>)
    requires forall x :: x in s <==> x in rows
    ensures |s| == 1 <==> SingleRow(rows)
  {
    if SingleRow(rows) {
      assert s == {rows[0]};
    }
    if |s| == 1 {
      var a :| a in s;
      assert s == {a} by {
        assert |s - {a}| == 0;
      }
      assert |rows| > 0 by { assert a in rows; }
      forall i | 0 <= i < |rows| ensures rows[i] == rows[0] {
        assert rows[i] in s && rows[0] in s;
      }
    }
  }

  // ---------------------------------------------------------------------
  // Collection sizes
  // ---------------------------------------------------------------------

  /** A collection size as `float(size)` reads it, or a value `float` refuses. */
  datatype SizeValue = Number(r: real) | NotNumeric

  /** `int(x)` on a float: truncation toward zero. */
  function Truncate(r: real): (n: int)
    ensures r >= 0.0 ==> 0 <= n && n as real <= r < n as real + 1.0
    ensures r < 0.0 ==> n <= 0 && n as real - 1.0 < r <= n as real
  {
    if r >= 0.0 then r.Floor else -((-r).Floor)
  }

  /** A size above -1 and below 0 truncates to 0 and is accepted. */
  lemma SmallNegativeSizesPass()
    ensures Truncate(-0.5) == 0
  {
  }

  /** The size `CollectionSummary.set` stores, or the ValueError message. */
  function CheckedSize(size: SizeValue): (r: Result<nat, string>)
    ensures r.Ok? <==> size.Number? && size.r > -1.0
    ensures r.Ok? ==> r.value == Truncate(size.r)
  {
    match size
    case NotNumeric => Err("Collection size must be numeric")
    case Number(x) =>
      var n := Truncate(x);
      if n < 0 then Err("Collection size cannot be negative.") else Ok(n)
  }

  // ---------------------------------------------------------------------
  // The library
  // ---------------------------------------------------------------------

  /** `hyperlink.href in hrefs`: a link with no resource has href None, which is never one of them. */
  predicate PointsInto(href: Option<string>, hrefs: seq<string>)
  {
    href.Some? && href.value in hrefs
  }

  class Library {
    var shortName: Option<string>
    var libraryStage: Stage
    var registryStage: Stage
    /** One hyperlink per relation; its href is None while it points at no resource. */
    var hyperlinks: map<string, Option<string>>
    var serviceAreas: seq<AreaRow>
    var audiences: set<string>
    /** The collection summaries, by language code (None: unknown language). */
    var collections: map<Option<string>, nat>

    constructor (shortName: Option<string>)
      ensures this.shortName == shortName
      ensures libraryStage == Testing && registryStage == Testing
      ensures hyperlinks == map[] && serviceAreas == [] && audiences == {} && collections == map[]
    {
      this.shortName := shortName;
      libraryStage := Testing;
      registryStage := Testing;
      hyperlinks := map[];
      serviceAreas := [];
      audiences := {};
      collections := map[];
    }

    /** `in_production`: library and registry agree on production. */
    predicate InProduction()
      reads this
    {
      libraryStage == Production && registryStage == Production
    }

    /** The production feed shows exactly the libraries in production. */
    lemma ProductionFeedIsInProduction()
      ensures FeedRestriction(true, libraryStage, registryStage) <==> InProduction()
    {
    }

    /** The `library_stage` setter: only the registry can take a library out of production. */
    method SetLibraryStage(value: Stage) returns (r: Result<(), LibraryError>)
      modifies this
      ensures old(InProduction()) && value != Production ==> r == Err(StillInProduction) && libraryStage == old(libraryStage)
      ensures !(old(InProduction()) && value != Production) ==> r == Ok(()) && libraryStage == value
      ensures old(InProduction()) ==> InProduction()
      ensures registryStage == old(registryStage) && shortName == old(shortName) && hyperlinks == old(hyperlinks)
      ensures serviceAreas == old(serviceAreas) && audiences == old(audiences) && collections == old(collections)
    {
      if InProduction() && value != Production {
        return Err(StillInProduction);
      }
      libraryStage := value;
      return Ok(());
    }

    /** Assigning `short_name`, through `validate_short_name`. */
    method SetShortName(value: Option<string>) returns (r: Result<(), LibraryError>)
      modifies this
      ensures ValidateShortName(value).Err? ==> r == Err(PipeInShortName) && shortName == old(shortName)
      ensures ValidateShortName(value).Ok? ==> r == Ok(()) && shortName == ValidateShortName(value).value
      ensures libraryStage == old(libraryStage) && registryStage == old(registryStage) && hyperlinks == old(hyperlinks)
      ensures serviceAreas == old(serviceAreas) && audiences == old(audiences) && collections == old(collections)
    {
      var v := ValidateShortName(value);
      if v.Err? {
        return Err(v.error);
      }
      shortName := v.value;
      return Ok(());
    }

    /**
     * `set_hyperlink`: make the link with this relation point at one of the
     * hrefs. The result is `is_modified`: true when the link was created or
     * had to be pointed at the first href.
     */
    method SetHyperlink(rel: string, hrefs: seq<string>) returns (r: Result<bool, LibraryError>)
      modifies this
      ensures rel == "" ==> r == Err(NoLinkRelation) && hyperlinks == old(hyperlinks)
      ensures rel != "" && |hrefs| == 0 ==> r == Err(NoHrefs) && hyperlinks == old(hyperlinks)
      ensures rel != "" && |hrefs| > 0 ==>
        && r.Ok?
        && (r.value <==> rel !in old(hyperlinks) || !PointsInto(old(hyperlinks)[rel], hrefs))
        && rel in hyperlinks && hyperlinks[rel].Some? && hyperlinks[rel].value in hrefs
        && hyperlinks == old(hyperlinks)[rel := if r.value then Some(hrefs[0]) else old(hyperlinks)[rel]]
      ensures shortName == old(shortName) && libraryStage == old(libraryStage) && registryStage == old(registryStage)
      ensures serviceAreas == old(serviceAreas) && audiences == old(audiences) && collections == old(collections)
    {
      if rel == "" {
        return Err(NoLinkRelation);
      }
      if |hrefs| == 0 {
        return Err(NoHrefs);
      }
      var defaultHref := hrefs[0];
      var isModified := false;
      if rel !in hyperlinks {
        hyperlinks := hyperlinks[rel := None];
        isModified := true;
      }
      if !PointsInto(hyperlinks[rel], hrefs) {
        hyperlinks := hyperlinks[rel := Some(defaultHref)];
        isModified := true;
      }
      return Ok(isModified);
    }

    /** `service_area`: one pass grouping the rows by role, then the choice. */
    method ServiceArea() returns (r: Option<Place>)
      ensures r == ServiceAreaOf(serviceAreas)
    {
      var everywhere: Option<Place> := None;
      var focus: set<AreaRow> := {};
      var eligibility: set<AreaRow> := {};
      var i := 0;
      while i < |serviceAreas|
        invariant 0 <= i <= |serviceAreas|
        invariant everywhere == LastEverywhere(serviceAreas[..i])
        invariant forall x :: x in focus <==> x in serviceAreas[..i] && Specific(x, Focus)
        invariant forall x :: x in eligibility <==> x in serviceAreas[..i] && Specific(x, Eligibility)
      {
        var a := serviceAreas[i];
        assert serviceAreas[..i + 1][..i] == serviceAreas[..i];
        assert forall x :: x in serviceAreas[..i + 1] <==> x in serviceAreas[..i] || x == a;
        if a.place.None? {
        } else if a.place.value.placeType == Everywhere {
          everywhere := a.place;
        } else if a.role == Focus {
          focus := focus + {a};
        } else {
          eligibility := eligibility + {a};
        }
        i := i + 1;
      }
      assert serviceAreas[..i] == serviceAreas;
      SingletonRows(focus, SpecificRows(serviceAreas, Focus));
      SingletonRows(eligibility, SpecificRows(serviceAreas, Eligibility));
      if |focus| == 1 {
        var a :| a in focus;
        assert a == SpecificRows(serviceAreas, Focus)[0];
        return a.place;
      }
      if |eligibility| == 1 {
        var a :| a in eligibility;
        assert a == SpecificRows(serviceAreas, Eligibility)[0];
        return a.place;
      }
      return everywhere;
    }

    /**
     * `CollectionSummary.set`: check the size, resolve the language, and
     * create or update the summary for that code. The result is the summary's
     * language code and size.
     */
    method SetCollectionSummary(t: Languages.Tables, language: Option<string>, size: SizeValue)
      returns (r: Result<(Option<string>, nat), string>)
      modifies this`collections
      ensures CheckedSize(size).Err? ==> r == Err(CheckedSize(size).error) && collections == old(collections)
      ensures CheckedSize(size).Ok? ==>
        var code := Languages.StringToAlpha3(t, language);
        && r == Ok((code, CheckedSize(size).value))
        && collections == old(collections)[code := CheckedSize(size).value]
    {
      var n := CheckedSize(size);
      if n.Err? {
        return Err(n.error);
      }
      var code := Languages.StringToAlpha3(t, language);
      collections := collections[code := n.value];
      return Ok((code, n.value));
    }
  }

  // ---------------------------------------------------------------------
  // Validation
  // ---------------------------------------------------------------------

  /** `Validation.EXPIRES_AFTER`, one day, in microseconds (the resolution of `datetime`). */
  const EXPIRES_AFTER: int := 86_400_000_000

  /** The Exceptions `mark_as_successful` raises. */
  datatype ValidationError = AlreadySucceeded | Expired

  /** An attempt to validate a resource; instants are microseconds on the registry's clock. */
  class Validation {
    var success: bool
    var startedAt: int
    var secret: Option<string>

    /** A new row: the column defaults. */
    constructor (now: int, secret: string)
      ensures !success && startedAt == now && this.secret == Some(secret)
    {
      success := false;
      startedAt := now;
      this.secret := Some(secret);
    }

    /** `deadline`: none once the validation succeeded, else one day after it started. */
    function Deadline(): (r: Option<int>)
      reads this
      ensures r.None? <==> success
      ensures r.Some? ==> r.value - startedAt == EXPIRES_AFTER
    {
      if success then None else Some(startedAt + EXPIRES_AFTER)
    }

    /** `active` at the instant `now`. */
    predicate Active(now: int)
      reads this
    {
      !success && now < Deadline().value
    }

    /** `restart`: a new attempt with a new secret, open for one day from `now`. */
    method Restart(now: int, newSecret: string)
      modifies this
      ensures startedAt == now && secret == Some(newSecret) && !success
      ensures forall t :: Active(t) <==> t < now + EXPIRES_AFTER
    {
      startedAt := now;
      secret := Some(newSecret);
      success := false;
    }

    /** `mark_as_successful`: refused when already done or expired; otherwise the secret is spent. */
    method MarkAsSuccessful(now: int) returns (r: Result<(), ValidationError>)
      modifies this
      ensures old(success) ==> r == Err(AlreadySucceeded)
      ensures !old(success) && !old(Active(now)) ==> r == Err(Expired)
      ensures r.Err? ==> success == old(success) && secret == old(secret) && startedAt == old(startedAt)
      ensures r.Ok? <==> old(Active(now))
      ensures r.Ok? ==> success && secret == None && startedAt == old(startedAt) && Deadline() == None
      ensures r.Ok? ==> forall t :: !Active(t)
    {
      if success {
        return Err(AlreadySucceeded);
      }
      if !Active(now) {
        return Err(Expired);
      }
      secret := None;
      success := true;
      return Ok(());
    }
  }

  /** A validation is active exactly in the day after it started, until it succeeds. */
  lemma ActiveWindow(v: Validation, now: int)
    ensures v.Active(now) <==> !v.success && now - v.startedAt < EXPIRES_AFTER
  {
  }

  // ---------------------------------------------------------------------
  // Configuration settings
  // ---------------------------------------------------------------------

  /** The unique key of a `ConfigurationSetting` row: library, external integration and key. */
  datatype SettingKey = SettingKey(library: Option<int>, integration: Option<int>, key: string)

  /** The stored `_value` of every setting row; a missing row reads as None. */
  type Settings = map<SettingKey, Option<string>>

  function Raw(store: Settings, k: SettingKey): Option<string>
  {
    if k in store then store[k] else None
  }

  /**
   * `ConfigurationSetting.value`: an explicit value wins; a library setting
   * for an integration falls back to the integration's setting; a library
   * setting without one falls back to the sitewide setting.
   */
  function SettingValue(store: Settings, k: SettingKey): (r: Option<string>)
    ensures Truthy(Raw(store, k)) ==> r == Raw(store, k)
    ensures r == Raw(store, k)
      || (k.library.Some? && k.integration.Some? && r == Raw(store, SettingKey(None, k.integration, k.key)))
      || (k.library.Some? && k.integration.None? && r == Raw(store, SettingKey(None, None, k.key)))
    decreases if k.library.Some? then 1 else 0
  {
    var raw := Raw(store, k);
    if Truthy(raw) then raw
    else if k.library.Some? && k.integration.Some? then SettingValue(store, SettingKey(None, k.integration, k.key))
    else if k.library.Some? then SettingValue(store, SettingKey(None, None, k.key))
    else raw
  }

  /**
   * A library's setting for an integration never reads the sitewide setting,
   * and an integration's own setting never inherits anything.
   */
  lemma SettingInheritanceIsOneLevel(store: Settings, k: SettingKey, v: Option<string>)
    ensures k.library.Some? && k.integration.Some? ==>
      SettingValue(store[SettingKey(None, None, k.key) := v], k) == SettingValue(store, k)
    ensures k.library.None? ==> SettingValue(store, k) == Raw(store, k)
  {
    if k.library.Some? && k.integration.Some? {
      var s2 := store[SettingKey(None, None, k.key) := v];
      assert Raw(s2, k) == Raw(store, k);
      assert Raw(s2, SettingKey(None, k.integration, k.key)) == Raw(store, SettingKey(None, k.integration, k.key));
    }
  }

  const MEANS_YES: set<string> := {"true", "t", "yes", "y"}
  const SECRET_SETTING_KEYWORDS: seq<string> := ["password", "secret"]

  /** `bool_value`: None without a value, else whether its lower-cased text means yes. */
  function BoolValue(value: Option<string>): (r: Option<bool>)
    ensures r.None? <==> value.None?
    ensures r == Some(true) ==> 1 <= |value.value| <= 4
  {
    if value.None? then None else Some(Lower(value.value) in MEANS_YES)
  }

  /** `bool_value` ignores case: "YES" and "yes" both mean yes. */
  lemma BoolValueIgnoresCase(s: string)
    ensures BoolValue(Some(Upper(s))) == BoolValue(Some(s))
  {
    LowerOfUpper(s);
  }

  /** `_is_secret`: the lower-cased key contains "password" or "secret". */
  predicate IsSecret(key: string)
  {
    exists k | k in SECRET_SETTING_KEYWORDS :: Contains(Lower(key), k)
  }

  /** Whether a key is secret does not depend on its case, and a key holding "password" is secret. */
  lemma IsSecretIgnoresCase(key: string, prefix: string, suffix: string)
    ensures IsSecret(Upper(key)) <==> IsSecret(key)
    ensures IsSecret(prefix + "password" + suffix)
  {
    LowerOfUpper(key);
    var s := prefix + "password" + suffix;
    var low := Lower(s);
    assert s[|prefix|..][..8] == "password";
    assert forall j | 0 <= j < 8 :: low[|prefix|..][j] == LowerChar(s[|prefix| + j]);
    assert low[|prefix|..][..8] == "password";
    assert StartsWith(low[|prefix|..], "password");
    assert "password" in SECRET_SETTING_KEYWORDS;
  }
}
