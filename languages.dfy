/**
 * The ISO 639 language-code tables of `LanguageCodes` (util/language.py) and
 * the lookups over them.
 *
 * The tables are class-level dictionaries filled once from the ISO 639-2 data
 * file and from a fixed list of native names. Four of them are
 * `defaultdict`s: reading a missing key with `d[k]` stores the default (None,
 * or an empty list) under that key, so some lookups change the tables. The
 * class keeps the five tables as fields; the pure functions below describe
 * them as one `Tables` value, and the methods are proved against those
 * functions.
 */
module Languages {
  import opened Wrappers
  import opened Text

  /** One line of the ISO 639-2 file: alpha-3, terminologic code, alpha-2, English names, French names. */
  datatype IsoRow = IsoRow(alpha3: string, terminologic: string, alpha2: string, names: seq<string>, frenchNames: string)

  datatype Tables = Tables(
    twoToThree: map<string, Option<string>>,
    threeToTwo: map<string, Option<string>>,
    englishNames: map<string, seq<string>>,
    englishNamesToThree: map<string, string>,
    // Keyed by an optional code: the load stores under `two_to_three[code]`, which is None for an unknown code.
    nativeNames: map<Option<string>, seq<string>>)

  const EMPTY_TABLES := Tables(map[], map[], map[], map[], map[])

  /** The native names the registry knows: (alpha-2 code, comma-separated native names). */
  const NATIVE_NAMES: seq<(string, string)> := [
    ("en", "English"),
    ("fr", "français"),
    ("de", "Deutsch"),
    ("el", "Ελληνικά"),
    ("hu", "Magyar"),
    ("it", "Italiano"),
    ("no", "Norsk"),
    ("pl", "polski"),
    ("pt", "Português"),
    ("ru", "русский"),
    ("es", "español, castellano"),
    ("sv", "svenska")
  ]

  // ---------------------------------------------------------------------
  // Loading the tables
  // ---------------------------------------------------------------------

  /**
   * One line of the data file, stripped and split at '|'. Anything but five
   * fields makes the tuple unpacking fail, and the table load with it.
   */
  function ParseLine(line: string): (r: Option<IsoRow>)
    ensures r.Some? <==> |Split(Strip(line), At('|'))| == 5
    ensures r.Some? ==> (forall n | n in r.value.names :: Free(n, At(';')) && Strip(n) == n)
  {
    var fields := Split(Strip(line), At('|'));
    if |fields| != 5 then None
    else
      var names := StripEach(Split(fields[3], At(';')));
      StripEachFree(Split(fields[3], At(';')), ';');
      Some(IsoRow(fields[0], fields[1], fields[2], names, fields[4]))
  }

  /** Stripping pieces free of a separator gives stripped pieces free of it. */
  lemma StripEachFree(ws: seq<string>, c: char)
    requires forall i | 0 <= i < |ws| :: Free(ws[i], At(c))
    ensures forall n | n in StripEach(ws) :: Free(n, At(c)) && Strip(n) == n
  {
    var names := StripEach(ws);
    forall i | 0 <= i < |names|
      ensures Free(names[i], At(c)) && Strip(names[i]) == names[i]
    {
      StripOfFree(ws[i], At(c));
      StripOfStripped(names[i]);
    }
  }

  /** The line the data file holds for a row. */
  function RowLine(row: IsoRow): string
  {
    Join([row.alpha3, row.terminologic, row.alpha2, Join(row.names, ";"), row.frenchNames], "|")
  }

  predicate Clean(s: string)
  {
    |s| == 0 || (!IsSpace(s[0]) && !IsSpace(s[|s| - 1]))
  }

  /** A row that `RowLine` writes without ambiguity. */
  predicate WellFormedRow(row: IsoRow)
  {
    && Free(row.alpha3, At('|')) && Free(row.terminologic, At('|')) && Free(row.alpha2, At('|'))
    && Free(row.frenchNames, At('|'))
    && |row.names| >= 1
    && (forall n | n in row.names :: Free(n, At('|')) && Free(n, At(';')) && Clean(n))
    && |row.alpha3| > 0 && !IsSpace(row.alpha3[0])
    && |row.frenchNames| > 0 && !IsSpace(row.frenchNames[|row.frenchNames| - 1])
  }

  lemma {:induction false} JoinFree(ws: seq<string>, c: char, d: char)
    requires c != d
    requires forall i | 0 <= i < |ws| :: Free(ws[i], At(d))
    ensures Free(Join(ws, [c]), At(d))
    decreases |ws|
  {
    if |ws| > 1 {
      JoinFree(ws[1..], c, d);
    }
  }

  lemma {:induction false} StripEachClean(ws: seq<string>)
    requires forall i | 0 <= i < |ws| :: Clean(ws[i])
    ensures StripEach(ws) == ws
  {
    forall i | 0 <= i < |ws| ensures Strip(ws[i]) == ws[i] {
      StripOfStripped(ws[i]);
    }
  }

  /** Reading back the line written for a row gives the row. */
  lemma ParseRowLine(row: IsoRow)
    requires WellFormedRow(row)
    ensures ParseLine(RowLine(row)) == Some(row)
  {
    var fields := [row.alpha3, row.terminologic, row.alpha2, Join(row.names, ";"), row.frenchNames];
    var line := Join(fields, "|");
    JoinFree(row.names, ';', '|');
    SplitJoin(fields, '|', At('|'));
    RowLineEnds(row);
    StripOfStripped(line);
    SplitJoin(row.names, ';', At(';'));
    StripEachClean(row.names);
  }

  /** The line of a well-formed row starts with its alpha-3 code and ends with its French names. */
  lemma RowLineEnds(row: IsoRow)
    requires WellFormedRow(row)
    ensures var line := RowLine(row);
      |line| > 0 && line[0] == row.alpha3[0] && line[|line| - 1] == row.frenchNames[|row.frenchNames| - 1]
  {
    var fields := [row.alpha3, row.terminologic, row.alpha2, Join(row.names, ";"), row.frenchNames];
    var line := Join(fields, "|");
    JoinLength(fields, "|");
    assert line[0] == row.alpha3[0];
    assert Join(fields[3..], "|") == Join(row.names, ";") + "|" + row.frenchNames by {
      assert fields[3..][1..] == [row.frenchNames];
    }
    assert Join(fields[2..], "|") == row.alpha2 + "|" + Join(fields[3..], "|") by {
      assert fields[2..][1..] == fields[3..];
    }
    assert Join(fields[1..], "|") == row.terminologic + "|" + Join(fields[2..], "|") by {
      assert fields[1..][1..] == fields[2..];
    }
    assert line == row.alpha3 + "|" + Join(fields[1..], "|");
  }

  /** `for name in names: english_names_to_three[name.lower()] = alpha_3`. */
  function AddEnglishNames(m: map<string, string>, names: seq<string>, alpha3: string): (r: map<string, string>)
    ensures forall n | n in names :: Lower(n) in r && r[Lower(n)] == alpha3
    ensures forall k | k in m && (forall n | n in names :: Lower(n) != k) :: k in r && r[k] == m[k]
    ensures r.Keys == m.Keys + set n | n in names :: Lower(n)
    decreases |names|
  {
    if |names| == 0 then m
    else AddEnglishNames(m[Lower(names[0]) := alpha3], names[1..], alpha3)
  }

  /** What the load loop does with one row of the data file. */
  function AddRow(t: Tables, row: IsoRow): Tables
  {
    var t1 :=
      if row.alpha2 != "" then
        t.(threeToTwo := t.threeToTwo[row.alpha3 := Some(row.alpha2)],
           englishNames := t.englishNames[row.alpha2 := row.names],
           twoToThree := t.twoToThree[row.alpha2 := Some(row.alpha3)])
      else t;
    t1.(englishNamesToThree := AddEnglishNames(t1.englishNamesToThree, row.names, row.alpha3),
        englishNames := t1.englishNames[row.alpha3 := row.names])
  }

  function LoadRows(rows: seq<IsoRow>): Tables
    decreases |rows|
  {
    if |rows| == 0 then EMPTY_TABLES
    else AddRow(LoadRows(rows[..|rows| - 1]), rows[|rows| - 1])
  }

  /** A `defaultdict(lambda: None)` read: a missing key is stored with None. */
  function Touch(m: map<string, Option<string>>, k: string): (r: map<string, Option<string>>)
    ensures k in r && r.Keys == m.Keys + {k}
    ensures forall j | j in m :: r[j] == m[j]
    ensures k !in m ==> r[k] == None
  {
    if k in m then m else m[k := None]
  }

  /** What the load loop does with one native-name entry. */
  function AddNative(t: Tables, entry: (string, string)): Tables
  {
    var (alpha2, native) := entry;
    var twoToThree := Touch(t.twoToThree, alpha2);
    var names := StripEach(Split(native, At(',')));
    t.(twoToThree := twoToThree,
       nativeNames := t.nativeNames[Some(alpha2) := names][twoToThree[alpha2] := names])
  }

  function AddNatives(t: Tables, entries: seq<(string, string)>): Tables
    decreases |entries|
  {
    if |entries| == 0 then t
    else AddNative(AddNatives(t, entries[..|entries| - 1]), entries[|entries| - 1])
  }

  /** The tables as the class body leaves them. */
  function Load(rows: seq<IsoRow>): Tables
  {
    AddNatives(LoadRows(rows), NATIVE_NAMES)
  }

  /** Codes the data file lists once each, so no row overwrites another's entries. */
  predicate DistinctCodes(rows: seq<IsoRow>)
  {
    && (forall i, j | 0 <= i < j < |rows| :: rows[i].alpha3 != rows[j].alpha3)
    && (forall i, j | 0 <= i < j < |rows| && rows[i].alpha2 != "" :: rows[i].alpha2 != rows[j].alpha2)
  }

  /** The two code maps of the loaded rows are inverse to each other. */
  predicate CodeMapsInverse(t: Tables)
  {
    && (forall a2 | a2 in t.twoToThree && t.twoToThree[a2].Some? ::
          t.twoToThree[a2].value in t.threeToTwo && t.threeToTwo[t.twoToThree[a2].value] == Some(a2))
    && (forall a3 | a3 in t.threeToTwo && t.threeToTwo[a3].Some? ::
          t.threeToTwo[a3].value in t.twoToThree && t.twoToThree[t.threeToTwo[a3].value] == Some(a3))
  }

  /** Only a row with an alpha-2 code puts keys into the two code maps. */
  lemma {:induction false} LoadRowsKeys(rows: seq<IsoRow>)
    ensures forall a2 | a2 in LoadRows(rows).twoToThree ::
      exists i | 0 <= i < |rows| :: rows[i].alpha2 == a2 && rows[i].alpha2 != ""
    ensures forall a3 | a3 in LoadRows(rows).threeToTwo ::
      exists i | 0 <= i < |rows| :: rows[i].alpha3 == a3 && rows[i].alpha2 != ""
    decreases |rows|
  {
    if |rows| > 0 {
      var init := rows[..|rows| - 1];
      LoadRowsKeys(init);
      var t := LoadRows(init);
      var u := LoadRows(rows);
      forall a2 | a2 in u.twoToThree
        ensures exists i | 0 <= i < |rows| :: rows[i].alpha2 == a2 && rows[i].alpha2 != ""
      {
        if a2 in t.twoToThree {
          var i :| 0 <= i < |init| && init[i].alpha2 == a2 && init[i].alpha2 != "";
          assert rows[i] == init[i];
        } else {
          assert rows[|rows| - 1].alpha2 == a2;
        }
      }
      forall a3 | a3 in u.threeToTwo
        ensures exists i | 0 <= i < |rows| :: rows[i].alpha3 == a3 && rows[i].alpha2 != ""
      {
        if a3 in t.threeToTwo {
          var i :| 0 <= i < |init| && init[i].alpha3 == a3 && init[i].alpha2 != "";
          assert rows[i] == init[i];
        } else {
          assert rows[|rows| - 1].alpha3 == a3;
        }
      }
    }
  }

  /** A row whose codes are new keeps the code maps inverse. */
  lemma AddRowKeepsInverse(t: Tables, row: IsoRow)
    requires CodeMapsInverse(t)
    requires row.alpha2 != "" ==> row.alpha2 !in t.twoToThree && row.alpha3 !in t.threeToTwo
    ensures CodeMapsInverse(AddRow(t, row))
  {
  }

  /** A row leaves the code pairs of other codes as they were. */
  lemma AddRowKeepsPair(t: Tables, row: IsoRow, a2: string, a3: string)
    requires a2 in t.twoToThree && t.twoToThree[a2] == Some(a3) && a3 in t.threeToTwo && t.threeToTwo[a3] == Some(a2)
    requires a2 != row.alpha2 && a3 != row.alpha3
    ensures var u := AddRow(t, row);
      a2 in u.twoToThree && u.twoToThree[a2] == Some(a3) && a3 in u.threeToTwo && u.threeToTwo[a3] == Some(a2)
  {
  }

  /** A row with an alpha-2 code puts its own pair of codes into the code maps. */
  lemma AddRowHasPair(t: Tables, row: IsoRow)
    requires row.alpha2 != ""
    ensures var u := AddRow(t, row);
      && row.alpha2 in u.twoToThree && u.twoToThree[row.alpha2] == Some(row.alpha3)
      && row.alpha3 in u.threeToTwo && u.threeToTwo[row.alpha3] == Some(row.alpha2)
  {
  }

  /** Every row with an alpha-2 code is in both code maps, which are inverse to each other. */
  lemma {:induction false} LoadRowsCodes(rows: seq<IsoRow>)
    requires DistinctCodes(rows)
    ensures CodeMapsInverse(LoadRows(rows))
    ensures forall i | 0 <= i < |rows| && rows[i].alpha2 != "" ::
      && rows[i].alpha2 in LoadRows(rows).twoToThree && LoadRows(rows).twoToThree[rows[i].alpha2] == Some(rows[i].alpha3)
      && rows[i].alpha3 in LoadRows(rows).threeToTwo && LoadRows(rows).threeToTwo[rows[i].alpha3] == Some(rows[i].alpha2)
    decreases |rows|
  {
    if |rows| > 0 {
      var init := rows[..|rows| - 1];
      var last := rows[|rows| - 1];
      assert DistinctCodes(init);
      LoadRowsCodes(init);
      LoadRowsKeys(init);
      var t := LoadRows(init);
      if last.alpha2 != "" {
        assert last.alpha2 !in t.twoToThree;
        assert last.alpha3 !in t.threeToTwo;
      }
      AddRowKeepsInverse(t, last);
      var u := LoadRows(rows);
      assert u == AddRow(t, last);
      forall i | 0 <= i < |rows| && rows[i].alpha2 != ""
        ensures rows[i].alpha2 in u.twoToThree && u.twoToThree[rows[i].alpha2] == Some(rows[i].alpha3)
        ensures rows[i].alpha3 in u.threeToTwo && u.threeToTwo[rows[i].alpha3] == Some(rows[i].alpha2)
      {
        if i < |rows| - 1 {
          PrefixOfPrefix(rows, |rows| - 1, i);
          AddRowKeepsPair(t, last, rows[i].alpha2, rows[i].alpha3);
        } else {
          AddRowHasPair(t, last);
        }
      }
    }
  }

  // ---------------------------------------------------------------------
  // Lookups
  // ---------------------------------------------------------------------

  /** The result of a lookup that may have stored defaults in the tables it read. */
  datatype Looked = Looked(code: Option<string>, tables: Tables)

  /** The language part of a locale: everything before the first '-', lower-cased, when there is a '-'. */
  function LocaleLanguage(locale: string): (r: string)
    ensures !HasChar(locale, '-') ==> r == locale
    ensures HasChar(locale, '-') ==> Free(r, At('-')) && StartsWith(Lower(locale), r + "-")
  {
    if HasChar(locale, '-') then
      LeadingPiece(Lower(locale), '-');
      Split(Lower(locale), At('-'))[0]
    else locale
  }

  /** The first piece of a split is the text before the first separator. */
  lemma {:induction false} LeadingPiece(s: string, c: char)
    requires HasChar(s, c) || HasChar(Lower(s), c)
    ensures HasChar(s, c) ==> StartsWith(s, Split(s, At(c))[0] + [c])
    decreases |s|
  {
    if HasChar(s, c) {
      if s[0] != c {
        var i :| 0 <= i < |s| && s[i] == c;
        assert s[1..][i - 1] == c;
        LeadingPiece(s[1..], c);
      }
    }
  }

  /**
   * `iso_639_2_for_locale`: an alpha-2 language maps to its alpha-3 code, an
   * alpha-3 code present in `three_to_two` passes through, anything else is
   * None. Both reads are `defaultdict` reads, so the language becomes a key of
   * `two_to_three`, and of `three_to_two` too when the first read fails.
   */
  function LocaleLookup(t: Tables, locale: string): (r: Looked)
    ensures r.code.Some? ==>
      || (exists a2 | a2 in t.twoToThree :: t.twoToThree[a2] == r.code)
      || (r.code.value in t.threeToTwo && Truthy(t.threeToTwo[r.code.value]))
    ensures r.tables.twoToThree == Touch(t.twoToThree, LocaleLanguage(locale))
    ensures r.tables.threeToTwo == t.threeToTwo || r.tables.threeToTwo == Touch(t.threeToTwo, LocaleLanguage(locale))
    ensures r.tables.englishNames == t.englishNames && r.tables.nativeNames == t.nativeNames
    ensures r.tables.englishNamesToThree == t.englishNamesToThree
  {
    var language := LocaleLanguage(locale);
    var t1 := t.(twoToThree := Touch(t.twoToThree, language));
    if Truthy(t1.twoToThree[language]) then
      Looked(t1.twoToThree[language], t1)
    else
      var t2 := t1.(threeToTwo := Touch(t1.threeToTwo, language));
      if Truthy(t2.threeToTwo[language]) then Looked(Some(language), t2)
      else Looked(None, t2)
  }

  /**
   * `string_to_alpha_3`: an English language name (any case) gives its code;
   * otherwise the text before any '-' is taken as an alpha-3 code when it is a
   * key of `three_to_two`, or as an alpha-2 code when it is a key of
   * `two_to_three`. These are `in` tests, which do not store anything.
   */
  function StringToAlpha3(t: Tables, s: Option<string>): (r: Option<string>)
    ensures !Truthy(s) ==> r == None
    ensures Truthy(s) && Lower(s.value) in t.englishNamesToThree ==> r == Some(t.englishNamesToThree[Lower(s.value)])
    ensures r.Some? ==>
      || r.value in t.englishNamesToThree.Values
      || r.value in t.threeToTwo
      || (exists a2 | a2 in t.twoToThree :: t.twoToThree[a2] == r)
  {
    if !Truthy(s) then None
    else
      var low := Lower(s.value);
      if low in t.englishNamesToThree then Some(t.englishNamesToThree[low])
      else
        var code := if HasChar(low, '-') then Split(low, At('-'))[0] else low;
        if code in t.threeToTwo then Some(code)
        else if code in t.twoToThree then t.twoToThree[code]
        else None
  }

  /** Case does not matter to `string_to_alpha_3`. */
  lemma StringToAlpha3IgnoresCase(t: Tables, s: string)
    ensures StringToAlpha3(t, Some(Upper(s))) == StringToAlpha3(t, Some(s))
  {
    LowerOfUpper(s);
    assert Truthy(Some(Upper(s))) == Truthy(Some(s)) by {
      assert |Upper(s)| == |s|;
    }
  }

  /**
   * A locale lookup stores its language under `three_to_two` with the value
   * None; `string_to_alpha_3` only asks whether the key is there, so from then
   * on it accepts that language as an alpha-3 code.
   */
  lemma LocaleLookupLeaksIntoAlpha3(t: Tables, s: string)
    requires s != "" && Lower(s) == s && !HasChar(s, '-')
    requires s !in t.twoToThree && s !in t.threeToTwo && s !in t.englishNamesToThree
    ensures LocaleLookup(t, s).code == None
    ensures StringToAlpha3(t, Some(s)) == None
    ensures StringToAlpha3(LocaleLookup(t, s).tables, Some(s)) == Some(s)
  {
    assert LocaleLanguage(s) == s;
  }

  /** What `languages_from_accept`'s loop holds after the given locales, and the tables it leaves. */
  function AcceptFold(t: Tables, locales: seq<string>): (r: (seq<string>, Tables))
    ensures forall i, j | 0 <= i < j < |r.0| :: r.0[i] != r.0[j]
    ensures forall i | 0 <= i < |r.0| :: r.0[i] != ""
    decreases |locales|
  {
    if |locales| == 0 then ([], t)
    else
      var (langs, t1) := AcceptFold(t, locales[..|locales| - 1]);
      var res := LocaleLookup(t1, locales[|locales| - 1]);
      if Truthy(res.code) && res.code.value !in langs then (langs + [res.code.value], res.tables)
      else (langs, res.tables)
  }

  /** Each code of the result is the code of some locale of the input, looked up in order. */
  lemma {:induction false} AcceptFoldFromLocales(t: Tables, locales: seq<string>)
    ensures forall c | c in AcceptFold(t, locales).0 ::
      exists i | 0 <= i < |locales| :: LocaleLookup(AcceptFold(t, locales[..i]).1, locales[i]).code == Some(c)
    decreases |locales|
  {
    if |locales| > 0 {
      var n := |locales| - 1;
      var init := locales[..n];
      AcceptFoldFromLocales(t, init);
      var langs := AcceptFold(t, init).0;
      var res := LocaleLookup(AcceptFold(t, init).1, locales[n]);
      assert AcceptFold(t, locales).0 == if Truthy(res.code) && res.code.value !in langs then langs + [res.code.value] else langs;
      forall c | c in AcceptFold(t, locales).0
        ensures exists i | 0 <= i < |locales| :: LocaleLookup(AcceptFold(t, locales[..i]).1, locales[i]).code == Some(c)
      {
        if c in langs {
          var i :| 0 <= i < |init| && LocaleLookup(AcceptFold(t, init[..i]).1, init[i]).code == Some(c);
          PrefixOfPrefix(locales, n, i);
        } else {
          assert res.code == Some(c);
        }
      }
    }
  }

  /** The names `name_for_languageset` uses for one code: the first native name, else the first English name. */
  function DisplayName(t: Tables, lang: string): (r: Option<string>)
    ensures r.Some? <==>
      var code := StringToAlpha3(t, Some(lang));
      || (code in t.nativeNames && |t.nativeNames[code]| > 0)
      || (code.Some? && code.value in t.englishNames && |t.englishNames[code.value]| > 0)
  {
    var code := StringToAlpha3(t, Some(lang));
    var native := if code in t.nativeNames then t.nativeNames[code] else [];
    if |native| > 0 then Some(native[0])
    else
      var english := if code.Some? && code.value in t.englishNames then t.englishNames[code.value] else [];
      if |english| > 0 then Some(english[0]) else None
  }

  /** The argument of `name_for_languageset`: a list of codes, or one comma-separated string. */
  datatype LanguageSet = Listed(codes: seq<string>) | CommaSeparated(text: string)

  function Codes(ls: LanguageSet): seq<string>
  {
    match ls
    case Listed(codes) => codes
    case CommaSeparated(text) => Split(text, At(','))
  }

  /** The display names of all codes, or the first code that has none (a ValueError). */
  function DisplayNames(t: Tables, langs: seq<string>): (r: Result<seq<string>, string>)
    ensures r.Ok? <==> forall i | 0 <= i < |langs| :: DisplayName(t, langs[i]).Some?
    ensures r.Ok? ==> |r.value| == |langs| && forall i | 0 <= i < |langs| :: DisplayName(t, langs[i]).value == r.value[i]
    ensures r.Err? ==> exists i | 0 <= i < |langs| ::
      r.error == langs[i] && DisplayName(t, langs[i]).None? && forall j | 0 <= j < i :: DisplayName(t, langs[j]).Some?
    decreases |langs|
  {
    if |langs| == 0 then Ok([])
    else
      var init := langs[..|langs| - 1];
      var last := langs[|langs| - 1];
      match DisplayNames(t, init)
      case Err(e) =>
        ghost var k :| 0 <= k < |init| && e == init[k] && DisplayName(t, init[k]).None?
          && forall j | 0 <= j < k :: DisplayName(t, init[j]).Some?;
        assert langs[k] == init[k];
        assert forall j | 0 <= j < k :: langs[j] == init[j];
        Err(e)
      case Ok(ns) =>
        assert forall j | 0 <= j < |init| :: langs[j] == init[j];
        match DisplayName(t, last)
        case None => Err(last)
        case Some(n) => Ok(ns + [n])
  }

  /** One more code either adds its display name or stops with it as the error. */
  lemma DisplayNamesStep(t: Tables, langs: seq<string>, i: nat)
    requires i < |langs| && DisplayNames(t, langs[..i]).Ok?
    ensures DisplayName(t, langs[i]).None? ==>
      (DisplayNames(t, langs[..i + 1]).Err? && DisplayNames(t, langs[..i + 1]).error == langs[i])
    ensures DisplayName(t, langs[i]).Some? ==>
      (DisplayNames(t, langs[..i + 1]).Ok?
       && DisplayNames(t, langs[..i + 1]).value == DisplayNames(t, langs[..i]).value + [DisplayName(t, langs[i]).value])
  {
    assert langs[..i + 1][..i] == langs[..i];
  }

  lemma DisplayNamesErrorStep(t: Tables, langs: seq<string>, k: nat)
    requires k < |langs| && DisplayNames(t, langs[..k]).Err?
    ensures DisplayNames(t, langs[..k + 1]) == DisplayNames(t, langs[..k])
  {
    assert langs[..k + 1][..k] == langs[..k];
  }

  /** Once a prefix of the codes has no name, neither has the whole list, and the error stays. */
  lemma {:induction false} DisplayNamesErrorStays(t: Tables, langs: seq<string>, k: nat)
    requires k <= |langs| && DisplayNames(t, langs[..k]).Err?
    ensures DisplayNames(t, langs) == DisplayNames(t, langs[..k])
    decreases |langs| - k
  {
    if k < |langs| {
      DisplayNamesErrorStep(t, langs, k);
      DisplayNamesErrorStays(t, langs, k + 1);
    } else {
      assert langs[..k] == langs;
    }
  }

  /** `name_for_languageset`: "" for an empty list, else the display names joined with "/". */
  function LanguageSetName(t: Tables, ls: LanguageSet): (r: Result<string, string>)
    ensures |Codes(ls)| == 0 ==> r == Ok("")
    ensures |Codes(ls)| > 0 ==> (r.Ok? <==> DisplayNames(t, Codes(ls)).Ok?)
    ensures |Codes(ls)| > 0 && r.Ok? ==> r.value == Join(DisplayNames(t, Codes(ls)).value, "/")
  {
    var langs := Codes(ls);
    if |langs| == 0 then Ok("")
    else
      match DisplayNames(t, langs)
      case Err(e) => Err(e)
      case Ok(names) => Ok(Join(names, "/"))
  }

  /** A string argument is never empty after splitting, so "" asks for a name and fails unless "" resolves. */
  lemma EmptyStringIsOneCode(t: Tables)
    ensures Codes(CommaSeparated("")) == [""]
    ensures LanguageSetName(t, CommaSeparated("")).Ok? <==> DisplayName(t, "").Some?
  {
  }

  // ---------------------------------------------------------------------
  // The class and its imperative members
  // ---------------------------------------------------------------------

  class LanguageCodes {
    var twoToThree: map<string, Option<string>>
    var threeToTwo: map<string, Option<string>>
    var englishNames: map<string, seq<string>>
    var englishNamesToThree: map<string, string>
    var nativeNames: map<Option<string>, seq<string>>

    function Snapshot(): Tables
      reads this
    {
      Tables(twoToThree, threeToTwo, englishNames, englishNamesToThree, nativeNames)
    }

    /** The class body: one pass over the data rows, then one over the native names. */
    constructor (rows: seq<IsoRow>)
      ensures Snapshot() == Load(rows)
    {
      twoToThree, threeToTwo, englishNames, englishNamesToThree, nativeNames := map[], map[], map[], map[], map[];
      new;
      LoadRowsFrom(rows);
      LoadNatives(NATIVE_NAMES);
    }

    /** The loop over the data rows. */
    method LoadRowsFrom(rows: seq<IsoRow>)
      requires Snapshot() == EMPTY_TABLES
      modifies this
      ensures Snapshot() == LoadRows(rows)
    {
      var i := 0;
      while i < |rows|
        invariant 0 <= i <= |rows|
        invariant Snapshot() == LoadRows(rows[..i])
      {
        LoadRow(rows[i]);
        assert rows[..i + 1][..i] == rows[..i];
        i := i + 1;
      }
      assert rows[..|rows|] == rows;
    }

    /** The loop over the native names. */
    method LoadNatives(entries: seq<(string, string)>)
      modifies this
      ensures Snapshot() == AddNatives(old(Snapshot()), entries)
    {
      ghost var t0 := Snapshot();
      var j := 0;
      while j < |entries|
        invariant 0 <= j <= |entries|
        invariant Snapshot() == AddNatives(t0, entries[..j])
      {
        LoadNative(entries[j]);
        assert entries[..j + 1][..j] == entries[..j];
        j := j + 1;
      }
      assert entries[..|entries|] == entries;
    }

    /** The body of the loop over the data rows. */
    method LoadRow(row: IsoRow)
      modifies this
      ensures Snapshot() == AddRow(old(Snapshot()), row)
    {
      if row.alpha2 != "" {
        threeToTwo := threeToTwo[row.alpha3 := Some(row.alpha2)];
        englishNames := englishNames[row.alpha2 := row.names];
        twoToThree := twoToThree[row.alpha2 := Some(row.alpha3)];
      }
      LoadEnglishNames(row.names, row.alpha3);
      englishNames := englishNames[row.alpha3 := row.names];
    }

    /** The inner loop over the English names of one row. */
    method LoadEnglishNames(names: seq<string>, alpha3: string)
      modifies this
      ensures englishNamesToThree == AddEnglishNames(old(englishNamesToThree), names, alpha3)
      ensures twoToThree == old(twoToThree) && threeToTwo == old(threeToTwo)
      ensures englishNames == old(englishNames) && nativeNames == old(nativeNames)
    {
      var k := 0;
      while k < |names|
        invariant 0 <= k <= |names|
        invariant AddEnglishNames(englishNamesToThree, names[k..], alpha3)
          == AddEnglishNames(old(englishNamesToThree), names, alpha3)
        invariant twoToThree == old(twoToThree) && threeToTwo == old(threeToTwo)
        invariant englishNames == old(englishNames) && nativeNames == old(nativeNames)
      {
        assert names[k..][1..] == names[k + 1..];
        englishNamesToThree := englishNamesToThree[Lower(names[k]) := alpha3];
        k := k + 1;
      }
    }

    /** The body of the loop over the native names. */
    method LoadNative(entry: (string, string))
      modifies this
      ensures Snapshot() == AddNative(old(Snapshot()), entry)
    {
      var (alpha2, native) := entry;
      if alpha2 !in twoToThree {
        twoToThree := twoToThree[alpha2 := None];
      }
      var alpha3 := twoToThree[alpha2];
      var names := StripEach(Split(native, At(',')));
      nativeNames := nativeNames[Some(alpha2) := names];
      nativeNames := nativeNames[alpha3 := names];
    }

    /** `iso_639_2_for_locale`, with the `defaultdict` reads that store the language. */
    method IsoForLocale(locale: string) returns (r: Option<string>)
      modifies this
      ensures Looked(r, Snapshot()) == LocaleLookup(old(Snapshot()), locale)
    {
      var language := if HasChar(locale, '-') then Split(Lower(locale), At('-'))[0] else locale;
      if language !in twoToThree {
        twoToThree := twoToThree[language := None];
      }
      if Truthy(twoToThree[language]) {
        return twoToThree[language];
      }
      if language !in threeToTwo {
        threeToTwo := threeToTwo[language := None];
      }
      if Truthy(threeToTwo[language]) {
        return Some(language);
      }
      return None;
    }

    /**
     * `languages_from_accept`: the recognised codes of the locales, first
     * occurrence only, in order; the comma-separated default when none is
     * recognised (the DEFAULT_LANGUAGES environment variable, "eng" if unset).
     */
    method LanguagesFromAccept(locales: seq<string>, defaultLanguages: string) returns (r: seq<string>)
      modifies this
      ensures var (langs, t) := AcceptFold(old(Snapshot()), locales);
        && Snapshot() == t
        && r == (if |langs| == 0 then Split(defaultLanguages, At(',')) else langs)
    {
      ghost var t0 := Snapshot();
      var seen: set<string> := {};
      var languages: seq<string> := [];
      var i := 0;
      while i < |locales|
        invariant 0 <= i <= |locales|
        invariant (languages, Snapshot()) == AcceptFold(t0, locales[..i])
        invariant seen == set l | l in languages
      {
        var language := IsoForLocale(locales[i]);
        assert locales[..i + 1][..i] == locales[..i];
        if Truthy(language) && language.value !in seen {
          languages := languages + [language.value];
          seen := seen + {language.value};
        }
        i := i + 1;
      }
      assert locales[..|locales|] == locales;
      if |languages| == 0 {
        languages := Split(defaultLanguages, At(','));
      }
      return languages;
    }

    /** `name_for_languageset`; the error is the ValueError naming the first code without a name. */
    method NameForLanguageSet(ls: LanguageSet) returns (r: Result<string, string>)
      ensures r == LanguageSetName(Snapshot(), ls)
    {
      var languages := Codes(ls);
      if |languages| == 0 {
        return Ok("");
      }
      var t := Snapshot();
      var allNames: seq<string> := [];
      var i := 0;
      while i < |languages|
        invariant 0 <= i <= |languages|
        invariant DisplayNames(t, languages[..i]).Ok? && DisplayNames(t, languages[..i]).value == allNames
      {
        var name := DisplayName(t, languages[i]);
        DisplayNamesStep(t, languages, i);
        if name.None? {
          DisplayNamesErrorStays(t, languages, i + 1);
          return Err(languages[i]);
        }
        allNames := allNames + [name.value];
        i := i + 1;
      }
      assert languages[..|languages|] == languages;
      return Ok(Join(allNames, "/"));
    }
  }
}
