/**
 * The library-search tokenizer (util/search.py): tokens with an optional
 * type, sequences of them that merge runs of words into multi-word tokens,
 * the classifiers that type tokens, and the normalisation and tokenizing of
 * a raw query.
 */
module SearchTokens {
  import opened Wrappers
  import opened Text

  // ---------------------------------------------------------------------
  // Vocabulary
  // ---------------------------------------------------------------------

  /** `LSToken.VALID_TOKEN_TYPES`. */
  datatype TokenType = Postcode | StateAbbr | StateName | CountyName | CityName | LibraryKeyword | LibraryName

  function TypeName(t: TokenType): string
  {
    match t
    case Postcode => "postcode"
    case StateAbbr => "state_abbr"
    case StateName => "state_name"
    case CountyName => "county_name"
    case CityName => "city_name"
    case LibraryKeyword => "library_keyword"
    case LibraryName => "library_name"
  }

  /** The type a name denotes, when it is one of the valid ones. */
  function TypeNamed(name: Option<string>): (r: Option<TokenType>)
    ensures r.Some? ==> name == Some(TypeName(r.value))
    ensures r.None? ==> forall t: TokenType :: name != Some(TypeName(t))
  {
    if name == Some("postcode") then Some(Postcode)
    else if name == Some("state_abbr") then Some(StateAbbr)
    else if name == Some("state_name") then Some(StateName)
    else if name == Some("county_name") then Some(CountyName)
    else if name == Some("city_name") then Some(CityName)
    else if name == Some("library_keyword") then Some(LibraryKeyword)
    else if name == Some("library_name") then Some(LibraryName)
    else None
  }

  /** `US_STATE_ABBREVIATIONS`: the keys of `US_STATES`, lower-cased. */
  const US_STATE_ABBREVIATIONS: seq<string> :=
    ["al", "ak", "ar", "az", "ca", "co", "ct", "dc", "de", "fl", "ga", "hi", "ia", "id", "il", "in", "ks",
     "ky", "la", "ma", "md", "me", "mi", "mn", "mo", "ms", "mt", "nc", "nd", "ne", "nh", "nj", "nm", "nv",
     "ny", "oh", "ok", "or", "pa", "pr", "ri", "sc", "sd", "tn", "tx", "ut", "va", "vt", "wa", "wi", "wv", "wy"]

  /** `US_STATE_NAMES`: the values of `US_STATES`, lower-cased. */
  const US_STATE_NAMES: seq<string> :=
    ["alabama", "alaska", "arkansas", "arizona", "california", "colorado", "connecticut",
     "district of columbia", "delaware", "florida", "georgia", "hawaii", "iowa", "idaho", "illinois",
     "indiana", "kansas", "kentucky", "louisiana", "massachusetts", "maryland", "maine", "michigan",
     "minnesota", "missouri", "mississippi", "montana", "north carolina", "north dakota", "nebraska",
     "new hampshire", "new jersey", "new mexico", "nevada", "new york", "ohio", "oklahoma", "oregon",
     "pennsylvania", "puerto rico", "rhode island", "south carolina", "south dakota", "tennessee", "texas",
     "utah", "virginia", "vermont", "washington", "wisconsin", "west virginia", "wyoming"]

  const LIBRARY_KEYWORDS: seq<string> :=
    ["archive", "bookmobile", "bookmobiles", "college", "free", "library", "memorial", "public", "regional",
     "research", "university"]

  /** `LSToken.COUNTY_WORDS`. */
  const COUNTY_WORDS: seq<string> := ["county", "parish"]

  // ---------------------------------------------------------------------
  // Tokens
  // ---------------------------------------------------------------------

  /** An `LSToken`: its value, one or more words, and its type, if classified. */
  datatype Token = Token(value: string, kind: Option<TokenType>)

  /** A value handed to `LSToken`: a string, or something else, shown as `str` shows it. */
  datatype Raw = Str(s: string) | NotStr(shown: string)

  /**
   * `LSToken(token_string, token_type)`: blanks collapsed (the `strip` is
   * absorbed by `split`), the type kept only when it is a valid one; a
   * value that is not a string raises InvalidLSToken.
   */
  function MakeToken(raw: Raw, typeName: Option<string>): (r: Result<Token, string>)
    ensures raw.NotStr? <==> r.Err?
    ensures r.Ok? ==> r.value.value == Squash(raw.s) && r.value.kind == TypeNamed(typeName)
  {
    match raw
    case NotStr(shown) => Err("Cannot create an LSToken with a value of '" + shown + "'")
    case Str(s) => Ok(Token(Squash(s), TypeNamed(typeName)))
  }

  /**
   * A token's value keeps the words it was given, and making a token of it
   * again changes nothing.
   */
  lemma TokenValueIsCollapsed(s: string, typeName: Option<string>)
    ensures var t := MakeToken(Str(s), typeName).value;
      && Words(t.value) == Words(s)
      && MakeToken(Str(t.value), typeName) == Ok(t)
  {
    SquashIdempotent(s);
  }

  /** `LSToken.__eq__`: tokens are equal when their values are; the type is not compared. */
  predicate SameToken(a: Token, b: Token)
  {
    a.value == b.value
  }

  predicate IsMultiword(t: Token)
  {
    HasChar(t.value, ' ')
  }

  // ---------------------------------------------------------------------
  // Token sequences
  // ---------------------------------------------------------------------

  function Values(ts: seq<Token>): (r: seq<string>)
    ensures |r| == |ts|
    ensures forall i | 0 <= i < |ts| :: r[i] == ts[i].value
    decreases |ts|
  {
    if |ts| == 0 then [] else [ts[0].value] + Values(ts[1..])
  }

  lemma ValuesOfSlice(ts: seq<Token>, i: nat, j: nat)
    requires i <= j <= |ts|
    ensures Values(ts[i..j]) == Values(ts)[i..j]
  {
  }

  /** `str(sequence)`: the values joined by spaces. */
  function TextOf(ts: seq<Token>): string
  {
    Join(Values(ts), " ")
  }

  /** `all_classified`. */
  predicate AllClassified(ts: seq<Token>)
  {
    forall i | 0 <= i < |ts| :: ts[i].kind.Some?
  }

  /** `unclassified_count`: the number of tokens without a type. */
  function UnclassifiedCount(ts: seq<Token>): (r: nat)
    ensures r <= |ts|
    ensures r == 0 <==> AllClassified(ts)
    decreases |ts|
  {
    if |ts| == 0 then 0
    else
      var rest := UnclassifiedCount(ts[..|ts| - 1]);
      assert AllClassified(ts) <==> AllClassified(ts[..|ts| - 1]) && ts[|ts| - 1].kind.Some?;
      rest + (if ts[|ts| - 1].kind.None? then 1 else 0)
  }

  /** Token `k` exists and is unclassified. */
  predicate UnclassifiedAt(ts: seq<Token>, k: int)
  {
    0 <= k < |ts| && ts[k].kind.None?
  }

  /** The `n` tokens from `a` are all unclassified. */
  predicate RunAt(ts: seq<Token>, a: int, n: int)
  {
    0 <= a && 0 <= n && a + n <= |ts| && forall k | a <= k < a + n :: UnclassifiedAt(ts, k)
  }

  /** A sequence of tokens, rebuilt in place by merges. */
  class LSTokenSequence {
    var tokens: seq<Token>

    constructor(tokens: seq<Token>)
      ensures this.tokens == tokens
    {
      this.tokens := tokens;
    }

    /**
     * `longest_unclassified_run`: the length of a run of unclassified
     * tokens that the sequence has, and no longer run exists; 0 exactly
     * when every token is classified.
     */
    method LongestUnclassifiedRun() returns (r: nat)
      ensures r <= |tokens|
      ensures exists a :: RunAt(tokens, a, r)
      ensures forall a, n | RunAt(tokens, a, n) :: n <= r
      ensures r == 0 <==> AllClassified(tokens)
    {
      if AllClassified(tokens) {
        forall a, n | RunAt(tokens, a, n) ensures n <= 0 {
          assert n > 0 ==> UnclassifiedAt(tokens, a);
        }
        assert RunAt(tokens, 0, 0);
        return 0;
      }
      var current, best := 0, 0;
      var i := 0;
      ghost var start := 0;
      while i < |tokens|
        invariant 0 <= i <= |tokens|
        invariant current <= i && RunAt(tokens, i - current, current)
        invariant forall a, n | a + n == i && RunAt(tokens, a, n) :: n <= current
        invariant current <= best <= i
        invariant RunAt(tokens, start, best)
        invariant forall a, n | a + n <= i && RunAt(tokens, a, n) :: n <= best
      {
        current := if tokens[i].kind.None? then current + 1 else 0;
        if current > best {
          best := current;
          start := i + 1 - current;
        }
        forall a, n | a + n == i + 1 && RunAt(tokens, a, n) ensures n <= current {
          if n > 0 {
            assert UnclassifiedAt(tokens, i);
            assert RunAt(tokens, a, n - 1);
          }
        }
        i := i + 1;
      }
      var k :| 0 <= k < |tokens| && tokens[k].kind.None?;
      assert RunAt(tokens, k, 1);
      return best;
    }

    /**
     * `merge_multiword_tokens`: the targets found before the first merge,
     * longest first, each merged by one pass over the tokens.
     */
    method MergeMultiwordTokens(targetList: seq<string>, mergedType: Option<TokenType>) returns (error: Option<string>)
      modifies this
      ensures var found := FoundTargets(old(tokens), targetList);
        && (found.Err? ==> error == Some(found.error) && tokens == old(tokens))
        && (found.Ok? ==> error.None? && tokens == MergeFound(old(tokens), found.value, mergedType))
    {
      var found := FindTargets(targetList);
      if found.Err? {
        return Some(found.error);
      }
      ByWordsMembers(found.value, MAX_MULTIWORD_TOKEN_LEN);
      MergeInOrder(LongestFirst(found.value), mergedType);
      return None;
    }

    /** The loop of `merge_multiword_tokens` over the sorted targets. */
    method MergeInOrder(order: seq<string>, mergedType: Option<TokenType>)
      requires forall x | x in order :: |Words(x)| >= 1
      modifies this
      ensures tokens == MergeAll(old(tokens), order, mergedType)
    {
      var j := 0;
      while j < |order|
        invariant 0 <= j <= |order|
        invariant tokens == MergeAll(old(tokens), order[..j], mergedType)
      {
        MergeAllStep(old(tokens), order, j, mergedType);
        MergeTarget(order[j], mergedType);
        j := j + 1;
      }
      assert order[..j] == order;
    }

    /**
     * `_multiword_targets_found_in_sequence`: the normalised targets of
     * the allowed lengths that a run of whole tokens spells.
     */
    method FindTargets(targetList: seq<string>) returns (r: Result<seq<string>, string>)
      ensures r == FoundTargets(tokens, targetList)
    {
      if |targetList| == 0 {
        return Err(EMPTY_MAX_MESSAGE);
      }
      var normal := NormalizeTargetList(targetList);
      var most := MostWords(normal);
      var allowed := if most < 2 then 2 else if most < MAX_MULTIWORD_TOKEN_LEN then most else MAX_MULTIWORD_TOKEN_LEN;
      var vals := Values(tokens);
      var found: seq<string> := [];
      for j := 0 to |normal|
        invariant found == Validated(vals, normal[..j], allowed)
      {
        var x := normal[j];
        ValidatedSnoc(vals, normal, allowed, j);
        if Allowed(vals, x, allowed) && x !in found {
          found := found + [x];
        }
      }
      assert normal[..|normal|] == normal;
      return Ok(found);
    }
    /** One target of `merge_multiword_tokens`: the loop with its `skip_next` counter. */
    method MergeTarget(target: string, mergedType: Option<TokenType>)
      requires |Words(target)| >= 1
      modifies this
      ensures tokens == Pass(old(tokens), target, mergedType, 0, 0)
    {
      var ts := tokens;
      var newTokens: seq<Token> := [];
      var skip: nat := 0;
      var idx := 0;
      ghost var goal := Pass(ts, target, mergedType, 0, 0);
      while idx < |ts|
        invariant 0 <= idx <= |ts|
        invariant newTokens + Pass(ts, target, mergedType, idx, skip) == goal
      {
        if skip > 0 {
          PassSkipsOne(ts, target, mergedType, idx, skip);
          skip := skip - 1;
          idx := idx + 1;
          continue;
        }
        var emitted, next, stop := MergeStep(ts, target, mergedType, idx);
        if stop {
          newTokens := newTokens + emitted;
          break;
        }
        AppendAssociates(newTokens, emitted, Pass(ts, target, mergedType, idx + 1, next));
        newTokens := newTokens + emitted;
        skip := next;
        idx := idx + 1;
      }
      tokens := newTokens;
    }
  }

  lemma AppendAssociates(a: seq<Token>, b: seq<Token>, c: seq<Token>)
    ensures (a + b) + c == a + (b + c)
  {
  }

  /** A token the last merge consumed is skipped. */
  lemma PassSkipsOne(ts: seq<Token>, target: string, kind: Option<TokenType>, i: nat, skip: nat)
    requires |Words(target)| >= 1 && i < |ts| && skip > 0
    ensures Pass(ts, target, kind, i, skip) == Pass(ts, target, kind, i + 1, skip - 1)
  {
  }

  /**
   * The loop of `merge_multiword_tokens` at a token no merge has consumed:
   * when fewer words remain than the target has, the rest is appended and
   * the loop stops; otherwise as `MergeAt`.
   */
  method MergeStep(ts: seq<Token>, target: string, kind: Option<TokenType>, idx: nat)
    returns (emitted: seq<Token>, skip: nat, stop: bool)
    requires |Words(target)| >= 1 && idx < |ts|
    ensures stop ==> emitted == Pass(ts, target, kind, idx, 0)
    ensures !stop ==> emitted + Pass(ts, target, kind, idx + 1, skip) == Pass(ts, target, kind, idx, 0)
  {
    var remaining := WordsRemaining(ts, idx);
    if remaining < |Words(target)| {
      return ts[idx..], 0, true;
    }
    emitted, skip := MergeAt(ts, target, kind, idx);
    stop := false;
  }

  /** `len(' '.join(values from idx).split())`. */
  method WordsRemaining(ts: seq<Token>, idx: nat) returns (n: nat)
    requires idx <= |ts|
    ensures n == CountWords(TextOf(ts[idx..]))
  {
    n := |Words(TextOf(ts[idx..]))|;
    WordCount(TextOf(ts[idx..]));
  }

  /**
   * The body of the loop of `merge_multiword_tokens` at a token no merge
   * has consumed, when enough words remain: the tokens it appends and the
   * new `skip_next`.
   */
  method MergeAt(ts: seq<Token>, target: string, kind: Option<TokenType>, idx: nat) returns (emitted: seq<Token>, skip: nat)
    requires |Words(target)| >= 1 && idx < |ts| && CountWords(TextOf(ts[idx..])) >= |Words(target)|
    ensures emitted + Pass(ts, target, kind, idx + 1, skip) == Pass(ts, target, kind, idx, 0)
  {
    emitted, skip := [], 0;
    var m: Option<nat> := None;
    if StartsWith(ts[idx].value, Words(target)[0]) {
      m := MatchAt(ts, target, idx);
      if m.Some? {
        PassMerges(ts, target, kind, idx, m.value);
        emitted := [Token(Squash(TextOf(ts[idx..m.value])), kind)];
        skip := m.value - idx - 1;
      }
    }
    if skip == 0 {
      PassKeeps(ts, target, kind, idx);
      emitted := [ts[idx]];
    }
  }

  /** The inner loop of `merge_multiword_tokens`: grow the run from `i` while the target starts with its text. */
  method MatchAt(ts: seq<Token>, target: string, i: nat) returns (m: Option<nat>)
    requires i < |ts|
    ensures m == Grow(Values(ts), target, i, i + 1)
  {
    var vals := Values(ts);
    var next := i + 1;
    var full := false;
    while StartsWith(target, Join(vals[i..next], " ")) && next < |ts| && !full
      invariant i < next <= |ts|
      invariant !full ==> Grow(vals, target, i, i + 1) == Grow(vals, target, i, next)
      invariant full ==> Grow(vals, target, i, i + 1) == Some(next)
      decreases |ts| - next
    {
      next := next + 1;
      full := target == Join(vals[i..next], " ");
    }
    return if full then Some(next) else None;
  }

  /**
   * How far a run from `i` grows: while the target starts with the run's
   * text and values remain, take one more; the end of the first run whose
   * text is the target, or None.
   */
  function Grow(vals: seq<string>, target: string, i: nat, next: nat): (r: Option<nat>)
    requires i < next <= |vals|
    ensures r.Some? ==> next < r.value <= |vals| && Join(vals[i..r.value], " ") == target
    decreases |vals| - next
  {
    if StartsWith(target, Join(vals[i..next], " ")) && next < |vals| then
      if target == Join(vals[i..next + 1], " ") then Some(next + 1)
      else Grow(vals, target, i, next + 1)
    else None
  }

  /**
   * The end of the run of whole tokens from `i` that spells the target,
   * when token `i` starts with the target's first word and the run grows
   * into it.
   */
  function MatchFrom(ts: seq<Token>, target: string, i: nat): (r: Option<nat>)
    requires |Words(target)| >= 1 && i < |ts|
    ensures r.Some? ==> i + 1 < r.value <= |ts| && TextOf(ts[i..r.value]) == target
  {
    if StartsWith(ts[i].value, Words(target)[0]) then
      var r := Grow(Values(ts), target, i, i + 1);
      if r.Some? then ValuesOfSlice(ts, i, r.value); r else r
    else None
  }

  /**
   * One target's pass over the tokens from `i`, with `skip` tokens still
   * to skip: a token that starts a run spelling the target becomes one
   * token of the merged type standing for the run; once fewer words remain
   * than the target has, the rest is kept as it is.
   */
  function Pass(ts: seq<Token>, target: string, kind: Option<TokenType>, i: nat, skip: nat): (r: seq<Token>)
    requires |Words(target)| >= 1 && i <= |ts|
    ensures |r| <= |ts| - i
    ensures |r| == 0 <==> |ts| - i <= skip
    decreases |ts| - i
  {
    if i == |ts| then []
    else if skip > 0 then Pass(ts, target, kind, i + 1, skip - 1)
    else if CountWords(TextOf(ts[i..])) < |Words(target)| then ts[i..]
    else
      var m := MatchFrom(ts, target, i);
      if m.Some? then
        [Token(Squash(target), kind)] + Pass(ts, target, kind, i + 1, m.value - i - 1)
      else [ts[i]] + Pass(ts, target, kind, i + 1, 0)
  }

  /** Skipping `skip` tokens is starting `skip` tokens later. */
  lemma {:induction false} PassSkips(ts: seq<Token>, target: string, kind: Option<TokenType>, i: nat, j: nat)
    requires |Words(target)| >= 1 && i <= j <= |ts|
    ensures Pass(ts, target, kind, i, j - i) == Pass(ts, target, kind, j, 0)
    decreases j - i
  {
    if i < j {
      PassSkipsOne(ts, target, kind, i, j - i);
      PassSkips(ts, target, kind, i + 1, j);
    }
  }

  /** The text of `ts[i..]` is that of token `i` followed by the text of the rest. */
  lemma TextOfCons(ts: seq<Token>, i: nat)
    requires i < |ts|
    ensures i + 1 < |ts| ==> TextOf(ts[i..]) == ts[i].value + " " + TextOf(ts[i + 1..])
    ensures i + 1 == |ts| ==> TextOf(ts[i..]) == ts[i].value
  {
    assert Values(ts[i..]) == [ts[i].value] + Values(ts[i + 1..]);
  }

  lemma ValuesOfAppend(a: seq<Token>, b: seq<Token>)
    ensures Values(a + b) == Values(a) + Values(b)
  {
  }

  /** The text of `ts[i..]` is the text of `ts[i..k]` followed by that of `ts[k..]`. */
  lemma TextOfSplit(ts: seq<Token>, i: nat, k: nat)
    requires i < k < |ts|
    ensures TextOf(ts[i..]) == TextOf(ts[i..k]) + " " + TextOf(ts[k..])
  {
    var a, b := ts[i..k], ts[k..];
    assert ts[i..] == a + b;
    ValuesOfAppend(a, b);
    JoinAppend(Values(a), Values(b), " ");
  }

  /** Once fewer words remain than the target has, a pass keeps the rest as it is. */
  lemma PassStops(ts: seq<Token>, target: string, kind: Option<TokenType>, i: nat)
    requires |Words(target)| >= 1 && i < |ts| && CountWords(TextOf(ts[i..])) < |Words(target)|
    ensures Pass(ts, target, kind, i, 0) == ts[i..]
  {
  }

  /** A run spelling the target becomes one token of the merged type, and the pass resumes after the run. */
  lemma PassMerged(ts: seq<Token>, target: string, kind: Option<TokenType>, i: nat, k: nat)
    requires |Words(target)| >= 1 && i < |ts| && CountWords(TextOf(ts[i..])) >= |Words(target)|
    requires MatchFrom(ts, target, i).Some? && MatchFrom(ts, target, i).value == k
    ensures i < k <= |ts|
    ensures Pass(ts, target, kind, i, 0) == [Token(Squash(target), kind)] + Pass(ts, target, kind, k, 0)
  {
    PassMerges(ts, target, kind, i, k);
    PassSkips(ts, target, kind, i + 1, k);
  }

  /** A token that starts a run spelling the target stands for the run. */
  lemma PassMerges(ts: seq<Token>, target: string, kind: Option<TokenType>, i: nat, k: nat)
    requires |Words(target)| >= 1 && i < |ts| && CountWords(TextOf(ts[i..])) >= |Words(target)|
    requires MatchFrom(ts, target, i).Some? && MatchFrom(ts, target, i).value == k
    ensures Pass(ts, target, kind, i, 0) == [Token(Squash(target), kind)] + Pass(ts, target, kind, i + 1, k - (i + 1))
  {
  }

  /** A token that starts no such run is kept. */
  lemma PassKeeps(ts: seq<Token>, target: string, kind: Option<TokenType>, i: nat)
    requires |Words(target)| >= 1 && i < |ts| && CountWords(TextOf(ts[i..])) >= |Words(target)|
    requires MatchFrom(ts, target, i).None?
    ensures [ts[i]] + Pass(ts, target, kind, i + 1, 0) == Pass(ts, target, kind, i, 0)
  {
  }

  /** The text of one value followed by the text of a sequence. */
  lemma TextOfPrepend(v: string, rest: seq<Token>)
    ensures |rest| == 0 ==> Join([v] + Values(rest), " ") == v
    ensures |rest| > 0 ==> Join([v] + Values(rest), " ") == v + " " + TextOf(rest)
  {
    assert ([v] + Values(rest))[1..] == Values(rest);
  }

  /** A pass from `i` never changes the text of `ts[i..]`. */
  lemma {:induction false} PassKeepsText(ts: seq<Token>, target: string, kind: Option<TokenType>, i: nat)
    requires |Words(target)| >= 1 && i <= |ts| && Squash(target) == target
    ensures TextOf(Pass(ts, target, kind, i, 0)) == TextOf(ts[i..])
    decreases |ts| - i
  {
    if i < |ts| && CountWords(TextOf(ts[i..])) < |Words(target)| {
      PassStops(ts, target, kind, i);
    } else if i < |ts| {
      var m := MatchFrom(ts, target, i);
      if m.Some? {
        var k := m.value;
        PassMerged(ts, target, kind, i, k);
        PassKeepsText(ts, target, kind, k);
        var rest := Pass(ts, target, kind, k, 0);
        ValuesOfAppend([Token(target, kind)], rest);
        TextOfPrepend(target, rest);
        if k < |ts| {
          TextOfSplit(ts, i, k);
        } else {
          assert ts[i..] == ts[i..k];
        }
      } else {
        PassKeeps(ts, target, kind, i);
        PassKeepsText(ts, target, kind, i + 1);
        var rest := Pass(ts, target, kind, i + 1, 0);
        ValuesOfAppend([ts[i]], rest);
        TextOfPrepend(ts[i].value, rest);
        TextOfCons(ts, i);
      }
    }
  }

  /**
   * Every token a pass from `i` leaves is a token of `ts[i..]`, or a token
   * of the merged type whose value is the target.
   */
  lemma {:induction false} PassTokens(ts: seq<Token>, target: string, kind: Option<TokenType>, i: nat)
    requires |Words(target)| >= 1 && i <= |ts| && Squash(target) == target
    ensures forall t | t in Pass(ts, target, kind, i, 0) :: t in ts[i..] || t == Token(target, kind)
    decreases |ts| - i
  {
    if i < |ts| && CountWords(TextOf(ts[i..])) < |Words(target)| {
      PassStops(ts, target, kind, i);
    } else if i < |ts| {
      var m := MatchFrom(ts, target, i);
      if m.Some? {
        var k := m.value;
        PassMerged(ts, target, kind, i, k);
        PassTokens(ts, target, kind, k);
        assert forall t | t in ts[k..] :: t in ts[i..];
      } else {
        PassKeeps(ts, target, kind, i);
        PassTokens(ts, target, kind, i + 1);
        assert forall t | t in ts[i + 1..] :: t in ts[i..];
      }
    }
  }

  /** The targets in `order`, applied one after the other. */
  function MergeAll(ts: seq<Token>, order: seq<string>, kind: Option<TokenType>): (r: seq<Token>)
    requires forall x | x in order :: |Words(x)| >= 1
    decreases |order|
  {
    if |order| == 0 then ts
    else Pass(MergeAll(ts, order[..|order| - 1], kind), order[|order| - 1], kind, 0, 0)
  }

  /** One more target in the order is one more pass. */
  lemma MergeAllStep(ts: seq<Token>, order: seq<string>, j: nat, kind: Option<TokenType>)
    requires forall x | x in order :: |Words(x)| >= 1
    requires j < |order|
    ensures |Words(order[j])| >= 1
    ensures MergeAll(ts, order[..j + 1], kind) == Pass(MergeAll(ts, order[..j], kind), order[j], kind, 0, 0)
  {
    assert order[j] in order;
    assert order[..j + 1][..j] == order[..j];
  }

  /** The found targets merged longest first. */
  function MergeFound(ts: seq<Token>, found: seq<string>, kind: Option<TokenType>): seq<Token>
  {
    ByWordsMembers(found, MAX_MULTIWORD_TOKEN_LEN);
    MergeAll(ts, LongestFirst(found), kind)
  }

  /** Merging keeps the text of the sequence and never adds tokens. */
  lemma {:induction false} MergeKeepsText(ts: seq<Token>, order: seq<string>, kind: Option<TokenType>)
    requires forall x | x in order :: |Words(x)| >= 1 && Squash(x) == x
    ensures TextOf(MergeAll(ts, order, kind)) == TextOf(ts)
    ensures |MergeAll(ts, order, kind)| <= |ts|
    decreases |order|
  {
    if |order| > 0 {
      var before := MergeAll(ts, order[..|order| - 1], kind);
      MergeKeepsText(ts, order[..|order| - 1], kind);
      PassKeepsText(before, order[|order| - 1], kind, 0);
      assert before[0..] == before;
    }
  }

  // ---------------------------------------------------------------------
  // Targets
  // ---------------------------------------------------------------------

  /** `MAX_MULTIWORD_TOKEN_LEN` of `LSTokenSequence`. */
  const MAX_MULTIWORD_TOKEN_LEN := 6

  /** `_normalize_target_list`: blanks collapsed, lower-cased. */
  function NormalizeTarget(t: string): string
  {
    Lower(Squash(t))
  }

  /** A normalised target has its blanks collapsed already. */
  lemma NormalizedTargetIsCollapsed(t: string)
    ensures Squash(NormalizeTarget(t)) == NormalizeTarget(t)
  {
    SquashOfLowerSquash(t);
  }

  /** `max(len(x.split()) for x in ts)`, 0 for no targets. */
  function MostWords(ts: seq<string>): nat
    decreases |ts|
  {
    if |ts| == 0 then 0
    else
      var rest := MostWords(ts[1..]);
      if |Words(ts[0])| >= rest then |Words(ts[0])| else rest
  }

  /** `MostWords` is the largest word count of a target, and some target has it. */
  lemma {:induction false} MostWordsIsMax(ts: seq<string>)
    ensures forall k | 0 <= k < |ts| :: |Words(ts[k])| <= MostWords(ts)
    ensures |ts| > 0 ==> exists k | 0 <= k < |ts| :: |Words(ts[k])| == MostWords(ts)
    decreases |ts|
  {
    if |ts| > 0 {
      var tail := ts[1..];
      MostWordsIsMax(tail);
      forall k | 1 <= k < |ts| ensures |Words(ts[k])| <= MostWords(ts) {
        assert ts[k] == tail[k - 1];
      }
      if |Words(ts[0])| < MostWords(tail) {
        var k :| 0 <= k < |tail| && |Words(tail[k])| == MostWords(tail);
        assert ts[k + 1] == tail[k];
      }
    }
  }

  /** A contiguous run of whole tokens spells `target`. */
  predicate Spelled(vals: seq<string>, target: string)
  {
    exists i, j | 0 <= i < j <= |vals| :: Join(vals[i..j], " ") == target
  }

  /** A target of 2 to `most` words that a run of whole tokens spells. */
  predicate Allowed(vals: seq<string>, x: string, most: nat)
  {
    2 <= |Words(x)| <= most && Spelled(vals, x)
  }

  /**
   * The allowed targets, each once. The source keeps them in a `set`, whose
   * iteration order is not specified; the model fixes the order first given.
   */
  function Validated(vals: seq<string>, targets: seq<string>, most: nat): (r: seq<string>)
    decreases |targets|
  {
    if |targets| == 0 then []
    else
      var x := targets[|targets| - 1];
      var rest := Validated(vals, targets[..|targets| - 1], most);
      if Allowed(vals, x, most) && x !in rest then rest + [x] else rest
  }

  lemma ValidatedSnoc(vals: seq<string>, targets: seq<string>, most: nat, j: nat)
    requires j < |targets|
    ensures var rest := Validated(vals, targets[..j], most);
      Validated(vals, targets[..j + 1], most)
        == if Allowed(vals, targets[j], most) && targets[j] !in rest then rest + [targets[j]] else rest
  {
    assert targets[..j + 1][..j] == targets[..j];
  }

  /** The validated targets are exactly the allowed ones, with no repeats. */
  lemma {:induction false} ValidatedMembers(vals: seq<string>, targets: seq<string>, most: nat)
    ensures var r := Validated(vals, targets, most);
      && (forall x :: x in r <==> x in targets && Allowed(vals, x, most))
      && (forall a, b | 0 <= a < b < |r| :: r[a] != r[b])
    decreases |targets|
  {
    if |targets| > 0 {
      var init := targets[..|targets| - 1];
      ValidatedMembers(vals, init, most);
      assert targets == init + [targets[|targets| - 1]];
    }
  }

  function NormalizedTargets(targets: seq<string>): (r: seq<string>)
    ensures |r| == |targets|
    decreases |targets|
  {
    if |targets| == 0 then []
    else NormalizedTargets(targets[..|targets| - 1]) + [NormalizeTarget(targets[|targets| - 1])]
  }

  /** Target `k`, normalised. */
  lemma {:induction false} NormalizedTarget(targets: seq<string>, k: nat)
    requires k < |targets|
    ensures NormalizedTargets(targets)[k] == NormalizeTarget(targets[k])
    decreases |targets|
  {
    if k < |targets| - 1 {
      assert targets[..|targets| - 1][k] == targets[k];
      NormalizedTarget(targets[..|targets| - 1], k);
    }
  }

  /** `_normalize_target_list`: each target normalised, in order. */
  method NormalizeTargetList(targetList: seq<string>) returns (normal: seq<string>)
    ensures normal == NormalizedTargets(targetList)
  {
    normal := [];
    for j := 0 to |targetList|
      invariant normal == NormalizedTargets(targetList[..j])
    {
      assert targetList[..j + 1] == targetList[..j] + [targetList[j]];
      normal := normal + [NormalizeTarget(targetList[j])];
    }
    assert targetList[..|targetList|] == targetList;
  }

  const EMPTY_MAX_MESSAGE := "max() arg is an empty sequence"

  /**
   * `_multiword_targets_found_in_sequence`: the normalised targets of 2 up
   * to `max(2, min(longest target, 6))` words that start and end on token
   * boundaries; an empty target list makes `max` raise.
   */
  function FoundTargets(ts: seq<Token>, targets: seq<string>): (r: Result<seq<string>, string>)
  {
    if |targets| == 0 then Err(EMPTY_MAX_MESSAGE)
    else
      var normal := NormalizedTargets(targets);
      var most := MostWords(normal);
      var allowed := if most < 2 then 2 else if most < MAX_MULTIWORD_TOKEN_LEN then most else MAX_MULTIWORD_TOKEN_LEN;
      Ok(Validated(Values(ts), normal, allowed))
  }

  /**
   * The found targets are exactly the normalised targets of 2 to 6 words
   * that a run of whole tokens spells, each once.
   */
  lemma FoundTargetsAreSpelled(ts: seq<Token>, targets: seq<string>)
    requires |targets| > 0
    ensures var r := FoundTargets(ts, targets).value;
      && (forall x :: x in r <==> x in NormalizedTargets(targets) && Allowed(Values(ts), x, MAX_MULTIWORD_TOKEN_LEN))
      && (forall a, b | 0 <= a < b < |r| :: r[a] != r[b])
  {
    var normal := NormalizedTargets(targets);
    var most := MostWords(normal);
    var allowed := if most < 2 then 2 else if most < MAX_MULTIWORD_TOKEN_LEN then most else MAX_MULTIWORD_TOKEN_LEN;
    MostWordsIsMax(normal);
    ValidatedMembers(Values(ts), normal, allowed);
    forall x | x in normal ensures Allowed(Values(ts), x, allowed) <==> Allowed(Values(ts), x, MAX_MULTIWORD_TOKEN_LEN) {
      var k :| 0 <= k < |normal| && normal[k] == x;
    }
  }

  /** The normalised targets are the targets, normalised, and their blanks are collapsed. */
  lemma NormalizedTargetsMembers(targets: seq<string>)
    ensures var normal := NormalizedTargets(targets);
      && (forall x :: x in normal <==> exists k | 0 <= k < |targets| :: x == NormalizeTarget(targets[k]))
      && (forall x | x in normal :: Squash(x) == x)
  {
    var normal := NormalizedTargets(targets);
    forall k | 0 <= k < |targets| ensures normal[k] == NormalizeTarget(targets[k]) {
      NormalizedTarget(targets, k);
    }
    forall x | x in normal ensures Squash(x) == x {
      var k :| 0 <= k < |normal| && normal[k] == x;
      NormalizedTargetIsCollapsed(targets[k]);
    }
  }

  /** The targets with `lo` to `hi` words, in order. */
  function Counted(ts: seq<string>, lo: nat, hi: nat): (r: seq<string>)
    ensures |r| <= |ts|
    decreases |ts|
  {
    if |ts| == 0 then []
    else (if lo <= |Words(ts[0])| <= hi then [ts[0]] else []) + Counted(ts[1..], lo, hi)
  }

  lemma {:induction false} CountedAppend(a: seq<string>, b: seq<string>, lo: nat, hi: nat)
    ensures Counted(a + b, lo, hi) == Counted(a, lo, hi) + Counted(b, lo, hi)
    decreases |a|
  {
    if |a| > 0 {
      assert (a + b)[1..] == a[1..] + b;
      CountedAppend(a[1..], b, lo, hi);
    } else {
      assert a + b == b;
    }
  }

  /** The counted targets are the targets with `lo` to `hi` words. */
  lemma {:induction false} CountedMembers(ts: seq<string>, lo: nat, hi: nat)
    ensures forall x :: x in Counted(ts, lo, hi) <==> x in ts && lo <= |Words(x)| <= hi
    decreases |ts|
  {
    if |ts| > 0 {
      CountedMembers(ts[1..], lo, hi);
      assert ts == [ts[0]] + ts[1..];
    }
  }

  /** Keeping `lo` to `hi` words is keeping exactly `hi`, and `lo` to `hi - 1`, as multisets. */
  lemma {:induction false} CountedSplit(ts: seq<string>, lo: nat, hi: nat)
    requires 1 <= lo <= hi
    ensures multiset(Counted(ts, lo, hi)) == multiset(Counted(ts, hi, hi)) + multiset(Counted(ts, lo, hi - 1))
    decreases |ts|
  {
    if |ts| > 0 {
      CountedSplit(ts[1..], lo, hi);
    }
  }

  /** Keeping `n` words of the targets with `m` words. */
  lemma {:induction false} CountedOfCounted(ts: seq<string>, n: nat, m: nat)
    ensures Counted(Counted(ts, n, n), m, m) == if m == n then Counted(ts, n, n) else []
    decreases |ts|
  {
    if |ts| > 0 {
      CountedOfCounted(ts[1..], n, m);
      var head := if n <= |Words(ts[0])| <= n then [ts[0]] else [];
      CountedAppend(head, Counted(ts[1..], n, n), m, m);
      assert Counted(head, m, m) == if m == n then head else [] by {
        if |head| == 1 {
          assert head[1..] == [];
        }
      }
    }
  }

  /** Nothing is kept when no count is in range; everything is when all counts are. */
  lemma {:induction false} CountedBounds(ts: seq<string>, lo: nat, hi: nat)
    ensures (forall k | 0 <= k < |ts| :: !(lo <= |Words(ts[k])| <= hi)) ==> Counted(ts, lo, hi) == []
    ensures (forall k | 0 <= k < |ts| :: lo <= |Words(ts[k])| <= hi) ==> Counted(ts, lo, hi) == ts
    decreases |ts|
  {
    if |ts| > 0 {
      CountedBounds(ts[1..], lo, hi);
      assert forall k | 1 <= k < |ts| :: ts[1..][k - 1] == ts[k];
      assert ts == [ts[0]] + ts[1..];
    }
  }

  /** The targets of `n` words, then those of `n - 1`, down to 2 words. */
  function ByWords(ts: seq<string>, n: nat): seq<string>
    decreases n
  {
    if n < 2 then [] else Counted(ts, n, n) + ByWords(ts, n - 1)
  }

  /**
   * `sorted(found, key=lambda x: len(x.split()), reverse=True)`: the
   * targets of 6 words first, down to those of 2 words.
   */
  function LongestFirst(found: seq<string>): seq<string>
  {
    ByWords(found, MAX_MULTIWORD_TOKEN_LEN)
  }

  lemma {:induction false} ByWordsMembers(ts: seq<string>, n: nat)
    ensures forall x :: x in ByWords(ts, n) <==> x in ts && 2 <= |Words(x)| <= n
    decreases n
  {
    if n >= 2 {
      ByWordsMembers(ts, n - 1);
      CountedMembers(ts, n, n);
      var c, rest := Counted(ts, n, n), ByWords(ts, n - 1);
      assert ByWords(ts, n) == c + rest;
      forall x ensures x in c + rest <==> x in ts && 2 <= |Words(x)| <= n {
        assert x in c + rest <==> x in c || x in rest;
      }
    }
  }

  /** Word counts never increase along `r`. */
  predicate Descending(r: seq<string>)
  {
    forall a, b | 0 <= a < b < |r| :: |Words(r[a])| >= |Words(r[b])|
  }

  lemma {:induction false} ByWordsOrdered(ts: seq<string>, n: nat)
    ensures Descending(ByWords(ts, n))
    decreases n
  {
    if n >= 2 {
      var c, rest := Counted(ts, n, n), ByWords(ts, n - 1);
      var r := c + rest;
      ByWordsOrdered(ts, n - 1);
      ByWordsMembers(ts, n - 1);
      CountedMembers(ts, n, n);
      forall a, b | 0 <= a < b < |r| ensures |Words(r[a])| >= |Words(r[b])| {
        if b < |c| {
          assert r[a] == c[a] && r[b] == c[b];
          assert c[a] in c && c[b] in c;
          assert |Words(c[a])| == n == |Words(c[b])|;
        } else if a < |c| {
          assert r[a] == c[a] && r[b] == rest[b - |c|];
          assert c[a] in c && rest[b - |c|] in rest;
          assert |Words(c[a])| == n > |Words(rest[b - |c|])|;
        } else {
          assert r[a] == rest[a - |c|] && r[b] == rest[b - |c|];
          assert |Words(rest[a - |c|])| >= |Words(rest[b - |c|])|;
        }
      }
    }
  }

  lemma {:induction false} ByWordsMultiset(ts: seq<string>, n: nat)
    ensures multiset(ByWords(ts, n)) == multiset(Counted(ts, 2, n))
    decreases n
  {
    if n < 2 {
      CountedBounds(ts, 2, n);
      assert Counted(ts, 2, n) == [];
    } else {
      ByWordsMultiset(ts, n - 1);
      CountedSplit(ts, 2, n);
    }
  }

  /** Keeping the targets of `m` words of the sorted list keeps them as first given. */
  lemma {:induction false} ByWordsStable(ts: seq<string>, n: nat, m: nat)
    requires 2 <= m <= n
    ensures Counted(ByWords(ts, n), m, m) == Counted(ts, m, m)
    decreases n
  {
    var c, rest := Counted(ts, n, n), ByWords(ts, n - 1);
    assert ByWords(ts, n) == c + rest;
    CountedAppend(c, rest, m, m);
    CountedOfCounted(ts, n, m);
    if m < n {
      ByWordsStable(ts, n - 1, m);
      assert Counted(c, m, m) == [];
    } else {
      ByWordsShorter(ts, n - 1, m);
      assert Counted(c, m, m) == c;
    }
  }

  /** The sorted targets of at most `n` words have none of more words. */
  lemma ByWordsShorter(ts: seq<string>, n: nat, m: nat)
    requires n < m
    ensures Counted(ByWords(ts, n), m, m) == []
  {
    var rest := ByWords(ts, n);
    ByWordsMembers(ts, n);
    assert forall k | 0 <= k < |rest| :: rest[k] in rest;
    CountedBounds(rest, m, m);
  }

  /**
   * The sort of the found targets: longest first, a permutation of them
   * when each has 2 to 6 words, and stable — the targets of each length
   * keep the order they were found in.
   */
  lemma LongestFirstSorts(found: seq<string>)
    ensures var r := LongestFirst(found);
      && Descending(r)
      && (forall x :: x in r <==> x in found && 2 <= |Words(x)| <= MAX_MULTIWORD_TOKEN_LEN)
      && (forall m | 2 <= m <= MAX_MULTIWORD_TOKEN_LEN :: Counted(r, m, m) == Counted(found, m, m))
      && ((forall k | 0 <= k < |found| :: 2 <= |Words(found[k])| <= MAX_MULTIWORD_TOKEN_LEN)
            ==> multiset(r) == multiset(found))
  {
    ByWordsOrdered(found, MAX_MULTIWORD_TOKEN_LEN);
    ByWordsMembers(found, MAX_MULTIWORD_TOKEN_LEN);
    ByWordsMultiset(found, MAX_MULTIWORD_TOKEN_LEN);
    CountedBounds(found, 2, MAX_MULTIWORD_TOKEN_LEN);
    forall m | 2 <= m <= MAX_MULTIWORD_TOKEN_LEN
      ensures Counted(LongestFirst(found), m, m) == Counted(found, m, m)
    {
      ByWordsStable(found, MAX_MULTIWORD_TOKEN_LEN, m);
    }
  }

  // ---------------------------------------------------------------------
  // Classifiers
  // ---------------------------------------------------------------------

  /**
   * What every classifier but the single-word one raises when it reaches
   * its merge: `merge_multiword_tokens` takes no `max_words` argument.
   */
  const MAX_WORDS_TYPE_ERROR := "merge_multiword_tokens() got an unexpected keyword argument 'max_words'"

  /** `LSBaseTokenClassifier.work_to_do`: some token is unclassified. */
  predicate BaseWorkToDo(ts: seq<Token>)
  {
    !AllClassified(ts)
  }

  /** `SIMPLE_POSTCODE_RE`: exactly five or exactly nine digits. */
  predicate IsPostcode(v: string)
  {
    (|v| == 5 || |v| == 9) && AllDigits(v)
  }

  /**
   * The word lists the single-word classifier consults. The classifier
   * takes them as a parameter so that proofs about it need not unfold the
   * long constant tables; `VOCABULARY` holds the tables it actually reads.
   */
  datatype Vocabulary = Vocabulary(stateAbbreviations: seq<string>, stateNames: seq<string>,
                                   libraryKeywords: seq<string>)

  const VOCABULARY := Vocabulary(US_STATE_ABBREVIATIONS, US_STATE_NAMES, LIBRARY_KEYWORDS)

  /**
   * The type the single-word classifier gives a word: postcode, then state
   * abbreviation, then state name, then library keyword.
   */
  function SingleWordType(v: string, vocab: Vocabulary): Option<TokenType>
  {
    if IsPostcode(v) then Some(Postcode)
    else if v in vocab.stateAbbreviations then Some(StateAbbr)
    else if v in vocab.stateNames then Some(StateName)
    else if v in vocab.libraryKeywords then Some(LibraryKeyword)
    else None
  }

  /** Each word list is consulted only when the ones before it did not match. */
  lemma SingleWordPriority(v: string, vocab: Vocabulary)
    ensures var r := SingleWordType(v, vocab);
      && (r == Some(Postcode) <==> IsPostcode(v))
      && (r == Some(StateAbbr) <==> !IsPostcode(v) && v in vocab.stateAbbreviations)
      && (r == Some(StateName) <==>
            !IsPostcode(v) && v !in vocab.stateAbbreviations && v in vocab.stateNames)
      && (r == Some(LibraryKeyword) <==>
            !IsPostcode(v) && v !in vocab.stateAbbreviations && v !in vocab.stateNames && v in vocab.libraryKeywords)
      && (r.None? <==>
            !IsPostcode(v) && v !in vocab.stateAbbreviations && v !in vocab.stateNames && v !in vocab.libraryKeywords)
  {
  }

  /** One token after the single-word pass: only an unclassified single word is typed. */
  function ClassifyWord(t: Token, vocab: Vocabulary): (r: Token)
    ensures r.value == t.value
    ensures t.kind.Some? || IsMultiword(t) ==> r == t
    ensures t.kind.None? && !IsMultiword(t) ==> r.kind == SingleWordType(t.value, vocab)
  {
    if t.kind.Some? || IsMultiword(t) then t else Token(t.value, SingleWordType(t.value, vocab))
  }

  /** `LSSinglewordTokenClassifier.classify`, on values: the input itself when there is no work. */
  function SingleWordsClassified(ts: seq<Token>, vocab: Vocabulary): (r: seq<Token>)
    ensures |r| == |ts|
  {
    if !BaseWorkToDo(ts) then ts
    else seq(|ts|, i requires 0 <= i < |ts| => ClassifyWord(ts[i], vocab))
  }

  /** The single-word classifier's pass over its deep copy, typing tokens one at a time. */
  method ClassifySingleWords(ts: seq<Token>, vocab: Vocabulary) returns (r: seq<Token>)
    ensures r == SingleWordsClassified(ts, vocab)
  {
    if !BaseWorkToDo(ts) {
      return ts;
    }
    var augmented := ts;
    for i := 0 to |augmented|
      invariant |augmented| == |ts|
      invariant forall k | 0 <= k < i :: augmented[k] == ClassifyWord(ts[k], vocab)
      invariant forall k | i <= k < |ts| :: augmented[k] == ts[k]
    {
      var t := augmented[i];
      if t.kind.Some? || IsMultiword(t) {
      } else if IsPostcode(t.value) {
        augmented := augmented[i := Token(t.value, Some(Postcode))];
      } else if t.value in vocab.stateAbbreviations {
        augmented := augmented[i := Token(t.value, Some(StateAbbr))];
      } else if t.value in vocab.stateNames {
        augmented := augmented[i := Token(t.value, Some(StateName))];
      } else if t.value in vocab.libraryKeywords {
        augmented := augmented[i := Token(t.value, Some(LibraryKeyword))];
      }
    }
    return augmented;
  }

  /**
   * The single-word classifier keeps every value, keeps every classified
   * and every multi-word token, and gives each unclassified single word the
   * type its word lists say; with nothing unclassified it changes nothing.
   */
  lemma SingleWordsClassification(ts: seq<Token>, vocab: Vocabulary)
    ensures var r := SingleWordsClassified(ts, vocab);
      && Values(r) == Values(ts)
      && (AllClassified(ts) ==> r == ts)
      && (forall k | 0 <= k < |ts| && (ts[k].kind.Some? || IsMultiword(ts[k])) :: r[k] == ts[k])
      && (forall k | 0 <= k < |ts| && ts[k].kind.None? && !IsMultiword(ts[k]) ::
            r[k].kind == SingleWordType(ts[k].value, vocab))
  {
    var r := SingleWordsClassified(ts, vocab);
    forall k | 0 <= k < |ts| ensures r[k] == ClassifyWord(ts[k], vocab) {
      if !BaseWorkToDo(ts) {
        assert ts[k].kind.Some?;
      }
    }
    assert Values(r) == Values(ts);
  }

  /** The only types the single-word classifier gives are the four single-word ones. */
  lemma SingleWordsTypes(ts: seq<Token>, vocab: Vocabulary)
    ensures var r := SingleWordsClassified(ts, vocab);
      forall k | 0 <= k < |ts| && r[k].kind != ts[k].kind ::
        && ts[k].kind.None?
        && r[k].kind.value in {Postcode, StateAbbr, StateName, LibraryKeyword}
  {
  }

  /** Running the single-word classifier twice is running it once. */
  lemma SingleWordsIdempotent(ts: seq<Token>, vocab: Vocabulary)
    ensures SingleWordsClassified(SingleWordsClassified(ts, vocab), vocab) == SingleWordsClassified(ts, vocab)
  {
    var r := SingleWordsClassified(ts, vocab);
    if BaseWorkToDo(ts) && BaseWorkToDo(r) {
      var rr := SingleWordsClassified(r, vocab);
      forall k | 0 <= k < |ts| ensures rr[k] == r[k] {
        assert r[k] == ClassifyWord(ts[k], vocab);
      }
    }
  }

  /**
   * `LSStatenameTokenClassifier.classify`: with nothing unclassified the
   * input is returned; otherwise the types it gives its copy are lost, for
   * the merge of multi-word state names raises TypeError.
   */
  function StateNamesClassified(ts: seq<Token>): (r: Result<seq<Token>, string>)
  {
    if !BaseWorkToDo(ts) then Ok(ts) else Err(MAX_WORDS_TYPE_ERROR)
  }

  /** The state-name classifier fails exactly when some token is unclassified, and otherwise changes nothing. */
  lemma StateNamesOutcome(ts: seq<Token>)
    ensures StateNamesClassified(ts).Err? <==> exists k :: UnclassifiedAt(ts, k)
    ensures StateNamesClassified(ts).Ok? ==> StateNamesClassified(ts).value == ts
  {
    if !AllClassified(ts) {
      var k :| 0 <= k < |ts| && ts[k].kind.None?;
      assert UnclassifiedAt(ts, k);
    }
  }

  /** `STATE_TOKEN_TYPES`. */
  predicate IsStateToken(t: Token)
  {
    t.kind == Some(StateAbbr) || t.kind == Some(StateName)
  }

  /**
   * `LSCitynameTokenClassifier.work_to_do`: more than one token, not all of
   * them classified, and either "city" inside the text or a state token.
   */
  predicate CityWorkToDo(ts: seq<Token>)
  {
    && |ts| != 1
    && !AllClassified(ts)
    && (Contains(TextOf(ts), "city") || exists k | 0 <= k < |ts| :: IsStateToken(ts[k]))
  }

  /** Pattern 1 at `i`: "city", "of", then an unclassified token. */
  predicate CityOfAt(ts: seq<Token>, i: int)
  {
    0 <= i && i + 2 < |ts| && ts[i].value == "city" && ts[i + 1].value == "of" && ts[i + 2].kind.None?
  }

  /** Token `i` is one of `words` and follows an unclassified token. */
  predicate AfterUnclassifiedAt(ts: seq<Token>, words: seq<string>, i: int)
  {
    0 < i < |ts| && ts[i].value in words && ts[i - 1].kind.None?
  }

  /** Pattern 2 at `i`: "city" after an unclassified token. */
  predicate CityAfterAt(ts: seq<Token>, i: int)
  {
    AfterUnclassifiedAt(ts, ["city"], i)
  }

  /** Pattern 3 at `i`: a state token after an unclassified token. */
  predicate StateAfterAt(ts: seq<Token>, i: int)
  {
    0 < i < |ts| && IsStateToken(ts[i]) && ts[i - 1].kind.None?
  }

  /** Pattern 3 with a run of two or more unclassified tokens before the state token: the merge path. */
  predicate LongRunBeforeStateAt(ts: seq<Token>, i: int)
  {
    StateAfterAt(ts, i) && i >= 2 && ts[i - 2].kind.None?
  }

  /** Token `k` is a lone unclassified word before a state token: pattern 3 names it a city. */
  predicate LoneCityAt(ts: seq<Token>, k: int)
  {
    StateAfterAt(ts, k + 1) && (k == 0 || ts[k - 1].kind.Some?)
  }

  /** A token typed as a city name, value kept. */
  function AsCity(t: Token): Token
  {
    Token(t.value, Some(CityName))
  }

  /** Pattern 3's outcome: every lone word before a state token becomes a city name. */
  function LoneCitiesNamed(ts: seq<Token>): (r: seq<Token>)
    ensures |r| == |ts|
  {
    seq(|ts|, k requires 0 <= k < |ts| => if LoneCityAt(ts, k) then AsCity(ts[k]) else ts[k])
  }

  /**
   * `LSCitynameTokenClassifier.classify`: pattern 1 if "city of" is in the
   * text, else pattern 2 if "city" is, else pattern 3; each of patterns 1
   * and 2, and pattern 3 on a run of two or more words, reaches the merge
   * and raises TypeError.
   */
  function CityNamesClassified(ts: seq<Token>): (r: Result<seq<Token>, string>)
  {
    if !CityWorkToDo(ts) then Ok(ts)
    else if Contains(TextOf(ts), "city of") then
      if exists i | 0 <= i < |ts| :: CityOfAt(ts, i) then Err(MAX_WORDS_TYPE_ERROR) else Ok(ts)
    else if Contains(TextOf(ts), "city") then
      if exists i | 0 <= i < |ts| :: CityAfterAt(ts, i) then Err(MAX_WORDS_TYPE_ERROR) else Ok(ts)
    else if exists k | 0 <= k < |ts| :: IsStateToken(ts[k]) then
      if exists i | 0 <= i < |ts| :: LongRunBeforeStateAt(ts, i) then Err(MAX_WORDS_TYPE_ERROR)
      else Ok(LoneCitiesNamed(ts))
    else Ok(ts)
  }

  /** Pattern 1's scan: the first "city of" followed by an unclassified token is merged, which raises. */
  method FindCityOf(ts: seq<Token>) returns (found: bool)
    ensures found <==> exists i | 0 <= i < |ts| :: CityOfAt(ts, i)
  {
    if |ts| < 3 {
      return false;
    }
    for i := 0 to |ts| - 2
      invariant forall j | 0 <= j < i :: !CityOfAt(ts, j)
    {
      if ts[i].value == "city" && ts[i + 1].value == "of" && ts[i + 2].kind.None? {
        assert CityOfAt(ts, i);
        return true;
      }
    }
    return false;
  }

  /** Pattern 2's scan, and the county classifier's, over tokens after an unclassified one. */
  method FindAfterUnclassified(ts: seq<Token>, words: seq<string>) returns (found: bool)
    ensures found <==> exists i | 0 <= i < |ts| :: AfterUnclassifiedAt(ts, words, i)
  {
    for i := 0 to |ts|
      invariant forall j | 0 <= j < i :: !AfterUnclassifiedAt(ts, words, j)
    {
      if i > 0 && ts[i].value in words && ts[i - 1].kind.None? {
        assert AfterUnclassifiedAt(ts, words, i);
        return true;
      }
    }
    return false;
  }

  /**
   * Pattern 3's loop over the copy: a lone unclassified word before a state
   * token is typed as a city name in place, and the first run of two or
   * more stops the loop at the merge, which raises.
   */
  method NameCitiesBeforeStates(ts: seq<Token>) returns (r: Result<seq<Token>, string>)
    ensures r.Err? <==> exists i | 0 <= i < |ts| :: LongRunBeforeStateAt(ts, i)
    ensures r.Err? ==> r.error == MAX_WORDS_TYPE_ERROR
    ensures r.Ok? ==> r.value == LoneCitiesNamed(ts)
  {
    var augmented := ts;
    for i := 0 to |augmented|
      invariant |augmented| == |ts|
      invariant forall k | 0 <= k < |ts| ::
        augmented[k] == (if k + 1 < i && LoneCityAt(ts, k) then AsCity(ts[k]) else ts[k])
      invariant forall j | 0 <= j < i :: !LongRunBeforeStateAt(ts, j)
    {
      assert augmented[i] == ts[i];
      if i > 0 {
        assert augmented[i - 1] == ts[i - 1];
      }
      if i > 0 && IsStateToken(augmented[i]) && augmented[i - 1].kind.None? {
        assert StateAfterAt(ts, i);
        if i - 2 < 0 || augmented[i - 2].kind.Some? {
          assert LoneCityAt(ts, i - 1);
          augmented := augmented[i - 1 := AsCity(augmented[i - 1])];
        } else {
          assert augmented[i - 2] == ts[i - 2];
          assert LongRunBeforeStateAt(ts, i);
          return Err(MAX_WORDS_TYPE_ERROR);
        }
      } else {
        assert !LoneCityAt(ts, i - 1);
      }
    }
    assert augmented == LoneCitiesNamed(ts);
    return Ok(augmented);
  }

  /** The city classifier, as the source runs it on its copy. */
  method ClassifyCityNames(ts: seq<Token>) returns (r: Result<seq<Token>, string>)
    ensures r == CityNamesClassified(ts)
  {
    if !CityWorkToDo(ts) {
      return Ok(ts);
    }
    var text := TextOf(ts);
    if Contains(text, "city of") {
      var found := FindCityOf(ts);
      r := if found then Err(MAX_WORDS_TYPE_ERROR) else Ok(ts);
    } else if Contains(text, "city") {
      var found := FindAfterUnclassified(ts, ["city"]);
      if found {
        var i :| 0 <= i < |ts| && AfterUnclassifiedAt(ts, ["city"], i);
        assert CityAfterAt(ts, i);
        r := Err(MAX_WORDS_TYPE_ERROR);
      } else {
        assert forall i | 0 <= i < |ts| :: !CityAfterAt(ts, i);
        r := Ok(ts);
      }
    } else if exists k | 0 <= k < |ts| :: IsStateToken(ts[k]) {
      r := NameCitiesBeforeStates(ts);
    } else {
      r := Ok(ts);
    }
  }

  /**
   * The city classifier never changes a value; a token it changes was
   * unclassified, is now a city name, and stands alone right before a
   * state token.
   */
  lemma CityNamesOnlyNameLoneWords(ts: seq<Token>)
    ensures var r := CityNamesClassified(ts);
      r.Ok? ==> && |r.value| == |ts| && Values(r.value) == Values(ts)
                && forall k | 0 <= k < |ts| && r.value[k] != ts[k] ::
                     ts[k].kind.None? && r.value[k].kind == Some(CityName) && k + 1 < |ts| && IsStateToken(ts[k + 1])
    ensures CityNamesClassified(ts).Err? ==> CityNamesClassified(ts).error == MAX_WORDS_TYPE_ERROR
  {
    var r := CityNamesClassified(ts);
    if r.Ok? {
      assert Values(r.value) == Values(ts);
    }
  }

  /** With a single token, or nothing unclassified, the city classifier changes nothing. */
  lemma CityNamesNoWork(ts: seq<Token>)
    requires |ts| == 1 || AllClassified(ts)
    ensures CityNamesClassified(ts) == Ok(ts)
  {
  }

  /**
   * A query of unclassified words followed by a state token: a lone word is
   * named a city, and two or more words make the classifier raise.
   */
  lemma CityBeforeState(w: seq<Token>, state: Token)
    requires |w| >= 1 && forall k | 0 <= k < |w| :: w[k].kind.None? && w[k].value != "city"
    requires IsStateToken(state) && !Contains(TextOf(w + [state]), "city")
    ensures |w| == 1 ==> CityNamesClassified(w + [state]) == Ok([AsCity(w[0]), state])
    ensures |w| >= 2 ==> CityNamesClassified(w + [state]).Err?
  {
    var ts := w + [state];
    assert IsStateToken(ts[|w|]);
    assert !AllClassified(ts) by { assert ts[0].kind.None?; }
    if |w| == 1 {
      assert LoneCityAt(ts, 0);
      assert !StateAfterAt(ts, 0);
      assert LoneCitiesNamed(ts) == [AsCity(w[0]), state];
    } else {
      assert LongRunBeforeStateAt(ts, |w|);
    }
  }

  /** `LSCountynameTokenClassifier.work_to_do`: some token's value is a county word. */
  predicate CountyWorkToDo(ts: seq<Token>)
  {
    exists k | 0 <= k < |ts| :: ts[k].value in COUNTY_WORDS
  }

  /** A county word after an unclassified token: where the county classifier merges. */
  predicate CountyAt(ts: seq<Token>, i: int)
  {
    AfterUnclassifiedAt(ts, COUNTY_WORDS, i)
  }

  /** `LSCountynameTokenClassifier.classify`. */
  function CountyNamesClassified(ts: seq<Token>): (r: Result<seq<Token>, string>)
  {
    if !CountyWorkToDo(ts) then Ok(ts)
    else if exists i | 0 <= i < |ts| :: CountyAt(ts, i) then Err(MAX_WORDS_TYPE_ERROR)
    else Ok(ts)
  }

  method ClassifyCountyNames(ts: seq<Token>) returns (r: Result<seq<Token>, string>)
    ensures r == CountyNamesClassified(ts)
  {
    if !CountyWorkToDo(ts) {
      return Ok(ts);
    }
    var found := FindAfterUnclassified(ts, COUNTY_WORDS);
    if found {
      var i :| 0 <= i < |ts| && AfterUnclassifiedAt(ts, COUNTY_WORDS, i);
      assert CountyAt(ts, i);
      r := Err(MAX_WORDS_TYPE_ERROR);
    } else {
      assert forall i | 0 <= i < |ts| :: !CountyAt(ts, i);
      r := Ok(ts);
    }
  }

  /**
   * The county classifier never types a token: it raises exactly when a
   * county word follows an unclassified token, and otherwise returns its
   * input.
   */
  lemma CountyNamesOutcome(ts: seq<Token>)
    ensures CountyNamesClassified(ts).Err? <==> exists i | 0 <= i < |ts| :: CountyAt(ts, i)
    ensures CountyNamesClassified(ts).Ok? ==> CountyNamesClassified(ts).value == ts
  {
    if exists i | 0 <= i < |ts| :: CountyAt(ts, i) {
      var i :| 0 <= i < |ts| && CountyAt(ts, i);
      assert CountyWorkToDo(ts);
    }
  }

  /** Token `k` is a library keyword, by type or by value. */
  predicate LibraryKeywordAt(ts: seq<Token>, k: int)
  {
    0 <= k < |ts| && (ts[k].kind == Some(LibraryKeyword) || ts[k].value in LIBRARY_KEYWORDS)
  }

  /** `LSLibrarynameTokenClassifier.work_to_do`. */
  predicate LibraryWorkToDo(ts: seq<Token>)
  {
    exists k | 0 <= k < |ts| :: LibraryKeywordAt(ts, k)
  }

  /**
   * `LSLibrarynameTokenClassifier.classify`: the first keyword starts a
   * merge, which raises, so the classifier raises whenever it has work.
   */
  method ClassifyLibraryNames(ts: seq<Token>) returns (r: Result<seq<Token>, string>)
    ensures r.Err? <==> LibraryWorkToDo(ts)
    ensures r.Err? ==> r.error == MAX_WORDS_TYPE_ERROR
    ensures r.Ok? ==> r.value == ts
  {
    for i := 0 to |ts|
      invariant forall k | 0 <= k < i :: !LibraryKeywordAt(ts, k)
    {
      if ts[i].kind == Some(LibraryKeyword) || ts[i].value in LIBRARY_KEYWORDS {
        assert LibraryKeywordAt(ts, i);
        return Err(MAX_WORDS_TYPE_ERROR);
      }
    }
    return Ok(ts);
  }

  // ---------------------------------------------------------------------
  // Queries
  // ---------------------------------------------------------------------

  /** `LSQuery.MAX_SEARCH_STRING_LEN`. */
  const MAX_SEARCH_STRING_LEN := 128

  /** `LSQuery.COMMON_MISTAKES`: a misspelt word and its correction. */
  const COMMON_MISTAKES: seq<(string, string)> := [("libary", "library")]

  /** What indexing the empty list of words raises. */
  const INDEX_ERROR_MESSAGE := "list index out of range"

  /** `s[:n]`. */
  function Take(s: string, n: nat): (r: string)
    ensures |r| <= n && |r| <= |s| && r == s[..|r|]
    ensures |s| <= n ==> r == s
  {
    if |s| <= n then s else s[..n]
  }

  /**
   * A word after the corrections: the last mistake whose lower-cased form
   * is the word's, lower-cased, gives its correction.
   */
  function Corrected(w: string, mistakes: seq<(string, string)>): string
    decreases |mistakes|
  {
    if |mistakes| == 0 then w
    else if Lower(w) == Lower(mistakes[|mistakes| - 1].0) then mistakes[|mistakes| - 1].1
    else Corrected(w, mistakes[..|mistakes| - 1])
  }

  /** Every word after the corrections. */
  function CorrectedAll(ws: seq<string>): (r: seq<string>)
    ensures |r| == |ws|
  {
    seq(|ws|, i requires 0 <= i < |ws| => Corrected(ws[i], COMMON_MISTAKES))
  }

  /** With the one mistake the source lists, any casing of "libary" becomes "library" and nothing else changes. */
  lemma CorrectionOfLibary(w: string)
    ensures Corrected(w, COMMON_MISTAKES) == if Lower(w) == "libary" then "library" else w
  {
    assert COMMON_MISTAKES[..0] == [];
    assert Lower("libary") == "libary";
  }

  /** The first 384 characters of a query, the most normalisation looks at. */
  function Head(s: string): string
  {
    Take(s, 3 * MAX_SEARCH_STRING_LEN)
  }

  /** The words of the collapsed text `long` cut to 128 characters. */
  function CutTokens(long: string): seq<string>
  {
    Words(Take(long, MAX_SEARCH_STRING_LEN))
  }

  /** Cutting a collapsed text never gives more words than the whole has. */
  lemma CutWordCount(s: string)
    ensures |CutTokens(Squash(s))| <= |Words(s)|
  {
    var cut := Take(Squash(s), MAX_SEARCH_STRING_LEN);
    var n, p := CutWords(Words(s), |cut|);
    CutText(Words(s), |cut|, n, p);
  }

  /**
   * The words normalisation keeps of `head`: those of the 128-character
   * cut, less the last when the cut broke it, judged against the same
   * word of the whole.
   */
  function KeptWords(head: string): seq<string>
    requires |CutTokens(Squash(head))| > 0
  {
    var toks := CutTokens(Squash(head));
    var longTokens := Words(Squash(head));
    SquashIdempotent(head);
    CutWordCount(head);
    if toks[|toks| - 1] != longTokens[|toks| - 1] then toks[..|toks| - 1] else toks
  }

  /**
   * `LSQuery._normalize_search_string`: "" for a value that is not a
   * string or is empty; otherwise the collapsed first 384 characters are
   * cut to 128, a last word that the cut broke is dropped, and misspelt
   * words are corrected. A query of blanks only has no words, and reading
   * the last of them raises IndexError.
   */
  function NormalizedSearchString(raw: Raw): (r: Result<string, string>)
  {
    if raw.NotStr? || raw.s == "" then Ok("")
    else if |CutTokens(Squash(Head(raw.s)))| == 0 then Err(INDEX_ERROR_MESSAGE)
    else Ok(Join(CorrectedAll(KeptWords(Head(raw.s))), " "))
  }

  /** `_normalize_search_string` as the source runs it: it pops the broken word and overwrites misspelt ones. */
  method NormalizeSearchString(raw: Raw) returns (r: Result<string, string>)
    ensures r == NormalizedSearchString(raw)
  {
    if raw.NotStr? || raw.s == "" {
      return Ok("");
    }
    var head := Head(raw.s);
    var long := Squash(head);
    var longTokens := Words(long);
    var toks := CutTokens(long);
    if |toks| == 0 {
      return Err(INDEX_ERROR_MESSAGE);
    }
    SquashIdempotent(head);
    CutWordCount(head);
    if toks[|toks| - 1] != longTokens[|toks| - 1] {
      toks := toks[..|toks| - 1];
    }
    assert toks == KeptWords(head);
    toks := CorrectMistakes(toks);
    return Ok(Join(toks, " "));
  }

  /** The corrections loop of `_normalize_search_string`, overwriting each misspelt word in place. */
  method CorrectMistakes(words: seq<string>) returns (toks: seq<string>)
    ensures toks == CorrectedAll(words)
  {
    toks := words;
    var lowered := LowerEach(toks);
    for m := 0 to |COMMON_MISTAKES|
      invariant |toks| == |words|
      invariant forall i | 0 <= i < |words| :: toks[i] == Corrected(words[i], COMMON_MISTAKES[..m])
    {
      var (wrong, correct) := COMMON_MISTAKES[m];
      assert COMMON_MISTAKES[..m + 1][..m] == COMMON_MISTAKES[..m];
      for pos := 0 to |toks|
        invariant |toks| == |words|
        invariant forall i | 0 <= i < pos :: toks[i] == Corrected(words[i], COMMON_MISTAKES[..m + 1])
        invariant forall i | pos <= i < |words| :: toks[i] == Corrected(words[i], COMMON_MISTAKES[..m])
      {
        if lowered[pos] == Lower(wrong) {
          toks := toks[pos := correct];
        }
      }
    }
    assert COMMON_MISTAKES[..|COMMON_MISTAKES|] == COMMON_MISTAKES;
  }

  /** The cut has no word exactly when the query's first 384 characters have none. */
  lemma CutTokensEmpty(head: string)
    ensures |CutTokens(Squash(head))| == 0 <==> |Words(head)| == 0
  {
    var ws := Words(head);
    var cut := Take(Squash(head), MAX_SEARCH_STRING_LEN);
    var n, p := CutWords(ws, |cut|);
    CutText(ws, |cut|, n, p);
    if |ws| > 0 {
      assert |Squash(head)| >= |ws[0]| > 0 by { JoinLength(ws, " "); }
      assert |cut| > 0;
      if n == 0 {
        assert cut == Join([p], " ") == p;
        assert NonEmpty([p]) == [p];
      }
    }
  }

  /**
   * The kept words are some first words of `head`, within 128 characters
   * joined; when all of `head`'s words fit in 128 characters they are all
   * kept.
   */
  lemma KeptWordsArePrefix(head: string)
    requires |CutTokens(Squash(head))| > 0
    ensures var ws := Words(head);
      && (exists n | 0 <= n <= |ws| :: KeptWords(head) == ws[..n] && |Join(ws[..n], " ")| <= MAX_SEARCH_STRING_LEN)
      && (|Join(ws, " ")| <= MAX_SEARCH_STRING_LEN ==> KeptWords(head) == ws)
  {
    var ws := Words(head);
    var long := Squash(head);
    var cut := Take(long, MAX_SEARCH_STRING_LEN);
    assert long == Join(ws, " ") && cut == long[..|cut|];
    var n, p := CutWords(ws, |cut|);
    CutText(ws, |cut|, n, p);
    var toks := Words(cut);
    assert toks == ws[..n] + NonEmpty([p]);
    SquashIdempotent(head);
    assert Words(long) == ws;
    DropBrokenWord(ws, n, p);
    KeptJoinLength(ws, n, p);
    assert KeptWords(head) == if p != "" && p == ws[n] then ws[..n + 1] else ws[..n];
    if |Join(ws, " ")| <= MAX_SEARCH_STRING_LEN {
      assert cut == long[..|long|];
      assert ws[..|ws|] == ws;
    }
  }

  /** The last cut word is dropped exactly when it is not a whole word. */
  lemma DropBrokenWord(ws: seq<string>, n: nat, p: string)
    requires n <= |ws| && (n == |ws| ==> p == "") && |ws[..n] + NonEmpty([p])| > 0
    ensures var toks := ws[..n] + NonEmpty([p]);
      (if toks[|toks| - 1] != ws[|toks| - 1] then toks[..|toks| - 1] else toks)
        == if p != "" && p == ws[n] then ws[..n + 1] else ws[..n]
  {
    var toks := ws[..n] + NonEmpty([p]);
    if p == "" {
      assert NonEmpty([p]) == [];
      assert toks == ws[..n];
      assert toks[|toks| - 1] == ws[|toks| - 1];
    } else {
      assert NonEmpty([p]) == [p];
      assert toks[|toks| - 1] == p;
      if p == ws[n] {
        assert toks == ws[..n + 1];
      } else {
        assert toks[..|toks| - 1] == ws[..n];
      }
    }
  }

  /** The kept words are no longer, joined, than the cut they come from. */
  lemma KeptJoinLength(ws: seq<string>, n: nat, p: string)
    requires n <= |ws| && (n == |ws| ==> p == "")
    ensures var kept := if p != "" && p == ws[n] then ws[..n + 1] else ws[..n];
      |Join(kept, " ")| <= |Join(ws[..n] + [p], " ")|
  {
    if p != "" && p == ws[n] {
      assert ws[..n + 1] == ws[..n] + [p];
    } else if n > 0 {
      JoinAppend(ws[..n], [p], " ");
    }
  }

  /**
   * Normalising a non-empty string fails exactly when its first 384
   * characters hold no word. Otherwise it keeps some first words of those
   * characters, joined by single spaces, within 128 characters before the
   * corrections; a query whose words fit in 128 characters keeps them all.
   */
  lemma NormalizedWordsArePrefix(raw: Raw)
    requires raw.Str? && raw.s != ""
    ensures var ws := Words(Head(raw.s));
      var r := NormalizedSearchString(raw);
      && (r.Err? <==> |ws| == 0)
      && (r.Ok? ==> exists n | 0 <= n <= |ws| ::
            r.value == Join(CorrectedAll(ws[..n]), " ") && |Join(ws[..n], " ")| <= MAX_SEARCH_STRING_LEN)
      && (|ws| > 0 && |Join(ws, " ")| <= MAX_SEARCH_STRING_LEN ==> r == Ok(Join(CorrectedAll(ws), " ")))
  {
    var head := Head(raw.s);
    CutTokensEmpty(head);
    if |Words(head)| > 0 {
      KeptWordsArePrefix(head);
    }
  }

  /**
   * `LSQuery._tokenize`: one unclassified token per word when there is at
   * most one word; for more, the tokens go to a pattern classifier that is
   * handed an empty list and returns it.
   */
  function Tokenized(s: string): (r: seq<Token>)
  {
    var words := Words(s);
    var tokens := seq(|words|, i requires 0 <= i < |words| => Token(words[i], None));
    if |tokens| == 1 || AllClassified(tokens) then tokens else []
  }

  /** A query of two or more words yields no tokens; one of at most one word yields its word, unclassified. */
  lemma TokenizedOutcome(s: string)
    ensures |Words(s)| >= 2 ==> Tokenized(s) == []
    ensures |Words(s)| == 1 ==> Tokenized(s) == [Token(Words(s)[0], None)]
    ensures |Words(s)| == 0 ==> Tokenized(s) == []
  {
    var words := Words(s);
    var tokens := seq(|words|, i requires 0 <= i < |words| => Token(words[i], None));
    if |words| >= 2 {
      assert !UnclassifiedAt(tokens, 0) ==> !AllClassified(tokens);
    }
  }

  /** A token made by the tokenizer is what `LSToken` makes of its word. */
  lemma TokenizedTokensAreMade(s: string)
    ensures forall t | t in Tokenized(s) :: MakeToken(Str(t.value), None) == Ok(t)
  {
    forall t | t in Tokenized(s) ensures MakeToken(Str(t.value), None) == Ok(t) {
      var k :| 0 <= k < |Tokenized(s)| && Tokenized(s)[k] == t;
      SquashIdempotent(t.value);
      SplitOfFree(t.value, AnySpace);
      assert Words(t.value) == [t.value];
    }
  }

  /** `string.punctuation`. */
  const PUNCTUATION := "!\"#$%&'()*+,-./:;<=>?@[\\]^_`{|}~"

  /** The four ranges of printable ASCII that are neither letters, digits nor blank. */
  predicate IsPunctuation(c: char)
  {
    ('!' <= c <= '/') || (':' <= c <= '@') || ('[' <= c <= '`') || ('{' <= c <= '~')
  }

  /** `string.punctuation` is exactly those four ranges. */
  lemma PunctuationRanges(c: char)
    ensures c in PUNCTUATION <==> IsPunctuation(c)
  {
  }

  /** `s.translate(str.maketrans('', '', string.punctuation))`: every punctuation character removed. */
  function WithoutPunctuation(s: string): (r: string)
    ensures forall i | 0 <= i < |r| :: !IsPunctuation(r[i])
    ensures |r| <= |s|
    decreases |s|
  {
    if |s| == 0 then ""
    else if IsPunctuation(s[0]) then WithoutPunctuation(s[1..])
    else [s[0]] + WithoutPunctuation(s[1..])
  }

  /** An `LSQuery` once constructed: the raw, normalized and cleaned strings and the tokens. */
  datatype Query = Query(rawString: string, normalizedString: string, cleanedString: string, tokens: seq<Token>)

  /**
   * `LSQuery.__init__`, without the location and the search type: the raw
   * string cut to 384 characters ("" when not a string), its normalized
   * form, that form without punctuation and lower-cased, and its tokens.
   */
  function NewQuery(raw: Raw): (r: Result<Query, string>)
    ensures r.Err? <==> NormalizedSearchString(raw).Err?
  {
    var rawString := if raw.Str? then Head(raw.s) else "";
    var normalized := NormalizedSearchString(raw);
    if normalized.Err? then Err(normalized.error)
    else
      var cleaned := Lower(WithoutPunctuation(normalized.value));
      Ok(Query(rawString, normalized.value, cleaned, Tokenized(cleaned)))
  }

  /** `LSQuery.__bool__`. */
  predicate QueryIsTruthy(q: Query)
  {
    q.rawString != ""
  }

  /**
   * A query is false exactly when it was given no string or the empty one;
   * its cleaned string has no punctuation and no capitals; and it has
   * tokens only when the cleaned string is a single word.
   */
  lemma QueryShape(raw: Raw)
    requires NewQuery(raw).Ok?
    ensures var q := NewQuery(raw).value;
      && (QueryIsTruthy(q) <==> raw.Str? && raw.s != "")
      && (forall i | 0 <= i < |q.cleanedString| :: !IsPunctuation(q.cleanedString[i]))
      && (forall i | 0 <= i < |q.cleanedString| :: !('A' <= q.cleanedString[i] <= 'Z'))
      && (|q.tokens| > 0 ==> |Words(q.cleanedString)| == 1 && q.tokens == [Token(Words(q.cleanedString)[0], None)])
  {
    var q := NewQuery(raw).value;
    QueryFields(raw);
    CleanedShape(q.normalizedString);
    TokenizedOutcome(q.cleanedString);
  }

  /** How the fields of a constructed query relate to each other and to its raw input. */
  lemma QueryFields(raw: Raw)
    requires NewQuery(raw).Ok?
    ensures var q := NewQuery(raw).value;
      && q.cleanedString == Lower(WithoutPunctuation(q.normalizedString))
      && q.tokens == Tokenized(q.cleanedString)
      && (QueryIsTruthy(q) <==> raw.Str? && raw.s != "")
  {
    if raw.Str? && raw.s != "" {
      assert |Head(raw.s)| > 0;
    }
  }

  /** A cleaned string has no punctuation and no capitals. */
  lemma CleanedShape(s: string)
    ensures var c := Lower(WithoutPunctuation(s));
      && (forall i | 0 <= i < |c| :: !IsPunctuation(c[i]))
      && (forall i | 0 <= i < |c| :: !('A' <= c[i] <= 'Z'))
  {
    var plain := WithoutPunctuation(s);
    var c := Lower(plain);
    forall i | 0 <= i < |c| ensures !IsPunctuation(c[i]) && !('A' <= c[i] <= 'Z') {
      assert c[i] == LowerChar(plain[i]);
    }
  }
}
