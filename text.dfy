/**
 * The Python string operations the registry relies on, over ASCII text:
 * `lower`, `upper`, `split`, `strip`, `join`, `replace`, `startswith`,
 * `endswith`, `count` and the `in` substring test.
 */
module Text {

  /** The ASCII characters that `str.split()`, `str.strip()` and the regex class `\s` treat as blanks. */
  predicate IsSpace(c: char)
  {
    9 <= c as int <= 13 || 28 <= c as int <= 32
  }

  predicate IsDigit(c: char)
  {
    '0' <= c <= '9'
  }

  predicate AllDigits(s: string)
  {
    forall i | 0 <= i < |s| :: IsDigit(s[i])
  }

  function LowerChar(c: char): char
  {
    if 'A' <= c <= 'Z' then (c as int + 32) as char else c
  }

  function UpperChar(c: char): char
  {
    if 'a' <= c <= 'z' then (c as int - 32) as char else c
  }

  /** `str.lower()` on ASCII letters. */
  function Lower(s: string): (r: string)
    ensures |r| == |s|
    ensures forall i | 0 <= i < |s| :: r[i] == LowerChar(s[i])
  {
    seq(|s|, i requires 0 <= i < |s| => LowerChar(s[i]))
  }

  /** `str.upper()` on ASCII letters. */
  function Upper(s: string): (r: string)
    ensures |r| == |s|
    ensures forall i | 0 <= i < |s| :: r[i] == UpperChar(s[i])
  {
    seq(|s|, i requires 0 <= i < |s| => UpperChar(s[i]))
  }

  predicate StartsWith(s: string, prefix: string)
  {
    |prefix| <= |s| && s[..|prefix|] == prefix
  }

  predicate EndsWith(s: string, suffix: string)
  {
    |suffix| <= |s| && s[|s| - |suffix|..] == suffix
  }

  /** Python's `sub in s`. */
  predicate Contains(s: string, sub: string)
  {
    exists i | 0 <= i <= |s| :: StartsWith(s[i..], sub)
  }

  predicate HasChar(s: string, c: char)
  {
    exists i | 0 <= i < |s| :: s[i] == c
  }

  /** The separator of a split: one given character, or any run of blanks. */
  datatype Sep = At(c: char) | AnySpace

  predicate Separates(sep: Sep, c: char)
  {
    match sep
    case At(d) => c == d
    case AnySpace => IsSpace(c)
  }

  /** No character of `s` is a separator. */
  predicate Free(s: string, sep: Sep)
  {
    forall i | 0 <= i < |s| :: !Separates(sep, s[i])
  }

  /**
   * Python's `s.split(c)`: the pieces between separators, empty ones included.
   * Splitting on blanks and dropping the empty pieces gives `s.split()`, see `Words`.
   */
  function Split(s: string, sep: Sep): (r: seq<string>)
    ensures |r| >= 1
    ensures forall i | 0 <= i < |r| :: Free(r[i], sep)
    decreases |s|
  {
    if |s| == 0 then [""]
    else
      var rest := Split(s[1..], sep);
      if Separates(sep, s[0]) then [""] + rest
      else [[s[0]] + rest[0]] + rest[1..]
  }

  /** Python's `sep.join(ws)`. */
  function Join(ws: seq<string>, sep: string): string
    decreases |ws|
  {
    if |ws| == 0 then ""
    else if |ws| == 1 then ws[0]
    else ws[0] + sep + Join(ws[1..], sep)
  }

  function NonEmpty(ws: seq<string>): (r: seq<string>)
    ensures |r| <= |ws|
    ensures forall i | 0 <= i < |r| :: r[i] != "" && r[i] in ws
    decreases |ws|
  {
    if |ws| == 0 then []
    else if ws[0] == "" then NonEmpty(ws[1..])
    else [ws[0]] + NonEmpty(ws[1..])
  }

  /** Python's `s.split()`: the maximal runs of non-blank characters. */
  function Words(s: string): (r: seq<string>)
    ensures forall i | 0 <= i < |r| :: r[i] != "" && Free(r[i], AnySpace)
  {
    NonEmpty(Split(s, AnySpace))
  }

  /** The number of words of `s`, counted by their last characters. */
  function CountWords(s: string): nat
    decreases |s|
  {
    if |s| == 0 then 0
    else (if !IsSpace(s[0]) && (|s| == 1 || IsSpace(s[1])) then 1 else 0) + CountWords(s[1..])
  }

  /** `" ".join(s.split())`: blanks collapsed to single spaces and trimmed away at both ends. */
  function Squash(s: string): string
  {
    Join(Words(s), " ")
  }

  function TrimLeft(s: string): (r: string)
    ensures |r| <= |s| && r == s[|s| - |r|..]
    ensures |r| == 0 || !IsSpace(r[0])
    decreases |s|
  {
    if |s| > 0 && IsSpace(s[0]) then TrimLeft(s[1..]) else s
  }

  function TrimRight(s: string): (r: string)
    ensures |r| <= |s| && r == s[..|r|]
    ensures |r| == 0 || !IsSpace(r[|r| - 1])
    decreases |s|
  {
    if |s| > 0 && IsSpace(s[|s| - 1]) then TrimRight(s[..|s| - 1]) else s
  }

  /** Python's `s.strip()`. */
  function Strip(s: string): (r: string)
    ensures |r| <= |s|
    ensures |r| == 0 || (!IsSpace(r[0]) && !IsSpace(r[|r| - 1]))
  {
    TrimRight(TrimLeft(s))
  }

  /** Python's `s.replace(pat, rep)`: non-overlapping occurrences, left to right. */
  function ReplaceAll(s: string, pat: string, rep: string): string
    requires |pat| > 0
    decreases |s|
  {
    if |s| < |pat| then s
    else if s[..|pat|] == pat then rep + ReplaceAll(s[|pat|..], pat, rep)
    else [s[0]] + ReplaceAll(s[1..], pat, rep)
  }

  /** Python's `s.count(c)` for one character. */
  function Count(s: string, c: char): nat
    decreases |s|
  {
    if |s| == 0 then 0 else (if s[0] == c then 1 else 0) + Count(s[1..], c)
  }

  // ---------------------------------------------------------------------
  // Facts about the helpers.
  // ---------------------------------------------------------------------

  lemma {:induction false} SplitOfFree(s: string, sep: Sep)
    requires Free(s, sep)
    ensures Split(s, sep) == [s]
    decreases |s|
  {
    if |s| > 0 {
      SplitOfFree(s[1..], sep);
      assert [s[0]] + s[1..] == s;
    }
  }

  lemma {:induction false} SplitAfterFree(a: string, c: char, b: string, sep: Sep)
    requires Free(a, sep) && Separates(sep, c)
    ensures Split(a + [c] + b, sep) == [a] + Split(b, sep)
    decreases |a|
  {
    if |a| == 0 {
      assert a + [c] + b == [c] + b;
      assert ([c] + b)[1..] == b;
    } else {
      var s := a + [c] + b;
      assert s[1..] == a[1..] + [c] + b;
      SplitAfterFree(a[1..], c, b, sep);
      assert [a[0]] + a[1..] == a;
    }
  }

  /** Splitting a join undoes it when no piece holds the separator. */
  lemma {:induction false} SplitJoin(ws: seq<string>, c: char, sep: Sep)
    requires |ws| >= 1 && Separates(sep, c)
    requires forall i | 0 <= i < |ws| :: Free(ws[i], sep)
    ensures Split(Join(ws, [c]), sep) == ws
    decreases |ws|
  {
    if |ws| == 1 {
      SplitOfFree(ws[0], sep);
    } else {
      SplitJoin(ws[1..], c, sep);
      SplitAfterFree(ws[0], c, Join(ws[1..], [c]), sep);
      assert [ws[0]] + ws[1..] == ws;
    }
  }

  lemma {:induction false} NonEmptyOfNonEmpty(ws: seq<string>)
    requires forall i | 0 <= i < |ws| :: ws[i] != ""
    ensures NonEmpty(ws) == ws
    decreases |ws|
  {
    if |ws| > 0 {
      NonEmptyOfNonEmpty(ws[1..]);
      assert [ws[0]] + ws[1..] == ws;
    }
  }

  /** `" ".join(ws).split() == ws` for non-empty, blank-free words. */
  lemma WordsOfJoin(ws: seq<string>)
    requires forall i | 0 <= i < |ws| :: ws[i] != "" && Free(ws[i], AnySpace)
    ensures Words(Join(ws, " ")) == ws
  {
    if |ws| == 0 {
      assert Split("", AnySpace) == [""];
    } else {
      SplitJoin(ws, ' ', AnySpace);
      NonEmptyOfNonEmpty(ws);
    }
  }

  /** Collapsing blanks twice is collapsing them once. */
  lemma SquashIdempotent(s: string)
    ensures Words(Squash(s)) == Words(s)
    ensures Squash(Squash(s)) == Squash(s)
  {
    WordsOfJoin(Words(s));
  }

  /** One separator more means one piece more. */
  lemma {:induction false} SplitCount(s: string, c: char)
    ensures |Split(s, At(c))| == Count(s, c) + 1
    decreases |s|
  {
    if |s| > 0 {
      SplitCount(s[1..], c);
    }
  }

  /** Rejoining the pieces of a split on one character gives the text back. */
  lemma {:induction false} JoinSplit(s: string, c: char)
    ensures Join(Split(s, At(c)), [c]) == s
    decreases |s|
  {
    if |s| > 0 {
      var rest := Split(s[1..], At(c));
      JoinSplit(s[1..], c);
      if s[0] == c {
        assert [c] + Join(rest, [c]) == s;
      } else if |rest| == 1 {
        assert [s[0]] + rest[0] == s;
      } else {
        var r := Split(s, At(c));
        assert r == [[s[0]] + rest[0]] + rest[1..];
        assert r[1..] == rest[1..];
        assert Join(rest, [c]) == rest[0] + [c] + Join(rest[1..], [c]);
        assert [s[0]] + Join(rest, [c]) == s;
      }
    }
  }

  /** Stripping keeps a text free of a separator. */
  lemma StripOfFree(s: string, sep: Sep)
    requires Free(s, sep)
    ensures Free(Strip(s), sep)
  {
    var l := TrimLeft(s);
    FreeSlice(s, sep, |s| - |l|, |s|);
    assert s[|s| - |l|..|s|] == l;
    var r := TrimRight(l);
    FreeSlice(l, sep, 0, |r|);
    assert l[0..|r|] == r;
  }

  lemma FreeSlice(s: string, sep: Sep, lo: nat, hi: nat)
    requires Free(s, sep) && lo <= hi <= |s|
    ensures Free(s[lo..hi], sep)
  {
    forall i | 0 <= i < hi - lo
      ensures !Separates(sep, s[lo..hi][i])
    {
      assert s[lo..hi][i] == s[lo + i];
    }
  }

  lemma StripOfStripped(s: string)
    requires |s| == 0 || (!IsSpace(s[0]) && !IsSpace(s[|s| - 1]))
    ensures Strip(s) == s
  {
  }

  /** `[x.strip() for x in ws]`. */
  function StripEach(ws: seq<string>): (r: seq<string>)
    ensures |r| == |ws|
    ensures forall i | 0 <= i < |ws| :: r[i] == Strip(ws[i])
  {
    seq(|ws|, i requires 0 <= i < |ws| => Strip(ws[i]))
  }

  /** Lower-casing forgets any earlier upper-casing. */
  lemma LowerOfUpper(s: string)
    ensures Lower(Upper(s)) == Lower(s)
  {
  }

  lemma LowerIdempotent(s: string)
    ensures Lower(Lower(s)) == Lower(s)
  {
  }

  lemma {:induction false} JoinLength(ws: seq<string>, sep: string)
    ensures |ws| > 0 ==> |Join(ws, sep)| >= |ws[0]|
    decreases |ws|
  {
    if |ws| > 1 {
      JoinLength(ws[1..], sep);
    }
  }

  // ---------------------------------------------------------------------
  // Prefixes, joins and case of split text.
  // ---------------------------------------------------------------------

  /** `a` is `b` with its tail dropped and its last kept piece possibly cut short. */
  /** The first piece of a split is empty exactly when the string is, or starts with a separator. */
  lemma FirstPiece(s: string, sep: Sep)
    ensures Split(s, sep)[0] == "" <==> |s| == 0 || Separates(sep, s[0])
  {
  }

  lemma NonEmptyCons(w: string, ws: seq<string>)
    ensures |NonEmpty([w] + ws)| == (if w == "" then 0 else 1) + |NonEmpty(ws)|
  {
    assert ([w] + ws)[1..] == ws;
  }

  /** `len(s.split())` is the number of word ends in `s`. */
  lemma {:induction false} WordCount(s: string)
    ensures |Words(s)| == CountWords(s)
    decreases |s|
  {
    if |s| > 0 {
      WordCount(s[1..]);
      var rest := Split(s[1..], AnySpace);
      FirstPiece(s[1..], AnySpace);
      assert rest == [rest[0]] + rest[1..];
      NonEmptyCons(rest[0], rest[1..]);
      if IsSpace(s[0]) {
        NonEmptyCons("", rest);
      } else {
        NonEmptyCons([s[0]] + rest[0], rest[1..]);
      }
    }
  }

  predicate PiecesPrefix(a: seq<string>, b: seq<string>)
  {
    1 <= |a| <= |b| && a[..|a| - 1] == b[..|a| - 1] && StartsWith(b[|a| - 1], a[|a| - 1])
  }

  /** The first step of `Split`, given the pieces of the rest. */
  function SplitStep(c: char, rest: seq<string>, sep: Sep): seq<string>
    requires |rest| >= 1
  {
    if Separates(sep, c) then [""] + rest else [[c] + rest[0]] + rest[1..]
  }

  lemma PiecesPrefixStep(c: char, ra: seq<string>, rb: seq<string>, sep: Sep)
    requires PiecesPrefix(ra, rb)
    ensures PiecesPrefix(SplitStep(c, ra, sep), SplitStep(c, rb, sep))
  {
    var a := SplitStep(c, ra, sep);
    var b := SplitStep(c, rb, sep);
    if Separates(sep, c) {
      assert a[..|a| - 1] == [""] + ra[..|ra| - 1];
      assert b[..|a| - 1] == [""] + rb[..|ra| - 1];
    } else if |ra| == 1 {
      assert rb[0][..|ra[0]|] == ra[0];
      assert ([c] + rb[0])[..|ra[0]| + 1] == [c] + ra[0];
    } else {
      assert ra[0] == ra[..|ra| - 1][0] == rb[..|ra| - 1][0] == rb[0];
      assert a[..|a| - 1] == [[c] + ra[0]] + ra[1..|ra| - 1];
      assert b[..|a| - 1] == [[c] + rb[0]] + rb[1..|ra| - 1];
      assert ra[1..|ra| - 1] == ra[..|ra| - 1][1..];
      assert rb[1..|ra| - 1] == rb[..|ra| - 1][1..];
    }
  }

  /**
   * Splitting a prefix gives the first pieces of the whole, the last of
   * them possibly cut short.
   */
  lemma {:induction false} SplitPrefix(t: string, n: nat, sep: Sep)
    requires n <= |t|
    ensures PiecesPrefix(Split(t[..n], sep), Split(t, sep))
    decreases n
  {
    if n > 0 {
      var p := t[..n];
      assert p[1..] == t[1..][..n - 1];
      SplitPrefix(t[1..], n - 1, sep);
      assert Split(p, sep) == SplitStep(t[0], Split(p[1..], sep), sep);
      assert Split(t, sep) == SplitStep(t[0], Split(t[1..], sep), sep);
      PiecesPrefixStep(t[0], Split(p[1..], sep), Split(t[1..], sep), sep);
    }
  }

  /** Only the empty text splits into one empty piece. */
  lemma SplitOfNonEmpty(s: string, sep: Sep)
    requires |s| > 0
    ensures Split(s, sep) != [""]
  {
    var rest := Split(s[1..], sep);
    if !Separates(sep, s[0]) {
      assert Split(s, sep)[0] == [s[0]] + rest[0];
    }
  }

  lemma {:induction false} NonEmptyAppend(xs: seq<string>, ys: seq<string>)
    ensures NonEmpty(xs + ys) == NonEmpty(xs) + NonEmpty(ys)
    decreases |xs|
  {
    if |xs| == 0 {
      assert xs + ys == ys;
    } else {
      assert (xs + ys)[1..] == xs[1..] + ys;
      NonEmptyAppend(xs[1..], ys);
    }
  }

  /** The only blank of the text is the space character. */
  predicate SpacesOnly(s: string)
  {
    forall i | 0 <= i < |s| :: IsSpace(s[i]) ==> s[i] == ' '
  }

  lemma {:induction false} JoinSpacesOnly(ws: seq<string>)
    requires forall i | 0 <= i < |ws| :: Free(ws[i], AnySpace)
    ensures SpacesOnly(Join(ws, " "))
    decreases |ws|
  {
    if |ws| > 1 {
      JoinSpacesOnly(ws[1..]);
      var j := Join(ws[1..], " ");
      var s := ws[0] + " " + j;
      forall i | 0 <= i < |s| && IsSpace(s[i]) ensures s[i] == ' ' {
        if i > |ws[0]| {
          assert s[i] == j[i - |ws[0]| - 1];
        }
      }
    }
  }

  /** In a text whose only blank is the space, splitting on blanks is splitting on spaces. */
  lemma {:induction false} SplitOfSpacesOnly(s: string)
    requires SpacesOnly(s)
    ensures Split(s, AnySpace) == Split(s, At(' '))
    decreases |s|
  {
    if |s| > 0 {
      SplitOfSpacesOnly(s[1..]);
    }
  }

  /** Joining the first pieces gives a prefix of joining them all. */
  lemma {:induction false} JoinPrefix(ws: seq<string>, j: nat, sep: string)
    requires j <= |ws|
    ensures StartsWith(Join(ws, sep), Join(ws[..j], sep))
    decreases |ws|
  {
    if j == |ws| {
      assert ws[..j] == ws;
    } else if j > 0 {
      JoinPrefix(ws[1..], j - 1, sep);
      assert ws[1..][..j - 1] == ws[..j][1..];
      if j == 1 {
        assert Join(ws[..j], sep) == ws[0];
      } else {
        assert Join(ws[..j], sep) == ws[0] + sep + Join(ws[1..][..j - 1], sep);
      }
      var rest := Join(ws[1..], sep);
      var pre := Join(ws[1..][..j - 1], sep);
      assert rest[..|pre|] == pre;
      assert (ws[0] + sep + rest)[..|ws[0]| + |sep| + |pre|] == ws[0] + sep + pre;
    }
  }

  /** Joining two non-empty runs is joining each and putting one separator between. */
  lemma {:induction false} JoinAppend(a: seq<string>, b: seq<string>, sep: string)
    requires |a| > 0 && |b| > 0
    ensures Join(a + b, sep) == Join(a, sep) + sep + Join(b, sep)
    decreases |a|
  {
    if |a| > 1 {
      assert (a + b)[1..] == a[1..] + b;
      JoinAppend(a[1..], b, sep);
    }
  }

  /** `[w.lower() for w in ws]`. */
  function LowerEach(ws: seq<string>): (r: seq<string>)
    ensures |r| == |ws|
    ensures forall i | 0 <= i < |ws| :: r[i] == Lower(ws[i])
    decreases |ws|
  {
    if |ws| == 0 then [] else [Lower(ws[0])] + LowerEach(ws[1..])
  }

  lemma {:induction false} SplitOfLower(s: string)
    ensures Split(Lower(s), AnySpace) == LowerEach(Split(s, AnySpace))
    decreases |s|
  {
    if |s| > 0 {
      assert Lower(s)[1..] == Lower(s[1..]);
      SplitOfLower(s[1..]);
      var rest := Split(s[1..], AnySpace);
      if !IsSpace(s[0]) {
        assert Lower([s[0]] + rest[0]) == [LowerChar(s[0])] + Lower(rest[0]);
        assert LowerEach(rest)[1..] == LowerEach(rest[1..]);
      }
    }
  }

  lemma {:induction false} NonEmptyOfLower(ws: seq<string>)
    ensures NonEmpty(LowerEach(ws)) == LowerEach(NonEmpty(ws))
    decreases |ws|
  {
    if |ws| > 0 {
      NonEmptyOfLower(ws[1..]);
      assert LowerEach(ws)[1..] == LowerEach(ws[1..]);
    }
  }

  lemma {:induction false} JoinOfLower(ws: seq<string>)
    ensures Join(LowerEach(ws), " ") == Lower(Join(ws, " "))
    decreases |ws|
  {
    if |ws| > 1 {
      JoinOfLower(ws[1..]);
      assert LowerEach(ws)[1..] == LowerEach(ws[1..]);
    }
  }

  /** A lower-cased collapsed text is still collapsed. */
  lemma SquashOfLowerSquash(s: string)
    ensures Squash(Lower(Squash(s))) == Lower(Squash(s))
  {
    var ws := Words(s);
    SplitOfLower(Squash(s));
    NonEmptyOfLower(Split(Squash(s), AnySpace));
    SquashIdempotent(s);
    JoinOfLower(ws);
  }

  /** Lower-casing and collapsing blanks commute. */
  lemma SquashOfLower(s: string)
    ensures Squash(Lower(s)) == Lower(Squash(s))
  {
    SplitOfLower(s);
    NonEmptyOfLower(Split(s, AnySpace));
    JoinOfLower(Words(s));
  }

  /** Every character of a replacement's result comes from the text or from the replacement. */
  lemma {:induction false} ReplaceChars(s: string, pat: string, rep: string)
    requires |pat| > 0
    ensures forall c | c in ReplaceAll(s, pat, rep) :: c in s || c in rep
    ensures |s| > 0 && |rep| > 0 ==> |ReplaceAll(s, pat, rep)| > 0
    decreases |s|
  {
    if |s| >= |pat| {
      if s[..|pat|] == pat {
        ReplaceChars(s[|pat|..], pat, rep);
        assert forall c | c in s[|pat|..] :: c in s;
      } else {
        ReplaceChars(s[1..], pat, rep);
        assert forall c | c in s[1..] :: c in s;
      }
    }
  }

  /** With no space in the pattern, a replacement never reaches across a space. */
  lemma {:induction false} ReplaceAcrossSpace(a: string, b: string, pat: string, rep: string)
    requires |pat| > 0 && Free(pat, At(' '))
    ensures ReplaceAll(a + " " + b, pat, rep) == ReplaceAll(a, pat, rep) + " " + ReplaceAll(b, pat, rep)
    decreases |a|
  {
    var s := a + " " + b;
    var n := |pat|;
    if |s| < n {
    } else if |a| == 0 {
      assert s[..n][0] == ' ' != pat[0];
      assert s[1..] == b;
    } else if s[..n] == pat {
      MatchWithinFirst(a, b, pat);
      assert s[n..] == a[n..] + " " + b;
      ReplaceAcrossSpace(a[n..], b, pat, rep);
    } else {
      assert s[1..] == a[1..] + " " + b;
      ReplaceAcrossSpace(a[1..], b, pat, rep);
      assert !StartsWith(a, pat) by {
        if |a| >= n {
          assert a[..n] == s[..n];
        }
      }
      ReplaceSkips(a, pat, rep);
    }
  }

  /** Where the pattern does not start, the first character is kept. */
  lemma ReplaceSkips(a: string, pat: string, rep: string)
    requires |pat| > 0 && |a| > 0 && !StartsWith(a, pat)
    ensures ReplaceAll(a, pat, rep) == [a[0]] + ReplaceAll(a[1..], pat, rep)
  {
    if |a| < |pat| {
      assert [a[0]] + a[1..] == a;
    }
  }

  /** A space-free pattern at the start of `a + " " + b` lies within `a`. */
  lemma MatchWithinFirst(a: string, b: string, pat: string)
    requires Free(pat, At(' ')) && StartsWith(a + " " + b, pat)
    ensures StartsWith(a, pat)
  {
    var s := a + " " + b;
    assert s[|a|] == ' ';
    assert forall i | 0 <= i < |pat| :: pat[i] == s[i];
    assert a[..|pat|] == pat;
  }

  /** `[w.replace(pat, rep) for w in ws]`. */
  function ReplaceEach(ws: seq<string>, pat: string, rep: string): (r: seq<string>)
    requires |pat| > 0
    ensures |r| == |ws|
    ensures forall i | 0 <= i < |ws| :: r[i] == ReplaceAll(ws[i], pat, rep)
  {
    seq(|ws|, i requires 0 <= i < |ws| => ReplaceAll(ws[i], pat, rep))
  }

  /** A replacement in space-joined words is the replacement in each word, joined again. */
  lemma {:induction false} ReplaceJoin(ws: seq<string>, pat: string, rep: string)
    requires |pat| > 0 && Free(pat, At(' '))
    ensures ReplaceAll(Join(ws, " "), pat, rep) == Join(ReplaceEach(ws, pat, rep), " ")
    decreases |ws|
  {
    if |ws| > 1 {
      ReplaceAcrossSpace(ws[0], Join(ws[1..], " "), pat, rep);
      ReplaceJoin(ws[1..], pat, rep);
      assert ReplaceEach(ws, pat, rep)[1..] == ReplaceEach(ws[1..], pat, rep);
    }
  }

  /**
   * Cutting the space-joined words `ws` after `m` characters leaves some
   * whole words followed by one piece, possibly empty, that begins the
   * next word.
   */
  lemma CutWords(ws: seq<string>, m: nat) returns (n: nat, p: string)
    requires forall i | 0 <= i < |ws| :: ws[i] != "" && Free(ws[i], AnySpace)
    requires m <= |Join(ws, " ")|
    ensures n <= |ws|
    ensures n < |ws| ==> StartsWith(ws[n], p)
    ensures n == |ws| ==> p == ""
    ensures Split(Join(ws, " ")[..m], AnySpace) == ws[..n] + [p]
  {
    var line := Join(ws, " ");
    var cut := line[..m];
    SplitPrefix(line, m, AnySpace);
    var a := Split(cut, AnySpace);
    n, p := |a| - 1, a[|a| - 1];
    if |ws| == 0 {
      assert cut == "";
      assert a == [""];
    } else {
      SplitJoin(ws, ' ', AnySpace);
      assert a == a[..n] + [p];
    }
  }

  /** The cut text is the whole words and the piece, joined by spaces. */
  lemma CutText(ws: seq<string>, m: nat, n: nat, p: string)
    requires forall i | 0 <= i < |ws| :: ws[i] != "" && Free(ws[i], AnySpace)
    requires m <= |Join(ws, " ")| && n <= |ws|
    requires Split(Join(ws, " ")[..m], AnySpace) == ws[..n] + [p]
    ensures Join(ws, " ")[..m] == Join(ws[..n] + [p], " ")
    ensures Words(Join(ws, " ")[..m]) == ws[..n] + NonEmpty([p])
  {
    var line := Join(ws, " ");
    var cut := line[..m];
    JoinSpacesOnly(ws);
    assert SpacesOnly(cut) by {
      forall i | 0 <= i < |cut| && IsSpace(cut[i]) ensures cut[i] == ' ' {
        assert cut[i] == line[i];
      }
    }
    SplitOfSpacesOnly(cut);
    JoinSplit(cut, ' ');
    assert forall i | 0 <= i < n :: ws[..n][i] == ws[i];
    NonEmptyAppend(ws[..n], [p]);
    NonEmptyOfNonEmpty(ws[..n]);
  }

  /** A prefix of a prefix is a prefix, with the same elements. */
  lemma PrefixOfPrefix<T>(s: seq<T>, n: nat, i: nat)
    requires i <= n <= |s|
    ensures s[..n][..i] == s[..i]
    ensures i < n ==> s[..n][i] == s[i]
  {
  }
}
