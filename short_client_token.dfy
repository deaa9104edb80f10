/**
 * Short client tokens of the Vendor ID service, `name|expires|patron|signature`:
 * the signature is an HMAC-SHA256 (RFC 2104) of the first three parts under
 * the library's shared secret, written in base64 with the Adobe character
 * substitutions. Instants are whole microseconds since 1970-01-01, the
 * resolution of a Python `datetime`. The clock, the signer, the library
 * table, the delegates and `uuid1` are parameters.
 */
module ShortClientToken {
  import opened Wrappers
  import opened Text
  import Base64

  type byte = Base64.byte

  const MICROS_PER_SECOND: int := 1_000_000
  const MICROS_PER_MINUTE: int := 60_000_000

  /** `JWT_EPOCH`, 1970-01-01, the epoch of the NumericDate of section 2 of RFC 7519. */
  const JWT_EPOCH: int := 0

  /** `SCT_EPOCH`, 2017-01-01, 1483228800 seconds after `JWT_EPOCH`. */
  const SCT_EPOCH: int := 1_483_228_800_000_000

  /** Expirations below this count minutes from `SCT_EPOCH`; the others count seconds from `JWT_EPOCH`. */
  const MINUTES_LIMIT: int := 1_500_000_000

  /** A token minted by `encode` expires 60 minutes later. */
  const LIFETIME: int := 60 * MICROS_PER_MINUTE

  const ADOBE_ACCOUNT_ID := "Adobe Account ID"

  // ---------------------------------------------------------------------
  // Dates.
  // ---------------------------------------------------------------------

  /** `sct_numericdate`: whole minutes since `SCT_EPOCH`, 0 before it. */
  function SctNumericDate(d: int): (r: nat)
    ensures d < SCT_EPOCH ==> r == 0
    ensures d >= SCT_EPOCH ==> SCT_EPOCH + r * MICROS_PER_MINUTE <= d < SCT_EPOCH + (r + 1) * MICROS_PER_MINUTE
  {
    if d >= SCT_EPOCH then (d - SCT_EPOCH) / MICROS_PER_MINUTE else 0
  }

  /** `jwt_numericdate`: whole seconds since `JWT_EPOCH`, 0 before it. */
  function JwtNumericDate(d: int): (r: nat)
    ensures d < JWT_EPOCH ==> r == 0
    ensures d >= JWT_EPOCH ==> JWT_EPOCH + r * MICROS_PER_SECOND <= d < JWT_EPOCH + (r + 1) * MICROS_PER_SECOND
  {
    if d >= JWT_EPOCH then (d - JWT_EPOCH) / MICROS_PER_SECOND else 0
  }

  /** 2018-01-01 12:30 is minute 526350 of the short client token epoch and second 1514809800 of the JWT one. */
  lemma NumericDatesOfExample()
    ensures SctNumericDate(1_514_809_800_000_000) == 526350
    ensures JwtNumericDate(1_514_809_800_000_000) == 1_514_809_800
  {
  }

  // ---------------------------------------------------------------------
  // The Adobe variant of base64.
  // ---------------------------------------------------------------------

  /** Every occurrence of one character replaced by another. */
  function Swap(s: string, from: char, to: char): (r: string)
    ensures |r| == |s|
    ensures forall i | 0 <= i < |s| :: r[i] == (if s[i] == from then to else s[i])
  {
    seq(|s|, i requires 0 <= i < |s| => if s[i] == from then to else s[i])
  }

  /** `replace` of a one-character text is a character-by-character swap. */
  lemma {:induction false} ReplaceOneChar(s: string, from: char, to: char)
    ensures ReplaceAll(s, [from], [to]) == Swap(s, from, to)
    decreases |s|
  {
    if |s| > 0 {
      ReplaceOneChar(s[1..], from, to);
      assert s[..1] == [from] <==> s[0] == from;
      assert Swap(s, from, to) == [if s[0] == from then to else s[0]] + Swap(s[1..], from, to);
    }
  }

  /** `adobe_base64_encode`: `encodebytes`, then '+' to ':', '/' to ';', '=' to '@', then `strip`. */
  function AdobeEncode(bs: seq<byte>): string
  {
    AdobeText(Base64.EncodeLines(bs))
  }

  /** The substitutions and the `strip` on the text `encodebytes` wrote. */
  function AdobeText(e: string): string
  {
    Strip(ReplaceAll(ReplaceAll(ReplaceAll(e, "+", ":"), "/", ";"), "=", "@"))
  }

  /** `adobe_base64_decode`: the substitutions undone, then `decodebytes`. */
  function AdobeDecode(s: string): Result<seq<byte>, string>
  {
    Base64.DecodeBytes(ReplaceAll(ReplaceAll(ReplaceAll(s, ":", "+"), ";", "/"), "@", "="))
  }

  /** The three substitutions of the encoder, on one character. */
  function ToAdobe(c: char): char
  {
    if c == '+' then ':' else if c == '/' then ';' else if c == '=' then '@' else c
  }

  /** The three substitutions of the decoder, on one character. */
  function FromAdobe(c: char): char
  {
    if c == ':' then '+' else if c == ';' then '/' else if c == '@' then '=' else c
  }

  function ToAdobeAll(s: string): (r: string)
    ensures |r| == |s| && forall i | 0 <= i < |s| :: r[i] == ToAdobe(s[i])
  {
    seq(|s|, i requires 0 <= i < |s| => ToAdobe(s[i]))
  }

  function FromAdobeAll(s: string): (r: string)
    ensures |r| == |s| && forall i | 0 <= i < |s| :: r[i] == FromAdobe(s[i])
  {
    seq(|s|, i requires 0 <= i < |s| => FromAdobe(s[i]))
  }

  /** The encoder's three `replace` calls act character by character. */
  lemma EncoderSubstitution(s: string)
    ensures ReplaceAll(ReplaceAll(ReplaceAll(s, "+", ":"), "/", ";"), "=", "@") == ToAdobeAll(s)
  {
    ReplaceOneChar(s, '+', ':');
    ReplaceOneChar(Swap(s, '+', ':'), '/', ';');
    ReplaceOneChar(Swap(Swap(s, '+', ':'), '/', ';'), '=', '@');
    assert Swap(Swap(Swap(s, '+', ':'), '/', ';'), '=', '@') == ToAdobeAll(s);
  }

  /** The decoder's three `replace` calls act character by character. */
  lemma DecoderSubstitution(s: string)
    ensures ReplaceAll(ReplaceAll(ReplaceAll(s, ":", "+"), ";", "/"), "@", "=") == FromAdobeAll(s)
  {
    ReplaceOneChar(s, ':', '+');
    ReplaceOneChar(Swap(s, ':', '+'), ';', '/');
    ReplaceOneChar(Swap(Swap(s, ':', '+'), ';', '/'), '@', '=');
    assert Swap(Swap(Swap(s, ':', '+'), ';', '/'), '@', '=') == FromAdobeAll(s);
  }

  /** Strip drops the one newline of a text that ends with it and starts and goes on with non-blanks. */
  lemma StripFinalNewline(t: string)
    requires |t| >= 2 && !IsSpace(t[0]) && t[|t| - 1] == '\n' && !IsSpace(t[|t| - 2])
    ensures Strip(t) == t[..|t| - 1]
  {
    var u := t[..|t| - 1];
    assert TrimLeft(t) == t;
    assert IsSpace(t[|t| - 1]);
    assert TrimRight(t) == TrimRight(u);
    assert u[|u| - 1] == t[|t| - 2];
    assert TrimRight(u) == u;
  }

  /** The characters `encodebytes` writes. */
  predicate Base64Text(e: string)
  {
    forall i | 0 <= i < |e| :: Base64.InAlphabet(e[i]) || e[i] == Base64.PAD || e[i] == '\n'
  }

  /** Strip takes only the final newline off the substituted output of `encodebytes`. */
  lemma StripOfAdobe(e: string)
    requires Base64Text(e) && |e| >= 2
    requires Base64.InAlphabet(e[0]) && e[|e| - 1] == '\n' && e[|e| - 2] != '\n'
    ensures Strip(ToAdobeAll(e)) == ToAdobeAll(e[..|e| - 1])
  {
    var t := ToAdobeAll(e);
    assert t[0] == ToAdobe(e[0]) && t[|t| - 1] == ToAdobe(e[|e| - 1]) && t[|t| - 2] == ToAdobe(e[|e| - 2]);
    StripFinalNewline(t);
    assert t[..|t| - 1] == ToAdobeAll(e[..|e| - 1]);
  }

  /** What the Adobe encoding of some bytes is: the substituted base64 without its final newline. */
  lemma AdobeEncodeBody(bs: seq<byte>, e: string)
    requires |bs| > 0 && e == Base64.EncodeLines(bs)
    ensures |e| >= 5 && Base64Text(e) && e[|e| - 1] == '\n'
    ensures AdobeEncode(bs) == ToAdobeAll(e[..|e| - 1])
  {
    assert Base64Text(e) && |e| >= 5 && Base64.InAlphabet(e[0]) && e[|e| - 1] == '\n' && e[|e| - 2] != '\n' by {
      Base64.LinesChars(bs);
    }
    AdobeTextOf(e);
  }

  lemma AdobeTextOf(e: string)
    requires Base64Text(e) && |e| >= 2
    requires Base64.InAlphabet(e[0]) && e[|e| - 1] == '\n' && e[|e| - 2] != '\n'
    ensures AdobeText(e) == ToAdobeAll(e[..|e| - 1])
  {
    EncoderSubstitution(e);
    StripOfAdobe(e);
  }

  /** The decoder's substitutions undo the encoder's on the characters of base64. */
  lemma SubstitutionsUndone(s: string)
    requires Base64Text(s)
    ensures FromAdobeAll(ToAdobeAll(s)) == s
  {
    var r := FromAdobeAll(ToAdobeAll(s));
    forall i | 0 <= i < |s| ensures r[i] == s[i] {
      assert r[i] == FromAdobe(ToAdobe(s[i]));
    }
  }

  /** Decoding the substituted text without its final newline gives what the text decodes to. */
  lemma AdobeDecodeOf(e: string)
    requires Base64Text(e) && |e| >= 1 && e[|e| - 1] == '\n'
    ensures AdobeDecode(ToAdobeAll(e[..|e| - 1])) == Base64.DecodeBytes(e)
  {
    var body := e[..|e| - 1];
    assert Base64Text(body) by {
      forall i | 0 <= i < |body| ensures Base64.InAlphabet(body[i]) || body[i] == Base64.PAD || body[i] == '\n' {
        assert body[i] == e[i];
      }
    }
    DecoderSubstitution(ToAdobeAll(body));
    SubstitutionsUndone(body);
    Base64.TrailingSkipped(body, '\n', Base64.START);
    assert body + ['\n'] == e;
  }

  /** `adobe_base64_decode(adobe_base64_encode(x)) == x`. */
  lemma AdobeRoundTrip(bs: seq<byte>)
    ensures AdobeDecode(AdobeEncode(bs)) == Ok(bs)
  {
    Base64.LinesDecode(bs);
    if |bs| == 0 {
      assert Base64.EncodeLines(bs) == "";
      EncoderSubstitution("");
      DecoderSubstitution("");
    } else {
      var e := Base64.EncodeLines(bs);
      AdobeEncodeBody(bs, e);
      AdobeDecodeOf(e);
    }
  }

  /** The 32 bytes of an HMAC-SHA256 signature give 44 characters, under the 76 Adobe keeps. */
  lemma SignatureLength(bs: seq<byte>)
    requires |bs| == 32
    ensures |AdobeEncode(bs)| == 44
  {
    var e := Base64.EncodeLines(bs);
    Base64.ShortInputOneLine(bs);
    Base64.EncodeLength(bs);
    assert |Base64.Encode(bs)| == 44;
    assert |e| == 45;
    AdobeEncodeBody(bs, e);
  }

  /** No character of the substituted base64 alphabet is a pipe. */
  lemma AdobeTextPipeFree(e: string)
    requires Base64Text(e)
    ensures Free(ToAdobeAll(e), At('|'))
  {
    var t := ToAdobeAll(e);
    forall i | 0 <= i < |t| ensures t[i] != '|' {
      assert t[i] == ToAdobe(e[i]);
    }
  }

  lemma AdobeTextFree(e: string)
    requires Base64Text(e)
    ensures Free(AdobeText(e), At('|'))
  {
    EncoderSubstitution(e);
    AdobeTextPipeFree(e);
    StripOfFree(ToAdobeAll(e), At('|'));
  }

  /** No pipe in an encoded signature. */
  lemma AdobePipeFree(bs: seq<byte>)
    ensures Free(AdobeEncode(bs), At('|'))
  {
    var e := Base64.EncodeLines(bs);
    Base64.LinesChars(bs);
    assert Base64Text(e);
    AdobeTextFree(e);
  }

  // ---------------------------------------------------------------------
  // Numbers in tokens.
  // ---------------------------------------------------------------------

  function DigitChar(d: nat): char
    requires d < 10
  {
    ('0' as int + d) as char
  }

  /** `str(n)` for a natural number. */
  function NatToString(n: nat): (r: string)
    decreases n
  {
    if n < 10 then [DigitChar(n)] else NatToString(n / 10) + [DigitChar(n % 10)]
  }

  /** The number a text of decimal digits spells. */
  function DigitsValue(s: string): nat
    requires AllDigits(s)
    decreases |s|
  {
    if |s| == 0 then 0 else DigitsValue(s[..|s| - 1]) * 10 + (s[|s| - 1] as int - '0' as int)
  }

  function Pow10(k: nat): (r: nat)
    ensures r >= 1
  {
    if k == 0 then 1 else 10 * Pow10(k - 1)
  }

  /** A decimal number, `mantissa / 10^scale`. */
  datatype Decimal = Decimal(mantissa: int, scale: nat)

  /**
   * `float(s)` on decimal notation: blanks around, an optional sign, and
   * digits with at most one point among them, at least one digit in all.
   */
  function ParseNumber(s: string): Option<Decimal>
  {
    var t := Strip(s);
    if |t| > 0 && (t[0] == '-' || t[0] == '+') then Signed(t[0] == '-', ParseUnsigned(t[1..]))
    else ParseUnsigned(t)
  }

  function Signed(negative: bool, d: Option<Decimal>): Option<Decimal>
  {
    if negative && d.Some? then Some(Decimal(-d.value.mantissa, d.value.scale)) else d
  }

  /** Digits with at most one point among them, at least one digit in all. */
  function ParseUnsigned(body: string): Option<Decimal>
  {
    var pieces := Split(body, At('.'));
    if |pieces| > 2 then None
    else if |pieces| == 1 then
      if |body| > 0 && AllDigits(body) then Some(Decimal(DigitsValue(body), 0)) else None
    else if !AllDigits(pieces[0]) || !AllDigits(pieces[1]) || |pieces[0]| + |pieces[1]| == 0 then None
    else Some(Decimal(DigitsValue(pieces[0]) * Pow10(|pieces[1]|) + DigitsValue(pieces[1]), |pieces[1]|))
  }

  /** `str(n)` is a non-empty run of digits spelling `n`. */
  lemma {:induction false} NatDigits(n: nat)
    ensures |NatToString(n)| > 0 && AllDigits(NatToString(n)) && DigitsValue(NatToString(n)) == n
    decreases n
  {
    if n >= 10 {
      NatDigits(n / 10);
      var p := NatToString(n / 10);
      assert (p + [DigitChar(n % 10)])[..|p|] == p;
    }
  }

  /** `float` of a run of digits is the number they spell. */
  lemma ParseOfDigits(s: string)
    requires |s| > 0 && AllDigits(s)
    ensures ParseNumber(s) == Some(Decimal(DigitsValue(s), 0))
  {
    assert Free(s, AnySpace) by {
      forall i | 0 <= i < |s| ensures !IsSpace(s[i]) {
        assert IsDigit(s[i]);
      }
    }
    StripOfStripped(s);
    assert Free(s, At('.')) by {
      forall i | 0 <= i < |s| ensures s[i] != '.' {
        assert IsDigit(s[i]);
      }
    }
    SplitOfFree(s, At('.'));
    assert Strip(s) == s;
    assert IsDigit(s[0]);
    assert ParseNumber(s) == ParseUnsigned(s);
  }

  /** `float(str(n)) == n`. */
  lemma ParseOfNat(n: nat)
    ensures ParseNumber(NatToString(n)) == Some(Decimal(n, 0))
  {
    NatDigits(n);
    ParseOfDigits(NatToString(n));
  }

  lemma NatPipeFree(n: nat)
    ensures Free(NatToString(n), At('|'))
  {
    var s := NatToString(n);
    NatDigits(n);
    forall i | 0 <= i < |s| ensures s[i] != '|' {
      assert IsDigit(s[i]);
    }
  }

  // ---------------------------------------------------------------------
  // Expiry.
  // ---------------------------------------------------------------------

  /** The instant a whole-number expiration stands for. */
  function ExpiryInstant(e: int): int
  {
    if e < MINUTES_LIMIT then SCT_EPOCH + e * MICROS_PER_MINUTE else JWT_EPOCH + e * MICROS_PER_SECOND
  }

  /**
   * `datetime.min` and `datetime.max`, 0001-01-01 and 9999-12-31
   * 23:59:59.999999, in microseconds from `JWT_EPOCH`.
   */
  const DATETIME_MIN: int := -62_135_596_800_000_000
  const DATETIME_MAX: int := 253_402_300_799_999_999

  /**
   * The instant an expiration stands for, scaled by `10^scale` so that it is
   * exact: below `MINUTES_LIMIT` the expiration counts minutes from
   * `SCT_EPOCH`, from there on seconds from `JWT_EPOCH`.
   */
  function ScaledInstant(e: Decimal): int
  {
    var p := Pow10(e.scale);
    if e.mantissa < MINUTES_LIMIT * p then SCT_EPOCH * p + e.mantissa * MICROS_PER_MINUTE
    else JWT_EPOCH * p + e.mantissa * MICROS_PER_SECOND
  }

  /** The epoch plus the `timedelta` is a `datetime`: otherwise Python raises OverflowError. */
  predicate InDatetimeRange(e: Decimal)
  {
    var p := Pow10(e.scale);
    DATETIME_MIN * p <= ScaledInstant(e) <= DATETIME_MAX * p
  }

  /** The expiration of a token lies before `now`. */
  predicate ExpiredAt(e: Decimal, now: int)
  {
    ScaledInstant(e) < now * Pow10(e.scale)
  }

  /** A whole-number expiration has passed exactly when its instant lies before `now`, and is a date when its instant is. */
  lemma ExpiredOfWhole(e: int, now: int)
    ensures ExpiredAt(Decimal(e, 0), now) <==> ExpiryInstant(e) < now
    ensures InDatetimeRange(Decimal(e, 0)) <==> DATETIME_MIN <= ExpiryInstant(e) <= DATETIME_MAX
  {
    assert Pow10(0) == 1;
  }

  /**
   * The whole-number expirations that are dates: from 1060313760 minutes
   * before `SCT_EPOCH` (year 1) below `MINUTES_LIMIT`, and up to second
   * 253402300799 (the last of year 9999) from there on.
   */
  lemma WholeInRange(e: int)
    ensures InDatetimeRange(Decimal(e, 0)) <==>
      if e < MINUTES_LIMIT then -1_060_313_760 <= e else e <= 253_402_300_799
  {
    ExpiredOfWhole(e, 0);
  }

  /** Expiration 1234 is 2017-01-01 20:34; 1500000000 is read as seconds, 2017-07-14 02:40. */
  lemma ExpiryOfExamples()
    ensures ExpiryInstant(1234) == SCT_EPOCH + (20 * 60 + 34) * MICROS_PER_MINUTE
    ensures ExpiryInstant(1_500_000_000) == 1_499_999_400 * MICROS_PER_SECOND + 600 * MICROS_PER_SECOND
  {
  }

  /** The instant of the minute `SctNumericDate(d)` lies within the minute before `d`. */
  lemma MintedExpiry(d: int)
    requires SctNumericDate(d) < MINUTES_LIMIT
    ensures d - MICROS_PER_MINUTE < ExpiryInstant(SctNumericDate(d))
    ensures d >= SCT_EPOCH ==> ExpiryInstant(SctNumericDate(d)) <= d
  {
  }

  // ---------------------------------------------------------------------
  // Tokens.
  // ---------------------------------------------------------------------

  datatype TokenError =
    | MissingLibrary     // "Both library short name and secret must be specified."
    | MissingPatron      // "No patron identifier specified."
    | EmptyToken         // "Cannot decode an empty token."
    | NoPipe             // "... does not contain a pipe."
    | InvalidClientToken // "Invalid client token: ..."
    | UnknownLibrary     // "I don't know how to handle tokens from library ..."
    | NotNumeric         // "Expiration time ... is not numeric."
    | EmptyPatron        // "Token ... has empty patron identifier."
    | DateOutOfRange     // OverflowError: "date value out of range"
    | Expired            // "Token ... expired at ..."
    | InvalidSignature   // "Invalid signature for ..."
    | InvalidPassword    // "Invalid password: ..."

  /** The signer: an HMAC-SHA256 of the message under the key. */
  type Signer = (string, string) -> seq<byte>

  /** A library as the decoder finds it by its short name. */
  datatype Registered = Registered(id: nat, shortName: string, sharedSecret: string)

  type Lookup = string -> Option<Registered>

  /** `_encode`: the three signed parts and the encoded signature, joined by pipes. */
  function EncodeToken(name: string, secret: string, patron: string, expires: nat, sign: Signer): string
  {
    var base := name + "|" + NatToString(expires) + "|" + patron;
    base + "|" + AdobeEncode(sign(secret, base))
  }

  /** `encode` at the instant `now`: the token expires at the end of the next 60 minutes. */
  function Encode(name: Option<string>, secret: Option<string>, patron: Option<string>, now: int, sign: Signer): (r: Result<string, TokenError>)
    ensures r.Err? <==> !Truthy(name) || !Truthy(secret) || !Truthy(patron)
    ensures r.Err? ==> (r.error == MissingLibrary <==> !Truthy(name) || !Truthy(secret))
  {
    if !Truthy(name) || !Truthy(secret) then Err(MissingLibrary)
    else if !Truthy(patron) then Err(MissingPatron)
    else Ok(EncodeToken(name.value, secret.value, patron.value, SctNumericDate(now + LIFETIME), sign))
  }

  /** `token.rsplit('|', 1)`: the text before the last pipe and the text after it. */
  function SplitLast(token: string): (r: (string, string))
    requires HasChar(token, '|')
    ensures token == r.0 + "|" + r.1
    ensures Free(r.1, At('|'))
  {
    CountOfHasChar(token, '|');
    SplitCount(token, '|');
    var parts := Split(token, At('|'));
    var n := |parts|;
    JoinSplit(token, '|');
    JoinAppend(parts[..n - 1], [parts[n - 1]], "|");
    assert parts[..n - 1] + [parts[n - 1]] == parts;
    (Join(parts[..n - 1], "|"), parts[n - 1])
  }

  /** `token.split('|', 2)` on a token with two pipes or more: the patron part may hold more pipes. */
  function Fields(token: string): (r: (string, string, string))
    requires Count(token, '|') >= 2
    ensures token == r.0 + "|" + r.1 + "|" + r.2
    ensures Free(r.0, At('|')) && Free(r.1, At('|'))
  {
    SplitCount(token, '|');
    var parts := Split(token, At('|'));
    JoinSplit(token, '|');
    FieldsJoin(parts);
    (parts[0], parts[1], Join(parts[2..], "|"))
  }

  lemma FieldsJoin(parts: seq<string>)
    requires |parts| >= 3
    ensures Join(parts, "|") == parts[0] + "|" + parts[1] + "|" + Join(parts[2..], "|")
  {
    assert parts[1..][1..] == parts[2..];
    assert Join(parts[1..], "|") == parts[1] + "|" + Join(parts[2..], "|");
  }

  lemma {:induction false} CountOfHasChar(s: string, c: char)
    requires HasChar(s, c)
    ensures Count(s, c) >= 1
    decreases |s|
  {
    if s[0] != c {
      var i :| 0 <= i < |s| && s[i] == c;
      assert s[1..][i - 1] == c;
      CountOfHasChar(s[1..], c);
    }
  }

  /** The three parts `_split_token` gives back. */
  datatype TokenParts = TokenParts(library: Registered, expiration: Decimal, patron: string)

  /** `_split_token`: the library by its upper-cased short name, and a numeric expiration. */
  function SplitToken(token: string, lookup: Lookup): Result<TokenParts, TokenError>
  {
    if Count(token, '|') < 2 then Err(InvalidClientToken)
    else
      var (name, expiration, patron) := Fields(token);
      var library := lookup(Upper(name));
      if library.None? then Err(UnknownLibrary)
      else
        var e := ParseNumber(expiration);
        if e.None? then Err(NotNumeric)
        else Ok(TokenParts(library.value, e.value, patron))
  }

  /**
   * `_decode`: a non-empty patron, an expiration that is a date and still
   * ahead, and the library's own signature, checked in that order.
   */
  function CheckToken(token: string, signature: seq<byte>, now: int, lookup: Lookup, sign: Signer): (r: Result<string, TokenError>)
    ensures SplitToken(token, lookup).Err? ==> r == Err(SplitToken(token, lookup).error)
    ensures SplitToken(token, lookup).Ok? && SplitToken(token, lookup).value.patron == "" ==> r == Err(EmptyPatron)
    ensures r == Err(DateOutOfRange) <==> var parts := SplitToken(token, lookup);
      parts.Ok? && parts.value.patron != "" && !InDatetimeRange(parts.value.expiration)
    ensures r == Err(Expired) <==> var parts := SplitToken(token, lookup);
      parts.Ok? && parts.value.patron != "" && InDatetimeRange(parts.value.expiration)
      && ExpiredAt(parts.value.expiration, now)
    ensures r == Err(InvalidSignature) <==> var parts := SplitToken(token, lookup);
      parts.Ok? && parts.value.patron != "" && InDatetimeRange(parts.value.expiration)
      && !ExpiredAt(parts.value.expiration, now) && sign(parts.value.library.sharedSecret, token) != signature
    ensures var parts := SplitToken(token, lookup);
      parts.Ok? && parts.value.patron != "" && InDatetimeRange(parts.value.expiration)
      && !ExpiredAt(parts.value.expiration, now) && sign(parts.value.library.sharedSecret, token) == signature
      ==> r == Ok(parts.value.patron)
    ensures r.Ok? ==> var parts := SplitToken(token, lookup);
      && parts.Ok?
      && r.value == parts.value.patron != ""
      && InDatetimeRange(parts.value.expiration)
      && !ExpiredAt(parts.value.expiration, now)
      && sign(parts.value.library.sharedSecret, token) == signature
  {
    match SplitToken(token, lookup)
    case Err(e) => Err(e)
    case Ok(parts) =>
      if parts.patron == "" then Err(EmptyPatron)
      else if !InDatetimeRange(parts.expiration) then Err(DateOutOfRange)
      else if ExpiredAt(parts.expiration, now) then Err(Expired)
      else if sign(parts.library.sharedSecret, token) != signature then Err(InvalidSignature)
      else Ok(parts.patron)
  }

  // ---------------------------------------------------------------------
  // Decoding into a delegated identifier.
  // ---------------------------------------------------------------------

  /** What one delegate's `sign_in_standard` did: raised, or gave back an account id (possibly none). */
  datatype DelegateAnswer = Raised | Answered(account: Option<string>)

  /** Where the delegated identifier of a new row comes from: a delegate's account id, or a new UUID. */
  datatype AccountSource = Given(id: string) | Fresh

  /** The row a decoded token asks for, and what to put in it if it is new. */
  datatype Claim = Claim(library: nat, patron: string, source: AccountSource)

  /** The first account id a delegate gave that is not empty. */
  function FirstAccount(answers: seq<DelegateAnswer>): (r: Option<string>)
    ensures r.Some? ==> r.value != "" && Answered(Some(r.value)) in answers
    ensures r.None? ==> forall a | a in answers :: !(a.Answered? && Truthy(a.account))
    decreases |answers|
  {
    if |answers| == 0 then None
    else if answers[0].Answered? && Truthy(answers[0].account) then answers[0].account
    else FirstAccount(answers[1..])
  }

  /** `decode_two_part` up to the database: which row, and what a new row would hold. */
  function ResolveTwoPart(username: string, password: string, answers: seq<DelegateAnswer>, now: int, lookup: Lookup, sign: Signer): Result<Claim, TokenError>
  {
    match SplitToken(username, lookup)
    case Err(e) => Err(e)
    case Ok(parts) =>
      var account := FirstAccount(answers);
      if account.Some? then Ok(Claim(parts.library.id, parts.patron, Given(account.value)))
      else
        var signature := AdobeDecode(password);
        if signature.Err? then Err(InvalidPassword)
        else
          match CheckToken(username, signature.value, now, lookup, sign)
          case Err(e) => Err(e)
          case Ok(patron) => Ok(Claim(parts.library.id, patron, Fresh))
  }

  /** `decode` up to the database. */
  function Resolve(token: string, answers: seq<DelegateAnswer>, now: int, lookup: Lookup, sign: Signer): (r: Result<Claim, TokenError>)
    ensures token == "" ==> r == Err(EmptyToken)
    ensures token != "" && !HasChar(token, '|') ==> r == Err(NoPipe)
  {
    if token == "" then Err(EmptyToken)
    else if !HasChar(token, '|') then Err(NoPipe)
    else
      var (username, password) := SplitLast(token);
      ResolveTwoPart(username, password, answers, now, lookup, sign)
  }

  /** `"urn:uuid:0" + u[1:]`: a UUID with its first digit replaced by 0. */
  function UuidUrn(u: string): (r: string)
    ensures StartsWith(r, "urn:uuid:0")
    ensures |u| >= 1 ==> |r| == |u| + 9 && r[10..] == u[1..]
  {
    "urn:uuid:0" + (if |u| >= 1 then u[1..] else "")
  }

  /** The delegated identifier a new row gets; the UUID is used only for `Fresh`. */
  function NewIdentifier(source: AccountSource, uuid: string): string
  {
    match source
    case Given(id) => id
    case Fresh => UuidUrn(uuid)
  }

  /** The unique key of a delegated patron identifier: its type, library and patron. */
  datatype Key = Key(kind: string, library: nat, patron: string)

  function KeyOf(c: Claim): Key
  {
    Key(ADOBE_ACCOUNT_ID, c.library, c.patron)
  }

  /** The table after a claim: an existing row is kept as it is, a missing one is added. */
  function Claimed(rows: map<Key, string>, c: Claim, uuid: string): (r: map<Key, string>)
    ensures KeyOf(c) in r && r.Keys == rows.Keys + {KeyOf(c)}
    ensures KeyOf(c) in rows ==> r == rows
    ensures forall k | k in rows :: r[k] == rows[k]
  {
    if KeyOf(c) in rows then rows else rows[KeyOf(c) := NewIdentifier(c.source, uuid)]
  }

  /** A second claim of the same row changes nothing and finds the same identifier. */
  lemma ClaimTwice(rows: map<Key, string>, c: Claim, c2: Claim, u1: string, u2: string)
    requires KeyOf(c2) == KeyOf(c)
    ensures Claimed(Claimed(rows, c, u1), c2, u2) == Claimed(rows, c, u1)
  {
  }

  /** The `delegatedpatronidentifiers` table. */
  class DelegatedIdentifiers {
    var rows: map<Key, string>

    constructor()
      ensures rows == map[]
    {
      rows := map[];
    }

    /** `DelegatedPatronIdentifier.get_one_or_create`: the UUID is used only when the row is new. */
    method GetOneOrCreate(library: nat, patron: string, kind: string, source: AccountSource, uuid: string) returns (delegated: string, isNew: bool)
      modifies this
      ensures isNew <==> Key(kind, library, patron) !in old(rows)
      ensures rows == if isNew then old(rows)[Key(kind, library, patron) := NewIdentifier(source, uuid)] else old(rows)
      ensures delegated == rows[Key(kind, library, patron)]
    {
      var key := Key(kind, library, patron);
      isNew := key !in rows;
      if isNew {
        rows := rows[key := NewIdentifier(source, uuid)];
      }
      delegated := rows[key];
    }
  }

  /** The loop over the delegates: the first that gives an account id ends it. */
  method AskDelegates(answers: seq<DelegateAnswer>) returns (account: Option<string>)
    ensures (if Truthy(account) then Some(account.value) else None) == FirstAccount(answers)
  {
    account := None;
    var i := 0;
    while i < |answers|
      invariant 0 <= i <= |answers|
      invariant !Truthy(account) && FirstAccount(answers) == FirstAccount(answers[i..])
      decreases |answers| - i
    {
      assert answers[i..][0] == answers[i] && answers[i..][1..] == answers[i + 1..];
      if answers[i].Answered? {
        account := answers[i].account;
      }
      if Truthy(account) {
        break;
      }
      i := i + 1;
    }
    assert !Truthy(account) ==> answers[i..] == [];
  }

  /** `decode_two_part`: the delegated identifier of the patron the token names. */
  method DecodeTwoPart(store: DelegatedIdentifiers, username: string, password: string, answers: seq<DelegateAnswer>,
                       now: int, lookup: Lookup, sign: Signer, uuid: string)
    returns (r: Result<string, TokenError>)
    modifies store
    ensures var c := ResolveTwoPart(username, password, answers, now, lookup, sign);
      && (c.Err? ==> r == Err(c.error) && store.rows == old(store.rows))
      && (c.Ok? ==> store.rows == Claimed(old(store.rows), c.value, uuid) && r == Ok(store.rows[KeyOf(c.value)]))
  {
    var parts := SplitToken(username, lookup);
    if parts.Err? {
      return Err(parts.error);
    }
    var account := AskDelegates(answers);
    var patron := parts.value.patron;
    var source := Fresh;
    if Truthy(account) {
      source := Given(account.value);
    } else {
      var signature := AdobeDecode(password);
      if signature.Err? {
        return Err(InvalidPassword);
      }
      var checked := CheckToken(username, signature.value, now, lookup, sign);
      if checked.Err? {
        return Err(checked.error);
      }
      patron := checked.value;
    }
    var delegated, _ := store.GetOneOrCreate(parts.value.library.id, patron, ADOBE_ACCOUNT_ID, source, uuid);
    r := Ok(delegated);
  }

  /** `decode`: the empty token and a token without a pipe are refused, the rest split at its last pipe. */
  method Decode(store: DelegatedIdentifiers, token: string, answers: seq<DelegateAnswer>,
                now: int, lookup: Lookup, sign: Signer, uuid: string)
    returns (r: Result<string, TokenError>)
    modifies store
    ensures var c := Resolve(token, answers, now, lookup, sign);
      && (c.Err? ==> r == Err(c.error) && store.rows == old(store.rows))
      && (c.Ok? ==> store.rows == Claimed(old(store.rows), c.value, uuid) && r == Ok(store.rows[KeyOf(c.value)]))
  {
    if token == "" {
      return Err(EmptyToken);
    }
    if !HasChar(token, '|') {
      return Err(NoPipe);
    }
    var (username, password) := SplitLast(token);
    r := DecodeTwoPart(store, username, password, answers, now, lookup, sign, uuid);
  }

  // ---------------------------------------------------------------------
  // A token decodes to the patron it was minted for.
  // ---------------------------------------------------------------------

  /** The signature after the last pipe comes back as the password. */
  lemma SplitLastOfToken(base: string, signature: string)
    requires Free(signature, At('|'))
    ensures HasChar(base + "|" + signature, '|')
    ensures SplitLast(base + "|" + signature) == (base, signature)
  {
    var token := base + "|" + signature;
    assert token[|base|] == '|';
    SplitBeforeFree(base, '|', signature, At('|'));
    JoinSplit(base, '|');
    var parts := Split(token, At('|'));
    assert parts[..|parts| - 1] == Split(base, At('|'));
  }

  lemma {:induction false} SplitBeforeFree(a: string, c: char, b: string, sep: Sep)
    requires Free(b, sep) && Separates(sep, c)
    ensures Split(a + [c] + b, sep) == Split(a, sep) + [b]
    decreases |a|
  {
    if |a| == 0 {
      assert a + [c] + b == [c] + b;
      assert ([c] + b)[1..] == b;
      SplitOfFree(b, sep);
    } else {
      var s := a + [c] + b;
      assert s[1..] == a[1..] + [c] + b;
      SplitBeforeFree(a[1..], c, b, sep);
      var r := Split(a[1..], sep);
      if !Separates(sep, a[0]) {
        assert (r + [b])[1..] == r[1..] + [b];
      }
    }
  }

  /** The fields of the signed part of a token are the name, the expiration and the patron. */
  lemma FieldsOfBase(name: string, digits: string, patron: string)
    requires Free(name, At('|')) && Free(digits, At('|'))
    ensures Count(name + "|" + digits + "|" + patron, '|') >= 2
    ensures Fields(name + "|" + digits + "|" + patron) == (name, digits, patron)
  {
    var base := name + "|" + digits + "|" + patron;
    var rest := digits + "|" + patron;
    assert base == name + ['|'] + rest;
    SplitAfterFree(name, '|', rest, At('|'));
    SplitAfterFree(digits, '|', patron, At('|'));
    var parts := Split(base, At('|'));
    assert parts == [name, digits] + Split(patron, At('|'));
    SplitCount(base, '|');
    JoinSplit(patron, '|');
    assert parts[2..] == Split(patron, At('|'));
  }

  /** The signed part of a fresh token splits into its library, its expiration and its patron. */
  lemma MintedParts(name: string, patron: string, lib: Registered, expires: nat, lookup: Lookup)
    requires Free(name, At('|'))
    requires lookup(Upper(name)).Some? && lookup(Upper(name)).value == lib
    ensures SplitToken(name + "|" + NatToString(expires) + "|" + patron, lookup) == Ok(TokenParts(lib, Decimal(expires, 0), patron))
  {
    NatPipeFree(expires);
    FieldsOfBase(name, NatToString(expires), patron);
    ParseOfNat(expires);
  }

  /** The signed part of a token minted at `t0` passes `_decode` up to 59 minutes later. */
  lemma CheckMinted(name: string, secret: string, patron: string, lib: Registered, expires: nat, base: string,
                    t0: int, now: int, lookup: Lookup, sign: Signer)
    requires patron != "" && Free(name, At('|'))
    requires lookup(Upper(name)).Some? && lookup(Upper(name)).value == lib && lib.sharedSecret == secret
    requires expires == SctNumericDate(t0 + LIFETIME) < MINUTES_LIMIT
    requires base == name + "|" + NatToString(expires) + "|" + patron
    requires now <= t0 + LIFETIME - MICROS_PER_MINUTE
    ensures CheckToken(base, sign(secret, base), now, lookup, sign) == Ok(patron)
  {
    MintedParts(name, patron, lib, expires, lookup);
    MintedExpiry(t0 + LIFETIME);
    ExpiredOfWhole(expires, now);
    WholeInRange(expires);
  }

  /** After its 60 minutes the signed part of the token fails `_decode` as expired. */
  lemma CheckExpired(name: string, secret: string, patron: string, lib: Registered, expires: nat, base: string,
                     t0: int, now: int, lookup: Lookup, sign: Signer)
    requires patron != "" && Free(name, At('|'))
    requires lookup(Upper(name)).Some? && lookup(Upper(name)).value == lib
    requires SCT_EPOCH <= t0 + LIFETIME && expires == SctNumericDate(t0 + LIFETIME) < MINUTES_LIMIT
    requires base == name + "|" + NatToString(expires) + "|" + patron
    requires now > t0 + LIFETIME
    ensures CheckToken(base, sign(secret, base), now, lookup, sign) == Err(Expired)
  {
    MintedParts(name, patron, lib, expires, lookup);
    MintedExpiry(t0 + LIFETIME);
    ExpiredOfWhole(expires, now);
    WholeInRange(expires);
  }

  /** A minted token, split at its last pipe, gives back its signed part and its decodable signature. */
  lemma MintedSplit(name: string, secret: string, patron: string, expires: nat, base: string, sign: Signer)
    requires base == name + "|" + NatToString(expires) + "|" + patron
    ensures HasChar(EncodeToken(name, secret, patron, expires, sign), '|')
    ensures SplitLast(EncodeToken(name, secret, patron, expires, sign)) == (base, AdobeEncode(sign(secret, base)))
    ensures AdobeDecode(AdobeEncode(sign(secret, base))) == Ok(sign(secret, base))
  {
    var signature := sign(secret, base);
    AdobePipeFree(signature);
    SplitLastOfToken(base, AdobeEncode(signature));
    AdobeRoundTrip(signature);
  }

  /**
   * A token `encode` mints at `t0` decodes, up to 59 minutes later and with
   * no delegate answering, to a new identifier for its library and patron.
   */
  lemma TokenRoundTrip(name: string, secret: string, patron: string, lib: Registered,
                       t0: int, now: int, answers: seq<DelegateAnswer>, lookup: Lookup, sign: Signer)
    requires name != "" && secret != "" && patron != "" && Free(name, At('|'))
    requires lookup(Upper(name)).Some? && lookup(Upper(name)).value == lib && lib.sharedSecret == secret
    requires FirstAccount(answers).None?
    requires SctNumericDate(t0 + LIFETIME) < MINUTES_LIMIT
    requires now <= t0 + LIFETIME - MICROS_PER_MINUTE
    ensures Encode(Some(name), Some(secret), Some(patron), t0, sign).Ok?
    ensures Resolve(Encode(Some(name), Some(secret), Some(patron), t0, sign).value, answers, now, lookup, sign)
         == Ok(Claim(lib.id, patron, Fresh))
  {
    var expires := SctNumericDate(t0 + LIFETIME);
    var base := name + "|" + NatToString(expires) + "|" + patron;
    var token := EncodeToken(name, secret, patron, expires, sign);
    var signature := sign(secret, base);
    assert Encode(Some(name), Some(secret), Some(patron), t0, sign) == Ok(token);
    MintedSplit(name, secret, patron, expires, base, sign);
    assert Resolve(token, answers, now, lookup, sign) == ResolveTwoPart(base, AdobeEncode(signature), answers, now, lookup, sign) by {
      assert token[|base|] == '|';
    }
    MintedParts(name, patron, lib, expires, lookup);
    CheckMinted(name, secret, patron, lib, expires, base, t0, now, lookup, sign);
  }

  /** Past its 60 minutes, with no delegate answering, the same token is refused as expired. */
  lemma TokenExpires(name: string, secret: string, patron: string, lib: Registered,
                     t0: int, now: int, answers: seq<DelegateAnswer>, lookup: Lookup, sign: Signer)
    requires name != "" && secret != "" && patron != "" && Free(name, At('|'))
    requires lookup(Upper(name)).Some? && lookup(Upper(name)).value == lib && lib.sharedSecret == secret
    requires FirstAccount(answers).None?
    requires SCT_EPOCH <= t0 + LIFETIME && SctNumericDate(t0 + LIFETIME) < MINUTES_LIMIT
    requires now > t0 + LIFETIME
    ensures Encode(Some(name), Some(secret), Some(patron), t0, sign).Ok?
    ensures Resolve(Encode(Some(name), Some(secret), Some(patron), t0, sign).value, answers, now, lookup, sign)
         == Err(Expired)
  {
    var expires := SctNumericDate(t0 + LIFETIME);
    var base := name + "|" + NatToString(expires) + "|" + patron;
    var token := EncodeToken(name, secret, patron, expires, sign);
    var signature := sign(secret, base);
    assert Encode(Some(name), Some(secret), Some(patron), t0, sign) == Ok(token);
    MintedSplit(name, secret, patron, expires, base, sign);
    assert Resolve(token, answers, now, lookup, sign) == ResolveTwoPart(base, AdobeEncode(signature), answers, now, lookup, sign) by {
      assert token[|base|] == '|';
    }
    MintedParts(name, patron, lib, expires, lookup);
    CheckExpired(name, secret, patron, lib, expires, base, t0, now, lookup, sign);
  }
}
