/**
 * Base64 as the short client token code uses it: the alphabet of section 4
 * of RFC 4648, `base64.encodebytes` (the MIME form of section 6.8 of
 * RFC 2045: lines of at most 76 characters, each ended by a newline) and
 * `base64.decodebytes`, which skips every character outside the alphabet
 * and stops at the padding.
 */
module Base64 {
  import opened Wrappers

  type byte = x: int | 0 <= x < 256

  /** The 64 characters of the alphabet of section 4 of RFC 4648, in value order. */
  const ALPHABET: string := "ABCDEFGHIJKLMNOPQRSTUVWXYZabcdefghijklmnopqrstuvwxyz0123456789+/"

  const PAD: char := '='

  /** `MAXBINSIZE`: the input bytes encoded on one line of 76 characters. */
  const LINE_BYTES: nat := 57

  predicate InAlphabet(c: char)
  {
    'A' <= c <= 'Z' || 'a' <= c <= 'z' || '0' <= c <= '9' || c == '+' || c == '/'
  }

  function Char(v: nat): char
    requires v < 64
  {
    if v < 26 then ('A' as int + v) as char
    else if v < 52 then ('a' as int + v - 26) as char
    else if v < 62 then ('0' as int + v - 52) as char
    else if v == 62 then '+'
    else '/'
  }

  function Value(c: char): (v: nat)
    requires InAlphabet(c)
    ensures v < 64
  {
    if 'A' <= c <= 'Z' then c as int - 'A' as int
    else if 'a' <= c <= 'z' then c as int - 'a' as int + 26
    else if '0' <= c <= '9' then c as int - '0' as int + 52
    else if c == '+' then 62
    else 63
  }

  lemma CharValue(v: nat)
    requires v < 64
    ensures InAlphabet(Char(v)) && Value(Char(v)) == v
  {
  }

  /** Three bytes as four characters. */
  function Quad(b0: byte, b1: byte, b2: byte): (r: string)
  {
    [Char(b0 / 4), Char((b0 % 4) * 16 + b1 / 16), Char((b1 % 16) * 4 + b2 / 64), Char(b2 % 64)]
  }

  /** `binascii.b2a_base64` without its newline: groups of three bytes, the last one padded. */
  function Encode(bs: seq<byte>): (r: string)
    decreases |bs|
  {
    if |bs| == 0 then ""
    else if |bs| == 1 then [Char(bs[0] / 4), Char((bs[0] % 4) * 16), PAD, PAD]
    else if |bs| == 2 then [Char(bs[0] / 4), Char((bs[0] % 4) * 16 + bs[1] / 16), Char((bs[1] % 16) * 4), PAD]
    else Quad(bs[0], bs[1], bs[2]) + Encode(bs[3..])
  }

  /** `base64.encodebytes`: the input in pieces of 57 bytes, each encoded on a line of its own. */
  function EncodeLines(bs: seq<byte>): string
    decreases |bs|
  {
    if |bs| == 0 then ""
    else if |bs| <= LINE_BYTES then Encode(bs) + "\n"
    else Encode(bs[..LINE_BYTES]) + "\n" + EncodeLines(bs[LINE_BYTES..])
  }

  /** The decoder's place in a group of four characters, the bits left over, and the pad characters seen. */
  datatype Reader = Reader(quad: nat, left: nat, pads: nat)

  const START := Reader(0, 0, 0)

  predicate Sound(st: Reader)
  {
    st.quad < 4 && st.left < (if st.quad == 0 then 1 else if st.quad == 1 then 64 else if st.quad == 2 then 16 else 4)
  }

  /** A byte already decoded, followed by what the rest of the input decodes to. */
  function Then(b: byte, r: Result<seq<byte>, string>): Result<seq<byte>, string>
  {
    if r.Ok? then Ok([b] + r.value) else r
  }

  const ONE_EXTRA_CHARACTER := "Invalid base64-encoded string: number of data characters cannot be 1 more than a multiple of 4"
  const INCORRECT_PADDING := "Incorrect padding"

  /**
   * `binascii.a2b_base64` in its lenient mode: characters outside the
   * alphabet are skipped, a pad that completes a group ends the input, and
   * an unfinished group at the end is an error.
   */
  function Decode(s: string, st: Reader): (r: Result<seq<byte>, string>)
    requires Sound(st)
    decreases |s|
  {
    if |s| == 0 then
      if st.quad == 0 then Ok([])
      else if st.quad == 1 then Err(ONE_EXTRA_CHARACTER)
      else Err(INCORRECT_PADDING)
    else if s[0] == PAD then
      if st.quad >= 2 && st.quad + st.pads + 1 >= 4 then Ok([])
      else Decode(s[1..], if st.quad >= 2 then st.(pads := st.pads + 1) else st)
    else if !InAlphabet(s[0]) then Decode(s[1..], st)
    else
      var v := Value(s[0]);
      if st.quad == 0 then Decode(s[1..], Reader(1, v, 0))
      else if st.quad == 1 then Then(st.left * 4 + v / 16, Decode(s[1..], Reader(2, v % 16, 0)))
      else if st.quad == 2 then Then(st.left * 16 + v / 4, Decode(s[1..], Reader(3, v % 4, 0)))
      else Then(st.left * 64 + v, Decode(s[1..], START))
  }

  /** `base64.decodebytes`. */
  function DecodeBytes(s: string): Result<seq<byte>, string>
  {
    Decode(s, START)
  }

  // ---------------------------------------------------------------------
  // The round trip.
  // ---------------------------------------------------------------------

  /** The characters of an encoding: the alphabet, and pads only in the last group. */
  lemma {:induction false} EncodeChars(bs: seq<byte>)
    ensures forall i | 0 <= i < |Encode(bs)| :: InAlphabet(Encode(bs)[i]) || Encode(bs)[i] == PAD
    ensures |bs| > 0 ==> InAlphabet(Encode(bs)[0])
    decreases |bs|
  {
    if |bs| >= 3 {
      EncodeChars(bs[3..]);
      var q, rest := Quad(bs[0], bs[1], bs[2]), Encode(bs[3..]);
      assert Encode(bs) == q + rest;
      forall i | 0 <= i < |q + rest| ensures InAlphabet((q + rest)[i]) || (q + rest)[i] == PAD {
        if i >= 4 { assert (q + rest)[i] == rest[i - 4]; }
      }
    }
  }

  /** Skipping a character outside the alphabet at the end changes nothing. */
  lemma {:induction false} TrailingSkipped(s: string, c: char, st: Reader)
    requires Sound(st) && c != PAD && !InAlphabet(c)
    ensures Decode(s + [c], st) == Decode(s, st)
    decreases |s|
  {
    if |s| == 0 {
      assert ([] + [c])[1..] == [];
    } else {
      assert (s + [c])[0] == s[0] && (s + [c])[1..] == s[1..] + [c];
      if s[0] == PAD {
        TrailingSkipped(s[1..], c, if st.quad >= 2 then st.(pads := st.pads + 1) else st);
      } else if !InAlphabet(s[0]) {
        TrailingSkipped(s[1..], c, st);
      } else {
        var v := Value(s[0]);
        var next := if st.quad == 0 then Reader(1, v, 0) else if st.quad == 1 then Reader(2, v % 16, 0)
                    else if st.quad == 2 then Reader(3, v % 4, 0) else START;
        TrailingSkipped(s[1..], c, next);
      }
    }
  }

  /** A newline at the head of the input is skipped. */
  lemma LeadingNewline(s: string)
    ensures Decode("\n" + s, START) == Decode(s, START)
  {
    assert ("\n" + s)[0] == '\n' && ("\n" + s)[1..] == s;
  }

  /** The bytes `bs` already decoded, followed by what the rest of the input decodes to. */
  function Prefixed(bs: seq<byte>, r: Result<seq<byte>, string>): Result<seq<byte>, string>
  {
    if r.Ok? then Ok(bs + r.value) else r
  }

  lemma PrefixedThen(b0: byte, b1: byte, b2: byte, r: Result<seq<byte>, string>)
    ensures Then(b0, Then(b1, Then(b2, r))) == Prefixed([b0, b1, b2], r)
  {
    if r.Ok? {
      assert [b0] + ([b1] + ([b2] + r.value)) == [b0, b1, b2] + r.value;
    }
  }

  lemma PrefixedPrefixed(a: seq<byte>, b: seq<byte>, r: Result<seq<byte>, string>)
    ensures Prefixed(a, Prefixed(b, r)) == Prefixed(a + b, r)
  {
    if r.Ok? {
      assert a + (b + r.value) == (a + b) + r.value;
    }
  }

  // One character read in each state of the reader.

  lemma ReadFirst(c: char, s: string)
    requires InAlphabet(c)
    ensures Decode([c] + s, START) == Decode(s, Reader(1, Value(c), 0))
  {
    assert ([c] + s)[0] == c && ([c] + s)[1..] == s;
  }

  lemma ReadSecond(c: char, s: string, left: nat, b: byte)
    requires InAlphabet(c) && left < 64 && b == left * 4 + Value(c) / 16
    ensures Decode([c] + s, Reader(1, left, 0)) == Then(b, Decode(s, Reader(2, Value(c) % 16, 0)))
  {
    assert ([c] + s)[0] == c && ([c] + s)[1..] == s;
  }

  lemma ReadThird(c: char, s: string, left: nat, b: byte)
    requires InAlphabet(c) && left < 16 && b == left * 16 + Value(c) / 4
    ensures Decode([c] + s, Reader(2, left, 0)) == Then(b, Decode(s, Reader(3, Value(c) % 4, 0)))
  {
    assert ([c] + s)[0] == c && ([c] + s)[1..] == s;
  }

  lemma ReadFourth(c: char, s: string, left: nat, b: byte)
    requires InAlphabet(c) && left < 4 && b == left * 64 + Value(c)
    ensures Decode([c] + s, Reader(3, left, 0)) == Then(b, Decode(s, START))
  {
    assert ([c] + s)[0] == c && ([c] + s)[1..] == s;
  }

  lemma ReadPad(s: string, st: Reader)
    requires Sound(st) && st.quad >= 2
    ensures Decode([PAD] + s, st)
         == if st.quad + st.pads + 1 >= 4 then Ok([]) else Decode(s, st.(pads := st.pads + 1))
  {
    assert ([PAD] + s)[0] == PAD && ([PAD] + s)[1..] == s;
  }

  /** The arithmetic of a group: the four 6-bit values give back the three bytes. */
  lemma GroupArithmetic(b0: byte, b1: byte, b2: byte)
    ensures (b0 / 4) * 4 + ((b0 % 4) * 16 + b1 / 16) / 16 == b0
    ensures ((b0 % 4) * 16 + b1 / 16) % 16 == b1 / 16
    ensures (b1 / 16) * 16 + ((b1 % 16) * 4 + b2 / 64) / 4 == b1
    ensures ((b1 % 16) * 4 + b2 / 64) % 4 == b2 / 64
    ensures (b2 / 64) * 64 + b2 % 64 == b2
  {
  }

  /** Four characters of the alphabet whose values spell three bytes decode to them. */
  lemma GroupDecodes(c0: char, c1: char, c2: char, c3: char, b0: byte, b1: byte, b2: byte, rest: string)
    requires InAlphabet(c0) && InAlphabet(c1) && InAlphabet(c2) && InAlphabet(c3)
    requires Value(c0) * 4 + Value(c1) / 16 == b0
    requires (Value(c1) % 16) * 16 + Value(c2) / 4 == b1
    requires (Value(c2) % 4) * 64 + Value(c3) == b2
    ensures Decode([c0] + ([c1] + ([c2] + ([c3] + rest))), START) == Prefixed([b0, b1, b2], Decode(rest, START))
  {
    var s3 := [c3] + rest;
    var s2 := [c2] + s3;
    var s1 := [c1] + s2;
    var after := Decode(rest, START);
    ReadFourth(c3, rest, Value(c2) % 4, b2);
    assert Decode(s3, Reader(3, Value(c2) % 4, 0)) == Then(b2, after);
    ReadThird(c2, s3, Value(c1) % 16, b1);
    assert Decode(s2, Reader(2, Value(c1) % 16, 0)) == Then(b1, Then(b2, after));
    ReadSecond(c1, s2, Value(c0), b0);
    assert Decode(s1, Reader(1, Value(c0), 0)) == Then(b0, Then(b1, Then(b2, after)));
    ReadFirst(c0, s1);
    PrefixedThen(b0, b1, b2, after);
  }

  /** One group of three bytes decodes back, and the reader is at the start of a group again. */
  lemma QuadDecodes(b0: byte, b1: byte, b2: byte, rest: string)
    ensures Decode(Quad(b0, b1, b2) + rest, START) == Prefixed([b0, b1, b2], Decode(rest, START))
  {
    var v0, v1, v2, v3 := b0 / 4, (b0 % 4) * 16 + b1 / 16, (b1 % 16) * 4 + b2 / 64, b2 % 64;
    QuadSpelled(b0, b1, b2, rest);
    CharValue(v0); CharValue(v1); CharValue(v2); CharValue(v3);
    GroupArithmetic(b0, b1, b2);
    GroupDecodes(Char(v0), Char(v1), Char(v2), Char(v3), b0, b1, b2, rest);
  }

  lemma QuadSpelled(b0: byte, b1: byte, b2: byte, rest: string)
    ensures Quad(b0, b1, b2) + rest
         == [Char(b0 / 4)] + ([Char((b0 % 4) * 16 + b1 / 16)] + ([Char((b1 % 16) * 4 + b2 / 64)] + ([Char(b2 % 64)] + rest)))
  {
  }

  /** The last group: one byte and two pads. */
  lemma OneByteDecodes(b0: byte, rest: string)
    ensures Decode(Encode([b0]) + rest, START) == Ok([b0])
  {
    var v0, v1 := b0 / 4, (b0 % 4) * 16;
    var c0, c1 := Char(v0), Char(v1);
    assert Encode([b0]) + rest == [c0] + ([c1] + ([PAD] + ([PAD] + rest)));
    CharValue(v0); CharValue(v1);
    GroupArithmetic(b0, 0, 0);
    ReadFirst(c0, [c1] + ([PAD] + ([PAD] + rest)));
    ReadSecond(c1, [PAD] + ([PAD] + rest), v0, b0);
    ReadPad([PAD] + rest, Reader(2, 0, 0));
    ReadPad(rest, Reader(2, 0, 1));
    assert [b0] + [] == [b0];
  }

  /** The last group: two bytes and one pad. */
  lemma TwoBytesDecode(b0: byte, b1: byte, rest: string)
    ensures Decode(Encode([b0, b1]) + rest, START) == Ok([b0, b1])
  {
    var v0, v1, v2 := b0 / 4, (b0 % 4) * 16 + b1 / 16, (b1 % 16) * 4;
    var c0, c1, c2 := Char(v0), Char(v1), Char(v2);
    assert Encode([b0, b1]) + rest == [c0] + ([c1] + ([c2] + ([PAD] + rest)));
    CharValue(v0); CharValue(v1); CharValue(v2);
    GroupArithmetic(b0, b1, 0);
    ReadFirst(c0, [c1] + ([c2] + ([PAD] + rest)));
    ReadSecond(c1, [c2] + ([PAD] + rest), v0, b0);
    ReadThird(c2, [PAD] + rest, b1 / 16, b1);
    ReadPad(rest, Reader(3, 0, 0));
    assert [b0] + ([b1] + []) == [b0, b1];
  }

  lemma EncodeGroups(bs: seq<byte>)
    requires |bs| >= 3
    ensures Encode(bs) == Quad(bs[0], bs[1], bs[2]) + Encode(bs[3..])
  {
  }

  lemma FirstThree(bs: seq<byte>)
    requires |bs| >= 3
    ensures [bs[0], bs[1], bs[2]] + bs[3..] == bs
  {
  }

  lemma Associative<T>(a: seq<T>, b: seq<T>, c: seq<T>)
    ensures (a + b) + c == a + (b + c)
  {
  }

  lemma WholeGroups(n: nat)
    requires n % 3 == 0 && n > 0
    ensures n >= 3 && (n - 3) % 3 == 0
  {
  }

  /** An encoding decodes back to its bytes, whatever follows it, when what follows decodes to nothing. */
  lemma {:induction false} EncodeDecodes(bs: seq<byte>, rest: string)
    requires Decode(rest, START) == Ok([])
    ensures Decode(Encode(bs) + rest, START) == Ok(bs)
    decreases |bs|
  {
    if |bs| == 1 {
      OneByteDecodes(bs[0], rest);
      assert [bs[0]] == bs;
    } else if |bs| == 2 {
      TwoBytesDecode(bs[0], bs[1], rest);
      assert [bs[0], bs[1]] == bs;
    } else if |bs| >= 3 {
      var tail := Encode(bs[3..]) + rest;
      EncodeDecodes(bs[3..], rest);
      EncodeGroups(bs);
      Associative(Quad(bs[0], bs[1], bs[2]), Encode(bs[3..]), rest);
      QuadDecodes(bs[0], bs[1], bs[2], tail);
      FirstThree(bs);
    } else {
      assert Encode(bs) + rest == rest;
    }
  }

  /** Whole groups hold no pad, so decoding goes on after them. */
  lemma {:induction false} FullGroupsDecode(bs: seq<byte>, rest: string)
    requires |bs| % 3 == 0
    ensures Decode(Encode(bs) + rest, START) == Prefixed(bs, Decode(rest, START))
    decreases |bs|
  {
    if |bs| == 0 {
      assert Encode(bs) + rest == rest;
      if Decode(rest, START).Ok? {
        assert bs + Decode(rest, START).value == Decode(rest, START).value;
      }
    } else {
      WholeGroups(|bs|);
      var tail := Encode(bs[3..]) + rest;
      FullGroupsDecode(bs[3..], rest);
      EncodeGroups(bs);
      Associative(Quad(bs[0], bs[1], bs[2]), Encode(bs[3..]), rest);
      QuadDecodes(bs[0], bs[1], bs[2], tail);
      PrefixedPrefixed([bs[0], bs[1], bs[2]], bs[3..], Decode(rest, START));
      FirstThree(bs);
    }
  }

  /** `decodebytes(encodebytes(x)) == x`. */
  lemma {:induction false} LinesDecode(bs: seq<byte>)
    ensures DecodeBytes(EncodeLines(bs)) == Ok(bs)
    decreases |bs|
  {
    if |bs| == 0 {
    } else if |bs| <= LINE_BYTES {
      assert Decode("\n", START) == Ok([]);
      EncodeDecodes(bs, "\n");
    } else {
      var head, tail := bs[..LINE_BYTES], bs[LINE_BYTES..];
      LinesDecode(tail);
      LeadingNewline(EncodeLines(tail));
      LongLines(bs);
      assert |head| % 3 == 0 by { assert |head| == 57; }
      FullGroupsDecode(head, "\n" + EncodeLines(tail));
    }
  }

  lemma LongLines(bs: seq<byte>)
    requires |bs| > LINE_BYTES
    ensures EncodeLines(bs) == Encode(bs[..LINE_BYTES]) + ("\n" + EncodeLines(bs[LINE_BYTES..]))
    ensures bs[..LINE_BYTES] + bs[LINE_BYTES..] == bs
  {
    Associative(Encode(bs[..LINE_BYTES]), "\n", EncodeLines(bs[LINE_BYTES..]));
  }

  /** The characters of `encodebytes`: the alphabet, pads and newlines, starting with a letter of the alphabet. */
  lemma {:induction false} LinesChars(bs: seq<byte>)
    ensures var e := EncodeLines(bs);
      && (forall i | 0 <= i < |e| :: InAlphabet(e[i]) || e[i] == PAD || e[i] == '\n')
      && (|bs| > 0 ==> |e| >= 5 && InAlphabet(e[0]) && e[|e| - 1] == '\n' && e[|e| - 2] != '\n')
    decreases |bs|
  {
    if |bs| > 0 {
      var head := if |bs| <= LINE_BYTES then bs else bs[..LINE_BYTES];
      var tail := if |bs| <= LINE_BYTES then [] else bs[LINE_BYTES..];
      EncodeChars(head);
      LinesChars(tail);
      var a, b := Encode(head), EncodeLines(tail);
      assert EncodeLines(bs) == a + "\n" + b;
      var e := a + "\n" + b;
      forall i | 0 <= i < |e| ensures InAlphabet(e[i]) || e[i] == PAD || e[i] == '\n' {
        if i < |a| { assert e[i] == a[i]; }
        else if i > |a| { assert e[i] == b[i - |a| - 1]; }
      }
      assert e[0] == a[0];
      if |tail| == 0 {
        assert e[|e| - 2] == a[|a| - 1];
      } else {
        assert e[|e| - 1] == b[|b| - 1] && e[|e| - 2] == b[|b| - 2];
      }
    }
  }

  /** Every started group of three bytes takes four characters. */
  lemma {:induction false} EncodeLength(bs: seq<byte>)
    ensures |Encode(bs)| == 4 * ((|bs| + 2) / 3)
    decreases |bs|
  {
    if |bs| >= 3 {
      EncodeLength(bs[3..]);
      EncodeGroups(bs);
    }
  }

  /** A line of at most 57 bytes is a single line. */
  lemma ShortInputOneLine(bs: seq<byte>)
    requires 0 < |bs| <= LINE_BYTES
    ensures EncodeLines(bs) == Encode(bs) + "\n"
    ensures forall i | 0 <= i < |Encode(bs)| :: Encode(bs)[i] != '\n'
  {
    EncodeChars(bs);
  }
}
