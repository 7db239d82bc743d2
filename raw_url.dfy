/**
 * PHP's `rawurlencode`: percent-encoding as in section 2.1 of RFC 3986, where every
 * byte outside the unreserved set of section 2.3 becomes `%` and two upper-case
 * hexadecimal digits; and the strict decoding that inverts it.
 */
module RawUrl {
  import opened Wrappers

  /** A character standing for one byte of a PHP string. */
  type ByteChar = c: char | c as int < 256 witness 'a'

  /** ALPHA / DIGIT / "-" / "." / "_" / "~" (section 2.3 of RFC 3986). */
  predicate IsUnreserved(c: char) {
    ('A' <= c <= 'Z') || ('a' <= c <= 'z') || ('0' <= c <= '9') || c == '-' || c == '.' || c == '_' || c == '~'
  }

  predicate IsUpperHex(c: char) {
    ('0' <= c <= '9') || ('A' <= c <= 'F')
  }

  function HexDigit(n: nat): (c: char)
    requires n < 16
    ensures IsUpperHex(c)
  {
    if n < 10 then (('0' as int) + n) as char else (('A' as int) + n - 10) as char
  }

  function HexValue(c: char): (n: nat)
    requires IsUpperHex(c)
    ensures n < 16 && HexDigit(n) == c
  {
    if c <= '9' then (c as int) - ('0' as int) else (c as int) - ('A' as int) + 10
  }

  lemma HexRoundTrip(n: nat)
    requires n < 16
    ensures HexValue(HexDigit(n)) == n
  {
  }

  /** The byte written by the digits `hi` and `lo`. */
  function ByteOf(hi: char, lo: char): ByteChar
    requires IsUpperHex(hi) && IsUpperHex(lo)
  {
    (HexValue(hi) * 16 + HexValue(lo)) as char
  }

  function EncodeByte(c: ByteChar): string {
    if IsUnreserved(c) then [c] else ['%', HexDigit(c as int / 16), HexDigit(c as int % 16)]
  }

  /** `rawurlencode(s)` */
  function Encode(s: seq<ByteChar>): string {
    if s == [] then "" else EncodeByte(s[0]) + Encode(s[1..])
  }

  /**
   * Reads a canonical encoding back: unreserved characters stand for themselves and
   * `%XX` (upper-case hexadecimal, of a byte that is not unreserved) for the byte `XX`;
   * anything else is refused.
   */
  function Decode(t: string): Option<seq<ByteChar>>
    decreases |t|
  {
    if t == [] then Some([])
    else if IsUnreserved(t[0]) then
      match Decode(t[1..])
      case Some(rest) => Some([t[0] as ByteChar] + rest)
      case None => None
    else if |t| >= 3 && t[0] == '%' && IsUpperHex(t[1]) && IsUpperHex(t[2]) && !IsUnreserved(ByteOf(t[1], t[2])) then
      match Decode(t[3..])
      case Some(rest) => Some([ByteOf(t[1], t[2])] + rest)
      case None => None
    else None
  }

  /** Decoding the encoding of any byte string gives the byte string back. */
  lemma {:induction false} DecodeEncode(s: seq<ByteChar>)
    ensures Decode(Encode(s)) == Some(s)
  {
    if s != [] {
      var c := s[0];
      var t := Encode(s);
      DecodeEncode(s[1..]);
      if IsUnreserved(c) {
        assert t[0] == c && t[1..] == Encode(s[1..]);
        assert Decode(t) == Some([c] + s[1..]);
        assert s == [c] + s[1..];
      } else {
        assert t[3..] == Encode(s[1..]);
        assert t[0] == '%' && t[1] == HexDigit(c as int / 16) && t[2] == HexDigit(c as int % 16);
        HexRoundTrip(c as int / 16);
        HexRoundTrip(c as int % 16);
        assert ByteOf(t[1], t[2]) == c;
        assert !IsUnreserved(t[0]);
        assert Decode(t[3..]) == Some(s[1..]);
        assert Decode(t) == Some([c] + s[1..]);
        assert s == [c] + s[1..];
      }
    }
  }

  lemma ByteOfDigits(hi: char, lo: char)
    requires IsUpperHex(hi) && IsUpperHex(lo)
    ensures var b := ByteOf(hi, lo); HexDigit(b as int / 16) == hi && HexDigit(b as int % 16) == lo
  {
    var h, l := HexValue(hi), HexValue(lo);
    assert (ByteOf(hi, lo) as int) == h * 16 + l;
    assert (h * 16 + l) / 16 == h && (h * 16 + l) % 16 == l;
  }

  /** Every string the decoder accepts is the encoding of what it decodes to. */
  lemma {:induction false} EncodeDecode(t: string)
    requires Decode(t).Some?
    ensures Encode(Decode(t).value) == t
    decreases |t|
  {
    if t != [] {
      var s := Decode(t).value;
      if IsUnreserved(t[0]) {
        var rest := Decode(t[1..]).value;
        assert s == [t[0] as ByteChar] + rest;
        EncodeDecode(t[1..]);
        assert Encode(s) == EncodeByte(s[0]) + Encode(rest) by {
          assert s[1..] == rest;
        }
        assert t == [t[0]] + t[1..];
      } else {
        var rest := Decode(t[3..]).value;
        var b := ByteOf(t[1], t[2]);
        assert s == [b] + rest;
        EncodeDecode(t[3..]);
        assert Encode(s) == EncodeByte(b) + Encode(rest) by {
          assert s[1..] == rest;
        }
        ByteOfDigits(t[1], t[2]);
        assert EncodeByte(b) == t[..3];
        assert t == t[..3] + t[3..];
      }
    }
  }

  /** The encoding is made only of unreserved characters, `%` and upper-case hexadecimal digits. */
  lemma {:induction false} EncodeAlphabet(s: seq<ByteChar>)
    ensures forall i | 0 <= i < |Encode(s)| ::
      IsUnreserved(Encode(s)[i]) || Encode(s)[i] == '%' || IsUpperHex(Encode(s)[i])
  {
    if s != [] {
      EncodeAlphabet(s[1..]);
      var head := EncodeByte(s[0]);
      assert Encode(s) == head + Encode(s[1..]);
    }
  }

  /** Distinct byte strings have distinct encodings. */
  lemma EncodeInjective(s: seq<ByteChar>, s': seq<ByteChar>)
    ensures Encode(s) == Encode(s') <==> s == s'
  {
    DecodeEncode(s);
    DecodeEncode(s');
  }

  /** Encoding works byte by byte, so it distributes over concatenation. */
  lemma {:induction false} EncodeConcat(a: seq<ByteChar>, b: seq<ByteChar>)
    ensures Encode(a + b) == Encode(a) + Encode(b)
  {
    if a != [] {
      assert (a + b)[1..] == a[1..] + b;
      EncodeConcat(a[1..], b);
    } else {
      assert a + b == b;
    }
  }

  /** A string of unreserved characters is its own encoding. */
  lemma {:induction false} EncodeUnreserved(s: seq<ByteChar>)
    requires forall i | 0 <= i < |s| :: IsUnreserved(s[i])
    ensures Encode(s) == s
  {
    if s != [] {
      EncodeUnreserved(s[1..]);
      assert s == [s[0]] + s[1..];
    }
  }

  lemma EncodeOneByte(c: ByteChar)
    ensures Encode([c]) == EncodeByte(c)
  {
    assert [c][1..] == [];
  }

  /** Two unreserved runs, each followed by one byte: only those two bytes can change. */
  lemma EncodeRuns(a: seq<ByteChar>, x: ByteChar, c: seq<ByteChar>, y: ByteChar)
    requires forall i | 0 <= i < |a| :: IsUnreserved(a[i])
    requires forall i | 0 <= i < |c| :: IsUnreserved(c[i])
    ensures Encode(a + [x] + c + [y]) == a + EncodeByte(x) + c + EncodeByte(y)
  {
    EncodeUnreserved(a);
    EncodeUnreserved(c);
    EncodeOneByte(x);
    EncodeOneByte(y);
    EncodeConcat(a, [x]);
    EncodeConcat(a + [x], c);
    EncodeConcat(a + [x] + c, [y]);
  }

  /** The worked example: a space and a double quote are escaped, letters are kept. */
  lemma EncodeExample(s: seq<ByteChar>)
    requires s == "new Value\""
    ensures Encode(s) == "new%20Value%22"
  {
    var a, c := s[..3], s[4..9];
    assert s == a + [s[3]] + c + [s[9]];
    EncodeRuns(a, s[3], c, s[9]);
    assert a == "new" && c == "Value";
    assert EncodeByte(s[3]) == "%20" && EncodeByte(s[9]) == "%22";
  }
}
