/**
 * String operations of the Python 2 runtime that the provider relies on:
 * `str.replace`, `str.endswith`, `str()` of an integer and
 * `unicode.encode('utf-8')`. `Join` is not a call the provider makes: it is
 * the closed form in which the model states how the search path and the
 * `&`-separated query string are assembled.
 *
 * A Python 2 byte string is a `string` all of whose characters are below 256.
 */
module Text {

  predicate IsByteString(s: string) {
    forall i :: 0 <= i < |s| ==> s[i] as int < 256
  }

  lemma ByteStringConcat(a: string, b: string)
    requires IsByteString(a) && IsByteString(b)
    ensures IsByteString(a + b)
  {
    assert forall i :: 0 <= i < |a + b| ==> (a + b)[i] == if i < |a| then a[i] else b[i - |a|];
  }

  lemma ByteStringTail(s: string)
    requires |s| > 0 && IsByteString(s)
    ensures IsByteString(s[1..])
  {
    assert forall i :: 0 <= i < |s| - 1 ==> s[1..][i] == s[i + 1];
  }

  /** A character absent from both parts is absent from their concatenation. */
  lemma AvoidsConcat(a: string, b: string, c: char)
    requires forall i :: 0 <= i < |a| ==> a[i] != c
    requires forall i :: 0 <= i < |b| ==> b[i] != c
    ensures forall i :: 0 <= i < |a + b| ==> (a + b)[i] != c
  {
    assert forall i :: 0 <= i < |a + b| ==> (a + b)[i] == if i < |a| then a[i] else b[i - |a|];
  }

  predicate IsAscii(s: string) {
    forall i :: 0 <= i < |s| ==> s[i] as int < 128
  }

  predicate StartsWith(s: string, prefix: string) {
    |prefix| <= |s| && s[..|prefix|] == prefix
  }

  /** A string extended by `x` starts with the original, and equals it exactly when `x` is empty. */
  lemma PrefixExtends(p: string, x: string)
    ensures StartsWith(p + x, p)
    ensures p + x == p <==> x == ""
  {
    assert (p + x)[..|p|] == p;
  }

  /** Extending a string keeps its prefixes. */
  lemma StartsWithAppend(a: string, p: string, b: string)
    requires StartsWith(a, p)
    ensures StartsWith(a + b, p)
  {
    assert (a + b)[..|p|] == a[..|p|];
  }

  predicate EndsWith(s: string, suffix: string) {
    |suffix| <= |s| && s[|s| - |suffix|..] == suffix
  }

  /** `pat` occurs in `s` at index `i`. */
  predicate OccursAt(s: string, pat: string, i: int) {
    0 <= i <= |s| - |pat| && s[i..i + |pat|] == pat
  }

  /** `pat` occurs somewhere in `s`. */
  predicate Contains(s: string, pat: string) {
    exists i :: 0 <= i <= |s| && OccursAt(s, pat, i)
  }

  /** `pat` occurs in a non-empty `s` exactly when `s` starts with it or its tail contains it. */
  lemma ContainsStep(s: string, pat: string)
    requires |s| > 0
    ensures Contains(s, pat) <==> StartsWith(s, pat) || Contains(s[1..], pat)
  {
    if StartsWith(s, pat) {
      assert OccursAt(s, pat, 0);
    }
    if Contains(s[1..], pat) {
      var i :| 0 <= i <= |s[1..]| && OccursAt(s[1..], pat, i);
      assert s[1..][i..i + |pat|] == s[i + 1..i + 1 + |pat|];
      assert OccursAt(s, pat, i + 1);
    }
    if Contains(s, pat) && !StartsWith(s, pat) {
      var i :| 0 <= i <= |s| && OccursAt(s, pat, i);
      assert i > 0;
      assert s[1..][i - 1..i - 1 + |pat|] == s[i..i + |pat|];
      assert OccursAt(s[1..], pat, i - 1);
    }
  }

  /** A string none of whose characters is `c` does not contain `[c]`. */
  lemma AbsentChar(s: string, c: char)
    requires forall i :: 0 <= i < |s| ==> s[i] != c
    ensures !Contains(s, [c])
  {
    forall i | 0 <= i <= |s| ensures !OccursAt(s, [c], i) {
      if i < |s| {
        assert s[i..i + 1][0] == s[i];
      }
    }
  }

  /**
   * Python's `s.replace(pat, rep)`: leftmost, non-overlapping occurrences,
   * scanned left to right. A string without `pat` is returned unchanged, and
   * a replacement no longer than the pattern never lengthens the string.
   */
  function ReplaceAll(s: string, pat: string, rep: string): (r: string)
    requires |pat| > 0
    ensures !Contains(s, pat) ==> r == s
    ensures |rep| <= |pat| ==> |r| <= |s|
    ensures |rep| == |pat| ==> |r| == |s|
    decreases |s|
  {
    if |s| == 0 then ""
    else
      ContainsStep(s, pat);
      if StartsWith(s, pat) then rep + ReplaceAll(s[|pat|..], pat, rep)
      else
        assert [s[0]] + s[1..] == s;
        [s[0]] + ReplaceAll(s[1..], pat, rep)
  }

  /** Replacing one character by another, as `replace` does with one-character arguments, changes exactly the matching positions. */
  lemma {:induction false} ReplaceCharAt(s: string, a: char, b: char)
    ensures |ReplaceAll(s, [a], [b])| == |s|
    ensures forall k :: 0 <= k < |s| ==> ReplaceAll(s, [a], [b])[k] == if s[k] == a then b else s[k]
  {
    if |s| > 0 {
      ReplaceCharAt(s[1..], a, b);
      var t := ReplaceAll(s[1..], [a], [b]);
      var r := ReplaceAll(s, [a], [b]);
      assert r == (if s[0] == a then [b] else [s[0]]) + t;
      assert forall k :: 0 < k < |s| ==> r[k] == t[k - 1] && s[k] == s[1..][k - 1];
    }
  }

  /** Replacing `a` by `b` and then `b` by `a` restores a string that had no `b`. */
  lemma {:induction false} ReplaceCharBack(s: string, a: char, b: char)
    requires forall i :: 0 <= i < |s| ==> s[i] != b
    ensures ReplaceAll(ReplaceAll(s, [a], [b]), [b], [a]) == s
  {
    if |s| > 0 {
      ReplaceCharBack(s[1..], a, b);
      var t := ReplaceAll(s, [a], [b]);
      if s[0] == a {
        assert t == [b] + ReplaceAll(s[1..], [a], [b]);
      } else {
        assert t == [s[0]] + ReplaceAll(s[1..], [a], [b]);
      }
      assert t[1..] == ReplaceAll(s[1..], [a], [b]);
    }
  }

  /** `sep.join(parts)`. */
  function Join(parts: seq<string>, sep: string): string
    decreases |parts|
  {
    if |parts| == 0 then ""
    else if |parts| == 1 then parts[0]
    else parts[0] + sep + Join(parts[1..], sep)
  }

  /** Appending one more part to a joined sequence adds the separator and the part. */
  lemma {:induction false} JoinSnoc(parts: seq<string>, last: string, sep: string)
    ensures Join(parts + [last], sep) == if parts == [] then last else Join(parts, sep) + sep + last
  {
    if |parts| > 1 {
      assert (parts + [last])[1..] == parts[1..] + [last];
      JoinSnoc(parts[1..], last, sep);
    } else if |parts| == 1 {
      assert (parts + [last])[1..] == [last];
    }
  }

  /** A non-empty join ends with its last part. */
  lemma {:induction false} JoinEndsWithLast(parts: seq<string>, sep: string)
    requires |parts| > 0
    ensures EndsWith(Join(parts, sep), parts[|parts| - 1])
  {
    if |parts| > 1 {
      JoinEndsWithLast(parts[1..], sep);
      var j := Join(parts[1..], sep);
      var last := parts[|parts| - 1];
      assert (parts[0] + sep + j)[|parts[0] + sep + j| - |last|..] == j[|j| - |last|..];
    }
  }

  // ---------------------------------------------------------------------
  // str() of an integer

  function DigitChar(d: nat): (c: char)
    requires d < 10
    ensures '0' <= c <= '9'
  {
    ('0' as int + d) as char
  }

  predicate IsDigit(c: char) {
    '0' <= c <= '9'
  }

  predicate AllDigits(s: string) {
    forall i :: 0 <= i < |s| ==> IsDigit(s[i])
  }

  /** The decimal digits of a natural number, most significant first, without leading zeros. */
  function NatToDecimal(n: nat): (r: string)
    ensures |r| > 0 && AllDigits(r)
    ensures |r| > 1 ==> r[0] != '0'
  {
    if n < 10 then [DigitChar(n)] else NatToDecimal(n / 10) + [DigitChar(n % 10)]
  }

  /** Python's `str(n)` for an integer. */
  function IntToDecimal(n: int): (r: string)
    ensures |r| > 0 && IsDigit(r[|r| - 1])
    ensures forall i :: 0 <= i < |r| ==> IsDigit(r[i]) || (i == 0 && r[i] == '-')
  {
    if n < 0 then "-" + NatToDecimal(-n) else NatToDecimal(n)
  }

  /** Reads a string of decimal digits back as a number. */
  function DecimalToNat(s: string): nat
    requires AllDigits(s)
  {
    if |s| == 0 then 0 else 10 * DecimalToNat(s[..|s| - 1]) + (s[|s| - 1] as int - '0' as int)
  }

  /** The decimal form of a natural number reads back as that number. */
  lemma {:induction false} DecimalRoundTrip(n: nat)
    ensures DecimalToNat(NatToDecimal(n)) == n
  {
    if n >= 10 {
      var r := NatToDecimal(n);
      assert r[..|r| - 1] == NatToDecimal(n / 10);
      DecimalRoundTrip(n / 10);
    }
  }

  // ---------------------------------------------------------------------
  // unicode.encode('utf-8')

  /** The UTF-8 bytes of one Unicode scalar value, as a byte string. */
  function Utf8Char(c: char): (r: string)
    ensures 1 <= |r| <= 4 && IsByteString(r)
    ensures |r| == 1 <==> c as int < 0x80
    ensures |r| == 1 ==> r == [c]
    ensures |r| > 1 ==> forall i :: 0 <= i < |r| ==> r[i] as int >= 0x80
  {
    var n := c as int;
    if n < 0x80 then [c]
    else if n < 0x800 then
      [(0xC0 + n / 0x40) as char, (0x80 + n % 0x40) as char]
    else if n < 0x1_0000 then
      [(0xE0 + n / 0x1000) as char, (0x80 + (n / 0x40) % 0x40) as char, (0x80 + n % 0x40) as char]
    else
      [(0xF0 + n / 0x4_0000) as char, (0x80 + (n / 0x1000) % 0x40) as char,
       (0x80 + (n / 0x40) % 0x40) as char, (0x80 + n % 0x40) as char]
  }

  lemma AsciiTail(s: string)
    requires |s| > 0 && IsAscii(s)
    ensures IsAscii(s[1..])
  {
    assert forall i :: 0 <= i < |s| - 1 ==> s[1..][i] == s[i + 1];
  }

  /** `unicode.encode('utf-8')`: a byte string, no shorter than the text, and ASCII text encodes to itself. */
  function Utf8Encode(s: string): (r: string)
    ensures IsByteString(r)
    ensures |r| >= |s|
    ensures IsAscii(s) ==> r == s
  {
    if |s| == 0 then ""
    else
      var h := Utf8Char(s[0]);
      var t := Utf8Encode(s[1..]);
      ByteStringConcat(h, t);
      if IsAscii(s) then
        AsciiTail(s);
        assert [s[0]] + s[1..] == s;
        h + t
      else h + t
  }

  /** An ASCII character absent from the text is absent from its UTF-8 encoding. */
  lemma {:induction false} Utf8EncodeAvoids(s: string, c: char)
    requires c as int < 0x80
    requires forall i :: 0 <= i < |s| ==> s[i] != c
    ensures forall i :: 0 <= i < |Utf8Encode(s)| ==> Utf8Encode(s)[i] != c
  {
    if |s| > 0 {
      Utf8EncodeAvoids(s[1..], c);
      var e := Utf8Encode(s);
      var h := Utf8Char(s[0]);
      var t := Utf8Encode(s[1..]);
      assert e == h + t;
      forall i | 0 <= i < |e| ensures e[i] != c {
        if i < |h| {
          assert e[i] == h[i];
        } else {
          assert e[i] == t[i - |h|];
        }
      }
    }
  }

  // ---------------------------------------------------------------------
  // Entity escaping of ampersands in feed attributes

  /** How a feed writer escapes ampersands in an attribute: every `&` becomes `&amp;`. */
  function EscapeAmpersands(s: string): string {
    if |s| == 0 then ""
    else if s[0] == '&' then "&amp;" + EscapeAmpersands(s[1..])
    else [s[0]] + EscapeAmpersands(s[1..])
  }

  /**
   * `s.replace('&amp;', '&')`: empty exactly when `s` is, never longer than
   * `s`, and `s` itself when it holds no `&amp;`.
   */
  function UnescapeAmpersands(s: string): (r: string)
    ensures r == "" <==> s == ""
    ensures |r| <= |s|
    ensures !Contains(s, "&amp;") ==> r == s
  {
    ReplaceAll(s, "&amp;", "&")
  }

  /** Undoing the escape restores the original text. */
  lemma {:induction false} UnescapeEscape(s: string)
    ensures UnescapeAmpersands(EscapeAmpersands(s)) == s
  {
    if |s| > 0 {
      UnescapeEscape(s[1..]);
      var rest := EscapeAmpersands(s[1..]);
      if s[0] == '&' {
        var e := "&amp;" + rest;
        assert StartsWith(e, "&amp;");
        assert e[5..] == rest;
      } else {
        var e := [s[0]] + rest;
        assert |e| >= 5 ==> e[..5][0] == s[0];
        assert !StartsWith(e, "&amp;");
        assert e[1..] == rest;
      }
    }
  }

}
