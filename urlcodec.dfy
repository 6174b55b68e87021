/**
 * Percent-encoding as Python 2's `urllib.quote`, `urllib.quote_plus` and
 * `urllib.urlencode` perform it on byte strings, together with the decoders
 * (`unquote`, `unquote_plus`, splitting a query string) that undo them.
 */
module UrlCodec {
  import opened Text

  /** A value stored in a parameter dictionary: a (byte) string or an integer. */
  datatype Value = Text(s: string) | Number(n: int)

  predicate WellFormedValue(v: Value) {
    v.Text? ==> IsByteString(v.s)
  }

  /** Python's `str(v)`. */
  function Str(v: Value): (r: string)
    ensures WellFormedValue(v) ==> IsByteString(r)
    ensures v.Number? ==> |r| > 0 && IsDigit(r[|r| - 1])
  {
    match v
    case Text(s) => s
    case Number(n) => IntToDecimal(n)
  }

  /** The characters `quote` never encodes: ASCII letters, digits and `_.-`. */
  predicate IsAlwaysSafe(c: char) {
    ('A' <= c <= 'Z') || ('a' <= c <= 'z') || ('0' <= c <= '9') || c == '_' || c == '.' || c == '-'
  }

  predicate IsHexDigit(c: char) {
    ('0' <= c <= '9') || ('A' <= c <= 'F') || ('a' <= c <= 'f')
  }

  /** Upper-case hexadecimal digit, as `'%%%02X'` writes it. */
  function HexDigit(d: nat): (c: char)
    requires d < 16
    ensures IsHexDigit(c) && IsAlwaysSafe(c)
  {
    if d < 10 then ('0' as int + d) as char else ('A' as int + d - 10) as char
  }

  function HexValue(c: char): (d: nat)
    requires IsHexDigit(c)
    ensures d < 16
  {
    if '0' <= c <= '9' then c as int - '0' as int
    else if 'A' <= c <= 'F' then c as int - 'A' as int + 10
    else c as int - 'a' as int + 10
  }

  lemma HexValueOfDigit(d: nat)
    requires d < 16
    ensures HexValue(HexDigit(d)) == d
  {
  }

  /** `%XX` for one byte. */
  function PercentEncode(c: char): (r: string)
    requires c as int < 256
    ensures |r| == 3 && r[0] == '%' && IsHexDigit(r[1]) && IsHexDigit(r[2])
    ensures 16 * HexValue(r[1]) + HexValue(r[2]) == c as int
  {
    HexValueOfDigit(c as int / 16);
    HexValueOfDigit(c as int % 16);
    ['%', HexDigit(c as int / 16), HexDigit(c as int % 16)]
  }

  /** How `quote` writes one byte: as itself when it is safe, else as `%XX`. */
  function QuoteChar(c: char, safe: string): string
    requires c as int < 256
  {
    if IsAlwaysSafe(c) || c in safe then [c] else PercentEncode(c)
  }

  /** `urllib.quote(s, safe)`: every byte outside the always-safe set and `safe` becomes `%XX`. */
  function QuoteWith(s: string, safe: string): (r: string)
    requires IsByteString(s)
    ensures forall i :: 0 <= i < |r| ==> IsAlwaysSafe(r[i]) || r[i] in safe || r[i] == '%'
    ensures |r| >= |s|
  {
    if |s| == 0 then ""
    else
      var head := QuoteChar(s[0], safe);
      var tail := QuoteWith(s[1..], safe);
      assert forall i :: 0 <= i < |head + tail| ==>
        (head + tail)[i] == if i < |head| then head[i] else tail[i - |head|];
      head + tail
  }

  /**
   * `urllib.quote(s)` with its default safe character `/`: only always-safe
   * characters, `/` and `%` come out, and `unquote` gives `s` back.
   */
  function Quote(s: string): (r: string)
    requires IsByteString(s)
    ensures forall i :: 0 <= i < |r| ==> IsAlwaysSafe(r[i]) || r[i] == '/' || r[i] == '%'
    ensures Unquote(r) == s
  {
    UnquoteQuote(s, "/");
    QuoteWith(s, "/")
  }

  /** Quoting a concatenation whose first part is not empty starts with that part's first byte. */
  lemma QuoteWithCons(a: string, b: string, safe: string)
    requires |a| > 0 && IsByteString(a) && IsByteString(b)
    ensures IsByteString(a + b) && IsByteString(a[1..]) && IsByteString(a[1..] + b)
    ensures QuoteWith(a + b, safe) == QuoteChar(a[0], safe) + QuoteWith(a[1..] + b, safe)
  {
    ByteStringConcat(a, b);
    ByteStringTail(a);
    ByteStringConcat(a[1..], b);
    var ab := a + b;
    assert ab[0] == a[0];
    assert ab[1..] == a[1..] + b;
  }

  /**
   * One byte is written as itself exactly when it is safe, and otherwise as
   * `%` and two hexadecimal digits; either way `unquote` reads the byte back.
   */
  lemma QuoteCharForm(c: char, safe: string)
    requires c as int < 256
    ensures |QuoteChar(c, safe)| == 1 <==> IsAlwaysSafe(c) || c in safe
    ensures |QuoteChar(c, safe)| == 1 ==> QuoteChar(c, safe) == [c]
    ensures |QuoteChar(c, safe)| != 1 ==> |QuoteChar(c, safe)| == 3 && QuoteChar(c, safe)[0] == '%'
    ensures Unquote(QuoteChar(c, safe)) == [c]
  {
  }

  /** Quoting distributes over concatenation, since it works byte by byte. */
  lemma {:induction false} QuoteWithAppend(a: string, b: string, safe: string)
    requires IsByteString(a) && IsByteString(b)
    ensures IsByteString(a + b)
    ensures QuoteWith(a + b, safe) == QuoteWith(a, safe) + QuoteWith(b, safe)
  {
    ByteStringConcat(a, b);
    if |a| > 0 {
      QuoteWithCons(a, b, safe);
      QuoteWithAppend(a[1..], b, safe);
      assert QuoteWith(a, safe) == QuoteChar(a[0], safe) + QuoteWith(a[1..], safe);
    } else {
      assert a + b == b;
    }
  }

  /** `urllib.unquote`: each `%` followed by two hexadecimal digits becomes that byte. */
  function Unquote(s: string): string
    decreases |s|
  {
    if |s| == 0 then ""
    else if s[0] == '%' && |s| >= 3 && IsHexDigit(s[1]) && IsHexDigit(s[2]) then
      [(16 * HexValue(s[1]) + HexValue(s[2])) as char] + Unquote(s[3..])
    else [s[0]] + Unquote(s[1..])
  }

  /** Unquoting undoes quoting, whatever the safe set, as long as `%` is not in it. */
  lemma {:induction false} UnquoteQuote(s: string, safe: string)
    requires IsByteString(s)
    requires '%' !in safe
    ensures Unquote(QuoteWith(s, safe)) == s
  {
    if |s| > 0 {
      assert IsByteString(s[1..]) by {
        forall i | 0 <= i < |s[1..]| ensures s[1..][i] as int < 256 {
          assert s[1..][i] == s[i + 1];
        }
      }
      UnquoteQuote(s[1..], safe);
      var tail := QuoteWith(s[1..], safe);
      if IsAlwaysSafe(s[0]) || s[0] in safe {
        assert QuoteWith(s, safe) == [s[0]] + tail;
        assert ([s[0]] + tail)[1..] == tail;
      } else {
        var p := PercentEncode(s[0]);
        assert QuoteWith(s, safe) == p + tail;
        assert (p + tail)[3..] == tail;
        assert (p + tail)[..3] == p;
      }
    }
  }

  /** A quoted text contains `+` only when `+` is declared safe. */
  lemma QuoteWithNoPlus(s: string, safe: string)
    requires IsByteString(s)
    requires '+' !in safe
    ensures forall i :: 0 <= i < |QuoteWith(s, safe)| ==> QuoteWith(s, safe)[i] != '+'
  {
  }

  /** `urllib.unquote_plus(s)`. */
  function UnquotePlus(s: string): string {
    Unquote(ReplaceAll(s, "+", " "))
  }

  /**
   * `urllib.quote_plus(s)`: quotes with a space kept back, then turns spaces
   * into `+`. Only always-safe characters, `%` and `+` come out (in particular
   * never `&` or `=`), and `unquote_plus` gives `s` back.
   */
  function QuotePlus(s: string): (r: string)
    requires IsByteString(s)
    ensures forall i :: 0 <= i < |r| ==> IsAlwaysSafe(r[i]) || r[i] == '%' || r[i] == '+'
    ensures UnquotePlus(r) == s
  {
    if ' ' in s then
      var q := QuoteWith(s, " ");
      QuoteWithNoPlus(s, " ");
      ReplaceCharAt(q, ' ', '+');
      ReplaceCharBack(q, ' ', '+');
      UnquoteQuote(s, " ");
      ReplaceAll(q, " ", "+")
    else
      var q := QuoteWith(s, "");
      QuoteWithNoPlus(s, "");
      AbsentChar(q, '+');
      UnquoteQuote(s, "");
      q
  }

  // ---------------------------------------------------------------------
  // urlencode and its inverse

  /**
   * One `key=value` pair of `urllib.urlencode`. It holds no `&`, and splitting
   * it at its first `=` and decoding both halves gives back the key and
   * `str()` of the value.
   */
  function EncodePair(k: string, v: Value): (r: string)
    requires IsByteString(k) && WellFormedValue(v)
    ensures forall i :: 0 <= i < |r| ==> r[i] != '&'
    ensures var (a, b) := SplitAtEquals(r); UnquotePlus(a) == k && UnquotePlus(b) == Str(v)
  {
    var qk, qv := QuotePlus(k), QuotePlus(Str(v));
    QuotePlusAvoids(k);
    QuotePlusAvoids(Str(v));
    AvoidsConcat(qk, "=", '&');
    AvoidsConcat(qk + "=", qv, '&');
    SplitAtEqualsPair(qk, qv);
    qk + "=" + qv
  }

  /** `quote_plus` writes neither `&` nor `=`. */
  lemma QuotePlusAvoids(s: string)
    requires IsByteString(s)
    ensures forall i :: 0 <= i < |QuotePlus(s)| ==> QuotePlus(s)[i] != '&' && QuotePlus(s)[i] != '='
  {
  }

  /** The keys of a dictionary listed once each, in the order its iteration yields them. */
  predicate IsEnumeration(keyOrder: seq<string>, keys: set<string>) {
    && (forall i :: 0 <= i < |keyOrder| ==> keyOrder[i] in keys)
    && (forall k :: k in keys ==> k in keyOrder)
    && (forall i, j :: 0 <= i < j < |keyOrder| ==> keyOrder[i] != keyOrder[j])
  }

  predicate EncodableParams(q: map<string, Value>) {
    forall k :: k in q ==> IsByteString(k) && WellFormedValue(q[k])
  }

  function EncodePairs(q: map<string, Value>, keyOrder: seq<string>): (r: seq<string>)
    requires EncodableParams(q)
    requires forall i :: 0 <= i < |keyOrder| ==> keyOrder[i] in q
    ensures |r| == |keyOrder|
    ensures forall i :: 0 <= i < |r| ==> r[i] == EncodePair(keyOrder[i], q[keyOrder[i]])
  {
    if keyOrder == [] then []
    else
      var rest := keyOrder[1..];
      assert forall i :: 0 <= i < |rest| ==> rest[i] == keyOrder[i + 1];
      var tail := EncodePairs(q, rest);
      var r := [EncodePair(keyOrder[0], q[keyOrder[0]])] + tail;
      assert forall i :: 0 < i < |r| ==> r[i] == tail[i - 1];
      r
  }


  /** `s.split(c)`. */
  function Split(s: string, c: char): (r: seq<string>)
    ensures |r| >= 1
  {
    if |s| == 0 then [""]
    else if s[0] == c then [""] + Split(s[1..], c)
    else
      var t := Split(s[1..], c);
      [[s[0]] + t[0]] + t[1..]
  }

  lemma {:induction false} SplitPrefix(p: string, rest: string, c: char)
    requires forall i :: 0 <= i < |p| ==> p[i] != c
    ensures Split(p + rest, c) == [p + Split(rest, c)[0]] + Split(rest, c)[1..]
  {
    var sr := Split(rest, c);
    if |p| > 0 {
      assert (p + rest)[0] == p[0];
      assert (p + rest)[1..] == p[1..] + rest;
      SplitPrefix(p[1..], rest, c);
      var t := Split(p[1..] + rest, c);
      assert t[0] == p[1..] + sr[0];
      assert t[1..] == sr[1..];
      assert Split(p + rest, c) == [[p[0]] + t[0]] + t[1..];
      assert [p[0]] + (p[1..] + sr[0]) == p + sr[0];
    } else {
      assert p + rest == rest;
      assert p + sr[0] == sr[0];
      assert sr == [sr[0]] + sr[1..];
    }
  }

  /** Splitting a join on its one-character separator gives back the parts. */
  lemma {:induction false} SplitJoin(parts: seq<string>, c: char)
    requires |parts| >= 1
    requires forall j, i :: 0 <= j < |parts| && 0 <= i < |parts[j]| ==> parts[j][i] != c
    ensures Split(Join(parts, [c]), c) == parts
  {
    if |parts| == 1 {
      SplitPrefix(parts[0], "", c);
      assert parts[0] + "" == parts[0];
    } else {
      SplitJoin(parts[1..], c);
      var rest := Join(parts[1..], [c]);
      assert Split([c] + rest, c) == [""] + Split(rest, c);
      SplitPrefix(parts[0], [c] + rest, c);
      assert parts[0] + [c] + rest == parts[0] + ([c] + rest);
      assert parts[0] + "" == parts[0];
    }
  }

  /** The text before and after the first `=`; the whole text and "" if there is none. */
  function SplitAtEquals(s: string): (string, string) {
    if |s| == 0 then ("", "")
    else if s[0] == '=' then ("", s[1..])
    else
      var (k, v) := SplitAtEquals(s[1..]);
      ([s[0]] + k, v)
  }

  lemma {:induction false} SplitAtEqualsPair(k: string, v: string)
    requires forall i :: 0 <= i < |k| ==> k[i] != '='
    ensures SplitAtEquals(k + "=" + v) == (k, v)
  {
    if |k| > 0 {
      var s := k + "=" + v;
      assert s[0] == k[0];
      assert s[1..] == k[1..] + "=" + v;
      SplitAtEqualsPair(k[1..], v);
      assert SplitAtEquals(s) == ([k[0]] + k[1..], v);
      assert [k[0]] + k[1..] == k;
    } else {
      assert k + "=" + v == "=" + v;
    }
  }

  /** Reads a query string back as its decoded `(key, value)` pairs, in order. */
  function ParseQuery(s: string): seq<(string, string)> {
    var parts := Split(s, '&');
    seq(|parts|, i requires 0 <= i < |parts| =>
      var (k, v) := SplitAtEquals(parts[i]);
      (UnquotePlus(k), UnquotePlus(v)))
  }

  /** The pairs `urlencode` writes, before encoding. */
  function Pairs(q: map<string, Value>, keyOrder: seq<string>): (r: seq<(string, string)>)
    requires forall i :: 0 <= i < |keyOrder| ==> keyOrder[i] in q
    ensures |r| == |keyOrder|
    ensures forall i :: 0 <= i < |r| ==> r[i] == (keyOrder[i], Str(q[keyOrder[i]]))
  {
    if keyOrder == [] then [] else [(keyOrder[0], Str(q[keyOrder[0]]))] + Pairs(q, keyOrder[1..])
  }

  /** No encoded pair contains `&`, so splitting on `&` separates them. */
  lemma EncodePairsNoAmpersand(q: map<string, Value>, keyOrder: seq<string>)
    requires EncodableParams(q)
    requires forall i :: 0 <= i < |keyOrder| ==> keyOrder[i] in q
    ensures forall j, i :: 0 <= j < |keyOrder| && 0 <= i < |EncodePairs(q, keyOrder)[j]| ==>
      EncodePairs(q, keyOrder)[j][i] != '&'
  {
    var parts := EncodePairs(q, keyOrder);
    forall j | 0 <= j < |parts|
      ensures forall i :: 0 <= i < |parts[j]| ==> parts[j][i] != '&'
    {
      assert parts[j] == EncodePair(keyOrder[j], q[keyOrder[j]]);
    }
  }

  /** A non-empty `&`-join of encoded pairs parses back to exactly their keys and `str()`-ed values, in order. */
  lemma EncodedPairsParse(q: map<string, Value>, keyOrder: seq<string>)
    requires EncodableParams(q)
    requires forall i :: 0 <= i < |keyOrder| ==> keyOrder[i] in q
    ensures keyOrder != [] ==> ParseQuery(Join(EncodePairs(q, keyOrder), "&")) == Pairs(q, keyOrder)
  {
    if keyOrder != [] {
      var parts := EncodePairs(q, keyOrder);
      EncodePairsNoAmpersand(q, keyOrder);
      SplitJoin(parts, '&');
      var r := ParseQuery(Join(parts, "&"));
      var p := Pairs(q, keyOrder);
      assert |r| == |p|;
      forall j | 0 <= j < |p| ensures r[j] == p[j] {
        assert parts[j] == EncodePair(keyOrder[j], q[keyOrder[j]]);
      }
    }
  }

  /**
   * `urllib.urlencode(q)`, with the dictionary's iteration order made
   * explicit: empty for an empty dictionary, and otherwise a query string that
   * parses back to exactly the keys and `str()`-ed values, in that order.
   */
  function Urlencode(q: map<string, Value>, keyOrder: seq<string>): (r: string)
    requires EncodableParams(q)
    requires IsEnumeration(keyOrder, q.Keys)
    ensures q == map[] ==> r == ""
    ensures q != map[] ==> ParseQuery(r) == Pairs(q, keyOrder)
  {
    EncodedPairsParse(q, keyOrder);
    Join(EncodePairs(q, keyOrder), "&")
  }

}
