/**
 * `_extract_name_from_filename`: the release name in front of a torrent file
 * name, as the case-insensitive pattern `(.*?)\.?(\[.*]|\d+\.TPB)\.torrent$`
 * anchored at the start of the file name finds it.
 *
 * The pattern is stated as a specification on splits of the file name: a split
 * at `i` matches when the prefix `s[..i]` can be the lazy group `(.*?)` and the
 * rest can be matched by the remainder of the pattern. The group returned is the
 * prefix of the shortest matching split, because the lazy group is tried at
 * every length from zero upwards.
 */
module KatNames {
  import opened Wrappers
  import opened Text

  /** ASCII lower case, the folding `re.I` applies to byte-string patterns. */
  function Lower(c: char): char {
    if 'A' <= c <= 'Z' then (c as int + 32) as char else c
  }

  /** Equal up to ASCII case. */
  predicate EqualsIgnoreCase(a: string, b: string) {
    |a| == |b| && forall i :: 0 <= i < |a| ==> Lower(a[i]) == Lower(b[i])
  }

  /** No newline, which neither `.` of the pattern matches. */
  predicate NoNewline(s: string) {
    forall i :: 0 <= i < |s| ==> s[i] != '\n'
  }

  /** `\[.*]`: a bracketed tag such as `[kat.ph]`. */
  predicate IsBracketed(x: string) {
    |x| >= 2 && x[0] == '[' && x[|x| - 1] == ']' && NoNewline(x)
  }

  /** `\d+\.TPB`: a number followed by `.TPB`, in any case. */
  predicate IsTpbNumber(x: string) {
    |x| >= 5 && EqualsIgnoreCase(x[|x| - 4..], ".tpb") && AllDigits(x[..|x| - 4])
  }

  /** `(\[.*]|\d+\.TPB)\.torrent`, to the very end of `c`. */
  predicate CoreMatches(c: string) {
    |c| >= 8 && EqualsIgnoreCase(c[|c| - 8..], ".torrent") && (IsBracketed(c[..|c| - 8]) || IsTpbNumber(c[..|c| - 8]))
  }

  /** The same, followed by `$`: at the end of the string, or before a newline that ends it. */
  predicate TailMatches(t: string) {
    CoreMatches(t) || (|t| > 0 && t[|t| - 1] == '\n' && CoreMatches(t[..|t| - 1]))
  }

  /**
   * `\.?(\[.*]|\d+\.TPB)\.torrent$`: the same after an optional dot. The
   * shortest text it matches is `[].torrent`, ten characters.
   */
  predicate RestMatches(r: string)
    ensures RestMatches(r) ==> |r| >= 10
  {
    TailMatches(r) || (|r| > 0 && r[0] == '.' && TailMatches(r[1..]))
  }

  /** The pattern matches with the lazy group holding `s[..i]`, which leaves at least ten characters after it. */
  predicate NameSplit(s: string, i: int)
    ensures NameSplit(s, i) ==> 0 <= i <= |s| - 10
  {
    0 <= i <= |s| && NoNewline(s[..i]) && RestMatches(s[i..])
  }

  /** The first matching split at `i` or after, trying the group at each length in turn. */
  function FindSplit(s: string, i: nat): (r: Option<nat>)
    requires i <= |s| && NoNewline(s[..i])
    ensures r.Some? ==> i <= r.value <= |s| && NameSplit(s, r.value)
    ensures r.Some? ==> forall j :: i <= j < r.value ==> !NameSplit(s, j)
    ensures r.None? ==> forall j :: i <= j <= |s| ==> !NameSplit(s, j)
    decreases |s| - i
  {
    if RestMatches(s[i..]) then Some(i)
    else if i == |s| then None
    else if s[i] == '\n' then
      NewlineBlocks(s, i);
      None
    else
      NoNewlineSnoc(s, i);
      FindSplit(s, i + 1)
  }

  /** Past a newline at `i`, no prefix of `s` is free of newlines, so the lazy group cannot grow beyond it. */
  lemma NewlineBlocks(s: string, i: nat)
    requires i < |s| && s[i] == '\n'
    ensures forall j :: i < j <= |s| ==> !NoNewline(s[..j])
  {
    forall j | i < j <= |s| ensures !NoNewline(s[..j]) {
      assert s[..j][i] == '\n';
    }
  }

  /** The group may take one more character when that character is not a newline. */
  lemma NoNewlineSnoc(s: string, i: nat)
    requires i < |s| && NoNewline(s[..i]) && s[i] != '\n'
    ensures NoNewline(s[..i + 1])
  {
    assert s[..i + 1] == s[..i] + [s[i]];
  }

  /** `_extract_name_from_filename`: the lazy group of the match, or `None` when the name does not match. */
  function ExtractName(filename: string): (r: Option<string>)
    ensures r.Some? ==> |r.value| <= |filename| && r.value == filename[..|r.value|]
    ensures r.Some? ==> NameSplit(filename, |r.value|)
    ensures r.Some? ==> forall j :: 0 <= j < |r.value| ==> !NameSplit(filename, j)
    ensures r.None? <==> forall j :: 0 <= j <= |filename| ==> !NameSplit(filename, j)
  {
    match FindSplit(filename, 0)
    case Some(i) => Some(filename[..i])
    case None => None
  }

  /** The file name ends in `.torrent`, in any case, possibly followed by one newline. */
  predicate HasTorrentSuffix(s: string) {
    (|s| >= 8 && EqualsIgnoreCase(s[|s| - 8..], ".torrent"))
    || (|s| >= 9 && s[|s| - 1] == '\n' && EqualsIgnoreCase(s[|s| - 9..|s| - 1], ".torrent"))
  }

  /** A tag and `.torrent` ending the file name carry its suffix. */
  lemma CoreSuffix(s: string, j: int)
    requires 0 <= j <= |s| && CoreMatches(s[j..])
    ensures |s| >= 8 && EqualsIgnoreCase(s[|s| - 8..], ".torrent")
  {
    var c := s[j..];
    assert s[|s| - 8..] == c[|c| - 8..];
  }

  /** A tag and `.torrent` followed by a final newline carry the suffix before it. */
  lemma CoreSuffixNewline(s: string, j: int)
    requires 0 <= j < |s| && s[|s| - 1] == '\n' && CoreMatches(s[j..|s| - 1])
    ensures |s| >= 9 && EqualsIgnoreCase(s[|s| - 9..|s| - 1], ".torrent")
  {
    var c := s[j..|s| - 1];
    assert s[|s| - 9..|s| - 1] == c[|c| - 8..];
  }

  /** A matching tail carries the `.torrent` suffix to the end of the file name. */
  lemma TailSuffix(s: string, j: int)
    requires 0 <= j <= |s| && TailMatches(s[j..])
    ensures HasTorrentSuffix(s)
  {
    var t := s[j..];
    if CoreMatches(t) {
      CoreSuffix(s, j);
    } else {
      assert t[..|t| - 1] == s[j..|s| - 1];
      CoreSuffixNewline(s, j);
    }
  }

  /** A matching rest carries the `.torrent` suffix to the end of the file name. */
  lemma RestSuffix(s: string, i: int)
    requires 0 <= i <= |s| && RestMatches(s[i..])
    ensures HasTorrentSuffix(s)
  {
    var r := s[i..];
    if TailMatches(r) {
      TailSuffix(s, i);
    } else {
      assert r[1..] == s[i + 1..];
      TailSuffix(s, i + 1);
    }
  }

  /** No name is extracted from a file that does not end in `.torrent`. */
  lemma NameRequiresTorrentSuffix(filename: string)
    requires !HasTorrentSuffix(filename)
    ensures ExtractName(filename) == None
  {
    if ExtractName(filename).Some? {
      RestSuffix(filename, |ExtractName(filename).value|);
    }
  }

  /** A `<number>.TPB` tag ends in `b` or `B`. */
  lemma TpbNumberEnd(x: string)
    requires IsTpbNumber(x)
    ensures Lower(x[|x| - 1]) == 'b'
  {
    assert x[|x| - 4..][3] == x[|x| - 1];
  }

  /** A `<number>.TPB` tag has no dot before its `.TPB`. */
  lemma TpbNumberDigits(x: string, k: int)
    requires IsTpbNumber(x) && 0 <= k < |x| - 4
    ensures x[k] != '.'
  {
    assert x[..|x| - 4][k] == x[k];
  }

  /** Neither candidate tag of `r` (from its first or its second character) can match. */
  predicate NoCandidateTag(r: string)
    requires |r| >= 10
  {
    !IsBracketed(r[..|r| - 8]) && !IsTpbNumber(r[..|r| - 8])
    && !IsBracketed(r[1..|r| - 8]) && !IsTpbNumber(r[1..|r| - 8])
  }

  /** A rest that does not end in a newline and has no candidate tag does not match. */
  lemma NoRestMatchFromTags(r: string)
    requires |r| >= 10 && r[|r| - 1] != '\n' && NoCandidateTag(r)
    ensures !RestMatches(r)
  {
    var t := r[1..];
    assert t[..|t| - 8] == r[1..|r| - 8];
    assert t[|t| - 1] == r[|r| - 1];
    assert !CoreMatches(r);
    assert !CoreMatches(t);
    assert !TailMatches(r) && !TailMatches(t);
  }

  /** The pattern fails on a rest whose candidate tags start with no `[` and end in no `b`. */
  lemma NoRestMatch(r: string)
    requires |r| >= 12 && Lower(r[|r| - 1]) == 't'
    requires r[0] != '[' && r[1] != '['
    requires Lower(r[|r| - 9]) != 'b'
    ensures !RestMatches(r)
  {
    var stem := r[..|r| - 8];
    var stem' := r[1..|r| - 8];
    assert stem[0] == r[0] && stem'[0] == r[1];
    assert stem[|stem| - 1] == r[|r| - 9] && stem'[|stem'| - 1] == r[|r| - 9];
    if IsTpbNumber(stem) {
      TpbNumberEnd(stem);
    }
    if IsTpbNumber(stem') {
      TpbNumberEnd(stem');
    }
    NoRestMatchFromTags(r);
  }

  /** The pattern fails on a rest whose candidate digit runs hold a dot, and which does not end in `]`. */
  lemma NoRestMatchTpb(r: string, k: int)
    requires |r| >= 12 && Lower(r[|r| - 1]) == 't'
    requires 1 <= k < |r| - 12 && r[k] == '.'
    requires r[|r| - 9] != ']'
    ensures !RestMatches(r)
  {
    var stem := r[..|r| - 8];
    var stem' := r[1..|r| - 8];
    assert stem[|stem| - 1] == r[|r| - 9] && stem'[|stem'| - 1] == r[|r| - 9];
    assert stem[k] == '.' && stem'[k - 1] == '.';
    if IsTpbNumber(stem) {
      TpbNumberDigits(stem, k);
    }
    if IsTpbNumber(stem') {
      TpbNumberDigits(stem', k - 1);
    }
    NoRestMatchFromTags(r);
  }

  /**
   * A name followed by a dot, a bracketed tag and `.torrent` in any case: the
   * name is extracted, provided it holds no `[` (or a shorter group would match).
   */
  lemma BracketTagName(name: string, tag: string, ext: string)
    requires NoNewline(name) && NoNewline(tag)
    requires forall k :: 0 <= k < |name| ==> name[k] != '['
    requires EqualsIgnoreCase(ext, ".torrent")
    ensures ExtractName(name + ".[" + tag + "]" + ext) == Some(name)
  {
    var s := name + ".[" + tag + "]" + ext;
    var n := |name|;
    assert |s| == n + |tag| + 11;
    assert s[..n] == name;
    assert s[n..][1..][..|s[n..][1..]| - 8] == "[" + tag + "]";
    assert s[n..][1..][|s[n..][1..]| - 8..] == ext;
    assert Lower(ext[7]) == 't' && s[|s| - 1] == ext[7];
    assert NameSplit(s, n);
    forall j | 0 <= j < n ensures !NameSplit(s, j) {
      var r := s[j..];
      assert r[0] == name[j];
      assert r[1] == if j + 1 < n then name[j + 1] else '.';
      assert r[|r| - 9] == ']';
      NoRestMatch(r);
    }
    MinimalSplit(s, n);
  }

  /**
   * A name followed by a dot, a number, `.TPB` and `.torrent`, in any case:
   * the name is extracted whatever it holds.
   */
  lemma TpbTagName(name: string, digits: string, tpb: string, ext: string)
    requires NoNewline(name)
    requires |digits| > 0 && AllDigits(digits)
    requires EqualsIgnoreCase(tpb, ".tpb") && EqualsIgnoreCase(ext, ".torrent")
    ensures ExtractName(name + "." + digits + tpb + ext) == Some(name)
  {
    var s := name + "." + digits + tpb + ext;
    var n := |name|;
    assert |s| == n + |digits| + 13;
    assert s[..n] == name;
    assert forall k :: 0 <= k < |digits| ==> digits[k] != '\n';
    assert s[n..][1..][..|s[n..][1..]| - 8] == digits + tpb;
    assert s[n..][1..][|s[n..][1..]| - 8..] == ext;
    assert (digits + tpb)[|digits + tpb| - 4..] == tpb && (digits + tpb)[..|digits + tpb| - 4] == digits;
    assert Lower(ext[7]) == 't' && s[|s| - 1] == ext[7];
    assert Lower(tpb[3]) == 'b' && s[|s| - 9] == tpb[3];
    assert NameSplit(s, n);
    forall j | 0 <= j < n ensures !NameSplit(s, j) {
      var r := s[j..];
      assert r[n - j] == '.';
      NoRestMatchTpb(r, n - j);
    }
    MinimalSplit(s, n);
  }

  /** A split with no shorter one is the one the pattern reports. */
  lemma MinimalSplit(s: string, n: int)
    requires NameSplit(s, n)
    requires forall j :: 0 <= j < n ==> !NameSplit(s, j)
    ensures ExtractName(s) == Some(s[..n])
  {
  }

}
