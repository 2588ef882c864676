/**
 * Character classes and string helpers shared by the résumé processor and the
 * search interface: Python's `\w` and `str.isspace`, ASCII case mapping
 * (`str.lower`, `str.upper`, `str.title`) and `str.strip`.
 *
 * Case mapping and word characters are restricted to ASCII; whitespace is the
 * full set Python's `str.isspace` accepts.
 */
module Chars {

  predicate IsUpper(c: char) { 'A' <= c <= 'Z' }

  predicate IsLowerLetter(c: char) { 'a' <= c <= 'z' }

  predicate IsLetter(c: char) { IsUpper(c) || IsLowerLetter(c) }

  predicate IsDigit(c: char) { '0' <= c <= '9' }

  /** Python's `\w`, restricted to ASCII: letters, digits and underscore. */
  predicate IsWordChar(c: char) { IsLetter(c) || IsDigit(c) || c == '_' }

  /** Python's `str.isspace` (and `\s` in a `str` pattern). */
  predicate IsSpace(c: char) {
    var n := c as int;
    || 0x09 <= n <= 0x0D
    || 0x1C <= n <= 0x20
    || n == 0x85 || n == 0xA0 || n == 0x1680
    || 0x2000 <= n <= 0x200A
    || n == 0x2028 || n == 0x2029 || n == 0x202F || n == 0x205F || n == 0x3000
  }

  function ToLower(c: char): (r: char)
    ensures !IsUpper(r)
    ensures IsLetter(c) <==> IsLetter(r)
    ensures IsWordChar(c) <==> IsWordChar(r)
  {
    if IsUpper(c) then (c as int + 32) as char else c
  }

  function ToUpper(c: char): (r: char)
    ensures IsLetter(c) <==> IsUpper(r)
    ensures !IsLetter(c) ==> r == c
  {
    if IsLowerLetter(c) then (c as int - 32) as char else c
  }

  /** `str.lower()`. */
  function Lower(s: string): (r: string)
    ensures |r| == |s|
    ensures forall i :: 0 <= i < |s| ==> r[i] == ToLower(s[i])
  {
    seq(|s|, i requires 0 <= i < |s| => ToLower(s[i]))
  }

  /** `str.upper()`. */
  function Upper(s: string): (r: string)
    ensures |r| == |s|
    ensures forall i :: 0 <= i < |s| ==> r[i] == ToUpper(s[i])
  {
    seq(|s|, i requires 0 <= i < |s| => ToUpper(s[i]))
  }

  /**
   * `str.title()` from a position whose predecessor was (`prevCased`) or was
   * not a cased character: a letter after a non-letter is upper-cased, a
   * letter after a letter is lower-cased, anything else is copied. What this
   * means for matching is stated by TitleWithoutCapitals.
   */
  function TitleFrom(s: string, prevCased: bool): (r: string)
    ensures |r| == |s|
  {
    if |s| == 0 then ""
    else if IsLetter(s[0]) then
      [if prevCased then ToLower(s[0]) else ToUpper(s[0])] + TitleFrom(s[1..], true)
    else
      [s[0]] + TitleFrom(s[1..], false)
  }

  function Title(s: string): string { TitleFrom(s, false) }

  predicate NoUpper(s: string) { forall i :: 0 <= i < |s| ==> !IsUpper(s[i]) }

  predicate NoLetter(s: string) { forall i :: 0 <= i < |s| ==> !IsLetter(s[i]) }

  /** Lower-casing is idempotent and leaves no upper-case letter. */
  lemma LowerIdempotent(s: string)
    ensures NoUpper(Lower(s))
    ensures Lower(Lower(s)) == Lower(s)
  {
  }

  /** Lower-casing commutes with taking a slice. */
  lemma LowerSlice(s: string, i: nat, j: nat)
    requires i <= j <= |s|
    ensures Lower(s)[i..j] == Lower(s[i..j])
  {
  }

  /** An upper-cased string without upper-case letters came from a string without letters. */
  lemma UpperWithoutCapitals(s: string)
    requires NoUpper(Upper(s))
    ensures NoLetter(s)
  {
    forall i | 0 <= i < |s| ensures !IsLetter(s[i]) {
      assert Upper(s)[i] == ToUpper(s[i]);
    }
  }

  /** A title-cased string without upper-case letters came from a string without letters. */
  lemma {:induction false} TitleWithoutCapitals(s: string)
    requires NoUpper(TitleFrom(s, false))
    ensures NoLetter(s)
  {
    if |s| > 0 {
      assert TitleFrom(s, false)[0] == s[0];
      assert TitleFrom(s, false)[1..] == TitleFrom(s[1..], false);
      TitleWithoutCapitals(s[1..]);
      assert s == [s[0]] + s[1..];
    }
  }

  /** Without letters, every case mapping is the identity. */
  lemma {:induction false} CaseMapsFixLetterless(s: string, prevCased: bool)
    requires NoLetter(s)
    ensures Lower(s) == s && Upper(s) == s && TitleFrom(s, prevCased) == s
  {
    if |s| > 0 {
      CaseMapsFixLetterless(s[1..], false);
    }
  }

  // ---------------------------------------------------------------------------
  // str.strip()
  // ---------------------------------------------------------------------------

  predicate AllSpace(s: string) { forall i :: 0 <= i < |s| ==> IsSpace(s[i]) }

  /** Every character of `s` outside positions `lo..hi` is whitespace. */
  predicate SpaceOutside(s: string, lo: int, hi: int) {
    forall k :: 0 <= k < |s| && !(lo <= k < hi) ==> IsSpace(s[k])
  }

  /** `r` is the slice of `s` at `i`, and only whitespace lies around it. */
  predicate SliceInSpace(s: string, i: nat, r: string) {
    i + |r| <= |s| && s[i..i + |r|] == r && SpaceOutside(s, i, i + |r|)
  }

  /** Neither end is whitespace: what `str.strip()` returns. */
  predicate Stripped(s: string) { |s| == 0 || (!IsSpace(s[0]) && !IsSpace(s[|s| - 1])) }

  /** Length of the leading run of whitespace. */
  function LeadingSpace(s: string): (n: nat)
    ensures n <= |s|
    ensures forall k :: 0 <= k < n ==> IsSpace(s[k])
    ensures n == |s| || !IsSpace(s[n])
  {
    if |s| > 0 && IsSpace(s[0]) then 1 + LeadingSpace(s[1..]) else 0
  }

  /** Length of the trailing run of whitespace. */
  function TrailingSpace(s: string): (n: nat)
    ensures n <= |s|
    ensures forall k :: |s| - n <= k < |s| ==> IsSpace(s[k])
    ensures n == |s| || !IsSpace(s[|s| - n - 1])
  {
    if |s| > 0 && IsSpace(s[|s| - 1]) then 1 + TrailingSpace(s[..|s| - 1]) else 0
  }

  /** Any index with whitespace before it and none at it is the leading-space length. */
  lemma LeadingSpaceIs(s: string, k: nat)
    requires k <= |s| && forall j :: 0 <= j < k ==> IsSpace(s[j])
    requires k == |s| || !IsSpace(s[k])
    ensures LeadingSpace(s) == k
  {
  }

  /** Any count with whitespace after it and none just before it is the trailing-space length. */
  lemma TrailingSpaceIs(s: string, k: nat)
    requires k <= |s| && forall j :: |s| - k <= j < |s| ==> IsSpace(s[j])
    requires k == |s| || !IsSpace(s[|s| - k - 1])
    ensures TrailingSpace(s) == k
  {
  }

  /**
   * `str.strip()`: the result is the slice of `s` outside of which there is
   * only whitespace, and it has no whitespace at either end.
   */
  function Strip(s: string): (r: string)
    ensures Stripped(r)
    ensures exists i: nat :: SliceInSpace(s, i, r)
  {
    var a := LeadingSpace(s);
    var b := TrailingSpace(s[a..]);
    assert forall k :: |s| - b <= k < |s| ==> s[k] == s[a..][k - a];
    var r := s[a..|s| - b];
    assert |r| > 0 ==> r[0] == s[a] && r[|r| - 1] == s[a..][|s[a..]| - b - 1];
    assert s[a..a + |r|] == r;
    assert SliceInSpace(s, a, r);
    r
  }

  /** The decomposition in Strip's contract is unique. */
  lemma StripUnique(s: string, i: nat, r: string)
    requires SliceInSpace(s, i, r) && Stripped(r)
    ensures Strip(s) == r
  {
    if |r| > 0 {
      assert s[i] == r[0];
      LeadingSpaceIs(s, i);
      var t := s[i..];
      assert t[|r| - 1] == r[|r| - 1];
      assert forall k :: |r| <= k < |t| ==> t[k] == s[i + k];
      TrailingSpaceIs(t, |t| - |r|);
      assert t[..|r|] == r;
    } else {
      LeadingSpaceIs(s, |s|);
    }
  }

  /** Whitespace appended to a string does not change its strip. */
  lemma StripIgnoresTrailingSpace(s: string, w: string)
    requires AllSpace(w)
    ensures Strip(s + w) == Strip(s)
  {
    var r := Strip(s);
    var i: nat :| SliceInSpace(s, i, r);
    assert (s + w)[i..i + |r|] == r;
    assert forall k :: |s| <= k < |s + w| ==> (s + w)[k] == w[k - |s|];
    StripUnique(s + w, i, r);
  }

  /** A string that is already stripped is its own strip. */
  lemma StripKeepsStripped(s: string)
    requires Stripped(s)
    ensures Strip(s) == s
  {
    assert SliceInSpace(s, 0, s);
    StripUnique(s, 0, s);
  }

  /** A string of whitespace strips to the empty string. */
  lemma StripAllSpace(s: string)
    requires AllSpace(s)
    ensures Strip(s) == ""
  {
    assert SliceInSpace(s, 0, "");
    StripUnique(s, 0, "");
  }

  /** `sep.join(parts)`. */
  function Join(parts: seq<string>, sep: string): string {
    if |parts| == 0 then ""
    else if |parts| == 1 then parts[0]
    else Join(parts[..|parts| - 1], sep) + sep + parts[|parts| - 1]
  }
}
