/**
 * Whole-word literal matching as Python's `re` performs it for the pattern
 * `\b` + `re.escape(p)` + `\b`: `re.search` (leftmost occurrence) and
 * `re.sub` with the IGNORECASE flag (left-to-right, non-overlapping).
 *
 * `\b` holds at position k of t exactly when "t[k-1] is a word character"
 * differs from "t[k] is a word character", positions outside t counting as
 * non-word.
 */
module WordMatch {
  import opened Wrappers
  import opened Chars

  /** Position k of t exists and holds a word character. */
  predicate WordAt(t: string, k: int) { 0 <= k < |t| && IsWordChar(t[k]) }

  /** Python's `\b` at position k of t. */
  predicate Boundary(t: string, k: int) { WordAt(t, k - 1) != WordAt(t, k) }

  /** `\b p \b` matches t starting at k. */
  predicate MatchAt(p: string, t: string, k: nat) {
    k + |p| <= |t| && t[k..k + |p|] == p && Boundary(t, k) && Boundary(t, k + |p|)
  }

  /** `re.search(r'\b' + re.escape(p) + r'\b', t)` succeeds. */
  predicate Occurs(p: string, t: string) { exists k: nat | k <= |t| :: MatchAt(p, t, k) }

  /** The leftmost match at or after `from`, as `re.search` scans. */
  function FindFrom(p: string, t: string, from: nat): (r: Option<nat>)
    decreases |t| - from
    ensures r.Some? ==> from <= r.value && r.value + |p| <= |t|
  {
    if from + |p| > |t| then None
    else if MatchAt(p, t, from) then Some(from)
    else FindFrom(p, t, from + 1)
  }

  /** FindFrom returns the leftmost match at or after `from`, and None when there is none. */
  lemma {:induction false} FindFromLeftmost(p: string, t: string, from: nat)
    decreases |t| - from
    ensures FindFrom(p, t, from).Some? ==> MatchAt(p, t, FindFrom(p, t, from).value)
    ensures FindFrom(p, t, from).Some? ==>
      forall k: nat :: from <= k < FindFrom(p, t, from).value ==> !MatchAt(p, t, k)
    ensures FindFrom(p, t, from).None? ==> forall k: nat :: from <= k ==> !MatchAt(p, t, k)
  {
    if from + |p| <= |t| && !MatchAt(p, t, from) {
      FindFromLeftmost(p, t, from + 1);
    }
  }

  /** `re.search`: the leftmost match, present exactly when the literal occurs as a whole word. */
  function Search(p: string, t: string): (r: Option<nat>)
    ensures r.Some? <==> Occurs(p, t)
    ensures r.Some? ==> MatchAt(p, t, r.value) && forall k: nat :: k < r.value ==> !MatchAt(p, t, k)
  {
    FindFromLeftmost(p, t, 0);
    FindFrom(p, t, 0)
  }

  /** A literal ending in a non-word character needs a word character right after it. */
  lemma TrailingNonWordNeedsWordAfter(p: string, t: string, k: nat)
    requires |p| > 0 && !IsWordChar(p[|p| - 1]) && MatchAt(p, t, k)
    ensures WordAt(t, k + |p|)
  {
    assert t[k + |p| - 1] == p[|p| - 1];
  }

  /** A literal starting with a word character cannot match right after a word character. */
  lemma LeadingWordNeedsNonWordBefore(p: string, t: string, k: nat)
    requires |p| > 0 && IsWordChar(p[0]) && MatchAt(p, t, k)
    ensures !WordAt(t, k - 1)
  {
    assert t[k] == p[0];
  }

  /** Lower-casing the text does not move any `\b`. */
  lemma LowerKeepsBoundaries(t: string, k: int)
    ensures Boundary(Lower(t), k) == Boundary(t, k)
  {
  }

  // ---------------------------------------------------------------------------
  // re.IGNORECASE and re.sub
  // ---------------------------------------------------------------------------

  /**
   * `\b p \b` under IGNORECASE matches t at k: with ASCII case folding, the
   * lower-cased literal matches the lower-cased text (lower-casing moves no
   * `\b`, see LowerKeepsBoundaries).
   */
  predicate MatchAtIgnoreCase(p: string, t: string, k: nat) {
    MatchAt(Lower(p), Lower(t), k)
  }

  /** A case-insensitive match compares the matched span and the literal after lower-casing both. */
  lemma IgnoreCaseSpan(p: string, t: string, k: nat)
    ensures MatchAtIgnoreCase(p, t, k) <==>
      k + |p| <= |t| && Lower(t[k..k + |p|]) == Lower(p) && Boundary(t, k) && Boundary(t, k + |p|)
  {
    LowerKeepsBoundaries(t, k);
    LowerKeepsBoundaries(t, k + |p|);
    if k + |p| <= |t| {
      LowerSlice(t, k, k + |p|);
    }
  }

  /**
   * `pattern.sub(repl, t[pos..])` for `pattern = re.compile(r'\b' + re.escape(p) + r'\b',
   * re.IGNORECASE)`: scanning left to right, each match is replaced by `repl`
   * and scanning resumes after it. An empty `p` matches (emptily) at every
   * boundary, where `repl` is inserted before the next character is copied.
   */
  function SubFrom(p: string, repl: string, t: string, pos: nat): string
    requires pos <= |t|
    decreases |t| - pos
  {
    if MatchAtIgnoreCase(p, t, pos) then
      if |p| > 0 then repl + SubFrom(p, repl, t, pos + |p|)
      else if pos == |t| then repl
      else repl + [t[pos]] + SubFrom(p, repl, t, pos + 1)
    else if pos == |t| then ""
    else [t[pos]] + SubFrom(p, repl, t, pos + 1)
  }

  function Substitute(p: string, repl: string, t: string): string { SubFrom(p, repl, t, 0) }

  /**
   * What substitution yields from `pos` when the leftmost match from `pos` is
   * `found`: the text before it, then `repl`, then substitution after it.
   */
  function SubAround(p: string, repl: string, t: string, pos: nat, found: Option<nat>): string
    requires pos <= |t|
    requires found.Some? ==> pos <= found.value && found.value + |p| <= |t|
  {
    match found
    case None => t[pos..]
    case Some(k) => t[pos..k] + repl + SubFrom(p, repl, t, k + |p|)
  }

  /**
   * Substitution is leftmost-first and non-overlapping: the text up to the
   * first case-insensitive whole-word match is copied, the match becomes
   * `repl`, and substitution continues after the match; with no match the
   * rest of the text is copied unchanged.
   */
  lemma {:induction false} SubFromLeftmost(p: string, repl: string, t: string, pos: nat)
    requires |p| > 0 && pos <= |t|
    decreases |t| - pos
    ensures SubFrom(p, repl, t, pos) == SubAround(p, repl, t, pos, FindFrom(Lower(p), Lower(t), pos))
  {
    if MatchAtIgnoreCase(p, t, pos) {
      SubAtMatch(p, repl, t, pos);
    } else if pos < |t| {
      SubFromLeftmost(p, repl, t, pos + 1);
      SubPastMismatch(p, repl, t, pos);
    }
  }

  /** From the start of the text: the leftmost match found by `re.search` is the first one replaced. */
  lemma SubstituteLeftmost(p: string, repl: string, t: string, k: nat)
    requires |p| > 0 && FindFrom(Lower(p), Lower(t), 0) == Some(k)
    ensures k + |p| <= |t|
    ensures Substitute(p, repl, t) == t[..k] + repl + SubFrom(p, repl, t, k + |p|)
  {
    assert k + |p| <= |t| by {
      assert |Lower(t)| == |t| && |Lower(p)| == |p|;
    }
    assert Substitute(p, repl, t) == SubAround(p, repl, t, 0, Some(k)) by {
      SubFromLeftmost(p, repl, t, 0);
    }
    assert t[0..k] == t[..k];
  }

  lemma SearchIsFindFrom(p: string, t: string)
    ensures Search(p, t) == FindFrom(p, t, 0)
  {
  }

  lemma SubAtMatch(p: string, repl: string, t: string, pos: nat)
    requires |p| > 0 && pos <= |t| && MatchAtIgnoreCase(p, t, pos)
    ensures SubFrom(p, repl, t, pos) == SubAround(p, repl, t, pos, FindFrom(Lower(p), Lower(t), pos))
  {
    assert |Lower(t)| == |t| && |Lower(p)| == |p|;
    assert FindFrom(Lower(p), Lower(t), pos) == Some(pos);
    var rest := SubFrom(p, repl, t, pos + |p|);
    assert SubFrom(p, repl, t, pos) == repl + rest;
    assert t[pos..pos] == "";
  }

  lemma SubPastMismatch(p: string, repl: string, t: string, pos: nat)
    requires |p| > 0 && pos < |t| && !MatchAtIgnoreCase(p, t, pos)
    requires SubFrom(p, repl, t, pos + 1) ==
             SubAround(p, repl, t, pos + 1, FindFrom(Lower(p), Lower(t), pos + 1))
    ensures SubFrom(p, repl, t, pos) == SubAround(p, repl, t, pos, FindFrom(Lower(p), Lower(t), pos))
  {
    SubStepCopies(p, repl, t, pos);
    SearchStepSkips(p, t, pos);
    SubAroundStep(p, repl, t, pos, FindFrom(Lower(p), Lower(t), pos + 1));
  }

  lemma SubStepCopies(p: string, repl: string, t: string, pos: nat)
    requires pos < |t| && !MatchAtIgnoreCase(p, t, pos)
    ensures SubFrom(p, repl, t, pos) == [t[pos]] + SubFrom(p, repl, t, pos + 1)
  {
  }

  lemma SearchStepSkips(p: string, t: string, pos: nat)
    requires pos < |t| && !MatchAtIgnoreCase(p, t, pos)
    ensures FindFrom(Lower(p), Lower(t), pos) == FindFrom(Lower(p), Lower(t), pos + 1)
  {
  }

  lemma SubAroundStep(p: string, repl: string, t: string, pos: nat, found: Option<nat>)
    requires pos < |t|
    requires found.Some? ==> pos + 1 <= found.value && found.value + |p| <= |t|
    ensures SubAround(p, repl, t, pos, found) == [t[pos]] + SubAround(p, repl, t, pos + 1, found)
  {
    match found
    case None =>
      assert t[pos..] == [t[pos]] + t[pos + 1..];
    case Some(k) =>
      assert t[pos..k] == [t[pos]] + t[pos + 1..k];
  }

  /** Substitution changes nothing when the literal has no case-insensitive whole-word occurrence. */
  lemma SubstituteWithoutMatch(p: string, repl: string, t: string)
    requires forall k: nat :: !MatchAtIgnoreCase(p, t, k)
    ensures Substitute(p, repl, t) == t
  {
    if |p| > 0 {
      SubFromLeftmost(p, repl, t, 0);
      FindFromLeftmost(Lower(p), Lower(t), 0);
      if FindFrom(Lower(p), Lower(t), 0).Some? {
        assert MatchAtIgnoreCase(p, t, FindFrom(Lower(p), Lower(t), 0).value);
      }
    } else {
      SubFromEmptyWithoutMatch(repl, t, 0);
    }
  }

  /** With an empty literal and no boundary anywhere, the text is copied. */
  lemma {:induction false} SubFromEmptyWithoutMatch(repl: string, t: string, pos: nat)
    requires pos <= |t| && forall k: nat :: !MatchAtIgnoreCase("", t, k)
    decreases |t| - pos
    ensures SubFrom("", repl, t, pos) == t[pos..]
  {
    assert !MatchAtIgnoreCase("", t, pos);
    if pos < |t| {
      SubFromEmptyWithoutMatch(repl, t, pos + 1);
      assert t[pos..] == [t[pos]] + t[pos + 1..];
    }
  }
}
