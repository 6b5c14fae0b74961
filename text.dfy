/** The few text operations the command interpreter relies on, each stated twice:
    once as the function the interpreter evaluates (a scan, character by character)
    and once as a reference definition (slices and quantifiers), with a lemma that
    the two agree.

    - `Lower`: Python's `str.lower`, restricted to ASCII.
    - `Contains`: Python's `pat in s`.
    - `ContainsWord`: `re.search(r'\b' + re.escape(w) + r'\b', s)`.
    - `Search`: `re.search(r'(v1|...|vn)\s+(d1|...|dm)', s)`. */
module Text {

  // ---------------------------------------------------------------------------
  // Lowercasing
  // ---------------------------------------------------------------------------

  predicate IsUpper(c: char) { 'A' <= c <= 'Z' }

  /** `str.lower` on one character: ASCII capitals become small letters. */
  function LowerChar(c: char): char
  {
    if IsUpper(c) then (c as int - 'A' as int + 'a' as int) as char else c
  }

  function Lower(s: string): string
  {
    if s == [] then [] else [LowerChar(s[0])] + Lower(s[1..])
  }

  /** `Lower` works character by character and keeps the length. */
  lemma {:induction false} LowerAt(s: string)
    ensures |Lower(s)| == |s|
    ensures forall i :: 0 <= i < |s| ==> Lower(s)[i] == LowerChar(s[i])
  {
    if s != [] {
      LowerAt(s[1..]);
    }
  }

  /** No ASCII capital survives lowercasing, and lowercasing twice changes nothing. */
  lemma LowerIsIdempotent(s: string)
    ensures forall i :: 0 <= i < |Lower(s)| ==> !IsUpper(Lower(s)[i])
    ensures Lower(Lower(s)) == Lower(s)
  {
    LowerAt(s);
    LowerAt(Lower(s));
  }

  /** Two strings that differ only in the case of ASCII letters. */
  predicate SameIgnoringCase(a: string, b: string)
  {
    |a| == |b| && forall i :: 0 <= i < |a| ==> LowerChar(a[i]) == LowerChar(b[i])
  }

  lemma SameIgnoringCaseLowersAlike(a: string, b: string)
    requires SameIgnoringCase(a, b)
    ensures Lower(a) == Lower(b)
  {
    LowerAt(a);
    LowerAt(b);
  }

  // ---------------------------------------------------------------------------
  // Character classes of Python's `re` module for str patterns
  // ---------------------------------------------------------------------------

  /** `\s`: the characters `str.isspace` accepts. */
  predicate IsSpace(c: char)
  {
    c == ' ' || '\t' <= c <= '\r' || '\U{1c}' <= c <= '\U{1f}'
    || c == '\U{85}' || c == '\U{a0}' || c == '\U{1680}'
    || '\U{2000}' <= c <= '\U{200a}' || c == '\U{2028}' || c == '\U{2029}'
    || c == '\U{202f}' || c == '\U{205f}' || c == '\U{3000}'
  }

  /** `\w`, on ASCII: letters, digits and the underscore. */
  predicate IsWordChar(c: char)
  {
    'a' <= c <= 'z' || 'A' <= c <= 'Z' || '0' <= c <= '9' || c == '_'
  }

  /** `\b` at position `p`: exactly one of the characters around `p` is a word character
      (the ends of the string count as non-word characters). */
  predicate IsBoundary(s: string, p: nat)
    requires p <= |s|
  {
    (0 < p && IsWordChar(s[p - 1])) != (p < |s| && IsWordChar(s[p]))
  }

  // ---------------------------------------------------------------------------
  // Occurrence of a literal
  // ---------------------------------------------------------------------------

  /** Reference definition: `pat` occurs in `s` starting at index `i`. */
  ghost predicate OccursAt(s: string, pat: string, i: nat)
  {
    i + |pat| <= |s| && s[i..i + |pat|] == pat
  }

  /** `pat[k..]` agrees with `s` from index `i + k` on. */
  predicate AgreesFrom(s: string, pat: string, i: nat, k: nat)
    requires k <= |pat|
    decreases |pat| - k
  {
    k == |pat| || (i + k < |s| && s[i + k] == pat[k] && AgreesFrom(s, pat, i, k + 1))
  }

  /** The literal `pat` starts at index `i` of `s`, compared character by character. */
  predicate PrefixAt(s: string, pat: string, i: nat)
  {
    i + |pat| <= |s| && AgreesFrom(s, pat, i, 0)
  }

  lemma {:induction false} AgreesFromChars(s: string, pat: string, i: nat, k: nat)
    requires k <= |pat| && i + |pat| <= |s|
    ensures AgreesFrom(s, pat, i, k) <==> forall m :: k <= m < |pat| ==> s[i + m] == pat[m]
    decreases |pat| - k
  {
    if k < |pat| {
      AgreesFromChars(s, pat, i, k + 1);
    }
  }

  /** The character-by-character comparison decides the reference definition. */
  lemma PrefixAtIsOccurrence(s: string, pat: string, i: nat)
    ensures PrefixAt(s, pat, i) <==> OccursAt(s, pat, i)
  {
    if i + |pat| <= |s| {
      AgreesFromChars(s, pat, i, 0);
      if AgreesFrom(s, pat, i, 0) {
        assert s[i..i + |pat|] == pat;
      } else {
        var m :| 0 <= m < |pat| && s[i + m] != pat[m];
        assert s[i..i + |pat|][m] != pat[m];
      }
    }
  }

  /** Some occurrence of `pat` starts at an index `j >= i`. */
  predicate ContainsFrom(s: string, pat: string, i: nat)
    requires i <= |s|
    decreases |s| - i
  {
    PrefixAt(s, pat, i) || (i < |s| && ContainsFrom(s, pat, i + 1))
  }

  /** Python's `pat in s`. */
  predicate Contains(s: string, pat: string)
  {
    ContainsFrom(s, pat, 0)
  }

  lemma {:induction false} ContainsFromSpec(s: string, pat: string, i: nat)
    requires i <= |s|
    ensures ContainsFrom(s, pat, i) <==> exists j: nat :: i <= j && OccursAt(s, pat, j)
    decreases |s| - i
  {
    PrefixAtIsOccurrence(s, pat, i);
    if i < |s| {
      ContainsFromSpec(s, pat, i + 1);
      if exists j: nat :: i <= j && OccursAt(s, pat, j) {
        var j: nat :| i <= j && OccursAt(s, pat, j);
        assert j == i || (i + 1 <= j && OccursAt(s, pat, j));
      }
    } else {
      if exists j: nat :: i <= j && OccursAt(s, pat, j) {
        var j: nat :| i <= j && OccursAt(s, pat, j);
        assert j == i;
      }
    }
  }

  /** `pat in s` holds exactly when `pat` occurs somewhere in `s`. */
  lemma ContainsIsOccurrence(s: string, pat: string)
    ensures Contains(s, pat) <==> exists j: nat :: OccursAt(s, pat, j)
  {
    ContainsFromSpec(s, pat, 0);
  }

  /** A literal with a character that `s` lacks is not contained in `s`. */
  lemma MissingCharNotContained(s: string, pat: string, k: nat)
    requires k < |pat| && pat[k] !in s
    ensures !Contains(s, pat)
  {
    ContainsIsOccurrence(s, pat);
    forall j: nat | OccursAt(s, pat, j)
      ensures false
    {
    }
  }

  // ---------------------------------------------------------------------------
  // Whole-word search: \b w \b
  // ---------------------------------------------------------------------------

  /** Reference definition: `w` occurs at `i` with a word boundary on both sides. */
  ghost predicate WholeWordAt(s: string, w: string, i: nat)
  {
    OccursAt(s, w, i) && IsBoundary(s, i) && IsBoundary(s, i + |w|)
  }

  predicate WordFrom(s: string, w: string, i: nat)
    requires i <= |s|
    decreases |s| - i
  {
    (PrefixAt(s, w, i) && IsBoundary(s, i) && IsBoundary(s, i + |w|))
    || (i < |s| && WordFrom(s, w, i + 1))
  }

  /** `re.search(r'\b' + re.escape(w) + r'\b', s)` finds a match. */
  predicate ContainsWord(s: string, w: string)
  {
    WordFrom(s, w, 0)
  }

  lemma {:induction false} WordFromSpec(s: string, w: string, i: nat)
    requires i <= |s|
    ensures WordFrom(s, w, i) <==> exists j: nat :: i <= j && WholeWordAt(s, w, j)
    decreases |s| - i
  {
    PrefixAtIsOccurrence(s, w, i);
    if PrefixAt(s, w, i) && IsBoundary(s, i) && IsBoundary(s, i + |w|) {
      assert WholeWordAt(s, w, i);
    }
    if i < |s| {
      WordFromSpec(s, w, i + 1);
      if exists j: nat :: i <= j && WholeWordAt(s, w, j) {
        var j: nat :| i <= j && WholeWordAt(s, w, j);
        assert j == i || (i + 1 <= j && WholeWordAt(s, w, j));
      }
    } else {
      if exists j: nat :: i <= j && WholeWordAt(s, w, j) {
        var j: nat :| i <= j && WholeWordAt(s, w, j);
        assert j == i;
      }
    }
  }

  /** The scan finds a match exactly when a word-bounded occurrence exists. */
  lemma ContainsWordIsWholeWord(s: string, w: string)
    ensures ContainsWord(s, w) <==> exists j: nat :: WholeWordAt(s, w, j)
  {
    WordFromSpec(s, w, 0);
  }

  /** A whole-word match is in particular an occurrence. */
  lemma WholeWordIsContained(s: string, w: string)
    ensures ContainsWord(s, w) ==> Contains(s, w)
  {
    ContainsWordIsWholeWord(s, w);
    ContainsIsOccurrence(s, w);
  }

  // ---------------------------------------------------------------------------
  // Verb, whitespace, direction: (v1|...|vn)\s+(d1|...|dm)
  // ---------------------------------------------------------------------------

  /** The alternatives of the two groups of a tier-one pattern. */
  datatype Phrase = Phrase(verbs: seq<string>, directions: seq<string>)

  ghost predicate SpacesBetween(s: string, a: nat, b: nat)
    requires a <= b <= |s|
  {
    forall k :: a <= k < b ==> IsSpace(s[k])
  }

  /** Reference definition: the pattern matches with verb `v` at `i`, one or more
      whitespace characters after it and direction `d` at `j`. */
  ghost predicate PhraseAt(s: string, v: string, d: string, i: nat, j: nat)
  {
    OccursAt(s, v, i) && i + |v| < j && OccursAt(s, d, j) && SpacesBetween(s, i + |v|, j)
  }

  /** Reference definition of `re.search` with the pattern of `p`: some match exists. */
  ghost predicate Matches(s: string, p: Phrase)
  {
    exists i: nat, a, j: nat, b ::
      0 <= a < |p.verbs| && 0 <= b < |p.directions| && PhraseAt(s, p.verbs[a], p.directions[b], i, j)
  }

  /** End of the longest run of whitespace starting at `k`. */
  function SpaceRunEnd(s: string, k: nat): (e: nat)
    requires k <= |s|
    ensures k <= e <= |s|
    ensures forall m :: k <= m < e ==> IsSpace(s[m])
    ensures e == |s| || !IsSpace(s[e])
    decreases |s| - k
  {
    if k < |s| && IsSpace(s[k]) then SpaceRunEnd(s, k + 1) else k
  }

  /** Some direction of `p` starts at `e`. */
  predicate DirectionAt(s: string, p: Phrase, e: nat)
  {
    exists b | 0 <= b < |p.directions| :: PrefixAt(s, p.directions[b], e)
  }

  /** A match starts at `i`: a verb, then the whole whitespace run after it (at least
      one character), then a direction. */
  predicate PhraseStartsAt(s: string, p: Phrase, i: nat)
  {
    exists a | 0 <= a < |p.verbs| ::
      PrefixAt(s, p.verbs[a], i)
      && i + |p.verbs[a]| < SpaceRunEnd(s, i + |p.verbs[a]|)
      && DirectionAt(s, p, SpaceRunEnd(s, i + |p.verbs[a]|))
  }

  predicate SearchFrom(s: string, p: Phrase, i: nat)
    requires i <= |s|
    decreases |s| - i
  {
    PhraseStartsAt(s, p, i) || (i < |s| && SearchFrom(s, p, i + 1))
  }

  /** `re.search` with the pattern of `p`, scanning left to right. */
  predicate Search(s: string, p: Phrase)
  {
    SearchFrom(s, p, 0)
  }

  /** Every direction starts with a character that is not whitespace, as `on`, `up`,
      `off` and `down` do: then taking the whole whitespace run loses no match. */
  predicate DirectionsStartSolid(p: Phrase)
  {
    forall b :: 0 <= b < |p.directions| ==> |p.directions[b]| > 0 && !IsSpace(p.directions[b][0])
  }

  /** A whitespace run that stops at a non-space (or the end) is the longest run. */
  lemma RunEndIsUnique(s: string, k: nat, j: nat)
    requires k <= j <= |s|
    requires forall m :: k <= m < j ==> IsSpace(s[m])
    requires j == |s| || !IsSpace(s[j])
    ensures SpaceRunEnd(s, k) == j
  {
    var e := SpaceRunEnd(s, k);
    assert !(e < j) && !(j < e);
  }

  /** What the scan finds at `i` is a match of the reference definition. */
  lemma ScanFindsPhrase(s: string, p: Phrase, i: nat, a: nat, b: nat)
    requires a < |p.verbs| && b < |p.directions|
    requires PrefixAt(s, p.verbs[a], i)
    requires i + |p.verbs[a]| < SpaceRunEnd(s, i + |p.verbs[a]|)
    requires PrefixAt(s, p.directions[b], SpaceRunEnd(s, i + |p.verbs[a]|))
    ensures PhraseAt(s, p.verbs[a], p.directions[b], i, SpaceRunEnd(s, i + |p.verbs[a]|))
  {
    PrefixAtIsOccurrence(s, p.verbs[a], i);
    PrefixAtIsOccurrence(s, p.directions[b], SpaceRunEnd(s, i + |p.verbs[a]|));
  }

  /** A match of the reference definition at `i` is found by the scan at `i`. */
  lemma PhraseIsScanned(s: string, p: Phrase, i: nat, a: nat, j: nat, b: nat)
    requires DirectionsStartSolid(p)
    requires a < |p.verbs| && b < |p.directions|
    requires PhraseAt(s, p.verbs[a], p.directions[b], i, j)
    ensures PhraseStartsAt(s, p, i)
  {
    var v, d := p.verbs[a], p.directions[b];
    assert s[j..j + |d|][0] == s[j];
    RunEndIsUnique(s, i + |v|, j);
    PrefixAtIsOccurrence(s, v, i);
    PrefixAtIsOccurrence(s, d, j);
    assert DirectionAt(s, p, j);
  }

  lemma PhraseStartsAtSpec(s: string, p: Phrase, i: nat)
    requires DirectionsStartSolid(p)
    ensures PhraseStartsAt(s, p, i) <==>
      exists a, j: nat, b :: 0 <= a < |p.verbs| && 0 <= b < |p.directions|
                             && PhraseAt(s, p.verbs[a], p.directions[b], i, j)
  {
    if PhraseStartsAt(s, p, i) {
      var a :| 0 <= a < |p.verbs| && PrefixAt(s, p.verbs[a], i)
               && i + |p.verbs[a]| < SpaceRunEnd(s, i + |p.verbs[a]|)
               && DirectionAt(s, p, SpaceRunEnd(s, i + |p.verbs[a]|));
      var b :| 0 <= b < |p.directions| && PrefixAt(s, p.directions[b], SpaceRunEnd(s, i + |p.verbs[a]|));
      ScanFindsPhrase(s, p, i, a, b);
    }
    if exists a, j: nat, b :: 0 <= a < |p.verbs| && 0 <= b < |p.directions|
                             && PhraseAt(s, p.verbs[a], p.directions[b], i, j) {
      var a, j: nat, b :| 0 <= a < |p.verbs| && 0 <= b < |p.directions|
                          && PhraseAt(s, p.verbs[a], p.directions[b], i, j);
      PhraseIsScanned(s, p, i, a, j, b);
    }
  }

  lemma {:induction false} SearchFromSpec(s: string, p: Phrase, i: nat)
    requires DirectionsStartSolid(p)
    requires i <= |s|
    ensures SearchFrom(s, p, i) <==>
      exists i': nat, a, j: nat, b :: i <= i' && 0 <= a < |p.verbs| && 0 <= b < |p.directions|
                                      && PhraseAt(s, p.verbs[a], p.directions[b], i', j)
    decreases |s| - i
  {
    PhraseStartsAtSpec(s, p, i);
    if i < |s| {
      SearchFromSpec(s, p, i + 1);
    }
    if exists i': nat, a, j: nat, b :: i <= i' && 0 <= a < |p.verbs| && 0 <= b < |p.directions|
                                      && PhraseAt(s, p.verbs[a], p.directions[b], i', j) {
      var i': nat, a, j: nat, b :| i <= i' && 0 <= a < |p.verbs| && 0 <= b < |p.directions|
                                   && PhraseAt(s, p.verbs[a], p.directions[b], i', j);
      if i' != i {
        assert i < |s|;
        assert PhraseAt(s, p.verbs[a], p.directions[b], i', j);
      }
    }
  }

  /** The left-to-right scan that takes the whole whitespace run after a verb finds a
      match exactly when the regular expression has one. */
  lemma SearchIsMatch(s: string, p: Phrase)
    requires DirectionsStartSolid(p)
    ensures Search(s, p) <==> Matches(s, p)
  {
    SearchFromSpec(s, p, 0);
  }

  /** A match needs one of the directions to occur in `s`. */
  lemma SearchNeedsDirection(s: string, p: Phrase)
    requires DirectionsStartSolid(p)
    requires forall b :: 0 <= b < |p.directions| ==> !Contains(s, p.directions[b])
    ensures !Search(s, p)
  {
    SearchIsMatch(s, p);
    if Matches(s, p) {
      var i: nat, a, j: nat, b :| 0 <= a < |p.verbs| && 0 <= b < |p.directions|
                                  && PhraseAt(s, p.verbs[a], p.directions[b], i, j);
      ContainsIsOccurrence(s, p.directions[b]);
    }
  }

  /** A match needs one of the verbs to occur in `s`. */
  lemma SearchNeedsVerb(s: string, p: Phrase)
    requires DirectionsStartSolid(p)
    requires forall a :: 0 <= a < |p.verbs| ==> !Contains(s, p.verbs[a])
    ensures !Search(s, p)
  {
    SearchIsMatch(s, p);
    if Matches(s, p) {
      var i: nat, a, j: nat, b :| 0 <= a < |p.verbs| && 0 <= b < |p.directions|
                                  && PhraseAt(s, p.verbs[a], p.directions[b], i, j);
      ContainsIsOccurrence(s, p.verbs[a]);
    }
  }
}
