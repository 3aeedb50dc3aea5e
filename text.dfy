/** Python's string trimming, as used throughout the application:
    `str.strip()` (Unicode whitespace) and `str.strip(chars)` (a given set
    of characters). Both are one operation parameterised by the predicate
    that says which characters are dropped at either end. */
module Text {

  /** `str.isspace()` for one code point: the characters Python's
      `str.strip()` removes when it is called without arguments. */
  predicate IsSpace(c: char) {
    ('\U{9}' <= c <= '\U{D}') || ('\U{1C}' <= c <= '\U{20}')
    || c == '\U{85}' || c == '\U{A0}' || c == '\U{1680}'
    || ('\U{2000}' <= c <= '\U{200A}') || c == '\U{2028}' || c == '\U{2029}'
    || c == '\U{202F}' || c == '\U{205F}' || c == '\U{3000}'
  }

  /** Number of characters `strip` removes from the front of `s`. */
  function LeadingCount(s: string, drop: char -> bool): (n: nat)
    ensures n <= |s|
    ensures forall k :: 0 <= k < n ==> drop(s[k])
    ensures n < |s| ==> !drop(s[n])
  {
    if s == [] || !drop(s[0]) then 0 else 1 + LeadingCount(s[1..], drop)
  }

  /** Neither end of `s` holds a character that `strip` would drop. */
  predicate IsStrippedBy(s: string, drop: char -> bool) {
    s == [] || (!drop(s[0]) && !drop(s[|s| - 1]))
  }

  /** `s.strip(chars)` where `drop` tells the members of `chars`:
      dropped characters are removed one at a time from the front, then
      from the back. */
  function StripBy(s: string, drop: char -> bool): (r: string)
    ensures |r| <= |s|
  {
    if s != [] && drop(s[0]) then StripBy(s[1..], drop)
    else if s != [] && drop(s[|s| - 1]) then StripBy(s[..|s| - 1], drop)
    else s
  }

  /** The shape of `strip`'s result: the slice of `s` after its dropped
      prefix, with nothing to drop at either end, followed in `s` only by
      dropped characters. */
  lemma {:induction false} StripByShape(s: string, drop: char -> bool)
    ensures LeadingCount(s, drop) + |StripBy(s, drop)| <= |s|
    ensures StripBy(s, drop) == s[LeadingCount(s, drop)..LeadingCount(s, drop) + |StripBy(s, drop)|]
    ensures IsStrippedBy(StripBy(s, drop), drop)
    ensures forall k :: LeadingCount(s, drop) + |StripBy(s, drop)| <= k < |s| ==> drop(s[k])
    decreases |s|
  {
    if s != [] && drop(s[0]) {
      var s' := s[1..];
      StripByShape(s', drop);
      assert LeadingCount(s, drop) == 1 + LeadingCount(s', drop);
      var a := LeadingCount(s', drop);
      var n := |StripBy(s', drop)|;
      assert s'[a..a + n] == s[a + 1..a + 1 + n];
      forall k | a + 1 + n <= k < |s| ensures drop(s[k]) {
        assert s[k] == s'[k - 1];
      }
    } else if s != [] && drop(s[|s| - 1]) {
      var s' := s[..|s| - 1];
      StripByShape(s', drop);
      assert LeadingCount(s, drop) == 0 && LeadingCount(s', drop) == 0;
    }
  }

  /** What `strip` promises: the result is empty exactly when every
      character is dropped; it has nothing to drop at either end; a string
      with nothing to drop is left as it is; and the result is the slice of
      `s` after its dropped prefix, followed only by dropped characters. */
  lemma StripBySpec(s: string, drop: char -> bool)
    ensures StripBy(s, drop) == [] <==> forall k :: 0 <= k < |s| ==> drop(s[k])
    ensures IsStrippedBy(StripBy(s, drop), drop)
    ensures IsStrippedBy(s, drop) ==> StripBy(s, drop) == s
    ensures LeadingCount(s, drop) + |StripBy(s, drop)| <= |s|
    ensures StripBy(s, drop) == s[LeadingCount(s, drop)..LeadingCount(s, drop) + |StripBy(s, drop)|]
    ensures forall k :: LeadingCount(s, drop) + |StripBy(s, drop)| <= k < |s| ==> drop(s[k])
  {
    StripByShape(s, drop);
    var a := LeadingCount(s, drop);
    var r := StripBy(s, drop);
    if IsStrippedBy(s, drop) && s != [] {
      assert a == 0;
      assert |r| == |s|;
    }
  }

  /** `s.strip()`. */
  function Strip(s: string): string {
    StripBy(s, IsSpace)
  }

  /** A string equal to its own `strip()`. */
  predicate IsStripped(s: string) {
    IsStrippedBy(s, IsSpace)
  }

  /** `strip` is idempotent, whatever set of characters it drops. */
  lemma StripByIdempotent(s: string, drop: char -> bool)
    ensures StripBy(StripBy(s, drop), drop) == StripBy(s, drop)
  {
    StripBySpec(s, drop);
    StripBySpec(StripBy(s, drop), drop);
  }

  /** Every character `strip` keeps lies inside the span of its result. */
  lemma KeptCharInStrip(s: string, drop: char -> bool, i: nat)
    requires i < |s| && !drop(s[i])
    ensures LeadingCount(s, drop) <= i < LeadingCount(s, drop) + |StripBy(s, drop)|
  {
    StripBySpec(s, drop);
  }

  /** `s` occurs in `t` at offset `p`. */
  predicate OccursAt(t: string, s: string, p: nat) {
    p + |s| <= |t| && t[p..p + |s|] == s
  }

  /** An occurrence survives putting text in front. */
  lemma OccursAfterPrefix(a: string, t: string, s: string, p: nat)
    requires OccursAt(t, s, p)
    ensures OccursAt(a + t, s, |a| + p)
  {
    assert (a + t)[|a| + p..|a| + p + |s|] == t[p..p + |s|];
  }

  /** An occurrence survives putting text behind. */
  lemma OccursBeforeSuffix(t: string, b: string, s: string, p: nat)
    requires OccursAt(t, s, p)
    ensures OccursAt(t + b, s, p)
  {
    assert (t + b)[p..p + |s|] == t[p..p + |s|];
  }
}
