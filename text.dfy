/**
 * String helpers with the meaning ECMAScript gives them: what counts as
 * white space, and `String.prototype.trim`.
 */
module Text {

  /**
   * The characters `trim` removes: the WhiteSpace code points (tab, vertical
   * tab, form feed, space, no-break space, byte order mark and the other
   * space separators of category Zs) and the LineTerminator code points.
   */
  predicate IsWhitespace(c: char)
  {
    var n := c as int;
    n == 0x09 || n == 0x0B || n == 0x0C || n == 0x20 || n == 0xA0 || n == 0xFEFF
    || n == 0x1680 || (0x2000 <= n <= 0x200A) || n == 0x202F || n == 0x205F || n == 0x3000
    || n == 0x0A || n == 0x0D || n == 0x2028 || n == 0x2029
  }

  /** Every character of `s` is white space (vacuously so for ""). */
  predicate AllWhitespace(s: string)
  {
    forall i :: 0 <= i < |s| ==> IsWhitespace(s[i])
  }

  /** `s` without its leading white space. */
  function TrimStart(s: string): (r: string)
    ensures |r| <= |s| && r == s[|s| - |r|..]
    ensures forall i :: 0 <= i < |s| - |r| ==> IsWhitespace(s[i])
    ensures r == [] || !IsWhitespace(r[0])
  {
    if |s| > 0 && IsWhitespace(s[0]) then TrimStart(s[1..]) else s
  }

  /** `s` without its trailing white space. */
  function TrimEnd(s: string): (r: string)
    ensures |r| <= |s| && r == s[..|r|]
    ensures forall i :: |r| <= i < |s| ==> IsWhitespace(s[i])
    ensures r == [] || !IsWhitespace(r[|r| - 1])
  {
    if |s| > 0 && IsWhitespace(s[|s| - 1]) then TrimEnd(s[..|s| - 1]) else s
  }

  /**
   * `r` is `s[k..k + |r|]` and everything of `s` before and after that part
   * is white space.
   */
  ghost predicate CutFrom(s: string, r: string, k: int)
  {
    && 0 <= k <= |s| - |r| && r == s[k..k + |r|]
    && (forall i :: 0 <= i < k ==> IsWhitespace(s[i]))
    && (forall i :: k + |r| <= i < |s| ==> IsWhitespace(s[i]))
  }

  /**
   * `s.trim()`: a contiguous part of `s` with white space on neither end,
   * everything cut off before and after it being white space.
   */
  function Trim(s: string): (r: string)
    ensures r == [] || (!IsWhitespace(r[0]) && !IsWhitespace(r[|r| - 1]))
    ensures exists k :: CutFrom(s, r, k)
  {
    var t := TrimStart(s);
    var r := TrimEnd(t);
    TrimIsCut(s, t, r);
    r
  }

  /** Cutting white space off the front and then off the back leaves a cut of `s`. */
  lemma TrimIsCut(s: string, t: string, r: string)
    requires |t| <= |s| && t == s[|s| - |t|..]
    requires forall i :: 0 <= i < |s| - |t| ==> IsWhitespace(s[i])
    requires |r| <= |t| && r == t[..|r|]
    requires forall i :: |r| <= i < |t| ==> IsWhitespace(t[i])
    ensures CutFrom(s, r, |s| - |t|)
  {
    var k := |s| - |t|;
    assert r == s[k..k + |r|];
    forall i | k + |r| <= i < |s| ensures IsWhitespace(s[i]) {
      assert s[i] == t[i - k];
    }
  }

  /**
   * The guard `!s || s.trim().length === 0` that both the entity and the
   * use-case layer apply: true exactly when `s` holds no visible character.
   */
  function IsBlank(s: string): (b: bool)
    ensures b <==> AllWhitespace(s)
  {
    TrimEmptyIffAllWhitespace(s);
    |s| == 0 || |Trim(s)| == 0
  }

  /** `s.trim()` is empty exactly when `s` is all white space. */
  lemma TrimEmptyIffAllWhitespace(s: string)
    ensures |Trim(s)| == 0 <==> AllWhitespace(s)
  {
    if AllWhitespace(s) {
      AllWhitespaceTrimsToEmpty(s);
    } else {
      var k :| 0 <= k < |s| && !IsWhitespace(s[k]);
      VisibleCharSurvivesTrim(s, k);
    }
  }

  lemma AllWhitespaceTrimsToEmpty(s: string)
    requires AllWhitespace(s)
    ensures Trim(s) == []
  {
    var t := TrimStart(s);
    assert t == [];
  }

  lemma VisibleCharSurvivesTrim(s: string, k: int)
    requires 0 <= k < |s| && !IsWhitespace(s[k])
    ensures |Trim(s)| > 0
  {
    var t := TrimStart(s);
    var j := k - (|s| - |t|);
    assert 0 <= j < |t| && t[j] == s[k];
    var u := TrimEnd(t);
    assert j < |u|;
  }
}
