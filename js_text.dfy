/**
 * The pieces of JavaScript string and value semantics the handlers and the
 * browser code rely on: truthiness of JSON fields, String.prototype.trim,
 * indexOf / includes / lastIndexOf, replace with a string pattern, template
 * interpolation of numbers and of undefined, and toUpperCase on method names.
 */
module JsText {
  import opened Wrappers

  // ---------------------------------------------------------------------------
  // Truthiness
  // ---------------------------------------------------------------------------

  /** `!v` for a JSON number field: the field is absent, null or 0. */
  predicate FalsyNumber(v: Option<nat>) {
    v.None? || v.value == 0
  }

  /** `!v` for a JSON or query-string text value: absent, null or the empty string. */
  predicate FalsyString(v: Option<string>) {
    v.None? || v.value == ""
  }

  /** `v || fallback` for a text value. */
  function OrElse(v: Option<string>, fallback: string): (r: string)
    ensures FalsyString(v) ==> r == fallback
    ensures !FalsyString(v) ==> r == v.value && r != ""
  {
    if v.Some? && v.value != "" then v.value else fallback
  }

  // ---------------------------------------------------------------------------
  // trim
  // ---------------------------------------------------------------------------

  /**
   * The code points that String.prototype.trim removes: the WhiteSpace and
   * LineTerminator productions of ECMAScript (sections 12.2 and 12.3 of
   * ECMA-262), i.e. TAB, LF, VT, FF, CR, SPACE, NBSP, U+1680, U+2000..U+200A,
   * LS, PS, U+202F, U+205F, U+3000 and the BOM.
   */
  predicate IsSpace(c: char) {
    var n := c as int;
    (0x09 <= n <= 0x0D) || n == 0x20 || n == 0xA0 || n == 0x1680
    || (0x2000 <= n <= 0x200A) || n == 0x2028 || n == 0x2029
    || n == 0x202F || n == 0x205F || n == 0x3000 || n == 0xFEFF
  }

  /** Every character is white space (the empty string included). */
  predicate Blank(s: string) {
    forall i :: 0 <= i < |s| ==> IsSpace(s[i])
  }

  /** The length of the run of white space in `s` starting at index `lo`. */
  function SpacesFrom(s: string, lo: nat): (n: nat)
    requires lo <= |s|
    ensures lo + n <= |s| && (forall i :: lo <= i < lo + n ==> IsSpace(s[i]))
    ensures lo + n < |s| ==> !IsSpace(s[lo + n])
    decreases |s| - lo
  {
    if lo < |s| && IsSpace(s[lo]) then 1 + SpacesFrom(s, lo + 1) else 0
  }

  /** The length of the run of white space in `s[lo..hi]` that ends at index `hi`. */
  function SpacesBefore(s: string, lo: nat, hi: nat): (n: nat)
    requires lo <= hi <= |s|
    ensures n <= hi - lo && (forall i :: hi - n <= i < hi ==> IsSpace(s[i]))
    ensures n < hi - lo ==> !IsSpace(s[hi - n - 1])
    decreases hi - lo
  {
    if lo < hi && IsSpace(s[hi - 1]) then 1 + SpacesBefore(s, lo, hi - 1) else 0
  }

  /**
   * String.prototype.trim: the slice of `s` between its leading and its
   * trailing run of white space, both of which are blank.
   */
  function Trim(s: string): (r: string)
    ensures |r| <= |s| && Blank(s) == (r == [])
    ensures r != [] ==> !IsSpace(r[0]) && !IsSpace(r[|r| - 1])
    ensures var k := SpacesFrom(s, 0);
      k + |r| <= |s| && r == s[k..k + |r|] && Blank(s[..k]) && Blank(s[k + |r|..])
  {
    var k := SpacesFrom(s, 0);
    var t := SpacesBefore(s, k, |s|);
    TrimSlice(s, k, t);
    s[k..|s| - t]
  }

  /** The slice between a blank head `s[..k]` and a blank tail of length `t`, each run maximal. */
  lemma TrimSlice(s: string, k: nat, t: nat)
    requires k + t <= |s|
    requires forall i :: 0 <= i < k ==> IsSpace(s[i])
    requires forall i :: |s| - t <= i < |s| ==> IsSpace(s[i])
    requires k < |s| ==> !IsSpace(s[k])
    requires k + t < |s| ==> !IsSpace(s[|s| - t - 1])
    ensures var r := s[k..|s| - t];
      Blank(s) == (r == []) && (r != [] ==> !IsSpace(r[0]) && !IsSpace(r[|r| - 1])) &&
      Blank(s[..k]) && Blank(s[|s| - t..])
  {
    if k + t == |s| {
      assert Blank(s);
    }
    if k < |s| {
      assert !IsSpace(s[k]) && !Blank(s);
    }
  }

  /** A string without white space at either end is its own trim. */
  lemma TrimFixed(s: string)
    requires s == [] || (!IsSpace(s[0]) && !IsSpace(s[|s| - 1]))
    ensures Trim(s) == s
  {
  }

  /** Trimming twice is trimming once. */
  lemma TrimIdempotent(s: string)
    ensures Trim(Trim(s)) == Trim(s)
  {
    TrimFixed(Trim(s));
  }

  // ---------------------------------------------------------------------------
  // indexOf, includes, lastIndexOf, replace
  // ---------------------------------------------------------------------------

  /** `pat` occurs in `s` starting at index `i`. */
  predicate MatchAt(s: string, pat: string, i: int) {
    0 <= i && i + |pat| <= |s| && s[i..i + |pat|] == pat
  }

  /** The first index at or after `from` where `pat` occurs, or -1. */
  function IndexFrom(s: string, pat: string, from: nat): (r: int)
    decreases |s| - from
    ensures r == -1 || (from <= r && MatchAt(s, pat, r))
    ensures forall j :: from <= j && (r == -1 || j < r) ==> !MatchAt(s, pat, j)
  {
    if from + |pat| > |s| then -1
    else if s[from..from + |pat|] == pat then from
    else IndexFrom(s, pat, from + 1)
  }

  /** String.prototype.indexOf with a string argument. */
  function IndexOf(s: string, pat: string): (r: int)
    ensures r == -1 || MatchAt(s, pat, r)
    ensures forall j :: 0 <= j && (r == -1 || j < r) ==> !MatchAt(s, pat, j)
  {
    IndexFrom(s, pat, 0)
  }

  /** String.prototype.includes. */
  predicate Includes(s: string, pat: string) {
    IndexOf(s, pat) >= 0
  }

  lemma IncludesIff(s: string, pat: string)
    ensures Includes(s, pat) <==> exists i :: MatchAt(s, pat, i)
  {
  }

  /** String.prototype.lastIndexOf with a one-character argument. */
  function LastIndexOf(s: string, c: char): (r: int)
    ensures -1 <= r < |s|
    ensures r >= 0 ==> s[r] == c
    ensures forall j :: r < j < |s| ==> s[j] != c
  {
    if |s| == 0 then -1
    else if s[|s| - 1] == c then |s| - 1
    else LastIndexOf(s[..|s| - 1], c)
  }

  /**
   * The substitution patterns of a string replacement (the abstract
   * operation GetSubstitution of ECMAScript, for a match without capture
   * groups):
   * `$$` stands for `$`, `$&` for the matched text, `` $` `` for the text
   * before the match and `$'` for the text after it; any other `$` is kept.
   */
  function Expand(rep: string, matched: string, before: string, after: string): (r: string)
    ensures '$' !in rep ==> r == rep
    decreases |rep|
  {
    if |rep| == 0 then []
    else if rep[0] == '$' && |rep| >= 2 && rep[1] == '$' then "$" + Expand(rep[2..], matched, before, after)
    else if rep[0] == '$' && |rep| >= 2 && rep[1] == '&' then matched + Expand(rep[2..], matched, before, after)
    else if rep[0] == '$' && |rep| >= 2 && rep[1] == '`' then before + Expand(rep[2..], matched, before, after)
    else if rep[0] == '$' && |rep| >= 2 && rep[1] == '\'' then after + Expand(rep[2..], matched, before, after)
    else [rep[0]] + Expand(rep[1..], matched, before, after)
  }

  /**
   * String.prototype.replace with a string pattern: only the first
   * occurrence is replaced, by the replacement with its `$` patterns
   * expanded, and a pattern that does not occur leaves the string as it is.
   */
  function ReplaceFirst(s: string, pat: string, rep: string): string
  {
    var i := IndexOf(s, pat);
    if i < 0 then s else s[..i] + Expand(rep, pat, s[..i], s[i + |pat|..]) + s[i + |pat|..]
  }

  /** Replacing a placeholder whose first character does not occur before it. */
  lemma {:induction false} ReplaceFirstOfTemplate(prefix: string, pat: string, suffix: string, rep: string)
    requires pat != [] && pat[0] !in prefix
    ensures ReplaceFirst(prefix + pat + suffix, pat, rep) == prefix + Expand(rep, pat, prefix, suffix) + suffix
  {
    var s := prefix + pat + suffix;
    assert MatchAt(s, pat, |prefix|) by {
      assert s[|prefix|..|prefix| + |pat|] == pat;
    }
    forall j | 0 <= j < |prefix|
      ensures !MatchAt(s, pat, j)
    {
      assert s[j] == prefix[j];
      if j + |pat| <= |s| {
        assert s[j..j + |pat|][0] == s[j];
      }
    }
    var i := IndexOf(s, pat);
    assert i == |prefix|;
    assert s[..i] == prefix && s[i + |pat|..] == suffix;
  }

  /** A placeholder filled with a replacement free of `$` patterns: the replacement goes in as it is. */
  lemma ReplaceFirstPlain(prefix: string, pat: string, suffix: string, rep: string)
    requires pat != [] && pat[0] !in prefix && '$' !in rep
    ensures ReplaceFirst(prefix + pat + suffix, pat, rep) == prefix + rep + suffix
  {
    ReplaceFirstOfTemplate(prefix, pat, suffix, rep);
  }

  /** A pattern whose first character does not occur in `s` is not included in it. */
  lemma {:induction false} AbsentFirstChar(s: string, pat: string)
    requires pat != [] && pat[0] !in s
    ensures !Includes(s, pat)
  {
    forall j | 0 <= j && j + |pat| <= |s|
      ensures !MatchAt(s, pat, j)
    {
      assert s[j..j + |pat|][0] == s[j];
    }
  }

  /** Replacing a placeholder whose first character does not occur at all leaves the string unchanged. */
  lemma {:induction false} ReplaceFirstAbsent(s: string, pat: string, rep: string)
    requires pat != [] && pat[0] !in s
    ensures ReplaceFirst(s, pat, rep) == s
  {
    forall j | 0 <= j && j + |pat| <= |s|
      ensures !MatchAt(s, pat, j)
    {
      assert s[j..j + |pat|][0] == s[j];
    }
  }

  // ---------------------------------------------------------------------------
  // Template interpolation
  // ---------------------------------------------------------------------------

  predicate IsDigits(s: string) {
    forall i :: 0 <= i < |s| ==> '0' <= s[i] <= '9'
  }

  function DigitChar(d: nat): (c: char)
    requires d < 10
    ensures '0' <= c <= '9'
  {
    (48 + d) as char
  }

  /** `${n}` for a non-negative integer: its decimal digits. */
  function DecimalString(n: nat): (r: string)
    ensures |r| >= 1 && IsDigits(r)
  {
    if n < 10 then [DigitChar(n)] else DecimalString(n / 10) + [DigitChar(n % 10)]
  }

  /** The value of a string of decimal digits (parseInt on such a string). */
  function DecimalValue(s: string): nat
    requires IsDigits(s)
  {
    if s == [] then 0 else 10 * DecimalValue(s[..|s| - 1]) + (s[|s| - 1] as int - 48)
  }

  /** Rendering a number and parsing it back gives the number. */
  lemma {:induction false} DecimalRoundTrip(n: nat)
    ensures DecimalValue(DecimalString(n)) == n
  {
    if n >= 10 {
      var s := DecimalString(n);
      assert s[..|s| - 1] == DecimalString(n / 10);
      DecimalRoundTrip(n / 10);
    }
  }

  /** Two numbers render alike only when they are equal. */
  lemma DecimalInjective(m: nat, n: nat)
    requires DecimalString(m) == DecimalString(n)
    ensures m == n
  {
    DecimalRoundTrip(m);
    DecimalRoundTrip(n);
  }

  /** `${v}` for a value that may be undefined. */
  function Interpolate(v: Option<string>): (r: string)
    ensures v.None? ==> r == "undefined"
    ensures v.Some? ==> r == v.value
  {
    if v.Some? then v.value else "undefined"
  }

  // ---------------------------------------------------------------------------
  // toUpperCase on HTTP method names
  // ---------------------------------------------------------------------------

  function UpperChar(c: char): char {
    if 'a' <= c <= 'z' then (c as int - 32) as char else c
  }

  /** String.prototype.toUpperCase restricted to the ASCII letters. */
  function AsciiUpper(s: string): (r: string)
    ensures |r| == |s|
    ensures forall i :: 0 <= i < |s| ==> r[i] == UpperChar(s[i])
  {
    if s == [] then [] else [UpperChar(s[0])] + AsciiUpper(s[1..])
  }
}
