/**
 The few JavaScript string primitives the extension relies on:
 `String.prototype.trim`, a literal-substring regular expression test, the
 case-insensitive `.html?` file-name test, and decimal rendering of counts in
 template literals.
 */
module JsString {

  /**
   The characters `trim` removes: the ECMAScript WhiteSpace and
   LineTerminator code points (tab, vertical tab, form feed, space, no-break
   space, byte-order mark, the Unicode space separators, line feed, carriage
   return, line and paragraph separators).
   */
  predicate IsWhitespace(c: char) {
    || c == '\t' || c == '\n' || c == '\U{000B}' || c == '\U{000C}' || c == '\r' || c == ' '
    || c == '\U{00A0}' || c == '\U{1680}' || ('\U{2000}' <= c <= '\U{200A}')
    || c == '\U{2028}' || c == '\U{2029}' || c == '\U{202F}' || c == '\U{205F}'
    || c == '\U{3000}' || c == '\U{FEFF}'
  }

  predicate AllWhitespace(s: string) {
    forall k :: 0 <= k < |s| ==> IsWhitespace(s[k])
  }

  /** Neither end of `s` is whitespace. */
  predicate Trimmed(s: string) {
    s == [] || (!IsWhitespace(s[0]) && !IsWhitespace(s[|s| - 1]))
  }

  /** The first position at or after `i` that does not hold whitespace, or `|s|`. */
  function SkipLeading(s: string, i: nat): (k: nat)
    requires i <= |s|
    ensures i <= k <= |s|
    ensures forall m :: i <= m < k ==> IsWhitespace(s[m])
    ensures k < |s| ==> !IsWhitespace(s[k])
    decreases |s| - i
  {
    if i < |s| && IsWhitespace(s[i]) then SkipLeading(s, i + 1) else i
  }

  /** The end of `s[lo..j]` once its trailing whitespace is dropped. */
  function SkipTrailing(s: string, lo: nat, j: nat): (k: nat)
    requires lo <= j <= |s|
    ensures lo <= k <= j
    ensures forall m :: k <= m < j ==> IsWhitespace(s[m])
    ensures lo < k ==> !IsWhitespace(s[k - 1])
    decreases j
  {
    if lo < j && IsWhitespace(s[j - 1]) then SkipTrailing(s, lo, j - 1) else j
  }

  /**
   `String.prototype.trim`: the longest infix of `s` whose ends are not
   whitespace, obtained by dropping whitespace from both ends.
   */
  function Trim(s: string): (r: string)
    ensures Trimmed(r)
    ensures exists i, j :: 0 <= i <= j <= |s| && r == s[i..j] && AllWhitespace(s[..i]) && AllWhitespace(s[j..])
  {
    var i := SkipLeading(s, 0);
    var j := SkipTrailing(s, i, |s|);
    assert AllWhitespace(s[..i]);
    assert AllWhitespace(s[j..]);
    s[i..j]
  }

  /** A string of whitespace only trims to the empty string, and only such a string does. */
  lemma TrimEmptyIff(s: string)
    ensures Trim(s) == [] <==> AllWhitespace(s)
  {
  }

  /** A string that is already trimmed is its own trim; in particular `Trim` is idempotent. */
  lemma TrimOfTrimmed(s: string)
    requires Trimmed(s)
    ensures Trim(s) == s
  {
    assert SkipLeading(s, 0) == 0;
    assert SkipTrailing(s, 0, |s|) == |s|;
    assert s[0..|s|] == s;
  }

  lemma TrimIdempotent(s: string)
    ensures Trim(Trim(s)) == Trim(s)
  {
    TrimOfTrimmed(Trim(s));
  }

  /** `sub` occurs in `s` starting at position `i`. */
  predicate OccursAt(s: string, sub: string, i: int) {
    0 <= i <= |s| - |sub| && s[i..i + |sub|] == sub
  }

  /** `sub` occurs in `s` at some position. */
  predicate Contains(s: string, sub: string) {
    exists i | 0 <= i <= |s| - |sub| :: OccursAt(s, sub, i)
  }

  /** `s` ends with `suffix`, as the attribute selector `[href$="…"]` tests it. */
  predicate EndsWith(s: string, suffix: string) {
    |suffix| <= |s| && s[|s| - |suffix|..] == suffix
  }

  /** A suffix occurs in the string. */
  lemma EndsWithContains(s: string, suffix: string)
    requires EndsWith(s, suffix)
    ensures Contains(s, suffix)
  {
    assert OccursAt(s, suffix, |s| - |suffix|);
  }

  /**
   The test of a regular expression made of literal characters only, such
   as `/\/manage\/newpost/.test(s)`: a left-to-right scan for a match.
   */
  method RegexTestLiteral(s: string, lit: string) returns (found: bool)
    ensures found <==> Contains(s, lit)
  {
    if |lit| > |s| {
      return false;
    }
    var i := 0;
    while i <= |s| - |lit|
      invariant 0 <= i <= |s| - |lit| + 1
      invariant forall k :: 0 <= k < i ==> !OccursAt(s, lit, k)
    {
      if s[i..i + |lit|] == lit {
        assert OccursAt(s, lit, i);
        return true;
      }
      i := i + 1;
    }
    return false;
  }

  /** ASCII lower-casing, which is all a case-insensitive match against ASCII letters needs. */
  function LowerAscii(c: char): char {
    if 'A' <= c <= 'Z' then (c as int + 32) as char else c
  }

  function LowerAsciiString(s: string): (r: string)
    ensures |r| == |s|
    ensures forall k :: 0 <= k < |s| ==> r[k] == LowerAscii(s[k])
  {
    seq(|s|, k requires 0 <= k < |s| => LowerAscii(s[k]))
  }

  /** `s` ends with `ext` when case is ignored (`ext` is lower-case). */
  predicate EndsWithIgnoringCase(s: string, ext: string) {
    |s| >= |ext| && LowerAsciiString(s[|s| - |ext|..]) == ext
  }

  /** The name has an `.html` or an `.htm` extension, case ignored. */
  predicate HasHtmlExtension(name: string) {
    EndsWithIgnoringCase(name, ".html") || EndsWithIgnoringCase(name, ".htm")
  }

  /**
   The regular expression `/\.html?$/i` matched from the end of the name: an
   optional `l`, then `m`, `t`, `h` and a dot, case ignored for the letters.
   */
  function MatchesHtmlRegex(name: string): (b: bool)
    ensures b <==> HasHtmlExtension(name)
  {
    var n := |name|;
    var core := if n >= 1 && LowerAscii(name[n - 1]) == 'l' then n - 1 else n;
    var b := core >= 4 && name[core - 4] == '.' && LowerAscii(name[core - 3]) == 'h'
      && LowerAscii(name[core - 2]) == 't' && LowerAscii(name[core - 1]) == 'm';
    assert b <==> HasHtmlExtension(name) by {
      if b {
        if core == n - 1 {
          assert LowerAsciiString(name[n - 5..]) == ".html";
        } else {
          assert LowerAsciiString(name[n - 4..]) == ".htm";
        }
      }
      if EndsWithIgnoringCase(name, ".html") {
        assert LowerAsciiString(name[n - 5..])[4] == 'l';
        assert LowerAsciiString(name[n - 5..])[0] == '.';
      }
      if EndsWithIgnoringCase(name, ".htm") {
        assert LowerAsciiString(name[n - 4..])[3] == 'm';
        assert LowerAsciiString(name[n - 4..])[0] == '.';
      }
    }
    b
  }

  function DigitChar(d: nat): char
    requires d < 10
  {
    ('0' as int + d) as char
  }

  /** The decimal rendering of a count, as a template literal prints it. */
  function Decimal(n: nat): (r: string)
    ensures |r| >= 1
    ensures forall k :: 0 <= k < |r| ==> '0' <= r[k] <= '9'
  {
    if n < 10 then [DigitChar(n)] else Decimal(n / 10) + [DigitChar(n % 10)]
  }
}
