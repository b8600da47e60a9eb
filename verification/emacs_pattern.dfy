/**
 * The editor-lock-file regular expression that the noise filter compiles
 * once: any text, a run of slashes, one character, `#`, any text. It is
 * searched for anywhere in a string (an unanchored `is_match`), and its `.`
 * matches any character except a newline.
 */
module EmacsPattern {

  /** Language of a run of any characters: no newline anywhere. */
  predicate NoNewline(s: string)
  {
    forall i :: 0 <= i < |s| ==> s[i] != '\n'
  }

  /** Language of a run of slashes. */
  predicate AllSlashes(s: string)
  {
    forall i :: 0 <= i < |s| ==> s[i] == '/'
  }

  /** Language of the leading part: any text, then a run of slashes. */
  ghost predicate LeadingPart(u: string)
  {
    exists m :: 0 <= m <= |u| && NoNewline(u[..m]) && AllSlashes(u[m..])
  }

  /** Language of the whole pattern, matched against all of `t`. */
  ghost predicate InLanguage(t: string)
  {
    exists k :: 1 <= k < |t| && t[k] == '#' && t[k - 1] != '\n'
                && LeadingPart(t[..k - 1]) && NoNewline(t[k + 1..])
  }

  /** `Regex::is_match`: some substring of `s` lies in the pattern's language. */
  ghost predicate RegexMatches(s: string)
  {
    exists i, j :: 0 <= i <= j <= |s| && InLanguage(s[i..j])
  }

  /** A `#` at index `i` with a character other than a newline just before it. */
  predicate HashAt(s: string, i: int)
  {
    1 <= i < |s| && s[i] == '#' && s[i - 1] != '\n'
  }

  /**
   * The matcher: scans `s` from the end for a `#` preceded by a character
   * other than a newline.
   */
  function IsMatch(s: string): (r: bool)
    ensures r <==> exists i :: HashAt(s, i)
  {
    if |s| < 2 then false
    else if s[|s| - 1] == '#' && s[|s| - 2] != '\n' then
      assert HashAt(s, |s| - 1);
      true
    else
      assert !HashAt(s, |s| - 1);
      var init := s[..|s| - 1];
      HashAtDropLast(s, init);
      IsMatch(init)
  }

  /** Dropping a last character that is not a matching `#` keeps the matches. */
  lemma HashAtDropLast(s: string, init: string)
    requires |s| > 0 && init == s[..|s| - 1] && !HashAt(s, |s| - 1)
    ensures (exists i :: HashAt(init, i)) <==> (exists i :: HashAt(s, i))
  {
    if i :| HashAt(init, i) {
      assert HashAt(s, i);
    }
    if i :| HashAt(s, i) {
      assert HashAt(init, i);
    }
  }

  /** The scan agrees with the regex's language, in both directions. */
  lemma IsMatchIsRegexMatch(s: string)
    ensures IsMatch(s) <==> RegexMatches(s)
  {
    if IsMatch(s) {
      var i :| HashAt(s, i);
      var t := s[i - 1..i + 1];
      assert t[..0] == "" && t[2..] == "";
      assert NoNewline(t[..0][..0]) && AllSlashes(t[..0][0..]);
      assert LeadingPart(t[..0]);
      assert InLanguage(t);
      assert RegexMatches(s);
    }
    if RegexMatches(s) {
      var i, j :| 0 <= i <= j <= |s| && InLanguage(s[i..j]);
      var t := s[i..j];
      var k :| 1 <= k < |t| && t[k] == '#' && t[k - 1] != '\n'
               && LeadingPart(t[..k - 1]) && NoNewline(t[k + 1..]);
      assert HashAt(s, i + k);
    }
  }

  /** A match inside a piece of a string is a match of the whole string. */
  lemma MatchInMiddle(u: string, t: string, v: string)
    requires IsMatch(t)
    ensures IsMatch(u + t + v)
  {
    var i :| HashAt(t, i);
    assert (u + t + v)[|u| + i] == t[i] && (u + t + v)[|u| + i - 1] == t[i - 1];
    assert HashAt(u + t + v, |u| + i);
  }
}
