/**
 The checks the contact form applies to its fields when it is submitted:
 "blank after trimming" for the required text fields and the shape test
 `/^[^\s@]+@[^\s@]+\.[^\s@]+$/` for the email address.
 */
module Validation {
  import opened Text

  predicate AllWhitespace(s: string) {
    forall i :: 0 <= i < |s| ==> IsWhitespace(s[i])
  }

  /** `s.trimStart()`: `s` without its leading whitespace. */
  function TrimStart(s: string): (r: string)
    ensures |r| <= |s| && r == s[|s| - |r|..]
    ensures AllWhitespace(s[..|s| - |r|])
    ensures r != "" ==> !IsWhitespace(r[0])
  {
    if s == [] || !IsWhitespace(s[0]) then s
    else
      var r := TrimStart(s[1..]);
      assert s[..|s| - |r|] == [s[0]] + s[1..][..|s| - 1 - |r|];
      r
  }

  /** `s.trimEnd()`: `s` without its trailing whitespace. */
  function TrimEnd(s: string): (r: string)
    ensures |r| <= |s| && r == s[..|r|]
    ensures AllWhitespace(s[|r|..])
    ensures r != "" ==> !IsWhitespace(r[|r| - 1])
  {
    if s == [] || !IsWhitespace(s[|s| - 1]) then s
    else
      var r := TrimEnd(s[..|s| - 1]);
      assert s[|r|..] == s[..|s| - 1][|r|..] + [s[|s| - 1]];
      r
  }

  /** `s.trim()`: empty, or starting and ending with a non-whitespace character. */
  function Trim(s: string): (r: string)
    ensures |r| <= |s|
    ensures r != "" ==> !IsWhitespace(r[0]) && !IsWhitespace(r[|r| - 1])
  {
    TrimEnd(TrimStart(s))
  }

  /** `!s.trim()`: the trimmed string is empty, so falsy. */
  predicate IsBlank(s: string) {
    Trim(s) == ""
  }

  lemma {:induction false} TrimStartOfWhitespace(s: string)
    requires AllWhitespace(s)
    ensures TrimStart(s) == ""
  {
    if s != [] {
      TrimStartOfWhitespace(s[1..]);
    }
  }

  lemma {:induction false} TrimStartKeepsContent(s: string, k: nat)
    requires k < |s| && !IsWhitespace(s[k])
    ensures TrimStart(s) != "" && !IsWhitespace(TrimStart(s)[0])
  {
    if IsWhitespace(s[0]) {
      TrimStartKeepsContent(s[1..], k - 1);
    }
  }

  lemma {:induction false} TrimEndKeepsContent(s: string)
    requires s != "" && !IsWhitespace(s[0])
    ensures TrimEnd(s) != ""
  {
    if IsWhitespace(s[|s| - 1]) {
      TrimEndKeepsContent(s[..|s| - 1]);
    }
  }

  /** A field is blank exactly when every one of its characters is whitespace. */
  lemma BlankIffAllWhitespace(s: string)
    ensures IsBlank(s) <==> AllWhitespace(s)
  {
    if AllWhitespace(s) {
      TrimStartOfWhitespace(s);
    } else {
      var k :| 0 <= k < |s| && !IsWhitespace(s[k]);
      TrimStartKeepsContent(s, k);
      TrimEndKeepsContent(TrimStart(s));
    }
  }

  // ---------------------------------------------------------------------
  // The email shape

  /** `[^\s@]`: neither whitespace nor an at sign. */
  predicate Plain(c: char) {
    !IsWhitespace(c) && c != '@'
  }

  predicate AllPlain(s: string) {
    forall i :: 0 <= i < |s| ==> Plain(s[i])
  }

  /**
   The language of `^[^\s@]+@[^\s@]+\.[^\s@]+$`: `s` is `L@A.B` with `L`, `A`
   and `B` non-empty runs of plain characters, the at sign at position `i` and
   the chosen dot at position `j`.
   */
  ghost predicate EmailSplit(s: string, i: int, j: int) {
    && 0 < i && i + 1 < j && j + 1 < |s|
    && s[i] == '@' && s[j] == '.'
    && AllPlain(s[..i]) && AllPlain(s[i + 1..j]) && AllPlain(s[j + 1..])
  }

  ghost predicate MatchesEmailPattern(s: string) {
    exists i, j :: EmailSplit(s, i, j)
  }

  /**
   The email test the form runs: the first at sign comes after at least one
   character, nothing before or after it is whitespace or another at sign,
   and the part after it has a dot that is neither its first nor its last
   character.
   */
  function IsEmailShaped(s: string): bool {
    match IndexOf(s, '@')
    case None => false
    case Some(i) =>
      var domain := s[i + 1..];
      && 0 < i && AllPlain(s[..i]) && AllPlain(domain)
      && |domain| >= 3 && '.' in domain[1..|domain| - 1]
  }

  lemma {:induction false} IndexOfFirst(s: string, c: char, i: nat)
    requires i < |s| && s[i] == c && c !in s[..i]
    ensures IndexOf(s, c) == Some(i)
  {
    if i > 0 {
      assert s[0] == s[..i][0];
      assert s[1..][..i - 1] == s[1..i];
      assert forall m :: 0 <= m < i - 1 ==> s[1..i][m] == s[..i][m + 1];
      IndexOfFirst(s[1..], c, i - 1);
    }
  }

  /** What the email test accepts splits as `L@A.B`. */
  lemma ShapedHasSplit(s: string)
    requires IsEmailShaped(s)
    ensures MatchesEmailPattern(s)
  {
    var i := IndexOf(s, '@').value;
    var domain := s[i + 1..];
    var inner := domain[1..|domain| - 1];
    var k :| 0 <= k < |inner| && inner[k] == '.';
    var j := i + 2 + k;
    assert s[j] == '.';
    assert s[i + 1..j] == domain[..k + 1];
    assert s[j + 1..] == domain[k + 2..];
    assert EmailSplit(s, i, j);
  }

  /** Every `L@A.B` split passes the email test. */
  lemma SplitIsShaped(s: string, i: int, j: int)
    requires EmailSplit(s, i, j)
    ensures IsEmailShaped(s)
  {
    assert forall m :: 0 <= m < i ==> s[..i][m] != '@';
    IndexOfFirst(s, '@', i);
    var domain := s[i + 1..];
    forall m | 0 <= m < |domain| ensures Plain(domain[m]) {
      if m < j - i - 1 {
        assert domain[m] == s[i + 1..j][m];
      } else if m > j - i - 1 {
        assert domain[m] == s[j + 1..][m - (j - i)];
      }
    }
    assert domain[1..|domain| - 1][j - i - 2] == '.';
  }

  /** The email test accepts exactly the strings of the regular expression. */
  lemma EmailTestMatchesPattern(s: string)
    ensures IsEmailShaped(s) <==> MatchesEmailPattern(s)
  {
    if IsEmailShaped(s) {
      ShapedHasSplit(s);
    }
    if MatchesEmailPattern(s) {
      var i, j :| EmailSplit(s, i, j);
      SplitIsShaped(s, i, j);
    }
  }
}
