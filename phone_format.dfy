/**
 The phone-number normaliser of the contact form: keep the digits, split them
 into groups of at most 3, 3 and 4 digits, drop empty groups and join the rest
 with hyphens; a value with more than ten digits is returned as it was typed.
 */
module PhoneFormat {
  import opened Text

  /** `value.replace(/\D/g, '')`: the digits of `s`, in order. */
  function StripNonDigits(s: string): (r: string)
    ensures AllDigits(r)
    ensures |r| <= |s|
  {
    if s == [] then ""
    else (if IsDigit(s[0]) then [s[0]] else "") + StripNonDigits(s[1..])
  }

  /** The string with every hyphen deleted. */
  function RemoveHyphens(s: string): (r: string)
    ensures '-' !in r
    ensures |r| <= |s|
  {
    if s == [] then ""
    else (if s[0] == '-' then "" else [s[0]]) + RemoveHyphens(s[1..])
  }

  /**
   The digit string `d` matches `^(\d{0,3})(\d{0,3})(\d{0,4})$` with capture
   groups `g1`, `g2` and `g3`.
   */
  ghost predicate GroupsMatch(d: string, g1: string, g2: string, g3: string) {
    && d == g1 + g2 + g3
    && |g1| <= 3 && |g2| <= 3 && |g3| <= 4
    && AllDigits(g1) && AllDigits(g2) && AllDigits(g3)
  }

  function Min(a: int, b: int): int {
    if a <= b then a else b
  }

  /**
   `d.match(/^(\d{0,3})(\d{0,3})(\d{0,4})$/)`: the three capture groups a
   backtracking matcher reports, each greedy quantifier taking as many digits
   as it can, or `None` when there is no match.
   */
  function MatchGroups(d: string): (r: Option<(string, string, string)>)
    ensures r.Some? <==> AllDigits(d) && |d| <= 10
    ensures r.Some? ==> GroupsMatch(d, r.value.0, r.value.1, r.value.2)
  {
    if AllDigits(d) && |d| <= 10 then
      var i, j := Min(|d|, 3), Min(|d|, 6);
      assert d == d[..i] + d[i..j] + d[j..];
      Some((d[..i], d[i..j], d[j..]))
    else
      None
  }

  /** `groups.filter(Boolean)`: the non-empty strings, in their order. */
  function NonEmpty(gs: seq<string>): (r: seq<string>)
    ensures |r| <= |gs|
    ensures forall k :: 0 <= k < |r| ==> r[k] != "" && r[k] in gs
  {
    if gs == [] then []
    else (if gs[0] == "" then [] else [gs[0]]) + NonEmpty(gs[1..])
  }

  /** `parts.join(sep)`. */
  function Join(parts: seq<string>, sep: char): string {
    if parts == [] then ""
    else if |parts| == 1 then parts[0]
    else parts[0] + [sep] + Join(parts[1..], sep)
  }

  /** The strings of `parts` one after another. */
  function Concat(parts: seq<string>): string {
    if parts == [] then "" else parts[0] + Concat(parts[1..])
  }

  /** `formatPhoneNumber(value)`. */
  function FormatPhoneNumber(value: string): string {
    var cleaned := StripNonDigits(value);
    match MatchGroups(cleaned)
    case Some((g1, g2, g3)) => Join(NonEmpty([g1, g2, g3]), '-')
    case None => value
  }

  /** The number of hyphens the formatter puts between `n` digits. */
  function HyphenCount(n: nat): nat {
    if n > 6 then 2 else if n > 3 then 1 else 0
  }

  // ---------------------------------------------------------------------
  // Digit extraction

  lemma {:induction false} StripNonDigitsConcat(a: string, b: string)
    ensures StripNonDigits(a + b) == StripNonDigits(a) + StripNonDigits(b)
  {
    if a == [] {
      assert a + b == b;
    } else {
      assert (a + b)[1..] == a[1..] + b;
      StripNonDigitsConcat(a[1..], b);
    }
  }

  lemma {:induction false} StripNonDigitsOfDigits(s: string)
    requires AllDigits(s)
    ensures StripNonDigits(s) == s
  {
    if s != [] {
      StripNonDigitsOfDigits(s[1..]);
    }
  }

  lemma {:induction false} RemoveHyphensConcat(a: string, b: string)
    ensures RemoveHyphens(a + b) == RemoveHyphens(a) + RemoveHyphens(b)
  {
    if a == [] {
      assert a + b == b;
    } else {
      assert (a + b)[1..] == a[1..] + b;
      RemoveHyphensConcat(a[1..], b);
    }
  }

  lemma {:induction false} RemoveHyphensOfDigits(s: string)
    requires AllDigits(s)
    ensures RemoveHyphens(s) == s
  {
    if s != [] {
      RemoveHyphensOfDigits(s[1..]);
    }
  }

  // ---------------------------------------------------------------------
  // The regular expression

  /**
   Every way of matching the pattern gives the first group at most as many
   digits as `MatchGroups` does, and, with an equally long first group, the
   second at most as many: `MatchGroups` is the match a backtracking,
   greedy-first matcher finds, and a match exists only for at most ten digits.
   */
  lemma MatchGroupsIsGreedy(d: string, g1: string, g2: string, g3: string)
    requires GroupsMatch(d, g1, g2, g3)
    ensures MatchGroups(d).Some?
    ensures |g1| <= |MatchGroups(d).value.0|
    ensures |g1| == |MatchGroups(d).value.0| ==> |g2| <= |MatchGroups(d).value.1|
  {
  }

  /** `filter(Boolean)` on three groups. */
  lemma NonEmptyOfThree(a: string, b: string, c: string)
    ensures NonEmpty([a, b, c]) ==
              (if a == "" then [] else [a]) + (if b == "" then [] else [b]) + (if c == "" then [] else [c])
  {
    var keep := (x: string) => if x == "" then [] else [x];
    assert [c][1..] == [];
    assert NonEmpty([c]) == keep(c) + NonEmpty([]);
    assert [b, c][1..] == [c];
    assert NonEmpty([b, c]) == keep(b) + NonEmpty([c]);
    assert [a, b, c][1..] == [b, c];
    assert NonEmpty([a, b, c]) == keep(a) + NonEmpty([b, c]);
  }

  /**
   Reference definition of the formatted form of a digit string of at most
   ten digits, written out by its length: `XXX`, `XXX-XXX`, `XXX-XXX-XXXX`
   and their prefixes.
   */
  function Hyphenated(d: string): string
    requires |d| <= 10
  {
    if |d| <= 3 then d
    else if |d| <= 6 then d[..3] + "-" + d[3..]
    else d[..3] + "-" + d[3..6] + "-" + d[6..]
  }

  /** The regular-expression pipeline on a digit string agrees with `Hyphenated`. */
  lemma GroupedCases(d: string, g1: string, g2: string, g3: string)
    requires MatchGroups(d) == Some((g1, g2, g3))
    ensures |d| <= 10 && Join(NonEmpty([g1, g2, g3]), '-') == Hyphenated(d)
  {
    var n := |d|;
    NonEmptyOfThree(g1, g2, g3);
    if n == 0 {
      assert NonEmpty([g1, g2, g3]) == [];
    } else if n <= 3 {
      assert NonEmpty([g1, g2, g3]) == [d];
    } else if n <= 6 {
      assert NonEmpty([g1, g2, g3]) == [g1, g2];
      assert [g1, g2][1..] == [g2];
    } else {
      assert NonEmpty([g1, g2, g3]) == [g1, g2, g3];
      assert [g1, g2, g3][1..] == [g2, g3];
      assert [g2, g3][1..] == [g3];
      assert Join([g2, g3], '-') == g2 + "-" + g3;
    }
  }

  /**
   With at most ten digits the formatter's output is the reference form of
   the input's digits; it depends on the input only through its digits.
   */
  lemma FormatCases(value: string)
    requires |StripNonDigits(value)| <= 10
    ensures FormatPhoneNumber(value) == Hyphenated(StripNonDigits(value))
  {
    var d := StripNonDigits(value);
    var m := MatchGroups(d);
    GroupedCases(d, m.value.0, m.value.1, m.value.2);
  }

  lemma HyphenJoinRemove(x: string, y: string)
    ensures RemoveHyphens(x + "-" + y) == RemoveHyphens(x) + RemoveHyphens(y)
  {
    assert RemoveHyphens("-") == RemoveHyphens("");
    RemoveHyphensConcat(x + "-", y);
    RemoveHyphensConcat(x, "-");
  }

  lemma HyphenJoinStrip(x: string, y: string)
    ensures StripNonDigits(x + "-" + y) == StripNonDigits(x) + StripNonDigits(y)
  {
    assert StripNonDigits("-") == StripNonDigits("");
    StripNonDigitsConcat(x + "-", y);
    StripNonDigitsConcat(x, "-");
  }

  // ---------------------------------------------------------------------
  // Properties of the reference form

  lemma HyphenatedChars(d: string)
    requires AllDigits(d) && |d| <= 10
    ensures forall i :: 0 <= i < |Hyphenated(d)| ==> IsDigit(Hyphenated(d)[i]) || Hyphenated(d)[i] == '-'
  {
  }

  lemma HyphenatedRemoveHyphens(d: string)
    requires AllDigits(d) && |d| <= 10
    ensures RemoveHyphens(Hyphenated(d)) == d
  {
    var gs := HyphenatedGroups(d);
    JoinDigitGroups(gs);
  }

  lemma HyphenatedStripNonDigits(d: string)
    requires AllDigits(d) && |d| <= 10
    ensures StripNonDigits(Hyphenated(d)) == d
  {
    var gs := HyphenatedGroups(d);
    JoinDigitGroups(gs);
  }

  lemma HyphenatedPositions(d: string)
    requires AllDigits(d) && |d| <= 10
    ensures |Hyphenated(d)| == |d| + HyphenCount(|d|)
    ensures forall i :: 0 <= i < |Hyphenated(d)| ==>
              (Hyphenated(d)[i] == '-' <==> (i == 3 && |d| > 3) || (i == 7 && |d| > 6))
  {
  }

  // ---------------------------------------------------------------------
  // Properties of the formatter

  /**
   With at most ten digits the output holds only digits and hyphens, and
   deleting the hyphens gives back exactly the digits of the input, in order.
   */
  lemma FormatKeepsDigits(value: string)
    requires |StripNonDigits(value)| <= 10
    ensures forall i :: 0 <= i < |FormatPhoneNumber(value)| ==>
              IsDigit(FormatPhoneNumber(value)[i]) || FormatPhoneNumber(value)[i] == '-'
    ensures RemoveHyphens(FormatPhoneNumber(value)) == StripNonDigits(value)
    ensures StripNonDigits(FormatPhoneNumber(value)) == StripNonDigits(value)
  {
    FormatCases(value);
    HyphenatedChars(StripNonDigits(value));
    HyphenatedRemoveHyphens(StripNonDigits(value));
    HyphenatedStripNonDigits(StripNonDigits(value));
  }

  /**
   With `n` <= 10 digits the output has `n` digits and a hyphen at position 3
   (when there are more than 3 digits) and at position 7 (when there are more
   than 6), and nowhere else.
   */
  lemma FormatHyphenPositions(value: string)
    requires |StripNonDigits(value)| <= 10
    ensures var n := |StripNonDigits(value)|;
            |FormatPhoneNumber(value)| == n + HyphenCount(n)
    ensures var n := |StripNonDigits(value)|;
            forall i :: 0 <= i < |FormatPhoneNumber(value)| ==>
              (FormatPhoneNumber(value)[i] == '-' <==> (i == 3 && n > 3) || (i == 7 && n > 6))
  {
    FormatCases(value);
    HyphenatedPositions(StripNonDigits(value));
  }

  /**
   At most three non-empty digit groups of at most 3, 3 and 4 digits, filled
   left to right: a second group only after a full first one, a third only
   after a full second one.
   */
  ghost predicate PhoneGroups(gs: seq<string>) {
    && |gs| <= 3
    && (forall k :: 0 <= k < |gs| ==> gs[k] != "" && AllDigits(gs[k]))
    && (|gs| > 0 ==> |gs[0]| <= 3)
    && (|gs| > 1 ==> |gs[0]| == 3 && |gs[1]| <= 3)
    && (|gs| > 2 ==> |gs[1]| == 3 && |gs[2]| <= 4)
  }

  lemma JoinConcatOne(a: string)
    ensures Join([a], '-') == a && Concat([a]) == a
  {
    assert Concat([a][1..]) == "";
  }

  lemma JoinConcatTwo(a: string, b: string)
    ensures Join([a, b], '-') == a + "-" + b && Concat([a, b]) == a + b
  {
    assert [a, b][1..] == [b];
    JoinConcatOne(b);
  }

  lemma JoinConcatThree(a: string, b: string, c: string)
    ensures Join([a, b, c], '-') == a + "-" + b + "-" + c && Concat([a, b, c]) == a + b + c
  {
    assert [a, b, c][1..] == [b, c];
    JoinConcatTwo(b, c);
  }

  /** The reference form is the hyphen-joined list of its groups. */
  lemma HyphenatedGroups(d: string) returns (gs: seq<string>)
    requires AllDigits(d) && |d| <= 10
    ensures PhoneGroups(gs) && Hyphenated(d) == Join(gs, '-') && Concat(gs) == d
  {
    var n := |d|;
    if n == 0 {
      gs := [];
    } else if n <= 3 {
      gs := [d];
      JoinConcatOne(d);
    } else if n <= 6 {
      var a, b := d[..3], d[3..];
      gs := [a, b];
      JoinConcatTwo(a, b);
      assert d == a + b;
    } else {
      var a, b, c := d[..3], d[3..6], d[6..];
      gs := [a, b, c];
      JoinConcatThree(a, b, c);
      assert d == a + b + c;
    }
  }

  /**
   Joining digit groups with hyphens and then removing the hyphens, or
   keeping only the digits, gives the groups one after another.
   */
  lemma {:induction false} JoinDigitGroups(gs: seq<string>)
    requires forall k :: 0 <= k < |gs| ==> AllDigits(gs[k])
    ensures RemoveHyphens(Join(gs, '-')) == Concat(gs)
    ensures StripNonDigits(Join(gs, '-')) == Concat(gs)
  {
    if gs == [] {
    } else if |gs| == 1 {
      JoinConcatOne(gs[0]);
      RemoveHyphensOfDigits(gs[0]);
      StripNonDigitsOfDigits(gs[0]);
    } else {
      var rest := Join(gs[1..], '-');
      assert Join(gs, '-') == gs[0] + "-" + rest;
      JoinDigitGroups(gs[1..]);
      HyphenJoinRemove(gs[0], rest);
      HyphenJoinStrip(gs[0], rest);
      RemoveHyphensOfDigits(gs[0]);
      StripNonDigitsOfDigits(gs[0]);
    }
  }

  /**
   The output is the hyphen-joined list of at most three non-empty groups of
   at most 3, 3 and 4 digits, filled left to right, that together are the
   input's digits.
   */
  lemma FormatGroupShape(value: string)
    requires |StripNonDigits(value)| <= 10
    ensures exists gs: seq<string> ::
              PhoneGroups(gs) && FormatPhoneNumber(value) == Join(gs, '-') &&
              Concat(gs) == StripNonDigits(value)
  {
    FormatCases(value);
    var gs := HyphenatedGroups(StripNonDigits(value));
  }

  /**
   With at most ten digits the output is at most 12 characters (the phone
   field's `maxLength`), neither starts nor ends with a hyphen, never has two
   hyphens in a row, and is empty exactly when the input has no digit.
   */
  lemma FormatWellFormed(value: string)
    requires |StripNonDigits(value)| <= 10
    ensures |FormatPhoneNumber(value)| <= 12
    ensures FormatPhoneNumber(value) != "" ==>
              FormatPhoneNumber(value)[0] != '-' &&
              FormatPhoneNumber(value)[|FormatPhoneNumber(value)| - 1] != '-'
    ensures forall i :: 0 <= i < |FormatPhoneNumber(value)| - 1 ==>
              !(FormatPhoneNumber(value)[i] == '-' && FormatPhoneNumber(value)[i + 1] == '-')
    ensures FormatPhoneNumber(value) == "" <==> StripNonDigits(value) == ""
  {
    FormatHyphenPositions(value);
  }

  /**
   With more than ten digits the regular expression does not match and the
   value comes back exactly as typed, not as its digits.
   */
  lemma FormatReturnsRawWhenLong(value: string)
    requires |StripNonDigits(value)| > 10
    ensures FormatPhoneNumber(value) == value
  {
  }

  /** Formatting an already formatted value changes nothing. */
  lemma FormatIdempotent(value: string)
    ensures FormatPhoneNumber(FormatPhoneNumber(value)) == FormatPhoneNumber(value)
  {
    if |StripNonDigits(value)| <= 10 {
      var r := FormatPhoneNumber(value);
      FormatKeepsDigits(value);
      FormatCases(value);
      FormatCases(r);
    }
  }
}
