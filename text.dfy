/** Operator answers as the prompts read them: first-character tests, ASCII
    upper-casing, Python's int() on decimal literals, and the substring test
    behind a `name__contains` query. */
module Text {
  import opened Ledger

  predicate StartsWith(s: string, c: char) {
    |s| > 0 && s[0] == c
  }

  function UpperChar(c: char): char {
    if 'a' <= c <= 'z' then (c as int - 32) as char else c
  }

  function Upper(s: string): string {
    seq(|s|, i requires 0 <= i < |s| => UpperChar(s[i]))
  }

  /** The escape answer `none`, in any mix of cases. */
  predicate IsNoneAnswer(s: string) {
    Upper(s) == "NONE"
  }

  /** The answer `no`, in any mix of cases. */
  predicate IsNoAnswer(s: string) {
    Upper(s) == "NO"
  }

  lemma NoneAnswerSpellings(s: string)
    ensures IsNoneAnswer(s) <==>
      |s| == 4 && s[0] in "nN" && s[1] in "oO" && s[2] in "nN" && s[3] in "eE"
  {
    if IsNoneAnswer(s) {
      var u := Upper(s);
      assert |u| == 4 && u == "NONE";
      assert u[0] == UpperChar(s[0]) == 'N' && u[1] == UpperChar(s[1]) == 'O';
      assert u[2] == UpperChar(s[2]) == 'N' && u[3] == UpperChar(s[3]) == 'E';
    }
    if |s| == 4 && s[0] in "nN" && s[1] in "oO" && s[2] in "nN" && s[3] in "eE" {
      assert Upper(s) == [UpperChar(s[0]), UpperChar(s[1]), UpperChar(s[2]), UpperChar(s[3])];
    }
  }

  predicate IsDigit(c: char) {
    '0' <= c <= '9'
  }

  predicate AllDigits(s: string) {
    forall i :: 0 <= i < |s| ==> IsDigit(s[i])
  }

  function DigitValue(c: char): nat
    requires IsDigit(c)
  {
    c as int - '0' as int
  }

  function DigitsValue(s: string): nat
    requires AllDigits(s)
    decreases |s|
  {
    if s == [] then 0 else 10 * DigitsValue(s[..|s| - 1]) + DigitValue(s[|s| - 1])
  }

  /** Python's int() on a decimal literal: an optional sign followed by at
      least one ASCII digit; anything else is a ValueError (None here). */
  function ParseInt(s: string): Option<int> {
    if |s| > 0 && (s[0] == '+' || s[0] == '-') then
      if |s| > 1 && AllDigits(s[1..]) then
        var magnitude: int := DigitsValue(s[1..]);
        Some(if s[0] == '-' then -magnitude else magnitude)
      else None
    else if |s| > 0 && AllDigits(s) then Some(DigitsValue(s))
    else None
  }

  function DigitChar(d: nat): char
    requires d < 10
  {
    ('0' as int + d) as char
  }

  /** The decimal text of a number, as an operator types it. */
  function ShowNat(n: nat): (s: string)
    ensures |s| > 0 && AllDigits(s)
  {
    if n < 10 then [DigitChar(n)] else ShowNat(n / 10) + [DigitChar(n % 10)]
  }

  function ShowInt(i: int): string {
    if i < 0 then "-" + ShowNat(-i) else ShowNat(i)
  }

  lemma {:induction false} ShowNatValue(n: nat)
    ensures DigitsValue(ShowNat(n)) == n
  {
    if n >= 10 {
      ShowNatValue(n / 10);
      var s := ShowNat(n);
      assert s[..|s| - 1] == ShowNat(n / 10);
    }
  }

  /** Typing the decimal text of a number gives that number back. */
  lemma ParseShowInt(i: int)
    ensures ParseInt(ShowInt(i)) == Some(i)
  {
    if i < 0 {
      ShowNatValue(-i);
      assert ShowInt(i)[1..] == ShowNat(-i);
    } else {
      ShowNatValue(i);
    }
  }

  /** A number typed as text is never taken for the `none` escape. */
  lemma ShowIntIsNotNone(i: int)
    ensures !IsNoneAnswer(ShowInt(i))
  {
    var s := ShowInt(i);
    assert s[0] == '-' || IsDigit(s[0]);
    assert Upper(s)[0] == UpperChar(s[0]);
  }

  /** `part` occurs in `text` (an SQL `LIKE '%part%'`). */
  predicate Contains(text: string, part: string) {
    exists i :: 0 <= i <= |text| - |part| && text[i..][..|part|] == part
  }

  function MatchingFrom(names: seq<string>, query: string, from: nat): (r: seq<nat>)
    requires from <= |names|
    ensures forall k :: 0 <= k < |r| ==> from <= r[k] < |names| && Contains(names[r[k]], query)
    ensures forall i :: from <= i < |names| && Contains(names[i], query) ==> i in r
    ensures forall j, k :: 0 <= j < k < |r| ==> r[j] < r[k]
    decreases |names| - from
  {
    if from == |names| then []
    else
      var rest := MatchingFrom(names, query, from + 1);
      if Contains(names[from], query) then [from] + rest else rest
  }

  /** `objects.filter(name__contains=query)`: the positions of the names that
      contain the query, in table order. */
  function Matching(names: seq<string>, query: string): (r: seq<nat>)
    ensures forall k :: 0 <= k < |r| ==> r[k] < |names| && Contains(names[r[k]], query)
    ensures forall i :: 0 <= i < |names| && Contains(names[i], query) ==> i in r
    ensures forall j, k :: 0 <= j < k < |r| ==> r[j] < r[k]
  {
    MatchingFrom(names, query, 0)
  }
}
