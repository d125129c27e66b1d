/** Decimal text, as the write-ahead log and the tailer store offsets in their small state files. */
module Decimal {
  import opened Wrappers

  const TWO_TO_THE_64 := 0x1_0000_0000_0000_0000

  predicate IsDigit(c: char) { '0' <= c <= '9' }

  predicate AllDigits(s: string) { forall i :: 0 <= i < |s| ==> IsDigit(s[i]) }

  function Print(n: nat): (s: string)
    ensures s != "" && AllDigits(s)
  {
    var last := [(n % 10) as char + '0'];
    if n < 10 then last else Print(n / 10) + last
  }

  function Value(s: string): nat
    requires AllDigits(s)
  {
    if s == "" then 0 else Value(s[..|s| - 1]) * 10 + (s[|s| - 1] - '0') as nat
  }

  lemma {:induction false} ValueOfPrint(n: nat)
    ensures Value(Print(n)) == n
  {
    if n >= 10 {
      ValueOfPrint(n / 10);
      var front, last := Print(n / 10), [(n % 10) as char + '0'];
      assert Print(n)[..|Print(n)| - 1] == front;
    }
  }

  /** Parsing a u64: an optional plus sign, at least one digit, and a value that fits. */
  function ParseU64(s: string): Option<nat> {
    var digits := if |s| > 1 && s[0] == '+' then s[1..] else s;
    if digits != "" && AllDigits(digits) && Value(digits) < TWO_TO_THE_64 then Some(Value(digits)) else None
  }

  /** Unicode White_Space, which trimming removes. */
  predicate IsSpace(c: char) {
    var u := c as int;
    9 <= u <= 13 || u in {0x20, 0x85, 0xA0, 0x1680, 0x2028, 0x2029, 0x202F, 0x205F, 0x3000} || 0x2000 <= u <= 0x200A
  }

  function Trim(s: string): string {
    if s != "" && IsSpace(s[0]) then Trim(s[1..])
    else if s != "" && IsSpace(s[|s| - 1]) then Trim(s[..|s| - 1])
    else s
  }

  lemma PrintParses(n: nat)
    requires n < TWO_TO_THE_64
    ensures Trim(Print(n)) == Print(n) && ParseU64(Print(n)) == Some(n)
  {
    ValueOfPrint(n);
    var s := Print(n);
    assert IsDigit(s[0]) && IsDigit(s[|s| - 1]);
  }

  predicate AllSpace(s: string) { forall i :: 0 <= i < |s| ==> IsSpace(s[i]) }

  lemma {:induction false} TrimsAround(before: string, s: string, after: string)
    requires AllSpace(before) && AllSpace(after) && s != "" && !IsSpace(s[0]) && !IsSpace(s[|s| - 1])
    ensures Trim(before + s + after) == s
    decreases |before| + |after|
  {
    var text := before + s + after;
    if before != "" {
      assert text[1..] == before[1..] + s + after;
      TrimsAround(before[1..], s, after);
    } else if after != "" {
      assert text[..|text| - 1] == before + s + after[..|after| - 1];
      TrimsAround(before, s, after[..|after| - 1]);
    } else {
      assert text == s;
    }
  }

  /** White space around a number and a plus sign before it do not matter; it is read if and only if it fits. */
  lemma ParsesExactly(before: string, n: nat, after: string)
    requires AllSpace(before) && AllSpace(after)
    ensures var r := if n < TWO_TO_THE_64 then Some(n) else None;
            && ParseU64(Trim(before + Print(n) + after)) == r
            && ParseU64(Trim(before + ("+" + Print(n)) + after)) == r
  {
    ValueOfPrint(n);
    var s := Print(n);
    assert IsDigit(s[0]) && IsDigit(s[|s| - 1]);
    TrimsAround(before, s, after);
    TrimsAround(before, "+" + s, after);
    assert ("+" + s)[1..] == s;
    hide Trim;
    assert !IsDigit('+');
  }
}
