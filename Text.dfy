/** String operations the source relies on: `toLowerCase`, `equalsIgnoreCase`,
    SQL `LIKE '%term%'`, JavaScript's `String.replace` with a string pattern
    (first occurrence only), and the decimal rendering of numbers. Characters
    are treated as ASCII: only 'A'..'Z' have a lower-case form here. */
module Text {

  predicate IsUpper(c: char) {
    'A' <= c <= 'Z'
  }

  function LowerChar(c: char): (r: char)
    ensures !IsUpper(r)
    ensures !IsUpper(c) ==> r == c
  {
    if IsUpper(c) then (c as int + 32) as char else c
  }

  /** `toLowerCase`, character by character. */
  function Lower(s: string): (r: string)
    ensures |r| == |s|
  {
    if s == [] then [] else [LowerChar(s[0])] + Lower(s[1..])
  }

  /** Each character is lower-cased in place. */
  lemma {:induction false} LowerAt(s: string)
    ensures forall i :: 0 <= i < |s| ==> Lower(s)[i] == LowerChar(s[i])
  {
    if s != [] {
      LowerAt(s[1..]);
    }
  }

  /** Lower-casing twice is lower-casing once. */
  lemma LowerIdempotent(s: string)
    ensures Lower(Lower(s)) == Lower(s)
  {
    LowerAt(s);
    LowerAt(Lower(s));
    assert forall i :: 0 <= i < |s| ==> Lower(Lower(s))[i] == Lower(s)[i];
  }

  /** Java's `equalsIgnoreCase`. */
  predicate EqualsIgnoreCase(a: string, b: string) {
    Lower(a) == Lower(b)
  }

  predicate IsPrefix(p: string, s: string) {
    |p| <= |s| && s[..|p|] == p
  }

  /** `s LIKE '%sub%'` with no wildcard characters in `sub`: `sub` occurs in `s`. */
  predicate Contains(s: string, sub: string)
    decreases |s|
  {
    IsPrefix(sub, s) || (s != [] && Contains(s[1..], sub))
  }

  /** `sub` occurs in `s` starting at index `i`. */
  predicate OccursAt(s: string, sub: string, i: int) {
    0 <= i <= |s| - |sub| && s[i..i + |sub|] == sub
  }

  /** `Contains` holds exactly when `sub` occurs at some position of `s`. */
  lemma {:induction false} ContainsIffOccurs(s: string, sub: string)
    ensures Contains(s, sub) <==> exists i :: OccursAt(s, sub, i)
    decreases |s|
  {
    if IsPrefix(sub, s) {
      assert OccursAt(s, sub, 0);
    } else if s == [] {
    } else {
      ContainsIffOccurs(s[1..], sub);
      if exists i :: OccursAt(s, sub, i) {
        var i :| OccursAt(s, sub, i);
        assert i != 0;
        assert OccursAt(s[1..], sub, i - 1);
      }
      if exists i :: OccursAt(s[1..], sub, i) {
        var i :| OccursAt(s[1..], sub, i);
        assert OccursAt(s, sub, i + 1);
      }
    }
  }

  /** JavaScript `s.replace(c, d)` with a one-character string pattern: only the
      first occurrence of `c` is replaced. */
  function ReplaceFirst(s: string, c: char, d: char): (r: string)
    ensures |r| == |s|
  {
    if s == [] then []
    else if s[0] == c then [d] + s[1..]
    else [s[0]] + ReplaceFirst(s[1..], c, d)
  }

  /** Position by position: the first `c` becomes `d`, everything else is kept. */
  lemma {:induction false} ReplaceFirstAt(s: string, c: char, d: char)
    ensures forall i :: 0 <= i < |s| ==>
      ReplaceFirst(s, c, d)[i] == if s[i] == c && c !in s[..i] then d else s[i]
  {
    if s != [] && s[0] != c {
      ReplaceFirstAt(s[1..], c, d);
      assert forall i :: 1 <= i < |s| ==> s[1..][..i - 1] == s[1..i];
      assert forall i :: 1 <= i < |s| ==> s[..i] == [s[0]] + s[1..i];
    }
  }

  /** The first `c` is the one after a `c`-free prefix. */
  lemma {:induction false} ReplaceFirstAfter(a: string, b: string, c: char, d: char)
    requires c !in a
    ensures ReplaceFirst(a + [c] + b, c, d) == a + [d] + b
  {
    if a != [] {
      assert (a + [c] + b)[1..] == a[1..] + [c] + b;
      ReplaceFirstAfter(a[1..], b, c, d);
      assert a + [d] + b == [a[0]] + (a[1..] + [d] + b);
    }
  }

  /** Text without `c` is left as it is. */
  lemma {:induction false} ReplaceFirstAbsent(s: string, c: char, d: char)
    requires c !in s
    ensures ReplaceFirst(s, c, d) == s
  {
    if s != [] {
      ReplaceFirstAbsent(s[1..], c, d);
    }
  }

  function Digit(n: nat): (c: char)
    requires n < 10
    ensures '0' <= c <= '9'
  {
    "0123456789"[n]
  }

  predicate IsDigit(c: char) {
    '0' <= c <= '9'
  }

  predicate AllDigits(s: string) {
    forall i :: 0 <= i < |s| ==> IsDigit(s[i])
  }

  /** The decimal rendering of a natural number, as `Long.toString` or a
      JavaScript template literal writes it. */
  function NatText(n: nat): (r: string)
    ensures r != [] && AllDigits(r)
    ensures r[0] == '0' <==> n == 0
  {
    if n < 10 then [Digit(n)] else NatText(n / 10) + [Digit(n % 10)]
  }

  /** The number a string of decimal digits denotes. */
  function DigitsValue(s: string): nat
    requires AllDigits(s)
  {
    if s == [] then 0 else 10 * DigitsValue(s[..|s| - 1]) + (s[|s| - 1] as int - '0' as int)
  }

  /** Reading back a rendered number gives the number. */
  lemma {:induction false} DigitsValueNatText(n: nat)
    ensures DigitsValue(NatText(n)) == n
  {
    if n >= 10 {
      var s := NatText(n);
      assert s[..|s| - 1] == NatText(n / 10);
      DigitsValueNatText(n / 10);
    }
  }
}
