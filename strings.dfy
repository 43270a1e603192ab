/** The few operations of Go's `strings` and `fmt` packages that the detectors
    and the HTML report use, on `string` = `seq<char>`. */
module Strings {

  /** ASCII upper-case letters become lower case; every other character is kept. */
  function LowerChar(c: char): (r: char)
    ensures 'A' <= c <= 'Z' ==> 'a' <= r <= 'z' && r as int - c as int == 32
    ensures !('A' <= c <= 'Z') ==> r == c
  {
    if 'A' <= c <= 'Z' then (c as int + 32) as char else c
  }

  /** strings.ToLower, restricted to ASCII letters. */
  function ToLower(s: string): (r: string)
    ensures |r| == |s|
    ensures forall i :: 0 <= i < |s| ==> r[i] == LowerChar(s[i])
  {
    if s == [] then [] else [LowerChar(s[0])] + ToLower(s[1..])
  }

  /** A string without upper-case letters is its own lower-case form. */
  lemma LowerIdentity(s: string)
    requires forall i :: 0 <= i < |s| ==> !('A' <= s[i] <= 'Z')
    ensures ToLower(s) == s
  {
  }

  /** Lower-casing twice is lower-casing once. */
  lemma LowerIdempotent(s: string)
    ensures ToLower(ToLower(s)) == ToLower(s)
  {
    var t := ToLower(s);
    assert forall i :: 0 <= i < |t| ==> LowerChar(t[i]) == t[i];
  }

  /** strings.HasPrefix */
  predicate HasPrefix(s: string, p: string) {
    |p| <= |s| && s[..|p|] == p
  }

  /** strings.HasSuffix */
  predicate HasSuffix(s: string, p: string) {
    |p| <= |s| && s[|s| - |p|..] == p
  }

  /** `sub` occurs in `s` at a given position. */
  predicate OccursAt(s: string, sub: string, i: int) {
    0 <= i && i + |sub| <= |s| && s[i..i + |sub|] == sub
  }

  /** strings.Contains: some position of `s` starts an occurrence of `sub`. */
  predicate Contains(s: string, sub: string) {
    exists i :: 0 <= i <= |s| && OccursAt(s, sub, i)
  }

  /** An occurrence at a known position witnesses Contains. */
  lemma ContainsAt(s: string, sub: string, i: int)
    requires OccursAt(s, sub, i)
    ensures Contains(s, sub)
  {
  }

  /** Every string contains any string it starts with, ends with, or is framed around. */
  lemma ContainsMiddle(a: string, b: string, c: string)
    ensures Contains(a + b + c, b)
  {
    assert (a + b + c)[|a|..|a| + |b|] == b;
    ContainsAt(a + b + c, b, |a|);
  }

  lemma ContainsSuffix(a: string, b: string)
    ensures Contains(a + b, b)
  {
    ContainsMiddle(a, b, "");
    assert a + b + "" == a + b;
  }

  /** What a string contains, it still contains with more text appended. */
  lemma ContainsExtend(s: string, t: string, sub: string)
    requires Contains(s, sub)
    ensures Contains(s + t, sub)
  {
    var i :| 0 <= i <= |s| && OccursAt(s, sub, i);
    assert (s + t)[i..i + |sub|] == s[i..i + |sub|];
    ContainsAt(s + t, sub, i);
  }

  /** A prefix stays a prefix when text is appended. */
  lemma PrefixExtend(s: string, t: string, p: string)
    requires HasPrefix(s, p)
    ensures HasPrefix(s + t, p)
  {
    assert (s + t)[..|p|] == s[..|p|];
  }

  /** An occurrence stays one when text is put in front. */
  lemma ContainsPrepend(s: string, t: string, sub: string)
    requires Contains(t, sub)
    ensures Contains(s + t, sub)
  {
    var i :| 0 <= i <= |t| && OccursAt(t, sub, i);
    assert (s + t)[|s| + i..|s| + i + |sub|] == t[i..i + |sub|];
    ContainsAt(s + t, sub, |s| + i);
  }

  /** A string never contains a longer one. */
  lemma NotContainsLonger(s: string, sub: string)
    requires |s| < |sub|
    ensures !Contains(s, sub)
  {
  }

  /** strings.ReplaceAll(s, target, repl) for a one-character `target`. */
  function ReplaceAll(s: string, target: char, repl: string): (r: string)
  {
    if s == [] then []
    else (if s[0] == target then repl else [s[0]]) + ReplaceAll(s[1..], target, repl)
  }

  /** The number of occurrences of a character. */
  function CountChar(s: string, c: char): nat {
    if s == [] then 0 else (if s[0] == c then 1 else 0) + CountChar(s[1..], c)
  }

  /** Replacing distributes over concatenation. */
  lemma {:induction false} ReplaceAllAppend(a: string, b: string, target: char, repl: string)
    ensures ReplaceAll(a + b, target, repl) == ReplaceAll(a, target, repl) + ReplaceAll(b, target, repl)
  {
    if a == [] {
      assert a + b == b;
    } else {
      var ab := a + b;
      assert ab[0] == a[0] && ab[1..] == a[1..] + b;
      ReplaceAllAppend(a[1..], b, target, repl);
      var head := if a[0] == target then repl else [a[0]];
      var x, y := ReplaceAll(a[1..], target, repl), ReplaceAll(b, target, repl);
      assert ReplaceAll(ab, target, repl) == head + (x + y);
      assert ReplaceAll(a, target, repl) == head + x;
      assert head + (x + y) == (head + x) + y;
    }
  }

  /** A string without `target` comes back unchanged. */
  lemma {:induction false} ReplaceAllAbsent(s: string, target: char, repl: string)
    requires target !in s
    ensures ReplaceAll(s, target, repl) == s
  {
    if s != [] {
      assert s == [s[0]] + s[1..];
      ReplaceAllAbsent(s[1..], target, repl);
    }
  }

  /** After the replacement `target` is gone, when `repl` does not bring it back. */
  lemma {:induction false} ReplaceAllRemoves(s: string, target: char, repl: string)
    requires target !in repl
    ensures target !in ReplaceAll(s, target, repl)
  {
    if s != [] {
      ReplaceAllRemoves(s[1..], target, repl);
    }
  }

  /** Each occurrence of `target` grew from one character to |repl|. */
  lemma {:induction false} ReplaceAllLength(s: string, target: char, repl: string)
    ensures |ReplaceAll(s, target, repl)| == |s| - CountChar(s, target) + CountChar(s, target) * |repl|
  {
    if s != [] {
      ReplaceAllLength(s[1..], target, repl);
      var c := CountChar(s[1..], target);
      if s[0] == target {
        assert (c + 1) * |repl| == c * |repl| + |repl|;
      }
    }
  }

  /** Character i of the input lands, in the output, where the replacement of the characters before it
      ends: kept as it is, or turned into `repl` when it is `target`. */
  lemma ReplaceAllPosition(s: string, target: char, repl: string, i: int)
    requires 0 <= i < |s|
    ensures var p := |ReplaceAll(s[..i], target, repl)|;
            var r := ReplaceAll(s, target, repl);
            if s[i] == target then p + |repl| <= |r| && r[p..p + |repl|] == repl
            else p < |r| && r[p] == s[i]
  {
    var pre, from := s[..i], s[i..];
    assert s == pre + from;
    ReplaceAllAppend(pre, from, target, repl);
    assert from[0] == s[i] && from[1..] == s[i + 1..];
    var mid := if s[i] == target then repl else [s[i]];
    var a, b := ReplaceAll(pre, target, repl), ReplaceAll(s[i + 1..], target, repl);
    assert ReplaceAll(from, target, repl) == mid + b;
    var r := a + (mid + b);
    assert ReplaceAll(s, target, repl) == r;
    assert r[|a|..|a| + |mid|] == mid;
  }

  /** One decimal digit. */
  function DigitChar(d: int): (c: char)
    requires 0 <= d < 10
    ensures '0' <= c <= '9' && c as int - '0' as int == d
  {
    ('0' as int + d) as char
  }

  /** fmt.Sprintf("%d", n) for a natural number. */
  function NatToString(n: nat): (r: string)
    ensures |r| > 0
    decreases n
  {
    if n < 10 then [DigitChar(n)] else NatToString(n / 10) + [DigitChar(n % 10)]
  }

  /** fmt.Sprintf("%d", n): a minus sign, then the digits of |n|. */
  function IntToString(n: int): (r: string)
    ensures |r| > 0
  {
    if n < 0 then "-" + NatToString(-n) else NatToString(n)
  }

  predicate IsDigits(s: string) {
    forall i :: 0 <= i < |s| ==> '0' <= s[i] <= '9'
  }

  /** Reading a string of decimal digits back as a number. */
  function ParseDigits(s: string): nat
    requires IsDigits(s)
    decreases |s|
  {
    if s == [] then 0
    else 10 * ParseDigits(s[..|s| - 1]) + (s[|s| - 1] as int - '0' as int)
  }

  /** Reading back what IntToString wrote. */
  function ParseInt(s: string): int
    requires |s| > 0
    requires (if s[0] == '-' then IsDigits(s[1..]) else IsDigits(s))
  {
    if s[0] == '-' then -(ParseDigits(s[1..]) as int) else ParseDigits(s)
  }

  /** The digits written for n read back as n. */
  lemma {:induction false} NatToStringRoundTrip(n: nat)
    ensures IsDigits(NatToString(n))
    ensures NatToString(n)[0] != '-'
    ensures ParseDigits(NatToString(n)) == n
    decreases n
  {
    if n >= 10 {
      NatToStringRoundTrip(n / 10);
      var s := NatToString(n);
      assert s[..|s| - 1] == NatToString(n / 10);
    }
  }

  /** The decimal text of every integer is read back as that integer. */
  lemma IntToStringRoundTrip(n: int)
    ensures var s := IntToString(n);
      (if s[0] == '-' then IsDigits(s[1..]) else IsDigits(s)) && ParseInt(s) == n
  {
    if n < 0 {
      NatToStringRoundTrip(-n);
      assert IntToString(n)[1..] == NatToString(-n);
    } else {
      NatToStringRoundTrip(n);
    }
  }

  /** Two different integers are written differently. */
  lemma IntToStringInjective(m: int, n: int)
    requires IntToString(m) == IntToString(n)
    ensures m == n
  {
    IntToStringRoundTrip(m);
    IntToStringRoundTrip(n);
  }
}
