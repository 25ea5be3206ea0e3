/**
 * The java.lang.String operations the core relies on, over `seq<char>`.
 * Case mapping is the ASCII part of Java's mapping (see README, "Left out").
 */
module JavaText {

  /** `s.startsWith(prefix)` */
  predicate StartsWith(s: string, prefix: string) {
    |prefix| <= |s| && s[..|prefix|] == prefix
  }

  /** `s.contains(sub)`: `sub` occurs at some offset of `s`. */
  predicate Contains(s: string, sub: string) {
    exists i :: 0 <= i <= |s| && StartsWith(s[i..], sub)
  }

  function LowerChar(c: char): char {
    if 'A' <= c <= 'Z' then (c as int + 32) as char else c
  }

  function UpperChar(c: char): char {
    if 'a' <= c <= 'z' then (c as int - 32) as char else c
  }

  /** `s.toLowerCase()` restricted to ASCII letters. */
  function Lower(s: string): (r: string)
    ensures |r| == |s|
    ensures forall i :: 0 <= i < |s| ==> r[i] == LowerChar(s[i])
  {
    seq(|s|, i requires 0 <= i < |s| => LowerChar(s[i]))
  }

  /** `s.toUpperCase()` restricted to ASCII letters. */
  function Upper(s: string): (r: string)
    ensures |r| == |s|
    ensures forall i :: 0 <= i < |s| ==> r[i] == UpperChar(s[i])
  {
    seq(|s|, i requires 0 <= i < |s| => UpperChar(s[i]))
  }

  /** Lower-casing is idempotent, and upper-casing first changes nothing about the lower-case form. */
  lemma LowerCanonical(s: string)
    ensures Lower(Lower(s)) == Lower(s)
    ensures Lower(Upper(s)) == Lower(s)
  {}

  /** An occurrence of an occurrence is an occurrence. */
  lemma ContainsTransitive(a: string, b: string, c: string)
    requires Contains(a, b) && Contains(b, c)
    ensures Contains(a, c)
  {
    var i :| 0 <= i <= |a| && StartsWith(a[i..], b);
    var j :| 0 <= j <= |b| && StartsWith(b[j..], c);
    assert a[i..i + |b|] == b;
    assert b[j..j + |c|] == c;
    assert a[i + j..i + j + |c|] == a[i..i + |b|][j..j + |c|];
    assert a[i + j..][..|c|] == a[i + j..i + j + |c|];
  }

  /** The empty string occurs in every string. */
  lemma ContainsEmpty(s: string)
    ensures Contains(s, "")
  {
    assert StartsWith(s[0..], "");
  }

  /** Java's `trim()` treats every character up to U+0020 as white space. */
  predicate IsTrimmable(c: char) {
    c <= ' '
  }

  /** The first index at or after `lo` that is not white space, `|s|` when there is none. */
  function SkipLeading(s: string, lo: nat): (st: nat)
    requires lo <= |s|
    ensures lo <= st <= |s|
    ensures forall i :: lo <= i < st ==> IsTrimmable(s[i])
    ensures st == |s| || !IsTrimmable(s[st])
    decreases |s| - lo
  {
    if lo < |s| && IsTrimmable(s[lo]) then SkipLeading(s, lo + 1) else lo
  }

  /** The end, at most `hi` and at least `st`, once the white space before `hi` is dropped. */
  function SkipTrailing(s: string, st: nat, hi: nat): (len: nat)
    requires st <= hi <= |s|
    ensures st <= len <= hi
    ensures forall i :: len <= i < hi ==> IsTrimmable(s[i])
    ensures len == st || !IsTrimmable(s[len - 1])
    decreases hi
  {
    if st < hi && IsTrimmable(s[hi - 1]) then SkipTrailing(s, st, hi - 1) else hi
  }

  /** `s.trim()`: the infix of `s` left once white space is dropped at both ends. */
  function Trim(s: string): (r: string)
    ensures var st := SkipLeading(s, 0); r == s[st..SkipTrailing(s, st, |s|)]
    ensures r == [] || (!IsTrimmable(r[0]) && !IsTrimmable(r[|r| - 1]))
    ensures |r| <= |s|
    ensures r == [] <==> forall i :: 0 <= i < |s| ==> IsTrimmable(s[i])
  {
    var st := SkipLeading(s, 0);
    var len := SkipTrailing(s, st, |s|);
    s[st..len]
  }

  /** The Bean Validation `@NotBlank` test on a non-null string. */
  predicate IsBlank(s: string) {
    Trim(s) == []
  }

  /** `s.lastIndexOf(c)`, -1 when `c` does not occur. */
  function LastIndexOf(s: string, c: char): (r: int)
    ensures -1 <= r < |s|
    ensures r >= 0 ==> s[r] == c
    ensures forall i :: r < i < |s| ==> s[i] != c
  {
    if |s| == 0 then -1
    else if s[|s| - 1] == c then |s| - 1
    else LastIndexOf(s[..|s| - 1], c)
  }

  /** `String.join(sep, parts)`, also `Collectors.joining(sep)`. */
  function Join(parts: seq<string>, sep: string): string
  {
    if |parts| == 0 then ""
    else if |parts| == 1 then parts[0]
    else Join(parts[..|parts| - 1], sep) + sep + parts[|parts| - 1]
  }

  /** Sum of the lengths of a list of strings. */
  function TotalLength(parts: seq<string>): nat
  {
    if |parts| == 0 then 0 else TotalLength(parts[..|parts| - 1]) + |parts[|parts| - 1]|
  }

  lemma {:induction false} JoinLength(parts: seq<string>, sep: string)
    requires |parts| > 0
    ensures |Join(parts, sep)| == TotalLength(parts) + (|parts| - 1) * |sep|
  {
    if |parts| > 1 {
      JoinLength(parts[..|parts| - 1], sep);
      assert (|parts| - 1) * |sep| == (|parts| - 2) * |sep| + |sep|;
    }
  }

  /** The joined string starts with the first part (and, by JoinLength, has room for the rest). */
  lemma {:induction false} JoinStartsWithFirst(parts: seq<string>, sep: string)
    requires |parts| > 0
    ensures StartsWith(Join(parts, sep), parts[0])
  {
    if |parts| > 1 {
      JoinStartsWithFirst(parts[..|parts| - 1], sep);
    }
  }

  /** Where part `k` starts in `Join(parts, sep)`: the parts before it and one separator after each. */
  function JoinOffset(parts: seq<string>, sep: string, k: nat): nat
    requires k <= |parts|
  {
    TotalLength(parts[..k]) + k * |sep|
  }

  /** Each part appears verbatim at its offset, so the joined string keeps the parts and their order. */
  lemma {:induction false} JoinPartAt(parts: seq<string>, sep: string, k: nat)
    requires k < |parts|
    ensures JoinOffset(parts, sep, k) + |parts[k]| <= |Join(parts, sep)|
    ensures Join(parts, sep)[JoinOffset(parts, sep, k)..JoinOffset(parts, sep, k) + |parts[k]|] == parts[k]
  {
    var n := |parts|;
    if n == 1 {
      assert parts[..0] == [];
    } else {
      var init := parts[..n - 1];
      var front := Join(init, sep);
      assert Join(parts, sep) == front + sep + parts[n - 1];
      if k < n - 1 {
        JoinPartAt(init, sep, k);
        assert init[..k] == parts[..k];
        assert init[k] == parts[k];
      } else {
        JoinLength(init, sep);
        assert parts[..k] == init;
        assert k * |sep| == (k - 1) * |sep| + |sep|;
        assert JoinOffset(parts, sep, k) == |front| + |sep|;
      }
    }
  }

  /** Consecutive parts are exactly one separator apart. */
  lemma JoinOffsetNext(parts: seq<string>, sep: string, k: nat)
    requires k < |parts|
    ensures JoinOffset(parts, sep, k + 1) == JoinOffset(parts, sep, k) + |parts[k]| + |sep|
  {
    assert parts[..k + 1][..k] == parts[..k];
    assert (k + 1) * |sep| == k * |sep| + |sep|;
  }

  /** The number a string of decimal digits denotes, most significant digit first. */
  function DigitsValue(s: string): int {
    if |s| == 0 then 0 else DigitsValue(s[..|s| - 1]) * 10 + (s[|s| - 1] as int - '0' as int)
  }

  /** `Long.parseLong` on the strings `String.valueOf` produces: an optional minus sign, then digits. */
  function DecimalValue(s: string): int {
    if |s| > 0 && s[0] == '-' then -DigitsValue(s[1..]) else DigitsValue(s)
  }

  /** Between consecutive parts the joined string holds exactly the separator. */
  lemma {:induction false} JoinSeparatorAt(parts: seq<string>, sep: string, k: nat)
    requires k + 1 < |parts|
    ensures var e := JoinOffset(parts, sep, k) + |parts[k]|;
      e + |sep| <= |Join(parts, sep)| && Join(parts, sep)[e..e + |sep|] == sep
  {
    var n := |parts|;
    var init := parts[..n - 1];
    var front := Join(init, sep);
    assert Join(parts, sep) == front + sep + parts[n - 1];
    assert init[..k] == parts[..k] && init[k] == parts[k];
    var e := JoinOffset(parts, sep, k) + |parts[k]|;
    assert e == JoinOffset(init, sep, k) + |init[k]|;
    if k + 2 < n {
      JoinSeparatorAt(init, sep, k);
    } else {
      JoinLength(init, sep);
      assert init[..|init| - 1] == parts[..k];
      assert TotalLength(init) == TotalLength(parts[..k]) + |parts[k]|;
      assert e == |front|;
    }
  }

  /** `String.valueOf(n)` for a non-negative `int`: its decimal digits. */
  function NatToString(n: nat): (r: string)
    ensures |r| > 0
    ensures forall i :: 0 <= i < |r| ==> '0' <= r[i] <= '9'
    ensures DigitsValue(r) == n
  {
    var d := ('0' as int + n % 10) as char;
    if n < 10 then
      assert [d][..0] == [];
      [d]
    else
      var rest := NatToString(n / 10);
      assert (rest + [d])[..|rest|] == rest;
      rest + [d]
  }

  /** `String.valueOf(n)` for any `long`: a minus sign before the digits of a negative number. */
  function IntToString(n: int): (r: string)
    ensures |r| > 0
    ensures n < 0 <==> r[0] == '-'
    ensures forall i :: 0 < i < |r| ==> '0' <= r[i] <= '9'
    ensures DecimalValue(r) == n
  {
    if n < 0 then
      var digits := NatToString(-n);
      assert ("-" + digits)[1..] == digits;
      "-" + digits
    else NatToString(n)
  }

  /** Distinct numbers are rendered as distinct strings. */
  lemma IntToStringInjective(a: int, b: int)
    requires IntToString(a) == IntToString(b)
    ensures a == b
  {
  }
}
