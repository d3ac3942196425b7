/**
 * The few string operations the core relies on: decimal digits (`str.isdigit`,
 * `int()`, `str()` of an integer), the order the database sorts names by, and
 * `'\n'.join` with its inverse `str.split`.
 */
module Text {

  /** An ASCII decimal digit. */
  predicate IsDigit(c: char) {
    '0' <= c <= '9'
  }

  /** `s.isdigit()` for ASCII input: non-empty and made of digits only. */
  predicate IsDigitString(s: string) {
    s != [] && forall i :: 0 <= i < |s| ==> IsDigit(s[i])
  }

  function DigitValue(c: char): nat
    requires IsDigit(c)
  {
    c as int - '0' as int
  }

  function DigitChar(d: nat): char
    requires d < 10
  {
    ('0' as int + d) as char
  }

  /** `int(s)` for a string of digits (leading zeros allowed, as in Python). */
  function ParseNat(s: string): nat
    requires forall i :: 0 <= i < |s| ==> IsDigit(s[i])
  {
    if s == [] then 0 else ParseNat(s[..|s| - 1]) * 10 + DigitValue(s[|s| - 1])
  }

  /** `str(n)` for a non-negative integer: its decimal digits without leading zeros. */
  function NatToString(n: nat): (s: string)
    ensures IsDigitString(s)
    ensures s[0] == '0' ==> s == "0"
  {
    if n < 10 then [DigitChar(n)] else NatToString(n / 10) + [DigitChar(n % 10)]
  }

  /** `int(str(n)) == n`. */
  lemma {:induction false} ParseNatToString(n: nat)
    ensures ParseNat(NatToString(n)) == n
  {
    var s := NatToString(n);
    if n >= 10 {
      ParseNatToString(n / 10);
      assert s[..|s| - 1] == NatToString(n / 10);
    }
  }

  /** `str(i)` for any integer. */
  function IntToString(i: int): (s: string)
    ensures s != []
  {
    if i < 0 then "-" + NatToString(-i) else NatToString(i)
  }

  /** The code-point lexicographic order on strings (`a <= b`). */
  predicate LexLe(a: string, b: string) {
    a == [] || (b != [] && (a[0] < b[0] || (a[0] == b[0] && LexLe(a[1..], b[1..]))))
  }

  /** `a < b` in the same order. */
  predicate LexLt(a: string, b: string) {
    !LexLe(b, a)
  }

  lemma {:induction false} LexLeReflexive(a: string)
    ensures LexLe(a, a)
  {
    if a != [] {
      LexLeReflexive(a[1..]);
    }
  }

  lemma {:induction false} LexLeTotal(a: string, b: string)
    ensures LexLe(a, b) || LexLe(b, a)
  {
    if a != [] && b != [] && a[0] == b[0] {
      LexLeTotal(a[1..], b[1..]);
    }
  }

  lemma {:induction false} LexLeTransitive(a: string, b: string, c: string)
    requires LexLe(a, b) && LexLe(b, c)
    ensures LexLe(a, c)
  {
    if a != [] && a[0] == b[0] && b[0] == c[0] {
      LexLeTransitive(a[1..], b[1..], c[1..]);
    }
  }

  /** `a <= b` and `b <= a` only for equal strings. */
  lemma {:induction false} LexLeAntisymmetric(a: string, b: string)
    requires LexLe(a, b) && LexLe(b, a)
    ensures a == b
  {
    if a != [] {
      LexLeAntisymmetric(a[1..], b[1..]);
      assert a == [a[0]] + a[1..] && b == [b[0]] + b[1..];
    }
  }

  /** A character `str.isspace()` holds for. */
  predicate IsSpace(c: char) {
    || c == ' '
    || '\t' <= c <= '\r'
    || '\U{1C}' <= c <= '\U{1F}'
    || c == '\U{85}' || c == '\U{A0}' || c == '\U{1680}'
    || '\U{2000}' <= c <= '\U{200A}'
    || c == '\U{2028}' || c == '\U{2029}' || c == '\U{202F}' || c == '\U{205F}' || c == '\U{3000}'
  }

  /** How many whitespace characters `s` starts with. */
  function Leading(s: string): (n: nat)
    ensures n <= |s|
    ensures forall k :: 0 <= k < n ==> IsSpace(s[k])
    ensures n < |s| ==> !IsSpace(s[n])
  {
    if s != [] && IsSpace(s[0]) then 1 + Leading(s[1..]) else 0
  }

  /** `s.rstrip()`: the trailing whitespace removed. */
  function StripRight(s: string): (t: string)
    ensures |t| <= |s| && t == s[..|t|]
    ensures forall k :: |t| <= k < |s| ==> IsSpace(s[k])
    ensures t != [] ==> !IsSpace(t[|t| - 1])
  {
    if s != [] && IsSpace(s[|s| - 1]) then
      var t := StripRight(s[..|s| - 1]);
      assert s[..|s| - 1][..|t|] == s[..|t|];
      t
    else s
  }

  /**
   * `s.strip()`, which a `CharField` applies to its input (`trim_whitespace`):
   * the slice of `s` left once the whitespace at both ends is removed.
   */
  function Strip(s: string): (t: string)
    ensures Leading(s) + |t| <= |s| && t == s[Leading(s)..Leading(s) + |t|]
    ensures forall k :: Leading(s) + |t| <= k < |s| ==> IsSpace(s[k])
    ensures t != [] ==> !IsSpace(t[0]) && !IsSpace(t[|t| - 1])
    ensures t == [] <==> forall k :: 0 <= k < |s| ==> IsSpace(s[k])
  {
    var i := Leading(s);
    var t := StripRight(s[i..]);
    assert t == s[i..i + |t|] by {
      assert s[i..][..|t|] == s[i..i + |t|];
    }
    assert t == [] ==> i == |s| by {
      assert i < |s| ==> s[i..][0] == s[i];
    }
    t
  }

  /** Stripping twice strips nothing more. */
  lemma StripIdempotent(s: string)
    ensures Strip(Strip(s)) == Strip(s)
  {
    var t := Strip(s);
    assert Leading(t) == 0;
    assert t[0..] == t;
  }

  /** `sep.join(lines)`. */
  function Join(lines: seq<string>, sep: string): string {
    if lines == [] then ""
    else if |lines| == 1 then lines[0]
    else lines[0] + sep + Join(lines[1..], sep)
  }

  /** The position of the first `c` in `s`. */
  function IndexOf(s: string, c: char): (k: nat)
    requires c in s
    ensures k < |s| && s[k] == c && c !in s[..k]
  {
    if s[0] == c then 0 else 1 + IndexOf(s[1..], c)
  }

  /** `s.split(c)` for a one-character separator. */
  function Split(s: string, c: char): (parts: seq<string>)
    ensures parts != []
    decreases |s|
  {
    if c !in s then [s]
    else
      var k := IndexOf(s, c);
      [s[..k]] + Split(s[k + 1..], c)
  }

  /**
   * Splitting a joined text at the separator gives back the lines, provided
   * there is at least one line and no line contains the separator.
   */
  lemma {:induction false} SplitJoin(lines: seq<string>, c: char)
    requires lines != []
    requires forall i :: 0 <= i < |lines| ==> c !in lines[i]
    ensures Split(Join(lines, [c]), c) == lines
  {
    if |lines| > 1 {
      var rest := Join(lines[1..], [c]);
      assert Join(lines, [c]) == lines[0] + [c] + rest;
      SplitAtFirst(lines[0], c, rest);
      SplitJoin(lines[1..], c);
      assert lines == [lines[0]] + lines[1..];
    }
  }

  /** Splitting at the first separator, which ends `head`. */
  lemma SplitAtFirst(head: string, c: char, rest: string)
    requires c !in head
    ensures Split(head + [c] + rest, c) == [head] + Split(rest, c)
  {
    var s := head + [c] + rest;
    IndexOfAfter(head, c, rest);
    assert s[..|head|] == head;
    assert s[|head| + 1..] == rest;
  }

  lemma {:induction false} IndexOfAfter(head: string, c: char, rest: string)
    requires c !in head
    ensures c in head + [c] + rest && IndexOf(head + [c] + rest, c) == |head|
  {
    var s := head + [c] + rest;
    assert s[|head|] == c;
    if head != [] {
      assert s[1..] == head[1..] + [c] + rest;
      IndexOfAfter(head[1..], c, rest);
    }
  }

  /** A join of non-empty lines is empty exactly when there are no lines. */
  lemma {:induction false} JoinEmpty(lines: seq<string>, sep: string)
    requires forall i :: 0 <= i < |lines| ==> lines[i] != []
    ensures Join(lines, sep) == [] <==> lines == []
  {
    if |lines| > 1 {
      assert |Join(lines, sep)| >= |lines[0]|;
    }
  }

  /** The digits at the start of `s`, as far as they go. */
  function DigitPrefix(s: string): (d: string)
    ensures forall i :: 0 <= i < |d| ==> IsDigit(d[i])
    ensures d <= s
  {
    if s == [] || !IsDigit(s[0]) then [] else [s[0]] + DigitPrefix(s[1..])
  }

  /** The leading number of a string that starts with the digits `d` followed by a non-digit. */
  lemma {:induction false} DigitPrefixOf(d: string, rest: string)
    requires forall i :: 0 <= i < |d| ==> IsDigit(d[i])
    requires rest == [] || !IsDigit(rest[0])
    ensures DigitPrefix(d + rest) == d
  {
    if d != [] {
      assert (d + rest)[1..] == d[1..] + rest;
      DigitPrefixOf(d[1..], rest);
    }
  }
}
