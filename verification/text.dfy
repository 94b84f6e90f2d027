/** String helpers with Python's meaning: `str.strip()`, `str.split(sep)`,
    `str.split(sep, 1)`, decimal digits and zero-padded formatting. */
module Text {

  /** Python's `str.isspace()` for one character: the characters CPython
      strips in `str.strip()` with no argument. */
  predicate IsSpace(c: char) {
    var n := c as int;
    || (0x09 <= n <= 0x0D) || (0x1C <= n <= 0x20)
    || n == 0x85 || n == 0xA0 || n == 0x1680
    || (0x2000 <= n <= 0x200A) || n == 0x2028 || n == 0x2029
    || n == 0x202F || n == 0x205F || n == 0x3000
  }

  /** True when every character is whitespace (the empty string included). */
  predicate IsBlank(s: string) {
    forall k :: 0 <= k < |s| ==> IsSpace(s[k])
  }

  /** Drops leading whitespace: the result is the suffix of `s` that starts at
      its first non-space character. */
  function TrimLeft(s: string): (r: string)
    ensures |r| <= |s| && r == s[|s| - |r|..]
    ensures IsBlank(s[..|s| - |r|])
    ensures r != [] ==> !IsSpace(r[0])
  {
    if |s| > 0 && IsSpace(s[0]) then
      var r := TrimLeft(s[1..]);
      assert s[..|s| - |r|] == [s[0]] + s[1..][..|s| - 1 - |r|];
      r
    else s
  }

  /** Drops trailing whitespace: the result is the prefix of `s` that ends at
      its last non-space character. */
  function TrimRight(s: string): (r: string)
    ensures |r| <= |s| && r == s[..|r|]
    ensures IsBlank(s[|r|..])
    ensures r != [] ==> !IsSpace(r[|r| - 1])
  {
    if |s| > 0 && IsSpace(s[|s| - 1]) then
      var r := TrimRight(s[..|s| - 1]);
      assert s[|r|..] == s[..|s| - 1][|r|..] + [s[|s| - 1]];
      r
    else s
  }

  /** Python's `s.strip()`. */
  function Strip(s: string): string {
    TrimRight(TrimLeft(s))
  }

  /** `Strip` removes exactly the whitespace at both ends: its result is a
      slice of `s` with only whitespace around it, and it neither starts nor
      ends with whitespace; it is empty exactly when `s` is blank. */
  lemma StripSpec(s: string)
    ensures exists i, j :: 0 <= i <= j <= |s| && Strip(s) == s[i..j]
                           && IsBlank(s[..i]) && IsBlank(s[j..])
    ensures Strip(s) != [] ==> !IsSpace(Strip(s)[0]) && !IsSpace(Strip(s)[|Strip(s)| - 1])
    ensures Strip(s) == [] <==> IsBlank(s)
  {
    var l := TrimLeft(s);
    var i := |s| - |l|;
    var j := i + |TrimRight(l)|;
    assert Strip(s) == s[i..j];
    assert s[j..] == l[|TrimRight(l)|..];
    if Strip(s) == [] {
      if l != [] {
        assert false;
      }
      assert s[..i] == s;
    } else {
      assert Strip(s)[0] == l[0] == s[i];
    }
  }

  /** Python's `s.split(d)`: the pieces of `s` between occurrences of `d`. */
  function Split(s: string, d: char): (parts: seq<string>)
    ensures |parts| >= 1
    ensures forall i :: 0 <= i < |parts| ==> d !in parts[i]
    ensures Join(parts, d) == s
    decreases |s|
  {
    if |s| == 0 then [""]
    else if s[0] == d then [""] + Split(s[1..], d)
    else
      var rest := Split(s[1..], d);
      assert s == [s[0]] + s[1..];
      [[s[0]] + rest[0]] + rest[1..]
  }

  /** Python's `d.join(parts)`, the inverse of `Split`. */
  function Join(parts: seq<string>, d: char): string
    requires |parts| >= 1
  {
    if |parts| == 1 then parts[0] else parts[0] + [d] + Join(parts[1..], d)
  }

  /** Splitting a string whose head contains no separator peels the head off
      as the first piece. */
  lemma {:induction false} SplitAfterHead(head: string, d: char, tail: string)
    requires d !in head
    ensures Split(head + [d] + tail, d) == [head] + Split(tail, d)
    decreases |head|
  {
    if |head| == 0 {
      assert head + [d] + tail == [d] + tail;
      assert ([d] + tail)[1..] == tail;
    } else {
      var s := head + [d] + tail;
      assert s[0] == head[0] && s[1..] == head[1..] + [d] + tail;
      SplitAfterHead(head[1..], d, tail);
      assert [head[0]] + head[1..] == head;
    }
  }

  /** A string with no separator splits into itself alone. */
  lemma {:induction false} SplitNoSeparator(s: string, d: char)
    requires d !in s
    ensures Split(s, d) == [s]
    decreases |s|
  {
    if |s| > 0 {
      SplitNoSeparator(s[1..], d);
      assert [s[0]] + s[1..] == s;
    }
  }

  /** `Split` is the only way to cut a string into separator-free pieces that
      join back to it: it agrees with every such decomposition. */
  lemma {:induction false} SplitUnique(parts: seq<string>, d: char)
    requires |parts| >= 1
    requires forall i :: 0 <= i < |parts| ==> d !in parts[i]
    ensures Split(Join(parts, d), d) == parts
    decreases |parts|
  {
    if |parts| == 1 {
      SplitNoSeparator(parts[0], d);
    } else {
      SplitUnique(parts[1..], d);
      SplitAfterHead(parts[0], d, Join(parts[1..], d));
      assert [parts[0]] + parts[1..] == parts;
    }
  }

  /** Index of the first occurrence of `c` in `s`. */
  function IndexOf(s: string, c: char): (i: nat)
    requires c in s
    ensures i < |s| && s[i] == c && c !in s[..i]
  {
    if s[0] == c then 0
    else
      assert c in s[1..] by { var k :| 0 <= k < |s| && s[k] == c; assert s[1..][k - 1] == c; }
      var i := 1 + IndexOf(s[1..], c);
      assert s[..i] == [s[0]] + s[1..][..i - 1];
      i
  }

  predicate IsDigit(c: char) {
    '0' <= c <= '9'
  }

  /** One or more ASCII decimal digits. */
  predicate IsDigits(s: string) {
    |s| > 0 && forall k :: 0 <= k < |s| ==> IsDigit(s[k])
  }

  function DigitChar(n: nat): (c: char)
    requires n < 10
    ensures IsDigit(c) && (c as int) - ('0' as int) == n
  {
    ('0' as int + n) as char
  }

  /** Python's `int(s)` on a string of ASCII digits. */
  function NumberOf(s: string): nat
    requires forall k :: 0 <= k < |s| ==> IsDigit(s[k])
  {
    if |s| == 0 then 0
    else
      assert IsDigit(s[|s| - 1]);
      NumberOf(s[..|s| - 1]) * 10 + ((s[|s| - 1] as int) - ('0' as int))
  }

  /** `NumberOf` of a short digit string stays below the next power of ten. */
  lemma {:induction false} NumberOfBound(s: string)
    requires forall k :: 0 <= k < |s| ==> IsDigit(s[k])
    ensures NumberOf(s) < Pow10(|s|)
    decreases |s|
  {
    if |s| > 0 {
      NumberOfBound(s[..|s| - 1]);
    }
  }

  function Pow10(n: nat): (r: nat)
    ensures r >= 1
  {
    if n == 0 then 1 else 10 * Pow10(n - 1)
  }

  /** The `%H`, `%M`, `%S` rendering of a clock field: two digits, zero padded. */
  function Pad2(n: nat): (r: string)
    requires n < 100
    ensures |r| == 2 && IsDigits(r) && NumberOf(r) == n
  {
    var r := [DigitChar(n / 10), DigitChar(n % 10)];
    assert r[..1] == [r[0]] && r[..1][..0] == [];
    assert NumberOf(r[..1]) == n / 10;
    r
  }

  /** Python's `f"{n:03d}"` for 0 <= n <= 999: three digits, zero padded. */
  function Pad3(n: nat): (r: string)
    requires n < 1000
    ensures |r| == 3 && IsDigits(r) && NumberOf(r) == n
  {
    var r := [DigitChar(n / 100), DigitChar(n / 10 % 10), DigitChar(n % 10)];
    assert r[..2] == [r[0], r[1]] && r[..2][..1] == [r[0]] && r[..2][..1][..0] == [];
    assert NumberOf(r[..2][..1]) == n / 100;
    assert NumberOf(r[..2]) == n / 10;
    r
  }
}
