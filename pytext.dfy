/** The parts of Python's `str`, `bytes` and `os.path` behaviour that the service's
    decisions depend on, written out so that the core's string logic can be stated
    exactly: `lower`, `strip`, `rstrip`, `partition`, `startswith`, `rsplit`,
    `os.path.splitext`, `str(int)` and `hexdigest`. */
module PyText {

  /** One element of a Python `bytes` value. */
  type byte = x: int | 0 <= x < 256

  /** `str.isspace()`: the characters Python's `strip()` removes by default. */
  predicate IsSpace(c: char) {
    || c == ' '
    || ('\t' <= c <= '\r')
    || ('\U{1c}' <= c <= '\U{1f}')
    || c == '\U{85}' || c == '\U{a0}' || c == '\U{1680}'
    || ('\U{2000}' <= c <= '\U{200a}')
    || c == '\U{2028}' || c == '\U{2029}' || c == '\U{202f}' || c == '\U{205f}' || c == '\U{3000}'
  }

  /** `c.lower()` for an ASCII letter; every other character is left as it is. */
  function LowerChar(c: char): (r: char)
    ensures 'A' <= c <= 'Z' ==> 'a' <= r <= 'z' && r as int - c as int == 32
    ensures !('A' <= c <= 'Z') ==> r == c
  {
    if 'A' <= c <= 'Z' then (c as int + 32) as char else c
  }

  /** `s.lower()`, restricted to ASCII case mapping. */
  function Lower(s: string): (r: string)
    ensures |r| == |s| && forall i :: 0 <= i < |s| ==> r[i] == LowerChar(s[i])
  {
    if s == [] then [] else [LowerChar(s[0])] + Lower(s[1..])
  }

  /** `s.lstrip(chars)` where `drop` tells which characters are stripped. */
  function LStrip(s: string, drop: char -> bool): (r: string)
    ensures |r| <= |s| && r == s[|s| - |r|..]
    ensures forall i :: 0 <= i < |s| - |r| ==> drop(s[i])
    ensures r == [] || !drop(r[0])
  {
    if |s| > 0 && drop(s[0]) then LStrip(s[1..], drop) else s
  }

  /** `s.rstrip(chars)` where `drop` tells which characters are stripped. */
  function RStrip(s: string, drop: char -> bool): (r: string)
    ensures |r| <= |s| && r == s[..|r|]
    ensures forall i :: |r| <= i < |s| ==> drop(s[i])
    ensures r == [] || !drop(r[|r| - 1])
  {
    if |s| > 0 && drop(s[|s| - 1]) then RStrip(s[..|s| - 1], drop) else s
  }

  /** `s.strip()`: leading and trailing whitespace removed. */
  function Strip(s: string): (r: string)
    ensures exists i, j :: 0 <= i <= j <= |s| && r == s[i..j]
    ensures r == [] || (!IsSpace(r[0]) && !IsSpace(r[|r| - 1]))
  {
    var l := LStrip(s, IsSpace);
    var r := RStrip(l, IsSpace);
    assert r == s[|s| - |l|..|s| - |l| + |r|];
    r
  }

  /** Text with no whitespace at either end is left as it is by `strip()`. */
  lemma StripUnchanged(s: string)
    requires s == [] || (!IsSpace(s[0]) && !IsSpace(s[|s| - 1]))
    ensures Strip(s) == s
  {
    var l := LStrip(s, IsSpace);
    if |s| - |l| > 0 {
      assert false;
    }
    var r := RStrip(l, IsSpace);
    if |r| < |l| {
      assert false;
    }
  }

  /** `s.partition(sep)` without the separator: the text before the first `sep` and
      the text after it, or `(s, "")` when `sep` does not occur. */
  function Partition(s: string, sep: char): (r: (string, string))
    ensures sep in s ==> r.0 + [sep] + r.1 == s && sep !in r.0
    ensures sep !in s ==> r == (s, "")
  {
    if s == [] then ("", "")
    else if s[0] == sep then ("", s[1..])
    else
      var p := Partition(s[1..], sep);
      assert s == [s[0]] + s[1..];
      ([s[0]] + p.0, p.1)
  }

  /** `s.rfind(c)`: the index of the last `c`, or -1. */
  function RFind(s: string, c: char): (i: int)
    ensures -1 <= i < |s|
    ensures i >= 0 ==> s[i] == c && forall j :: i < j < |s| ==> s[j] != c
    ensures i == -1 ==> forall j :: 0 <= j < |s| ==> s[j] != c
  {
    if s == [] then -1
    else if s[|s| - 1] == c then |s| - 1
    else
      var i := RFind(s[..|s| - 1], c);
      assert s == s[..|s| - 1] + [s[|s| - 1]];
      i
  }

  /** `s.rsplit(c, 1)[-1]` when `c` occurs in `s`: the text after the last `c`. */
  function AfterLast(s: string, c: char): (r: string)
    requires c in s
    ensures |r| < |s| && r == s[|s| - |r|..] && s[|s| - |r| - 1] == c
    ensures forall j :: 0 <= j < |r| ==> r[j] != c
  {
    var i := RFind(s, c);
    assert i >= 0;
    s[i + 1..]
  }

  /** The extension returned by POSIX `os.path.splitext(p)[1]`: from the last `.` of
      the last path component, unless that component is only leading dots up to it. */
  function SplitExt(p: string): (ext: string)
    ensures ext != [] ==> ext[0] == '.' && |ext| <= |p| && ext == p[|p| - |ext|..]
    ensures forall i :: 0 <= i < |ext| ==> ext[i] != '/' && (i > 0 ==> ext[i] != '.')
  {
    var sepIndex := RFind(p, '/');
    var dotIndex := RFind(p, '.');
    if dotIndex > sepIndex && HasNonDot(p[sepIndex + 1..dotIndex]) then
      TailFromLastDot(p, sepIndex, dotIndex);
      p[dotIndex..]
    else ""
  }

  /** The text from the last dot, when it lies after the last separator, holds no
      separator and no further dot. */
  lemma TailFromLastDot(p: string, sepIndex: int, dotIndex: int)
    requires -1 <= sepIndex < dotIndex < |p| && p[dotIndex] == '.'
    requires forall j :: sepIndex < j < |p| ==> p[j] != '/'
    requires forall j :: dotIndex < j < |p| ==> p[j] != '.'
    ensures forall i :: 0 <= i < |p| - dotIndex ==> p[dotIndex..][i] != '/' && (i > 0 ==> p[dotIndex..][i] != '.')
  {
    var ext := p[dotIndex..];
    forall i | 0 <= i < |ext| ensures ext[i] != '/' && (i > 0 ==> ext[i] != '.') {
      assert ext[i] == p[dotIndex + i];
    }
  }

  /** Some character of `s` is not a dot. */
  predicate HasNonDot(s: string) {
    exists k :: 0 <= k < |s| && s[k] != '.'
  }

  /** The decimal digit for `d`. */
  function DigitChar(d: nat): (c: char)
    requires d < 10
    ensures '0' <= c <= '9' && c as int - '0' as int == d
  {
    ('0' as int + d) as char
  }

  /** The value of a string of decimal digits. */
  function DecimalValue(s: string): nat
    requires forall i :: 0 <= i < |s| ==> '0' <= s[i] <= '9'
  {
    if s == [] then 0 else 10 * DecimalValue(s[..|s| - 1]) + (s[|s| - 1] as int - '0' as int)
  }

  /** `str(n)` for a natural number: its shortest decimal spelling. */
  function NatToString(n: nat): (r: string)
    ensures |r| >= 1 && forall i :: 0 <= i < |r| ==> '0' <= r[i] <= '9'
    ensures DecimalValue(r) == n
    ensures r[0] == '0' ==> n == 0
  {
    if n < 10 then [DigitChar(n)]
    else
      var r := NatToString(n / 10) + [DigitChar(n % 10)];
      assert r[..|r| - 1] == NatToString(n / 10);
      r
  }

  /** `str(i)` for any integer. */
  function IntToString(i: int): (r: string)
    ensures i < 0 ==> r == "-" + NatToString(-i) && DecimalValue(r[1..]) == -i
    ensures i >= 0 ==> r == NatToString(i)
  {
    if i < 0 then "-" + NatToString(-i) else NatToString(i)
  }

  /** The lower-case hexadecimal digit for `d`. */
  function HexChar(d: nat): (c: char)
    requires d < 16
    ensures ('0' <= c <= '9') || ('a' <= c <= 'f')
  {
    if d < 10 then DigitChar(d) else ('a' as int + (d - 10)) as char
  }

  /** `hashlib` `hexdigest()`: two lower-case hex digits per byte, high nibble first. */
  function HexDigest(b: seq<byte>): (r: string)
    ensures |r| == 2 * |b|
    ensures forall i :: 0 <= i < |r| ==> ('0' <= r[i] <= '9') || ('a' <= r[i] <= 'f')
  {
    if b == [] then [] else [HexChar(b[0] / 16), HexChar(b[0] % 16)] + HexDigest(b[1..])
  }
}
