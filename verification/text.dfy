/**
 * The small pieces of Python string handling the export path relies on:
 * `str()` of an integer, the `02d` format, `'c' * n`, `'\n'.join` with its
 * inverse `split`, and `os.path.splitext` with POSIX separators.
 */
module Text {

  predicate IsDigit(c: char) {
    '0' <= c <= '9'
  }

  predicate AllDigits(s: string) {
    forall i :: 0 <= i < |s| ==> IsDigit(s[i])
  }

  function DigitChar(d: nat): (c: char)
    requires d < 10
    ensures IsDigit(c) && c as int - '0' as int == d
  {
    (d + '0' as int) as char
  }

  function DigitValue(c: char): nat
    requires IsDigit(c)
  {
    c as int - '0' as int
  }

  /** Decimal digits of `n`, most significant first, with no leading zero. */
  function NatToString(n: nat): (s: string)
    ensures |s| >= 1 && AllDigits(s)
    ensures s[0] == '0' <==> n == 0
    ensures |s| == 1 <==> n < 10
  {
    if n < 10 then [DigitChar(n)] else NatToString(n / 10) + [DigitChar(n % 10)]
  }

  /** Value of a digit string, most significant digit first; leading zeros are allowed. */
  function ParseNat(s: string): nat
    requires AllDigits(s)
  {
    if |s| == 0 then 0 else ParseNat(s[..|s| - 1]) * 10 + DigitValue(s[|s| - 1])
  }

  /** Reading back the digits of `n` gives `n`. */
  lemma {:induction false} ParseNatToString(n: nat)
    ensures ParseNat(NatToString(n)) == n
  {
    var s := NatToString(n);
    if n >= 10 {
      ParseNatToString(n / 10);
      assert s[..|s| - 1] == NatToString(n / 10);
    }
  }

  /** Python's `str()` of an integer: a minus sign, then the digits of the magnitude. */
  function IntToString(i: int): (s: string)
    ensures |s| >= 1
    ensures s[0] == '-' <==> i < 0
    ensures i >= 0 ==> AllDigits(s)
    ensures forall k :: 0 <= k < |s| ==> s[k] == '-' || IsDigit(s[k])
  {
    if i < 0 then "-" + NatToString(-i) else NatToString(i)
  }

  /** An optional minus sign followed by at least one digit. */
  predicate IsIntString(s: string) {
    if |s| > 0 && s[0] == '-' then |s| > 1 && AllDigits(s[1..]) else |s| > 0 && AllDigits(s)
  }

  function ParseInt(s: string): int
    requires IsIntString(s)
  {
    if s[0] == '-' then 0 - ParseNat(s[1..]) as int else ParseNat(s)
  }

  /** `str()` of an integer reads back as the same integer. */
  lemma ParseIntToString(i: int)
    ensures IsIntString(IntToString(i)) && ParseInt(IntToString(i)) == i
  {
    var s := IntToString(i);
    if i < 0 {
      assert s[1..] == NatToString(-i);
      ParseNatToString(-i);
    } else {
      ParseNatToString(i);
    }
  }

  /**
   * Python's `f"{i:02d}"`: zero-filled to width 2 after the sign. A negative
   * number already takes two characters, so only 0..9 gain a leading `0`.
   */
  function PadTwo(i: int): (s: string)
    ensures |s| >= 2
    ensures 0 <= i < 100 ==> |s| == 2 && AllDigits(s)
    ensures i >= 10 || i < 0 ==> s == IntToString(i)
    ensures forall k :: 0 <= k < |s| ==> s[k] == '-' || IsDigit(s[k])
  {
    if 0 <= i < 10 then "0" + NatToString(i) else IntToString(i)
  }

  /** The padded form still reads back as the number. */
  lemma PadTwoParses(i: int)
    ensures IsIntString(PadTwo(i)) && ParseInt(PadTwo(i)) == i
  {
    ParseIntToString(i);
    if 0 <= i < 10 {
      var s := PadTwo(i);
      assert s[..1] == "0";
      assert ParseNat(s) == ParseNat("0") * 10 + i;
    }
  }

  /** Python's `c * n` for a one-character string. */
  function Repeat(c: char, n: nat): (s: string)
    ensures |s| == n
    ensures forall i :: 0 <= i < n ==> s[i] == c
  {
    if n == 0 then "" else Repeat(c, n - 1) + [c]
  }

  /** `sep.join(parts)`: the separator goes between parts only, never after the last. */
  function Join(parts: seq<string>, sep: char): string {
    if |parts| == 0 then ""
    else if |parts| == 1 then parts[0]
    else parts[0] + [sep] + Join(parts[1..], sep)
  }

  /** Index of the first `c` in `s`, or `|s|` when there is none. */
  function FindFirst(s: string, c: char): (k: nat)
    ensures k <= |s|
    ensures k < |s| ==> s[k] == c
    ensures forall j :: 0 <= j < k ==> s[j] != c
  {
    if |s| == 0 then 0
    else if s[0] == c then 0
    else 1 + FindFirst(s[1..], c)
  }

  /** `s.split(sep)`: always at least one part, and no part contains the separator. */
  function Split(s: string, sep: char): (parts: seq<string>)
    ensures |parts| >= 1
    ensures forall i :: 0 <= i < |parts| ==> sep !in parts[i]
    decreases |s|
  {
    var k := FindFirst(s, sep);
    if k == |s| then [s] else [s[..k]] + Split(s[k + 1..], sep)
  }

  /** Splitting a joined list gives the list back, provided no part holds the separator. */
  lemma {:induction false} SplitJoin(parts: seq<string>, sep: char)
    requires |parts| >= 1
    requires forall i :: 0 <= i < |parts| ==> sep !in parts[i]
    ensures Split(Join(parts, sep), sep) == parts
  {
    var s := Join(parts, sep);
    if |parts| == 1 {
      assert FindFirst(s, sep) == |s|;
    } else {
      var head := parts[0];
      assert s == head + [sep] + Join(parts[1..], sep);
      forall j | 0 <= j < |head|
        ensures s[j] != sep
      {
        assert s[j] == head[j];
      }
      assert s[|head|] == sep;
      var k := FindFirst(s, sep);
      assert k == |head|;
      assert s[..k] == head;
      assert s[k + 1..] == Join(parts[1..], sep);
      SplitJoin(parts[1..], sep);
    }
  }

  /** Joining the parts of a split gives the string back. */
  lemma {:induction false} JoinSplit(s: string, sep: char)
    ensures Join(Split(s, sep), sep) == s
    decreases |s|
  {
    var k := FindFirst(s, sep);
    if k < |s| {
      var rest := s[k + 1..];
      var tail := Split(rest, sep);
      assert Split(s, sep) == [s[..k]] + tail;
      JoinCons(s[..k], tail, sep);
      JoinSplit(rest, sep);
      assert s == s[..k] + [sep] + rest;
    } else {
      assert Split(s, sep) == [s];
    }
  }

  lemma JoinCons(head: string, tail: seq<string>, sep: char)
    requires |tail| >= 1
    ensures Join([head] + tail, sep) == head + [sep] + Join(tail, sep)
  {
    assert ([head] + tail)[1..] == tail;
  }

  /** Python's `rfind`: index of the last `c` in `s`, or -1. */
  function FindLast(s: string, c: char): (k: int)
    ensures -1 <= k < |s|
    ensures k >= 0 ==> s[k] == c
    ensures forall j :: k < j < |s| ==> s[j] != c
  {
    if |s| == 0 then -1
    else if s[|s| - 1] == c then |s| - 1
    else FindLast(s[..|s| - 1], c)
  }

  /** Some character of `s[lo..hi]` is not a dot. */
  predicate HasNonDot(s: string, lo: nat, hi: nat)
    requires lo <= hi <= |s|
  {
    exists j :: lo <= j < hi && s[j] != '.'
  }

  /**
   * `os.path.splitext` with `/` as the separator: the extension runs from
   * the last dot of the final path component, unless everything before that
   * dot in the component is dots (so `.bashrc` has no extension).
   */
  function SplitExt(p: string): (r: (string, string))
    ensures r.0 + r.1 == p
    ensures r.1 == [] || (r.1[0] == '.' && '.' !in r.1[1..] && '/' !in r.1[1..])
  {
    var sepIndex := FindLast(p, '/');
    var dotIndex := FindLast(p, '.');
    if dotIndex > sepIndex && HasNonDot(p, sepIndex + 1, dotIndex) then
      assert p[..dotIndex] + p[dotIndex..] == p;
      (p[..dotIndex], p[dotIndex..])
    else
      (p, "")
  }

  /** A stem whose last character is neither a dot nor a slash, joined to a dot-free extension, splits back apart. */
  lemma SplitExtOfJoined(stem: string, ext: string)
    requires |stem| > 0 && stem[|stem| - 1] != '.' && stem[|stem| - 1] != '/'
    requires '.' !in ext && '/' !in ext
    ensures SplitExt(stem + "." + ext) == (stem, "." + ext)
  {
    var p := stem + "." + ext;
    assert p[|stem|] == '.';
    forall j | |stem| < j < |p|
      ensures p[j] != '.' && p[j] != '/'
    {
      assert p[j] == ext[j - |stem| - 1];
    }
    var dotIndex := FindLast(p, '.');
    var sepIndex := FindLast(p, '/');
    assert dotIndex == |stem|;
    assert sepIndex < |stem| - 1;
    assert p[|stem| - 1] != '.';
    assert HasNonDot(p, sepIndex + 1, dotIndex);
    assert p[..dotIndex] == stem;
    assert p[dotIndex..] == "." + ext;
  }
}
