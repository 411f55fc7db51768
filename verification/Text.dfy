/** String operations of the JavaScript runtime that the repository's code relies on:
    splitting, joining, trimming, and printing and reading numbers. */
module Text {

  datatype Option<+T> = None | Some(value: T)

  // ---------------------------------------------------------------- splitting and joining

  /** `s.split(sep)` for a one-character separator; there is always at least one part. */
  function Split(s: string, sep: char): (parts: seq<string>)
    ensures |parts| > 0
  {
    if s == "" then [""]
    else
      var rest := Split(s[1..], sep);
      if s[0] == sep then [""] + rest else [[s[0]] + rest[0]] + rest[1..]
  }

  /** `parts.join(sep)`. */
  function Join(parts: seq<string>, sep: string): string {
    if |parts| == 0 then ""
    else if |parts| == 1 then parts[0]
    else parts[0] + sep + Join(parts[1..], sep)
  }

  lemma {:induction false} SplitPartsFree(s: string, sep: char)
    ensures forall part :: part in Split(s, sep) ==> sep !in part
  {
    if s != "" {
      SplitPartsFree(s[1..], sep);
      var rest := Split(s[1..], sep);
      assert forall part :: part in rest[1..] ==> part in rest;
    }
  }

  /** A separator-free first part followed by a separator is split off as it stands. */
  lemma {:induction false} SplitHead(part: string, sep: char, tail: string)
    requires sep !in part
    ensures Split(part + [sep] + tail, sep) == [part] + Split(tail, sep)
  {
    var s := part + [sep] + tail;
    if part == "" {
      assert s[1..] == tail;
    } else {
      assert s[1..] == part[1..] + [sep] + tail;
      assert part[0] in part && part[0] != sep;
      SplitHead(part[1..], sep, tail);
      assert [part[0]] + part[1..] == part;
      assert ([part[1..]] + Split(tail, sep))[1..] == Split(tail, sep);
    }
  }

  lemma {:induction false} SplitWhole(part: string, sep: char)
    requires sep !in part
    ensures Split(part, sep) == [part]
  {
    if part != "" {
      assert part[0] in part && part[0] != sep;
      SplitWhole(part[1..], sep);
      assert [part[0]] + part[1..] == part;
    }
  }

  lemma {:induction false} SplitJoin(parts: seq<string>, sep: char)
    requires |parts| > 0
    requires forall part :: part in parts ==> sep !in part
    ensures Split(Join(parts, [sep]), sep) == parts
  {
    if |parts| == 1 {
      SplitWhole(parts[0], sep);
    } else {
      SplitHead(parts[0], sep, Join(parts[1..], [sep]));
      SplitJoin(parts[1..], sep);
    }
  }

  lemma {:induction false} JoinSplit(s: string, sep: char)
    ensures Join(Split(s, sep), [sep]) == s
  {
    if s != "" {
      JoinSplit(s[1..], sep);
      var rest := Split(s[1..], sep);
      if s[0] == sep {
        assert ([""] + rest)[1..] == rest;
      } else {
        var parts := [[s[0]] + rest[0]] + rest[1..];
        assert parts[1..] == rest[1..];
      }
    }
  }

  // ---------------------------------------------------------------- trimming

  /** The characters removed by `String.prototype.trim`. */
  predicate IsSpace(c: char) {
    c in "\t\n\r " || c as int in {0x0B, 0x0C, 0xA0, 0x1680, 0x2028, 0x2029, 0x202F, 0x205F, 0x3000, 0xFEFF}
    || 0x2000 <= c as int <= 0x200A
  }

  function TrimStart(s: string): string {
    if s != "" && IsSpace(s[0]) then TrimStart(s[1..]) else s
  }

  function TrimEnd(s: string): string {
    if s != "" && IsSpace(s[|s| - 1]) then TrimEnd(s[..|s| - 1]) else s
  }

  function Trim(s: string): string { TrimEnd(TrimStart(s)) }

  // ---------------------------------------------------------------- numbers

  predicate IsDigit(c: char, radix: nat)
    requires 2 <= radix <= 10
  {
    '0' as int <= c as int < '0' as int + radix
  }

  function Digit(d: nat): char
    requires d < 10
  {
    ('0' as int + d) as char
  }

  /** Positional notation of a natural number, as a template literal or `%s` prints it. */
  function Print(n: nat, radix: nat): (s: string)
    requires 2 <= radix <= 10
    ensures |s| > 0 && forall c :: c in s ==> IsDigit(c, radix)
  {
    if n < radix then [Digit(n)] else Print(n / radix, radix) + [Digit(n % radix)]
  }

  function Times(a: nat, b: nat): nat { a * b }

  /** The value of a string of digits. */
  function Value(s: string, radix: nat): nat
    requires 2 <= radix <= 10
    requires forall c :: c in s ==> IsDigit(c, radix)
  {
    if s == "" then 0
    else
      assert IsDigit(s[|s| - 1], radix) by { assert s[|s| - 1] in s; }
      assert forall c :: c in s[..|s| - 1] ==> c in s;
      var front: nat := Value(s[..|s| - 1], radix);
      Times(front, radix) + (s[|s| - 1] as int - '0' as int)
  }

  lemma ValueAppend(front: string, d: nat, radix: nat)
    requires 2 <= radix <= 10 && d < radix
    requires forall c :: c in front ==> IsDigit(c, radix)
    ensures forall c :: c in front + [Digit(d)] ==> IsDigit(c, radix)
    ensures Value(front + [Digit(d)], radix) == Times(Value(front, radix), radix) + d
  {
    var s := front + [Digit(d)];
    assert s[..|s| - 1] == front;
  }

  lemma DivMod(n: nat, radix: nat)
    requires radix > 0
    ensures Times(n / radix, radix) + n % radix == n
  {}

  lemma {:induction false} ValueOfPrint(n: nat, radix: nat)
    requires 2 <= radix <= 10
    ensures Value(Print(n, radix), radix) == n
  {
    if n < radix {
      assert [Digit(n)][..0] == "";
    } else {
      ValueOfPrint(n / radix, radix);
      ValueAppend(Print(n / radix, radix), n % radix, radix);
      DivMod(n, radix);
    }
  }

  lemma PrintInjective(m: nat, n: nat, radix: nat)
    requires 2 <= radix <= 10
    requires Print(m, radix) == Print(n, radix)
    ensures m == n
  {
    ValueOfPrint(m, radix);
    ValueOfPrint(n, radix);
  }

  /** The longest prefix of digits. */
  function DigitPrefix(s: string, radix: nat): (d: string)
    requires 2 <= radix <= 10
    ensures d <= s && forall c :: c in d ==> IsDigit(c, radix)
  {
    if s != "" && IsDigit(s[0], radix) then [s[0]] + DigitPrefix(s[1..], radix) else ""
  }

  lemma {:induction false} DigitPrefixStops(d: string, tail: string, radix: nat)
    requires 2 <= radix <= 10
    requires forall c :: c in d ==> IsDigit(c, radix)
    requires tail == "" || !IsDigit(tail[0], radix)
    ensures DigitPrefix(d + tail, radix) == d
  {
    if d == "" {
      assert d + tail == tail;
    } else {
      assert (d + tail)[1..] == d[1..] + tail;
      DigitPrefixStops(d[1..], tail, radix);
    }
  }

  /** `Number.parseInt(s, radix) || 0`: leading white space, an optional sign, then the
      longest digit prefix; no digits give NaN, which `|| 0` turns into 0. */
  function ParseInt(s: string, radix: nat): int
    requires 2 <= radix <= 10
  {
    var t := TrimStart(s);
    if t != "" && t[0] == '-' then 0 - Value(DigitPrefix(t[1..], radix), radix)
    else if t != "" && t[0] == '+' then Value(DigitPrefix(t[1..], radix), radix)
    else Value(DigitPrefix(t, radix), radix)
  }

  lemma ParseIntOfPrint(n: nat, radix: nat)
    requires 2 <= radix <= 10
    ensures ParseInt(Print(n, radix), radix) == n
  {
    var s := Print(n, radix);
    assert IsDigit(s[0], radix);
    assert s + "" == s;
    DigitPrefixStops(s, "", radix);
    ValueOfPrint(n, radix);
  }
}
