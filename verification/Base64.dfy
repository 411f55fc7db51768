/** Base64 as section 4 of RFC 4648 defines it, with the three implementations a file
    transfer passes through: the encoder (the same on both sides), the strict decoder of
    `base64 -d` on the host, and the lenient decoder of Node's `Buffer.from(s, 'base64')`. */
module Base64 {
  import opened Text

  type byte = x: int | 0 <= x < 256
  type sextet = x: int | 0 <= x < 64

  // ---------------------------------------------------------------- the alphabet

  function Letter(v: sextet): char {
    if v < 26 then ('A' as int + v) as char
    else if v < 52 then ('a' as int + v - 26) as char
    else if v < 62 then ('0' as int + v - 52) as char
    else if v == 62 then '+'
    else '/'
  }

  function LetterValue(c: char): Option<sextet> {
    if 'A' <= c <= 'Z' then Some(c as int - 'A' as int)
    else if 'a' <= c <= 'z' then Some(c as int - 'a' as int + 26)
    else if '0' <= c <= '9' then Some(c as int - '0' as int + 52)
    else if c == '+' then Some(62)
    else if c == '/' then Some(63)
    else None
  }

  lemma LetterRoundTrip(v: sextet)
    ensures LetterValue(Letter(v)) == Some(v)
    ensures LenientValue(Letter(v)) == Some(v)
    ensures Letter(v) != '=' && (Letter(v) as int) < 128 && !IsSpace(Letter(v))
  {}

  // ---------------------------------------------------------------- sextets and bytes

  /** The zero-padded 6-bit groups of a byte string. */
  function Sextets(b: seq<byte>): seq<sextet> {
    if |b| == 0 then []
    else if |b| == 1 then [b[0] / 4, b[0] % 4 * 16]
    else if |b| == 2 then [b[0] / 4, b[0] % 4 * 16 + b[1] / 16, b[1] % 16 * 4]
    else [b[0] / 4, b[0] % 4 * 16 + b[1] / 16, b[1] % 16 * 4 + b[2] / 64, b[2] % 64] + Sextets(b[3..])
  }

  /** The bytes that 6-bit groups stand for; left-over bits of the last group are dropped. */
  function Octets(v: seq<sextet>): seq<byte> {
    if |v| <= 1 then []
    else if |v| == 2 then [First(v[0], v[1])]
    else if |v| == 3 then [First(v[0], v[1]), Second(v[1], v[2])]
    else [First(v[0], v[1]), Second(v[1], v[2]), Third(v[2], v[3])] + Octets(v[4..])
  }

  function First(a: int, b: int): byte
    requires 0 <= a < 64 && 0 <= b < 64
  {
    a * 4 + b / 16
  }

  function Second(b: int, c: int): byte
    requires 0 <= b < 64 && 0 <= c < 64
  {
    b % 16 * 16 + c / 4
  }

  function Third(c: int, d: int): byte
    requires 0 <= c < 64 && 0 <= d < 64
  {
    c % 4 * 64 + d
  }

  lemma BitsOfTriple(a: byte, b: byte, c: byte)
    ensures First(a / 4, a % 4 * 16 + b / 16) == a
    ensures Second(a % 4 * 16 + b / 16, b % 16 * 4 + c / 64) == b
    ensures Third(b % 16 * 4 + c / 64, c % 64) == c
  {}

  lemma {:induction false} OctetsOfSextets(b: seq<byte>)
    ensures Octets(Sextets(b)) == b
  {
    if |b| == 1 {
      BitsOfTriple(b[0], 0, 0);
    } else if |b| == 2 {
      BitsOfTriple(b[0], b[1], 0);
    } else if |b| >= 3 {
      BitsOfTriple(b[0], b[1], b[2]);
      var v, rest := Sextets(b), Sextets(b[3..]);
      assert v[4..] == rest;
      OctetsOfSextets(b[3..]);
      assert Octets(v) == [b[0], b[1], b[2]] + Octets(rest);
    }
  }

  // ---------------------------------------------------------------- text

  function Letters(v: seq<sextet>): string {
    seq(|v|, i requires 0 <= i < |v| => Letter(v[i]))
  }

  function Padding(n: nat): string {
    if n % 3 == 1 then "==" else if n % 3 == 2 then "=" else ""
  }

  /** `Buffer.toString('base64')`, and what `base64 -w0` prints. */
  function Encode(b: seq<byte>): string {
    Letters(Sextets(b)) + Padding(|b|)
  }

  /** Node's decoder also reads the letters of the URL alphabet (section 5 of RFC 4648). */
  function LenientValue(c: char): Option<sextet> {
    if c == '-' then Some(62) else if c == '_' then Some(63) else LetterValue(c)
  }

  /** The alphabet characters before the first `=`, everything else skipped. */
  function LenientSextets(s: string): seq<sextet> {
    if s == "" || s[0] == '=' then []
    else match LenientValue(s[0])
      case Some(v) => [v] + LenientSextets(s[1..])
      case None => LenientSextets(s[1..])
  }

  /** `Buffer.from(s, 'base64')`: never fails. */
  function NodeDecode(s: string): seq<byte> { Octets(LenientSextets(s)) }

  predicate AreLetters(s: string) {
    forall i :: 0 <= i < |s| ==> LetterValue(s[i]).Some?
  }

  function LetterValues(s: string): seq<sextet>
    requires AreLetters(s)
  {
    seq(|s|, i requires 0 <= i < |s| => LetterValue(s[i]).value)
  }

  /** All the characters as letters, or None when one of them is not a letter. */
  function AllLetters(s: string): Option<seq<sextet>> {
    if AreLetters(s) then Some(LetterValues(s)) else None
  }

  /** Groups of four letters, only the last of which may be padded; None when the input is
      not of that form, in which case `base64 -d` exits with an error. */
  function StrictSextets(s: string): Option<seq<sextet>> {
    if |s| % 4 != 0 then None
    else if |s| >= 4 && s[|s| - 2..] == "==" then AllLetters(s[..|s| - 2])
    else if |s| >= 4 && s[|s| - 1] == '=' then AllLetters(s[..|s| - 1])
    else AllLetters(s)
  }

  function WithoutLineEnds(s: string): string {
    if s == "" then "" else (if s[0] == '\n' then "" else [s[0]]) + WithoutLineEnds(s[1..])
  }

  /** `base64 -d`, which ignores line ends. */
  function HostDecode(s: string): Option<seq<byte>> {
    match StrictSextets(WithoutLineEnds(s))
    case Some(v) => Some(Octets(v))
    case None => None
  }

  // ---------------------------------------------------------------- round trips

  lemma {:induction false} LettersLenient(v: seq<sextet>, pad: string)
    requires pad == "" || pad[0] == '='
    ensures LenientSextets(Letters(v) + pad) == v
  {
    if v == [] {
      assert Letters(v) + pad == pad;
    } else {
      LetterRoundTrip(v[0]);
      assert (Letters(v) + pad)[1..] == Letters(v[1..]) + pad;
      LettersLenient(v[1..], pad);
    }
  }

  /** Node's decoder inverts the encoder on every byte string, the empty one included. */
  lemma NodeRoundTrip(b: seq<byte>)
    ensures NodeDecode(Encode(b)) == b
  {
    LettersLenient(Sextets(b), Padding(|b|));
    OctetsOfSextets(b);
  }

  lemma AllLettersOf(v: seq<sextet>)
    ensures AllLetters(Letters(v)) == Some(v)
    ensures '=' !in Letters(v)
  {
    forall i | 0 <= i < |v| ensures LetterValue(Letters(v)[i]) == Some(v[i]) {
      LetterRoundTrip(v[i]);
    }
    assert LetterValues(Letters(v)) == v;
  }

  lemma {:induction false} SextetCount(b: seq<byte>)
    ensures (|Sextets(b)| + |Padding(|b|)|) % 4 == 0
  {
    if |b| >= 3 { SextetCount(b[3..]); }
  }

  lemma StrictWhole(v: seq<sextet>)
    requires |v| % 4 == 0
    ensures StrictSextets(Letters(v)) == Some(v)
  {
    AllLettersOf(v);
    var s := Letters(v);
    if |s| >= 4 {
      assert s[|s| - 1] in s;
      assert s[|s| - 2..][1] == s[|s| - 1];
    }
  }

  lemma StrictOne(v: seq<sextet>)
    requires |v| % 4 == 3
    ensures StrictSextets(Letters(v) + "=") == Some(v)
  {
    AllLettersOf(v);
    var l := Letters(v);
    var s := l + "=";
    assert s[|s| - 2..][0] == l[|l| - 1] && l[|l| - 1] in l;
    assert s[..|s| - 1] == l;
  }

  lemma StrictTwo(v: seq<sextet>)
    requires |v| % 4 == 2
    ensures StrictSextets(Letters(v) + "==") == Some(v)
  {
    AllLettersOf(v);
    var s := Letters(v) + "==";
    assert s[|s| - 2..] == "==" && s[..|s| - 2] == Letters(v);
  }

  lemma StrictPadded(v: seq<sextet>, pad: string)
    requires pad in {"", "=", "=="} && (|v| + |pad|) % 4 == 0
    ensures StrictSextets(Letters(v) + pad) == Some(v)
  {
    if pad == "==" {
      StrictTwo(v);
    } else if pad == "=" {
      StrictOne(v);
    } else {
      StrictWhole(v);
      assert Letters(v) + pad == Letters(v);
    }
  }

  lemma EncodeStrict(b: seq<byte>)
    ensures StrictSextets(Encode(b)) == Some(Sextets(b))
  {
    SextetCount(b);
    StrictPadded(Sextets(b), Padding(|b|));
  }

  lemma {:induction false} NoLineEnds(s: string)
    requires forall c :: c in s ==> !IsSpace(c)
    ensures WithoutLineEnds(s) == s
  {
    if s != "" {
      assert s[0] in s;
      NoLineEnds(s[1..]);
    }
  }

  /** The host's decoder accepts every encoding and inverts the encoder. */
  lemma HostRoundTrip(b: seq<byte>)
    ensures HostDecode(Encode(b)) == Some(b)
  {
    EncodeStrict(b);
    EncodePlain(b);
    NoLineEnds(Encode(b));
    OctetsOfSextets(b);
  }

  /** Encodings are ASCII, contain no white space and so survive trimming unchanged. */
  lemma LettersPlain(v: seq<sextet>)
    ensures forall c :: c in Letters(v) ==> c as int < 128 && c as int != 0 && !IsSpace(c)
  {
    forall c | c in Letters(v) ensures c as int < 128 && c as int != 0 && !IsSpace(c) {
      var i :| 0 <= i < |v| && Letters(v)[i] == c;
      LetterRoundTrip(v[i]);
    }
  }

  lemma EncodePlain(b: seq<byte>)
    ensures forall c :: c in Encode(b) ==> c as int < 128 && c as int != 0 && !IsSpace(c)
    ensures Trim(Encode(b)) == Encode(b)
  {
    LettersPlain(Sextets(b));
    var s := Encode(b);
    if s != "" {
      assert s[0] in s && s[|s| - 1] in s;
    }
  }

  // ---------------------------------------------------------------- against the standard

  /** Test vectors of section 10 of RFC 4648. */
  lemma ShortVectors()
    ensures Encode([]) == "" && Encode([0x66]) == "Zg==" && Encode([0x66, 0x6F]) == "Zm8="
  {
    assert Sextets([0x66]) == [25, 32] && Sextets([0x66, 0x6F]) == [25, 38, 60];
    assert Letters([25, 32]) == "Zg" && Letters([25, 38, 60]) == "Zm8";
  }

  lemma LongVector()
    ensures Encode([0x66, 0x6F, 0x6F, 0x62]) == "Zm9vYg=="
  {
    var four := [0x66, 0x6F, 0x6F, 0x62];
    assert four[3..] == [0x62];
    assert Sextets(four) == [25, 38, 61, 47, 24, 32];
    assert Letters([25, 38, 61, 47, 24, 32]) == "Zm9vYg";
  }

  /** The two letters that are not alphanumeric. */
  lemma LastLetters()
    ensures Encode([0xFB, 0xFF, 0xBF]) == "+/+/"
  {
    var b := [0xFB, 0xFF, 0xBF];
    assert b[3..] == [];
    assert Sextets(b) == [62, 63, 62, 63];
    assert Letters([62, 63, 62, 63]) == "+/+/";
  }
}
