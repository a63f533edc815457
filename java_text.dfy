/** The few pieces of Java's string library the formatter relies on: `startsWith`,
    `split(",")`, `String.valueOf(long)`, `Integer.parseInt` and the `%0<width>d` format. */
module JavaText {
  import opened JavaInt

  /** `s.startsWith(prefix)`. */
  predicate StartsWith(s: string, prefix: string) {
    |prefix| <= |s| && s[..|prefix|] == prefix
  }

  /** The pieces of `s` between the separators, empty pieces included. */
  function Pieces(s: string, sep: char): (ps: seq<string>)
    ensures |ps| >= 1
    ensures forall i :: 0 <= i < |ps| ==> sep !in ps[i]
    ensures sep !in s ==> ps == [s]
  {
    if s == [] then [""]
    else if s[0] == sep then [""] + Pieces(s[1..], sep)
    else
      var rest := Pieces(s[1..], sep);
      assert s == [s[0]] + s[1..];
      [[s[0]] + rest[0]] + rest[1..]
  }

  /** The pieces joined back with the separator. */
  function Join(ps: seq<string>, sep: char): string
    requires |ps| >= 1
  {
    if |ps| == 1 then ps[0] else ps[0] + [sep] + Join(ps[1..], sep)
  }

  /** Splitting at every separator and joining again gives the original string back. */
  lemma {:induction false} JoinPieces(s: string, sep: char)
    ensures Join(Pieces(s, sep), sep) == s
  {
    if s == [] {
    } else if s[0] == sep {
      JoinPieces(s[1..], sep);
      assert s == [sep] + s[1..];
    } else {
      var rest := Pieces(s[1..], sep);
      JoinPieces(s[1..], sep);
      if |rest| == 1 {
        assert s == [s[0]] + s[1..];
      } else {
        assert Join(rest, sep) == rest[0] + [sep] + Join(rest[1..], sep);
        assert s == [s[0]] + s[1..];
      }
    }
  }

  /** A piece without separators followed by a separator is split off first. */
  lemma {:induction false} PiecesOfPrefix(a: string, sep: char, b: string)
    requires sep !in a
    ensures Pieces(a + [sep] + b, sep) == [a] + Pieces(b, sep)
  {
    if a == [] {
      assert a + [sep] + b == [sep] + b;
    } else {
      var s := a + [sep] + b;
      PiecesOfPrefix(a[1..], sep, b);
      assert s[0] == a[0] && s[1..] == a[1..] + [sep] + b;
      assert [a[0]] + a[1..] == a;
    }
  }

  /** The trailing empty pieces removed. */
  function DropTrailingEmpty(ps: seq<string>): (r: seq<string>)
    ensures |r| <= |ps| && r == ps[..|r|]
    ensures |r| > 0 ==> r[|r| - 1] != ""
    ensures forall i :: |r| <= i < |ps| ==> ps[i] == ""
  {
    if |ps| > 0 && ps[|ps| - 1] == "" then DropTrailingEmpty(ps[..|ps| - 1]) else ps
  }

  /** `s.split(String.valueOf(sep))`: a string without the separator is its own only piece;
      otherwise the pieces between separators, with the trailing empty ones removed. */
  function Split(s: string, sep: char): (r: seq<string>)
    ensures sep !in s ==> r == [s]
    ensures forall i :: 0 <= i < |r| ==> sep !in r[i]
    ensures sep in s && |r| > 0 ==> r[|r| - 1] != ""
  {
    if sep !in s then [s] else DropTrailingEmpty(Pieces(s, sep))
  }

  /** Two separator-free strings, the second non-empty, split back into the two. */
  lemma SplitPair(a: string, sep: char, b: string)
    requires sep !in a && sep !in b && b != ""
    ensures Split(a + [sep] + b, sep) == [a, b]
  {
    PiecesOfPrefix(a, sep, b);
    assert (a + [sep] + b)[|a|] == sep;
  }

  /** Splitting drops exactly the trailing empty pieces: the kept pieces joined with the
      dropped separators give the string back. */
  lemma SplitJoin(s: string, sep: char)
    requires sep in s
    ensures var ps := Pieces(s, sep); var r := Split(s, sep);
      r == ps[..|r|] && (forall i :: |r| <= i < |ps| ==> ps[i] == "") && Join(ps, sep) == s
  {
    JoinPieces(s, sep);
  }

  predicate IsDigit(c: char) {
    '0' <= c <= '9'
  }

  function DigitChar(n: int): (c: char)
    requires 0 <= n < 10
    ensures IsDigit(c)
  {
    ('0' as int + n) as char
  }

  function DigitValue(c: char): (n: int)
    requires IsDigit(c)
    ensures 0 <= n < 10 && DigitChar(n) == c
  {
    c as int - '0' as int
  }

  predicate AllDigits(s: string) {
    forall i :: 0 <= i < |s| ==> IsDigit(s[i])
  }

  /** The decimal digits of a natural number, without leading zeros. */
  function Digits(n: nat): (s: string)
    ensures |s| >= 1 && AllDigits(s)
    ensures |s| > 1 ==> s[0] != '0'
    decreases n
  {
    if n < 10 then [DigitChar(n)] else Digits(n / 10) + [DigitChar(n % 10)]
  }

  /** The number a string of digits denotes; leading zeros add nothing. */
  function DigitsValue(s: string): (n: nat)
    requires AllDigits(s)
  {
    if s == [] then 0 else 10 * DigitsValue(s[..|s| - 1]) + DigitValue(s[|s| - 1])
  }

  /** The digits of a number denote that number. */
  lemma {:induction false} DigitsRoundTrip(n: nat)
    ensures DigitsValue(Digits(n)) == n
    decreases n
  {
    if n >= 10 {
      DigitsRoundTrip(n / 10);
      var s := Digits(n);
      assert s[..|s| - 1] == Digits(n / 10);
    }
  }

  /** `n` zero characters (none when `n` is not positive). */
  function Zeros(n: int): (s: string)
    ensures |s| == if n <= 0 then 0 else n
    ensures forall i :: 0 <= i < |s| ==> s[i] == '0'
    decreases n
  {
    if n <= 0 then "" else "0" + Zeros(n - 1)
  }

  /** Leading zeros do not change the number a digit string denotes. */
  lemma {:induction false} ZerosValue(k: int, t: string)
    requires AllDigits(t)
    ensures AllDigits(Zeros(k) + t) && DigitsValue(Zeros(k) + t) == DigitsValue(t)
    decreases |t|
  {
    var z := Zeros(k);
    assert AllDigits(z + t);
    if t == [] {
      assert z + t == z;
      AllZerosValue(z);
    } else {
      ZerosValue(k, t[..|t| - 1]);
      assert (z + t)[..|z + t| - 1] == z + t[..|t| - 1];
    }
  }

  lemma {:induction false} AllZerosValue(z: string)
    requires forall i :: 0 <= i < |z| ==> z[i] == '0'
    ensures AllDigits(z) && DigitsValue(z) == 0
  {
    if z != [] {
      AllZerosValue(z[..|z| - 1]);
    }
  }

  /** `String.valueOf(long)`: the decimal form, with a minus sign when negative. */
  function Decimal(v: int): (s: string)
    ensures |s| >= 1 && (s[0] == '-' <==> v < 0)
  {
    if v < 0 then "-" + Digits(-v) else Digits(v)
  }

  /** After its sign, the decimal form is a string of digits denoting the magnitude. */
  lemma DecimalDigits(v: int)
    ensures var s := Decimal(v); var t := if v < 0 then s[1..] else s;
      t != [] && AllDigits(t) && DigitsValue(t) == (if v < 0 then -v else v)
  {
    DigitsRoundTrip(if v < 0 then -v else v);
  }

  /** `"%0" + width + "d"` applied to `v`: the sign, then zeros, then the digits, at least
      `width` characters in all. The digits are ASCII, as for a default format locale whose
      zero digit is '0'. */
  function ZeroPad(v: int, width: int): (s: string)
    ensures |s| == if width > |Decimal(v)| then width else |Decimal(v)|
    ensures width <= |Decimal(v)| ==> s == Decimal(v)
    ensures v < 0 <==> s[0] == '-'
  {
    var sign := if v < 0 then "-" else "";
    var digits := Digits(if v < 0 then -v else v);
    sign + (Zeros(width - |sign| - |digits|) + digits)
  }

  /** `Integer.parseInt(s)`: an optional sign, then at least one decimal digit, and a value
      within the range of an int; anything else is a NumberFormatException. */
  function ParseInt(s: string): (r: Option<int>)
    ensures r.Some? ==> IntMin <= r.value <= IntMax
  {
    if s == [] then None
    else
      var signed := s[0] == '-' || s[0] == '+';
      var body := if signed then s[1..] else s;
      if body == [] || !AllDigits(body) then None
      else
        var n: int := DigitsValue(body);
        var v := if s[0] == '-' then -n else n;
        if IntMin <= v <= IntMax then Some(v) else None
  }

  /** A minus sign for a negative value, then digits denoting its magnitude, parse to the
      value when it fits an int. */
  lemma ParseSignedDigits(v: int, t: string)
    requires AllDigits(t) && t != [] && DigitsValue(t) == (if v < 0 then -v else v)
    requires IntMin <= v <= IntMax
    ensures ParseInt((if v < 0 then "-" else "") + t) == Some(v)
  {
    var s := (if v < 0 then "-" else "") + t;
    if v < 0 {
      assert s[0] == '-' && s[1..] == t;
    } else {
      assert s == t && IsDigit(t[0]);
    }
  }

  /** `Integer.parseInt` reads back what `String.valueOf` writes, for every int. */
  lemma ParseDecimal(v: int)
    requires IntMin <= v <= IntMax
    ensures ParseInt(Decimal(v)) == Some(v)
  {
    var n := if v < 0 then -v else v;
    DigitsRoundTrip(n);
    ParseSignedDigits(v, Digits(n));
  }

  /** A zero-padded int parses back to the same int: the padding only adds leading zeros. */
  lemma ParseZeroPad(v: int, width: int)
    requires IntMin <= v <= IntMax
    ensures ParseInt(ZeroPad(v, width)) == Some(v)
  {
    var t := PaddedDigits(v, width);
    ParseSignedDigits(v, t);
  }

  /** Zero padding keeps the number: padded and plain forms parse alike. */
  lemma PaddedValue(v: int, width: int)
    ensures ParseInt(ZeroPad(v, width)) == ParseInt(Decimal(v))
  {
    if IntMin <= v <= IntMax {
      ParseZeroPad(v, width);
      ParseDecimal(v);
    } else {
      PaddedOutOfRange(v, width);
    }
  }

  lemma PaddedOutOfRange(v: int, width: int)
    requires !(IntMin <= v <= IntMax)
    ensures ParseInt(ZeroPad(v, width)) == None && ParseInt(Decimal(v)) == None
  {
    var n := if v < 0 then -v else v;
    var t := PaddedDigits(v, width);
    DigitsRoundTrip(n);
    UnsignedParse(v, t);
    UnsignedParse(v, Digits(n));
  }

  /** After its sign, a zero-padded number is a string of digits denoting its magnitude. */
  lemma PaddedDigits(v: int, width: int) returns (t: string)
    ensures AllDigits(t) && t != [] && DigitsValue(t) == (if v < 0 then -v else v)
    ensures ZeroPad(v, width) == (if v < 0 then "-" else "") + t
  {
    var n := if v < 0 then -v else v;
    var sign := if v < 0 then "-" else "";
    var digits := Digits(n);
    var k := width - |sign| - |digits|;
    t := Zeros(k) + digits;
    assert ZeroPad(v, width) == sign + t;
    DigitsRoundTrip(n);
    ZerosValue(k, digits);
    assert DigitsValue(t) == DigitsValue(digits) == n;
  }

  lemma UnsignedParse(v: int, t: string)
    requires AllDigits(t) && t != [] && DigitsValue(t) == (if v < 0 then -v else v)
    requires !(IntMin <= v <= IntMax)
    ensures ParseInt((if v < 0 then "-" else "") + t) == None
  {
    var s := (if v < 0 then "-" else "") + t;
    if v < 0 {
      assert s[0] == '-' && s[1..] == t;
    } else {
      assert s == t && IsDigit(t[0]);
    }
  }

  datatype Option<T> = None | Some(value: T)
}
