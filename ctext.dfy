/**
 * The pieces of the C library the JIG client leans on for text: decimal
 * digits, `printf`'s `%d` and `%0Nd` conversions, `atoi`, and reading a
 * NUL-terminated string out of a fixed buffer.
 */
module CText {

  predicate IsDigit(c: char) { '0' <= c <= '9' }

  predicate AllDigits(s: seq<char>) { forall i :: 0 <= i < |s| ==> IsDigit(s[i]) }

  /** `isspace` in the C locale: space, \t, \n, \v, \f and \r. */
  predicate IsSpace(c: char) { c == ' ' || '\t' <= c <= '\r' }

  function DigitValue(c: char): (d: nat)
    requires IsDigit(c)
    ensures d < 10
  {
    c as int - '0' as int
  }

  function DigitChar(d: nat): (c: char)
    requires d < 10
    ensures IsDigit(c) && DigitValue(c) == d
  {
    ('0' as int + d) as char
  }

  function Pow10(k: nat): (p: nat)
    ensures p >= 1
  {
    if k == 0 then 1 else 10 * Pow10(k - 1)
  }

  /** The number a run of decimal digits spells, most significant first. */
  function Value(s: seq<char>): (v: nat)
    requires AllDigits(s)
    ensures v < Pow10(|s|)
  {
    if s == [] then 0 else Value(s[..|s| - 1]) * 10 + DigitValue(s[|s| - 1])
  }

  /** The shortest decimal spelling of `n`: what `%d` prints for `n >= 0`. */
  function Digits(n: nat): (s: seq<char>)
    ensures s != [] && AllDigits(s)
    ensures Value(s) == n
    ensures |s| > 1 ==> s[0] != '0'
  {
    if n < 10 then [DigitChar(n)] else Digits(n / 10) + [DigitChar(n % 10)]
  }

  /** `%d`: an optional minus sign, then the shortest digit string. */
  function Render(n: int): (s: seq<char>)
    ensures s != [] && (s[0] == '-' <==> n < 0)
    ensures n >= 0 ==> AllDigits(s) && Value(s) == n
    ensures n < 0 ==> AllDigits(s[1..]) && Value(s[1..]) == -n
  {
    if n < 0 then ['-'] + Digits(-n) else Digits(n)
  }

  function Zeros(k: nat): (s: seq<char>)
    ensures |s| == k && forall i :: 0 <= i < k ==> s[i] == '0'
  {
    if k == 0 then [] else Zeros(k - 1) + ['0']
  }

  /** `%0Nd` of a non-negative number: the digits, left-padded with '0' up to width `w`. */
  function PadNat(n: nat, w: nat): (s: seq<char>)
  {
    var d := Digits(n);
    if |d| < w then Zeros(w - |d|) + d else d
  }

  /**
   * `%0Nd` of any int, as C's printf does it: the width counts the sign, the
   * zeros go between the sign and the digits, and a number that needs more
   * room than the width is printed in full (nothing is cut).
   */
  function ZeroPadded(n: int, w: nat): (s: seq<char>)
    ensures |s| >= w && s != []
    ensures s[0] == '-' <==> n < 0
    ensures n >= 0 ==> AllDigits(s)
    ensures n < 0 ==> AllDigits(s[1..])
    ensures n >= 0 ==> Value(s) == n
    ensures n < 0 ==> Value(s[1..]) == -n
  {
    var m := if n < 0 then -n else n;
    var ww := if n < 0 then (if w > 0 then w - 1 else 0) else w;
    var d := Digits(m);
    ValueZerosPrefix(if |d| < ww then ww - |d| else 0, d);
    if n < 0 then ['-'] + PadNat(-n, if w > 0 then w - 1 else 0) else PadNat(n, w)
  }

  /** Leading zeros do not change the number a digit string spells. */
  lemma {:induction false} ValueZerosPrefix(k: nat, d: seq<char>)
    requires AllDigits(d)
    ensures AllDigits(Zeros(k) + d) && Value(Zeros(k) + d) == Value(d)
    decreases |d|
  {
    var z := Zeros(k) + d;
    if d == [] {
      assert z == Zeros(k);
      ZerosValue(k);
    } else {
      var p := d[..|d| - 1];
      ValueZerosPrefix(k, p);
      assert z[..|z| - 1] == Zeros(k) + p;
      assert z[|z| - 1] == d[|d| - 1];
    }
  }

  /** A run of zeros spells 0. */
  lemma {:induction false} ZerosValue(k: nat)
    ensures AllDigits(Zeros(k)) && Value(Zeros(k)) == 0
  {
    if k > 0 {
      ZerosValue(k - 1);
      assert Zeros(k)[..k - 1] == Zeros(k - 1);
    }
  }

  /** The `w` least significant decimal digits of `n`: a fixed-width field. */
  function Fixed(n: nat, w: nat): (s: seq<char>)
    ensures |s| == w && AllDigits(s)
  {
    if w == 0 then [] else Fixed(n / 10, w - 1) + [DigitChar(n % 10)]
  }

  /** The longest prefix of `s` that is made of digits. */
  function LeadingDigits(s: seq<char>): (d: seq<char>)
    ensures AllDigits(d) && |d| <= |s| && d == s[..|d|]
    ensures |d| < |s| ==> !IsDigit(s[|d|])
    ensures AllDigits(s) ==> d == s
  {
    if s != [] && IsDigit(s[0]) then [s[0]] + LeadingDigits(s[1..]) else []
  }

  /** `s` with its leading white space removed. */
  function SkipSpaces(s: seq<char>): (t: seq<char>)
    ensures |t| <= |s|
    ensures t != [] ==> !IsSpace(t[0])
  {
    if s != [] && IsSpace(s[0]) then SkipSpaces(s[1..]) else s
  }

  /**
   * C `atoi`: skip white space, take one optional sign, then the longest run
   * of digits; no digits gives 0. (Overflow cannot arise from the at most six
   * characters this program hands it.)
   */
  function Atoi(s: seq<char>): (r: int)
    ensures r < 0 ==> SkipSpaces(s) != [] && SkipSpaces(s)[0] == '-'
    ensures AllDigits(s) ==> r == Value(s)
  {
    var t := SkipSpaces(s);
    if t != [] && t[0] == '-' then -(Value(LeadingDigits(t[1..])) as int)
    else if t != [] && t[0] == '+' then Value(LeadingDigits(t[1..]))
    else Value(LeadingDigits(t))
  }

  /** The C string held in a buffer: everything before the first NUL (the whole buffer if none). */
  function CStr(buf: seq<char>): (s: seq<char>)
    ensures |s| <= |buf| && s == buf[..|s|]
    ensures '\0' !in s
    ensures |s| < |buf| ==> buf[|s|] == '\0'
  {
    if buf == [] || buf[0] == '\0' then [] else [buf[0]] + CStr(buf[1..])
  }

  // ---------------------------------------------------------------------
  // Lemmas about the digit functions
  // ---------------------------------------------------------------------

  /** A number fits in `w >= 1` digits exactly when it is below 10^w. */
  lemma {:induction false} DigitsLength(n: nat, w: nat)
    requires w >= 1
    ensures |Digits(n)| <= w <==> n < Pow10(w)
  {
    if n < 10 {
      Pow10AtLeastTen(w);
    } else if w == 1 {
      assert |Digits(n)| == |Digits(n / 10)| + 1;
    } else {
      DigitsLength(n / 10, w - 1);
      assert |Digits(n)| == |Digits(n / 10)| + 1;
      assert n / 10 < Pow10(w - 1) <==> n < 10 * Pow10(w - 1);
    }
  }

  lemma Pow10AtLeastTen(w: nat)
    requires w >= 1
    ensures Pow10(w) >= 10
  {
  }

  /** Zero-padding a number that fits is the same as taking its fixed-width field. */
  lemma {:induction false} PadNatIsFixed(n: nat, w: nat)
    requires w >= 1 && n < Pow10(w)
    ensures PadNat(n, w) == Fixed(n, w)
  {
    if n < 10 {
      FixedOfZero(w - 1);
      assert Fixed(n, w) == Fixed(0, w - 1) + [DigitChar(n)];
    } else {
      assert n / 10 < Pow10(w - 1);
      DigitsLength(n, w);
      DigitsLength(n / 10, w - 1);
      PadNatIsFixed(n / 10, w - 1);
      var d := Digits(n / 10);
      var c := DigitChar(n % 10);
      assert Digits(n) == d + [c];
      assert Fixed(n, w) == PadNat(n / 10, w - 1) + [c];
      if |d| < w - 1 {
        assert PadNat(n / 10, w - 1) == Zeros(w - 1 - |d|) + d;
        assert PadNat(n, w) == Zeros(w - 1 - |d|) + d + [c];
      } else {
        assert PadNat(n / 10, w - 1) == d;
        assert PadNat(n, w) == d + [c];
      }
    }
  }

  lemma {:induction false} FixedOfZero(k: nat)
    ensures Fixed(0, k) == Zeros(k)
  {
    if k > 0 {
      FixedOfZero(k - 1);
    }
  }

  /** Reading a fixed-width field back gives the number that was written into it. */
  lemma {:induction false} ValueOfFixed(n: nat, w: nat)
    requires n < Pow10(w)
    ensures Value(Fixed(n, w)) == n
  {
    if w > 0 {
      var f := Fixed(n, w);
      assert f[..w - 1] == Fixed(n / 10, w - 1);
      ValueOfFixed(n / 10, w - 1);
    }
  }

  /** Writing back the value of a digit field of width `|d|` reproduces the field. */
  lemma {:induction false} FixedOfValue(d: seq<char>)
    requires AllDigits(d)
    ensures Fixed(Value(d), |d|) == d
  {
    if d != [] {
      var p := d[..|d| - 1];
      FixedOfValue(p);
      assert Value(d) / 10 == Value(p);
      assert d == p + [d[|d| - 1]];
    }
  }

  /**
   * `%0Nd` yields exactly `w` digits when the number is in 0..10^w-1; any
   * other number takes at least `w` characters and is not a plain digit field.
   */
  lemma ZeroPaddedField(n: int, w: nat)
    requires w >= 1
    ensures |ZeroPadded(n, w)| >= w
    ensures (|ZeroPadded(n, w)| == w && AllDigits(ZeroPadded(n, w))) <==> 0 <= n < Pow10(w)
    ensures 0 <= n < Pow10(w) ==> ZeroPadded(n, w) == Fixed(n, w)
  {
    if n < 0 {
      assert ZeroPadded(n, w)[0] == '-';
    } else {
      DigitsLength(n, w);
      if n < Pow10(w) {
        PadNatIsFixed(n, w);
      }
    }
  }

  /** The digits `%d` prints never outnumber the digits they were read from. */
  lemma DigitsOfValue(d: seq<char>)
    requires AllDigits(d)
    ensures |Digits(Value(d))| <= if |d| == 0 then 1 else |d|
  {
    if |d| > 0 {
      DigitsLength(Value(d), |d|);
    }
  }

  /**
   * `%d` prints canonical decimal: no '+', "0" exactly for zero, and no
   * leading zero after the optional '-'.
   */
  lemma RenderCanonical(n: int)
    ensures var r := Render(n);
      && r[0] != '+'
      && (r == "0" <==> n == 0)
      && (r[0] == '-' ==> |r| >= 2 && r[1] != '0' && AllDigits(r[1..]))
      && (r[0] != '-' ==> AllDigits(r) && (|r| > 1 ==> r[0] != '0'))
  {
    var r := Render(n);
    if n < 0 {
      var d := Digits(-n);
      assert r == ['-'] + d && r[1..] == d;
      assert Value(d) != 0;
    } else if n > 0 {
      assert Value(r) != 0;
    }
  }

  /** `atoi` reads back exactly what `%d` printed. */
  lemma AtoiRender(n: int)
    ensures Atoi(Render(n)) == n
  {
    var r := Render(n);
    assert !IsSpace(r[0]);
    assert SkipSpaces(r) == r;
    if n < 0 {
      assert r[1..] == Digits(-n);
    }
  }

  /** A buffer holding a NUL-free text, then a NUL or nothing, holds exactly that C string. */
  lemma {:induction false} CStrOfTerminated(s: seq<char>, rest: seq<char>)
    requires '\0' !in s && (rest == [] || rest[0] == '\0')
    ensures CStr(s + rest) == s
  {
    if s != [] {
      assert (s + rest)[1..] == s[1..] + rest;
      CStrOfTerminated(s[1..], rest);
    }
  }
}
