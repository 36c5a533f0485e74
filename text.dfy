/**
 * String helpers the core relies on: the `\d+` id test, `int(...)` of a digit
 * string, `str(n)` of a natural number, `str.zfill` and `' '.join`.
 */
module Text {

  predicate IsDigit(c: char) { '0' <= c <= '9' }

  /** Every character is a decimal digit (the empty string included). */
  predicate AllDigits(s: string) { forall i :: 0 <= i < |s| ==> IsDigit(s[i]) }

  /** `re.fullmatch('\d+', s) is not None`: a non-empty run of decimal digits. */
  predicate IsDigits(s: string) { |s| > 0 && AllDigits(s) }

  function DigitValue(c: char): (d: nat)
    requires IsDigit(c)
    ensures d < 10
  {
    c as int - '0' as int
  }

  function DigitChar(d: nat): (c: char)
    requires d < 10
    ensures IsDigit(c) && DigitValue(c) == d
  {
    ('0' as int + d) as char
  }

  /** `int(s)` for a string of decimal digits; the empty string reads as 0. */
  function ParseDigits(s: string): nat
    requires AllDigits(s)
    decreases |s|
  {
    if s == [] then 0 else ParseDigits(s[..|s| - 1]) * 10 + DigitValue(s[|s| - 1])
  }

  /** `int` reads 0 exactly from a string of zeros. */
  lemma {:induction false} ParseDigitsZero(s: string)
    requires AllDigits(s)
    ensures ParseDigits(s) == 0 <==> forall i :: 0 <= i < |s| ==> s[i] == '0'
    decreases |s|
  {
    if s != [] {
      var p := s[..|s| - 1];
      ParseDigitsZero(p);
      assert forall i :: 0 <= i < |p| ==> p[i] == s[i];
    }
  }

  /** `str(n)`: the decimal spelling of `n`, which `int` reads back as `n`. */
  function NatToString(n: nat): (s: string)
    ensures IsDigits(s)
    ensures ParseDigits(s) == n
    ensures s[0] == '0' ==> n == 0
    decreases n
  {
    if n < 10 then [DigitChar(n)]
    else
      var s := NatToString(n / 10) + [DigitChar(n % 10)];
      assert s[..|s| - 1] == NatToString(n / 10);
      s
  }

  lemma NatToStringShort(n: nat)
    requires n < 1000
    ensures |NatToString(n)| <= 3
  {
    if n >= 10 {
      if n / 10 >= 10 {
        assert |NatToString(n / 10 / 10)| == 1;
      }
    }
  }

  /** Distinct numbers have distinct spellings. */
  lemma NatToStringInjective(m: nat, n: nat)
    requires NatToString(m) == NatToString(n)
    ensures m == n
  {
  }

  function Zeros(k: nat): (z: string)
    ensures |z| == k && forall i :: 0 <= i < k ==> z[i] == '0'
  {
    seq(k, _ => '0')
  }

  /** Leading zeros do not change the value `int` reads. */
  lemma {:induction false} LeadingZerosValue(k: nat, s: string)
    requires AllDigits(s)
    ensures AllDigits(Zeros(k) + s)
    ensures ParseDigits(Zeros(k) + s) == ParseDigits(s)
    decreases k, |s|
  {
    if k == 0 {
      assert Zeros(k) + s == s;
    } else {
      if s == [] {
        LeadingZerosValue(k - 1, s);
        assert Zeros(k) + s == Zeros(k);
        assert Zeros(k - 1) + s == Zeros(k - 1);
        assert Zeros(k)[..k - 1] == Zeros(k - 1);
      } else {
        var t := Zeros(k) + s;
        assert t[..|t| - 1] == Zeros(k) + s[..|s| - 1];
        LeadingZerosValue(k, s[..|s| - 1]);
      }
    }
  }

  /** `s.zfill(width)` for a string without a sign: left-padded with '0' to `width`. */
  function ZFill(s: string, width: nat): (r: string)
    ensures |r| == if |s| < width then width else |s|
    ensures r[|r| - |s|..] == s
    ensures forall i :: 0 <= i < |r| - |s| ==> r[i] == '0'
  {
    if |s| < width then Zeros(width - |s|) + s else s
  }

  /** Padding a digit string keeps it a digit string with the same value. */
  lemma ZFillValue(s: string, width: nat)
    requires AllDigits(s)
    ensures AllDigits(ZFill(s, width))
    ensures ParseDigits(ZFill(s, width)) == ParseDigits(s)
  {
    if |s| < width {
      LeadingZerosValue(width - |s|, s);
    }
  }

  /** A digit string without a leading zero is exactly the spelling of its value. */
  lemma {:induction false} CanonicalSpelling(t: string)
    requires IsDigits(t) && t[0] != '0'
    ensures NatToString(ParseDigits(t)) == t
    decreases |t|
  {
    if |t| > 1 {
      var p := t[..|t| - 1];
      CanonicalSpelling(p);
      assert ParseDigits(p) != 0;
      var n := ParseDigits(t);
      assert n / 10 == ParseDigits(p) && n % 10 == DigitValue(t[|t| - 1]);
      assert t == p + [t[|t| - 1]];
    }
  }

  /** One more pad character: `s.zfill(w + 1)` is `'0' + s.zfill(w)` once `s` fits in `w`. */
  lemma ZFillStep(s: string, w: nat)
    requires |s| <= w
    ensures ZFill(s, w + 1) == "0" + ZFill(s, w)
  {
    if |s| < w {
      assert Zeros(w + 1 - |s|) == "0" + Zeros(w - |s|);
    } else {
      assert Zeros(1) == "0";
    }
  }

  /**
   * Every digit token is the spelling of the number `int` reads from it,
   * left-padded with zeros to the token's own length: reading a token and
   * writing the number back loses only its leading zeros.
   */
  lemma {:induction false} DigitTokenSpelling(s: string)
    requires IsDigits(s)
    ensures s == ZFill(NatToString(ParseDigits(s)), |s|)
    decreases |s|
  {
    if s[0] != '0' {
      CanonicalSpelling(s);
    } else if |s| > 1 {
      DigitTokenSpelling(s[1..]);
      DropLeadingZero(s);
      PadOneMore(s, NatToString(ParseDigits(s[1..])));
    }
  }

  /** A leading zero does not change the value `int` reads. */
  lemma DropLeadingZero(s: string)
    requires AllDigits(s) && |s| > 0 && s[0] == '0'
    ensures ParseDigits(s) == ParseDigits(s[1..])
  {
    assert s == Zeros(1) + s[1..];
    LeadingZerosValue(1, s[1..]);
  }

  /** A string of one more zero in front of `n` padded to `w` is `n` padded to `w + 1`. */
  lemma PadOneMore(s: string, n: string)
    requires |s| > 1 && s[0] == '0' && s[1..] == ZFill(n, |s| - 1)
    ensures s == ZFill(n, |s|)
  {
    ZFillStep(n, |s| - 1);
    assert s == "0" + s[1..];
  }

  /** `sep.join(words)`. */
  function Join(words: seq<string>, sep: string): (r: string)
    ensures |words| == 1 ==> r == words[0]
    ensures words == [] ==> r == ""
  {
    if words == [] then ""
    else if |words| == 1 then words[0]
    else words[0] + sep + Join(words[1..], sep)
  }

  /** Joining one more word appends the separator and that word: the search word grows tag by tag. */
  lemma {:induction false} JoinAppend(words: seq<string>, w: string, sep: string)
    requires words != []
    ensures Join(words + [w], sep) == Join(words, sep) + sep + w
    decreases |words|
  {
    if |words| > 1 {
      assert (words + [w])[1..] == words[1..] + [w];
      JoinAppend(words[1..], w, sep);
    } else {
      assert (words + [w])[1..] == [w];
    }
  }
}
