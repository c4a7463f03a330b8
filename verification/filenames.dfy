/**
 * Output file names: `<folder>/<counter, left-padded with '0' to width 6><ext>`,
 * as a stream with `setw(6) << setfill('0')` writes a non-negative counter.
 */
module FileNames {

  /** The field width the counter is padded to. */
  const CounterWidth: nat := 6

  /** Extension of colour images (photo and silhouette). */
  const PngExt: string := ".png"

  /** Extension of floating-point depth images. */
  const ExrExt: string := ".exr"

  predicate IsDigit(c: char) {
    '0' <= c <= '9'
  }

  predicate IsDigits(s: string) {
    forall i :: 0 <= i < |s| ==> IsDigit(s[i])
  }

  function DigitChar(d: nat): (c: char)
    requires d < 10
    ensures IsDigit(c) && c as int - '0' as int == d
  {
    ('0' as int + d) as char
  }

  function DigitValue(c: char): (d: nat)
    requires IsDigit(c)
    ensures d < 10 && DigitChar(d) == c
  {
    c as int - '0' as int
  }

  /** `10^k`. */
  function Pow10(k: nat): (p: nat)
    ensures p >= 1
  {
    if k == 0 then 1 else 10 * Pow10(k - 1)
  }

  /** The decimal text of `n`, without leading zeros (the stream's `<< n`). */
  function Decimal(n: nat): (s: string)
    ensures |s| >= 1 && IsDigits(s)
    decreases n
  {
    if n < 10 then [DigitChar(n)] else Decimal(n / 10) + [DigitChar(n % 10)]
  }

  /** The number a string of decimal digits denotes (the reference reading of a name). */
  function ValueOf(s: string): nat
    requires IsDigits(s)
  {
    if s == [] then 0 else ValueOf(s[..|s| - 1]) * 10 + DigitValue(s[|s| - 1])
  }

  /** The decimal text of a positive number does not start with '0'. */
  lemma {:induction false} DecimalNoLeadingZero(n: nat)
    requires n > 0
    ensures Decimal(n)[0] != '0'
    decreases n
  {
    if n >= 10 {
      DecimalNoLeadingZero(n / 10);
      assert Decimal(n)[0] == Decimal(n / 10)[0];
    }
  }

  /** Reading back the decimal text of `n` gives `n`. */
  lemma {:induction false} ValueOfDecimal(n: nat)
    ensures ValueOf(Decimal(n)) == n
    decreases n
  {
    var s := Decimal(n);
    if n < 10 {
      assert s[..|s| - 1] == [];
    } else {
      assert s[..|s| - 1] == Decimal(n / 10);
      ValueOfDecimal(n / 10);
    }
  }

  /** A number below `10^k` needs at most `k` digits (and at least one). */
  lemma {:induction false} DecimalLength(n: nat, k: nat)
    requires n < Pow10(k)
    ensures |Decimal(n)| <= if k == 0 then 1 else k
    decreases n
  {
    if n >= 10 {
      assert Pow10(0) == 1 && Pow10(1) == 10;
      assert k >= 2;
      DecimalLength(n / 10, k - 1);
    }
  }

  function Zeros(z: nat): (s: string)
    ensures |s| == z && IsDigits(s)
    ensures forall i :: 0 <= i < z ==> s[i] == '0'
  {
    seq(z, _ => '0')
  }

  /** Leading zeros do not change the value a digit string denotes. */
  lemma {:induction false} LeadingZeros(z: nat, s: string)
    requires IsDigits(s)
    ensures IsDigits(Zeros(z) + s) && ValueOf(Zeros(z) + s) == ValueOf(s)
    decreases |s|
  {
    var t := Zeros(z) + s;
    assert IsDigits(t) by {
      forall i | 0 <= i < |t| ensures IsDigit(t[i]) {
        if i >= z {
          assert t[i] == s[i - z];
        }
      }
    }
    if s == [] {
      assert t == Zeros(z);
      ZerosValue(z);
    } else {
      var s' := s[..|s| - 1];
      assert t[..|t| - 1] == Zeros(z) + s';
      assert t[|t| - 1] == s[|s| - 1];
      LeadingZeros(z, s');
    }
  }

  lemma {:induction false} ZerosValue(z: nat)
    ensures ValueOf(Zeros(z)) == 0
  {
    if z > 0 {
      assert Zeros(z)[..z - 1] == Zeros(z - 1);
      ZerosValue(z - 1);
    }
  }

  /**
   * `s` left-padded with '0' to at least `width` characters (`setw` with
   * `setfill('0')`), one fill character at a time.
   */
  function PadZeros(s: string, width: nat): string
    decreases width - |s|
  {
    if |s| < width then PadZeros(['0'] + s, width) else s
  }

  /**
   * The padded text is `width - |s|` '0's followed by `s` when `s` is
   * shorter than the field, and `s` itself otherwise: as long as the field
   * or the text, whichever is longer, ending with the text, '0' before it.
   */
  lemma {:induction false} PadZerosShape(s: string, width: nat)
    ensures PadZeros(s, width) == if |s| < width then Zeros(width - |s|) + s else s
    ensures |PadZeros(s, width)| == if |s| < width then width else |s|
    ensures PadZeros(s, width)[|PadZeros(s, width)| - |s|..] == s
    ensures forall i :: 0 <= i < |PadZeros(s, width)| - |s| ==> PadZeros(s, width)[i] == '0'
    decreases width - |s|
  {
    if |s| < width {
      var k := width - |s| - 1;
      PadZerosShape(['0'] + s, width);
      assert Zeros(k) + ['0'] == Zeros(k + 1);
      assert Zeros(k) + (['0'] + s) == Zeros(k + 1) + s;
    }
  }

  /** The counter as it appears in a file name (`setw(6) << setfill('0') << n`). */
  function CounterText(n: nat): string {
    PadZeros(Decimal(n), CounterWidth)
  }

  /**
   * The counter text is padded to six digits, longer numbers are written in
   * full, and it always reads back as the counter.
   */
  lemma CounterTextReadsBack(n: nat)
    ensures |CounterText(n)| >= CounterWidth && IsDigits(CounterText(n))
    ensures ValueOf(CounterText(n)) == n
  {
    var s := Decimal(n);
    ValueOfDecimal(n);
    PadZerosShape(s, CounterWidth);
    if |s| < CounterWidth {
      LeadingZeros(CounterWidth - |s|, s);
    }
  }

  /**
   * The padding adds '0's only up to the field width: a counter with six or
   * more digits is written as its plain decimal text.
   */
  lemma CounterTextExact(n: nat)
    ensures |Decimal(n)| >= CounterWidth ==> CounterText(n) == Decimal(n)
    ensures |Decimal(n)| < CounterWidth ==>
              CounterText(n) == Zeros(CounterWidth - |Decimal(n)|) + Decimal(n)
  {
    PadZerosShape(Decimal(n), CounterWidth);
  }

  /** Every counter below a million is written in exactly six characters. */
  lemma CounterTextSixWide(n: nat)
    requires n < 1000000
    ensures |CounterText(n)| == CounterWidth
  {
    assert Pow10(6) == 1000000;
    DecimalLength(n, 6);
    PadZerosShape(Decimal(n), CounterWidth);
  }

  /** The path of the image written for capture number `n`. */
  function ImagePath(folder: string, n: nat, ext: string): string {
    folder + "/" + CounterText(n) + ext
  }

  /**
   * Two captures with different counters never write the same file, whatever
   * their extensions (".png" and ".exr" have the same length).
   */
  lemma ImagePathInjective(folder: string, n: nat, m: nat, e1: string, e2: string)
    requires |e1| == |e2|
    requires ImagePath(folder, n, e1) == ImagePath(folder, m, e2)
    ensures n == m && e1 == e2
  {
    var p := ImagePath(folder, n, e1);
    var tn, tm := CounterText(n), CounterText(m);
    CounterTextReadsBack(n);
    CounterTextReadsBack(m);
    assert |tn| == |tm|;
    assert p == (folder + "/") + tn + e1 == (folder + "/") + tm + e2;
    assert tn == p[|folder| + 1..|folder| + 1 + |tn|] == tm;
    assert e1 == p[|folder| + 1 + |tn|..] == e2;
  }
}
