// The frequencies of the bins of a Fourier transform, in integer arithmetic.

module Fft {
  import opened Slots

  const TWO63: int := 0x8000_0000_0000_0000
  const TWO64: int := 0x1_0000_0000_0000_0000

  /** The size of the transform, and where and how fast the samples were taken. */
  datatype Spectrum = Spectrum(fftSize: nat, centralFrequency: nat, sampleRate: nat)

  /** Unsigned 64-bit arithmetic. */
  function Wrap(x: int): (w: nat)
    ensures w < TWO64
  {
    x % TWO64
  }

  /** The same bits read as a signed integer. */
  function Signed64(w: nat): int
    requires w < TWO64
  {
    if w < TWO63 then w else w - TWO64
  }

  /** The widths of the fields, and room for the products of both conversions. */
  predicate Fits(s: Spectrum) {
    && 0 < s.fftSize < 0x1_0000 && s.centralFrequency < TWO64
    && 0 < s.sampleRate && s.sampleRate * s.fftSize * 10 < TWO63
  }

  function Start(s: Spectrum): nat {
    Wrap(s.centralFrequency - s.sampleRate / 2)
  }

  function FreqAtBin(s: Spectrum, i: nat): (f: nat)
    requires Fits(s) && i < s.fftSize
    ensures f < TWO64
  {
    Wrap(Start(s) + i * s.sampleRate / s.fftSize)
  }

  /** Conversion to a signed 32-bit integer. */
  function Int32(x: nat): int {
    var low := x % 0x1_0000_0000;
    if low < 0x8000_0000 then low else low - 0x1_0000_0000
  }

  function Quotient(x: nat, d: nat): nat
    requires 0 < d
  {
    x / d
  }

  /** The bin times ten, before the rounding error is removed. */
  function TenthsAtFreq(s: Spectrum, f: nat): int
    requires Fits(s) && f < TWO64
  {
    var offset := Signed64(Wrap(f - Start(s)));
    Int32(Quotient(Wrap(offset * s.fftSize * 10), s.sampleRate))
  }

  /** Removes the rounding error; division and remainder go toward zero. */
  function Rounded(i: int): int {
    if i < 0 then -(-i / 10)
    else if i % 10 > 5 then i / 10 + 1
    else i / 10
  }

  function BinAtFreq(s: Spectrum, f: nat): int
    requires Fits(s) && f < TWO64
  {
    Rounded(TenthsAtFreq(s, f))
  }

  /** What the first division drops. */
  function Remainder(s: Spectrum, i: nat): nat
    requires Fits(s)
  {
    i * s.sampleRate % s.fftSize
  }

  lemma MulLess(a: nat, b: nat, c: nat)
    requires a < b && 0 < c
    ensures a * c < b * c
  {
    assert b * c == a * c + (b - a) * c;
    MulMono(1, b - a, c);
  }

  lemma DivBounds(x: nat, d: nat)
    requires 0 < d
    ensures x / d * d <= x < (x / d + 1) * d && x == x / d * d + x % d
  {
    assert x == x / d * d + x % d;
    Distribute(x / d + 1, 1, d);
  }

  /** The offset of bin `i` of `n`: less than the sample rate. */
  lemma OffsetIsSmall(i: nat, n: nat, rate: nat)
    requires i < n && 0 < rate
    ensures 0 <= i * rate
    ensures var q := i * rate / n;
            0 <= q < rate && q * n == i * rate - i * rate % n
  {
    MulMono(0, i, rate);
    MulLess(i, n, rate);
    DivBounds(i * rate, n);
    var q := i * rate / n;
    assert n * rate == rate * n;
    if rate <= q {
      MulMono(rate, q, n);
      assert false;
    }
  }

  lemma SmallProducts(n: nat, rate: nat, q: nat)
    requires 0 < n && q < rate && rate * n * 10 < TWO63
    ensures q < TWO63 && 0 <= q * n * 10 < TWO63 && q * n * 10 / rate <= n * 10
  {
    MulMono(q, rate, n);
    MulMono(0, q, n);
    MulMono(1, n, rate);
    assert n * rate == rate * n;
    var x := q * n * 10;
    DivBounds(x, rate);
    assert (n * 10 + 1) * rate == n * 10 * rate + rate;
    assert n * 10 * rate == rate * n * 10;
    if x / rate > n * 10 {
      MulMono(n * 10 + 1, x / rate, rate);
      assert false;
    }
  }

  /** Adding an offset and taking the start away again is harmless, even when the
      band starts below zero. */
  lemma OffsetUnwraps(start: int, q: nat)
    requires q < TWO63
    ensures Signed64(Wrap(Wrap(Wrap(start) + q) - Wrap(start))) == q
  {
    var a := Wrap(start);
    var b := Wrap(a + q);
    assert b == a + q || b == a + q - TWO64;
  }

  lemma SmallIsUnchanged(x: nat)
    ensures x < TWO63 ==> Wrap(x) == x
    ensures x < 0x8000_0000 ==> Int32(x) == x
  {
  }

  lemma OffsetOfBin(s: Spectrum, i: nat)
    requires Fits(s) && i < s.fftSize
    ensures 0 <= i * s.sampleRate
    ensures var q := i * s.sampleRate / s.fftSize;
            0 <= q < s.sampleRate && Signed64(Wrap(FreqAtBin(s, i) - Start(s))) == q
  {
    hide Signed64, Wrap;
    OffsetIsSmall(i, s.fftSize, s.sampleRate);
    var q := i * s.sampleRate / s.fftSize;
    SmallProducts(s.fftSize, s.sampleRate, q);
    OffsetUnwraps(s.centralFrequency - s.sampleRate / 2, q);
  }

  lemma TenthsFit(x: nat, rate: nat, n: nat)
    requires 0 < rate && x < TWO63 && n < 0x1_0000 && Quotient(x, rate) <= n * 10
    ensures Wrap(x) == x && Int32(Quotient(x, rate)) == Quotient(x, rate)
  {
    hide Quotient;
    SmallIsUnchanged(x);
    SmallIsUnchanged(Quotient(x, rate));
  }

  /** Nothing wraps around on the way to the tenths of a bin. */
  lemma TenthsUnwrapped(s: Spectrum, i: nat)
    requires Fits(s) && i < s.fftSize
    ensures 0 <= i * s.sampleRate
    ensures var q := i * s.sampleRate / s.fftSize;
            && 0 <= q < s.sampleRate && 0 <= q * s.fftSize * 10
            && q * s.fftSize == i * s.sampleRate - Remainder(s, i)
            && TenthsAtFreq(s, FreqAtBin(s, i)) == Quotient(q * s.fftSize * 10, s.sampleRate)
  {
    hide Wrap, Signed64, Int32, TenthsAtFreq, FreqAtBin, Start;
    OffsetOfBin(s, i);
    OffsetIsSmall(i, s.fftSize, s.sampleRate);
    var q := i * s.sampleRate / s.fftSize;
    SmallProducts(s.fftSize, s.sampleRate, q);
    var x := q * s.fftSize * 10;
    TenthsFit(x, s.sampleRate, s.fftSize);
    TenthsOfOffset(s, FreqAtBin(s, i), q, x);
  }

  lemma TenthsOfOffset(s: Spectrum, f: nat, q: nat, x: nat)
    requires Fits(s) && f < TWO64 && Signed64(Wrap(f - Start(s))) == q
    requires x == q * s.fftSize * 10 && Wrap(x) == x && Int32(Quotient(x, s.sampleRate)) == Quotient(x, s.sampleRate)
    ensures TenthsAtFreq(s, f) == Quotient(x, s.sampleRate)
  {
    hide Wrap, Signed64, Int32, Start, Fits, Quotient;
  }

  lemma TenTimes(i: nat, rate: nat, product: int, r: int)
    requires product == i * rate - r
    ensures product * 10 == 10 * i * rate - 10 * r
  {
    assert 10 * i * rate == 10 * (i * rate);
  }

  /** Ten times the bin, less what the dropped remainder costs, rounded down. */
  lemma TenthsOfBin(s: Spectrum, i: nat)
    requires Fits(s) && i < s.fftSize
    ensures var t, r := TenthsAtFreq(s, FreqAtBin(s, i)), Remainder(s, i);
            t * s.sampleRate <= 10 * i * s.sampleRate - 10 * r < (t + 1) * s.sampleRate && 0 <= t
  {
    hide TenthsAtFreq, FreqAtBin, Remainder;
    TenthsUnwrapped(s, i);
    var q := i * s.sampleRate / s.fftSize;
    TenTimes(i, s.sampleRate, q * s.fftSize, Remainder(s, i));
    DivBounds(q * s.fftSize * 10, s.sampleRate);
  }

  /** `k` is how far the tenths fall short. */
  lemma Shortfall(i: nat, t: int, r: nat, rate: nat)
    requires 0 < rate && t * rate <= 10 * i * rate - 10 * r < (t + 1) * rate
    ensures 0 <= 10 * i - t
    ensures 5 * r <= 2 * rate <==> 10 * i - t <= 4
  {
    var k := 10 * i - t;
    Distribute(10 * i, t, rate);
    Distribute(10 * i, t + 1, rate);
    assert (k - 1) * rate < 10 * r <= k * rate;
    if k < 0 {
      MulMono(k, -1, rate);
      assert false;
    }
    if k <= 4 {
      MulMono(k, 4, rate);
    } else {
      MulMono(4, k - 1, rate);
    }
  }

  /** The round trip returns bin `i` exactly when five times the dropped remainder is
      at most twice the sample rate. */
  lemma BinRoundTrip(s: Spectrum, i: nat)
    requires Fits(s) && i < s.fftSize
    ensures BinAtFreq(s, FreqAtBin(s, i)) == i <==> 5 * Remainder(s, i) <= 2 * s.sampleRate
  {
    hide TenthsAtFreq, FreqAtBin, Remainder, Rounded;
    TenthsOfBin(s, i);
    var t := TenthsAtFreq(s, FreqAtBin(s, i));
    Shortfall(i, t, Remainder(s, i), s.sampleRate);
    RoundsTo(i, t);
  }

  lemma RoundsTo(i: nat, t: int)
    requires 0 <= t <= 10 * i
    ensures Rounded(t) == i <==> 10 * i - t <= 4
  {
  }

  // --------------------------------------------------------- any frequency

  /** Bin `i` stands for the frequency that is i / fftSize of the band above its lower end,
      without what is behind the point. */
  lemma BinFrequency(s: Spectrum, i: nat)
    requires Fits(s) && i < s.fftSize
    requires s.sampleRate / 2 <= s.centralFrequency && s.centralFrequency + s.sampleRate < TWO64
    ensures var above := FreqAtBin(s, i) - (s.centralFrequency - s.sampleRate / 2);
            above * s.fftSize <= i * s.sampleRate < (above + 1) * s.fftSize
  {
    hide Fits;
    FftFits(s);
    OffsetIsSmall(i, s.fftSize, s.sampleRate);
    DivBounds(i * s.sampleRate, s.fftSize);
    var low, q := s.centralFrequency - s.sampleRate / 2, i * s.sampleRate / s.fftSize;
    assert Start(s) == low;
    assert FreqAtBin(s, i) == low + q;
  }

  lemma FftFits(s: Spectrum)
    requires Fits(s)
    ensures 0 < s.fftSize < 0x1_0000 && 0 < s.sampleRate < TWO63
  {
    MulMono(1, s.fftSize * 10, s.sampleRate);
    assert s.sampleRate * s.fftSize * 10 == s.fftSize * 10 * s.sampleRate;
  }

  /** The tenths of a bin of a frequency that lies `d` above the lower end of the band. */
  lemma TenthsAbove(s: Spectrum, d: nat)
    requires Fits(s) && d < s.sampleRate
    ensures 0 <= d * s.fftSize * 10
    ensures TenthsAtFreq(s, Wrap(Start(s) + d)) == Quotient(d * s.fftSize * 10, s.sampleRate)
  {
    hide Wrap, Signed64, Int32, TenthsAtFreq;
    SmallProducts(s.fftSize, s.sampleRate, d);
    OffsetUnwraps(s.centralFrequency - s.sampleRate / 2, d);
    var x := d * s.fftSize * 10;
    TenthsFit(x, s.sampleRate, s.fftSize);
    TenthsOfOffset(s, Wrap(Start(s) + d), d, x);
  }

  /** A frequency of the band is given to the bin it is next to, in tenths of a bin: five tenths
      above it still belong to it, and six do not. */
  lemma NearestBin(s: Spectrum, d: nat, b: int)
    requires Fits(s) && d < s.sampleRate
    ensures BinAtFreq(s, Wrap(s.centralFrequency - s.sampleRate / 2 + d)) == b <==>
            (10 * b - 4) * s.sampleRate <= 10 * d * s.fftSize < (10 * b + 6) * s.sampleRate
  {
    hide TenthsAtFreq, Rounded, Wrap, Start, Quotient;
    StartPlus(s, d);
    TenthsAbove(s, d);
    var t := Quotient(d * s.fftSize * 10, s.sampleRate);
    NearestTen(t, b);
    QuotientBounds(d * s.fftSize * 10, s.sampleRate);
    Scale(t, 10 * b - 4, d * s.fftSize * 10, s.sampleRate);
    Scale(t, 10 * b + 6, d * s.fftSize * 10, s.sampleRate);
    assert d * s.fftSize * 10 == 10 * d * s.fftSize;
  }

  lemma QuotientBounds(x: nat, rate: nat)
    requires 0 < rate
    ensures Quotient(x, rate) * rate <= x < (Quotient(x, rate) + 1) * rate
  {
    DivBounds(x, rate);
  }

  lemma StartPlus(s: Spectrum, d: nat)
    ensures Wrap(s.centralFrequency - s.sampleRate / 2 + d) == Wrap(Start(s) + d)
  {
  }

  lemma NearestTen(t: nat, b: int)
    ensures Rounded(t) == b <==> 10 * b - 4 <= t < 10 * b + 6
  {
  }

  /** A whole number is at most a quotient exactly when its multiple is at most what was
      divided. */
  lemma Scale(t: nat, m: int, x: nat, rate: nat)
    requires 0 < rate && t * rate <= x < (t + 1) * rate
    ensures m <= t <==> m * rate <= x
  {
    if m <= t {
      MulMono(m, t, rate);
    } else {
      MulMono(t + 1, m, rate);
    }
  }

  // ---------------------------------------------------- which spectra lose a bin

  /** The greatest common divisor. */
  function Gcd(a: nat, b: nat): nat
    decreases b
  {
    if b == 0 then a else Gcd(b, a % b)
  }

  lemma Combine(p: int, q: int, d: int, g: int)
    ensures (d * p + q) * g == d * (p * g) + q * g
  {
    assert (d * p + q) * g == (d * p) * g + q * g;
    assert (d * p) * g == d * (p * g);
  }

  lemma {:induction false} GcdDivides(a: nat, b: nat) returns (p: nat, q: nat)
    requires 0 < a
    ensures 0 < Gcd(a, b) && a == p * Gcd(a, b) && b == q * Gcd(a, b)
    decreases b
  {
    if b == 0 {
      p, q := 1, 0;
    } else {
      var p', q' := GcdDivides(b, a % b);
      var g, d := Gcd(a, b), a / b;
      DivBounds(a, b);
      Combine(p', q', d, g);
      MulMono(0, d, p');
      p, q := d * p' + q', p';
    }
  }

  lemma {:induction false} Bezout(a: nat, b: nat) returns (x: int, y: int)
    ensures a * x + b * y == Gcd(a, b)
    decreases b
  {
    if b == 0 {
      x, y := 1, 0;
    } else {
      var x', y' := Bezout(b, a % b);
      DivBounds(a, b);
      var d := a / b;
      assert a % b == a - d * b;
      Distribute(a, d * b, y');
      assert d * b * y' == b * (d * y');
      Distribute(x', d * y', b);
      x, y := y', x' - d * y';
    }
  }

  lemma MultipleBelow(k: int, p: nat, g: nat)
    requires k * g < p * g
    ensures k * g <= p * g - g
  {
    if p <= k {
      MulMono(p, k, g);
      assert false;
    }
    MulMono(k, p - 1, g);
    Distribute(p, 1, g);
  }

  lemma DifferenceOfMultiples(i: int, q: int, d: int, p: int, g: int)
    ensures i * (q * g) - d * (p * g) == (i * q - d * p) * g
  {
    Distribute(i * q, d * p, g);
    assert i * (q * g) == i * q * g;
    assert d * (p * g) == d * p * g;
  }

  /** What the first division drops is a multiple of the divisor, and less than the size. */
  lemma RemainderBound(i: nat, n: nat, rate: nat)
    requires 0 < n
    ensures 0 <= i * rate && i * rate % n <= n - Gcd(n, rate)
  {
    hide Gcd;
    var p, q := GcdDivides(n, rate);
    var g := Gcd(n, rate);
    MulMono(0, i, rate);
    var product := i * rate;
    DivBounds(product, n);
    DifferenceOfMultiples(i, q, product / n, p, g);
    MultipleBelow(i * q - product / n * p, p, g);
  }

  lemma WorstProduct(i: int, t: int, n: int, rate: int, x: int, y: int, g: int)
    requires -y == t * n + i && n * x + rate * y == g
    ensures i * rate == (x - rate * t - 1) * n + (n - g)
  {
    Distribute(-y, t * n, rate);
    Distribute(x - rate * t, 1, n);
    Distribute(x, rate * t, n);
    assert t * n * rate == rate * t * n by {
      assert t * n * rate == t * (n * rate) && rate * t * n == t * (rate * n);
    }
    assert -y * rate == -(rate * y);
  }

  /** A bin for which the first division drops as much as it can. */
  lemma WorstBin(n: nat, rate: nat) returns (i: nat)
    requires 0 < n
    ensures i < n && 0 <= i * rate && i * rate % n == n - Gcd(n, rate)
  {
    hide Gcd;
    var x, y := Bezout(n, rate);
    var p, q := GcdDivides(n, rate);
    var g := Gcd(n, rate);
    i := -y % n;
    WorstProduct(i, -y / n, n, rate, x, y, g);
    if p == 0 {
      assert false;
    }
    MulMono(1, p, g);
    MulMono(0, i, rate);
    DivModUnique(i * rate, x - rate * (-y / n) - 1, n - g, n);
  }

  /** Every bin comes back if and only if the sample rate is high enough for the size. */
  lemma EveryBinComesBackIff(s: Spectrum)
    requires Fits(s)
    ensures (forall i :: 0 <= i < s.fftSize ==> BinAtFreq(s, FreqAtBin(s, i)) == i) <==>
            5 * (s.fftSize - Gcd(s.fftSize, s.sampleRate)) <= 2 * s.sampleRate
  {
    hide BinAtFreq, FreqAtBin, Gcd;
    forall i | 0 <= i < s.fftSize
      ensures BinAtFreq(s, FreqAtBin(s, i)) == i <==> 5 * Remainder(s, i) <= 2 * s.sampleRate
      ensures Remainder(s, i) <= s.fftSize - Gcd(s.fftSize, s.sampleRate)
    {
      BinRoundTrip(s, i);
      RemainderBound(i, s.fftSize, s.sampleRate);
    }
    var i := WorstBin(s.fftSize, s.sampleRate);
    assert Remainder(s, i) == s.fftSize - Gcd(s.fftSize, s.sampleRate);
  }

  /** In particular when the rate is high enough for a size without a common divisor. */
  lemma EveryBinComesBack(s: Spectrum, i: nat)
    requires Fits(s) && i < s.fftSize && 5 * (s.fftSize - 1) <= 2 * s.sampleRate
    ensures BinAtFreq(s, FreqAtBin(s, i)) == i
  {
    BinRoundTrip(s, i);
  }

  /** The bound is tight: at one sample per second less, a bin of this transform is
      taken for another one. */
  lemma BoundIsTight()
    ensures Fits(Spectrum(5, 100, 9)) && 5 * (5 - 1) == 2 * 9 + 2
    ensures BinAtFreq(Spectrum(5, 100, 9), FreqAtBin(Spectrum(5, 100, 9), 1)) != 1
  {
    hide BinAtFreq, FreqAtBin;
    assert Remainder(Spectrum(5, 100, 9), 1) == 4;
    BinRoundTrip(Spectrum(5, 100, 9), 1);
  }
}
