/** Time from the tick counter: the period of a tick as a 64.64 fixed-point number of nanoseconds. */
module Clock {
  import opened Arithmetic

  const WORD: nat := 0x1_0000_0000_0000_0000
  const SECOND: nat := 1_000_000_000

  /** What `div` does: it faults on a zero divisor and on a quotient that does not fit in a word. */
  datatype Division = Fault | Divided(quotient: nat, remainder: nat)

  function Divide(upper: nat, lower: nat, divisor: nat): Division {
    if divisor == 0 || (upper * WORD + lower) / divisor >= WORD then Fault
    else Divided((upper * WORD + lower) / divisor, (upper * WORD + lower) % divisor)
  }

  /** The whole nanoseconds in a number of ticks. */
  function Exact(ticks: nat, freq: nat): nat
    requires freq > 0
  {
    ticks * 1_000_000_000 / freq
  }

  // ---------------------------------------------------------------- arithmetic

  lemma QuotientLess(x: nat, d: nat, w: nat)
    requires d > 0 && x < w * d
    ensures x / d < w
  {
    assert (x / d) * d <= x;
    LessScaled(x / d, w, d);
  }

  lemma QuotientMono(x: nat, y: nat, d: nat)
    requires d > 0 && x <= y
    ensures x / d <= y / d
  {
    Divides(x, d);
    Divides(y, d);
    assert (y / d + 1) * d == y / d * d + d;
    LessScaled(x / d, y / d + 1, d);
  }

  lemma Swap(a: int, b: int, c: int)
    ensures a * (b * c) == (a * b) * c && a * (b * c) == b * (a * c)
  {
  }

  lemma Spread(a: int, b: int, c: int)
    ensures a * (b + c) == a * b + a * c && (b + c) * a == b * a + c * a
  {
  }

  /** What the two divisions leave out of a product. */
  lemma Identity(t: int, f: int, w: int, r: int, pl: int, r2: int, q: int, m: int)
    requires r * w == pl * f + r2 && t * pl == q * w + m
    ensures (t * r - q * f) * w == m * f + t * r2
  {
    assert (t * r) * w == (t * pl) * f + t * r2 by {
      Swap(t, r, w);
      Spread(t, pl * f, r2);
      Swap(t, pl, f);
    }
    assert (t * pl) * f == (q * f) * w + m * f by {
      Spread(f, q * w, m);
      Swap(q, w, f);
      Swap(q, f, w);
    }
    Spread(w, t * r - q * f, q * f);
  }

  lemma SmallSum(t: nat, f: nat, w: nat, r2: nat, m: nat)
    requires t < w && r2 < f && m < w
    ensures 0 <= m * f + t * r2 < (2 * f) * w
  {
    Scale(m + 1, w, f);
    Spread(f, m, 1);
    Scale(t, w, r2);
    Scale(r2, f, w);
    Spread(w, f, f);
  }

  /** The quotient cut off twice is off by less than two. */
  lemma Rest(t: nat, f: nat, w: nat, r: nat, pl: nat, r2: nat, q: nat, m: nat)
    requires 0 < w && t < w && r2 < f && m < w && r * w == pl * f + r2 && t * pl == q * w + m
    ensures 0 <= t * r - q * f < 2 * f
    ensures r2 == 0 ==> t * r - q * f < f
  {
    var x := t * r - q * f;
    Identity(t, f, w, r, pl, r2, q, m);
    SmallSum(t, f, w, r2, m);
    LessScaled(-1, x, w);
    LessScaled(x, 2 * f, w);
    if r2 == 0 {
      Scale(m + 1, w, f);
      Spread(f, m, 1);
      LessScaled(x, f, w);
    }
  }

  // ---------------------------------------------------------------- the reading

  /** What is read for a number of ticks, before it is cut to a word. */
  function Reading(ticks: nat, high: nat, low: nat): nat { ticks * high + ticks * low / WORD }

  /** The period the calibration stores. */
  function High(freq: nat): nat
    requires freq > 0
  {
    SECOND / freq
  }

  function Low(freq: nat): nat
    requires freq > 0
  {
    SECOND % freq * WORD / freq
  }

  /** How far the stored period falls short of the real one: nothing exactly if the frequency divides 10^9 * 2^64. */
  function Short(freq: nat): nat
    requires freq > 0
  {
    SECOND % freq * WORD % freq
  }

  /** For a nonzero frequency neither division faults, and the stored period is the real one cut off. */
  lemma CalibrationDivides(freq: nat)
    requires 0 < freq < WORD
    ensures Divide(0, SECOND, freq) == Divided(High(freq), SECOND % freq)
    ensures Divide(SECOND % freq, 0, freq) == Divided(Low(freq), Short(freq))
  {
    Scale(1, freq, SECOND);
    QuotientLess(SECOND, freq, SECOND + 1);
    QuotientLess(SECOND % freq * WORD, freq, WORD);
  }

  /** A reading is the exact number of nanoseconds or one less. */
  lemma ReadingExact(ticks: nat, freq: nat)
    requires freq > 0 && ticks < WORD
    ensures var r := Reading(ticks, High(freq), Low(freq)); r == Exact(ticks, freq) || r + 1 == Exact(ticks, freq)
  {
    var high, low, rest := High(freq), Low(freq), SECOND % freq;
    var q, m := ticks * low / WORD, ticks * low % WORD;
    Divides(SECOND, freq);
    Divides(rest * WORD, freq);
    Divides(ticks * low, WORD);
    Rest(ticks, freq, WORD, rest, low, Short(freq), q, m);
    ReadingRest(ticks, freq, high, rest, q);
  }

  lemma ReadingRest(t: nat, f: nat, high: nat, rest: nat, q: nat)
    requires f > 0 && SECOND == high * f + rest && 0 <= t * rest - q * f < 2 * f
    ensures var e := t * SECOND / f; e == t * high + q + if t * rest - q * f < f then 0 else 1
  {
    var x := t * rest - q * f;
    Spread(t, high * f, rest);
    Swap(t, high, f);
    Spread(f, t * high, q);
    Spread(f, t * high + q, 1);
    if x < f {
      Quotient(t * SECOND, f, t * high + q, x);
    } else {
      Quotient(t * SECOND, f, t * high + q + 1, x - f);
    }
  }

  /** When the stored period is exact, so is every reading. */
  lemma ExactIfNotShort(ticks: nat, freq: nat)
    requires freq > 0 && ticks < WORD && Short(freq) == 0
    ensures Reading(ticks, High(freq), Low(freq)) == Exact(ticks, freq)
  {
    var high, low, rest := High(freq), Low(freq), SECOND % freq;
    var q, m := ticks * low / WORD, ticks * low % WORD;
    Divides(SECOND, freq);
    Divides(rest * WORD, freq);
    Divides(ticks * low, WORD);
    Rest(ticks, freq, WORD, rest, low, Short(freq), q, m);
    ReadingRest(ticks, freq, high, rest, q);
  }

  /** When it is not, one second is read as a nanosecond less. */
  lemma SecondShort(freq: nat)
    requires 0 < freq < WORD && Short(freq) > 0
    ensures Exact(freq, freq) == SECOND && Reading(freq, High(freq), Low(freq)) == SECOND - 1
  {
    var low, rest := Low(freq), SECOND % freq;
    Quotient(freq * SECOND, freq, SECOND, 0);
    Divides(SECOND, freq);
    Divides(rest * WORD, freq);
    assert freq * low == (rest - 1) * WORD + (WORD - Short(freq));
    if rest == 0 { assert false; }
    Quotient(freq * low, WORD, rest - 1, WORD - Short(freq));
  }

  /** Every reading is exact if and only if the frequency divides 10^9 * 2^64. */
  lemma ExactExactly(freq: nat)
    requires 0 < freq < WORD
    ensures (forall ticks: nat | ticks < WORD :: Reading(ticks, High(freq), Low(freq)) == Exact(ticks, freq))
            <==> SECOND * WORD % freq == 0
  {
    ShortExactly(freq);
    if Short(freq) == 0 {
      forall ticks: nat | ticks < WORD ensures Reading(ticks, High(freq), Low(freq)) == Exact(ticks, freq) {
        ExactIfNotShort(ticks, freq);
      }
    } else {
      SecondShort(freq);
    }
  }

  lemma ShortExactly(freq: nat)
    requires freq > 0
    ensures Short(freq) == SECOND * WORD % freq
  {
    var rest := SECOND % freq;
    Divides(SECOND, freq);
    Divides(rest * WORD, freq);
    Spread(WORD, High(freq) * freq, rest);
    Swap(WORD, High(freq), freq);
    Spread(freq, WORD * High(freq), Low(freq));
    Quotient(SECOND * WORD, freq, WORD * High(freq) + Low(freq), Short(freq));
  }

  /** More ticks never read as less time. */
  lemma ReadingMono(a: nat, b: nat, high: nat, low: nat)
    requires a <= b
    ensures Reading(a, high, low) <= Reading(b, high, low)
  {
    Scale(a, b, high);
    Scale(a, b, low);
    QuotientMono(a * low, b * low, WORD);
  }

  // ---------------------------------------------------------------- the clock

  class Timer {
    var periodHigh: nat
    var periodLow: nat
    var frequency: nat
    var offset: nat

    ghost predicate Valid()
      reads this
    {
      0 < frequency < WORD && offset < WORD && periodHigh == High(frequency) && periodLow == Low(frequency)
    }

    /** Ticks since the calibration, as the counter wraps. */
    function Ticks(tsc: nat): nat
      reads this
    {
      (tsc - offset) % WORD
    }

    /** Calibration faults exactly on a zero frequency. */
    method Calibrate(freq: nat, tsc: nat) returns (fault: bool)
      requires freq < WORD && tsc < WORD
      modifies this
      ensures fault <==> freq == 0
      ensures !fault ==> Valid() && frequency == freq && offset == tsc
      ensures fault ==> frequency == old(frequency) && offset == old(offset) && periodHigh == old(periodHigh) && periodLow == old(periodLow)
    {
      if freq > 0 { CalibrationDivides(freq); }
      var d1 := Divide(0, SECOND, freq);
      if d1.Fault? { return true; }
      var d2 := Divide(d1.remainder, 0, freq);
      if d2.Fault? { return true; }
      frequency, offset, periodHigh, periodLow := freq, tsc, d1.quotient, d2.quotient;
      fault := false;
    }

    /** While the time fits in a word, it is read exactly or a nanosecond short; never exactly only for frequencies that do not divide 10^9 * 2^64. */
    method Nanoseconds(tsc: nat) returns (ns: nat)
      requires Valid() && tsc < WORD
      ensures ns == Reading(Ticks(tsc), periodHigh, periodLow) % 0x1_0000_0000_0000_0000
      ensures var e := Exact(Ticks(tsc), frequency);
              e < 0x1_0000_0000_0000_0000 ==> (ns == e || ns + 1 == e) && (SECOND * WORD % frequency == 0 ==> ns == e)
    {
      var ticks := (tsc - offset) % WORD;
      ReadingExact(ticks, frequency);
      if SECOND * WORD % frequency == 0 { ExactExactly(frequency); }
      ns := (ticks * periodHigh + ticks * periodLow / WORD) % WORD;
      InWord(Reading(ticks, periodHigh, periodLow), Exact(ticks, frequency));
    }
  }

  lemma InWord(r: nat, e: nat)
    requires r == e || r + 1 == e
    ensures e < WORD ==> r % WORD == r
  {
  }
}
