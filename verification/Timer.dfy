/** Tick arithmetic: adding a duration to an instant and subtracting two instants. */
module Timer {
  import opened PowersOfTwo

  const NANOS: nat := 1_000_000_000

  datatype Duration = Duration(secs: nat, nanos: nat)

  /** Whole ticks in some nanoseconds, and whole nanoseconds in some ticks. */
  function TicksIn(nanos: nat, freq: nat): nat { freq * nanos / NANOS }

  function NanosIn(ticks: nat, freq: nat): nat
    requires freq > 0
  {
    ticks * NANOS / freq
  }

  /** Ticks after `d` has passed at `freq` ticks a second. */
  function Add(ticks: nat, d: Duration, freq: nat): nat {
    ticks + d.secs * freq + TicksIn(d.nanos, freq)
  }

  /** The time from `since` to `ticks`; nothing when it lies ahead. */
  function Sub(ticks: nat, since: nat, freq: nat): Duration
    requires freq > 0
  {
    var diff := if ticks >= since then ticks - since else 0;
    Duration(diff / freq, NanosIn(diff % freq, freq))
  }

  /** An instant that lies ahead has no time behind it: the difference is zero. */
  lemma SubAhead(ticks: nat, since: nat, freq: nat)
    requires freq > 0
    ensures Sub(ticks, since, freq) == Duration(0, 0) <==> ticks <= since || NanosIn(ticks - since, freq) == 0
    ensures ticks <= since ==> Sub(ticks, since, freq) == Duration(0, 0)
  {
  }

  lemma DivBounds(x: nat, d: nat)
    requires d > 0
    ensures x / d * d <= x < x / d * d + d
  {
    assert x == x / d * d + x % d;
  }

  /** A quotient is at least `q` when the dividend reaches q divisors. */
  lemma QuotientAtLeast(x: nat, d: nat, q: nat)
    requires d > 0 && q * d <= x
    ensures q <= x / d
  {
    DivBounds(x, d);
    if x / d < q { MulApart(d, x / d, q); }
  }

  lemma QuotientBelow(x: nat, d: nat, q: nat)
    requires d > 0 && x < q * d
    ensures x / d < q
  {
    DivBounds(x, d);
    if q < x / d { MulApart(d, q, x / d); }
  }

  /** Adding a duration and taking the difference gives back the whole seconds exactly
      and never too many nanoseconds; the loss is under one tick and one nanosecond. */
  lemma AddThenSub(t: nat, d: Duration, freq: nat)
    requires freq > 0 && d.nanos < NANOS
    ensures var e := Sub(Add(t, d, freq), t, freq);
      e.secs == d.secs && e.nanos <= d.nanos && (d.nanos - e.nanos) * freq < NANOS + freq
  {
    var part := TicksIn(d.nanos, freq);
    PartBelowSecond(freq, d.nanos);
    SubOfParts(t, d.secs, d.secs * freq, part, freq);
    NanosLost(freq, d.nanos, part, NanosIn(part, freq));
  }

  lemma SubOfParts(t: nat, secs: nat, whole: nat, part: nat, freq: nat)
    requires part < freq && whole == secs * freq
    ensures Sub(t + whole + part, t, freq) == Duration(secs, NanosIn(part, freq))
  {
    ModUnique(whole + part, freq, secs, part);
  }

  lemma PartBelowSecond(freq: nat, nanos: nat)
    requires freq > 0 && nanos < NANOS
    ensures TicksIn(nanos, freq) < freq
  {
    MulApart(freq, nanos, NANOS);
    QuotientBelow(freq * nanos, NANOS, freq);
  }

  lemma NanosLost(freq: nat, nanos: nat, part: nat, back: nat)
    requires freq > 0 && part == TicksIn(nanos, freq) && back == NanosIn(part, freq)
    ensures back <= nanos && (nanos - back) * freq < NANOS + freq
  {
    DivBounds(freq * nanos, NANOS);
    DivBounds(part * NANOS, freq);
    assert back * freq <= nanos * freq;
    if nanos < back { MulApart(freq, nanos, back); }
    assert (nanos - back) * freq == nanos * freq - back * freq;
  }

  /** Adding back a difference loses at most one tick at up to a gigahertz, and loses
      none, at any frequency, exactly when the ticks past the whole second are a whole
      number of nanoseconds. */
  lemma SubThenAdd(t: nat, u: nat, freq: nat)
    requires freq > 0 && t <= u
    ensures var v := Add(t, Sub(u, t, freq), freq);
      && v <= u && (freq <= NANOS ==> u <= v + 1)
      && (v == u <==> (u - t) % freq * NANOS % freq == 0)
  {
    var diff := u - t;
    var rest := diff % freq;
    var nanos := NanosIn(rest, freq);
    assert diff == diff / freq * freq + rest;
    TicksLost(freq, rest, nanos, TicksIn(nanos, freq));
  }

  lemma TicksLost(freq: nat, rest: nat, nanos: nat, back: nat)
    requires freq > 0 && nanos == NanosIn(rest, freq) && back == TicksIn(nanos, freq)
    ensures back <= rest && (freq <= NANOS ==> rest <= back + 1)
    ensures back == rest <==> rest * NANOS % freq == 0
  {
    DivBounds(rest * NANOS, freq);
    DivBounds(freq * nanos, NANOS);
    assert freq * nanos == nanos * freq;
    assert rest * NANOS == nanos * freq + rest * NANOS % freq;
    if rest * NANOS % freq == 0 { QuotientAtLeast(freq * nanos, NANOS, rest); }
  }

  /** One tick at three ticks a second is 333333333 nanoseconds, which is no tick. */
  lemma LostTickExample(t: nat)
    ensures Sub(t + 1, t, 3) == Duration(0, 333_333_333) && Add(t, Sub(t + 1, t, 3), 3) == t
  {
  }
}
