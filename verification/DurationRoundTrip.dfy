/**
 The text of a duration (the documented format of Go's `time.Duration.String`, which `MarshalJSON`
 and `MarshalYAML` emit) parses back to the same duration.
 */
module DurationRoundTrip {
  import opened Chars
  import opened Duration
  import opened DurationLaws

  // ---------- Decimal text ----------

  function DigitChar(d: nat): (c: char)
    requires d < 10
    ensures IsDigit(c) && DigitValue(c) == d
  {
    '0' + d as char
  }

  function Dec(n: nat): (s: string)
    ensures s != "" && All(s, IsDigit)
  {
    if n < 10 then [DigitChar(n)] else Dec(n / 10) + [DigitChar(n % 10)]
  }

  lemma {:induction false} DecVal(n: nat)
    ensures Val(Dec(n)) == n
  {
    if n < 10 {
      ValSnoc("", DigitChar(n));
      assert "" + [DigitChar(n)] == Dec(n);
    } else {
      DecVal(n / 10);
      ValSnoc(Dec(n / 10), DigitChar(n % 10));
    }
  }

  /** The last w digits of r, with leading zeros. */
  function Pad(r: nat, w: nat): (s: string)
    ensures |s| == w && All(s, IsDigit)
  {
    if w == 0 then "" else Pad(r / 10, w - 1) + [DigitChar(r % 10)]
  }

  lemma {:induction false} PadVal(r: nat, w: nat)
    requires r < Pow10(w)
    ensures Val(Pad(r, w)) == r
  {
    if w > 0 {
      PadVal(r / 10, w - 1);
      ValSnoc(Pad(r / 10, w - 1), DigitChar(r % 10));
    }
  }

  function TrimZeros(ds: string): (t: string)
    requires All(ds, IsDigit)
    ensures |t| <= |ds| && All(t, IsDigit) && (t == "" || t[|t| - 1] != '0')
  {
    if ds != "" && ds[|ds| - 1] == '0' then TrimZeros(ds[..|ds| - 1]) else ds
  }

  lemma {:induction false} TrimZerosVal(ds: string)
    requires All(ds, IsDigit)
    ensures Val(ds) == Val(TrimZeros(ds)) * Pow10(|ds| - |TrimZeros(ds)|)
  {
    if ds != "" && ds[|ds| - 1] == '0' {
      var n := |ds| - 1;
      TrimZerosVal(ds[..n]);
      var t := TrimZeros(ds[..n]);
      TimesTen(Val(t), Pow10(n - |t|));
    }
  }

  lemma TimesTen(x: nat, p: nat)
    ensures x * p * 10 == x * (10 * p)
  {}

  lemma {:induction false} Pow10Add(j: nat, k: nat)
    ensures Pow10(j + k) == Pow10(j) * Pow10(k)
  {
    if k > 0 {
      Pow10Add(j, k - 1);
      TimesTen(Pow10(j), Pow10(k - 1));
    }
  }

  // ---------- One term with a fraction ----------

  /** `whole` units and r of 10^w parts of one, trailing zeros dropped. */
  function FracTerm(whole: nat, r: nat, w: nat, unit: string): Term {
    if r == 0 then Term(Dec(whole), false, "", unit)
    else Term(Dec(whole), true, TrimZeros(Pad(r, w)), unit)
  }

  lemma DividePart(q: nat, a: nat, b: nat)
    requires b > 0
    ensures (q * b + a) / b == q + a / b
  {
    var gap: int := (q * b + a) / b - q - a / b;
    assert gap * b == a % b - (q * b + a) % b;
    assert gap >= 1 ==> gap * b >= b;
    assert gap <= -1 ==> gap * b + b <= 0;
  }

  lemma DivideExactly(a: nat, b: nat)
    requires b > 0
    ensures (a * b) % b == 0 && (a * b) / b == a
  {
    DividePart(a, 0, b);
  }

  /** The fraction of a printed term is scaled back without loss. */
  lemma FractionIsExact(env: Env, r: nat, w: nat, x: nat, k: nat)
    requires env.Exact() && k <= w <= 9 && 0 < r < Pow10(w) && r == x * Pow10(w - k)
    requires Pow10(w) in env.units.Values && 0 < x <= MAX && x < Pow10(k)
    ensures env.scaled(x, Pow10(w), Pow10(k)) == r
  {
    Pow10Add(w - k, k);
    DivideExactly(Pow10(w - k), Pow10(k));
    Pow10AtMost(w);
  }

  lemma Pow10AtMost(w: nat)
    requires w <= 9
    ensures Pow10(w) <= 1_000_000_000
  {
    assert Pow10(1) == 10 && Pow10(2) == 100 && Pow10(3) == 1000 && Pow10(4) == 10000 && Pow10(5) == 100000;
    assert Pow10(6) == 1000000 && Pow10(7) == 10000000 && Pow10(8) == 100000000 && Pow10(9) == 1000000000;
  }

  lemma FactorBounds(v: nat, p: nat, r: nat)
    requires r == v * p && r > 0 && p > 0
    ensures 0 < v <= r
  {
    ProductAtLeast(v, p);
  }

  lemma PrintedFraction(r: nat, w: nat)
    requires w <= 9 && 0 < r < Pow10(w)
    ensures var t := TrimZeros(Pad(r, w));
      && |t| <= w && FracOf(t) == Frac(|t|, Val(t)) && r == Val(t) * Pow10(w - |t|) && Val(t) > 0 && t != ""
  {
    var t := TrimZeros(Pad(r, w));
    TrimmedPad(r, w, t);
    FactorBounds(Val(t), Pow10(w - |t|), r);
    Pow10AtMost(w);
    ShortFraction(t);
  }

  lemma TrimmedPad(r: nat, w: nat, t: string)
    requires r < Pow10(w) && t == TrimZeros(Pad(r, w))
    ensures |t| <= w && All(t, IsDigit) && r == Val(t) * Pow10(w - |t|)
  {
    PadVal(r, w);
    TrimZerosVal(Pad(r, w));
  }

  /** A fraction that fits is read to its end. */
  lemma ShortFraction(t: string)
    requires All(t, IsDigit) && Val(t) <= MAX
    ensures FracOf(t) == Frac(|t|, Val(t))
  {
    assert t[..|t|] == t;
    FracIsLongest(t, |t|);
  }

  lemma FracTermValue(env: Env, whole: nat, r: nat, w: nat, unit: string)
    requires env.Valid() && env.Exact() && w <= 9 && r < Pow10(w)
    requires unit in env.units && env.units[unit] == Pow10(w)
    ensures IsTerm(env, FracTerm(whole, r, w, unit))
    ensures TermValue(env, FracTerm(whole, r, w, unit)) == whole * Pow10(w) + r
  {
    DecVal(whole);
    if r > 0 {
      var t := TrimZeros(Pad(r, w));
      PrintedFraction(r, w);
      FractionIsExact(env, r, w, Val(t), |t|);
    }
  }

  // ---------- Formatting ----------

  const SECOND: nat := 1_000_000_000
  const MINUTE: nat := 60 * SECOND
  const HOUR: nat := 60 * MINUTE

  /** The units the format uses, with the values of the parser's unit table. */
  predicate GoUnits(env: Env) {
    && "ns" in env.units && env.units["ns"] == 1
    && "\U{00B5}s" in env.units && env.units["\U{00B5}s"] == 1000
    && "ms" in env.units && env.units["ms"] == 1_000_000
    && "s" in env.units && env.units["s"] == SECOND
    && "m" in env.units && env.units["m"] == MINUTE
    && "h" in env.units && env.units["h"] == HOUR
  }

  /** Whole hours and minutes; minutes also when there are hours, hours only if there are any. */
  function HoursMinutes(minutes: nat): seq<Term> {
    (if minutes >= 60 then [Term(Dec(minutes / 60), false, "", "h")] else [])
    + (if minutes > 0 then [Term(Dec(minutes % 60), false, "", "m")] else [])
  }

  /** Under a second a smaller unit is used, so that the leading digit is not zero. */
  function FormatTerms(u: nat): seq<Term> {
    if u == 0 then [Term("0", false, "", "s")]
    else if u < 1000 then [FracTerm(u, 0, 0, "ns")]
    else if u < 1_000_000 then [FracTerm(u / 1000, u % 1000, 3, "\U{00B5}s")]
    else if u < SECOND then [FracTerm(u / 1_000_000, u % 1_000_000, 6, "ms")]
    else HoursMinutes(u / MINUTE) + [FracTerm(u % MINUTE / SECOND, u % SECOND, 9, "s")]
  }

  function Format(d: int): string {
    SignText(if d < 0 then Minus else NoSign) + Text(FormatTerms(if d < 0 then -d else d))
  }

  lemma PowersOfTen()
    ensures Pow10(0) == 1 && Pow10(3) == 1000 && Pow10(6) == 1_000_000 && Pow10(9) == SECOND
  {
    assert Pow10(1) == 10 && Pow10(2) == 100 && Pow10(4) == 10000 && Pow10(5) == 100000;
    assert Pow10(7) == 10000000 && Pow10(8) == 100000000;
  }

  lemma TotalOne(env: Env, t: Term)
    requires IsTerm(env, t)
    ensures AreTerms(env, [t]) && Total(env, [t]) == TermValue(env, t)
  {
    assert Values(env, [t]) == [TermValue(env, t)];
    SumOne(TermValue(env, t));
  }

  lemma SumOne(v: int)
    ensures Sum([v]) == v
  {
    assert [v][1..] == [];
  }

  lemma TotalNone(env: Env)
    ensures AreTerms(env, []) && Total(env, []) == 0
  {}

  lemma WholeTerm(env: Env, n: nat, unit: string)
    requires env.Valid() && unit in env.units
    ensures var t := Term(Dec(n), false, "", unit); IsTerm(env, t) && TermValue(env, t) == n * env.units[unit]
  {
    DecVal(n);
  }

  lemma HoursMinutesTotal(env: Env, minutes: nat)
    requires env.Valid() && GoUnits(env)
    ensures AreTerms(env, HoursMinutes(minutes)) && Total(env, HoursMinutes(minutes)) == minutes * MINUTE
  {
    var h, m := Term(Dec(minutes / 60), false, "", "h"), Term(Dec(minutes % 60), false, "", "m");
    WholeTerm(env, minutes / 60, "h");
    WholeTerm(env, minutes % 60, "m");
    TotalOne(env, h);
    TotalOne(env, m);
    TotalNone(env);
    TotalConcat(env, if minutes >= 60 then [h] else [], if minutes > 0 then [m] else []);
  }

  lemma SplitSeconds(u: nat)
    ensures u == u / MINUTE * MINUTE + u % MINUTE / SECOND * SECOND + u % SECOND
  {
    assert u % MINUTE % SECOND == u % SECOND;
  }

  lemma SecondsTotal(env: Env, minutes: nat, whole: nat, r: nat, s: Term)
    requires env.Valid() && env.Exact() && GoUnits(env) && r < SECOND && s == FracTerm(whole, r, 9, "s")
    ensures var ts := HoursMinutes(minutes) + [s];
      AreTerms(env, ts) && Total(env, ts) == minutes * MINUTE + whole * SECOND + r
  {
    PowersOfTen();
    FracTermValue(env, whole, r, 9, "s");
    TotalOne(env, s);
    HoursMinutesTotal(env, minutes);
    TotalConcat(env, HoursMinutes(minutes), [s]);
  }

  lemma LongTotal(env: Env, u: nat, minutes: nat, whole: nat, r: nat, ts: seq<Term>)
    requires env.Valid() && env.Exact() && GoUnits(env)
    requires u == minutes * MINUTE + whole * SECOND + r && r < SECOND
    requires ts == HoursMinutes(minutes) + [FracTerm(whole, r, 9, "s")]
    ensures AreTerms(env, ts) && Total(env, ts) == u
  {
    SecondsTotal(env, minutes, whole, r, FracTerm(whole, r, 9, "s"));
  }

  lemma SmallTotal(env: Env, q: nat, r: nat, w: nat, unit: string, t: Term)
    requires env.Valid() && env.Exact() && w <= 9 && r < Pow10(w) && unit in env.units && env.units[unit] == Pow10(w)
    requires t == FracTerm(q, r, w, unit)
    ensures AreTerms(env, [t]) && Total(env, [t]) == q * Pow10(w) + r
  {
    FracTermValue(env, q, r, w, unit);
    TotalOne(env, t);
  }

  lemma ShortTotal(env: Env, u: nat, ts: seq<Term>)
    requires env.Valid() && env.Exact() && GoUnits(env) && u < SECOND && ts == FormatTerms(u)
    ensures ts != [] && AreTerms(env, ts) && Total(env, ts) == u
  {
    PowersOfTen();
    var t := ts[0];
    if u == 0 {
      assert Dec(0) == "0";
      WholeTerm(env, 0, "s");
      TotalOne(env, t);
    } else if u < 1000 {
      SmallTotal(env, u, 0, 0, "ns", t);
    } else if u < 1_000_000 {
      SmallTotal(env, u / 1000, u % 1000, 3, "\U{00B5}s", t);
    } else {
      SmallTotal(env, u / 1_000_000, u % 1_000_000, 6, "ms", t);
    }
  }

  lemma FormatTotal(env: Env, u: nat)
    requires env.Valid() && env.Exact() && GoUnits(env)
    ensures FormatTerms(u) != [] && AreTerms(env, FormatTerms(u)) && Total(env, FormatTerms(u)) == u
  {
    if u < SECOND {
      ShortTotal(env, u, FormatTerms(u));
    } else {
      SplitSeconds(u);
      LongTotal(env, u, u / MINUTE, u % MINUTE / SECOND, u % SECOND, FormatTerms(u));
    }
  }

  // ---------- The shape of the format ----------

  /** No needless digits: no leading zeros, no trailing zeros, no point without digits after it. */
  predicate Plain(t: Term) {
    && (|t.whole| > 1 ==> t.whole[0] != '0')
    && (t.dot <==> t.frac != "") && (t.frac != "" ==> t.frac[|t.frac| - 1] != '0')
  }

  lemma {:induction false} DecIsPlain(n: nat)
    ensures n > 0 ==> Dec(n)[0] != '0'
    ensures |Dec(n)| > 1 ==> n > 0
  {
    if n >= 10 { DecIsPlain(n / 10); }
  }

  lemma FracTermIsPlain(whole: nat, r: nat, w: nat, unit: string)
    requires w <= 9 && r < Pow10(w)
    ensures Plain(FracTerm(whole, r, w, unit))
    ensures var t := FracTerm(whole, r, w, unit); All(t.whole, IsDigit) && Val(t.whole) == whole && t.unit == unit
  {
    DecIsPlain(whole);
    DecVal(whole);
    if r > 0 { PrintedFraction(r, w); }
  }

  lemma WholeIsPlain(n: nat, unit: string)
    ensures var t := Term(Dec(n), false, "", unit); Plain(t) && All(t.whole, IsDigit) && Val(t.whole) == n
  {
    DecIsPlain(n);
    DecVal(n);
  }

  /** Zero is "0s"; below a second there is one term, in the unit that keeps it between 1 and 999. */
  lemma ShortShape(u: nat)
    requires u < SECOND
    ensures var ts := FormatTerms(u);
      && |ts| == 1 && Plain(ts[0]) && All(ts[0].whole, IsDigit)
      && if u == 0 then ts[0] == Term("0", false, "", "s")
         else
           && 1 <= Val(ts[0].whole) <= 999
           && ts[0].unit == (if u < 1000 then "ns" else if u < 1_000_000 then "\U{00B5}s" else "ms")
  {
    PowersOfTen();
    if u == 0 {
    } else if u < 1000 {
      FracTermIsPlain(u, 0, 0, "ns");
    } else if u < 1_000_000 {
      FracTermIsPlain(u / 1000, u % 1000, 3, "\U{00B5}s");
    } else {
      FracTermIsPlain(u / 1_000_000, u % 1_000_000, 6, "ms");
    }
  }

  /**
   Hours, minutes and seconds, without leading zero units; minutes and seconds are below 60 and only
   the seconds have a fraction.
   */
  predicate IsClock(ts: seq<Term>, n: nat) {
    && 1 <= |ts| == n <= 3
    && (forall i :: 0 <= i < n ==> Plain(ts[i]) && All(ts[i].whole, IsDigit))
    && ts[n - 1].unit == "s" && Val(ts[n - 1].whole) < 60
    && (n >= 2 ==> ts[n - 2].unit == "m" && Val(ts[n - 2].whole) < 60 && !ts[n - 2].dot)
    && (n == 3 ==> ts[0].unit == "h" && !ts[0].dot)
    && Val(ts[0].whole) > 0
  }

  predicate Shows(t: Term, unit: string, value: nat) {
    Plain(t) && All(t.whole, IsDigit) && Val(t.whole) == value && t.unit == unit
  }

  lemma ClockOf(h: Term, m: Term, s: Term, minutes: nat, whole: nat, n: nat, ts: seq<Term>)
    requires Shows(h, "h", minutes / 60) && Shows(m, "m", minutes % 60) && Shows(s, "s", whole) && !h.dot && !m.dot
    requires whole < 60 && minutes + whole > 0
    requires n == (if minutes == 0 then 1 else if minutes < 60 then 2 else 3)
    requires ts == if n == 1 then [s] else if n == 2 then [m, s] else [h, m, s]
    ensures IsClock(ts, n)
  {}

  lemma ClockShape(minutes: nat, whole: nat, r: nat, n: nat, ts: seq<Term>)
    requires whole < 60 && r < SECOND && minutes + whole > 0
    requires ts == HoursMinutes(minutes) + [FracTerm(whole, r, 9, "s")]
    requires n == (if minutes == 0 then 1 else if minutes < 60 then 2 else 3)
    ensures IsClock(ts, n)
  {
    var s := FracTerm(whole, r, 9, "s");
    PowersOfTen();
    FracTermIsPlain(whole, r, 9, "s");
    var h, m := HoursMinutesAre(minutes);
    ClockOf(h, m, s, minutes, whole, n, ts);
  }

  lemma HoursMinutesAre(minutes: nat) returns (h: Term, m: Term)
    ensures Shows(h, "h", minutes / 60) && Shows(m, "m", minutes % 60) && !h.dot && !m.dot
    ensures HoursMinutes(minutes) == if minutes == 0 then [] else if minutes < 60 then [m] else [h, m]
  {
    h, m := Term(Dec(minutes / 60), false, "", "h"), Term(Dec(minutes % 60), false, "", "m");
    WholeIsPlain(minutes / 60, "h");
    WholeIsPlain(minutes % 60, "m");
  }

  lemma UnitsNeeded(u: nat, minutes: nat)
    requires u >= SECOND && minutes == u / MINUTE
    ensures minutes == 0 <==> u < MINUTE
    ensures minutes < 60 <==> u < HOUR
    ensures minutes == 0 ==> u % MINUTE / SECOND > 0
    ensures u % MINUTE / SECOND < 60
  {}

  /** From a second on the text is that of a clock, with as many units as it needs. */
  lemma LongShape(u: nat, n: nat, ts: seq<Term>)
    requires u >= SECOND && n == (if u < MINUTE then 1 else if u < HOUR then 2 else 3) && ts == FormatTerms(u)
    ensures IsClock(ts, n)
  {
    UnitsNeeded(u, u / MINUTE);
    ClockShape(u / MINUTE, u % MINUTE / SECOND, u % SECOND, n, ts);
  }

  /** The text of a duration parses back to it, for every int64 except the least, which is refused. */
  lemma RoundTrip(env: Env, d: int)
    requires env.Valid() && env.Exact() && GoUnits(env) && MIN <= d <= MAX
    ensures Meaning(env, Format(d)) == (if d == MIN then Err(Invalid) else Ok(d))
  {
    var u := if d < 0 then -d else d;
    FormatTotal(env, u);
    GrammaticalTextParses(env, if d < 0 then Minus else NoSign, FormatTerms(u));
  }

  // ---------- The environment of the real parser ----------

  /** The unit table: eleven names, each a multiple of the unit before it. */
  lemma UnitTable()
    ensures UNIT_MAP.Keys == {"ns", "us", "\U{00B5}s", "\U{03BC}s", "ms", "s", "m", "h", "d", "mo", "y"}
    ensures UNIT_MAP["ns"] == 1 && UNIT_MAP["us"] == 1000 * UNIT_MAP["ns"]
    ensures UNIT_MAP["\U{00B5}s"] == UNIT_MAP["us"] && UNIT_MAP["\U{03BC}s"] == UNIT_MAP["us"]
    ensures UNIT_MAP["ms"] == 1000 * UNIT_MAP["us"] && UNIT_MAP["s"] == 1000 * UNIT_MAP["ms"]
    ensures UNIT_MAP["m"] == 60 * UNIT_MAP["s"] && UNIT_MAP["h"] == 60 * UNIT_MAP["m"]
    ensures UNIT_MAP["d"] == 24 * UNIT_MAP["h"]
    ensures UNIT_MAP["mo"] == 30 * UNIT_MAP["d"] && UNIT_MAP["y"] == 365 * UNIT_MAP["d"]
  {}

  const UNIT_MAP: map<string, nat> := map[
    "ns" := 1,
    "us" := 1000,
    "\U{00B5}s" := 1000,
    "\U{03BC}s" := 1000,
    "ms" := 1_000_000,
    "s" := SECOND,
    "m" := MINUTE,
    "h" := HOUR,
    "d" := 24 * HOUR,
    "mo" := 720 * HOUR,
    "y" := 8760 * HOUR]

  /** The float step taken exactly. */
  function RationalStep(f: nat, unit: nat, scale: nat): int {
    if scale == 0 then 0 else f * unit / scale
  }

  /** With the source's unit table and an exact quotient, all that the laws ask for holds. */
  lemma RealEnvironment()
    ensures var env := Env(UNIT_MAP, RationalStep); env.Valid() && env.Exact() && GoUnits(env)
  {
    var env := Env(UNIT_MAP, RationalStep);
    RealUnits(env);
    RationalIsValid(env);
    RationalIsExact(env);
  }

  lemma RealUnits(env: Env)
    requires env.units == UNIT_MAP
    ensures GoUnits(env) && UnitsAreValid(env)
  {}

  ghost predicate UnitsAreValid(env: Env) {
    forall u :: u in env.units ==> u != "" && All(u, IsUnitChar) && 0 < env.units[u] <= MAX
  }

  /** Whatever the units, the exact quotient is a float step to which the laws apply. */
  lemma RationalIsValid(env: Env)
    requires env.scaled == RationalStep && UnitsAreValid(env)
    ensures env.Valid()
  {
    forall f: nat, unit: nat, k: nat | env.Taken(f, unit, k) ensures 0 <= env.scaled(f, unit, Pow10(k)) <= MAX {
      BelowUnit(f, unit, Pow10(k));
    }
  }

  lemma RationalIsExact(env: Env)
    requires env.scaled == RationalStep
    ensures env.Exact()
  {
    forall f: nat, unit: nat, k: nat | unit % Pow10(k) == 0
      ensures env.scaled(f, unit, Pow10(k)) == f * (unit / Pow10(k))
    {
      var q := unit / Pow10(k);
      assert f * unit == f * q * Pow10(k);
      DivideExactly(f * q, Pow10(k));
    }
  }

  /** A fraction below one of a unit is below the unit. */
  lemma BelowUnit(f: nat, unit: nat, scale: nat)
    requires f < scale
    ensures 0 <= f * unit / scale <= unit
  {
    assert f * unit + (scale - f) * unit == unit * scale;
    QuotientAtMost(f * unit, (scale - f) * unit, unit, scale);
  }

  lemma QuotientAtMost(a: nat, rest: nat, unit: nat, scale: nat)
    requires a + rest == unit * scale && scale > 0
    ensures 0 <= a / scale <= unit
  {
    DividePart(a / scale, a % scale + rest, scale);
    DivideExactly(unit, scale);
  }

  /** A term whose fraction digits fit is worth its decimal number of units, cut off to a whole. */
  lemma DecimalTerms(env: Env, t: Term)
    requires env.scaled == RationalStep && IsTerm(env, t) && Val(t.frac) <= MAX
    ensures TermValue(env, t)
         == (Val(t.whole) * Pow10(|t.frac|) + Val(t.frac)) * env.units[t.unit] / Pow10(|t.frac|)
  {
    ShortFraction(t.frac);
    CutOff(Val(t.whole), Val(t.frac), env.units[t.unit], Pow10(|t.frac|));
  }

  lemma CutOff(whole: nat, frac: nat, unit: nat, scale: nat)
    requires scale > 0
    ensures (whole * scale + frac) * unit / scale == whole * unit + frac * unit / scale
    ensures frac == 0 ==> frac * unit / scale == 0
  {
    assert (whole * scale + frac) * unit == whole * unit * scale + frac * unit;
    DividePart(whole * unit, frac * unit, scale);
  }
}
