/**
 The duration parser of api/types/duration.go.

 The methods scan as the source does, with int64 arithmetic that wraps and the source's own
 overflow checks.  They are proved against `Meaning`, which uses unbounded integers.  The unit table
 and the one floating point step (fraction times unit over scale) are parameters; see `Env`.
 */
module Duration {
  import opened Chars

  const MAX: int := 0x7fff_ffff_ffff_ffff
  const MIN: int := -0x8000_0000_0000_0000
  const TWO64: int := 0x1_0000_0000_0000_0000

  /** What int64 arithmetic makes of an exact result. */
  function Wrap64(x: int): int { (x - MIN) % TWO64 + MIN }

  datatype Error = Invalid | MissingUnit | UnknownUnit

  datatype Result<+T> = Ok(value: T) | Err(error: Error)

  // ---------- Scanning ----------

  /** A unit runs up to the next digit or dot. */
  predicate IsUnitChar(c: char) { c != '.' && !IsDigit(c) }

  /** Length of the longest prefix whose characters all satisfy p. */
  function Span(s: string, p: char -> bool): (n: nat)
    ensures n <= |s|
  {
    if s == "" || !p(s[0]) then 0 else 1 + Span(s[1..], p)
  }

  predicate All(s: string, p: char -> bool) { forall i :: 0 <= i < |s| ==> p(s[i]) }

  lemma {:induction false} SpanIs(s: string, p: char -> bool, n: nat)
    requires n <= |s| && All(s[..n], p) && (n == |s| || !p(s[n]))
    ensures Span(s, p) == n
  {
    if n > 0 {
      assert s[..n][0] == s[0];
      assert s[1..][..n - 1] == s[..n][1..];
      SpanIs(s[1..], p, n - 1);
    }
  }

  lemma {:induction false} SpanAll(s: string, p: char -> bool)
    ensures var n := Span(s, p); All(s[..n], p) && (n == |s| || !p(s[n]))
  {
    if s != "" && p(s[0]) {
      SpanAll(s[1..], p);
      var n := Span(s, p);
      assert forall i :: 0 < i < n ==> s[i] == s[1..][..n - 1][i - 1];
    }
  }

  function DigitValue(c: char): nat
    requires IsDigit(c)
  {
    (c - '0') as nat
  }

  /** The decimal value of a string of digits. */
  function Val(ds: string): nat
    requires All(ds, IsDigit)
  {
    if ds == "" then 0 else Val(ds[..|ds| - 1]) * 10 + DigitValue(ds[|ds| - 1])
  }

  lemma ValSnoc(ds: string, c: char)
    requires All(ds, IsDigit) && IsDigit(c)
    ensures All(ds + [c], IsDigit) && Val(ds + [c]) == Val(ds) * 10 + DigitValue(c)
  {
    assert (ds + [c])[..|ds|] == ds;
  }

  lemma {:induction false} ValMonotone(ds: string, n: nat)
    requires All(ds, IsDigit) && n <= |ds|
    ensures All(ds[..n], IsDigit) && Val(ds[..n]) <= Val(ds)
    decreases |ds|
  {
    if n < |ds| {
      assert ds[..|ds| - 1][..n] == ds[..n];
      ValMonotone(ds[..|ds| - 1], n);
    } else {
      assert ds[..n] == ds;
    }
  }

  function Pow10(k: nat): (r: nat)
    ensures r > 0
  {
    if k == 0 then 1 else 10 * Pow10(k - 1)
  }

  /** The fraction digits that are kept, by number and value: as many as fit an int64. */
  datatype Frac = Frac(kept: nat, value: nat)

  function FracOf(ds: string): (r: Frac)
    requires All(ds, IsDigit)
    ensures r.kept <= |ds| && r.value <= MAX && r.value < Pow10(r.kept)
  {
    if ds == "" then Frac(0, 0)
    else
      var n := |ds| - 1;
      var p := FracOf(ds[..n]);
      var v := p.value * 10 + DigitValue(ds[n]);
      if p.kept == n && v <= MAX then Frac(n + 1, v) else p
  }

  /** What is kept is the longest prefix of the fraction whose value fits. */
  lemma {:induction false} FracIsLongest(ds: string, n: nat)
    requires All(ds, IsDigit) && n <= |ds|
    ensures All(ds[..n], IsDigit)
    ensures n <= FracOf(ds).kept <==> Val(ds[..n]) <= MAX
    ensures n == FracOf(ds).kept ==> FracOf(ds).value == Val(ds[..n])
    decreases |ds|
  {
    if ds != "" {
      var m := |ds| - 1;
      assert ds[..m][..m] == ds[..m];
      FracIsLongest(ds[..m], m);
      if n <= m {
        assert ds[..m][..n] == ds[..n];
        FracIsLongest(ds[..m], n);
      } else {
        assert ds[..n] == ds;
      }
    }
  }

  // ---------- What is parsed ----------

  /** int64(float64(f) * (float64(unit) / scale)). */
  type FloatStep = (nat, nat, nat) -> int

  datatype Env = Env(units: map<string, nat>, scaled: FloatStep) {
    /** The parser takes the step only for a fraction below one of a unit in the table. */
    predicate Taken(f: nat, unit: nat, k: nat) {
      0 < f <= MAX && f < Pow10(k) && unit in units.Values
    }

    /** Units are positive and read as units; the float step, where taken, yields a non-negative int64. */
    ghost predicate Valid() {
      && (forall u :: u in units ==> u != "" && All(u, IsUnitChar) && 0 < units[u] <= MAX)
      && (forall f: nat, unit: nat, k: nat {:trigger scaled(f, unit, Pow10(k))} ::
            Taken(f, unit, k) ==> 0 <= scaled(f, unit, Pow10(k)) <= MAX)
    }

    /** The float step, where taken, is exact if all its operands and results are exact floats. */
    ghost predicate Exact() {
      forall f: nat, unit: nat, k: nat {:trigger scaled(f, unit, Pow10(k))} ::
        Taken(f, unit, k) && unit % Pow10(k) == 0 && f * (unit / Pow10(k)) < 0x20_0000_0000_0000 ==>
          scaled(f, unit, Pow10(k)) == f * (unit / Pow10(k))
    }
  }

  function Digits(s: string): (ds: string)
    ensures All(ds, IsDigit)
  {
    SpanAll(s, IsDigit);
    s[..Span(s, IsDigit)]
  }

  function AfterDigits(s: string): string { s[Span(s, IsDigit)..] }

  predicate StartsWithDot(s: string) { s != "" && s[0] == '.' }

  function FracDigits(s: string): (ds: string)
    ensures All(ds, IsDigit)
  {
    if StartsWithDot(s) then Digits(s[1..]) else ""
  }

  function AfterFrac(s: string): (r: string)
    ensures |r| <= |s|
  {
    if StartsWithDot(s) then AfterDigits(s[1..]) else s
  }

  function UnitText(s: string): string { s[..Span(s, IsUnitChar)] }

  function AfterUnit(s: string): string { s[Span(s, IsUnitChar)..] }

  /** A number of units plus a fraction of one. */
  function Amount(env: Env, whole: nat, f: Frac, unit: nat): (r: Result<int>)
    requires env.Valid() && unit in env.units.Values && f.value <= MAX && f.value < Pow10(f.kept)
    ensures r.Ok? ==> 0 <= r.value <= MAX
  {
    var extra := if f.value > 0 then env.scaled(f.value, unit, Pow10(f.kept)) else 0;
    if whole * unit > MAX then Err(Invalid)
    else if whole * unit + extra > MAX then Err(Invalid)
    else Ok(whole * unit + extra)
  }

  /** The value of the first term and the text after it. */
  function ParseTerm(env: Env, s: string): (r: Result<(int, string)>)
    requires env.Valid()
    ensures r.Ok? ==> 0 <= r.value.0 <= MAX && |r.value.1| < |s|
  {
    var whole, a := Digits(s), AfterDigits(s);
    var frac, b := FracDigits(a), AfterFrac(a);
    var unit := UnitText(b);
    if s == "" || (s[0] != '.' && !IsDigit(s[0])) then Err(Invalid)
    else if Val(whole) > MAX then Err(Invalid)
    else if whole == "" && frac == "" then Err(Invalid)
    else if unit == "" then Err(MissingUnit)
    else if unit !in env.units then Err(UnknownUnit)
    else
      match Amount(env, Val(whole), FracOf(frac), env.units[unit])
      case Err(e) => Err(e)
      case Ok(v) => Ok((v, AfterUnit(b)))
  }

  /** Reads one term off a text. */
  type TermParser = string -> Result<(int, string)>

  ghost predicate Sound(next: TermParser) {
    forall s :: next(s).Ok? ==> 0 <= next(s).value.0 <= MAX && |next(s).value.1| < |s|
  }

  /** `next` is `ParseTerm` for these units and this float step. */
  ghost predicate IsParser(env: Env, next: TermParser)
    requires env.Valid()
  {
    Sound(next) && forall s {:trigger ParseTerm(env, s)} :: next(s) == ParseTerm(env, s)
  }

  ghost function ParserOf(env: Env): (next: TermParser)
    requires env.Valid()
    ensures IsParser(env, next)
  {
    (s: string) => ParseTerm(env, s)
  }

  /** Term after term, adding up. */
  ghost function ParseFrom(next: TermParser, s: string, d: int): (r: Result<int>)
    requires Sound(next) && 0 <= d <= MAX
    ensures r.Ok? ==> d <= r.value <= MAX
    decreases |s|
  {
    if s == "" then Ok(d)
    else
      match next(s)
      case Err(e) => Err(e)
      case Ok((v, rest)) => if d + v > MAX then Err(Invalid) else ParseFrom(next, rest, d + v)
  }

  function Unsigned(s: string): string {
    if s != "" && (s[0] == '-' || s[0] == '+') then s[1..] else s
  }

  ghost function Parse(next: TermParser, s: string): Result<int>
    requires Sound(next)
  {
    var u := Unsigned(s);
    if u == "0" then Ok(0)
    else if u == "" then Err(Invalid)
    else
      match ParseFrom(next, u, 0)
      case Err(e) => Err(e)
      case Ok(d) => Ok(if s[0] == '-' then -d else d)
  }

  /** What a duration text is worth with these units and this float step, in unbounded integers. */
  ghost function Meaning(env: Env, s: string): Result<int>
    requires env.Valid()
  {
    Parse(ParserOf(env), s)
  }

  // ---------- The scanner ----------

  /** One digit more: the two overflow checks together say exactly whether the value still fits. */
  method AddDigit(x: int, c: char) returns (fits: bool, y: int)
    requires 0 <= x <= MAX && IsDigit(c)
    ensures fits <==> x * 10 + DigitValue(c) <= MAX
    ensures fits ==> y == x * 10 + DigitValue(c)
  {
    if x > MAX / 10 {
      return false, 0;
    }
    y := Wrap64(x * 10 + DigitValue(c));
    if y < 0 {
      return false, 0;
    }
    return true, y;
  }

  /** Consumes leading digits; fails exactly if their value does not fit an int64. */
  method LeadingInt(s: string) returns (ok: bool, x: int, rem: string)
    ensures ok <==> Val(Digits(s)) <= MAX
    ensures ok ==> x == Val(Digits(s)) && rem == AfterDigits(s)
  {
    SpanAll(s, IsDigit);
    ghost var n := Span(s, IsDigit);
    x := 0;
    var i := 0;
    while i < |s|
      invariant 0 <= i <= n && All(s[..i], IsDigit) && 0 <= x == Val(s[..i]) <= MAX
    {
      var c := s[i];
      if !IsDigit(c) {
        break;
      }
      assert s[..i + 1] == s[..i] + [c];
      ValSnoc(s[..i], c);
      ValMonotone(s[..n], i + 1);
      assert s[..n][..i + 1] == s[..i + 1];
      var fits;
      fits, x := AddDigit(x, c);
      if !fits {
        return false, 0, "";
      }
      i := i + 1;
    }
    SpanIs(s, IsDigit, i);
    return true, x, s[i..];
  }

  lemma FracSnoc(ds: string, c: char)
    requires All(ds, IsDigit) && IsDigit(c)
    ensures All(ds + [c], IsDigit)
    ensures var p := FracOf(ds);
      var v := p.value * 10 + DigitValue(c);
      FracOf(ds + [c]) == (if p.kept == |ds| && v <= MAX then Frac(|ds| + 1, v) else p)
  {
    assert (ds + [c])[..|ds|] == ds;
  }

  /** Consumes leading digits as a fraction, keeping those that fit. */
  method LeadingFraction(s: string) returns (x: int, scale: nat, rem: string)
    ensures var f := FracOf(Digits(s)); x == f.value && scale == Pow10(f.kept)
    ensures rem == AfterDigits(s)
  {
    SpanAll(s, IsDigit);
    x := 0;
    scale := 1;
    var overflow := false;
    var i := 0;
    while i < |s|
      invariant 0 <= i <= Span(s, IsDigit) && All(s[..i], IsDigit)
      invariant var f := FracOf(s[..i]); x == f.value && scale == Pow10(f.kept) && overflow == (f.kept < i)
    {
      var c := s[i];
      if !IsDigit(c) {
        break;
      }
      assert s[..i + 1] == s[..i] + [c];
      FracSnoc(s[..i], c);
      i := i + 1;
      if overflow {
        continue;
      }
      var fits, y := AddDigit(x, c);
      if !fits {
        overflow := true;
        continue;
      }
      x := y;
      scale := scale * 10;
    }
    SpanIs(s, IsDigit, i);
    return x, scale, s[i..];
  }

  /** The unit scan. */
  method LeadingUnit(s: string) returns (u: string, rem: string)
    ensures u == UnitText(s) && rem == AfterUnit(s)
  {
    var i := 0;
    while i < |s| && IsUnitChar(s[i])
      invariant 0 <= i <= |s| && All(s[..i], IsUnitChar)
    {
      i := i + 1;
    }
    SpanIs(s, IsUnitChar, i);
    return s[..i], s[i..];
  }

  lemma DivBound(v: nat, unit: nat)
    requires unit > 0
    ensures v > MAX / unit <==> v * unit > MAX
  {
    var q := MAX / unit;
    assert MAX == q * unit + MAX % unit;
    if v > q { assert v * unit >= (q + 1) * unit; } else { assert v * unit <= q * unit; }
  }

  /** Adding two int64 values that are not negative overflows exactly if the sum wraps below zero. */
  lemma WrapSum(a: int, b: int)
    requires 0 <= a <= MAX && 0 <= b <= MAX
    ensures Wrap64(a + b) < 0 <==> a + b > MAX
    ensures a + b <= MAX ==> Wrap64(a + b) == a + b
  {}

  /** The arithmetic of one term, in int64 with the source's overflow checks. */
  method ScaleTerm(env: Env, v0: nat, ghost f0: Frac, f: nat, scale: nat, unit: nat) returns (r: Result<int>)
    requires env.Valid() && unit in env.units.Values && v0 <= MAX
    requires f == f0.value <= MAX && scale == Pow10(f0.kept) && f < scale
    ensures r == Amount(env, v0, f0, unit)
  {
    DivBound(v0, unit);
    if v0 > MAX / unit {
      return Err(Invalid);
    }
    var v := Wrap64(v0 * unit);
    WrapSum(v0 * unit, 0);
    if f > 0 {
      WrapSum(v, env.scaled(f, unit, scale));
      v := Wrap64(v + env.scaled(f, unit, scale));
      if v < 0 {
        return Err(Invalid);
      }
    }
    return Ok(v);
  }

  /** One round of the parser's loop: the term's value, and what is left of the text. */
  method ScanTerm(env: Env, s: string) returns (r: Result<(int, string)>)
    requires env.Valid() && s != ""
    ensures r == ParseTerm(env, s)
  {
    if !(s[0] == '.' || IsDigit(s[0])) {
      return Err(Invalid);
    }
    var ok, v, a := LeadingInt(s);
    if !ok {
      return Err(Invalid);
    }
    var pre := |s| != |a|;
    var f, scale, post, b := 0, 1, false, a;
    ghost var f0 := FracOf(FracDigits(a));
    if a != "" && a[0] == '.' {
      f, scale, b := LeadingFraction(a[1..]);
      post := |a[1..]| != |b|;
    }
    if !pre && !post {
      return Err(Invalid);
    }
    var u, rest := LeadingUnit(b);
    if |u| == 0 {
      return Err(MissingUnit);
    }
    if u !in env.units {
      return Err(UnknownUnit);
    }
    var t := ScaleTerm(env, v, f0, f, scale, env.units[u]);
    r := match t case Err(e) => Err(e) case Ok(x) => Ok((x, rest));
  }

  lemma ParseFromStep(next: TermParser, s: string, d: int, term: Result<(int, string)>)
    requires Sound(next) && 0 <= d <= MAX && s != "" && term == next(s)
    ensures term.Err? ==> ParseFrom(next, s, d) == Err(term.error)
    ensures term.Ok? ==> 0 <= term.value.0 <= MAX && |term.value.1| < |s|
    ensures term.Ok? && Wrap64(d + term.value.0) < 0 ==> ParseFrom(next, s, d) == Err(Invalid)
    ensures term.Ok? && Wrap64(d + term.value.0) >= 0 ==>
      && Wrap64(d + term.value.0) <= MAX
      && ParseFrom(next, s, d) == ParseFrom(next, term.value.1, Wrap64(d + term.value.0))
  {
    if term.Ok? { WrapSum(d, term.value.0); }
  }

  /** The loop over the terms. */
  method ParseUnsigned(env: Env, s0: string, ghost next: TermParser) returns (r: Result<int>)
    requires env.Valid() && IsParser(env, next)
    ensures r == ParseFrom(next, s0, 0)
  {
    ghost var wanted := ParseFrom(next, s0, 0);
    var s, d := s0, 0;
    while s != ""
      invariant 0 <= d <= MAX
      invariant ParseFrom(next, s, d) == wanted
      decreases |s|
    {
      var term := ScanTerm(env, s);
      ParseFromStep(next, s, d, term);
      if term.Err? {
        return Err(term.error);
      }
      d := Wrap64(d + term.value.0);
      if d < 0 {
        return Err(Invalid);
      }
      s := term.value.1;
    }
    return Ok(d);
  }

  /** The whole parser, in int64 arithmetic, finds what the text is worth in unbounded integers. */
  method ParseDuration(env: Env, orig: string) returns (r: Result<int>)
    requires env.Valid()
    ensures r == Meaning(env, orig)
  {
    r := ParseSigned(env, orig, ParserOf(env));
  }

  /** The sign, the bare zero and the empty text, and then the loop. */
  method ParseSigned(env: Env, orig: string, ghost next: TermParser) returns (r: Result<int>)
    requires env.Valid() && IsParser(env, next)
    ensures r == Parse(next, orig)
  {
    var s := orig;
    var neg := false;
    if s != "" {
      var c := s[0];
      if c == '-' || c == '+' {
        neg := c == '-';
        s := s[1..];
      }
    }
    if s == "0" {
      return Ok(0);
    }
    if s == "" {
      return Err(Invalid);
    }
    var d := ParseUnsigned(env, s, next);
    if d.Err? || !neg {
      return d;
    }
    return Ok(-d.value);
  }
}
