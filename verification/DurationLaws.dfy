/**
 What the duration parser accepts and computes: exact sums for every grammatical text, the set of
 accepted texts, and the sum law for concatenation.
 */
module DurationLaws {
  import opened Chars
  import opened Duration

  // ---------- Scanning a concatenation ----------

  /** Text that can follow a unit: nothing, or a digit or dot. */
  predicate StartsTerm(s: string) { s == "" || s[0] == '.' || IsDigit(s[0]) }

  lemma SpanWhole(s: string, b: string, p: char -> bool)
    requires All(s, p) && (b == "" || !p(b[0]))
    ensures Span(s + b, p) == |s|
  {
    assert (s + b)[..|s|] == s;
    SpanIs(s + b, p, |s|);
  }

  // ---------- Terms ----------

  /** One term of a duration text. */
  datatype Term = Term(whole: string, dot: bool, frac: string, unit: string)

  /** A number, with a fraction or not, and a known unit. */
  predicate IsTerm(env: Env, t: Term) {
    && All(t.whole, IsDigit) && All(t.frac, IsDigit)
    && (t.frac != "" ==> t.dot)
    && (t.whole != "" || t.frac != "")
    && t.unit in env.units
  }

  function Point(t: Term): string { if t.dot then "." + t.frac else "" }

  function TermText(t: Term): string { t.whole + Point(t) + t.unit }

  function Extra(env: Env, t: Term): int
    requires IsTerm(env, t)
  {
    var f := FracOf(t.frac);
    if f.value > 0 then env.scaled(f.value, env.units[t.unit], Pow10(f.kept)) else 0
  }

  /** Its exact value: so many units, plus the fraction's share. */
  function TermValue(env: Env, t: Term): int
    requires IsTerm(env, t)
  {
    Val(t.whole) * env.units[t.unit] + Extra(env, t)
  }

  lemma WholePiece(w: string, a: string)
    requires All(w, IsDigit) && (a == "" || !IsDigit(a[0]))
    ensures Digits(w + a) == w && AfterDigits(w + a) == a
  {
    SpanWhole(w, a, IsDigit);
  }

  lemma PointPiece(t: Term, b: string)
    requires All(t.frac, IsDigit) && (t.frac != "" ==> t.dot) && b != "" && IsUnitChar(b[0])
    ensures var a := Point(t) + b; a[0] != '.' ==> IsUnitChar(a[0])
    ensures FracDigits(Point(t) + b) == t.frac && AfterFrac(Point(t) + b) == b
  {
    var a := Point(t) + b;
    if t.dot {
      assert a[1..] == t.frac + b;
      WholePiece(t.frac, b);
    } else {
      assert a == b;
    }
  }

  lemma UnitPiece(u: string, rest: string)
    requires All(u, IsUnitChar) && StartsTerm(rest)
    ensures UnitText(u + rest) == u && AfterUnit(u + rest) == rest
  {
    SpanWhole(u, rest, IsUnitChar);
  }

  lemma TermPieces(t: Term, rest: string, s: string, a: string, b: string)
    requires All(t.whole, IsDigit) && All(t.frac, IsDigit) && (t.frac != "" ==> t.dot)
    requires (t.whole != "" || t.frac != "") && t.unit != "" && All(t.unit, IsUnitChar) && StartsTerm(rest)
    requires b == t.unit + rest && a == Point(t) + b && s == t.whole + a
    ensures s != "" && (s[0] == '.' || IsDigit(s[0]))
    ensures Digits(s) == t.whole && AfterDigits(s) == a
    ensures FracDigits(a) == t.frac && AfterFrac(a) == b
    ensures UnitText(b) == t.unit && AfterUnit(b) == rest
  {
    assert b[0] == t.unit[0];
    UnitPiece(t.unit, rest);
    PointPiece(t, b);
    WholePiece(t.whole, a);
  }

  lemma ProductAtLeast(n: nat, unit: nat)
    requires unit > 0
    ensures n <= n * unit
  {}

  /** A well-formed term parses to its exact value, and fails exactly if that exceeds an int64. */
  lemma TermParses(env: Env, t: Term, rest: string, s: string)
    requires env.Valid() && IsTerm(env, t) && StartsTerm(rest) && s == TermText(t) + rest
    ensures ParseTerm(env, s) == (if TermValue(env, t) <= MAX then Ok((TermValue(env, t), rest)) else Err(Invalid))
    ensures TermValue(env, t) >= 0 && s != ""
  {
    var b := t.unit + rest;
    var a := Point(t) + b;
    assert t.unit != "" && All(t.unit, IsUnitChar);
    assert s == t.whole + a;
    TermPieces(t, rest, s, a, b);
    TermAmount(env, t);
    PiecesParse(env, t, rest, s, a, b);
  }

  lemma TermAmount(env: Env, t: Term)
    requires env.Valid() && IsTerm(env, t)
    ensures Amount(env, Val(t.whole), FracOf(t.frac), env.units[t.unit]) == Capped(TermValue(env, t))
    ensures 0 <= TermValue(env, t) && Val(t.whole) <= TermValue(env, t)
  {
    ProductAtLeast(Val(t.whole), env.units[t.unit]);
  }

  lemma PiecesParse(env: Env, t: Term, rest: string, s: string, a: string, b: string)
    requires env.Valid() && IsTerm(env, t) && s != "" && (s[0] == '.' || IsDigit(s[0]))
    requires Digits(s) == t.whole && AfterDigits(s) == a
    requires FracDigits(a) == t.frac && AfterFrac(a) == b
    requires UnitText(b) == t.unit && AfterUnit(b) == rest
    requires Amount(env, Val(t.whole), FracOf(t.frac), env.units[t.unit]) == Capped(TermValue(env, t))
    requires Val(t.whole) <= TermValue(env, t)
    ensures ParseTerm(env, s) == (if TermValue(env, t) <= MAX then Ok((TermValue(env, t), rest)) else Err(Invalid))
  {
    assert t.unit != "";
  }

  // ---------- Texts ----------

  predicate AreTerms(env: Env, ts: seq<Term>) { forall i :: 0 <= i < |ts| ==> IsTerm(env, ts[i]) }

  function Text(ts: seq<Term>): string {
    if ts == [] then "" else TermText(ts[0]) + Text(ts[1..])
  }

  function Sum(vs: seq<int>): int { if vs == [] then 0 else vs[0] + Sum(vs[1..]) }

  function Values(env: Env, ts: seq<Term>): seq<int>
    requires AreTerms(env, ts)
  {
    seq(|ts|, i requires 0 <= i < |ts| => TermValue(env, ts[i]))
  }

  function Total(env: Env, ts: seq<Term>): int
    requires AreTerms(env, ts)
  {
    Sum(Values(env, ts))
  }

  lemma TextStartsTerm(env: Env, ts: seq<Term>)
    requires env.Valid() && AreTerms(env, ts)
    ensures StartsTerm(Text(ts))
    ensures ts != [] ==> |Text(ts)| >= 2 && (Text(ts)[0] == '.' || IsDigit(Text(ts)[0]))
  {
    if ts != [] {
      var t := ts[0];
      assert t.unit != "";
      assert TermText(t)[0] == '.' || IsDigit(TermText(t)[0]);
      assert Text(ts)[0] == TermText(t)[0];
    }
  }

  function Capped(n: int): Result<int> { if n <= MAX then Ok(n) else Err(Invalid) }

  /** The parser reads value v off text s and goes on with `rest`, unless v does not fit. */
  ghost predicate ReadsOff(next: TermParser, s: string, v: int, rest: string) {
    s != "" && 0 <= v && next(s) == (if v <= MAX then Ok((v, rest)) else Err(Invalid))
  }

  /** Texts each of which is the one before without its first term, down to the empty text. */
  ghost predicate Chain(next: TermParser, texts: seq<string>, vs: seq<int>)
    requires |texts| == |vs| + 1
    decreases |vs|
  {
    if vs == [] then texts[0] == ""
    else ReadsOff(next, texts[0], vs[0], texts[1]) && Chain(next, texts[1..], vs[1..])
  }

  lemma {:induction false} ChainAddsUp(next: TermParser, texts: seq<string>, vs: seq<int>, d: int)
    requires Sound(next) && 0 <= d <= MAX && |texts| == |vs| + 1 && Chain(next, texts, vs)
    ensures Sum(vs) >= 0 && ParseFrom(next, texts[0], d) == Capped(d + Sum(vs))
    decreases |vs|
  {
    if vs != [] {
      ChainAddsUp(next, texts[1..], vs[1..], if d + vs[0] <= MAX then d + vs[0] else 0);
    }
  }

  function Tails(ts: seq<Term>): (r: seq<string>)
    ensures |r| == |ts| + 1 && r[0] == Text(ts)
  {
    if ts == [] then [""] else [Text(ts)] + Tails(ts[1..])
  }

  lemma FirstReadsOff(env: Env, next: TermParser, ts: seq<Term>)
    requires env.Valid() && IsParser(env, next) && AreTerms(env, ts) && ts != []
    ensures ReadsOff(next, Text(ts), TermValue(env, ts[0]), Text(ts[1..]))
  {
    TextStartsTerm(env, ts[1..]);
    TermParses(env, ts[0], Text(ts[1..]), Text(ts));
  }

  lemma {:induction false} TextIsChain(env: Env, next: TermParser, ts: seq<Term>)
    requires env.Valid() && IsParser(env, next) && AreTerms(env, ts)
    ensures Chain(next, Tails(ts), Values(env, ts))
    decreases |ts|
  {
    if ts != [] {
      FirstReadsOff(env, next, ts);
      TextIsChain(env, next, ts[1..]);
      assert Values(env, ts)[1..] == Values(env, ts[1..]);
      assert Tails(ts)[1..] == Tails(ts[1..]);
    }
  }

  lemma TextParses(env: Env, next: TermParser, ts: seq<Term>)
    requires env.Valid() && IsParser(env, next) && AreTerms(env, ts)
    ensures Total(env, ts) >= 0 && ParseFrom(next, Text(ts), 0) == Capped(Total(env, ts))
  {
    TextIsChain(env, next, ts);
    ChainParses(next, Tails(ts), Values(env, ts), Text(ts), Total(env, ts));
  }

  lemma ChainParses(next: TermParser, texts: seq<string>, vs: seq<int>, s: string, total: int)
    requires Sound(next) && |texts| == |vs| + 1 && Chain(next, texts, vs) && s == texts[0] && total == Sum(vs)
    ensures total >= 0 && ParseFrom(next, s, 0) == Capped(total)
  {
    ChainAddsUp(next, texts, vs, 0);
  }

  datatype Sign = NoSign | Plus | Minus

  function SignText(g: Sign): string { match g case NoSign => "" case Plus => "+" case Minus => "-" }

  /**
   Every grammatical text is worth sign times the sum of its terms, and is refused exactly if that
   sum exceeds 2^63 - 1, although the parser's own arithmetic wraps.
   */
  lemma GrammaticalTextParses(env: Env, g: Sign, ts: seq<Term>)
    requires env.Valid() && AreTerms(env, ts) && ts != []
    ensures Meaning(env, SignText(g) + Text(ts))
         == (if Total(env, ts) <= MAX then Ok(if g.Minus? then -Total(env, ts) else Total(env, ts)) else Err(Invalid))
  {
    SignedTextParses(env, ParserOf(env), g, ts);
  }

  lemma SignedTextParses(env: Env, next: TermParser, g: Sign, ts: seq<Term>)
    requires env.Valid() && IsParser(env, next) && AreTerms(env, ts) && ts != []
    ensures Parse(next, SignText(g) + Text(ts))
         == (if Total(env, ts) <= MAX then Ok(if g.Minus? then -Total(env, ts) else Total(env, ts)) else Err(Invalid))
  {
    TextStartsTerm(env, ts);
    TextParses(env, next, ts);
    SignedParse(next, g, Text(ts), Total(env, ts));
  }

  lemma SignIsRead(g: Sign, u: string)
    requires u != "" && (u[0] == '.' || IsDigit(u[0]))
    ensures var s := SignText(g) + u; s != "" && Unsigned(s) == u && (s[0] == '-' <==> g.Minus?)
  {
    match g
    case NoSign => assert "" + u == u;
    case Plus => assert ("+" + u)[1..] == u;
    case Minus => assert ("-" + u)[1..] == u;
  }

  lemma SignedParse(next: TermParser, g: Sign, u: string, total: int)
    requires Sound(next) && |u| >= 2 && (u[0] == '.' || IsDigit(u[0]))
    requires ParseFrom(next, u, 0) == Capped(total)
    ensures Parse(next, SignText(g) + u)
         == (if total <= MAX then Ok(if g.Minus? then -total else total) else Err(Invalid))
  {
    SignIsRead(g, u);
  }

  /** Without fractions every term is worth a whole number of units: no floating point is involved. */
  lemma WholeTermsAreExact(env: Env, ts: seq<Term>, i: nat)
    requires AreTerms(env, ts) && i < |ts| && !ts[i].dot
    ensures Values(env, ts)[i] == Val(ts[i].whole) * env.units[ts[i].unit]
  {
    assert ts[i].frac == "";
  }

  // ---------- Nothing else is accepted ----------

  lemma UnitRest(b: string)
    ensures StartsTerm(AfterUnit(b)) && b == UnitText(b) + AfterUnit(b)
  {
    SpanAll(b, IsUnitChar);
  }

  lemma DigitsSplit(s: string)
    ensures s == Digits(s) + AfterDigits(s)
  {}

  lemma FracRest(a: string, t: Term)
    requires t.dot == StartsWithDot(a) && t.frac == FracDigits(a)
    ensures a == Point(t) + AfterFrac(a)
  {
    if StartsWithDot(a) {
      DigitsSplit(a[1..]);
      assert a == "." + a[1..];
      JoinFirst(".", t.frac, AfterFrac(a), a[1..], a);
    }
  }

  lemma Regroup(w: string, p: string, u: string, r: string)
    ensures w + (p + (u + r)) == w + p + u + r
  {}

  /** A text is its first term's pieces and the rest, one after the other. */
  lemma PiecesMakeText(s: string, a: string, b: string, t: Term)
    requires a == AfterDigits(s) && b == AfterFrac(a)
    requires t == Term(Digits(s), StartsWithDot(a), FracDigits(a), UnitText(b))
    ensures s == TermText(t) + AfterUnit(b)
  {
    assert s == t.whole + a;
    FracRest(a, t);
    UnitRest(b);
    Regroup(t.whole, Point(t), t.unit, AfterUnit(b));
  }

  lemma AcceptedTerm(env: Env, s: string, rest: string) returns (t: Term)
    requires env.Valid() && ParseTerm(env, s).Ok? && rest == ParseTerm(env, s).value.1
    ensures IsTerm(env, t) && s == TermText(t) + rest
  {
    var a := AfterDigits(s);
    var b := AfterFrac(a);
    t := Term(Digits(s), StartsWithDot(a), FracDigits(a), UnitText(b));
    PiecesMakeText(s, a, b, t);
  }

  lemma RestAccepted(next: TermParser, s: string, d: int) returns (sum: int, rest: string)
    requires Sound(next) && 0 <= d <= MAX && s != "" && ParseFrom(next, s, d).Ok?
    ensures next(s).Ok? && rest == next(s).value.1 && |rest| < |s|
    ensures 0 <= sum <= MAX && ParseFrom(next, rest, sum).Ok?
  {
    sum, rest := d + next(s).value.0, next(s).value.1;
  }

  lemma FirstAccepted(env: Env, next: TermParser, s: string, d: int) returns (t: Term, sum: int, rest: string)
    requires env.Valid() && IsParser(env, next) && 0 <= d <= MAX && s != "" && ParseFrom(next, s, d).Ok?
    ensures IsTerm(env, t) && s == TermText(t) + rest && |rest| < |s|
    ensures 0 <= sum <= MAX && ParseFrom(next, rest, sum).Ok?
  {
    sum, rest := RestAccepted(next, s, d);
    t := AcceptedTerm(env, s, rest);
  }

  lemma {:induction false} AcceptedText(env: Env, next: TermParser, s: string, d: int) returns (ts: seq<Term>)
    requires env.Valid() && IsParser(env, next) && 0 <= d <= MAX && ParseFrom(next, s, d).Ok?
    ensures AreTerms(env, ts) && s == Text(ts)
    decreases |s|
  {
    if s == "" {
      ts := [];
    } else {
      var t, sum, rest := FirstAccepted(env, next, s, d);
      var tail := AcceptedText(env, next, rest, sum);
      ts := [t] + tail;
      assert ts[1..] == tail;
    }
  }

  /** The text is a bare zero with any sign. */
  ghost predicate IsZero(s: string) {
    exists g :: s == SignText(g) + "0"
  }

  /** The text is this sign and these terms, and worth x. */
  ghost predicate IsWorth(env: Env, s: string, g: Sign, ts: seq<Term>, x: int)
    requires env.Valid()
  {
    && ts != [] && AreTerms(env, ts) && s == SignText(g) + Text(ts)
    && Total(env, ts) <= MAX && x == (if g.Minus? then -Total(env, ts) else Total(env, ts))
  }

  /**
   A text is accepted with value x exactly if it is a bare zero and x is 0, or a sign and terms whose
   sum fits and x is the signed sum.
   */
  lemma AcceptedIff(env: Env, s: string, x: int)
    requires env.Valid()
    ensures Meaning(env, s) == Ok(x) <==> (IsZero(s) && x == 0) || exists g, ts :: IsWorth(env, s, g, ts, x)
  {
    if Meaning(env, s) == Ok(x) {
      if Unsigned(s) == "0" {
        ZeroIsZero(env, s);
      } else {
        var g, ts := AcceptedIsWorth(env, ParserOf(env), s, x);
      }
    }
    if IsZero(s) {
      ZeroIsZero(env, s);
    }
    forall g, ts | IsWorth(env, s, g, ts, x) ensures Meaning(env, s) == Ok(x) {
      GrammaticalTextParses(env, g, ts);
    }
  }

  lemma SignOf(s: string) returns (g: Sign)
    ensures s == SignText(g) + Unsigned(s) && (g.Minus? <==> s != "" && s[0] == '-')
  {
    if s != "" && s[0] == '-' {
      g := Minus;
      assert s == "-" + s[1..];
    } else if s != "" && s[0] == '+' {
      g := Plus;
      assert s == "+" + s[1..];
    } else {
      g := NoSign;
      assert s == "" + s;
    }
  }

  /** The bare zeros are the texts that are "0" without their sign, and worth nothing. */
  lemma ZeroIsZero(env: Env, s: string)
    requires env.Valid()
    ensures IsZero(s) <==> Unsigned(s) == "0"
    ensures IsZero(s) ==> Meaning(env, s) == Ok(0)
  {
    var g := SignOf(s);
    forall h: Sign ensures Unsigned(SignText(h) + "0") == "0" {
      SignIsRead(h, "0");
    }
  }

  lemma AcceptedIsWorth(env: Env, next: TermParser, s: string, x: int) returns (g: Sign, ts: seq<Term>)
    requires env.Valid() && IsParser(env, next) && Parse(next, s) == Ok(x) && Unsigned(s) != "0"
    ensures IsWorth(env, s, g, ts, x)
  {
    g := SignOf(s);
    ts := AcceptedText(env, next, Unsigned(s), 0);
    TextParses(env, next, ts);
  }

  // ---------- What the errors say ----------

  /** A number that fits, followed by a unit that is missing or not in the table. */
  predicate HasBadUnit(env: Env, t: Term, rest: string) {
    && All(t.whole, IsDigit) && All(t.frac, IsDigit) && (t.frac != "" ==> t.dot) && (t.whole != "" || t.frac != "")
    && Val(t.whole) <= MAX
    && All(t.unit, IsUnitChar) && t.unit !in env.units && StartsTerm(rest)
    && (t.unit == "" ==> rest == "" || (t.dot && rest[0] == '.'))
  }

  function UnitError(t: Term): Error { if t.unit == "" then MissingUnit else UnknownUnit }

  /** After good terms whose sum fits comes a number with a bad unit. */
  ghost predicate GoesWrong(env: Env, u: string, ts: seq<Term>, t: Term, rest: string)
    requires env.Valid()
  {
    && AreTerms(env, ts) && Total(env, ts) <= MAX && HasBadUnit(env, t, rest)
    && u == Text(ts) + (TermText(t) + rest)
  }

  lemma BadPieces(env: Env, t: Term, rest: string, s: string, a: string, b: string)
    requires env.Valid() && HasBadUnit(env, t, rest)
    requires b == t.unit + rest && a == Point(t) + b && s == t.whole + a
    ensures s != "" && (s[0] == '.' || IsDigit(s[0]))
    ensures Digits(s) == t.whole && AfterDigits(s) == a
    ensures FracDigits(a) == t.frac && AfterFrac(a) == b
    ensures UnitText(b) == t.unit
  {
    UnitPiece(t.unit, rest);
    BadPoint(t, b);
    WholePiece(t.whole, a);
  }

  lemma BadPoint(t: Term, b: string)
    requires All(t.frac, IsDigit) && (t.frac != "" ==> t.dot)
    requires b == "" || IsUnitChar(b[0]) || (t.dot && b[0] == '.')
    ensures var a := Point(t) + b; a == "" || !IsDigit(a[0])
    ensures FracDigits(Point(t) + b) == t.frac && AfterFrac(Point(t) + b) == b
  {
    var a := Point(t) + b;
    if t.dot {
      assert a[1..] == t.frac + b;
      WholePiece(t.frac, b);
    } else {
      assert a == b;
    }
  }

  lemma BadUnitFails(env: Env, t: Term, rest: string, s: string)
    requires env.Valid() && HasBadUnit(env, t, rest) && s == TermText(t) + rest
    ensures ParseTerm(env, s) == Err(UnitError(t)) && StartsTerm(s) && s != ""
  {
    var b := t.unit + rest;
    var a := Point(t) + b;
    Regroup(t.whole, Point(t), t.unit, rest);
    BadPieces(env, t, rest, s, a, b);
  }

  /** Conversely, a unit error of the first term is about such a number. */
  lemma FailedUnit(env: Env, s: string) returns (t: Term, rest: string)
    requires env.Valid() && ParseTerm(env, s).Err? && ParseTerm(env, s).error != Invalid
    ensures HasBadUnit(env, t, rest) && s == TermText(t) + rest && ParseTerm(env, s) == Err(UnitError(t))
  {
    var a := AfterDigits(s);
    var b := AfterFrac(a);
    t, rest := Term(Digits(s), StartsWithDot(a), FracDigits(a), UnitText(b)), AfterUnit(b);
    PiecesMakeText(s, a, b, t);
    SpanAll(b, IsUnitChar);
    SpanAll(s, IsDigit);
    if StartsWithDot(a) { SpanAll(a[1..], IsDigit); }
  }

  lemma OneRound(next: TermParser, s: string, v: int, rest: string, d: int)
    requires Sound(next) && s != "" && next(s) == Ok((v, rest)) && 0 <= d && d + v <= MAX
    ensures 0 <= v && ParseFrom(next, s, d) == ParseFrom(next, rest, d + v)
  {}

  lemma {:induction false} TotalNotNegative(env: Env, ts: seq<Term>)
    requires env.Valid() && AreTerms(env, ts)
    ensures Total(env, ts) >= 0
    ensures ts != [] ==> TermValue(env, ts[0]) >= 0 && Total(env, ts) == TermValue(env, ts[0]) + Total(env, ts[1..])
    decreases |ts|
  {
    if ts != [] {
      TotalNotNegative(env, ts[1..]);
      assert Values(env, ts)[1..] == Values(env, ts[1..]);
      TermAmount(env, ts[0]);
    }
  }

  lemma TotalSplits(env: Env, ts: seq<Term>, more: seq<Term>)
    requires env.Valid() && AreTerms(env, ts) && ts != [] && more == ts[1..]
    ensures AreTerms(env, more) && 0 <= TermValue(env, ts[0]) && 0 <= Total(env, more)
    ensures Total(env, ts) == TermValue(env, ts[0]) + Total(env, more)
  {
    TotalNotNegative(env, ts);
    TotalNotNegative(env, more);
  }

  /** Good terms are read off the front of a text, whatever follows. */
  lemma {:induction false} TermsThenRest(env: Env, next: TermParser, ts: seq<Term>, rest: string, s: string,
                                         d: int, sum: int)
    requires env.Valid() && IsParser(env, next) && AreTerms(env, ts) && StartsTerm(rest) && s == Text(ts) + rest
    requires 0 <= d && sum == d + Total(env, ts) <= MAX
    ensures d <= sum && ParseFrom(next, s, d) == ParseFrom(next, rest, sum)
    decreases |ts|
  {
    if ts == [] {
      assert s == rest;
    } else {
      var more, tail, mid := FirstOfTerms(env, next, ts, rest, s, d, sum);
      TermsThenRest(env, next, more, rest, tail, mid, sum);
    }
  }

  lemma FirstOfTerms(env: Env, next: TermParser, ts: seq<Term>, rest: string, s: string, d: int, sum: int)
    returns (more: seq<Term>, tail: string, mid: int)
    requires env.Valid() && IsParser(env, next) && AreTerms(env, ts) && StartsTerm(rest) && s == Text(ts) + rest
    requires ts != [] && 0 <= d && sum == d + Total(env, ts) <= MAX
    ensures |more| < |ts| && AreTerms(env, more) && tail == Text(more) + rest
    ensures d <= mid <= MAX && sum == mid + Total(env, more) && ParseFrom(next, s, d) == ParseFrom(next, tail, mid)
  {
    var v;
    more, tail, v := FirstIsRead(env, next, ts, rest, s);
    mid := d + v;
    OneRound(next, s, v, tail, d);
  }

  lemma FirstIsRead(env: Env, next: TermParser, ts: seq<Term>, rest: string, s: string)
    returns (more: seq<Term>, tail: string, v: int)
    requires env.Valid() && IsParser(env, next) && AreTerms(env, ts) && StartsTerm(rest) && s == Text(ts) + rest
    requires ts != [] && Total(env, ts) <= MAX
    ensures more == ts[1..] && AreTerms(env, more) && tail == Text(more) + rest
    ensures 0 <= Total(env, more) && Total(env, ts) == v + Total(env, more)
    ensures s != "" && next(s) == Ok((v, tail))
  {
    more, v := ts[1..], TermValue(env, ts[0]);
    TotalSplits(env, ts, more);
    tail := SplitFirst(env, ts, more, rest, s);
    TermParses(env, ts[0], tail, s);
  }

  lemma SplitFirst(env: Env, ts: seq<Term>, more: seq<Term>, rest: string, s: string) returns (tail: string)
    requires env.Valid() && AreTerms(env, ts) && ts != [] && more == ts[1..] && StartsTerm(rest) && s == Text(ts) + rest
    ensures tail == Text(more) + rest && s == TermText(ts[0]) + tail && StartsTerm(tail)
  {
    tail := Text(more) + rest;
    JoinFirst(TermText(ts[0]), Text(more), rest, tail, TermText(ts[0]) + tail);
    TextStartsTerm(env, more);
    TailStarts(Text(more), rest);
  }

  lemma TailStarts(a: string, b: string)
    requires StartsTerm(a) && StartsTerm(b)
    ensures StartsTerm(a + b)
  {}

  /** One term of a text that fails later on. */
  lemma NextOfFailing(env: Env, next: TermParser, s: string, d: int, e: Error)
    returns (t: Term, rest: string, sum: int)
    requires env.Valid() && IsParser(env, next) && 0 <= d <= MAX && s != ""
    requires ParseFrom(next, s, d) == Err(e) && e != Invalid && next(s).Ok?
    ensures IsTerm(env, t) && s == TermText(t) + rest && |rest| < |s|
    ensures d <= sum <= MAX && sum == d + TermValue(env, t) && ParseFrom(next, rest, sum) == Err(e)
  {
    var v := next(s).value.0;
    rest := next(s).value.1;
    assert ParseTerm(env, s) == next(s);
    sum := GoesOn(next, s, d, e, v, rest);
    t := AcceptedValue(env, s, rest, v);
  }

  lemma GoesOn(next: TermParser, s: string, d: int, e: Error, v: int, rest: string) returns (sum: int)
    requires Sound(next) && 0 <= d <= MAX && s != "" && next(s) == Ok((v, rest))
    requires ParseFrom(next, s, d) == Err(e) && e != Invalid
    ensures |rest| < |s| && sum == d + v && d <= sum <= MAX && ParseFrom(next, rest, sum) == Err(e)
  {
    sum := d + v;
  }

  lemma AcceptedValue(env: Env, s: string, rest: string, v: int) returns (t: Term)
    requires env.Valid() && ParseTerm(env, s) == Ok((v, rest))
    ensures IsTerm(env, t) && s == TermText(t) + rest && v == TermValue(env, t)
  {
    t := AcceptedTerm(env, s, rest);
    RestStartsTerm(env, s, rest);
    TermParses(env, t, rest, s);
  }

  lemma RestStartsTerm(env: Env, s: string, rest: string)
    requires env.Valid() && ParseTerm(env, s).Ok? && rest == ParseTerm(env, s).value.1
    ensures StartsTerm(rest)
  {
    UnitRest(AfterFrac(AfterDigits(s)));
  }

  lemma FailsHere(env: Env, next: TermParser, s: string, d: int, e: Error) returns (t: Term, rest: string)
    requires env.Valid() && IsParser(env, next) && 0 <= d <= MAX && s != "" && next(s).Err?
    requires ParseFrom(next, s, d) == Err(e) && e != Invalid
    ensures HasBadUnit(env, t, rest) && s == TermText(t) + rest && e == UnitError(t)
  {
    assert next(s) == ParseTerm(env, s);
    t, rest := FailedUnit(env, s);
  }

  lemma {:induction false} FailingText(env: Env, next: TermParser, s: string, d: int, e: Error)
    returns (ts: seq<Term>, t: Term, rest: string)
    requires env.Valid() && IsParser(env, next) && 0 <= d <= MAX && ParseFrom(next, s, d) == Err(e) && e != Invalid
    ensures AreTerms(env, ts) && d + Total(env, ts) <= MAX && HasBadUnit(env, t, rest)
    ensures s == Text(ts) + (TermText(t) + rest) && e == UnitError(t)
    decreases |s|
  {
    if next(s).Err? {
      ts := [];
      t, rest := FailsHere(env, next, s, d, e);
      NoTerms(env, s);
    } else {
      var t0, tail, sum := NextOfFailing(env, next, s, d, e);
      var more;
      more, t, rest := FailingText(env, next, tail, sum, e);
      ts := [t0] + more;
      OneTermMore(env, t0, more, ts);
      JoinFirst(TermText(t0), Text(more), TermText(t) + rest, tail, s);
    }
  }

  lemma NoTerms(env: Env, s: string)
    ensures AreTerms(env, []) && Total(env, []) == 0 && s == Text([]) + s
  {}

  lemma OneTermMore(env: Env, t: Term, more: seq<Term>, ts: seq<Term>)
    requires env.Valid() && IsTerm(env, t) && AreTerms(env, more) && ts == [t] + more
    ensures AreTerms(env, ts) && Total(env, ts) == TermValue(env, t) + Total(env, more)
    ensures Text(ts) == TermText(t) + Text(more)
  {
    assert ts[1..] == more;
    TotalNotNegative(env, ts);
  }

  lemma JoinFirst(first: string, more: string, bad: string, tail: string, s: string)
    requires s == first + tail && tail == more + bad
    ensures s == first + more + bad
  {}

  /**
   "Missing unit" and "unknown unit" are said exactly of texts in which, after good terms whose sum
   fits, a number comes without a unit or with one that is not in the table.  Any other text that is
   not accepted is invalid.
   */
  lemma UnitErrorIff(env: Env, s: string, e: Error)
    requires env.Valid() && e != Invalid
    ensures Meaning(env, s) == Err(e)
       <==> && !IsZero(s)
            && exists ts, t, rest :: GoesWrong(env, Unsigned(s), ts, t, rest) && e == UnitError(t)
  {
    var next, u := ParserOf(env), Unsigned(s);
    ZeroIsZero(env, s);
    if Meaning(env, s) == Err(e) {
      var ts, t, rest := FailingText(env, next, u, 0, e);
      assert GoesWrong(env, u, ts, t, rest);
    }
    if !IsZero(s) {
      forall ts, t, rest | GoesWrong(env, u, ts, t, rest) ensures Meaning(env, s) == Err(UnitError(t)) {
        WrongTextFails(env, next, u, ts, t, rest);
      }
    }
  }

  lemma WrongTextFails(env: Env, next: TermParser, u: string, ts: seq<Term>, t: Term, rest: string)
    requires env.Valid() && IsParser(env, next) && GoesWrong(env, u, ts, t, rest)
    ensures u != "" && ParseFrom(next, u, 0) == Err(UnitError(t))
  {
    var tail := TermText(t) + rest;
    BadUnitFails(env, t, rest, tail);
    TotalNotNegative(env, ts);
    TermsThenRest(env, next, ts, tail, u, 0, Total(env, ts));
    assert next(tail) == ParseTerm(env, tail);
  }

  // ---------- Concatenation ----------

  lemma {:induction false} TextConcat(a: seq<Term>, b: seq<Term>)
    ensures Text(a + b) == Text(a) + Text(b)
  {
    if a == [] {
      assert a + b == b;
    } else {
      assert (a + b)[1..] == a[1..] + b;
      TextConcat(a[1..], b);
    }
  }

  lemma {:induction false} SumConcat(a: seq<int>, b: seq<int>)
    ensures Sum(a + b) == Sum(a) + Sum(b)
  {
    if a == [] {
      assert a + b == b;
    } else {
      assert (a + b)[1..] == a[1..] + b;
      SumConcat(a[1..], b);
    }
  }

  lemma TotalConcat(env: Env, a: seq<Term>, b: seq<Term>)
    requires AreTerms(env, a) && AreTerms(env, b)
    ensures AreTerms(env, a + b) && Total(env, a + b) == Total(env, a) + Total(env, b)
  {
    assert Values(env, a + b) == Values(env, a) + Values(env, b);
    SumConcat(Values(env, a), Values(env, b));
  }

  /** An accepted text without a sign is a list of terms worth its value. */
  lemma UnsignedTerms(env: Env, next: TermParser, s: string, x: int) returns (ts: seq<Term>)
    requires env.Valid() && IsParser(env, next) && Parse(next, s) == Ok(x)
    requires s != "0" && Unsigned(s) == s
    ensures ts != [] && AreTerms(env, ts) && s == Text(ts) && x == Total(env, ts)
  {
    ts := AcceptedText(env, next, s, 0);
    TextParses(env, next, ts);
    TextStartsTerm(env, ts);
  }

  lemma TermsParse(env: Env, next: TermParser, ts: seq<Term>, s: string, r: Result<int>)
    requires env.Valid() && IsParser(env, next) && AreTerms(env, ts) && ts != [] && s == Text(ts)
    requires r == Parse(next, s)
    ensures r == Capped(Total(env, ts))
  {
    assert SignText(NoSign) + Text(ts) == s;
    SignedTextParses(env, next, NoSign, ts);
  }

  /** Two accepted unsigned texts one after the other are worth the sum, if it fits. */
  lemma ConcatenationAdds(env: Env, a: string, b: string, x: int, y: int)
    requires env.Valid() && Unsigned(a) == a && Unsigned(b) == b && a != "0" && b != "0"
    requires Meaning(env, a) == Ok(x) && Meaning(env, b) == Ok(y)
    ensures Meaning(env, a + b) == Capped(x + y)
  {
    ParserAdds(env, ParserOf(env), a, b, x, y);
  }

  lemma ParserAdds(env: Env, next: TermParser, a: string, b: string, x: int, y: int)
    requires env.Valid() && IsParser(env, next)
    requires Unsigned(a) == a && Unsigned(b) == b && a != "0" && b != "0"
    requires Parse(next, a) == Ok(x) && Parse(next, b) == Ok(y)
    ensures Parse(next, a + b) == Capped(x + y)
  {
    var ta := UnsignedTerms(env, next, a, x);
    var tb := UnsignedTerms(env, next, b, y);
    ConcatenatedTerms(env, next, ta, tb, a + b, Parse(next, a + b));
  }

  lemma ConcatenatedTerms(env: Env, next: TermParser, ta: seq<Term>, tb: seq<Term>, s: string, r: Result<int>)
    requires env.Valid() && IsParser(env, next) && AreTerms(env, ta) && AreTerms(env, tb) && ta != []
    requires s == Text(ta) + Text(tb) && r == Parse(next, s)
    ensures r == Capped(Total(env, ta) + Total(env, tb))
  {
    TextConcat(ta, tb);
    TotalConcat(env, ta, tb);
    TermsParse(env, next, ta + tb, s, r);
  }
}
