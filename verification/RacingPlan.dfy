/**
 The plan of attempts of `connect` in api/client/client.go: what the spawner does for a config, how
 often and in which order.
 */
module RacingPlan {
  import opened RacingDial

  datatype SshConfig = SshReady | SshUnsupported | SshBroken

  datatype DialerOf = OwnDialer | DialerUnsupported | DialerBroken

  datatype Creds = Creds(tlsReady: bool, ssh: SshConfig, dialer: DialerOf)

  datatype Config = Config(creds: seq<Creds>, hasDialer: bool, addrs: seq<string>)

  /** The credentials yield a TLS config, and an SSH config unless they do not support one. */
  predicate Usable(c: Creds) {
    c.tlsReady && !c.ssh.SshBroken?
  }

  function WaysIn(n: nat, ssh: bool, addr: string): seq<Attempt> {
    if ssh then [Dial(Auth(n, addr)), Dial(Proxy(n, addr)), Dial(Tunnel(n, addr)), Dial(TlsRouting(n, addr))]
    else [Dial(Auth(n, addr))]
  }

  function AddrAttempts(n: nat, ssh: bool, addrs: seq<string>): seq<Attempt> {
    if addrs == [] then []
    else AddrAttempts(n, ssh, addrs[..|addrs| - 1]) + WaysIn(n, ssh, addrs[|addrs| - 1])
  }

  function DialerAttempts(cfg: Config, n: nat): seq<Attempt>
    requires n < |cfg.creds|
  {
    (if cfg.hasDialer then [Dial(ConfigDialer(n))] else [])
    + (match cfg.creds[n].dialer
       case OwnDialer => [Dial(CredsDialer(n))]
       case DialerUnsupported => []
       case DialerBroken => [Report])
  }

  function CredsAttempts(cfg: Config, n: nat): seq<Attempt>
    requires n < |cfg.creds|
  {
    if !Usable(cfg.creds[n]) then [Report]
    else DialerAttempts(cfg, n) + AddrAttempts(n, cfg.creds[n].ssh.SshReady?, cfg.addrs)
  }

  function Flatten(parts: seq<seq<Attempt>>): seq<Attempt> {
    if parts == [] then [] else Flatten(parts[..|parts| - 1]) + parts[|parts| - 1]
  }

  function PlanParts(cfg: Config): seq<seq<Attempt>> {
    seq(|cfg.creds|, n requires 0 <= n < |cfg.creds| => CredsAttempts(cfg, n))
  }

  function JobOf(cfg: Config): Job {
    Job(Flatten(PlanParts(cfg)), cfg.hasDialer || cfg.addrs != [])
  }

  /** One round of the spawner's outer loop: what it does for one set of credentials. */
  method SpawnFor(cfg: Config, n: nat) returns (plan: seq<Attempt>)
    requires n < |cfg.creds|
    ensures plan == CredsAttempts(cfg, n)
  {
    var c := cfg.creds[n];
    if !c.tlsReady {
      return [Report];
    }
    if c.ssh.SshBroken? {
      return [Report];
    }
    plan := [];
    if cfg.hasDialer {
      plan := plan + [Dial(ConfigDialer(n))];
    }
    match c.dialer {
      case DialerBroken => plan := plan + [Report];
      case DialerUnsupported =>
      case OwnDialer => plan := plan + [Dial(CredsDialer(n))];
    }
    assert plan == DialerAttempts(cfg, n);
    var more := SpawnAddrs(n, c.ssh.SshReady?, cfg.addrs);
    plan := plan + more;
  }

  /** The loop over the addresses, for one set of credentials. */
  method SpawnAddrs(n: nat, ssh: bool, addrs: seq<string>) returns (plan: seq<Attempt>)
    ensures plan == AddrAttempts(n, ssh, addrs)
  {
    plan := [];
    for a := 0 to |addrs|
      invariant plan == AddrAttempts(n, ssh, addrs[..a])
    {
      assert addrs[..a + 1][..a] == addrs[..a];
      plan := plan + [Dial(Auth(n, addrs[a]))];
      if ssh {
        plan := plan + [Dial(Proxy(n, addrs[a])), Dial(Tunnel(n, addrs[a])), Dial(TlsRouting(n, addrs[a]))];
      }
    }
    assert addrs[..|addrs|] == addrs;
  }

  /** The spawner: its workers and errors in the order in which it starts and sends them. */
  method Spawn(cfg: Config) returns (plan: seq<Attempt>)
    ensures plan == JobOf(cfg).plan
  {
    plan := [];
    for n := 0 to |cfg.creds|
      invariant plan == Flatten(PlanParts(cfg)[..n])
    {
      var more := SpawnFor(cfg, n);
      plan := plan + more;
      assert PlanParts(cfg)[..n + 1][..n] == PlanParts(cfg)[..n];
    }
    assert PlanParts(cfg)[..|cfg.creds|] == PlanParts(cfg);
  }

  // ---------- What the plan holds ----------

  /** The credentials have no TLS config, a broken SSH config or a broken dialer. */
  predicate ReportsError(c: Creds) {
    !c.tlsReady || c.ssh.SshBroken? || c.dialer.DialerBroken?
  }

  /** How often a config asks for a route: once per dialer, and once per occurrence of its address. */
  function Times(cfg: Config, r: Route): nat {
    if r.creds >= |cfg.creds| || !cfg.creds[r.creds].tlsReady || cfg.creds[r.creds].ssh.SshBroken? then 0
    else
      var c := cfg.creds[r.creds];
      match r
      case ConfigDialer(_) => if cfg.hasDialer then 1 else 0
      case CredsDialer(_) => if c.dialer.OwnDialer? then 1 else 0
      case Auth(_, a) => Count(cfg.addrs, a)
      case _ => if c.ssh.SshReady? then Count(cfg.addrs, r.addr) else 0
  }

  /** How often x occurs. */
  function Count<T(==)>(xs: seq<T>, x: T): nat {
    if xs == [] then 0 else Count(xs[..|xs| - 1], x) + if xs[|xs| - 1] == x then 1 else 0
  }

  lemma {:induction false} CountConcat<T>(xs: seq<T>, ys: seq<T>, x: T)
    ensures Count(xs + ys, x) == Count(xs, x) + Count(ys, x)
  {
    if ys == [] {
      assert xs + ys == xs;
    } else {
      assert (xs + ys)[..|xs + ys| - 1] == xs + ys[..|ys| - 1];
      CountConcat(xs, ys[..|ys| - 1], x);
    }
  }

  lemma {:induction false} CountIn<T>(xs: seq<T>, x: T)
    ensures x in xs <==> Count(xs, x) > 0
  {
    if xs != [] {
      CountIn(xs[..|xs| - 1], x);
      assert xs == xs[..|xs| - 1] + [xs[|xs| - 1]];
    }
  }

  lemma CountOne<T>(y: T, x: T)
    ensures Count([y], x) == if x == y then 1 else 0
  {
    assert [y][..0] == [];
  }

  /** The address that a route goes to, with these credentials; dialers go to none. */
  predicate GoesTo(r: Route, n: nat, ssh: bool, addr: string) {
    match r
    case ConfigDialer(_) => false
    case CredsDialer(_) => false
    case Auth(k, a) => k == n && a == addr
    case _ => r.creds == n && r.addr == addr && ssh
  }

  lemma CountWaysIn(n: nat, ssh: bool, addr: string, x: Attempt)
    ensures Count(WaysIn(n, ssh, addr), x) == if x.Dial? && GoesTo(x.via, n, ssh, addr) then 1 else 0
  {
    var ways := WaysIn(n, ssh, addr);
    if ssh {
      assert ways == [ways[0]] + ([ways[1]] + ([ways[2]] + [ways[3]]));
      CountConcat([ways[0]], [ways[1]] + ([ways[2]] + [ways[3]]), x);
      CountConcat([ways[1]], [ways[2]] + [ways[3]], x);
      CountConcat([ways[2]], [ways[3]], x);
      CountOne(ways[1], x);
      CountOne(ways[2], x);
      CountOne(ways[3], x);
    }
    CountOne(ways[0], x);
  }

  lemma {:induction false} CountAddrs(n: nat, ssh: bool, addrs: seq<string>, x: Attempt)
    ensures Count(AddrAttempts(n, ssh, addrs), x)
         == if x.Dial? && !x.via.ConfigDialer? && !x.via.CredsDialer? && GoesTo(x.via, n, ssh, x.via.addr)
            then Count(addrs, x.via.addr) else 0
  {
    if addrs != [] {
      var front, last := addrs[..|addrs| - 1], addrs[|addrs| - 1];
      CountAddrs(n, ssh, front, x);
      CountWaysIn(n, ssh, last, x);
      CountConcat(AddrAttempts(n, ssh, front), WaysIn(n, ssh, last), x);
    }
  }

  lemma CountDialers(cfg: Config, n: nat, x: Attempt)
    requires n < |cfg.creds|
    ensures Count(DialerAttempts(cfg, n), x)
         == (if cfg.hasDialer && x == Dial(ConfigDialer(n)) then 1 else 0)
          + (if cfg.creds[n].dialer.OwnDialer? && x == Dial(CredsDialer(n)) then 1 else 0)
          + (if cfg.creds[n].dialer.DialerBroken? && x == Report then 1 else 0)
  {
    var first, second := DialerParts(cfg, n);
    CountConcat(first, second, x);
    if first != [] { CountOne(first[0], x); }
    if second != [] { CountOne(second[0], x); }
  }

  lemma DialerParts(cfg: Config, n: nat) returns (first: seq<Attempt>, second: seq<Attempt>)
    requires n < |cfg.creds|
    ensures DialerAttempts(cfg, n) == first + second
    ensures first == if cfg.hasDialer then [Dial(ConfigDialer(n))] else []
    ensures second == match cfg.creds[n].dialer
                      case OwnDialer => [Dial(CredsDialer(n))]
                      case DialerUnsupported => []
                      case DialerBroken => [Report]
  {
    first := if cfg.hasDialer then [Dial(ConfigDialer(n))] else [];
    second := DialerAttempts(cfg, n)[|first|..];
  }

  lemma CountCreds(cfg: Config, n: nat, x: Attempt)
    requires n < |cfg.creds|
    ensures Count(CredsAttempts(cfg, n), x)
         == if x.Dial? then (if x.via.creds == n then Times(cfg, x.via) else 0)
            else if ReportsError(cfg.creds[n]) then 1 else 0
  {
    var ssh := cfg.creds[n].ssh.SshReady?;
    if !Usable(cfg.creds[n]) {
      CountOne(Report, x);
    } else {
      CountDialers(cfg, n, x);
      CountAddrs(n, ssh, cfg.addrs, x);
      CountConcat(DialerAttempts(cfg, n), AddrAttempts(n, ssh, cfg.addrs), x);
    }
  }

  /** How many of the first n credentials have an error to report. */
  function Broken(cfg: Config, n: nat): nat
    requires n <= |cfg.creds|
  {
    if n == 0 then 0 else Broken(cfg, n - 1) + if ReportsError(cfg.creds[n - 1]) then 1 else 0
  }

  lemma FlattenSnoc(cfg: Config, n: nat)
    requires 0 < n <= |cfg.creds|
    ensures Flatten(PlanParts(cfg)[..n]) == Flatten(PlanParts(cfg)[..n - 1]) + CredsAttempts(cfg, n - 1)
  {
    assert PlanParts(cfg)[..n][..n - 1] == PlanParts(cfg)[..n - 1];
  }

  lemma {:induction false} CountParts(cfg: Config, n: nat, x: Attempt)
    requires n <= |cfg.creds|
    ensures Count(Flatten(PlanParts(cfg)[..n]), x)
         == if x.Dial? then (if x.via.creds < n then Times(cfg, x.via) else 0) else Broken(cfg, n)
  {
    if n > 0 {
      CountParts(cfg, n - 1, x);
      CountCreds(cfg, n - 1, x);
      FlattenSnoc(cfg, n);
      CountConcat(Flatten(PlanParts(cfg)[..n - 1]), CredsAttempts(cfg, n - 1), x);
    }
  }

  /** Every route is dialled exactly as often as the config asks; one error for each broken credential. */
  lemma PlanCounts(cfg: Config, r: Route)
    ensures Count(JobOf(cfg).plan, Dial(r)) == Times(cfg, r)
    ensures Count(JobOf(cfg).plan, Report) == Broken(cfg, |cfg.creds|)
  {
    CountParts(cfg, |cfg.creds|, Dial(r));
    CountParts(cfg, |cfg.creds|, Report);
    assert PlanParts(cfg)[..|cfg.creds|] == PlanParts(cfg);
  }

  /** So a route is tried if and only if the config asks for it. */
  lemma PlanCovers(cfg: Config, r: Route)
    ensures Dial(r) in JobOf(cfg).plan <==> Times(cfg, r) > 0
  {
    PlanCounts(cfg, r);
    CountIn(JobOf(cfg).plan, Dial(r));
  }

  // ---------- In which order ----------

  /** How many attempts an address takes, and which is the j-th of them. */
  function Width(ssh: bool): nat { if ssh then 4 else 1 }

  function WayIn(n: nat, addr: string, j: nat): Attempt
    requires j < 4
  {
    match j
    case 0 => Dial(Auth(n, addr))
    case 1 => Dial(Proxy(n, addr))
    case 2 => Dial(Tunnel(n, addr))
    case _ => Dial(TlsRouting(n, addr))
  }

  lemma {:induction false} AddrOrder(n: nat, ssh: bool, addrs: seq<string>, a: nat, j: nat)
    requires a < |addrs| && j < Width(ssh)
    ensures |AddrAttempts(n, ssh, addrs)| == Width(ssh) * |addrs| && Width(ssh) * a + j < Width(ssh) * |addrs|
    ensures AddrAttempts(n, ssh, addrs)[Width(ssh) * a + j] == WayIn(n, addrs[a], j)
  {
    var front := addrs[..|addrs| - 1];
    if a < |front| {
      AddrOrder(n, ssh, front, a, j);
    } else if front != [] {
      AddrOrder(n, ssh, front, 0, 0);
    }
  }

  lemma AddrLength(n: nat, ssh: bool, addrs: seq<string>)
    ensures |AddrAttempts(n, ssh, addrs)| == Width(ssh) * |addrs|
  {
    if addrs != [] { AddrOrder(n, ssh, addrs, 0, 0); }
  }

  /** How many attempts come before the addresses of usable credentials n, and how many there are in all. */
  function DialersOf(cfg: Config, n: nat): nat
    requires n < |cfg.creds|
  {
    (if cfg.hasDialer then 1 else 0) + (if cfg.creds[n].dialer.DialerUnsupported? then 0 else 1)
  }

  function LengthOf(cfg: Config, n: nat): nat
    requires n < |cfg.creds|
  {
    var c := cfg.creds[n];
    if !c.tlsReady || c.ssh.SshBroken? then 1 else DialersOf(cfg, n) + Width(c.ssh.SshReady?) * |cfg.addrs|
  }

  /** Where the attempts with credentials n begin. */
  function OffsetOf(cfg: Config, n: nat): nat
    requires n <= |cfg.creds|
  {
    if n == 0 then 0 else OffsetOf(cfg, n - 1) + LengthOf(cfg, n - 1)
  }

  lemma CredsLength(cfg: Config, n: nat)
    requires n < |cfg.creds|
    ensures |CredsAttempts(cfg, n)| == LengthOf(cfg, n)
  {
    AddrLength(n, cfg.creds[n].ssh.SshReady?, cfg.addrs);
  }

  lemma {:induction false} FlattenLength(cfg: Config, m: nat)
    requires m <= |cfg.creds|
    ensures |Flatten(PlanParts(cfg)[..m])| == OffsetOf(cfg, m)
  {
    if m > 0 {
      FlattenSnoc(cfg, m);
      CredsLength(cfg, m - 1);
      FlattenLength(cfg, m - 1);
    }
  }

  /** Each part stands in the whole right after the parts before it. */
  lemma {:induction false} FlattenSlice(parts: seq<seq<Attempt>>, n: nat)
    requires n < |parts|
    ensures var at := |Flatten(parts[..n])|;
      at + |parts[n]| <= |Flatten(parts)| && Flatten(parts)[at..at + |parts[n]|] == parts[n]
    decreases |parts|
  {
    var m := |parts| - 1;
    var front, last := parts[..m], parts[m];
    if n < m {
      FlattenSlice(front, n);
      assert front[..n] == parts[..n];
      var at := |Flatten(parts[..n])|;
      SliceOfFront(Flatten(front), last, at, at + |parts[n]|);
    } else {
      SliceOfLast(Flatten(front), last);
    }
  }

  lemma SliceOfFront(xs: seq<Attempt>, ys: seq<Attempt>, i: nat, j: nat)
    requires i <= j <= |xs|
    ensures (xs + ys)[i..j] == xs[i..j]
  {}

  lemma SliceOfLast(xs: seq<Attempt>, ys: seq<Attempt>)
    ensures (xs + ys)[|xs|..|xs| + |ys|] == ys
  {}

  /** The part of the plan that is about credentials n. */
  function PartOf(cfg: Config, n: nat): seq<Attempt>
    requires n < |cfg.creds| && OffsetOf(cfg, n) + LengthOf(cfg, n) <= |JobOf(cfg).plan|
  {
    JobOf(cfg).plan[OffsetOf(cfg, n)..OffsetOf(cfg, n) + LengthOf(cfg, n)]
  }

  /** The plan is its parts, one after the other and nothing else. */
  lemma PlanIsParts(cfg: Config, n: nat)
    requires n < |cfg.creds|
    ensures |JobOf(cfg).plan| == OffsetOf(cfg, |cfg.creds|)
    ensures OffsetOf(cfg, n) + LengthOf(cfg, n) <= |JobOf(cfg).plan| && PartOf(cfg, n) == PlanParts(cfg)[n]
  {
    PartBounds(cfg, n);
    SliceIs(JobOf(cfg).plan, PlanParts(cfg), n, OffsetOf(cfg, n), OffsetOf(cfg, n) + LengthOf(cfg, n));
  }

  lemma SliceIs(plan: seq<Attempt>, parts: seq<seq<Attempt>>, n: nat, lo: nat, hi: nat)
    requires plan == Flatten(parts) && n < |parts| && lo == |Flatten(parts[..n])| && hi == lo + |parts[n]|
    ensures hi <= |plan| && plan[lo..hi] == parts[n]
  {
    FlattenSlice(parts, n);
  }

  lemma PartBounds(cfg: Config, n: nat)
    requires n < |cfg.creds|
    ensures |JobOf(cfg).plan| == OffsetOf(cfg, |cfg.creds|)
    ensures |Flatten(PlanParts(cfg)[..n])| == OffsetOf(cfg, n) && |PlanParts(cfg)[n]| == LengthOf(cfg, n)
  {
    assert PlanParts(cfg)[..|cfg.creds|] == PlanParts(cfg);
    FlattenLength(cfg, |cfg.creds|);
    FlattenLength(cfg, n);
    CredsLength(cfg, n);
  }

  /**
   Credentials come one after the other.  Unusable ones give one error.  With others the config's
   dialer comes first, then their own or its error.
   */
  lemma PlanInOrder(cfg: Config, n: nat)
    requires n < |cfg.creds|
    ensures |JobOf(cfg).plan| == OffsetOf(cfg, |cfg.creds|)
    ensures OffsetOf(cfg, n) + LengthOf(cfg, n) <= |JobOf(cfg).plan|
    ensures var c, part := cfg.creds[n], PartOf(cfg, n);
      if !c.tlsReady || c.ssh.SshBroken? then part == [Report]
      else
        && (cfg.hasDialer ==> part[0] == Dial(ConfigDialer(n)))
        && (c.dialer.OwnDialer? ==> part[DialersOf(cfg, n) - 1] == Dial(CredsDialer(n)))
        && (c.dialer.DialerBroken? ==> part[DialersOf(cfg, n) - 1] == Report)
  {
    PlanIsParts(cfg, n);
    CredsLength(cfg, n);
    var first, second := DialerParts(cfg, n);
  }

  /**
   Then, for each address in turn, comes the direct dial and, with an SSH config, the proxy, tunnel
   and TLS-routing dials.
   */
  lemma AddressesInOrder(cfg: Config, n: nat, ssh: bool, a: nat, j: nat, i: nat)
    requires n < |cfg.creds| && cfg.creds[n].tlsReady && !cfg.creds[n].ssh.SshBroken?
    requires ssh == cfg.creds[n].ssh.SshReady? && a < |cfg.addrs| && j < Width(ssh) && i == Width(ssh) * a + j
    ensures OffsetOf(cfg, n) + LengthOf(cfg, n) <= |JobOf(cfg).plan|
    ensures DialersOf(cfg, n) + i < LengthOf(cfg, n)
    ensures PartOf(cfg, n)[DialersOf(cfg, n) + i] == WayIn(n, cfg.addrs[a], j)
  {
    PlanIsParts(cfg, n);
    var dialers, addrs := UsablePart(cfg, n, ssh);
    AddrOrder(n, ssh, cfg.addrs, a, j);
    assert addrs[i] == WayIn(n, cfg.addrs[a], j);
    IndexAfter(dialers, addrs, i);
  }

  lemma UsablePart(cfg: Config, n: nat, ssh: bool) returns (dialers: seq<Attempt>, addrs: seq<Attempt>)
    requires n < |cfg.creds| && Usable(cfg.creds[n]) && ssh == cfg.creds[n].ssh.SshReady?
    ensures PlanParts(cfg)[n] == dialers + addrs && addrs == AddrAttempts(n, ssh, cfg.addrs)
    ensures |dialers| == DialersOf(cfg, n) && LengthOf(cfg, n) == |dialers| + |addrs|
  {
    dialers, addrs := DialerAttempts(cfg, n), AddrAttempts(n, ssh, cfg.addrs);
    var first, second := DialerParts(cfg, n);
    AddrLength(n, ssh, cfg.addrs);
  }

  lemma IndexAfter(xs: seq<Attempt>, ys: seq<Attempt>, i: nat)
    requires i < |ys|
    ensures (xs + ys)[|xs| + i] == ys[i]
  {}

  /** The last branch in terms of the config: it has targets and every set of credentials is in order. */
  lemma NoMethodsForConfigIff(cfg: Config)
    ensures (exists steps, s :: Reachable(JobOf(cfg), steps, s) && s.main == Returned(NoMethods))
        <==> && (cfg.hasDialer || cfg.addrs != [])
             && (forall i :: 0 <= i < |cfg.creds| ==> !ReportsError(cfg.creds[i]))
  {
    NoMethodsReachedIff(JobOf(cfg));
    OnlyBrokenCredsReport(cfg);
  }

  lemma {:induction false} BrokenIff(cfg: Config, n: nat)
    requires n <= |cfg.creds|
    ensures Broken(cfg, n) == 0 <==> forall i :: 0 <= i < n ==> !ReportsError(cfg.creds[i])
  {
    if n > 0 { BrokenIff(cfg, n - 1); }
  }

  /** The spawner itself reports an error exactly when some credentials are broken. */
  lemma OnlyBrokenCredsReport(cfg: Config)
    ensures OnlyDials(JobOf(cfg).plan) <==> forall i :: 0 <= i < |cfg.creds| ==> !ReportsError(cfg.creds[i])
  {
    var plan := JobOf(cfg).plan;
    PlanCounts(cfg, ConfigDialer(0));
    BrokenIff(cfg, |cfg.creds|);
    CountIn(plan, Report);
    if Report !in plan {
      forall i | 0 <= i < |plan| ensures plan[i].Dial? {
        assert plan[i] in plan;
      }
    }
  }
}
