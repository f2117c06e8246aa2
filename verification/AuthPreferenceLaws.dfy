/** What the authentication preference check guarantees. */
module AuthPreferenceLaws {
  import opened Options
  import opened AuthPreference

  // ---------- When the check passes ----------

  /** The factor asks for WebAuthn, "u2f" being its old name. */
  predicate WantsWebauthn(f: SecondFactor) {
    f == U2fFactor || f == WebauthnFactor || f == On || f == Optional
  }

  function RpidOf(p: Pref): string {
    if p.webauthn.Some? then p.webauthn.value.rpid else ""
  }

  predicate CertsOf(env: Env, p: Pref) {
    p.webauthn.Some? ==> AllCerts(env, p.webauthn.value.allowedCAs) && AllCerts(env, p.webauthn.value.deniedCAs)
  }

  /** An explicit relying party id must parse; otherwise the U2F application id must give one. */
  predicate RpidAvailable(env: Env, p: Pref) {
    if RpidOf(p) != "" then env.parse(RpidOf(p)).Some?
    else
      && p.spec.u2f.Some?
      && var url := env.parse(p.spec.u2f.value.appId);
      url.Some? && (url.value.host != "" || url.value.path == p.spec.u2f.value.appId)
  }

  predicate U2fOf(env: Env, p: Pref) {
    p.spec.u2f.Some? ==> p.spec.u2f.value.appId != "" && AllCerts(env, p.spec.u2f.value.deviceCAs)
  }

  /** Passwordless logins may be switched on only where WebAuthn is, and are by default. */
  predicate PasswordlessOf(p: Pref) {
    && (IsTrue(p.spec.allowPasswordless) ==> WantsWebauthn(p.spec.secondFactor))
    && ((p.spec.authType == Local || p.spec.authType == TypeUnset) ==>
          && !p.spec.connector.OtherConnector?
          && (p.spec.connector == PasswordlessConnector ==>
                && (p.spec.allowPasswordless.None? || p.spec.allowPasswordless.value)
                && WantsWebauthn(p.spec.secondFactor)))
  }

  /** The ASCII codes of letters, digits and the characters * - . / : and _. */
  predicate IsLabelCode(n: int) {
    n == 42 || 45 <= n <= 58 || 65 <= n <= 90 || n == 95 || 97 <= n <= 122
  }

  predicate LabelsOf(p: Pref) {
    forall key | key in p.metadata.labels :: key != "" && forall i | 0 <= i < |key| :: IsLabelCode(key[i] as int)
  }

  predicate OriginOf(p: Pref) {
    var labels := p.metadata.labels;
    "teleport.dev/origin" in labels ==>
      labels["teleport.dev/origin"] in {"", "defaults", "config-file", "dynamic", "cloud", "kubernetes"}
  }

  lemma LabelCodes(c: char)
    ensures LabelChar(c) <==> IsLabelCode(c as int)
  {
  }

  lemma LabelsPass(p: Pref)
    ensures ValidLabels(p.metadata.labels) <==> LabelsOf(p)
  {
    forall c: char ensures LabelChar(c) <==> IsLabelCode(c as int) {
      LabelCodes(c);
    }
  }

  lemma OriginPasses(p: Pref)
    ensures ValidOrigin(Origin(p.metadata.labels)) <==> OriginOf(p)
  {
  }

  function HeaderFault(p: Pref): Option<Error> {
    if !LabelsOf(p) then Some(InvalidLabelKey) else if !OriginOf(p) then Some(InvalidOrigin) else None
  }

  /** The header gets its name before it is checked, so only labels and origin can be wrong with it. */
  lemma MetadataPasses(p: Pref, m: Metadata)
    requires m == MetadataDefaulted(p.metadata.(name := NAME))
    ensures MetadataError(m) == HeaderFault(p)
  {
    LabelsPass(p);
    OriginPasses(p);
  }

  /** What a configuration must satisfy, with no mention of order or of defaults being set. */
  predicate Acceptable(env: Env, p: Pref) {
    && LabelsOf(p) && OriginOf(p)
    && !p.spec.authType.OtherType? && !p.spec.secondFactor.OtherFactor? && !p.spec.lockingMode.OtherMode?
    && PasswordlessOf(p)
    && (WantsWebauthn(p.spec.secondFactor) ==> U2fOf(env, p) && RpidAvailable(env, p) && CertsOf(env, p))
  }

  lemma FactorPasses(env: Env, p: Pref)
    ensures FactorChecked(env, p.webauthn, p.spec.u2f).1.None?
       <==> U2fOf(env, p) && RpidAvailable(env, p) && CertsOf(env, p)
  {
  }

  lemma LatePasses(p: Pref)
    requires !p.spec.authType.OtherType? && !p.spec.secondFactor.OtherFactor?
    ensures LateError(Reconciled(Defaulted(MfaSynced(p.spec)))).None?
       <==> !p.spec.lockingMode.OtherMode? && PasswordlessOf(p)
  {
  }

  lemma SecondFactorPasses(env: Env, p: Pref, s: Spec)
    requires s == Reconciled(Defaulted(MfaSynced(p.spec)))
    ensures SecondFactorChecked(env, s, p.webauthn).1.None?
       <==> && !p.spec.secondFactor.OtherFactor?
            && (WantsWebauthn(p.spec.secondFactor) ==> U2fOf(env, p) && RpidAvailable(env, p) && CertsOf(env, p))
  {
    FactorPasses(env, p);
  }

  lemma SpecPasses(env: Env, p: Pref)
    ensures SpecChecked(env, Defaulted(MfaSynced(p.spec)), p.webauthn).2.None?
       <==> && !p.spec.authType.OtherType? && !p.spec.secondFactor.OtherFactor? && !p.spec.lockingMode.OtherMode?
            && PasswordlessOf(p)
            && (WantsWebauthn(p.spec.secondFactor) ==> U2fOf(env, p) && RpidAvailable(env, p) && CertsOf(env, p))
  {
    var s := Reconciled(Defaulted(MfaSynced(p.spec)));
    SecondFactorPasses(env, p, s);
    if !p.spec.authType.OtherType? && !p.spec.secondFactor.OtherFactor? {
      LatePasses(p);
    }
  }

  lemma PassesIff(env: Env, p: Pref)
    ensures Checked(env, p).1.None? <==> Acceptable(env, p)
  {
    MetadataPasses(p, MetadataDefaulted(p.metadata.(name := NAME)));
    SpecPasses(env, p);
  }

  // ---------- What is said of a configuration that fails ----------

  /** The fault an error tells of, in terms of the input alone. */
  predicate Has(env: Env, p: Pref, e: Error) {
    var s, u, w := p.spec, p.spec.u2f, p.webauthn;
    var local := s.authType == Local || s.authType == TypeUnset;
    match e
    case MissingName => false
    case InvalidLabelKey => !LabelsOf(p)
    case InvalidOrigin => !OriginOf(p)
    case UnsupportedType => s.authType.OtherType?
    case UnsupportedFactor => s.secondFactor.OtherFactor?
    case UnsupportedMode => s.lockingMode.OtherMode?
    case PasswordlessNeedsWebauthn => IsTrue(s.allowPasswordless) && !WantsWebauthn(s.secondFactor)
    case PasswordlessNotAllowed =>
      && local && s.connector == PasswordlessConnector
      && if s.allowPasswordless.None? then !WantsWebauthn(s.secondFactor) else !s.allowPasswordless.value
    case InvalidConnector => local && s.connector.OtherConnector?
    case _ => WantsWebauthn(s.secondFactor) && HasInFactor(env, w, u, e)
  }

  /** The faults of WebAuthn and U2F settings that are in use. */
  predicate HasInFactor(env: Env, w: Option<Webauthn>, u: Option<U2F>, e: Error) {
    var rpid := if w.Some? then w.value.rpid else "";
    match e
    case MissingAppId => u.Some? && u.value.appId == ""
    case InvalidDeviceCA => u.Some? && !AllCerts(env, u.value.deviceCAs)
    case MissingWebauthn => u.None? && w.None?
    case InvalidRpid => rpid != "" && env.parse(rpid).None?
    case AppIdNotUrl => rpid == "" && u.Some? && env.parse(u.value.appId).None?
    case RpidNotInferred =>
      && rpid == "" && u.Some? && env.parse(u.value.appId).Some?
      && env.parse(u.value.appId).value.host == "" && env.parse(u.value.appId).value.path != u.value.appId
    case MissingRpid => u.None? && w.Some? && rpid == ""
    case InvalidAllowedCA => w.Some? && !AllCerts(env, w.value.allowedCAs)
    case InvalidDeniedCA => w.Some? && !AllCerts(env, w.value.deniedCAs)
    case _ => false
  }

  /** The order in which faults are looked for. */
  function Stage(e: Error): nat {
    match e
    case MissingName => 0
    case InvalidLabelKey => 1
    case InvalidOrigin => 2
    case UnsupportedType => 3
    case UnsupportedFactor => 4
    case MissingAppId => 5
    case InvalidDeviceCA => 6
    case MissingWebauthn => 7
    case InvalidRpid => 8
    case AppIdNotUrl => 8
    case RpidNotInferred => 8
    case MissingRpid => 8
    case InvalidAllowedCA => 9
    case InvalidDeniedCA => 10
    case PasswordlessNeedsWebauthn => 11
    case PasswordlessNotAllowed => 12
    case InvalidConnector => 13
    case UnsupportedMode => 14
  }

  lemma FirstInFactor(env: Env, w: Option<Webauthn>, u: Option<U2F>, f: Error)
    requires FactorChecked(env, w, u).1.Some?
    ensures var e := FactorChecked(env, w, u).1.value;
      && 5 <= Stage(e) <= 10 && HasInFactor(env, w, u, e)
      && (HasInFactor(env, w, u, f) ==> Stage(e) <= Stage(f))
  {
  }

  lemma FirstLate(env: Env, p: Pref, f: Error)
    requires !p.spec.authType.OtherType? && !p.spec.secondFactor.OtherFactor?
    ensures var late := LateError(Reconciled(Defaulted(MfaSynced(p.spec))));
      && (late.Some? ==> Stage(late.value) > 10 && Has(env, p, late.value))
      && (Has(env, p, f) && Stage(f) > 10 ==> late.Some? && Stage(late.value) <= Stage(f))
  {
  }

  lemma FirstInSpec(env: Env, p: Pref, f: Error)
    ensures var verdict := SpecChecked(env, Defaulted(MfaSynced(p.spec)), p.webauthn).2;
      && (verdict.Some? ==> Stage(verdict.value) > 2 && Has(env, p, verdict.value))
      && (verdict.Some? && Has(env, p, f) && Stage(f) > 2 ==> Stage(verdict.value) <= Stage(f))
  {
    var s := Reconciled(Defaulted(MfaSynced(p.spec)));
    if !p.spec.authType.OtherType? && !p.spec.secondFactor.OtherFactor? {
      FirstLate(env, p, f);
      FirstInSecondFactor(env, p, s, f);
    }
  }

  lemma FirstInSecondFactor(env: Env, p: Pref, s: Spec, f: Error)
    requires s == Reconciled(Defaulted(MfaSynced(p.spec))) && !p.spec.secondFactor.OtherFactor?
    ensures var verdict := SecondFactorChecked(env, s, p.webauthn).1;
      && (verdict.Some? ==> 5 <= Stage(verdict.value) <= 10 && Has(env, p, verdict.value))
      && (Has(env, p, f) && 5 <= Stage(f) <= 10 ==> verdict.Some? && Stage(verdict.value) <= Stage(f))
  {
    if HasInFactor(env, p.webauthn, p.spec.u2f, f) { FaultMeansFailure(env, p.webauthn, p.spec.u2f, f); }
    if FactorChecked(env, p.webauthn, p.spec.u2f).1.Some? {
      FirstInFactor(env, p.webauthn, p.spec.u2f, f);
    }
  }

  lemma FaultMeansFailure(env: Env, w: Option<Webauthn>, u: Option<U2F>, f: Error)
    requires HasInFactor(env, w, u, f)
    ensures FactorChecked(env, w, u).1.Some?
  {
  }

  lemma VerdictIs(env: Env, p: Pref, early: Option<Error>)
    requires early == HeaderFault(p)
    ensures Checked(env, p).1
         == (if early.Some? then early else SpecChecked(env, Defaulted(MfaSynced(p.spec)), p.webauthn).2)
  {
    MetadataPasses(p, MetadataDefaulted(p.metadata.(name := NAME)));
  }

  lemma EarlyFault(env: Env, p: Pref, early: Option<Error>, f: Error)
    requires early == HeaderFault(p)
    ensures early.Some? ==> Stage(early.value) <= 2 && Has(env, p, early.value)
    ensures Has(env, p, f) && Stage(f) <= 2 ==> early.Some? && Stage(early.value) <= Stage(f)
  {
  }

  /** The error reported is a fault the configuration has, and no fault it has is looked for earlier. */
  lemma FirstFault(env: Env, p: Pref, f: Error)
    requires Checked(env, p).1.Some?
    ensures var e := Checked(env, p).1.value;
      Has(env, p, e) && (Has(env, p, f) ==> Stage(e) <= Stage(f))
  {
    var early := HeaderFault(p);
    VerdictIs(env, p, early);
    FirstInSpec(env, p, f);
    EarlyFault(env, p, early, f);
  }

  // ---------- What the check may change ----------

  /** Settings that were made are kept, up to the renamed factor, the forced flag and the synced flags. */
  predicate KeepsSpec(s: Spec, t: Spec) {
    && t.connector == s.connector && t.u2f == s.u2f && t.messageOfTheDay == s.messageOfTheDay
    && t.authType == (if s.authType == TypeUnset then Local else s.authType)
    && t.secondFactor == (match s.secondFactor
                          case FactorUnset => Otp
                          case U2fFactor => WebauthnFactor
                          case f => f)
    && t.lockingMode == (if s.lockingMode == ModeUnset then BestEffort else s.lockingMode)
    && t.disconnectExpiredCert == Some(IsTrue(s.disconnectExpiredCert))
    && t.allowLocalAuth == Some(t.authType == Local || s.allowLocalAuth.None? || s.allowLocalAuth.value)
    && t.allowPasswordless
       == (if s.allowPasswordless.None? then Some(WantsWebauthn(s.secondFactor)) else s.allowPasswordless)
    && t.requireMFA == (if s.requireMFA == MfaOff && s.requireSessionMFA then Session else s.requireMFA)
    && t.requireSessionMFA == (t.requireMFA == Session || t.requireMFA == SessionAndHardwareKey)
  }

  /** WebAuthn settings change only when they are in use, and then only in what was left empty. */
  predicate KeepsWebauthn(env: Env, p: Pref, q: Pref) {
    if !WantsWebauthn(p.spec.secondFactor) then q.webauthn == p.webauthn
    else
      var w := if p.webauthn.Some? then p.webauthn.value else Webauthn("", [], []);
      && q.webauthn.Some? && q.webauthn.value.deniedCAs == w.deniedCAs
      && (if w.rpid != "" then RpidOf(q) == w.rpid
          else p.spec.u2f.Some? && StandsFor(env, p.spec.u2f.value.appId, RpidOf(q)))
      && q.webauthn.value.allowedCAs
         == (if w.allowedCAs + w.deniedCAs == [] && p.spec.u2f.Some? then p.spec.u2f.value.deviceCAs else w.allowedCAs)
  }

  /** The application id names this relying party: by the host name of its URL, or as it stands. */
  predicate StandsFor(env: Env, appId: string, rpid: string) {
    && var url := env.parse(appId);
    && url.Some?
    && if url.value.host != "" then IsHostName(url.value.host, rpid) else url.value.path == appId == rpid
  }

  /** A missing or empty origin becomes "dynamic"; no other label changes. */
  predicate KeepsLabels(a: map<string, string>, b: map<string, string>) {
    var key := "teleport.dev/origin";
    && a - {key} == b - {key}
    && key in b && b[key] == (if key in a && a[key] != "" then a[key] else "dynamic")
  }

  predicate KeepsHeader(p: Pref, q: Pref) {
    && q.kind == "cluster_auth_preference" && q.version == "v2" && q.metadata.name == "cluster-auth-preference"
    && q.metadata.namespace == (if p.metadata.namespace == "" then "default" else p.metadata.namespace)
  }

  /** An expiry stays the same instant, shown in UTC. */
  predicate KeepsInstant(a: Option<Time>, b: Option<Time>) {
    a.Some? == b.Some? && (a.Some? ==> b.value.instant == a.value.instant && b.value.offset == 0)
  }

  lemma FilledKeeps(s: Spec)
    ensures KeepsSpec(s, Filled(s))
  {
  }

  lemma SpecIsKept(env: Env, s: Spec, w: Option<Webauthn>)
    requires SpecChecked(env, Defaulted(MfaSynced(s)), w).2.None?
    ensures KeepsSpec(s, SpecChecked(env, Defaulted(MfaSynced(s)), w).0)
  {
    var (t, _, _) := SpecChecked(env, Defaulted(MfaSynced(s)), w);
    assert t == Filled(s);
    FilledKeeps(s);
  }

  lemma FactorIsKept(env: Env, p: Pref, q: Pref)
    requires FactorChecked(env, p.webauthn, p.spec.u2f) == (q.webauthn, None) && WantsWebauthn(p.spec.secondFactor)
    ensures KeepsWebauthn(env, p, q)
  {
  }

  /** A passing check only fills in what was missing. */
  lemma KeepsChoices(env: Env, p: Pref)
    requires Checked(env, p).1.None?
    ensures var q := Checked(env, p).0;
      && KeepsHeader(p, q) && KeepsSpec(p.spec, q.spec) && KeepsWebauthn(env, p, q)
      && KeepsLabels(p.metadata.labels, q.metadata.labels) && KeepsInstant(p.metadata.expires, q.metadata.expires)
  {
    var q := Checked(env, p).0;
    SpecIsKept(env, p.spec, p.webauthn);
    SpecResult(env, p, q.spec, q.webauthn);
    if WantsWebauthn(p.spec.secondFactor) {
      FactorIsKept(env, p, q);
    }
  }

  /** The settings a failed check leaves: defaults up to the stage it failed at, as a passing one would set them. */
  predicate LeavesSpec(s: Spec, t: Spec, stage: nat) {
    if stage <= 2 then t == s
    else
      var wanted := if s.allowPasswordless.None? then Some(WantsWebauthn(s.secondFactor)) else s.allowPasswordless;
      var renamed := if t.secondFactor == U2fFactor then WebauthnFactor else t.secondFactor;
      if stage == 3 then t.allowPasswordless == s.allowPasswordless
                         && KeepsSpec(s, t.(allowPasswordless := wanted, secondFactor := renamed))
      else if stage <= 10 then t.allowPasswordless == s.allowPasswordless
                               && KeepsSpec(s, t.(allowPasswordless := wanted))
      else KeepsSpec(s, t)
  }

  /** The WebAuthn settings it leaves: made before the id is set, the id set before certificates are checked. */
  predicate LeavesWebauthn(env: Env, p: Pref, q: Pref, stage: nat) {
    var w := if p.webauthn.Some? then p.webauthn.value else Webauthn("", [], []);
    if !WantsWebauthn(p.spec.secondFactor) || stage <= 7 then q.webauthn == p.webauthn
    else if stage == 8 then q.webauthn == Some(w)
    else if stage <= 10 then
      && q.webauthn == Some(w.(rpid := RpidOf(q)))
      && (if w.rpid != "" then RpidOf(q) == w.rpid
          else p.spec.u2f.Some? && StandsFor(env, p.spec.u2f.value.appId, RpidOf(q)))
    else KeepsWebauthn(env, p, q)
  }

  lemma SpecLeft(env: Env, s: Spec, w: Option<Webauthn>)
    requires SpecChecked(env, Defaulted(MfaSynced(s)), w).2.Some?
    ensures var (t, _, e) := SpecChecked(env, Defaulted(MfaSynced(s)), w); LeavesSpec(s, t, Stage(e.value))
  {
    FilledKeeps(s);
    StageOfFactor(env, Reconciled(Defaulted(MfaSynced(s))), w);
  }

  lemma StageOfFactor(env: Env, s: Spec, w: Option<Webauthn>)
    ensures SecondFactorChecked(env, s, w).1.Some? ==> 4 <= Stage(SecondFactorChecked(env, s, w).1.value) <= 10
    ensures LateError(s).Some? ==> Stage(LateError(s).value) > 10
  {
  }

  lemma FactorLeft(env: Env, p: Pref, q: Pref)
    requires FactorChecked(env, p.webauthn, p.spec.u2f).0 == q.webauthn && WantsWebauthn(p.spec.secondFactor)
    requires FactorChecked(env, p.webauthn, p.spec.u2f).1.Some?
    ensures LeavesWebauthn(env, p, q, Stage(FactorChecked(env, p.webauthn, p.spec.u2f).1.value))
  {
    var w := if p.webauthn.Some? then p.webauthn.value else Webauthn("", [], []);
    if WebauthnChecked(env, w, p.spec.u2f).1.Some? { IdLeft(env, w, p.spec.u2f); }
  }

  lemma IdLeft(env: Env, w: Webauthn, u: Option<U2F>)
    requires WebauthnChecked(env, w, u).1.Some?
    ensures var (v, e) := WebauthnChecked(env, w, u);
      && 8 <= Stage(e.value) <= 10
      && if Stage(e.value) == 8 then v == w
         else
           && v == w.(rpid := v.rpid)
           && if w.rpid != "" then v.rpid == w.rpid else u.Some? && StandsFor(env, u.value.appId, v.rpid)
  {
  }

  lemma WebauthnLeft(env: Env, p: Pref, q: Pref, e: Error)
    requires SpecChecked(env, Defaulted(MfaSynced(p.spec)), p.webauthn) == (q.spec, q.webauthn, Some(e))
    ensures LeavesWebauthn(env, p, q, Stage(e))
  {
    var f := FactorChecked(env, p.webauthn, p.spec.u2f);
    StageOfFactor(env, Reconciled(Defaulted(MfaSynced(p.spec))), p.webauthn);
    if WantsWebauthn(p.spec.secondFactor) && Stage(e) > 3 {
      if f.1.Some? { FactorLeft(env, p, q); } else { FactorIsKept(env, p, q); }
    }
  }

  lemma HeaderLeft(env: Env, p: Pref, early: Option<Error>, q: Pref)
    requires early == HeaderFault(p)
    requires q == Checked(env, p).0
    ensures KeepsHeader(p, q) && KeepsInstant(p.metadata.expires, q.metadata.expires)
    ensures if early.Some? then q.metadata.labels == p.metadata.labels
            else KeepsLabels(p.metadata.labels, q.metadata.labels)
  {
    var m := MetadataDefaulted(p.metadata.(name := NAME));
    MetadataPasses(p, m);
    LabelsKept(m);
    assert q.metadata == if early.Some? then m else WithOrigin(m);
  }

  lemma LabelsKept(m: Metadata)
    ensures KeepsLabels(m.labels, WithOrigin(m).labels)
  {
  }

  lemma SettingsLeft(env: Env, p: Pref, early: Option<Error>, q: Pref)
    requires early == HeaderFault(p)
    requires q == Checked(env, p).0
    ensures (q.spec, q.webauthn) == (if early.Some? then (p.spec, p.webauthn)
              else var (s, w, _) := SpecChecked(env, Defaulted(MfaSynced(p.spec)), p.webauthn); (s, w))
  {
    MetadataPasses(p, MetadataDefaulted(p.metadata.(name := NAME)));
  }

  lemma RestLeft(env: Env, p: Pref, early: Option<Error>, q: Pref, e: Error)
    requires early == HeaderFault(p)
    requires Checked(env, p) == (q, Some(e))
    ensures LeavesSpec(p.spec, q.spec, Stage(e)) && LeavesWebauthn(env, p, q, Stage(e))
    ensures early.Some? <==> Stage(e) <= 2
  {
    VerdictIs(env, p, early);
    SettingsLeft(env, p, early, q);
    if early.None? {
      SpecLeft(env, p.spec, p.webauthn);
      WebauthnLeft(env, p, q, e);
      FirstInSpec(env, p, e);
    }
  }

  /** What a failed check leaves behind is known exactly from the fault it reports. */
  lemma FailureLeaves(env: Env, p: Pref, q: Pref, e: Error)
    requires Checked(env, p) == (q, Some(e))
    ensures KeepsHeader(p, q) && KeepsInstant(p.metadata.expires, q.metadata.expires)
    ensures LeavesSpec(p.spec, q.spec, Stage(e)) && LeavesWebauthn(env, p, q, Stage(e))
    ensures if Stage(e) <= 2 then q.metadata.labels == p.metadata.labels
            else KeepsLabels(p.metadata.labels, q.metadata.labels)
  {
    var early := HeaderFault(p);
    HeaderLeft(env, p, early, q);
    RestLeft(env, p, early, q, e);
  }

  // ---------- What the check leaves alone ----------

  /** Settings with every default filled in and every deprecated form replaced. */
  predicate NormalSpec(s: Spec) {
    && s.requireSessionMFA == IsSessionMFARequired(s.requireMFA)
    && s.authType != TypeUnset && s.lockingMode != ModeUnset
    && s.secondFactor != FactorUnset && s.secondFactor != U2fFactor
    && s.allowLocalAuth.Some? && s.disconnectExpiredCert.Some? && s.allowPasswordless.Some?
    && (s.authType == Local ==> IsTrue(s.allowLocalAuth))
  }

  predicate NormalHeader(p: Pref) {
    && p.kind == KIND && p.version == VERSION && p.metadata.name == NAME && p.metadata.namespace != ""
    && Origin(p.metadata.labels) != "" && Utc(p.metadata.expires) == p.metadata.expires
  }

  predicate WebauthnComplete(env: Env, p: Pref) {
    && p.webauthn.Some?
    && !TakesDeviceCAs(p.webauthn.value, p.spec.u2f)
    && (RpidOf(p) == "" && p.spec.u2f.Some? ==> Infer(env, p.spec.u2f.value.appId).0 == Some(""))
  }

  /** A configuration the check has nothing to add to. */
  predicate Normal(env: Env, p: Pref) {
    && Acceptable(env, p)
    && NormalHeader(p) && NormalSpec(p.spec) && (HasWebauthn(p.spec.secondFactor) ==> WebauthnComplete(env, p))
  }

  function Filled(s: Spec): Spec {
    PasswordlessSet(Reconciled(Defaulted(MfaSynced(s))))
  }

  lemma FilledIsNormal(s: Spec)
    ensures NormalSpec(Filled(s))
  {
  }

  lemma NormalSteps(s: Spec)
    requires NormalSpec(s)
    ensures MfaSynced(s) == s && Defaulted(s) == s && Reconciled(s) == s && PasswordlessSet(s) == s
  {
  }

  lemma OriginIsLabel()
    ensures ValidLabelKey(ORIGIN_LABEL)
  {
  }

  /** What the settings become does not depend on the foreign parsers, and neither does the late verdict. */
  lemma SpecResult(env: Env, p: Pref, t: Spec, v: Option<Webauthn>)
    requires SpecChecked(env, Defaulted(MfaSynced(p.spec)), p.webauthn) == (t, v, None)
    ensures t == Filled(p.spec) && NormalSpec(t)
    ensures HasWebauthn(t.secondFactor) <==> WantsWebauthn(p.spec.secondFactor)
    ensures HasWebauthn(t.secondFactor) ==> FactorChecked(env, p.webauthn, p.spec.u2f) == (v, None)
    ensures !HasWebauthn(t.secondFactor) ==> v == p.webauthn && (t.secondFactor == Off || t.secondFactor == Otp)
    ensures LateError(Reconciled(Defaulted(MfaSynced(p.spec)))).None?
  {
    FilledIsNormal(p.spec);
  }

  lemma LateAgain(s: Spec)
    requires LateError(s).None?
    ensures LateError(PasswordlessSet(s)).None?
  {
  }

  lemma FactorFixed(env: Env, p: Pref)
    requires U2fOf(env, p) && RpidAvailable(env, p) && CertsOf(env, p)
    ensures FactorChecked(env, p.webauthn, p.spec.u2f) == (p.webauthn, None) <==> WebauthnComplete(env, p)
  {
  }

  lemma SpecFixed(env: Env, p: Pref)
    requires SpecChecked(env, Defaulted(MfaSynced(p.spec)), p.webauthn).2.None?
    requires WantsWebauthn(p.spec.secondFactor) ==> U2fOf(env, p) && RpidAvailable(env, p) && CertsOf(env, p)
    ensures SpecChecked(env, Defaulted(MfaSynced(p.spec)), p.webauthn) == (p.spec, p.webauthn, None)
       <==> NormalSpec(p.spec) && (HasWebauthn(p.spec.secondFactor) ==> WebauthnComplete(env, p))
  {
    var (t, v, e) := SpecChecked(env, Defaulted(MfaSynced(p.spec)), p.webauthn);
    SpecResult(env, p, t, v);
    if NormalSpec(p.spec) {
      NormalSteps(p.spec);
    }
    if WantsWebauthn(p.spec.secondFactor) {
      FactorFixed(env, p);
    }
  }

  lemma HeaderFixed(env: Env, p: Pref)
    requires Checked(env, p).1.None?
    ensures var q := Checked(env, p).0;
      && (q.kind == p.kind && q.version == p.version && q.metadata == p.metadata <==> NormalHeader(p))
      && (q.spec, q.webauthn, None) == SpecChecked(env, Defaulted(MfaSynced(p.spec)), p.webauthn)
  {
  }

  /** The fixed points of the check are exactly the normal configurations. */
  lemma FixedPointIff(env: Env, p: Pref)
    ensures Checked(env, p) == (p, None) <==> Normal(env, p)
  {
    PassesIff(env, p);
    if Acceptable(env, p) {
      SpecPasses(env, p);
      SpecFixed(env, p);
      HeaderFixed(env, p);
    }
  }

  // ---------- Running it twice ----------

  /** The relying party id is taken from the host of the U2F application id and does not parse. */
  predicate InfersBadRpid(env: Env, p: Pref) {
    && WantsWebauthn(p.spec.secondFactor) && RpidOf(p) == "" && p.spec.u2f.Some?
    && var url := env.parse(p.spec.u2f.value.appId);
    && url.Some? && BeforeColon(url.value.host) != "" && env.parse(BeforeColon(url.value.host)).None?
  }

  lemma MetadataAgain(m: Metadata)
    requires MetadataError(MetadataDefaulted(m)).None?
    ensures var n := WithOrigin(MetadataDefaulted(m));
      MetadataError(n).None? && MetadataDefaulted(n) == n && WithOrigin(n) == n && n.name == m.name
  {
    OriginIsLabel();
  }

  lemma FactorAgain(env: Env, w: Option<Webauthn>, u: Option<U2F>, v: Option<Webauthn>)
    requires FactorChecked(env, w, u) == (v, None)
    ensures v.Some?
    ensures FactorChecked(env, v, u)
         == (v, if v.value.rpid != "" && env.parse(v.value.rpid).None? then Some(InvalidRpid) else None)
  {
  }

  lemma FactorRpid(env: Env, w: Option<Webauthn>, u: Option<U2F>, v: Option<Webauthn>)
    requires FactorChecked(env, w, u) == (v, None)
    ensures v.Some?
    ensures v.value.rpid != "" && env.parse(v.value.rpid).None? <==>
            && (w.Some? ==> w.value.rpid == "") && u.Some?
            && var host := env.parse(u.value.appId).value.host;
            BeforeColon(host) != "" && env.parse(BeforeColon(host)).None?
  {
  }

  lemma SpecAgain(env: Env, p: Pref, t: Spec, v: Option<Webauthn>)
    requires SpecChecked(env, Defaulted(MfaSynced(p.spec)), p.webauthn) == (t, v, None)
    ensures Defaulted(MfaSynced(t)) == t
    ensures SpecChecked(env, t, v) == (t, v, if InfersBadRpid(env, p) then Some(InvalidRpid) else None)
  {
    SpecResult(env, p, t, v);
    NormalSteps(t);
    LateAgain(Reconciled(Defaulted(MfaSynced(p.spec))));
    if HasWebauthn(t.secondFactor) { FactorTwice(env, p, v); }
  }

  lemma FactorTwice(env: Env, p: Pref, v: Option<Webauthn>)
    requires FactorChecked(env, p.webauthn, p.spec.u2f) == (v, None) && WantsWebauthn(p.spec.secondFactor)
    ensures FactorChecked(env, v, p.spec.u2f) == (v, if InfersBadRpid(env, p) then Some(InvalidRpid) else None)
  {
    FactorAgain(env, p.webauthn, p.spec.u2f, v);
    FactorRpid(env, p.webauthn, p.spec.u2f, v);
  }

  /** A second run changes nothing, and fails exactly when the first inferred an id that does not parse. */
  lemma SecondRun(env: Env, p: Pref)
    requires Checked(env, p).1.None?
    ensures var q := Checked(env, p).0;
      Checked(env, q) == (q, if InfersBadRpid(env, p) then Some(InvalidRpid) else None)
  {
    var q := Checked(env, p).0;
    MetadataAgain(p.metadata.(name := NAME));
    SpecAgain(env, p, q.spec, q.webauthn);
  }

  const BAD_APP_ID := "https://a%25"

  /** A host whose unescaped form is not itself a URL: a percent sign with nothing after it. */
  function UnescapingParser(text: string): Option<Url> {
    if text == BAD_APP_ID then Some(Url("a%", "")) else None
  }

  const PLAIN_SPEC := Spec(TypeUnset, On, NoConnector, Some(U2F(BAD_APP_ID, [], [])), false, None, None, "",
                           ModeUnset, None, MfaOff)

  /** Such an application id passes the first run and not the second. */
  lemma SecondRunCanFail()
    ensures var env := Env(UnescapingParser, _ => true);
      var first := Checked(env, Pref("", "", Metadata("", "", map[], None), PLAIN_SPEC, None));
      first.1.None? && Checked(env, first.0).1 == Some(InvalidRpid)
  {
    var env := Env(UnescapingParser, _ => true);
    var p := Pref("", "", Metadata("", "", map[], None), PLAIN_SPEC, None);
    assert "a%"[1..] == "%" && "%"[1..] == "";
    assert BeforeColon("a%") == "a%";
    PassesIff(env, p);
    SecondRun(env, p);
  }

  // ---------- Reading the result ----------

  function PreferredLocalMFA(p: Pref): SecondFactor {
    match p.spec.secondFactor
    case Off => FactorUnset
    case Otp => Otp
    case WebauthnFactor => WebauthnFactor
    case On => if p.webauthn.Some? then WebauthnFactor else Otp
    case Optional => if p.webauthn.Some? then WebauthnFactor else Otp
    case _ => FactorUnset
  }

  predicate IsSecondFactorEnforced(p: Pref) {
    p.spec.secondFactor != Off && p.spec.secondFactor != Optional
  }

  predicate IsTOTPAllowed(p: Pref) {
    p.spec.secondFactor == Otp || p.spec.secondFactor == Optional || p.spec.secondFactor == On
  }

  predicate IsWebauthnAllowed(p: Pref) {
    p.webauthn.Some? && HasWebauthn(p.spec.secondFactor)
  }

  /** "off" allows no method, "otp" and "webauthn" only their own, "on" and "optional" both. */
  lemma FactorsAllow(env: Env, p: Pref)
    requires Checked(env, p).1.None?
    ensures var q := Checked(env, p).0;
      match q.spec.secondFactor
      case Off => !IsTOTPAllowed(q) && !IsWebauthnAllowed(q) && !IsSecondFactorEnforced(q)
      case Otp => IsTOTPAllowed(q) && !IsWebauthnAllowed(q) && IsSecondFactorEnforced(q)
      case WebauthnFactor => !IsTOTPAllowed(q) && IsWebauthnAllowed(q) && IsSecondFactorEnforced(q)
      case On => IsTOTPAllowed(q) && IsWebauthnAllowed(q) && IsSecondFactorEnforced(q)
      case Optional => IsTOTPAllowed(q) && IsWebauthnAllowed(q) && !IsSecondFactorEnforced(q)
      case _ => false
  {
  }

  /** After a passing check a method is suggested exactly when one may be used, and it is the best one. */
  lemma PreferredIsAllowed(env: Env, p: Pref)
    requires Checked(env, p).1.None?
    ensures var q := Checked(env, p).0;
      && (PreferredLocalMFA(q) == WebauthnFactor <==> IsWebauthnAllowed(q))
      && (PreferredLocalMFA(q) == Otp <==> IsTOTPAllowed(q) && !IsWebauthnAllowed(q))
      && (PreferredLocalMFA(q) == FactorUnset <==> !IsTOTPAllowed(q) && !IsWebauthnAllowed(q))
      && (IsSecondFactorEnforced(q) ==> PreferredLocalMFA(q) != FactorUnset)
      && (IsTrue(q.spec.allowPasswordless) ==> IsWebauthnAllowed(q))
  {
  }
}
