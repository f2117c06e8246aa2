/**
 The cluster authentication preference and the check that validates it and fills in defaults.

 The option strings of the source are closed sets plus everything else, so each is a datatype
 with one case per recognised string and one case for any other. What `net/url` and the
 certificate parser answer is a parameter.
 */
module AuthPreference {
  import opened Options

  datatype Url = Url(host: string, path: string)

  /** Foreign parsers: a URL or nothing, and whether a PEM text is a certificate. */
  datatype Env = Env(parse: string -> Option<Url>, validCert: string -> bool)

  datatype AuthType = TypeUnset | Local | Oidc | Saml | Github | OtherType(text: string)

  datatype SecondFactor =
    FactorUnset | Off | Otp | U2fFactor | WebauthnFactor | On | Optional | OtherFactor(text: string)

  datatype Connector = NoConnector | LocalConnector | PasswordlessConnector | OtherConnector(text: string)

  datatype LockingMode = ModeUnset | BestEffort | Strict | OtherMode(text: string)

  datatype RequireMFA = MfaOff | Session | SessionAndHardwareKey | HardwareKeyTouch | OtherRequirement(code: int)

  datatype U2F = U2F(appId: string, facets: seq<string>, deviceCAs: seq<string>)

  datatype Webauthn = Webauthn(rpid: string, allowedCAs: seq<string>, deniedCAs: seq<string>)

  datatype Spec = Spec(
    authType: AuthType,
    secondFactor: SecondFactor,
    connector: Connector,
    u2f: Option<U2F>,
    requireSessionMFA: bool,
    disconnectExpiredCert: Option<bool>,
    allowLocalAuth: Option<bool>,
    messageOfTheDay: string,
    lockingMode: LockingMode,
    allowPasswordless: Option<bool>,
    requireMFA: RequireMFA)

  /** Nil labels behave as no labels. */
  datatype Metadata = Metadata(name: string, namespace: string, labels: map<string, string>, expires: Option<Time>)

  /** An instant and the offset of the zone it is shown in. */
  datatype Time = Time(instant: int, offset: int)

  datatype Pref = Pref(kind: string, version: string, metadata: Metadata, spec: Spec, webauthn: Option<Webauthn>)

  datatype Error =
    | MissingName | InvalidLabelKey | InvalidOrigin
    | UnsupportedType | UnsupportedFactor | UnsupportedMode
    | MissingAppId | InvalidDeviceCA
    | MissingWebauthn | InvalidRpid | AppIdNotUrl | RpidNotInferred | MissingRpid | InvalidAllowedCA | InvalidDeniedCA
    | PasswordlessNeedsWebauthn | PasswordlessNotAllowed | InvalidConnector

  const KIND := "cluster_auth_preference"
  const VERSION := "v2"
  const NAME := "cluster-auth-preference"
  const NAMESPACE := "default"
  const ORIGIN_LABEL := "teleport.dev/origin"
  const ORIGIN_DYNAMIC := "dynamic"
  const ORIGIN_VALUES := ["defaults", "config-file", ORIGIN_DYNAMIC, "cloud", "kubernetes"]

  // ---------- Metadata ----------

  predicate LabelChar(c: char) {
    'a' <= c <= 'z' || 'A' <= c <= 'Z' || '0' <= c <= '9' || c in "/._:*-"
  }

  predicate ValidLabelKey(key: string) {
    key != "" && forall i | 0 <= i < |key| :: LabelChar(key[i])
  }

  predicate ValidLabels(labels: map<string, string>) {
    forall key | key in labels :: ValidLabelKey(key)
  }

  function Origin(labels: map<string, string>): string {
    if ORIGIN_LABEL in labels then labels[ORIGIN_LABEL] else ""
  }

  predicate ValidOrigin(origin: string) {
    origin == "" || origin in ORIGIN_VALUES
  }

  function MetadataError(m: Metadata): Option<Error> {
    if m.name == "" then Some(MissingName)
    else if !ValidLabels(m.labels) then Some(InvalidLabelKey)
    else if !ValidOrigin(Origin(m.labels)) then Some(InvalidOrigin)
    else None
  }

  function Utc(t: Option<Time>): Option<Time> {
    if t.Some? then Some(Time(t.value.instant, 0)) else None
  }

  function MetadataDefaulted(m: Metadata): Metadata {
    if m.name == "" then m
    else m.(namespace := if m.namespace == "" then NAMESPACE else m.namespace, expires := Utc(m.expires))
  }

  function WithOrigin(m: Metadata): Metadata {
    if Origin(m.labels) == "" then m.(labels := m.labels[ORIGIN_LABEL := ORIGIN_DYNAMIC]) else m
  }

  // ---------- U2F and WebAuthn ----------

  predicate AllCerts(env: Env, cas: seq<string>) {
    forall i | 0 <= i < |cas| :: env.validCert(cas[i])
  }

  function U2fError(env: Env, u: U2F): Option<Error> {
    if u.appId == "" then Some(MissingAppId)
    else if !AllCerts(env, u.deviceCAs) then Some(InvalidDeviceCA)
    else None
  }

  /** r is all of the host, or all that stands before its first colon. */
  predicate IsHostName(host: string, r: string) {
    ':' !in r && (r == host || r + ":" <= host)
  }

  function BeforeColon(host: string): (r: string)
    ensures IsHostName(host, r)
  {
    if host == "" || host[0] == ':' then "" else [host[0]] + BeforeColon(host[1..])
  }

  /** The relying party id an application id stands for, or why it stands for none. */
  function Infer(env: Env, appId: string): (Option<string>, Option<Error>) {
    match env.parse(appId)
    case None => (None, Some(AppIdNotUrl))
    case Some(url) =>
      if url.host != "" then (Some(BeforeColon(url.host)), None)
      else if url.path == appId then (Some(appId), None)
      else (None, Some(RpidNotInferred))
  }

  function RpidError(env: Env, w: Webauthn, u: Option<U2F>): Option<Error> {
    if w.rpid != "" then if env.parse(w.rpid).None? then Some(InvalidRpid) else None
    else if u.Some? then Infer(env, u.value.appId).1
    else Some(MissingRpid)
  }

  function RpidSet(env: Env, w: Webauthn, u: Option<U2F>): Webauthn {
    if w.rpid == "" && u.Some? && Infer(env, u.value.appId).0.Some?
    then w.(rpid := Infer(env, u.value.appId).0.value)
    else w
  }

  predicate TakesDeviceCAs(w: Webauthn, u: Option<U2F>) {
    u.Some? && u.value.deviceCAs != [] && w.allowedCAs == [] && w.deniedCAs == []
  }

  function WebauthnChecked(env: Env, w: Webauthn, u: Option<U2F>): (Webauthn, Option<Error>) {
    var v := RpidSet(env, w, u);
    if RpidError(env, w, u).Some? then (v, RpidError(env, w, u))
    else if TakesDeviceCAs(v, u) then (v.(allowedCAs := u.value.deviceCAs), None)
    else if !AllCerts(env, v.allowedCAs) then (v, Some(InvalidAllowedCA))
    else if !AllCerts(env, v.deniedCAs) then (v, Some(InvalidDeniedCA))
    else (v, None)
  }

  /** WebAuthn as a second factor: validated, derived from U2F when only that is configured. */
  function FactorChecked(env: Env, w: Option<Webauthn>, u: Option<U2F>): (Option<Webauthn>, Option<Error>) {
    if u.Some? && U2fError(env, u.value).Some? then (w, U2fError(env, u.value))
    else if u.None? && w.None? then (None, Some(MissingWebauthn))
    else
      var (v, e) := WebauthnChecked(env, if w.Some? then w.value else Webauthn("", [], []), u);
      (Some(v), e)
  }

  // ---------- The preference ----------

  predicate IsSessionMFARequired(r: RequireMFA) {
    r == Session || r == SessionAndHardwareKey
  }

  function MfaSynced(s: Spec): Spec {
    if s.requireMFA != MfaOff then s.(requireSessionMFA := IsSessionMFARequired(s.requireMFA))
    else if s.requireSessionMFA then s.(requireMFA := Session)
    else s
  }

  function Defaulted(s: Spec): Spec {
    s.(authType := if s.authType == TypeUnset then Local else s.authType,
       secondFactor := if s.secondFactor == FactorUnset then Otp else s.secondFactor,
       allowLocalAuth := if s.allowLocalAuth == None then Some(true) else s.allowLocalAuth,
       disconnectExpiredCert := if s.disconnectExpiredCert == None then Some(false) else s.disconnectExpiredCert,
       lockingMode := if s.lockingMode == ModeUnset then BestEffort else s.lockingMode)
  }

  predicate HasWebauthn(f: SecondFactor) {
    f == WebauthnFactor || f == On || f == Optional
  }

  /** Local authentication cannot be switched off for type local, and "u2f" now means "webauthn". */
  function Reconciled(s: Spec): Spec {
    s.(allowLocalAuth := if s.authType == Local then Some(true) else s.allowLocalAuth,
       secondFactor := if s.secondFactor == U2fFactor then WebauthnFactor else s.secondFactor)
  }

  function PasswordlessSet(s: Spec): Spec {
    if s.allowPasswordless == None then s.(allowPasswordless := Some(HasWebauthn(s.secondFactor))) else s
  }

  predicate IsTrue(b: Option<bool>) {
    b.Some? && b.value
  }

  /** What is checked once the second factor is settled. */
  function LateError(s: Spec): Option<Error> {
    if IsTrue(s.allowPasswordless) && !HasWebauthn(s.secondFactor) then Some(PasswordlessNeedsWebauthn)
    else if s.authType == Local && s.connector == PasswordlessConnector && !IsTrue(PasswordlessSet(s).allowPasswordless)
    then Some(PasswordlessNotAllowed)
    else if s.authType == Local && s.connector.OtherConnector? then Some(InvalidConnector)
    else if s.lockingMode != BestEffort && s.lockingMode != Strict then Some(UnsupportedMode)
    else None
  }

  function SecondFactorChecked(env: Env, s: Spec, w: Option<Webauthn>): (Option<Webauthn>, Option<Error>) {
    if HasWebauthn(s.secondFactor) then FactorChecked(env, w, s.u2f)
    else if s.secondFactor == Off || s.secondFactor == Otp then (w, None)
    else (w, Some(UnsupportedFactor))
  }

  /** The settings after defaults have been filled in, and what is wrong with them. */
  function SpecChecked(env: Env, s: Spec, w: Option<Webauthn>): (Spec, Option<Webauthn>, Option<Error>) {
    if s.authType.OtherType? || s.authType.TypeUnset? then (s, w, Some(UnsupportedType))
    else
      var t := Reconciled(s);
      var (v, e) := SecondFactorChecked(env, t, w);
      if e.Some? then (t, v, e) else (PasswordlessSet(t), v, LateError(t))
  }

  function WithStatics(p: Pref): Pref {
    p.(kind := KIND, version := VERSION, metadata := p.metadata.(name := NAME))
  }

  /** The preference the check leaves behind, also when it fails, and its verdict. */
  function Checked(env: Env, p: Pref): (Pref, Option<Error>) {
    var q := WithStatics(p).(metadata := MetadataDefaulted(p.metadata.(name := NAME)));
    var e := MetadataError(q.metadata);
    if e.Some? then (q, e)
    else
      var (s, w, late) := SpecChecked(env, Defaulted(MfaSynced(q.spec)), q.webauthn);
      (q.(metadata := WithOrigin(q.metadata), spec := s, webauthn := w), late)
  }

  // ---------- The code that updates the configuration in place ----------

  method CheckCerts(env: Env, cas: seq<string>) returns (ok: bool)
    ensures ok <==> forall i | 0 <= i < |cas| :: env.validCert(cas[i])
  {
    for i := 0 to |cas|
      invariant forall j | 0 <= j < i :: env.validCert(cas[j])
    {
      if !env.validCert(cas[i]) {
        return false;
      }
    }
    return true;
  }

  method CheckU2f(env: Env, u: U2F) returns (e: Option<Error>)
    ensures e == U2fError(env, u)
  {
    if u.appId == "" {
      return Some(MissingAppId);
    }
    var ok := CheckCerts(env, u.deviceCAs);
    return if ok then None else Some(InvalidDeviceCA);
  }

  /** The first part of a text split at colons. */
  method FirstPart(host: string) returns (part: string)
    ensures part == BeforeColon(host) && IsHostName(host, part)
  {
    var rest := host;
    part := "";
    while rest != "" && rest[0] != ':'
      invariant part + BeforeColon(rest) == BeforeColon(host)
      decreases |rest|
    {
      MoveFirst(part, rest[0], BeforeColon(rest[1..]));
      part := part + [rest[0]];
      rest := rest[1..];
    }
  }

  lemma MoveFirst(a: string, c: char, b: string)
    ensures a + ([c] + b) == a + [c] + b
  {
  }

  class WebauthnV2 {
    var rpid: string
    var allowedCAs: seq<string>
    var deniedCAs: seq<string>

    constructor ()
      ensures Value() == Webauthn("", [], [])
    {
      rpid, allowedCAs, deniedCAs := "", [], [];
    }

    function Value(): Webauthn
      reads this
    {
      Webauthn(rpid, allowedCAs, deniedCAs)
    }

    method SetRpid(env: Env, u: Option<U2F>) returns (e: Option<Error>)
      modifies `rpid
      ensures Value() == RpidSet(env, old(Value()), u) && e == RpidError(env, old(Value()), u)
    {
      if rpid != "" {
        return if env.parse(rpid) == None then Some(InvalidRpid) else None;
      }
      if u == None {
        return Some(MissingRpid);
      }
      var appId := u.value.appId;
      var parsed := env.parse(appId);
      if parsed == None {
        return Some(AppIdNotUrl);
      }
      if parsed.value.host != "" {
        rpid := FirstPart(parsed.value.host);
      } else if parsed.value.path == appId {
        rpid := appId;
      } else {
        return Some(RpidNotInferred);
      }
      return None;
    }

    method CheckAndSetDefaults(env: Env, u: Option<U2F>) returns (e: Option<Error>)
      modifies this
      ensures (Value(), e) == WebauthnChecked(env, old(Value()), u)
    {
      e := SetRpid(env, u);
      if e != None {
        return;
      }
      if u != None && |u.value.deviceCAs| > 0 && |allowedCAs| == 0 && |deniedCAs| == 0 {
        allowedCAs := u.value.deviceCAs;
      } else {
        var ok := CheckCerts(env, allowedCAs);
        if !ok {
          return Some(InvalidAllowedCA);
        }
      }
      var ok := CheckCerts(env, deniedCAs);
      return if ok then None else Some(InvalidDeniedCA);
    }
  }

  class AuthPreferenceV2 {
    var kind: string
    var version: string
    var metadata: Metadata
    var spec: Spec
    var webauthn: WebauthnV2?

    constructor (m: Metadata, s: Spec, w: WebauthnV2?)
      ensures kind == "" && version == "" && metadata == m && spec == s && webauthn == w
    {
      kind, version, metadata, spec, webauthn := "", "", m, s, w;
    }

    function WebauthnValue(): Option<Webauthn>
      reads this, webauthn
    {
      if webauthn == null then None else Some(webauthn.Value())
    }

    function Value(): Pref
      reads this, webauthn
    {
      Pref(kind, version, metadata, spec, WebauthnValue())
    }

    method CheckMetadata() returns (e: Option<Error>)
      modifies `metadata
      ensures metadata == MetadataDefaulted(old(metadata)) && e == MetadataError(metadata)
    {
      if metadata.name == "" {
        return Some(MissingName);
      }
      if metadata.namespace == "" {
        metadata := metadata.(namespace := NAMESPACE);
      }
      if metadata.expires != None {
        metadata := metadata.(expires := Some(Time(metadata.expires.value.instant, 0)));
      }
      var rest := metadata.labels.Keys;
      while rest != {}
        invariant rest <= metadata.labels.Keys
        invariant forall key | key in metadata.labels && key !in rest :: ValidLabelKey(key)
      {
        var key :| key in rest;
        if !ValidLabelKey(key) {
          return Some(InvalidLabelKey);
        }
        rest := rest - {key};
      }
      if Origin(metadata.labels) != "" && Origin(metadata.labels) !in ORIGIN_VALUES {
        return Some(InvalidOrigin);
      }
      return None;
    }

    method CheckSetRequireSessionMFA()
      modifies `spec
      ensures spec == MfaSynced(old(spec))
    {
      if spec.requireMFA != MfaOff {
        spec := spec.(requireSessionMFA := IsSessionMFARequired(spec.requireMFA));
      } else if spec.requireSessionMFA {
        spec := spec.(requireMFA := Session);
      }
    }

    method SetDefaults()
      modifies `spec, `metadata
      ensures spec == Defaulted(old(spec)) && metadata == WithOrigin(old(metadata))
    {
      if spec.authType == TypeUnset {
        spec := spec.(authType := Local);
      }
      if spec.secondFactor == FactorUnset {
        spec := spec.(secondFactor := Otp);
      }
      if spec.allowLocalAuth == None {
        spec := spec.(allowLocalAuth := Some(true));
      }
      if spec.disconnectExpiredCert == None {
        spec := spec.(disconnectExpiredCert := Some(false));
      }
      if spec.lockingMode == ModeUnset {
        spec := spec.(lockingMode := BestEffort);
      }
      if Origin(metadata.labels) == "" {
        metadata := metadata.(labels := metadata.labels[ORIGIN_LABEL := ORIGIN_DYNAMIC]);
      }
    }

    /** Validates the WebAuthn settings, first creating them when U2F settings can supply them. */
    method CheckFactor(env: Env) returns (e: Option<Error>)
      modifies `webauthn, webauthn
      ensures webauthn == old(webauthn) || fresh(webauthn)
      ensures (WebauthnValue(), e) == FactorChecked(env, old(WebauthnValue()), spec.u2f)
    {
      if spec.u2f != None {
        e := CheckU2f(env, spec.u2f.value);
        if e != None {
          return;
        }
        if webauthn == null {
          webauthn := new WebauthnV2();
        }
      }
      if webauthn == null {
        return Some(MissingWebauthn);
      }
      e := webauthn.CheckAndSetDefaults(env, spec.u2f);
    }

    method CheckSecondFactor(env: Env) returns (e: Option<Error>)
      modifies `webauthn, webauthn
      ensures webauthn == old(webauthn) || fresh(webauthn)
      ensures (WebauthnValue(), e) == SecondFactorChecked(env, spec, old(WebauthnValue()))
    {
      match spec.secondFactor {
        case Off =>
          e := None;
        case Otp =>
          e := None;
        case WebauthnFactor =>
          e := CheckFactor(env);
        case On =>
          e := CheckFactor(env);
        case Optional =>
          e := CheckFactor(env);
        case _ =>
          e := Some(UnsupportedFactor);
      }
    }

    method Finish() returns (e: Option<Error>)
      modifies `spec
      ensures spec == PasswordlessSet(old(spec)) && e == LateError(old(spec))
    {
      var sf := spec.secondFactor;
      var hasWebauthn := sf == WebauthnFactor || sf == On || sf == Optional;
      if spec.allowPasswordless == None {
        spec := spec.(allowPasswordless := Some(hasWebauthn));
      } else if !hasWebauthn && spec.allowPasswordless.value {
        return Some(PasswordlessNeedsWebauthn);
      }
      if spec.authType == Local {
        match spec.connector {
          case NoConnector =>
          case LocalConnector =>
          case PasswordlessConnector =>
            if !spec.allowPasswordless.value {
              return Some(PasswordlessNotAllowed);
            }
          case OtherConnector(_) =>
            return Some(InvalidConnector);
        }
      }
      return if spec.lockingMode == BestEffort || spec.lockingMode == Strict then None else Some(UnsupportedMode);
    }

    method CheckSpec(env: Env) returns (e: Option<Error>)
      modifies `spec, `webauthn, webauthn
      ensures webauthn == old(webauthn) || fresh(webauthn)
      ensures (spec, WebauthnValue(), e) == SpecChecked(env, old(spec), old(WebauthnValue()))
    {
      match spec.authType {
        case Local =>
          spec := spec.(allowLocalAuth := Some(true));
        case OtherType(_) =>
          return Some(UnsupportedType);
        case TypeUnset =>
          return Some(UnsupportedType);
        case _ =>
      }
      if spec.secondFactor == U2fFactor {
        spec := spec.(secondFactor := WebauthnFactor);
      }
      e := CheckSecondFactor(env);
      if e != None {
        return;
      }
      e := Finish();
    }

    method CheckAndSetDefaults(env: Env) returns (e: Option<Error>)
      modifies this, webauthn
      ensures webauthn == old(webauthn) || fresh(webauthn)
      ensures (Value(), e) == Checked(env, old(Value()))
    {
      kind := KIND;
      version := VERSION;
      metadata := metadata.(name := NAME);
      e := CheckMetadata();
      if e != None {
        return;
      }
      CheckSetRequireSessionMFA();
      SetDefaults();
      e := CheckSpec(env);
    }
  }
}
