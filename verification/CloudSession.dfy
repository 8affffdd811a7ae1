/**
 The refresh half of `cloud_session.py`: one saved session record, shared by every process of
 an installation, holding a refresh credential that the control plane accepts once.

 This module has the values (record, environment, reply), the decision of one refresh, and the
 class whose methods edit the record and the in-process fence.  `RotationProtocol` interleaves
 many such processes.
 */
module CloudSession {
  import opened Prelude

  const MAX_CREDENTIAL_BYTES := 8 * 1024

  // ---------- values ----------

  /** A cloud base URL: scheme and host, then the path. */
  datatype Url = Url(origin: string, path: string)

  function StripSlashes(path: string): (r: string)
    ensures r == "" || r[|r| - 1] != '/'
    ensures path == "" || path[|path| - 1] != '/' ==> r == path
  {
    if path != "" && path[|path| - 1] == '/' then StripSlashes(path[..|path| - 1]) else path
  }

  /** What `validate_cloud_base_url` returns for a URL it accepts. */
  function Normalize(u: Url): Url {
    Url(u.origin, StripSlashes(u.path))
  }

  /** Only slashes at the end are cut, and all of them. */
  lemma NormalizeCutsSlashes(u: Url)
    ensures var r := Normalize(u);
            && r.origin == u.origin && r.path <= u.path && (r.path == "" || r.path[|r.path| - 1] != '/')
            && forall k :: |r.path| <= k < |u.path| ==> u.path[k] == '/'
  {
    SlashesCut(u.path);
  }

  lemma SlashesCut(path: string)
    ensures var r := StripSlashes(path); r <= path && forall k :: |r| <= k < |path| ==> path[k] == '/'
  {
    if path != "" && path[|path| - 1] == '/' {
      SlashesCut(path[..|path| - 1]);
    }
  }

  lemma NormalizeIdempotent(u: Url)
    ensures Normalize(Normalize(u)) == Normalize(u)
  {
  }

  datatype Subject = Device | Member

  /** A raw token subject, by what `_validated_token_subject` makes of it after trimming and
      lower-casing: absent or blank, one of the two names, or anything else. */
  datatype SubjectText = Unset | Named(subject: Subject) | Unrecognised

  /** SHA-256 taken as injective: a digest determines the credential it was made from. */
  datatype Digest = Digest(preimage: string)

  /** The saved session; `EmptyRecord` stands for an absent file or `{}`. */
  datatype Record = Record(
    refresh: Field,              // refresh_credential
    retired: Option<Digest>,     // refresh_unusable_digest
    control: Option<Url>,
    compute: Option<Url>,
    organization: string,
    subject: SubjectText,         // token_subject
    entitlement: map<string, string>)

  const EmptyRecord := Record(Missing, None, None, None, "", Unset, map[])

  /** The variables a process reads; they may differ between processes and over time. */
  datatype Environment = Environment(
    credential: string, control: Option<Url>, compute: Option<Url>, subject: SubjectText)

  /** `text_field` on one value: a bounded string, else "". */
  function TextField(f: Field): string {
    if f.Text? && |Strip(f.text)| <= MAX_CREDENTIAL_BYTES then Strip(f.text) else ""
  }

  predicate VisibleAscii(s: string) {
    forall c | c in s :: '\U{21}' <= c <= '\U{7E}'
  }

  /** `credential_text`: a bounded visible-ASCII credential, else "". */
  function CredentialText(raw: string): (r: string)
    ensures VisibleAscii(r) && |r| <= MAX_CREDENTIAL_BYTES
  {
    var s := TextField(Text(raw));
    if VisibleAscii(s) then s else ""
  }

  function CredentialField(f: Field): (r: string)
    ensures r == if f.Text? then CredentialText(f.text) else ""
  {
    if f.Text? then CredentialText(f.text) else ""
  }

  /** A credential is the trimmed text when that is short enough and visible ASCII throughout; else nothing. */
  lemma CredentialTextIsTrimmed(raw: string)
    ensures var s := Strip(raw);
            CredentialText(raw) == if |s| <= MAX_CREDENTIAL_BYTES && VisibleAscii(s) then s else ""
  {
  }

  lemma CredentialTextStable(raw: string)
    ensures CredentialText(CredentialText(raw)) == CredentialText(raw)
  {
    var r := CredentialText(raw);
    if r != "" {
      assert r == Strip(raw);
      assert Strip(r) == r;
    }
  }

  /** `_validated_token_subject`; `None` is the error it raises. */
  function ValidatedSubject(raw: SubjectText): Option<Subject> {
    match raw
    case Unset => Some(Member)
    case Named(s) => Some(s)
    case Unrecognised => None
  }

  /** `_token_subject`: the saved subject wins over the environment's. */
  function TokenSubject(saved: Record, env: Environment): Option<Subject> {
    ValidatedSubject(if saved.subject.Unset? then env.subject else saved.subject)
  }

  predicate PersistedSelected(saved: Record) {
    NonBlank(saved.refresh)
  }

  predicate NonBlank(f: Field) {
    f.Text? && Strip(f.text) != ""
  }

  function SelectedRefresh(saved: Record, env: Environment): string {
    Selected(saved.refresh, env.credential)
  }

  function Selected(stored: Field, environment: string): string {
    if NonBlank(stored) then CredentialText(stored.text) else CredentialText(environment)
  }

  predicate SelectedInvalid(saved: Record, env: Environment) {
    Invalid(saved.refresh, env.credential)
  }

  predicate Invalid(stored: Field, environment: string) {
    if NonBlank(stored) then CredentialText(stored.text) == ""
    else Strip(environment) != "" && CredentialText(environment) == ""
  }

  /** `_refresh_is_unusable`: retired on disk, or fenced by this process. */
  predicate IsUnusable(saved: Record, fence: set<Digest>, value: string) {
    value != "" && (saved.retired == Some(Digest(value)) || Digest(value) in fence)
  }

  function Either(a: Option<Url>, b: Option<Url>): Option<Url> {
    if a.Some? then a else b
  }

  function FamilyUrls(saved: Record, env: Environment): (Option<Url>, Option<Url>) {
    if PersistedSelected(saved) then (saved.control, saved.compute)
    else (Either(env.control, saved.control), Either(env.compute, saved.compute))
  }

  // ---------- replies ----------

  /** `token_subject` of a reply: left out, exactly one of the two names, or any other value. */
  datatype SubjectAnswer = Omitted | Exactly(subject: Subject) | Otherwise

  /** Everything `_post_refresh` can observe after it has begun to send. */
  datatype Reply =
    | HttpStatus(code: int)
    | UrlFailure(deadlineExpired: bool)
    | TransportLost
    | MalformedStatusLine
    | OtherHttpFailure
    | BodyUnreadable
    | BodyOversized
    | BodyNotObject
    | Body(access: Field, organization: Field, refresh: Field, subject: SubjectAnswer, declared: map<string, string>)

  /** What the reply alone says: can the control plane have consumed the credential before it?  Either it
      answered that the credential is of no use, or the request may have reached it with the answer lost, or it
      answered with a success whose body may be unreadable. */
  predicate MayHaveConsumed(reply: Reply) {
    match reply
    case HttpStatus(code) => code in {401, 403, 404}
    case UrlFailure(deadlineExpired) => deadlineExpired
    case OtherHttpFailure => false
    case _ => true
  }

  /** The reply carries every part of a rotation, for the subject that was asked for. */
  predicate IsRotation(reply: Reply, subject: Subject, savedOrganization: string) {
    && reply.Body? && CredentialField(reply.access) != "" && CredentialField(reply.refresh) != ""
    && (TextField(reply.organization) != "" || TextField(Text(savedOrganization)) != "")
    && (reply.subject == Omitted || reply.subject == Exactly(subject))
  }

  /** `Unspent` is an error without `refresh_unusable`; `Spent` is one with it. */
  datatype Outcome =
    | Unspent(status: int)
    | Spent(status: int, quiet: bool)   // quiet: a failure to record the retirement is swallowed
    | Rotated(access: string, organization: string, refresh: string, declared: map<string, string>)

  function Classify(reply: Reply, subject: Subject, savedOrganization: string): Outcome {
    match reply
    case HttpStatus(code) =>
      if code == 401 || code == 403 then Spent(code, false)
      else if code == 404 then Spent(409, false)
      else if code == 402 || code == 429 then Unspent(code)
      else Unspent(503)
    case UrlFailure(late) => if late then Spent(409, false) else Unspent(503)
    case OtherHttpFailure => Unspent(503)
    case TransportLost => Spent(409, false)
    case MalformedStatusLine => Spent(409, false)
    case BodyUnreadable => Spent(409, false)
    case BodyOversized => Spent(409, false)
    case BodyNotObject => Spent(409, false)
    case Body(access, organization, refresh, answered, declared) =>
      ClassifyBody(CredentialField(access),
                   AnsweredOrSaved(TextField(organization), TextField(Text(savedOrganization))),
                   CredentialField(refresh), answered == Omitted || answered == Exactly(subject), declared)
  }

  function AnsweredOrSaved(answered: string, saved: string): string {
    if answered != "" then answered else saved
  }

  /** The verdict on a body from its validated fields. */
  function ClassifyBody(access: string, organization: string, refresh: string, sameSubject: bool,
                        declared: map<string, string>): Outcome
  {
    if access == "" || organization == "" || refresh == "" then Spent(409, false)
    else if !sameSubject then Spent(409, true)
    else Rotated(access, organization, refresh, declared)
  }

  // ---------- edits of the record ----------

  const ENTITLEMENT_KEYS: set<string> :=
    {"plan", "cloud_access_active", "cloud_features", "status", "is_trial", "trial_consumed", "trial_ends_at"}

  /** A declared plan that differs from the saved one drops every key it does not restate. */
  function MergeEntitlement(saved: map<string, string>, declared: map<string, string>): map<string, string> {
    if "plan" !in declared then saved
    else if "plan" in saved && saved["plan"] == declared["plan"] then saved + declared
    else (saved - (ENTITLEMENT_KEYS - declared.Keys)) + declared
  }

  /** The one-time answer of the control plane to a bootstrap.  Unlike the saved field, a subject made of
      blanks is not recognised here. */
  datatype BootstrapAnswer = BootstrapAnswer(
    refresh: Field, organization: Field, subject: SubjectText, declared: map<string, string>)

  /** The record built from a bootstrap answer; `None` when the answer is refused. */
  function BootstrapRecord(answer: BootstrapAnswer, control: Url, compute: Option<Url>): Option<Record> {
    var refresh, organization := CredentialField(answer.refresh), TextField(answer.organization);
    var subject := ValidatedSubject(answer.subject);
    if refresh == "" || organization == "" || subject.None? then None
    else
      Some(Record(Text(refresh), None, Some(Normalize(control)),
                  if compute.Some? then Some(Normalize(compute.value)) else None,
                  organization, Named(subject.value), answer.declared))
  }

  /** The request one refresh will make. */
  datatype Call = Call(refresh: string, control: Url, compute: Option<Url>, subject: Subject)

  function RotatedRecord(saved: Record, call: Call, o: Outcome): Record
    requires o.Rotated?
  {
    Record(Text(o.refresh), None, Some(call.control), call.compute, o.organization,
           Named(call.subject), MergeEntitlement(saved.entitlement, o.declared))
  }

  function RetiredRecord(saved: Record, value: string): Record {
    saved.(refresh := Missing, retired := Some(Digest(value)))
  }

  function DeniedRecord(saved: Record): Record {
    saved.(entitlement :=
      saved.entitlement["cloud_access_active" := "false"]["cloud_features" := "[]"] - {"status"})
  }

  // ---------- the decision taken under the lock ----------

  /** Answers of the outside world to the checks made before a credential is sent. */
  datatype Reach = Reach(control: bool, compute: bool, inTime: bool)

  datatype Decision = Refuse(status: int) | Send(call: Call)

  /** The decision from what the record and the environment select. */
  function DecideOn(refresh: string, invalid: bool, unusable: bool, control: Option<Url>, compute: Option<Url>,
                    subject: Option<Subject>, requireCompute: bool, reach: Reach): Decision
  {
    if invalid || unusable then Refuse(409)
    else if refresh == "" || control.None? || (requireCompute && compute.None?) then Refuse(401)
    else if !reach.control || (requireCompute && !reach.compute) || !reach.inTime then Refuse(503)
    else if subject.None? then Refuse(409)
    else
      Send(Call(refresh, Normalize(control.value),
                if requireCompute then Some(Normalize(compute.value)) else compute, subject.value))
  }

  /** `access_for_workspace` from loading the record to the moment before the POST. */
  function Decide(saved: Record, fence: set<Digest>, env: Environment, requireCompute: bool, reach: Reach): Decision {
    var refresh := SelectedRefresh(saved, env);
    var (control, compute) := FamilyUrls(saved, env);
    DecideOn(refresh, SelectedInvalid(saved, env), IsUnusable(saved, fence, refresh), control, compute,
             TokenSubject(saved, env), requireCompute, reach)
  }

  /** Nothing is ever sent that the record retires, that this process fenced, or that is not a credential. */
  lemma SendIsUsable(saved: Record, fence: set<Digest>, env: Environment, requireCompute: bool, reach: Reach)
    requires Decide(saved, fence, env, requireCompute, reach).Send?
    ensures var c := Decide(saved, fence, env, requireCompute, reach).call;
            && c.refresh != "" && VisibleAscii(c.refresh)
            && Digest(c.refresh) !in fence && saved.retired != Some(Digest(c.refresh))
            && (PersistedSelected(saved) ==>
                  && saved.refresh == Text(saved.refresh.text) && c.refresh == CredentialText(saved.refresh.text)
                  && saved.control.Some? && c.control == Normalize(saved.control.value))
            && (!PersistedSelected(saved) ==> c.refresh == CredentialText(env.credential))
  {
  }

  /** Which credential text a process looks at: the saved one unless it is blank, else the environment's. */
  function Offered(saved: Record, env: Environment): string {
    if saved.refresh.Text? && Strip(saved.refresh.text) != "" then saved.refresh.text else env.credential
  }

  /** The URL a refresh goes to: a saved family keeps its own, another may choose through the environment. */
  function Destination(saved: Record, here: Option<Url>, there: Option<Url>): Option<Url> {
    if (saved.refresh.Text? && Strip(saved.refresh.text) != "") || there.None? then here else there
  }

  lemma DecisionParts(saved: Record, env: Environment)
    ensures SelectedRefresh(saved, env) == CredentialText(Offered(saved, env))
    ensures SelectedInvalid(saved, env)
       <==> CredentialText(Offered(saved, env)) == "" && Strip(Offered(saved, env)) != ""
    ensures FamilyUrls(saved, env)
         == (Destination(saved, saved.control, env.control), Destination(saved, saved.compute, env.compute))
    ensures var subject := if saved.subject.Unset? then env.subject else saved.subject;
            TokenSubject(saved, env) == (if subject.Unrecognised? then None
                                         else Some(if subject.Named? then subject.subject else Member))
  {
  }

  /** When a refresh is sent, and what is sent: the offered credential to its destinations, for the saved subject
      if there is one. */
  lemma SendsExactlyWhen(saved: Record, fence: set<Digest>, env: Environment, requireCompute: bool, reach: Reach)
    ensures var credential := CredentialText(Offered(saved, env));
            var control := Destination(saved, saved.control, env.control);
            var compute := Destination(saved, saved.compute, env.compute);
            var subject := if saved.subject.Unset? then env.subject else saved.subject;
            var d := Decide(saved, fence, env, requireCompute, reach);
            && (d.Send? <==>
                  && credential != "" && saved.retired != Some(Digest(credential)) && Digest(credential) !in fence
                  && control.Some? && (requireCompute ==> compute.Some? && reach.compute)
                  && reach.control && reach.inTime && !subject.Unrecognised?)
            && (d.Send? ==>
                  && d.call.refresh == credential && d.call.control == Normalize(control.value)
                  && d.call.compute == (if requireCompute then Some(Normalize(compute.value)) else compute)
                  && d.call.subject == (if subject.Named? then subject.subject else Member))
  {
    DecisionParts(saved, env);
    DecidedFrom(CredentialText(Offered(saved, env)), SelectedInvalid(saved, env),
                IsUnusable(saved, fence, SelectedRefresh(saved, env)), FamilyUrls(saved, env).0,
                FamilyUrls(saved, env).1, TokenSubject(saved, env), requireCompute, reach);
  }

  lemma DecidedFrom(refresh: string, invalid: bool, unusable: bool, control: Option<Url>, compute: Option<Url>,
                    subject: Option<Subject>, requireCompute: bool, reach: Reach)
    ensures var d := DecideOn(refresh, invalid, unusable, control, compute, subject, requireCompute, reach);
            var unconnected := refresh == "" || control.None? || (requireCompute && compute.None?);
            var unreachable := !reach.control || !reach.inTime || (requireCompute && !reach.compute);
            && (d.Send? <==> !invalid && !unusable && !unconnected && !unreachable && subject.Some?)
            && (d.Send? ==>
                  && d.call.refresh == refresh && d.call.control == Normalize(control.value)
                  && d.call.compute == (if requireCompute then Some(Normalize(compute.value)) else compute)
                  && d.call.subject == subject.value)
            && (d.Refuse? ==> d.status in {401, 409, 503})
            && (d == Refuse(401) <==> !invalid && !unusable && unconnected)
            && (d == Refuse(503) <==> !invalid && !unusable && !unconnected && unreachable)
  {
  }

  /** Which status a refused refresh reports: 401 when there is nothing to connect with, 503 when a destination
      cannot be reached in time, and 409 otherwise: the credential is unusable or its subject unknown. */
  lemma RefusesWith(saved: Record, fence: set<Digest>, env: Environment, requireCompute: bool, reach: Reach)
    ensures var text := Offered(saved, env);
            var unusable := if CredentialText(text) == "" then Strip(text) != ""
                            else saved.retired == Some(Digest(CredentialText(text)))
                                 || Digest(CredentialText(text)) in fence;
            var unconnected := CredentialText(text) == "" || Destination(saved, saved.control, env.control).None?
                               || (requireCompute && Destination(saved, saved.compute, env.compute).None?);
            var unreachable := !reach.control || !reach.inTime || (requireCompute && !reach.compute);
            var d := Decide(saved, fence, env, requireCompute, reach);
            && (d.Refuse? ==> d.status in {401, 409, 503})
            && (d == Refuse(401) <==> !unusable && unconnected)
            && (d == Refuse(503) <==> !unusable && !unconnected && unreachable)
  {
    DecisionParts(saved, env);
    DecidedFrom(CredentialText(Offered(saved, env)), SelectedInvalid(saved, env),
                IsUnusable(saved, fence, SelectedRefresh(saved, env)), FamilyUrls(saved, env).0,
                FamilyUrls(saved, env).1, TokenSubject(saved, env), requireCompute, reach);
  }

  // ---------- one process ----------

  /** What an attempt to replace the session file did: the replacement is atomic, but the
      call can still fail after it (the directory flush). */
  datatype Write = Landed | LandedThenRaised | NotLanded

  function Written(before: Record, after: Record, w: Write): Record {
    if w.NotLanded? then before else after
  }

  datatype Failure = Status(code: int) | StateFault
  datatype Result = Granted(access: string, organization: string, compute: Option<Url>) | Failed(failure: Failure)

  /** The effect of one locked refresh: record, fence, the call that was POSTed, the result. */
  datatype Effect = Effect(record: Record, fence: set<Digest>, posted: Option<Call>, result: Result)

  function SettleEffect(saved: Record, fence: set<Digest>, call: Call, outcome: Outcome,
                        first: Write, second: Write, lateAfter: bool): Effect
  {
    var fenced := fence + {Digest(call.refresh)};
    var retired := RetiredRecord(saved, call.refresh);
    match outcome
    case Unspent(status) => Effect(saved, fence, Some(call), Failed(Status(status)))
    case Spent(status, quiet) =>
      Effect(Written(saved, retired, second), fenced, Some(call),
             Failed(if second.Landed? || quiet then Status(status) else StateFault))
    case Rotated(access, organization, _, _) =>
      var updated := RotatedRecord(saved, call, outcome);
      if first.Landed? then
        Effect(updated, fence, Some(call),
               if lateAfter then Failed(Status(503)) else Granted(access, organization, call.compute))
      else
        Effect(Written(Written(saved, updated, first), retired, second), fenced, Some(call), Failed(Status(409)))
  }

  function AccessEffect(saved: Record, fence: set<Digest>, env: Environment, requireCompute: bool, reach: Reach,
                        reply: Reply, first: Write, second: Write, lateAfter: bool): Effect
  {
    match Decide(saved, fence, env, requireCompute, reach)
    case Refuse(status) => Effect(saved, fence, None, Failed(Status(status)))
    case Send(call) =>
      SettleEffect(saved, fence, call, Classify(reply, call.subject, saved.organization), first, second, lateAfter)
  }

  /** What becomes of a reply: the three outcomes are told apart by the reply and the call alone. */
  lemma ClassifiedBy(reply: Reply, subject: Subject, organization: string)
    ensures var o := Classify(reply, subject, organization);
            && (o.Unspent? <==> !MayHaveConsumed(reply))
            && (o.Rotated? <==> IsRotation(reply, subject, organization))
            && (o.Unspent? ==> o.status == if reply.HttpStatus? && reply.code in {402, 429} then reply.code else 503)
            && (o.Spent? ==> o.status == if reply.HttpStatus? && reply.code != 404 then reply.code else 409)
            && (o.Spent? && o.quiet ==> reply.Body?)
  {
  }

  lemma RotationParts(reply: Reply, subject: Subject, organization: string)
    requires IsRotation(reply, subject, organization)
    ensures Classify(reply, subject, organization)
         == Rotated(CredentialField(reply.access),
                    AnsweredOrSaved(TextField(reply.organization), TextField(Text(organization))),
                    CredentialField(reply.refresh), reply.declared)
  {
    CompleteBody(CredentialField(reply.access), TextField(reply.organization), TextField(Text(organization)),
                 CredentialField(reply.refresh), reply.declared);
  }

  lemma CompleteBody(access: string, answered: string, saved: string, refresh: string, declared: map<string, string>)
    requires access != "" && refresh != "" && (answered != "" || saved != "")
    ensures ClassifyBody(access, AnsweredOrSaved(answered, saved), refresh, true, declared)
         == Rotated(access, AnsweredOrSaved(answered, saved), refresh, declared)
  {
  }

  /** A reply after which nothing can have been consumed leaves record and fence as they were. */
  lemma UnspentRefreshChangesNothing(saved: Record, fence: set<Digest>, env: Environment, requireCompute: bool,
                                     reach: Reach, reply: Reply, first: Write, second: Write, lateAfter: bool)
    requires Decide(saved, fence, env, requireCompute, reach).Send? && !MayHaveConsumed(reply)
    ensures var call := Decide(saved, fence, env, requireCompute, reach).call;
            var status := if reply.HttpStatus? && reply.code in {402, 429} then reply.code else 503;
            AccessEffect(saved, fence, env, requireCompute, reach, reply, first, second, lateAfter)
            == Effect(saved, fence, Some(call), Failed(Status(status)))
  {
    ClassifiedBy(reply, Decide(saved, fence, env, requireCompute, reach).call.subject, saved.organization);
  }

  /** A rotation that lands replaces the whole family: the new credential, bound to the URLs and the subject of
      the call.  When the time is up the answer is withheld and the rotation kept. */
  lemma RotationIsStored(saved: Record, fence: set<Digest>, env: Environment, requireCompute: bool,
                         reach: Reach, reply: Reply, second: Write, lateAfter: bool)
    requires Decide(saved, fence, env, requireCompute, reach).Send?
    requires IsRotation(reply, Decide(saved, fence, env, requireCompute, reach).call.subject, saved.organization)
    ensures var call := Decide(saved, fence, env, requireCompute, reach).call;
            var e := AccessEffect(saved, fence, env, requireCompute, reach, reply, Landed, second, lateAfter);
            && e.posted == Some(call) && e.fence == fence
            && StoresTheRotation(e.record, saved, call, reply)
            && e.result == if lateAfter then Failed(Status(503))
                           else Granted(CredentialField(reply.access), e.record.organization, call.compute)
  {
    var d := Decide(saved, fence, env, requireCompute, reach);
    RotationParts(reply, d.call.subject, saved.organization);
    StoredParts(saved, fence, d.call, Classify(reply, d.call.subject, saved.organization), second, lateAfter);
  }

  predicate StoresTheRotation(record: Record, saved: Record, call: Call, reply: Reply)
    requires reply.Body?
  {
    && record.refresh == Text(CredentialField(reply.refresh)) && record.retired == None
    && record.control == Some(call.control) && record.compute == call.compute
    && record.subject == Named(call.subject)
    && record.entitlement == MergeEntitlement(saved.entitlement, reply.declared)
    && record.organization == (if TextField(reply.organization) != "" then TextField(reply.organization)
                               else TextField(Text(saved.organization)))
  }

  lemma StoredParts(saved: Record, fence: set<Digest>, call: Call, o: Outcome, second: Write, lateAfter: bool)
    requires o.Rotated?
    ensures var e := SettleEffect(saved, fence, call, o, Landed, second, lateAfter);
            && e.posted == Some(call) && e.fence == fence && e.record.retired == None
            && e.record.refresh == Text(o.refresh) && e.record.organization == o.organization
            && e.record.control == Some(call.control) && e.record.compute == call.compute
            && e.record.subject == Named(call.subject)
            && e.record.entitlement == MergeEntitlement(saved.entitlement, o.declared)
            && e.result == if lateAfter then Failed(Status(503)) else Granted(o.access, o.organization, call.compute)
  {
  }

  /** In every other case in which the credential may have been consumed it is fenced, retired on disk unless that
      write does not land, and the caller is told to connect again. */
  lemma SpentRefreshIsRetired(saved: Record, fence: set<Digest>, env: Environment, requireCompute: bool,
                              reach: Reach, reply: Reply, first: Write, second: Write, lateAfter: bool)
    requires Decide(saved, fence, env, requireCompute, reach).Send? && MayHaveConsumed(reply)
    requires !first.Landed? ||
             !IsRotation(reply, Decide(saved, fence, env, requireCompute, reach).call.subject, saved.organization)
    ensures var call := Decide(saved, fence, env, requireCompute, reach).call;
            var e := AccessEffect(saved, fence, env, requireCompute, reach, reply, first, second, lateAfter);
            && e.posted == Some(call)
            && Retires(e, saved, fence, call.refresh, second, first.LandedThenRaised? && reply.Body?)
            && (e.result == Failed(StateFault) ==> !second.Landed?)
            && (e.result != Failed(StateFault) ==>
                  e.result == Failed(Status(if reply.HttpStatus? && reply.code != 404 then reply.code else 409)))
            && (!second.Landed? && !reply.Body? ==> e.result == Failed(StateFault))
  {
    var d := Decide(saved, fence, env, requireCompute, reach);
    ClassifiedBy(reply, d.call.subject, saved.organization);
    RetiredParts(saved, fence, d.call, Classify(reply, d.call.subject, saved.organization), first, second, lateAfter);
  }

  /** The credential is fenced, and the record that was written, if any, is the saved one without it; `between`
      when a rotation may have reached the disk before. */
  predicate Retires(e: Effect, saved: Record, fence: set<Digest>, credential: string, write: Write, between: bool) {
    && e.fence == fence + {Digest(credential)}
    && (!write.NotLanded? ==> e.record == saved.(refresh := Missing, retired := Some(Digest(credential))))
    && (write.NotLanded? && !between ==> e.record == saved)
  }

  lemma RetiredParts(saved: Record, fence: set<Digest>, call: Call, o: Outcome, first: Write, second: Write,
                     lateAfter: bool)
    requires !o.Unspent? && (first.Landed? ==> !o.Rotated?)
    ensures var e := SettleEffect(saved, fence, call, o, first, second, lateAfter);
            && e.posted == Some(call)
            && Retires(e, saved, fence, call.refresh, second, o.Rotated? && first.LandedThenRaised?)
            && e.result == if o.Rotated? then Failed(Status(409))
                           else if second.Landed? || o.quiet then Failed(Status(o.status)) else Failed(StateFault)
  {
  }

  /** What the rotation keeps of the saved entitlement: a declared key has its declared value, and a key that is
      not declared keeps its saved one unless the plan changed and it belongs to the plan. */
  lemma EntitlementAfterRotation(saved: map<string, string>, declared: map<string, string>, key: string)
    ensures var merged := MergeEntitlement(saved, declared);
            var samePlan := "plan" in declared && "plan" in saved && saved["plan"] == declared["plan"];
            && ("plan" in declared && key in declared ==> key in merged && merged[key] == declared[key])
            && ("plan" !in declared || key !in declared ==>
                  (key in merged <==>
                     key in saved && ("plan" !in declared || samePlan || key !in ENTITLEMENT_KEYS))
                  && (key in merged ==> merged[key] == saved[key]))
  {
  }

  /** `cloud_session.json`. */
  class SessionFile {
    var record: Record

    constructor ()
      ensures record == EmptyRecord
    {
      record := EmptyRecord;
    }

    /** `_save`: an atomic replacement that may fail before or after it lands. */
    method Save(value: Record, w: Write) returns (raised: bool)
      modifies this
      ensures record == Written(old(record), value, w)
      ensures raised <==> !w.Landed?
    {
      if !w.NotLanded? {
        record := value;
      }
      raised := !w.Landed?;
    }
  }

  /** One process: the module-level fence `_UNUSABLE_REFRESHES` and the shared file.  Each
      method is the body of one critical section of the refresh lock. */
  class SessionProcess {
    const file: SessionFile
    var unusable: set<Digest>

    constructor (file: SessionFile)
      ensures this.file == file && unusable == {}
    {
      this.file := file;
      unusable := {};
    }

    /** `_mark_refresh_unusable`: the fence is set whether or not the record can be written. */
    method MarkRefreshUnusable(saved: Record, value: string, w: Write) returns (raised: bool)
      requires value != ""
      modifies this, file
      ensures unusable == old(unusable) + {Digest(value)}
      ensures file.record == Written(old(file.record), RetiredRecord(saved, value), w)
      ensures raised <==> !w.Landed?
    {
      unusable := unusable + {Digest(value)};
      raised := file.Save(saved.(refresh := Missing, retired := Some(Digest(value))), w);
    }

    /** `access_for_workspace` up to the POST; it changes nothing. */
    method Prepare(saved: Record, env: Environment, requireCompute: bool, reach: Reach) returns (d: Decision)
      ensures d == Decide(saved, unusable, env, requireCompute, reach)
    {
      if SelectedInvalid(saved, env) {
        return Refuse(409);
      }
      var refresh := SelectedRefresh(saved, env);
      if IsUnusable(saved, unusable, refresh) {
        return Refuse(409);
      }
      var (control, compute) := FamilyUrls(saved, env);
      if refresh == "" || control.None? || (requireCompute && compute.None?) {
        return Refuse(401);
      }
      if !reach.control || (requireCompute && !reach.compute) || !reach.inTime {
        return Refuse(503);
      }
      var boundControl := Normalize(control.value);
      if requireCompute {
        compute := Some(Normalize(compute.value));
      }
      var subject := TokenSubject(saved, env);
      if subject.None? {
        return Refuse(409);
      }
      d := Send(Call(refresh, boundControl, compute, subject.value));
    }

    /** `access_for_workspace` after the POST: persist the rotation or retire what was spent. */
    method Settle(saved: Record, call: Call, outcome: Outcome, first: Write, second: Write, lateAfter: bool)
      returns (result: Result)
      requires call.refresh != "" && file.record == saved
      modifies this, file
      ensures Effect(file.record, unusable, Some(call), result)
           == SettleEffect(saved, old(unusable), call, outcome, first, second, lateAfter)
    {
      match outcome {
        case Unspent(status) =>
          result := Failed(Status(status));
        case Spent(status, quiet) =>
          var raised := MarkRefreshUnusable(saved, call.refresh, second);
          result := Failed(if raised && !quiet then StateFault else Status(status));
        case Rotated(access, organization, _, _) =>
          var raised := file.Save(RotatedRecord(saved, call, outcome), first);
          if raised {
            unusable := unusable + {Digest(call.refresh)};
            var _ := MarkRefreshUnusable(saved, call.refresh, second);
            result := Failed(Status(409));
          } else if lateAfter {
            result := Failed(Status(503));
          } else {
            result := Granted(access, organization, call.compute);
          }
      }
    }

    /** `access_for_workspace`: one refresh, from taking the lock to releasing it. */
    method AccessForWorkspace(env: Environment, requireCompute: bool, reach: Reach, reply: Reply,
                              first: Write, second: Write, lateAfter: bool)
      returns (posted: Option<Call>, result: Result)
      modifies this, file
      ensures Effect(file.record, unusable, posted, result)
           == AccessEffect(old(file.record), old(unusable), env, requireCompute, reach, reply, first, second, lateAfter)
    {
      var saved := file.record;
      var decision := Prepare(saved, env, requireCompute, reach);
      match decision {
        case Refuse(status) =>
          posted, result := None, Failed(Status(status));
        case Send(call) =>
          SendIsUsable(saved, unusable, env, requireCompute, reach);
          posted := Some(call);
          result := Settle(saved, call, Classify(reply, call.subject, saved.organization), first, second, lateAfter);
      }
    }

    /** `record_billing_denial`. */
    method RecordBillingDenial(w: Write) returns (newlyDenied: bool, raised: bool)
      modifies file
      ensures old(file.record) == EmptyRecord ==> file.record == EmptyRecord && !newlyDenied && !raised
      ensures old(file.record) != EmptyRecord ==>
                && file.record == Written(old(file.record), DeniedRecord(old(file.record)), w)
                && (raised <==> !w.Landed?)
                && (newlyDenied <==> !raised && !Denied(old(file.record)))
    {
      var saved := file.record;
      if saved == EmptyRecord {
        return false, false;
      }
      raised := file.Save(DeniedRecord(saved), w);
      newlyDenied := !raised && !Denied(saved);
    }

    /** `save_bootstrap`: an incomplete answer is refused before the file is touched. */
    method SaveBootstrap(answer: BootstrapAnswer, control: Url, compute: Option<Url>, w: Write) returns (raised: bool)
      modifies file
      ensures match BootstrapRecord(answer, control, compute)
              case None => raised && file.record == old(file.record)
              case Some(value) => file.record == Written(old(file.record), value, w) && (raised <==> !w.Landed?)
    {
      var refresh, organization := CredentialField(answer.refresh), TextField(answer.organization);
      if refresh == "" || organization == "" {
        return true;
      }
      var subject := ValidatedSubject(answer.subject);
      if subject.None? {
        return true;
      }
      var boundCompute := if compute.Some? then Some(Normalize(compute.value)) else None;
      raised := file.Save(Record(Text(refresh), None, Some(Normalize(control)), boundCompute, organization,
                                 Named(subject.value), answer.declared), w);
    }
  }

  /** A bootstrap answer that is saved starts a family: whatever the environment holds, every process
      that has not fenced it sends exactly this credential, to the URL and for the subject of the answer. */
  lemma BootstrapStartsAFamily(answer: BootstrapAnswer, control: Url, compute: Option<Url>,
                               fence: set<Digest>, env: Environment, reach: Reach)
    requires BootstrapRecord(answer, control, compute).Some? && reach.control && reach.inTime
    requires Digest(CredentialField(answer.refresh)) !in fence
    ensures var saved := BootstrapRecord(answer, control, compute).value;
            && PersistedSelected(saved)
            && Decide(saved, fence, env, false, reach)
            == Send(Call(CredentialField(answer.refresh), Normalize(control), saved.compute,
                         ValidatedSubject(answer.subject).value))
  {
    var refresh := CredentialField(answer.refresh);
    CredentialTextStable(answer.refresh.text);
    assert CredentialText(refresh) == refresh;
    NormalizeIdempotent(control);
    StoredIsSent(BootstrapRecord(answer, control, compute).value, refresh, fence, env, reach);
  }

  /** Which bootstrap answers are saved: a credential, an organization, and no unknown subject. */
  lemma BootstrapIsSavedExactlyWhen(answer: BootstrapAnswer, control: Url, compute: Option<Url>)
    ensures var r := BootstrapRecord(answer, control, compute);
            && (r.Some? <==> CredentialField(answer.refresh) != "" && TextField(answer.organization) != ""
                             && !answer.subject.Unrecognised?)
            && (r.Some? ==>
                  && r.value.organization == TextField(answer.organization) && r.value.entitlement == answer.declared
                  && r.value.compute.Some? == compute.Some?
                  && (compute.Some? ==> r.value.compute.value == Normalize(compute.value)))
  {
  }

  lemma StoredIsSent(saved: Record, refresh: string, fence: set<Digest>, env: Environment, reach: Reach)
    requires saved.refresh == Text(refresh) && refresh != "" && CredentialText(refresh) == refresh
    requires saved.retired.None? && saved.control.Some? && saved.subject.Named? && Digest(refresh) !in fence
    requires reach.control && reach.inTime
    ensures PersistedSelected(saved)
    ensures Decide(saved, fence, env, false, reach)
         == Send(Call(refresh, Normalize(saved.control.value), saved.compute, saved.subject.subject))
  {
    assert Strip(refresh) != "";
  }

  predicate Denied(saved: Record) {
    && "cloud_access_active" in saved.entitlement && saved.entitlement["cloud_access_active"] == "false"
    && ("cloud_features" in saved.entitlement ==> saved.entitlement["cloud_features"] == "[]")
  }

  /** A billing denial touches nothing that decides a later refresh. */
  lemma DenialKeepsTheFamily(saved: Record, fence: set<Digest>, env: Environment, requireCompute: bool, reach: Reach)
    ensures Decide(DeniedRecord(saved), fence, env, requireCompute, reach)
         == Decide(saved, fence, env, requireCompute, reach)
  {
    DecisionReadsTheFamilyOnly(DeniedRecord(saved), saved, fence, env, requireCompute, reach);
  }

  lemma DecisionReadsTheFamilyOnly(a: Record, b: Record, fence: set<Digest>, env: Environment,
                                   requireCompute: bool, reach: Reach)
    requires a.(entitlement := b.entitlement) == b
    ensures Decide(a, fence, env, requireCompute, reach) == Decide(b, fence, env, requireCompute, reach)
  {
    SamePieces(a, b, env);
  }

  lemma SamePieces(a: Record, b: Record, env: Environment)
    requires a.(entitlement := b.entitlement) == b
    ensures SelectedRefresh(a, env) == SelectedRefresh(b, env) && a.retired == b.retired
    ensures SelectedInvalid(a, env) == SelectedInvalid(b, env)
    ensures FamilyUrls(a, env) == FamilyUrls(b, env) && TokenSubject(a, env) == TokenSubject(b, env)
  {
    assert a.refresh == b.refresh && a.control == b.control && a.compute == b.compute && a.subject == b.subject;
  }

  /** A denial clears access, features and status, and nothing else of the record. */
  lemma DenialClears(saved: Record, key: string)
    ensures var denied := DeniedRecord(saved);
            && denied.(entitlement := saved.entitlement) == saved && Denied(denied)
            && "status" !in denied.entitlement
            && "cloud_features" in denied.entitlement && denied.entitlement["cloud_features"] == "[]"
            && (key !in {"cloud_access_active", "cloud_features", "status"} ==>
                  (key in denied.entitlement <==> key in saved.entitlement)
                  && (key in saved.entitlement ==> denied.entitlement[key] == saved.entitlement[key]))
  {
  }

  lemma DenialIsIdempotent(saved: Record)
    ensures Denied(DeniedRecord(saved)) && DeniedRecord(DeniedRecord(saved)) == DeniedRecord(saved)
  {
    assert DeniedRecord(DeniedRecord(saved)).entitlement == DeniedRecord(saved).entitlement;
  }
}
