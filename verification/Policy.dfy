/**
 Who may do what: the classification of every control operation, the decision
 for one request, and the projection of the session list to a caller's scope.
 */
module Policy {
  import opened Bytes
  import opened Text

  datatype Route = Query | Action | Pane

  /** The control vocabulary; Unclassified stands for any other spelling. */
  datatype Verb =
    | Start | Steer | Rename | SetArchived | AddAgent
    | Refresh | Move | Delete | Kill | AddRepo | RmRepo | AgentSetRepos | NewWorkgroup | CreateWorkspace
    | Archive | Restart | AuthReload | AccountManage | CodexLogin | CoordinatorSetRepos | Subscribe | QueryVerb
    | PaneOpen | PaneInput | PaneResize | PaneClose
    | Version | CodexControl | AgentSessions | Sessions | SnapshotVerb | Repos | RuntimeEvents
    | RuntimePath | RuntimeRecord | Accounts | AccountCeremony | CodexAuth | Resources
    | Unclassified(name: string)

  datatype Scope = HostScope | SessionScope | FilteredScope | WorkgroupScope

  datatype Guard = NoGuard | SteerGuard | ArchiveGuard | AddAgentGuard

  datatype Rule = Rule(scope: Scope, console: bool, guard: Guard)

  datatype Role = AgentRole | Console | Coordinator | RepoHome | OtherRole(name: string)

  datatype Kind = Host | Provider | SessionKind | OtherKind

  datatype Principal = Principal(kind: Kind, subject: string)

  datatype Request = Request(route: Route, verb: Verb, id: string, fields: map<string, string>)

  datatype Resource = Resource(id: string, root: string, role: Role, repo: string, archived: bool)

  datatype Found = Row(row: Resource) | Missing | LookupFault

  datatype Answer = Yes | No | AnswerFault

  datatype Resolver = Resolver(
    lookup: string -> Found,
    granted: (string, string) -> Answer,
    providerAllows: (string, Request) -> Answer)

  datatype Decision = Allow | Deny | RepoNotGranted(repo: string, workgroup: string) | Fault

  /** A missing field reads as the empty string. */
  function Field(req: Request, key: string): string {
    if key in req.fields then req.fields[key] else ""
  }

  // ---- the rules table ------------------------------------------------------------------------

  function RuleFor(route: Route, verb: Verb): Option<Rule> {
    match route
    case Action => (
      match verb
      case Start | Rename => Some(Rule(WorkgroupScope, false, NoGuard))
      case Steer => Some(Rule(WorkgroupScope, false, SteerGuard))
      case SetArchived => Some(Rule(WorkgroupScope, true, ArchiveGuard))
      case AddAgent => Some(Rule(WorkgroupScope, true, AddAgentGuard))
      case Refresh | Move | Delete | Kill | AddRepo | RmRepo | AgentSetRepos | NewWorkgroup | CreateWorkspace =>
        Some(Rule(HostScope, true, NoGuard))
      case Archive | Restart | AuthReload | AccountManage | CodexLogin | CoordinatorSetRepos | Subscribe | QueryVerb =>
        Some(Rule(HostScope, false, NoGuard))
      case _ => None)
    case Pane => (
      match verb
      case PaneOpen | PaneInput | PaneResize | PaneClose => Some(Rule(HostScope, false, NoGuard))
      case _ => None)
    case Query => (
      match verb
      case Version | CodexControl | AgentSessions => Some(Rule(SessionScope, false, NoGuard))
      case Sessions | SnapshotVerb | Repos => Some(Rule(FilteredScope, false, NoGuard))
      case RuntimeEvents => Some(Rule(WorkgroupScope, false, NoGuard))
      case RuntimePath | RuntimeRecord | Accounts | AccountManage | AccountCeremony | CodexAuth | Resources =>
        Some(Rule(HostScope, false, NoGuard))
      case _ => None)
  }

  predicate AllowSteer(req: Request, self: bool) {
    var verb := Field(req, "verb");
    || verb in {"prompt", "interject", "stop"}
    || (verb == "permission" && !self && !Blank(Field(req, "request_id")) && !Blank(Field(req, "runtime_generation")))
  }

  predicate AllowArchive(req: Request, self: bool, target: Resource) {
    && Field(req, "archived") == "true"
    && !(Field(req, "force") == "true" && self)
    && (target.root != "" || (self && target.role == Coordinator))
  }

  predicate Passes(g: Guard, req: Request, self: bool, target: Resource) {
    match g
    case NoGuard => true
    case SteerGuard => AllowSteer(req, self)
    case ArchiveGuard => AllowArchive(req, self, target)
    case AddAgentGuard => self && target.role == Coordinator
  }

  predicate InWorkgroupScope(subject: Resource, target: Resource) {
    match subject.role
    case Console => true
    case Coordinator => target.id == subject.id || target.root == subject.id
    case RepoHome | AgentRole => target.id == subject.id
    case OtherRole(_) => false
  }

  // ---- lists in fields ---------------------------------------------------------------------------

  function TrimLeft(s: string): string {
    if s != [] && IsSpace(s[0]) then TrimLeft(s[1..]) else s
  }

  function TrimRight(s: string): string {
    if s != [] && IsSpace(s[|s| - 1]) then TrimRight(s[..|s| - 1]) else s
  }

  function Trim(s: string): string {
    TrimRight(TrimLeft(s))
  }

  function Split(value: string): (parts: seq<string>)
    ensures parts != []
  {
    if value == [] then [[]]
    else
      var rest := Split(value[1..]);
      if value[0] == ',' then [[]] + rest else [[value[0]] + rest[0]] + rest[1..]
  }

  function Items(parts: seq<string>): seq<string> {
    if parts == [] then []
    else (if Trim(parts[0]) == "" then [] else [Trim(parts[0])]) + Items(parts[1..])
  }

  method SplitList(value: string) returns (out: seq<string>)
    ensures out == Items(Split(value))
  {
    var parts := Split(value);
    hide Split, Trim;
    out := [];
    for i := 0 to |parts|
      invariant out + Items(parts[i..]) == Items(parts)
    {
      assert parts[i..][1..] == parts[i + 1..];
      var item := Trim(parts[i]);
      ghost var rest := Items(parts[i + 1..]);
      assert Items(parts[i..]) == (if item == "" then [] else [item]) + rest;
      assert out + ([item] + rest) == (out + [item]) + rest && [] + rest == rest;
      if item != "" { out := out + [item]; }
    }
  }

  function Join(items: seq<string>): string {
    if items == [] then "" else if |items| == 1 then items[0] else items[0] + "," + Join(items[1..])
  }

  /** A name that survives a comma-separated field: not empty, no comma, no space at its ends. */
  predicate Listable(s: string) {
    s != "" && ',' !in s && !IsSpace(s[0]) && !IsSpace(s[|s| - 1])
  }

  lemma {:induction false} SplitPart(p: string, rest: string)
    requires ',' !in p
    ensures Split(p) == [p]
    ensures Split(p + "," + rest) == [p] + Split(rest)
  {
    if p == [] {
      assert p + "," + rest == "," + rest && ("," + rest)[1..] == rest;
    } else {
      SplitPart(p[1..], rest);
      assert (p + "," + rest)[1..] == p[1..] + "," + rest;
      assert p == [p[0]] + p[1..];
    }
  }

  lemma TrimListable(s: string)
    requires Listable(s)
    ensures Trim(s) == s
  {
  }

  /** A list of names reads back as it was written. */
  lemma {:induction false} SplitUndoesJoin(items: seq<string>)
    requires forall s :: s in items ==> Listable(s)
    ensures Items(Split(Join(items))) == items
  {
    if items == [] {
      assert Split("") == [""] && Trim("") == "" && [""][1..] == [];
      assert Items([""]) == [];
    } else {
      var s := items[0];
      TrimListable(s);
      if |items| == 1 {
        SplitPart(s, "");
        assert [s][1..] == [];
        assert Items([s]) == [s];
      } else {
        SplitPart(s, Join(items[1..]));
        var rest := Split(Join(items[1..]));
        assert ([s] + rest)[1..] == rest;
        SplitUndoesJoin(items[1..]);
        assert items == [s] + items[1..];
      }
    }
  }

  // ---- the decision ----------------------------------------------------------------------------

  /** The first repository of the list that is not granted decides. */
  function Granted(r: Resolver, workgroup: string, repos: seq<string>): Decision {
    if repos == [] then Allow
    else match r.granted(workgroup, repos[0])
      case AnswerFault => Fault
      case No => RepoNotGranted(repos[0], workgroup)
      case Yes => Granted(r, workgroup, repos[1..])
  }

  const ADD_AGENT_FIELDS := {"agent", "prompt", "mode", "model", "repos"}

  function AuthorizeAddAgent(r: Resolver, subject: Resource, req: Request): Decision {
    if exists k :: k in req.fields && k !in ADD_AGENT_FIELDS then Deny
    else Granted(r, subject.id, Items(Split(Field(req, "repos"))))
  }

  predicate RepoScopedWorkgroup(subject: Resource, req: Request) {
    Items(Split(Field(req, "repos"))) == [subject.repo]
  }

  function Authorize(resolver: Option<Resolver>, principal: Principal, req: Request): Decision {
    if principal.kind == Host then Allow
    else if principal.kind == Provider then
      if resolver.None? then Deny
      else match resolver.value.providerAllows(principal.subject, req)
        case AnswerFault => Fault
        case Yes => Allow
        case No => Deny
    else if principal.kind != SessionKind || resolver.None? then Deny
    else
      var rule := RuleFor(req.route, req.verb);
      if rule.None? then Deny
      else match resolver.value.lookup(principal.subject)
        case LookupFault => Fault
        case Missing => Deny
        case Row(subject) =>
          if subject.archived || subject.role.OtherRole? then Deny
          else AuthorizeSubject(resolver.value, subject, rule.value, req)
  }

  function AuthorizeSubject(r: Resolver, subject: Resource, rule: Rule, req: Request): Decision {
    match rule.scope
    case SessionScope | FilteredScope => Allow
    case HostScope =>
      if subject.role == Console && rule.console then Allow
      else if subject.role == RepoHome && req.verb == NewWorkgroup && req.id == "" && RepoScopedWorkgroup(subject, req) then Allow
      else Deny
    case WorkgroupScope =>
      if Blank(req.id) then Deny
      else
        var target := if req.id == subject.id then Row(subject) else r.lookup(req.id);
        match target
        case LookupFault => Fault
        case Missing => Deny
        case Row(t) => AuthorizeTarget(r, subject, t, rule, req)
  }

  function AuthorizeTarget(r: Resolver, subject: Resource, target: Resource, rule: Rule, req: Request): Decision {
    if subject.role == Console && rule.console then Allow
    else if !InWorkgroupScope(subject, target) then Deny
    else if req.route == Action && target.archived then Deny
    else if !Passes(rule.guard, req, target.id == subject.id, target) then Deny
    else if req.verb == AddAgent && subject.role != Console then AuthorizeAddAgent(r, subject, req)
    else Allow
  }

  /** authorizeAddAgent: field names in any order, then the repositories in turn. */
  method CheckAddAgent(r: Resolver, subject: Resource, req: Request) returns (d: Decision)
    ensures d == AuthorizeAddAgent(r, subject, req)
  {
    var todo := req.fields.Keys;
    while todo != {}
      invariant todo <= req.fields.Keys
      invariant forall k :: k in req.fields && k !in todo ==> k in ADD_AGENT_FIELDS
      decreases |todo|
    {
      var key :| key in todo;
      if key !in ADD_AGENT_FIELDS { return Deny; }
      todo := todo - {key};
    }
    var repos := SplitList(Field(req, "repos"));
    for i := 0 to |repos|
      invariant Granted(r, subject.id, repos[i..]) == Granted(r, subject.id, repos)
    {
      assert repos[i..][1..] == repos[i + 1..];
      match r.granted(subject.id, repos[i]) {
        case AnswerFault => return Fault;
        case No => return RepoNotGranted(repos[i], subject.id);
        case Yes =>
      }
    }
    return Allow;
  }

  // ---- the snapshot filter -----------------------------------------------------------------------

  datatype Session = Session(id: string, cwd: string, pid: int, rest: bytes)

  datatype Snapshot = Snapshot(sessions: seq<Session>, updatedAt: int)

  /** A restricted caller sees neither the working directory nor the process. */
  function Stripped(s: Session): Session {
    s.(cwd := "", pid := 0)
  }

  function Prepended(a: seq<Session>, b: Option<seq<Session>>): Option<seq<Session>> {
    if b.Some? then Some(a + b.value) else None
  }

  lemma PrependedOne(a: seq<Session>, x: Session, b: Option<seq<Session>>)
    ensures Prepended(a, Prepended([x], b)) == Prepended(a + [x], b)
  {
    if b.Some? { assert a + ([x] + b.value) == (a + [x]) + b.value; }
  }

  lemma PrependedNone(b: Option<seq<Session>>)
    ensures Prepended([], b) == b
  {
    if b.Some? { assert [] + b.value == b.value; }
  }

  /** None is an error, or a denial. */
  function Scoped(r: Resolver, subject: Resource, sessions: seq<Session>): Option<seq<Session>> {
    if sessions == [] then Some([])
    else
      var s := sessions[0];
      var rest := Scoped(r, subject, sessions[1..]);
      match r.lookup(s.id)
      case LookupFault => None
      case Missing => rest
      case Row(t) => if InWorkgroupScope(subject, t) then Prepended([Stripped(s)], rest) else rest
  }

  function ProviderScoped(r: Resolver, provider: string, sessions: seq<Session>): Option<seq<Session>> {
    if sessions == [] then Some([])
    else
      var s := sessions[0];
      var rest := ProviderScoped(r, provider, sessions[1..]);
      match r.providerAllows(provider, Request(Query, SnapshotVerb, s.id, map[]))
      case AnswerFault => None
      case No => rest
      case Yes => Prepended([s], rest)
  }

  function Filtered(resolver: Option<Resolver>, principal: Principal, snap: Snapshot): Option<seq<Session>> {
    if principal.kind == Host then Some(snap.sessions)
    else if resolver.None? then None
    else if principal.kind == Provider then ProviderScoped(resolver.value, principal.subject, snap.sessions)
    else if principal.kind != SessionKind then None
    else match resolver.value.lookup(principal.subject)
      case Row(subject) => if subject.archived then None else Scoped(resolver.value, subject, snap.sessions)
      case _ => None
  }

  method FilterSnapshot(resolver: Option<Resolver>, principal: Principal, snap: Snapshot) returns (out: Option<Snapshot>)
    ensures out == var kept := Filtered(resolver, principal, snap); if kept.Some? then Some(snap.(sessions := kept.value)) else None
  {
    if principal.kind == Host { return Some(snap); }
    if resolver.None? { return None; }
    if principal.kind != Provider && principal.kind != SessionKind { return None; }
    var kept;
    if principal.kind == Provider {
      kept := FilterForProvider(resolver.value, principal.subject, snap.sessions);
    } else {
      match resolver.value.lookup(principal.subject) {
        case Row(subject) =>
          if subject.archived { return None; }
          kept := FilterForSession(resolver.value, subject, snap.sessions);
        case _ => return None;
      }
    }
    if kept.None? { return None; }
    return Some(snap.(sessions := kept.value));
  }

  method FilterForProvider(r: Resolver, provider: string, sessions: seq<Session>) returns (out: Option<seq<Session>>)
    ensures out == ProviderScoped(r, provider, sessions)
  {
    var kept: seq<Session> := [];
    assert sessions[0..] == sessions;
    PrependedNone(ProviderScoped(r, provider, sessions));
    for i := 0 to |sessions|
      invariant Prepended(kept, ProviderScoped(r, provider, sessions[i..])) == ProviderScoped(r, provider, sessions)
    {
      assert sessions[i..][1..] == sessions[i + 1..];
      match r.providerAllows(provider, Request(Query, SnapshotVerb, sessions[i].id, map[])) {
        case AnswerFault => return None;
        case Yes =>
          PrependedOne(kept, sessions[i], ProviderScoped(r, provider, sessions[i + 1..]));
          kept := kept + [sessions[i]];
        case No =>
      }
    }
    assert kept + [] == kept;
    return Some(kept);
  }

  method FilterForSession(r: Resolver, subject: Resource, sessions: seq<Session>) returns (out: Option<seq<Session>>)
    ensures out == Scoped(r, subject, sessions)
  {
    var kept: seq<Session> := [];
    assert sessions[0..] == sessions;
    PrependedNone(Scoped(r, subject, sessions));
    for i := 0 to |sessions|
      invariant Prepended(kept, Scoped(r, subject, sessions[i..])) == Scoped(r, subject, sessions)
    {
      assert sessions[i..][1..] == sessions[i + 1..];
      match r.lookup(sessions[i].id) {
        case LookupFault => return None;
        case Missing =>
        case Row(t) =>
          if InWorkgroupScope(subject, t) {
            PrependedOne(kept, Stripped(sessions[i]), Scoped(r, subject, sessions[i + 1..]));
            kept := kept + [Stripped(sessions[i])];
          }
      }
    }
    assert kept + [] == kept;
    return Some(kept);
  }

  // ---- what the decisions amount to ----------------------------------------------------------------

  /** The store keeps each row under its own id. */
  ghost predicate Consistent(r: Resolver) {
    forall id :: r.lookup(id).Row? ==> r.lookup(id).row.id == id
  }

  /** The caller is a live session. */
  predicate Live(r: Resolver, principal: Principal) {
    principal.kind == SessionKind && r.lookup(principal.subject).Row? && !r.lookup(principal.subject).row.archived
  }

  predicate CanReadEvents(r: Resolver, principal: Principal, id: string) {
    Authorize(Some(r), principal, Request(Query, RuntimeEvents, id, map[])) == Allow
  }

  /** One session: in scope for the list exactly when its events may be read, provided its id is not blank. */
  lemma ScopeIsEventAccess(r: Resolver, principal: Principal, id: string)
    requires Consistent(r) && Live(r, principal)
    ensures var subject := r.lookup(principal.subject).row;
            CanReadEvents(r, principal, id) <==> !Blank(id) && r.lookup(id).Row? && InWorkgroupScope(subject, r.lookup(id).row)
  {
  }

  /** What the filter keeps, in order: nothing else is added, dropped or reordered. */
  function Kept(r: Resolver, subject: Resource, sessions: seq<Session>): seq<Session> {
    if sessions == [] then []
    else (if r.lookup(sessions[0].id).Row? && InWorkgroupScope(subject, r.lookup(sessions[0].id).row) then [Stripped(sessions[0])] else [])
         + Kept(r, subject, sessions[1..])
  }

  /** The filter fails exactly when a listed session cannot be looked up. */
  lemma {:induction false} ScopedSucceedsIff(r: Resolver, subject: Resource, sessions: seq<Session>)
    ensures Scoped(r, subject, sessions).Some? <==> forall s :: s in sessions ==> !r.lookup(s.id).LookupFault?
    ensures Scoped(r, subject, sessions).Some? ==> Scoped(r, subject, sessions).value == Kept(r, subject, sessions)
  {
    if sessions != [] {
      ScopedSucceedsIff(r, subject, sessions[1..]);
      assert sessions == [sessions[0]] + sessions[1..];
      assert forall s :: s in sessions <==> s == sessions[0] || s in sessions[1..];
    }
  }

  lemma {:induction false} KeptFrom(r: Resolver, subject: Resource, sessions: seq<Session>, x: Session)
    ensures x in Kept(r, subject, sessions) <==>
            exists t :: t in sessions && Stripped(t) == x && r.lookup(t.id).Row? && InWorkgroupScope(subject, r.lookup(t.id).row)
  {
    if sessions != [] {
      KeptFrom(r, subject, sessions[1..], x);
      assert sessions == [sessions[0]] + sessions[1..];
    }
  }

  /** A listed session with a usable id survives the filter exactly when the caller may read its runtime events. */
  lemma SurvivesIffEventsReadable(r: Resolver, principal: Principal, snap: Snapshot, s: Session)
    requires Consistent(r) && Live(r, principal) && s in snap.sessions && !Blank(s.id)
    requires Filtered(Some(r), principal, snap).Some?
    ensures Stripped(s) in Filtered(Some(r), principal, snap).value <==> CanReadEvents(r, principal, s.id)
  {
    var subject := r.lookup(principal.subject).row;
    ScopedSucceedsIff(r, subject, snap.sessions);
    KeptFrom(r, subject, snap.sessions, Stripped(s));
    ScopeIsEventAccess(r, principal, s.id);
    assert forall t: Session :: Stripped(t) == Stripped(s) ==> t.id == s.id;
  }

  /** The blank id is the one difference: the list may show it, no request can name it. */
  lemma BlankIdIsListedButUnreadable(r: Resolver, principal: Principal, id: string)
    requires Live(r, principal) && Blank(id)
    ensures !CanReadEvents(r, principal, id)
    ensures var subject := r.lookup(principal.subject).row;
            r.lookup(id).Row? && InWorkgroupScope(subject, r.lookup(id).row) ==>
              Filtered(Some(r), principal, Snapshot([Session(id, "", 0, [])], 0)) == Some([Session(id, "", 0, [])])
  {
    var one := [Session(id, "", 0, [])];
    assert one[1..] == [] && one + [] == one;
    assert Scoped(r, r.lookup(principal.subject).row, one[1..]) == Some([]);
  }

  /** An action a session other than the console may take on a session. */
  predicate WorkgroupAction(verb: Verb) {
    verb in {Start, Steer, Rename, SetArchived, AddAgent}
  }

  /** What any allowed workgroup action of such a caller implies about its target. */
  lemma ActionsStayInTheWorkgroup(r: Resolver, principal: Principal, req: Request)
    requires Consistent(r) && Live(r, principal) && req.route == Action && WorkgroupAction(req.verb)
    requires r.lookup(principal.subject).row.role != Console && Authorize(Some(r), principal, req) == Allow
    ensures r.lookup(req.id).Row?
    ensures var subject, target := r.lookup(principal.subject).row, r.lookup(req.id).row;
            && !target.archived
            && (target == subject || (subject.role == Coordinator && target.root == subject.id))
  {
  }

  /** No session, the console included, answers its own permission prompt or controls a goal. */
  lemma NoSelfApproval(r: Resolver, principal: Principal, req: Request)
    requires Consistent(r) && principal.kind == SessionKind && req.route == Action && req.verb == Steer
    requires Authorize(Some(r), principal, req) == Allow
    ensures Field(req, "verb") in {"prompt", "interject", "stop", "permission"}
    ensures Field(req, "verb") == "permission" ==>
              req.id != principal.subject && !Blank(Field(req, "request_id")) && !Blank(Field(req, "runtime_generation"))
  {
    assert "permission"[0] == 'p' && "permission"[1] == 'e' && "prompt"[1] == 'r' && "interject"[0] == 'i' && "stop"[0] == 's';
  }

  /** Forcing past the guard on open pull requests is a coordinator's, on a direct member only. */
  lemma ForcedArchiveNamesAMember(r: Resolver, principal: Principal, req: Request)
    requires Consistent(r) && Live(r, principal) && req.route == Action && req.verb == SetArchived
    requires Field(req, "force") == "true" && r.lookup(principal.subject).row.role != Console
    requires Authorize(Some(r), principal, req) == Allow
    ensures r.lookup(principal.subject).row.role == Coordinator && req.id != principal.subject
    ensures r.lookup(req.id).Row? && r.lookup(req.id).row.root == principal.subject && Field(req, "archived") == "true"
  {
  }

  // ---- exactly what each role may do ------------------------------------------------------------

  /** Operations that name no session. */
  predicate Common(req: Request) {
    req.route == Query && req.verb in {Version, CodexControl, AgentSessions, Sessions, SnapshotVerb, Repos}
  }

  predicate OnSession(req: Request, self: bool, target: Resource) {
    || (req.route == Query && req.verb == RuntimeEvents)
    || (&& req.route == Action && !target.archived
        && (|| req.verb in {Start, Rename}
            || (req.verb == Steer && AllowSteer(req, self))
            || (req.verb == SetArchived && AllowArchive(req, self, target))))
  }

  /** An ordinary agent: the common reads, and itself. */
  lemma AgentMayExactly(r: Resolver, principal: Principal, req: Request)
    requires Consistent(r) && Live(r, principal) && r.lookup(principal.subject).row.role == AgentRole
    ensures var subject := r.lookup(principal.subject).row;
            Authorize(Some(r), principal, req) == Allow <==>
            Common(req) || (!Blank(req.id) && req.id == principal.subject && OnSession(req, true, subject))
  {
  }

  /** A repository home: the same, and new workgroups on its own repository alone. */
  lemma RepoHomeMayExactly(r: Resolver, principal: Principal, req: Request)
    requires Consistent(r) && Live(r, principal) && r.lookup(principal.subject).row.role == RepoHome
    ensures var subject := r.lookup(principal.subject).row;
            Authorize(Some(r), principal, req) == Allow <==>
            || Common(req)
            || (!Blank(req.id) && req.id == principal.subject && OnSession(req, true, subject))
            || (req.route == Action && req.verb == NewWorkgroup && req.id == "" && RepoScopedWorkgroup(subject, req))
  {
  }

  predicate AddsOwnAgent(r: Resolver, principal: Principal, req: Request) {
    && req.route == Action && req.verb == AddAgent && !Blank(req.id) && req.id == principal.subject
    && req.fields.Keys <= ADD_AGENT_FIELDS
    && forall repo :: repo in Items(Split(Field(req, "repos"))) ==> r.granted(principal.subject, repo) == Yes
  }

  /** A coordinator: itself and its direct members, and agents added to itself from granted repositories. */
  lemma CoordinatorMayExactly(r: Resolver, principal: Principal, req: Request)
    requires Consistent(r) && Live(r, principal) && r.lookup(principal.subject).row.role == Coordinator
    ensures Authorize(Some(r), principal, req) == Allow <==>
            || Common(req)
            || (&& !Blank(req.id) && r.lookup(req.id).Row?
                && (req.id == principal.subject || r.lookup(req.id).row.root == principal.subject)
                && OnSession(req, req.id == principal.subject, r.lookup(req.id).row))
            || AddsOwnAgent(r, principal, req)
  {
    hide Items, Split, Blank, AllowSteer, AllowArchive, Granted, Field;
    GrantedAllowsIff(r, principal.subject, Items(Split(Field(req, "repos"))));
  }

  lemma {:induction false} GrantedAllowsIff(r: Resolver, workgroup: string, repos: seq<string>)
    ensures Granted(r, workgroup, repos) == Allow <==> forall repo :: repo in repos ==> r.granted(workgroup, repo) == Yes
  {
    if repos != [] {
      GrantedAllowsIff(r, workgroup, repos[1..]);
      assert repos == [repos[0]] + repos[1..];
    }
  }

  /** A denial over a repository names the first one listed that is not granted. */
  lemma {:induction false} RefusalNamesFirstUngranted(r: Resolver, workgroup: string, repos: seq<string>) returns (i: nat)
    requires Granted(r, workgroup, repos).RepoNotGranted?
    ensures i < |repos| && Granted(r, workgroup, repos) == RepoNotGranted(repos[i], workgroup)
    ensures r.granted(workgroup, repos[i]) == No && forall j :: 0 <= j < i ==> r.granted(workgroup, repos[j]) == Yes
  {
    if r.granted(workgroup, repos[0]) == No {
      i := 0;
    } else {
      var k := RefusalNamesFirstUngranted(r, workgroup, repos[1..]);
      i := k + 1;
    }
  }

  /** The console: the common reads, the delegated host operations, and any session. */
  lemma ConsoleMayExactly(r: Resolver, principal: Principal, req: Request)
    requires Consistent(r) && Live(r, principal) && r.lookup(principal.subject).row.role == Console
    ensures Authorize(Some(r), principal, req) == Allow <==>
            || Common(req)
            || (req.route == Action && req.verb in {Refresh, Move, Delete, Kill, AddRepo, RmRepo, AgentSetRepos, NewWorkgroup, CreateWorkspace})
            || (&& !Blank(req.id) && r.lookup(req.id).Row?
                && (|| OnSession(req, req.id == principal.subject, r.lookup(req.id).row)
                    || (req.route == Action && req.verb in {SetArchived, AddAgent})))
  {
    hide Items, Split, Blank, AllowSteer, AllowArchive, Field;
  }
}
