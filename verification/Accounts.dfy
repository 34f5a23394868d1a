/**
 Launch-pinned account delivery: each harness process keeps the login it first
 received, whatever replaces the central profile while it runs.
 */
module Accounts {
  import opened Bytes

  const HISTORY_LIMIT := 8
  const PENDING_LIMIT := 16

  /** A launch as metadata knows it: its sequence and the hash of its nonce. */
  datatype Launch = Launch(seqNo: nat, nonceHash: string)

  /** What one replaced runtime had received. */
  datatype Delivered = Delivered(launch: nat, epoch: nat, mode: string, account: string, version: nat)

  datatype Binding = Binding(
    profileId: string, harness: string, source: string, revision: nat,
    deliveredEpoch: nat, credentialMode: string, expectedAccount: string, credentialVersion: nat,
    launch: nat, launchNonce: string, pending: seq<Launch>, launches: nat, history: seq<Delivered>)

  datatype Profile = Profile(mode: string, deliveryEpoch: nat, state: string)

  datatype State = State(bindings: map<string, Binding>, profiles: map<string, Profile>, credentialVersion: map<string, nat>)

  datatype Error = ErrStale | ErrBlocked | ErrSuperseded | ErrStore

  datatype Result<+T> = Ok(value: T) | Err(error: Error)

  function Max(a: nat, b: nat): nat { if a < b then b else a }

  function Last<T>(s: seq<T>, n: nat): seq<T> {
    if |s| <= n then s else s[|s| - n..]
  }

  // ---- transactions ---------------------------------------------------------------------

  function CentralBinding(h: string): Binding {
    Binding(h + ":central", h, "central", 1, 0, "", "", 0, 0, "", [], 0, [])
  }

  /** bind: a new workload follows its harness's central profile. */
  function Bind(st: State, session: string, harness: string): Result<State> {
    var h := if harness == "" then "claude" else harness;
    if h != "claude" && h != "codex" then Ok(st)
    else if session in st.bindings then (if st.bindings[session].harness != h then Err(ErrBlocked) else Ok(st))
    else Ok(st.(bindings := st.bindings[session := CentralBinding(h)]))
  }

  function Begun(b: Binding, nonceHash: string): Binding {
    var n := Max(b.launches, b.launch) + 1;
    b.(launches := n, pending := Last(b.pending + [Launch(n, nonceHash)], PENDING_LIMIT))
  }

  function Without(ps: seq<Launch>, l: Launch): seq<Launch> {
    if ps == [] then [] else Without(ps[..|ps| - 1], l) + if ps[|ps| - 1] != l then [ps[|ps| - 1]] else []
  }

  function Above(ps: seq<Launch>, n: nat): seq<Launch> {
    if ps == [] then [] else Above(ps[..|ps| - 1], n) + if ps[|ps| - 1].seqNo > n then [ps[|ps| - 1]] else []
  }

  predicate Refuses(p: Profile, epoch: nat) {
    p.deliveryEpoch != epoch || p.state in {"logged-out", "login-pending", "blocked"}
  }

  function Mode(p: Profile): string {
    if p.mode == "" then "subscription" else p.mode
  }

  function ProfileOf(st: State, b: Binding): Profile {
    if b.profileId in st.profiles then st.profiles[b.profileId] else Profile("", 0, "")
  }

  predicate IsCurrent(b: Binding, l: Launch) {
    l.seqNo == b.launch && b.launchNonce == l.nonceHash && b.deliveredEpoch != 0
  }

  predicate Pinned(b: Binding, mode: string, account: string, version: nat) {
    && (b.credentialMode == "" || b.credentialMode == mode)
    && (b.expectedAccount == "" || b.expectedAccount == account)
    && !((b.harness == "claude" || mode == "api") && b.credentialVersion != 0 && b.credentialVersion != version)
  }

  function Runtime(b: Binding): Delivered {
    Delivered(b.launch, b.deliveredEpoch, b.credentialMode, b.expectedAccount, b.credentialVersion)
  }

  /** The binding once launch l has replaced the runtime before it. */
  function Claimed(b: Binding, l: Launch): Binding {
    b.(history := if b.deliveredEpoch != 0 then Last(b.history + [Runtime(b)], HISTORY_LIMIT) else b.history,
       launch := l.seqNo, launchNonce := l.nonceHash, pending := Above(b.pending, l.seqNo))
  }

  function Deliver(b: Binding, mode: string, epoch: nat, account: string, version: nat): Binding {
    b.(credentialMode := mode, deliveredEpoch := epoch, expectedAccount := account, credentialVersion := version)
  }

  /** The commit inside AcceptAuthorized. */
  function Accept(st: State, session: string, revision: nat, epoch: nat, account: string, version: nat, l: Launch): Result<State> {
    if session !in st.bindings || st.bindings[session].source != "central" then Err(ErrBlocked)
    else
      var b := st.bindings[session];
      var p := ProfileOf(st, b);
      if b.revision != revision || Refuses(p, epoch) then Err(ErrStale)
      else if l.seqNo < b.launch then Err(ErrSuperseded)
      else
        var next :=
          if IsCurrent(b, l) then (if Pinned(b, Mode(p), account, version) then Ok(b) else Err(ErrSuperseded))
          else if l in b.pending then Ok(Claimed(b, l))
          else Err(ErrBlocked);
        if next.Err? then Err(next.error)
        else
          var first := b.harness == "claude" && (b.profileId !in st.credentialVersion || st.credentialVersion[b.profileId] == 0);
          Ok(State(st.bindings[session := Deliver(next.value, Mode(p), epoch, account, version)],
                   if first then st.profiles[b.profileId := p.(state := "ready")] else st.profiles,
                   if first then st.credentialVersion[b.profileId := version] else st.credentialVersion))
  }

  // ---- the store as the code keeps it ----------------------------------------------------

  /** Whether Update's rename happened, and whether it then reported success. */
  datatype Persist = NotWritten | WrittenUnsynced | Written

  function Outcome<T>(r: Result<T>, io: Persist): Result<T> {
    if r.Ok? && io != Written then Err(ErrStore) else r
  }

  class AccountStore {
    var state: State

    method BeginLaunch(session: string, h: string, nonceHash: string, bindIO: Persist, io: Persist) returns (launch: Result<Launch>)
      modifies this
      ensures (state, launch) == BeginTransaction(old(state), session, h, nonceHash, bindIO, io)
    {
      hide Begun;
      var bound := Bind(state, session, h);
      if bound.Err? {
        return Err(bound.error);
      }
      if bindIO != NotWritten {
        state := bound.value;
      }
      if bindIO != Written {
        return Err(ErrStore);
      }
      if session !in state.bindings || state.bindings[session].harness != h {
        return Err(ErrBlocked);
      }
      if io == NotWritten {
        return Err(ErrStore);
      }
      var b := Begun(state.bindings[session], nonceHash);
      state := state.(bindings := state.bindings[session := b]);
      return Outcome(Ok(Launch(b.launches, nonceHash)), io);
    }

    method RetireLaunch(session: string, l: Launch, io: Persist) returns (result: Result<()>)
      modifies this
      ensures (state, result) == RetireTransaction(old(state), session, l, io)
    {
      if io == NotWritten {
        return Err(ErrStore);
      }
      if session in state.bindings {
        var b := state.bindings[session];
        var keep: seq<Launch> := [];
        var i := 0;
        assert b.pending[..0] == [];
        while i < |b.pending|
          invariant 0 <= i <= |b.pending| && keep == Without(b.pending[..i], l)
        {
          var q := b.pending[i];
          assert b.pending[..i + 1][..i] == b.pending[..i];
          if q.seqNo != l.seqNo || q.nonceHash != l.nonceHash {
            keep := keep + [q];
          }
          i := i + 1;
        }
        assert b.pending[..i] == b.pending;
        state := state.(bindings := state.bindings[session := b.(pending := keep)]);
      }
      return Outcome(Ok(()), io);
    }

    method AcceptAuthorized(session: string, revision: nat, epoch: nat, account: string, version: nat, admitted: bool, l: Launch, io: Persist)
      returns (result: Result<()>)
      modifies this
      ensures (state, result) == AcceptTransaction(old(state), session, revision, epoch, account, version, admitted, l, io)
    {
      if !admitted || session !in state.bindings || state.bindings[session].source != "central" {
        return Err(ErrBlocked);
      }
      var b := state.bindings[session];
      var p := ProfileOf(state, b);
      if b.revision != revision || Refuses(p, epoch) {
        return Err(ErrStale);
      }
      var mode := Mode(p);
      var pending := false;
      var i := 0;
      while i < |b.pending|
        invariant 0 <= i <= |b.pending| && (pending <==> l in b.pending[..i])
      {
        pending := pending || (b.pending[i].seqNo == l.seqNo && b.pending[i].nonceHash == l.nonceHash);
        i := i + 1;
      }
      assert b.pending[..i] == b.pending;
      var first := b.harness == "claude" && (b.profileId !in state.credentialVersion || state.credentialVersion[b.profileId] == 0);
      if l.seqNo < b.launch {
        return Err(ErrSuperseded);
      } else if IsCurrent(b, l) {
        if !Pinned(b, mode, account, version) {
          return Err(ErrSuperseded);
        }
      } else if pending {
        var history := b.history;
        if b.deliveredEpoch != 0 {
          history := Last(history + [Runtime(b)], HISTORY_LIMIT);
        }
        var keep := AboveLoop(b.pending, l.seqNo);
        b := b.(history := history, launch := l.seqNo, launchNonce := l.nonceHash, pending := keep);
      } else {
        return Err(ErrBlocked);
      }
      if io == NotWritten {
        return Err(ErrStore);
      }
      b := Deliver(b, mode, epoch, account, version);
      var bindings := state.bindings[session := b];
      if first {
        state := State(bindings, state.profiles[b.profileId := p.(state := "ready")], state.credentialVersion[b.profileId := version]);
      } else {
        state := state.(bindings := bindings);
      }
      return Outcome(Ok(()), io);
    }
  }

  method AboveLoop(ps: seq<Launch>, n: nat) returns (keep: seq<Launch>)
    ensures keep == Above(ps, n)
  {
    keep := [];
    var i := 0;
    assert ps[..0] == [];
    while i < |ps|
      invariant 0 <= i <= |ps| && keep == Above(ps[..i], n)
    {
      assert ps[..i + 1][..i] == ps[..i];
      if ps[i].seqNo > n {
        keep := keep + [ps[i]];
      }
      i := i + 1;
    }
    assert ps[..i] == ps;
  }

  /** BeginLaunch is two Updates: bind the workload, then allocate. */
  function BeginTransaction(st: State, session: string, h: string, nonceHash: string, bindIO: Persist, io: Persist): (State, Result<Launch>) {
    var bound := Bind(st, session, h);
    if bound.Err? then (st, Err(bound.error))
    else if bindIO != Written then (if bindIO == NotWritten then st else bound.value, Err(ErrStore))
    else if session !in bound.value.bindings || bound.value.bindings[session].harness != h then (bound.value, Err(ErrBlocked))
    else if io == NotWritten then (bound.value, Err(ErrStore))
    else
      var b := Begun(bound.value.bindings[session], nonceHash);
      (bound.value.(bindings := bound.value.bindings[session := b]), Outcome(Ok(Launch(b.launches, nonceHash)), io))
  }

  function RetireTransaction(st: State, session: string, l: Launch, io: Persist): (State, Result<()>) {
    if io == NotWritten then (st, Err(ErrStore))
    else if session !in st.bindings then (st, Outcome(Ok(()), io))
    else
      var b := st.bindings[session];
      (st.(bindings := st.bindings[session := b.(pending := Without(b.pending, l))]), Outcome(Ok(()), io))
  }

  function AcceptTransaction(
    st: State, session: string, revision: nat, epoch: nat, account: string, version: nat, admitted: bool, l: Launch, io: Persist): (State, Result<()>)
  {
    var next := if admitted then Accept(st, session, revision, epoch, account, version, l) else Err(ErrBlocked);
    if next.Err? then (st, Err(next.error))
    else if io == NotWritten then (st, Err(ErrStore))
    else (next.value, Outcome(Ok(()), io))
  }

  // ---- runs -----------------------------------------------------------------------------------

  /** One accepted delivery, as reported to its caller. */
  datatype Delivery = Delivery(session: string, launch: Launch, harness: string, mode: string, account: string, version: nat)

  /** begun are the launches handed out, replaced the runtimes each session's launches replaced, in order. */
  datatype Sys = Sys(st: State, delivered: seq<Delivery>, begun: seq<(string, nat)>, replaced: map<string, seq<Delivered>>)

  datatype Event =
    | Begin(session: string, h: string, nonceHash: string, bindIO: Persist, io: Persist)
    | Retire(session: string, l: Launch, io: Persist)
    | Request(session: string, revision: nat, epoch: nat, account: string, version: nat, admitted: bool, l: Launch, io: Persist)
    | Login(profiles: map<string, Profile>, credentialVersion: map<string, nat>)

  function Replaced(s: Sys, session: string): seq<Delivered> {
    if session in s.replaced then s.replaced[session] else []
  }

  function Next(s: Sys, e: Event): Sys {
    match e
    case Begin(session, h, nonceHash, bindIO, io) =>
      var (st, r) := BeginTransaction(s.st, session, h, nonceHash, bindIO, io);
      s.(st := st, begun := if r.Ok? then s.begun + [(session, r.value.seqNo)] else s.begun)
    case Retire(session, l, io) =>
      s.(st := RetireTransaction(s.st, session, l, io).0)
    case Request(session, revision, epoch, account, version, admitted, l, io) =>
      var (st, r) := AcceptTransaction(s.st, session, revision, epoch, account, version, admitted, l, io);
      var b := if session in s.st.bindings then s.st.bindings[session] else CentralBinding("");
      var claims := st != s.st && session in st.bindings && st.bindings[session].launch != b.launch && b.deliveredEpoch != 0;
      Sys(st,
          if r.Ok? then s.delivered + [Delivery(session, l, b.harness, Mode(ProfileOf(s.st, b)), account, version)] else s.delivered,
          s.begun,
          if claims then s.replaced[session := Replaced(s, session) + [Runtime(b)]] else s.replaced)
    case Login(profiles, credentialVersion) =>
      s.(st := s.st.(profiles := profiles, credentialVersion := credentialVersion))
  }

  // ---- invariant --------------------------------------------------------------------------------

  /** Pending launches ascend above the current one and were all handed out. */
  ghost predicate Ordered(b: Binding) {
    && b.launch <= b.launches && |b.pending| <= PENDING_LIMIT
    && (forall i :: 0 <= i < |b.pending| ==> b.launch < b.pending[i].seqNo <= b.launches)
    && (forall i, j :: 0 <= i < j < |b.pending| ==> b.pending[i].seqNo < b.pending[j].seqNo)
  }

  predicate Opaque(d: Delivery) {
    d.harness == "claude" || d.mode == "api"
  }

  /** What the binding remembers of a delivery to its current launch. */
  predicate Remembers(b: Binding, d: Delivery) {
    && d.harness == b.harness && d.launch.seqNo <= b.launch
    && (d.launch.seqNo == b.launch ==>
          && d.mode == b.credentialMode && d.mode != ""
          && (d.account != "" ==> b.expectedAccount == d.account)
          && (Opaque(d) && d.version != 0 ==> b.credentialVersion == d.version))
  }

  /** What an earlier delivery to a launch recorded binds every later one, which may not leave it out either. */
  predicate SameLogin(earlier: Delivery, later: Delivery) {
    && later.mode == earlier.mode
    && (earlier.account != "" ==> later.account == earlier.account)
    && (Opaque(earlier) && earlier.version != 0 ==> later.version == earlier.version)
  }

  predicate SameLaunch(c: Delivery, d: Delivery) {
    c.session == d.session && c.launch.seqNo == d.launch.seqNo
  }

  ghost predicate BindingsOk(s: Sys) {
    && (forall x :: x in s.replaced ==> x in s.st.bindings)
    && forall x :: x in s.st.bindings ==>
      Ordered(s.st.bindings[x]) && s.st.bindings[x].history == Last(Replaced(s, x), HISTORY_LIMIT)
  }

  ghost predicate DeliveriesOk(s: Sys) {
    && (forall d :: d in s.delivered ==> d.session in s.st.bindings && Remembers(s.st.bindings[d.session], d))
    && (forall i, j :: 0 <= i < j < |s.delivered| && SameLaunch(s.delivered[i], s.delivered[j]) ==>
          SameLogin(s.delivered[i], s.delivered[j]))
  }

  ghost predicate BegunOk(s: Sys) {
    && (forall i :: 0 <= i < |s.begun| ==> s.begun[i].0 in s.st.bindings && s.begun[i].1 <= s.st.bindings[s.begun[i].0].launches)
    && (forall i, j :: 0 <= i < j < |s.begun| && s.begun[i].0 == s.begun[j].0 ==> s.begun[i].1 < s.begun[j].1)
  }

  ghost predicate Inv(s: Sys) {
    BindingsOk(s) && DeliveriesOk(s) && BegunOk(s)
  }

  // ---- pending lists --------------------------------------------------------------------------------

  lemma {:induction false} WithoutKeeps(ps: seq<Launch>, l: Launch)
    requires forall i, j :: 0 <= i < j < |ps| ==> ps[i].seqNo < ps[j].seqNo
    ensures var qs := Without(ps, l);
            && |qs| <= |ps| && (forall q :: q in qs <==> q in ps && q != l)
            && (forall i, j :: 0 <= i < j < |qs| ==> qs[i].seqNo < qs[j].seqNo)
  {
    if ps != [] {
      WithoutKeeps(ps[..|ps| - 1], l);
      var qs, init := Without(ps, l), Without(ps[..|ps| - 1], l);
      assert forall i :: 0 <= i < |init| ==> init[i] in init;
      assert forall q :: q in ps <==> q in ps[..|ps| - 1] || q == ps[|ps| - 1];
    }
  }

  lemma {:induction false} AboveKeeps(ps: seq<Launch>, n: nat)
    requires forall i, j :: 0 <= i < j < |ps| ==> ps[i].seqNo < ps[j].seqNo
    ensures var qs := Above(ps, n);
            && |qs| <= |ps| && (forall q :: q in qs <==> q in ps && q.seqNo > n)
            && (forall i, j :: 0 <= i < j < |qs| ==> qs[i].seqNo < qs[j].seqNo)
  {
    if ps != [] {
      AboveKeeps(ps[..|ps| - 1], n);
      var qs, init := Above(ps, n), Above(ps[..|ps| - 1], n);
      assert forall i :: 0 <= i < |init| ==> init[i] in init;
      assert forall q :: q in ps <==> q in ps[..|ps| - 1] || q == ps[|ps| - 1];
    }
  }

  lemma BegunKeeps(b: Binding, h: string)
    requires Ordered(b)
    ensures Ordered(Begun(b, h)) && Begun(b, h).launches > b.launches
    ensures Begun(b, h) == b.(pending := Begun(b, h).pending, launches := Begun(b, h).launches)
  {
  }

  lemma RetiredKeeps(b: Binding, l: Launch)
    requires Ordered(b)
    ensures Ordered(b.(pending := Without(b.pending, l)))
  {
    WithoutKeeps(b.pending, l);
    var qs := Without(b.pending, l);
    assert forall i :: 0 <= i < |qs| ==> qs[i] in qs;
  }

  lemma ClaimedKeeps(b: Binding, l: Launch)
    requires Ordered(b) && l in b.pending
    ensures Ordered(Claimed(b, l)) && Claimed(b, l).launch == l.seqNo > b.launch
  {
    AboveKeeps(b.pending, l.seqNo);
    var qs := Above(b.pending, l.seqNo);
    assert forall i :: 0 <= i < |qs| ==> qs[i] in qs;
  }

  lemma LastOfLast<T>(log: seq<T>, x: T, n: nat)
    requires n > 0
    ensures Last(Last(log, n) + [x], n) == Last(log + [x], n)
  {
  }

  /** st' records b for session and leaves every other binding alone. */
  ghost predicate Rebinds(st: State, st': State, session: string, b: Binding) {
    st'.bindings == st.bindings || st'.bindings == st.bindings[session := b]
  }

  /** Changing only which launches are pending keeps every delivery's promise. */
  lemma PendingChangeKeeps(s: Sys, s': Sys, session: string, b: Binding)
    requires BindingsOk(s) && DeliveriesOk(s) && s'.delivered == s.delivered && s'.replaced == s.replaced
    requires Rebinds(s.st, s'.st, session, b) && Ordered(b)
    requires session in s.st.bindings ==> b == s.st.bindings[session].(pending := b.pending, launches := b.launches)
    requires session !in s.st.bindings ==> b.history == []
    ensures BindingsOk(s') && DeliveriesOk(s')
  {
    hide Ordered, SameLogin;
  }

  lemma BeginKeeps(s: Sys, e: Event)
    requires Inv(s) && e.Begin?
    ensures Inv(Next(s, e))
  {
    hide Ordered, Remembers, SameLogin, Begun, Last, BindingsOk, DeliveriesOk;
    var s' := Next(s, e);
    var b0 := if e.session in s.st.bindings then s.st.bindings[e.session] else CentralBinding(if e.h == "" then "claude" else e.h);
    BoundOrdered(s, e.session, if e.h == "" then "claude" else e.h);
    BegunKeeps(b0, e.nonceHash);
    var b := if s'.st.bindings == s.st.bindings[e.session := b0] then b0 else Begun(b0, e.nonceHash);
    assert Rebinds(s.st, s'.st, e.session, b);
    PendingChangeKeeps(s, s', e.session, b);
  }

  lemma BoundOrdered(s: Sys, session: string, h: string)
    requires BindingsOk(s)
    ensures session in s.st.bindings ==> Ordered(s.st.bindings[session])
    ensures Ordered(CentralBinding(h))
  {
  }

  lemma RetireKeeps(s: Sys, e: Event)
    requires Inv(s) && e.Retire?
    ensures Inv(Next(s, e))
  {
    hide Ordered, Remembers, SameLogin, Last, BindingsOk, DeliveriesOk, Without;
    var s' := Next(s, e);
    if s'.st != s.st {
      var b := s.st.bindings[e.session];
      BoundOrdered(s, e.session, "");
      RetiredKeeps(b, e.l);
      PendingChangeKeeps(s, s', e.session, b.(pending := Without(b.pending, e.l)));
    } else {
      assert s' == s;
    }
  }

  /** What an accepted request makes of its binding. */
  lemma AcceptShape(st: State, session: string, revision: nat, epoch: nat, account: string, version: nat, l: Launch)
    requires Accept(st, session, revision, epoch, account, version, l).Ok?
    ensures session in st.bindings
    ensures var b, st' := st.bindings[session], Accept(st, session, revision, epoch, account, version, l).value;
            var mode := Mode(ProfileOf(st, b));
            if IsCurrent(b, l)
            then Pinned(b, mode, account, version) && st'.bindings == st.bindings[session := Deliver(b, mode, epoch, account, version)]
            else l in b.pending && st'.bindings == st.bindings[session := Deliver(Claimed(b, l), mode, epoch, account, version)]
  {
    hide Claimed, Deliver, Pinned, Refuses, Mode;
  }

  lemma DeliverKeepsOrder(b: Binding, mode: string, epoch: nat, account: string, version: nat)
    ensures Ordered(b) ==> Ordered(Deliver(b, mode, epoch, account, version))
  {
  }

  /** One more delivery: it is remembered, and agrees with every other to its launch. */
  lemma DeliveryJoins(s: Sys, s': Sys, session: string, b': Binding, d: Delivery)
    requires DeliveriesOk(s) && session in s.st.bindings && s'.st.bindings == s.st.bindings[session := b']
    requires s'.delivered == s.delivered || s'.delivered == s.delivered + [d]
    requires d.session == session && Remembers(b', d)
    requires forall c :: c in s.delivered && c.session == session ==>
               Remembers(b', c) && (SameLaunch(c, d) ==> SameLogin(c, d))
    ensures DeliveriesOk(s')
  {
    assert forall c: Delivery :: SameLaunch(c, d) ==> c.session == session;
    hide Remembers, SameLogin, SameLaunch;
    assert forall c :: c in s'.delivered ==> c in s.delivered || c == d;
  }

  /** The other bindings are not touched. */
  lemma BindingJoins(s: Sys, s': Sys, session: string, b': Binding)
    requires BindingsOk(s) && session in s.st.bindings && s'.st.bindings == s.st.bindings[session := b']
    requires s'.replaced == s.replaced || (session in s'.replaced && s'.replaced == s.replaced[session := s'.replaced[session]])
    requires Ordered(b') && b'.history == Last(Replaced(s', session), HISTORY_LIMIT)
    ensures BindingsOk(s')
  {
    hide Ordered, Last;
    assert forall x :: x != session ==> Replaced(s', x) == Replaced(s, x);
  }

  /** The current launch is delivered to again: it stays pinned to its login. */
  lemma RedeliveryKeeps(s: Sys, s': Sys, session: string, mode: string, epoch: nat, account: string, version: nat, l: Launch, d: Delivery)
    requires BindingsOk(s) && DeliveriesOk(s) && session in s.st.bindings && mode != ""
    requires IsCurrent(s.st.bindings[session], l) && Pinned(s.st.bindings[session], mode, account, version)
    requires s'.st.bindings == s.st.bindings[session := Deliver(s.st.bindings[session], mode, epoch, account, version)]
    requires s'.replaced == s.replaced && (s'.delivered == s.delivered || s'.delivered == s.delivered + [d])
    requires d == Delivery(session, l, s.st.bindings[session].harness, mode, account, version)
    ensures BindingsOk(s') && DeliveriesOk(s')
  {
    hide Ordered;
    var b := s.st.bindings[session];
    var b' := Deliver(b, mode, epoch, account, version);
    DeliverKeepsOrder(b, mode, epoch, account, version);
    BindingJoins(s, s', session, b');
    forall c | c in s.delivered && c.session == session
      ensures Remembers(b', c) && (SameLaunch(c, d) ==> SameLogin(c, d))
    {
      assert Remembers(b, c);
    }
    DeliveryJoins(s, s', session, b', d);
  }

  /** The runtime a takeover replaces joins the history. */
  lemma TakeoverBinding(s: Sys, session: string, l: Launch, mode: string, epoch: nat, account: string, version: nat)
    requires BindingsOk(s) && session in s.st.bindings && l in s.st.bindings[session].pending
    ensures var b := s.st.bindings[session];
            var b' := Deliver(Claimed(b, l), mode, epoch, account, version);
            && Ordered(b') && b'.launch == l.seqNo > b.launch && b'.harness == b.harness && b'.launches == b.launches
            && b'.history == Last(if b.deliveredEpoch != 0 then Replaced(s, session) + [Runtime(b)] else Replaced(s, session), HISTORY_LIMIT)
  {
    hide Ordered, Last;
    var b := s.st.bindings[session];
    ClaimedKeeps(b, l);
    DeliverKeepsOrder(Claimed(b, l), mode, epoch, account, version);
    LastOfLast(Replaced(s, session), Runtime(b), HISTORY_LIMIT);
  }

  /** A pending launch takes over: every earlier delivery went to an older launch. */
  lemma TakeoverKeeps(s: Sys, s': Sys, session: string, b': Binding, d: Delivery)
    requires BindingsOk(s) && DeliveriesOk(s) && session in s.st.bindings && s'.st.bindings == s.st.bindings[session := b']
    requires Ordered(b') && b'.launch > s.st.bindings[session].launch && b'.harness == s.st.bindings[session].harness
    requires s'.replaced == s.replaced || (session in s'.replaced && s'.replaced == s.replaced[session := s'.replaced[session]])
    requires b'.history == Last(Replaced(s', session), HISTORY_LIMIT)
    requires s'.delivered == s.delivered || s'.delivered == s.delivered + [d]
    requires d.session == session && d.launch.seqNo == b'.launch && Remembers(b', d)
    ensures BindingsOk(s') && DeliveriesOk(s')
  {
    hide Ordered, Last, SameLogin;
    BindingJoins(s, s', session, b');
    forall c | c in s.delivered && c.session == session
      ensures Remembers(b', c) && !SameLaunch(c, d)
    {
      assert Remembers(s.st.bindings[session], c);
    }
    DeliveryJoins(s, s', session, b', d);
  }

  lemma RequestKeeps(s: Sys, e: Event)
    requires Inv(s) && e.Request?
    ensures Inv(Next(s, e))
  {
    hide Ordered, Remembers, SameLogin, Last, BindingsOk, DeliveriesOk, Claimed, Accept, Runtime, Refuses;
    var s' := Next(s, e);
    var (st, r) := AcceptTransaction(s.st, e.session, e.revision, e.epoch, e.account, e.version, e.admitted, e.l, e.io);
    if e.admitted && Accept(s.st, e.session, e.revision, e.epoch, e.account, e.version, e.l).Ok? && e.io != NotWritten {
      AcceptShape(s.st, e.session, e.revision, e.epoch, e.account, e.version, e.l);
      var b := s.st.bindings[e.session];
      var mode := Mode(ProfileOf(s.st, b));
      var d := Delivery(e.session, e.l, b.harness, mode, e.account, e.version);
      BoundOrdered(s, e.session, "");
      if e.l in b.pending {
        PendingNotCurrent(b, e.l);
        TakeoverBinding(s, e.session, e.l, mode, e.epoch, e.account, e.version);
        var b' := Deliver(Claimed(b, e.l), mode, e.epoch, e.account, e.version);
        FirstDeliveryRemembered(b', d);
        TakeoverKeeps(s, s', e.session, b', d);
      } else {
        RedeliveryKeeps(s, s', e.session, mode, e.epoch, e.account, e.version, e.l, d);
      }
    } else {
      assert s' == s;
    }
  }

  lemma FirstDeliveryRemembered(b: Binding, d: Delivery)
    requires d.harness == b.harness && d.launch.seqNo == b.launch && d.mode == b.credentialMode != ""
    requires d.account == b.expectedAccount && d.version == b.credentialVersion
    ensures Remembers(b, d)
  {
  }

  lemma PendingNotCurrent(b: Binding, l: Launch)
    requires Ordered(b) && l in b.pending
    ensures !IsCurrent(b, l)
  {
  }

  lemma NextKeeps(s: Sys, e: Event)
    requires Inv(s)
    ensures Inv(Next(s, e))
  {
    hide Ordered, Remembers, SameLogin, Last;
    match e
    case Begin(_, _, _, _, _) => BeginKeeps(s, e);
    case Retire(_, _, _) => RetireKeeps(s, e);
    case Request(_, _, _, _, _, _, _, _) => RequestKeeps(s, e);
    case Login(_, _) =>
  }

  function Run(s: Sys, events: seq<Event>): Sys {
    if events == [] then s else Next(Run(s, events[..|events| - 1]), events[|events| - 1])
  }

  /** Any store written by version 2 before it starts: nothing handed out or delivered yet in this run. */
  ghost predicate Init(s: Sys) {
    && s.delivered == [] && s.begun == [] && s.replaced.Keys == s.st.bindings.Keys
    && forall x :: x in s.st.bindings ==>
         Ordered(s.st.bindings[x]) && s.replaced[x] == s.st.bindings[x].history && |s.st.bindings[x].history| <= HISTORY_LIMIT
  }

  lemma {:induction false} RunKeeps(s: Sys, events: seq<Event>)
    requires Init(s)
    ensures Inv(Run(s, events))
  {
    hide Next;
    if events != [] {
      RunKeeps(s, events[..|events| - 1]);
      NextKeeps(Run(s, events[..|events| - 1]), events[|events| - 1]);
    }
  }

  /**
   Over any run, whatever logins replace the central profile in between: all deliveries
   accepted for one launch carry one mode; once one carried an account, every later one
   carries that account; once a Claude or API one carried a version, every later one
   carries that version.
   */
  lemma DeliveriesPinToTheirLaunch(s: Sys, events: seq<Event>, i: nat, j: nat)
    requires Init(s)
    ensures var log := Run(s, events).delivered;
            i < j < |log| && SameLaunch(log[i], log[j]) ==>
              && log[j].mode == log[i].mode
              && (log[i].account != "" ==> log[j].account == log[i].account)
              && (Opaque(log[i]) && log[i].version != 0 ==> log[j].version == log[i].version)
  {
    hide Next, Ordered, Remembers, Last;
    RunKeeps(s, events);
  }

  /**
   Over any run: launch numbers of a session are handed out strictly increasing; its
   pending launches ascend above the current one and are at most sixteen; its history is
   the last at most eight of all the runtimes its launches replaced.
   */
  lemma LaunchOrderAndHistory(s: Sys, events: seq<Event>)
    requires Init(s)
    ensures var e := Run(s, events);
            && (forall i, j :: 0 <= i < j < |e.begun| && e.begun[i].0 == e.begun[j].0 ==> e.begun[i].1 < e.begun[j].1)
            && (forall x :: x in e.st.bindings ==> Ordered(e.st.bindings[x]) && e.st.bindings[x].history == Last(Replaced(e, x), HISTORY_LIMIT))
  {
    hide Next, Ordered, Remembers, SameLogin, Last;
    RunKeeps(s, events);
  }

  // ---- launches that are over -------------------------------------------------------------------

  /** Handed out, but neither waiting nor the running process: replaced, evicted or retired. */
  predicate Over(st: State, session: string, l: Launch) {
    session in st.bindings && var b := st.bindings[session]; l.seqNo <= b.launches && l !in b.pending && !IsCurrent(b, l)
  }

  /** The three ways a launch ends. */
  lemma RetiredIsOver(b: Binding, l: Launch)
    requires Ordered(b) && l in b.pending
    ensures var b' := b.(pending := Without(b.pending, l)); l.seqNo <= b'.launches && l !in b'.pending && !IsCurrent(b', l)
  {
    WithoutKeeps(b.pending, l);
  }

  lemma EvictedIsOver(b: Binding, nonceHash: string)
    requires Ordered(b) && |b.pending| == PENDING_LIMIT
    ensures var b', l := Begun(b, nonceHash), b.pending[0]; l.seqNo <= b'.launches && l !in b'.pending && !IsCurrent(b', l)
  {
    var b' := Begun(b, nonceHash);
    assert b'.pending == b.pending[1..] + [Launch(Max(b.launches, b.launch) + 1, nonceHash)];
    assert forall i :: 0 <= i < |b'.pending| ==> b'.pending[i].seqNo > b.pending[0].seqNo;
  }

  lemma SupersededIsOver(b: Binding, l: Launch, newer: Launch, mode: string, epoch: nat, account: string, version: nat)
    requires Ordered(b) && newer in b.pending && l.seqNo < newer.seqNo
    ensures var b' := Deliver(Claimed(b, newer), mode, epoch, account, version);
            l.seqNo <= b'.launches && l !in b'.pending && !IsCurrent(b', l)
  {
    AboveKeeps(b.pending, newer.seqNo);
  }

  lemma BeginKeepsOver(st: State, x: string, h: string, n: string, bindIO: Persist, io: Persist, session: string, l: Launch)
    requires Over(st, session, l)
    ensures var st' := BeginTransaction(st, x, h, n, bindIO, io).0;
            Over(st', session, l) && st'.bindings[session].launch == st.bindings[session].launch
  {
  }

  lemma RetireKeepsOver(st: State, x: string, q: Launch, io: Persist, session: string, l: Launch)
    requires Over(st, session, l) && Ordered(st.bindings[session])
    ensures var st' := RetireTransaction(st, x, q, io).0;
            Over(st', session, l) && st'.bindings[session].launch == st.bindings[session].launch
  {
    WithoutKeeps(st.bindings[session].pending, q);
  }

  lemma AcceptKeepsOver(st: State, x: string, revision: nat, epoch: nat, account: string, version: nat, q: Launch, session: string, l: Launch)
    requires Over(st, session, l) && Ordered(st.bindings[session]) && Accept(st, x, revision, epoch, account, version, q).Ok?
    ensures var st' := Accept(st, x, revision, epoch, account, version, q).value;
            Over(st', session, l) && st'.bindings[session].launch >= st.bindings[session].launch
    ensures !(x == session && q == l)
  {
    hide Accept, Pinned, Mode, ProfileOf, Last, Above;
    AcceptShape(st, x, revision, epoch, account, version, q);
    if x == session {
      var b := st.bindings[session];
      if !IsCurrent(b, q) {
        ClaimedKeeps(b, q);
        AboveKeeps(b.pending, q.seqNo);
      }
    }
  }

  lemma OverStaysOver(s: Sys, e: Event, session: string, l: Launch)
    requires Inv(s) && Over(s.st, session, l)
    ensures Over(Next(s, e).st, session, l)
    ensures Next(s, e).st.bindings[session].launch >= s.st.bindings[session].launch
    ensures e.Request? && e.session == session && e.l == l ==> Next(s, e).delivered == s.delivered
  {
    hide Ordered, DeliveriesOk, BegunOk, BeginTransaction, RetireTransaction, Accept, Last, Mode, ProfileOf, IsCurrent;
    match e
    case Begin(x, h, n, bindIO, io) => BeginKeepsOver(s.st, x, h, n, bindIO, io, session, l);
    case Retire(x, q, io) => RetireKeepsOver(s.st, x, q, io, session, l);
    case Request(x, revision, epoch, account, version, _, q, io) =>
      if Accept(s.st, x, revision, epoch, account, version, q).Ok? {
        AcceptKeepsOver(s.st, x, revision, epoch, account, version, q, session, l);
      }
    case Login(_, _) =>
  }

  /** No event lowers a session's current launch. */
  lemma LaunchNeverDecreases(s: Sys, e: Event, session: string)
    requires Inv(s) && session in s.st.bindings
    ensures session in Next(s, e).st.bindings && Next(s, e).st.bindings[session].launch >= s.st.bindings[session].launch
  {
    hide Ordered, DeliveriesOk, BegunOk, Accept, Last, Mode, ProfileOf, IsCurrent, Without, Claimed, Pinned, Refuses;
    if e.Request? && Accept(s.st, e.session, e.revision, e.epoch, e.account, e.version, e.l).Ok? {
      AcceptShape(s.st, e.session, e.revision, e.epoch, e.account, e.version, e.l);
      var b := s.st.bindings[e.session];
      if !IsCurrent(b, e.l) {
        ClaimedKeeps(b, e.l);
      }
    }
  }

  /** A launch that was replaced, evicted or retired before its first delivery never receives one in any later run. */
  lemma {:induction false} OverNeverDelivered(s: Sys, events: seq<Event>, session: string, l: Launch)
    requires Inv(s) && Over(s.st, session, l)
    ensures Inv(Run(s, events)) && Over(Run(s, events).st, session, l)
    ensures forall i :: |s.delivered| <= i < |Run(s, events).delivered| ==>
              !(Run(s, events).delivered[i].session == session && Run(s, events).delivered[i].launch == l)
    ensures |s.delivered| <= |Run(s, events).delivered|
  {
    hide Next, Over, Inv;
    if events != [] {
      var init, e := events[..|events| - 1], events[|events| - 1];
      OverNeverDelivered(s, init, session, l);
      NextKeeps(Run(s, init), e);
      OverStaysOver(Run(s, init), e, session, l);
      DeliveredGrows(Run(s, init), e);
    }
  }

  lemma DeliveredGrows(s: Sys, e: Event)
    ensures var log, log' := s.delivered, Next(s, e).delivered;
            log' == log || (e.Request? && |log'| == |log| + 1 && log'[..|log|] == log
                            && log'[|log|].session == e.session && log'[|log|].launch == e.l)
  {
    hide AcceptTransaction, Mode;
  }
}
