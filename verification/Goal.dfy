/**
 A coordinator's goal: what the user's prompts, the model's own transitions, the
 Stop hook and restarts make of it, and the budget that bounds amux's own turns.
 */
module Goal {
  import opened Bytes
  import opened Utf8

  const MAX_CONTINUATIONS := 100
  const MAX_OBJECTIVE := 4096
  const ELLIPSIS: bytes := [0xE2, 0x80, 0xA6]

  // ---- the objective kept in the file ------------------------------------------------------

  /** The last position at or before cut that does not split a character. */
  function CutPoint(s: bytes, cut: nat): (k: nat)
    requires cut < |s|
    ensures k <= cut && (k > 0 ==> !IsContinuation(s[k]))
    ensures forall i :: k < i <= cut ==> IsContinuation(s[i])
  {
    if cut > 0 && IsContinuation(s[cut]) then CutPoint(s, cut - 1) else cut
  }

  function Truncated(s: bytes): bytes {
    if |s| <= MAX_OBJECTIVE then s else s[..CutPoint(s, MAX_OBJECTIVE)] + ELLIPSIS
  }

  method Truncate(s: bytes) returns (r: bytes)
    ensures r == Truncated(s)
  {
    if |s| <= MAX_OBJECTIVE { return s; }
    var cut := MAX_OBJECTIVE;
    while cut > 0 && IsContinuation(s[cut])
      invariant 0 <= cut <= MAX_OBJECTIVE
      invariant CutPoint(s, cut) == CutPoint(s, MAX_OBJECTIVE)
    {
      cut := cut - 1;
    }
    return s[..cut] + ELLIPSIS;
  }

  /** The kept text is at most an ellipsis longer than the cap, and keeps whole characters of the original. */
  lemma TruncatedIsBounded(s: bytes)
    ensures |Truncated(s)| <= MAX_OBJECTIVE + |ELLIPSIS|
    ensures Truncated(s) == s || exists k :: 0 <= k <= MAX_OBJECTIVE < |s| && Truncated(s) == s[..k] + ELLIPSIS
  {
    if |s| > MAX_OBJECTIVE {
      var k := CutPoint(s, MAX_OBJECTIVE);
      assert Truncated(s) == s[..k] + ELLIPSIS;
    }
  }

  lemma TruncatedIsValid(s: bytes)
    requires Valid(s)
    ensures Valid(Truncated(s))
  {
    if |s| > MAX_OBJECTIVE {
      var k := CutPoint(s, MAX_OBJECTIVE);
      CutIsValid(s, k);
      assert CharLength(ELLIPSIS) == 3 && ELLIPSIS[3..] == [];
      ConcatIsValid(s[..k], ELLIPSIS);
    }
  }

  /** Truncating again changes nothing, for any bytes: the ellipsis is never itself split. */
  lemma TruncatedTwice(s: bytes)
    ensures Truncated(Truncated(s)) == Truncated(s)
  {
    var r := Truncated(s);
    if |r| > MAX_OBJECTIVE {
      assert |s| > MAX_OBJECTIVE;
      var k := CutPoint(s, MAX_OBJECTIVE);
      assert r == s[..k] + ELLIPSIS;
      assert r[k] == 0xE2 && !IsContinuation(r[k]);
      forall i | k < i <= MAX_OBJECTIVE ensures IsContinuation(r[i]) {
        assert r[i] == ELLIPSIS[i - k];
      }
      CutPointIs(r, MAX_OBJECTIVE, k);
      assert r[..k] == s[..k];
    }
  }

  lemma {:induction false} CutPointIs(s: bytes, cut: nat, k: nat)
    requires k <= cut < |s| && !IsContinuation(s[k]) && forall i :: k < i <= cut ==> IsContinuation(s[i])
    ensures CutPoint(s, cut) == k
  {
    if k < cut { CutPointIs(s, cut - 1, k); }
  }

  // ---- the goal ----------------------------------------------------------------------------

  /** Unknown stands for any other text a state file might hold. */
  datatype Status = NoGoal | Active | Paused | Input | Waiting | Blocked | BudgetLimited | Complete | Unknown(text: string)

  datatype State = State(objective: bytes, status: Status, continuations: int, note: bytes, created: int, updated: int)

  const NONE := State([], NoGoal, 0, [], 0, 0)

  /** A trimmed prompt, by the marker it begins with. */
  datatype Prompt = Blank | RestartNotice | Nudge | Words(text: bytes)

  const REPLY: bytes := [10, 10, 85, 115, 101, 114, 32, 114, 101, 112, 108, 121, 58, 32]

  function OnPrompt(s: State, p: Prompt, now: int): State {
    match p
    case Blank => s
    case RestartNotice => OnRestart(s, now)
    case Nudge =>
      if s.status != NoGoal && s.objective != []
      then s.(status := Active, continuations := 0, note := [], updated := now)
      else s
    case Words(text) =>
      if s.status == Input && s.objective != []
      then State(Truncated(s.objective + REPLY + text), Active, 0, [], s.created, now)
      else State(Truncated(text), Active, 0, [], now, now)
  }

  predicate ContinueOnRestart(s: State) {
    s.status in {Active, Waiting} && s.objective != [] && s.continuations < MAX_CONTINUATIONS
  }

  function OnRestart(s: State, now: int): State {
    if ContinueOnRestart(s) then s.(status := Active, continuations := s.continuations + 1, note := [], updated := now) else s
  }

  /** note stands for the sentence the hook writes when the budget is spent. */
  datatype Stopped = Stopped(state: State, forced: bool)

  function OnStop(s: State, now: int, note: bytes): Stopped {
    if s.status == Waiting then Stopped(s.(status := Active, updated := now), false)
    else if s.status != Active then Stopped(s, false)
    else if s.continuations >= MAX_CONTINUATIONS then Stopped(s.(status := BudgetLimited, note := note, updated := now), false)
    else Stopped(s.(continuations := s.continuations + 1, updated := now), true)
  }

  /** The model's own transitions; None is an error. */
  function Mark(s: State, status: Status, note: bytes, now: int): Option<State> {
    if s.status == NoGoal || status !in {Complete, Input, Waiting, Blocked} then None
    else Some(s.(status := status, note := Truncated(note), updated := now))
  }

  datatype Request = Clear(objective: bytes) | Set(status: Option<Status>, objective: bytes)

  datatype Controlled = Controlled(state: State, resume: bool)

  /** The user's control; status and objective are already trimmed. None is an error. */
  function Control(s: State, r: Request, now: int): Option<Controlled> {
    match r
    case Clear(objective) => if objective != [] then None else Some(Controlled(NONE, false))
    case Set(status, objective) =>
      if status == None && objective == [] then None
      else if status.Some? && status.value !in {Active, Paused, Complete} then None
      else if s.status == NoGoal && objective == [] then None
      else
        var based := if objective == [] then s
          else (if s.status == NoGoal then NONE.(created := now, status := Active) else s).(objective := Truncated(objective));
        var moved := if status.Some? then based.(status := status.value) else based;
        var next := moved.(continuations := if moved.status == Active then 0 else moved.continuations, note := [], updated := now);
        Some(Controlled(next, next.status == Active && s.status != Active))
  }

  // ---- runs -----------------------------------------------------------------------------------

  datatype Event =
    | Stop(now: int, note: bytes)
    | Restart(now: int)
    | Marks(status: Status, note: bytes, now: int)
    | Prompts(prompt: Prompt, now: int)
    | Controls(request: Request, now: int)

  /** What the user did, as against amux and the model. */
  predicate ByUser(e: Event) {
    e.Controls? || (e.Prompts? && e.prompt != RestartNotice)
  }

  /** An event that fails leaves the goal as it was. */
  function After(s: State, e: Event): State {
    match e
    case Stop(now, note) => OnStop(s, now, note).state
    case Restart(now) => OnRestart(s, now)
    case Marks(status, note, now) => var m := Mark(s, status, note, now); if m.Some? then m.value else s
    case Prompts(p, now) => OnPrompt(s, p, now)
    case Controls(r, now) => var c := Control(s, r, now); if c.Some? then c.value.state else s
  }

  function Final(s: State, es: seq<Event>): State
    decreases |es|
  {
    if es == [] then s else Final(After(s, es[0]), es[1..])
  }

  /** One turn amux itself added: a Stop turned back, or a restart that continued the goal. */
  function Spends(s: State, e: Event): nat {
    match e
    case Stop(now, note) => if OnStop(s, now, note).forced then 1 else 0
    case Restart(now) => if ContinueOnRestart(s) then 1 else 0
    case Prompts(RestartNotice, now) => if ContinueOnRestart(s) then 1 else 0
    case _ => 0
  }

  function Spent(s: State, es: seq<Event>): nat
    decreases |es|
  {
    if es == [] then 0 else Spends(s, es[0]) + Spent(After(s, es[0]), es[1..])
  }

  ghost predicate NoUserTurn(es: seq<Event>) {
    forall i :: 0 <= i < |es| ==> !ByUser(es[i])
  }

  function Budget(s: State): nat {
    if s.continuations < MAX_CONTINUATIONS then MAX_CONTINUATIONS - s.continuations else 0
  }

  lemma OneEventIsCounted(s: State, e: Event)
    requires !ByUser(e)
    ensures After(s, e).continuations == s.continuations + Spends(s, e)
    ensures Spends(s, e) <= Budget(s)
  {
  }

  /** Between two user turns every added turn is counted, and together they never exceed the budget left. */
  lemma {:induction false} AddedTurnsAreBounded(s: State, es: seq<Event>)
    requires NoUserTurn(es)
    ensures Final(s, es).continuations == s.continuations + Spent(s, es)
    ensures Spent(s, es) <= Budget(s)
    decreases |es|
  {
    if es != [] {
      assert forall i :: 0 <= i < |es[1..]| ==> es[1..][i] == es[i + 1];
      OneEventIsCounted(s, es[0]);
      AddedTurnsAreBounded(After(s, es[0]), es[1..]);
    }
  }

  function Stops(es: seq<Event>): nat {
    if es == [] then 0 else (if es[0].Stop? then 1 else 0) + Stops(es[1..])
  }

  function LetThrough(s: State, es: seq<Event>): nat
    decreases |es|
  {
    if es == [] then 0
    else (if es[0].Stop? && !OnStop(s, es[0].now, es[0].note).forced then 1 else 0) + LetThrough(After(s, es[0]), es[1..])
  }

  /** The Stop hook cannot hold a turn forever: without a user turn all but the budgeted Stops are let through. */
  lemma StopsAreLetThrough(s: State, es: seq<Event>)
    requires NoUserTurn(es)
    ensures Stops(es) <= LetThrough(s, es) + Budget(s)
    ensures Stops(es) > Budget(s) ==> LetThrough(s, es) > 0
  {
    StopsForcedOrLetThrough(s, es);
    AddedTurnsAreBounded(s, es);
  }

  lemma {:induction false} StopsForcedOrLetThrough(s: State, es: seq<Event>)
    ensures Stops(es) <= LetThrough(s, es) + Spent(s, es)
    decreases |es|
  {
    if es != [] { StopsForcedOrLetThrough(After(s, es[0]), es[1..]); }
  }

  /** Only the user lowers the count, so only the user renews the budget. */
  lemma OnlyTheUserRenews(s: State, e: Event)
    requires After(s, e).continuations < s.continuations
    ensures ByUser(e)
  {
  }

  /** The statuses the user owns: amux's own events neither leave nor enter anything there, nor continue the turn. */
  predicate Settled(s: State) {
    s.status !in {Active, Waiting}
  }

  lemma {:induction false} SettledGoalsStayPut(s: State, es: seq<Event>)
    requires Settled(s) && forall i :: 0 <= i < |es| ==> es[i].Stop? || es[i].Restart?
    ensures Final(s, es) == s && Spent(s, es) == 0 && LetThrough(s, es) == Stops(es)
    decreases |es|
  {
    if es != [] {
      assert forall i :: 0 <= i < |es[1..]| ==> es[1..][i] == es[i + 1];
      SettledGoalsStayPut(s, es[1..]);
    }
  }

  /** From a working goal, Stops alone continue it to the last of the budget and then end it for good. */
  lemma {:induction false} StopsExhaustTheBudget(s: State, es: seq<Event>)
    requires s.status == Active && forall i :: 0 <= i < |es| ==> es[i].Stop?
    ensures Spent(s, es) == if |es| < Budget(s) then |es| else Budget(s)
    ensures Final(s, es).status == if |es| <= Budget(s) then Active else BudgetLimited
    decreases |es|
  {
    if es != [] {
      assert forall i :: 0 <= i < |es[1..]| ==> es[1..][i] == es[i + 1];
      var t := After(s, es[0]);
      if t.status == Active {
        StopsExhaustTheBudget(t, es[1..]);
      } else {
        SettledGoalsStayPut(t, es[1..]);
      }
    }
  }

  /** A waiting goal lets exactly one Stop through and keeps its count. */
  lemma WaitingLetsOneStopThrough(s: State, first: Event, second: Event)
    requires s.status == Waiting && first.Stop? && second.Stop?
    ensures Spends(s, first) == 0 && After(s, first).status == Active
    ensures Spends(After(s, first), second) == if Budget(s) > 0 then 1 else 0
  {
  }

  // ---- what the file holds ------------------------------------------------------------------

  /** What the user and the model send is text. */
  predicate TextEvent(e: Event) {
    match e
    case Marks(_, note, _) => Valid(note)
    case Stop(_, note) => Valid(note)
    case Prompts(Words(text), _) => Valid(text)
    case Controls(Set(_, objective), _) => Valid(objective)
    case _ => true
  }

  predicate Bounded(s: State) {
    |s.objective| <= MAX_OBJECTIVE + |ELLIPSIS| && Valid(s.objective) && Valid(s.note)
  }

  lemma EventKeepsBounded(s: State, e: Event)
    requires Bounded(s) && TextEvent(e)
    ensures Bounded(After(s, e))
  {
    hide Truncated, CharLength;
    match e
    case Marks(_, note, _) => TruncatedIsValid(note);
    case Prompts(Words(text), _) =>
      TruncatedIsValid(text);
      TruncatedIsBounded(text);
      ReplyIsValid();
      ConcatIsValid(s.objective, REPLY);
      ConcatIsValid(s.objective + REPLY, text);
      TruncatedIsValid(s.objective + REPLY + text);
      TruncatedIsBounded(s.objective + REPLY + text);
    case Controls(Set(_, objective), _) =>
      TruncatedIsValid(objective);
      TruncatedIsBounded(objective);
    case _ =>
  }

  lemma ReplyIsValid()
    ensures Valid(REPLY)
  {
    hide Valid, CharLength;
    AsciiIsValid(REPLY);
  }

  lemma {:induction false} AsciiIsValid(s: bytes)
    requires forall i :: 0 <= i < |s| ==> s[i] < 0x80
    ensures Valid(s)
  {
    if s != [] { AsciiIsValid(s[1..]); }
  }

  /** Through any history the stored objective stays valid text within the cap plus its ellipsis. */
  lemma {:induction false} StoredTextStaysBounded(s: State, es: seq<Event>)
    requires Bounded(s) && forall i :: 0 <= i < |es| ==> TextEvent(es[i])
    ensures Bounded(Final(s, es))
    decreases |es|
  {
    if es != [] {
      assert forall i :: 0 <= i < |es[1..]| ==> es[1..][i] == es[i + 1];
      EventKeepsBounded(s, es[0]);
      StoredTextStaysBounded(After(s, es[0]), es[1..]);
    }
  }
}
