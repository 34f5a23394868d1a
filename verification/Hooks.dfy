/** Installing amux's hooks and status line into a Claude settings file that is also the user's. */
module Hooks {
  import opened Bytes
  import opened Text
  import opened StatusLine

  /** One hook of a group; anything that is not an object is Odd. */
  datatype Hook = Hook(command: Option<string>, async: bool, timeout: Option<int>, rest: bytes) | Odd(raw: bytes)

  datatype Group = Group(hooks: seq<Hook>, rest: bytes) | OddGroup(raw: bytes)

  /** What an event's key holds: a list of groups, or some other value. */
  datatype EventValue = Groups(groups: seq<Group>) | NotAList(raw: bytes)

  datatype Status = Status(kind: Option<string>, command: Option<string>, rest: bytes)

  datatype Root = Root(hooks: map<string, EventValue>, status: Option<Status>, tui: Option<string>, rest: bytes)

  // ---- the commands amux installs -------------------------------------------------------------

  /** An event and what is appended to the binary's path to make the command it runs. */
  datatype Row = Row(event: string, suffix: string)

  const STATUS_ROWS: seq<Row> := [
    Row("SessionStart", " agent hook ready"), Row("UserPromptSubmit", " agent hook running"),
    Row("PostToolUse", " agent hook running"), Row("Notification", " agent hook waiting"),
    Row("Stop", " agent hook ready"), Row("SessionEnd", " agent hook idle")]

  /** Goal mode's Stop hook reports that event's activity itself. */
  const GOAL_STATUS_ROWS: seq<Row> := [
    Row("SessionStart", " agent hook ready"), Row("UserPromptSubmit", " agent hook running"),
    Row("PostToolUse", " agent hook running"), Row("Notification", " agent hook waiting"),
    Row("SessionEnd", " agent hook idle")]

  const GOAL_ROWS: seq<Row> := [Row("UserPromptSubmit", " agent goal prompt --hook"), Row("Stop", " agent goal stop --hook")]

  const CAPTURE_ROWS: seq<Row> := [
    Row("UserPromptSubmit", " agent capture --hook"), Row("PostToolUse", " agent capture --hook"),
    Row("SubagentStop", " agent capture --hook"), Row("Stop", " agent capture --hook"),
    Row("PreCompact", " agent capture --hook"), Row("SessionEnd", " agent capture --hook")]

  const PERMISSION_ROWS: seq<Row> := [
    Row("PermissionRequest", " agent permission request --hook"), Row("PostToolUse", " agent permission allow --hook"),
    Row("PermissionDenied", " agent permission deny --hook"), Row("Stop", " agent permission clear --hook"),
    Row("SessionEnd", " agent permission clear --hook")]

  function Rows(goal: bool): seq<Row> {
    (if goal then GOAL_STATUS_ROWS + GOAL_ROWS else STATUS_ROWS) + CAPTURE_ROWS + PERMISSION_ROWS
  }

  /** The commands of one event, in table order. */
  function Select(rows: seq<Row>, path: string, event: string): seq<string> {
    if rows == [] then []
    else Select(rows[..|rows| - 1], path, event)
         + (if rows[|rows| - 1].event == event then [path + rows[|rows| - 1].suffix] else [])
  }

  function CommandsAt(cmds: map<string, seq<string>>, event: string): seq<string> {
    if event in cmds then cmds[event] else []
  }

  ghost predicate Appended(out: map<string, seq<string>>, cmds: map<string, seq<string>>, rows: seq<Row>, path: string) {
    forall e :: CommandsAt(out, e) == CommandsAt(cmds, e) + Select(rows, path, e)
  }

  predicate NoneEmpty(cmds: map<string, seq<string>>) {
    forall e :: e in cmds ==> cmds[e] != []
  }

  lemma AppendsOne(out: map<string, seq<string>>, cmds: map<string, seq<string>>, rows: seq<Row>, i: nat, path: string)
    requires i < |rows| && Appended(out, cmds, rows[..i], path)
    ensures Appended(out[rows[i].event := CommandsAt(out, rows[i].event) + [path + rows[i].suffix]], cmds, rows[..i + 1], path)
  {
    hide Select;
    var row := rows[i];
    var added := [path + row.suffix];
    var next := out[row.event := CommandsAt(out, row.event) + added];
    forall e ensures CommandsAt(next, e) == CommandsAt(cmds, e) + Select(rows[..i + 1], path, e) {
      SelectSnoc(rows, i, path, e);
      AppendsAfter(CommandsAt(out, e), CommandsAt(cmds, e), Select(rows[..i], path, e), if e == row.event then added else []);
    }
  }

  lemma AppendsAfter(now: seq<string>, before: seq<string>, selected: seq<string>, added: seq<string>)
    requires now == before + selected
    ensures now + added == before + (selected + added)
  {
  }

  lemma SelectSnoc(rows: seq<Row>, i: nat, path: string, event: string)
    requires i < |rows|
    ensures Select(rows[..i + 1], path, event) == Select(rows[..i], path, event) + (if rows[i].event == event then [path + rows[i].suffix] else [])
  {
    assert rows[..i + 1][..i] == rows[..i];
  }

  /** One table appended to the commands gathered so far. */
  method AppendRows(cmds: map<string, seq<string>>, rows: seq<Row>, path: string) returns (out: map<string, seq<string>>)
    requires NoneEmpty(cmds)
    ensures Appended(out, cmds, rows, path) && NoneEmpty(out)
  {
    out := cmds;
    for i := 0 to |rows|
      invariant Appended(out, cmds, rows[..i], path) && NoneEmpty(out)
    {
      hide Appended;
      AppendsOne(out, cmds, rows, i, path);
      out := out[rows[i].event := CommandsAt(out, rows[i].event) + [path + rows[i].suffix]];
    }
    assert rows[..|rows|] == rows;
  }

  lemma {:induction false} SelectOfConcat(a: seq<Row>, b: seq<Row>, path: string, event: string)
    ensures Select(a + b, path, event) == Select(a, path, event) + Select(b, path, event)
    decreases |b|
  {
    if b == [] {
      assert a + b == a;
    } else {
      var k := |b| - 1;
      assert (a + b)[..|a + b| - 1] == a + b[..k];
      SelectOfConcat(a, b[..k], path, event);
    }
  }

  /** Every command, by event. */
  method BuildCommands(path: string, goal: bool) returns (cmds: map<string, seq<string>>)
    ensures Appended(cmds, map[], Rows(goal), path) && NoneEmpty(cmds)
  {
    hide Appended, Select, CommandsAt;
    var status, goals := if goal then GOAL_STATUS_ROWS else STATUS_ROWS, if goal then GOAL_ROWS else [];
    assert STATUS_ROWS + [] == STATUS_ROWS;
    assert Rows(goal) == status + goals + CAPTURE_ROWS + PERMISSION_ROWS;
    var first := AppendRows(map[], status, path);
    var second := AppendRows(first, goals, path);
    AppendedTwice(second, first, map[], goals, status, path);
    var third := AppendRows(second, CAPTURE_ROWS, path);
    AppendedTwice(third, second, map[], CAPTURE_ROWS, status + goals, path);
    cmds := AppendRows(third, PERMISSION_ROWS, path);
    AppendedTwice(cmds, third, map[], PERMISSION_ROWS, status + goals + CAPTURE_ROWS, path);
  }

  lemma AppendedTwice(
      c: map<string, seq<string>>, b: map<string, seq<string>>, a: map<string, seq<string>>,
      rows: seq<Row>, earlier: seq<Row>, path: string)
    requires Appended(c, b, rows, path) && Appended(b, a, earlier, path)
    ensures Appended(c, a, earlier + rows, path)
  {
    hide Select, CommandsAt;
    forall e ensures CommandsAt(c, e) == CommandsAt(a, e) + Select(earlier + rows, path, e) {
      SelectOfConcat(earlier, rows, path, e);
    }
  }

  // ---- groups -------------------------------------------------------------------------------

  predicate IsAmuxCommand(cmd: string) {
    Contains(cmd, "amux") && (Contains(cmd, " agent ") || Contains(cmd, " hook "))
  }

  /** isAmuxHookGroup */
  predicate IsAmux(g: Group) {
    g.Group? && exists h :: h in g.hooks && h.Hook? && h.command.Some? && IsAmuxCommand(h.command.value)
  }

  /** Observation hooks run in the background; goal hooks block, since their output is the decision. */
  function HookOf(cmd: string): Hook {
    if Contains(cmd, " agent goal ") then Hook(Some(cmd), false, None, []) else Hook(Some(cmd), true, Some(15), [])
  }

  function GroupOf(cmd: string): Group {
    Group([HookOf(cmd)], [])
  }

  function GroupsOf(cmds: seq<string>): (gs: seq<Group>)
    ensures |gs| == |cmds| && forall i :: 0 <= i < |cmds| ==> gs[i] == GroupOf(cmds[i])
  {
    seq(|cmds|, i requires 0 <= i < |cmds| => GroupOf(cmds[i]))
  }

  /** The groups that are not amux's, in order. */
  function Keep(groups: seq<Group>): seq<Group> {
    if groups == [] then []
    else Keep(groups[..|groups| - 1]) + (if IsAmux(groups[|groups| - 1]) then [] else [groups[|groups| - 1]])
  }

  function GroupsAt(hooks: map<string, EventValue>, event: string): seq<Group> {
    if event in hooks && hooks[event].Groups? then hooks[event].groups else []
  }

  function Events(goal: bool): set<string> {
    set r | r in Rows(goal) :: r.event
  }

  function InstalledHooks(hooks: map<string, EventValue>, path: string, goal: bool): map<string, EventValue> {
    map e | e in hooks.Keys + Events(goal)
      :: if e in Events(goal) then Groups(Keep(GroupsAt(hooks, e)) + GroupsOf(Select(Rows(goal), path, e))) else hooks[e]
  }

  function InstalledStatus(codec: Codec, status: Option<Status>, inherited: Option<Status>, path: string): Status {
    var base := if status.Some? then status.value else if inherited.Some? then inherited.value else Status(None, None, []);
    var command := if base.command.Some? then base.command.value else "";
    base.(kind := Some("command"), command := Some(Installed(codec, path, command)))
  }

  function InstalledRoot(codec: Codec, root: Root, inherited: Option<Status>, path: string, goal: bool): Root {
    Root(InstalledHooks(root.hooks, path, goal), Some(InstalledStatus(codec, root.status, inherited, path)),
         if root.tui.Some? then root.tui else Some("fullscreen"), root.rest)
  }

  /** The settings file as encodeHooks changes it in place. */
  class Settings {
    var root: Root

    constructor (root: Root)
      ensures this.root == root
    {
      this.root := root;
    }

    method EncodeHooks(codec: Codec, path: string, inherited: Option<Status>, goal: bool)
      modifies this
      ensures root == InstalledRoot(codec, old(root), inherited, path, goal)
    {
      var cmds := BuildCommands(path, goal);
      CommandKeys(cmds, path, goal);
      var hooks := ReplaceGroups(root.hooks, cmds);
      assert hooks == InstalledHooks(root.hooks, path, goal) by {
        hide Select, Keep, Rows, Events, GroupsOf, Appended;
      }
      root := root.(hooks := hooks, status := Some(InstalledStatus(codec, root.status, inherited, path)));
      if root.tui.None? { root := root.(tui := Some("fullscreen")); }
    }
  }

  function ReplacedValue(before: map<string, EventValue>, event: string, cmds: seq<string>): EventValue {
    Groups(Keep(GroupsAt(before, event)) + GroupsOf(cmds))
  }

  /** The events of done hold their new groups, every other event what it held before. */
  ghost predicate Replaced(before: map<string, EventValue>, cmds: map<string, seq<string>>, done: set<string>, hooks: map<string, EventValue>) {
    && done <= cmds.Keys && hooks.Keys == before.Keys + done
    && (forall e :: e in done ==> hooks[e] == ReplacedValue(before, e, cmds[e]))
    && (forall e :: e in before && e !in done ==> hooks[e] == before[e])
  }

  lemma ReplacesOne(before: map<string, EventValue>, cmds: map<string, seq<string>>, done: set<string>, hooks: map<string, EventValue>, e: string)
    requires Replaced(before, cmds, done, hooks) && e in cmds && e !in done
    ensures GroupsAt(hooks, e) == GroupsAt(before, e)
    ensures Replaced(before, cmds, done + {e}, hooks[e := ReplacedValue(before, e, cmds[e])])
  {
    hide ReplacedValue;
  }

  /** Each event's own groups replaced, the user's kept; events in any order. */
  method ReplaceGroups(before: map<string, EventValue>, cmds: map<string, seq<string>>) returns (hooks: map<string, EventValue>)
    ensures Replaced(before, cmds, cmds.Keys, hooks)
  {
    hide Keep, GroupsOf, Replaced;
    hooks := before;
    ReplacesNone(before, cmds);
    var todo, done := cmds.Keys, {};
    while todo != {}
      invariant done + todo == cmds.Keys && done !! todo
      invariant Replaced(before, cmds, done, hooks)
      decreases |todo|
    {
      var event :| event in todo;
      ReplacesOne(before, cmds, done, hooks, event);
      var kept := KeepUsers(GroupsAt(hooks, event));
      hooks := hooks[event := Groups(kept + GroupsOf(cmds[event]))];
      todo, done := todo - {event}, done + {event};
    }
  }

  lemma ReplacesNone(before: map<string, EventValue>, cmds: map<string, seq<string>>)
    ensures Replaced(before, cmds, {}, before)
  {
  }

  method KeepUsers(groups: seq<Group>) returns (kept: seq<Group>)
    ensures kept == Keep(groups)
  {
    kept := [];
    for i := 0 to |groups|
      invariant kept == Keep(groups[..i])
    {
      assert groups[..i + 1][..i] == groups[..i];
      if !IsAmux(groups[i]) { kept := kept + [groups[i]]; }
    }
    assert groups[..|groups|] == groups;
  }

  lemma CommandKeys(cmds: map<string, seq<string>>, path: string, goal: bool)
    requires Appended(cmds, map[], Rows(goal), path) && NoneEmpty(cmds)
    ensures cmds.Keys == Events(goal)
    ensures forall e :: e in cmds ==> cmds[e] == Select(Rows(goal), path, e)
  {
    hide Select, Rows;
    forall e ensures e in cmds <==> e in Events(goal) {
      SelectsListed(Rows(goal), path, e);
      assert CommandsAt(cmds, e) == [] + Select(Rows(goal), path, e);
    }
    forall e | e in cmds ensures cmds[e] == Select(Rows(goal), path, e) {
      assert CommandsAt(cmds, e) == [] + Select(Rows(goal), path, e);
    }
  }

  lemma {:induction false} SelectsListed(rows: seq<Row>, path: string, event: string)
    ensures Select(rows, path, event) != [] <==> exists r :: r in rows && r.event == event
  {
    if rows != [] {
      var k := |rows| - 1;
      SelectsListed(rows[..k], path, event);
      assert rows == rows[..k] + [rows[k]];
    }
  }

  // ---- recognising amux's own groups ----------------------------------------------------------

  /** A command suffix begins its own word and does not itself name amux. */
  predicate SuffixOk(s: string) {
    " agent " <= s && forall i :: 0 <= i < |s| ==> s[i] != 'x'
  }

  lemma StatusSuffixesAreOk()
    ensures SuffixOk(" agent hook ready") && SuffixOk(" agent hook running")
    ensures SuffixOk(" agent hook waiting") && SuffixOk(" agent hook idle")
  {
  }

  lemma GoalSuffixesAreOk()
    ensures SuffixOk(" agent goal prompt --hook") && SuffixOk(" agent goal stop --hook") && SuffixOk(" agent capture --hook")
  {
  }

  lemma PermissionSuffixesAreOk()
    ensures SuffixOk(" agent permission request --hook") && SuffixOk(" agent permission allow --hook")
    ensures SuffixOk(" agent permission deny --hook") && SuffixOk(" agent permission clear --hook")
  {
  }

  lemma RowsAreOk(goal: bool)
    ensures forall r :: r in Rows(goal) ==> SuffixOk(r.suffix)
  {
    StatusRowsAreOk();
    OtherRowsAreOk();
    hide SuffixOk;
  }

  lemma StatusRowsAreOk()
    ensures forall r :: r in STATUS_ROWS ==> SuffixOk(r.suffix)
    ensures forall r :: r in GOAL_STATUS_ROWS ==> SuffixOk(r.suffix)
  {
    StatusSuffixesAreOk();
    hide SuffixOk;
  }

  lemma OtherRowsAreOk()
    ensures forall r :: r in GOAL_ROWS + CAPTURE_ROWS + PERMISSION_ROWS ==> SuffixOk(r.suffix)
  {
    CaptureRowsAreOk();
    PermissionRowsAreOk();
    hide SuffixOk;
  }

  lemma CaptureRowsAreOk()
    ensures forall r :: r in GOAL_ROWS + CAPTURE_ROWS ==> SuffixOk(r.suffix)
  {
    GoalSuffixesAreOk();
    hide SuffixOk;
  }

  lemma PermissionRowsAreOk()
    ensures forall r :: r in PERMISSION_ROWS ==> SuffixOk(r.suffix)
  {
    PermissionSuffixesAreOk();
    hide SuffixOk;
  }

  lemma ContainsIffOccurs(s: string, sub: string)
    ensures Contains(s, sub) <==> exists j: nat :: Occurs(s, sub, j)
  {
    IndexIsFirst(s, sub);
    hide Occurs, Index;
  }

  /** Appending such a suffix names amux exactly when the path already did. */
  lemma AmuxComesFromThePath(path: string, suffix: string)
    requires SuffixOk(suffix)
    ensures Contains(path + suffix, "amux") <==> Contains(path, "amux")
  {
    var s := path + suffix;
    ContainsIffOccurs(s, "amux");
    ContainsIffOccurs(path, "amux");
    forall j: nat ensures Occurs(s, "amux", j) <==> Occurs(path, "amux", j) {
      AmuxOccursInPath(path, suffix, j);
    }
  }

  lemma AmuxOccursInPath(path: string, suffix: string, j: nat)
    requires SuffixOk(suffix)
    ensures Occurs(path + suffix, "amux", j) <==> Occurs(path, "amux", j)
  {
    var s := path + suffix;
    if |path| <= j + 3 < |s| { assert s[j + 3] == suffix[j + 3 - |path|]; }
    if Occurs(s, "amux", j) {
      assert s[j + 3] == "amux"[3] == 'x';
      assert j + 4 <= |path|;
      forall m | 0 <= m < 4 ensures path[j + m] == "amux"[m] { assert s[j + m] == path[j + m]; }
    }
    if Occurs(path, "amux", j) {
      forall m | 0 <= m < 4 ensures s[j + m] == "amux"[m] { assert s[j + m] == path[j + m]; }
    }
  }

  lemma OwnCommandsAreRecognised(path: string, suffix: string)
    requires SuffixOk(suffix)
    ensures IsAmux(GroupOf(path + suffix)) <==> Contains(path, "amux")
  {
    AmuxComesFromThePath(path, suffix);
    ContainsIffOccurs(path + suffix, " agent ");
    assert Occurs(path + suffix, " agent ", |path|) by { SuffixOccurs(path, suffix); }
    var h := HookOf(path + suffix);
    hide Contains;
    assert h in GroupOf(path + suffix).hooks;
  }

  lemma SuffixOccurs(path: string, suffix: string)
    requires " agent " <= suffix
    ensures Occurs(path + suffix, " agent ", |path|)
  {
    forall m | 0 <= m < |" agent "| ensures (path + suffix)[|path| + m] == " agent "[m] {
      assert suffix[m] == " agent "[m];
    }
  }

  lemma {:induction false} SelectedAre(rows: seq<Row>, path: string, event: string, c: string)
    requires c in Select(rows, path, event)
    ensures exists r :: r in rows && c == path + r.suffix
  {
    var k := |rows| - 1;
    if c in Select(rows[..k], path, event) {
      SelectedAre(rows[..k], path, event, c);
    } else {
      assert rows[k] in rows;
    }
  }

  /** The groups amux installs are recognised as its own, or none of them is. */
  lemma InstalledGroupsRecognised(path: string, goal: bool, event: string)
    ensures forall g :: g in GroupsOf(Select(Rows(goal), path, event)) ==> (IsAmux(g) <==> Contains(path, "amux"))
  {
    RowsAreOk(goal);
    var cmds := Select(Rows(goal), path, event);
    hide Rows, SuffixOk, IsAmux, Contains, Select, GroupOf;
    forall g | g in GroupsOf(cmds) ensures IsAmux(g) <==> Contains(path, "amux") {
      var i :| 0 <= i < |cmds| && g == GroupsOf(cmds)[i];
      assert g == GroupOf(cmds[i]) && cmds[i] in cmds;
      SelectedAre(Rows(goal), path, event, cmds[i]);
      var r :| r in Rows(goal) && cmds[i] == path + r.suffix;
      OwnCommandsAreRecognised(path, r.suffix);
    }
  }

  // ---- keeping the user's groups ---------------------------------------------------------------

  lemma {:induction false} KeepOfConcat(a: seq<Group>, b: seq<Group>)
    ensures Keep(a + b) == Keep(a) + Keep(b)
    decreases |b|
  {
    if b == [] {
      assert a + b == a;
    } else {
      var k := |b| - 1;
      assert (a + b)[..|a + b| - 1] == a + b[..k];
      KeepOfConcat(a, b[..k]);
    }
  }

  lemma {:induction false} KeepOfUniform(gs: seq<Group>, amux: bool)
    requires forall g :: g in gs ==> (IsAmux(g) <==> amux)
    ensures Keep(gs) == if amux then [] else gs
  {
    if gs != [] {
      var k := |gs| - 1;
      assert gs == gs[..k] + [gs[k]];
      KeepOfUniform(gs[..k], amux);
    }
  }

  lemma {:induction false} KeepTwice(gs: seq<Group>)
    ensures Keep(Keep(gs)) == Keep(gs)
  {
    if gs != [] {
      var k := |gs| - 1;
      KeepTwice(gs[..k]);
      var last := if IsAmux(gs[k]) then [] else [gs[k]];
      KeepOfConcat(Keep(gs[..k]), last);
      KeepOfUniform(last, IsAmux(gs[k]));
    }
  }

  /** What a reinstall keeps of an event's groups: the user's, and amux's own only if it cannot recognise them. */
  lemma KeepAfterInstall(existing: seq<Group>, path: string, goal: bool, event: string)
    ensures var mine := GroupsOf(Select(Rows(goal), path, event));
            Keep(Keep(existing) + mine) == Keep(existing) + (if Contains(path, "amux") then [] else mine)
  {
    var mine := GroupsOf(Select(Rows(goal), path, event));
    InstalledGroupsRecognised(path, goal, event);
    hide Keep, Select, Rows, IsAmux, GroupsOf, Contains;
    KeepOfConcat(Keep(existing), mine);
    KeepTwice(existing);
    KeepOfUniform(mine, Contains(path, "amux"));
  }

  lemma EventsDoNotDependOnGoal()
    ensures Events(true) == Events(false) && "SessionStart" in Events(false)
  {
    assert Rows(false)[0].event == "SessionStart";
    forall e ensures e in Events(true) <==> e in Events(false) {
      if e in Events(true) {
        var r :| r in Rows(true) && r.event == e;
        if r in GOAL_ROWS { assert Row(e, " agent capture --hook") in CAPTURE_ROWS; }
      }
      if e in Events(false) {
        var r :| r in Rows(false) && r.event == e;
        if r == STATUS_ROWS[4] { assert GOAL_ROWS[1].event == e; }
      }
    }
  }

  /**
   Whatever the path, the user's groups come first and in order in what an install leaves, and again in what the next
   one keeps; they are all it keeps exactly when the path names amux. Other events are not touched.
   */
  lemma UsersGroupsSurvive(hooks: map<string, EventValue>, path: string, goal: bool, event: string)
    ensures event in Events(goal) ==>
              var users, after := Keep(GroupsAt(hooks, event)), GroupsAt(InstalledHooks(hooks, path, goal), event);
              && users <= after && users <= Keep(after)
              && (Keep(after) == users <==> Contains(path, "amux"))
    ensures event !in Events(goal) ==> (event in InstalledHooks(hooks, path, goal) <==> event in hooks)
    ensures event !in Events(goal) && event in hooks ==> InstalledHooks(hooks, path, goal)[event] == hooks[event]
  {
    KeepAfterInstall(GroupsAt(hooks, event), path, goal, event);
    SelectsListed(Rows(goal), path, event);
    hide Keep, Select, Rows, Contains;
  }

  /** A group survives an install exactly when it is not taken for amux's; all do exactly when none is. */
  lemma {:induction false} GroupsSurviveIff(gs: seq<Group>)
    ensures forall g :: g in Keep(gs) <==> g in gs && !IsAmux(g)
    ensures Keep(gs) == gs <==> forall g :: g in gs ==> !IsAmux(g)
  {
    hide IsAmux;
    if gs != [] {
      var k := |gs| - 1;
      GroupsSurviveIff(gs[..k]);
      KeepIsNoLonger(gs[..k]);
      assert gs == gs[..k] + [gs[k]];
      assert forall g :: g in gs <==> g in gs[..k] || g == gs[k];
      if !IsAmux(gs[k]) && Keep(gs) == gs {
        assert Keep(gs)[..|Keep(gs)| - 1] == Keep(gs[..k]);
      }
    }
  }

  lemma {:induction false} KeepIsNoLonger(gs: seq<Group>)
    ensures |Keep(gs)| <= |gs|
  {
    if gs != [] { KeepIsNoLonger(gs[..|gs| - 1]); }
  }

  /** A group of the user's own with a command that names amux and an agent is taken for amux's and dropped. */
  lemma UsersMentionOfAmuxIsDropped(before: string, between: string, after: string, others: seq<Hook>, rest: bytes)
    ensures Keep([Group([HookOf(before + "amux" + between + " agent " + after)] + others, rest)]) == []
  {
    var cmd := before + "amux" + between + " agent " + after;
    MiddleIsContained(before, "amux", between + " agent " + after);
    MiddleIsContained(before + "amux" + between, " agent ", after);
    assert cmd == before + "amux" + (between + " agent " + after);
    assert cmd == before + "amux" + between + " agent " + after;
    hide Contains;
    OneAmuxHook(cmd, others, rest);
  }

  lemma MiddleIsContained(a: string, sub: string, b: string)
    ensures Contains(a + sub + b, sub)
  {
    ContainsIffOccurs(a + sub + b, sub);
    assert Occurs(a + sub + b, sub, |a|);
  }

  lemma OneAmuxHook(cmd: string, others: seq<Hook>, rest: bytes)
    requires IsAmuxCommand(cmd)
    ensures Keep([Group([HookOf(cmd)] + others, rest)]) == []
  {
    hide IsAmuxCommand, Contains;
    var h := HookOf(cmd);
    var g := Group([h] + others, rest);
    assert ([h] + others)[0] == h;
    assert h in g.hooks && IsAmux(g);
    assert [g][..0] == [];
  }

  /** Installing over an install, with any new path and goal flag, is installing once exactly when the old path names amux. */
  lemma ReinstallHooksIff(hooks: map<string, EventValue>, first: string, goal1: bool, second: string, goal2: bool)
    ensures InstalledHooks(InstalledHooks(hooks, first, goal1), second, goal2) == InstalledHooks(hooks, second, goal2) <==> Contains(first, "amux")
  {
    EventsDoNotDependOnGoal();
    StartIsInstalled(first, goal1);
    ReinstallElsewhere(hooks, first, goal1, second, goal2);
    hide Events, InstalledHooks, Select, Rows, Contains, GroupsOf;
    var once := InstalledHooks(hooks, first, goal1);
    var twice, single := InstalledHooks(once, second, goal2), InstalledHooks(hooks, second, goal2);
    ReinstallAt(hooks, first, goal1, second, goal2, "SessionStart");
    if Contains(first, "amux") {
      forall e | e in single ensures twice[e] == single[e] {
        if e in Events(goal2) { ReinstallAt(hooks, first, goal1, second, goal2, e); }
      }
      assert twice == single;
    }
  }

  lemma ReinstallElsewhere(hooks: map<string, EventValue>, first: string, goal1: bool, second: string, goal2: bool)
    ensures var twice, single := InstalledHooks(InstalledHooks(hooks, first, goal1), second, goal2), InstalledHooks(hooks, second, goal2);
            && twice.Keys == single.Keys && Events(goal2) <= single.Keys
            && forall e :: e in single && e !in Events(goal2) ==> twice[e] == single[e]
  {
    EventsDoNotDependOnGoal();
    hide Events, Keep, Select, Rows, GroupsOf;
  }

  lemma StartIsInstalled(path: string, goal: bool)
    ensures GroupsOf(Select(Rows(goal), path, "SessionStart")) != []
  {
    EventsDoNotDependOnGoal();
    SelectsListed(Rows(goal), path, "SessionStart");
    hide Select, Rows;
    assert "SessionStart" in Events(goal);
  }

  lemma ReinstallAt(hooks: map<string, EventValue>, first: string, goal1: bool, second: string, goal2: bool, e: string)
    requires e in Events(goal1) && e in Events(goal2)
    ensures e in InstalledHooks(InstalledHooks(hooks, first, goal1), second, goal2) && e in InstalledHooks(hooks, second, goal2)
    ensures var twice, single := InstalledHooks(InstalledHooks(hooks, first, goal1), second, goal2), InstalledHooks(hooks, second, goal2);
            twice[e] == single[e] <==> Contains(first, "amux") || GroupsOf(Select(Rows(goal1), first, e)) == []
  {
    KeepAfterInstall(GroupsAt(hooks, e), first, goal1, e);
    hide Events, Keep, Select, Rows, Contains, GroupsOf;
    var kept, mine, ours := Keep(GroupsAt(hooks, e)), GroupsOf(Select(Rows(goal1), first, e)), GroupsOf(Select(Rows(goal2), second, e));
    var once := InstalledHooks(hooks, first, goal1);
    assert GroupsAt(once, e) == kept + mine;
    if Contains(first, "amux") {
      assert kept + [] + ours == kept + ours;
    } else {
      assert |kept + mine + ours| == |kept + ours| + |mine|;
      if mine == [] { assert kept + mine + ours == kept + ours; }
    }
  }

  /** The whole settings file: reinstalling under any path, goal flag and inherited line is installing once. */
  lemma ReinstallIsIdempotent(
      codec: Codec, root: Root, inherited: Option<Status>, later: Option<Status>,
      first: string, goal1: bool, second: string, goal2: bool)
    requires Lawful(codec) && Contains(first, "amux") && PathForward(codec, first).None?
    ensures InstalledRoot(codec, InstalledRoot(codec, root, inherited, first, goal1), later, second, goal2)
         == InstalledRoot(codec, root, inherited, second, goal2)
  {
    ReinstallHooksIff(root.hooks, first, goal1, second, goal2);
    hide InstalledHooks, Installed, Contains, PathForward;
    var base := if root.status.Some? then root.status.value else if inherited.Some? then inherited.value else Status(None, None, []);
    var command := if base.command.Some? then base.command.value else "";
    ReinstallIsInstall(codec, first, second, command);
  }
}
