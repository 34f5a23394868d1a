/**
 Leases, the published view and the invalidation watchers, in every interleaving.
 A step is one exclusive section under mu, one shared lease taken, checked or
 released, or one section under watchMu; a watch takes two steps under watchMu, its
 check and its registration, and the view may change between them.
 */
module Watch {
  import opened Bytes
  import opened Registry

  datatype Principal = Principal(keyId: string, subject: Subject, generation: nat)

  /** validIn, without the expiry test the clock decides. */
  predicate Names(r: Reg, p: Principal) {
    && p.keyId in r.records
    && r.records[p.keyId].subject == p.subject && r.records[p.keyId].generation == p.generation
    && CurrentKey(r, p.subject) == p.keyId
    && r.records[p.keyId].revokedAt == 0
  }

  predicate ValidIn(r: Reg, p: Principal, now: int) {
    Names(r, p) && r.records[p.keyId].notAfter > now
  }

  type Channel = nat

  /** The watcher table: open channels by key, how often each channel was closed, and the next channel. */
  datatype Table = Table(open: map<string, set<Channel>>, closed: multiset<Channel>, cancelled: set<Channel>, next: Channel)

  function Watchers(t: Table, k: string): set<Channel> {
    if k in t.open then t.open[k] else {}
  }

  function Registered(t: Table, k: string): Table {
    t.(open := t.open[k := Watchers(t, k) + {t.next}], next := t.next + 1)
  }

  function Cancelled(t: Table, k: string, ch: Channel): Table {
    if k !in t.open || ch !in t.open[k] then t
    else
      var rest := t.open[k] - {ch};
      t.(open := if rest == {} then t.open - {k} else t.open[k := rest], cancelled := t.cancelled + {ch})
  }

  /** invalidateLocked */
  function Invalidated(t: Table, k: string): Table {
    t.(open := t.open - {k}, closed := t.closed + multiset(Watchers(t, k)))
  }

  // ---- the table as the code keeps it ------------------------------------------------

  class WatcherTable {
    var open: map<string, set<Channel>>
    var closed: multiset<Channel>
    var next: Channel
    ghost var cancelled: set<Channel>

    ghost function State(): Table
      reads this
    {
      Table(open, closed, cancelled, next)
    }

    method Register(k: string) returns (ch: Channel)
      modifies this
      ensures ch == old(next) && State() == Registered(old(State()), k)
    {
      ch := next;
      if k !in open {
        open := open[k := {}];
      }
      assert open[k := open[k] + {ch}] == old(open)[k := open[k] + {ch}];
      open := open[k := open[k] + {ch}];
      next := next + 1;
    }

    method Cancel(k: string, ch: Channel)
      modifies this
      ensures State() == Cancelled(old(State()), k, ch)
      ensures !IsOpen(State(), k, ch) && closed == old(closed)
      ensures forall j, c :: j != k || c != ch ==> IsOpen(State(), j, c) == IsOpen(old(State()), j, c)
    {
      if k in open && ch in open[k] {
        var rest := open[k] - {ch};
        assert forall c :: c in rest <==> c in open[k] && c != ch;
        cancelled := cancelled + {ch};
        open := if rest == {} then open - {k} else open[k := rest];
      }
    }

    method Invalidate(k: string)
      modifies this
      ensures State() == Invalidated(old(State()), k)
    {
      if k in open {
        var channels := open[k];
        var todo := channels;
        while todo != {}
          invariant open == old(open) && next == old(next) && cancelled == old(cancelled)
          invariant todo <= channels && closed == old(closed) + multiset(channels - todo)
          decreases |todo|
        {
          var ch :| ch in todo;
          assert channels - (todo - {ch}) == (channels - todo) + {ch};
          closed := closed + multiset{ch};
          todo := todo - {ch};
        }
        assert channels - {} == channels;
      }
      open := open - {k};
    }
  }

  // ---- interleavings ----------------------------------------------------------------------

  datatype Publishing = Quiet | Swapped(invalidated: string) | ShuttingDown

  datatype Lease = Taken | Running(p: Principal)

  /**
   watching is the key a WatchInvalidation holds watchMu for: it found the key valid in
   the view it loaded and has not registered its channel yet. Swap and Close do not take
   watchMu, so the view may change in between.
   */
  datatype Sys = Sys(
    registry: Reg, view: Option<Reg>, table: Table, publishing: Publishing, leases: map<nat, Lease>, watching: Option<string>)

  datatype Step =
    | BeginWatch(p: Principal, now: int)
    | FinishWatch
    | Cancel(key: string, channel: Channel)
    | Swap(next: Reg, invalidated: string)
    | CloseWatchers
    | Close
    | CloseEvery
    | TakeLease(id: nat)
    | CheckLease(id: nat, principal: Principal, time: int)
    | EndLease(id: nat)

  predicate KeysNamed(r: Reg) {
    "" !in r.records && forall s :: s in r.current ==> r.current[s] != ""
  }

  /** The next registry drops at most the key it says it invalidates. */
  ghost predicate Replaces(r: Reg, next: Reg, invalidated: string) {
    && (forall s :: s in r.current && CurrentKey(next, s) != r.current[s] ==> r.current[s] == invalidated)
    && KeysNamed(next)
  }

  function CloseAll(t: Table, keys: seq<string>): Table {
    if keys == [] then t else Invalidated(CloseAll(t, keys[..|keys| - 1]), keys[|keys| - 1])
  }

  ghost predicate Next(s: Sys, step: Step, s': Sys) {
    match step
    case BeginWatch(p, now) =>
      && s.watching.None?
      && s' == s.(watching := if s.view.Some? && ValidIn(s.view.value, p, now) then Some(p.keyId) else None)
    case FinishWatch =>
      && s.watching.Some?
      && s' == s.(table := Registered(s.table, s.watching.value), watching := None)
    case Cancel(k, ch) =>
      s.watching.None? && s' == s.(table := Cancelled(s.table, k, ch))
    case Swap(next, invalidated) =>
      && s.publishing.Quiet? && s.leases == map[] && s.view.Some? && Replaces(s.registry, next, invalidated)
      && s' == s.(registry := next, view := Some(next),
                  publishing := if invalidated == "" then Quiet else Swapped(invalidated))
    case CloseWatchers =>
      && s.publishing.Swapped? && s.watching.None?
      && s' == s.(table := Invalidated(s.table, s.publishing.invalidated), publishing := Quiet)
    case Close =>
      && s.publishing.Quiet? && s.leases == map[]
      && s' == s.(view := None, publishing := if s.view.Some? then ShuttingDown else Quiet)
    case CloseEvery =>
      && s.publishing.ShuttingDown? && s.watching.None?
      && exists keys :: (forall k :: k in s.table.open <==> k in keys) && s' == s.(table := CloseAll(s.table, keys), publishing := Quiet)
    case TakeLease(id) =>
      id !in s.leases && s' == s.(leases := s.leases[id := Taken])
    case CheckLease(id, p, now) =>
      && id in s.leases && s.leases[id].Taken?
      && s' == s.(leases := if s.view.Some? && ValidIn(s.registry, p, now) then s.leases[id := Running(p)] else s.leases - {id})
    case EndLease(id) =>
      s' == s.(leases := s.leases - {id})
  }

  // ---- invariant -----------------------------------------------------------------------------

  ghost predicate IsCurrent(r: Reg, k: string) {
    exists s :: s in r.current && r.current[s] == k
  }

  predicate IsOpen(t: Table, k: string, ch: Channel) {
    k in t.open && ch in t.open[k]
  }

  ghost predicate Separate(t: Table) {
    && (forall k, ch: Channel :: IsOpen(t, k, ch) ==> ch < t.next && t.closed[ch] == 0 && ch !in t.cancelled)
    && (forall j, k, ch: Channel :: IsOpen(t, j, ch) && IsOpen(t, k, ch) ==> j == k)
    && (forall ch :: t.closed[ch] <= 1 && (t.closed[ch] > 0 ==> ch < t.next && ch !in t.cancelled))
    && (forall ch :: ch in t.cancelled ==> ch < t.next)
  }

  /** Every channel handed out is open under one key, cancelled, or closed exactly once. */
  ghost predicate TableOk(t: Table) {
    && Separate(t)
    && (forall ch: Channel :: ch < t.next ==> ch in t.cancelled || t.closed[ch] == 1 || exists k :: IsOpen(t, k, ch))
  }

  ghost predicate Inv(s: Sys) {
    && TableOk(s.table)
    && KeysNamed(s.registry)
    && (s.view.Some? ==> s.view.value == s.registry && !s.publishing.ShuttingDown?)
    && (forall id :: id in s.leases && s.leases[id].Running? ==> s.view.Some? && Names(s.registry, s.leases[id].p))
    && (s.publishing.Swapped? ==> s.view.Some?)
    && (!s.publishing.ShuttingDown? ==>
          forall k :: k in s.table.open && s.table.open[k] != {} ==>
            s.view.Some? && (IsCurrent(s.registry, k) || s.publishing == Swapped(k)))
    && (s.watching.Some? && !s.publishing.ShuttingDown? ==>
          s.view.Some? && (IsCurrent(s.registry, s.watching.value) || s.publishing == Swapped(s.watching.value)))
  }

  /** A change of the table that keeps every other channel open keeps every channel accounted for. */
  lemma StillAccounted(t: Table, t': Table)
    requires TableOk(t) && Separate(t')
    requires t.next <= t'.next <= t.next + 1 && t.cancelled <= t'.cancelled && t.closed <= t'.closed
    requires forall k, ch: Channel :: IsOpen(t, k, ch) && ch !in t'.cancelled && t'.closed[ch] == 0 ==> IsOpen(t', k, ch)
    requires t'.next == t.next + 1 ==> exists k :: IsOpen(t', k, t.next)
    ensures TableOk(t')
  {
    forall ch: Channel | ch < t'.next && ch !in t'.cancelled && t'.closed[ch] != 1
      ensures exists k :: IsOpen(t', k, ch)
    {
      if ch < t.next {
        var k :| IsOpen(t, k, ch);
        assert IsOpen(t', k, ch);
      }
    }
  }

  lemma RegisterKeeps(t: Table, k: string)
    requires TableOk(t)
    ensures TableOk(Registered(t, k))
  {
    var t' := Registered(t, k);
    assert forall j, ch :: IsOpen(t', j, ch) <==> IsOpen(t, j, ch) || (j == k && ch == t.next);
    assert t.closed[t.next] == 0 && IsOpen(t', k, t.next);
    StillAccounted(t, t');
  }

  lemma CancelKeeps(t: Table, k: string, ch: Channel)
    requires TableOk(t)
    ensures TableOk(Cancelled(t, k, ch))
  {
    if IsOpen(t, k, ch) {
      var t' := Cancelled(t, k, ch);
      assert forall j, c :: IsOpen(t', j, c) <==> IsOpen(t, j, c) && !(j == k && c == ch);
      StillAccounted(t, t');
    }
  }

  lemma InvalidateKeeps(t: Table, k: string)
    requires TableOk(t)
    ensures TableOk(Invalidated(t, k))
  {
    var t' := Invalidated(t, k);
    assert forall ch :: t'.closed[ch] == t.closed[ch] + if ch in Watchers(t, k) then 1 else 0;
    assert forall j, c :: IsOpen(t', j, c) <==> IsOpen(t, j, c) && j != k;
    assert forall ch :: ch in Watchers(t, k) <==> IsOpen(t, k, ch);
    StillAccounted(t, t');
  }

  lemma {:induction false} CloseAllKeeps(t: Table, keys: seq<string>)
    requires TableOk(t)
    ensures TableOk(CloseAll(t, keys))
    ensures CloseAll(t, keys).open == t.open - (set k | k in keys)
  {
    hide TableOk;
    if keys != [] {
      CloseAllKeeps(t, keys[..|keys| - 1]);
      InvalidateKeeps(CloseAll(t, keys[..|keys| - 1]), keys[|keys| - 1]);
    }
  }

  lemma NextKeeps(s: Sys, step: Step, s': Sys)
    requires Inv(s) && Next(s, step, s')
    ensures Inv(s')
  {
    hide TableOk;
    match step
    case FinishWatch =>
      RegisterKeeps(s.table, s.watching.value);
    case BeginWatch(p, now) =>
      assert Names(s.registry, p) ==> p.subject in s.registry.current && IsCurrent(s.registry, p.keyId);
    case Cancel(k, ch) =>
      CancelKeeps(s.table, k, ch);
    case Swap(next, invalidated) =>
      forall k | IsCurrent(s.registry, k) && k != invalidated
        ensures IsCurrent(next, k)
      {
        var u :| u in s.registry.current && s.registry.current[u] == k;
      }
    case CloseWatchers =>
      InvalidateKeeps(s.table, s.publishing.invalidated);
    case CloseEvery =>
      var keys :| (forall k :: k in s.table.open <==> k in keys) && s' == s.(table := CloseAll(s.table, keys), publishing := Quiet);
      CloseAllKeeps(s.table, keys);
    case _ =>
  }

  // ---- what a reader may rely on ---------------------------------------------------------------

  ghost predicate Init(s: Sys) {
    && s.view == Some(s.registry) && KeysNamed(s.registry) && s.publishing.Quiet? && s.leases == map[] && s.watching.None?
    && s.table == Table(map[], multiset{}, {}, 0)
  }

  ghost predicate Run(states: seq<Sys>, steps: seq<Step>) {
    && |states| == |steps| + 1 && Init(states[0])
    && forall i :: 0 <= i < |steps| ==> Next(states[i], steps[i], states[i + 1])
  }

  lemma {:induction false} ReachableInv(states: seq<Sys>, steps: seq<Step>, i: nat)
    requires Run(states, steps) && i < |states|
    ensures Inv(states[i])
  {
    hide Next;
    if i > 0 {
      ReachableInv(states, steps, i - 1);
      NextKeeps(states[i - 1], steps[i - 1], states[i]);
    }
  }

  /**
   In every interleaving, whenever no publication is between its swap and its closing
   of watchers, an open watcher's key is current in the published registry; no channel
   is ever closed twice; and a channel handed out is open, cancelled or closed.
   */
  lemma NoInvalidationIsMissed(states: seq<Sys>, steps: seq<Step>, i: nat)
    requires Run(states, steps) && i < |states|
    ensures states[i].publishing.Quiet? ==>
              forall k, ch: Channel :: IsOpen(states[i].table, k, ch) ==> states[i].view.Some? && IsCurrent(states[i].view.value, k)
    ensures TableOk(states[i].table)
  {
    hide Next, TableOk;
    ReachableInv(states, steps, i);
  }

  /** A watch checked against the old registry but registered after the swap is closed by that very publication. */
  lemma RacingWatchIsClosed(s: Sys, next: Reg, swapped: Sys, registered: Sys, closed: Sys)
    requires Inv(s) && s.watching.Some? && s.watching.value != ""
    requires Next(s, Swap(next, s.watching.value), swapped) && Next(swapped, FinishWatch, registered) && Next(registered, CloseWatchers, closed)
    ensures IsOpen(registered.table, s.watching.value, s.table.next)
    ensures closed.table.closed[s.table.next] == 1 && forall k :: !IsOpen(closed.table, k, s.table.next)
  {
    NextKeeps(s, Swap(next, s.watching.value), swapped);
    NextKeeps(swapped, FinishWatch, registered);
    NextKeeps(registered, CloseWatchers, closed);
    assert s.table.next in Watchers(registered.table, s.watching.value);
  }

  /** From a lease's validity check to its end, no registry is published and its principal stays valid. */
  lemma LeaseExcludesPublication(states: seq<Sys>, steps: seq<Step>, i: nat, j: nat, id: nat, p: Principal)
    requires Run(states, steps) && i <= j < |states|
    requires forall k :: i <= k <= j ==> id in states[k].leases && states[k].leases[id] == Running(p)
    ensures states[j].registry == states[i].registry && Names(states[j].registry, p)
    decreases j - i
  {
    hide TableOk, Registered, Cancelled, Invalidated, CloseAll;
    ReachableInv(states, steps, j);
    if i < j {
      LeaseExcludesPublication(states, steps, i, j - 1, id, p);
      assert Next(states[j - 1], steps[j - 1], states[j]);
      assert states[j - 1].leases != map[];
    }
  }

  /** The writers' contract: an issue names the key it supersedes, a revocation the key it withdraws. */
  lemma WritersNameWhatTheyInvalidate(r: Reg, s: Subject, oldKey: string, newKey: string, now: int)
    requires RegOk(r) && now != 0 && newKey != "" && newKey !in r.records
    ensures Issued(r, s, oldKey, newKey, now).Ok? ==> Replaces(r, Issued(r, s, oldKey, newKey, now).value, oldKey)
    ensures s in r.current ==> Replaces(r, Withdrawn(r, s, now), r.current[s])
  {
    hide NoGaps, OneKeyPerGeneration, OlderRevoked;
    assert forall u :: u in r.current ==> r.current[u] != "";
  }
}
