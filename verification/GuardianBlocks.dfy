/**
 * What the Guardian's actions do to the disallowed list. A backend call and the row change that goes with it are
 * one step; between two steps any loop may run. A row may have been read before the step that acts on it, so a
 * step may be stale: its row need not be pending any more.
 */
module GuardianBlocks {
  import opened Backends
  import opened MitigationRows
  import opened Wrappers

  datatype State = State(list: seq<string>, rows: seq<Action>)

  /** `Release` unblocks and then marks the row expired or undone. */
  datatype Event =
    | Act(alert: Alert, now: real, expiresAt: real)
    | Release(row: nat, outcome: Status)
    | Confirm(row: nat)

  function Resolved(rows: seq<Action>, r: nat, outcome: Status): seq<Action>
    requires r < |rows|
  {
    rows[r := rows[r].(status := outcome)]
  }

  function Apply(s: State, e: Event): State {
    match e
    case Act(a, now, expiresAt) =>
      if HasActive(s.rows, a.ip) then s
      else State(After(s.list, Block(a.ip)), s.rows + [Action(a, Pending, now, Some(expiresAt))])
    case Release(r, outcome) =>
      if r >= |s.rows| || outcome !in {Expired, Undone} then s
      else State(After(s.list, Unblock(s.rows[r].alert.ip)), Resolved(s.rows, r, outcome))
    case Confirm(r) =>
      if r >= |s.rows| then s else s.(rows := s.rows[r := s.rows[r].(status := Confirmed, expiresAt := None)])
  }

  function Run(s: State, events: seq<Event>): State {
    if events == [] then s else Apply(Run(s, events[..|events| - 1]), events[|events| - 1])
  }

  lemma RunNext(s: State, events: seq<Event>, e: Event)
    ensures Run(s, events + [e]) == Apply(Run(s, events), e)
  {
    assert (events + [e])[..|events|] == events;
  }

  /** The step's row, if any, is still pending: a check the loops could make right before the call. */
  predicate FreshStep(s: State, e: Event) {
    e.Act? || (e.row < |s.rows| && s.rows[e.row].status == Pending)
  }

  predicate Fresh(s: State, events: seq<Event>) {
    events == []
    || (Fresh(s, events[..|events| - 1]) && FreshStep(Run(s, events[..|events| - 1]), events[|events| - 1]))
  }

  /* ---- pending implies blocked ---- */

  ghost predicate PendingBlocked(s: State) {
    forall i | 0 <= i < |s.rows| && s.rows[i].status == Pending :: s.rows[i].alert.ip in s.list
  }

  lemma OnePendingStep(s: State, e: Event)
    requires OnePending(s.rows)
    ensures OnePending(Apply(s, e).rows)
  {
    hide After;
  }

  lemma StillListed(l: seq<string>, c: Call, ip: string)
    ensures ip in After(l, c) <==> if ip == c.ip then c.Block? || multiset(l)[ip] > 1 else ip in l
  {
    hide After;
    AfterMembers(l, c, ip);
    AfterMembers(l, c, c.ip);
    assert ip in After(l, c) <==> ip in multiset(After(l, c));
    assert ip in l <==> ip in multiset(l);
  }

  lemma ActKeepsPendingBlocked(s: State, a: Alert, now: real, expiresAt: real)
    requires PendingBlocked(s)
    ensures PendingBlocked(Apply(s, Act(a, now, expiresAt)))
  {
    hide After, HasActive;
    forall other: string
      ensures other in s.list || other == a.ip ==> other in After(s.list, Block(a.ip))
    {
      StillListed(s.list, Block(a.ip), other);
    }
  }

  /**
   * A release keeps "pending implies blocked" exactly when no other pending row names its client, or the list
   * names that client more than once.
   */
  lemma ReleaseKeepsPendingBlockedIff(s: State, r: nat, outcome: Status)
    requires PendingBlocked(s) && r < |s.rows| && outcome in {Expired, Undone}
    ensures PendingBlocked(Apply(s, Release(r, outcome)))
       <==> (multiset(s.list)[s.rows[r].alert.ip] > 1
             || forall i | 0 <= i < |s.rows| && i != r && s.rows[i].status == Pending ::
                  s.rows[i].alert.ip != s.rows[r].alert.ip)
  {
    hide After;
    var t := Apply(s, Release(r, outcome));
    forall i | 0 <= i < |s.rows| && i != r
      ensures t.rows[i] == s.rows[i]
      ensures t.rows[i].alert.ip in t.list
              <==> if s.rows[i].alert.ip == s.rows[r].alert.ip then multiset(s.list)[s.rows[r].alert.ip] > 1
                                          else s.rows[i].alert.ip in s.list
    {
      StillListed(s.list, Unblock(s.rows[r].alert.ip), s.rows[i].alert.ip);
    }
  }

  /** A step that releases no other pending action's client. */
  ghost predicate HarmlessStep(s: State, e: Event) {
    e.Release? && e.row < |s.rows| && e.outcome in {Expired, Undone} ==>
      (multiset(s.list)[s.rows[e.row].alert.ip] > 1
       || forall i | 0 <= i < |s.rows| && i != e.row && s.rows[i].status == Pending ::
            s.rows[i].alert.ip != s.rows[e.row].alert.ip)
  }

  lemma StepKeepsPendingBlockedIff(s: State, e: Event)
    requires PendingBlocked(s)
    ensures PendingBlocked(Apply(s, e)) <==> HarmlessStep(s, e)
  {
    hide After;
    match e
    case Act(a, now, expiresAt) => ActKeepsPendingBlocked(s, a, now, expiresAt);
    case Confirm(_) =>
    case Release(r, outcome) =>
      if r < |s.rows| && outcome in {Expired, Undone} {
        ReleaseKeepsPendingBlockedIff(s, r, outcome);
      }
  }

  ghost predicate AlwaysPendingBlocked(b: State, events: seq<Event>) {
    PendingBlocked(Run(b, events)) && (events == [] || AlwaysPendingBlocked(b, events[..|events| - 1]))
  }

  ghost predicate AllHarmless(b: State, events: seq<Event>) {
    events == []
    || (AllHarmless(b, events[..|events| - 1])
        && HarmlessStep(Run(b, events[..|events| - 1]), events[|events| - 1]))
  }

  /**
   * Whole runs, from any stored table: every pending action's client is blocked at every moment exactly when it is at
   * the start and each release is harmless at its moment.
   */
  lemma {:induction false} AlwaysPendingBlockedIff(b: State, events: seq<Event>)
    ensures AlwaysPendingBlocked(b, events) <==> PendingBlocked(b) && AllHarmless(b, events)
  {
    if events != [] {
      hide Apply, PendingBlocked, HarmlessStep;
      var before := events[..|events| - 1];
      AlwaysPendingBlockedIff(b, before);
      if AlwaysPendingBlocked(b, before) {
        PendingNow(b, before);
        StepKeepsPendingBlockedIff(Run(b, before), events[|events| - 1]);
      }
    }
  }

  lemma PendingNow(b: State, events: seq<Event>)
    requires AlwaysPendingBlocked(b, events)
    ensures PendingBlocked(Run(b, events))
  {
  }

  lemma FreshStepKeepsPendingBlocked(s: State, e: Event)
    requires OnePending(s.rows) && PendingBlocked(s) && FreshStep(s, e)
    ensures PendingBlocked(Apply(s, e))
  {
    hide After;
    match e
    case Act(a, now, expiresAt) => ActKeepsPendingBlocked(s, a, now, expiresAt);
    case Confirm(r) =>
    case Release(r, outcome) =>
      if outcome in {Expired, Undone} {
        ReleaseKeepsPendingBlockedIff(s, r, outcome);
      }
  }

  /**
   * Whole runs, from any stored table: if every step acts on a row that is still pending, every pending action's client
   * is blocked.
   */
  lemma {:induction false} FreshRunsKeepPendingBlocked(b: State, events: seq<Event>)
    requires OnePending(b.rows) && PendingBlocked(b) && Fresh(b, events)
    ensures OnePending(Run(b, events).rows) && PendingBlocked(Run(b, events))
  {
    if events == [] {
    } else {
      hide Apply, OnePending, PendingBlocked;
      var before, e := events[..|events| - 1], events[|events| - 1];
      FreshRunsKeepPendingBlocked(b, before);
      OnePendingStep(Run(b, before), e);
      FreshStepKeepsPendingBlocked(Run(b, before), e);
    }
  }

  /* ---- blocked by the Guardian implies an action ---- */

  ghost predicate Active(rows: seq<Action>, ip: string) {
    exists i | 0 <= i < |rows| :: rows[i].alert.ip == ip && rows[i].status in {Pending, Confirmed}
  }

  ghost predicate BlocksHaveActions(before: seq<string>, s: State) {
    forall ip: string | ip !in before :: multiset(s.list)[ip] <= 1 && (ip in s.list ==> Active(s.rows, ip))
  }

  lemma BlocksHaveActionsFor(before: seq<string>, s: State, e: Event, ip: string)
    requires ip !in before && multiset(s.list)[ip] <= 1 && (ip in s.list ==> Active(s.rows, ip))
    ensures var t := Apply(s, e); multiset(t.list)[ip] <= 1 && (ip in t.list ==> Active(t.rows, ip))
  {
    hide After;
    var t := Apply(s, e);
    if !e.Confirm? {
      var c := if e.Act? then Block(e.alert.ip) else Unblock(if e.row < |s.rows| then s.rows[e.row].alert.ip else ip);
      StillListed(s.list, c, ip);
      AfterMembers(s.list, c, ip);
      if e.Act? && t != s {
        assert t.rows[|s.rows|] == Action(e.alert, Pending, e.now, Some(e.expiresAt));
      }
    }
    if ip in s.list {
      var i :| 0 <= i < |s.rows| && s.rows[i].alert.ip == ip && s.rows[i].status in {Pending, Confirmed};
      assert t.rows[i].alert.ip == ip;
    }
  }

  /** Whole runs, stale steps included: a client blocked since the start has a pending or confirmed action. */
  lemma {:induction false} BlockedMeansActive(b: State, events: seq<Event>)
    ensures BlocksHaveActions(b.list, Run(b, events))
  {
    if events == [] {
      assert forall ip: string | ip !in b.list :: ip !in multiset(b.list);
    } else {
      hide Apply, Active;
      var s := Run(b, events[..|events| - 1]);
      BlockedMeansActive(b, events[..|events| - 1]);
      forall ip: string | ip !in b.list
        ensures var t := Apply(s, events[|events| - 1]);
                multiset(t.list)[ip] <= 1 && (ip in t.list ==> Active(t.rows, ip))
      {
        BlocksHaveActionsFor(b.list, s, events[|events| - 1], ip);
      }
    }
  }

  /* ---- what was on the list before ---- */

  /** The step ends an action on the client, stale or not. */
  ghost predicate Releases(s: State, e: Event, ip: string) {
    e.Release? && e.row < |s.rows| && e.outcome in {Expired, Undone} && s.rows[e.row].alert.ip == ip
  }

  ghost predicate EverReleased(b: State, events: seq<Event>, ip: string) {
    events != []
    && (EverReleased(b, events[..|events| - 1], ip)
        || Releases(Run(b, events[..|events| - 1]), events[|events| - 1], ip))
  }

  /** The entries of some clients, in order. */
  function Only(l: seq<string>, clients: set<string>): seq<string> {
    if l == [] then [] else (if l[0] in clients then [l[0]] else []) + Only(l[1..], clients)
  }

  lemma {:induction false} OnlyAppend(l: seq<string>, ip: string, clients: set<string>)
    ensures Only(l + [ip], clients) == Only(l, clients) + if ip in clients then [ip] else []
  {
    if l == [] {
      assert l + [ip] == [ip];
      assert Only([ip][1..], clients) == [];
    } else {
      OnlyAppend(l[1..], ip, clients);
      assert (l + [ip])[1..] == l[1..] + [ip];
    }
  }

  lemma {:induction false} OnlyRemoved(l: seq<string>, ip: string, clients: set<string>)
    requires ip !in clients
    ensures Only(RemoveFirst(l, ip), clients) == Only(l, clients)
  {
    if l != [] && l[0] != ip {
      OnlyRemoved(l[1..], ip, clients);
      assert RemoveFirst(l, ip) == [l[0]] + RemoveFirst(l[1..], ip);
    }
  }

  lemma {:induction false} OnlyMembers(l: seq<string>, clients: set<string>)
    ensures forall ip | ip in clients :: ip in l <==> ip in Only(l, clients)
    ensures (forall i | 0 <= i < |l| :: l[i] in clients) ==> Only(l, clients) == l
  {
    if l != [] {
      OnlyMembers(l[1..], clients);
      assert l == [l[0]] + l[1..];
    }
  }

  lemma RestKeptStep(before: seq<string>, s: State, e: Event, clients: set<string>)
    requires Only(s.list, clients) == Only(before, clients)
    requires forall ip | ip in clients :: ip in before && !Releases(s, e, ip)
    ensures Only(Apply(s, e).list, clients) == Only(before, clients)
  {
    hide HasActive, RemoveFirst, Only;
    OnlyMembers(s.list, clients);
    OnlyMembers(before, clients);
    match e
    case Act(a, _, _) => OnlyAppend(s.list, a.ip, clients);
    case Release(r, _) =>
      if r < |s.rows| && s.rows[r].alert.ip !in clients {
        OnlyRemoved(s.list, s.rows[r].alert.ip, clients);
      }
    case Confirm(_) =>
  }

  /** From every stored table: clients on the list of which no action ended keep all their entries, in their order. */
  lemma {:induction false} RestOfTheListIsKept(b: State, events: seq<Event>, clients: set<string>)
    requires forall ip | ip in clients :: ip in b.list && !EverReleased(b, events, ip)
    ensures Only(Run(b, events).list, clients) == Only(b.list, clients)
  {
    if events != [] {
      hide Apply, Only, Releases;
      RestOfTheListIsKept(b, events[..|events| - 1], clients);
      RestKeptStep(b.list, Run(b, events[..|events| - 1]), events[|events| - 1], clients);
    }
  }

  /** An old entry is never multiplied, and once an action ended it is missing unless another one is live. */
  ghost predicate EntryGivenUp(before: seq<string>, s: State, ip: string, released: bool) {
    && multiset(s.list)[ip] <= multiset(before)[ip]
    && (released && !Active(s.rows, ip) ==> multiset(s.list)[ip] < multiset(before)[ip])
  }

  lemma OtherRowsKept(s: State, e: Event, ip: string)
    requires if e.Act? then e.alert.ip != ip else e.row < |s.rows| ==> s.rows[e.row].alert.ip != ip
    ensures Active(s.rows, ip) ==> Active(Apply(s, e).rows, ip)
    ensures multiset(Apply(s, e).list)[ip] == multiset(s.list)[ip]
  {
    hide After, HasActive;
    var t := Apply(s, e);
    if e.Act? {
      AfterMembers(s.list, Block(e.alert.ip), ip);
    } else if e.row < |s.rows| {
      AfterMembers(s.list, Unblock(s.rows[e.row].alert.ip), ip);
    }
    if i :| 0 <= i < |s.rows| && s.rows[i].alert.ip == ip && s.rows[i].status in {Pending, Confirmed} {
      assert t.rows[i] == s.rows[i];
    }
  }

  lemma ActGivesUp(before: seq<string>, s: State, a: Alert, now: real, expiresAt: real, released: bool)
    requires a.ip in before && EntryGivenUp(before, s, a.ip, released)
    ensures EntryGivenUp(before, Apply(s, Act(a, now, expiresAt)), a.ip, released)
  {
    hide After, HasActive;
    var t := Apply(s, Act(a, now, expiresAt));
    AfterMembers(s.list, Block(a.ip), a.ip);
    assert a.ip in multiset(before);
    if t != s {
      assert t.rows[|s.rows|].alert.ip == a.ip && t.rows[|s.rows|].status == Pending;
    }
  }

  lemma ReleaseGivesUp(before: seq<string>, s: State, r: nat, outcome: Status, released: bool)
    requires r < |s.rows| && s.rows[r].alert.ip in before && EntryGivenUp(before, s, s.rows[r].alert.ip, released)
    requires outcome in {Expired, Undone}
    ensures EntryGivenUp(before, Apply(s, Release(r, outcome)), s.rows[r].alert.ip, true)
  {
    hide After, Active;
    var ip := s.rows[r].alert.ip;
    AfterMembers(s.list, Unblock(ip), ip);
    assert ip in multiset(before);
    assert ip in s.list <==> ip in multiset(s.list);
  }

  lemma ConfirmKeepsEntry(before: seq<string>, s: State, r: nat, ip: string, released: bool)
    requires r < |s.rows| && s.rows[r].alert.ip == ip && EntryGivenUp(before, s, ip, released)
    ensures EntryGivenUp(before, Apply(s, Confirm(r)), ip, released)
  {
    assert Apply(s, Confirm(r)).rows[r].alert.ip == ip && Apply(s, Confirm(r)).rows[r].status == Confirmed;
  }

  lemma EntryGivenUpStep(before: seq<string>, s: State, e: Event, ip: string, released: bool)
    requires ip in before && EntryGivenUp(before, s, ip, released)
    ensures EntryGivenUp(before, Apply(s, e), ip, released || Releases(s, e, ip))
  {
    hide Apply, EntryGivenUp, Active;
    if e.Act? && e.alert.ip == ip {
      ActGivesUp(before, s, e.alert, e.now, e.expiresAt, released);
    } else if !e.Act? && e.row < |s.rows| && s.rows[e.row].alert.ip == ip {
      if e.Confirm? {
        ConfirmKeepsEntry(before, s, e.row, ip, released);
      } else if e.outcome in {Expired, Undone} {
        ReleaseGivesUp(before, s, e.row, e.outcome, released);
      } else {
        NoSuchRelease(s, e);
      }
    } else {
      OtherRowsKept(s, e, ip);
      GivenUpByOthers(before, s, Apply(s, e), ip, released);
    }
  }

  lemma NoSuchRelease(s: State, e: Event)
    requires e.Release? && e.outcome !in {Expired, Undone}
    ensures Apply(s, e) == s
  {
  }

  lemma GivenUpByOthers(before: seq<string>, s: State, t: State, ip: string, released: bool)
    requires EntryGivenUp(before, s, ip, released) && multiset(t.list)[ip] == multiset(s.list)[ip]
    requires Active(s.rows, ip) ==> Active(t.rows, ip)
    ensures EntryGivenUp(before, t, ip, released)
  {
  }

  lemma {:induction false} EntryGivenUpByRun(b: State, events: seq<Event>, ip: string)
    requires ip in b.list
    ensures EntryGivenUp(b.list, Run(b, events), ip, EverReleased(b, events, ip))
  {
    if events == [] {
    } else {
      hide Apply, EntryGivenUp, Releases;
      var before := events[..|events| - 1];
      EntryGivenUpByRun(b, before, ip);
      EntryGivenUpStep(b.list, Run(b, before), events[|events| - 1], ip, EverReleased(b, before, ip));
    }
  }

  ghost predicate AllOver(rows: seq<Action>) {
    forall i | 0 <= i < |rows| :: rows[i].status in {Expired, Undone}
  }

  lemma NothingAdded(b: State, events: seq<Event>)
    requires AllOver(Run(b, events).rows)
    ensures forall ip | ip in Run(b, events).list :: ip in b.list
  {
    hide Run;
    BlockedMeansActive(b, events);
    forall ip | ip in Run(b, events).list ensures ip in b.list {
      assert !Active(Run(b, events).rows, ip);
    }
  }

  /**
   * From every stored table, restarts included: when all actions are over, the list is the one the Guardian found,
   * order included, exactly when no action on a client of that list ended. A client on which one did has fewer entries.
   */
  lemma ReleasedListIsRestoredIff(b: State, events: seq<Event>)
    requires AllOver(Run(b, events).rows)
    ensures Run(b, events).list == b.list <==> forall ip | ip in b.list :: !EverReleased(b, events, ip)
    ensures forall ip | ip in b.list && EverReleased(b, events, ip) ::
              multiset(Run(b, events).list)[ip] < multiset(b.list)[ip]
  {
    hide Run, AllOver, EverReleased, Only, Active;
    var s := Run(b, events);
    forall ip | ip in b.list && EverReleased(b, events, ip)
      ensures multiset(s.list)[ip] < multiset(b.list)[ip]
    {
      EntryGivenUpByRun(b, events, ip);
      NoLongerActive(s.rows, ip);
    }
    if ip :| ip in b.list && EverReleased(b, events, ip) {
      assert multiset(s.list)[ip] != multiset(b.list)[ip];
    }
    if forall ip | ip in b.list :: !EverReleased(b, events, ip) {
      var clients := set ip | ip in b.list;
      RestOfTheListIsKept(b, events, clients);
      NothingAdded(b, events);
      OnlyMembers(s.list, clients);
      OnlyMembers(b.list, clients);
    }
  }

  lemma NoLongerActive(rows: seq<Action>, ip: string)
    requires AllOver(rows)
    ensures !Active(rows, ip)
  {
  }

  ghost predicate HasRow(rows: seq<Action>, ip: string) {
    exists i | 0 <= i < |rows| :: rows[i].alert.ip == ip
  }

  ghost predicate NoneOver(rows: seq<Action>, ip: string) {
    forall i | 0 <= i < |rows| && rows[i].alert.ip == ip :: rows[i].status in {Pending, Confirmed}
  }

  lemma RowsOverStep(s: State, e: Event, ip: string)
    ensures HasRow(s.rows, ip) ==> HasRow(Apply(s, e).rows, ip)
    ensures Releases(s, e, ip) ==> HasRow(Apply(s, e).rows, ip)
    ensures NoneOver(s.rows, ip) && !Releases(s, e, ip) ==> NoneOver(Apply(s, e).rows, ip)
  {
    hide After, HasActive;
    var t := Apply(s, e);
    assert forall i | 0 <= i < |s.rows| :: t.rows[i].alert.ip == s.rows[i].alert.ip;
  }

  lemma {:induction false} RowsOverByRun(b: State, events: seq<Event>, ip: string)
    requires NoneOver(b.rows, ip)
    ensures EverReleased(b, events, ip) ==> HasRow(Run(b, events).rows, ip)
    ensures !EverReleased(b, events, ip) ==> NoneOver(Run(b, events).rows, ip)
  {
    if events != [] {
      hide Apply, HasRow, NoneOver, Releases;
      RowsOverByRun(b, events[..|events| - 1], ip);
      RowsOverStep(Run(b, events[..|events| - 1]), events[|events| - 1], ip);
    }
  }

  /** For a client without old resolved rows: an action on it ended exactly when it has a row, stored ones included. */
  lemma EverReleasedIffActedOn(b: State, events: seq<Event>, ip: string)
    requires NoneOver(b.rows, ip) && AllOver(Run(b, events).rows)
    ensures EverReleased(b, events, ip) <==> HasRow(Run(b, events).rows, ip)
  {
    hide Run, EverReleased;
    RowsOverByRun(b, events, ip);
  }

  /* ---- is a confirmed block permanent? ---- */

  /** Only a release of an action on the same client unblocks a client. */
  lemma UnblockedIffReleased(s: State, e: Event, ip: string)
    requires multiset(s.list)[ip] == 1
    ensures ip !in Apply(s, e).list <==> Releases(s, e, ip)
  {
    hide After, HasActive;
    assert ip in multiset(s.list);
    if e.Act? {
      StillListed(s.list, Block(e.alert.ip), ip);
    } else if e.Release? && e.row < |s.rows| {
      StillListed(s.list, Unblock(s.rows[e.row].alert.ip), ip);
    }
  }

  ghost predicate AlwaysListed(b: State, events: seq<Event>, ip: string) {
    ip in Run(b, events).list && (events == [] || AlwaysListed(b, events[..|events| - 1], ip))
  }

  lemma ListedOnceStep(s: State, e: Event, ip: string)
    requires multiset(s.list)[ip] == 1 && !Releases(s, e, ip)
    ensures multiset(Apply(s, e).list)[ip] == 1
  {
    hide After, HasActive;
    assert ip in multiset(s.list);
    if e.Act? {
      AfterMembers(s.list, Block(e.alert.ip), ip);
    } else if e.Release? && e.row < |s.rows| {
      AfterMembers(s.list, Unblock(s.rows[e.row].alert.ip), ip);
    }
  }

  lemma {:induction false} ListedOnce(b: State, events: seq<Event>, ip: string)
    requires multiset(b.list)[ip] == 1 && !EverReleased(b, events, ip)
    ensures multiset(Run(b, events).list)[ip] == 1
  {
    if events != [] {
      hide Apply, Releases;
      ListedOnce(b, events[..|events| - 1], ip);
      ListedOnceStep(Run(b, events[..|events| - 1]), events[|events| - 1], ip);
    }
  }

  /** Over whole runs: a client listed once stays listed all the time exactly when no action on it ends. */
  lemma {:induction false} StaysListedIff(b: State, events: seq<Event>, ip: string)
    requires multiset(b.list)[ip] == 1
    ensures AlwaysListed(b, events, ip) <==> !EverReleased(b, events, ip)
  {
    assert ip in multiset(b.list);
    if events != [] {
      hide Apply, Releases;
      var before, e := events[..|events| - 1], events[|events| - 1];
      StaysListedIff(b, before, ip);
      if !EverReleased(b, before, ip) {
        ListedOnce(b, before, ip);
        UnblockedIffReleased(Run(b, before), e, ip);
      }
    }
  }

  /** A confirmed client stays blocked for as long as the Guardian takes no new action on it. */
  lemma {:induction false} ConfirmedStaysBlocked(s: State, events: seq<Event>, ip: string)
    requires ip in s.list && !HasActive(s.rows, ip) && Fresh(s, events)
    requires forall i | 0 <= i < |events| && events[i].Act? :: events[i].alert.ip != ip
    ensures ip in Run(s, events).list && !HasActive(Run(s, events).rows, ip)
  {
    if events != [] {
      hide Apply, HasActive;
      var before, e := events[..|events| - 1], events[|events| - 1];
      ConfirmedStaysBlocked(s, before, ip);
      QuietStep(Run(s, before), e, ip);
    }
  }

  lemma QuietStep(s: State, e: Event, ip: string)
    requires ip in s.list && !HasActive(s.rows, ip) && FreshStep(s, e) && (e.Act? ==> e.alert.ip != ip)
    ensures ip in Apply(s, e).list && !HasActive(Apply(s, e).rows, ip)
  {
    hide After;
    if e.Act? {
      StillListed(s.list, Block(e.alert.ip), ip);
    } else if e.Release? {
      StillListed(s.list, Unblock(s.rows[e.row].alert.ip), ip);
    }
  }

  /** But it is not permanent: a new action on the client, once over, unblocks it while the old row stays confirmed. */
  lemma ConfirmedIsUnblockedByNextAction(s: State, k: nat, a: Alert, now: real, expiresAt: real, outcome: Status)
    requires k < |s.rows| && s.rows[k].status == Confirmed && outcome in {Expired, Undone} && a.ip == s.rows[k].alert.ip
    requires multiset(s.list)[a.ip] == 1 && !HasActive(s.rows, a.ip)
    ensures var events := [Act(a, now, expiresAt), Release(|s.rows|, outcome)];
            Fresh(s, events) && Run(s, events).rows[k] == s.rows[k] && a.ip !in Run(s, events).list
  {
    hide After, HasActive, Fresh, FreshStep, Run, Apply;
    var first, second := Act(a, now, expiresAt), Release(|s.rows|, outcome);
    ActedAndReleased(s, a, now, expiresAt, outcome);
    NoEvents(s);
    FreshNext(s, [], first);
    FreshNext(s, [first], second);
    assert [] + [first] == [first] && [first] + [second] == [first, second];
    BlockedAndReleased(s.list, a.ip);
  }

  lemma ActedAndReleased(s: State, a: Alert, now: real, expiresAt: real, outcome: Status)
    requires !HasActive(s.rows, a.ip) && outcome in {Expired, Undone}
    ensures var first, second := Act(a, now, expiresAt), Release(|s.rows|, outcome);
            && FreshStep(s, first) && FreshStep(Apply(s, first), second)
            && Apply(Apply(s, first), second)
            == State(After(After(s.list, Block(a.ip)), Unblock(a.ip)),
                     s.rows + [Action(a, outcome, now, Some(expiresAt))])
  {
    hide After, HasActive;
  }

  lemma BlockedAndReleased(l: seq<string>, ip: string)
    requires multiset(l)[ip] == 1
    ensures ip !in After(After(l, Block(ip)), Unblock(ip))
  {
    hide After;
    assert ip in multiset(l);
    AfterMembers(l, Block(ip), ip);
    StillListed(After(l, Block(ip)), Unblock(ip), ip);
  }

  /* ---- the loops themselves, when nothing interrupts them ---- */

  datatype Answer = NoLongerPending | ConfirmedBlock | UndoneBlock | UndoFailed | Ignored

  class Guardian {
    const backend: AdGuardBackend
    var rows: seq<Action>

    constructor (backend: AdGuardBackend, stored: seq<Action>)
      ensures this.backend == backend && rows == stored
    {
      this.backend, rows := backend, stored;
    }

    ghost function Abs(): State
      reads this, backend
    {
      State(backend.disallowed, rows)
    }

    method HasActiveAction(ip: string) returns (active: bool)
      ensures active == HasActive(rows, ip)
    {
      var i := 0;
      while i < |rows|
        invariant i <= |rows|
        invariant forall j | 0 <= j < i :: !(rows[j].alert.ip == ip && rows[j].status == Pending)
      {
        if rows[i].alert.ip == ip && rows[i].status == Pending {
          return true;
        }
        i := i + 1;
      }
      return false;
    }

    /** The end of an iteration of the alert loop; a failing block leaves no row behind. */
    method BlockClient(a: Alert, now: real, expiresAt: real, blockWorks: bool) returns (acted: bool)
      modifies this, backend
      ensures acted == (blockWorks && !HasActive(old(rows), a.ip))
      ensures Abs() == if blockWorks then Apply(old(Abs()), Act(a, now, expiresAt)) else old(Abs())
    {
      hide HasActive;
      var active := HasActiveAction(a.ip);
      acted := !active && blockWorks;
      if acted {
        var _ := backend.Block(a.ip);
        rows := rows + [Action(a, Pending, now, Some(expiresAt))];
      }
    }

    /** A working unblock call of the expiry loop, and the row change after it. */
    method ExpireRow(i: nat)
      requires i < |rows|
      modifies this, backend
      ensures rows == old(rows)[i := old(rows)[i].(status := Expired)]
      ensures Abs() == Apply(old(Abs()), Release(i, Expired))
    {
      var _ := backend.Unblock(rows[i].alert.ip);
      rows := rows[i := rows[i].(status := Expired)];
    }

    /** One pass of the expiry loop; `works(i)` says whether the unblock call for row `i` succeeds. */
    method ExpirePass(now: real, works: nat -> bool)
      modifies this, backend
      ensures |rows| == |old(rows)|
      ensures forall i | 0 <= i < |rows| ::
                var was := old(rows)[i];
                rows[i] == if was.status == Pending && was.expiresAt.Some? && was.expiresAt.value < now && works(i)
                           then was.(status := Expired) else was
      ensures exists events :: Fresh(old(Abs()), events) && Abs() == Run(old(Abs()), events)
    {
      hide Fresh, Run, Apply, HasActive;
      ghost var start := Abs();
      ghost var events: seq<Event> := [];
      var i := 0;
      NoEvents(start);
      while i < |rows|
        invariant i <= |rows| == |start.rows|
        invariant forall j | 0 <= j < i ::
                    var was := start.rows[j];
                    rows[j] == if was.status == Pending && was.expiresAt.Some? && was.expiresAt.value < now && works(j)
                               then was.(status := Expired) else was
        invariant forall j | i <= j < |rows| :: rows[j] == start.rows[j]
        invariant Fresh(start, events) && Abs() == Run(start, events)
      {
        if IsDue(rows[i], now) && works(i) {
          FreshNext(start, events, Release(i, Expired));
          ExpireRow(i);
          events := events + [Release(i, Expired)];
        }
        i := i + 1;
      }
    }

    /** An authorised confirm or undo callback. */
    method HandleCallback(confirm: bool, undo: bool, id: nat, unblockWorks: bool) returns (answer: Answer)
      modifies this, backend
      ensures answer == NoLongerPending <==> !(id < |old(rows)| && old(rows[id]).status == Pending)
      ensures answer == ConfirmedBlock ==> confirm && Abs() == Apply(old(Abs()), Confirm(id))
      ensures answer == UndoneBlock ==>
                !confirm && undo && unblockWorks && Abs() == Apply(old(Abs()), Release(id, Undone))
      ensures answer == UndoFailed ==> !confirm && undo && !unblockWorks
      ensures answer == Ignored ==> !confirm && !undo
      ensures answer in {NoLongerPending, UndoFailed, Ignored} ==> Abs() == old(Abs())
    {
      if id >= |rows| || rows[id].status != Pending {
        return NoLongerPending;
      }
      if confirm {
        rows := rows[id := rows[id].(status := Confirmed, expiresAt := None)];
        return ConfirmedBlock;
      }
      if undo {
        if !unblockWorks {
          return UndoFailed;
        }
        var _ := backend.Unblock(rows[id].alert.ip);
        rows := rows[id := rows[id].(status := Undone)];
        return UndoneBlock;
      }
      return Ignored;
    }
  }

  lemma NoEvents(s: State)
    ensures Fresh(s, []) && Run(s, []) == s
  {
  }

  lemma FreshNext(s: State, events: seq<Event>, e: Event)
    requires Fresh(s, events) && FreshStep(Run(s, events), e)
    ensures Fresh(s, events + [e]) && Run(s, events + [e]) == Apply(Run(s, events), e)
  {
    assert (events + [e])[..|events|] == events;
  }
}
