/**
 * The two views of the Guardian are one: a run of the protocol in which each backend call and its row update are taken
 * together is, with the list of blocked clients beside it, a run of the model of that list.
 */
module GuardianProjection {
  import opened Backends
  import B = GuardianBlocks
  import opened MitigationRows
  import P = GuardianProtocol
  import opened Wrappers

  /** A protocol state and the list its calls have made. */
  datatype Joint = Joint(s: P.State, list: seq<string>)

  /** The expiry task makes a call that works. */
  predicate Unblocks(s: P.State, e: P.Event) {
    e.UnblockExpired? && e.works && s.expiry.Expiring? && s.expiry.todo != [] && s.expiry.todo[0] < |s.rows|
  }

  /** The listener makes an undo call that works. */
  predicate Undoes(s: P.State, e: P.Event) {
    && e.CommitCallback? && e.works && s.listener.Resolving? && s.listener.row < |s.rows|
    && s.listener.outcome == Undone
  }

  /** What the backend call of an event does to the list, if it makes one that works. */
  function Called(s: P.State, list: seq<string>, e: P.Event): seq<string> {
    match e
    case BlockCall(works) => if works && s.loop.Blocking? then After(list, Block(s.loop.alert.ip)) else list
    case UnblockExpired(_) =>
      if Unblocks(s, e) then After(list, Unblock(s.rows[s.expiry.todo[0]].alert.ip)) else list
    case CommitCallback(_) =>
      if Undoes(s, e) then After(list, Unblock(s.rows[s.listener.row].alert.ip)) else list
    case _ => list
  }

  ghost function JointStep(c: P.Config, j: Joint, e: P.Event): Joint {
    Joint(P.Apply(c, j.s, e), Called(j.s, j.list, e))
  }

  ghost function JointRun(c: P.Config, j: Joint, events: seq<P.Event>): Joint {
    if events == [] then j else JointStep(c, JointRun(c, j, events[..|events| - 1]), events[|events| - 1])
  }

  lemma JointNext(c: P.Config, j: Joint, events: seq<P.Event>, e: P.Event)
    ensures JointRun(c, j, events + [e]) == JointStep(c, JointRun(c, j, events), e)
  {
    assert (events + [e])[..|events|] == events;
  }

  lemma NoJointEvents(c: P.Config, j: Joint)
    ensures JointRun(c, j, []) == j
  {
  }

  /** The list is only looked on: the protocol runs as it does alone. */
  lemma {:induction false} JointRunIsRun(c: P.Config, j: Joint, events: seq<P.Event>)
    ensures JointRun(c, j, events).s == P.RunFrom(c, j.s, events)
  {
    if events == [] {
    } else {
      JointRunIsRun(c, j, events[..|events| - 1]);
    }
  }

  /**
   * One step of a run with calls and row updates together: an event without a working call or with both at once, a
   * block with its insertion, or the calls of an expiry pass with their commit.
   */
  datatype Step = Single(e: P.Event) | ActNow(now: real) | ExpireNow(works: nat -> bool)

  predicate Together(s: P.State, step: Step) {
    match step
    case Single(e) => !e.BlockCall? && !e.Insert? && !e.UnblockExpired? && !e.CommitExpired?
    case ActNow(now) => now >= s.clock
    case ExpireNow(_) => true
  }

  function Calls(todo: seq<nat>, works: nat -> bool): seq<P.Event> {
    if todo == [] then [] else [P.UnblockExpired(works(todo[0]))] + Calls(todo[1..], works)
  }

  function EventsOf(s: P.State, step: Step): seq<P.Event> {
    match step
    case Single(e) => [e]
    case ActNow(now) => [P.BlockCall(true), P.Insert(now)]
    case ExpireNow(works) => (if s.expiry.Expiring? then Calls(s.expiry.todo, works) else []) + [P.CommitExpired]
  }

  /** The events of a sequence of steps. */
  ghost function AllEvents(c: P.Config, j: Joint, steps: seq<Step>): seq<P.Event> {
    if steps == [] then []
    else
      var before := AllEvents(c, j, steps[..|steps| - 1]);
      before + EventsOf(JointRun(c, j, before).s, steps[|steps| - 1])
  }

  ghost predicate AllTogether(c: P.Config, j: Joint, steps: seq<Step>) {
    steps == []
    || (AllTogether(c, j, steps[..|steps| - 1])
        && Together(JointRun(c, j, AllEvents(c, j, steps[..|steps| - 1])).s, steps[|steps| - 1]))
  }

  lemma {:induction false} JointAppend(c: P.Config, j: Joint, a: seq<P.Event>, b: seq<P.Event>)
    ensures JointRun(c, j, a + b) == JointRun(c, JointRun(c, j, a), b)
  {
    hide *;
    if b == [] {
      assert a + b == a;
      NoJointEvents(c, JointRun(c, j, a));
    } else {
      var front, e := b[..|b| - 1], b[|b| - 1];
      JointAppend(c, j, a, front);
      JointNext(c, j, a + front, e);
      JointNext(c, JointRun(c, j, a), front, e);
      assert a + b == a + front + [e] && b == front + [e];
    }
  }

  /** Between two steps nothing is half done, and what the loops hold is in order. */
  ghost predicate AtRest(c: P.Config, s: P.State) {
    && !s.loop.Inserting?
    && (s.expiry.Expiring? ==> s.expiry.done == [] && forall id | id in s.expiry.todo :: id < |s.rows|)
    && P.OnlyResolves(s) && P.AboutToAct(c, s) && OnePending(s.rows)
  }

  ghost function View(j: Joint): B.State {
    B.State(j.list, j.s.rows)
  }

  /** Events without a call change neither list nor rows. */
  lemma QuietEvent(c: P.Config, j: Joint, e: P.Event)
    requires Together(j.s, Single(e)) && !e.CommitCallback?
    ensures View(JointStep(c, j, e)) == View(j)
  {
    hide P.Ascending, P.CreatedSince, P.CountEligible, P.Eligible, HasActive, P.DueRows;
  }

  lemma SingleAtRest(c: P.Config, s: P.State, e: P.Event)
    requires AtRest(c, s) && Together(s, Single(e))
    ensures AtRest(c, P.Apply(c, s, e))
  {
    hide P.Ascending, P.CreatedSince, P.CountEligible, P.Eligible, HasActive, OnePending, P.AboutToAct, P.OnlyResolves;
    P.OnePendingStep(c, s, e);
    P.RowsGrow(c, s, e);
  }

  lemma CallbackProjects(c: P.Config, j: Joint, works: bool) returns (coarse: seq<B.Event>)
    requires P.OnlyResolves(j.s)
    ensures View(JointStep(c, j, P.CommitCallback(works))) == B.Run(View(j), coarse)
  {
    hide After, B.Run;
    coarse := [];
    B.NoEvents(View(j));
    if works && j.s.listener.Resolving? && j.s.listener.row < |j.s.rows| {
      var l := j.s.listener;
      var one := if l.outcome == Confirmed then B.Confirm(l.row) else B.Release(l.row, Undone);
      B.RunNext(View(j), [], one);
      coarse := [] + [one];
    }
  }

  lemma SingleProjects(c: P.Config, j: Joint, e: P.Event) returns (coarse: seq<B.Event>)
    requires AtRest(c, j.s) && Together(j.s, Single(e))
    ensures AtRest(c, JointStep(c, j, e).s)
    ensures View(JointStep(c, j, e)) == B.Run(View(j), coarse)
  {
    hide P.Apply, P.OnlyResolves, P.AboutToAct, OnePending, B.Run, Together, View;
    SingleAtRest(c, j.s, e);
    coarse := [];
    B.NoEvents(View(j));
    if e.CommitCallback? {
      coarse := CallbackProjects(c, j, e.works);
    } else {
      QuietEvent(c, j, e);
    }
  }

  lemma ActProjects(c: P.Config, j: Joint, now: real) returns (coarse: seq<B.Event>)
    requires AtRest(c, j.s) && now >= j.s.clock
    ensures var t := JointStep(c, JointStep(c, j, P.BlockCall(true)), P.Insert(now));
            AtRest(c, t.s) && View(t) == B.Run(View(j), coarse)
  {
    hide P.Ascending, P.CreatedSince, P.CountEligible, P.Eligible, HasActive, P.DueRows, OnePending, After;
    var m := JointStep(c, j, P.BlockCall(true));
    P.OnePendingStep(c, j.s, P.BlockCall(true));
    P.OnePendingStep(c, m.s, P.Insert(now));
    B.NoEvents(View(j));
    coarse := [];
    if j.s.loop.Blocking? {
      var one := B.Act(j.s.loop.alert, now, now + c.blockFor);
      B.RunNext(View(j), [], one);
      coarse := [] + [one];
    }
  }

  /** Mid-pass: the rows of the calls made so far are marked already. */
  ghost function MidView(j: Joint): B.State
    requires j.s.expiry.Expiring?
  {
    B.State(j.list, P.Marked(j.s.rows, j.s.expiry.done, Expired))
  }

  lemma OneMoreMarked(rows: seq<Action>, done: seq<nat>, id: nat)
    requires id < |rows|
    ensures P.Marked(rows, done + [id], Expired) == B.Resolved(P.Marked(rows, done, Expired), id, Expired)
    ensures P.Marked(rows, done, Expired)[id].alert == rows[id].alert
  {
  }

  lemma OneCall(c: P.Config, j: Joint, works: bool)
    requires j.s.expiry.Expiring? && j.s.expiry.todo != [] && j.s.expiry.todo[0] < |j.s.rows|
    ensures var todo, m := j.s.expiry.todo, JointStep(c, j, P.UnblockExpired(works));
            && m.s == j.s.(expiry := m.s.expiry) && m.s.expiry.Expiring? && m.s.expiry.todo == todo[1..]
            && MidView(m) == if works then B.Apply(MidView(j), B.Release(todo[0], Expired)) else MidView(j)
  {
    hide P.Marked, After;
    OneMoreMarked(j.s.rows, j.s.expiry.done, j.s.expiry.todo[0]);
  }

  lemma CallsNext(todo: seq<nat>, works: nat -> bool)
    ensures Calls(todo, works) == if todo == [] then []
                                  else [P.UnblockExpired(works(todo[0]))] + Calls(todo[1..], works)
  {
  }

  lemma {:induction false} CallsProject(c: P.Config, j: Joint, works: nat -> bool) returns (coarse: seq<B.Event>)
    requires j.s.expiry.Expiring? && forall id | id in j.s.expiry.todo :: id < |j.s.rows|
    ensures var t := JointRun(c, j, Calls(j.s.expiry.todo, works));
            && t.s == j.s.(expiry := t.s.expiry) && t.s.expiry.Expiring? && t.s.expiry.todo == []
            && MidView(t) == B.Run(MidView(j), coarse)
    decreases |j.s.expiry.todo|
  {
    hide *;
    var todo := j.s.expiry.todo;
    coarse := [];
    B.NoEvents(MidView(j));
    NoJointEvents(c, j);
    CallsNext(todo, works);
    if todo != [] {
      var e := P.UnblockExpired(works(todo[0]));
      var m := JointStep(c, j, e);
      assert todo[0] in todo;
      OneCall(c, j, works(todo[0]));
      JointNext(c, j, [], e);
      JointAppend(c, j, [e], Calls(todo[1..], works));
      assert [] + [e] == [e];
      assert forall id | id in todo[1..] :: id in todo;
      var rest := CallsProject(c, m, works);
      if works(todo[0]) {
        var one := B.Release(todo[0], Expired);
        B.RunNext(MidView(j), [], one);
        BlocksAppend(MidView(j), [] + [one], rest);
        coarse := [] + [one] + rest;
      } else {
        coarse := rest;
      }
    }
  }

  lemma {:induction false} BlocksAppend(s: B.State, a: seq<B.Event>, b: seq<B.Event>)
    ensures B.Run(s, a + b) == B.Run(B.Run(s, a), b)
  {
    hide *;
    if b == [] {
      assert a + b == a;
      B.NoEvents(B.Run(s, a));
    } else {
      var front, e := b[..|b| - 1], b[|b| - 1];
      BlocksAppend(s, a, front);
      B.RunNext(s, a + front, e);
      B.RunNext(B.Run(s, a), front, e);
      assert a + b == a + front + [e] && b == front + [e];
    }
  }

  lemma NothingMarked(rows: seq<Action>)
    ensures P.Marked(rows, [], Expired) == rows
  {
  }

  lemma MarkedKeeps(c: P.Config, s: P.State)
    requires P.OnlyResolves(s) && P.AboutToAct(c, s) && OnePending(s.rows)
    ensures var t := P.Apply(c, s, P.CommitExpired); P.OnlyResolves(t) && P.AboutToAct(c, t) && OnePending(t.rows)
  {
    hide P.Apply, P.AboutToAct, P.OnlyResolves, OnePending;
    P.OnePendingStep(c, s, P.CommitExpired);
    P.RowsGrow(c, s, P.CommitExpired);
  }

  lemma ExpireProjects(c: P.Config, j: Joint, works: nat -> bool) returns (coarse: seq<B.Event>)
    requires AtRest(c, j.s)
    ensures var t := JointRun(c, j, EventsOf(j.s, ExpireNow(works)));
            AtRest(c, t.s) && View(t) == B.Run(View(j), coarse)
  {
    hide JointRun, Calls, P.Marked, P.AboutToAct, P.OnlyResolves, OnePending;
    coarse := [];
    NoJointEvents(c, j);
    B.NoEvents(View(j));
    if j.s.expiry.Expiring? {
      var calls := Calls(j.s.expiry.todo, works);
      NothingMarked(j.s.rows);
      coarse := CallsProject(c, j, works);
      JointNext(c, j, calls, P.CommitExpired);
      PassKeeps(c, j, JointRun(c, j, calls));
      MarkedKeeps(c, JointRun(c, j, calls).s);
    } else {
      JointNext(c, j, [], P.CommitExpired);
      assert [] + [P.CommitExpired] == [P.CommitExpired];
    }
  }

  /** The calls of a pass change neither the rows nor what the other loops are about to do. */
  lemma PassKeeps(c: P.Config, j: Joint, t: Joint)
    requires AtRest(c, j.s) && t.s == j.s.(expiry := t.s.expiry)
    ensures P.OnlyResolves(t.s) && P.AboutToAct(c, t.s) && OnePending(t.s.rows)
  {
  }

  lemma StepProjects(c: P.Config, j: Joint, step: Step) returns (coarse: seq<B.Event>)
    requires AtRest(c, j.s) && Together(j.s, step)
    ensures var t := JointRun(c, j, EventsOf(j.s, step));
            AtRest(c, t.s) && View(t) == B.Run(View(j), coarse)
  {
    hide JointRun, AtRest, JointStep, Calls, View, B.Run;
    NoJointEvents(c, j);
    match step
    case Single(e) =>
      coarse := SingleProjects(c, j, e);
      JointNext(c, j, [], e);
      assert [] + [e] == [e];
    case ActNow(now) =>
      coarse := ActProjects(c, j, now);
      JointNext(c, j, [], P.BlockCall(true));
      JointNext(c, j, [P.BlockCall(true)], P.Insert(now));
      assert [] + [P.BlockCall(true)] == [P.BlockCall(true)];
      assert [P.BlockCall(true)] + [P.Insert(now)] == [P.BlockCall(true), P.Insert(now)];
    case ExpireNow(works) =>
      coarse := ExpireProjects(c, j, works);
  }

  lemma StartsAtRest(c: P.Config, b: P.Start)
    requires b.Valid()
    ensures AtRest(c, P.Init(b))
  {
  }

  /**
   * From every start, a protocol run whose calls and row updates go together makes the same list and rows as some run
   * of the model of the list.
   */
  lemma {:induction false} ProtocolRunsProject(c: P.Config, b: P.Start, list: seq<string>, steps: seq<Step>)
    returns (coarse: seq<B.Event>)
    requires b.Valid() && AllTogether(c, Joint(P.Init(b), list), steps)
    ensures var j, events := Joint(P.Init(b), list), AllEvents(c, Joint(P.Init(b), list), steps);
            && JointRun(c, j, events).s == P.Run(c, b, events)
            && AtRest(c, P.Run(c, b, events))
            && B.State(JointRun(c, j, events).list, P.Run(c, b, events).rows) == B.Run(B.State(list, b.rows), coarse)
  {
    hide JointRun, AtRest, EventsOf, Together, P.RunFrom, P.Start.Valid, B.Run;
    var j := Joint(P.Init(b), list);
    JointRunIsRun(c, j, AllEvents(c, j, steps));
    if steps == [] {
      StartsAtRest(c, b);
      NoJointEvents(c, j);
      B.NoEvents(B.State(list, b.rows));
      coarse := [];
    } else {
      var front, last := steps[..|steps| - 1], steps[|steps| - 1];
      var before := AllEvents(c, j, front);
      var m := JointRun(c, j, before);
      var first := ProtocolRunsProject(c, b, list, front);
      var more := StepProjects(c, m, last);
      JointAppend(c, j, before, EventsOf(m.s, last));
      BlocksAppend(B.State(list, b.rows), first, more);
      coarse := first + more;
    }
  }

  /** So in every such run of the protocol a client blocked since the start has a pending or confirmed action. */
  lemma ProtocolBlocksAreActive(c: P.Config, b: P.Start, list: seq<string>, steps: seq<Step>, ip: string)
    requires b.Valid() && AllTogether(c, Joint(P.Init(b), list), steps)
    requires ip !in list && ip in JointRun(c, Joint(P.Init(b), list), AllEvents(c, Joint(P.Init(b), list), steps)).list
    ensures B.Active(P.Run(c, b, AllEvents(c, Joint(P.Init(b), list), steps)).rows, ip)
  {
    hide JointRun, AllEvents, AllTogether, P.Run, B.Run, B.Active;
    var coarse := ProtocolRunsProject(c, b, list, steps);
    B.BlockedMeansActive(B.State(list, b.rows), coarse);
  }

  /* ---- every run: the awaits between a call and its row update included ---- */

  /** The rows whose calls have been made in the current expiry pass. */
  function Done(s: P.State): seq<nat> {
    if s.expiry.Expiring? then s.expiry.done else []
  }

  ghost predicate InRange(s: P.State) {
    s.expiry.Expiring? ==>
      (forall id | id in s.expiry.todo :: id < |s.rows|) && forall id | id in s.expiry.done :: id < |s.rows|
  }

  /** A pending or confirmed row of the client that the current expiry pass has not unblocked already. */
  ghost predicate LiveRow(rows: seq<Action>, done: seq<nat>, ip: string) {
    exists id | 0 <= id < |rows| && id !in done :: rows[id].alert.ip == ip && rows[id].status in {Pending, Confirmed}
  }

  /** The loop has made the call for the client and awaits its row. */
  ghost predicate AwaitsRow(s: P.State, ip: string) {
    s.loop.Inserting? && s.loop.alert.ip == ip
  }

  /** The loop failed between its call for the client and the row, and the client has been listed ever since. */
  ghost predicate RowLost(c: P.Config, j: Joint, events: seq<P.Event>, ip: string) {
    events != [] && ip in JointRun(c, j, events).list
    && var front := events[..|events| - 1];
       RowLost(c, j, front, ip) || (events[|events| - 1].LoopFails? && AwaitsRow(JointRun(c, j, front).s, ip))
  }

  ghost predicate Accounted(j: Joint, ip: string, lost: bool) {
    multiset(j.list)[ip] <= 1
    && (ip in j.list ==> LiveRow(j.s.rows, Done(j.s), ip) || AwaitsRow(j.s, ip) || lost)
  }

  lemma SelectInRange(rows: seq<Action>, now: real)
    ensures forall id | id in P.DueRows(rows, now) :: id < |rows|
  {
  }

  lemma StepInRange(c: P.Config, s: P.State, e: P.Event)
    requires InRange(s)
    ensures InRange(P.Apply(c, s, e))
  {
    hide P.Ascending, P.CreatedSince, P.CountEligible, P.Eligible, HasActive, P.DueRows;
    if e.SelectExpired? {
      SelectInRange(s.rows, e.now);
    } else if e.UnblockExpired? && s.expiry.Expiring? && s.expiry.todo != [] {
      var todo := s.expiry.todo;
      assert todo[0] in todo && forall id | id in todo[1..] :: id in todo;
    }
  }

  /** Unblocking takes away the only entry. */
  lemma EntryGone(list: seq<string>, who: string, ip: string)
    requires multiset(list)[ip] <= 1
    ensures multiset(After(list, Unblock(who)))[ip] <= 1
    ensures ip in After(list, Unblock(who)) ==> ip in list && ip != who
  {
    hide After;
    AfterMembers(list, Unblock(who), ip);
    B.StillListed(list, Unblock(who), ip);
    UnblockReleasesIff(list, who);
  }

  lemma EntryMade(list: seq<string>, who: string, ip: string)
    requires multiset(list)[ip] <= 1
    ensures multiset(After(list, Block(who)))[ip] <= 1
    ensures ip in After(list, Block(who)) ==> ip in list || ip == who
  {
    hide After;
    AfterMembers(list, Block(who), ip);
    B.StillListed(list, Block(who), ip);
  }

  lemma LoopAccounted(c: P.Config, j: Joint, e: P.Event, ip: string, lost: bool)
    requires InRange(j.s) && Accounted(j, ip, lost)
    requires e.Poll? || e.CheckBreaker? || e.Consider? || e.BlockCall? || e.Insert? || e.LoopFails?
    ensures Accounted(JointStep(c, j, e), ip, lost || (e.LoopFails? && AwaitsRow(j.s, ip)))
  {
    hide P.Ascending, P.CreatedSince, P.CountEligible, P.Eligible, HasActive, P.DueRows, After;
    if e.BlockCall? && j.s.loop.Blocking? {
      EntryMade(j.list, j.s.loop.alert.ip, ip);
    } else if e.Insert? && P.Apply(c, j.s, e) != j.s {
      RowAppended(j.s.rows, P.Apply(c, j.s, e).rows[|j.s.rows|], Done(j.s), ip);
    }
  }

  lemma RowAppended(rows: seq<Action>, r: Action, done: seq<nat>, ip: string)
    requires r.status == Pending && forall id | id in done :: id < |rows|
    ensures LiveRow(rows, done, ip) || r.alert.ip == ip ==> LiveRow(rows + [r], done, ip)
  {
    assert (rows + [r])[|rows|] == r && |rows| !in done;
    if LiveRow(rows, done, ip) {
      var id :| 0 <= id < |rows| && id !in done && rows[id].alert.ip == ip && rows[id].status in {Pending, Confirmed};
      assert (rows + [r])[id] == rows[id];
    }
  }

  lemma ExpiryAccounted(c: P.Config, j: Joint, e: P.Event, ip: string, lost: bool)
    requires InRange(j.s) && Accounted(j, ip, lost)
    requires e.SelectExpired? || e.UnblockExpired? || e.CommitExpired? || e.ExpiryFails?
    ensures Accounted(JointStep(c, j, e), ip, lost)
  {
    hide P.Apply, JointStep, LiveRow, Done, After;
    var who := if Unblocks(j.s, e) then Some(j.s.rows[j.s.expiry.todo[0]].alert.ip) else None;
    ExpiryStepIs(c, j, e);
    if who.Some? {
      EntryGone(j.list, who.value, ip);
    }
    if LiveRow(j.s.rows, Done(j.s), ip) && who != Some(ip) {
      ExpiryKeepsLive(c, j.s, e, ip);
    }
  }

  lemma ExpiryStepIs(c: P.Config, j: Joint, e: P.Event)
    requires e.SelectExpired? || e.UnblockExpired? || e.CommitExpired? || e.ExpiryFails?
    ensures var t := JointStep(c, j, e);
            && t.s == P.Apply(c, j.s, e) && t.s.loop == j.s.loop
            && t.list == if Unblocks(j.s, e) then After(j.list, Unblock(j.s.rows[j.s.expiry.todo[0]].alert.ip))
                         else j.list
  {
    hide P.DueRows, After, P.Marked;
  }

  /** A row of somebody whom this step does not unblock stays live. */
  lemma ExpiryKeepsLive(c: P.Config, s: P.State, e: P.Event, ip: string)
    requires InRange(s) && LiveRow(s.rows, Done(s), ip)
    requires e.SelectExpired? || e.UnblockExpired? || e.CommitExpired? || e.ExpiryFails?
    requires Unblocks(s, e) ==> s.rows[s.expiry.todo[0]].alert.ip != ip
    ensures var t := P.Apply(c, s, e); LiveRow(t.rows, Done(t), ip)
  {
    hide P.DueRows, P.LoopStep, P.ListenerStep;
    var t := P.Apply(c, s, e);
    var id :| 0 <= id < |s.rows| && id !in Done(s) && s.rows[id].alert.ip == ip
              && s.rows[id].status in {Pending, Confirmed};
    if e.UnblockExpired? && s.expiry.Expiring? && s.expiry.todo != [] {
      assert s.expiry.todo[0] in s.expiry.todo;
    }
    assert id !in Done(t) && t.rows[id] == s.rows[id];
  }

  lemma ListenerAccounted(c: P.Config, j: Joint, e: P.Event, ip: string, lost: bool)
    requires P.OnlyResolves(j.s) && Accounted(j, ip, lost) && (e.ReadCallback? || e.CommitCallback?)
    ensures Accounted(JointStep(c, j, e), ip, lost)
  {
    hide P.Apply, JointStep, LiveRow, Done, After;
    var who := if Undoes(j.s, e) then Some(j.s.rows[j.s.listener.row].alert.ip) else None;
    ListenerStepIs(c, j, e);
    if who.Some? {
      EntryGone(j.list, who.value, ip);
    }
    if LiveRow(j.s.rows, Done(j.s), ip) && who != Some(ip) {
      ListenerKeepsLive(c, j.s, e, ip);
    }
  }

  lemma ListenerStepIs(c: P.Config, j: Joint, e: P.Event)
    requires e.ReadCallback? || e.CommitCallback?
    ensures var t := JointStep(c, j, e);
            && t.s == P.Apply(c, j.s, e) && t.s.loop == j.s.loop
            && t.list == if Undoes(j.s, e) then After(j.list, Unblock(j.s.rows[j.s.listener.row].alert.ip)) else j.list
  {
    hide After;
  }

  lemma ListenerKeepsLive(c: P.Config, s: P.State, e: P.Event, ip: string)
    requires P.OnlyResolves(s) && LiveRow(s.rows, Done(s), ip) && (e.ReadCallback? || e.CommitCallback?)
    requires Undoes(s, e) ==> s.rows[s.listener.row].alert.ip != ip
    ensures var t := P.Apply(c, s, e); LiveRow(t.rows, Done(t), ip)
  {
    hide P.DueRows, P.LoopStep, P.ExpiryStep;
    var t := P.Apply(c, s, e);
    var id :| 0 <= id < |s.rows| && id !in Done(s) && s.rows[id].alert.ip == ip
              && s.rows[id].status in {Pending, Confirmed};
    assert t.rows[id].alert.ip == ip && t.rows[id].status in {Pending, Confirmed};
  }

  lemma StepAccounted(c: P.Config, j: Joint, e: P.Event, ip: string, lost: bool)
    requires P.OnlyResolves(j.s) && InRange(j.s) && Accounted(j, ip, lost)
    ensures Accounted(JointStep(c, j, e), ip, lost || (e.LoopFails? && AwaitsRow(j.s, ip)))
  {
    hide Accounted, JointStep, AwaitsRow, InRange, P.OnlyResolves;
    match e
    case SelectExpired(_) => ExpiryAccounted(c, j, e, ip, lost);
    case UnblockExpired(_) => ExpiryAccounted(c, j, e, ip, lost);
    case CommitExpired => ExpiryAccounted(c, j, e, ip, lost);
    case ExpiryFails => ExpiryAccounted(c, j, e, ip, lost);
    case ReadCallback(_, _) => ListenerAccounted(c, j, e, ip, lost);
    case CommitCallback(_) => ListenerAccounted(c, j, e, ip, lost);
    case _ => LoopAccounted(c, j, e, ip, lost);
  }

  lemma NothingBlockedYet(c: P.Config, b: P.Start, list: seq<string>, ip: string)
    requires ip !in list
    ensures var s := P.Init(b); P.OnlyResolves(s) && InRange(s) && Accounted(Joint(s, list), ip, false)
  {
  }

  lemma LostNext(c: P.Config, j: Joint, events: seq<P.Event>, e: P.Event, ip: string)
    requires ip in JointRun(c, j, events + [e]).list
    ensures RowLost(c, j, events + [e], ip)
       <==> RowLost(c, j, events, ip) || (e.LoopFails? && AwaitsRow(JointRun(c, j, events).s, ip))
  {
    assert (events + [e])[..|events|] == events;
  }

  lemma AccountedMeans(j: Joint, ip: string, lost: bool, less: bool)
    requires Accounted(j, ip, lost) && (ip in j.list && lost ==> less)
    ensures Accounted(j, ip, less)
  {
  }

  lemma {:induction false} RunAccounted(c: P.Config, b: P.Start, list: seq<string>, events: seq<P.Event>, ip: string)
    requires ip !in list
    ensures var j0, j := Joint(P.Init(b), list), JointRun(c, Joint(P.Init(b), list), events);
            P.OnlyResolves(j.s) && InRange(j.s) && Accounted(j, ip, RowLost(c, j0, events, ip))
  {
    hide *;
    var j0 := Joint(P.Init(b), list);
    if events == [] {
      NoJointEvents(c, j0);
      NothingBlockedYet(c, b, list, ip);
      AccountedMeans(j0, ip, false, RowLost(c, j0, [], ip));
    } else {
      var before, e := events[..|events| - 1], events[|events| - 1];
      assert events == before + [e];
      var m, lost := JointRun(c, j0, before), RowLost(c, j0, before, ip);
      RunAccounted(c, b, list, before, ip);
      JointNext(c, j0, before, e);
      StepAccounted(c, m, e, ip, lost);
      StepResolves(c, m, e);
      if ip in JointStep(c, m, e).list {
        LostNext(c, j0, before, e, ip);
      }
      AccountedMeans(JointStep(c, m, e), ip, lost || (e.LoopFails? && AwaitsRow(m.s, ip)), RowLost(c, j0, events, ip));
    }
  }

  lemma StepResolves(c: P.Config, j: Joint, e: P.Event)
    requires P.OnlyResolves(j.s) && InRange(j.s)
    ensures P.OnlyResolves(JointStep(c, j, e).s) && InRange(JointStep(c, j, e).s)
  {
    hide P.Apply, P.OnlyResolves, InRange, P.Grows;
    P.RowsGrow(c, j.s, e);
    StepInRange(c, j.s, e);
  }

  /**
   * Over every run of the protocol: a client that is blocked since the start has a pending or confirmed row, or the
   * loop awaits its row, or the loop failed right there and the client has been listed ever since.
   */
  lemma BlockedIsAccountedFor(c: P.Config, b: P.Start, list: seq<string>, events: seq<P.Event>, ip: string)
    requires ip !in list && ip in JointRun(c, Joint(P.Init(b), list), events).list
    ensures var j := Joint(P.Init(b), list);
            var s := P.Run(c, b, events);
            B.Active(s.rows, ip) || AwaitsRow(s, ip) || RowLost(c, j, events, ip)
  {
    hide JointRun, RowLost, AwaitsRow, P.RunFrom, P.OnlyResolves, InRange;
    RunAccounted(c, b, list, events, ip);
    JointRunIsRun(c, Joint(P.Init(b), list), events);
  }

  /** That does happen: the loop fails after its call, and the client stays listed without a row. */
  lemma FailedLoopLeavesBlock(c: P.Config, b: P.Start, a: Alert) returns (events: seq<P.Event>)
    requires b.rows == [] && c.maxActions >= 1 && P.Eligible(c, a) && b.lastAlert < a.id
    ensures var t := JointRun(c, Joint(P.Init(b), []), events);
            && t.s == P.Run(c, b, events) && t.list == [a.ip] && t.s.rows == []
            && t.s.loop.Sleeping? && t.s.lastSeen == a.id
  {
    hide JointRun, P.CreatedSince, P.Eligible, HasActive, P.RunFrom;
    var j := Joint(P.Init(b), []);
    var e1: seq<P.Event> := [] + [P.Poll([a])];
    var e2 := e1 + [P.CheckBreaker(b.now)];
    var e3 := e2 + [P.Consider];
    var e4 := e3 + [P.BlockCall(true)];
    NoJointEvents(c, j);
    NoRows(b.now - c.window, a.ip);
    JointNext(c, j, [], P.Poll([a]));
    JointNext(c, j, e1, P.CheckBreaker(b.now));
    JointNext(c, j, e2, P.Consider);
    JointNext(c, j, e3, P.BlockCall(true));
    JointNext(c, j, e4, P.LoopFails);
    events := e4 + [P.LoopFails];
    JointRunIsRun(c, j, events);
  }

  lemma NoRows(lo: real, ip: string)
    ensures P.CreatedSince([], lo) == 0 && !HasActive([], ip)
  {
  }

  /* ---- a run of the loops that ends with a pending action on a client that is not blocked ---- */

  /** A whole pass of the alert loop for one alert, from wherever the other tasks are. */
  lemma OnePass(c: P.Config, j: Joint, events: seq<P.Event>, a: Alert, now: real) returns (more: seq<P.Event>)
    requires var s := JointRun(c, j, events).s;
             && s.loop.Sleeping? && s.lastSeen < a.id && P.Eligible(c, a) && !HasActive(s.rows, a.ip) && now >= s.clock
             && P.CreatedSince(s.rows, now - c.window) < c.maxActions
    ensures var j0, t := JointRun(c, j, events), JointRun(c, j, more);
            && t.list == After(j0.list, Block(a.ip))
            && t.s == j0.s.(rows := j0.s.rows + [Action(a, Pending, now, Some(now + c.blockFor))], lastSeen := a.id,
                            clock := now, checks := t.s.checks)
  {
    hide JointRun, P.CreatedSince, P.CountEligible, P.Eligible, HasActive, After;
    var e1 := events + [P.Poll([a])];
    var e2 := e1 + [P.CheckBreaker(now)];
    var e3 := e2 + [P.Consider];
    var e4 := e3 + [P.BlockCall(true)];
    var e5 := e4 + [P.Insert(now)];
    JointNext(c, j, events, P.Poll([a]));
    JointNext(c, j, e1, P.CheckBreaker(now));
    JointNext(c, j, e2, P.Consider);
    JointNext(c, j, e3, P.BlockCall(true));
    JointNext(c, j, e4, P.Insert(now));
    JointNext(c, j, e5, P.Consider);
    assert [a][1..] == [];
    more := e5 + [P.Consider];
  }

  lemma OneRow(r: Action, lo: real, ip: string, now: real)
    ensures P.CreatedSince([], lo) == 0 && P.CreatedSince([r], lo) <= 1
    ensures !HasActive([], ip) && (r.status != Pending ==> !HasActive([r], ip))
    ensures IsDue(r, now) ==> P.DueRows([r], now) == [0]
  {
    assert [r][..0] == [];
    assert P.DueRows([], now) == [];
  }

  /** The expiry task selects row 0; the listener reads its undo callback and undoes it. */
  lemma SelectedThenUndone(c: P.Config, j: Joint, events: seq<P.Event>, r: Action, u: real) returns (more: seq<P.Event>)
    requires var m := JointRun(c, j, events);
             && m.s.rows == [r] && m.s.expiry.Waiting? && m.s.listener.Polling? && m.s.clock <= u && IsDue(r, u)
    ensures var m, t := JointRun(c, j, events), JointRun(c, j, more);
            && t.list == After(m.list, Unblock(r.alert.ip))
            && t.s == m.s.(rows := [r.(status := Undone)], clock := u, expiry := P.Expiring([0], []))
  {
    hide JointRun, P.DueRows, After;
    OneRow(r, u, "", u);
    var e1 := events + [P.SelectExpired(u)];
    var e2 := e1 + [P.ReadCallback(0, false)];
    JointNext(c, j, events, P.SelectExpired(u));
    JointNext(c, j, e1, P.ReadCallback(0, false));
    JointNext(c, j, e2, P.CommitCallback(true));
    more := e2 + [P.CommitCallback(true)];
  }

  /** The rest of the expiry pass, for a row that is not pending any more. */
  lemma StalePass(c: P.Config, j: Joint, events: seq<P.Event>) returns (more: seq<P.Event>)
    requires var m := JointRun(c, j, events); m.s.expiry == P.Expiring([0], []) && m.s.rows != []
    ensures var m, t := JointRun(c, j, events), JointRun(c, j, more);
            && t.list == After(m.list, Unblock(m.s.rows[0].alert.ip))
            && t.s.rows == m.s.rows[0 := m.s.rows[0].(status := Expired)]
  {
    hide JointRun, After;
    var e1 := events + [P.UnblockExpired(true)];
    JointNext(c, j, events, P.UnblockExpired(true));
    JointNext(c, j, e1, P.CommitExpired);
    more := e1 + [P.CommitExpired];
  }

  /**
   * The loops do make the stale release of the list model: the expiry task selects an action, the listener undoes it, a
   * new alert acts on the same client, and the expiry task unblocks the client under the new pending action.
   */
  lemma StaleExpiryUnblocksPending(c: P.Config, b: P.Start, x: Alert, y: Alert, u: real) returns (events: seq<P.Event>)
    requires b.rows == [] && c.maxActions >= 2 && u >= b.now && u > b.now + c.blockFor
    requires P.Eligible(c, x) && P.Eligible(c, y) && x.ip == y.ip && b.lastAlert < x.id < y.id
    ensures var t := JointRun(c, Joint(P.Init(b), []), events);
            && t.s == P.Run(c, b, events) && t.list == []
            && t.s.rows == [Action(x, Expired, b.now, Some(b.now + c.blockFor)),
                            Action(y, Pending, u, Some(u + c.blockFor))]
  {
    hide JointRun, P.CreatedSince, P.Eligible, HasActive, P.RunFrom;
    var j, r := Joint(P.Init(b), []), Action(x, Pending, b.now, Some(b.now + c.blockFor));
    NoJointEvents(c, j);
    OneRow(r, b.now - c.window, x.ip, u);
    OneRow(r.(status := Undone), u - c.window, x.ip, u);
    var e1 := OnePass(c, j, [], x, b.now);
    assert JointRun(c, j, e1).s.rows == [r];
    var e2 := SelectedThenUndone(c, j, e1, r, u);
    var e3 := OnePass(c, j, e2, y, u);
    events := StalePass(c, j, e3);
    ListGoesEmpty(x.ip);
    JointRunIsRun(c, j, events);
  }

  /** Block, undo, block again, and the stale release. */
  lemma ListGoesEmpty(ip: string)
    ensures After(After(After(After([], Block(ip)), Unblock(ip)), Block(ip)), Unblock(ip)) == []
  {
  }
}
