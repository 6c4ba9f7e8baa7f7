/** The Guardian's table of actions, shared by the protocol and by the model of the disallowed list. */
module MitigationRows {
  import opened Wrappers

  datatype Alert = Alert(id: nat, ip: string, severity: string, source: string)

  datatype Status = Pending | Confirmed | Undone | Expired

  datatype Action = Action(alert: Alert, status: Status, created: real, expiresAt: Option<real>)

  /** `_has_active_action` */
  predicate HasActive(rows: seq<Action>, ip: string) {
    exists i | 0 <= i < |rows| :: rows[i].alert.ip == ip && rows[i].status == Pending
  }

  ghost predicate OnePending(rows: seq<Action>) {
    forall i, j | 0 <= i < j < |rows| && rows[i].status == Pending && rows[j].status == Pending ::
      rows[i].alert.ip != rows[j].alert.ip
  }

  /** What the expiry query selects. */
  predicate IsDue(r: Action, now: real) {
    r.status == Pending && r.expiresAt.Some? && r.expiresAt.value < now
  }

  lemma AppendKeepsOnePending(rows: seq<Action>, a: Action)
    requires OnePending(rows) && !HasActive(rows, a.alert.ip)
    ensures OnePending(rows + [a])
  {
  }

  lemma ActionsStayActive(rows: seq<Action>, a: Action)
    requires a.status == Pending
    ensures HasActive(rows + [a], a.alert.ip)
    ensures forall ip: string | HasActive(rows, ip) :: HasActive(rows + [a], ip)
  {
    assert (rows + [a])[|rows|] == a;
    forall ip: string | HasActive(rows, ip)
      ensures HasActive(rows + [a], ip)
    {
      var i :| 0 <= i < |rows| && rows[i].alert.ip == ip && rows[i].status == Pending;
      assert (rows + [a])[i] == rows[i];
    }
  }

  lemma NobodyActive(rows: seq<Action>, ip: string)
    requires forall i | 0 <= i < |rows| && rows[i].status == Pending :: rows[i].alert.ip != ip
    ensures !HasActive(rows, ip)
  {
  }

  lemma InactiveAfterAppend(rows: seq<Action>, a: Action, ip: string)
    requires !HasActive(rows, ip) && a.alert.ip != ip
    ensures !HasActive(rows + [a], ip)
  {
  }
}
