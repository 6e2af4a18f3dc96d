/**
 Several holders of one research run at once: a worker, a retry, a cancel, a late handoff. Each loads the row, changes
 its own copy, and saves it. The unique sequence numbers of the event table make a save a compare-and-swap on the log.
 */
module ResearchRaces {
  import opened Wrappers
  import opened DecisionContracts
  import opened ResearchContracts
  import opened ResearchAudit
  import opened ResearchStore

  /** The row, its event table, and the copies in memory. */
  datatype Sys = Sys(row: RunData, table: seq<AuditEvent>, copies: map<nat, RunData>)

  /** `Edit` stands for any change to a copy that leaves its identity, status and log alone. */
  datatype Act =
    | Load(holder: nat)
    | Transit(holder: nat, target: ResearchStatus, occurredAt: int, actor: Id, payload: Id, retry: bool)
    | Egress(holder: nat, occurredAt: int, actor: Id, payload: Id)
    | Edit(holder: nat, edited: RunData)
    | Save(holder: nat)

  predicate Accepts(s: Sys, holder: nat) {
    holder in s.copies && !Clashes(s.table, s.copies[holder].audit)
  }

  function Apply(s: Sys, a: Act): Sys {
    if a.Load? then s.(copies := s.copies[a.holder := s.row])
    else if a.holder !in s.copies then s
    else
      var d := s.copies[a.holder];
      match a
      case Load(_) => s
      case Transit(h, target, occurredAt, actor, payload, retry) =>
        s.(copies := s.copies[h := TransitionOn(d, target, occurredAt, actor, payload, retry).0])
      case Egress(h, occurredAt, actor, payload) => s.(copies := s.copies[h := EgressOn(d, occurredAt, actor, payload)])
      case Edit(h, edited) =>
        if edited.Key() == d.Key() && edited.status == d.status && edited.audit == d.audit
          then s.(copies := s.copies[h := edited]) else s
      case Save(h) => if Accepts(s, h) then s.(row := d, table := Merge(s.table, d.audit)) else s
  }

  ghost predicate History(acts: seq<Act>, ss: seq<Sys>) {
    && |ss| == |acts| + 1
    && LogInv(ss[0].row) && ss[0].table == ss[0].row.audit && ss[0].copies == map[]
    && forall i {:trigger acts[i]} :: 0 <= i < |acts| ==> ss[i + 1] == Apply(ss[i], acts[i])
  }

  predicate Inv(s: Sys) {
    && LogInv(s.row) && Joined(s.table)
    && forall h :: h in s.copies ==> LogInv(s.copies[h])
  }

  lemma ApplyKeeps(s: Sys, a: Act)
    requires Inv(s)
    ensures Inv(Apply(s, a)) && s.table <= Apply(s, a).table
  {
    if a.holder in s.copies {
      var d := s.copies[a.holder];
      match a
      case Transit(_, target, occurredAt, actor, payload, retry) =>
        TransitionKeepsLog(d, target, occurredAt, actor, payload, retry);
      case Egress(_, occurredAt, actor, payload) => EgressKeepsLog(d, occurredAt, actor, payload);
      case Save(_) =>
        if Accepts(s, a.holder) && |s.table| <= |d.audit| {
          assert forall i :: 0 <= i < |s.table| ==> s.table[i] == d.audit[i];
        }
      case _ =>
    }
  }

  lemma {:induction false} RunKeeps(acts: seq<Act>, ss: seq<Sys>, i: nat)
    requires History(acts, ss) && i <= |acts|
    ensures Inv(ss[i])
  {
    if i > 0 {
      RunKeeps(acts, ss, i - 1);
      assert ss[i] == Apply(ss[i - 1], acts[i - 1]);
      ApplyKeeps(ss[i - 1], acts[i - 1]);
    }
  }

  /** However the holders race, an event once stored is never lost or changed, and the stored log stays a joined log. */
  lemma {:induction false} EventsOnlyGrow(acts: seq<Act>, ss: seq<Sys>, i: nat, j: nat)
    requires History(acts, ss) && i <= j <= |acts|
    ensures ss[i].table <= ss[j].table && Joined(ss[j].table)
  {
    RunKeeps(acts, ss, j);
    if i < j {
      EventsOnlyGrow(acts, ss, i, j - 1);
      RunKeeps(acts, ss, j - 1);
      assert ss[j] == Apply(ss[j - 1], acts[j - 1]);
      ApplyKeeps(ss[j - 1], acts[j - 1]);
    }
  }

  /** Of two holders that start from one log and each append, the one that saves second is refused. */
  lemma SecondWriterRefused(s: Sys, holder: nat, base: seq<AuditEvent>, own: AuditEvent)
    requires holder in s.copies && base + [own] <= s.copies[holder].audit
    requires base < s.table && s.table[|base|] != own
    ensures !Accepts(s, holder)
  {
    var audit := s.copies[holder].audit;
    assert audit[|base|] == own;
  }

  // ---------------------------------------------------------------- does the row follow the log?

  /** The saver's own log is not behind the stored one. */
  predicate UpToDate(s: Sys, holder: nat) {
    holder in s.copies && |s.table| <= |s.copies[holder].audit|
  }

  /** Every accepted save before n comes from an up-to-date copy. */
  predicate SavesUpToDate(acts: seq<Act>, ss: seq<Sys>, n: nat)
    requires |ss| == |acts| + 1 && n <= |acts|
  {
    forall i :: 0 <= i < n && acts[i].Save? && Accepts(ss[i], acts[i].holder) ==> UpToDate(ss[i], acts[i].holder)
  }

  predicate Follows(s: Sys) { s.row.audit == s.table }

  /** An accepted save leaves the row at the end of the stored log if and only if its own log is not behind it. */
  lemma SaveFollowsExactly(s: Sys, holder: nat)
    requires Inv(s) && Accepts(s, holder)
    ensures Follows(Apply(s, Save(holder))) <==> UpToDate(s, holder)
  {
  }

  /** A copy that fell behind, saved without an event of its own, is accepted and puts the older row back. */
  lemma StaleSaveRegresses(s: Sys, holder: nat)
    requires Inv(s) && holder in s.copies && s.copies[holder].audit < s.table
    ensures Accepts(s, holder) && !UpToDate(s, holder)
    ensures Apply(s, Save(holder)).row == s.copies[holder] && Apply(s, Save(holder)).table == s.table
  {
  }

  lemma {:induction false} UpToDateFollows(acts: seq<Act>, ss: seq<Sys>, n: nat)
    requires History(acts, ss) && n <= |acts| && SavesUpToDate(acts, ss, n)
    ensures Follows(ss[n])
  {
    if n > 0 {
      UpToDateFollows(acts, ss, n - 1);
      RunKeeps(acts, ss, n - 1);
      assert ss[n] == Apply(ss[n - 1], acts[n - 1]);
      if acts[n - 1].Save? && Accepts(ss[n - 1], acts[n - 1].holder) {
        SaveFollowsExactly(ss[n - 1], acts[n - 1].holder);
      }
    }
  }

  /**
   Up to any point of any run, the row always stood at the end of the stored log if and only if every accepted save
   came from a copy whose own log was not behind.
   */
  lemma RowFollowsExactly(acts: seq<Act>, ss: seq<Sys>, n: nat)
    requires History(acts, ss) && n <= |acts|
    ensures (forall i :: 0 <= i <= n ==> Follows(ss[i])) <==> SavesUpToDate(acts, ss, n)
  {
    if SavesUpToDate(acts, ss, n) {
      forall i | 0 <= i <= n ensures Follows(ss[i]) {
        UpToDateFollows(acts, ss, i);
      }
    }
    if forall i :: 0 <= i <= n ==> Follows(ss[i]) {
      forall i | 0 <= i < n && acts[i].Save? && Accepts(ss[i], acts[i].holder) ensures UpToDate(ss[i], acts[i].holder) {
        RunKeeps(acts, ss, i);
        assert ss[i + 1] == Apply(ss[i], acts[i]);
        assert Follows(ss[i + 1]);
        SaveFollowsExactly(ss[i], acts[i].holder);
      }
    }
  }

  /** While saves are up to date, the row's status is the replay of the whole stored log. */
  lemma RowFollowsLog(acts: seq<Act>, ss: seq<Sys>, n: nat)
    requires History(acts, ss) && n <= |acts| && SavesUpToDate(acts, ss, n)
    ensures Follows(ss[n]) && Replay(ss[n].table) == Some(ss[n].row.status)
  {
    UpToDateFollows(acts, ss, n);
    RunKeeps(acts, ss, n);
    StatusIsReplay(ss[n].table);
  }

  /**
   An accepted save whose last event is not stored yet is up to date: so is every save after a transition or egress.
   */
  lemma NewsIsUpToDate(s: Sys, holder: nat)
    requires Accepts(s, holder) && s.copies[holder].audit != []
    requires s.copies[holder].audit[|s.copies[holder].audit| - 1] !in s.table
    ensures UpToDate(s, holder) && s.table < s.copies[holder].audit
  {
    var audit := s.copies[holder].audit;
    assert forall i :: 0 <= i < |audit| && i < |s.table| ==> audit[i] == s.table[i] && audit[i] in s.table;
  }

  predicate Final(status: ResearchStatus) { status.Completed? || status.Cancelled? }

  lemma {:induction false} FinalStays(audit: seq<AuditEvent>, n: nat)
    requires Joined(audit) && n <= |audit| && Final(StatusAfter(audit[..n]))
    ensures StatusAfter(audit) == StatusAfter(audit[..n])
  {
    if n == |audit| {
      assert audit[..n] == audit;
    } else {
      var init := audit[..|audit| - 1];
      assert init[..n] == audit[..n];
      assert JoinedAt(audit, |audit| - 1);
      forall i | 0 <= i < |init| ensures JoinedAt(init, i) {
        assert JoinedAt(audit, i);
        assert init[..i] == audit[..i];
      }
      FinalStays(init, n);
    }
  }

  /** While saves are up to date, a stored CANCELLED or COMPLETED run keeps that status, whatever is still in flight. */
  lemma FinalStatusSurvivesRaces(acts: seq<Act>, ss: seq<Sys>, i: nat, j: nat)
    requires History(acts, ss) && i <= j <= |acts| && SavesUpToDate(acts, ss, j)
    requires Final(ss[i].row.status)
    ensures ss[j].row.status == ss[i].row.status
  {
    RowFollowsLog(acts, ss, i);
    RowFollowsLog(acts, ss, j);
    RunKeeps(acts, ss, i);
    RunKeeps(acts, ss, j);
    EventsOnlyGrow(acts, ss, i, j);
    assert ss[j].table[..|ss[i].table|] == ss[i].table;
    FinalStays(ss[j].table, |ss[i].table|);
  }

  // ---------------------------------------------------------------- the run in which it does not

  /** A handoff and a cancel load the same run; the cancel is saved first; then the handoff saves what it attached. */
  function LateHandoff(row: RunData, attached: RunData, occurredAt: int, actor: Id): seq<Act> {
    [Load(0), Load(1), Transit(1, Cancelled, occurredAt, actor, 0, false), Save(1), Edit(0, attached), Save(0)]
  }

  function LateHandoffStates(row: RunData, attached: RunData, occurredAt: int, actor: Id): seq<Sys> {
    var cancelled := TransitionOn(row, Cancelled, occurredAt, actor, 0, false).0;
    [Sys(row, row.audit, map[]),
     Sys(row, row.audit, map[0 := row]),
     Sys(row, row.audit, map[0 := row, 1 := row]),
     Sys(row, row.audit, map[0 := row, 1 := cancelled]),
     Sys(cancelled, cancelled.audit, map[0 := row, 1 := cancelled]),
     Sys(cancelled, cancelled.audit, map[0 := attached, 1 := cancelled]),
     Sys(attached, cancelled.audit, map[0 := attached, 1 := cancelled])]
  }

  /**
   From any PARTIALLY_COMPLETED run this is a run of the machine: the row goes to CANCELLED and back, while the event
   table keeps the cancellation. The one save that is not up to date is the handoff's.
   */
  lemma LateHandoffUndoesCancel(row: RunData, file: Id, occurredAt: int, actor: Id)
    requires LogInv(row) && row.status.PartiallyCompleted?
    ensures var attached := row.(attachedTo := Some(file));
      var acts := LateHandoff(row, attached, occurredAt, actor);
      var ss := LateHandoffStates(row, attached, occurredAt, actor);
      && History(acts, ss) && SavesUpToDate(acts, ss, 5) && !SavesUpToDate(acts, ss, 6)
      && ss[4].row.status == Cancelled
      && ss[6].row == attached && ss[6].row.status == PartiallyCompleted
      && Replay(ss[6].table) == Some(Cancelled)
  {
    var attached := row.(attachedTo := Some(file));
    hide LogInv, TransitionOn, History, Replay, Clashes;
    CancelAppends(row, occurredAt, actor);
    LateHandoffRuns(row, attached, occurredAt, actor);
    LateHandoffSaves(row, attached, occurredAt, actor);
    hide SavesUpToDate;
  }

  /** A cancellation only adds to the log, so neither log clashes with the other. */
  lemma CancelAppends(row: RunData, occurredAt: int, actor: Id)
    requires LogInv(row) && row.status.PartiallyCompleted?
    ensures var cancelled := TransitionOn(row, Cancelled, occurredAt, actor, 0, false).0;
      && cancelled.status == Cancelled && |cancelled.audit| == |row.audit| + 1
      && !Clashes(row.audit, cancelled.audit) && !Clashes(cancelled.audit, row.audit)
      && Replay(cancelled.audit) == Some(Cancelled)
  {
    var (cancelled, moved) := TransitionOn(row, Cancelled, occurredAt, actor, 0, false);
    TransitionKeepsLog(row, Cancelled, occurredAt, actor, 0, false);
    assert cancelled.audit == row.audit + [moved.value];
    assert forall i :: 0 <= i < |row.audit| ==> cancelled.audit[i] == row.audit[i];
    StatusIsReplay(cancelled.audit);
  }

  lemma LateHandoffSaves(row: RunData, attached: RunData, occurredAt: int, actor: Id)
    requires attached.audit == row.audit
    requires var cancelled := TransitionOn(row, Cancelled, occurredAt, actor, 0, false).0;
      |cancelled.audit| == |row.audit| + 1 && !Clashes(cancelled.audit, row.audit)
    ensures var acts := LateHandoff(row, attached, occurredAt, actor);
      var ss := LateHandoffStates(row, attached, occurredAt, actor);
      SavesUpToDate(acts, ss, 5) && !SavesUpToDate(acts, ss, 6)
  {
    hide TransitionOn, Clashes;
    assert LateHandoff(row, attached, occurredAt, actor)[3] == Save(1);
    assert LateHandoff(row, attached, occurredAt, actor)[5] == Save(0);
  }

  lemma LateHandoffRuns(row: RunData, attached: RunData, occurredAt: int, actor: Id)
    requires LogInv(row) && row.status.PartiallyCompleted? && attached == row.(attachedTo := attached.attachedTo)
    ensures History(LateHandoff(row, attached, occurredAt, actor), LateHandoffStates(row, attached, occurredAt, actor))
  {
    var acts, ss := LateHandoff(row, attached, occurredAt, actor), LateHandoffStates(row, attached, occurredAt, actor);
    CancelAppends(row, occurredAt, actor);
    hide TransitionOn, Clashes, LogInv, Replay;
    assert ss[1] == Apply(ss[0], acts[0]);
    assert ss[2] == Apply(ss[1], acts[1]);
    assert ss[3] == Apply(ss[2], acts[2]);
    assert ss[4] == Apply(ss[3], acts[3]);
    assert ss[5] == Apply(ss[4], acts[4]);
    assert ss[6] == Apply(ss[5], acts[5]);
  }
}
