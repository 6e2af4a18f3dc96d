/** The logs of research runs, exported together, pass the offline validator. */
module ResearchExport {
  import opened Wrappers
  import opened ResearchContracts
  import R = ResearchAudit
  import opened AuditChain

  function Digits(n: nat): string {
    if n < 10 then ["0123456789"[n]] else Digits(n / 10) + ["0123456789"[n % 10]]
  }

  lemma {:induction false} DigitsHaveNoColon(n: nat)
    ensures Free(Digits(n), ':')
  {
    if n >= 10 {
      DigitsHaveNoColon(n / 10);
    }
  }

  function EventId(run: string, e: AuditEvent): string {
    run + (match e.kind case StatusTransitioned => RESEARCH_MARKER case EgressDecided => EGRESS_MARKER)
      + Digits(e.number)
  }

  /** An event as the export shows it; `body` writes everything but its id and its link. */
  function Exported(run: string, e: AuditEvent, body: AuditEvent -> int): CoreEvent {
    CoreEvent(Some(EventId(run, e)), body(e),
              if e.previous.None? then None else Some(Hash.HashOf(Exported(run, e.previous.value.event, body))))
  }

  function ExportedLog(run: string, audit: seq<AuditEvent>, body: AuditEvent -> int): seq<CoreEvent> {
    seq(|audit|, i requires 0 <= i < |audit| => Exported(run, audit[i], body))
  }

  /** A run's joined log is exported as a chain. */
  lemma ExportIsChain(run: string, audit: seq<AuditEvent>, body: AuditEvent -> int)
    requires R.Joined(audit)
    ensures Chain(ExportedLog(run, audit, body))
  {
    var st := ExportedLog(run, audit, body);
    forall i | 0 <= i < |st| ensures Linked(st, i) {
      assert R.JoinedAt(audit, i);
      assert i > 0 ==> audit[..i][i - 1] == audit[i - 1];
    }
  }

  /** Run ids are a fixed prefix and a UUID, so they hold no colon; both kinds of event then resolve to their run. */
  lemma ExportedResolves(run: string, e: AuditEvent, body: AuditEvent -> int)
    requires run != "" && Free(run, ':')
    ensures AuditStream(ResearchEvents, Exported(run, e, body)) == Some(run)
  {
    var x := Exported(run, e, body);
    DigitsHaveNoColon(e.number);
    match e.kind
    case StatusTransitioned =>
      TransitionIdResolves(run, Digits(e.number), x.body, x.previous);
    case EgressDecided =>
      forall i | 0 < i < |run| ensures !OccursAt(run + ":", RESEARCH_MARKER, i) {
        if i + |RESEARCH_MARKER| <= |run| + 1 {
          assert (run + ":")[i..i + |RESEARCH_MARKER|][0] == run[i];
        }
      }
      EgressIdResolves(run, Digits(e.number), x.body, x.previous);
  }

  /** The log shows exactly these runs' events, each run's in its own order, mixed in any way. */
  ghost predicate ExportOf(log: seq<CoreEvent>, names: seq<string>, runs: seq<RunData>, body: AuditEvent -> int) {
    && |names| == |runs|
    && (forall k :: 0 <= k < |names| ==> names[k] != "" && Free(names[k], ':'))
    && (forall i :: 0 <= i < |log| ==> FromSome(log[i], names, runs, body))
    && (forall k :: 0 <= k < |names| ==>
         Select(ResearchEvents, log, names[k]) == ExportedLog(names[k], runs[k].audit, body))
  }

  predicate FromSome(x: CoreEvent, names: seq<string>, runs: seq<RunData>, body: AuditEvent -> int) {
    exists k, j :: 0 <= k < |names| && k < |runs| && 0 <= j < |runs[k].audit|
      && x == Exported(names[k], runs[k].audit[j], body)
  }

  lemma {:induction false} SelectEmpty(log: seq<CoreEvent>, stream: string)
    requires forall i :: 0 <= i < |log| ==> AuditStream(ResearchEvents, log[i]) != Some(stream)
    ensures Select(ResearchEvents, log, stream) == []
  {
    if log != [] {
      SelectEmpty(log[..|log| - 1], stream);
    }
  }

  /** Whatever runs are exported together, in whatever mix, the validator accepts their log. */
  lemma RunLogsAccepted(log: seq<CoreEvent>, names: seq<string>, runs: seq<RunData>, body: AuditEvent -> int)
    requires ExportOf(log, names, runs, body)
    requires forall k :: 0 <= k < |runs| ==> R.LogInv(runs[k])
    ensures Accepted(ResearchEvents, log)
  {
    forall i | 0 <= i < |log|
      ensures exists k :: 0 <= k < |names| && AuditStream(ResearchEvents, log[i]) == Some(names[k])
    {
      assert FromSome(log[i], names, runs, body);
      var k, j :| 0 <= k < |names| && 0 <= j < |runs[k].audit| && log[i] == Exported(names[k], runs[k].audit[j], body);
      ExportedResolves(names[k], runs[k].audit[j], body);
    }
    forall stream ensures Chain(Select(ResearchEvents, log, stream)) {
      if k :| 0 <= k < |names| && names[k] == stream {
        ExportIsChain(stream, runs[k].audit, body);
      } else {
        SelectEmpty(log, stream);
      }
    }
  }
}
