/** The research store: one row per run with its provider budget, and the append-only check on its saved log. */
module ResearchStore {
  import opened Wrappers
  import opened DecisionContracts
  import opened ResearchContracts
  import opened ResearchAudit

  datatype SaveError = RunNotFound | AuditConflict
  datatype BudgetError = RunUnknown | BudgetSpent

  /**
   The event table of a run, by sequence number. Ids and sequence numbers are both unique there, and on the logs of
   runs an id carries its sequence number, so two logs clash where they differ at one place.
   */
  predicate Clashes(table: seq<AuditEvent>, audit: seq<AuditEvent>) {
    exists i :: 0 <= i < |table| && i < |audit| && table[i] != audit[i]
  }

  /** The table after a save: events are inserted, never changed or removed. */
  function Merge(table: seq<AuditEvent>, audit: seq<AuditEvent>): seq<AuditEvent> {
    if |table| <= |audit| then audit else table
  }

  function EventsAt(events: map<(Id, Id), seq<AuditEvent>>, key: (Id, Id)): seq<AuditEvent> {
    if key in events then events[key] else []
  }

  /** The stored run that a proposal stands for, when it is not the one with the same fingerprint. */
  predicate Converges(stored: RunData, proposed: RunData) {
    stored.tenant == proposed.tenant && stored.request == proposed.request
      && stored.expectedHash == proposed.expectedHash
  }

  /** A stored run that answers a proposal: the one with its id, or else one it converges to. */
  predicate StandsFor(runs: map<(Id, Id), RunData>, d: RunData, proposed: RunData) {
    if proposed.Key() in runs then d == runs[proposed.Key()]
    else exists k :: k in runs && runs[k] == d && Converges(d, proposed)
  }

  class ResearchRepository {
    var runs: map<(Id, Id), RunData>
    var used: map<(Id, Id), nat>
    var events: map<(Id, Id), seq<AuditEvent>>

    /** A run id digests the semantic fingerprint, so the row with the fingerprint is the row with the id. */
    method CreateOrGet(proposed: RunData) returns (d: RunData)
      modifies this
      ensures var created :=
          proposed.Key() !in old(runs) && forall k :: k in old(runs) ==> !Converges(old(runs)[k], proposed);
        && runs == (if created then old(runs)[proposed.Key() := proposed] else old(runs))
        && used == (if created then old(used)[proposed.Key() := 0] else old(used))
        && events == old(events)
        && (created ==> d == proposed)
        && (!created ==> StandsFor(old(runs), d, proposed))
    {
      if proposed.Key() in runs {
        return runs[proposed.Key()];
      }
      if k :| k in runs && Converges(runs[k], proposed) {
        return runs[k];
      }
      runs := runs[proposed.Key() := proposed];
      used := used[proposed.Key() := 0];
      return proposed;
    }

    /** All of a save or nothing: the row is replaced and the new events are inserted, unless the logs clash. */
    method Save(d: RunData) returns (r: Result<(), SaveError>)
      modifies this`runs, this`events
      ensures r.Failure? <==> d.Key() !in old(runs) || Clashes(EventsAt(old(events), d.Key()), d.audit)
      ensures runs == if r.Success? then old(runs)[d.Key() := d] else old(runs)
      ensures events == if r.Success? then old(events)[d.Key() := Merge(EventsAt(old(events), d.Key()), d.audit)]
              else old(events)
    {
      if d.Key() !in runs {
        return Failure(RunNotFound);
      }
      var table := EventsAt(events, d.Key());
      for i := 0 to |d.audit|
        invariant forall j :: 0 <= j < i && j < |table| ==> table[j] == d.audit[j]
      {
        if i < |table| && table[i] != d.audit[i] {
          return Failure(AuditConflict);
        }
      }
      runs := runs[d.Key() := d];
      events := events[d.Key() := Merge(table, d.audit)];
      return Success(());
    }

    /** One unit is taken exactly when some is left; the use never passes the limit. */
    method ReserveBudget(key: (Id, Id), limit: nat) returns (r: Result<nat, BudgetError>)
      modifies this`used
      ensures r.Success? <==> key in old(used) && old(used)[key] < limit
      ensures r.Success? ==> used == old(used)[key := r.value] && r.value == old(used)[key] + 1 <= limit
      ensures r.Failure? ==> used == old(used) && r.error == if key in used then BudgetSpent else RunUnknown
    {
      if key !in used {
        return Failure(RunUnknown);
      }
      if used[key] >= limit {
        return Failure(BudgetSpent);
      }
      used := used[key := used[key] + 1];
      return Success(used[key]);
    }
  }

  /** A log that only grew since it was saved never clashes, and replaces the saved one. */
  lemma GrownLogSaves(table: seq<AuditEvent>, audit: seq<AuditEvent>)
    requires table <= audit
    ensures !Clashes(table, audit) && Merge(table, audit) == audit
  {
  }
}
