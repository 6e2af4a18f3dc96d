/**
 The lifecycle half of the offline validator, which also recomputes every event's own hash, and the fact
 that whatever the deletion and hold service writes passes it, in any order that keeps streams in order.
 */
module LifecycleExport {
  import opened Wrappers
  import opened LifecycleContracts
  import R = LifecycleRepository
  import S = LifecycleService
  import Safety = LifecycleSafety

  /** One exported record: the hashed fields, whether a request id is there at all, and the claimed hash, if any. */
  datatype Record = Record(payload: Payload, named: bool, eventHash: Option<Hash>)

  function Select(log: seq<Record>, id: StreamId): seq<Record> {
    if log == [] then []
    else
      var last := log[|log| - 1];
      Select(log[..|log| - 1], id) + if last.payload.requestId == id then [last] else []
  }

  predicate Sound(r: Record) {
    r.named && r.eventHash == Some(HashOf(r.payload))
  }

  predicate Linked(st: seq<Record>, i: nat)
    requires i < |st|
  {
    st[i].payload.previous == if i == 0 then None else st[i - 1].eventHash
  }

  predicate Chain(st: seq<Record>) {
    forall i :: 0 <= i < |st| ==> Linked(st, i)
  }

  /** Every record carries its own hash, and every request id's records are chained by those hashes. */
  ghost predicate Accepted(log: seq<Record>) {
    && (forall i :: 0 <= i < |log| ==> Sound(log[i]))
    && (forall id :: Chain(Select(log, id)))
  }

  function TipHash(st: seq<Record>): Option<Hash> {
    if st == [] then None else st[|st| - 1].eventHash
  }

  lemma SelectAppend(log: seq<Record>, r: Record, id: StreamId)
    ensures Select(log + [r], id) == Select(log, id) + if r.payload.requestId == id then [r] else []
  {
    assert (log + [r])[..|log|] == log;
  }

  lemma ChainAppend(st: seq<Record>, r: Record)
    ensures Chain(st + [r]) <==> Chain(st) && r.payload.previous == TipHash(st)
  {
    var longer := st + [r];
    if Chain(longer) {
      assert Linked(longer, |st|);
      forall i | 0 <= i < |st| ensures Linked(st, i) {
        assert Linked(longer, i);
      }
    }
    if Chain(st) && r.payload.previous == TipHash(st) {
      forall i | 0 <= i < |longer| ensures Linked(longer, i) {
        if i < |st| {
          assert Linked(st, i);
        }
      }
    }
  }

  lemma AcceptedAppend(log: seq<Record>, r: Record)
    ensures Accepted(log + [r]) <==>
      Accepted(log) && Sound(r) && r.payload.previous == TipHash(Select(log, r.payload.requestId))
  {
    var longer := log + [r];
    forall id
      ensures Chain(Select(longer, id)) <==>
        Chain(Select(log, id)) && (r.payload.requestId == id ==> r.payload.previous == TipHash(Select(log, id)))
    {
      SelectAppend(log, r, id);
      ChainAppend(Select(log, id), r);
      assert Select(log, id) + [] == Select(log, id);
    }
    if Accepted(longer) {
      forall i | 0 <= i < |log| ensures Sound(log[i]) {
        assert longer[i] == log[i];
      }
      assert longer[|log|] == r;
    }
  }

  lemma {:induction false} RejectedPrefix(log: seq<Record>, n: nat)
    requires n <= |log| && !Accepted(log[..n])
    ensures !Accepted(log)
    decreases |log|
  {
    if n == |log| {
      assert log[..n] == log;
    } else {
      var shorter := log[..|log| - 1];
      assert shorter[..n] == log[..n] && log == shorter + [log[|log| - 1]];
      RejectedPrefix(shorter, n);
      AcceptedAppend(shorter, log[|log| - 1]);
    }
  }

  ghost predicate Remembers(previousByStream: map<StreamId, Hash>, log: seq<Record>) {
    forall id :: TipHash(Select(log, id)) == (if id in previousByStream then Some(previousByStream[id]) else None)
  }

  lemma RememberNext(previousByStream: map<StreamId, Hash>, log: seq<Record>, r: Record)
    requires Remembers(previousByStream, log) && r.eventHash.Some?
    ensures Remembers(previousByStream[r.payload.requestId := r.eventHash.value], log + [r])
  {
    var next := previousByStream[r.payload.requestId := r.eventHash.value];
    forall id ensures TipHash(Select(log + [r], id)) == (if id in next then Some(next[id]) else None) {
      SelectAppend(log, r, id);
      assert Select(log, id) + [] == Select(log, id);
    }
  }

  /** The one-pass lifecycle validator accepts exactly the logs whose streams are chains of correct hashes. */
  method ValidateLifecycle(log: seq<Record>) returns (ok: bool)
    ensures ok <==> Accepted(log)
  {
    hide Select;
    hide Accepted;
    var previousByStream: map<StreamId, Hash> := map[];
    NothingSeen();
    for i := 0 to |log|
      invariant Accepted(log[..i]) && Remembers(previousByStream, log[..i])
    {
      var r := log[i];
      assert log[..i + 1] == log[..i] + [r];
      AcceptedAppend(log[..i], r);
      if !r.named || r.eventHash.None? {
        RejectedPrefix(log, i + 1);
        return false;
      }
      var id := r.payload.requestId;
      var expected := if id in previousByStream then Some(previousByStream[id]) else None;
      if r.payload.previous != expected || r.eventHash.value != HashOf(r.payload) {
        RejectedPrefix(log, i + 1);
        return false;
      }
      RememberNext(previousByStream, log[..i], r);
      previousByStream := previousByStream[id := r.eventHash.value];
    }
    assert log[..|log|] == log;
    return true;
  }

  lemma NothingSeen()
    ensures Accepted([]) && Remembers(map[], [])
  {
  }

  // ---------------------------------------------------------------- what the service writes

  function ToRecord(e: LifecycleEvent): Record {
    Record(e.payload, true, Some(e.eventHash))
  }

  /**
   An export of one tenant: records of its events, in any order that keeps every exported stream whole
   and in order.
   */
  ghost predicate ExportOf(events: seq<LifecycleEvent>, tenant: Id, log: seq<Record>) {
    && (forall i :: 0 <= i < |log| ==>
         exists e :: e in R.Stream(events, tenant, log[i].payload.requestId) && log[i] == ToRecord(e))
    && (forall id :: InOrder(R.Stream(events, tenant, id), Select(log, id)))
  }

  predicate InOrder(st: seq<LifecycleEvent>, records: seq<Record>) {
    records == [] || (|records| == |st| && forall i :: 0 <= i < |st| ==> records[i] == ToRecord(st[i]))
  }

  /** Every such export, taken at any point of any run of the service, is accepted. */
  lemma ServiceLogsAccepted(acts: seq<S.Act>, ss: seq<S.Sys>, i: nat, tenant: Id, log: seq<Record>)
    requires S.History(acts, ss) && i <= |acts|
    requires ExportOf(ss[i].repo.events, tenant, log)
    ensures Accepted(log)
  {
    var events := ss[i].repo.events;
    forall n | 0 <= n < |log| ensures Sound(log[n]) {
      var id := log[n].payload.requestId;
      Safety.StreamsAreChains(acts, ss, i, tenant, id);
      var e :| e in R.Stream(events, tenant, id) && log[n] == ToRecord(e);
      var m :| 0 <= m < |R.Stream(events, tenant, id)| && R.Stream(events, tenant, id)[m] == e;
      assert Safety.Linked(R.Stream(events, tenant, id), m);
    }
    forall id ensures Chain(Select(log, id)) {
      Safety.StreamsAreChains(acts, ss, i, tenant, id);
      var st, records := R.Stream(events, tenant, id), Select(log, id);
      assert InOrder(st, records);
      forall n | 0 <= n < |records| ensures Linked(records, n) {
        assert Safety.Linked(st, n);
      }
    }
  }
}
