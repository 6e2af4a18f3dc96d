/**
 The offline validator of exported audit logs. One pass over each log, remembering the last hash seen
 of every stream, decides whether every stream is an unbroken hash chain.
 */
module AuditChain {
  import opened Wrappers

  /** A collision-free hash of an event, or any other string standing where a hash should be. */
  datatype Hash = HashOf(event: CoreEvent) | NotAHash(text: string)

  /** An exported core event; `body` is everything but its id and its link. */
  datatype CoreEvent = CoreEvent(eventId: Option<string>, body: int, previous: Option<Hash>)

  datatype Member = DecisionEvents | IntakeEvents | ResearchEvents

  // ---------------------------------------------------------------- which stream an event belongs to

  predicate OccursAt(s: string, m: string, i: int) {
    0 <= i <= |s| - |m| && s[i..i + |m|] == m
  }

  /** The start of the last occurrence of `m` in `s`, as `rsplit(m, 1)` finds it. */
  function LastOccurrence(s: string, m: string, upTo: nat): (r: Option<nat>)
    ensures r.None? ==> forall i :: 0 <= i < upTo ==> !OccursAt(s, m, i)
    ensures r.Some? ==> r.value < upTo && OccursAt(s, m, r.value)
    ensures r.Some? ==> forall i :: r.value < i < upTo ==> !OccursAt(s, m, i)
  {
    if upTo == 0 then None
    else if OccursAt(s, m, upTo - 1) then Some(upTo - 1)
    else LastOccurrence(s, m, upTo - 1)
  }

  const INTAKE_MARKER := ":intake-audit:"
  const RESEARCH_MARKER := ":research-audit:"
  const EGRESS_MARKER := ":egress:"

  /** The text before the last marker; `None` when the marker is missing or nothing stands before it. */
  function BeforeMarker(id: string, marker: string): Option<string> {
    match LastOccurrence(id, marker, |id|)
    case None => None
    case Some(i) => if i == 0 then None else Some(id[..i])
  }

  /** The first marker that leaves a non-empty stream decides; `None` rejects the event. */
  function AuditStream(member: Member, e: CoreEvent): Option<string> {
    match member
    case DecisionEvents => Some("decision")
    case IntakeEvents => if e.eventId.None? then None else BeforeMarker(e.eventId.value, INTAKE_MARKER)
    case ResearchEvents =>
      if e.eventId.None? then None
      else
        var byTransition := BeforeMarker(e.eventId.value, RESEARCH_MARKER);
        if byTransition.Some? then byTransition else BeforeMarker(e.eventId.value, EGRESS_MARKER)
  }

  predicate Free(s: string, c: char) {
    c !in s
  }

  /** An id written as stream, marker, number is resolved to its stream, whatever the stream contains. */
  lemma TransitionIdResolves(stream: string, number: string, body: int, previous: Option<Hash>)
    requires stream != "" && Free(number, ':')
    ensures AuditStream(ResearchEvents, CoreEvent(Some(stream + RESEARCH_MARKER + number), body, previous)) ==
            Some(stream)
    ensures AuditStream(IntakeEvents, CoreEvent(Some(stream + INTAKE_MARKER + number), body, previous)) == Some(stream)
  {
    LastMarkerEndsStream(stream, RESEARCH_MARKER, number);
    LastMarkerEndsStream(stream, INTAKE_MARKER, number);
    assert (stream + RESEARCH_MARKER + number)[..|stream|] == stream;
    assert (stream + INTAKE_MARKER + number)[..|stream|] == stream;
  }

  /** A marker closes with a colon, so no occurrence can start after the one before a colon-free number. */
  lemma LastMarkerEndsStream(stream: string, marker: string, number: string)
    requires |marker| >= 2 && marker[0] == ':' && marker[|marker| - 1] == ':' && Free(number, ':')
    requires forall i :: 0 < i < |marker| - 1 ==> marker[i] != ':'
    ensures LastOccurrence(stream + marker + number, marker, |stream + marker + number|) == Some(|stream|)
  {
    var id := stream + marker + number;
    assert OccursAt(id, marker, |stream|) by {
      assert id[|stream|..|stream| + |marker|] == marker;
    }
    forall i | |stream| < i < |id| ensures !OccursAt(id, marker, i) {
      var end := i + |marker| - 1;
      if end < |id| {
        assert id[end] == number[end - |stream| - |marker|];
        assert id[i..i + |marker|][|marker| - 1] == id[end];
      }
    }
  }

  /**
   An egress id is resolved to its run exactly when the run id, with the colon that follows it, does not carry
   the transition marker after its first character.
   */
  lemma EgressIdResolves(stream: string, number: string, body: int, previous: Option<Hash>)
    requires stream != "" && Free(number, ':')
    ensures AuditStream(ResearchEvents, CoreEvent(Some(stream + EGRESS_MARKER + number), body, previous)) ==
            Some(stream)
        <==> forall i :: 0 < i < |stream| ==> !OccursAt(stream + ":", RESEARCH_MARKER, i)
  {
    var id := stream + EGRESS_MARKER + number;
    LastMarkerEndsStream(stream, EGRESS_MARKER, number);
    assert id[..|stream|] == stream;
    forall i | 0 <= i < |id| ensures OccursAt(id, RESEARCH_MARKER, i) <==> OccursAt(stream + ":", RESEARCH_MARKER, i) {
      EgressHidesNoMarker(stream, number, i);
    }
    match LastOccurrence(id, RESEARCH_MARKER, |id|)
    case None =>
    case Some(last) =>
      assert OccursAt(stream + ":", RESEARCH_MARKER, last);
      assert |id[..last]| == last < |stream|;
  }

  /** The transition marker cannot reach into the egress marker. */
  lemma PastTheColon(stream: string, number: string, i: nat)
    requires Free(number, ':') && i + |RESEARCH_MARKER| > |stream| + 1
    ensures !OccursAt(stream + EGRESS_MARKER + number, RESEARCH_MARKER, i)
  {
    var id, m := stream + EGRESS_MARKER + number, RESEARCH_MARKER;
    var end := i + |m| - 1;
    if end < |id| {
      var cut := id[i..i + |m|];
      assert cut[|m| - 1] == id[end];
      if end >= |stream| + |EGRESS_MARKER| {
        assert id[end] == number[end - |stream| - |EGRESS_MARKER|];
      } else {
        assert id[end] == EGRESS_MARKER[end - |stream|];
        if end == |stream| + 7 {
          assert cut[8] == id[|stream|] == EGRESS_MARKER[0];
        }
      }
    }
  }

  lemma EgressHidesNoMarker(stream: string, number: string, i: nat)
    requires Free(number, ':')
    ensures OccursAt(stream + EGRESS_MARKER + number, RESEARCH_MARKER, i) <==>
            OccursAt(stream + ":", RESEARCH_MARKER, i)
  {
    var id, m := stream + EGRESS_MARKER + number, RESEARCH_MARKER;
    if OccursAt(id, m, i) {
      if i + |m| > |stream| + 1 {
        PastTheColon(stream, number, i);
      } else {
        assert (stream + ":")[i..i + |m|] == id[i..i + |m|];
      }
    }
    if OccursAt(stream + ":", m, i) {
      assert id[i..i + |m|] == (stream + ":")[i..i + |m|];
    }
  }

  // ---------------------------------------------------------------- chains

  /** The events of one stream, in log order. */
  function Select(member: Member, events: seq<CoreEvent>, stream: string): seq<CoreEvent> {
    if events == [] then []
    else
      var last := events[|events| - 1];
      Select(member, events[..|events| - 1], stream) + if AuditStream(member, last) == Some(stream) then [last] else []
  }

  predicate Linked(st: seq<CoreEvent>, i: nat)
    requires i < |st|
  {
    st[i].previous == if i == 0 then None else Some(HashOf(st[i - 1]))
  }

  predicate Chain(st: seq<CoreEvent>) {
    forall i :: 0 <= i < |st| ==> Linked(st, i)
  }

  /** What the validator is meant to check: every event has a stream and every stream is a chain. */
  ghost predicate Accepted(member: Member, events: seq<CoreEvent>) {
    && (forall i :: 0 <= i < |events| ==> AuditStream(member, events[i]).Some?)
    && (forall stream :: Chain(Select(member, events, stream)))
  }

  function TipHash(st: seq<CoreEvent>): Option<Hash> {
    if st == [] then None else Some(HashOf(st[|st| - 1]))
  }

  lemma SelectAppend(member: Member, events: seq<CoreEvent>, e: CoreEvent, stream: string)
    ensures Select(member, events + [e], stream)
         == Select(member, events, stream) + if AuditStream(member, e) == Some(stream) then [e] else []
  {
    assert (events + [e])[..|events|] == events;
  }

  lemma ChainAppend(st: seq<CoreEvent>, e: CoreEvent)
    ensures Chain(st + [e]) <==> Chain(st) && e.previous == TipHash(st)
  {
    var longer := st + [e];
    if Chain(longer) {
      assert Linked(longer, |st|);
      forall i | 0 <= i < |st| ensures Linked(st, i) {
        assert Linked(longer, i);
      }
    }
    if Chain(st) && e.previous == TipHash(st) {
      forall i | 0 <= i < |longer| ensures Linked(longer, i) {
        if i < |st| {
          assert Linked(st, i);
        }
      }
    }
  }

  /** One more event is accepted exactly when it links to the tip of its own stream. */
  lemma AcceptedAppend(member: Member, events: seq<CoreEvent>, e: CoreEvent)
    ensures Accepted(member, events + [e]) <==>
      && Accepted(member, events)
      && AuditStream(member, e).Some?
      && e.previous == TipHash(Select(member, events, AuditStream(member, e).value))
  {
    var longer := events + [e];
    forall stream
      ensures Chain(Select(member, longer, stream)) <==>
        && Chain(Select(member, events, stream))
        && (AuditStream(member, e) == Some(stream) ==> e.previous == TipHash(Select(member, events, stream)))
    {
      SelectAppend(member, events, e, stream);
      ChainAppend(Select(member, events, stream), e);
      assert Select(member, events, stream) + [] == Select(member, events, stream);
    }
    if Accepted(member, longer) {
      forall i | 0 <= i < |events| ensures AuditStream(member, events[i]).Some? {
        assert longer[i] == events[i];
      }
      assert longer[|events|] == e;
    }
  }

  lemma {:induction false} PrefixAccepted(member: Member, events: seq<CoreEvent>, n: nat)
    requires n <= |events| && Accepted(member, events)
    ensures Accepted(member, events[..n])
    decreases |events|
  {
    if n == |events| {
      assert events[..n] == events;
    } else {
      var shorter := events[..|events| - 1];
      assert events == shorter + [events[|events| - 1]];
      AcceptedAppend(member, shorter, events[|events| - 1]);
      PrefixAccepted(member, shorter, n);
      assert shorter[..n] == events[..n];
    }
  }

  /** The dictionary holds the last hash of every stream seen so far. */
  ghost predicate Remembers(previousByStream: map<string, Hash>, member: Member, events: seq<CoreEvent>) {
    forall stream ::
      TipHash(Select(member, events, stream)) ==
        (if stream in previousByStream then Some(previousByStream[stream]) else None)
  }

  lemma RememberNext(previousByStream: map<string, Hash>, member: Member, events: seq<CoreEvent>, e: CoreEvent)
    requires Remembers(previousByStream, member, events) && AuditStream(member, e).Some?
    ensures Remembers(previousByStream[AuditStream(member, e).value := HashOf(e)], member, events + [e])
  {
    var next := previousByStream[AuditStream(member, e).value := HashOf(e)];
    forall stream
      ensures TipHash(Select(member, events + [e], stream)) == (if stream in next then Some(next[stream]) else None)
    {
      SelectAppend(member, events, e, stream);
      assert Select(member, events, stream) + [] == Select(member, events, stream);
    }
  }

  /** The one-pass validator with its dictionary of last hashes accepts exactly the chained logs. */
  method ValidateCore(member: Member, events: seq<CoreEvent>) returns (ok: bool)
    ensures ok <==> Accepted(member, events)
  {
    hide AuditStream;
    hide Accepted;
    hide Select;
    var previousByStream: map<string, Hash> := map[];
    NothingSeen(member);
    for i := 0 to |events|
      invariant Accepted(member, events[..i]) && Remembers(previousByStream, member, events[..i])
    {
      var e := events[i];
      assert events[..i + 1] == events[..i] + [e];
      AcceptedAppend(member, events[..i], e);
      var stream := AuditStream(member, e);
      if stream.None? {
        RejectedPrefix(member, events, i + 1);
        return false;
      }
      if stream.value !in previousByStream {
        if e.previous.Some? {
          RejectedPrefix(member, events, i + 1);
          return false;
        }
      } else if e.previous != Some(previousByStream[stream.value]) {
        RejectedPrefix(member, events, i + 1);
        return false;
      }
      RememberNext(previousByStream, member, events[..i], e);
      previousByStream := previousByStream[stream.value := HashOf(e)];
    }
    assert events[..|events|] == events;
    return true;
  }

  lemma NothingSeen(member: Member)
    ensures Accepted(member, []) && Remembers(map[], member, [])
  {
  }

  lemma RejectedPrefix(member: Member, events: seq<CoreEvent>, n: nat)
    requires n <= |events| && !Accepted(member, events[..n])
    ensures !Accepted(member, events)
  {
    if Accepted(member, events) {
      PrefixAccepted(member, events, n);
    }
  }

  // ---------------------------------------------------------------- what acceptance means

  lemma {:induction false} SelectConcat(member: Member, a: seq<CoreEvent>, b: seq<CoreEvent>, stream: string)
    ensures Select(member, a + b, stream) == Select(member, a, stream) + Select(member, b, stream)
  {
    if b == [] {
      assert a + b == a;
    } else {
      var init, last := b[..|b| - 1], b[|b| - 1];
      assert a + b == (a + init) + [last] && b == init + [last];
      SelectAppend(member, a + init, last, stream);
      SelectAppend(member, init, last, stream);
      SelectConcat(member, a, init, stream);
    }
  }

  /** `b` is `a` reordered without reordering any one stream. */
  ghost predicate Shuffle(member: Member, a: seq<CoreEvent>, b: seq<CoreEvent>) {
    && multiset(a) == multiset(b)
    && forall stream :: Select(member, a, stream) == Select(member, b, stream)
  }

  lemma ShuffledEventsKnown(member: Member, a: seq<CoreEvent>, b: seq<CoreEvent>)
    requires multiset(a) == multiset(b) && forall i :: 0 <= i < |a| ==> AuditStream(member, a[i]).Some?
    ensures forall i :: 0 <= i < |b| ==> AuditStream(member, b[i]).Some?
  {
    forall i | 0 <= i < |b| ensures AuditStream(member, b[i]).Some? {
      assert b[i] in multiset(b);
      assert b[i] in a;
    }
  }

  /** Any shuffle that keeps per-stream order is accepted too. */
  lemma ShuffleAccepted(member: Member, a: seq<CoreEvent>, b: seq<CoreEvent>)
    requires Shuffle(member, a, b)
    ensures Accepted(member, a) <==> Accepted(member, b)
  {
    if Accepted(member, a) { ShuffledEventsKnown(member, a, b); }
    if Accepted(member, b) { ShuffledEventsKnown(member, b, a); }
  }

  lemma PairSelect(member: Member, before: seq<CoreEvent>, x: CoreEvent, y: CoreEvent, stream: string)
    requires AuditStream(member, x) != AuditStream(member, y)
    ensures Select(member, before + [x] + [y], stream) == Select(member, before + [y] + [x], stream)
  {
    hide AuditStream;
    hide Select;
    SelectAppend(member, before + [x], y, stream);
    SelectAppend(member, before, x, stream);
    SelectAppend(member, before + [y], x, stream);
    SelectAppend(member, before, y, stream);
    assert Select(member, before, stream) + [] == Select(member, before, stream);
  }

  /** Swapping neighbours of different streams is such a shuffle. */
  lemma NeighboursShuffle(member: Member, before: seq<CoreEvent>, x: CoreEvent, y: CoreEvent, after: seq<CoreEvent>)
    requires AuditStream(member, x) != AuditStream(member, y)
    ensures Shuffle(member, before + [x] + [y] + after, before + [y] + [x] + after)
  {
    hide AuditStream;
    hide Select;
    forall stream
      ensures Select(member, before + [x] + [y] + after, stream) == Select(member, before + [y] + [x] + after, stream)
    {
      SelectConcat(member, before + [x] + [y], after, stream);
      SelectConcat(member, before + [y] + [x], after, stream);
      PairSelect(member, before, x, y, stream);
    }
  }

  /** Two chains that meet in one event are equal up to it: its hash pins down everything before it. */
  lemma {:induction false} ChainsAgreeUpTo(a: seq<CoreEvent>, b: seq<CoreEvent>, i: nat, j: nat)
    requires Chain(a) && Chain(b) && i < |a| && j < |b| && a[i] == b[j]
    ensures i == j && a[..i + 1] == b[..j + 1]
  {
    assert Linked(a, i) && Linked(b, j);
    if i > 0 && j > 0 {
      ChainsAgreeUpTo(a, b, i - 1, j - 1);
      assert a[..i + 1] == a[..i] + [a[i]] && b[..j + 1] == b[..j] + [b[j]];
    } else {
      assert a[..i + 1] == [a[i]] && b[..j + 1] == [b[j]];
    }
  }

  /** So two accepted logs whose streams end in the same event have the same stream throughout. */
  lemma TipPinsStream(member: Member, x: seq<CoreEvent>, y: seq<CoreEvent>, stream: string)
    requires Accepted(member, x) && Accepted(member, y)
    requires var a, b := Select(member, x, stream), Select(member, y, stream);
      a != [] && b != [] && a[|a| - 1] == b[|b| - 1]
    ensures Select(member, x, stream) == Select(member, y, stream)
  {
    var a, b := Select(member, x, stream), Select(member, y, stream);
    hide Select, Chain;
    ChainsAgreeUpTo(a, b, |a| - 1, |b| - 1);
    assert a[..|a|] == a && b[..|b|] == b;
  }

  /**
   What the validator cannot see: a stream cut off at its end is still a chain. Among non-empty streams built
   from events of an accepted one, the accepted ones are exactly its beginnings.
   */
  lemma OnlyTruncationPasses(st: seq<CoreEvent>, cut: seq<CoreEvent>)
    requires Chain(st) && cut != [] && cut[|cut| - 1] in st
    ensures Chain(cut) <==> cut <= st
  {
    var i :| 0 <= i < |st| && st[i] == cut[|cut| - 1];
    if Chain(cut) {
      ChainsAgreeUpTo(st, cut, i, |cut| - 1);
      assert cut[..|cut|] == cut;
    }
    if cut <= st {
      forall j | 0 <= j < |cut| ensures Linked(cut, j) {
        assert Linked(st, j);
      }
    }
  }
}
