/** The response a research tool call builds from a run, and which runs it can be built from. */
module McpResponse {
  import RC = RunCodec

  predicate Text(v: RC.Value) { v.StrValue? }

  /** `list(...)` of strings. */
  predicate Texts(v: RC.Value) {
    (v.TupleValue? || v.ListValue?) && forall i :: 0 <= i < |v.items| ==> Text(v.items[i])
  }

  predicate IsA(v: RC.Value, cls: RC.Class) {
    v.ObjectValue? && v.cls == cls && |v.fields| == |RC.Declared(cls)|
  }

  predicate SourceFits(v: RC.Value) {
    && IsA(v, RC.SourceCandidate)
    && Text(v.fields[0]) && Text(v.fields[2]) && Text(v.fields[3]) && Text(v.fields[4]) && v.fields[6].IntValue?
    && Text(v.fields[11]) && Texts(v.fields[12])
  }

  predicate AssessmentFits(a: RC.Value) {
    && IsA(a, RC.EvidenceAssessment) && Text(a.fields[0]) && Text(a.fields[4])
    && a.fields[5].BoolValue? && a.fields[6].BoolValue? && Texts(a.fields[7])
  }

  predicate EvidenceFits(v: RC.Value) {
    && IsA(v, RC.EvidenceCandidate)
    && Text(v.fields[0]) && Texts(v.fields[4]) && Text(v.fields[5]) && Text(v.fields[6]) && Text(v.fields[7])
    && AssessmentFits(v.fields[8])
    && IsA(v.fields[10], RC.ContentRisk) && v.fields[10].fields[0].BoolValue?
  }

  predicate FirstIsText(v: RC.Value, cls: RC.Class) {
    IsA(v, cls) && |v.fields| > 0 && Text(v.fields[0])
  }

  predicate SourcesFit(v: RC.Value) {
    v.ListValue? && forall i :: 0 <= i < |v.items| ==> SourceFits(v.items[i])
  }

  predicate AllEvidenceFits(v: RC.Value) {
    v.ListValue? && forall i :: 0 <= i < |v.items| ==> EvidenceFits(v.items[i])
  }

  predicate FirstsAreTexts(v: RC.Value, cls: RC.Class) {
    v.ListValue? && forall i :: 0 <= i < |v.items| ==> FirstIsText(v.items[i], cls)
  }

  /** Every field the response shows has the type it shows it with; building the response raises otherwise. */
  predicate ResponseFits(run: RC.Value) {
    && IsA(run, RC.ResearchRun)
    && Text(run.fields[0]) && FirstIsText(run.fields[3], RC.ResearchRequest) && run.fields[6].EnumValue?
    && Text(run.fields[7]) && Text(run.fields[8]) && Text(run.fields[9])
    && SourcesFit(run.fields[10]) && AllEvidenceFits(run.fields[12])
    && FirstsAreTexts(run.fields[14], RC.ResearchError) && FirstsAreTexts(run.fields[15], RC.ResearchAuditEvent)
    && run.fields[16].IntValue? && (run.fields[17].NoneValue? || Text(run.fields[17]))
  }

  // ---------------------------------------------------------------- well-typed runs fit

  predicate WellTyped(run: RC.Value) { RC.Conforms(RC.Object(RC.ResearchRun), run) }

  lemma FieldTyped(cls: RC.Class, v: RC.Value, i: nat)
    requires RC.Conforms(RC.Object(cls), v) && i < |RC.Declared(cls)|
    ensures IsA(v, cls) && RC.Conforms(RC.Declared(cls)[i].ty, v.fields[i])
  {
  }

  lemma TextField(cls: RC.Class, v: RC.Value, i: nat)
    requires RC.Conforms(RC.Object(cls), v) && i < |RC.Declared(cls)| && RC.Declared(cls)[i].ty == RC.StrType
    ensures IsA(v, cls) && Text(v.fields[i])
  {
    FieldTyped(cls, v, i);
  }

  lemma TextsField(cls: RC.Class, v: RC.Value, i: nat)
    requires RC.Conforms(RC.Object(cls), v) && i < |RC.Declared(cls)| && RC.Declared(cls)[i].ty == RC.STRINGS
    ensures IsA(v, cls) && Texts(v.fields[i])
  {
    FieldTyped(cls, v, i);
  }

  lemma TypedSourceFits(v: RC.Value)
    requires RC.Conforms(RC.Object(RC.SourceCandidate), v)
    ensures SourceFits(v)
  {
    var c := RC.SourceCandidate;
    hide RC.Conforms;
    TextField(c, v, 0); TextField(c, v, 2); TextField(c, v, 3); TextField(c, v, 4); TextField(c, v, 11);
    TextsField(c, v, 12);
    FieldTyped(c, v, 6);
    IntIsInt(v.fields[6]);
  }

  lemma IntIsInt(v: RC.Value)
    requires RC.Conforms(RC.IntType, v)
    ensures v.IntValue?
  {
  }

  lemma BoolIsBool(v: RC.Value)
    requires RC.Conforms(RC.BoolType, v)
    ensures v.BoolValue?
  {
  }

  lemma TypedAssessmentFits(a: RC.Value)
    requires RC.Conforms(RC.Object(RC.EvidenceAssessment), a)
    ensures AssessmentFits(a)
  {
    var c := RC.EvidenceAssessment;
    hide RC.Conforms;
    TextField(c, a, 0); TextField(c, a, 4); TextsField(c, a, 7);
    FieldTyped(c, a, 5); FieldTyped(c, a, 6);
    BoolIsBool(a.fields[5]); BoolIsBool(a.fields[6]);
  }

  lemma TypedEvidenceFits(v: RC.Value)
    requires RC.Conforms(RC.Object(RC.EvidenceCandidate), v)
    ensures EvidenceFits(v)
  {
    var c := RC.EvidenceCandidate;
    hide RC.Conforms;
    TextField(c, v, 0); TextsField(c, v, 4); TextField(c, v, 5); TextField(c, v, 6); TextField(c, v, 7);
    FieldTyped(c, v, 8); FieldTyped(c, v, 10);
    TypedAssessmentFits(v.fields[8]);
    FieldTyped(RC.ContentRisk, v.fields[10], 0);
    BoolIsBool(v.fields[10].fields[0]);
  }

  lemma TypedList(cls: RC.Class, v: RC.Value)
    requires RC.Conforms(RC.ListOf(RC.Object(cls)), v)
    ensures v.ListValue? && forall i :: 0 <= i < |v.items| ==> RC.Conforms(RC.Object(cls), v.items[i])
  {
  }

  lemma TypedFirsts(cls: RC.Class, v: RC.Value)
    requires RC.Conforms(RC.ListOf(RC.Object(cls)), v)
    requires RC.Declared(cls) != [] && RC.Declared(cls)[0].ty == RC.StrType
    ensures FirstsAreTexts(v, cls)
  {
    TypedList(cls, v);
    forall i | 0 <= i < |v.items| ensures FirstIsText(v.items[i], cls) {
      TextField(cls, v.items[i], 0);
    }
  }

  /** A run whose fields have the types its class declares always fits the response. */
  lemma WellTypedFits(run: RC.Value)
    requires WellTyped(run)
    ensures ResponseFits(run)
  {
    TypedScalarsFit(run);
    TypedIs(run);
    hide WellTyped, RC.Conforms, SourcesFit, AllEvidenceFits, FirstsAreTexts, IsA, RC.Declared;
    ListTypes();
    ListField(run, 10, RC.SourceCandidate);
    ListField(run, 12, RC.EvidenceCandidate);
    ListField(run, 14, RC.ResearchError);
    ListField(run, 15, RC.ResearchAuditEvent);
    TypedFirsts(RC.ResearchError, run.fields[14]);
    TypedFirsts(RC.ResearchAuditEvent, run.fields[15]);
    TypedSourcesFit(run.fields[10]);
    TypedEvidencesFit(run.fields[12]);
  }

  lemma ListTypes()
    ensures var fields := RC.Declared(RC.ResearchRun);
      && |fields| == 20
      && fields[10].ty == RC.ListOf(RC.Object(RC.SourceCandidate))
      && fields[12].ty == RC.ListOf(RC.Object(RC.EvidenceCandidate))
      && fields[14].ty == RC.ListOf(RC.Object(RC.ResearchError))
      && fields[15].ty == RC.ListOf(RC.Object(RC.ResearchAuditEvent))
    ensures RC.Declared(RC.ResearchError) != [] && RC.Declared(RC.ResearchError)[0].ty == RC.StrType
    ensures RC.Declared(RC.ResearchAuditEvent) != [] && RC.Declared(RC.ResearchAuditEvent)[0].ty == RC.StrType
  {
  }

  lemma ListField(run: RC.Value, i: nat, cls: RC.Class)
    requires RC.Conforms(RC.Object(RC.ResearchRun), run) && i < |RC.Declared(RC.ResearchRun)|
    requires RC.Declared(RC.ResearchRun)[i].ty == RC.ListOf(RC.Object(cls))
    ensures IsA(run, RC.ResearchRun) && RC.Conforms(RC.ListOf(RC.Object(cls)), run.fields[i])
  {
    FieldTyped(RC.ResearchRun, run, i);
  }

  lemma TypedSourcesFit(v: RC.Value)
    requires RC.Conforms(RC.ListOf(RC.Object(RC.SourceCandidate)), v)
    ensures SourcesFit(v)
  {
    TypedList(RC.SourceCandidate, v);
    hide RC.Conforms, SourceFits;
    forall i | 0 <= i < |v.items| ensures SourceFits(v.items[i]) {
      TypedSourceFits(v.items[i]);
    }
  }

  lemma TypedEvidencesFit(v: RC.Value)
    requires RC.Conforms(RC.ListOf(RC.Object(RC.EvidenceCandidate)), v)
    ensures AllEvidenceFits(v)
  {
    TypedList(RC.EvidenceCandidate, v);
    hide RC.Conforms, EvidenceFits;
    forall i | 0 <= i < |v.items| ensures EvidenceFits(v.items[i]) {
      TypedEvidenceFits(v.items[i]);
    }
  }

  lemma TypedScalarsFit(run: RC.Value)
    requires WellTyped(run)
    ensures IsA(run, RC.ResearchRun) && |run.fields| == 20
    ensures Text(run.fields[0]) && FirstIsText(run.fields[3], RC.ResearchRequest) && run.fields[6].EnumValue?
    ensures Text(run.fields[7]) && Text(run.fields[8]) && Text(run.fields[9])
    ensures run.fields[16].IntValue? && (run.fields[17].NoneValue? || Text(run.fields[17]))
  {
    var c := RC.ResearchRun;
    hide WellTyped, RC.Conforms, RC.Declared;
    ScalarTypes();
    assert RC.Conforms(RC.Object(c), run) by { TypedIs(run); }
    TextField(c, run, 0); TextField(c, run, 7); TextField(c, run, 8); TextField(c, run, 9);
    FieldTyped(c, run, 3); FieldTyped(c, run, 6); FieldTyped(c, run, 16); FieldTyped(c, run, 17);
    TextField(RC.ResearchRequest, run.fields[3], 0);
    IntIsInt(run.fields[16]);
    StatusAndClaim(run.fields[6], run.fields[17]);
  }

  lemma ScalarTypes()
    ensures var fields := RC.Declared(RC.ResearchRun);
      && |fields| == 20
      && fields[0].ty == fields[7].ty == fields[8].ty == fields[9].ty == RC.StrType && fields[16].ty == RC.IntType
      && fields[3].ty == RC.Object(RC.ResearchRequest)
    ensures RC.Declared(RC.ResearchRequest) != [] && RC.Declared(RC.ResearchRequest)[0].ty == RC.StrType
  {
  }

  lemma StatusAndClaim(status: RC.Value, claim: RC.Value)
    requires RC.Conforms(RC.Declared(RC.ResearchRun)[6].ty, status)
    requires RC.Conforms(RC.Declared(RC.ResearchRun)[17].ty, claim)
    ensures status.EnumValue? && (claim.NoneValue? || Text(claim))
  {
  }

  lemma TypedIs(run: RC.Value)
    requires WellTyped(run)
    ensures RC.Conforms(RC.Object(RC.ResearchRun), run)
  {
  }
}
