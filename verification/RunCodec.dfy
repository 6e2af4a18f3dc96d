/**
 Writing a research run as plain data and reading it back. Writing forgets which lists were tuples, which texts were
 enum members and which records were objects of which class. What the classes declare and what the reader does with
 each field are two tables here, and the theorem is that they agree.
 */
module RunCodec {
  import opened Wrappers

  datatype Class =
    | FreshnessPolicy | ResearchRequest | SourceCandidate | ContentRisk | SourceSnapshot | EvidenceAssessment
    | Provenance
    | EvidenceCandidate | ResearchAttempt | ProviderError | ResearchError | ResearchAuditEvent | ResearchRun

  /** A Python value; an object's fields are identified by their place in its class. */
  datatype Value =
    | NoneValue
    | BoolValue(b: bool)
    | IntValue(n: int)
    | FloatValue(x: real)
    | StrValue(s: string)
    | EnumValue(name: string)
    | TupleValue(items: seq<Value>)
    | ListValue(items: seq<Value>)
    | DictValue(entries: map<nat, Value>)
    | ObjectValue(cls: Class, fields: seq<Value>)

  /** Plain data, as JSON has it; a record's keys are the places of the fields they name. */
  datatype Data =
    | Null
    | Bool(b: bool)
    | Num(n: int)
    | Float(x: real)
    | Text(s: string)
    | List(items: seq<Data>)
    | Record(entries: map<nat, Data>)

  // ---------------------------------------------------------------- writing

  function ToData(v: Value): Data {
    match v
    case NoneValue => Null
    case BoolValue(b) => Bool(b)
    case IntValue(n) => Num(n)
    case FloatValue(x) => Float(x)
    case StrValue(s) => Text(s)
    case EnumValue(name) => Text(name)
    case TupleValue(items) => List(seq(|items|, i requires 0 <= i < |items| => ToData(items[i])))
    case ListValue(items) => List(seq(|items|, i requires 0 <= i < |items| => ToData(items[i])))
    case DictValue(entries) => Record(map k | k in entries :: k := ToData(entries[k]))
    case ObjectValue(_, fields) => Record(map i: nat | i < |fields| :: i := ToData(fields[i]))
  }

  // ---------------------------------------------------------------- what the classes declare

  datatype Type =
    | BoolType
    | IntType
    | FloatType
    | StrType
    | StatusType
    | Optional(inner: Type)
    | TupleOf(item: Type)
    | ListOf(item: Type)
    | Object(cls: Class)

  /** A declared field and the default its class gives it. */
  datatype Field = Field(ty: Type, default: Option<Value>)

  function Req(ty: Type): Field { Field(ty, None) }
  function Opt(ty: Type, default: Value): Field { Field(ty, Some(default)) }

  const STR := Req(StrType)
  const INT := Req(IntType)
  const BOOL := Req(BoolType)
  const FLOAT := Req(FloatType)
  const MAYBE := Opt(Optional(StrType), NoneValue)
  const STRINGS := TupleOf(StrType)
  const NO_STRINGS := TupleValue([])

  function Declared(cls: Class): seq<Field> {
    match cls
    case FreshnessPolicy => [Opt(IntType, IntValue(365)), Opt(BoolType, BoolValue(true))]
    // file, claims, query, locale, languages, two limits, allowed, blocked, freshness, policy, refresh, version
    case ResearchRequest => [
      STR, Req(STRINGS), STR, STR, Req(STRINGS), Opt(IntType, IntValue(10)), Opt(IntType, IntValue(5)),
      Opt(STRINGS, NO_STRINGS),
      Opt(STRINGS, NO_STRINGS),
      Opt(Object(FreshnessPolicy), ObjectValue(FreshnessPolicy, [IntValue(365), BoolValue(true)])),
      Opt(StrType, StrValue("standard")), Opt(BoolType, BoolValue(false)), Opt(StrType, StrValue("0.4.0"))]
    // id, two addresses, domain, title, snippet, rank, searched at, provider, version, published, status, reasons,
    // kinds
    case SourceCandidate => [
      STR, STR, STR, STR, STR, STR, INT, STR, STR, STR, MAYBE, Opt(StrType, StrValue("DISCOVERED")),
      Opt(STRINGS, NO_STRINGS),
      Opt(StrType, StrValue("CITED")), Opt(StrType, StrValue("SEARCH_RESULT"))]
    // injection, reasons, redacted, removed
    case ContentRisk => [
      Opt(BoolType, BoolValue(false)), Opt(STRINGS, NO_STRINGS), Opt(BoolType, BoolValue(false)),
      Opt(BoolType, BoolValue(false))]
    // ids, addresses, domain, title, times, hash, http status, mime, format, text, language, provider, version, risk,
    // kind
    case SourceSnapshot => [
      STR, STR, STR, STR, STR, STR, STR, STR, STR, INT, STR, STR, STR, STR, STR, STR, Req(Object(ContentRisk)),
      Opt(StrType, StrValue("FETCHED_CONTENT"))]
    // freshness, source type, authority, relevance, conflict, usable, review, reasons
    case EvidenceAssessment => [STR, STR, FLOAT, FLOAT, STR, BOOL, BOOL, Req(STRINGS)]
    // rank, query, search provider and version, content provider and version, policy version
    case Provenance => [INT, STR, STR, STR, STR, STR, STR]
    // ids, claims, source, snapshot, hash, assessment, provenance, risk, kind
    case EvidenceCandidate => [
      STR, STR, STR, STR, Req(STRINGS), STR, STR, STR, Req(Object(EvidenceAssessment)), Req(Object(Provenance)),
      Req(Object(ContentRisk)), Opt(StrType, StrValue("DERIVED_CLAIM"))]
    // id, provider, operation, status, time, source, cost, reason
    case ResearchAttempt => [STR, STR, STR, STR, STR, MAYBE, Opt(IntType, IntValue(1)), MAYBE]
    // provider, reason, retryable, status code, retry after
    case ProviderError => [STR, STR, BOOL, Opt(Optional(IntType), NoneValue), Opt(Optional(FloatType), NoneValue)]
    // reason, provider, source
    case ResearchError => [STR, Opt(Optional(Object(ProviderError)), NoneValue), MAYBE]
    // id, type, time, tenant, actor, from, to, reasons, correlation, payload hash, previous hash, version, egress
    // fields
    case ResearchAuditEvent => [
      STR, STR, STR, STR, STR, Req(StatusType), Req(StatusType), Req(STRINGS), STR, STR, Req(Optional(StrType)),
      Opt(StrType, StrValue("research-audit-v1")), MAYBE, MAYBE, MAYBE, MAYBE, MAYBE, MAYBE, MAYBE, MAYBE, MAYBE]
    // ids, request, hashes, status, times, correlation, the six lists, cost, attached file, summary, provider request
    case ResearchRun => [
      STR, STR, STR, Req(Object(ResearchRequest)), STR, STR, Req(StatusType), STR, STR, STR,
      Opt(ListOf(Object(SourceCandidate)), ListValue([])), Opt(ListOf(Object(SourceSnapshot)), ListValue([])),
      Opt(ListOf(Object(EvidenceCandidate)), ListValue([])), Opt(ListOf(Object(ResearchAttempt)), ListValue([])),
      Opt(ListOf(Object(ResearchError)), ListValue([])), Opt(ListOf(Object(ResearchAuditEvent)), ListValue([])),
      Opt(IntType, IntValue(0)), MAYBE, MAYBE, MAYBE]
  }

  const STATUSES: set<string> := {
    "CREATED", "SEARCHING", "SOURCES_DISCOVERED", "EXTRACTING", "EVIDENCE_COMPILED", "COMPLETED", "PARTIALLY_COMPLETED",
    "FAILED", "CANCELLED"}

  /** The value has the declared type. */
  predicate Conforms(ty: Type, v: Value)
    decreases v, ty
  {
    match ty
    case BoolType => v.BoolValue?
    case IntType => v.IntValue?
    case FloatType => v.FloatValue?
    case StrType => v.StrValue?
    case StatusType => v.EnumValue? && v.name in STATUSES
    case Optional(inner) => v.NoneValue? || Conforms(inner, v)
    case TupleOf(item) => v.TupleValue? && forall i :: 0 <= i < |v.items| ==> Conforms(item, v.items[i])
    case ListOf(item) => v.ListValue? && forall i :: 0 <= i < |v.items| ==> Conforms(item, v.items[i])
    case Object(cls) =>
      && v.ObjectValue? && v.cls == cls && |v.fields| == |Declared(cls)|
      && forall i :: 0 <= i < |v.fields| ==> Conforms(Declared(cls)[i].ty, v.fields[i])
  }

  // ---------------------------------------------------------------- what the reader does

  /**
   One step of the reader. `Pass` takes the parsed JSON as it is; `Each` is a list comprehension; `IfTruthy` guards
   with the truth of the data; `Build` calls a class with one argument per field; `Spread` calls it with the record's
   own entries as keywords, some of them replaced.
   */
  datatype Recipe =
    | Pass
    | AsStr
    | AsInt
    | AsBool
    | AsTuple
    | AsStatus
    | Each(item: Recipe)
    | IfTruthy(inner: Recipe)
    | Build(cls: Class, args: seq<Arg>)
    | Spread(cls: Class, replaced: seq<Option<Arg>>)

  /** `At` indexes the record and raises when the key is missing; `Get` falls back on a default. */
  datatype Arg = At(step: Recipe) | Get(step: Recipe, default: Data)

  /** What a JSON parser returns: lists stay lists, records become dictionaries, and no text is an enum member. */
  function FromJson(d: Data): Value {
    match d
    case Null => NoneValue
    case Bool(b) => BoolValue(b)
    case Num(n) => IntValue(n)
    case Float(x) => FloatValue(x)
    case Text(s) => StrValue(s)
    case List(items) => ListValue(seq(|items|, i requires 0 <= i < |items| => FromJson(items[i])))
    case Record(entries) => DictValue(map k | k in entries :: k := FromJson(entries[k]))
  }

  predicate Truthy(d: Data) {
    match d
    case Null => false
    case Bool(b) => b
    case Num(n) => n != 0
    case Float(x) => x != 0.0
    case Text(s) => s != ""
    case List(items) => items != []
    case Record(entries) => entries != map[]
  }

  /** Reading; `None` is a raised exception. */
  function Read(r: Recipe, d: Data): Option<Value>
    decreases r, 0
  {
    match r
    case Pass => Some(FromJson(d))
    case AsStr => if d.Text? then Some(StrValue(d.s)) else None
    case AsInt => if d.Num? then Some(IntValue(d.n)) else None
    case AsBool => if d.Bool? then Some(BoolValue(d.b)) else None
    case AsTuple => if d.List? then Some(TupleValue(FromJson(d).items)) else None
    case AsStatus => if d.Text? && d.s in STATUSES then Some(EnumValue(d.s)) else None
    case Each(item) =>
      if d.List? && forall i :: 0 <= i < |d.items| ==> Read(item, d.items[i]).Some? then
        Some(ListValue(seq(|d.items|, i requires 0 <= i < |d.items| && Read(item, d.items[i]).Some? =>
          Read(item, d.items[i]).value)))
      else None
    case IfTruthy(inner) => if Truthy(d) then Read(inner, d) else Some(NoneValue)
    case Build(cls, args) =>
      if d.Record? && forall i :: 0 <= i < |args| ==> ReadArg(args[i], d.entries, i).Some? then
        Some(ObjectValue(cls, seq(|args|, i requires 0 <= i < |args| && ReadArg(args[i], d.entries, i).Some? =>
          ReadArg(args[i], d.entries, i).value)))
      else None
    case Spread(cls, replaced) =>
      if d.Record? && (forall k :: k in d.entries ==> k < |replaced|)
         && forall i :: 0 <= i < |replaced| ==> ReadKeyword(cls, replaced[i], d.entries, i).Some?
      then
        Some(ObjectValue(cls, seq(|replaced|,
          i requires 0 <= i < |replaced| && ReadKeyword(cls, replaced[i], d.entries, i).Some? =>
          ReadKeyword(cls, replaced[i], d.entries, i).value)))
      else None
  }

  function ReadArg(a: Arg, entries: map<nat, Data>, i: nat): Option<Value>
    decreases a, 1
  {
    match a
    case At(step) => if i in entries then Read(step, entries[i]) else None
    case Get(step, default) => Read(step, if i in entries then entries[i] else default)
  }

  function ReadKeyword(cls: Class, a: Option<Arg>, entries: map<nat, Data>, i: nat): Option<Value>
    decreases a, 2
  {
    match a
    case Some(arg) => ReadArg(arg, entries, i)
    case None =>
      if i in entries then Some(FromJson(entries[i]))
      else if i < |Declared(cls)| then Declared(cls)[i].default
      else None
  }

  // ---------------------------------------------------------------- which recipes restore which types

  /** Nothing of this type is lost in JSON. */
  predicate PlainType(ty: Type) {
    match ty
    case BoolType => true
    case IntType => true
    case FloatType => true
    case StrType => true
    case Optional(inner) => PlainType(inner)
    case ListOf(item) => PlainType(item)
    case _ => false
  }

  predicate Restores(r: Recipe, ty: Type)
    decreases r, 0
  {
    match r
    case Pass => PlainType(ty)
    case AsStr => ty.StrType?
    case AsInt => ty.IntType?
    case AsBool => ty.BoolType?
    case AsTuple => ty.TupleOf? && PlainType(ty.item)
    case AsStatus => ty.StatusType?
    case Each(item) => ty.ListOf? && Restores(item, ty.item)
    case IfTruthy(inner) =>
      ty.Optional? && ty.inner.Object? && Declared(ty.inner.cls) != [] && Restores(inner, ty.inner)
    case Build(cls, args) =>
      && ty == Object(cls) && |args| == |Declared(cls)|
      && forall i :: 0 <= i < |args| ==> RestoresArg(args[i], Declared(cls)[i].ty)
    case Spread(cls, replaced) =>
      && ty == Object(cls) && |replaced| == |Declared(cls)|
      && forall i :: 0 <= i < |replaced| ==> RestoresKeyword(replaced[i], Declared(cls)[i].ty)
  }

  predicate RestoresArg(a: Arg, ty: Type)
    decreases a, 1
  {
    Restores(a.step, ty)
  }

  predicate RestoresKeyword(a: Option<Arg>, ty: Type)
    decreases a, 2
  {
    match a
    case Some(arg) => RestoresArg(arg, ty)
    case None => PlainType(ty)
  }

  // ---------------------------------------------------------------- the round trip

  /** A value without tuples, enum members or objects. */
  predicate PlainValue(v: Value) {
    match v
    case ListValue(items) => forall i :: 0 <= i < |items| ==> PlainValue(items[i])
    case DictValue(entries) => forall k :: k in entries ==> PlainValue(entries[k])
    case EnumValue(_) => false
    case TupleValue(_) => false
    case ObjectValue(_, _) => false
    case _ => true
  }

  /** Taking parsed JSON as it is gives a value back if and only if the value is plain. */
  lemma {:induction false} PassExactly(v: Value)
    ensures FromJson(ToData(v)) == v <==> PlainValue(v)
    decreases v, 1
  {
    match v {
      case ListValue(_) => PassListExactly(v);
      case DictValue(_) => PassDictExactly(v);
      case _ =>
    }
  }

  lemma {:induction false} PassListExactly(v: Value)
    requires v.ListValue?
    ensures FromJson(ToData(v)) == v <==> PlainValue(v)
    decreases v, 0
  {
    var items, back := v.items, FromJson(ToData(v));
    assert |back.items| == |items| && forall i :: 0 <= i < |items| ==> back.items[i] == FromJson(ToData(items[i]));
    forall i | 0 <= i < |items| ensures FromJson(ToData(items[i])) == items[i] <==> PlainValue(items[i]) {
      PassExactly(items[i]);
    }
    hide FromJson, ToData;
    if PlainValue(v) {
      assert back.items == items;
    }
  }

  lemma {:induction false} PassDictExactly(v: Value)
    requires v.DictValue?
    ensures FromJson(ToData(v)) == v <==> PlainValue(v)
    decreases v, 0
  {
    var entries, back := v.entries, FromJson(ToData(v));
    assert back.entries.Keys == entries.Keys;
    assert forall k :: k in entries ==> back.entries[k] == FromJson(ToData(entries[k]));
    forall k | k in entries ensures FromJson(ToData(entries[k])) == entries[k] <==> PlainValue(entries[k]) {
      PassExactly(entries[k]);
    }
    hide FromJson, ToData;
    if PlainValue(v) {
      assert back.entries == entries;
    }
  }

  lemma {:induction false} PlainTypeIsPlain(ty: Type, v: Value)
    requires PlainType(ty) && Conforms(ty, v)
    ensures PlainValue(v)
    decreases ty
  {
    match ty {
      case Optional(inner) =>
        if !v.NoneValue? {
          PlainTypeIsPlain(inner, v);
        }
      case ListOf(item) =>
        forall i | 0 <= i < |v.items| ensures PlainValue(v.items[i]) {
          PlainTypeIsPlain(item, v.items[i]);
        }
      case _ =>
    }
  }

  lemma PassRestores(ty: Type, v: Value)
    requires PlainType(ty) && Conforms(ty, v)
    ensures FromJson(ToData(v)) == v
  {
    PlainTypeIsPlain(ty, v);
    PassExactly(v);
  }

  /** A forgotten step is never harmless: passed through, no tuple, status or object reads as itself. */
  lemma ForgottenStepMisreads(ty: Type, v: Value)
    requires (ty.TupleOf? || ty.StatusType? || ty.Object?) && Conforms(ty, v)
    ensures Read(Pass, ToData(v)) != Some(v)
  {
    PassExactly(v);
  }

  /** A recipe that restores a type reads every value of it as it was written. */
  lemma {:induction false} RoundTrip(r: Recipe, ty: Type, v: Value)
    requires Restores(r, ty) && Conforms(ty, v)
    ensures Read(r, ToData(v)) == Some(v)
    decreases r, 2
  {
    match r {
      case Pass => PassRestores(ty, v);
      case AsTuple => TupleRoundTrip(ty, v);
      case Each(_) => EachRoundTrip(r, ty, v);
      case IfTruthy(_) => TruthyRoundTrip(r, ty, v);
      case Build(_, _) => BuildRoundTrip(r, v);
      case Spread(_, _) => SpreadRoundTrip(r, v);
      case _ =>
    }
  }

  lemma TupleRoundTrip(ty: Type, v: Value)
    requires Restores(AsTuple, ty) && Conforms(ty, v)
    ensures Read(AsTuple, ToData(v)) == Some(v)
  {
    forall i | 0 <= i < |v.items| ensures FromJson(ToData(v.items[i])) == v.items[i] {
      PassRestores(ty.item, v.items[i]);
    }
    assert Read(AsTuple, ToData(v)).value.items == v.items;
  }

  lemma {:induction false} TruthyRoundTrip(r: Recipe, ty: Type, v: Value)
    requires r.IfTruthy? && Restores(r, ty) && Conforms(ty, v)
    ensures Read(r, ToData(v)) == Some(v)
    decreases r, 1
  {
    if !v.NoneValue? {
      RoundTrip(r.inner, ty.inner, v);
      assert 0 in ToData(v).entries;
    }
  }

  lemma {:induction false} EachRoundTrip(r: Recipe, ty: Type, v: Value)
    requires r.Each? && Restores(r, ty) && Conforms(ty, v)
    ensures Read(r, ToData(v)) == Some(v)
    decreases r, 1
  {
    forall i | 0 <= i < |v.items| ensures Read(r.item, ToData(v.items[i])) == Some(v.items[i]) {
      RoundTrip(r.item, ty.item, v.items[i]);
    }
    assert Read(r, ToData(v)).value.items == v.items;
  }

  lemma {:induction false} BuildRoundTrip(r: Recipe, v: Value)
    requires r.Build? && Restores(r, Object(r.cls)) && Conforms(Object(r.cls), v)
    ensures Read(r, ToData(v)) == Some(v)
    decreases r, 1
  {
    var entries := ToData(v).entries;
    assert |r.args| == |v.fields|;
    forall i | 0 <= i < |r.args| ensures ReadArg(r.args[i], entries, i) == Some(v.fields[i]) {
      ArgRoundTrip(r, v, i, entries);
    }
    hide ReadArg, Restores, Conforms;
    assert Read(r, ToData(v)).value.fields == v.fields;
  }

  lemma {:induction false} SpreadRoundTrip(r: Recipe, v: Value)
    requires r.Spread? && Restores(r, Object(r.cls)) && Conforms(Object(r.cls), v)
    ensures Read(r, ToData(v)) == Some(v)
    decreases r, 1
  {
    var entries := ToData(v).entries;
    forall i | 0 <= i < |r.replaced| ensures ReadKeyword(r.cls, r.replaced[i], entries, i) == Some(v.fields[i]) {
      KeywordRoundTrip(r, v, i, entries);
    }
    assert Read(r, ToData(v)).value.fields == v.fields;
  }

  /** Keyword i of a spread, when the record has its entry. */
  lemma {:induction false} KeywordRoundTrip(r: Recipe, v: Value, i: nat, entries: map<nat, Data>)
    requires r.Spread? && Restores(r, Object(r.cls)) && Conforms(Object(r.cls), v) && i < |r.replaced|
    requires i in entries && entries[i] == ToData(v.fields[i])
    ensures ReadKeyword(r.cls, r.replaced[i], entries, i) == Some(v.fields[i])
    decreases r, 0
  {
    var ty := Declared(r.cls)[i].ty;
    assert RestoresKeyword(r.replaced[i], ty);
    if r.replaced[i].Some? {
      assert RestoresArg(r.replaced[i].value, ty);
      RoundTrip(r.replaced[i].value.step, ty, v.fields[i]);
    } else {
      PassRestores(ty, v.fields[i]);
    }
  }

  /** Argument i of a call, when the record has its entry. */
  lemma {:induction false} ArgRoundTrip(r: Recipe, v: Value, i: nat, entries: map<nat, Data>)
    requires r.Build? && Restores(r, Object(r.cls)) && Conforms(Object(r.cls), v) && i < |r.args|
    requires i in entries && entries[i] == ToData(v.fields[i])
    ensures ReadArg(r.args[i], entries, i) == Some(v.fields[i])
    decreases r, 0
  {
    assert RestoresArg(r.args[i], Declared(r.cls)[i].ty);
    RoundTrip(r.args[i].step, Declared(r.cls)[i].ty, v.fields[i]);
  }

  /** Two different values of one declared type are never written the same. */
  lemma {:induction false} WritingIsInjective(ty: Type, v: Value, w: Value)
    requires Conforms(ty, v) && Conforms(ty, w) && ToData(v) == ToData(w)
    ensures v == w
    decreases v, ty
  {
    match ty {
      case Optional(inner) =>
        if !v.NoneValue? && !w.NoneValue? {
          WritingIsInjective(inner, v, w);
        }
      case TupleOf(item) =>
        assert |ToData(v).items| == |v.items| && |ToData(w).items| == |w.items|;
        forall i | 0 <= i < |v.items| ensures v.items[i] == w.items[i] {
          assert ToData(v).items[i] == ToData(w).items[i];
          WritingIsInjective(item, v.items[i], w.items[i]);
        }
      case ListOf(item) =>
        assert |ToData(v).items| == |v.items| && |ToData(w).items| == |w.items|;
        forall i | 0 <= i < |v.items| ensures v.items[i] == w.items[i] {
          assert ToData(v).items[i] == ToData(w).items[i];
          WritingIsInjective(item, v.items[i], w.items[i]);
        }
      case Object(cls) =>
        forall i | 0 <= i < |v.fields| ensures v.fields[i] == w.fields[i] {
          assert ToData(v).entries[i] == ToData(w).entries[i];
          WritingIsInjective(Declared(cls)[i].ty, v.fields[i], w.fields[i]);
        }
      case _ =>
    }
  }

  // ---------------------------------------------------------------- older records

  /** What a field reads as when an older record lacks it. */
  function FallBack(r: Recipe, i: nat): Option<Value> {
    match r
    case Build(_, args) => if i < |args| then ReadArg(args[i], map[], i) else None
    case Spread(cls, replaced) => if i < |replaced| then ReadKeyword(cls, replaced[i], map[], i) else None
    case _ => None
  }

  lemma OlderArgument(r: Recipe, v: Value, missing: set<nat>, i: nat)
    requires r.Build? && Restores(r, Object(r.cls)) && Conforms(Object(r.cls), v) && i < |r.args|
    ensures ReadArg(r.args[i], ToData(v).entries - missing, i) == if i in missing then FallBack(r, i)
            else Some(v.fields[i])
  {
    if i !in missing {
      ArgRoundTrip(r, v, i, ToData(v).entries - missing);
    }
  }

  lemma OlderKeyword(r: Recipe, v: Value, missing: set<nat>, i: nat)
    requires r.Spread? && Restores(r, Object(r.cls)) && Conforms(Object(r.cls), v) && i < |r.replaced|
    ensures ReadKeyword(r.cls, r.replaced[i], ToData(v).entries - missing, i) == if i in missing then FallBack(r, i)
            else Some(v.fields[i])
  {
    if i !in missing {
      KeywordRoundTrip(r, v, i, ToData(v).entries - missing);
    } else if r.replaced[i].Some? {
      assert ReadArg(r.replaced[i].value, ToData(v).entries - missing, i) == ReadArg(r.replaced[i].value, map[], i);
    }
  }

  /** The value with the fall-backs of the missing fields. */
  predicate ReadsOlder(r: Recipe, v: Value, missing: set<nat>, read: Option<Value>)
    requires v.ObjectValue?
  {
    && read.Some? && read.value.ObjectValue? && read.value.cls == v.cls && |read.value.fields| == |v.fields|
    && forall i: nat | i < |v.fields| ::
         read.value.fields[i] == if i in missing && FallBack(r, i).Some? then FallBack(r, i).value else v.fields[i]
  }

  function Older(r: Recipe, v: Value, missing: set<nat>): seq<Value>
    requires v.ObjectValue?
  {
    seq(|v.fields|, i requires 0 <= i < |v.fields| =>
      if i in missing && FallBack(r, i).Some? then FallBack(r, i).value else v.fields[i])
  }

  lemma CallReads(r: Recipe, entries: map<nat, Data>, values: seq<Value>)
    requires r.Build? && |values| == |r.args|
    requires forall i :: 0 <= i < |r.args| ==> ReadArg(r.args[i], entries, i) == Some(values[i])
    ensures Read(r, Record(entries)) == Some(ObjectValue(r.cls, values))
  {
    assert Read(r, Record(entries)).value.fields == values;
  }

  lemma SpreadReads(r: Recipe, entries: map<nat, Data>, values: seq<Value>)
    requires r.Spread? && |values| == |r.replaced| && forall k :: k in entries ==> k < |values|
    requires forall i :: 0 <= i < |r.replaced| ==> ReadKeyword(r.cls, r.replaced[i], entries, i) == Some(values[i])
    ensures Read(r, Record(entries)) == Some(ObjectValue(r.cls, values))
  {
    hide ReadKeyword, Declared;
    assert Read(r, Record(entries)).value.fields == values;
  }

  lemma OlderCallReads(r: Recipe, v: Value, missing: set<nat>)
    requires r.Build? && Restores(r, Object(r.cls)) && Conforms(Object(r.cls), v)
    requires forall k :: k in missing && k < |v.fields| ==> FallBack(r, k).Some?
    ensures ReadsOlder(r, v, missing, Read(r, Record(ToData(v).entries - missing)))
  {
    var entries := ToData(v).entries - missing;
    assert |r.args| == |v.fields|;
    hide FallBack, Restores, Conforms, ReadArg, ToData, Read;
    forall i | 0 <= i < |r.args| ensures ReadArg(r.args[i], entries, i) == Some(Older(r, v, missing)[i]) {
      OlderArgument(r, v, missing, i);
    }
    CallReads(r, entries, Older(r, v, missing));
  }

  lemma SpreadSizes(r: Recipe, v: Value)
    requires r.Spread? && Restores(r, Object(r.cls)) && Conforms(Object(r.cls), v)
    ensures v.ObjectValue? && v.cls == r.cls && |r.replaced| == |v.fields|
    ensures ToData(v).Record? && forall k :: k in ToData(v).entries ==> k < |v.fields|
  {
  }

  lemma OlderSpreadReads(r: Recipe, v: Value, missing: set<nat>)
    requires r.Spread? && Restores(r, Object(r.cls)) && Conforms(Object(r.cls), v)
    requires forall k :: k in missing && k < |v.fields| ==> FallBack(r, k).Some?
    ensures ReadsOlder(r, v, missing, Read(r, Record(ToData(v).entries - missing)))
  {
    hide FallBack, Restores, Conforms, ReadKeyword, ToData, Read;
    SpreadSizes(r, v);
    var entries := ToData(v).entries - missing;
    forall i | 0 <= i < |r.replaced|
      ensures ReadKeyword(r.cls, r.replaced[i], entries, i) == Some(Older(r, v, missing)[i])
    {
      OlderKeyword(r, v, missing, i);
    }
    SpreadReads(r, entries, Older(r, v, missing));
  }

  /** An older record, without some of the fields the reader has a fall-back for, reads as the value with those. */
  lemma OlderRecordReads(r: Recipe, v: Value, missing: set<nat>)
    requires (r.Build? || r.Spread?) && Restores(r, Object(r.cls)) && Conforms(Object(r.cls), v)
    requires forall k :: k in missing && k < |v.fields| ==> FallBack(r, k).Some?
    ensures ReadsOlder(r, v, missing, Read(r, Record(ToData(v).entries - missing)))
  {
    hide Read, ReadsOlder, FallBack, Restores, Conforms, ToData;
    if r.Build? {
      OlderCallReads(r, v, missing);
    } else {
      OlderSpreadReads(r, v, missing);
    }
  }

  // ---------------------------------------------------------------- the reader of a research run

  const STEP := At(Pass)
  const TUPLE := At(AsTuple)
  const KEPT: Option<Arg> := None
  const TUPLED := Some(TUPLE)

  const READ_FRESHNESS := Build(FreshnessPolicy, [At(AsInt), At(AsBool)])

  const READ_REQUEST := Build(ResearchRequest, [
    At(AsStr), TUPLE, At(AsStr), At(AsStr), TUPLE, At(AsInt), At(AsInt), TUPLE, TUPLE, At(READ_FRESHNESS), At(AsStr),
    At(AsBool), At(AsStr)])

  const READ_SOURCE := Spread(SourceCandidate, [
    KEPT, KEPT, KEPT, KEPT, KEPT, KEPT, KEPT, KEPT, KEPT, KEPT, KEPT, KEPT, TUPLED, KEPT, KEPT])

  const READ_RISK := Spread(ContentRisk, [KEPT, TUPLED, KEPT, KEPT])

  const READ_SNAPSHOT := Spread(SourceSnapshot, [
    KEPT, KEPT, KEPT, KEPT, KEPT, KEPT, KEPT, KEPT, KEPT, KEPT, KEPT, KEPT, KEPT, KEPT, KEPT, KEPT,
    Some(At(READ_RISK)), KEPT])

  const READ_ASSESSMENT := Spread(EvidenceAssessment, [KEPT, KEPT, KEPT, KEPT, KEPT, KEPT, KEPT, TUPLED])

  const READ_PROVENANCE := Spread(Provenance, [KEPT, KEPT, KEPT, KEPT, KEPT, KEPT, KEPT])

  const READ_EVIDENCE := Spread(EvidenceCandidate, [
    KEPT, KEPT, KEPT, KEPT, TUPLED, KEPT, KEPT, KEPT, Some(At(READ_ASSESSMENT)), Some(At(READ_PROVENANCE)),
    Some(At(READ_RISK)), KEPT])

  const READ_ATTEMPT := Spread(ResearchAttempt, [KEPT, KEPT, KEPT, KEPT, KEPT, KEPT, KEPT, KEPT])

  const READ_PROVIDER_ERROR := Spread(ProviderError, [KEPT, KEPT, KEPT, KEPT, KEPT])

  const READ_ERROR := Build(ResearchError, [STEP, Get(IfTruthy(READ_PROVIDER_ERROR), Null), Get(Pass, Null)])

  const GOT := Some(Get(Pass, Null))

  const READ_AUDIT_EVENT := Spread(ResearchAuditEvent, [
    KEPT, KEPT, KEPT, KEPT, KEPT, Some(At(AsStatus)), Some(At(AsStatus)), TUPLED, KEPT, KEPT, KEPT,
    Some(Get(Pass, Text("research-audit-v1"))), GOT, GOT, GOT, GOT, GOT, GOT, GOT, GOT, GOT])

  function Many(item: Recipe): Arg { Get(Each(item), List([])) }

  const READ_RUN := Build(ResearchRun, [
    At(AsStr), At(AsStr), At(AsStr), At(READ_REQUEST), At(AsStr), At(AsStr), At(AsStatus), At(AsStr), At(AsStr),
    At(AsStr),
    Many(READ_SOURCE), Many(READ_SNAPSHOT), Many(READ_EVIDENCE), Many(READ_ATTEMPT), Many(READ_ERROR),
    Many(READ_AUDIT_EVENT),
    Get(AsInt, Num(0)), Get(Pass, Null), Get(Pass, Null), Get(Pass, Null)])

  function RunFromData(d: Data): Option<Value> { Read(READ_RUN, d) }

  // ---------------------------------------------------------------- the reader agrees with the classes

  /** Which entries and steps restore which simple types. */
  lemma StepsAgree()
    ensures RestoresKeyword(KEPT, StrType) && RestoresKeyword(KEPT, IntType)
    ensures RestoresKeyword(KEPT, BoolType) && RestoresKeyword(KEPT, FloatType)
    ensures RestoresKeyword(KEPT, Optional(StrType)) && RestoresKeyword(KEPT, Optional(IntType))
    ensures RestoresKeyword(KEPT, Optional(FloatType))
    ensures RestoresKeyword(TUPLED, STRINGS) && RestoresKeyword(GOT, Optional(StrType))
    ensures RestoresKeyword(Some(At(AsStatus)), StatusType)
    ensures forall d :: RestoresKeyword(Some(Get(Pass, d)), StrType)
    ensures RestoresArg(At(AsStr), StrType) && RestoresArg(At(AsInt), IntType) && RestoresArg(At(AsBool), BoolType)
    ensures RestoresArg(At(AsStatus), StatusType) && RestoresArg(TUPLE, STRINGS) && RestoresArg(STEP, StrType)
    ensures forall d :: RestoresArg(Get(AsInt, d), IntType) && RestoresArg(Get(Pass, d), Optional(StrType))
  {
    forall d ensures RestoresKeyword(Some(Get(Pass, d)), StrType) {
      assert RestoresArg(Get(Pass, d), StrType);
    }
  }

  lemma SpreadAgrees(r: Recipe)
    requires r.Spread? && |r.replaced| == |Declared(r.cls)|
    requires forall i :: 0 <= i < |r.replaced| ==> RestoresKeyword(r.replaced[i], Declared(r.cls)[i].ty)
    ensures Restores(r, Object(r.cls))
    ensures RestoresArg(At(r), Object(r.cls)) && RestoresKeyword(Some(At(r)), Object(r.cls))
  {
  }

  lemma CallAgrees(r: Recipe)
    requires r.Build? && |r.args| == |Declared(r.cls)|
    requires forall i :: 0 <= i < |r.args| ==> RestoresArg(r.args[i], Declared(r.cls)[i].ty)
    ensures Restores(r, Object(r.cls))
    ensures RestoresArg(At(r), Object(r.cls))
  {
  }

  lemma FreshnessAgrees()
    ensures RestoresArg(At(READ_FRESHNESS), Object(FreshnessPolicy))
  {
    hide Restores, RestoresArg;
    StepsAgree();
    CallAgrees(READ_FRESHNESS);
  }

  lemma RequestAgrees()
    ensures Restores(READ_REQUEST, Object(ResearchRequest))
    ensures RestoresArg(At(READ_REQUEST), Object(ResearchRequest))
  {
    hide Restores, RestoresArg, RestoresKeyword;
    StepsAgree();
    FreshnessAgrees();
    hide READ_FRESHNESS;
    CallAgrees(READ_REQUEST);
  }

  lemma SourceAgrees()
    ensures Restores(READ_SOURCE, Object(SourceCandidate))
  {
    hide Restores, RestoresArg, RestoresKeyword;
    StepsAgree();
    SpreadAgrees(READ_SOURCE);
  }

  lemma RiskAgrees()
    ensures RestoresKeyword(Some(At(READ_RISK)), Object(ContentRisk))
  {
    hide Restores, RestoresArg, RestoresKeyword;
    StepsAgree();
    SpreadAgrees(READ_RISK);
  }

  lemma SnapshotAgrees()
    ensures Restores(READ_SNAPSHOT, Object(SourceSnapshot))
  {
    hide Restores, RestoresArg, RestoresKeyword;
    StepsAgree();
    RiskAgrees();
    hide READ_RISK;
    SpreadAgrees(READ_SNAPSHOT);
  }

  lemma AssessmentAgrees()
    ensures RestoresKeyword(Some(At(READ_ASSESSMENT)), Object(EvidenceAssessment))
    ensures RestoresKeyword(Some(At(READ_PROVENANCE)), Object(Provenance))
  {
    hide Restores, RestoresArg, RestoresKeyword;
    StepsAgree();
    SpreadAgrees(READ_ASSESSMENT);
    SpreadAgrees(READ_PROVENANCE);
  }

  lemma EvidenceAgrees()
    ensures Restores(READ_EVIDENCE, Object(EvidenceCandidate))
  {
    hide Restores, RestoresArg, RestoresKeyword;
    StepsAgree();
    RiskAgrees();
    AssessmentAgrees();
    hide READ_RISK, READ_ASSESSMENT, READ_PROVENANCE;
    SpreadAgrees(READ_EVIDENCE);
  }

  lemma AttemptAgrees()
    ensures Restores(READ_ATTEMPT, Object(ResearchAttempt))
  {
    hide Restores, RestoresArg, RestoresKeyword;
    StepsAgree();
    SpreadAgrees(READ_ATTEMPT);
  }

  lemma ProviderErrorAgrees()
    ensures RestoresArg(Get(IfTruthy(READ_PROVIDER_ERROR), Null), Optional(Object(ProviderError)))
  {
    StepsAgree();
    assert Restores(READ_PROVIDER_ERROR, Object(ProviderError)) by {
      hide Restores, RestoresArg, RestoresKeyword;
      SpreadAgrees(READ_PROVIDER_ERROR);
    }
    assert Restores(IfTruthy(READ_PROVIDER_ERROR), Optional(Object(ProviderError)));
  }

  lemma ErrorAgrees()
    ensures Restores(READ_ERROR, Object(ResearchError))
  {
    hide Restores, RestoresArg, RestoresKeyword;
    StepsAgree();
    ProviderErrorAgrees();
    hide READ_PROVIDER_ERROR;
    CallAgrees(READ_ERROR);
  }

  lemma AuditEventAgrees()
    ensures Restores(READ_AUDIT_EVENT, Object(ResearchAuditEvent))
  {
    hide Restores, RestoresArg, RestoresKeyword;
    StepsAgree();
    SpreadAgrees(READ_AUDIT_EVENT);
  }

  lemma ManyAgree(item: Recipe, cls: Class)
    requires Restores(item, Object(cls))
    ensures RestoresArg(Many(item), ListOf(Object(cls)))
  {
    assert Restores(Each(item), ListOf(Object(cls)));
  }

  lemma RunScalarsAgree(i: nat)
    requires i < 10 || 16 <= i < 20
    ensures |READ_RUN.args| == |Declared(ResearchRun)| == 20
    ensures RestoresArg(READ_RUN.args[i], Declared(ResearchRun)[i].ty)
  {
    hide Restores, RestoresArg, RestoresKeyword, Many;
    RequestAgrees();
    hide READ_REQUEST;
    StepsAgree();
  }

  lemma RunListsAgree(i: nat)
    requires 10 <= i < 16
    ensures |READ_RUN.args| == |Declared(ResearchRun)| == 20
    ensures RestoresArg(READ_RUN.args[i], Declared(ResearchRun)[i].ty)
  {
    hide Restores, RestoresArg, Many, READ_REQUEST, READ_SOURCE, READ_SNAPSHOT, READ_EVIDENCE, READ_ATTEMPT, READ_ERROR;
    hide READ_AUDIT_EVENT;
    SourceAgrees();
    ManyAgree(READ_SOURCE, SourceCandidate);
    SnapshotAgrees();
    ManyAgree(READ_SNAPSHOT, SourceSnapshot);
    EvidenceAgrees();
    ManyAgree(READ_EVIDENCE, EvidenceCandidate);
    AttemptAgrees();
    ManyAgree(READ_ATTEMPT, ResearchAttempt);
    ErrorAgrees();
    ManyAgree(READ_ERROR, ResearchError);
    AuditEventAgrees();
    ManyAgree(READ_AUDIT_EVENT, ResearchAuditEvent);
  }

  /** Field by field, the reader restores exactly what the dataclasses declare. */
  lemma RunAgrees()
    ensures Restores(READ_RUN, Object(ResearchRun))
  {
    hide RestoresArg;
    forall i | 0 <= i < 20
      ensures |READ_RUN.args| == |Declared(ResearchRun)| == 20
              && RestoresArg(READ_RUN.args[i], Declared(ResearchRun)[i].ty)
    {
      if 10 <= i < 16 {
        RunListsAgree(i);
      } else {
        RunScalarsAgree(i);
      }
    }
    RunScalarsAgree(0);
    hide Declared;
  }

  /** Every well-typed run is read back as it was written. */
  lemma RunRoundTrip(run: Value)
    requires Conforms(Object(ResearchRun), run)
    ensures RunFromData(ToData(run)) == Some(run)
  {
    RunAgrees();
    RoundTrip(READ_RUN, Object(ResearchRun), run);
  }

  const EGRESS_FIELDS: set<nat> := set k: nat | 11 <= k < 21

  /** An audit event written before the egress fields existed reads with the audit schema and those fields empty. */
  lemma OlderAuditEventReads(event: Value, k: nat)
    requires Conforms(Object(ResearchAuditEvent), event) && k < 21
    ensures var r := Read(READ_AUDIT_EVENT, Record(ToData(event).entries - EGRESS_FIELDS));
      && r.Some? && r.value.ObjectValue? && r.value.cls == ResearchAuditEvent && |r.value.fields| == 21
      && r.value.fields[k] ==
         if k < 11 then event.fields[k] else if k == 11 then StrValue("research-audit-v1") else NoneValue
  {
    assert |event.fields| == 21;
    AuditEventAgrees();
    hide Read, Conforms, ToData, Restores, FallBack, Declared;
    forall i | 11 <= i < 21
      ensures FallBack(READ_AUDIT_EVENT, i) == Some(if i == 11 then StrValue("research-audit-v1") else NoneValue)
    {
      EgressFallsBack(i);
    }
    OlderRecordReads(READ_AUDIT_EVENT, event, EGRESS_FIELDS);
  }

  lemma EgressFallsBack(i: nat)
    requires 11 <= i < 21
    ensures FallBack(READ_AUDIT_EVENT, i) == Some(if i == 11 then StrValue("research-audit-v1") else NoneValue)
  {
    hide Declared;
    var arg := if i == 11 then Get(Pass, Text("research-audit-v1")) else Get(Pass, Null);
    assert READ_AUDIT_EVENT.replaced[i] == Some(arg);
    assert ReadArg(arg, map[], i) == Read(Pass, arg.default);
  }
}
