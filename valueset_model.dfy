/** The value-set definition validator, as values: the elements of a FHIR
    ValueSet that the validator reads, the diagnostics it records, the
    terminology services it consults, and one specification function per
    validation step saying which diagnostics that step appends and what it
    returns. The class in ValueSetValidation is proved against these. */
module ValueSetModel {
  import opened Wrappers
  import opened Utilities

  /** A batch of more requests than this is not sent to the terminology server. */
  const TooManyCodesToValidate: nat := 1000

  const SnomedUrl: string := "http://snomed.info/sct"

  // ---------------------------------------------------------------------------
  // Code-system checkers

  /** The code-system checker variants: SNOMED CT's, and the general one
      used for every other system and for no system at all. */
  datatype CheckerKind = SnomedCT | General

  /** Dispatch of a code-system checker on the system URL. */
  function GetSystemValidator(system: Option<string>): (k: CheckerKind)
    ensures k == SnomedCT <==> system == Some(SnomedUrl)
    ensures k == General <==> system.None? || system.value != SnomedUrl
  {
    match system
    case None => General
    case Some(s) => if s == SnomedUrl then SnomedCT else General
  }

  // ---------------------------------------------------------------------------
  // Diagnostics

  /** A node stack's literal path, kept abstract: the root element, or an
      element pushed onto a parent with its repetition index (-1 when the
      element is not repeated). */
  datatype Path = Root(resource: string) | Child(parent: Path, element: ElementName, index: int)

  /** The child elements the validator pushes onto the stack. */
  datatype ElementName = ComposeEl | IncludeEl | ExcludeEl | ValueSetEl | ConceptEl | FilterEl

  /** rule records an Error, warning a Warning, hint an Information. */
  datatype Severity = Error | Warning | Information

  datatype IssueType = Required | BusinessRule | Informational | Exception

  /** Message identities of the i18n catalogue, or a literal text (the
      message of a terminology result or of an exception). */
  datatype MessageId =
    | ShareableMissingHL7
    | ShareableExtraMissingHL7
    | ShareableMissing
    | ShareableExtraMissing
    | ReferenceInvalidType
    | ReferenceUnknown
    | ImportUnionIntersection
    | IncludeTooManyCodes
    | IncludeInvalidConceptCode
    | IncludeInvalidConceptCodeVer
    | ExampleSystemHint
    | ExampleSystemError
    | UnknownSystemWarning
    | UnknownSystemWarningVer
    | NoSystemWarning
    | Literal(text: string)

  /** A message substitution argument; Null stands for a Java null. */
  datatype Arg = Str(s: string) | Num(n: int) | Null

  datatype Message = Message(level: Severity, kind: IssueType, path: Path, id: MessageId, args: seq<Arg>)

  /** What one validation step returns and the messages it appends, in order. */
  datatype Report = Report(ok: bool, messages: seq<Message>)

  const Pass: Report := Report(true, [])

  /** Two steps in sequence, combined as `ok = second && ok`. */
  function Then(a: Report, b: Report): Report {
    Report(b.ok && a.ok, a.messages + b.messages)
  }

  /** What the message helpers (rule, warning, hint) append: one message
      when the condition does not pass, nothing when it does. */
  function Check(level: Severity, kind: IssueType, path: Path, pass: bool, id: MessageId, args: seq<Arg>): (ms: seq<Message>)
    ensures pass <==> |ms| == 0
    ensures !pass ==> |ms| == 1 && ms[0] == Message(level, kind, path, id, args)
  {
    if pass then [] else [Message(level, kind, path, id, args)]
  }

  function OptArg(s: Option<string>): Arg {
    match s
    case None => Null
    case Some(t) => Str(t)
  }

  // ---------------------------------------------------------------------------
  // The ValueSet resource, as the validator reads it

  datatype Concept = Concept(code: Option<string>, display: Option<string>)

  datatype Filter = Filter(property: Option<string>, op: Option<string>, value: Option<string>)

  /** A compose.include or compose.exclude element: its system and version
      values and its valueSet, concept and filter children, in document order. */
  datatype Include = Include(
    system: Option<string>,
    version: Option<string>,
    valueSets: seq<string>,
    concepts: seq<Concept>,
    filters: seq<Filter>)

  datatype Compose = Compose(includes: seq<Include>, excludes: seq<Include>)

  /** The ValueSet element: the value of its url, which of the shareable
      metadata children it has, whether it is HL7-owned (as BaseValidator.isHL7 decides), and
      its compose children. */
  datatype ValueSet = ValueSet(url: Option<string>, present: set<MetadataField>, hl7: bool, composes: seq<Compose>)

  // ---------------------------------------------------------------------------
  // Terminology services and validator settings

  datatype ErrorClass = NoErrorClass | CodeSystemUnsupported | OtherErrorClass

  datatype ValidationResult = ValidationResult(isOk: bool, errorClass: ErrorClass, message: Option<string>)

  datatype Coding = Coding(system: string, code: Option<string>, version: Option<string>)

  /** A coding queued for the batch call, with the path of its concept. */
  datatype Request = Request(path: Path, coding: Coding)

  /** The worker context, as oracles:
      fetchValueSet(v) is whether reference v resolves to a ValueSet;
      fetchResource(v) is the FHIR type of the resource v resolves to, if any;
      validateCode answers one synchronous validation;
      validateCodeBatch(cs) is Some(message) when the batch call throws;
      batchResult(c) is isOk of the result slot the batch call fills for c. */
  datatype Terminology = Terminology(
    isR2: bool,
    noTerminologyServer: bool,
    fetchValueSet: string -> bool,
    fetchResource: string -> Option<string>,
    validateCode: Coding -> ValidationResult,
    validateCodeBatch: seq<Coding> -> Option<string>,
    batchResult: Coding -> bool)

  /** Validator options, and BaseValidator.isExampleUrl, which is not part of this model. */
  datatype Settings = Settings(
    forPublication: bool,
    validateCodesOnServer: bool,
    allowExamples: bool,
    isExampleUrl: string -> bool)

  // ---------------------------------------------------------------------------
  // Shareable metadata

  /** The children a shareable value set should have. */
  datatype MetadataField = Url | Version | Title | Name | Status | Experimental | Description

  /** The element name of a metadata field, the message argument. */
  function FieldName(f: MetadataField): string {
    match f
    case Url => "url"
    case Version => "version"
    case Title => "title"
    case Name => "name"
    case Status => "status"
    case Experimental => "experimental"
    case Description => "description"
  }

  /** The message recorded for one missing shareable field. */
  function ShareableMessage(hl7: bool, f: MetadataField, path: Path): (m: Message)
    ensures m.kind == Required && m.path == path && m.args == [Str(FieldName(f))]
    ensures m.level == Error <==> hl7 && f != Name
    ensures m.level != Information
  {
    if hl7 then
      if f == Name then Message(Warning, Required, path, ShareableExtraMissingHL7, [Str(FieldName(f))])
      else Message(Error, Required, path, ShareableMissingHL7, [Str(FieldName(f))])
    else
      Message(Warning, Required, path, if f == Name then ShareableExtraMissing else ShareableMissing, [Str(FieldName(f))])
  }

  /** The field f if it is not among `present`. */
  function Absent(present: set<MetadataField>, f: MetadataField): (r: seq<MetadataField>)
    ensures forall g :: g in r <==> g == f && f !in present
  {
    if f in present then [] else [f]
  }

  /** The shareable fields missing from `present`, in the order they are
      checked: url, version, title, name, status, experimental, description. */
  function MissingFields(present: set<MetadataField>): (r: seq<MetadataField>)
    ensures forall f :: f in r <==> f !in present
  {
    Absent(present, Url) + Absent(present, Version) + Absent(present, Title) + Absent(present, Name) +
    Absent(present, Status) + Absent(present, Experimental) + Absent(present, Description)
  }

  /** One rule/warning call: a message if the value set lacks the field. */
  function FieldCheck(vs: ValueSet, f: MetadataField, path: Path): seq<Message> {
    if f in vs.present then [] else [ShareableMessage(vs.hl7, f, path)]
  }

  /** The six fields whose absence is an error for an HL7-owned value set. */
  predicate HasRequiredMetadata(vs: ValueSet) {
    Url in vs.present && Version in vs.present && Title in vs.present &&
    Status in vs.present && Experimental in vs.present && Description in vs.present
  }

  /** checkShareableValueSet: in publication mode a rule (HL7-owned) or
      warning call per shareable field, in field order. */
  function ShareableReport(vs: ValueSet, path: Path, forPublication: bool): (r: Report)
    ensures !forPublication ==> r == Pass
    ensures !r.ok ==> forPublication && vs.hl7
  {
    if !forPublication then Pass
    else
      Report(!vs.hl7 || HasRequiredMetadata(vs), FieldChecks(vs, path))
  }

  /** The seven field checks, in the order the fields are checked. */
  function FieldChecks(vs: ValueSet, path: Path): seq<Message> {
    FieldCheck(vs, Url, path) + FieldCheck(vs, Version, path) + FieldCheck(vs, Title, path) +
    FieldCheck(vs, Name, path) + FieldCheck(vs, Status, path) +
    FieldCheck(vs, Experimental, path) + FieldCheck(vs, Description, path)
  }

  /** The message for each field of fs, in order. */
  function ShareableMessages(hl7: bool, fs: seq<MetadataField>, path: Path): (ms: seq<Message>)
    ensures |ms| == |fs|
    ensures forall k :: 0 <= k < |ms| ==> ms[k] == ShareableMessage(hl7, fs[k], path)
  {
    if fs == [] then [] else ShareableMessages(hl7, fs[..|fs| - 1], path) + [ShareableMessage(hl7, fs[|fs| - 1], path)]
  }

  /** In publication mode one message per missing shareable field, in field
      order, and nothing else; outside it nothing. The result is false
      exactly when an HL7-owned value set lacks one of the six required
      fields. */
  lemma ShareableReportMessages(vs: ValueSet, path: Path, forPublication: bool)
    ensures var r := ShareableReport(vs, path, forPublication);
      (!forPublication ==> r == Pass) &&
      (forPublication ==> r.messages == ShareableMessages(vs.hl7, MissingFields(vs.present), path)) &&
      (r.ok <==> !(forPublication && vs.hl7) || HasRequiredMetadata(vs))
  {
    var p := vs.present;
    var h := vs.hl7;
    FieldCheckMessages(vs, Url, path);
    FieldCheckMessages(vs, Version, path);
    FieldCheckMessages(vs, Title, path);
    FieldCheckMessages(vs, Name, path);
    FieldCheckMessages(vs, Status, path);
    FieldCheckMessages(vs, Experimental, path);
    FieldCheckMessages(vs, Description, path);
    var a1 := Absent(p, Url);
    var a2 := a1 + Absent(p, Version);
    var a3 := a2 + Absent(p, Title);
    var a4 := a3 + Absent(p, Name);
    var a5 := a4 + Absent(p, Status);
    var a6 := a5 + Absent(p, Experimental);
    ShareableMessagesAppend(h, a1, Absent(p, Version), path);
    ShareableMessagesAppend(h, a2, Absent(p, Title), path);
    ShareableMessagesAppend(h, a3, Absent(p, Name), path);
    ShareableMessagesAppend(h, a4, Absent(p, Status), path);
    ShareableMessagesAppend(h, a5, Absent(p, Experimental), path);
    ShareableMessagesAppend(h, a6, Absent(p, Description), path);
  }

  lemma FieldCheckMessages(vs: ValueSet, f: MetadataField, path: Path)
    ensures FieldCheck(vs, f, path) == ShareableMessages(vs.hl7, Absent(vs.present, f), path)
  {
    if f !in vs.present {
      assert [f][..0] == [];
    }
  }

  lemma {:induction false} ShareableMessagesAppend(hl7: bool, a: seq<MetadataField>, b: seq<MetadataField>, path: Path)
    ensures ShareableMessages(hl7, a + b, path) == ShareableMessages(hl7, a, path) + ShareableMessages(hl7, b, path)
    decreases |b|
  {
    if b == [] {
      assert a + b == a;
    } else {
      ShareableMessagesAppend(hl7, a, b[..|b| - 1], path);
      assert (a + b)[..|a + b| - 1] == a + b[..|b| - 1];
      assert (a + b)[|a + b| - 1] == b[|b| - 1];
      var m := [ShareableMessage(hl7, b[|b| - 1], path)];
      assert ShareableMessages(hl7, a + b, path) == ShareableMessages(hl7, a + b[..|b| - 1], path) + m;
      assert ShareableMessages(hl7, b, path) == ShareableMessages(hl7, b[..|b| - 1], path) + m;
    }
  }

  // ---------------------------------------------------------------------------
  // Nested value-set references

  /** The warning for the i-th valueSet reference v of an include: none when
      v resolves to a ValueSet, INVALID_TYPE when it resolves to another
      resource, UNKNOWN when it resolves to nothing. */
  function ReferenceMessage(tx: Terminology, v: string, path: Path, i: int): (ms: seq<Message>)
    ensures |ms| == 0 <==> tx.fetchValueSet(v)
    ensures |ms| != 0 ==>
      (|ms| == 1 && ms[0].level == Warning && ms[0].kind == BusinessRule &&
       ms[0].path == Child(path, ValueSetEl, i) &&
       (ms[0].id == ReferenceInvalidType <==> tx.fetchResource(v).Some?) &&
       (ms[0].id == ReferenceUnknown <==> tx.fetchResource(v).None?))
  {
    if tx.fetchValueSet(v) then []
    else
      match tx.fetchResource(v)
      case Some(t) => [Message(Warning, BusinessRule, Child(path, ValueSetEl, i), ReferenceInvalidType, [Str(v), Str(t)])]
      case None => [Message(Warning, BusinessRule, Child(path, ValueSetEl, i), ReferenceUnknown, [Str(v)])]
  }

  /** The reference warnings of the first n valueSet references. */
  function ReferenceMessages(tx: Terminology, refs: seq<string>, path: Path, n: nat): (ms: seq<Message>)
    requires n <= |refs|
    ensures |ms| <= n
    ensures forall m :: m in ms ==> m.level == Warning && m.kind == BusinessRule
  {
    if n == 0 then [] else ReferenceMessages(tx, refs, path, n - 1) + ReferenceMessage(tx, refs[n - 1], path, n - 1)
  }

  /** The one informational message for more than one nested reference. */
  function UnionNotice(refs: seq<string>, path: Path): (ms: seq<Message>)
    ensures |ms| <= 1
    ensures |ms| == 1 <==> |refs| > 1
    ensures forall m :: m in ms ==> m == Message(Warning, Informational, path, ImportUnionIntersection, [])
  {
    Check(Warning, Informational, path, |refs| <= 1, ImportUnionIntersection, [])
  }

  // ---------------------------------------------------------------------------
  // Concepts: the synchronous probe and the batch

  function InvalidCodeId(version: Option<string>): MessageId {
    if version.None? then IncludeInvalidConceptCode else IncludeInvalidConceptCodeVer
  }

  function InvalidCodeArgs(system: string, version: Option<string>, code: Option<string>): seq<Arg> {
    if version.None? then [Str(system), OptArg(code)] else [Str(system), Str(version.value), OptArg(code)]
  }

  /** The severity of the message for an unsupported system in the
      synchronous check: for an unversioned example system a hint when
      examples are allowed and an error otherwise, else a warning. */
  function UnsupportedLevel(settings: Settings, system: string, version: Option<string>): Severity {
    if version.None? && settings.isExampleUrl(system) then
      if settings.allowExamples then Information else Error
    else Warning
  }

  /** validateValueSetIncludeConcept: one synchronous validation of the
      concept's code. An unsupported code system returns false with one
      message at the include's path; any other answer returns true, with an
      invalid-code warning at the concept's path when the code is not valid
      and a hint carrying the result's message when there is one. */
  function ConceptReport(tx: Terminology, settings: Settings, concept: Concept, incPath: Path, conceptPath: Path,
                         system: string, version: Option<string>): (r: Report)
    ensures var vv := tx.validateCode(Coding(system, concept.code, version));
      (r.ok <==> vv.errorClass != CodeSystemUnsupported) &&
      (!r.ok ==> |r.messages| == 1 && r.messages[0].path == incPath &&
                 r.messages[0].level == UnsupportedLevel(settings, system, version)) &&
      (r.ok ==> |r.messages| == (if vv.isOk then 0 else 1) + (if vv.message.Some? then 1 else 0))
  {
    var vv := tx.validateCode(Coding(system, concept.code, version));
    if vv.errorClass == CodeSystemUnsupported then
      var m :=
        if version.Some? then
          Message(Warning, BusinessRule, incPath, UnknownSystemWarningVer, [Str(system + "#" + version.value), OptArg(vv.message)])
        else if settings.isExampleUrl(system) then
          if settings.allowExamples then Message(Information, BusinessRule, incPath, ExampleSystemHint, [Str(system)])
          else Message(Error, BusinessRule, incPath, ExampleSystemError, [Str(system)])
        else
          Message(Warning, BusinessRule, incPath, UnknownSystemWarning, [Str(system), OptArg(vv.message)]);
      Report(false, [m])
    else
      Report(true,
        Check(Warning, BusinessRule, conceptPath, vv.isOk, InvalidCodeId(version), InvalidCodeArgs(system, version, concept.code)) +
        (if vv.message.Some? then [Message(Information, BusinessRule, conceptPath, Literal(vv.message.value), [])] else []))
  }

  /** prepareValidateValueSetIncludeConcept: the request for one concept. */
  function MakeRequest(concept: Concept, conceptPath: Path, system: string, version: Option<string>): Request {
    Request(conceptPath, Coding(system, concept.code, version))
  }

  /** The requests queued for concepts 1 .. n-1 (concept 0 is the probe). */
  function PendingRequests(concepts: seq<Concept>, incPath: Path, system: string, version: Option<string>, n: nat): (r: seq<Request>)
    requires n <= |concepts|
    ensures |r| == if n == 0 then 0 else n - 1
  {
    if n <= 1 then []
    else PendingRequests(concepts, incPath, system, version, n - 1) +
         [MakeRequest(concepts[n - 1], Child(incPath, ConceptEl, n - 1), system, version)]
  }

  /** The batch: empty unless the probe succeeded. */
  function Batch(concepts: seq<Concept>, incPath: Path, system: string, version: Option<string>, probeOk: bool): seq<Request> {
    if probeOk then PendingRequests(concepts, incPath, system, version, |concepts|) else []
  }

  /** Whether the batch is sent at all. */
  predicate Submitted(tx: Terminology, settings: Settings, batch: seq<Request>) {
    settings.validateCodesOnServer && |batch| > 0 && !tx.noTerminologyServer
  }

  function Codings(batch: seq<Request>): (cs: seq<Coding>)
    ensures |cs| == |batch| && forall k :: 0 <= k < |batch| ==> cs[k] == batch[k].coding
  {
    seq(|batch|, k requires 0 <= k < |batch| => batch[k].coding)
  }

  /** warningOrHint for one filled result slot: a warning when the value
      set is not retired, a hint when it is. */
  function ResultMessage(tx: Terminology, req: Request, system: string, version: Option<string>, retired: bool): seq<Message> {
    Check(if !retired then Warning else Information, BusinessRule, req.path, tx.batchResult(req.coding),
          InvalidCodeId(version), InvalidCodeArgs(system, version, req.coding.code))
  }

  function ResultMessages(tx: Terminology, batch: seq<Request>, system: string, version: Option<string>, retired: bool, n: nat): (ms: seq<Message>)
    requires n <= |batch|
    ensures |ms| <= n
    ensures forall m :: m in ms ==> m.kind == BusinessRule && m.level == (if retired then Information else Warning)
  {
    if n == 0 then []
    else ResultMessages(tx, batch, system, version, retired, n - 1) + ResultMessage(tx, batch[n - 1], system, version, retired)
  }

  // ---------------------------------------------------------------------------
  // The validator's calls

  /** One call of a validation step: validateValueSet, the loop over the
      first n compose elements, validateValueSetCompose, the loop over the
      first n includes (or excludes, by `element`), validateValueSetInclude,
      its part for an include with a system, the synchronous probe of an include's first concept, and the batch
      phase of an include. */
  datatype Call =
    | ValidateValueSet(vs: ValueSet, path: Path, contained: bool)
    | ValidateComposes(vs: ValueSet, path: Path, n: nat)
    | ValidateCompose(c: Compose, path: Path, retired: bool)
    | ValidateIncludes(incs: seq<Include>, path: Path, element: ElementName, retired: bool, n: nat)
    | ValidateInclude(inc: Include, path: Path, retired: bool)
    | ValidateSystemContent(inc: Include, path: Path, system: string, retired: bool)
    | Probe(inc: Include, path: Path, system: string)
    | SendBatch(batch: seq<Request>, path: Path, system: string, version: Option<string>, retired: bool)

  /** A loop call covers at most the elements there are. */
  predicate Callable(call: Call) {
    match call
    case ValidateComposes(vs, _, n) => n <= |vs.composes|
    case ValidateIncludes(incs, _, _, _, n) => n <= |incs|
    case _ => true
  }

  /** How deep a call sits in the validator's descent. */
  function Depth(call: Call): nat {
    match call
    case ValidateValueSet(_, _, _) => 6
    case ValidateComposes(_, _, _) => 5
    case ValidateCompose(_, _, _) => 4
    case ValidateIncludes(_, _, _, _, _) => 3
    case ValidateInclude(_, _, _) => 2
    case ValidateSystemContent(_, _, _, _) => 1
    case _ => 0
  }

  function Count(call: Call): nat {
    match call
    case ValidateComposes(_, _, n) => n
    case ValidateIncludes(_, _, _, _, n) => n
    case _ => 0
  }

  /** The report of one call: the value it returns and the messages it
      appends, in order. */
  function Run(tx: Terminology, settings: Settings, call: Call): Report
    requires Callable(call)
    decreases Depth(call), Count(call)
  {
    match call
    case ValidateValueSet(vs, path, contained) =>
      Then(if tx.isR2 then Pass else Run(tx, settings, ValidateComposes(vs, path, |vs.composes|)),
           if contained then Pass else ShareableReport(vs, path, settings.forPublication))
    case ValidateComposes(vs, path, n) =>
      if n == 0 then Pass
      else Then(Run(tx, settings, ValidateComposes(vs, path, n - 1)),
                Run(tx, settings, ValidateCompose(vs.composes[n - 1],
                                                  Child(path, ComposeEl, ComposeIndex(|vs.composes|, n - 1)), Retired(vs))))
    case ValidateCompose(c, path, retired) =>
      Then(Run(tx, settings, ValidateIncludes(c.includes, path, IncludeEl, retired, |c.includes|)),
           Run(tx, settings, ValidateIncludes(c.excludes, path, ExcludeEl, retired, |c.excludes|)))
    case ValidateIncludes(incs, path, element, retired, n) =>
      if n == 0 then Pass
      else Then(Run(tx, settings, ValidateIncludes(incs, path, element, retired, n - 1)),
                Run(tx, settings, ValidateInclude(incs[n - 1], Child(path, element, n - 1), retired)))
    case ValidateInclude(inc, path, retired) =>
      var refs := NestedValueSetMessages(tx, inc.valueSets, path);
      if NoString(inc.system) then
        Report(true, refs + NoSystemNotice(inc, path))
      else
        var content := Run(tx, settings, ValidateSystemContent(inc, path, inc.system.value, retired));
        Report(content.ok, refs + content.messages)
    case ValidateSystemContent(inc, path, system, retired) =>
      var probe := Run(tx, settings, Probe(inc, path, system));
      var batch := Batch(inc.concepts, path, system, inc.version, probe.ok);
      var b := Run(tx, settings, SendBatch(batch, path, system, inc.version, retired));
      Report(b.ok, probe.messages + b.messages)
    case Probe(inc, path, system) =>
      if |inc.concepts| == 0 then Pass
      else ConceptReport(tx, settings, inc.concepts[0], path, Child(path, ConceptEl, 0), system, inc.version)
    case SendBatch(batch, incPath, system, version, retired) =>
      if !Submitted(tx, settings, batch) then Pass
      else if |batch| > TooManyCodesToValidate then
        Report(false, [Message(Information, BusinessRule, incPath, IncludeTooManyCodes, [Num(|batch|)])])
      else
        match tx.validateCodeBatch(Codings(batch))
        case Some(e) => Report(false, [Message(Error, Exception, batch[0].path, Literal(e), [])])
        case None => Report(true, ResultMessages(tx, batch, system, version, retired, |batch|))
  }

  // ---------------------------------------------------------------------------
  // The steps by name

  /** The batch phase of validateValueSetInclude. */
  function BatchReport(tx: Terminology, settings: Settings, batch: seq<Request>, incPath: Path,
                       system: string, version: Option<string>, retired: bool): (r: Report)
    ensures !r.ok <==>
      (Submitted(tx, settings, batch) &&
       (|batch| > TooManyCodesToValidate || tx.validateCodeBatch(Codings(batch)).Some?))
    ensures !r.ok ==> |r.messages| == 1
  {
    Run(tx, settings, SendBatch(batch, incPath, system, version, retired))
  }

  /** The probe: the synchronous check of the first concept, if any. */
  function ProbeReport(tx: Terminology, settings: Settings, inc: Include, path: Path, system: string): Report {
    Run(tx, settings, Probe(inc, path, system))
  }

  /** The batch an include with a system builds. */
  function IncludeBatch(tx: Terminology, settings: Settings, inc: Include, path: Path, system: string): seq<Request> {
    Batch(inc.concepts, path, system, inc.version, ProbeReport(tx, settings, inc, path, system).ok)
  }

  /** The part of validateValueSetInclude for an include with a system:
      the probe, then the batch; the batch decides the result. */
  function SystemContentReport(tx: Terminology, settings: Settings, inc: Include, path: Path, system: string,
                               retired: bool): Report {
    Run(tx, settings, ValidateSystemContent(inc, path, system, retired))
  }

  /** The concepts handed to the code-system checker, in order: with a
      system, the probe and every batched concept; without one, none. */
  function CheckedConcepts(tx: Terminology, settings: Settings, inc: Include, path: Path): (r: seq<Concept>)
    ensures r <= inc.concepts
    ensures |r| == 0 <==> NoString(inc.system) || |inc.concepts| == 0
    ensures |r| > 1 ==> r == inc.concepts
  {
    if NoString(inc.system) || |inc.concepts| == 0 then []
    else if ProbeReport(tx, settings, inc, path, inc.system.value).ok then inc.concepts
    else [inc.concepts[0]]
  }

  /** The warnings about the value sets an include imports: one per
      reference that is not a value set, then the union notice. */
  function NestedValueSetMessages(tx: Terminology, valueSets: seq<string>, path: Path): seq<Message> {
    ReferenceMessages(tx, valueSets, path, |valueSets|) + UnionNotice(valueSets, path)
  }

  /** The warning for an include without a system that still lists
      concepts or filters. */
  function NoSystemNotice(inc: Include, path: Path): (ms: seq<Message>)
    ensures |ms| <= 1
    ensures |ms| == 1 <==> |inc.filters| > 0 || |inc.concepts| > 0
    ensures forall m :: m in ms ==> m == Message(Warning, BusinessRule, path, NoSystemWarning, [])
  {
    Check(Warning, BusinessRule, path, |inc.filters| == 0 && |inc.concepts| == 0, NoSystemWarning, [])
  }

  /** validateValueSetInclude for one include or exclude at `path`. */
  function IncludeReport(tx: Terminology, settings: Settings, inc: Include, path: Path, retired: bool): Report {
    Run(tx, settings, ValidateInclude(inc, path, retired))
  }

  /** An include's report is the nested value-set warnings followed by
      either the no-system notice or the report of its system content. */
  lemma IncludeReportShape(tx: Terminology, settings: Settings, inc: Include, path: Path, retired: bool)
    ensures NoString(inc.system) ==>
      IncludeReport(tx, settings, inc, path, retired) == Report(true, NestedValueSetMessages(tx, inc.valueSets, path) + NoSystemNotice(inc, path))
    ensures !NoString(inc.system) ==>
      var content := SystemContentReport(tx, settings, inc, path, inc.system.value, retired);
      IncludeReport(tx, settings, inc, path, retired) == Report(content.ok, NestedValueSetMessages(tx, inc.valueSets, path) + content.messages)
  {
  }

  /** The first n elements of `incs`, each pushed as `element` with its index. */
  function IncludesReport(tx: Terminology, settings: Settings, incs: seq<Include>, path: Path, element: ElementName,
                          retired: bool, n: nat): Report
    requires n <= |incs|
  {
    Run(tx, settings, ValidateIncludes(incs, path, element, retired, n))
  }

  /** validateValueSetCompose: every include, then every exclude. */
  function ComposeReport(tx: Terminology, settings: Settings, c: Compose, path: Path, retired: bool): Report {
    Run(tx, settings, ValidateCompose(c, path, retired))
  }

  /** A compose's report is its includes' followed by its excludes'. */
  lemma ComposeReportShape(tx: Terminology, settings: Settings, c: Compose, path: Path, retired: bool)
    ensures ComposeReport(tx, settings, c, path, retired) ==
      Then(IncludesReport(tx, settings, c.includes, path, IncludeEl, retired, |c.includes|),
           IncludesReport(tx, settings, c.excludes, path, ExcludeEl, retired, |c.excludes|))
  {
  }

  /** The repetition index a compose is pushed with. */
  function ComposeIndex(count: nat, cc: nat): (i: int)
    ensures i == -1 <==> count <= 1
    ensures i != -1 ==> i == cc
  {
    if count > 1 then cc else -1
  }

  predicate Retired(vs: ValueSet) {
    vs.url == Some("retired")
  }

  /** The first n compose elements of a value set. */
  function ComposesReport(tx: Terminology, settings: Settings, vs: ValueSet, path: Path, n: nat): Report
    requires n <= |vs.composes|
  {
    Run(tx, settings, ValidateComposes(vs, path, n))
  }

  /** validateValueSet: the composes unless the context is R2, then the
      shareable check unless the value set is contained. */
  function ValueSetReport(tx: Terminology, settings: Settings, vs: ValueSet, path: Path, contained: bool): Report {
    Run(tx, settings, ValidateValueSet(vs, path, contained))
  }
}
