/** The value-set definition validator as the source runs it: a validator
    object that appends to one list of diagnostics while it walks a ValueSet,
    its include and exclude elements and their concepts, building and
    submitting a batch of codings per include. Every method is proved to
    append exactly the messages, and return exactly the result, that the
    specification functions of ValueSetModel give. */
module ValueSetValidation {
  import opened Wrappers
  import opened Utilities
  import opened ValueSetModel

  /** A code-system checker. What the SNOMED CT and general checkers check is
      not part of this model; the object records the concepts it is handed
      and whether it was finished. */
  class CodeSystemChecker {
    const kind: CheckerKind
    var checked: seq<Concept>
    var finished: bool

    constructor (kind: CheckerKind)
      ensures this.kind == kind && checked == [] && !finished
    {
      this.kind := kind;
      checked := [];
      finished := false;
    }

    method CheckConcept(code: Option<string>, display: Option<string>)
      modifies this
      ensures checked == old(checked) + [Concept(code, display)] && finished == old(finished)
    {
      checked := checked + [Concept(code, display)];
    }

    method Finish()
      modifies this
      ensures finished && checked == old(checked)
    {
      finished := true;
    }
  }

  class ValueSetValidator {
    const tx: Terminology
    const settings: Settings
    /** The diagnostics list every validation step appends to. */
    var errors: seq<Message>

    constructor (tx: Terminology, settings: Settings)
      ensures this.tx == tx && this.settings == settings && errors == []
    {
      this.tx := tx;
      this.settings := settings;
      errors := [];
    }

    /** rule / warning / hint / warningOrHint: record a message when the
        condition does not pass, and return the condition. */
    method Record(level: Severity, kind: IssueType, path: Path, pass: bool, id: MessageId, args: seq<Arg>) returns (r: bool)
      modifies this
      ensures r == pass
      ensures errors == old(errors) + Check(level, kind, path, pass, id, args)
    {
      if !pass {
        errors := errors + [Message(level, kind, path, id, args)];
      }
      r := pass;
    }

    method ValidateValueSet(vs: ValueSet, path: Path, contained: bool) returns (ok: bool)
      modifies this
      ensures ok == ValueSetReport(tx, settings, vs, path, contained).ok
      ensures errors == old(errors) + ValueSetReport(tx, settings, vs, path, contained).messages
    {
      ok := true;
      if !tx.isR2 {
        var cc := 0;
        while cc < |vs.composes|
          invariant cc <= |vs.composes|
          invariant ok == ComposesReport(tx, settings, vs, path, cc).ok
          invariant errors == old(errors) + ComposesReport(tx, settings, vs, path, cc).messages
        {
          ghost var before := errors;
          var c := ValidateValueSetCompose(vs.composes[cc], Child(path, ComposeEl, if |vs.composes| > 1 then cc else -1),
                                           vs.url, vs.url == Some("retired"));
          ghost var step := ComposeReport(tx, settings, vs.composes[cc],
                                          Child(path, ComposeEl, ComposeIndex(|vs.composes|, cc)), Retired(vs));
          assert errors == before + step.messages && c == step.ok;
          ComposesStep(tx, settings, vs, path, cc);
          AppendAssoc(old(errors), ComposesReport(tx, settings, vs, path, cc).messages, step.messages);
          ok := c && ok;
          cc := cc + 1;
        }
      }
      ghost var composes := if tx.isR2 then Pass else ComposesReport(tx, settings, vs, path, |vs.composes|);
      assert errors == old(errors) + composes.messages && ok == composes.ok;
      if !contained {
        var s := CheckShareableValueSet(vs, path);
        AppendAssoc(old(errors), composes.messages, ShareableReport(vs, path, settings.forPublication).messages);
        ok := s && ok;
      }
    }

    method CheckShareableValueSet(vs: ValueSet, path: Path) returns (ok: bool)
      modifies this
      ensures ok == ShareableReport(vs, path, settings.forPublication).ok
      ensures errors == old(errors) + ShareableReport(vs, path, settings.forPublication).messages
    {
      ok := true;
      if settings.forPublication {
        if vs.hl7 {
          ok := CheckShareableHL7(vs, path);
        } else {
          CheckShareableOther(vs, path);
        }
      }
    }

    /** checkShareableValueSet for an HL7-owned value set: a rule per field,
        a warning for the name. */
    method CheckShareableHL7(vs: ValueSet, path: Path) returns (ok: bool)
      requires vs.hl7
      modifies this
      ensures ok == HasRequiredMetadata(vs)
      ensures errors == old(errors) + FieldChecks(vs, path)
    {
      ok := true;
      ghost var e0 := errors;
      ghost var done: seq<Message> := [];
      var p := Record(Error, Required, path, Url in vs.present, ShareableMissingHL7, [Str(FieldName(Url))]);
      done := FieldCheck(vs, Url, path);
      ok := p && ok;
      p := Record(Error, Required, path, Version in vs.present, ShareableMissingHL7, [Str(FieldName(Version))]);
      assert errors == e0 + done + FieldCheck(vs, Version, path);
      AppendAssoc(e0, done, FieldCheck(vs, Version, path));
      done := done + FieldCheck(vs, Version, path);
      ok := p && ok;
      p := Record(Error, Required, path, Title in vs.present, ShareableMissingHL7, [Str(FieldName(Title))]);
      assert errors == e0 + done + FieldCheck(vs, Title, path);
      AppendAssoc(e0, done, FieldCheck(vs, Title, path));
      done := done + FieldCheck(vs, Title, path);
      ok := p && ok;
      p := Record(Warning, Required, path, Name in vs.present, ShareableExtraMissingHL7, [Str(FieldName(Name))]);
      assert errors == e0 + done + FieldCheck(vs, Name, path);
      AppendAssoc(e0, done, FieldCheck(vs, Name, path));
      done := done + FieldCheck(vs, Name, path);
      p := Record(Error, Required, path, Status in vs.present, ShareableMissingHL7, [Str(FieldName(Status))]);
      assert errors == e0 + done + FieldCheck(vs, Status, path);
      AppendAssoc(e0, done, FieldCheck(vs, Status, path));
      done := done + FieldCheck(vs, Status, path);
      ok := p && ok;
      p := Record(Error, Required, path, Experimental in vs.present, ShareableMissingHL7, [Str(FieldName(Experimental))]);
      assert errors == e0 + done + FieldCheck(vs, Experimental, path);
      AppendAssoc(e0, done, FieldCheck(vs, Experimental, path));
      done := done + FieldCheck(vs, Experimental, path);
      ok := p && ok;
      p := Record(Error, Required, path, Description in vs.present, ShareableMissingHL7, [Str(FieldName(Description))]);
      assert errors == e0 + done + FieldCheck(vs, Description, path);
      AppendAssoc(e0, done, FieldCheck(vs, Description, path));
      done := done + FieldCheck(vs, Description, path);
      ok := p && ok;
    }

    /** checkShareableValueSet for any other value set: a warning per field. */
    method CheckShareableOther(vs: ValueSet, path: Path)
      requires !vs.hl7
      modifies this
      ensures errors == old(errors) + FieldChecks(vs, path)
    {
      ghost var e0 := errors;
      ghost var done: seq<Message> := [];
      var p := Record(Warning, Required, path, Url in vs.present, ShareableMissing, [Str(FieldName(Url))]);
      done := FieldCheck(vs, Url, path);
      p := Record(Warning, Required, path, Version in vs.present, ShareableMissing, [Str(FieldName(Version))]);
      assert errors == e0 + done + FieldCheck(vs, Version, path);
      AppendAssoc(e0, done, FieldCheck(vs, Version, path));
      done := done + FieldCheck(vs, Version, path);
      p := Record(Warning, Required, path, Title in vs.present, ShareableMissing, [Str(FieldName(Title))]);
      assert errors == e0 + done + FieldCheck(vs, Title, path);
      AppendAssoc(e0, done, FieldCheck(vs, Title, path));
      done := done + FieldCheck(vs, Title, path);
      p := Record(Warning, Required, path, Name in vs.present, ShareableExtraMissing, [Str(FieldName(Name))]);
      assert errors == e0 + done + FieldCheck(vs, Name, path);
      AppendAssoc(e0, done, FieldCheck(vs, Name, path));
      done := done + FieldCheck(vs, Name, path);
      p := Record(Warning, Required, path, Status in vs.present, ShareableMissing, [Str(FieldName(Status))]);
      assert errors == e0 + done + FieldCheck(vs, Status, path);
      AppendAssoc(e0, done, FieldCheck(vs, Status, path));
      done := done + FieldCheck(vs, Status, path);
      p := Record(Warning, Required, path, Experimental in vs.present, ShareableMissing, [Str(FieldName(Experimental))]);
      assert errors == e0 + done + FieldCheck(vs, Experimental, path);
      AppendAssoc(e0, done, FieldCheck(vs, Experimental, path));
      done := done + FieldCheck(vs, Experimental, path);
      p := Record(Warning, Required, path, Description in vs.present, ShareableMissing, [Str(FieldName(Description))]);
      assert errors == e0 + done + FieldCheck(vs, Description, path);
      AppendAssoc(e0, done, FieldCheck(vs, Description, path));
      done := done + FieldCheck(vs, Description, path);
    }

    method ValidateValueSetCompose(c: Compose, path: Path, vsid: Option<string>, retired: bool) returns (ok: bool)
      modifies this
      ensures ok == ComposeReport(tx, settings, c, path, retired).ok
      ensures errors == old(errors) + ComposeReport(tx, settings, c, path, retired).messages
    {
      var includesOk := ValidateIncludeList(c.includes, path, IncludeEl, vsid, retired);
      var excludesOk := ValidateIncludeList(c.excludes, path, ExcludeEl, vsid, retired);
      ok := includesOk && excludesOk;
      AppendAssoc(old(errors), IncludesReport(tx, settings, c.includes, path, IncludeEl, retired, |c.includes|).messages,
                  IncludesReport(tx, settings, c.excludes, path, ExcludeEl, retired, |c.excludes|).messages);
      ComposeReportShape(tx, settings, c, path, retired);
    }

    /** One of validateValueSetCompose's two loops (over the includes or
        over the excludes): each element is validated, indexed from 0, and
        the results are ANDed. */
    method ValidateIncludeList(incs: seq<Include>, path: Path, el: ElementName, vsid: Option<string>, retired: bool)
      returns (ok: bool)
      modifies this
      ensures ok == IncludesReport(tx, settings, incs, path, el, retired, |incs|).ok
      ensures errors == old(errors) + IncludesReport(tx, settings, incs, path, el, retired, |incs|).messages
    {
      ok := true;
      var ci := 0;
      while ci < |incs|
        invariant ci <= |incs|
        invariant ok == IncludesReport(tx, settings, incs, path, el, retired, ci).ok
        invariant errors == old(errors) + IncludesReport(tx, settings, incs, path, el, retired, ci).messages
      {
        var r;
        ghost var slv;
        r, slv := ValidateValueSetInclude(incs[ci], Child(path, el, ci), vsid, retired);
        IncludesStep(tx, settings, incs, path, el, retired, ci);
        AppendAssoc(old(errors), IncludesReport(tx, settings, incs, path, el, retired, ci).messages,
                    IncludeReport(tx, settings, incs[ci], Child(path, el, ci), retired).messages);
        ok := r && ok;
        ci := ci + 1;
      }
    }

    /** validateValueSetInclude; the ghost result is the code-system checker
        the include used. */
    method ValidateValueSetInclude(inc: Include, path: Path, vsid: Option<string>, retired: bool)
      returns (ok: bool, ghost slv: CodeSystemChecker)
      modifies this
      ensures ok == IncludeReport(tx, settings, inc, path, retired).ok
      ensures errors == old(errors) + IncludeReport(tx, settings, inc, path, retired).messages
      ensures fresh(slv) && slv.kind == GetSystemValidator(inc.system)
      ensures slv.checked == CheckedConcepts(tx, settings, inc, path)
      ensures slv.finished <==> !NoString(inc.system)
    {
      var system := inc.system;
      ValidateNestedValueSets(inc.valueSets, path);
      ghost var refs := NestedValueSetMessages(tx, inc.valueSets, path);
      var checker := new CodeSystemChecker(GetSystemValidator(system));
      slv := checker;
      ghost var rest: seq<Message>;
      if !NoString(system) {
        ok := ValidateSystemContent(inc, path, system.value, retired, checker);
        rest := SystemContentReport(tx, settings, inc, path, system.value, retired).messages;
        checker.Finish();
      } else {
        ok := true;
        var _ := Record(Warning, BusinessRule, path, |inc.filters| == 0 && |inc.concepts| == 0, NoSystemWarning, []);
        rest := NoSystemNotice(inc, path);
      }
      IncludeReportShape(tx, settings, inc, path, retired);
      AppendAssoc(old(errors), refs, rest);
    }

    /** The part of validateValueSetInclude for an include with a system:
        its concepts, the batch, then its filters. */
    method ValidateSystemContent(inc: Include, path: Path, sys: string, retired: bool, checker: CodeSystemChecker)
      returns (ok: bool)
      requires inc.system == Some(sys) && sys != "" && checker.checked == [] && !checker.finished
      modifies this, checker
      ensures ok == SystemContentReport(tx, settings, inc, path, sys, retired).ok
      ensures errors == old(errors) + SystemContentReport(tx, settings, inc, path, sys, retired).messages
      ensures checker.checked == CheckedConcepts(tx, settings, inc, path) && !checker.finished
    {
      ok := true;
      var version := inc.version;
      var filters := inc.filters;
      ghost var probe := ProbeReport(tx, settings, inc, path, sys);
      var systemOk, batch := ValidateConcepts(inc, path, sys, checker);
      ghost var sent := BatchReport(tx, settings, batch, path, sys, version, retired);
      var sentOk := SubmitBatch(batch, path, sys, version, retired);
      ok := sentOk && ok;
      AppendAssoc(old(errors), probe.messages, sent.messages);
      assert SystemContentReport(tx, settings, inc, path, sys, retired) == Report(sent.ok, probe.messages + sent.messages);

      var cf := 0;
      while cf < |filters|
        invariant cf <= |filters|
        invariant errors == old(errors) + (probe.messages + sent.messages) && ok == sent.ok
        invariant checker.checked == CheckedConcepts(tx, settings, inc, path) && !checker.finished
      {
        if systemOk {
          var filterOk := ValidateValueSetIncludeFilter(inc, Child(path, FilterEl, cf), sys, version, checker);
          if !filterOk {
            systemOk := false;
          }
        }
        cf := cf + 1;
      }
    }

    /** The valueSet children of an include: a warning for each reference
        that does not resolve to a ValueSet, then the union notice. */
    method ValidateNestedValueSets(valuesets: seq<string>, path: Path)
      modifies this
      ensures errors == old(errors) + NestedValueSetMessages(tx, valuesets, path)
    {
      var i := 0;
      while i < |valuesets|
        invariant i <= |valuesets|
        invariant errors == old(errors) + ReferenceMessages(tx, valuesets, path, i)
      {
        var v := valuesets[i];
        ValidateReference(v, path, i);
        ghost var step := ReferenceMessage(tx, v, path, i);
        AppendAssoc(old(errors), ReferenceMessages(tx, valuesets, path, i), step);
        i := i + 1;
      }
      if |valuesets| > 1 {
        var _ := Record(Warning, Informational, path, false, ImportUnionIntersection, []);
      }
    }

    /** One valueSet reference: a warning unless it resolves to a ValueSet. */
    method ValidateReference(v: string, path: Path, i: int)
      modifies this
      ensures errors == old(errors) + ReferenceMessage(tx, v, path, i)
    {
      var found := tx.fetchValueSet(v);
      if !found {
        var ns := Child(path, ValueSetEl, i);
        var rs := tx.fetchResource(v);
        if rs.Some? {
          var _ := Record(Warning, BusinessRule, ns, false, ReferenceInvalidType, [Str(v), Str(rs.value)]);
        } else {
          var _ := Record(Warning, BusinessRule, ns, false, ReferenceUnknown, [Str(v)]);
        }
      }
    }

    /** The concept children of an include with a system: the first is
        validated synchronously; when its system is supported every further
        concept is queued as a request, otherwise the rest are skipped. */
    method ValidateConcepts(inc: Include, path: Path, sys: string, checker: CodeSystemChecker)
      returns (systemOk: bool, batch: seq<Request>)
      requires inc.system == Some(sys) && sys != "" && checker.checked == [] && !checker.finished
      modifies this, checker
      ensures systemOk == ProbeReport(tx, settings, inc, path, sys).ok
      ensures errors == old(errors) + ProbeReport(tx, settings, inc, path, sys).messages
      ensures batch == IncludeBatch(tx, settings, inc, path, sys)
      ensures checker.checked == CheckedConcepts(tx, settings, inc, path) && !checker.finished
    {
      var concepts := inc.concepts;
      var version := inc.version;
      ghost var probe := ProbeReport(tx, settings, inc, path, sys);
      systemOk := true;
      batch := [];
      var cc := 0;
      var first := true;
      while cc < |concepts|
        invariant cc <= |concepts|
        invariant first <==> cc == 0
        invariant !checker.finished
        invariant cc == 0 ==> systemOk && batch == [] && errors == old(errors) && checker.checked == []
        invariant cc > 0 ==> systemOk == probe.ok && errors == old(errors) + probe.messages
        invariant cc > 0 ==> batch == Batch(concepts[..cc], path, sys, version, probe.ok)
        invariant cc > 0 ==> checker.checked == if probe.ok then concepts[..cc] else [concepts[0]]
      {
        if first {
          systemOk := ValidateValueSetIncludeConcept(concepts[cc], path, Child(path, ConceptEl, cc), sys, version, checker);
          first := false;
        } else if systemOk {
          var req := PrepareValidateValueSetIncludeConcept(concepts[cc], Child(path, ConceptEl, cc), sys, version, checker);
          PendingRequestsPrefix(concepts, path, sys, version, cc);
          batch := batch + [req];
        }
        assert concepts[..cc + 1] == concepts[..cc] + [concepts[cc]];
        cc := cc + 1;
      }
      assert concepts[..cc] == concepts;
    }

    /** The batch phase of an include: unless batches are off, empty or
        there is no server, more than TooManyCodesToValidate requests give
        one hint and false; otherwise the batch is sent, a failure of the
        call gives one error at the first request's path and false, and a
        completed call gives a warning (a hint for a retired value set) for
        each request whose result is not valid. */
    method SubmitBatch(batch: seq<Request>, path: Path, sys: string, version: Option<string>, retired: bool)
      returns (ok: bool)
      modifies this
      ensures ok == BatchReport(tx, settings, batch, path, sys, version, retired).ok
      ensures errors == old(errors) + BatchReport(tx, settings, batch, path, sys, version, retired).messages
    {
      ok := true;
      ghost var sent := BatchReport(tx, settings, batch, path, sys, version, retired);
      if settings.validateCodesOnServer && |batch| > 0 && !tx.noTerminologyServer {
        if |batch| > TooManyCodesToValidate {
          var h := Record(Information, BusinessRule, path, false, IncludeTooManyCodes, [Num(|batch|)]);
          ok := h && ok;
          assert sent == Report(false, [Message(Information, BusinessRule, path, IncludeTooManyCodes, [Num(|batch|)])]);
        } else {
          var thrown := tx.validateCodeBatch(Codings(batch));
          if thrown.Some? {
            ok := false;
            var cv := batch[0];
            var _ := Record(Error, Exception, cv.path, false, Literal(thrown.value), []);
            assert sent == Report(false, [Message(Error, Exception, batch[0].path, Literal(thrown.value), [])]);
          } else {
            ReportResults(batch, sys, version, retired);
            assert sent == Report(true, ResultMessages(tx, batch, sys, version, retired, |batch|));
          }
        }
      } else {
        assert sent == Pass;
      }
    }

    /** The loop over the filled result slots: one warningOrHint per
        request, in batch order. */
    method ReportResults(batch: seq<Request>, sys: string, version: Option<string>, retired: bool)
      modifies this
      ensures errors == old(errors) + ResultMessages(tx, batch, sys, version, retired, |batch|)
    {
      var k := 0;
      while k < |batch|
        invariant k <= |batch|
        invariant errors == old(errors) + ResultMessages(tx, batch, sys, version, retired, k)
      {
        var cv := batch[k];
        ReportResult(cv, sys, version, retired);
        ResultMessagesStep(tx, batch, sys, version, retired, k);
        AppendAssoc(old(errors), ResultMessages(tx, batch, sys, version, retired, k), ResultMessage(tx, cv, sys, version, retired));
        k := k + 1;
      }
    }

    /** warningOrHint for one filled result slot. */
    method ReportResult(cv: Request, sys: string, version: Option<string>, retired: bool)
      modifies this
      ensures errors == old(errors) + ResultMessage(tx, cv, sys, version, retired)
    {
      var level := if !retired then Warning else Information;
      if version.None? {
        var _ := Record(level, BusinessRule, cv.path, tx.batchResult(cv.coding),
                        IncludeInvalidConceptCode, [Str(sys), OptArg(cv.coding.code)]);
        assert InvalidCodeArgs(sys, version, cv.coding.code) == [Str(sys), OptArg(cv.coding.code)];
      } else {
        var _ := Record(level, BusinessRule, cv.path, tx.batchResult(cv.coding),
                        IncludeInvalidConceptCodeVer, [Str(sys), Str(version.value), OptArg(cv.coding.code)]);
        assert InvalidCodeArgs(sys, version, cv.coding.code) == [Str(sys), Str(version.value), OptArg(cv.coding.code)];
      }
    }

    /** validateValueSetIncludeConcept: hands the concept to the checker and
        validates its code synchronously. */
    method ValidateValueSetIncludeConcept(concept: Concept, incPath: Path, conceptPath: Path, system: string,
                                          version: Option<string>, slv: CodeSystemChecker) returns (r: bool)
      modifies this, slv
      ensures r == ConceptReport(tx, settings, concept, incPath, conceptPath, system, version).ok
      ensures errors == old(errors) + ConceptReport(tx, settings, concept, incPath, conceptPath, system, version).messages
      ensures slv.checked == old(slv.checked) + [concept] && slv.finished == old(slv.finished)
    {
      var code := concept.code;
      var display := concept.display;
      slv.CheckConcept(code, display);
      if version.None? {
        var vv := tx.validateCode(Coding(system, code, None));
        if vv.errorClass == CodeSystemUnsupported {
          if settings.isExampleUrl(system) {
            if settings.allowExamples {
              var _ := Record(Information, BusinessRule, incPath, false, ExampleSystemHint, [Str(system)]);
            } else {
              var _ := Record(Error, BusinessRule, incPath, false, ExampleSystemError, [Str(system)]);
            }
          } else {
            var _ := Record(Warning, BusinessRule, incPath, false, UnknownSystemWarning, [Str(system), OptArg(vv.message)]);
          }
          return false;
        } else {
          var ok := vv.isOk;
          var _ := Record(Warning, BusinessRule, conceptPath, ok, IncludeInvalidConceptCode, [Str(system), OptArg(code)]);
          ghost var w := Check(Warning, BusinessRule, conceptPath, ok, IncludeInvalidConceptCode, [Str(system), OptArg(code)]);
          ghost var h: seq<Message> := [];
          if vv.message.Some? {
            var _ := Record(Information, BusinessRule, conceptPath, false, Literal(vv.message.value), []);
            h := [Message(Information, BusinessRule, conceptPath, Literal(vv.message.value), [])];
          }
          AppendAssoc(old(errors), w, h);
        }
      } else {
        var vv := tx.validateCode(Coding(system, code, version));
        if vv.errorClass == CodeSystemUnsupported {
          var _ := Record(Warning, BusinessRule, incPath, false, UnknownSystemWarningVer,
                          [Str(system + "#" + version.value), OptArg(vv.message)]);
          return false;
        } else {
          var ok := vv.isOk;
          var _ := Record(Warning, BusinessRule, conceptPath, ok, IncludeInvalidConceptCodeVer,
                          [Str(system), Str(version.value), OptArg(code)]);
          ghost var w := Check(Warning, BusinessRule, conceptPath, ok, IncludeInvalidConceptCodeVer,
                               [Str(system), Str(version.value), OptArg(code)]);
          ghost var h: seq<Message> := [];
          if vv.message.Some? {
            var _ := Record(Information, BusinessRule, conceptPath, false, Literal(vv.message.value), []);
            h := [Message(Information, BusinessRule, conceptPath, Literal(vv.message.value), [])];
          }
          AppendAssoc(old(errors), w, h);
        }
      }
      return true;
    }

    /** prepareValidateValueSetIncludeConcept: hands the concept to the
        checker and builds its request. */
    method PrepareValidateValueSetIncludeConcept(concept: Concept, conceptPath: Path, system: string,
                                                 version: Option<string>, slv: CodeSystemChecker) returns (req: Request)
      modifies slv
      ensures req == Request(conceptPath, Coding(system, concept.code, version))
      ensures slv.checked == old(slv.checked) + [concept] && slv.finished == old(slv.finished)
    {
      var code := concept.code;
      var display := concept.display;
      slv.CheckConcept(code, display);
      var c := Coding(system, code, None);
      if version.Some? {
        c := c.(version := version);
      }
      req := Request(conceptPath, c);
    }

    /** validateValueSetIncludeFilter: filters are accepted without a check. */
    method ValidateValueSetIncludeFilter(filter: Include, path: Path, system: string, version: Option<string>,
                                         slv: CodeSystemChecker) returns (r: bool)
      ensures r
    {
      r := true;
    }
  }

  /** Appending the request for concept n to the requests for 1 .. n-1. */
  lemma PendingRequestsPrefix(concepts: seq<Concept>, incPath: Path, system: string, version: Option<string>, n: nat)
    requires 0 < n < |concepts|
    ensures PendingRequests(concepts[..n + 1], incPath, system, version, n + 1) ==
            PendingRequests(concepts[..n], incPath, system, version, n) +
            [MakeRequest(concepts[n], Child(incPath, ConceptEl, n), system, version)]
  {
    PendingRequestsOnPrefix(concepts, concepts[..n + 1], incPath, system, version, n);
  }

  /** The first n pending requests only depend on the first n concepts. */
  lemma {:induction false} PendingRequestsOnPrefix(concepts: seq<Concept>, pre: seq<Concept>, incPath: Path,
                                                   system: string, version: Option<string>, n: nat)
    requires n <= |pre| <= |concepts| && pre == concepts[..|pre|]
    decreases n
    ensures PendingRequests(pre, incPath, system, version, n) == PendingRequests(concepts[..n], incPath, system, version, n)
  {
    if n > 1 {
      PendingRequestsOnPrefix(concepts, pre, incPath, system, version, n - 1);
      PendingRequestsOnPrefix(concepts, concepts[..n], incPath, system, version, n - 1);
    }
  }

  lemma ComposesStep(tx: Terminology, settings: Settings, vs: ValueSet, path: Path, n: nat)
    requires n < |vs.composes|
    ensures var step := ComposeReport(tx, settings, vs.composes[n], Child(path, ComposeEl, ComposeIndex(|vs.composes|, n)), Retired(vs));
      ComposesReport(tx, settings, vs, path, n + 1).ok == (step.ok && ComposesReport(tx, settings, vs, path, n).ok) &&
      ComposesReport(tx, settings, vs, path, n + 1).messages == ComposesReport(tx, settings, vs, path, n).messages + step.messages
  {
  }

  lemma IncludesStep(tx: Terminology, settings: Settings, incs: seq<Include>, path: Path, element: ElementName,
                     retired: bool, n: nat)
    requires n < |incs|
    ensures var step := IncludeReport(tx, settings, incs[n], Child(path, element, n), retired);
      IncludesReport(tx, settings, incs, path, element, retired, n + 1).ok ==
        (step.ok && IncludesReport(tx, settings, incs, path, element, retired, n).ok) &&
      IncludesReport(tx, settings, incs, path, element, retired, n + 1).messages ==
        IncludesReport(tx, settings, incs, path, element, retired, n).messages + step.messages
  {
  }

  lemma ResultMessagesStep(tx: Terminology, batch: seq<Request>, system: string, version: Option<string>, retired: bool, k: nat)
    requires k < |batch|
    ensures ResultMessages(tx, batch, system, version, retired, k + 1) ==
            ResultMessages(tx, batch, system, version, retired, k) + ResultMessage(tx, batch[k], system, version, retired)
  {
  }
}
