/** What the value-set validation steps promise, stated over the
    specification functions of ValueSetModel: which diagnostics appear, how
    many, at which paths, and when a step returns false. */
module ValueSetProperties {
  import opened Wrappers
  import opened Utilities
  import opened ValueSetModel

  // ---------------------------------------------------------------------------
  // Counting messages

  /** How many messages of ms are recorded at path p. */
  function CountAt(ms: seq<Message>, p: Path): nat {
    if |ms| == 0 then 0
    else (if ms[0].path == p then 1 else 0) + CountAt(ms[1..], p)
  }

  /** How many messages of ms carry message identity id. */
  function CountWithId(ms: seq<Message>, id: MessageId): nat {
    if |ms| == 0 then 0
    else (if ms[0].id == id then 1 else 0) + CountWithId(ms[1..], id)
  }

  lemma {:induction false} CountAtAppend(a: seq<Message>, b: seq<Message>, p: Path)
    ensures CountAt(a + b, p) == CountAt(a, p) + CountAt(b, p)
  {
    if |a| == 0 {
      assert a + b == b;
    } else {
      var h := if a[0].path == p then 1 else 0;
      assert (a + b)[0] == a[0];
      assert (a + b)[1..] == a[1..] + b;
      assert CountAt(a + b, p) == h + CountAt(a[1..] + b, p);
      CountAtAppend(a[1..], b, p);
      assert CountAt(a, p) == h + CountAt(a[1..], p);
    }
  }

  lemma {:induction false} CountWithIdAppend(a: seq<Message>, b: seq<Message>, id: MessageId)
    ensures CountWithId(a + b, id) == CountWithId(a, id) + CountWithId(b, id)
  {
    if |a| == 0 {
      assert a + b == b;
    } else {
      var h := if a[0].id == id then 1 else 0;
      assert (a + b)[0] == a[0];
      assert (a + b)[1..] == a[1..] + b;
      assert CountWithId(a + b, id) == h + CountWithId(a[1..] + b, id);
      CountWithIdAppend(a[1..], b, id);
      assert CountWithId(a, id) == h + CountWithId(a[1..], id);
    }
  }

  lemma CountOfSingleton(m: Message, p: Path, id: MessageId)
    ensures CountAt([m], p) == (if m.path == p then 1 else 0)
    ensures CountWithId([m], id) == (if m.id == id then 1 else 0)
  {
    assert |[m][1..]| == 0;
  }

  // ---------------------------------------------------------------------------
  // Nested value-set references

  /** The warning about the j-th reference is at that reference's path. */
  lemma ReferenceMessageAt(tx: Terminology, v: string, path: Path, j: int, i: int)
    ensures CountAt(ReferenceMessage(tx, v, path, j), Child(path, ValueSetEl, i)) ==
            (if i == j && !tx.fetchValueSet(v) then 1 else 0)
    ensures CountWithId(ReferenceMessage(tx, v, path, j), ImportUnionIntersection) == 0
  {
    var ms := ReferenceMessage(tx, v, path, j);
    if ms != [] {
      assert ms == [ms[0]];
      CountOfSingleton(ms[0], Child(path, ValueSetEl, i), ImportUnionIntersection);
    }
  }

  /** Every reference among the first n that does not resolve to a
      ValueSet has exactly one warning at its own path, and every other
      reference has none. */
  lemma ReferenceWarnings(tx: Terminology, refs: seq<string>, path: Path, n: nat)
    requires n <= |refs|
    ensures forall i :: 0 <= i < n ==>
      CountAt(ReferenceMessages(tx, refs, path, n), Child(path, ValueSetEl, i)) ==
      (if tx.fetchValueSet(refs[i]) then 0 else 1)
  {
    forall i | 0 <= i < n
      ensures CountAt(ReferenceMessages(tx, refs, path, n), Child(path, ValueSetEl, i)) ==
              (if tx.fetchValueSet(refs[i]) then 0 else 1)
    {
      ReferenceWarningAt(tx, refs, path, n, i);
    }
  }

  lemma {:induction false} ReferenceWarningAt(tx: Terminology, refs: seq<string>, path: Path, n: nat, i: nat)
    requires i < n <= |refs|
    ensures CountAt(ReferenceMessages(tx, refs, path, n), Child(path, ValueSetEl, i)) ==
            (if tx.fetchValueSet(refs[i]) then 0 else 1)
  {
    if i == n - 1 {
      ReferenceWarningLast(tx, refs, path, n);
    } else {
      ReferenceStepAt(tx, refs, path, n, Child(path, ValueSetEl, i));
      ReferenceMessageAt(tx, refs[n - 1], path, n - 1, i);
      ReferenceWarningAt(tx, refs, path, n - 1, i);
    }
  }

  lemma ReferenceWarningLast(tx: Terminology, refs: seq<string>, path: Path, n: nat)
    requires 0 < n <= |refs|
    ensures CountAt(ReferenceMessages(tx, refs, path, n), Child(path, ValueSetEl, n - 1)) ==
            (if tx.fetchValueSet(refs[n - 1]) then 0 else 1)
  {
    ReferenceStepAt(tx, refs, path, n, Child(path, ValueSetEl, n - 1));
    ReferenceMessageAt(tx, refs[n - 1], path, n - 1, n - 1);
    PathsBelow(tx, refs, path, n - 1, n - 1);
  }

  /** No reference among the first n is warned about at the path of a
      later one. */
  lemma {:induction false} PathsBelow(tx: Terminology, refs: seq<string>, path: Path, n: nat, i: int)
    requires n <= |refs| && n <= i
    ensures CountAt(ReferenceMessages(tx, refs, path, n), Child(path, ValueSetEl, i)) == 0
  {
    if n > 0 {
      PathsBelow(tx, refs, path, n - 1, i);
      ReferenceStepAt(tx, refs, path, n, Child(path, ValueSetEl, i));
      ReferenceMessageAt(tx, refs[n - 1], path, n - 1, i);
    }
  }

  /** Counting by path splits off the last reference's messages. */
  lemma ReferenceStepAt(tx: Terminology, refs: seq<string>, path: Path, n: nat, p: Path)
    requires 0 < n <= |refs|
    ensures CountAt(ReferenceMessages(tx, refs, path, n), p) ==
            CountAt(ReferenceMessages(tx, refs, path, n - 1), p) +
            CountAt(ReferenceMessage(tx, refs[n - 1], path, n - 1), p)
  {
    var prev := ReferenceMessages(tx, refs, path, n - 1);
    var last := ReferenceMessage(tx, refs[n - 1], path, n - 1);
    assert ReferenceMessages(tx, refs, path, n) == prev + last;
    CountAtAppend(prev, last, p);
  }

  /** Counting by identity splits off the last reference's messages. */
  lemma ReferenceStepWithId(tx: Terminology, refs: seq<string>, path: Path, n: nat, id: MessageId)
    requires 0 < n <= |refs|
    ensures CountWithId(ReferenceMessages(tx, refs, path, n), id) ==
            CountWithId(ReferenceMessages(tx, refs, path, n - 1), id) +
            CountWithId(ReferenceMessage(tx, refs[n - 1], path, n - 1), id)
  {
    var prev := ReferenceMessages(tx, refs, path, n - 1);
    var last := ReferenceMessage(tx, refs[n - 1], path, n - 1);
    assert ReferenceMessages(tx, refs, path, n) == prev + last;
    CountWithIdAppend(prev, last, id);
  }

  /** Each reference warning is a business-rule warning at the path of a
      reference that does not resolve to a ValueSet: INVALID_TYPE when the
      reference resolves to some other resource, UNKNOWN when it resolves
      to nothing. */
  lemma {:induction false} ReferenceWarningKinds(tx: Terminology, refs: seq<string>, path: Path, n: nat)
    requires n <= |refs|
    ensures forall m :: m in ReferenceMessages(tx, refs, path, n) ==>
      m.level == Warning && m.kind == BusinessRule &&
      exists i :: 0 <= i < n && m.path == Child(path, ValueSetEl, i) && !tx.fetchValueSet(refs[i]) &&
        (m.id == ReferenceInvalidType <==> tx.fetchResource(refs[i]).Some?) &&
        (m.id == ReferenceUnknown <==> tx.fetchResource(refs[i]).None?)
  {
    if n > 0 {
      ReferenceWarningKinds(tx, refs, path, n - 1);
      var prev := ReferenceMessages(tx, refs, path, n - 1);
      var last := ReferenceMessage(tx, refs[n - 1], path, n - 1);
      assert ReferenceMessages(tx, refs, path, n) == prev + last;
      forall m: Message | m in prev + last
        ensures m.level == Warning && m.kind == BusinessRule &&
          exists i :: 0 <= i < n && m.path == Child(path, ValueSetEl, i) && !tx.fetchValueSet(refs[i]) &&
            (m.id == ReferenceInvalidType <==> tx.fetchResource(refs[i]).Some?) &&
            (m.id == ReferenceUnknown <==> tx.fetchResource(refs[i]).None?)
      {
        if m !in prev {
          assert m == last[0];
          var i := n - 1;
          assert m.path == Child(path, ValueSetEl, i) && !tx.fetchValueSet(refs[i]);
        }
      }
    }
  }

  /** Reference warnings never carry the union/intersection identity. */
  lemma NoUnionAmongReferences(tx: Terminology, refs: seq<string>, path: Path, n: nat)
    requires n <= |refs|
    ensures CountWithId(ReferenceMessages(tx, refs, path, n), ImportUnionIntersection) == 0
  {
    ReferenceWarningKinds(tx, refs, path, n);
    CountWithIdNone(ReferenceMessages(tx, refs, path, n), ImportUnionIntersection);
  }

  lemma {:induction false} CountWithIdNone(ms: seq<Message>, id: MessageId)
    requires forall m :: m in ms ==> m.id != id
    ensures CountWithId(ms, id) == 0
  {
    if |ms| > 0 {
      assert ms[0] in ms;
      assert forall m :: m in ms[1..] ==> m in ms;
      CountWithIdNone(ms[1..], id);
    }
  }

  /** More than one nested reference adds exactly one informational
      UNION_INTERSECTION warning at the include's path, whether or not the
      references resolve; one or none adds no such message. */
  lemma UnionNoticeOnce(tx: Terminology, refs: seq<string>, path: Path)
    ensures CountWithId(NestedValueSetMessages(tx, refs, path), ImportUnionIntersection) == (if |refs| > 1 then 1 else 0)
    ensures |refs| > 1 ==>
      NestedValueSetMessages(tx, refs, path)[|NestedValueSetMessages(tx, refs, path)| - 1] ==
      Message(Warning, Informational, path, ImportUnionIntersection, [])
  {
    NoUnionAmongReferences(tx, refs, path, |refs|);
    CountWithIdAppend(ReferenceMessages(tx, refs, path, |refs|), UnionNotice(refs, path), ImportUnionIntersection);
    if |refs| > 1 {
      CountOfSingleton(Message(Warning, Informational, path, ImportUnionIntersection, []), path, ImportUnionIntersection);
    }
  }

  // ---------------------------------------------------------------------------
  // The synchronous probe

  /** When the system is supported, the concept's messages are all at the
      concept's path: one invalid-code warning exactly when the code is not
      valid (the versioned identity when a version is given), followed by a
      hint carrying the result's message when there is one. */
  lemma SupportedConceptMessages(tx: Terminology, settings: Settings, concept: Concept, incPath: Path, conceptPath: Path,
                                 system: string, version: Option<string>)
    requires tx.validateCode(Coding(system, concept.code, version)).errorClass != CodeSystemUnsupported
    ensures var vv := tx.validateCode(Coding(system, concept.code, version));
      var r := ConceptReport(tx, settings, concept, incPath, conceptPath, system, version);
      r.ok &&
      (forall m :: m in r.messages ==> m.path == conceptPath && m.kind == BusinessRule) &&
      CountWithId(r.messages, InvalidCodeId(version)) == (if vv.isOk then 0 else 1) &&
      (!vv.isOk ==>
         r.messages[0] == Message(Warning, BusinessRule, conceptPath, InvalidCodeId(version), InvalidCodeArgs(system, version, concept.code))) &&
      (vv.message.Some? ==>
         r.messages[|r.messages| - 1] == Message(Information, BusinessRule, conceptPath, Literal(vv.message.value), []))
  {
    var vv := tx.validateCode(Coding(system, concept.code, version));
    var w := Check(Warning, BusinessRule, conceptPath, vv.isOk, InvalidCodeId(version), InvalidCodeArgs(system, version, concept.code));
    var h := if vv.message.Some? then [Message(Information, BusinessRule, conceptPath, Literal(vv.message.value), [])] else [];
    assert ConceptReport(tx, settings, concept, incPath, conceptPath, system, version).messages == w + h;
    CountWithIdAppend(w, h, InvalidCodeId(version));
    if !vv.isOk {
      CountOfSingleton(w[0], conceptPath, InvalidCodeId(version));
    }
    if h != [] {
      CountOfSingleton(h[0], conceptPath, InvalidCodeId(version));
    }
  }

  /** An unsupported system is reported with the versioned identity when a
      version is given, and otherwise as an example-system hint (examples
      allowed) or error, or as an unknown-system warning. */
  lemma UnsupportedConceptMessage(tx: Terminology, settings: Settings, concept: Concept, incPath: Path, conceptPath: Path,
                                  system: string, version: Option<string>)
    requires tx.validateCode(Coding(system, concept.code, version)).errorClass == CodeSystemUnsupported
    ensures var r := ConceptReport(tx, settings, concept, incPath, conceptPath, system, version);
      !r.ok && |r.messages| == 1 && r.messages[0].path == incPath &&
      r.messages[0].id == (if version.Some? then UnknownSystemWarningVer
                           else if !settings.isExampleUrl(system) then UnknownSystemWarning
                           else if settings.allowExamples then ExampleSystemHint else ExampleSystemError)
  {
  }

  /** The probe validates only the first concept, and nothing when there is
      none. */
  lemma ProbeFirstConcept(tx: Terminology, settings: Settings, inc: Include, path: Path, system: string)
    ensures |inc.concepts| == 0 ==> ProbeReport(tx, settings, inc, path, system) == Pass
    ensures |inc.concepts| > 0 ==>
      ProbeReport(tx, settings, inc, path, system) ==
      ConceptReport(tx, settings, inc.concepts[0], path, Child(path, ConceptEl, 0), system, inc.version)
  {
  }

  // ---------------------------------------------------------------------------
  // The batch

  /** The requests queued for the first n concepts are those for concepts
      1 .. n-1, in order, each at its concept's path. */
  lemma {:induction false} PendingRequestsAre(concepts: seq<Concept>, incPath: Path, system: string, version: Option<string>, n: nat)
    requires n <= |concepts|
    ensures var r := PendingRequests(concepts, incPath, system, version, n);
      |r| == (if n == 0 then 0 else n - 1) &&
      forall k :: 0 <= k < |r| ==>
        r[k] == Request(Child(incPath, ConceptEl, k + 1), Coding(system, concepts[k + 1].code, version))
  {
    if n > 1 {
      PendingRequestsAre(concepts, incPath, system, version, n - 1);
    }
  }

  /** The batch holds a request for every concept after the first when the
      probe of the first returned true, and is empty otherwise. */
  lemma IncludeBatchIsRest(tx: Terminology, settings: Settings, inc: Include, path: Path, system: string)
    ensures var b := IncludeBatch(tx, settings, inc, path, system);
      (!ProbeReport(tx, settings, inc, path, system).ok ==> b == []) &&
      (ProbeReport(tx, settings, inc, path, system).ok ==>
        |b| == (if |inc.concepts| == 0 then 0 else |inc.concepts| - 1) &&
        forall k :: 0 <= k < |b| ==>
          b[k] == Request(Child(path, ConceptEl, k + 1), Coding(system, inc.concepts[k + 1].code, inc.version)))
  {
    PendingRequestsAre(inc.concepts, path, system, inc.version, |inc.concepts|);
  }

  /** The requests whose result slot the batch call fills as not valid. */
  function Rejected(tx: Terminology, reqs: seq<Request>): (r: seq<Request>)
    ensures |r| <= |reqs|
    ensures forall x :: x in r ==> x in reqs && !tx.batchResult(x.coding)
  {
    if reqs == [] then []
    else Rejected(tx, reqs[..|reqs| - 1]) + (if tx.batchResult(reqs[|reqs| - 1].coding) then [] else [reqs[|reqs| - 1]])
  }

  /** The invalid-code message for one rejected request: a warning unless
      the value set is retired, then a hint; the versioned identity when a
      version is given. */
  function RejectionMessage(req: Request, system: string, version: Option<string>, retired: bool): Message {
    Message(if retired then Information else Warning, BusinessRule, req.path, InvalidCodeId(version),
            InvalidCodeArgs(system, version, req.coding.code))
  }

  /** Pairing messages with rejected requests extends over concatenation. */
  lemma RejectionsAppend(ms0: seq<Message>, rj0: seq<Request>, rm: seq<Message>, tail: seq<Request>,
                         system: string, version: Option<string>, retired: bool)
    requires |ms0| == |rj0| && forall k :: 0 <= k < |rj0| ==> ms0[k] == RejectionMessage(rj0[k], system, version, retired)
    requires |rm| == |tail| && forall k :: 0 <= k < |tail| ==> rm[k] == RejectionMessage(tail[k], system, version, retired)
    ensures |ms0 + rm| == |rj0 + tail|
    ensures forall k :: 0 <= k < |rj0 + tail| ==> (ms0 + rm)[k] == RejectionMessage((rj0 + tail)[k], system, version, retired)
  {
    forall k | 0 <= k < |rj0 + tail|
      ensures (ms0 + rm)[k] == RejectionMessage((rj0 + tail)[k], system, version, retired)
    {
      if k >= |rj0| {
        assert (rj0 + tail)[k] == tail[k - |rj0|];
        assert (ms0 + rm)[k] == rm[k - |rj0|];
      }
    }
  }

  lemma {:induction false} ResultMessagesAreRejections(tx: Terminology, batch: seq<Request>, system: string,
                                                        version: Option<string>, retired: bool, n: nat)
    requires n <= |batch|
    ensures var ms := ResultMessages(tx, batch, system, version, retired, n);
      var rj := Rejected(tx, batch[..n]);
      |ms| == |rj| && forall k :: 0 <= k < |rj| ==> ms[k] == RejectionMessage(rj[k], system, version, retired)
  {
    if n > 0 {
      ResultMessagesAreRejections(tx, batch, system, version, retired, n - 1);
      var last := batch[n - 1];
      var tail := if tx.batchResult(last.coding) then [] else [last];
      var rm := ResultMessage(tx, last, system, version, retired);
      assert batch[..n][..n - 1] == batch[..n - 1];
      assert batch[..n][n - 1] == last;
      assert Rejected(tx, batch[..n]) == Rejected(tx, batch[..n - 1]) + tail;
      assert |rm| == |tail|;
      RejectionsAppend(ResultMessages(tx, batch, system, version, retired, n - 1), Rejected(tx, batch[..n - 1]),
                       rm, tail, system, version, retired);
    }
  }

  /** The batch phase. Nothing is sent unless server validation is on, the
      batch is non-empty and a terminology server exists; then nothing is
      recorded and the result is true. More than 1000 requests are not sent:
      one TOO_MANY_CODES hint at the include's path, and false. A call that
      throws gives false and one EXCEPTION error at the first request's
      path. Otherwise the result is true and there is one message per
      rejected request, in batch order. */
  lemma BatchOutcome(tx: Terminology, settings: Settings, batch: seq<Request>, incPath: Path,
                     system: string, version: Option<string>, retired: bool)
    ensures var r := BatchReport(tx, settings, batch, incPath, system, version, retired);
      (!Submitted(tx, settings, batch) ==> r == Pass) &&
      (Submitted(tx, settings, batch) && |batch| > TooManyCodesToValidate ==>
        r == Report(false, [Message(Information, BusinessRule, incPath, IncludeTooManyCodes, [Num(|batch|)])])) &&
      (Submitted(tx, settings, batch) && |batch| <= TooManyCodesToValidate &&
       tx.validateCodeBatch(Codings(batch)).Some? ==>
        r == Report(false, [Message(Error, Exception, batch[0].path, Literal(tx.validateCodeBatch(Codings(batch)).value), [])])) &&
      (Submitted(tx, settings, batch) && |batch| <= TooManyCodesToValidate &&
       tx.validateCodeBatch(Codings(batch)).None? ==>
        r.ok && |r.messages| == |Rejected(tx, batch)| &&
        forall k :: 0 <= k < |r.messages| ==>
          r.messages[k] == RejectionMessage(Rejected(tx, batch)[k], system, version, retired))
  {
    ResultMessagesAreRejections(tx, batch, system, version, retired, |batch|);
    assert batch[..|batch|] == batch;
  }

  // ---------------------------------------------------------------------------
  // Includes

  /** An include without a system records the nested-reference warnings
      and then one NO_SYSTEM warning exactly when it lists concepts or
      filters; it returns true. */
  lemma NoSystemInclude(tx: Terminology, settings: Settings, inc: Include, path: Path, retired: bool)
    requires NoString(inc.system)
    ensures var r := IncludeReport(tx, settings, inc, path, retired);
      r.ok &&
      r.messages == NestedValueSetMessages(tx, inc.valueSets, path) +
        (if |inc.concepts| > 0 || |inc.filters| > 0 then [Message(Warning, BusinessRule, path, NoSystemWarning, [])] else [])
  {
    IncludeReportShape(tx, settings, inc, path, retired);
  }

  /** An include with a system records the nested-reference warnings, the
      probe's messages and the batch's, in that order; only the batch can
      make it return false: exactly when the batch is submitted and is
      either too large or the call throws. */
  lemma SystemInclude(tx: Terminology, settings: Settings, inc: Include, path: Path, retired: bool)
    requires !NoString(inc.system)
    ensures var sys := inc.system.value;
      var r := IncludeReport(tx, settings, inc, path, retired);
      var batch := IncludeBatch(tx, settings, inc, path, sys);
      r.messages == NestedValueSetMessages(tx, inc.valueSets, path) + (ProbeReport(tx, settings, inc, path, sys).messages +
        BatchReport(tx, settings, batch, path, sys, inc.version, retired).messages) &&
      (r.ok <==> !Submitted(tx, settings, batch) ||
                 (|batch| <= TooManyCodesToValidate && tx.validateCodeBatch(Codings(batch)).None?))
  {
    var sys := inc.system.value;
    IncludeReportShape(tx, settings, inc, path, retired);
    var batch := IncludeBatch(tx, settings, inc, path, sys);
    BatchOutcome(tx, settings, batch, path, sys, inc.version, retired);
    var content := SystemContentReport(tx, settings, inc, path, sys, retired);
    assert content == Report(BatchReport(tx, settings, batch, path, sys, inc.version, retired).ok,
                             ProbeReport(tx, settings, inc, path, sys).messages +
                             BatchReport(tx, settings, batch, path, sys, inc.version, retired).messages);
  }

  /** The includes (or excludes) loop returns true exactly when every one
      of the first n elements does, each validated at its own index. */
  lemma {:induction false} IncludesConjunction(tx: Terminology, settings: Settings, incs: seq<Include>, path: Path,
                                               element: ElementName, retired: bool, n: nat)
    requires n <= |incs|
    ensures IncludesReport(tx, settings, incs, path, element, retired, n).ok <==>
      forall k :: 0 <= k < n ==> IncludeReport(tx, settings, incs[k], Child(path, element, k), retired).ok
  {
    if n > 0 {
      IncludesConjunction(tx, settings, incs, path, element, retired, n - 1);
      var last := IncludeReport(tx, settings, incs[n - 1], Child(path, element, n - 1), retired);
      assert IncludesReport(tx, settings, incs, path, element, retired, n).ok ==
        (last.ok && IncludesReport(tx, settings, incs, path, element, retired, n - 1).ok);
      if IncludesReport(tx, settings, incs, path, element, retired, n).ok {
        forall k | 0 <= k < n
          ensures IncludeReport(tx, settings, incs[k], Child(path, element, k), retired).ok
        {
          if k == n - 1 {
            assert IncludeReport(tx, settings, incs[k], Child(path, element, k), retired) == last;
          }
        }
      } else if last.ok {
        var k :| 0 <= k < n - 1 && !IncludeReport(tx, settings, incs[k], Child(path, element, k), retired).ok;
      }
    }
  }

  /** A compose records every include's messages before any exclude's and
      returns true exactly when every include and every exclude does. */
  lemma ComposeOutcome(tx: Terminology, settings: Settings, c: Compose, path: Path, retired: bool)
    ensures var r := ComposeReport(tx, settings, c, path, retired);
      r.messages == IncludesReport(tx, settings, c.includes, path, IncludeEl, retired, |c.includes|).messages +
                    IncludesReport(tx, settings, c.excludes, path, ExcludeEl, retired, |c.excludes|).messages &&
      (r.ok <==>
        (forall k :: 0 <= k < |c.includes| ==> IncludeReport(tx, settings, c.includes[k], Child(path, IncludeEl, k), retired).ok) &&
        (forall k :: 0 <= k < |c.excludes| ==> IncludeReport(tx, settings, c.excludes[k], Child(path, ExcludeEl, k), retired).ok))
  {
    ComposeReportShape(tx, settings, c, path, retired);
    IncludesConjunction(tx, settings, c.includes, path, IncludeEl, retired, |c.includes|);
    IncludesConjunction(tx, settings, c.excludes, path, ExcludeEl, retired, |c.excludes|);
  }

  // ---------------------------------------------------------------------------
  // The value set

  /** The compose path of element cc: index -1 for a single compose, cc
      when there are several. */
  function ComposePath(vs: ValueSet, path: Path, cc: nat): Path {
    Child(path, ComposeEl, if |vs.composes| > 1 then cc else -1)
  }

  lemma {:induction false} ComposesConjunction(tx: Terminology, settings: Settings, vs: ValueSet, path: Path, n: nat)
    requires n <= |vs.composes|
    ensures ComposesReport(tx, settings, vs, path, n).ok <==>
      forall cc :: 0 <= cc < n ==> ComposeReport(tx, settings, vs.composes[cc], ComposePath(vs, path, cc), Retired(vs)).ok
  {
    if n > 0 {
      ComposesConjunction(tx, settings, vs, path, n - 1);
      var last := ComposeReport(tx, settings, vs.composes[n - 1], ComposePath(vs, path, n - 1), Retired(vs));
      assert ComposesReport(tx, settings, vs, path, n).ok == (last.ok && ComposesReport(tx, settings, vs, path, n - 1).ok);
      if ComposesReport(tx, settings, vs, path, n).ok {
        forall cc | 0 <= cc < n
          ensures ComposeReport(tx, settings, vs.composes[cc], ComposePath(vs, path, cc), Retired(vs)).ok
        {
          if cc == n - 1 {
            assert ComposeReport(tx, settings, vs.composes[cc], ComposePath(vs, path, cc), Retired(vs)) == last;
          }
        }
      } else if last.ok {
        var cc :| 0 <= cc < n - 1 && !ComposeReport(tx, settings, vs.composes[cc], ComposePath(vs, path, cc), Retired(vs)).ok;
      }
    }
  }

  /** validateValueSet returns true exactly when every compose does (none
      is looked at in an R2 context) and, unless the value set is
      contained, the shareable check does; an R2 context records only the
      shareable check's messages, a contained value set only the
      composes'. */
  lemma ValueSetOutcome(tx: Terminology, settings: Settings, vs: ValueSet, path: Path, contained: bool)
    ensures var r := ValueSetReport(tx, settings, vs, path, contained);
      (r.ok <==>
        (tx.isR2 || forall cc :: 0 <= cc < |vs.composes| ==>
                      ComposeReport(tx, settings, vs.composes[cc], ComposePath(vs, path, cc), Retired(vs)).ok) &&
        (contained || !(settings.forPublication && vs.hl7) || HasRequiredMetadata(vs))) &&
      (tx.isR2 ==> r.messages == (if contained then [] else ShareableReport(vs, path, settings.forPublication).messages)) &&
      (contained ==> r.messages == (if tx.isR2 then [] else ComposesReport(tx, settings, vs, path, |vs.composes|).messages))
  {
    ComposesConjunction(tx, settings, vs, path, |vs.composes|);
    ShareableReportMessages(vs, path, settings.forPublication);
    var composes := if tx.isR2 then Pass else ComposesReport(tx, settings, vs, path, |vs.composes|);
    var share := if contained then Pass else ShareableReport(vs, path, settings.forPublication);
    assert ValueSetReport(tx, settings, vs, path, contained) == Then(composes, share);
    assert composes.messages + [] == composes.messages;
  }
}
