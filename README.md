# Verified model of three HL7 FHIR core components

This project models three parts of the HL7 FHIR Java core library in Dafny and proves what each one guarantees:

- **ValueSet definition validation.** `ValueSetValidator` checks a FHIR ValueSet resource against several things:
  - the code systems it draws on;
  - the value sets it imports;
  - the terminology server;
  - for publication, the metadata a shareable value set must carry.

  It appends diagnostics to an error list and returns whether the value set is valid.
- **XLIFF 2.0 translation files.** `XLIFFProducer` writes language-translation units as XLIFF documents, in two ways: as a streaming per-language session, or in one call (`produce`). It also reads translation units back from a parsed XLIFF document (`loadSource`).
- **The Java constants file of the code generator.** `JavaConstantsGenerator.generate` fills the `Constants` template. It lists the concrete resource types joined by `|`, and fills in the version, its major.minor form, its base without the pre-release suffix, and the generation date.

## Modules

- **`Wrappers`** (wrappers.dfy): `Option` and `Result`.
- **`Utilities`** (utilities.dfy): `NoString`, which says a string is missing or empty, and one list regrouping lemma.
- **`ValueSetModel`** (valueset_model.dfy): the validator as values.
  - The elements of a ValueSet that the validator reads, the diagnostics (`Message`) and the element paths they are reported at.
  - The worker context and the settings, as oracle fields.
  - One specification function per validation step. It gives the step's result and the messages the step appends, in order. All of them go through one recursive `Run` over a `Call` datatype.
- **`ValueSetValidation`** (valueset_validator.dfy): the validator as a class.
  - The class is `ValueSetValidator`. Its `errors` list is mutated in place, like the Java `errors` list.
  - A `CodeSystemChecker` class records the concepts handed to it and whether `finish` was called.
  - Each method is proved to return exactly the specification's result and to append exactly the specification's messages, for code-system checkers that add none of their own ("## Left out").
- **`ValueSetProperties`** (valueset_properties.dfy): what those specification functions mean. It covers:
  - which warnings an imported value set produces, and where;
  - that the union notice appears once;
  - how the first concept decides whether the rest are batched;
  - the outcome of the batch under the 1000-code limit, a server exception, or per-code results;
  - that a compose or a value set is valid exactly when each of its parts is.
- **`Xliff`** (xliff.dfy): the XLIFF producer, session and loader.
  - A `TextBuilder` class stands for the StringBuilder, as the list of lines appended so far. Its text is every line followed by CRLF.
  - `XliffProducer` and `LanguageSession` are proved to emit exactly the specified lines.
  - `LoadSource` is proved against a function on an element tree.
  - A round-trip lemma loads `ProducedDom`, an element tree written by hand as the assumed parse of what `produce` writes, and gets back exactly the units with non-empty source and target, relabelled with the target language. That tree is not derived from the produced text; "## Left out" says when it is the right parse.
- **`ConstantsGenerator`** (constants_generator.dfy): the generator.
  - Java's left-to-right, non-overlapping `String.replace` is modelled as `ReplaceAll`.
  - The `|` join comes with a `Split` inverse.
  - `Generate` is proved to produce the template filled in the source's replacement order, with the version of the last concrete resource.
- **`TemplateProperties`** (template_properties.dfy): what the eight replacements do to a template.
  - A template is read as a list of pieces: text that opens no placeholder, or one of the eight placeholders. Text opens no placeholder when every `{` in it is followed by a character other than `{`. Single braces, as in the class body of a Java template, are allowed.
  - One replacement is proved to be the splice of its placeholder's value.
  - The eight replacements together are proved to be the eight splices in order. With values that open no placeholder either, that is every placeholder replaced by its value. "## Left out" names the templates this does not cover.

Notes on how the code is followed:

- **The 1000-code limit fails the include.** An include whose batch exceeds 1000 codes records an information message. Because `hint` returns the failed condition, the include's result also becomes false (ValueSetValidator.java:164-165). The model follows the code, not a reading of the limit as merely conservative.
- **Excludes count too.** `validateValueSetCompose` ANDs the results of the excludes into its result as well as those of the includes (ValueSetValidator.java:109-114), and so does the model.
- **The retired flag comes from the url.** `validateValueSet` passes `"retired".equals(url)` as the retired flag (ValueSetValidator.java:65), where the status element might have been expected. `ValueSetModel.Retired` models it as written: the url equals `retired`.
- **Filters do not affect the result.** The filter loop only updates a local `systemOk` that is never read again, and `validateValueSetIncludeFilter` always returns true. So filters never change an include's result or its messages.
- **In `produce`, every note is `n1`.** The note counter is reset for each unit, so every note it writes gets id `n1`. The session numbers its notes `n1`, `n2`, … across entries, and only entries with a context note get one.
- **The header starts with a blank line.** The first header line already ends in CRLF before `ln` adds one, so both writers start with an XML declaration followed by an empty line.

## Model

| member | source | states |
|---|---|---|
| Utilities.NoString | org.hl7.fhir.validation/src/main/java/org/hl7/fhir/validation/instance/type/ValueSetValidator.java:148 | `Utilities.noString`: a missing or empty string |
| ValueSetModel.GetSystemValidator | org.hl7.fhir.validation/src/main/java/org/hl7/fhir/validation/instance/type/ValueSetValidator.java:30-38 | the SNOMED CT checker is chosen exactly when the system is `http://snomed.info/sct`; the general checker for no system and for every other system |
| ValueSetModel.Check | org.hl7.fhir.validation/src/main/java/org/hl7/fhir/validation/instance/type/ValueSetValidator.java:79-94 | a rule, warning or hint records nothing when its condition holds, and otherwise exactly one message with the given level, type, path, id and arguments |
| ValueSetModel.ShareableMessage | org.hl7.fhir.validation/src/main/java/org/hl7/fhir/validation/instance/type/ValueSetValidator.java:79-94 | a missing shareable field is reported as a REQUIRED issue naming the field; it is an error exactly for an HL7 value set and a field other than name, otherwise a warning |
| ValueSetModel.Absent | org.hl7.fhir.validation/src/main/java/org/hl7/fhir/validation/instance/type/ValueSetValidator.java:79-94 | one field check yields the field exactly when the value set lacks that child |
| ValueSetModel.MissingFields | org.hl7.fhir.validation/src/main/java/org/hl7/fhir/validation/instance/type/ValueSetValidator.java:79-94 | the fields reported are exactly those the value set lacks |
| ValueSetModel.ShareableMessages | org.hl7.fhir.validation/src/main/java/org/hl7/fhir/validation/instance/type/ValueSetValidator.java:79-94 | one message per field, in order: the k-th is the message for the k-th field |
| ValueSetModel.ShareableReportMessages | org.hl7.fhir.validation/src/main/java/org/hl7/fhir/validation/instance/type/ValueSetValidator.java:75-98 | outside publication nothing is checked and the result is true; for publication one message per missing field; the result is false exactly for an HL7 value set missing url, version, title, status, experimental or description |
| ValueSetModel.FieldCheckMessages | org.hl7.fhir.validation/src/main/java/org/hl7/fhir/validation/instance/type/ValueSetValidator.java:79-94 | each field check is the shareable message of that field if it is absent, and nothing otherwise |
| ValueSetModel.ShareableMessagesAppend | org.hl7.fhir.validation/src/main/java/org/hl7/fhir/validation/instance/type/ValueSetValidator.java:79-94 | the field checks done one after another give the messages of the whole list of missing fields |
| ValueSetModel.ReferenceMessage | org.hl7.fhir.validation/src/main/java/org/hl7/fhir/validation/instance/type/ValueSetValidator.java:124-139 | an imported reference gets no message exactly when it resolves to a ValueSet; otherwise one business-rule warning at that valueSet child, "invalid type" exactly when it resolves to another resource, "unknown" exactly when it resolves to nothing |
| ValueSetModel.ConceptReport | org.hl7.fhir.validation/src/main/java/org/hl7/fhir/validation/instance/type/ValueSetValidator.java:206-245 | a concept check returns false exactly when the server reports the code system unsupported, with one message at the include's path whose level depends on version, example URL and allowExamples; otherwise an invalid-code warning when the code is not ok plus a hint when the server gave a message |
| ValueSetModel.Codings | org.hl7.fhir.validation/src/main/java/org/hl7/fhir/validation/instance/type/ValueSetValidator.java:171-172 | the codings sent in the batch call are those of the batch, in order |
| ValueSetModel.IncludeReportShape | org.hl7.fhir.validation/src/main/java/org/hl7/fhir/validation/instance/type/ValueSetValidator.java:118-203 | an include reports its imported-value-set warnings first; then, without a system, the no-system notice with result true, and with a system, the concept and batch phase, which decides the result |
| ValueSetModel.ComposeReportShape | org.hl7.fhir.validation/src/main/java/org/hl7/fhir/validation/instance/type/ValueSetValidator.java:101-116 | a compose reports its includes then its excludes, and is valid when both lists are |
| ValueSetModel.Run | org.hl7.fhir.validation/src/main/java/org/hl7/fhir/validation/instance/type/ValueSetValidator.java:59-201 | the value and the messages, in order, of every validation step from validateValueSet down to the batch; its cases are stated by the lemmas on the named steps below |
| ValueSetModel.ShareableReport | org.hl7.fhir.validation/src/main/java/org/hl7/fhir/validation/instance/type/ValueSetValidator.java:75-98 | outside publication mode nothing is checked and the result is true; only an HL7-owned value set can make it false |
| ValueSetModel.ReferenceMessages | org.hl7.fhir.validation/src/main/java/org/hl7/fhir/validation/instance/type/ValueSetValidator.java:122-140 | at most one warning per nested value-set reference, each a business-rule warning |
| ValueSetModel.UnionNotice | org.hl7.fhir.validation/src/main/java/org/hl7/fhir/validation/instance/type/ValueSetValidator.java:141-143 | exactly one informational union warning at the include's path when more than one value set is imported, none otherwise |
| ValueSetModel.PendingRequests | org.hl7.fhir.validation/src/main/java/org/hl7/fhir/validation/instance/type/ValueSetValidator.java:153-162 | one request for every concept after the first |
| ValueSetModel.ResultMessages | org.hl7.fhir.validation/src/main/java/org/hl7/fhir/validation/instance/type/ValueSetValidator.java:176-182 | at most one message per filled result slot; each is a business-rule warning, or a hint when the value set is retired |
| ValueSetModel.BatchReport | org.hl7.fhir.validation/src/main/java/org/hl7/fhir/validation/instance/type/ValueSetValidator.java:163-189 | the batch phase fails exactly when the batch is submitted and either exceeds 1000 codes or the call throws, and then records exactly one message |
| ValueSetModel.CheckedConcepts | org.hl7.fhir.validation/src/main/java/org/hl7/fhir/validation/instance/type/ValueSetValidator.java:147-198 | the concepts handed to the checker are a prefix of the include's: none exactly when there is no system or no concept, and all of them once more than one is checked |
| ValueSetModel.NoSystemNotice | org.hl7.fhir.validation/src/main/java/org/hl7/fhir/validation/instance/type/ValueSetValidator.java:199-201 | an include without a system gets exactly one business-rule NO_SYSTEM warning at its path when it lists concepts or filters, none otherwise |
| ValueSetModel.ComposeIndex | org.hl7.fhir.validation/src/main/java/org/hl7/fhir/validation/instance/type/ValueSetValidator.java:65 | a compose is pushed without an index when it is the only one, and with its position otherwise |
| ValueSetModel.Retired | org.hl7.fhir.validation/src/main/java/org/hl7/fhir/validation/instance/type/ValueSetValidator.java:65 | the retired flag passed down is whether the url is the text `retired` |
| ValueSetValidation.CodeSystemChecker.constructor | org.hl7.fhir.validation/src/main/java/org/hl7/fhir/validation/instance/type/ValueSetValidator.java:30-38 | a new checker of the chosen kind has seen no concept and is not finished |
| ValueSetValidation.CodeSystemChecker.CheckConcept | org.hl7.fhir.validation/src/main/java/org/hl7/fhir/validation/instance/type/ValueSetValidator.java:209 | the concept is appended to those the checker has seen |
| ValueSetValidation.CodeSystemChecker.Finish | org.hl7.fhir.validation/src/main/java/org/hl7/fhir/validation/instance/type/ValueSetValidator.java:198 | the checker becomes finished; the concepts seen are unchanged |
| ValueSetValidation.ValueSetValidator.constructor | org.hl7.fhir.validation/src/main/java/org/hl7/fhir/validation/instance/type/ValueSetValidator.java:55-57 | a validator starts with no recorded messages |
| ValueSetValidation.ValueSetValidator.Record | org.hl7.fhir.validation/src/main/java/org/hl7/fhir/validation/instance/type/ValueSetValidator.java:79-94 | rule, warning and hint return their condition and append the message of a failed check |
| ValueSetValidation.ValueSetValidator.ValidateValueSet | org.hl7.fhir.validation/src/main/java/org/hl7/fhir/validation/instance/type/ValueSetValidator.java:59-73 | returns and appends exactly what the value-set specification says: every compose unless the context is R2, then the shareable check unless the value set is contained |
| ValueSetValidation.ValueSetValidator.CheckShareableValueSet | org.hl7.fhir.validation/src/main/java/org/hl7/fhir/validation/instance/type/ValueSetValidator.java:75-98 | returns and appends exactly the shareable report for the validator's publication setting |
| ValueSetValidation.ValueSetValidator.CheckShareableHL7 | org.hl7.fhir.validation/src/main/java/org/hl7/fhir/validation/instance/type/ValueSetValidator.java:77-86 | for an HL7 value set: true exactly when the six required children are present; appends the seven field checks in source order |
| ValueSetValidation.ValueSetValidator.CheckShareableOther | org.hl7.fhir.validation/src/main/java/org/hl7/fhir/validation/instance/type/ValueSetValidator.java:87-95 | for any other value set: appends the seven field checks (all warnings) in source order |
| ValueSetValidation.ValueSetValidator.ValidateValueSetCompose | org.hl7.fhir.validation/src/main/java/org/hl7/fhir/validation/instance/type/ValueSetValidator.java:101-116 | returns and appends exactly the compose report: the includes, each at its index, then the excludes |
| ValueSetValidation.ValueSetValidator.ValidateIncludeList | org.hl7.fhir.validation/src/main/java/org/hl7/fhir/validation/instance/type/ValueSetValidator.java:103-114 | the loop over includes (or excludes) returns the conjunction and appends every element's messages in order |
| ValueSetValidation.ValueSetValidator.ValidateValueSetInclude | org.hl7.fhir.validation/src/main/java/org/hl7/fhir/validation/instance/type/ValueSetValidator.java:118-203 | returns and appends exactly the include report; its checker has the kind chosen for the system, has seen the checked concepts in order, and is finished exactly when there is a system |
| ValueSetValidation.ValueSetValidator.ValidateSystemContent | org.hl7.fhir.validation/src/main/java/org/hl7/fhir/validation/instance/type/ValueSetValidator.java:148-198 | for an include with a system: the probe, then the batch; returns the batch result and appends both phases' messages |
| ValueSetValidation.ValueSetValidator.ValidateNestedValueSets | org.hl7.fhir.validation/src/main/java/org/hl7/fhir/validation/instance/type/ValueSetValidator.java:122-143 | appends the reference warnings and then the union notice |
| ValueSetValidation.ValueSetValidator.ValidateReference | org.hl7.fhir.validation/src/main/java/org/hl7/fhir/validation/instance/type/ValueSetValidator.java:125-138 | appends the warning for one imported reference |
| ValueSetValidation.ValueSetValidator.ValidateConcepts | org.hl7.fhir.validation/src/main/java/org/hl7/fhir/validation/instance/type/ValueSetValidator.java:150-162 | the concept loop: the first concept is checked synchronously and decides systemOk; the rest are queued only if it passed; the batch and the checker's concepts are as specified |
| ValueSetValidation.ValueSetValidator.SubmitBatch | org.hl7.fhir.validation/src/main/java/org/hl7/fhir/validation/instance/type/ValueSetValidator.java:163-189 | returns and appends exactly the batch report |
| ValueSetValidation.ValueSetValidator.ReportResults | org.hl7.fhir.validation/src/main/java/org/hl7/fhir/validation/instance/type/ValueSetValidator.java:176-182 | appends each batched concept's result message in batch order |
| ValueSetValidation.ValueSetValidator.ReportResult | org.hl7.fhir.validation/src/main/java/org/hl7/fhir/validation/instance/type/ValueSetValidator.java:177-181 | appends one batched concept's warning-or-hint, with or without the version |
| ValueSetValidation.ValueSetValidator.ValidateValueSetIncludeConcept | org.hl7.fhir.validation/src/main/java/org/hl7/fhir/validation/instance/type/ValueSetValidator.java:206-245 | returns and appends exactly the concept report, and hands the concept to the checker |
| ValueSetValidation.ValueSetValidator.PrepareValidateValueSetIncludeConcept | org.hl7.fhir.validation/src/main/java/org/hl7/fhir/validation/instance/type/ValueSetValidator.java:247-257 | hands the concept to the checker and returns the request for its coding (with the version when given) at the concept's path |
| ValueSetValidation.ValueSetValidator.ValidateValueSetIncludeFilter | org.hl7.fhir.validation/src/main/java/org/hl7/fhir/validation/instance/type/ValueSetValidator.java:259-265 | always true, records nothing |
| ValueSetValidation.PendingRequestsPrefix | org.hl7.fhir.validation/src/main/java/org/hl7/fhir/validation/instance/type/ValueSetValidator.java:153-162 | each further concept extends the queued batch by its own request |
| ValueSetValidation.PendingRequestsOnPrefix | org.hl7.fhir.validation/src/main/java/org/hl7/fhir/validation/instance/type/ValueSetValidator.java:153-162 | the batch queued after n concepts depends only on those n concepts |
| ValueSetValidation.ComposesStep | org.hl7.fhir.validation/src/main/java/org/hl7/fhir/validation/instance/type/ValueSetValidator.java:64-67 | one more compose ANDs its result in and appends its messages |
| ValueSetValidation.IncludesStep | org.hl7.fhir.validation/src/main/java/org/hl7/fhir/validation/instance/type/ValueSetValidator.java:105-113 | one more include ANDs its result in and appends its messages |
| ValueSetValidation.ResultMessagesStep | org.hl7.fhir.validation/src/main/java/org/hl7/fhir/validation/instance/type/ValueSetValidator.java:176-182 | one more batched result appends its message |
| ValueSetProperties.ReferenceMessageAt | org.hl7.fhir.validation/src/main/java/org/hl7/fhir/validation/instance/type/ValueSetValidator.java:124-139 | a reference's warning lies at its own valueSet child and only when it does not resolve to a ValueSet; it is never the union notice |
| ValueSetProperties.ReferenceWarnings | org.hl7.fhir.validation/src/main/java/org/hl7/fhir/validation/instance/type/ValueSetValidator.java:122-140 | each valueSet child carries exactly one warning if its reference is not a ValueSet, and none otherwise |
| ValueSetProperties.ReferenceWarningAt | org.hl7.fhir.validation/src/main/java/org/hl7/fhir/validation/instance/type/ValueSetValidator.java:122-140 | the same, for one index i |
| ValueSetProperties.ReferenceWarningLast | org.hl7.fhir.validation/src/main/java/org/hl7/fhir/validation/instance/type/ValueSetValidator.java:122-140 | the last reference processed carries its warning exactly when it does not resolve |
| ValueSetProperties.PathsBelow | org.hl7.fhir.validation/src/main/java/org/hl7/fhir/validation/instance/type/ValueSetValidator.java:122-140 | no warning is reported at a valueSet index not yet processed |
| ValueSetProperties.ReferenceStepAt | org.hl7.fhir.validation/src/main/java/org/hl7/fhir/validation/instance/type/ValueSetValidator.java:122-140 | messages at a path add up one reference at a time |
| ValueSetProperties.ReferenceStepWithId | org.hl7.fhir.validation/src/main/java/org/hl7/fhir/validation/instance/type/ValueSetValidator.java:122-140 | messages with an id add up one reference at a time |
| ValueSetProperties.ReferenceWarningKinds | org.hl7.fhir.validation/src/main/java/org/hl7/fhir/validation/instance/type/ValueSetValidator.java:124-139 | every reference message is a business-rule warning at the index of a reference that is not a ValueSet, "invalid type" exactly when it is another resource, "unknown" exactly when it is nothing |
| ValueSetProperties.NoUnionAmongReferences | org.hl7.fhir.validation/src/main/java/org/hl7/fhir/validation/instance/type/ValueSetValidator.java:122-140 | the reference warnings never include the union notice |
| ValueSetProperties.UnionNoticeOnce | org.hl7.fhir.validation/src/main/java/org/hl7/fhir/validation/instance/type/ValueSetValidator.java:141-143 | the union/intersection notice appears exactly once when an include imports more than one value set, and never otherwise; it is the last of the import messages, an informational warning at the include |
| ValueSetProperties.SupportedConceptMessages | org.hl7.fhir.validation/src/main/java/org/hl7/fhir/validation/instance/type/ValueSetValidator.java:224-242 | when the code system is supported the check passes; all its messages are business rules at the concept; exactly one invalid-code warning when the code is not ok, first; the server's message as the last hint |
| ValueSetProperties.UnsupportedConceptMessage | org.hl7.fhir.validation/src/main/java/org/hl7/fhir/validation/instance/type/ValueSetValidator.java:211-235 | when the code system is unsupported the check fails with one message at the include: the versioned warning, else the unknown-system warning for a non-example URL, else the example hint or error as allowExamples says |
| ValueSetProperties.ProbeFirstConcept | org.hl7.fhir.validation/src/main/java/org/hl7/fhir/validation/instance/type/ValueSetValidator.java:153-157 | without concepts the probe is silent and true; otherwise it is the synchronous check of concept 0 |
| ValueSetProperties.PendingRequestsAre | org.hl7.fhir.validation/src/main/java/org/hl7/fhir/validation/instance/type/ValueSetValidator.java:153-162 | after n concepts the queue holds exactly concepts 1..n-1, each at its own concept path with the include's system and version |
| ValueSetProperties.IncludeBatchIsRest | org.hl7.fhir.validation/src/main/java/org/hl7/fhir/validation/instance/type/ValueSetValidator.java:150-162 | if the first concept fails nothing is batched; otherwise the batch is every other concept, in order |
| ValueSetProperties.Rejected | org.hl7.fhir.validation/src/main/java/org/hl7/fhir/validation/instance/type/ValueSetValidator.java:176-182 | no more requests than were sent; each is one of them and its batched result is not ok |
| ValueSetProperties.ResultMessagesAreRejections | org.hl7.fhir.validation/src/main/java/org/hl7/fhir/validation/instance/type/ValueSetValidator.java:176-182 | reporting the batch results yields one message per rejected code, in batch order, and nothing for accepted codes |
| ValueSetProperties.BatchOutcome | org.hl7.fhir.validation/src/main/java/org/hl7/fhir/validation/instance/type/ValueSetValidator.java:163-189 | no call unless server validation is on, the batch is non-empty and a server exists; over 1000 codes: one too-many hint and false; an exception: one error at the first request's path and false; otherwise true and exactly the rejection messages |
| ValueSetProperties.NoSystemInclude | org.hl7.fhir.validation/src/main/java/org/hl7/fhir/validation/instance/type/ValueSetValidator.java:199-201 | an include without a system is valid; after the import warnings it warns only when it lists concepts or filters |
| ValueSetProperties.SystemInclude | org.hl7.fhir.validation/src/main/java/org/hl7/fhir/validation/instance/type/ValueSetValidator.java:148-198 | an include with a system reports imports, probe and batch messages in that order, and fails exactly when a submitted batch is over the limit or throws |
| ValueSetProperties.IncludesConjunction | org.hl7.fhir.validation/src/main/java/org/hl7/fhir/validation/instance/type/ValueSetValidator.java:103-108 | the include loop's result holds exactly when every include's result does |
| ValueSetProperties.ComposeOutcome | org.hl7.fhir.validation/src/main/java/org/hl7/fhir/validation/instance/type/ValueSetValidator.java:101-116 | a compose's messages are its includes' then its excludes'; it is valid exactly when every include and every exclude is |
| ValueSetProperties.ComposesConjunction | org.hl7.fhir.validation/src/main/java/org/hl7/fhir/validation/instance/type/ValueSetValidator.java:61-68 | the compose loop's result holds exactly when every compose's does |
| ValueSetProperties.ValueSetOutcome | org.hl7.fhir.validation/src/main/java/org/hl7/fhir/validation/instance/type/ValueSetValidator.java:59-73 | a value set is valid exactly when (R2, or every compose is valid) and (contained, or not an HL7 publication, or the required metadata is present); R2 skips the composes and a contained value set skips the shareable check |
| Xliff.LinesEndInCrlf | org.hl7.fhir.utilities/src/main/java/org/hl7/fhir/utilities/i18n/XLIFFProducer.java:33-35 | text built from at least one line ends in CRLF |
| Xliff.Digit | org.hl7.fhir.utilities/src/main/java/org/hl7/fhir/utilities/i18n/XLIFFProducer.java:52 | a decimal digit character has the digit's value |
| Xliff.NatToString | org.hl7.fhir.utilities/src/main/java/org/hl7/fhir/utilities/i18n/XLIFFProducer.java:52 | the note number is written as non-empty decimal digits without a leading zero |
| Xliff.DecimalRoundTrip | org.hl7.fhir.utilities/src/main/java/org/hl7/fhir/utilities/i18n/XLIFFProducer.java:52 | reading the written number back as decimal gives the number |
| Xliff.NoteIdsDistinct | org.hl7.fhir.utilities/src/main/java/org/hl7/fhir/utilities/i18n/XLIFFProducer.java:48-52 | different note numbers give different note ids |
| Xliff.UnitLinesShape | org.hl7.fhir.utilities/src/main/java/org/hl7/fhir/utilities/i18n/XLIFFProducer.java:47-58 | a unit is 7 lines with a context note and 4 otherwise, opened by its trans-unit line and closed by source, target and the closing tag |
| Xliff.ProducedFraming | org.hl7.fhir.utilities/src/main/java/org/hl7/fhir/utilities/i18n/XLIFFProducer.java:143-167 | the produced document is the header, then the units, then the footer; it starts with the header text and ends with the footer text |
| Xliff.ProducedUnitsAppend | org.hl7.fhir.utilities/src/main/java/org/hl7/fhir/utilities/i18n/XLIFFProducer.java:149-161 | producing two lists of units one after the other gives the lines of the joined list |
| Xliff.ProducedBlock | org.hl7.fhir.utilities/src/main/java/org/hl7/fhir/utilities/i18n/XLIFFProducer.java:149-161 | unit k's lines sit between the lines of the units before it and after it |
| Xliff.ProducedNoteIds | org.hl7.fhir.utilities/src/main/java/org/hl7/fhir/utilities/i18n/XLIFFProducer.java:150-156 | in produce every context note is numbered 1 (id `n1`), because the counter restarts for each unit |
| Xliff.SessionBlock | org.hl7.fhir.utilities/src/main/java/org/hl7/fhir/utilities/i18n/XLIFFProducer.java:47-58 | entry k of a session writes its unit with note number k+1 after the earlier entries |
| Xliff.SessionStep | org.hl7.fhir.utilities/src/main/java/org/hl7/fhir/utilities/i18n/XLIFFProducer.java:47-58 | one more entry appends its unit numbered by the new entry count |
| Xliff.TextBuilder.constructor | org.hl7.fhir.utilities/src/main/java/org/hl7/fhir/utilities/i18n/XLIFFProducer.java:26 | a new builder holds no lines |
| Xliff.TextBuilder.Ln | org.hl7.fhir.utilities/src/main/java/org/hl7/fhir/utilities/i18n/XLIFFProducer.java:138-140 | appends exactly one line, which the text ends with followed by CRLF |
| Xliff.XliffProducer.constructor | org.hl7.fhir.utilities/src/main/java/org/hl7/fhir/utilities/i18n/XLIFFProducer.java:81-89 | a new producer has written no files |
| Xliff.XliffProducer.FileCount | org.hl7.fhir.utilities/src/main/java/org/hl7/fhir/utilities/i18n/XLIFFProducer.java:131-134 | reports the number of files finished |
| Xliff.XliffProducer.Produce | org.hl7.fhir.utilities/src/main/java/org/hl7/fhir/utilities/i18n/XLIFFProducer.java:143-167 | the written document is exactly the header, every translation unit in order, and the footer |
| Xliff.XliffProducer.ProduceUnit | org.hl7.fhir.utilities/src/main/java/org/hl7/fhir/utilities/i18n/XLIFFProducer.java:150-160 | one loop iteration of produce appends exactly that unit's lines |
| Xliff.LanguageSession.constructor | org.hl7.fhir.utilities/src/main/java/org/hl7/fhir/utilities/i18n/XLIFFProducer.java:24-31 | a new, unfinished session holds exactly the four header lines and has written no entry |
| Xliff.LanguageSession.Ln | org.hl7.fhir.utilities/src/main/java/org/hl7/fhir/utilities/i18n/XLIFFProducer.java:33-35 | appends exactly one line to the session's document |
| Xliff.LanguageSession.Entry | org.hl7.fhir.utilities/src/main/java/org/hl7/fhir/utilities/i18n/XLIFFProducer.java:47-58 | increments the note counter first, then appends exactly the unit's lines with that counter as its note number; until the session is finished its document stays the header followed by one block per entry |
| Xliff.LanguageSession.Finish | org.hl7.fhir.utilities/src/main/java/org/hl7/fhir/utilities/i18n/XLIFFProducer.java:38-44 | appends exactly the three footer lines and counts one more file on the producer; the first finish leaves the header, one block per entry, then the footer |
| Xliff.EntryLines | org.hl7.fhir.utilities/src/main/java/org/hl7/fhir/utilities/i18n/XLIFFProducer.java:47-58 | the lines a session writes for one entry, its note numbered by the entry count; UnitLinesShape states their shape |
| Xliff.ProducedText | org.hl7.fhir.utilities/src/main/java/org/hl7/fhir/utilities/i18n/XLIFFProducer.java:143-167 | the whole document produce writes, each line followed by CR LF; ProducedFraming states its framing |
| Xliff.ReadUnit | org.hl7.fhir.utilities/src/main/java/org/hl7/fhir/utilities/i18n/XLIFFProducer.java:113-119 | the unit read from one trans-unit, kept only with non-empty source and target; ReadUnitKept states it |
| Xliff.KeptUnits | org.hl7.fhir.utilities/src/main/java/org/hl7/fhir/utilities/i18n/XLIFFProducer.java:112-120 | the units read from a file's trans-units, in order; KeptUnitsExactly states which |
| Xliff.LoadedUnits | org.hl7.fhir.utilities/src/main/java/org/hl7/fhir/utilities/i18n/XLIFFProducer.java:110-121 | the units of every file of the document, in order; LoadSource is proved to return them |
| Xliff.LanguageSession.WriteEntry | org.hl7.fhir.utilities/src/main/java/org/hl7/fhir/utilities/i18n/XLIFFProducer.java:49-57 | appends exactly the unit's lines, its note numbered by the current count |
| Xliff.LoadSource | org.hl7.fhir.utilities/src/main/java/org/hl7/fhir/utilities/i18n/XLIFFProducer.java:102-123 | fails with "Not an XLIFF document" exactly when the root is not `xliff`; otherwise returns the kept units of every file's body, in document order |
| Xliff.LoadFileUnits | org.hl7.fhir.utilities/src/main/java/org/hl7/fhir/utilities/i18n/XLIFFProducer.java:111-120 | the inner loop appends exactly one file's kept units to the list |
| Xliff.ReadUnitKept | org.hl7.fhir.utilities/src/main/java/org/hl7/fhir/utilities/i18n/XLIFFProducer.java:113-119 | a trans-unit is kept exactly when it has non-empty source and target text; the unit takes the file's target language, the resname and those texts |
| Xliff.KeptUnitsAppend | org.hl7.fhir.utilities/src/main/java/org/hl7/fhir/utilities/i18n/XLIFFProducer.java:112-120 | filtering two runs of trans-units one after the other gives the filter of the joined run |
| Xliff.KeptUnitsExactly | org.hl7.fhir.utilities/src/main/java/org/hl7/fhir/utilities/i18n/XLIFFProducer.java:112-120 | a unit is loaded exactly when some trans-unit reads as it |
| Xliff.FilesUnitsNonEmpty | org.hl7.fhir.utilities/src/main/java/org/hl7/fhir/utilities/i18n/XLIFFProducer.java:110-121 | every loaded unit has non-empty source and target text |
| Xliff.KeptUnitsNonEmpty | org.hl7.fhir.utilities/src/main/java/org/hl7/fhir/utilities/i18n/XLIFFProducer.java:117-119 | the same, for the units of one body |
| Xliff.ReadProducedUnit | org.hl7.fhir.utilities/src/main/java/org/hl7/fhir/utilities/i18n/XLIFFProducer.java:151-160 | reading `UnitElement`, the assumed parse of a trans-unit as produce writes it, gives the unit back with the file's language, exactly when its texts are non-empty |
| Xliff.ProducedUnitsNamed | org.hl7.fhir.utilities/src/main/java/org/hl7/fhir/utilities/i18n/XLIFFProducer.java:149-161 | every child produce puts in the body is a trans-unit |
| Xliff.ProducedUnitsKept | org.hl7.fhir.utilities/src/main/java/org/hl7/fhir/utilities/i18n/XLIFFProducer.java:112-120 | filtering the produced trans-units keeps exactly the units with non-empty texts, in order |
| Xliff.ProduceThenLoad | org.hl7.fhir.utilities/src/main/java/org/hl7/fhir/utilities/i18n/XLIFFProducer.java:102-123 | loading `ProducedDom`, the assumed parse of the document produce writes, returns exactly the units with non-empty source and target, in order, labelled with the target language |
| ConstantsGenerator.IsConcreteResource | org.hl7.fhir.core.generator/src/org/hl7/fhir/core/generator/codegen/JavaConstantsGenerator.java:23 | a structure is a concrete resource when it is a resource kind, a specialization and not abstract |
| ConstantsGenerator.ConcreteTypes | org.hl7.fhir.core.generator/src/org/hl7/fhir/core/generator/codegen/JavaConstantsGenerator.java:22-28 | the types of the concrete resources, in list order; ConcreteTypesExactly states which |
| ConstantsGenerator.LastVersion | org.hl7.fhir.core.generator/src/org/hl7/fhir/core/generator/codegen/JavaConstantsGenerator.java:22-28 | the version after the loop; LastVersionUnchanged and LastVersionOfLast state it |
| ConstantsGenerator.Join | org.hl7.fhir.core.generator/src/org/hl7/fhir/core/generator/codegen/JavaConstantsGenerator.java:24-25 | the type names with `\|` between them; SplitJoin and JoinEdges state it |
| ConstantsGenerator.ReplaceAll | org.hl7.fhir.core.generator/src/org/hl7/fhir/core/generator/codegen/JavaConstantsGenerator.java:31-39 | `String.replace` of a literal target; ReplaceAbsent, ReplaceFirst, ReplaceRender and ReplaceSkipToken state it |
| ConstantsGenerator.Fill | org.hl7.fhir.core.generator/src/org/hl7/fhir/core/generator/codegen/JavaConstantsGenerator.java:30-39 | the eight replacements in the source's order; FillInStages and FillTemplate state what they do |
| ConstantsGenerator.Split | org.hl7.fhir.core.generator/src/org/hl7/fhir/core/generator/codegen/JavaConstantsGenerator.java:24-25 | splitting the resource-type list at `\|` always gives at least one part |
| ConstantsGenerator.SplitNoBar | org.hl7.fhir.core.generator/src/org/hl7/fhir/core/generator/codegen/JavaConstantsGenerator.java:24-25 | a text without `\|` is one part |
| ConstantsGenerator.SplitAfterBar | org.hl7.fhir.core.generator/src/org/hl7/fhir/core/generator/codegen/JavaConstantsGenerator.java:24-25 | text after the last `\|` is the last part |
| ConstantsGenerator.SplitJoin | org.hl7.fhir.core.generator/src/org/hl7/fhir/core/generator/codegen/JavaConstantsGenerator.java:24-25 | the `\|`-joined list of type names splits back into exactly those names |
| ConstantsGenerator.JoinEdges | org.hl7.fhir.core.generator/src/org/hl7/fhir/core/generator/codegen/JavaConstantsGenerator.java:24-25 | the joined list is empty exactly when there are no types, and never starts or ends with `\|` |
| ConstantsGenerator.JoinSnoc | org.hl7.fhir.core.generator/src/org/hl7/fhir/core/generator/codegen/JavaConstantsGenerator.java:24-25 | the first type is appended without a separator, every later one after `\|` |
| ConstantsGenerator.ConcreteTypesAppend | org.hl7.fhir.core.generator/src/org/hl7/fhir/core/generator/codegen/JavaConstantsGenerator.java:22-28 | the listed types of two runs of definitions are those of the joined run |
| ConstantsGenerator.ConcreteTypesExactly | org.hl7.fhir.core.generator/src/org/hl7/fhir/core/generator/codegen/JavaConstantsGenerator.java:23 | a type is listed exactly when some definition is a non-abstract specialization resource of that type |
| ConstantsGenerator.LastVersionUnchanged | org.hl7.fhir.core.generator/src/org/hl7/fhir/core/generator/codegen/JavaConstantsGenerator.java:26 | without concrete resources the generator keeps its version |
| ConstantsGenerator.LastVersionOfLast | org.hl7.fhir.core.generator/src/org/hl7/fhir/core/generator/codegen/JavaConstantsGenerator.java:22-28 | otherwise the version is that of the last concrete resource |
| ConstantsGenerator.IndexOf | org.hl7.fhir.core.generator/src/org/hl7/fhir/core/generator/codegen/JavaConstantsGenerator.java:38 | the first position of the character, or -1 when it does not occur |
| ConstantsGenerator.VersionBase | org.hl7.fhir.core.generator/src/org/hl7/fhir/core/generator/codegen/JavaConstantsGenerator.java:38 | the base version is the prefix before the first `-`, contains no `-`, and is the whole version when there is none |
| ConstantsGenerator.ReplaceAbsent | org.hl7.fhir.core.generator/src/org/hl7/fhir/core/generator/codegen/JavaConstantsGenerator.java:31-39 | replacing a token that does not occur leaves the text unchanged |
| ConstantsGenerator.ReplaceFirst | org.hl7.fhir.core.generator/src/org/hl7/fhir/core/generator/codegen/JavaConstantsGenerator.java:31-39 | the leftmost occurrence is replaced and the scan resumes after it |
| ConstantsGenerator.ReplaceWhole | org.hl7.fhir.core.generator/src/org/hl7/fhir/core/generator/codegen/JavaConstantsGenerator.java:31-39 | a text that is exactly the token becomes the replacement |
| ConstantsGenerator.FillPlain | org.hl7.fhir.core.generator/src/org/hl7/fhir/core/generator/codegen/JavaConstantsGenerator.java:30-39 | a template without `{` comes out unchanged |
| TemplateProperties.TokenName | org.hl7.fhir.core.generator/src/org/hl7/fhir/core/generator/codegen/JavaConstantsGenerator.java:31-39 | each of the eight placeholders is its non-empty, `{`-free name between double braces |
| TemplateProperties.TokenShape | org.hl7.fhir.core.generator/src/org/hl7/fhir/core/generator/codegen/JavaConstantsGenerator.java:31-39 | every placeholder starts with `{{` and holds no other `{` |
| TemplateProperties.TokensDiffer | org.hl7.fhir.core.generator/src/org/hl7/fhir/core/generator/codegen/JavaConstantsGenerator.java:31-39 | two different placeholders differ at a position past their `{{`, so neither is a prefix of the other |
| TemplateProperties.ReplaceSkipPlain | org.hl7.fhir.core.generator/src/org/hl7/fhir/core/generator/codegen/JavaConstantsGenerator.java:31-39 | replacing a placeholder passes over text that holds no `{{` and does not end in `{`, whatever follows it |
| TemplateProperties.ReplaceHead | org.hl7.fhir.core.generator/src/org/hl7/fhir/core/generator/codegen/JavaConstantsGenerator.java:31-39 | a placeholder at the head is replaced and the scan resumes right after it |
| TemplateProperties.ReplaceKeep | org.hl7.fhir.core.generator/src/org/hl7/fhir/core/generator/codegen/JavaConstantsGenerator.java:31-39 | where the placeholder does not start, the first character is kept and the scan moves on by one |
| TemplateProperties.ReplaceSkipToken | org.hl7.fhir.core.generator/src/org/hl7/fhir/core/generator/codegen/JavaConstantsGenerator.java:31-39 | replacing one placeholder passes over a different placeholder unchanged |
| TemplateProperties.RenderAppend | org.hl7.fhir.core.generator/src/org/hl7/fhir/core/generator/codegen/JavaConstantsGenerator.java:31-39 | the text of two runs of pieces is the text of the first followed by that of the second |
| TemplateProperties.ReplaceRender | org.hl7.fhir.core.generator/src/org/hl7/fhir/core/generator/codegen/JavaConstantsGenerator.java:31-39 | one `replace` call on any template of placeholders and text that opens no placeholder, with any value, is the template with exactly that placeholder's occurrences replaced; the inserted value is not rescanned |
| TemplateProperties.PlainTextSplice | org.hl7.fhir.core.generator/src/org/hl7/fhir/core/generator/codegen/JavaConstantsGenerator.java:31-39 | splicing pieces whose text opens no placeholder into such pieces keeps every text piece opening none |
| TemplateProperties.FillInStages | org.hl7.fhir.core.generator/src/org/hl7/fhir/core/generator/codegen/JavaConstantsGenerator.java:31-39 | the eight replacements act in the source's order on every template of placeholders and text that opens no placeholder, and all such values: each replaces every occurrence of its placeholder left by the earlier ones, including those an earlier value brought in (a jid holding `{{date}}` ends up as the date), and never those a later value brings in |
| TemplateProperties.SpliceSingle | org.hl7.fhir.core.generator/src/org/hl7/fhir/core/generator/codegen/JavaConstantsGenerator.java:31-39 | splicing one piece replaces it exactly when it is that placeholder |
| TemplateProperties.SpliceAppend | org.hl7.fhir.core.generator/src/org/hl7/fhir/core/generator/codegen/JavaConstantsGenerator.java:31-39 | splicing distributes over concatenation |
| TemplateProperties.StagesAppend | org.hl7.fhir.core.generator/src/org/hl7/fhir/core/generator/codegen/JavaConstantsGenerator.java:31-39 | the eight splices distribute over concatenation |
| TemplateProperties.StagesOne | org.hl7.fhir.core.generator/src/org/hl7/fhir/core/generator/codegen/JavaConstantsGenerator.java:31-39 | with plain values, the eight splices turn one piece into its text or its placeholder's value |
| TemplateProperties.StagesExpand | org.hl7.fhir.core.generator/src/org/hl7/fhir/core/generator/codegen/JavaConstantsGenerator.java:31-39 | with plain values, the eight splices give the template with every placeholder replaced by its value at once |
| TemplateProperties.FillTemplate | org.hl7.fhir.core.generator/src/org/hl7/fhir/core/generator/codegen/JavaConstantsGenerator.java:30-39 | a template of placeholders and text that opens no placeholder (single `{` allowed, no `{{` and no `{` just before a placeholder), filled with values that open none either, comes out with every placeholder, wherever and however often it occurs, replaced by its value |
| ConstantsGenerator.JavaConstantsGenerator.constructor | org.hl7.fhir.core.generator/src/org/hl7/fhir/core/generator/codegen/JavaConstantsGenerator.java:15-17 | the generator keeps its date, version and jid |
| ConstantsGenerator.JavaConstantsGenerator.Generate | org.hl7.fhir.core.generator/src/org/hl7/fhir/core/generator/codegen/JavaConstantsGenerator.java:19-44 | the version becomes that of the last concrete resource (or stays); the output is the template with jid, license, start mark, the `\|`-joined concrete types, version, major.minor, base version and date replaced in that order |

## Left out

- **Output and streams.** The model does not write files, flush or close streams, or track a folder or file name. The XLIFF writers return or hold the document text, and the generator returns its output.
- **XML parsing.** `XMLUtil.parseToDom` and `TextFile.streamToBytes` are not part of this model. `LoadSource` takes the document's element tree as an `Element` value, and reading a stream into it is left out.
- **The XMLUtil helpers.** `XMLUtil` is not part of this model. Its helpers are modelled on these assumptions:
  - `getNamedChildren` lists the element children with that name, in order;
  - `getNamedChild` gives the first of them;
  - `getNamedChildText` gives that child's text;
  - `getAttribute` gives `""` for a missing attribute;
  - a missing `body` element has no children.
- **Debug and timing output.** The debug printing and the timing around the batch call are left out, because they record nothing (ValueSetValidator.java:167-175).
- **The code-system checkers' own checks.** The `SnomedCTChecker` and `GeneralCodeSystemChecker` classes are not part of this model. `CodeSystemChecker` records only the concepts handed to it and whether it was finished. The source hands `errors` to both checkers (ValueSetValidator.java:32, 35, 36), so their `checkConcept` and `finish` (lines 209 and 198) may append messages of their own. The model's checker appends none, so "exactly the specification's messages" holds only for checkers that add no messages themselves.
- **Terminology services are oracles.** `fetchResource`, `validateCode`, `validateCodeBatch` and the per-slot batch results are fields of `Terminology`. `isHL7`, `isExampleUrl`, `isForPublication`, `isAllowExamples` and `isValidateValueSetCodesOnTxServer` are value fields or oracles. Two consequences:
  - A slot's result depends only on its coding, so two requests with the same coding get the same result.
  - `batchResult` is total. In the source the results loop runs inside the same `try` as `validateCodeBatch` (ValueSetValidator.java:171-187). An exception while reading a slot, such as a null `getResult()`, would give the warnings already recorded followed by the EXCEPTION error and false. The model cannot express that case.
- **Node stacks and locations.** The NodeStack and literal paths are modelled as a `Path` datatype of element names and indexes. Line and column numbers are not recorded.
- **Message texts.** Message texts (the I18nConstants lookup) and rule dates are not modelled.
- **`Utilities.escapeXml`** is a parameter. `VersionUtilities.getMajMin`, `startVMarkValue`, the license and the `Constants` adornment are parameters of `Generate`.
- **Ordering of definitions.** `definitions.getStructures().getSortedList()` is the `structures` sequence as given.
- **Null handling in the generator.** A null version, type or template is not modelled. Derivation is an `Option`, so a missing derivation is not a specialization.
- **The base-generator constructor.** `JavaBaseGenerator` is not part of this model. JavaConstantsGenerator.java:16 passes `(version, genDate)` to the base constructor, the reverse of its own `(genDate, version)` parameters. The model assumes the base constructor declares its parameters in that order, so that each value lands in the field of its name; if it declared them the other way, the date and version would be swapped.
- **The private `check` stub** in XLIFFProducer.java:126-129 does nothing and is not modelled.
- **Other XLIFF plumbing.** The `XLiffLanguageProducerSession` wrapper and the producer's empty `finish` are not modelled.
- Xliff.ProduceThenLoad and Xliff.ReadProducedUnit: they start from `ProducedDom` and `UnitElement`, the element tree the produced text is assumed to parse to, not from `ProducedText` itself, because XML parsing is not modelled. That tree is the right parse only under three conditions:
  - the file id, the two languages and every unit id contain no `"`, `<`, `&`, tab, line feed or carriage return, because produce writes them into attributes without escaping (XLIFFProducer.java:147, 151; the session does the same at lines 29 and 49), and an XML parser turns a tab, line feed or carriage return in an attribute value into a space;
  - the parser gives every text back exactly as it was before `escapeXml`;
  - no text contains a carriage return, which XML parsing would normalise.

  The model does not capture what happens otherwise, such as a malformed document or an attribute cut short at a `"`.
- TemplateProperties.FillInStages and TemplateProperties.FillTemplate: they do not cover templates whose text holds a `{{` that is not one of the eight placeholders, such as `{{other}}`, or a `{` directly before a placeholder, as in `{{{jid}}`, or values of that kind. In such text a `{{` token can start inside plain text, and the replacement is then not the splice of the placeholder.
- **Other files.** The language-transform CLI task and the XML parser tests are not part of this model.
- **Helper splits for proof size.** Some Java methods are split into several Dafny methods with the same behaviour:
  - `validateValueSetInclude` into ValidateNestedValueSets, ValidateReference, ValidateSystemContent, ValidateConcepts, SubmitBatch, ReportResults and ReportResult;
  - `checkShareableValueSet` into CheckShareableHL7 and CheckShareableOther;
  - the compose's two loops into ValidateIncludeList;
  - the loops of `loadSource` and `produce` into LoadFileUnits and ProduceUnit;
  - the session's `entry` into Entry, which keeps the counter and the document invariant, and WriteEntry, which writes the lines.
- **`Xliff.LanguageSession.Entry`:** the note counter is an unbounded integer, so Java's 32-bit `int` wrap-around after 2^31-1 entries is not modelled. The same goes for `Xliff.XliffProducer.FileCount`.
- **`ConstantsGenerator.ReplaceAll`:** it requires a non-empty token, which every call here supplies. Java's behaviour for an empty target is not modelled.
- **`ValueSetModel.Check`** does not model level-dependent suppression or filtering of messages that BaseValidator may apply. Every failed check records its message.
- **Concurrency.** No concurrency is modelled.
