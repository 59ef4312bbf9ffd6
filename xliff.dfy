/** The XLIFF translation-file producer: a language session that writes one
    document line by line as text units arrive, the one-shot `produce` that
    writes a whole document from a list of translation units, and the loader
    that reads translation units back out of a parsed document. Each writer
    appends lines to a text buffer, every line followed by CR LF; what they
    write is given by the line-list functions below. */
module Xliff {
  import opened Wrappers
  import opened Utilities

  const Crlf: string := "\r\n"

  /** A unit handed to a language session: id, optional note (context1),
      source text and target text. */
  datatype TextUnit = TextUnit(id: string, context1: Option<string>, srcText: string, tgtText: string)

  /** A translation unit: a text unit together with its target language. */
  datatype TranslationUnit = TranslationUnit(language: string, id: string, context1: Option<string>,
                                             srcText: string, tgtText: string)

  // ---------------------------------------------------------------------------
  // Lines of text

  /** The text of the lines ls, each followed by CR LF. */
  function Lines(ls: seq<string>): string {
    if |ls| == 0 then "" else Lines(ls[..|ls| - 1]) + (ls[|ls| - 1] + Crlf)
  }

  lemma LinesSnoc(ls: seq<string>, l: string)
    ensures Lines(ls + [l]) == Lines(ls) + (l + Crlf)
  {
    assert (ls + [l])[..|ls|] == ls;
  }

  /** Writing two lists of lines one after the other writes their texts one
      after the other. */
  lemma {:induction false} LinesAppend(a: seq<string>, b: seq<string>)
    ensures Lines(a + b) == Lines(a) + Lines(b)
    decreases |b|
  {
    if |b| == 0 {
      assert a + b == a;
    } else {
      var b' := b[..|b| - 1];
      var l := b[|b| - 1];
      assert a + b == (a + b') + [l];
      assert b == b' + [l];
      LinesSnoc(a + b', l);
      LinesSnoc(b', l);
      LinesAppend(a, b');
    }
  }

  /** A non-empty list of lines ends in CR LF. */
  lemma LinesEndInCrlf(ls: seq<string>)
    requires |ls| > 0
    ensures |Lines(ls)| >= 2 && Lines(ls)[|Lines(ls)| - 2..] == Crlf
  {
    var t := Lines(ls);
    var front := Lines(ls[..|ls| - 1]) + ls[|ls| - 1];
    assert t == front + Crlf;
    assert t[|t| - 2..] == Crlf;
  }

  // ---------------------------------------------------------------------------
  // Note numbers

  function Digit(d: nat): (c: char)
    requires d < 10
    ensures '0' <= c <= '9' && c as int - '0' as int == d
  {
    ('0' as int + d) as char
  }

  /** The decimal text of n, as Java renders a non-negative int. */
  function NatToString(n: nat): (s: string)
    ensures |s| > 0 && forall k :: 0 <= k < |s| ==> '0' <= s[k] <= '9'
    ensures (|s| == 1) == (n < 10)
    ensures |s| > 1 ==> s[0] != '0'
  {
    if n < 10 then [Digit(n)] else NatToString(n / 10) + [Digit(n % 10)]
  }

  /** The number a decimal text denotes. */
  function DecimalValue(s: string): nat
    requires forall k :: 0 <= k < |s| ==> '0' <= s[k] <= '9'
  {
    if |s| == 0 then 0 else DecimalValue(s[..|s| - 1]) * 10 + (s[|s| - 1] as int - '0' as int)
  }

  /** Reading back the decimal text of n gives n. */
  lemma {:induction false} DecimalRoundTrip(n: nat)
    ensures DecimalValue(NatToString(n)) == n
  {
    if n >= 10 {
      var s := NatToString(n);
      var p := NatToString(n / 10);
      assert s == p + [Digit(n % 10)];
      assert s[..|s| - 1] == p;
      DecimalRoundTrip(n / 10);
    }
  }

  /** The id of the note of a unit numbered i: "n" followed by i. */
  function NoteId(i: nat): string {
    "n" + NatToString(i)
  }

  /** Different note numbers give different note ids. */
  lemma NoteIdsDistinct(j: nat, k: nat)
    requires j != k
    ensures NoteId(j) != NoteId(k)
  {
    if NoteId(j) == NoteId(k) {
      assert NoteId(j)[1..] == NatToString(j);
      assert NoteId(k)[1..] == NatToString(k);
      DecimalRoundTrip(j);
      DecimalRoundTrip(k);
    }
  }

  // ---------------------------------------------------------------------------
  // The lines of a document

  /** The XML declaration (the literal carries its own CR LF, so an empty
      line follows it), the xliff start tag, the file element and body. */
  function HeaderLines(id: string, baseLang: string, targetLang: string): seq<string> {
    [XmlDeclaration] + [XliffOpen] + [FileOpen(id, baseLang, targetLang)] + ["    <body>"]
  }

  const XmlDeclaration: string := "<?xml version=\"1.0\" ?>\r\n"

  const XliffOpen: string := "<xliff xmlns=\"urn:oasis:names:tc:xliff:document:2.0\" version=\"2.0\">"

  function FileOpen(id: string, baseLang: string, targetLang: string): string {
    "  <file source-language=\"" + baseLang + "\" target-language=\"" + targetLang + "\" id=\"" + id +
    "\" original=\"Resource " + id + "\" datatype=\"KEYVALUEJSON\">"
  }

  /** The closing body, file and xliff tags. */
  const FooterLines: seq<string> := ["    </body>"] + ["  </file>"] + ["</xliff>"]

  /** The two writers indent the notes block differently. */
  datatype Layout = SessionLayout | ProduceLayout

  function NotesOpen(layout: Layout): string {
    match layout
    case SessionLayout => "        <notes>"
    case ProduceLayout => "             <notes>"
  }

  function NoteLine(layout: Layout, noteNo: nat, text: string): string {
    match layout
    case SessionLayout => "          <note id=\"" + NoteId(noteNo) + "\">" + text + "</note>"
    case ProduceLayout => "               <note id=\"" + NoteId(noteNo) + "\">" + text + "</note>"
  }

  function NotesClose(layout: Layout): string {
    match layout
    case SessionLayout => "        </notes>"
    case ProduceLayout => "             </notes>"
  }

  function TransUnitOpen(fileId: string, unitId: string): string {
    "      <trans-unit id=\"" + fileId + "\" resname=\"" + unitId + "\">"
  }

  function SourceLine(text: string, escape: string -> string): string {
    "        <source>" + escape(text) + "</source>"
  }

  function TargetLine(text: string, escape: string -> string): string {
    "        <target>" + escape(text) + "</target>"
  }

  const TransUnitClose: string := "      </trans-unit>"

  /** The start of a trans-unit block: the opening tag, then the notes
      block only when there is a note. */
  function UnitHead(layout: Layout, fileId: string, unitId: string, context1: Option<string>, noteNo: nat,
                    escape: string -> string): seq<string> {
    match context1
    case None => [TransUnitOpen(fileId, unitId)]
    case Some(c) =>
      [TransUnitOpen(fileId, unitId)] + [NotesOpen(layout)] + [NoteLine(layout, noteNo, escape(c))] + [NotesClose(layout)]
  }

  /** One trans-unit block. */
  function UnitLines(layout: Layout, fileId: string, unitId: string, context1: Option<string>,
                     srcText: string, tgtText: string, noteNo: nat, escape: string -> string): seq<string> {
    UnitHead(layout, fileId, unitId, context1, noteNo, escape) +
    [SourceLine(srcText, escape)] + [TargetLine(tgtText, escape)] + [TransUnitClose]
  }

  /** A block opens with the unit's id as resname and closes with the escaped
      source, the escaped target and the closing tag; between them is the
      notes block, three lines exactly when there is a note. */
  lemma UnitLinesShape(layout: Layout, fileId: string, unitId: string, context1: Option<string>,
                       srcText: string, tgtText: string, noteNo: nat, escape: string -> string)
    ensures var ls := UnitLines(layout, fileId, unitId, context1, srcText, tgtText, noteNo, escape);
      |ls| == (if context1.Some? then 7 else 4) &&
      ls[0] == TransUnitOpen(fileId, unitId) &&
      ls[|ls| - 3] == SourceLine(srcText, escape) &&
      ls[|ls| - 2] == TargetLine(tgtText, escape) &&
      ls[|ls| - 1] == TransUnitClose
  {
  }

  /** The block of the i-th entry of a session (counting from 1). */
  function EntryLines(fileId: string, unit: TextUnit, i: nat, escape: string -> string): seq<string> {
    UnitLines(SessionLayout, fileId, unit.id, unit.context1, unit.srcText, unit.tgtText, i, escape)
  }

  /** The blocks of a session's entries: the k-th carries note number k. */
  function SessionUnitsLines(fileId: string, units: seq<TextUnit>, escape: string -> string): seq<string> {
    if |units| == 0 then []
    else SessionUnitsLines(fileId, units[..|units| - 1], escape) + EntryLines(fileId, units[|units| - 1], |units|, escape)
  }

  /** The block `produce` writes for one unit: its note is always number 1. */
  function ProduceUnitLines(fileId: string, tu: TranslationUnit, escape: string -> string): seq<string> {
    UnitLines(ProduceLayout, fileId, tu.id, tu.context1, tu.srcText, tu.tgtText, 1, escape)
  }

  function ProducedUnitsLines(fileId: string, tus: seq<TranslationUnit>, escape: string -> string): seq<string> {
    if |tus| == 0 then []
    else ProducedUnitsLines(fileId, tus[..|tus| - 1], escape) + ProduceUnitLines(fileId, tus[|tus| - 1], escape)
  }

  /** The whole document `produce` writes. */
  function ProducedLines(id: string, baseLang: string, targetLang: string, tus: seq<TranslationUnit>,
                         escape: string -> string): seq<string> {
    HeaderLines(id, baseLang, targetLang) + ProducedUnitsLines(id, tus, escape) + FooterLines
  }

  function ProducedText(id: string, baseLang: string, targetLang: string, tus: seq<TranslationUnit>,
                        escape: string -> string): string {
    Lines(ProducedLines(id, baseLang, targetLang, tus, escape))
  }

  // ---------------------------------------------------------------------------
  // What the writers promise

  /** The produced text starts with the header and ends with the footer,
      with the units' blocks between them. */
  lemma ProducedFraming(id: string, baseLang: string, targetLang: string, tus: seq<TranslationUnit>,
                        escape: string -> string)
    ensures var t := ProducedText(id, baseLang, targetLang, tus, escape);
      var h := Lines(HeaderLines(id, baseLang, targetLang));
      var f := Lines(FooterLines);
      t == h + Lines(ProducedUnitsLines(id, tus, escape)) + f &&
      h <= t && |f| <= |t| && t[|t| - |f|..] == f
  {
    var hl := HeaderLines(id, baseLang, targetLang);
    var ul := ProducedUnitsLines(id, tus, escape);
    LinesAppend(hl + ul, FooterLines);
    LinesAppend(hl, ul);
    var t := ProducedText(id, baseLang, targetLang, tus, escape);
    var h := Lines(hl);
    var u := Lines(ul);
    var f := Lines(FooterLines);
    assert t == h + u + f;
    assert t[..|h|] == h;
    assert t[|t| - |f|..] == f;
  }

  lemma {:induction false} ProducedUnitsAppend(fileId: string, a: seq<TranslationUnit>, b: seq<TranslationUnit>,
                                               escape: string -> string)
    ensures ProducedUnitsLines(fileId, a + b, escape) ==
            ProducedUnitsLines(fileId, a, escape) + ProducedUnitsLines(fileId, b, escape)
    decreases |b|
  {
    if |b| == 0 {
      assert a + b == a;
    } else {
      var b' := b[..|b| - 1];
      var u := ProduceUnitLines(fileId, b[|b| - 1], escape);
      assert (a + b)[..|a + b| - 1] == a + b';
      assert (a + b)[|a + b| - 1] == b[|b| - 1];
      assert ProducedUnitsLines(fileId, a + b, escape) == ProducedUnitsLines(fileId, a + b', escape) + u;
      ProducedUnitsAppend(fileId, a, b', escape);
      AppendAssoc(ProducedUnitsLines(fileId, a, escape), ProducedUnitsLines(fileId, b', escape), u);
    }
  }

  /** `produce` writes exactly one block per unit, in list order: the k-th
      unit's block sits between the blocks of the units before it and the
      blocks of the units after it. */
  lemma ProducedBlock(fileId: string, tus: seq<TranslationUnit>, k: nat, escape: string -> string)
    requires k < |tus|
    ensures ProducedUnitsLines(fileId, tus, escape) ==
            ProducedUnitsLines(fileId, tus[..k], escape) + ProduceUnitLines(fileId, tus[k], escape) +
            ProducedUnitsLines(fileId, tus[k + 1..], escape)
  {
    assert tus == tus[..k + 1] + tus[k + 1..];
    ProducedUnitsAppend(fileId, tus[..k + 1], tus[k + 1..], escape);
    assert tus[..k + 1][..k] == tus[..k];
  }

  /** Every note `produce` writes has id n1, whatever the unit's position. */
  lemma ProducedNoteIds(fileId: string, tu: TranslationUnit, escape: string -> string)
    requires tu.context1.Some?
    ensures ProduceUnitLines(fileId, tu, escape)[2] == NoteLine(ProduceLayout, 1, escape(tu.context1.value))
    ensures NoteId(1) == "n1"
  {
    assert NatToString(1) == ['1'];
  }

  /** In a session the k-th entry (counting from 0) is written as note
      number k + 1, right after the entries before it. */
  lemma SessionBlock(fileId: string, units: seq<TextUnit>, k: nat, escape: string -> string)
    requires k < |units|
    ensures SessionUnitsLines(fileId, units[..k + 1], escape) ==
            SessionUnitsLines(fileId, units[..k], escape) + EntryLines(fileId, units[k], k + 1, escape)
  {
    assert units[..k + 1][..k] == units[..k];
  }

  /** Adding an entry to a session appends its block numbered by the new
      entry count. */
  lemma SessionStep(fileId: string, units: seq<TextUnit>, unit: TextUnit, escape: string -> string)
    ensures SessionUnitsLines(fileId, units + [unit], escape) ==
            SessionUnitsLines(fileId, units, escape) + EntryLines(fileId, unit, |units| + 1, escape)
  {
    assert (units + [unit])[..|units|] == units;
  }

  // ---------------------------------------------------------------------------
  // The writers

  /** The text buffer the writers append to (a StringBuilder used only
      through `ln`), kept as the lines appended so far; its text is
      Lines(lines). `block` holds the lines appended since the last
      StartBlock, after the lines in `base`. */
  class TextBuilder {
    var lines: seq<string>
    ghost var base: seq<string>
    ghost var block: seq<string>

    /** `toString`. */
    function Text(): string
      reads this
    {
      Lines(lines)
    }

    ghost predicate Valid()
      reads this
    {
      lines == base + block
    }

    constructor()
      ensures Valid() && lines == [] && base == [] && block == []
    {
      lines := [];
      base := [];
      block := [];
    }

    /** `ln`: append one line; the text grows by the line and CR LF
        (LinesSnoc). */
    method Ln(line: string)
      requires Valid()
      modifies this
      ensures Valid() && lines == old(lines) + [line]
      ensures base == old(base) && block == old(block) + [line]
      ensures |old(block)| == 0 ==> block == [line]
    {
      lines := lines + [line];
      block := block + [line];
    }

    ghost method StartBlock()
      requires Valid()
      modifies this
      ensures Valid() && lines == old(lines) && base == lines && block == []
    {
      base := lines;
      block := [];
    }
  }

  /** The producer: `produce`, and the count of files its sessions finish. */
  class XliffProducer {
    var filecount: int

    constructor()
      ensures filecount == 0
    {
      filecount := 0;
    }

    method FileCount() returns (n: int)
      ensures n == filecount
    {
      n := filecount;
    }

    /** Write a whole document for the given translations; the text is
        returned rather than written to a file. */
    method Produce(id: string, baseLang: string, targetLang: string, translations: seq<TranslationUnit>,
                   escape: string -> string) returns (xml: string)
      ensures xml == ProducedText(id, baseLang, targetLang, translations, escape)
    {
      var sb := new TextBuilder();
      sb.Ln(XmlDeclaration);
      sb.Ln(XliffOpen);
      sb.Ln(FileOpen(id, baseLang, targetLang));
      sb.Ln("    <body>");
      for k := 0 to |translations|
        invariant sb.Valid()
        invariant sb.lines == HeaderLines(id, baseLang, targetLang) + ProducedUnitsLines(id, translations[..k], escape)
      {
        var tu := translations[k];
        ProduceUnit(sb, id, tu, escape);
        assert translations[..k + 1][..k] == translations[..k];
        AppendAssoc(HeaderLines(id, baseLang, targetLang), ProducedUnitsLines(id, translations[..k], escape),
                    ProduceUnitLines(id, tu, escape));
      }
      assert translations[..|translations|] == translations;
      sb.StartBlock();
      sb.Ln("    </body>");
      sb.Ln("  </file>");
      sb.Ln("</xliff>");
      assert sb.lines == ProducedLines(id, baseLang, targetLang, translations, escape);
      xml := sb.Text();
    }

    /** The body of `produce`'s loop for one unit. */
    method ProduceUnit(sb: TextBuilder, id: string, tu: TranslationUnit, escape: string -> string)
      requires sb.Valid()
      modifies sb
      ensures sb.Valid() && sb.lines == old(sb.lines) + ProduceUnitLines(id, tu, escape)
    {
      sb.StartBlock();
      var i := 0;
      sb.Ln(TransUnitOpen(id, tu.id));
      if tu.context1.Some? {
        i := i + 1;
        sb.Ln(NotesOpen(ProduceLayout));
        sb.Ln(NoteLine(ProduceLayout, i, escape(tu.context1.value)));
        sb.Ln(NotesClose(ProduceLayout));
      }
      sb.Ln(SourceLine(tu.srcText, escape));
      sb.Ln(TargetLine(tu.tgtText, escape));
      sb.Ln(TransUnitClose);
    }
  }

  /** A language session: writes one document for one target language as
      entries arrive, numbering notes by the entry count. */
  class LanguageSession {
    const producer: XliffProducer
    const id: string
    const baseLang: string
    const targetLang: string
    const escape: string -> string
    const xml: TextBuilder
    var i: int
    ghost var entries: seq<TextUnit>
    ghost var finished: bool

    /** Until the session is finished, the document is the header followed
        by one block per entry so far. */
    ghost predicate Valid()
      reads this, xml
    {
      xml.Valid() && i == |entries| &&
      (!finished ==> xml.lines == HeaderLines(id, baseLang, targetLang) + SessionUnitsLines(id, entries, escape))
    }

    /** Opens the document: the header lines, and no entries yet. */
    constructor(producer: XliffProducer, id: string, baseLang: string, targetLang: string, escape: string -> string)
      ensures Valid() && fresh(xml)
      ensures this.producer == producer && this.id == id && this.baseLang == baseLang &&
              this.targetLang == targetLang && this.escape == escape
      ensures xml.lines == HeaderLines(id, baseLang, targetLang)
      ensures i == 0 && entries == [] && !finished
    {
      this.producer := producer;
      this.id := id;
      this.baseLang := baseLang;
      this.targetLang := targetLang;
      this.escape := escape;
      var sb := new TextBuilder();
      xml := sb;
      i := 0;
      entries := [];
      finished := false;
      new;
      Ln(XmlDeclaration);
      Ln(XliffOpen);
      Ln(FileOpen(id, baseLang, targetLang));
      Ln("    <body>");
    }

    /** `ln`: append one line and CR LF to the document. */
    method Ln(line: string)
      requires xml.Valid()
      modifies xml
      ensures xml.Valid()
      ensures xml.lines == old(xml.lines) + [line]
      ensures xml.base == old(xml.base) && xml.block == old(xml.block) + [line]
      ensures |old(xml.block)| == 0 ==> xml.block == [line]
    {
      xml.Ln(line);
    }

    /** Write one entry: the counter goes up whether or not the unit has a
        note, and the note (if any) is numbered by the new count. */
    method Entry(unit: TextUnit)
      requires Valid()
      modifies this, xml
      ensures Valid()
      ensures i == old(i) + 1 && entries == old(entries) + [unit] && finished == old(finished)
      ensures xml.lines == old(xml.lines) + EntryLines(id, unit, i, escape)
      ensures xml.Text() == old(xml.Text()) + Lines(EntryLines(id, unit, i, escape))
      ensures old(xml.lines) == HeaderLines(id, baseLang, targetLang) + SessionUnitsLines(id, old(entries), escape) ==>
              xml.lines == HeaderLines(id, baseLang, targetLang) + SessionUnitsLines(id, entries, escape)
    {
      i := i + 1;
      entries := entries + [unit];
      WriteEntry(unit);
      LinesAppend(old(xml.lines), EntryLines(id, unit, i, escape));
      SessionStep(id, old(entries), unit, escape);
      AppendAssoc(HeaderLines(id, baseLang, targetLang), SessionUnitsLines(id, old(entries), escape),
                  EntryLines(id, unit, i, escape));
    }

    /** The lines of one entry, its note numbered by the current count. */
    method WriteEntry(unit: TextUnit)
      requires xml.Valid() && i >= 0
      modifies xml
      ensures xml.Valid() && xml.lines == old(xml.lines) + EntryLines(id, unit, i, escape)
    {
      xml.StartBlock();
      Ln(TransUnitOpen(id, unit.id));
      if unit.context1.Some? {
        Ln(NotesOpen(SessionLayout));
        Ln(NoteLine(SessionLayout, i, escape(unit.context1.value)));
        Ln(NotesClose(SessionLayout));
      }
      Ln(SourceLine(unit.srcText, escape));
      Ln(TargetLine(unit.tgtText, escape));
      Ln(TransUnitClose);
    }

    /** Close the document with the three closing lines and count the file;
        the file itself is not written here. */
    method Finish()
      requires Valid()
      modifies this, xml, producer
      ensures Valid() && finished
      ensures entries == old(entries) && i == old(i)
      ensures xml.lines == old(xml.lines) + FooterLines
      ensures !old(finished) ==>
              xml.lines == HeaderLines(id, baseLang, targetLang) + SessionUnitsLines(id, entries, escape) + FooterLines
      ensures xml.Text() == old(xml.Text()) + Lines(FooterLines)
      ensures producer.filecount == old(producer.filecount) + 1
    {
      xml.StartBlock();
      Ln("    </body>");
      Ln("  </file>");
      Ln("</xliff>");
      LinesAppend(old(xml.lines), FooterLines);
      producer.filecount := producer.filecount + 1;
      finished := true;
    }
  }

  // ---------------------------------------------------------------------------
  // Loading

  /** A parsed XML element: its name, attributes, child elements and (for
      leaf elements) text content. */
  datatype Element = Element(name: string, attributes: map<string, string>, children: seq<Element>, text: string)

  /** `getAttribute`: the attribute's value, or "" when it is absent. */
  function Attribute(e: Element, a: string): string {
    if a in e.attributes then e.attributes[a] else ""
  }

  /** `getNamedChildren`: the elements of es named n, in order. */
  function NamedChildren(es: seq<Element>, n: string): seq<Element> {
    if |es| == 0 then []
    else NamedChildren(es[..|es| - 1], n) + (if es[|es| - 1].name == n then [es[|es| - 1]] else [])
  }

  /** `getNamedChild`: the first element of es named n, if any. */
  function NamedChild(es: seq<Element>, n: string): Option<Element> {
    if |es| == 0 then None
    else if es[0].name == n then Some(es[0])
    else NamedChild(es[1..], n)
  }

  /** `getNamedChildText`: the text of the first element of es named n, if any. */
  function NamedChildText(es: seq<Element>, n: string): Option<string> {
    match NamedChild(es, n)
    case None => None
    case Some(c) => Some(c.text)
  }

  /** The translation unit read from one trans-unit element of a file whose
      target language is lang: kept only when its source and target texts
      are both present and non-empty. */
  function ReadUnit(lang: string, t: Element): Option<TranslationUnit> {
    var notes := NamedChild(t.children, "notes");
    var src := NamedChildText(t.children, "source");
    var tgt := NamedChildText(t.children, "target");
    if NoString(src) || NoString(tgt) then None
    else
      Some(TranslationUnit(lang, Attribute(t, "resname"),
                           if notes.None? then None else NamedChildText(notes.value.children, "note"),
                           src.value, tgt.value))
  }

  function KeptUnits(lang: string, ts: seq<Element>): seq<TranslationUnit> {
    if |ts| == 0 then []
    else
      KeptUnits(lang, ts[..|ts| - 1]) +
      (match ReadUnit(lang, ts[|ts| - 1]) case None => [] case Some(u) => [u])
  }

  /** The trans-unit elements of a file's body; none when there is no body. */
  function TransUnitsOf(file: Element): seq<Element> {
    match NamedChild(file.children, "body")
    case None => []
    case Some(body) => NamedChildren(body.children, "trans-unit")
  }

  function FileUnits(file: Element): seq<TranslationUnit> {
    KeptUnits(Attribute(file, "target-language"), TransUnitsOf(file))
  }

  function FilesUnits(files: seq<Element>): seq<TranslationUnit> {
    if |files| == 0 then [] else FilesUnits(files[..|files| - 1]) + FileUnits(files[|files| - 1])
  }

  /** What `loadSource` returns for an xliff root element. */
  function LoadedUnits(root: Element): seq<TranslationUnit> {
    FilesUnits(NamedChildren(root.children, "file"))
  }

  /** `loadSource` on the parsed document's root element. */
  method LoadSource(root: Element) returns (r: Result<seq<TranslationUnit>, string>)
    ensures root.name != "xliff" ==> r == Failure("Not an XLIFF document")
    ensures root.name == "xliff" ==> r == Success(LoadedUnits(root))
  {
    if root.name != "xliff" {
      return Failure("Not an XLIFF document");
    }
    var list: seq<TranslationUnit> := [];
    var files := NamedChildren(root.children, "file");
    for fi := 0 to |files|
      invariant list == FilesUnits(files[..fi])
    {
      list := LoadFileUnits(files[fi], list);
      assert files[..fi + 1][..fi] == files[..fi];
    }
    assert files[..|files|] == files;
    return Success(list);
  }

  /** The body of `loadSource`'s loop over files: the units kept from one
      file are appended to the list. */
  method LoadFileUnits(file: Element, list: seq<TranslationUnit>) returns (result: seq<TranslationUnit>)
    ensures result == list + FileUnits(file)
  {
    var body := NamedChild(file.children, "body");
    var transUnits := if body.None? then [] else NamedChildren(body.value.children, "trans-unit");
    var lang := Attribute(file, "target-language");
    result := list;
    for ti := 0 to |transUnits|
      invariant result == list + KeptUnits(lang, transUnits[..ti])
    {
      var transUnit := transUnits[ti];
      var notes := NamedChild(transUnit.children, "notes");
      var src := NamedChildText(transUnit.children, "source");
      var tgt := NamedChildText(transUnit.children, "target");
      ghost var kept := KeptUnits(lang, transUnits[..ti]);
      if !NoString(src) && !NoString(tgt) {
        var context1 := if notes.None? then None else NamedChildText(notes.value.children, "note");
        var u := TranslationUnit(lang, Attribute(transUnit, "resname"), context1, src.value, tgt.value);
        result := result + [u];
        AppendAssoc(list, kept, [u]);
      }
      assert transUnits[..ti + 1][..ti] == transUnits[..ti];
    }
    assert transUnits[..|transUnits|] == transUnits;
  }

  // ---------------------------------------------------------------------------
  // What the loader promises

  /** A unit is read exactly when its source and target texts are both
      present and non-empty; it carries the file's target language, the
      element's resname and those texts. */
  lemma ReadUnitKept(lang: string, t: Element)
    ensures var src := NamedChildText(t.children, "source");
      var tgt := NamedChildText(t.children, "target");
      (ReadUnit(lang, t).Some? <==> src.Some? && tgt.Some? && |src.value| > 0 && |tgt.value| > 0) &&
      (ReadUnit(lang, t).Some? ==>
         var u := ReadUnit(lang, t).value;
         u.language == lang && u.id == Attribute(t, "resname") && u.srcText == src.value && u.tgtText == tgt.value)
  {
  }

  lemma {:induction false} KeptUnitsAppend(lang: string, a: seq<Element>, b: seq<Element>)
    ensures KeptUnits(lang, a + b) == KeptUnits(lang, a) + KeptUnits(lang, b)
    decreases |b|
  {
    if |b| == 0 {
      assert a + b == a;
    } else {
      var b' := b[..|b| - 1];
      assert (a + b)[..|a + b| - 1] == a + b';
      assert (a + b)[|a + b| - 1] == b[|b| - 1];
      KeptUnitsAppend(lang, a, b');
    }
  }

  /** Loading keeps exactly the readable units: u is loaded from ts if and
      only if some element of ts reads as u. */
  lemma {:induction false} KeptUnitsExactly(lang: string, ts: seq<Element>, u: TranslationUnit)
    ensures u in KeptUnits(lang, ts) <==> exists k :: 0 <= k < |ts| && ReadUnit(lang, ts[k]) == Some(u)
  {
    if |ts| > 0 {
      var front := ts[..|ts| - 1];
      var last := ts[|ts| - 1];
      var tail := match ReadUnit(lang, last) case None => [] case Some(v) => [v];
      assert KeptUnits(lang, ts) == KeptUnits(lang, front) + tail;
      KeptUnitsExactly(lang, front, u);
      if u in KeptUnits(lang, ts) {
        if u in KeptUnits(lang, front) {
          var k :| 0 <= k < |front| && ReadUnit(lang, front[k]) == Some(u);
          assert ts[k] == front[k];
        } else {
          assert ReadUnit(lang, ts[|ts| - 1]) == Some(u);
        }
      } else {
        forall k | 0 <= k < |ts|
          ensures ReadUnit(lang, ts[k]) != Some(u)
        {
          if k < |front| {
            assert ts[k] == front[k];
          }
        }
      }
    }
  }

  /** No loaded unit has an empty source or target text. */
  lemma {:induction false} FilesUnitsNonEmpty(files: seq<Element>)
    ensures forall u :: u in FilesUnits(files) ==> |u.srcText| > 0 && |u.tgtText| > 0
  {
    if |files| > 0 {
      FilesUnitsNonEmpty(files[..|files| - 1]);
      var file := files[|files| - 1];
      KeptUnitsNonEmpty(Attribute(file, "target-language"), TransUnitsOf(file));
    }
  }

  lemma {:induction false} KeptUnitsNonEmpty(lang: string, ts: seq<Element>)
    ensures forall u :: u in KeptUnits(lang, ts) ==> |u.srcText| > 0 && |u.tgtText| > 0
  {
    if |ts| > 0 {
      KeptUnitsNonEmpty(lang, ts[..|ts| - 1]);
      ReadUnitKept(lang, ts[|ts| - 1]);
    }
  }

  // ---------------------------------------------------------------------------
  // Producing, then loading

  /** The element tree the produced document is taken to parse to. It is
      written out by hand, not derived from ProducedText. It is that
      document's parse only when the ids and languages, which produce writes
      into attributes unescaped, hold no `"`, `<` or `&`, when the parser
      reads each escaped text back as the original, and when no text holds
      a carriage return. */
  function ProducedDom(id: string, baseLang: string, targetLang: string, tus: seq<TranslationUnit>): Element {
    Element("xliff", map["xmlns" := "urn:oasis:names:tc:xliff:document:2.0", "version" := "2.0"],
      [Element("file", map["source-language" := baseLang, "target-language" := targetLang, "id" := id,
                           "original" := "Resource " + id, "datatype" := "KEYVALUEJSON"],
               [Element("body", map[], UnitElements(id, tus), "")], "")],
      "")
  }

  function UnitElement(id: string, tu: TranslationUnit): Element {
    Element("trans-unit", map["id" := id, "resname" := tu.id],
      (match tu.context1
       case None => []
       case Some(c) => [Element("notes", map[], [Element("note", map["id" := NoteId(1)], [], c)], "")]) +
      [Element("source", map[], [], tu.srcText), Element("target", map[], [], tu.tgtText)],
      "")
  }

  function UnitElements(id: string, tus: seq<TranslationUnit>): seq<Element> {
    if |tus| == 0 then [] else UnitElements(id, tus[..|tus| - 1]) + [UnitElement(id, tus[|tus| - 1])]
  }

  /** The units that survive a produce-then-load round trip: those with
      non-empty source and target, now carrying the document's target
      language. */
  function Surviving(lang: string, tus: seq<TranslationUnit>): seq<TranslationUnit> {
    if |tus| == 0 then []
    else
      var tu := tus[|tus| - 1];
      Surviving(lang, tus[..|tus| - 1]) +
      (if |tu.srcText| > 0 && |tu.tgtText| > 0 then [tu.(language := lang)] else [])
  }

  lemma ReadProducedUnit(id: string, lang: string, tu: TranslationUnit)
    ensures ReadUnit(lang, UnitElement(id, tu)) ==
            if |tu.srcText| > 0 && |tu.tgtText| > 0 then Some(tu.(language := lang)) else None
  {
    var e := UnitElement(id, tu);
    var source := Element("source", map[], [], tu.srcText);
    var target := Element("target", map[], [], tu.tgtText);
    match tu.context1
    case None =>
      assert e.children == [source, target];
      assert e.children[1..] == [target];
      assert e.children[1..][1..] == [];
      assert NamedChild(e.children[1..], "notes") == None;
      assert NamedChild(e.children, "notes") == None;
      assert NamedChild(e.children[1..], "target") == Some(target);
    case Some(c) =>
      var notes := Element("notes", map[], [Element("note", map["id" := NoteId(1)], [], c)], "");
      assert e.children == [notes, source, target];
      assert e.children[1..] == [source, target];
      assert e.children[1..][1..] == [target];
      assert NamedChild(e.children[1..][1..], "target") == Some(target);
      assert NamedChild(e.children[1..], "target") == Some(target);
      assert NamedChild(e.children, "target") == Some(target);
      assert NamedChild(e.children[1..], "source") == Some(source);
      assert NamedChild(e.children, "source") == Some(source);
      assert NamedChild(e.children, "notes") == Some(notes);
      assert NamedChild(notes.children, "note") == Some(notes.children[0]);
      assert Attribute(e, "resname") == tu.id;
  }

  lemma {:induction false} ProducedUnitsNamed(id: string, tus: seq<TranslationUnit>)
    ensures NamedChildren(UnitElements(id, tus), "trans-unit") == UnitElements(id, tus)
  {
    if |tus| > 0 {
      ProducedUnitsNamed(id, tus[..|tus| - 1]);
      var es := UnitElements(id, tus);
      assert es[..|es| - 1] == UnitElements(id, tus[..|tus| - 1]);
    }
  }

  lemma {:induction false} ProducedUnitsKept(id: string, lang: string, tus: seq<TranslationUnit>)
    ensures KeptUnits(lang, UnitElements(id, tus)) == Surviving(lang, tus)
  {
    if |tus| > 0 {
      ProducedUnitsKept(id, lang, tus[..|tus| - 1]);
      var es := UnitElements(id, tus);
      assert es[..|es| - 1] == UnitElements(id, tus[..|tus| - 1]);
      ReadProducedUnit(id, lang, tus[|tus| - 1]);
    }
  }

  /** Loading a produced document gives back, in order, the units with
      non-empty source and target, labelled with the target language. */
  lemma ProduceThenLoad(id: string, baseLang: string, targetLang: string, tus: seq<TranslationUnit>)
    ensures LoadedUnits(ProducedDom(id, baseLang, targetLang, tus)) == Surviving(targetLang, tus)
  {
    var root := ProducedDom(id, baseLang, targetLang, tus);
    var file := root.children[0];
    var body := file.children[0];
    assert NamedChildren(root.children, "file") == [file];
    assert FilesUnits([file]) == FilesUnits([]) + FileUnits(file);
    assert NamedChild(file.children, "body") == Some(body);
    assert Attribute(file, "target-language") == targetLang;
    ProducedUnitsNamed(id, tus);
    ProducedUnitsKept(id, targetLang, tus);
  }
}
