/** What the eight replacements of the constants generator do to a whole
    template. A template is read as a list of pieces, each either text
    without `{` or one of the eight placeholders; every lemma here holds for
    all such templates and all values. */
module TemplateProperties {
  import opened ConstantsGenerator

  /** The placeholders, in the order generate replaces them. */
  datatype Slot = JidSlot | LicenseSlot | StartMarkSlot | RtSlot | VersionSlot | VersionMmSlot | VersionBaseSlot | DateSlot

  function Token(s: Slot): string {
    match s
    case JidSlot => JidToken
    case LicenseSlot => LicenseToken
    case StartMarkSlot => StartMarkToken
    case RtSlot => RtToken
    case VersionSlot => VersionToken
    case VersionMmSlot => VersionMmToken
    case VersionBaseSlot => VersionBaseToken
    case DateSlot => DateToken
  }

  datatype Piece = Plain(text: string) | Placeholder(slot: Slot)

  function PieceText(p: Piece): string {
    match p
    case Plain(t) => t
    case Placeholder(s) => Token(s)
  }

  /** The text of a list of pieces. */
  function Render(ps: seq<Piece>): string
    decreases |ps|
  {
    if |ps| == 0 then "" else PieceText(ps[0]) + Render(ps[1..])
  }

  /** Text in which every `{` is followed by a character other than `{`:
      it holds no `{{` and does not end in `{`, so no placeholder can start
      inside it, even with a `{{` placeholder right after it. */
  predicate OpensNoToken(x: string) {
    forall j :: 0 <= j < |x| && x[j] == '{' ==> j + 1 < |x| && x[j + 1] != '{'
  }

  /** No text piece can start a placeholder. */
  predicate PlainText(ps: seq<Piece>) {
    forall p :: p in ps && p.Plain? ==> OpensNoToken(p.text)
  }

  /** Every placeholder s among ps replaced by the pieces vs. */
  function Splice(ps: seq<Piece>, s: Slot, vs: seq<Piece>): seq<Piece>
    decreases |ps|
  {
    if |ps| == 0 then [] else (if ps[0] == Placeholder(s) then vs else [ps[0]]) + Splice(ps[1..], s, vs)
  }

  /** The eight splices in the generator's order, each slot by its value. */
  function Stages(ps: seq<Piece>, v: Slot -> seq<Piece>): seq<Piece> {
    var p1 := Splice(ps, JidSlot, v(JidSlot));
    var p2 := Splice(p1, LicenseSlot, v(LicenseSlot));
    var p3 := Splice(p2, StartMarkSlot, v(StartMarkSlot));
    var p4 := Splice(p3, RtSlot, v(RtSlot));
    var p5 := Splice(p4, VersionSlot, v(VersionSlot));
    var p6 := Splice(p5, VersionMmSlot, v(VersionMmSlot));
    var p7 := Splice(p6, VersionBaseSlot, v(VersionBaseSlot));
    Splice(p7, DateSlot, v(DateSlot))
  }

  /** The template with every placeholder replaced by its value at once. */
  function Expand(ps: seq<Piece>, values: Slot -> string): string
    decreases |ps|
  {
    if |ps| == 0 then ""
    else (match ps[0] case Plain(t) => t case Placeholder(s) => values(s)) + Expand(ps[1..], values)
  }

  function PlainValues(values: Slot -> string): Slot -> seq<Piece> {
    s => [Plain(values(s))]
  }

  // ---------------------------------------------------------------------------
  // The tokens

  /** The name between the braces of each placeholder. */
  function Name(s: Slot): string {
    match s
    case JidSlot => "jid"
    case LicenseSlot => "license"
    case StartMarkSlot => "startMark"
    case RtSlot => "rt"
    case VersionSlot => "version"
    case VersionMmSlot => "version-mm"
    case VersionBaseSlot => "version-base"
    case DateSlot => "date"
  }

  lemma TokenName(s: Slot)
    ensures Token(s) == Braces(Name(s)) && |Name(s)| > 0 && '{' !in Name(s)
  {
  }

  /** Every token is `{{`, then at least one character, none of them `{`. */
  lemma TokenShape(s: Slot)
    ensures |Token(s)| >= 3 && Token(s)[0] == '{' && Token(s)[1] == '{' && '{' !in Token(s)[2..]
  {
    TokenName(s);
    assert Token(s)[2..] == Name(s) + "}}";
  }

  /** A position past `{{` at which two tokens differ. */
  function DiffIndex(u: Slot, s: Slot): nat {
    var versions := {VersionSlot, VersionMmSlot, VersionBaseSlot};
    if u in versions && s in versions then (if u == VersionSlot || s == VersionSlot then 9 else 10)
    else 2
  }

  /** No token is a prefix of another. */
  lemma TokensDiffer(u: Slot, s: Slot)
    requires u != s
    ensures var k := DiffIndex(u, s);
      2 <= k < |Token(u)| && k < |Token(s)| && Token(u)[k] != Token(s)[k]
  {
    TokenName(u);
    TokenName(s);
    var k := DiffIndex(u, s);
    assert Token(u)[k] == (Name(u) + "}}")[k - 2];
    assert Token(s)[k] == (Name(s) + "}}")[k - 2];
  }

  // ---------------------------------------------------------------------------
  // One replacement

  lemma BraceFreeOpensNoToken(x: string)
    requires '{' !in x
    ensures OpensNoToken(x)
  {
    forall j | 0 <= j < |x|
      ensures x[j] != '{'
    {
      assert x[j] in x;
    }
  }

  /** Text that opens no placeholder is passed over by the replacement of
      any `{{` token, whatever follows it. */
  lemma {:induction false} ReplaceSkipPlain(x: string, b: string, t: string, r: string)
    requires |t| >= 2 && t[0] == '{' && t[1] == '{' && OpensNoToken(x)
    ensures ReplaceAll(x + b, t, r) == x + ReplaceAll(b, t, r)
    decreases |x|
  {
    var s := x + b;
    if |x| == 0 {
      assert s == b;
    } else if |s| >= |t| {
      assert s[..|t|] != t by {
        if x[0] == '{' {
          assert s[..|t|][1] == x[1];
        } else {
          assert s[..|t|][0] == x[0];
        }
      }
      assert OpensNoToken(x[1..]) by {
        forall j | 0 <= j < |x[1..]| && x[1..][j] == '{'
          ensures j + 1 < |x[1..]| && x[1..][j + 1] != '{'
        {
          assert x[j + 1] == '{';
        }
      }
      assert ReplaceAll(s, t, r) == [s[0]] + ReplaceAll(s[1..], t, r);
      assert s[1..] == x[1..] + b;
      ReplaceSkipPlain(x[1..], b, t, r);
      assert x == [x[0]] + x[1..];
    }
  }

  /** A token at the head is replaced and the scan resumes after it. */
  lemma ReplaceHead(t: string, b: string, r: string)
    requires |t| > 0
    ensures ReplaceAll(t + b, t, r) == r + ReplaceAll(b, t, r)
  {
    var s := t + b;
    assert s[..|t|] == t;
    assert s[|t|..] == b;
  }

  /** Where the token does not start, one character is kept. */
  lemma ReplaceKeep(s: string, t: string, r: string)
    requires |t| > 0 && |s| >= |t| && s[..|t|] != t
    ensures ReplaceAll(s, t, r) == [s[0]] + ReplaceAll(s[1..], t, r)
  {
  }

  /** A different token at the head is kept as it is. */
  lemma ReplaceSkipToken(u: string, b: string, t: string, r: string, k: nat)
    requires |t| >= 2 && t[0] == '{' && t[1] == '{'
    requires |u| >= 2 && '{' !in u[2..]
    requires 2 <= k < |u| && k < |t| && u[k] != t[k]
    ensures ReplaceAll(u + b, t, r) == u + ReplaceAll(b, t, r)
  {
    var s := u + b;
    var s1 := s[1..];
    var s2 := s1[1..];
    assert s1 == u[1..] + b;
    assert s2 == u[2..] + b;
    assert u == [u[0]] + [u[1]] + u[2..];
    assert u[2] != '{' by { assert u[2..][0] == u[2]; }
    if |s| < |t| {
      assert |b| < |t|;
      assert s == u + b && ReplaceAll(s, t, r) == s && ReplaceAll(b, t, r) == b;
    } else {
      assert s[..|t|][k] == u[k];
      ReplaceKeep(s, t, r);
      assert s[0] == u[0];
      if |s1| < |t| {
        assert |b| < |t|;
        assert ReplaceAll(s1, t, r) == s1 && ReplaceAll(b, t, r) == b;
      } else {
        assert s1[..|t|][1] == u[2];
        ReplaceKeep(s1, t, r);
        assert s1[0] == u[1];
        BraceFreeOpensNoToken(u[2..]);
        ReplaceSkipPlain(u[2..], b, t, r);
      }
    }
  }

  lemma {:induction false} RenderAppend(a: seq<Piece>, b: seq<Piece>)
    ensures Render(a + b) == Render(a) + Render(b)
    decreases |a|
  {
    if |a| == 0 {
      assert a + b == b;
      assert "" + Render(b) == Render(b);
    } else {
      assert (a + b)[0] == a[0];
      assert (a + b)[1..] == a[1..] + b;
      RenderAppend(a[1..], b);
    }
  }

  /** One replacement step is the splice of its placeholder: every
      occurrence in the current text is replaced, and the inserted value is
      not scanned again, whatever it holds. */
  lemma {:induction false} ReplaceRender(ps: seq<Piece>, s: Slot, vs: seq<Piece>)
    requires PlainText(ps)
    ensures ReplaceAll(Render(ps), Token(s), Render(vs)) == Render(Splice(ps, s, vs))
    decreases |ps|
  {
    TokenShape(s);
    if |ps| > 0 {
      var rest := ps[1..];
      var head := if ps[0] == Placeholder(s) then vs else [ps[0]];
      assert PlainText(rest);
      ReplaceRender(rest, s, vs);
      assert Splice(ps, s, vs) == head + Splice(rest, s, vs);
      RenderAppend(head, Splice(rest, s, vs));
      assert Render([ps[0]]) == PieceText(ps[0]) + "";
      assert PieceText(ps[0]) + "" == PieceText(ps[0]);
      match ps[0]
      case Plain(x) =>
        assert ps[0] in ps;
        ReplaceSkipPlain(x, Render(rest), Token(s), Render(vs));
      case Placeholder(u) =>
        if u == s {
          ReplaceHead(Token(s), Render(rest), Render(vs));
        } else {
          TokensDiffer(u, s);
          TokenShape(u);
          ReplaceSkipToken(Token(u), Render(rest), Token(s), Render(vs), DiffIndex(u, s));
        }
    }
  }

  lemma {:induction false} PlainTextSplice(ps: seq<Piece>, s: Slot, vs: seq<Piece>)
    requires PlainText(ps) && PlainText(vs)
    ensures PlainText(Splice(ps, s, vs))
    decreases |ps|
  {
    if |ps| > 0 {
      assert PlainText(ps[1..]);
      PlainTextSplice(ps[1..], s, vs);
      assert ps[0] in ps;
    }
  }

  // ---------------------------------------------------------------------------
  // The whole fill

  /** The eight replacements act in order: each replaces every occurrence of
      its placeholder in the text the earlier ones left, including those an
      earlier value brought in, and the text the template began with is
      never rescanned into a placeholder. */
  lemma FillInStages(ps: seq<Piece>, v: Slot -> seq<Piece>)
    requires PlainText(ps) && forall s :: PlainText(v(s))
    ensures Fill(Render(ps), Render(v(JidSlot)), Render(v(LicenseSlot)), Render(v(StartMarkSlot)),
                 Render(v(RtSlot)), Render(v(VersionSlot)), Render(v(VersionMmSlot)),
                 Render(v(VersionBaseSlot)), Render(v(DateSlot))) == Render(Stages(ps, v))
  {
    var p1 := Splice(ps, JidSlot, v(JidSlot));
    ReplaceRender(ps, JidSlot, v(JidSlot));
    PlainTextSplice(ps, JidSlot, v(JidSlot));
    var p2 := Splice(p1, LicenseSlot, v(LicenseSlot));
    ReplaceRender(p1, LicenseSlot, v(LicenseSlot));
    PlainTextSplice(p1, LicenseSlot, v(LicenseSlot));
    var p3 := Splice(p2, StartMarkSlot, v(StartMarkSlot));
    ReplaceRender(p2, StartMarkSlot, v(StartMarkSlot));
    PlainTextSplice(p2, StartMarkSlot, v(StartMarkSlot));
    var p4 := Splice(p3, RtSlot, v(RtSlot));
    ReplaceRender(p3, RtSlot, v(RtSlot));
    PlainTextSplice(p3, RtSlot, v(RtSlot));
    var p5 := Splice(p4, VersionSlot, v(VersionSlot));
    ReplaceRender(p4, VersionSlot, v(VersionSlot));
    PlainTextSplice(p4, VersionSlot, v(VersionSlot));
    var p6 := Splice(p5, VersionMmSlot, v(VersionMmSlot));
    ReplaceRender(p5, VersionMmSlot, v(VersionMmSlot));
    PlainTextSplice(p5, VersionMmSlot, v(VersionMmSlot));
    var p7 := Splice(p6, VersionBaseSlot, v(VersionBaseSlot));
    ReplaceRender(p6, VersionBaseSlot, v(VersionBaseSlot));
    PlainTextSplice(p6, VersionBaseSlot, v(VersionBaseSlot));
    ReplaceRender(p7, DateSlot, v(DateSlot));
  }

  lemma SpliceSingle(q: Piece, s: Slot, vs: seq<Piece>)
    ensures Splice([q], s, vs) == if q == Placeholder(s) then vs else [q]
  {
    var h := if q == Placeholder(s) then vs else [q];
    assert [q][1..] == [];
    assert h + [] == h;
  }

  lemma {:induction false} SpliceAppend(a: seq<Piece>, b: seq<Piece>, s: Slot, vs: seq<Piece>)
    ensures Splice(a + b, s, vs) == Splice(a, s, vs) + Splice(b, s, vs)
    decreases |a|
  {
    if |a| == 0 {
      assert a + b == b;
      assert [] + Splice(b, s, vs) == Splice(b, s, vs);
    } else {
      assert (a + b)[0] == a[0];
      assert (a + b)[1..] == a[1..] + b;
      SpliceAppend(a[1..], b, s, vs);
    }
  }

  lemma StagesAppend(a: seq<Piece>, b: seq<Piece>, v: Slot -> seq<Piece>)
    ensures Stages(a + b, v) == Stages(a, v) + Stages(b, v)
  {
    var a1, b1 := Splice(a, JidSlot, v(JidSlot)), Splice(b, JidSlot, v(JidSlot));
    SpliceAppend(a, b, JidSlot, v(JidSlot));
    var a2, b2 := Splice(a1, LicenseSlot, v(LicenseSlot)), Splice(b1, LicenseSlot, v(LicenseSlot));
    SpliceAppend(a1, b1, LicenseSlot, v(LicenseSlot));
    var a3, b3 := Splice(a2, StartMarkSlot, v(StartMarkSlot)), Splice(b2, StartMarkSlot, v(StartMarkSlot));
    SpliceAppend(a2, b2, StartMarkSlot, v(StartMarkSlot));
    var a4, b4 := Splice(a3, RtSlot, v(RtSlot)), Splice(b3, RtSlot, v(RtSlot));
    SpliceAppend(a3, b3, RtSlot, v(RtSlot));
    var a5, b5 := Splice(a4, VersionSlot, v(VersionSlot)), Splice(b4, VersionSlot, v(VersionSlot));
    SpliceAppend(a4, b4, VersionSlot, v(VersionSlot));
    var a6, b6 := Splice(a5, VersionMmSlot, v(VersionMmSlot)), Splice(b5, VersionMmSlot, v(VersionMmSlot));
    SpliceAppend(a5, b5, VersionMmSlot, v(VersionMmSlot));
    var a7, b7 := Splice(a6, VersionBaseSlot, v(VersionBaseSlot)), Splice(b6, VersionBaseSlot, v(VersionBaseSlot));
    SpliceAppend(a6, b6, VersionBaseSlot, v(VersionBaseSlot));
    SpliceAppend(a7, b7, DateSlot, v(DateSlot));
  }

  /** With values that are plain text, one piece ends up as its value. */
  lemma StagesOne(p: Piece, values: Slot -> string)
    ensures Stages([p], PlainValues(values)) == [Plain(if p.Plain? then p.text else values(p.slot))]
  {
    var v := PlainValues(values);
    var q := Plain(if p.Plain? then p.text else values(p.slot));
    assert forall s :: v(s) == [Plain(values(s))];
    SpliceSingle(p, JidSlot, v(JidSlot));
    var x1 := if p == Placeholder(JidSlot) then q else p;
    assert Splice([p], JidSlot, v(JidSlot)) == [x1];
    SpliceSingle(x1, LicenseSlot, v(LicenseSlot));
    var x2 := if x1 == Placeholder(LicenseSlot) then q else x1;
    assert Splice([x1], LicenseSlot, v(LicenseSlot)) == [x2];
    SpliceSingle(x2, StartMarkSlot, v(StartMarkSlot));
    var x3 := if x2 == Placeholder(StartMarkSlot) then q else x2;
    assert Splice([x2], StartMarkSlot, v(StartMarkSlot)) == [x3];
    SpliceSingle(x3, RtSlot, v(RtSlot));
    var x4 := if x3 == Placeholder(RtSlot) then q else x3;
    assert Splice([x3], RtSlot, v(RtSlot)) == [x4];
    SpliceSingle(x4, VersionSlot, v(VersionSlot));
    var x5 := if x4 == Placeholder(VersionSlot) then q else x4;
    assert Splice([x4], VersionSlot, v(VersionSlot)) == [x5];
    SpliceSingle(x5, VersionMmSlot, v(VersionMmSlot));
    var x6 := if x5 == Placeholder(VersionMmSlot) then q else x5;
    assert Splice([x5], VersionMmSlot, v(VersionMmSlot)) == [x6];
    SpliceSingle(x6, VersionBaseSlot, v(VersionBaseSlot));
    var x7 := if x6 == Placeholder(VersionBaseSlot) then q else x6;
    assert Splice([x6], VersionBaseSlot, v(VersionBaseSlot)) == [x7];
    SpliceSingle(x7, DateSlot, v(DateSlot));
    if p.Plain? {
      assert q == p && x7 == p;
    } else if p.slot == DateSlot {
      assert x7 == p;
    } else {
      assert x7 == q;
    }
    assert Splice([x7], DateSlot, v(DateSlot)) == [q];
  }

  lemma {:induction false} StagesExpand(ps: seq<Piece>, values: Slot -> string)
    ensures Render(Stages(ps, PlainValues(values))) == Expand(ps, values)
    decreases |ps|
  {
    var v := PlainValues(values);
    if |ps| == 0 {
      assert Splice([], JidSlot, v(JidSlot)) == [];
    } else {
      var p := ps[0];
      assert ps == [p] + ps[1..];
      StagesAppend([p], ps[1..], v);
      RenderAppend(Stages([p], v), Stages(ps[1..], v));
      StagesOne(p, values);
      var x := if p.Plain? then p.text else values(p.slot);
      assert Render([Plain(x)]) == x + "";
      assert x + "" == x;
      StagesExpand(ps[1..], values);
    }
  }

  /** A template of text that opens no placeholder and of placeholders,
      filled with values that open none either, is the template with every
      placeholder, wherever it occurs, replaced by its value. */
  lemma FillTemplate(ps: seq<Piece>, values: Slot -> string)
    requires PlainText(ps) && forall s :: OpensNoToken(values(s))
    ensures Fill(Render(ps), values(JidSlot), values(LicenseSlot), values(StartMarkSlot), values(RtSlot),
                 values(VersionSlot), values(VersionMmSlot), values(VersionBaseSlot), values(DateSlot))
            == Expand(ps, values)
  {
    var v := PlainValues(values);
    forall s ensures PlainText(v(s)) && Render(v(s)) == values(s) {
      assert v(s) == [Plain(values(s))];
      assert Render(v(s)) == values(s) + "";
      assert values(s) + "" == values(s);
    }
    FillInStages(ps, v);
    StagesExpand(ps, values);
  }
}
