/** The constants-file generator of the Java code generator: it lists the
    concrete resource types, takes the version of the last of them, and
    fills the placeholders of the Constants template. */
module ConstantsGenerator {
  import opened Wrappers

  // ---------------------------------------------------------------------------
  // Structure definitions

  datatype StructureDefinitionKind = PrimitiveType | ComplexType | Resource | Logical

  datatype TypeDerivationRule = Specialization | Constraint

  /** The parts of a StructureDefinition the generator reads; the derivation
      may be absent. */
  datatype StructureDefinition = StructureDefinition(
    kind: StructureDefinitionKind,
    derivation: Option<TypeDerivationRule>,
    isAbstract: bool,
    typeName: string,
    version: string)

  /** The filter of the generator's loop: a resource that specialises its
      base and is not abstract. */
  predicate IsConcreteResource(sd: StructureDefinition) {
    sd.kind == Resource && sd.derivation == Some(Specialization) && !sd.isAbstract
  }

  /** The types of the concrete resources, in list order. */
  function ConcreteTypes(sds: seq<StructureDefinition>): seq<string> {
    if |sds| == 0 then []
    else
      var sd := sds[|sds| - 1];
      ConcreteTypes(sds[..|sds| - 1]) + (if IsConcreteResource(sd) then [sd.typeName] else [])
  }

  /** The version after the loop: that of the last concrete resource, or the
      starting one when there is none. */
  function LastVersion(sds: seq<StructureDefinition>, current: string): string {
    if |sds| == 0 then current
    else if IsConcreteResource(sds[|sds| - 1]) then sds[|sds| - 1].version
    else LastVersion(sds[..|sds| - 1], current)
  }

  // ---------------------------------------------------------------------------
  // Joining with `|`

  /** The parts separated by single bars. */
  function Join(parts: seq<string>): string {
    if |parts| == 0 then ""
    else if |parts| == 1 then parts[0]
    else Join(parts[..|parts| - 1]) + "|" + parts[|parts| - 1]
  }

  /** Cutting a string at every bar (the reference the join is an inverse of). */
  function Split(s: string): (parts: seq<string>)
    ensures |parts| > 0
  {
    if |s| == 0 then [""]
    else if s[|s| - 1] == '|' then Split(s[..|s| - 1]) + [""]
    else
      var r := Split(s[..|s| - 1]);
      r[..|r| - 1] + [r[|r| - 1] + [s[|s| - 1]]]
  }

  lemma {:induction false} SplitNoBar(b: string)
    requires '|' !in b
    ensures Split(b) == [b]
  {
    if |b| > 0 {
      var b' := b[..|b| - 1];
      assert b == b' + [b[|b| - 1]];
      SplitNoBar(b');
    }
  }

  lemma {:induction false} SplitAfterBar(a: string, b: string)
    requires '|' !in b
    ensures Split(a + "|" + b) == Split(a) + [b]
  {
    var s := a + "|" + b;
    if |b| == 0 {
      assert s[..|s| - 1] == a;
    } else {
      var b' := b[..|b| - 1];
      assert s[..|s| - 1] == a + "|" + b';
      assert b == b' + [b[|b| - 1]];
      SplitAfterBar(a, b');
    }
  }

  /** Joining parts that contain no bar can be undone by cutting at the bars:
      each part is separated by exactly one bar. */
  lemma {:induction false} SplitJoin(parts: seq<string>)
    requires |parts| > 0
    requires forall k :: 0 <= k < |parts| ==> '|' !in parts[k]
    ensures Split(Join(parts)) == parts
  {
    if |parts| == 1 {
      SplitNoBar(parts[0]);
    } else {
      var init := parts[..|parts| - 1];
      SplitJoin(init);
      SplitAfterBar(Join(init), parts[|parts| - 1]);
      assert init + [parts[|parts| - 1]] == parts;
    }
  }

  /** Joining non-empty parts gives the empty string only for no parts, and
      otherwise neither starts nor ends with a bar. */
  lemma {:induction false} JoinEdges(parts: seq<string>)
    requires forall k :: 0 <= k < |parts| ==> |parts[k]| > 0 && '|' !in parts[k]
    ensures |Join(parts)| == 0 <==> |parts| == 0
    ensures |parts| > 0 ==> Join(parts)[0] != '|' && Join(parts)[|Join(parts)| - 1] != '|'
  {
    if |parts| > 1 {
      var init := parts[..|parts| - 1];
      JoinEdges(init);
      var j := Join(init);
      var last := parts[|parts| - 1];
      assert Join(parts) == j + "|" + last;
      assert Join(parts)[0] == j[0];
      assert Join(parts)[|Join(parts)| - 1] == last[|last| - 1];
    } else if |parts| == 1 {
      assert parts[0][0] != '|' by { assert parts[0][0] in parts[0]; }
      assert parts[0][|parts[0]| - 1] in parts[0];
    }
  }

  /** The loop's step: a bar is added before every type except the first. */
  lemma JoinSnoc(parts: seq<string>, t: string)
    ensures Join(parts + [t]) == if |parts| == 0 then t else Join(parts) + "|" + t
  {
    assert (parts + [t])[..|parts|] == parts;
  }

  // ---------------------------------------------------------------------------
  // What the type list and the version are

  lemma {:induction false} ConcreteTypesAppend(a: seq<StructureDefinition>, b: seq<StructureDefinition>)
    ensures ConcreteTypes(a + b) == ConcreteTypes(a) + ConcreteTypes(b)
    decreases |b|
  {
    if |b| == 0 {
      assert a + b == a;
    } else {
      var b' := b[..|b| - 1];
      assert (a + b)[..|a + b| - 1] == a + b';
      assert (a + b)[|a + b| - 1] == b[|b| - 1];
      ConcreteTypesAppend(a, b');
    }
  }

  /** The listed types are exactly those of the concrete resources. */
  lemma {:induction false} ConcreteTypesExactly(sds: seq<StructureDefinition>, t: string)
    ensures t in ConcreteTypes(sds) <==>
            exists i :: 0 <= i < |sds| && IsConcreteResource(sds[i]) && sds[i].typeName == t
  {
    if |sds| > 0 {
      var init := sds[..|sds| - 1];
      ConcreteTypesExactly(init, t);
      if exists i :: 0 <= i < |init| && IsConcreteResource(init[i]) && init[i].typeName == t {
        var i :| 0 <= i < |init| && IsConcreteResource(init[i]) && init[i].typeName == t;
        assert sds[i] == init[i];
      }
      if exists i :: 0 <= i < |sds| && IsConcreteResource(sds[i]) && sds[i].typeName == t {
        var i :| 0 <= i < |sds| && IsConcreteResource(sds[i]) && sds[i].typeName == t;
        if i < |init| {
          assert init[i] == sds[i];
        }
      }
    }
  }

  /** No concrete resource sits after index j. */
  predicate NoneConcreteAfter(sds: seq<StructureDefinition>, j: int) {
    forall i :: 0 <= i < |sds| && j < i ==> !IsConcreteResource(sds[i])
  }

  /** With no concrete resource the version is unchanged. */
  lemma {:induction false} LastVersionUnchanged(sds: seq<StructureDefinition>, current: string)
    requires NoneConcreteAfter(sds, -1)
    ensures LastVersion(sds, current) == current
  {
    if |sds| > 0 {
      var init := sds[..|sds| - 1];
      assert !IsConcreteResource(sds[|sds| - 1]);
      assert forall i :: 0 <= i < |init| ==> init[i] == sds[i];
      LastVersionUnchanged(init, current);
    }
  }

  /** Otherwise it is the version of the last concrete resource. */
  lemma {:induction false} LastVersionOfLast(sds: seq<StructureDefinition>, current: string, j: nat)
    requires j < |sds| && IsConcreteResource(sds[j]) && NoneConcreteAfter(sds, j)
    ensures LastVersion(sds, current) == sds[j].version
  {
    if j < |sds| - 1 {
      var init := sds[..|sds| - 1];
      assert !IsConcreteResource(sds[|sds| - 1]);
      assert forall i :: 0 <= i < |init| ==> init[i] == sds[i];
      LastVersionOfLast(init, current, j);
    }
  }

  // ---------------------------------------------------------------------------
  // The version's base

  /** String.indexOf for a character: the first index, or -1. */
  function IndexOf(s: string, c: char): (k: int)
    ensures c in s ==> 0 <= k < |s| && s[k] == c && c !in s[..k]
    ensures c !in s ==> k == -1
  {
    if |s| == 0 then -1
    else if s[0] == c then 0
    else
      var k := IndexOf(s[1..], c);
      assert s == [s[0]] + s[1..];
      if k == -1 then -1
      else
        assert s[..k + 1] == [s[0]] + s[1..][..k];
        k + 1
  }

  /** The `{{version-base}}` value: the version up to its first `-`, or the
      whole version when it has none. */
  function VersionBase(version: string): (b: string)
    ensures b <= version && '-' !in b
    ensures |b| < |version| ==> version[|b|] == '-'
    ensures '-' !in version ==> b == version
  {
    if '-' in version then version[..IndexOf(version, '-')] else version
  }

  // ---------------------------------------------------------------------------
  // Placeholder replacement

  predicate OccursAt(s: string, t: string, i: nat) {
    i + |t| <= |s| && s[i..i + |t|] == t
  }

  ghost predicate Occurs(s: string, t: string) {
    exists i: nat :: OccursAt(s, t, i)
  }

  /** String.replace: every occurrence of t, found left to right without
      overlap, becomes r. */
  function ReplaceAll(s: string, t: string, r: string): string
    requires |t| > 0
    decreases |s|
  {
    if |s| < |t| then s
    else if s[..|t|] == t then r + ReplaceAll(s[|t|..], t, r)
    else [s[0]] + ReplaceAll(s[1..], t, r)
  }

  /** Dropping the first character cannot create an occurrence. */
  lemma NotOccursTail(p: string, t: string)
    requires |p| > 0 && !Occurs(p, t)
    ensures !Occurs(p[1..], t)
  {
    forall i: nat | OccursAt(p[1..], t, i)
      ensures false
    {
      assert p[1..][i..i + |t|] == p[i + 1..i + 1 + |t|];
      assert OccursAt(p, t, i + 1);
    }
  }

  /** A string without the token is left as it is. */
  lemma {:induction false} ReplaceAbsent(s: string, t: string, r: string)
    requires |t| > 0 && !Occurs(s, t)
    ensures ReplaceAll(s, t, r) == s
    decreases |s|
  {
    if |s| >= |t| {
      assert !OccursAt(s, t, 0);
      NotOccursTail(s, t);
      ReplaceAbsent(s[1..], t, r);
      assert s == [s[0]] + s[1..];
    }
  }

  /** When t first occurs after a non-empty a, the scan does not match at the
      start and finds no occurrence before t in the rest either. */
  lemma NoMatchBefore(a: string, t: string, b: string)
    requires |t| > 0 && |a| > 0 && !Occurs(a + t[..|t| - 1], t)
    ensures (a + t + b)[..|t|] != t
    ensures !Occurs(a[1..] + t[..|t| - 1], t)
  {
    var p := a + t[..|t| - 1];
    assert (a + t + b)[..|t|] == p[..|t|];
    assert !OccursAt(p, t, 0);
    NotOccursTail(p, t);
    assert p[1..] == a[1..] + t[..|t| - 1];
  }

  /** The first occurrence is replaced and the scan resumes right after it. */
  lemma {:induction false} ReplaceFirst(a: string, t: string, b: string, r: string)
    requires |t| > 0 && !Occurs(a + t[..|t| - 1], t)
    ensures ReplaceAll(a + t + b, t, r) == a + r + ReplaceAll(b, t, r)
    decreases |a|
  {
    var s := a + t + b;
    if |a| == 0 {
      assert s == t + b;
      assert s[..|t|] == t;
      assert s[|t|..] == b;
    } else {
      NoMatchBefore(a, t, b);
      assert s[1..] == a[1..] + t + b;
      assert ReplaceAll(s, t, r) == [a[0]] + ReplaceAll(a[1..] + t + b, t, r);
      ReplaceFirst(a[1..], t, b, r);
      assert a == [a[0]] + a[1..];
    }
  }

  /** A string that is just the token becomes the replacement. */
  lemma ReplaceWhole(t: string, r: string)
    requires |t| > 0
    ensures ReplaceAll(t, t, r) == r
  {
    assert t[..|t|] == t;
    assert t[|t|..] == "";
    assert r + "" == r;
  }

  /** A token that starts with `{` does not occur in a string without `{`. */
  lemma NoBraceNoToken(s: string, t: string)
    requires |t| > 0 && t[0] == '{' && '{' !in s
    ensures !Occurs(s, t)
  {
  }

  /** A placeholder: its name between double braces. */
  function Braces(name: string): string {
    "{{" + name + "}}"
  }

  const JidToken: string := Braces("jid")
  const LicenseToken: string := Braces("license")
  const StartMarkToken: string := Braces("startMark")
  const RtToken: string := Braces("rt")
  const VersionToken: string := Braces("version")
  const VersionMmToken: string := Braces("version-mm")
  const VersionBaseToken: string := Braces("version-base")
  const DateToken: string := Braces("date")

  /** The template after the eight replacements, in the generator's order. */
  function Fill(template: string, jid: string, license: string, startMark: string, rt: string,
                version: string, versionMm: string, versionBase: string, date: string): string {
    var t1 := ReplaceAll(template, JidToken, jid);
    var t2 := ReplaceAll(t1, LicenseToken, license);
    var t3 := ReplaceAll(t2, StartMarkToken, startMark);
    var t4 := ReplaceAll(t3, RtToken, rt);
    var t5 := ReplaceAll(t4, VersionToken, version);
    var t6 := ReplaceAll(t5, VersionMmToken, versionMm);
    var t7 := ReplaceAll(t6, VersionBaseToken, versionBase);
    ReplaceAll(t7, DateToken, date)
  }

  /** A template without `{` comes out unchanged. */
  lemma FillPlain(template: string, jid: string, license: string, startMark: string, rt: string,
                  version: string, versionMm: string, versionBase: string, date: string)
    requires '{' !in template
    ensures Fill(template, jid, license, startMark, rt, version, versionMm, versionBase, date) == template
  {
    NoBraceNoToken(template, JidToken);
    ReplaceAbsent(template, JidToken, jid);
    NoBraceNoToken(template, LicenseToken);
    ReplaceAbsent(template, LicenseToken, license);
    NoBraceNoToken(template, StartMarkToken);
    ReplaceAbsent(template, StartMarkToken, startMark);
    NoBraceNoToken(template, RtToken);
    ReplaceAbsent(template, RtToken, rt);
    NoBraceNoToken(template, VersionToken);
    ReplaceAbsent(template, VersionToken, version);
    NoBraceNoToken(template, VersionMmToken);
    ReplaceAbsent(template, VersionMmToken, versionMm);
    NoBraceNoToken(template, VersionBaseToken);
    ReplaceAbsent(template, VersionBaseToken, versionBase);
    NoBraceNoToken(template, DateToken);
    ReplaceAbsent(template, DateToken, date);
  }

  // ---------------------------------------------------------------------------
  // The generator

  /** The generator's state: the version it was made with, which `generate`
      overwrites, and the values of the jid and date placeholders. */
  class JavaConstantsGenerator {
    var version: string
    const genDate: string
    const jid: string

    constructor(genDate: string, version: string, jid: string)
      ensures this.genDate == genDate && this.version == version && this.jid == jid
    {
      this.genDate := genDate;
      this.version := version;
      this.jid := jid;
    }

    /** `generate`: returns the filled Constants template (instead of writing
        it); the template, the license, the start mark and VersionUtilities'
        major.minor function are given. */
    method Generate(structures: seq<StructureDefinition>, template: string, license: string,
                    startMark: string, majMin: string -> string) returns (output: string)
      modifies this
      ensures version == LastVersion(structures, old(version))
      ensures output == Fill(template, jid, license, startMark, Join(ConcreteTypes(structures)), version,
                             majMin(version), VersionBase(version), genDate)
    {
      var rt := "";
      var first := true;
      for k := 0 to |structures|
        invariant first <==> |ConcreteTypes(structures[..k])| == 0
        invariant rt == Join(ConcreteTypes(structures[..k]))
        invariant version == LastVersion(structures[..k], old(version))
      {
        var sd := structures[k];
        ghost var types := ConcreteTypes(structures[..k]);
        assert structures[..k + 1][..k] == structures[..k];
        if IsConcreteResource(sd) {
          if first {
            first := false;
          } else {
            rt := rt + "|";
          }
          rt := rt + sd.typeName;
          version := sd.version;
          JoinSnoc(types, sd.typeName);
          assert rt == Join(types + [sd.typeName]);
        } else {
          assert ConcreteTypes(structures[..k + 1]) == types;
        }
      }
      assert structures[..|structures|] == structures;
      var t := template;
      t := ReplaceAll(t, JidToken, jid);
      t := ReplaceAll(t, LicenseToken, license);
      t := ReplaceAll(t, StartMarkToken, startMark);
      t := ReplaceAll(t, RtToken, rt);
      t := ReplaceAll(t, VersionToken, version);
      t := ReplaceAll(t, VersionMmToken, majMin(version));
      var versionBase := VersionBase(version);
      t := ReplaceAll(t, VersionBaseToken, versionBase);
      t := ReplaceAll(t, DateToken, genDate);
      output := t;
    }
  }
}
