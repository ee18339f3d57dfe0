/**
 * The hierarchy resolvers of `SemanticHelper`, over the catalog of loaded classes:
 * method lookup through superclass and interfaces (`getMethod`), field lookup through the
 * superclass chain only (`getField`, `hasField`), the ancestor test (`isExtendFrom`) and
 * the default-constructor test (`hasDefaultConstructor`). A class handle is a `ClassInfo`;
 * a parent named in it is the catalog's class of that name, or a phantom class.
 */
module ClassHierarchy {
  import opened Wrappers
  import opened JavaStrings
  import opened Soot
  import opened ValueNames

  const DefaultConstructor := "void <init>()"

  /** A class handle the resolvers can walk up from. */
  predicate Handle(cat: Catalog, c: ClassInfo) {
    WellFormed(cat) && ParentsBelow(cat, c)
  }

  // ---------------------------------------------------------------- getMethod

  /** `sub` is declared by `c` or by a class reachable over superclass and interface edges. */
  ghost predicate DeclaresSomewhere(cat: Catalog, c: ClassInfo, sub: string)
    requires Handle(cat, c)
    decreases c.rank
  {
    || sub in c.methods
    || (c.superclass.Some? && DeclaresSomewhere(cat, ClassAt(cat, c.superclass.value), sub))
    || (exists i | 0 <= i < |c.interfaces| :: DeclaresSomewhere(cat, ClassAt(cat, c.interfaces[i]), sub))
  }

  /**
   * `getMethod(cls, subSignature)`: the class's own method when it declares one; otherwise
   * the superclass search, and only when that finds nothing, the first interface (in
   * declaration order) whose search succeeds. It is null exactly when no reachable class
   * declares the subsignature.
   */
  function GetMethod(cat: Catalog, c: ClassInfo, sub: string): (r: Option<MethodRef>)
    requires Handle(cat, c)
    ensures r.Some? <==> DeclaresSomewhere(cat, c, sub)
    ensures r.Some? ==> r.value.subSignature == sub
    ensures r.Some? ==>
      (r.value.declaringClass == c.name && sub in c.methods) || sub in ClassAt(cat, r.value.declaringClass).methods
    ensures sub in c.methods ==> r == Some(MethodRef(c.name, sub))
    decreases c.rank, 1, 0
  {
    if sub in c.methods then
      Some(MethodRef(c.name, sub))
    else
      var fromSuper := if c.superclass.Some? then GetMethod(cat, ClassAt(cat, c.superclass.value), sub) else None;
      if fromSuper.None? && |c.interfaces| > 0 then FirstInterfaceMethod(cat, c, 0, sub) else fromSuper
  }

  /** The loop over `cls.getInterfaces()` from position `i`, stopping at the first success. */
  function FirstInterfaceMethod(cat: Catalog, c: ClassInfo, i: nat, sub: string): (r: Option<MethodRef>)
    requires Handle(cat, c) && i <= |c.interfaces|
    ensures r.Some? <==>
      exists j | i <= j < |c.interfaces| :: DeclaresSomewhere(cat, ClassAt(cat, c.interfaces[j]), sub)
    ensures r.Some? ==> r.value.subSignature == sub && sub in ClassAt(cat, r.value.declaringClass).methods
    ensures r.Some? ==> exists j | i <= j < |c.interfaces| ::
      && r == GetMethod(cat, ClassAt(cat, c.interfaces[j]), sub)
      && forall k | i <= k < j :: GetMethod(cat, ClassAt(cat, c.interfaces[k]), sub).None?
    decreases c.rank, 0, |c.interfaces| - i
  {
    if i == |c.interfaces| then
      None
    else
      ClassAtWellFormed(cat, c.interfaces[i]);
      var m := GetMethod(cat, ClassAt(cat, c.interfaces[i]), sub);
      if m.Some? then m else FirstInterfaceMethod(cat, c, i + 1, sub)
  }

  /**
   * The superclass search comes first: when anything above the superclass declares the
   * subsignature, its answer is the class's answer, whatever the interfaces declare. Only
   * otherwise do the interfaces decide, and then the first interface (in declaration
   * order) above which the subsignature is declared gives the answer.
   */
  lemma GetMethodSearchOrder(cat: Catalog, c: ClassInfo, sub: string, j: nat)
    requires Handle(cat, c) && sub !in c.methods
    ensures c.superclass.Some? && DeclaresSomewhere(cat, ClassAt(cat, c.superclass.value), sub) ==>
      GetMethod(cat, c, sub) == GetMethod(cat, ClassAt(cat, c.superclass.value), sub)
    ensures (c.superclass.None? || !DeclaresSomewhere(cat, ClassAt(cat, c.superclass.value), sub)) &&
            j < |c.interfaces| && DeclaresSomewhere(cat, ClassAt(cat, c.interfaces[j]), sub) &&
            (forall k | 0 <= k < j :: !DeclaresSomewhere(cat, ClassAt(cat, c.interfaces[k]), sub)) ==>
      GetMethod(cat, c, sub) == GetMethod(cat, ClassAt(cat, c.interfaces[j]), sub)
  {
    if (c.superclass.None? || !DeclaresSomewhere(cat, ClassAt(cat, c.superclass.value), sub)) &&
       j < |c.interfaces| && DeclaresSomewhere(cat, ClassAt(cat, c.interfaces[j]), sub) &&
       (forall k | 0 <= k < j :: !DeclaresSomewhere(cat, ClassAt(cat, c.interfaces[k]), sub))
    {
      FirstInterfaceIsFirstDeclaring(cat, c, 0, sub, j);
    }
  }

  /** From position `i`, the interface loop answers with the first interface that declares `sub` above it. */
  lemma {:induction false} FirstInterfaceIsFirstDeclaring(cat: Catalog, c: ClassInfo, i: nat, sub: string, j: nat)
    requires Handle(cat, c) && i <= j < |c.interfaces|
    requires DeclaresSomewhere(cat, ClassAt(cat, c.interfaces[j]), sub)
    requires forall k | i <= k < j :: !DeclaresSomewhere(cat, ClassAt(cat, c.interfaces[k]), sub)
    ensures FirstInterfaceMethod(cat, c, i, sub) == GetMethod(cat, ClassAt(cat, c.interfaces[j]), sub)
    decreases j - i
  {
    ClassAtWellFormed(cat, c.interfaces[i]);
    if i < j {
      FirstInterfaceIsFirstDeclaring(cat, c, i + 1, sub, j);
    }
  }

  // ---------------------------------------------------------------- getField

  /** The superclass chain: `c`, its superclass, that class's superclass, and so on. */
  function SuperChain(cat: Catalog, c: ClassInfo): (r: seq<ClassInfo>)
    requires Handle(cat, c)
    ensures |r| >= 1 && r[0] == c && r[|r| - 1].superclass.None?
    ensures forall k | 0 <= k < |r| :: ParentsBelow(cat, r[k]) && r[k].rank <= c.rank
    ensures forall k | 0 <= k < |r| - 1 ::
      r[k].superclass.Some? && r[k + 1] == ClassAt(cat, r[k].superclass.value)
    decreases c.rank
  {
    if c.superclass.Some? then [c] + SuperChain(cat, ClassAt(cat, c.superclass.value)) else [c]
  }

  /** The field named `f` of the first class in `cs` that declares one. */
  function FirstDeclaring(cs: seq<ClassInfo>, f: string): (r: Option<Field>)
    ensures r.Some? ==> r.value.name == f
  {
    if |cs| == 0 then None
    else if f in cs[0].fields then Some(Field(cs[0].name, f, cs[0].fields[f]))
    else FirstDeclaring(cs[1..], f)
  }

  /** `FirstDeclaring` finds a field exactly when some class declares it, and then the first such class's. */
  lemma {:induction false} FirstDeclaringFinds(cs: seq<ClassInfo>, f: string)
    ensures FirstDeclaring(cs, f).Some? <==> exists k | 0 <= k < |cs| :: f in cs[k].fields
    ensures FirstDeclaring(cs, f).Some? ==> exists k | 0 <= k < |cs| ::
      && f in cs[k].fields && FirstDeclaring(cs, f).value == Field(cs[k].name, f, cs[k].fields[f])
      && forall j | 0 <= j < k :: f !in cs[j].fields
  {
    if |cs| > 0 && f !in cs[0].fields {
      FirstDeclaringFinds(cs[1..], f);
      assert forall k | 1 <= k < |cs| :: cs[1..][k - 1] == cs[k];
      if FirstDeclaring(cs, f).Some? {
        var k :| 0 <= k < |cs[1..]| && f in cs[1..][k].fields
          && FirstDeclaring(cs[1..], f).value == Field(cs[1..][k].name, f, cs[1..][k].fields[f])
          && forall j | 0 <= j < k :: f !in cs[1..][j].fields;
        assert cs[1..][k] == cs[k + 1];
      }
    } else if |cs| > 0 {
      assert f in cs[0].fields;
    }
  }

  /**
   * `getField(SootClass cls, fieldName)`: null for a null class; otherwise the field of the
   * first class of the superclass chain that declares the name. Interfaces are never searched.
   */
  function GetField(cat: Catalog, c: Option<ClassInfo>, f: string): (r: Option<Field>)
    requires WellFormed(cat) && (c.Some? ==> ParentsBelow(cat, c.value))
    ensures c.None? ==> r.None?
    ensures c.Some? ==> r == FirstDeclaring(SuperChain(cat, c.value), f)
    decreases if c.Some? then c.value.rank else 0
  {
    if c.None? then None
    else if f in c.value.fields then Some(Field(c.value.name, f, c.value.fields[f]))
    else if c.value.superclass.Some? then GetField(cat, Some(ClassAt(cat, c.value.superclass.value)), f)
    else None
  }

  /** A field that only an interface declares is not found. */
  lemma GetFieldIgnoresInterfaces(cat: Catalog, c: ClassInfo, f: string, ifaces: seq<string>)
    requires Handle(cat, c) && Handle(cat, c.(interfaces := ifaces))
    ensures GetField(cat, Some(c.(interfaces := ifaces)), f) == GetField(cat, Some(c), f)
  {
  }

  /** `getField(String cls, fieldName)`: null when the class name does not resolve. */
  function GetFieldByName(cat: Catalog, cls: string, f: string): (r: Option<Field>)
    requires WellFormed(cat)
    ensures cls !in cat ==> r.None?
    ensures r.Some? ==> r.value.name == f
  {
    match LookupClass(cat, cls)
    case None => None
    case Some(c) => GetField(cat, Some(c), f)
  }

  /**
   * A resolvable class finds a field exactly when a class on its superclass chain declares
   * it; the field found is the one of the nearest such class, under the name asked for, and
   * its declaring class resolves to that class.
   */
  lemma GetFieldByNameFinds(cat: Catalog, cls: string, f: string)
    requires WellFormed(cat) && cls in cat
    ensures var cs := SuperChain(cat, cat[cls]);
      GetFieldByName(cat, cls, f).Some? <==> exists k | 0 <= k < |cs| :: f in cs[k].fields
    ensures var cs, r := SuperChain(cat, cat[cls]), GetFieldByName(cat, cls, f);
      r.Some? ==> exists k | 0 <= k < |cs| ::
        && cs[k].name == r.value.declaringClass && f in cs[k].fields && cs[k].fields[f] == r.value.ty
        && forall j | 0 <= j < k :: f !in cs[j].fields
    ensures var r := GetFieldByName(cat, cls, f);
      r.Some? ==>
        f in ClassAt(cat, r.value.declaringClass).fields && ClassAt(cat, r.value.declaringClass).fields[f] == r.value.ty
  {
    var cs := SuperChain(cat, cat[cls]);
    var r := GetFieldByName(cat, cls, f);
    GetFieldByNameIsFirstDeclaring(cat, cls, f);
    FirstDeclaringFinds(cs, f);
    if r.Some? {
      var k :| 0 <= k < |cs| && f in cs[k].fields && r.value == Field(cs[k].name, f, cs[k].fields[f])
        && forall j | 0 <= j < k :: f !in cs[j].fields;
      ChainEntryResolves(cat, cls, k);
    }
  }

  lemma GetFieldByNameIsFirstDeclaring(cat: Catalog, cls: string, f: string)
    requires WellFormed(cat) && cls in cat
    ensures GetFieldByName(cat, cls, f) == FirstDeclaring(SuperChain(cat, cat[cls]), f)
  {
  }

  /** Every class on a superclass chain is the catalog's class of its own name. */
  lemma ChainEntryResolves(cat: Catalog, cls: string, k: int)
    requires WellFormed(cat) && cls in cat
    requires 0 <= k < |SuperChain(cat, cat[cls])|
    ensures var c := SuperChain(cat, cat[cls])[k]; ClassAt(cat, c.name) == c
  {
    var cs := SuperChain(cat, cat[cls]);
    if k > 0 {
      ClassAtWellFormed(cat, cs[k - 1].superclass.value);
    }
  }

  /** Class `A` with no superclass declares `x`: `x` is found on `A`, `y` is not. */
  lemma GetFieldOwnClass(cat: Catalog, t: Type)
    requires WellFormed(cat) && "A" in cat && cat["A"].superclass.None?
    requires cat["A"].fields == map["x" := t]
    ensures GetFieldByName(cat, "A", "x") == Some(Field("A", "x", t))
    ensures GetFieldByName(cat, "A", "y") == None
  {
  }

  /** Class `B extends A` without a field `x` of its own finds `A`'s `x`. */
  lemma GetFieldThroughSuperclass(cat: Catalog, t: Type)
    requires WellFormed(cat) && "A" in cat && "B" in cat
    requires cat["B"].superclass == Some("A") && "x" !in cat["B"].fields && cat["A"].fields == map["x" := t]
    ensures GetFieldByName(cat, "B", "x") == Some(Field("A", "x", t))
  {
  }

  // ---------------------------------------------------------------- hasField

  /** `hasField(SootClass cls, fieldName)`: false for a null class or name, else a plain `getField`. */
  function HasFieldOn(cat: Catalog, c: Option<ClassInfo>, f: Option<string>): (r: bool)
    requires WellFormed(cat) && (c.Some? ==> ParentsBelow(cat, c.value))
    ensures r <==>
      c.Some? && f.Some? && exists k | 0 <= k < |SuperChain(cat, c.value)| :: f.value in SuperChain(cat, c.value)[k].fields
  {
    if c.Some? && f.Some? then
      FirstDeclaringFinds(SuperChain(cat, c.value), f.value);
      var r := GetField(cat, c, f.value).Some?;
      assert r <==> exists k | 0 <= k < |SuperChain(cat, c.value)| :: f.value in SuperChain(cat, c.value)[k].fields;
      r
    else
      false
  }

  /** One array dimension removed from a printed type name. */
  function StripArraySuffix(cls: string): string {
    if EndsWith(cls, "[]") then cls[..|cls| - 2] else cls
  }

  lemma StripArrayOfArrayType(t: Type)
    ensures StripArraySuffix(TypeName(Array(t))) == TypeName(t)
  {
    var s := TypeName(t) + "[]";
    assert s[|s| - 2..] == "[]";
    assert s[..|s| - 2] == TypeName(t);
  }

  /**
   * Resolve the segments one after another: each on the current class, which starts as
   * `cls` and then is the previous field's printed type; one trailing `[]` is removed
   * before each lookup. The class reached, or None as soon as a segment does not resolve.
   */
  function WalkFields(cat: Catalog, cls: string, segs: seq<string>): Option<string>
    requires WellFormed(cat)
    decreases |segs|
  {
    if |segs| == 0 then Some(cls)
    else
      match GetFieldByName(cat, StripArraySuffix(cls), segs[0])
      case None => None
      case Some(fd) => WalkFields(cat, TypeName(fd.ty), segs[1..])
  }

  /**
   * What `hasField(String cls, String fieldName)` answers: one leading `<f>` and every
   * `<a>` are removed; a path that still holds `<f>` is split on it and walked segment by
   * segment, any other name is looked up directly on `cls`.
   */
  function HasFieldPath(cat: Catalog, cls: string, path: string): bool
    requires WellFormed(cat)
  {
    var p1 := if StartsWith(path, FieldMarker) then path[|FieldMarker|..] else path;
    var p2 := ReplaceAll(p1, ArrayMarker, "");
    if Contains(p2, FieldMarker) then WalkFields(cat, cls, JavaSplit(p2, FieldMarker)).Some?
    else GetFieldByName(cat, cls, p2).Some?
  }

  /** The loop of `hasField(String cls, String fieldName)` over the path segments. */
  method WalkPath(cat: Catalog, cls: string, pos: seq<string>) returns (found: bool)
    requires WellFormed(cat)
    ensures found == WalkFields(cat, cls, pos).Some?
  {
    var flag := true;
    var current := cls;
    var i := 0;
    while i < |pos|
      invariant 0 <= i <= |pos| && flag
      invariant WalkFields(cat, cls, pos) == WalkFields(cat, current, pos[i..])
    {
      if EndsWith(current, "[]") {
        current := current[..|current| - 2];
      }
      var field := GetFieldByName(cat, current, pos[i]);
      if field.None? {
        flag := false;
        break;
      }
      current := TypeName(field.value.ty);
      i := i + 1;
    }
    found := flag;
  }

  /** `hasField(String cls, String fieldName)` */
  method HasField(cat: Catalog, cls: string, fieldName: string) returns (found: bool)
    requires WellFormed(cat)
    ensures found == HasFieldPath(cat, cls, fieldName)
  {
    var name := fieldName;
    if StartsWith(name, FieldMarker) {
      name := name[3..];
    }
    name := ReplaceAll(name, ArrayMarker, "");
    if Contains(name, FieldMarker) {
      var pos := JavaSplit(name, FieldMarker);
      found := WalkPath(cat, cls, pos);
    } else {
      found := GetFieldByName(cat, cls, name).Some?;
    }
  }

  /** Walking `a + b` is walking `a`, then walking `b` from where `a` ended. */
  lemma {:induction false} WalkFieldsAppend(cat: Catalog, cls: string, a: seq<string>, b: seq<string>)
    requires WellFormed(cat)
    decreases |a|
    ensures WalkFields(cat, cls, a + b) ==
      match WalkFields(cat, cls, a)
      case None => None
      case Some(k) => WalkFields(cat, k, b)
  {
    if |a| > 0 {
      assert (a + b)[1..] == a[1..] + b;
      match GetFieldByName(cat, StripArraySuffix(cls), a[0])
      case None =>
      case Some(fd) => WalkFieldsAppend(cat, TypeName(fd.ty), a[1..], b);
    } else {
      assert a + b == b;
    }
  }

  /**
   * A walk succeeds exactly when every segment resolves on the class the walk has reached
   * before it.
   */
  lemma {:induction false} WalkFieldsEverySegment(cat: Catalog, cls: string, segs: seq<string>)
    requires WellFormed(cat)
    ensures WalkFields(cat, cls, segs).Some? <==>
      forall i | 0 <= i < |segs| ::
        && WalkFields(cat, cls, segs[..i]).Some?
        && GetFieldByName(cat, StripArraySuffix(WalkFields(cat, cls, segs[..i]).value), segs[i]).Some?
  {
    if |segs| > 0 {
      var n := |segs| - 1;
      var init := segs[..n];
      WalkFieldsEverySegment(cat, cls, init);
      WalkFieldsAppend(cat, cls, init, [segs[n]]);
      assert init + [segs[n]] == segs;
      assert forall i | 0 <= i < n :: segs[..i] == init[..i];
    }
  }

  /** One segment that does not resolve makes the whole walk fail, whatever follows it. */
  lemma FailingSegment(cat: Catalog, cls: string, a: seq<string>, s: string, b: seq<string>)
    requires WellFormed(cat) && WalkFields(cat, cls, a).Some?
    requires GetFieldByName(cat, StripArraySuffix(WalkFields(cat, cls, a).value), s).None?
    ensures WalkFields(cat, cls, a + [s] + b).None?
  {
    WalkFieldsAppend(cat, cls, a, [s] + b);
    assert a + [s] + b == a + ([s] + b);
  }

  /** A path may start with `<f>` or not. */
  function Lead(lead: bool): string {
    if lead then FieldMarker else ""
  }

  /** A segment, with the array marker `<a>` after it when `mark` is set. */
  function Marked(seg: string, mark: bool): string {
    if mark then seg + ArrayMarker else seg
  }

  /** Every segment with its own marker. */
  function MarkSegments(segs: seq<string>, marks: seq<bool>): (r: seq<string>)
    requires |marks| == |segs|
    ensures |r| == |segs|
    ensures forall i | 0 <= i < |segs| :: r[i] == Marked(segs[i], marks[i])
  {
    seq(|segs|, i requires 0 <= i < |segs| => Marked(segs[i], marks[i]))
  }

  /** Removing `<a>` from a segment without `<` and its optional marker leaves the segment. */
  lemma RemoveMarker(seg: string, mark: bool, rest: string)
    requires '<' !in seg
    ensures ReplaceAll(Marked(seg, mark) + rest, ArrayMarker, "") == seg + ReplaceAll(rest, ArrayMarker, "")
  {
    if mark {
      assert seg + ArrayMarker + rest == seg + (ArrayMarker + rest);
      ReplaceAllSkip(seg, ArrayMarker + rest, ArrayMarker, "");
      ReplaceAllHead(rest, ArrayMarker, "");
      assert "" + ReplaceAll(rest, ArrayMarker, "") == ReplaceAll(rest, ArrayMarker, "");
    } else {
      ReplaceAllSkip(seg, rest, ArrayMarker, "");
    }
  }

  /** `<f>` is not touched when `<a>` is removed. */
  lemma RemoveMarkerKeepsFieldMarker(rest: string)
    ensures ReplaceAll(FieldMarker + rest, ArrayMarker, "") == FieldMarker + ReplaceAll(rest, ArrayMarker, "")
  {
    var s := FieldMarker + rest;
    forall j | 0 <= j < |FieldMarker| ensures !OccursAt(s, ArrayMarker, j) {
      if j + 3 <= |s| {
        if j == 0 {
          assert s[j..j + 3][1] == 'f';
        } else {
          assert s[j..j + 3][0] == FieldMarker[j];
        }
      }
    }
    ReplaceAllAfterPrefix(FieldMarker, rest, ArrayMarker, "");
  }

  /** Removing every `<a>` from the marked, `<f>`-joined segments gives the plain joined segments. */
  lemma {:induction false} RemoveArrayMarkers(segs: seq<string>, marks: seq<bool>)
    requires |marks| == |segs|
    requires forall i | 0 <= i < |segs| :: '<' !in segs[i]
    ensures ReplaceAll(Join(MarkSegments(segs, marks), FieldMarker), ArrayMarker, "") == Join(segs, FieldMarker)
    decreases |segs|
  {
    var ms := MarkSegments(segs, marks);
    if |segs| == 1 {
      RemoveMarker(segs[0], marks[0], "");
      assert Marked(segs[0], marks[0]) + "" == ms[0];
      assert segs[0] + "" == segs[0];
    } else if |segs| > 1 {
      var tail := MarkSegments(segs[1..], marks[1..]);
      assert ms[1..] == tail;
      RemoveArrayMarkers(segs[1..], marks[1..]);
      RemoveMarkerThenField(segs[0], marks[0], Join(tail, FieldMarker));
    }
  }

  /** One step of `RemoveArrayMarkers`: a marked segment, then `<f>`, then the rest. */
  lemma RemoveMarkerThenField(seg: string, mark: bool, j: string)
    requires '<' !in seg
    ensures ReplaceAll(Marked(seg, mark) + FieldMarker + j, ArrayMarker, "")
      == seg + FieldMarker + ReplaceAll(j, ArrayMarker, "")
  {
    var x, r := Marked(seg, mark), ReplaceAll(j, ArrayMarker, "");
    AppendAssoc(x, FieldMarker, j);
    RemoveMarker(seg, mark, FieldMarker + j);
    RemoveMarkerKeepsFieldMarker(j);
    AppendAssoc(seg, FieldMarker, r);
  }

  /** A path whose first segment is not empty and has no `<` does not start with `<f>`. */
  lemma NoLeadingFieldMarker(first: string, rest: string)
    requires first != "" && '<' !in first
    ensures !StartsWith(first + rest, FieldMarker)
  {
    if |first + rest| >= 3 {
      assert (first + rest)[..3][0] == first[0];
    }
  }

  /**
   * A path `f1 m1 <f> f2 m2 ... <f> fn mn` (n >= 2), optionally led by `<f>`, where each
   * `mi` is either nothing or the array marker `<a>` and the field names have no `<`, is
   * found exactly when the walk over `f1 ... fn` succeeds.
   */
  lemma HasFieldOfJoinedPath(cat: Catalog, cls: string, lead: bool, segs: seq<string>, marks: seq<bool>)
    requires WellFormed(cat) && |segs| >= 2 && |marks| == |segs|
    requires forall i | 0 <= i < |segs| :: '<' !in segs[i] && segs[i] != ""
    ensures HasFieldPath(cat, cls, Lead(lead) + Join(MarkSegments(segs, marks), FieldMarker))
      == WalkFields(cat, cls, segs).Some?
  {
    var ms := MarkSegments(segs, marks);
    var j := Join(ms, FieldMarker);
    var path := Lead(lead) + j;
    if lead {
      assert path[..3] == FieldMarker;
      assert path[3..] == j;
    } else {
      assert path == j;
      assert j == ms[0] + (FieldMarker + Join(ms[1..], FieldMarker));
      assert ms[0] == segs[0] || ms[0] == segs[0] + ArrayMarker;
      if marks[0] {
        assert ms[0] + (FieldMarker + Join(ms[1..], FieldMarker))
          == segs[0] + (ArrayMarker + FieldMarker + Join(ms[1..], FieldMarker));
        NoLeadingFieldMarker(segs[0], ArrayMarker + FieldMarker + Join(ms[1..], FieldMarker));
      } else {
        NoLeadingFieldMarker(segs[0], FieldMarker + Join(ms[1..], FieldMarker));
      }
    }
    RemoveArrayMarkers(segs, marks);
    JavaSplitJoin(segs, FieldMarker);
    JoinContainsSeparator(segs, FieldMarker);
  }

  /**
   * A single field name without `<`, optionally led by `<f>` and optionally followed by
   * `<a>`, is looked up directly on `cls`, without removing `[]`.
   */
  lemma HasFieldOfSingleName(cat: Catalog, cls: string, lead: bool, f: string, mark: bool)
    requires WellFormed(cat) && '<' !in f
    ensures HasFieldPath(cat, cls, Lead(lead) + Marked(f, mark)) == GetFieldByName(cat, cls, f).Some?
  {
    var m := Marked(f, mark);
    var path := Lead(lead) + m;
    if lead {
      assert path[..3] == FieldMarker;
      assert path[3..] == m;
    } else {
      assert path == m;
      if f != "" {
        assert m == f + (if mark then ArrayMarker else "");
        NoLeadingFieldMarker(f, if mark then ArrayMarker else "");
      } else if mark {
        assert m == ArrayMarker;
        assert ArrayMarker[1] != FieldMarker[1];
      }
    }
    RemoveMarker(f, mark, "");
    assert m + "" == m;
    assert ReplaceAll("", ArrayMarker, "") == "";
    assert f + "" == f;
    NoOccurrenceWithoutFirstChar(f, FieldMarker);
  }

  /** `<f>a<a>`, as `getSimpleName0` renders an array field hop, is checked as the field `a`. */
  lemma HasFieldOfMarkedField(cat: Catalog, cls: string)
    requires WellFormed(cat)
    ensures HasFieldPath(cat, cls, "<f>a<a>") == GetFieldByName(cat, cls, "a").Some?
  {
    HasFieldOfSingleName(cat, cls, true, "a", true);
    assert Lead(true) + Marked("a", true) == "<f>a<a>";
  }

  /** `a<a><f>b` is checked as the walk over the fields `a` and `b`. */
  lemma HasFieldOfMarkedPath(cat: Catalog, cls: string)
    requires WellFormed(cat)
    ensures HasFieldPath(cat, cls, "a<a><f>b") == WalkFields(cat, cls, ["a", "b"]).Some?
  {
    HasFieldOfJoinedPath(cat, cls, false, ["a", "b"], [true, false]);
    MarkedPathText();
  }

  /** The fields `a` (marked) and `b` joined by `<f>` spell `a<a><f>b`. */
  lemma MarkedPathText()
    ensures Lead(false) + Join(MarkSegments(["a", "b"], [true, false]), FieldMarker) == "a<a><f>b"
  {
    var ms := MarkSegments(["a", "b"], [true, false]);
    assert ms[0] == "a<a>" && ms[1] == "b";
    assert Join(ms[1..], FieldMarker) == "b";
  }

  // ---------------------------------------------------------------- isExtendFrom

  /**
   * `isExtendFrom(SootClass source, dest)`: false for a null class, true when `dest` is the
   * class's own name; a class with a superclass answers as its superclass does, and only a
   * class without one looks through its interfaces.
   */
  function IsExtendFrom(cat: Catalog, c: Option<ClassInfo>, dest: string): (r: bool)
    requires WellFormed(cat) && (c.Some? ==> ParentsBelow(cat, c.value))
    ensures c.None? ==> !r
    ensures c.Some? && c.value.name == dest ==> r
    decreases if c.Some? then c.value.rank else 0, 1, 0
  {
    if c.None? then false
    else if dest == c.value.name then true
    else if c.value.superclass.Some? then IsExtendFrom(cat, Some(ClassAt(cat, c.value.superclass.value)), dest)
    else if |c.value.interfaces| > 0 then AnyInterfaceExtends(cat, c.value, 0, dest)
    else false
  }

  /** The loop over the interfaces of `c` from position `i`. */
  function AnyInterfaceExtends(cat: Catalog, c: ClassInfo, i: nat, dest: string): bool
    requires Handle(cat, c) && i <= |c.interfaces|
    decreases c.rank, 0, |c.interfaces| - i
  {
    ClassAtWellFormed(cat, if i < |c.interfaces| then c.interfaces[i] else "");
    i < |c.interfaces| &&
    (IsExtendFrom(cat, Some(ClassAt(cat, c.interfaces[i])), dest) || AnyInterfaceExtends(cat, c, i + 1, dest))
  }

  lemma {:induction false} AnyInterfaceWitness(cat: Catalog, c: ClassInfo, i: nat, dest: string) returns (j: nat)
    requires Handle(cat, c) && i <= |c.interfaces| && AnyInterfaceExtends(cat, c, i, dest)
    ensures i <= j < |c.interfaces| && IsExtendFrom(cat, Some(ClassAt(cat, c.interfaces[j])), dest)
    decreases |c.interfaces| - i
  {
    ClassAtWellFormed(cat, c.interfaces[i]);
    if IsExtendFrom(cat, Some(ClassAt(cat, c.interfaces[i])), dest) {
      j := i;
    } else {
      j := AnyInterfaceWitness(cat, c, i + 1, dest);
    }
  }

  lemma {:induction false} AnyInterfaceFrom(cat: Catalog, c: ClassInfo, i: nat, j: nat, dest: string)
    requires Handle(cat, c) && i <= j < |c.interfaces|
    requires ClassAt(cat, c.interfaces[j]).rank < c.rank
    requires IsExtendFrom(cat, Some(ClassAt(cat, c.interfaces[j])), dest)
    ensures AnyInterfaceExtends(cat, c, i, dest)
    decreases j - i
  {
    ClassAtWellFormed(cat, c.interfaces[i]);
    if i < j {
      AnyInterfaceFrom(cat, c, i + 1, j, dest);
    }
  }

  /**
   * The ancestors `isExtendFrom` sees are the names on the superclass chain, plus whatever
   * the interfaces of the chain's topmost class (the one without a superclass) lead to.
   */
  lemma {:induction false} IsExtendFromChain(cat: Catalog, c: ClassInfo, dest: string)
    requires Handle(cat, c)
    ensures var cs := SuperChain(cat, c);
      IsExtendFrom(cat, Some(c), dest) <==>
        (exists x | x in cs :: x.name == dest) || AnyInterfaceExtends(cat, cs[|cs| - 1], 0, dest)
    decreases c.rank
  {
    var cs := SuperChain(cat, c);
    if c.superclass.Some? {
      var s := ClassAt(cat, c.superclass.value);
      IsExtendFromChain(cat, s, dest);
      var ss := SuperChain(cat, s);
      assert cs == [c] + ss;
      assert cs[|cs| - 1] == ss[|ss| - 1];
    } else {
      assert cs == [c];
    }
  }

  /** Every class on the superclass chain is an ancestor in `isExtendFrom`'s sense. */
  lemma SuperChainExtends(cat: Catalog, c: ClassInfo, k: nat)
    requires Handle(cat, c) && k < |SuperChain(cat, c)|
    ensures IsExtendFrom(cat, Some(c), SuperChain(cat, c)[k].name)
  {
    IsExtendFromChain(cat, c, SuperChain(cat, c)[k].name);
    assert SuperChain(cat, c)[k] in SuperChain(cat, c);
  }

  /** Following `isExtendFrom` twice is following it once, for a class taken from the catalog. */
  lemma {:induction false} IsExtendFromTransitive(cat: Catalog, c: ClassInfo, mid: string, dest: string)
    requires Handle(cat, c) && c == ClassAt(cat, c.name)
    requires IsExtendFrom(cat, Some(c), mid)
    requires IsExtendFrom(cat, Some(ClassAt(cat, mid)), dest)
    ensures IsExtendFrom(cat, Some(c), dest)
    decreases c.rank
  {
    if mid == c.name || dest == c.name {
    } else if c.superclass.Some? {
      var n := c.superclass.value;
      ClassAtWellFormed(cat, n);
      IsExtendFromTransitive(cat, ClassAt(cat, n), mid, dest);
    } else {
      var j := AnyInterfaceWitness(cat, c, 0, mid);
      var n := c.interfaces[j];
      ClassAtWellFormed(cat, n);
      IsExtendFromTransitive(cat, ClassAt(cat, n), mid, dest);
      AnyInterfaceFrom(cat, c, 0, j, dest);
    }
  }

  /**
   * A class `B extends A implements I` is not seen as extending `I`, although `getMethod`
   * finds the method `I` declares.
   */
  lemma InterfacesBelowSuperclassAreMissed()
    ensures var cat := map[
        "A" := ClassInfo("A", false, None, [], {}, map[], 1),
        "I" := ClassInfo("I", true, None, [], {"void run()"}, map[], 1),
        "B" := ClassInfo("B", false, Some("A"), ["I"], {}, map[], 2)];
      && WellFormed(cat)
      && !IsExtendFrom(cat, Some(cat["B"]), "I")
      && GetMethod(cat, cat["B"], "void run()") == Some(MethodRef("I", "void run()"))
  {
    var cat := map[
        "A" := ClassInfo("A", false, None, [], {}, map[], 1),
        "I" := ClassInfo("I", true, None, [], {"void run()"}, map[], 1),
        "B" := ClassInfo("B", false, Some("A"), ["I"], {}, map[], 2)];
    assert WellFormed(cat);
    assert !IsExtendFrom(cat, Some(cat["A"]), "I");
    assert GetMethod(cat, cat["A"], "void run()") == None;
    assert GetMethod(cat, cat["I"], "void run()") == Some(MethodRef("I", "void run()"));
  }

  /**
   * `isExtendFrom(Set<String> sources, dest)`: true when `dest` is one of the names, or one
   * of the names resolves to a class that extends `dest`.
   */
  function IsExtendFromAny(cat: Catalog, sources: set<string>, dest: string): (r: bool)
    requires WellFormed(cat)
    ensures dest in sources ==> r
  {
    dest in sources || exists s | s in sources :: IsExtendFrom(cat, LookupClass(cat, s), dest)
  }

  /** Adding names never loses an answer. */
  lemma IsExtendFromAnyMonotone(cat: Catalog, s1: set<string>, s2: set<string>, dest: string)
    requires WellFormed(cat) && s1 <= s2 && IsExtendFromAny(cat, s1, dest)
    ensures IsExtendFromAny(cat, s2, dest)
  {
  }

  /** A resolvable name answers for every class on its superclass chain. */
  lemma IsExtendFromAnySuperChain(cat: Catalog, sources: set<string>, s: string, k: nat)
    requires WellFormed(cat) && s in sources && s in cat && k < |SuperChain(cat, cat[s])|
    ensures IsExtendFromAny(cat, sources, SuperChain(cat, cat[s])[k].name)
  {
    SuperChainExtends(cat, cat[s], k);
  }

  /** An unresolvable name counts only by being `dest` itself. */
  lemma IsExtendFromAnyUnknownName(cat: Catalog, s: string, dest: string)
    requires WellFormed(cat) && s !in cat
    ensures IsExtendFromAny(cat, {s}, dest) <==> s == dest
  {
  }

  // ---------------------------------------------------------------- hasDefaultConstructor

  /** `hasDefaultConstructor(cls)`: the class itself declares `void <init>()`. */
  function HasDefaultConstructor(c: Option<ClassInfo>): (r: bool)
    ensures r ==> c.Some?
  {
    c.Some? && DefaultConstructor in c.value.methods
  }

  /**
   * A default constructor the class declares is what `getMethod` finds; one declared only
   * by a superclass does not count, although `getMethod` would find it there.
   */
  lemma DefaultConstructorIsOwnMethod(cat: Catalog, c: ClassInfo)
    requires Handle(cat, c) && c == ClassAt(cat, c.name)
    ensures HasDefaultConstructor(Some(c)) <==>
      GetMethod(cat, c, DefaultConstructor) == Some(MethodRef(c.name, DefaultConstructor))
    ensures (!HasDefaultConstructor(Some(c)) && c.superclass.Some? &&
               DefaultConstructor in ClassAt(cat, c.superclass.value).methods) ==>
              GetMethod(cat, c, DefaultConstructor) ==
                Some(MethodRef(ClassAt(cat, c.superclass.value).name, DefaultConstructor))
  {
    if c.superclass.Some? {
      ClassAtWellFormed(cat, c.superclass.value);
    }
  }
}
