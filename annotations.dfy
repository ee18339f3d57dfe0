/**
 * `getAnnotations(tags)`: from the visibility-annotation tags of a class, method or field to
 * a map from annotation type name to a map from element name to the element's values.
 */
module Annotations {
  import opened JavaStrings
  import opened Soot
  import opened NameHelpers

  type ElemMap = map<string, set<string>>
  type AnnotationMap = map<string, ElemMap>

  const KotlinMetadata := "kotlin.Metadata"
  const SchemaPrefix := "io.swagger.v3.oas.annotations.media.Schema"

  // ---------------------------------------------------------------- well-formed input

  /** Every descriptor `normalize` is applied to has the two delimiter characters. */
  predicate ItemOk(it: ArrayItem) {
    it.EnumItem? ==> |it.typeName| >= 2
  }

  predicate ElemOk(e: AnnotationElem) {
    e.ArrayElem? ==> forall it | it in e.items :: ItemOk(it)
  }

  predicate AnnotationOk(a: AnnotationTag) {
    |a.typeDescriptor| >= 2 && forall e | e in a.elems :: ElemOk(e)
  }

  predicate TagOk(t: Tag) {
    t.VisibilityAnnotationTag? ==> forall a | a in t.annotations :: AnnotationOk(a)
  }

  // ---------------------------------------------------------------- what is built

  /**
   * The dotted name of a descriptor. A descriptor shorter than two characters makes
   * `normalize` throw; it is kept as it is here, and `GetAnnotations` rules it out.
   */
  function DottedName(d: string): string {
    if |d| >= 2 then Normalize(d) else d
  }

  /** An array item's value: a string verbatim, an enum as `Type.NAME`, anything else as printed. */
  function ItemText(it: ArrayItem): string {
    match it
    case StringItem(v) => v
    case EnumItem(t, c) => DottedName(t) + "." + c
    case OtherItem(s) => s
  }

  /** The values of the items, collected left to right. */
  function ItemValues(items: seq<ArrayItem>): set<string>
  {
    if |items| == 0 then {}
    else
      var n := |items| - 1;
      ItemValues(items[..n]) + {ItemText(items[n])}
  }

  /** The values are exactly the texts of the items. */
  lemma {:induction false} ItemValuesMembers(items: seq<ArrayItem>)
    ensures forall x :: x in ItemValues(items) <==> exists i | 0 <= i < |items| :: ItemText(items[i]) == x
  {
    if |items| > 0 {
      var n := |items| - 1;
      ItemValuesMembers(items[..n]);
      assert forall i | 0 <= i < n :: items[..n][i] == items[i];
    }
  }

  /** An element's values: its items for an array, its value for a string, none otherwise. */
  function ElemValues(e: AnnotationElem): set<string>
  {
    match e
    case ArrayElem(_, items) => ItemValues(items)
    case StringElem(_, v) => {v}
    case OtherElem(_) => {}
  }

  /** The element map of an annotation: elements put one after another under their names. */
  function ElemInfo(elems: seq<AnnotationElem>): ElemMap
  {
    if |elems| == 0 then map[]
    else
      var n := |elems| - 1;
      ElemInfo(elems[..n])[elems[n].name := ElemValues(elems[n])]
  }

  /** The dotted type name of an annotation. */
  function TypeOf(a: AnnotationTag): string
  {
    DottedName(a.typeDescriptor)
  }

  /** The two annotation families that are skipped as noise. */
  predicate Skipped(ty: string) {
    ty == KotlinMetadata || StartsWith(ty, SchemaPrefix)
  }

  /** `m` after putting the annotations, one after another, under their type names. */
  function AddAnnotations(m: AnnotationMap, anns: seq<AnnotationTag>): AnnotationMap
  {
    if |anns| == 0 then m
    else
      var n := |anns| - 1;
      var before := AddAnnotations(m, anns[..n]);
      if Skipped(TypeOf(anns[n])) then before else before[TypeOf(anns[n]) := ElemInfo(anns[n].elems)]
  }

  /** The annotations of the visibility-annotation tags, in order; other tags contribute none. */
  function VisibleAnnotations(tags: seq<Tag>): (r: seq<AnnotationTag>)
  {
    if |tags| == 0 then []
    else
      var n := |tags| - 1;
      VisibleAnnotations(tags[..n]) + (if tags[n].VisibilityAnnotationTag? then tags[n].annotations else [])
  }

  /** The map `getAnnotations` builds. */
  function Decoded(tags: seq<Tag>): AnnotationMap
  {
    AddAnnotations(map[], VisibleAnnotations(tags))
  }

  // ---------------------------------------------------------------- the loops

  /** The innermost loop of `getAnnotations`: the value set of one element. */
  method CollectElemValues(elem: AnnotationElem) returns (values: set<string>)
    requires ElemOk(elem)
    ensures values == ElemValues(elem)
  {
    values := {};
    if elem.ArrayElem? {
      var items := elem.items;
      var m := 0;
      while m < |items|
        invariant 0 <= m <= |items|
        invariant values == ItemValues(items[..m])
      {
        assert items[..m + 1][..m] == items[..m];
        assert items[m] in items && items[..m + 1][m] == items[m];
        var text;
        match items[m] {
          case StringItem(v) => text := v;
          case EnumItem(t, c) => text := Normalize(t) + "." + c;
          case OtherItem(o) => text := o;
        }
        values := values + {text};
        m := m + 1;
      }
      assert items[..m] == items;
    }
    if elem.StringElem? {
      values := values + {elem.value};
    }
  }

  /** The loop over the elements of one annotation. */
  method CollectElemInfo(elems: seq<AnnotationElem>) returns (info: ElemMap)
    requires forall e | e in elems :: ElemOk(e)
    ensures info == ElemInfo(elems)
  {
    info := map[];
    var k := 0;
    while k < |elems|
      invariant 0 <= k <= |elems|
      invariant info == ElemInfo(elems[..k])
    {
      assert elems[..k + 1][..k] == elems[..k];
      var elem := elems[k];
      assert elem in elems && elems[..k + 1][k] == elem;
      var values := CollectElemValues(elem);
      info := info[elem.name := values];
      k := k + 1;
    }
    assert elems[..k] == elems;
  }

  /** The loop over the annotations of one tag: each is put into `m` under its dotted type name. */
  method PutAnnotations(m: AnnotationMap, anns: seq<AnnotationTag>) returns (ret: AnnotationMap)
    requires forall a | a in anns :: AnnotationOk(a)
    ensures ret == AddAnnotations(m, anns)
  {
    ret := m;
    var j := 0;
    while j < |anns|
      invariant 0 <= j <= |anns|
      invariant ret == AddAnnotations(m, anns[..j])
    {
      var annotationTag := anns[j];
      assert annotationTag in anns;
      AddAnnotationsStep(m, anns, j);
      var ty := Normalize(annotationTag.typeDescriptor);
      if ty == KotlinMetadata || StartsWith(ty, SchemaPrefix) {
        j := j + 1;
        continue;
      }
      var info := CollectElemInfo(annotationTag.elems);
      ret := ret[ty := info];
      j := j + 1;
    }
    assert anns[..j] == anns;
  }

  /** One more annotation is put, or skipped, on top of the ones before it. */
  lemma AddAnnotationsStep(m: AnnotationMap, anns: seq<AnnotationTag>, j: nat)
    requires j < |anns|
    ensures AddAnnotations(m, anns[..j + 1]) ==
      var before := AddAnnotations(m, anns[..j]);
      if Skipped(TypeOf(anns[j])) then before else before[TypeOf(anns[j]) := ElemInfo(anns[j].elems)]
  {
    assert anns[..j + 1][..j] == anns[..j];
    assert anns[..j + 1][j] == anns[j];
  }

  /** `getAnnotations(tags)`: the loop over the tags, each visibility tag's annotations put in turn. */
  method GetAnnotations(tags: seq<Tag>) returns (ret: AnnotationMap)
    requires forall t | t in tags :: TagOk(t)
    ensures ret == Decoded(tags)
  {
    ret := map[];
    var i := 0;
    while i < |tags|
      invariant 0 <= i <= |tags|
      invariant ret == Decoded(tags[..i])
    {
      assert tags[..i + 1][..i] == tags[..i];
      assert tags[..i + 1][i] == tags[i];
      ghost var seen := VisibleAnnotations(tags[..i]);
      if tags[i].VisibilityAnnotationTag? {
        var anns := tags[i].annotations;
        assert tags[i] in tags;
        assert VisibleAnnotations(tags[..i + 1]) == seen + anns;
        ret := PutAnnotations(ret, anns);
        AddAnnotationsAppend(map[], seen, anns);
      } else {
        assert VisibleAnnotations(tags[..i + 1]) == seen + [];
        assert seen + [] == seen;
      }
      i := i + 1;
    }
    assert tags[..i] == tags;
  }

  // ---------------------------------------------------------------- properties

  /** Putting `a + b` is putting `a`, then `b`. */
  lemma {:induction false} AddAnnotationsAppend(m: AnnotationMap, a: seq<AnnotationTag>, b: seq<AnnotationTag>)
    ensures AddAnnotations(m, a + b) == AddAnnotations(AddAnnotations(m, a), b)
    decreases |b|
  {
    if |b| > 0 {
      var n := |b| - 1;
      assert (a + b)[..|a| + n] == a + b[..n];
      AddAnnotationsAppend(m, a, b[..n]);
    } else {
      assert a + b == a;
    }
  }

  /** Every element name is a key of the element map, and nothing else is. */
  lemma {:induction false} ElemInfoKeys(elems: seq<AnnotationElem>)
    ensures forall k :: k in ElemInfo(elems) <==> exists i | 0 <= i < |elems| :: elems[i].name == k
  {
    if |elems| > 0 {
      var n := |elems| - 1;
      ElemInfoKeys(elems[..n]);
      assert forall i | 0 <= i < n :: elems[..n][i] == elems[i];
    }
  }

  /** The values under a name are those of the last element carrying that name. */
  lemma {:induction false} ElemInfoLastWins(elems: seq<AnnotationElem>, i: nat)
    requires i < |elems| && forall j | i < j < |elems| :: elems[j].name != elems[i].name
    ensures elems[i].name in ElemInfo(elems) && ElemInfo(elems)[elems[i].name] == ElemValues(elems[i])
  {
    var n := |elems| - 1;
    if i < n {
      assert forall j | 0 <= j < n :: elems[..n][j] == elems[j];
      ElemInfoLastWins(elems[..n], i);
      assert elems[n].name != elems[i].name;
    }
  }

  /** A non-array, non-string element is still a key, with no values. */
  lemma OtherElementHasNoValues(elems: seq<AnnotationElem>, i: nat)
    requires i < |elems| && elems[i].OtherElem? && forall j | i < j < |elems| :: elems[j].name != elems[i].name
    ensures elems[i].name in ElemInfo(elems) && ElemInfo(elems)[elems[i].name] == {}
  {
    ElemInfoLastWins(elems, i);
  }

  /** The keys of the result: the kept type names of the annotations, beyond those of `m`. */
  lemma {:induction false} AddAnnotationsKeys(m: AnnotationMap, anns: seq<AnnotationTag>)
    ensures forall k :: k in AddAnnotations(m, anns) <==>
      k in m || exists i | 0 <= i < |anns| :: !Skipped(TypeOf(anns[i])) && TypeOf(anns[i]) == k
  {
    if |anns| > 0 {
      var n := |anns| - 1;
      AddAnnotationsKeys(m, anns[..n]);
      assert forall i | 0 <= i < n :: anns[..n][i] == anns[i];
    }
  }

  /** A kept annotation that no later annotation of the same type follows decides its entry. */
  lemma {:induction false} AddAnnotationsLastWins(m: AnnotationMap, anns: seq<AnnotationTag>, i: nat)
    requires i < |anns| && !Skipped(TypeOf(anns[i]))
    requires forall j | i < j < |anns| :: TypeOf(anns[j]) != TypeOf(anns[i])
    ensures TypeOf(anns[i]) in AddAnnotations(m, anns)
    ensures AddAnnotations(m, anns)[TypeOf(anns[i])] == ElemInfo(anns[i].elems)
    decreases |anns|
  {
    var init := anns[..|anns| - 1];
    if i < |init| {
      assert forall j | 0 <= j < |init| :: init[j] == anns[j];
      AddAnnotationsLastWins(m, init, i);
    }
  }

  /**
   * The keys of the decoded map are exactly the type names of the visible annotations that
   * are not skipped as noise; `kotlin.Metadata` and the Schema family never appear.
   */
  lemma DecodedKeys(tags: seq<Tag>)
    ensures var anns := VisibleAnnotations(tags);
      forall k :: k in Decoded(tags) <==>
        exists i | 0 <= i < |anns| :: !Skipped(TypeOf(anns[i])) && TypeOf(anns[i]) == k
    ensures KotlinMetadata !in Decoded(tags)
    ensures forall k | k in Decoded(tags) :: !StartsWith(k, SchemaPrefix)
  {
    AddAnnotationsKeys(map[], VisibleAnnotations(tags));
  }

  /** A later annotation of the same type overwrites an earlier one. */
  lemma DecodedLastWins(tags: seq<Tag>, i: nat)
    requires var anns := VisibleAnnotations(tags);
      i < |anns| && !Skipped(TypeOf(anns[i])) && forall j | i < j < |anns| :: TypeOf(anns[j]) != TypeOf(anns[i])
    ensures var a := VisibleAnnotations(tags)[i];
      TypeOf(a) in Decoded(tags) && Decoded(tags)[TypeOf(a)] == ElemInfo(a.elems)
  {
    AddAnnotationsLastWins(map[], VisibleAnnotations(tags), i);
  }

  lemma EnumTypeName()
    ensures DottedName("Lp/Kind;") == "p.Kind"
  {
    var n := Normalize("Lp/Kind;");
    NormalizeChars("Lp/Kind;");
    forall i | 0 <= i < |n| ensures n[i] == "p.Kind"[i] {
    }
  }

  /**
   * One array element with three strings and one enum constant gives a four-value set,
   * the enum rendered as `Type.NAME`.
   */
  lemma ThreeStringsAndAnEnum()
    ensures var items := [StringItem("a"), StringItem("b"), StringItem("c"), EnumItem("Lp/Kind;", "ONE")];
      && ElemValues(ArrayElem("value", items)) == {"a", "b", "c", "p.Kind.ONE"}
      && |ElemValues(ArrayElem("value", items))| == 4
  {
    var items := [StringItem("a"), StringItem("b"), StringItem("c"), EnumItem("Lp/Kind;", "ONE")];
    EnumTypeName();
    assert ItemText(items[3]) == "p.Kind.ONE";
    assert items[..3][..2][..1] == [StringItem("a")];
    assert items[..3][..2] == [StringItem("a"), StringItem("b")];
    assert items[..3] == [StringItem("a"), StringItem("b"), StringItem("c")];
    assert ItemValues([StringItem("a")]) == {"a"};
    assert ItemValues([StringItem("a"), StringItem("b")]) == {"a", "b"};
    assert ItemValues(items[..3]) == {"a", "b", "c"};
    assert ItemValues(items) == {"a", "b", "c", "p.Kind.ONE"};
  }
}
