/**
 * The value-identity helpers of `SemanticHelper`: the shallow display name of a value
 * (`extractValueName`) and the uuid hashed from it (`calculateUuid`), and the two path
 * renderers `getSimpleName` (array accesses are transparent) and `getSimpleName0` (a
 * top-level array access gets the marker `<a>`). An instance-field hop renders as
 * `<f>` followed by the field name.
 */
module ValueNames {
  import opened Wrappers
  import opened JavaStrings
  import opened Soot

  const FieldMarker := "<f>"
  const ArrayMarker := "<a>"

  /** A possibly null string as Java's `+` prints it: null becomes "null". */
  function JavaText(s: Option<string>): string {
    s.GetOr("null")
  }

  /** What `extractValueName` is handed: a value, a field or a class. */
  datatype Named = ValueObject(v: Value) | FieldObject(f: Field) | ClassObject(c: ClassInfo)

  /** `extractValueName(value)` for Jimple values. */
  function ValueName(v: Value): string {
    match v
    case Local(n, _) => n
    case InstanceFieldRef(_, f) => Signature(f)
    case ArrayRef(b, _) => ValueName(b)
    case _ => Text(v)
  }

  /** `extractValueName(value)`: a field is named by its signature, a class by its name. */
  function ExtractValueName(o: Named): string {
    match o
    case ValueObject(v) => ValueName(v)
    case FieldObject(f) => Signature(f)
    case ClassObject(c) => c.name
  }

  /** `calculateUuid(value)`; `md5` stands for the digest `hashString` computes. */
  function CalculateUuid(md5: string -> string, o: Named): string {
    md5(ExtractValueName(o))
  }

  /** The storage location a value denotes: array accesses and casts removed at every level. */
  function Location(v: Value): Value {
    match v
    case InstanceFieldRef(b, f) => InstanceFieldRef(Location(b), f)
    case ArrayRef(b, _) => Location(b)
    case CastExpr(op, _) => Location(op)
    case _ => v
  }

  /**
   * `getSimpleName(value)`: a local renders as its name, a field access as its base's
   * rendering, `<f>` and the field name, a static field or constant as its text; array
   * accesses and casts are transparent. It is null exactly for a value whose location is
   * of an unrecognised kind (printed as "null" where a field access builds on it).
   */
  function SimpleName(v: Value): (r: Option<string>)
    ensures r.None? <==> Location(v).Other?
  {
    match v
    case InstanceFieldRef(b, f) => Some(JavaText(SimpleName(b)) + FieldMarker + f.name)
    case Local(n, _) => Some(n)
    case ArrayRef(b, _) => SimpleName(b)
    case CastExpr(op, _) => SimpleName(op)
    case StaticFieldRef(_) => Some(Text(v))
    case Constant(_, _) => Some(Text(v))
    case Other(_) => None
  }

  /**
   * `getSimpleName0(value)`: the same rendering, except that a top-level array access
   * renders as its base's `getSimpleName` followed by `<a>`. Nested hops go through
   * `getSimpleName`, so deeper array accesses stay transparent.
   */
  function SimpleName0(v: Value): (r: Option<string>)
    ensures !v.ArrayRef? ==> r == SimpleName(v)
    ensures v.ArrayRef? ==> r == Some(JavaText(SimpleName(v.base)) + ArrayMarker)
  {
    match v
    case InstanceFieldRef(b, f) => Some(JavaText(SimpleName(b)) + FieldMarker + f.name)
    case Local(n, _) => Some(n)
    case ArrayRef(b, _) => Some(JavaText(SimpleName(b)) + ArrayMarker)
    case CastExpr(op, _) => SimpleName(op)
    case StaticFieldRef(_) => Some(Text(v))
    case Constant(_, _) => Some(Text(v))
    case Other(_) => None
  }

  /** Two values that denote the same storage location render to the same path. */
  lemma {:induction false} SimpleNameOfLocation(v: Value)
    ensures SimpleName(Location(v)) == SimpleName(v)
  {
    match v
    case InstanceFieldRef(b, f) => SimpleNameOfLocation(b);
    case ArrayRef(b, _) => SimpleNameOfLocation(b);
    case CastExpr(op, _) => SimpleNameOfLocation(op);
    case _ =>
  }

  lemma SameLocationSameName(v: Value, w: Value)
    requires Location(v) == Location(w)
    ensures SimpleName(v) == SimpleName(w)
  {
    SimpleNameOfLocation(v);
    SimpleNameOfLocation(w);
  }

  /** The value `root.f1.f2...fn` for the fields `fs`. */
  function FieldChain(root: Value, fs: seq<Field>): Value {
    if |fs| == 0 then root else InstanceFieldRef(FieldChain(root, fs[..|fs| - 1]), fs[|fs| - 1])
  }

  function FieldNames(fs: seq<Field>): (r: seq<string>)
    ensures |r| == |fs| && forall i | 0 <= i < |fs| :: r[i] == fs[i].name
  {
    seq(|fs|, i requires 0 <= i < |fs| => fs[i].name)
  }

  /** A field chain over a local renders as the local's name and the field names, joined by `<f>`. */
  lemma {:induction false} SimpleNameOfFieldChain(x: string, t: Type, fs: seq<Field>)
    ensures SimpleName(FieldChain(Local(x, t), fs)) == Some(Join([x] + FieldNames(fs), FieldMarker))
  {
    if |fs| > 0 {
      var init := fs[..|fs| - 1];
      SimpleNameOfFieldChain(x, t, init);
      assert [x] + FieldNames(fs) == [x] + FieldNames(init) + [fs[|fs| - 1].name];
      JoinSnoc([x] + FieldNames(init), fs[|fs| - 1].name, FieldMarker);
    }
  }

  /** Local `a`, field `f`, field `g` renders as `a<f>f<f>g`. */
  lemma SimpleNameExample(t: Type, f: Field, g: Field)
    requires f.name == "f" && g.name == "g"
    ensures SimpleName(InstanceFieldRef(InstanceFieldRef(Local("a", t), f), g)) == Some("a<f>f<f>g")
  {
    assert SimpleName(InstanceFieldRef(Local("a", t), f)) == Some("a" + FieldMarker + "f");
    assert "a" + FieldMarker + "f" + FieldMarker + "g" == "a<f>f<f>g";
  }

  /** A field access on an unrecognised base keeps Java's printing of null. */
  lemma SimpleNameOfUnrecognisedBase(text: string, f: Field)
    ensures SimpleName(InstanceFieldRef(Other(text), f)) == Some("null" + FieldMarker + f.name)
    ensures SimpleName0(ArrayRef(Other(text), Constant("0", Prim(Int)))) == Some("null" + ArrayMarker)
  {
  }

  /** The names and texts a value is built from hold no `<a>`. */
  predicate PartsFreeOfArrayMarker(v: Value) {
    match v
    case Local(n, _) => !Contains(n, ArrayMarker)
    case InstanceFieldRef(b, f) => PartsFreeOfArrayMarker(b) && !Contains(f.name, ArrayMarker)
    case StaticFieldRef(_) => !Contains(Text(v), ArrayMarker)
    case Constant(_, _) => !Contains(Text(v), ArrayMarker)
    case ArrayRef(b, _) => PartsFreeOfArrayMarker(b)
    case CastExpr(op, _) => PartsFreeOfArrayMarker(op)
    case Other(_) => true
  }

  /** Gluing two strings free of `<a>` cannot create one across a `<` or `>` boundary. */
  lemma ArrayMarkerFreeConcat(a: string, b: string)
    requires !Contains(a, ArrayMarker) && !Contains(b, ArrayMarker)
    requires (|a| > 0 && a[|a| - 1] == '>') || (|b| > 0 && b[0] == '<')
    ensures !Contains(a + b, ArrayMarker)
  {
    var s := a + b;
    forall i | 0 <= i <= |s| - 3 ensures !OccursAt(s, ArrayMarker, i) {
      if i + 3 <= |a| {
        assert s[i..i + 3] == a[i..i + 3];
        assert !OccursAt(a, ArrayMarker, i);
      } else if i >= |a| {
        assert s[i..i + 3] == b[i - |a|..i - |a| + 3];
        assert !OccursAt(b, ArrayMarker, i - |a|);
      } else {
        assert s[i..i + 3][0] == s[i] && s[i..i + 3][1] == s[i + 1] && s[i..i + 3][2] == s[i + 2];
        assert s[i] != '<' || s[i + 1] != 'a' || s[i + 2] != '>';
      }
    }
  }

  lemma FieldHopFreeOfArrayMarker(base: string, name: string)
    requires !Contains(base, ArrayMarker) && !Contains(name, ArrayMarker)
    ensures !Contains(base + FieldMarker + name, ArrayMarker)
  {
    assert FieldMarker[0..3][1] != ArrayMarker[1];
    ArrayMarkerFreeConcat(base, FieldMarker);
    ArrayMarkerFreeConcat(base + FieldMarker, name);
  }

  /** The strict rendering never holds `<a>` unless one of the value's parts does. */
  lemma {:induction false} SimpleNameFreeOfArrayMarker(v: Value)
    requires PartsFreeOfArrayMarker(v)
    ensures SimpleName(v).Some? ==> !Contains(SimpleName(v).value, ArrayMarker)
  {
    match v
    case InstanceFieldRef(b, f) =>
      SimpleNameFreeOfArrayMarker(b);
      NoOccurrenceWithoutFirstChar("null", ArrayMarker);
      FieldHopFreeOfArrayMarker(JavaText(SimpleName(b)), f.name);
    case ArrayRef(b, _) => SimpleNameFreeOfArrayMarker(b);
    case CastExpr(op, _) => SimpleNameFreeOfArrayMarker(op);
    case _ =>
  }

  /**
   * The array-aware rendering holds at most one `<a>`, and only at the end of a top-level
   * array access, when the value's parts hold none.
   */
  lemma SimpleName0AtMostOneArrayMarker(v: Value)
    requires PartsFreeOfArrayMarker(v)
    ensures SimpleName0(v).Some? && v.ArrayRef? ==>
      var r := SimpleName0(v).value;
      EndsWith(r, ArrayMarker) && !Contains(r[..|r| - 3], ArrayMarker)
    ensures SimpleName0(v).Some? && !v.ArrayRef? ==> !Contains(SimpleName0(v).value, ArrayMarker)
  {
    SimpleNameFreeOfArrayMarker(v);
    if v.ArrayRef? {
      SimpleNameFreeOfArrayMarker(v.base);
      NoOccurrenceWithoutFirstChar("null", ArrayMarker);
      var s := JavaText(SimpleName(v.base));
      assert (s + ArrayMarker)[..|s + ArrayMarker| - 3] == s;
    }
  }

  /** Array accesses, however deeply nested, are named after the value they finally index. */
  lemma {:induction false} ValueNameOfArrayBase(v: Value)
    ensures ValueName(v) == ValueName(ArrayBase(v))
  {
    if v.ArrayRef? {
      ValueNameOfArrayBase(v.base);
    }
  }

  /**
   * A field access, and any array access into one, is named by the field's signature
   * alone, whatever base the field is read from: it shares its name and uuid with the field.
   */
  lemma ValueNameOfFieldAccess(md5: string -> string, v: Value)
    requires ArrayBase(v).InstanceFieldRef?
    ensures ValueName(v) == Signature(ArrayBase(v).field)
    ensures CalculateUuid(md5, ValueObject(v)) == CalculateUuid(md5, FieldObject(ArrayBase(v).field))
  {
    ValueNameOfArrayBase(v);
  }

  /**
   * The uuid is a digest of the display name, not of the path: `a.f` and `b.f` get the
   * same uuid although their paths differ.
   */
  lemma UuidOfFieldAccessIgnoresBase(md5: string -> string, t: Type, f: Field)
    ensures CalculateUuid(md5, ValueObject(InstanceFieldRef(Local("a", t), f)))
         == CalculateUuid(md5, ValueObject(InstanceFieldRef(Local("b", t), f)))
    ensures SimpleName(InstanceFieldRef(Local("a", t), f)) != SimpleName(InstanceFieldRef(Local("b", t), f))
  {
    var pa := "a" + FieldMarker + f.name;
    var pb := "b" + FieldMarker + f.name;
    assert SimpleName(InstanceFieldRef(Local("a", t), f)) == Some(pa);
    assert SimpleName(InstanceFieldRef(Local("b", t), f)) == Some(pb);
    assert pa[0] != pb[0];
  }
}
