/**
 * Value stand-ins for the Soot objects the analysis helpers read: types, fields, Jimple
 * values, loaded classes (a catalog from class name to class), invoke expressions and
 * annotation tags. Soot hands these out as mutable objects; the helpers only read them.
 */
module Soot {
  import opened Wrappers

  datatype PrimKind = Boolean | Byte | Char | Short | Int | Long | Float | Double

  /** A Soot `Type`: a primitive, the type of `null`, a class reference or an array. */
  datatype Type =
    | Prim(kind: PrimKind)
    | NullType
    | Ref(className: string)
    | Array(elem: Type)

  function PrimName(k: PrimKind): string {
    match k
    case Boolean => "boolean"
    case Byte => "byte"
    case Char => "char"
    case Short => "short"
    case Int => "int"
    case Long => "long"
    case Float => "float"
    case Double => "double"
  }

  /** `Type.toString()`: an array type prints as its element type followed by `[]`. */
  function TypeName(t: Type): string {
    match t
    case Prim(k) => PrimName(k)
    case NullType => "null_type"
    case Ref(n) => n
    case Array(e) => TypeName(e) + "[]"
  }

  /** A `SootField`: its declaring class, its name and its declared type. */
  datatype Field = Field(declaringClass: string, name: string, ty: Type)

  /** `SootField.getSignature()`, as in `<pkg.A: int count>`. */
  function Signature(f: Field): string {
    "<" + f.declaringClass + ": " + TypeName(f.ty) + " " + f.name + ">"
  }

  /**
   * A Jimple `Value`. Instance-field and array accesses hold their base value, a cast its
   * operand; `Other` is every kind of value the helpers do not recognise (an invoke or a
   * binary expression, say), with its printed form.
   */
  datatype Value =
    | Local(name: string, ty: Type)
    | InstanceFieldRef(base: Value, field: Field)
    | StaticFieldRef(field: Field)
    | ArrayRef(base: Value, index: Value)
    | CastExpr(op: Value, castType: Type)
    | Constant(text: string, ty: Type)
    | Other(text: string)

  /** Jimple's `toString()` of a value. */
  function Text(v: Value): string {
    match v
    case Local(n, _) => n
    case InstanceFieldRef(b, f) => Text(b) + "." + Signature(f)
    case StaticFieldRef(f) => Signature(f)
    case ArrayRef(b, i) => Text(b) + "[" + Text(i) + "]"
    case CastExpr(op, t) => "(" + TypeName(t) + ") " + Text(op)
    case Constant(s, _) => s
    case Other(s) => s
  }

  /**
   * A loaded `SootClass`: its name, whether its modifiers say `interface`, its superclass,
   * its interfaces in declaration order, the subsignatures of the methods it declares and
   * the fields it declares with their types. `rank` is not Soot's: it stands for the
   * acyclic hierarchy the catalog is assumed to have (every parent ranks lower).
   */
  datatype ClassInfo = ClassInfo(
    name: string,
    isInterface: bool,
    superclass: Option<string>,
    interfaces: seq<string>,
    methods: set<string>,
    fields: map<string, Type>,
    rank: nat)

  /** The classes the Soot `Scene` has loaded, by name. */
  type Catalog = map<string, ClassInfo>

  /** A class that is named but was never loaded: Soot's phantom class, declaring nothing. */
  function Phantom(n: string): ClassInfo {
    ClassInfo(n, false, None, [], {}, map[], 0)
  }

  /** The class object behind a superclass or interface edge. */
  function ClassAt(cat: Catalog, n: string): ClassInfo {
    if n in cat then cat[n] else Phantom(n)
  }

  /** Every parent of `c` ranks strictly below it. */
  predicate ParentsBelow(cat: Catalog, c: ClassInfo) {
    && (c.superclass.Some? ==> ClassAt(cat, c.superclass.value).rank < c.rank)
    && (forall i | 0 <= i < |c.interfaces| :: ClassAt(cat, c.interfaces[i]).rank < c.rank)
  }

  /** Each class is filed under its own name, and the hierarchy has no cycle. */
  predicate WellFormed(cat: Catalog) {
    forall n | n in cat :: cat[n].name == n && ParentsBelow(cat, cat[n])
  }

  lemma ClassAtWellFormed(cat: Catalog, n: string)
    requires WellFormed(cat)
    ensures ClassAt(cat, n).name == n && ParentsBelow(cat, ClassAt(cat, n))
  {
  }

  /** `Scene.v().getSootClass(name)`, with a failed lookup read as null. */
  function LookupClass(cat: Catalog, n: string): Option<ClassInfo> {
    if n in cat then Some(cat[n]) else None
  }

  /** The method a lookup found: the class that declares it and its subsignature. */
  datatype MethodRef = MethodRef(declaringClass: string, subSignature: string)

  /** The kind of a Jimple invoke expression. */
  datatype InvokeKind = StaticInvoke | VirtualInvoke | SpecialInvoke | InterfaceInvoke | DynamicInvoke

  /** A use box of an invoke expression: a `JimpleLocalBox` holds a local. */
  datatype ValueBox = JimpleLocalBox(localName: string, localType: Type) | OtherBox(value: Value)

  /** An `InvokeExpr` with its use boxes in Soot's order. */
  datatype InvokeExpr = InvokeExpr(kind: InvokeKind, useBoxes: seq<ValueBox>)

  /** The part of tabby's `MethodReference` the helpers read: its class name. */
  datatype MethodReference = MethodReference(classname: string)

  /** An element of an annotation's array attribute. */
  datatype ArrayItem =
    | StringItem(value: string)
    | EnumItem(typeName: string, constantName: string)
    | OtherItem(text: string)

  /** An annotation attribute: an array, a string, or anything else (only its name is read). */
  datatype AnnotationElem =
    | ArrayElem(name: string, items: seq<ArrayItem>)
    | StringElem(name: string, value: string)
    | OtherElem(name: string)

  /** An `AnnotationTag`: a type descriptor such as `Ljava/lang/Deprecated;` and its elements. */
  datatype AnnotationTag = AnnotationTag(typeDescriptor: string, elems: seq<AnnotationElem>)

  /** A tag on a class, method or field; only visibility-annotation tags carry annotations. */
  datatype Tag = VisibilityAnnotationTag(annotations: seq<AnnotationTag>) | OtherTag(name: string)

  /** The value an array access finally indexes, through any number of nested accesses. */
  function ArrayBase(v: Value): (r: Value)
    ensures !r.ArrayRef?
  {
    if v.ArrayRef? then ArrayBase(v.base) else v
  }
}
