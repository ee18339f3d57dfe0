/**
 * The type and invocation classifiers of `SemanticHelper`: `isInterface`, `isConstant`,
 * `isNotPrimType`, `isArray`, `isCollection`, `getRealCallType` and `getInvokeType`.
 */
module Classifiers {
  import opened Wrappers
  import opened JavaStrings
  import opened Soot

  // ---------------------------------------------------------------- printed type names

  /** Every printed array type ends in `[]`. */
  lemma ArrayTypeNameEndsWithBrackets(t: Type)
    requires t.Array?
    ensures EndsWith(TypeName(t), "[]")
  {
    var s := TypeName(t.elem) + "[]";
    assert s[|s| - 2..] == "[]";
  }

  /** A name that does not end in `]` is printed only by a class type of that very name. */
  lemma TypeNameWithoutBrackets(t: Type, n: string)
    requires TypeName(t) == n && (|n| == 0 || n[|n| - 1] != ']')
    requires forall k: PrimKind :: PrimName(k) != n
    requires n != "null_type"
    ensures t == Ref(n)
  {
  }

  // ---------------------------------------------------------------- isInterface

  /**
   * `isInterface(type)`: a class type whose class has the interface modifier; a name the
   * catalog lacks stands for a phantom class, which is not an interface.
   */
  function IsInterfaceType(cat: Catalog, t: Type): (r: bool)
    ensures r ==> t.Ref? && t.className in cat && cat[t.className].isInterface
  {
    t.Ref? && ClassAt(cat, t.className).isInterface
  }

  /** Primitive, null and array types, and unloaded class names, are never interfaces. */
  lemma IsInterfaceOnlyLoadedClasses(cat: Catalog, t: Type)
    ensures !t.Ref? ==> !IsInterfaceType(cat, t)
    ensures t.Ref? ==> (IsInterfaceType(cat, t) <==> t.className in cat && cat[t.className].isInterface)
  {
  }

  // ---------------------------------------------------------------- isConstant

  const StringClass := "java.lang.String"

  /** `isConstant(type)`: primitives, the null type, and any type printed as `java.lang.String`. */
  function IsConstant(t: Type): (r: bool)
    ensures r <==> t.Prim? || t.NullType? || t == Ref(StringClass)
  {
    if t.Prim? || t.NullType? then true
    else
      var r := TypeName(t) == StringClass;
      assert r ==> t == Ref(StringClass) by {
        if r {
          TypeNameWithoutBrackets(t, StringClass);
        }
      }
      r
  }

  /** An array of strings is not a constant type. */
  lemma StringArrayIsNotConstant()
    ensures !IsConstant(Array(Ref(StringClass)))
  {
  }

  // ---------------------------------------------------------------- isNotPrimType

  /** The type Soot reports for a local, a field reference or a constant; none for other values. */
  function DeclaredType(v: Value): Option<Type> {
    match v
    case Local(_, t) => Some(t)
    case InstanceFieldRef(_, f) => Some(f.ty)
    case StaticFieldRef(f) => Some(f.ty)
    case Constant(_, t) => Some(t)
    case _ => None
  }

  /**
   * `isNotPrimType(value)`: an array access answers for its base; a local, field reference
   * or constant answers by its declared type; anything else counts as not primitive.
   */
  function IsNotPrimType(v: Value): (r: bool)
    ensures !v.ArrayRef? ==> (r <==> DeclaredType(v).None? || !DeclaredType(v).value.Prim?)
  {
    match v
    case Local(_, t) => !t.Prim?
    case InstanceFieldRef(_, f) => !f.ty.Prim?
    case StaticFieldRef(f) => !f.ty.Prim?
    case Constant(_, t) => !t.Prim?
    case ArrayRef(b, _) => IsNotPrimType(b)
    case _ => true
  }

  /** Array accesses are looked through all the way down. */
  lemma {:induction false} IsNotPrimTypeOfArrayBase(v: Value)
    ensures IsNotPrimType(v) == IsNotPrimType(ArrayBase(v))
  {
    if v.ArrayRef? {
      IsNotPrimTypeOfArrayBase(v.base);
    }
  }

  /**
   * Since the base of an access is the array, an element of a local `int[]` is reported
   * as not primitive.
   */
  lemma ElementOfPrimitiveArray(n: string, k: PrimKind, i: Value)
    ensures IsNotPrimType(ArrayRef(Local(n, Array(Prim(k))), i))
    ensures !IsNotPrimType(Local(n, Prim(k)))
  {
  }

  // ---------------------------------------------------------------- isArray / isCollection

  /** `isArray(type)` */
  function IsArray(t: Type): (r: bool)
    ensures r ==> EndsWith(TypeName(t), "[]")
  {
    if t.Array? then ArrayTypeNameEndsWithBrackets(t); true else false
  }

  /** The collection class names, as listed (`java.util.HashTable` included). */
  const ArrayTypes: seq<string> := [
    "java.util.List",
    "java.util.ArrayList",
    "java.util.Set",
    "java.util.HashTable",
    "java.util.HashSet",
    "java.util.Map",
    "java.util.HashMap"]

  /** The same list with `java.util.Hashtable` spelt as the JDK spells it. */
  const CollectionTypes: seq<string> := [
    "java.util.List",
    "java.util.ArrayList",
    "java.util.Set",
    "java.util.Hashtable",
    "java.util.HashSet",
    "java.util.Map",
    "java.util.HashMap"]

  /** A listed name that ends in neither `]` nor a built-in type name is only printed by its class type. */
  lemma NoListedNameIsBuiltIn(names: seq<string>, t: Type)
    requires forall i | 0 <= i < |names| ::
      && |names[i]| > 0 && names[i][|names[i]| - 1] != ']' && names[i] != "null_type"
      && forall k: PrimKind :: names[i] != PrimName(k)
    requires !t.Ref?
    ensures TypeName(t) !in names
  {
    forall i | 0 <= i < |names| ensures names[i] != TypeName(t) {
      if t.Array? {
        ArrayTypeNameEndsWithBrackets(t);
        var s := TypeName(t);
        assert s[|s| - 1] == s[|s| - 2..][1] == ']';
      }
    }
  }

  /** `isCollection(type)`: the printed type name is in the list. */
  function IsCollection(t: Type): (r: bool)
    ensures r <==> t.Ref? && t.className in ArrayTypes
  {
    if !t.Ref? then
      NoListedNameIsBuiltIn(ArrayTypes, t);
      TypeName(t) in ArrayTypes
    else
      TypeName(t) in ArrayTypes
  }

  /** `java.util.HashTable` names no JDK class, so a `java.util.Hashtable` is not a collection. */
  lemma HashtableIsMissed()
    ensures !IsCollection(Ref("java.util.Hashtable"))
    ensures IsCollection(Ref("java.util.HashTable"))
  {
    assert "java.util.Hashtable" != ArrayTypes[3];
  }

  /** `isCollection` with the list's evident intent: the JDK's `java.util.Hashtable`. */
  function IsCollectionCorrected(t: Type): (r: bool)
    ensures r <==> t.Ref? && t.className in CollectionTypes
  {
    if !t.Ref? then
      NoListedNameIsBuiltIn(CollectionTypes, t);
      TypeName(t) in CollectionTypes
    else
      TypeName(t) in CollectionTypes
  }

  /** The corrected test accepts `java.util.Hashtable` and agrees with the original elsewhere. */
  lemma CorrectedCollectionTest(t: Type)
    ensures IsCollectionCorrected(Ref("java.util.Hashtable"))
    ensures t != Ref("java.util.Hashtable") && t != Ref("java.util.HashTable") ==>
      IsCollectionCorrected(t) == IsCollection(t)
  {
    assert CollectionTypes[3] == "java.util.Hashtable";
    assert forall i | 0 <= i < 7 && i != 3 :: CollectionTypes[i] == ArrayTypes[i];
  }

  /** Arrays and collections are never constants, and no array is a collection. */
  lemma ArraysAreNeitherConstantsNorCollections(t: Type)
    requires IsArray(t)
    ensures !IsConstant(t) && !IsCollection(t)
  {
  }

  // ---------------------------------------------------------------- getRealCallType

  /** The type of the first `JimpleLocalBox` among the use boxes, if there is one. */
  function FirstLocalType(boxes: seq<ValueBox>): (r: Option<Type>)
    ensures r.None? <==> forall i | 0 <= i < |boxes| :: !boxes[i].JimpleLocalBox?
    ensures r.Some? ==> exists i | 0 <= i < |boxes| ::
      && boxes[i].JimpleLocalBox? && boxes[i].localType == r.value
      && forall j | 0 <= j < i :: !boxes[j].JimpleLocalBox?
  {
    if |boxes| == 0 then None
    else if boxes[0].JimpleLocalBox? then Some(boxes[0].localType)
    else
      var r := FirstLocalType(boxes[1..]);
      assert forall i | 1 <= i < |boxes| :: boxes[i] == boxes[1..][i - 1];
      if r.Some? then
        var i :| 0 <= i < |boxes[1..]| && boxes[1..][i].JimpleLocalBox? && boxes[1..][i].localType == r.value
          && forall j | 0 <= j < i :: !boxes[1..][j].JimpleLocalBox?;
        assert boxes[i + 1] == boxes[1..][i];
        r
      else
        r
  }

  /**
   * `getRealCallType(ie, targetMethodRef)`: the printed type of the first local among the
   * use boxes (the receiver), or the target's class name when there is no local or its
   * type prints as the empty string.
   */
  method GetRealCallType(ie: InvokeExpr, target: MethodReference) returns (classname: string)
    ensures FirstLocalType(ie.useBoxes).None? ==> classname == target.classname
    ensures FirstLocalType(ie.useBoxes).Some? ==>
      classname == (var n := TypeName(FirstLocalType(ie.useBoxes).value); if n == "" then target.classname else n)
  {
    classname := "";
    var boxes := ie.useBoxes;
    var i := 0;
    while i < |boxes|
      invariant 0 <= i <= |boxes|
      invariant forall j | 0 <= j < i :: !boxes[j].JimpleLocalBox?
      invariant classname == ""
    {
      if boxes[i].JimpleLocalBox? {
        assert FirstLocalType(boxes[i..]) == Some(boxes[i].localType);
        classname := TypeName(boxes[i].localType);
        LocalTypeAfterSkipped(boxes, i);
        break;
      }
      i := i + 1;
    }
    if classname == "" {
      classname := target.classname;
    }
  }

  lemma {:induction false} LocalTypeAfterSkipped(boxes: seq<ValueBox>, i: nat)
    requires i < |boxes| && boxes[i].JimpleLocalBox?
    requires forall j | 0 <= j < i :: !boxes[j].JimpleLocalBox?
    ensures FirstLocalType(boxes) == Some(boxes[i].localType)
  {
    if i > 0 {
      LocalTypeAfterSkipped(boxes[1..], i - 1);
    }
  }

  // ---------------------------------------------------------------- getInvokeType

  /** `getInvokeType(ie)`: the kind's name, and the empty string for a dynamic invoke. */
  function InvokeTypeName(k: InvokeKind): string {
    match k
    case StaticInvoke => "StaticInvoke"
    case VirtualInvoke => "VirtualInvoke"
    case SpecialInvoke => "SpecialInvoke"
    case InterfaceInvoke => "InterfaceInvoke"
    case DynamicInvoke => ""
  }

  /** Distinct kinds get distinct names, and only the dynamic invoke gets none. */
  lemma InvokeTypeNamesDistinct(k1: InvokeKind, k2: InvokeKind)
    ensures InvokeTypeName(k1) == InvokeTypeName(k2) ==> k1 == k2
    ensures InvokeTypeName(k1) == "" <==> k1 == DynamicInvoke
  {
  }
}
