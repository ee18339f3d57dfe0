# tabby's semantic helpers and analysis driver, modelled in Dafny

tabby builds a code property graph of Java programs on top of Soot. This project models
two parts of it.

- **`SemanticHelper`** is the toolbox the scanners use:
  - the display name and uuid of a Jimple value;
  - the two field-path renderers, `getSimpleName` and `getSimpleName0`;
  - the type classifiers (`isInterface`, `isConstant`, `isNotPrimType`, `isArray`, `isCollection`);
  - the receiver type of an invoke and the kind of an invoke;
  - the hierarchy look-ups: a method through superclasses and interfaces, a field through
    superclasses, a `<f>`-separated field path, subtype tests and the default constructor;
  - string helpers: `replaceFirst`, accessor name to field name, descriptor to class name;
  - the decoding of visible annotations into nested maps.
- **`Analyser`** runs an analysis. It assembles the class path and the target map from the
  JDK dependencies, the target files and the libraries. It filters the targets against
  the rules container's ignore list, hands them to the two scanners, applies its exception
  policy, then counts and saves the results.

Soot's objects are values here (`soot.dfy`):
- a type, a field or a Jimple value;
- a loaded class: its name, interface flag, superclass, interfaces, declared methods and
  fields;
- an invoke expression, or an annotation tag.

The Soot `Scene` is a catalog from class name to class. A name the catalog lacks stands for
a phantom class, which declares nothing and has no parents. Each class carries a `rank`
that stands for the acyclic hierarchy Soot guarantees: every parent ranks lower.

The string methods of `java.lang.String` the helpers rely on are modelled in
`java_strings.dfy`: `startsWith`, `contains`, `indexOf`, literal `replace`, and `split`
with trailing empty segments dropped.

`Analyser` is a class with the state `run` changes:
- the rules container's ignored set;
- the global library map;
- Soot's process directory;
- a trace of the calls `run` makes into Soot, the scanners and the data container.

Where Soot, the scanners or the rules container throw is an `Engine` value given as a parameter, one slot per step of `runSootAnalysis`. A thrown `java.lang.Error` is matched by neither catch clause and ends the analysis unwrapped.

Four behaviours of the code worth knowing:
- `calculateUuid` hashes `extractValueName`, the shallow name: a field access is named by the
  field's signature, whatever its base. It does not hash the full access path
  (`ValueNames.UuidOfFieldAccessIgnoresBase`).
- `getSimpleName0` adds the `<a>` marker only for an array access at the top. Below a field
  hop it defers to `getSimpleName`, which treats array accesses as transparent.
- `isExtendFrom` consults a class's interfaces only when the class has no superclass. For
  other classes it follows only the superclass (`ClassHierarchy.InterfacesBelowSuperclassAreMissed`).
- `isNotPrimType` on an array access answers for the array itself, not for the element. An
  element of an `int[]` therefore counts as not primitive (`Classifiers.ElementOfPrimitiveArray`).

## Model

| member | source | states |
|---|---|---|
| JavaStrings.IndexOf | src/main/java/tabby/util/SemanticHelper.java:344 | `indexOf`: an index where the text occurs with no earlier occurrence, and none exactly when the text does not occur |
| JavaStrings.IndexFrom | src/main/java/tabby/util/SemanticHelper.java:344 | a match found from position `k` starts at or after `k` and fits in the string |
| JavaStrings.IndexFromSpec | src/main/java/tabby/util/SemanticHelper.java:344 | the search from `k` returns the first occurrence at or after `k`, and none exactly when there is no occurrence from `k` on |
| JavaStrings.ReplaceAll | src/main/java/tabby/util/SemanticHelper.java:216 | literal `replace`: occurrences are replaced left to right without overlapping; its properties are the lemmas below |
| JavaStrings.ReplaceAllAfterPrefix | src/main/java/tabby/util/SemanticHelper.java:216 | a prefix in which no occurrence starts is kept, and replacement goes on after it |
| JavaStrings.ReplaceAllAbsent | src/main/java/tabby/util/SemanticHelper.java:216 | a string without the target is left unchanged |
| JavaStrings.ReplaceAllHead | src/main/java/tabby/util/SemanticHelper.java:216 | an occurrence at the start is replaced, and replacement goes on after it |
| JavaStrings.ReplaceAllAtOccurrence | src/main/java/tabby/util/SemanticHelper.java:216 | with no earlier occurrence, the text before an occurrence is kept, the occurrence replaced, and the rest replaced in turn |
| JavaStrings.ReplaceAllSplice | src/main/java/tabby/util/SemanticHelper.java:216 | a string holding the target is the part before the first occurrence, the replacement, and the replaced remainder after it |
| JavaStrings.ReplaceAllSkip | src/main/java/tabby/util/SemanticHelper.java:216 | a prefix without the target's first character passes through unchanged |
| JavaStrings.ReplaceOneChar | src/main/java/tabby/util/SemanticHelper.java:434 | replacing the one-character text `"/"` equals replacing that character, position by position |
| JavaStrings.ReplaceCharAt | src/main/java/tabby/util/SemanticHelper.java:434 | character replacement maps each `c` to `d` and keeps every other character |
| JavaStrings.ReplaceChar | src/main/java/tabby/util/SemanticHelper.java:434 | character replacement keeps the length |
| JavaStrings.SplitAll | src/main/java/tabby/util/SemanticHelper.java:218 | the segments around the separator join back to the input and none contains the separator |
| JavaStrings.DropTrailingEmpty | src/main/java/tabby/util/SemanticHelper.java:218 | `split` keeps a prefix of the segments that does not end in an empty one, and drops only empty ones |
| JavaStrings.JavaSplit | src/main/java/tabby/util/SemanticHelper.java:218 | `split` with a literal separator: the segments around every occurrence with trailing empty segments dropped; `JavaSplitJoin` states what it gives back |
| JavaStrings.SplitAllJoin | src/main/java/tabby/util/SemanticHelper.java:218 | splitting a joined string gives back the segments when none holds the separator's first character |
| JavaStrings.JoinContainsSeparator | src/main/java/tabby/util/SemanticHelper.java:217 | a joined path contains the separator exactly when it has two segments or more |
| JavaStrings.FirstCharStartsSeparator | src/main/java/tabby/util/SemanticHelper.java:218 | in a joined path every `<` starts a separator |
| JavaStrings.JavaSplitJoin | src/main/java/tabby/util/SemanticHelper.java:218 | Java's `split` undoes joining two or more non-empty segments |
| JavaStrings.ToLowerAscii | src/main/java/tabby/util/SemanticHelper.java:363 | an upper-case ASCII letter becomes its lower-case letter; other characters are kept |
| ValueNames.SimpleName | src/main/java/tabby/util/SemanticHelper.java:155-179 | `getSimpleName` is null exactly when the value's storage location is not a local, field access, static field or constant |
| ValueNames.SimpleName0 | src/main/java/tabby/util/SemanticHelper.java:186-210 | `getSimpleName0` agrees with `getSimpleName` except at a top-level array access, which renders as the base's name (or "null") followed by `<a>` |
| ValueNames.SimpleNameOfLocation | src/main/java/tabby/util/SemanticHelper.java:155-179 | array accesses and casts do not change the rendering at any depth |
| ValueNames.SameLocationSameName | src/main/java/tabby/util/SemanticHelper.java:155-179 | two values with the same storage location render the same |
| ValueNames.FieldNames | src/main/java/tabby/util/SemanticHelper.java:156-160 | the field names of a hop chain, in order |
| ValueNames.SimpleNameOfFieldChain | src/main/java/tabby/util/SemanticHelper.java:155-179 | a chain of field hops from a local renders as the local's name and the field names joined by `<f>` |
| ValueNames.SimpleNameExample | src/main/java/tabby/util/SemanticHelper.java:155-179 | `a.f.g` renders as `a<f>f<f>g` |
| ValueNames.SimpleNameOfUnrecognisedBase | src/main/java/tabby/util/SemanticHelper.java:155-210 | a hop from an unrecognised base prints the base as "null" |
| ValueNames.ArrayMarkerFreeConcat | src/main/java/tabby/util/SemanticHelper.java:160 | gluing two `<a>`-free texts at a marker bracket creates no `<a>` |
| ValueNames.FieldHopFreeOfArrayMarker | src/main/java/tabby/util/SemanticHelper.java:160 | a field hop between `<a>`-free names is `<a>`-free |
| ValueNames.SimpleNameFreeOfArrayMarker | src/main/java/tabby/util/SemanticHelper.java:155-179 | `getSimpleName` never produces `<a>` from `<a>`-free names |
| ValueNames.SimpleName0AtMostOneArrayMarker | src/main/java/tabby/util/SemanticHelper.java:186-210 | `getSimpleName0` produces `<a>` exactly once, at the end, for a top-level array access, and never otherwise |
| ValueNames.ValueName | src/main/java/tabby/util/SemanticHelper.java:37-56 | `extractValueName` for a value: a local's name, a field access's field signature, an array access's base name, otherwise the printed value; stated by the two lemmas below |
| ValueNames.ExtractValueName | src/main/java/tabby/util/SemanticHelper.java:37-56 | `extractValueName` for a value, a field (its signature) or a class (its name) |
| ValueNames.CalculateUuid | src/main/java/tabby/util/SemanticHelper.java:58-61 | the uuid is the digest of the extracted name, so equal names give equal uuids by definition; its content is stated by `ValueNameOfFieldAccess` and `UuidOfFieldAccessIgnoresBase` |
| ValueNames.ValueNameOfFieldAccess | src/main/java/tabby/util/SemanticHelper.java:37-61 | a field access, or an array access into one at any depth, is named by the field's signature whatever the base, and gets the same uuid as the field itself |
| ValueNames.ValueNameOfArrayBase | src/main/java/tabby/util/SemanticHelper.java:50-53 | nested array accesses are named, at any depth, after the value they finally index |
| ValueNames.UuidOfFieldAccessIgnoresBase | src/main/java/tabby/util/SemanticHelper.java:58-61 | `a.f` and `b.f` get the same uuid although their paths differ |
| ClassHierarchy.GetMethod | src/main/java/tabby/util/SemanticHelper.java:275-292 | `getMethod` finds the subsignature exactly when the class, a superclass or an interface declares it; own methods win |
| ClassHierarchy.FirstInterfaceMethod | src/main/java/tabby/util/SemanticHelper.java:282-289 | the interfaces are searched in declaration order and the first hit is returned |
| ClassHierarchy.GetMethodSearchOrder | src/main/java/tabby/util/SemanticHelper.java:275-292 | when anything above the superclass declares the subsignature, the superclass's answer is the class's answer whatever the interfaces declare; otherwise the first declaring interface in declaration order answers |
| ClassHierarchy.FirstInterfaceIsFirstDeclaring | src/main/java/tabby/util/SemanticHelper.java:282-289 | the interface loop answers with the first interface above which the subsignature is declared |
| ClassHierarchy.SuperChain | src/main/java/tabby/util/SemanticHelper.java:304-314 | the class and its superclasses, each the superclass of the one before, the last one having none |
| ClassHierarchy.FirstDeclaring | src/main/java/tabby/util/SemanticHelper.java:304-314 | a found field has the name looked for |
| ClassHierarchy.FirstDeclaringFinds | src/main/java/tabby/util/SemanticHelper.java:304-314 | a field is found exactly when some class of the chain declares it, and it comes from the first such class |
| ClassHierarchy.GetField | src/main/java/tabby/util/SemanticHelper.java:304-314 | `getField(cls, name)` searches the superclass chain and is null for a null class |
| ClassHierarchy.GetFieldIgnoresInterfaces | src/main/java/tabby/util/SemanticHelper.java:304-314 | interfaces play no part in a field look-up |
| ClassHierarchy.GetFieldByName | src/main/java/tabby/util/SemanticHelper.java:294-302 | an unloaded class name finds no field; a found field has the requested name |
| ClassHierarchy.GetFieldByNameFinds | src/main/java/tabby/util/SemanticHelper.java:294-314 | by class name: found exactly when the chain declares the name; the result carries the type declared by the nearest declaring class, which is named as the declaring class and below which no class of the chain declares the name |
| ClassHierarchy.GetFieldByNameIsFirstDeclaring | src/main/java/tabby/util/SemanticHelper.java:294-314 | the look-up by name is the first declaring class of the loaded class's superclass chain |
| ClassHierarchy.GetFieldOwnClass | src/main/java/tabby/util/SemanticHelper.java:294-314 | a class's own field is found with its type, an undeclared one is not |
| ClassHierarchy.GetFieldThroughSuperclass | src/main/java/tabby/util/SemanticHelper.java:294-314 | an inherited field is found on its declaring superclass |
| ClassHierarchy.HasFieldOn | src/main/java/tabby/util/SemanticHelper.java:239-243 | `hasField(SootClass, name)` holds exactly when both are present and some class of the chain declares the field |
| ClassHierarchy.StripArraySuffix | src/main/java/tabby/util/SemanticHelper.java:221-223 | a class name ending in `[]` loses that suffix, any other is kept; stated by `StripArrayOfArrayType` |
| ClassHierarchy.StripArrayOfArrayType | src/main/java/tabby/util/SemanticHelper.java:221-223 | removing `[]` from an array type's name gives the element type's name |
| ClassHierarchy.WalkPath | src/main/java/tabby/util/SemanticHelper.java:220-231 | the loop over the path segments succeeds exactly when every hop finds its field |
| ClassHierarchy.WalkFields | src/main/java/tabby/util/SemanticHelper.java:220-231 | the hop loop: strip `[]`, look the segment up, continue from the field's type; stated by `WalkFieldsEverySegment` and `FailingSegment` |
| ClassHierarchy.HasFieldPath | src/main/java/tabby/util/SemanticHelper.java:212-237 | `hasField(cls, fieldName)` as a function: strip a leading `<f>`, delete `<a>`, walk a multi-segment path or look a single name up; stated by `HasFieldOfJoinedPath` and `HasFieldOfSingleName` |
| ClassHierarchy.HasField | src/main/java/tabby/util/SemanticHelper.java:212-237 | the method computes `HasFieldPath`; with `HasFieldOfJoinedPath` and `HasFieldOfSingleName`, a path optionally led by `<f>`, of `<f>`-joined segments each optionally followed by `<a>`, holds exactly when the walk over the bare segments succeeds |
| ClassHierarchy.WalkFieldsAppend | src/main/java/tabby/util/SemanticHelper.java:220-231 | walking a concatenated path is walking the second part from where the first part ends |
| ClassHierarchy.WalkFieldsEverySegment | src/main/java/tabby/util/SemanticHelper.java:220-231 | the walk succeeds exactly when each segment is a field of the class the previous hop reached |
| ClassHierarchy.FailingSegment | src/main/java/tabby/util/SemanticHelper.java:224-227 | once one segment fails, the whole path fails whatever follows |
| ClassHierarchy.MarkSegments | src/main/java/tabby/util/SemanticHelper.java:186-216 | the segments as `getSimpleName0` may write them, each optionally followed by `<a>` |
| ClassHierarchy.RemoveMarker | src/main/java/tabby/util/SemanticHelper.java:216 | deleting `<a>` after a segment without `<` gives the bare segment and goes on |
| ClassHierarchy.RemoveMarkerKeepsFieldMarker | src/main/java/tabby/util/SemanticHelper.java:216 | deleting `<a>` keeps a `<f>` separator |
| ClassHierarchy.RemoveMarkerThenField | src/main/java/tabby/util/SemanticHelper.java:216 | a marked segment followed by `<f>` loses only its marker |
| ClassHierarchy.RemoveArrayMarkers | src/main/java/tabby/util/SemanticHelper.java:216 | deleting `<a>` from a marked `<f>`-joined path gives the `<f>`-join of the bare segments |
| ClassHierarchy.NoLeadingFieldMarker | src/main/java/tabby/util/SemanticHelper.java:213 | a path starting with a non-empty segment without `<` is not stripped |
| ClassHierarchy.HasFieldOfJoinedPath | src/main/java/tabby/util/SemanticHelper.java:212-231 | a path of two or more non-empty `<f>`-joined segments, each optionally followed by `<a>` and optionally led by `<f>`, holds exactly when the walk over the bare segments succeeds |
| ClassHierarchy.HasFieldOfSingleName | src/main/java/tabby/util/SemanticHelper.java:212-237 | a single name without `<`, optionally led by `<f>` and optionally followed by `<a>`, holds exactly when the look-up of the bare name on `cls` finds it |
| ClassHierarchy.HasFieldOfMarkedField | src/main/java/tabby/util/SemanticHelper.java:212-237 | `<f>a<a>` holds exactly when the field `a` is found |
| ClassHierarchy.HasFieldOfMarkedPath | src/main/java/tabby/util/SemanticHelper.java:212-231 | `a<a><f>b` holds exactly when the walk over `a` then `b` succeeds |
| ClassHierarchy.IsExtendFrom | src/main/java/tabby/util/SemanticHelper.java:257-273 | null never extends anything, and every class extends itself |
| ClassHierarchy.AnyInterfaceExtends | src/main/java/tabby/util/SemanticHelper.java:264-269 | the loop over the interfaces from a position; stated by `AnyInterfaceWitness` and `AnyInterfaceFrom` |
| ClassHierarchy.AnyInterfaceWitness | src/main/java/tabby/util/SemanticHelper.java:264-269 | a successful interface search names an interface that extends the destination |
| ClassHierarchy.AnyInterfaceFrom | src/main/java/tabby/util/SemanticHelper.java:264-269 | any interface that extends the destination makes the search succeed |
| ClassHierarchy.IsExtendFromChain | src/main/java/tabby/util/SemanticHelper.java:257-273 | `isExtendFrom` holds exactly when a class of the superclass chain is the destination, or the chain's top class has an interface that extends it |
| ClassHierarchy.SuperChainExtends | src/main/java/tabby/util/SemanticHelper.java:257-273 | a class extends every class on its superclass chain |
| ClassHierarchy.IsExtendFromTransitive | src/main/java/tabby/util/SemanticHelper.java:257-273 | extension is transitive |
| ClassHierarchy.InterfacesBelowSuperclassAreMissed | src/main/java/tabby/util/SemanticHelper.java:262-270 | a class whose superclass is loaded is not reported as extending its own interface |
| ClassHierarchy.IsExtendFromAny | src/main/java/tabby/util/SemanticHelper.java:245-255 | `isExtendFrom(Set, dest)` holds when the destination is among the names |
| ClassHierarchy.IsExtendFromAnyMonotone | src/main/java/tabby/util/SemanticHelper.java:245-255 | adding source names keeps a positive answer |
| ClassHierarchy.IsExtendFromAnySuperChain | src/main/java/tabby/util/SemanticHelper.java:245-255 | every superclass of a loaded source counts |
| ClassHierarchy.IsExtendFromAnyUnknownName | src/main/java/tabby/util/SemanticHelper.java:245-255 | an unloaded name extends only itself |
| ClassHierarchy.HasDefaultConstructor | src/main/java/tabby/util/SemanticHelper.java:369-378 | a null class never has a default constructor |
| ClassHierarchy.DefaultConstructorIsOwnMethod | src/main/java/tabby/util/SemanticHelper.java:369-378 | for a loaded class: it has a default constructor exactly when `getMethod` finds `void <init>()` on the class itself; one found only on the superclass does not count |
| Classifiers.ArrayTypeNameEndsWithBrackets | src/main/java/tabby/util/SemanticHelper.java:107-109 | an array type prints with a trailing `[]` |
| Classifiers.TypeNameWithoutBrackets | src/main/java/tabby/util/SemanticHelper.java:77-85 | a name that is not a primitive's, `null_type` or bracketed is printed only by the class type of that name |
| Classifiers.IsInterfaceType | src/main/java/tabby/util/SemanticHelper.java:69-75 | only a class type whose loaded class has the interface modifier is an interface |
| Classifiers.IsInterfaceOnlyLoadedClasses | src/main/java/tabby/util/SemanticHelper.java:69-75 | primitive, null and array types and phantom classes are not interfaces, and a loaded interface is |
| Classifiers.IsConstant | src/main/java/tabby/util/SemanticHelper.java:77-85 | constant exactly for primitives, the null type and `java.lang.String` |
| Classifiers.StringArrayIsNotConstant | src/main/java/tabby/util/SemanticHelper.java:77-85 | `String[]` is not a constant type |
| Soot.ArrayBase | src/main/java/tabby/util/SemanticHelper.java:87-105 | the innermost base of nested array accesses is not an array access |
| Classifiers.IsNotPrimType | src/main/java/tabby/util/SemanticHelper.java:87-105 | outside array accesses: not primitive exactly when Soot reports no type or a non-primitive one |
| Classifiers.IsNotPrimTypeOfArrayBase | src/main/java/tabby/util/SemanticHelper.java:98-100 | an array access answers what its innermost base answers |
| Classifiers.ElementOfPrimitiveArray | src/main/java/tabby/util/SemanticHelper.java:87-105 | an element of an `int[]` local counts as not primitive, while an `int` local is primitive |
| Classifiers.IsArray | src/main/java/tabby/util/SemanticHelper.java:107-109 | an array type prints with `[]` |
| Classifiers.NoListedNameIsBuiltIn | src/main/java/tabby/util/SemanticHelper.java:21-30 | no primitive, null or array type prints as a listed collection name |
| Classifiers.IsCollection | src/main/java/tabby/util/SemanticHelper.java:111-114 | a collection exactly when the type is a class type whose name is listed |
| Classifiers.HashtableIsMissed | src/main/java/tabby/util/SemanticHelper.java:26 | `java.util.Hashtable` is not recognised, while the non-existent `java.util.HashTable` is |
| Classifiers.IsCollectionCorrected | src/main/java/tabby/util/SemanticHelper.java:111-114 | with the JDK's spelling: a collection exactly when its class name is listed |
| Classifiers.CorrectedCollectionTest | src/main/java/tabby/util/SemanticHelper.java:21-30 | the corrected test accepts `java.util.Hashtable` and agrees with the original on every other type |
| Classifiers.ArraysAreNeitherConstantsNorCollections | src/main/java/tabby/util/SemanticHelper.java:77-114 | an array type is neither a constant nor a collection |
| Classifiers.FirstLocalType | src/main/java/tabby/util/SemanticHelper.java:116-134 | the type of the first local use box, none exactly when there is no local box |
| Classifiers.GetRealCallType | src/main/java/tabby/util/SemanticHelper.java:116-134 | `getRealCallType` returns the first local's printed type, or the target's class name when there is none or it prints empty |
| Classifiers.LocalTypeAfterSkipped | src/main/java/tabby/util/SemanticHelper.java:122-128 | the loop's first hit is the first local box |
| Classifiers.InvokeTypeName | src/main/java/tabby/util/SemanticHelper.java:136-148 | `getInvokeType`: the name of the invoke kind, empty for a dynamic invoke; stated by `InvokeTypeNamesDistinct` |
| Classifiers.InvokeTypeNamesDistinct | src/main/java/tabby/util/SemanticHelper.java:136-148 | distinct invoke kinds get distinct names, and only a dynamic invoke gets the empty string |
| NameHelpers.ReplaceFirst | src/main/java/tabby/util/SemanticHelper.java:342-349 | null exactly when the text is absent; otherwise the first occurrence is replaced and the rest kept |
| NameHelpers.ReplaceFirstOfSplice | src/main/java/tabby/util/SemanticHelper.java:342-349 | only the first occurrence is replaced |
| NameHelpers.ReplaceFirstBySelf | src/main/java/tabby/util/SemanticHelper.java:342-349 | replacing a present text by itself gives back the input |
| NameHelpers.AccessorPrefix | src/main/java/tabby/util/SemanticHelper.java:353-357 | the length of the accessor prefix the branches test, `set`/`get` before `is`; used by `FieldNameByMethodName` and `FieldNameByMethodNameExactly` |
| NameHelpers.FieldNameByMethodName | src/main/java/tabby/util/SemanticHelper.java:351-367 | a result comes only from a `get`/`set`/`is` name, is exactly as long as the remainder after that prefix, which is non-empty and does not start lower-case, and is that remainder with its first letter lowered |
| NameHelpers.FieldNameByMethodNameExactly | src/main/java/tabby/util/SemanticHelper.java:351-367 | for every name: a result exactly when there is an accessor prefix followed by a non-empty remainder not starting lower-case, and then it is that remainder with the first letter lowered |
| NameHelpers.FieldNameRejectsRemainder | src/main/java/tabby/util/SemanticHelper.java:358-361 | an empty remainder, or one starting lower-case, gives null |
| NameHelpers.AccessorNamesGiveFieldName | src/main/java/tabby/util/SemanticHelper.java:351-367 | `getXxx`, `setXxx` and `isXxx` give back `xxx` |
| NameHelpers.FieldNameRejects | src/main/java/tabby/util/SemanticHelper.java:351-367 | `get`, `gets`, `is`, `isolate` and `run` give null |
| NameHelpers.FieldNameLowersOnlyFirstLetter | src/main/java/tabby/util/SemanticHelper.java:362-366 | `getURL` gives `uRL` |
| NameHelpers.Normalize | src/main/java/tabby/util/SemanticHelper.java:431-435 | `normalize` drops the first and the last character |
| NameHelpers.NormalizeReplacesText | src/main/java/tabby/util/SemanticHelper.java:431-435 | `normalize` is the inner text with every `/` replaced by `.` |
| NameHelpers.NormalizeChars | src/main/java/tabby/util/SemanticHelper.java:431-435 | position by position, `normalize` reads the inner character with `/` as `.` |
| NameHelpers.Descriptor | src/main/java/tabby/util/SemanticHelper.java:431-435 | the descriptor of a dotted name is `L`, the name with `.` as `/`, and `;` |
| NameHelpers.NormalizeDescriptor | src/main/java/tabby/util/SemanticHelper.java:431-435 | `normalize` undoes `Descriptor` for names without `/` |
| NameHelpers.NormalizeExample | src/main/java/tabby/util/SemanticHelper.java:431-435 | `Ljava/lang/Deprecated;` becomes `java.lang.Deprecated` |
| Annotations.ItemText | src/main/java/tabby/util/SemanticHelper.java:406-415 | an array item's value: a string verbatim, an enum constant as its dotted type name, `.`, and the constant name, anything else as printed |
| Annotations.ItemValues | src/main/java/tabby/util/SemanticHelper.java:405-416 | the set of the items' values; stated by `ItemValuesMembers` |
| Annotations.ElemValues | src/main/java/tabby/util/SemanticHelper.java:402-421 | an attribute's value set: its items' values for an array, its value for a string, empty otherwise; the loop `CollectElemValues` is proved equal to it |
| Annotations.ElemInfo | src/main/java/tabby/util/SemanticHelper.java:398-423 | the attribute map, attributes put in order under their names; stated by `ElemInfoKeys` and `ElemInfoLastWins`, computed by `CollectElemInfo` |
| Annotations.AddAnnotations | src/main/java/tabby/util/SemanticHelper.java:393-425 | the annotation map after putting annotations in order under their dotted types, skipping the two noise families; stated by `AddAnnotationsKeys`, `AddAnnotationsLastWins` and `AddAnnotationsAppend`, computed by `PutAnnotations` |
| Annotations.Decoded | src/main/java/tabby/util/SemanticHelper.java:388-429 | the map `getAnnotations` builds from the visible-annotation tags; stated by `DecodedKeys` and `DecodedLastWins`, computed by `GetAnnotations` |
| Annotations.ItemValuesMembers | src/main/java/tabby/util/SemanticHelper.java:405-416 | an array attribute's values are exactly its items' texts |
| Annotations.CollectElemValues | src/main/java/tabby/util/SemanticHelper.java:402-420 | the values of one attribute: its items' texts, its string, or nothing |
| Annotations.CollectElemInfo | src/main/java/tabby/util/SemanticHelper.java:400-423 | the attribute map, one entry per attribute name |
| Annotations.PutAnnotations | src/main/java/tabby/util/SemanticHelper.java:393-425 | the annotations of one tag are added by dotted type, skipping Kotlin metadata and scheme types |
| Annotations.GetAnnotations | src/main/java/tabby/util/SemanticHelper.java:388-429 | `getAnnotations` decodes the visible-annotation tags in order |
| Annotations.AddAnnotationsAppend | src/main/java/tabby/util/SemanticHelper.java:390-427 | decoding two runs of annotations is decoding one after the other |
| Annotations.ElemInfoKeys | src/main/java/tabby/util/SemanticHelper.java:400-423 | the attribute map has exactly the attribute names as keys |
| Annotations.ElemInfoLastWins | src/main/java/tabby/util/SemanticHelper.java:400-423 | the last attribute of a name decides its values |
| Annotations.OtherElementHasNoValues | src/main/java/tabby/util/SemanticHelper.java:400-423 | an attribute that is neither an array nor a string has an empty value set |
| Annotations.AddAnnotationsKeys | src/main/java/tabby/util/SemanticHelper.java:393-425 | the keys are the old keys plus the types of the annotations not skipped |
| Annotations.AddAnnotationsLastWins | src/main/java/tabby/util/SemanticHelper.java:393-425 | the last annotation of a type decides its attribute map |
| Annotations.DecodedKeys | src/main/java/tabby/util/SemanticHelper.java:388-429 | the result has the types of the visible annotations, never Kotlin metadata, never a scheme type |
| Annotations.DecodedLastWins | src/main/java/tabby/util/SemanticHelper.java:388-429 | the last visible annotation of a type decides its entry |
| Annotations.EnumTypeName | src/main/java/tabby/util/SemanticHelper.java:405-416 | the enum type descriptor `Lp/Kind;` reads as `p.Kind` |
| Annotations.ThreeStringsAndAnEnum | src/main/java/tabby/util/SemanticHelper.java:405-416 | concrete decoding of three strings and an enum constant |
| Analyser.Caught | src/main/java/tabby/core/Analyser.java:141-147 | a success-status death is swallowed, another death rethrown, any other exception wrapped, and an `Error` passes through both catches |
| Analyser.NewlyIgnored | src/main/java/tabby/core/Analyser.java:153-159 | the names added to the ignore list are the target names not ignored yet, and only those |
| Analyser.TargetPaths | src/main/java/tabby/core/Analyser.java:153-158 | the paths of the targets whose names are not ignored; stated by `GetTargetsSecondRunIsEmpty` and `TargetPathsAntitone` |
| Analyser.ListOf | src/main/java/tabby/core/Analyser.java:162 | a list with no repeats holding exactly the set's elements |
| Analyser.FilterTargets | src/main/java/tabby/core/Analyser.java:151-158 | the paths of the targets not ignored and their names |
| Analyser.GetTargetsSecondRunIsEmpty | src/main/java/tabby/core/Analyser.java:150-163 | a second `getTargets` on the same targets returns nothing and ignores nothing new |
| Analyser.TargetPathsAntitone | src/main/java/tabby/core/Analyser.java:153-158 | a larger ignore list never yields more targets |
| Analyser.PutAbsent | src/main/java/tabby/core/Analyser.java:91-93 | `putIfAbsent` keeps every existing entry and adds the missing ones |
| Analyser.MergeLibraries | src/main/java/tabby/core/Analyser.java:91-93 | the library loop puts each library in only when its name is absent |
| Analyser.Classpath | src/main/java/tabby/core/Analyser.java:70-93 | the class path holds the dependencies unless excluded, the target files unless only the JDK is analysed, and every library |
| Analyser.ClasspathPriorities | src/main/java/tabby/core/Analyser.java:70-93 | target files override dependencies, and both take priority over libraries |
| Analyser.Targets | src/main/java/tabby/core/Analyser.java:71-83 | the targets are the files unless only the JDK is analysed, plus the dependencies when only the JDK is analysed or it is processed too; a dependency overrides a same-named file, and every other file keeps its path |
| Analyser.LibrariesAfter | src/main/java/tabby/core/Analyser.java:86-89 | when the folder exists the collected libraries are added with their paths, replacing same-named entries, and every other old entry keeps its path; otherwise the map is unchanged |
| Analyser.AnalysisTrace | src/main/java/tabby/core/Analyser.java:111-140 | the calls of `runSootAnalysis` in order, each recorded as it starts, up to the first failing step; stated by the lemmas below |
| Analyser.AnalysisOutcome | src/main/java/tabby/core/Analyser.java:111-148 | `runSootAnalysis` ends as the exception policy says of the first failing step, normally without targets or failure |
| Analyser.NoScanWithoutTargets | src/main/java/tabby/core/Analyser.java:119-125 | with no targets neither `autoSetOptions` nor a scanner runs, and the analysis ends normally once the class path is set |
| Analyser.ScannersRunOnTargets | src/main/java/tabby/core/Analyser.java:119-132 | `autoSetOptions` runs right after the class path is set, the class scan on exactly the targets returned right after it, and the call graph only after the class scan |
| Analyser.FailureStopsAnalysis | src/main/java/tabby/core/Analyser.java:111-148 | an exception that escapes leaves the status unsaved, unless it is `saveStatus` itself that throws, as the last call |
| Analyser.NormalEndWithoutSave | src/main/java/tabby/core/Analyser.java:111-148 | a normal end without the status save had no targets, or swallowed a success-status death from a step before the save |
| Analyser.CountOnlyWhenBuilding | src/main/java/tabby/core/Analyser.java:64-98 | results are counted and saved to CSV only when building and the analysis ended normally, and then always |
| Analyser.SaveOnlyWhenLoadingAndLast | src/main/java/tabby/core/Analyser.java:100-108 | the graph is saved only when loading, only as the last call, after Soot's reset and the awaited clean-up |
| Analyser.LoadingEndsWithSave | src/main/java/tabby/core/Analyser.java:100-108 | a load that is reached ends with the graph save |
| Analyser.StartTrace | src/main/java/tabby/core/Analyser.java:55-62 | the clean-up starts when loading, and is awaited at once when not building |
| Analyser.RunOutcome | src/main/java/tabby/core/Analyser.java:64-98 | `run` throws what the analysis throws when building, and ends normally otherwise |
| Analyser.BuildTrace | src/main/java/tabby/core/Analyser.java:64-98 | the analysis calls, then `count` and `save2CSV` after a normal end |
| Analyser.RunTrace | src/main/java/tabby/core/Analyser.java:51-109 | the calls of `run`: start, build block, and the load when loading and nothing was thrown; stated by `CountOnlyWhenBuilding`, `SaveOnlyWhenLoadingAndLast` and `LoadingEndsWithSave` |
| Analyser.RulesContainer.constructor | src/main/java/tabby/core/Analyser.java:154 | a rules container with a given ignored set |
| Analyser.Analyser.constructor | src/main/java/tabby/core/Analyser.java:51-109 | an analyser with a rules container and a library map, an empty process directory and an empty trace |
| Analyser.Analyser.GetTargets | src/main/java/tabby/core/Analyser.java:150-163 | the non-ignored target paths without repeats become the result and the process directory; their names join the ignored set |
| Analyser.Analyser.RunSootAnalysis | src/main/java/tabby/core/Analyser.java:111-148 | the set-up, the class path, the early return with no targets, `autoSetOptions`, the scans and the status save in order, ending as the exception policy says of the first failing step; the ignored set and process directory updated only once the class path is set |
| Analyser.Analyser.AssembleInputs | src/main/java/tabby/core/Analyser.java:70-93 | builds the class path and target maps, and adds the collected libraries to the global map |
| Analyser.Analyser.Build | src/main/java/tabby/core/Analyser.java:64-98 | the build block: assembly, then the analysis, then count and CSV save on a normal end |
| Analyser.Analyser.Run | src/main/java/tabby/core/Analyser.java:51-109 | `run`: the clean-up start, the build block when building, and the load when loading and the build did not throw; the libraries, ignored set and process directory as built |

## Left out

- Soot itself is not modelled: option set-up, basic and dynamic class loading, `autoSetOptions`, the class-information scanner and the call-graph builder. `setSootClassPath`, `autoSetOptions`, the two scanners and `saveStatus` are `Event`s in the trace. `initSootOption`, `addBasicClasses`, `loadBasicClasses` and `loadDynamicClasses` have no event; together they are the set-up step, whose failure is `Engine.setupFailure`.
- The model records a call as it starts. A call that throws is the last one recorded.
- `addBasicClasses` is left out. Its list of classes comes from the rules container, which is not part of this model; it is part of the set-up step whose failure is `Engine.setupFailure`.
- `getTargets` is not reached when the set-up or `setSootClassPath` fails. The model then leaves the ignored set and the process directory alone, as the code does.
- The calls of `run` outside `runSootAnalysis` (the file collection, `cleanAll`, `count`, `save2CSV`, `G.reset` and `save`) are modelled as not throwing. Only the steps of `runSootAnalysis` have failure slots.
- `getSootClass` and `loadClass` are the catalog look-up. Soot's class resolution, phantom-class creation and the exception thrown for a missing class are not modelled.
- `setSootClassPath` and `loadNecessaryClasses` in `SemanticHelper` have empty bodies and nothing to model.
- `hashString` (MD5) is an uninterpreted function parameter `md5`.
- `cleanAll`'s `Future` and the busy-waits on it are the `CleanAll` and `AwaitCleanup` events. Concurrency with the clean-up thread is not modelled.
- Persistence is left out: `count`, `save2CSV`, `save2Neo4j`, logging and timing appear only as events or not at all.
- The file collection (`collectJdkDependencies`, `collect`) and `FileUtils.fileExists` are inputs: the dependency and target maps, and an optional library map that is absent when the folder is missing.
- `HashMap` and `HashSet` iteration order is not modelled. `ListOf` returns the set's elements in some order without repeats, and `FilterTargets` visits names in some order.
- `Analyser.RulesContainer.IsIgnore` is membership in the ignored set. `RulesContainer` is not part of this model, beyond the set it keeps.
- `CompilationDeathException`'s status is success or any other status; Soot's integer constants are not part of this model.
- `ToLowerAscii`: `Character.isLowerCase` and `toLowerCase` are modelled for ASCII letters only.
- `NameHelpers.Normalize`: a descriptor shorter than two characters makes `substring` throw. The model requires two characters, and so `Annotations.GetAnnotations` requires well-formed annotation type descriptors (`TagOk`).
- `ValueNames.ValueName`: the null-field check in `extractValueName` is left out, since a field access here always carries its field. A null base in `getRealCallType` cannot occur for the same reason.
- `ClassHierarchy.GetFieldByName`: a class declares at most one field of a given name here. When Soot finds two fields of one name it throws, and `getField` then goes on to the superclass; that case is not modelled.
- The console output of `getSimpleName` and `getSimpleName0` for an unrecognised value is left out, since it is I/O.
- Soot's `Type.toString()` is modelled for primitives, the null type, class types and arrays only.

## Findings

| source | as written | input that shows it | evidently intended | confidence | as-written member | corrected member |
|---|---|---|---|---|---|---|
| src/main/java/tabby/util/SemanticHelper.java:26 | the collection list spells `java.util.HashTable`, which names no JDK class | the type `java.util.Hashtable`: `isCollection` says false | `java.util.Hashtable`, the JDK's spelling, is a collection | not executed | Classifiers.HashtableIsMissed | Classifiers.CorrectedCollectionTest |
