# Spring type descriptors and array-to-array conversion, in Dafny

This project models two classes from Spring's core conversion package.
It abstracts the Java reflection they call into a value.

- `TypeDescriptor` describes the declared type of a conversion point. A conversion point is a method parameter, a field, a class, or a runtime object.
  - A descriptor may be a scalar, an array, a collection, a map, or the distinguished `NULL` descriptor.
  - It fills its element, map-key, map-value and annotation memo fields the first time they are read.
  - It shares one descriptor per cached scalar class from a static table.
  - It answers `isAssignableTo`, `equals`, `hashCode` and `toString`.
- `ArrayToArrayGenericConverter.convert` works in one of two ways:
  - it returns the source array itself when no conversion is needed;
  - otherwise it looks up an element converter and fills a new array element by element.

The project has five modules:

- `Wrappers`: `Option` and `Result`.
- `Jvm`: classes as values (`ClassId`), boxing, component types and qualified names. It also holds the record `Jvm`, whose function-valued fields stand for these services:
  - `isAssignableFrom` and class hash codes;
  - generic-type resolution;
  - annotation lookup;
  - `getClass`;
  - the common element class of a runtime collection.
- `DescriptorSpec`: the value semantics.
  - `Id` is the identity of a descriptor: its declared class, the site its generic information comes from, and any sub-descriptors fixed at construction.
  - Everything `TypeDescriptor` computes is a function of `Id`: `ElementId`, `KeyId`, `ValueId`, `ResolveAnnotations`, `Assignable`, `Equal`, `HashCode` and `Render`.
  - The lemmas about these functions also live here.
- `TypeDescriptors`: the objects.
  - The class `TypeDescriptor` has constant `declaredType`, `site` and `preset` fields, plus mutable memo fields that stay null until first read.
  - The class `DescriptorHeap` holds the static state: `NULL`, the `typeDescriptorCache` map, and the ghost set `all` of descriptors created so far.
  - The heap invariant `Valid()` states that every filled memo field is a descriptor in `all` whose identity is the one the specification computes.
  - Every method is proved against `DescriptorSpec`. The recursive `IsAssignableTo` and `ToString` fill memo fields as they go, and they return exactly `Assignable` and `Render`.
- `ArrayConversion`: the converter as a method over `array<V>`.
  - Its conversion service is abstract: a partial lookup `getConverter` and a total element function `invokeConverter`.

Termination of the recursive operations relies on `FinitelyNested(w)`. It is a premise about the whole world `w`: the world's `depth` witness must decrease into every element, key and value declaration. A raw `class N extends ArrayList<N>`, whose element resolves to `N` again, breaks it, and on `N` `isAssignableTo` and `toString` overflow the stack. A real program that declares such a class anywhere therefore has no `FinitelyNested` world of its own. The theorems cover it only through a world that agrees with it on every declaration a call reaches and leaves out the self-referential ones.

## Model

| member | source | states |
|---|---|---|
| Jvm.Box | org.springframework.core/src/main/java/org/springframework/core/convert/TypeDescriptor.java:155-157 | the object type of one of the eight primitive classes is its wrapper; `void` and every other class are unchanged |
| Jvm.ComponentType | org.springframework.core/src/main/java/org/springframework/core/convert/TypeDescriptor.java:422 | a component type exists exactly for array classes |
| DescriptorSpec.ComponentId | org.springframework.core/src/main/java/org/springframework/core/convert/TypeDescriptor.java:434-449 | a missing component class becomes Object. A parameter site is copied one nesting level deeper, with the same method and index. A field site gets the parent's level plus one. No site stays no site. The result is never NULL and has nothing preset |
| DescriptorSpec.ElementId | org.springframework.core/src/main/java/org/springframework/core/convert/TypeDescriptor.java:415-424 | the element descriptor of a descriptor other than NULL is not NULL |
| DescriptorSpec.KeyId | org.springframework.core/src/main/java/org/springframework/core/convert/TypeDescriptor.java:426-428 | the map-key descriptor of a descriptor other than NULL is not NULL |
| DescriptorSpec.ValueId | org.springframework.core/src/main/java/org/springframework/core/convert/TypeDescriptor.java:430-432 | the map-value descriptor is never NULL, even for NULL |
| DescriptorSpec.ResolveAnnotations | org.springframework.core/src/main/java/org/springframework/core/convert/TypeDescriptor.java:392-407 | a descriptor without a field or a method parameter has no annotations |
| DescriptorSpec.ComponentAnnotationsInherited | org.springframework.core/src/main/java/org/springframework/core/convert/TypeDescriptor.java:392-407 | a component descriptor built from a field or a parameter reports that field's or parameter's annotations, since nesting changes only the level |
| DescriptorSpec.SubDescriptorAnnotations | org.springframework.core/src/main/java/org/springframework/core/convert/TypeDescriptor.java:415-432 | the element, key and value descriptors of a declaration carry the declaration's annotations |
| DescriptorSpec.ChildRanks | org.springframework.core/src/main/java/org/springframework/core/convert/TypeDescriptor.java:204-211 | the element, key and value descriptors that `isAssignableTo` and `toString` descend into are strictly less nested |
| DescriptorSpec.Assignable | org.springframework.core/src/main/java/org/springframework/core/convert/TypeDescriptor.java:200-216 | `NULL` on either side is assignable |
| DescriptorSpec.AssignableReflexive | org.springframework.core/src/main/java/org/springframework/core/convert/TypeDescriptor.java:200-216 | when `isAssignableFrom` is reflexive, every descriptor is assignable to itself, at every nesting level |
| DescriptorSpec.PrimitiveWrapperAssignable | org.springframework.core/src/main/java/org/springframework/core/convert/TypeDescriptor.java:213-215 | a primitive other than `void` and its wrapper are assignable both ways, because both sides are boxed |
| DescriptorSpec.ArrayElementIsComponent | org.springframework.core/src/main/java/org/springframework/core/convert/TypeDescriptor.java:415-424 | an array's element descriptor has the array's component type and the next nesting site |
| DescriptorSpec.ObjectElementIsCommonType | org.springframework.core/src/main/java/org/springframework/core/convert/TypeDescriptor.java:128-134 | the element descriptor of a runtime collection is fixed at construction: its common element class, or Object, with no site |
| DescriptorSpec.ObjectId | org.springframework.core/src/main/java/org/springframework/core/convert/TypeDescriptor.java:128-141 | `forObject(null)` is `NULL`; otherwise the declared type is the object's class and there is no site |
| DescriptorSpec.SourceOf | org.springframework.core/src/main/java/org/springframework/core/convert/TypeDescriptor.java:451-485 | the resolver gets the method parameter exactly when there is one, the field and its nesting level exactly when there is one, and otherwise the declared class (none for `NULL`) |
| DescriptorSpec.HashCode | org.springframework.core/src/main/java/org/springframework/core/convert/TypeDescriptor.java:364-366 | 0 for `NULL`; otherwise the hash of the declared class alone, so site, annotations and presets play no part |
| DescriptorSpec.SameDeclaration | org.springframework.core/src/main/java/org/springframework/core/convert/TypeDescriptor.java:351-361 | equal declarations have the same declared class, the same annotations and the same hash; for a collection the element classes agree, for a map the key classes and the value classes; for any other class the type and annotations decide alone |
| DescriptorSpec.Equal | org.springframework.core/src/main/java/org/springframework/core/convert/TypeDescriptor.java:343-366 | identity gives true. A non-descriptor or a `NULL` argument gives false. Equal descriptors have equal hash codes. A `NULL` receiver facing another descriptor throws |
| DescriptorSpec.EqualSymmetricOffNull | org.springframework.core/src/main/java/org/springframework/core/convert/TypeDescriptor.java:343-362 | between descriptors other than `NULL`, `equals` never throws and is symmetric |
| DescriptorSpec.ArrayDescriptorsEqual | org.springframework.core/src/main/java/org/springframework/core/convert/TypeDescriptor.java:351-361 | arrays compare declared type and annotations only, whether or not the two are the same descriptor |
| DescriptorSpec.MapDescriptorsEqual | org.springframework.core/src/main/java/org/springframework/core/convert/TypeDescriptor.java:355-358 | two runtime-map descriptors of one map class are equal exactly when their key classes and their value classes are |
| DescriptorSpec.EqualAsymmetricAroundNull | org.springframework.core/src/main/java/org/springframework/core/convert/TypeDescriptor.java:343-351 | `x.equals(NULL)` is false, but `NULL.equals(x)` throws |
| DescriptorSpec.EqualCorrected | org.springframework.core/src/main/java/org/springframework/core/convert/TypeDescriptor.java:343-362 | corrected `equals`: NULL equals only itself from either side; equal implies equal hash codes |
| DescriptorSpec.EqualCorrectedSymmetric | org.springframework.core/src/main/java/org/springframework/core/convert/TypeDescriptor.java:343-362 | corrected `equals` is symmetric, and it agrees with `equals` wherever `equals` returns |
| DescriptorSpec.Render | org.springframework.core/src/main/java/org/springframework/core/convert/TypeDescriptor.java:368-388 | `NULL` renders as "null". Otherwise the text starts with `@name ` for each annotation, followed by the qualified class name |
| DescriptorSpec.AnnotationPrefix | org.springframework.core/src/main/java/org/springframework/core/convert/TypeDescriptor.java:375-377 | no annotations give the empty text. Otherwise the text starts with `@` and ends with the separating space |
| DescriptorSpec.AnnotationPrefixAppend | org.springframework.core/src/main/java/org/springframework/core/convert/TypeDescriptor.java:375-377 | the annotation text of a concatenation is the concatenation of the two texts |
| DescriptorSpec.CachedClassCount | org.springframework.core/src/main/java/org/springframework/core/convert/TypeDescriptor.java:49-67 | the shared table has 17 distinct classes and holds neither void nor Object |
| DescriptorSpec.ArraysNotCached | org.springframework.core/src/main/java/org/springframework/core/convert/TypeDescriptor.java:49-67 | no array class is in the shared table |
| TypeDescriptors.TypeDescriptor.Null | org.springframework.core/src/main/java/org/springframework/core/convert/TypeDescriptor.java:495-496 | the NULL descriptor has no type, no site and no memo |
| TypeDescriptors.TypeDescriptor.constructor | org.springframework.core/src/main/java/org/springframework/core/convert/TypeDescriptor.java:489-501 | a descriptor of a class at a site starts with every memo field unset |
| TypeDescriptors.TypeDescriptor.WithElement | org.springframework.core/src/main/java/org/springframework/core/convert/TypeDescriptor.java:503-509 | the collection constructor presets the element descriptor |
| TypeDescriptors.TypeDescriptor.WithKeyValue | org.springframework.core/src/main/java/org/springframework/core/convert/TypeDescriptor.java:511-521 | the map constructor presets the key and value descriptors |
| TypeDescriptors.TypeDescriptor.IsArray | org.springframework.core/src/main/java/org/springframework/core/convert/TypeDescriptor.java:230-232 | true exactly for array classes; `NULL` throws |
| TypeDescriptors.TypeDescriptor.IsCollection | org.springframework.core/src/main/java/org/springframework/core/convert/TypeDescriptor.java:237-239 | true exactly when Collection is assignable from the type; `NULL` throws |
| TypeDescriptors.TypeDescriptor.IsMap | org.springframework.core/src/main/java/org/springframework/core/convert/TypeDescriptor.java:267-269 | true exactly when Map is assignable from the type; `NULL` throws |
| TypeDescriptors.TypeDescriptor.GetAnnotations | org.springframework.core/src/main/java/org/springframework/core/convert/TypeDescriptor.java:176-181 | the annotations are resolved from the field, method or parameter, memoized, and the sub-descriptor memos are untouched |
| TypeDescriptors.TypeDescriptor.GetAnnotation | org.springframework.core/src/main/java/org/springframework/core/convert/TypeDescriptor.java:186-193 | the search returns the first annotation of the requested type, or nothing when no annotation has that type |
| TypeDescriptors.TypeDescriptor.CreateComponentTypeDescriptor | org.springframework.core/src/main/java/org/springframework/core/convert/TypeDescriptor.java:434-449 | the component descriptor has the identity `ComponentId` gives. With a site it is freshly allocated with no memo set. Without one it is `valueOf`: the shared table entry for a cached class, with nothing allocated, and otherwise a fresh descriptor |
| TypeDescriptors.TypeDescriptor.GetElementTypeDescriptor | org.springframework.core/src/main/java/org/springframework/core/convert/TypeDescriptor.java:252-260 | `NULL` throws. A type that is neither collection nor array fails with "Not a collection or array type". Otherwise the result is the memo, with the specified element identity. An already-set memo is returned unchanged. A memo filled now is the shared table entry when the descriptor has no site and the element class is cached, and a fresh descriptor otherwise |
| TypeDescriptors.TypeDescriptor.GetMapKeyTypeDescriptor | org.springframework.core/src/main/java/org/springframework/core/convert/TypeDescriptor.java:282-290 | `NULL` throws. A non-map fails with "Not a Map type". Otherwise the result is the memoized key descriptor. An already-set memo is returned unchanged. A memo filled now is the shared table entry when the descriptor has no site and the key class is cached, and a fresh descriptor otherwise |
| TypeDescriptors.TypeDescriptor.GetMapValueTypeDescriptor | org.springframework.core/src/main/java/org/springframework/core/convert/TypeDescriptor.java:303-308 | there is no map check; the result is the memoized value descriptor for any receiver. An already-set memo is returned unchanged. A memo filled now is the shared table entry when the descriptor has no site and the value class is cached, and a fresh descriptor otherwise |
| TypeDescriptors.TypeDescriptor.IsAssignableTo | org.springframework.core/src/main/java/org/springframework/core/convert/TypeDescriptor.java:200-216 | the answer is exactly `Assignable` of the two identities. The heap stays valid, and no filled memo of any descriptor changes (`Grew`) |
| TypeDescriptors.TypeDescriptor.ElementsAssignableTo | org.springframework.core/src/main/java/org/springframework/core/convert/TypeDescriptor.java:205-206 | for two collections or arrays, the answer is whether the element descriptors are assignable |
| TypeDescriptors.TypeDescriptor.EntriesAssignableTo | org.springframework.core/src/main/java/org/springframework/core/convert/TypeDescriptor.java:209-211 | for two maps, the answer is whether both the keys and the values are assignable; the values are only examined when the keys are |
| TypeDescriptors.TypeDescriptor.KeysAssignableTo | org.springframework.core/src/main/java/org/springframework/core/convert/TypeDescriptor.java:210 | for two maps, the answer is whether the key descriptors are assignable |
| TypeDescriptors.TypeDescriptor.ValuesAssignableTo | org.springframework.core/src/main/java/org/springframework/core/convert/TypeDescriptor.java:211 | for two maps, the answer is whether the value descriptors are assignable |
| TypeDescriptors.TypeDescriptor.Equals | org.springframework.core/src/main/java/org/springframework/core/convert/TypeDescriptor.java:343-362 | the answer, or the NullPointerException, is exactly `Equal` of the identities |
| TypeDescriptors.TypeDescriptor.AnnotatedTypeEquals | org.springframework.core/src/main/java/org/springframework/core/convert/TypeDescriptor.java:351 | true exactly for the same declared type and the same annotations |
| TypeDescriptors.TypeDescriptor.EntryTypesEqual | org.springframework.core/src/main/java/org/springframework/core/convert/TypeDescriptor.java:356-357 | true exactly for equal key classes and equal value classes |
| TypeDescriptors.TypeDescriptor.EqualsCorrected | org.springframework.core/src/main/java/org/springframework/core/convert/TypeDescriptor.java:343-362 | the corrected `equals` as a method: exactly `EqualCorrected` |
| TypeDescriptors.TypeDescriptor.HashCode | org.springframework.core/src/main/java/org/springframework/core/convert/TypeDescriptor.java:364-366 | 0 for `NULL`, otherwise the declared class's hash |
| TypeDescriptors.TypeDescriptor.ToString | org.springframework.core/src/main/java/org/springframework/core/convert/TypeDescriptor.java:368-388 | the built string is exactly `Render` of the identity |
| TypeDescriptors.TypeDescriptor.AnnotationsText | org.springframework.core/src/main/java/org/springframework/core/convert/TypeDescriptor.java:374-377 | the builder loop yields `@name ` per annotation, in order |
| TypeDescriptors.TypeDescriptor.AppendEntries | org.springframework.core/src/main/java/org/springframework/core/convert/TypeDescriptor.java:379-382 | a map appends `<key, value>` with the key and value renderings |
| TypeDescriptors.TypeDescriptor.ApplyType | org.springframework.core/src/main/java/org/springframework/core/convert/TypeDescriptor.java:324-339 | null gives the receiver itself. Otherwise the result has the `forObject` identity of the object. A collection or map gets a fresh descriptor. A scalar goes through `valueOf`: the shared instance for a cached class, a fresh descriptor with no memo set otherwise |
| TypeDescriptors.DescriptorHeap.constructor | org.springframework.core/src/main/java/org/springframework/core/convert/TypeDescriptor.java:43-67 | after static initialization the heap is valid, the table's keys are exactly the 17 cached classes, and `NULL` and every table entry are newly allocated descriptors |
| TypeDescriptors.DescriptorHeap.PutCachedClasses | org.springframework.core/src/main/java/org/springframework/core/convert/TypeDescriptor.java:49-66 | the static block's puts add exactly the cached classes to the table, each bound to a new descriptor, and every descriptor they add is new |
| TypeDescriptors.DescriptorHeap.PutAll | org.springframework.core/src/main/java/org/springframework/core/convert/TypeDescriptor.java:50-66 | a run of puts, in order, adds exactly the listed classes to the table, binds each to a new descriptor, leaves every other entry alone, and adds only new descriptors, keeping the heap valid |
| TypeDescriptors.DescriptorHeap.Put | org.springframework.core/src/main/java/org/springframework/core/convert/TypeDescriptor.java:50-66 | one put adds exactly its class to the table, bound to a new descriptor, leaves every other entry alone, and adds that descriptor alone to the heap, keeping the heap valid |
| DescriptorSpec.InitializerClassesAreCached | org.springframework.core/src/main/java/org/springframework/core/convert/TypeDescriptor.java:50-66 | the classes the static block puts, in its order (each primitive, then its wrapper, then String), are exactly the cached classes |
| TypeDescriptors.IntAssignableToInteger | org.springframework.core/src/main/java/org/springframework/core/convert/TypeDescriptor.java:43-67 | on a heap the static initializer has just built, `valueOf(int.class).isAssignableTo(valueOf(Integer.class))` is true; the new heap's descriptors may have their memo fields filled |
| TypeDescriptors.DescriptorHeap.ValueOf | org.springframework.core/src/main/java/org/springframework/core/convert/TypeDescriptor.java:115-121 | null gives `NULL`. A cached class gives the shared instance and allocates nothing. Any other class gives a fresh descriptor with no memo set |
| TypeDescriptors.DescriptorHeap.ForObject | org.springframework.core/src/main/java/org/springframework/core/convert/TypeDescriptor.java:128-141 | the result has the identity `ObjectId`. Collections and maps get fresh descriptors. Other objects go through `valueOf`: the shared instance for a cached class, a fresh descriptor with no memo set otherwise |
| TypeDescriptors.DescriptorHeap.ForCollection | org.springframework.core/src/main/java/org/springframework/core/convert/TypeDescriptor.java:132-133 | a runtime collection gets a fresh descriptor whose preset element is `valueOf` of the common element class: the shared entry when cached, and a fresh descriptor otherwise |
| TypeDescriptors.DescriptorHeap.ForMap | org.springframework.core/src/main/java/org/springframework/core/convert/TypeDescriptor.java:134-135 | a runtime map gets a fresh descriptor whose preset key and value are `valueOf` of the common key and value classes, each shared when cached and fresh otherwise |
| TypeDescriptors.DescriptorHeap.ForMethodParameter | org.springframework.core/src/main/java/org/springframework/core/convert/TypeDescriptor.java:93-97 | a null parameter fails with "MethodParameter must not be null". Otherwise a fresh descriptor of the parameter type at that parameter |
| TypeDescriptors.DescriptorHeap.ForField | org.springframework.core/src/main/java/org/springframework/core/convert/TypeDescriptor.java:104-108 | a null field fails with "Field must not be null". Otherwise a fresh descriptor of the field type at nesting level 1 |
| TypeDescriptors.DescriptorHeap.ForComponentType | org.springframework.core/src/main/java/org/springframework/core/convert/TypeDescriptor.java:312-318 | a null class becomes Object; the method parameter, if any, is the site |
| TypeDescriptors.StringArrayElementIsShared | org.springframework.core/src/main/java/org/springframework/core/convert/TypeDescriptor.java:115-121 | `valueOf(String[].class).getElementTypeDescriptor()` is the very instance `valueOf(String.class)` (lines 422, 447 and 119) |
| TypeDescriptors.StringListElementIsShared | org.springframework.core/src/main/java/org/springframework/core/convert/TypeDescriptor.java:128-134 | the element descriptor of `forObject` of a list of strings is the very instance `valueOf(String.class)` (lines 133, 508 and 119) |
| TypeDescriptors.ElementSurvivesAssignability | org.springframework.core/src/main/java/org/springframework/core/convert/TypeDescriptor.java:252-260 | an element descriptor read before and after an `isAssignableTo` over the same descriptor is the same instance |
| TypeDescriptors.StringApplyTypeIsShared | org.springframework.core/src/main/java/org/springframework/core/convert/TypeDescriptor.java:330-337 | `NULL.applyType` of a string is the very instance `valueOf(String.class)` (line 119) |
| ArrayConversion.ArrayToArrayGenericConverter.constructor | org.springframework.core/src/main/java/org/springframework/core/convert/support/ArrayToArrayGenericConverter.java:29-31 | the converter keeps the conversion service it is given |
| ArrayConversion.ConvertAll | org.springframework.core/src/main/java/org/springframework/core/convert/support/ArrayToArrayGenericConverter.java:44-48 | same length as the source; element i is the converter applied to source element i |
| ArrayConversion.ArrayToArrayGenericConverter.Convert | org.springframework.core/src/main/java/org/springframework/core/convert/support/ArrayToArrayGenericConverter.java:33-50 | assignable descriptors return the source itself, with no element converted. A descriptor that is neither collection nor array fails with the illegal-state error. A missing converter fails with converter-not-found, carrying both element descriptors, before any write. Otherwise the result is a fresh array, distinct from the source and of the same length, holding `ConvertAll` of the source. The logged writes are `(k, value[k])` for k from 0 upwards, so each element is written once, in ascending index order. The source is unchanged |
| ArrayConversion.ArrayToArrayGenericConverter.ElementTypeDescriptors | org.springframework.core/src/main/java/org/springframework/core/convert/support/ArrayToArrayGenericConverter.java:37-38 | the source's element descriptor is fetched first, then the target's. A side that is neither collection nor array fails with the illegal-state error; otherwise both results have the specified element identities |
| ArrayConversion.ArrayToArrayGenericConverter.Fill | org.springframework.core/src/main/java/org/springframework/core/convert/support/ArrayToArrayGenericConverter.java:44-48 | the loop writes `ConvertAll` of the source into the target. Its k-th logged write stores `target[k]` at index k |

## Left out

- Reflection is abstract. `Class.isAssignableFrom`, `GenericCollectionTypeResolver`, annotation lookup, `getClass`, class hash codes and `CollectionUtils.findCommonElementType` are functions in `Jvm`. The model assumes nothing about `isAssignableFrom` in general. Some lemmas and methods require specific facts of it, each stated in their `requires`:
  - reflexivity: `AssignableReflexive`, `PrimitiveWrapperAssignable`;
  - that particular classes are not Collection or Map subtypes: `PrimitiveWrapperAssignable` (the primitive class), `ArrayElementIsComponent` (the array class), `MapDescriptorsEqual` (the map class is not a Collection), `ArrayDescriptorsEqual` (the array class), `StringArrayElementIsShared` (`String[]`) and `StringApplyTypeIsShared` (`String`);
  - on a real JVM all of these hold.
- `synchronized` on the getters is not modelled; the getters are single-threaded lazy initialisation.
- The trivial accessors are not separate members: `getType`, `getObjectType`, `getName`, `isPrimitive`, `asString`, `getMethodParameter`, `getElementType`, `getMapKeyType` and `getMapValueType`. Where the modelled operations use them, their effect is inlined: `declaredType`, `Box`, `QualifiedName`, and the `declaredType` of a sub-descriptor.
- `resolveAnnotations` and the `resolve*TypeDescriptor` helpers are the functions `ResolveAnnotations`, `ElementId`, `KeyId` and `ValueId`. The three `resolve*Type` helpers (lines 451-485) are one function `resolve` of a role and a source, because the `GenericCollectionTypeResolver` they call is abstract. `newComponentTypeDescriptor` is inlined into `CreateComponentTypeDescriptor`, because it is a subclassing hook with the base behaviour only.
- A null source array is not modelled in `ArrayToArrayGenericConverter.Convert`. Neither are conversion failures raised by an element converter. The converter's internals are abstract, as `getConverter` and `invokeConverter`.
- ArrayToArrayGenericConverter.Convert: the new array has element type `V`, so the runtime component class `Array.newInstance` gives it (the target element type) is not represented, and neither is the `IllegalArgumentException` that `Array.set` throws when a converted element does not fit the component type.
- `hashCode` of `Class` is an abstract function, so no 32-bit width is modelled.
- ValueId: for `NULL`, `resolveMapValueType` (line 483) hands a null class to `GenericCollectionTypeResolver.getMapValueType`, which is not part of this model. The model assumes that call returns normally, as `resolve` applied to `ClassSource(None)`. So `ValueId` and `GetMapValueTypeDescriptor` give `NULL` a value descriptor, and they do not model an exception that call might throw.
- The recursive operations require `FinitelyNested` of the whole world. A program with a self-referential raw declaration, on which Java overflows the stack, is covered only through a world that agrees with it on the declarations a call reaches.
- Jvm.Box: `ClassUtils.resolvePrimitiveIfNecessary` is not part of this model. `Box` boxes the eight primitive types as Java does, and leaves `void` unboxed. So whether a `void` descriptor is assignable to a `Void` one, or the reverse, is left to the abstract `isAssignableFrom`.
- The remaining files of the repository are outside this model: the MVC configuration, `ComponentScan`, `SpecificationExecutor`, `FieldModelConfiguration` and the `RequestContext` tests. They hold bean wiring and declarations without the logic modelled here.

## Findings

| source | as written | input that shows it | evidently intended | confidence | as-written member | corrected member |
|---|---|---|---|---|---|---|
| org.springframework.core/src/main/java/org/springframework/core/convert/TypeDescriptor.java:343-351 | `equals` tests identity, then rejects a `NULL` argument, then dereferences `getType()` of the receiver | `TypeDescriptor.NULL.equals(TypeDescriptor.valueOf(String.class))` throws NullPointerException, while `TypeDescriptor.valueOf(String.class).equals(TypeDescriptor.NULL)` is false | `NULL` equals only itself, symmetrically, without throwing | high; not executed | DescriptorSpec.EqualAsymmetricAroundNull | DescriptorSpec.EqualCorrectedSymmetric |
