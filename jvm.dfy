/**
 * The part of the Java platform that the type descriptor consults, abstracted.
 * Classes are values; arrays, primitives, qualified names and the boxing of the
 * eight primitive types follow the Java rules; subtyping, generic-type resolution, annotations and the runtime
 * classes of objects are left abstract as the function-valued fields of `Jvm`.
 */
module Jvm {
  import opened Wrappers

  /** The eight primitive types and `void`. */
  datatype Primitive = Boolean | Byte | Char | Short | Int | Long | Float | Double | Void

  /** A `Class` object: a primitive class, a reference type given by its binary name, or an array class. */
  datatype ClassId =
    | PrimitiveClass(primitive: Primitive)
    | RefClass(name: string)
    | ArrayClass(component: ClassId)

  const ObjectClass: ClassId := RefClass("java.lang.Object")
  const StringClass: ClassId := RefClass("java.lang.String")
  const CollectionClass: ClassId := RefClass("java.util.Collection")
  const MapClass: ClassId := RefClass("java.util.Map")

  function PrimitiveName(p: Primitive): string {
    match p
    case Boolean => "boolean"
    case Byte => "byte"
    case Char => "char"
    case Short => "short"
    case Int => "int"
    case Long => "long"
    case Float => "float"
    case Double => "double"
    case Void => "void"
  }

  /**
   * The wrapper class of a primitive type, e.g. `java.lang.Integer` for `int`;
   * for `void` its placeholder class `java.lang.Void`, which is not a boxing target.
   */
  function WrapperClass(p: Primitive): (c: ClassId)
    ensures c.RefClass?
  {
    match p
    case Boolean => RefClass("java.lang.Boolean")
    case Byte => RefClass("java.lang.Byte")
    case Char => RefClass("java.lang.Character")
    case Short => RefClass("java.lang.Short")
    case Int => RefClass("java.lang.Integer")
    case Long => RefClass("java.lang.Long")
    case Float => RefClass("java.lang.Float")
    case Double => RefClass("java.lang.Double")
    case Void => RefClass("java.lang.Void")
  }

  /**
   * `ClassUtils.resolvePrimitiveIfNecessary`: one of the eight primitive classes
   * becomes its wrapper; `void`, like any other class, stays as it is.
   */
  function Box(c: ClassId): (b: ClassId)
    ensures b.PrimitiveClass? <==> c == PrimitiveClass(Void)
    ensures !c.PrimitiveClass? || c == PrimitiveClass(Void) ==> b == c
    ensures c.PrimitiveClass? && c.primitive != Void ==> b == WrapperClass(c.primitive)
  {
    if c.PrimitiveClass? && c.primitive != Void then WrapperClass(c.primitive) else c
  }

  /** `ClassUtils.getQualifiedName`: the class name, with `[]` appended per array dimension. */
  function QualifiedName(c: ClassId): string {
    match c
    case PrimitiveClass(p) => PrimitiveName(p)
    case RefClass(n) => n
    case ArrayClass(e) => QualifiedName(e) + "[]"
  }

  /** `Class.getComponentType`: the component class of an array, null (None) otherwise. */
  function ComponentType(c: ClassId): (r: Option<ClassId>)
    ensures r.Some? <==> c.ArrayClass?
  {
    if c.ArrayClass? then Some(c.component) else None
  }

  /** `Class.isArray`. */
  predicate IsArrayClass(c: ClassId) {
    c.ArrayClass?
  }

  /** Methods, fields and runtime objects are opaque handles. */
  type MethodRef = string
  type FieldRef = string
  type ObjectRef = nat

  /**
   * `MethodParameter`: a method (or constructor), a parameter index (-1 for the
   * return type) and the nesting level inside nested collection types.
   */
  datatype MethodParameter = MethodParameter(executable: MethodRef, parameterIndex: int, nestingLevel: nat) {
    /** A copy with `increaseNestingLevel()` applied. */
    function Nested(): MethodParameter {
      this.(nestingLevel := nestingLevel + 1)
    }
  }

  /** An annotation instance: its annotation type's name and its attribute values. */
  datatype Annotation = Annotation(annotationType: string, attributes: seq<(string, string)>)

  /** Which type argument a generic lookup asks for. */
  datatype Role = ElementRole | KeyRole | ValueRole

  /** What `GenericCollectionTypeResolver` inspects: a parameter, a field at a nesting level, or a class (possibly null). */
  datatype Source =
    | ParameterSource(parameter: MethodParameter)
    | FieldSource(field: FieldRef, nestingLevel: nat)
    | ClassSource(cls: Option<ClassId>)

  /** Where a descriptor's generic information comes from: a method parameter, a field at a nesting level, or nothing. */
  datatype Site =
    | ParameterSite(parameter: MethodParameter)
    | FieldSite(field: FieldRef, nestingLevel: nat)
    | NoSite

  /**
   * The reflection services the descriptor calls, as values:
   * - assignableFrom(target, source): `target.isAssignableFrom(source)`;
   * - classHash: `Class.hashCode`;
   * - resolve: `GenericCollectionTypeResolver.get{Collection,MapKey,MapValue}{Parameter,Field,}Type`,
   *   None when erasure leaves no generic information;
   * - depth: how many container levels a declaration has below a type at a site; it only
   *   witnesses that declared types are finitely nested (see FinitelyNested);
   * - parameterType, fieldType: `MethodParameter.getParameterType`, `Field.getType`;
   * - fieldAnnotations, methodAnnotations, parameterAnnotations: the annotation lookups;
   * - classOf: `Object.getClass`;
   * - commonType: `CollectionUtils.findCommonElementType` over an object's elements
   *   (ElementRole), map keys (KeyRole) or map values (ValueRole).
   */
  datatype Jvm = Jvm(
    assignableFrom: (ClassId, ClassId) -> bool,
    classHash: ClassId -> int,
    resolve: (Role, Source) -> Option<ClassId>,
    depth: (ClassId, Site) -> nat,
    parameterType: MethodParameter -> ClassId,
    fieldType: FieldRef -> ClassId,
    fieldAnnotations: FieldRef -> seq<Annotation>,
    methodAnnotations: MethodRef -> seq<Annotation>,
    parameterAnnotations: (MethodRef, int) -> seq<Annotation>,
    classOf: ObjectRef -> ClassId,
    commonType: (ObjectRef, Role) -> Option<ClassId>)

  /** `Collection.class.isAssignableFrom(c)`. */
  predicate IsCollectionClass(w: Jvm, c: ClassId) {
    w.assignableFrom(CollectionClass, c)
  }

  /** `Map.class.isAssignableFrom(c)`. */
  predicate IsMapClass(w: Jvm, c: ClassId) {
    w.assignableFrom(MapClass, c)
  }

  /** The property of `isAssignableFrom` that `AssignableReflexive` relies on. */
  ghost predicate ReflexiveAssignable(w: Jvm) {
    forall c :: w.assignableFrom(c, c)
  }
}
