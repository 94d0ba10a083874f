/**
 * The value semantics of a type descriptor. A descriptor is determined by its
 * declared class, the declaration site its generic information comes from, and
 * the sub-descriptors a constructor fixed up front; everything the class
 * `TypeDescriptor` computes lazily is a function of that identity, defined here.
 */
module DescriptorSpec {
  import opened Wrappers
  import opened Jvm

  /** Sub-descriptors fixed at construction: by the collection and map constructors used for runtime objects. */
  datatype Preset =
    | NoPreset
    | PresetElement(element: ClassId)
    | PresetKeyValue(key: ClassId, value: ClassId)

  /** The identity of a descriptor; NullId is `TypeDescriptor.NULL`, whose type is null. */
  datatype Id =
    | NullId
    | Id(declared: ClassId, site: Site, preset: Preset)

  /** The exceptions the descriptor operations throw. */
  datatype Failure =
    | IllegalState(message: string)
    | IllegalArgument(message: string)
    | NullPointer

  const NotCollectionOrArray: string := "Not a collection or array type"
  const NotMap: string := "Not a Map type"

  /** The site recorded in a descriptor: `methodParameter`, `field` and `fieldNestingLevel`. NULL has none. */
  function SiteOf(id: Id): Site {
    if id.NullId? then NoSite else id.site
  }

  /**
   * What the `resolve*Type` helpers hand to the generic-type resolver: the method
   * parameter, else the field at its nesting level, else the declared class.
   */
  function SourceOf(id: Id): (src: Source)
    ensures src.ParameterSource? <==> SiteOf(id).ParameterSite?
    ensures src.ParameterSource? ==> src.parameter == SiteOf(id).parameter
    ensures src.FieldSource? <==> SiteOf(id).FieldSite?
    ensures src.FieldSource? ==> src.field == SiteOf(id).field && src.nestingLevel == SiteOf(id).nestingLevel
    ensures src.ClassSource? <==> SiteOf(id).NoSite?
    ensures src.ClassSource? ==> src.cls == (if id.Id? then Some(id.declared) else None)
  {
    match id
    case NullId => ClassSource(None)
    case Id(t, s, _) =>
      match s
      case ParameterSite(mp) => ParameterSource(mp)
      case FieldSite(f, level) => FieldSource(f, level)
      case NoSite => ClassSource(Some(t))
  }

  /**
   * `createComponentTypeDescriptor`: an absent class defaults to Object; a parameter
   * site is copied one nesting level deeper, a field site gets the parent's level
   * plus one, and without a site the descriptor is `valueOf(componentType)`.
   */
  function ComponentId(parent: Site, c: Option<ClassId>): (r: Id)
    ensures r.Id? && r.preset == NoPreset
    ensures c.None? ==> r.declared == ObjectClass
    ensures c.Some? ==> r.declared == c.value
    ensures parent.ParameterSite? ==>
              && r.site.ParameterSite?
              && r.site.parameter.executable == parent.parameter.executable
              && r.site.parameter.parameterIndex == parent.parameter.parameterIndex
              && r.site.parameter.nestingLevel == parent.parameter.nestingLevel + 1
    ensures parent.FieldSite? ==> r.site == FieldSite(parent.field, parent.nestingLevel + 1)
    ensures parent.NoSite? ==> r.site == NoSite
  {
    var t := c.GetOr(ObjectClass);
    match parent
    case ParameterSite(mp) => Id(t, ParameterSite(mp.Nested()), NoPreset)
    case FieldSite(f, level) => Id(t, FieldSite(f, level + 1), NoPreset)
    case NoSite => Id(t, NoSite, NoPreset)
  }

  /** A descriptor with an element type: a collection or an array, NULL excluded. */
  predicate HasElementType(w: Jvm, id: Id) {
    id.Id? && (IsCollectionClass(w, id.declared) || IsArrayClass(id.declared))
  }

  /** The descriptor `getElementTypeDescriptor` memoizes (`resolveElementTypeDescriptor` unless preset). */
  function ElementId(w: Jvm, id: Id): (e: Id)
    ensures id.Id? ==> e.Id?
  {
    match id
    case NullId => NullId
    case Id(t, s, p) =>
      if p.PresetElement? then Id(p.element, NoSite, NoPreset)
      else if IsCollectionClass(w, t) then ComponentId(s, w.resolve(ElementRole, SourceOf(id)))
      else ComponentId(s, ComponentType(t))
  }

  /** The descriptor `getMapKeyTypeDescriptor` memoizes. */
  function KeyId(w: Jvm, id: Id): (k: Id)
    ensures id.Id? ==> k.Id?
  {
    match id
    case NullId => NullId
    case Id(_, s, p) =>
      if p.PresetKeyValue? then Id(p.key, NoSite, NoPreset)
      else ComponentId(s, w.resolve(KeyRole, SourceOf(id)))
  }

  /** The descriptor `getMapValueTypeDescriptor` memoizes; it has no map check, so NULL has one too. */
  function ValueId(w: Jvm, id: Id): (v: Id)
    ensures v.Id?
  {
    if id.Id? && id.preset.PresetKeyValue? then Id(id.preset.value, NoSite, NoPreset)
    else ComponentId(SiteOf(id), w.resolve(ValueRole, SourceOf(id)))
  }

  /** `resolveAnnotations`: the field's, the method's (index < 0) or the parameter's annotations; none without a site. */
  function ResolveAnnotations(w: Jvm, id: Id): (anns: seq<Annotation>)
    ensures SiteOf(id).NoSite? ==> anns == []
  {
    match SiteOf(id)
    case FieldSite(f, _) => w.fieldAnnotations(f)
    case ParameterSite(mp) =>
      if mp.parameterIndex < 0 then w.methodAnnotations(mp.executable)
      else w.parameterAnnotations(mp.executable, mp.parameterIndex)
    case NoSite => []
  }

  /**
   * Nesting changes only the level of a site, so a component descriptor reports
   * the annotations of the field or parameter it was derived from.
   */
  lemma ComponentAnnotationsInherited(w: Jvm, id: Id, c: Option<ClassId>)
    ensures ResolveAnnotations(w, ComponentId(SiteOf(id), c)) == ResolveAnnotations(w, id)
  {
  }

  /** The element, key and value descriptors of a declaration carry the declaration's annotations. */
  lemma SubDescriptorAnnotations(w: Jvm, id: Id)
    requires id.Id? ==> id.preset.NoPreset? || id.site.NoSite?
    ensures ResolveAnnotations(w, ElementId(w, id)) == ResolveAnnotations(w, id)
    ensures ResolveAnnotations(w, KeyId(w, id)) == ResolveAnnotations(w, id)
    ensures ResolveAnnotations(w, ValueId(w, id)) == ResolveAnnotations(w, id)
  {
    if id.Id? && id.preset.NoPreset? {
      ComponentAnnotationsInherited(w, id, w.resolve(ElementRole, SourceOf(id)));
      ComponentAnnotationsInherited(w, id, ComponentType(id.declared));
      ComponentAnnotationsInherited(w, id, w.resolve(KeyRole, SourceOf(id)));
    }
    ComponentAnnotationsInherited(w, id, w.resolve(ValueRole, SourceOf(id)));
  }

  // ---------------------------------------------------------------------------
  // Finite nesting

  /** A measure that the world's `depth` witness makes decrease into every container child. */
  ghost function Rank(w: Jvm, id: Id): nat {
    match id
    case NullId => 0
    case Id(t, s, p) =>
      w.depth(t, s) +
      match p
      case NoPreset => 0
      case PresetElement(e) => w.depth(e, NoSite) + 1
      case PresetKeyValue(k, v) => w.depth(k, NoSite) + w.depth(v, NoSite) + 1
  }

  /** The container children of a declaration of `t` at `s` are less deeply nested than it. */
  ghost predicate NestingShrinks(w: Jvm, t: ClassId, s: Site) {
    var id := Id(t, s, NoPreset);
    && ((IsCollectionClass(w, t) || IsArrayClass(t)) ==> Rank(w, ElementId(w, id)) < w.depth(t, s))
    && (IsMapClass(w, t) ==> Rank(w, KeyId(w, id)) < w.depth(t, s) && Rank(w, ValueId(w, id)) < w.depth(t, s))
  }

  /** Every declared type is finitely nested, which is why the recursive operations terminate. */
  ghost predicate FinitelyNested(w: Jvm) {
    forall t, s :: NestingShrinks(w, t, s)
  }

  /** The sub-descriptors the recursive operations descend into are of smaller rank. */
  lemma ChildRanks(w: Jvm, id: Id)
    requires FinitelyNested(w) && id.Id?
    ensures (IsCollectionClass(w, id.declared) || IsArrayClass(id.declared)) ==> Rank(w, ElementId(w, id)) < Rank(w, id)
    ensures IsMapClass(w, id.declared) ==> Rank(w, KeyId(w, id)) < Rank(w, id) && Rank(w, ValueId(w, id)) < Rank(w, id)
  {
    assert NestingShrinks(w, id.declared, id.site);
    var base := Id(id.declared, id.site, NoPreset);
    assert !id.preset.PresetElement? ==> ElementId(w, id) == ElementId(w, base);
    assert !id.preset.PresetKeyValue? ==> KeyId(w, id) == KeyId(w, base) && ValueId(w, id) == ValueId(w, base);
  }

  // ---------------------------------------------------------------------------
  // Assignability

  /**
   * `isAssignableTo`: NULL on either side is a wildcard; two collections or two
   * arrays need assignable declared types and recursively assignable element
   * descriptors; two maps need the same of keys and values; anything else
   * compares the boxed declared types.
   */
  function Assignable(w: Jvm, s: Id, t: Id): (r: bool)
    requires FinitelyNested(w)
    decreases Rank(w, s)
    ensures s == NullId || t == NullId ==> r
  {
    if s == NullId || t == NullId then true
    else
      ChildRanks(w, s);
      if (IsCollectionClass(w, s.declared) && IsCollectionClass(w, t.declared)) || (IsArrayClass(s.declared) && IsArrayClass(t.declared)) then
        w.assignableFrom(t.declared, s.declared) && Assignable(w, ElementId(w, s), ElementId(w, t))
      else if IsMapClass(w, s.declared) && IsMapClass(w, t.declared) then
        && w.assignableFrom(t.declared, s.declared)
        && Assignable(w, KeyId(w, s), KeyId(w, t))
        && Assignable(w, ValueId(w, s), ValueId(w, t))
      else
        w.assignableFrom(Box(t.declared), Box(s.declared))
  }

  /** When `isAssignableFrom` is reflexive, every descriptor is assignable to itself, at every nesting level. */
  lemma {:induction false} AssignableReflexive(w: Jvm, d: Id)
    requires FinitelyNested(w) && ReflexiveAssignable(w)
    ensures Assignable(w, d, d)
    decreases Rank(w, d)
  {
    if d.Id? {
      ChildRanks(w, d);
      if IsCollectionClass(w, d.declared) || IsArrayClass(d.declared) {
        AssignableReflexive(w, ElementId(w, d));
      } else if IsMapClass(w, d.declared) {
        AssignableReflexive(w, KeyId(w, d));
        AssignableReflexive(w, ValueId(w, d));
      }
    }
  }

  /** With a reflexive `isAssignableFrom`, a primitive type and its wrapper are assignable both ways, at any sites. */
  lemma PrimitiveWrapperAssignable(w: Jvm, p: Primitive, s1: Site, s2: Site)
    requires FinitelyNested(w) && ReflexiveAssignable(w) && p != Void
    requires !IsCollectionClass(w, PrimitiveClass(p)) && !IsMapClass(w, PrimitiveClass(p))
    ensures Assignable(w, Id(PrimitiveClass(p), s1, NoPreset), Id(WrapperClass(p), s2, NoPreset))
    ensures Assignable(w, Id(WrapperClass(p), s2, NoPreset), Id(PrimitiveClass(p), s1, NoPreset))
  {
    assert w.assignableFrom(WrapperClass(p), WrapperClass(p));
  }

  /** An array's element descriptor (unless preset or the array type counts as a collection) has the array's component type. */
  lemma ArrayElementIsComponent(w: Jvm, id: Id)
    requires id.Id? && IsArrayClass(id.declared) && !IsCollectionClass(w, id.declared) && !id.preset.PresetElement?
    ensures ElementId(w, id).declared == id.declared.component
    ensures ElementId(w, id).site == ComponentId(id.site, None).site
  {
  }

  /** The element descriptor of a runtime collection is its common element class (Object if none), with no site. */
  lemma ObjectElementIsCommonType(w: Jvm, x: ObjectRef)
    requires IsCollectionClass(w, w.classOf(x))
    ensures ElementId(w, ObjectId(w, Some(x))) == Id(w.commonType(x, ElementRole).GetOr(ObjectClass), NoSite, NoPreset)
  {
  }

  // ---------------------------------------------------------------------------
  // Equality and hashing

  /** `hashCode`: 0 for NULL, otherwise the hash of the declared class. */
  function HashCode(w: Jvm, id: Id): (h: int)
    ensures id.NullId? ==> h == 0
    ensures id.Id? ==> h == w.classHash(id.declared)
  {
    if id.NullId? then 0 else w.classHash(id.declared)
  }

  /** Equal declared types and annotations, plus equal element classes (collections) or key and value classes (maps). */
  predicate SameDeclaration(w: Jvm, a: Id, b: Id): (r: bool)
    requires a.Id? && b.Id?
    ensures r ==> a.declared == b.declared && ResolveAnnotations(w, a) == ResolveAnnotations(w, b)
    ensures r ==> HashCode(w, a) == HashCode(w, b)
    ensures r && IsCollectionClass(w, a.declared) ==> ElementId(w, a).declared == ElementId(w, b).declared
    ensures r && !IsCollectionClass(w, a.declared) && IsMapClass(w, a.declared) ==>
              KeyId(w, a).declared == KeyId(w, b).declared && ValueId(w, a).declared == ValueId(w, b).declared
    ensures (&& a.declared == b.declared && ResolveAnnotations(w, a) == ResolveAnnotations(w, b)
             && !IsCollectionClass(w, a.declared) && !IsMapClass(w, a.declared)) ==> r
  {
    && a.declared == b.declared
    && ResolveAnnotations(w, a) == ResolveAnnotations(w, b)
    && if IsCollectionClass(w, a.declared) then ElementId(w, a).declared == ElementId(w, b).declared
       else if IsMapClass(w, a.declared) then KeyId(w, a).declared == KeyId(w, b).declared && ValueId(w, a).declared == ValueId(w, b).declared
       else true
  }

  /**
   * `equals` as written. `obj` is None when it is not a descriptor (or null). The
   * identity test makes NULL equal to itself; a NULL argument is unequal to
   * everything else; a NULL receiver facing any other descriptor dereferences its
   * null type.
   */
  function Equal(w: Jvm, a: Id, obj: Option<Id>): (r: Result<bool, Failure>)
    ensures obj == Some(a) ==> r == Success(true)
    ensures a.Id? && (obj.None? || obj == Some(NullId)) ==> r == Success(false)
    ensures r == Success(true) && obj.Some? ==> HashCode(w, a) == HashCode(w, obj.value)
    ensures a == NullId && obj.Some? && obj.value.Id? ==> r == Failure(NullPointer)
  {
    if a == NullId && obj == Some(NullId) then Success(true)
    else if obj.None? || obj == Some(NullId) then Success(false)
    else if a == NullId then Failure(NullPointer)
    else Success(SameDeclaration(w, a, obj.value))
  }

  /** `equals` is not symmetric around NULL: one direction answers false, the other throws. */
  lemma EqualAsymmetricAroundNull(w: Jvm, x: Id)
    requires x.Id?
    ensures Equal(w, x, Some(NullId)) == Success(false)
    ensures Equal(w, NullId, Some(x)) == Failure(NullPointer)
  {
  }

  /** `equals` as evidently intended: NULL equals only itself, from either side, and nothing throws. */
  function EqualCorrected(w: Jvm, a: Id, obj: Option<Id>): (r: bool)
    ensures obj == Some(a) ==> r
    ensures a == NullId || obj == Some(NullId) ==> (r <==> obj == Some(a))
    ensures r && obj.Some? ==> HashCode(w, a) == HashCode(w, obj.value)
  {
    if a == NullId || obj == Some(NullId) then obj == Some(a)
    else obj.Some? && SameDeclaration(w, a, obj.value)
  }

  /** The corrected equality is symmetric, and it agrees with `equals` wherever `equals` returns. */
  lemma EqualCorrectedSymmetric(w: Jvm, a: Id, b: Id)
    ensures EqualCorrected(w, a, Some(b)) == EqualCorrected(w, b, Some(a))
    ensures Equal(w, a, Some(b)).Success? ==> Equal(w, a, Some(b)).value == EqualCorrected(w, a, Some(b))
  {
  }

  /** Two map descriptors of one map class built from runtime maps are equal exactly when their key and value classes are. */
  lemma MapDescriptorsEqual(w: Jvm, m: ClassId, k1: ClassId, v1: ClassId, k2: ClassId, v2: ClassId)
    requires IsMapClass(w, m) && !IsCollectionClass(w, m)
    ensures Equal(w, Id(m, NoSite, PresetKeyValue(k1, v1)), Some(Id(m, NoSite, PresetKeyValue(k2, v2))))
            == Success(k1 == k2 && v1 == v2)
  {
  }

  /** Between two descriptors other than NULL, `equals` is symmetric and never throws. */
  lemma EqualSymmetricOffNull(w: Jvm, a: Id, b: Id)
    requires a.Id? && b.Id?
    ensures Equal(w, a, Some(b)).Success?
    ensures Equal(w, a, Some(b)) == Equal(w, b, Some(a))
  {
  }

  /** Two array descriptors (of non-collection, non-map classes) compare only declared type and annotations. */
  lemma ArrayDescriptorsEqual(w: Jvm, a: Id, b: Id)
    requires a.Id? && b.Id?
    requires IsArrayClass(a.declared) && !IsCollectionClass(w, a.declared) && !IsMapClass(w, a.declared)
    ensures Equal(w, a, Some(b)) == Success(a.declared == b.declared && ResolveAnnotations(w, a) == ResolveAnnotations(w, b))
  {
  }

  // ---------------------------------------------------------------------------
  // Rendering

  /** The annotation loop of `toString`: `@name ` for each annotation, in order. */
  function AnnotationPrefix(anns: seq<Annotation>): (r: string)
    ensures anns == [] <==> r == ""
    ensures anns != [] ==> r[0] == '@' && r[|r| - 1] == ' '
  {
    if anns == [] then ""
    else AnnotationPrefix(anns[..|anns| - 1]) + "@" + anns[|anns| - 1].annotationType + " "
  }

  /** The annotation text of a concatenation is the concatenation of the annotation texts. */
  lemma {:induction false} AnnotationPrefixAppend(a: seq<Annotation>, b: seq<Annotation>)
    ensures AnnotationPrefix(a + b) == AnnotationPrefix(a) + AnnotationPrefix(b)
    decreases |b|
  {
    if b == [] {
      assert a + b == a;
    } else {
      var b' := b[..|b| - 1];
      assert (a + b)[..|a + b| - 1] == a + b';
      AnnotationPrefixAppend(a, b');
    }
  }

  /**
   * `toString`: "null" for NULL; otherwise the annotations, the qualified class
   * name, then `<key, value>` for a map or `<element>` for a collection.
   */
  function Render(w: Jvm, id: Id): (r: string)
    requires FinitelyNested(w)
    decreases Rank(w, id)
    ensures id == NullId ==> r == "null"
    ensures id.Id? ==> AnnotationPrefix(ResolveAnnotations(w, id)) + QualifiedName(id.declared) <= r
  {
    match id
    case NullId => "null"
    case Id(t, _, _) =>
      ChildRanks(w, id);
      var head := AnnotationPrefix(ResolveAnnotations(w, id)) + QualifiedName(t);
      if IsMapClass(w, t) then head + "<" + Render(w, KeyId(w, id)) + ", " + Render(w, ValueId(w, id)) + ">"
      else if IsCollectionClass(w, t) then head + "<" + Render(w, ElementId(w, id)) + ">"
      else head
  }

  // ---------------------------------------------------------------------------
  // Descriptors of runtime objects and raw classes

  /**
   * `forObject`: NULL for null; a collection gets its common element class, a map
   * its common key and value classes (Object when there is none); any other
   * object is described by its class.
   */
  function ObjectId(w: Jvm, o: Option<ObjectRef>): (r: Id)
    ensures o.None? <==> r == NullId
    ensures o.Some? ==> r.declared == w.classOf(o.value) && r.site == NoSite
  {
    match o
    case None => NullId
    case Some(x) =>
      var c := w.classOf(x);
      if IsCollectionClass(w, c) then Id(c, NoSite, PresetElement(w.commonType(x, ElementRole).GetOr(ObjectClass)))
      else if IsMapClass(w, c) then
        Id(c, NoSite, PresetKeyValue(w.commonType(x, KeyRole).GetOr(ObjectClass), w.commonType(x, ValueRole).GetOr(ObjectClass)))
      else Id(c, NoSite, NoPreset)
  }

  /** The primitive types whose descriptors are shared: all but void. */
  const CachedPrimitives: set<ClassId> :=
    {PrimitiveClass(Boolean), PrimitiveClass(Byte), PrimitiveClass(Char), PrimitiveClass(Short),
     PrimitiveClass(Int), PrimitiveClass(Long), PrimitiveClass(Float), PrimitiveClass(Double)}

  /** Their wrapper classes. */
  const CachedWrappers: set<ClassId> :=
    {WrapperClass(Boolean), WrapperClass(Byte), WrapperClass(Char), WrapperClass(Short),
     WrapperClass(Int), WrapperClass(Long), WrapperClass(Float), WrapperClass(Double)}

  /** The classes whose descriptors are shared: the cached primitives, their wrappers, and String. */
  const CachedClasses: set<ClassId> := CachedPrimitives + CachedWrappers + {StringClass}

  /** The classes the static initializer puts in the table, in its order: each cached primitive then its wrapper, then String. */
  const InitializerClasses: seq<ClassId> :=
    [PrimitiveClass(Boolean), WrapperClass(Boolean), PrimitiveClass(Byte), WrapperClass(Byte),
     PrimitiveClass(Char), WrapperClass(Char), PrimitiveClass(Short), WrapperClass(Short),
     PrimitiveClass(Int), WrapperClass(Int), PrimitiveClass(Long), WrapperClass(Long),
     PrimitiveClass(Float), WrapperClass(Float), PrimitiveClass(Double), WrapperClass(Double),
     StringClass]

  /** The static initializer registers exactly the cached classes. */
  lemma InitializerClassesAreCached()
    ensures (set c | c in InitializerClasses) == CachedClasses
  {
  }

  lemma CachedPrimitiveCount()
    ensures |CachedPrimitives| == 8
  {
    var s: set<ClassId> := {};
    assert PrimitiveClass(Boolean) !in s; s := s + {PrimitiveClass(Boolean)};
    assert PrimitiveClass(Byte) !in s; s := s + {PrimitiveClass(Byte)};
    assert PrimitiveClass(Char) !in s; s := s + {PrimitiveClass(Char)};
    assert PrimitiveClass(Short) !in s; s := s + {PrimitiveClass(Short)};
    assert PrimitiveClass(Int) !in s; s := s + {PrimitiveClass(Int)};
    assert PrimitiveClass(Long) !in s; s := s + {PrimitiveClass(Long)};
    assert PrimitiveClass(Float) !in s; s := s + {PrimitiveClass(Float)};
    assert PrimitiveClass(Double) !in s; s := s + {PrimitiveClass(Double)};
    assert s == CachedPrimitives;
  }

  lemma CachedWrapperCount()
    ensures |CachedWrappers| == 8
  {
    var s: set<ClassId> := {};
    assert RefClass("java.lang.Boolean") !in s; s := s + {RefClass("java.lang.Boolean")};
    assert RefClass("java.lang.Byte") !in s; s := s + {RefClass("java.lang.Byte")};
    assert RefClass("java.lang.Character") !in s; s := s + {RefClass("java.lang.Character")};
    assert RefClass("java.lang.Short") !in s; s := s + {RefClass("java.lang.Short")};
    assert RefClass("java.lang.Integer") !in s; s := s + {RefClass("java.lang.Integer")};
    assert RefClass("java.lang.Long") !in s; s := s + {RefClass("java.lang.Long")};
    assert RefClass("java.lang.Float") !in s; s := s + {RefClass("java.lang.Float")};
    assert RefClass("java.lang.Double") !in s; s := s + {RefClass("java.lang.Double")};
    assert s == CachedWrappers;
  }

  /** The shared table has seventeen entries; void and Object are not among them. */
  lemma CachedClassCount()
    ensures |CachedClasses| == 17
    ensures PrimitiveClass(Void) !in CachedClasses && ObjectClass !in CachedClasses
  {
    CachedPrimitiveCount();
    CachedWrapperCount();
    CachedDisjoint();
  }

  /** String is shared. */
  lemma StringIsCached()
    ensures StringClass in CachedClasses
  {
  }

  /** Only scalar classes are shared: no array class has a descriptor in the table. */
  lemma ArraysNotCached(c: ClassId)
    requires c.ArrayClass?
    ensures c !in CachedClasses
  {
    forall x | x in CachedClasses ensures !x.ArrayClass? {
    }
  }

  lemma CachedDisjoint()
    ensures CachedPrimitives !! CachedWrappers
    ensures StringClass !in CachedPrimitives + CachedWrappers
  {
    forall c | c in CachedWrappers ensures c.RefClass? && c != StringClass {
    }
  }
}
