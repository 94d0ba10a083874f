/**
 * `TypeDescriptor` as an object with lazily filled memo fields, and the static
 * state it shares: the NULL descriptor and the table of shared scalar
 * descriptors. Every operation is proved against the value semantics in
 * DescriptorSpec: a memo field, once set, holds the descriptor whose identity the
 * specification computes, and no later operation replaces it (`DescriptorHeap.Grew`).
 */
module TypeDescriptors {
  import opened Wrappers
  import opened Jvm
  import opened DescriptorSpec

  class TypeDescriptor {
    /** `type`: None only for NULL. */
    const declaredType: Option<ClassId>
    /** `methodParameter`, `field` and `fieldNestingLevel`. */
    const site: Site
    /** What a constructor stored in the memo fields up front. */
    const preset: Preset

    /** The memo fields, null until first read (or preset by a constructor). */
    var elementType: TypeDescriptor?
    var mapKeyType: TypeDescriptor?
    var mapValueType: TypeDescriptor?
    var annotations: Option<seq<Annotation>>

    /** The value this descriptor stands for. */
    function Identity(): Id {
      if declaredType.None? then NullId else Id(declaredType.value, site, preset)
    }

    /** No memo field has been filled yet. */
    ghost predicate Unset()
      reads this
    {
      elementType == null && mapKeyType == null && mapValueType == null && annotations.None?
    }

    /** Every filled memo field holds a known descriptor with the identity the specification gives it. */
    ghost predicate Sound(w: Jvm, all: set<TypeDescriptor>)
      reads this
    {
      && (preset.PresetElement? ==> elementType != null)
      && (preset.PresetKeyValue? ==> mapKeyType != null && mapValueType != null)
      && (elementType != null ==> elementType in all && elementType.Identity() == ElementId(w, Identity()))
      && (mapKeyType != null ==> mapKeyType in all && mapKeyType.Identity() == KeyId(w, Identity()))
      && (mapValueType != null ==> mapValueType in all && mapValueType.Identity() == ValueId(w, Identity()))
      && (annotations.Some? ==> annotations.value == ResolveAnnotations(w, Identity()))
    }

    /** The private no-argument constructor, used once for NULL. */
    constructor Null()
      ensures declaredType.None? && site == NoSite && preset == NoPreset && Unset()
    {
      declaredType, site, preset := None, NoSite, NoPreset;
      elementType, mapKeyType, mapValueType, annotations := null, null, null, None;
    }

    /**
     * A descriptor of `t` at `s`: the private class constructor (no site), the
     * private field constructor (a field at a nesting level) and the body of the
     * parameter constructors.
     */
    constructor (t: ClassId, s: Site)
      ensures Identity() == Id(t, s, NoPreset) && site == s && Unset()
    {
      declaredType, site, preset := Some(t), s, NoPreset;
      elementType, mapKeyType, mapValueType, annotations := null, null, null, None;
    }

    /** The private collection constructor: the element descriptor is fixed up front. */
    constructor WithElement(t: ClassId, e: ClassId, ed: TypeDescriptor)
      ensures Identity() == Id(t, NoSite, PresetElement(e)) && site == NoSite
      ensures elementType == ed && mapKeyType == null && mapValueType == null && annotations.None?
    {
      declaredType, site, preset := Some(t), NoSite, PresetElement(e);
      elementType, mapKeyType, mapValueType, annotations := ed, null, null, None;
    }

    /** The private map constructor: key and value descriptors are fixed up front. */
    constructor WithKeyValue(t: ClassId, k: ClassId, kd: TypeDescriptor, v: ClassId, vd: TypeDescriptor)
      ensures Identity() == Id(t, NoSite, PresetKeyValue(k, v)) && site == NoSite
      ensures elementType == null && mapKeyType == kd && mapValueType == vd && annotations.None?
    {
      declaredType, site, preset := Some(t), NoSite, PresetKeyValue(k, v);
      elementType, mapKeyType, mapValueType, annotations := null, kd, vd, None;
    }

    /** `isArray`: dereferences the type, so NULL throws. */
    method IsArray() returns (res: Result<bool, Failure>)
      ensures Identity() == NullId ==> res == Failure(NullPointer)
      ensures Identity().Id? ==> res == Success(IsArrayClass(Identity().declared))
    {
      if declaredType.None? {
        return Failure(NullPointer);
      }
      res := Success(IsArrayClass(declaredType.value));
    }

    /** `isCollection`: dereferences the type, so NULL throws. */
    method IsCollection(w: Jvm) returns (res: Result<bool, Failure>)
      ensures Identity() == NullId ==> res == Failure(NullPointer)
      ensures Identity().Id? ==> res == Success(IsCollectionClass(w, Identity().declared))
    {
      if declaredType.None? {
        return Failure(NullPointer);
      }
      res := Success(w.assignableFrom(CollectionClass, declaredType.value));
    }

    /** `isMap`: dereferences the type, so NULL throws. */
    method IsMap(w: Jvm) returns (res: Result<bool, Failure>)
      ensures Identity() == NullId ==> res == Failure(NullPointer)
      ensures Identity().Id? ==> res == Success(IsMapClass(w, Identity().declared))
    {
      if declaredType.None? {
        return Failure(NullPointer);
      }
      res := Success(w.assignableFrom(MapClass, declaredType.value));
    }

    /** `getAnnotations`: resolved on first call, then the same array every time. */
    method GetAnnotations(r: DescriptorHeap) returns (anns: seq<Annotation>)
      requires r.Valid() && this in r.all
      modifies this
      ensures r.Valid() && r.Grew()
      ensures anns == ResolveAnnotations(r.jvm, Identity()) && annotations == Some(anns)
      ensures elementType == old(elementType) && mapKeyType == old(mapKeyType) && mapValueType == old(mapValueType)
    {
      assert Sound(r.jvm, r.all);
      if annotations.None? {
        annotations := Some(ResolveAnnotations(r.jvm, Identity()));
        r.SoundAfterMemo(this);
      }
      anns := annotations.value;
    }

    /** `getAnnotation`: the first annotation of the given annotation type, or null. */
    method GetAnnotation(r: DescriptorHeap, annotationType: string) returns (a: Option<Annotation>)
      requires r.Valid() && this in r.all
      modifies this
      ensures r.Valid() && r.Grew() && annotations == Some(ResolveAnnotations(r.jvm, Identity()))
      ensures elementType == old(elementType) && mapKeyType == old(mapKeyType) && mapValueType == old(mapValueType)
      ensures a.Some? ==> exists k :: FirstOfType(ResolveAnnotations(r.jvm, Identity()), annotationType, k) && a.value == ResolveAnnotations(r.jvm, Identity())[k]
      ensures a.None? ==> forall k :: 0 <= k < |ResolveAnnotations(r.jvm, Identity())| ==> ResolveAnnotations(r.jvm, Identity())[k].annotationType != annotationType
    {
      var anns := GetAnnotations(r);
      var i := 0;
      while i < |anns|
        invariant 0 <= i <= |anns|
        invariant forall k :: 0 <= k < i ==> anns[k].annotationType != annotationType
        modifies {}
      {
        if anns[i].annotationType == annotationType {
          assert FirstOfType(anns, annotationType, i);
          return Some(anns[i]);
        }
        i := i + 1;
      }
      return None;
    }

    /**
     * `createComponentTypeDescriptor`: a parameter site yields a new descriptor one
     * nesting level deeper, a field site one with the next field nesting level, and
     * no site yields `valueOf(componentType)`; an absent class becomes Object.
     */
    method CreateComponentTypeDescriptor(r: DescriptorHeap, c: Option<ClassId>) returns (d: TypeDescriptor)
      requires r.Valid() && this in r.all
      modifies r
      ensures r.Valid() && r.Grew()
      ensures d in r.all && d.Identity() == ComponentId(SiteOf(Identity()), c)
      ensures site.NoSite? && c.GetOr(ObjectClass) in r.cache ==> d == r.cache[c.GetOr(ObjectClass)] && r.all == old(r.all)
      ensures !(site.NoSite? && c.GetOr(ObjectClass) in r.cache) ==> fresh(d) && d.Unset()
    {
      var ct := c.GetOr(ObjectClass);
      match site
      case ParameterSite(mp) =>
        d := new TypeDescriptor(ct, ParameterSite(mp.Nested()));
        r.Adopt(d);
      case FieldSite(f, level) =>
        d := new TypeDescriptor(ct, FieldSite(f, level + 1));
        r.Adopt(d);
      case NoSite =>
        d := r.ValueOf(Some(ct));
    }

    /** `getElementTypeDescriptor`: only for collections and arrays; resolved once, then the same instance. */
    method GetElementTypeDescriptor(r: DescriptorHeap) returns (res: Result<TypeDescriptor, Failure>)
      requires r.Valid() && this in r.all
      modifies this, r
      ensures r.Valid() && r.Grew()
      ensures mapKeyType == old(mapKeyType) && mapValueType == old(mapValueType) && annotations == old(annotations)
      ensures Identity() == NullId ==> res == Failure(NullPointer) && elementType == old(elementType)
      ensures Identity().Id? && !IsCollectionClass(r.jvm, Identity().declared) && !IsArrayClass(Identity().declared) ==>
                res == Failure(IllegalState(NotCollectionOrArray)) && elementType == old(elementType)
      ensures Identity().Id? && (IsCollectionClass(r.jvm, Identity().declared) || IsArrayClass(Identity().declared)) ==>
                && res.Success? && res.value == elementType && res.value in r.all
                && res.value.Identity() == ElementId(r.jvm, Identity())
      ensures old(elementType) != null && res.Success? ==> res.value == old(elementType)
      ensures old(elementType) == null && res.Success? && res.value.Identity().Id? && site.NoSite? && res.value.Identity().declared in r.cache ==>
                res.value == r.cache[res.value.Identity().declared]
      ensures old(elementType) == null && res.Success? && res.value.Identity().Id? && !(site.NoSite? && res.value.Identity().declared in r.cache) ==> fresh(res.value)
    {
      if declaredType.None? {
        return Failure(NullPointer);
      }
      var t := declaredType.value;
      if !r.jvm.assignableFrom(CollectionClass, t) && !IsArrayClass(t) {
        return Failure(IllegalState(NotCollectionOrArray));
      }
      assert Sound(r.jvm, r.all);
      if elementType == null {
        var e: TypeDescriptor;
        if r.jvm.assignableFrom(CollectionClass, t) {
          e := CreateComponentTypeDescriptor(r, r.jvm.resolve(ElementRole, SourceOf(Identity())));
        } else {
          e := CreateComponentTypeDescriptor(r, ComponentType(t));
        }
        assert Sound(r.jvm, r.all);
        label Resolved:
        elementType := e;
        r.SoundAfterMemo@Resolved(this);
      }
      res := Success(elementType);
    }

    /** `getMapKeyTypeDescriptor`: only for maps; resolved once, then the same instance. */
    method GetMapKeyTypeDescriptor(r: DescriptorHeap) returns (res: Result<TypeDescriptor, Failure>)
      requires r.Valid() && this in r.all
      modifies this, r
      ensures r.Valid() && r.Grew()
      ensures elementType == old(elementType) && mapValueType == old(mapValueType) && annotations == old(annotations)
      ensures Identity() == NullId ==> res == Failure(NullPointer) && mapKeyType == old(mapKeyType)
      ensures Identity().Id? && !IsMapClass(r.jvm, Identity().declared) ==>
                res == Failure(IllegalState(NotMap)) && mapKeyType == old(mapKeyType)
      ensures Identity().Id? && IsMapClass(r.jvm, Identity().declared) ==>
                && res.Success? && res.value == mapKeyType && res.value in r.all
                && res.value.Identity() == KeyId(r.jvm, Identity())
      ensures old(mapKeyType) != null && res.Success? ==> res.value == old(mapKeyType)
      ensures old(mapKeyType) == null && res.Success? && res.value.Identity().Id? && site.NoSite? && res.value.Identity().declared in r.cache ==>
                res.value == r.cache[res.value.Identity().declared]
      ensures old(mapKeyType) == null && res.Success? && res.value.Identity().Id? && !(site.NoSite? && res.value.Identity().declared in r.cache) ==> fresh(res.value)
    {
      if declaredType.None? {
        return Failure(NullPointer);
      }
      if !r.jvm.assignableFrom(MapClass, declaredType.value) {
        return Failure(IllegalState(NotMap));
      }
      assert Sound(r.jvm, r.all);
      if mapKeyType == null {
        var k := CreateComponentTypeDescriptor(r, r.jvm.resolve(KeyRole, SourceOf(Identity())));
        assert Sound(r.jvm, r.all);
        label Resolved:
        mapKeyType := k;
        r.SoundAfterMemo@Resolved(this);
      }
      res := Success(mapKeyType);
    }

    /** `getMapValueTypeDescriptor`: no map check, so it answers for any descriptor, NULL included. */
    method GetMapValueTypeDescriptor(r: DescriptorHeap) returns (v: TypeDescriptor)
      requires r.Valid() && this in r.all
      modifies this, r
      ensures r.Valid() && r.Grew()
      ensures elementType == old(elementType) && mapKeyType == old(mapKeyType) && annotations == old(annotations)
      ensures v == mapValueType && v in r.all && v.Identity() == ValueId(r.jvm, Identity())
      ensures old(mapValueType) != null ==> v == old(mapValueType)
      ensures old(mapValueType) == null && v.Identity().Id? && site.NoSite? && v.Identity().declared in r.cache ==>
                v == r.cache[v.Identity().declared]
      ensures old(mapValueType) == null && v.Identity().Id? && !(site.NoSite? && v.Identity().declared in r.cache) ==> fresh(v)
    {
      assert Sound(r.jvm, r.all);
      if mapValueType == null {
        var d := CreateComponentTypeDescriptor(r, r.jvm.resolve(ValueRole, SourceOf(Identity())));
        assert Sound(r.jvm, r.all);
        label Resolved:
        mapValueType := d;
        r.SoundAfterMemo@Resolved(this);
      }
      v := mapValueType;
    }

    /** `isAssignableTo`, evaluated with Java's short-circuiting, filling memo fields on the way. */
    method IsAssignableTo(r: DescriptorHeap, target: TypeDescriptor) returns (b: bool)
      requires r.Valid() && FinitelyNested(r.jvm) && this in r.all && target in r.all
      modifies r, r.all
      ensures r.Valid() && r.Grew()
      ensures b == Assignable(r.jvm, Identity(), target.Identity())
      decreases Rank(r.jvm, Identity()), 2
    {
      if this == r.NULL || target == r.NULL {
        return true;
      }
      var w := r.jvm;
      var t, u := declaredType.value, target.declaredType.value;
      if (w.assignableFrom(CollectionClass, t) && w.assignableFrom(CollectionClass, u)) || (IsArrayClass(t) && IsArrayClass(u)) {
        if !w.assignableFrom(u, t) {
          return false;
        }
        b := ElementsAssignableTo(r, target);
      } else if w.assignableFrom(MapClass, t) && w.assignableFrom(MapClass, u) {
        if !w.assignableFrom(u, t) {
          return false;
        }
        b := EntriesAssignableTo(r, target);
      } else {
        b := w.assignableFrom(Box(u), Box(t));
      }
    }

    /** The element step of `isAssignableTo` for two collections or two arrays. */
    method ElementsAssignableTo(r: DescriptorHeap, target: TypeDescriptor) returns (b: bool)
      requires r.Valid() && FinitelyNested(r.jvm) && this in r.all && target in r.all
      requires Identity().Id? && target.Identity().Id?
      requires IsCollectionClass(r.jvm, Identity().declared) || IsArrayClass(Identity().declared)
      requires IsCollectionClass(r.jvm, target.Identity().declared) || IsArrayClass(target.Identity().declared)
      modifies r, r.all
      ensures r.Valid() && r.Grew()
      ensures b == Assignable(r.jvm, ElementId(r.jvm, Identity()), ElementId(r.jvm, target.Identity()))
      decreases Rank(r.jvm, Identity()), 0
    {
      ChildRanks(r.jvm, Identity());
      var se := GetElementTypeDescriptor(r);
      var te := target.GetElementTypeDescriptor(r);
      b := se.value.IsAssignableTo(r, te.value);
    }

    /** The key and value steps of `isAssignableTo` for two maps; the value step only runs when the keys are assignable. */
    method EntriesAssignableTo(r: DescriptorHeap, target: TypeDescriptor) returns (b: bool)
      requires r.Valid() && FinitelyNested(r.jvm) && this in r.all && target in r.all
      requires Identity().Id? && target.Identity().Id?
      requires IsMapClass(r.jvm, Identity().declared) && IsMapClass(r.jvm, target.Identity().declared)
      modifies r, r.all
      ensures r.Valid() && r.Grew()
      ensures b == (Assignable(r.jvm, KeyId(r.jvm, Identity()), KeyId(r.jvm, target.Identity()))
                    && Assignable(r.jvm, ValueId(r.jvm, Identity()), ValueId(r.jvm, target.Identity())))
      decreases Rank(r.jvm, Identity()), 1
    {
      b := KeysAssignableTo(r, target);
      if b {
        b := ValuesAssignableTo(r, target);
      }
    }

    /** `getMapKeyTypeDescriptor().isAssignableTo(targetType.getMapKeyTypeDescriptor())` for two maps. */
    method KeysAssignableTo(r: DescriptorHeap, target: TypeDescriptor) returns (b: bool)
      requires r.Valid() && FinitelyNested(r.jvm) && this in r.all && target in r.all
      requires Identity().Id? && target.Identity().Id?
      requires IsMapClass(r.jvm, Identity().declared) && IsMapClass(r.jvm, target.Identity().declared)
      modifies r, r.all
      ensures r.Valid() && r.Grew()
      ensures b == Assignable(r.jvm, KeyId(r.jvm, Identity()), KeyId(r.jvm, target.Identity()))
      decreases Rank(r.jvm, Identity()), 0
    {
      ChildRanks(r.jvm, Identity());
      var sk := GetMapKeyTypeDescriptor(r);
      var tk := target.GetMapKeyTypeDescriptor(r);
      b := sk.value.IsAssignableTo(r, tk.value);
    }

    /** `getMapValueTypeDescriptor().isAssignableTo(targetType.getMapValueTypeDescriptor())`. */
    method ValuesAssignableTo(r: DescriptorHeap, target: TypeDescriptor) returns (b: bool)
      requires r.Valid() && FinitelyNested(r.jvm) && this in r.all && target in r.all
      requires Identity().Id? && target.Identity().Id?
      requires IsMapClass(r.jvm, Identity().declared) && IsMapClass(r.jvm, target.Identity().declared)
      modifies r, r.all
      ensures r.Valid() && r.Grew()
      ensures b == Assignable(r.jvm, ValueId(r.jvm, Identity()), ValueId(r.jvm, target.Identity()))
      decreases Rank(r.jvm, Identity()), 0
    {
      ChildRanks(r.jvm, Identity());
      var sv := GetMapValueTypeDescriptor(r);
      var tv := target.GetMapValueTypeDescriptor(r);
      b := sv.IsAssignableTo(r, tv);
    }

    /** `equals` against a descriptor, or against anything else when `obj` is null. */
    method Equals(r: DescriptorHeap, obj: TypeDescriptor?) returns (res: Result<bool, Failure>)
      requires r.Valid() && this in r.all && (obj != null ==> obj in r.all)
      modifies r, r.all
      ensures r.Valid() && r.Grew()
      ensures res == Equal(r.jvm, Identity(), if obj == null then None else Some(obj.Identity()))
    {
      if this == obj {
        return Success(true);
      }
      if obj == null || obj == r.NULL {
        return Success(false);
      }
      if declaredType.None? {
        return Failure(NullPointer);
      }
      var w := r.jvm;
      var t := declaredType.value;
      var annotatedTypeEquals := AnnotatedTypeEquals(r, obj);
      if w.assignableFrom(CollectionClass, t) {
        if !annotatedTypeEquals {
          return Success(false);
        }
        var e1 := GetElementTypeDescriptor(r);
        var e2 := obj.GetElementTypeDescriptor(r);
        res := Success(e1.value.declaredType == e2.value.declaredType);
      } else if w.assignableFrom(MapClass, t) {
        if !annotatedTypeEquals {
          return Success(false);
        }
        var b := EntryTypesEqual(r, obj);
        res := Success(b);
      } else {
        res := Success(annotatedTypeEquals);
      }
    }

    /** `equals` with the receiver's NULL case decided by identity first, as `equals` evidently intends. */
    method EqualsCorrected(r: DescriptorHeap, obj: TypeDescriptor?) returns (b: bool)
      requires r.Valid() && this in r.all && (obj != null ==> obj in r.all)
      modifies r, r.all
      ensures r.Valid() && r.Grew()
      ensures b == EqualCorrected(r.jvm, Identity(), if obj == null then None else Some(obj.Identity()))
    {
      if this == r.NULL {
        return this == obj;
      }
      var res := Equals(r, obj);
      b := res.Success? && res.value;
    }

    /** The first conjunct of `equals`: the same declared type, then the same annotations. */
    method AnnotatedTypeEquals(r: DescriptorHeap, obj: TypeDescriptor) returns (b: bool)
      requires r.Valid() && this in r.all && obj in r.all && Identity().Id? && obj.Identity().Id?
      modifies this, obj
      ensures r.Valid() && r.Grew()
      ensures b == (Identity().declared == obj.Identity().declared && ResolveAnnotations(r.jvm, Identity()) == ResolveAnnotations(r.jvm, obj.Identity()))
    {
      b := false;
      if declaredType == obj.declaredType {
        var mine := GetAnnotations(r);
        var theirs := obj.GetAnnotations(r);
        b := mine == theirs;
      }
    }

    /** The map step of `equals`: equal key classes, then equal value classes. */
    method EntryTypesEqual(r: DescriptorHeap, obj: TypeDescriptor) returns (b: bool)
      requires r.Valid() && this in r.all && obj in r.all && Identity().Id? && obj.Identity().Id?
      requires IsMapClass(r.jvm, Identity().declared) && IsMapClass(r.jvm, obj.Identity().declared)
      modifies r, r.all
      ensures r.Valid() && r.Grew()
      ensures b == (KeyId(r.jvm, Identity()).declared == KeyId(r.jvm, obj.Identity()).declared
                    && ValueId(r.jvm, Identity()).declared == ValueId(r.jvm, obj.Identity()).declared)
    {
      var k1 := GetMapKeyTypeDescriptor(r);
      var k2 := obj.GetMapKeyTypeDescriptor(r);
      if k1.value.declaredType != k2.value.declaredType {
        return false;
      }
      var v1 := GetMapValueTypeDescriptor(r);
      var v2 := obj.GetMapValueTypeDescriptor(r);
      b := v1.declaredType == v2.declaredType;
    }

    /** `hashCode`: 0 for NULL, otherwise the declared class's hash. */
    method HashCode(r: DescriptorHeap) returns (h: int)
      requires r.Valid() && this in r.all
      ensures h == DescriptorSpec.HashCode(r.jvm, Identity())
    {
      h := if this == r.NULL then 0 else r.jvm.classHash(declaredType.value);
    }

    /** `toString`: builds the rendering with a string builder, recursing into sub-descriptors. */
    method ToString(r: DescriptorHeap) returns (s: string)
      requires r.Valid() && FinitelyNested(r.jvm) && this in r.all
      modifies r, r.all
      ensures r.Valid() && r.Grew()
      ensures s == Render(r.jvm, Identity())
      decreases Rank(r.jvm, Identity()), 1
    {
      if this == r.NULL {
        return "null";
      }
      var w := r.jvm;
      var t := declaredType.value;
      ChildRanks(w, Identity());
      var anns := GetAnnotations(r);
      var builder := AnnotationsText(anns);
      builder := builder + QualifiedName(t);
      if w.assignableFrom(MapClass, t) {
        builder := AppendEntries(r, builder);
      } else if w.assignableFrom(CollectionClass, t) {
        var e := GetElementTypeDescriptor(r);
        var es := e.value.ToString(r);
        builder := builder + "<" + es + ">";
      }
      s := builder;
    }

    /** The map part of `toString`: appends the key and value descriptors' renderings in angle brackets. */
    method AppendEntries(r: DescriptorHeap, builder: string) returns (s: string)
      requires r.Valid() && FinitelyNested(r.jvm) && this in r.all && Identity().Id? && IsMapClass(r.jvm, Identity().declared)
      modifies r, r.all
      ensures r.Valid() && r.Grew()
      ensures s == builder + "<" + Render(r.jvm, KeyId(r.jvm, Identity())) + ", " + Render(r.jvm, ValueId(r.jvm, Identity())) + ">"
      decreases Rank(r.jvm, Identity()), 0
    {
      ChildRanks(r.jvm, Identity());
      var k := GetMapKeyTypeDescriptor(r);
      var ks := k.value.ToString(r);
      var v := GetMapValueTypeDescriptor(r);
      var vs := v.ToString(r);
      s := builder + "<" + ks;
      s := s + ", " + vs + ">";
    }

    /** The annotation loop of `toString`: "@" and the annotation type's name, then a space, for each annotation in order. */
    static method AnnotationsText(anns: seq<Annotation>) returns (builder: string)
      ensures builder == AnnotationPrefix(anns)
    {
      builder := "";
      for i := 0 to |anns|
        invariant builder == AnnotationPrefix(anns[..i])
      {
        assert anns[..i + 1] == anns[..i] + [anns[i]];
        AnnotationPrefixAppend(anns[..i], [anns[i]]);
        builder := builder + "@" + anns[i].annotationType + " ";
      }
      assert anns[..|anns|] == anns;
    }

    /** `applyType`: this descriptor for null, otherwise the descriptor of the object's runtime class. */
    method ApplyType(r: DescriptorHeap, o: Option<ObjectRef>) returns (d: TypeDescriptor)
      requires r.Valid() && this in r.all
      modifies r
      ensures r.Valid() && r.Grew() && d in r.all
      ensures o.None? ==> d == this
      ensures o.Some? ==> d.Identity() == ObjectId(r.jvm, o)
      ensures o.Some? && (IsCollectionClass(r.jvm, r.jvm.classOf(o.value)) || IsMapClass(r.jvm, r.jvm.classOf(o.value))) ==> fresh(d)
      ensures o.Some? && !IsCollectionClass(r.jvm, r.jvm.classOf(o.value)) && !IsMapClass(r.jvm, r.jvm.classOf(o.value)) ==>
                && (r.jvm.classOf(o.value) in r.cache ==> d == r.cache[r.jvm.classOf(o.value)])
                && (r.jvm.classOf(o.value) !in r.cache ==> fresh(d) && d.Unset())
    {
      if o.None? {
        return this;
      }
      d := r.ForObject(o);
    }
  }

  /** `getAnnotation`'s choice: index `k` holds the first annotation of the type. */
  ghost predicate FirstOfType(anns: seq<Annotation>, annotationType: string, k: int) {
    && 0 <= k < |anns|
    && anns[k].annotationType == annotationType
    && forall j :: 0 <= j < k ==> anns[j].annotationType != annotationType
  }

  /**
   * The static state of TypeDescriptor (NULL and the shared scalar table),
   * together with the set of descriptors allocated so far.
   */
  class DescriptorHeap {
    const jvm: Jvm
    const NULL: TypeDescriptor
    /** `typeDescriptorCache`. */
    var cache: map<ClassId, TypeDescriptor>
    /** Every descriptor created so far; memo fields only ever point inside it. */
    ghost var all: set<TypeDescriptor>

    /**
     * NULL is the only descriptor without a type, each shared descriptor is the
     * plain descriptor of its class, and every descriptor's memo fields are sound.
     */
    ghost predicate Valid()
      reads this, all
    {
      && NULL in all
      && NULL.declaredType.None? && NULL.site == NoSite
      && (forall d :: d in all && d.declaredType.None? ==> d == NULL)
      && (forall c :: c in cache ==> cache[c] in all && cache[c].Identity() == Id(c, NoSite, NoPreset))
      && (forall d {:trigger d.Sound(jvm, all)} :: d in all ==> d.Sound(jvm, all))
    }

    /**
     * Descriptors are only added, the shared table does not change, and a memo
     * field that was filled keeps the very instance (or array) it held.
     */
    twostate predicate Grew()
      reads this, all
    {
      && old(all) <= all
      && fresh(all - old(all))
      && cache == old(cache)
      && (forall d :: d in old(all) ==>
            && (old(d.elementType) != null ==> d.elementType == old(d.elementType))
            && (old(d.mapKeyType) != null ==> d.mapKeyType == old(d.mapKeyType))
            && (old(d.mapValueType) != null ==> d.mapValueType == old(d.mapValueType))
            && (old(d.annotations).Some? ==> d.annotations == old(d.annotations)))
    }

    /** The static initializer: NULL, then one new shared descriptor per cached class. */
    constructor (w: Jvm)
      ensures Valid() && jvm == w
      ensures cache.Keys == CachedClasses
      ensures fresh(all)
    {
      jvm := w;
      NULL := new TypeDescriptor.Null();
      cache := map[];
      all := {NULL};
      new;
      PutCachedClasses();
    }

    /** The body of the static block after NULL: the puts of every cached class, in the source's order. */
    method PutCachedClasses()
      requires Valid()
      modifies this
      ensures Valid()
      ensures cache.Keys == old(cache.Keys) + CachedClasses
      ensures forall c :: c in CachedClasses ==> fresh(cache[c])
      ensures old(all) <= all && fresh(all - old(all))
    {
      PutAll(InitializerClasses);
      InitializerClassesAreCached();
    }

    /** The puts of the static block, in order: each class of `cs` gets a new shared descriptor. */
    method PutAll(cs: seq<ClassId>)
      requires Valid()
      modifies this
      decreases |cs|
      ensures Valid()
      ensures cache.Keys == old(cache.Keys) + (set c | c in cs)
      ensures forall k :: k in old(cache) && k !in cs ==> cache[k] == old(cache[k])
      ensures forall c :: c in cs ==> fresh(cache[c])
      ensures old(all) <= all && fresh(all - old(all))
    {
      if cs != [] {
        Put(cs[0]);
        PutAll(cs[1..]);
        assert cs == [cs[0]] + cs[1..];
      }
    }

    /** `typeDescriptorCache.put(c, new TypeDescriptor(c))`. */
    method Put(c: ClassId)
      requires Valid()
      modifies this
      ensures Valid()
      ensures cache.Keys == old(cache.Keys) + {c}
      ensures forall k :: k in old(cache) && k != c ==> cache[k] == old(cache[k])
      ensures fresh(cache[c]) && all == old(all) + {cache[c]}
    {
      var d := new TypeDescriptor(c, NoSite);
      ghost var before := all;
      all := all + {d};
      cache := cache[c := d];
      forall x | x in all ensures x.Sound(jvm, all) {
        if x != d {
          assert x.Sound(jvm, before);
        }
      }
    }

    /** Records a freshly allocated descriptor whose memo fields point at known descriptors. */
    method Adopt(d: TypeDescriptor)
      requires Valid() && d !in all && d.declaredType.Some? && d.Sound(jvm, all + {d})
      modifies this
      ensures Valid() && all == old(all) + {d} && cache == old(cache)
    {
      ghost var before := all;
      all := all + {d};
      forall x | x in all ensures x.Sound(jvm, all) {
        if x != d {
          assert x.Sound(jvm, before);
        }
      }
    }

    /** After a memo field of `d` is filled consistently, the heap is valid again. */
    twostate lemma SoundAfterMemo(d: TypeDescriptor)
      requires old(Valid()) && d in all && all == old(all) && cache == old(cache)
      requires d.Sound(jvm, all)
      requires forall x :: x in all && x != d ==> unchanged(x)
      ensures Valid()
    {
      forall x | x in all ensures x.Sound(jvm, all) {
        if x != d {
          assert old(x.Sound(jvm, all));
        }
      }
    }

    /** `valueOf`: NULL for null, the shared descriptor for a cached class, a new one otherwise. */
    method ValueOf(c: Option<ClassId>) returns (d: TypeDescriptor)
      requires Valid()
      modifies this
      ensures Valid() && Grew() && d in all
      ensures c.None? ==> d == NULL
      ensures c.Some? ==> d.Identity() == Id(c.value, NoSite, NoPreset)
      ensures c.Some? && c.value in cache ==> d == cache[c.value] && all == old(all)
      ensures c.Some? && c.value !in cache ==> fresh(d) && d.Unset()
    {
      if c.None? {
        return NULL;
      }
      if c.value in cache {
        d := cache[c.value];
      } else {
        d := new TypeDescriptor(c.value, NoSite);
        Adopt(d);
      }
    }

    /** `forObject`: NULL for null; collections and maps get the common classes of their contents. */
    method ForObject(o: Option<ObjectRef>) returns (d: TypeDescriptor)
      requires Valid()
      modifies this
      ensures Valid() && Grew() && d in all
      ensures d.Identity() == ObjectId(jvm, o)
      ensures o.None? ==> d == NULL
      ensures o.Some? && (IsCollectionClass(jvm, jvm.classOf(o.value)) || IsMapClass(jvm, jvm.classOf(o.value))) ==> fresh(d)
      ensures o.Some? && !IsCollectionClass(jvm, jvm.classOf(o.value)) && !IsMapClass(jvm, jvm.classOf(o.value)) ==>
                && (jvm.classOf(o.value) in cache ==> d == cache[jvm.classOf(o.value)])
                && (jvm.classOf(o.value) !in cache ==> fresh(d) && d.Unset())
      ensures o.Some? && IsCollectionClass(jvm, jvm.classOf(o.value)) ==>
                var e := jvm.commonType(o.value, ElementRole).GetOr(ObjectClass);
                && (e in cache ==> d.elementType == cache[e])
                && (e !in cache ==> fresh(d.elementType))
      ensures o.Some? && !IsCollectionClass(jvm, jvm.classOf(o.value)) && IsMapClass(jvm, jvm.classOf(o.value)) ==>
                var k, v := jvm.commonType(o.value, KeyRole).GetOr(ObjectClass), jvm.commonType(o.value, ValueRole).GetOr(ObjectClass);
                && (k in cache ==> d.mapKeyType == cache[k])
                && (k !in cache ==> fresh(d.mapKeyType))
                && (v in cache ==> d.mapValueType == cache[v])
                && (v !in cache ==> fresh(d.mapValueType))
    {
      if o.None? {
        return NULL;
      }
      var x := o.value;
      var c := jvm.classOf(x);
      if jvm.assignableFrom(CollectionClass, c) {
        d := ForCollection(x);
      } else if jvm.assignableFrom(MapClass, c) {
        d := ForMap(x);
      } else {
        d := ValueOf(Some(c));
      }
    }

    /** The collection branch of `forObject`: the collection constructor with `valueOf` of the common element class. */
    method ForCollection(x: ObjectRef) returns (d: TypeDescriptor)
      requires Valid()
      modifies this
      ensures Valid() && Grew() && d in all && fresh(d)
      ensures d.Identity() == Id(jvm.classOf(x), NoSite, PresetElement(jvm.commonType(x, ElementRole).GetOr(ObjectClass)))
      ensures var e := jvm.commonType(x, ElementRole).GetOr(ObjectClass);
              && (e in cache ==> d.elementType == cache[e])
              && (e !in cache ==> fresh(d.elementType))
    {
      var e := jvm.commonType(x, ElementRole).GetOr(ObjectClass);
      var ed := ValueOf(Some(e));
      d := new TypeDescriptor.WithElement(jvm.classOf(x), e, ed);
      Adopt(d);
    }

    /** The map branch of `forObject`: the map constructor with `valueOf` of the common key and value classes. */
    method ForMap(x: ObjectRef) returns (d: TypeDescriptor)
      requires Valid()
      modifies this
      ensures Valid() && Grew() && d in all && fresh(d)
      ensures d.Identity() == Id(jvm.classOf(x), NoSite,
                            PresetKeyValue(jvm.commonType(x, KeyRole).GetOr(ObjectClass), jvm.commonType(x, ValueRole).GetOr(ObjectClass)))
      ensures var k, v := jvm.commonType(x, KeyRole).GetOr(ObjectClass), jvm.commonType(x, ValueRole).GetOr(ObjectClass);
              && (k in cache ==> d.mapKeyType == cache[k])
              && (k !in cache ==> fresh(d.mapKeyType))
              && (v in cache ==> d.mapValueType == cache[v])
              && (v !in cache ==> fresh(d.mapValueType))
    {
      var k := jvm.commonType(x, KeyRole).GetOr(ObjectClass);
      var v := jvm.commonType(x, ValueRole).GetOr(ObjectClass);
      var kd := ValueOf(Some(k));
      var vd := ValueOf(Some(v));
      d := new TypeDescriptor.WithKeyValue(jvm.classOf(x), k, kd, v, vd);
      Adopt(d);
    }

    /** The method-parameter constructor; a null parameter is rejected. */
    method ForMethodParameter(mp: Option<MethodParameter>) returns (res: Result<TypeDescriptor, Failure>)
      requires Valid()
      modifies this
      ensures Valid() && Grew()
      ensures mp.None? ==> res == Failure(IllegalArgument("MethodParameter must not be null")) && all == old(all)
      ensures mp.Some? ==> && res.Success? && fresh(res.value) && res.value in all && res.value.Unset()
                           && res.value.Identity() == Id(jvm.parameterType(mp.value), ParameterSite(mp.value), NoPreset)
    {
      if mp.None? {
        return Failure(IllegalArgument("MethodParameter must not be null"));
      }
      var d := new TypeDescriptor(jvm.parameterType(mp.value), ParameterSite(mp.value));
      Adopt(d);
      res := Success(d);
    }

    /** The field constructor; a null field is rejected, the nesting level starts at 1. */
    method ForField(f: Option<FieldRef>) returns (res: Result<TypeDescriptor, Failure>)
      requires Valid()
      modifies this
      ensures Valid() && Grew()
      ensures f.None? ==> res == Failure(IllegalArgument("Field must not be null")) && all == old(all)
      ensures f.Some? ==> && res.Success? && fresh(res.value) && res.value in all && res.value.Unset()
                          && res.value.Identity() == Id(jvm.fieldType(f.value), FieldSite(f.value, 1), NoPreset)
    {
      if f.None? {
        return Failure(IllegalArgument("Field must not be null"));
      }
      var d := new TypeDescriptor(jvm.fieldType(f.value), FieldSite(f.value, 1));
      Adopt(d);
      res := Success(d);
    }

    /** The public (componentType, methodParameter) constructor: a null class becomes Object. */
    method ForComponentType(c: Option<ClassId>, mp: Option<MethodParameter>) returns (d: TypeDescriptor)
      requires Valid()
      modifies this
      ensures Valid() && Grew() && fresh(d) && d in all && d.Unset()
      ensures d.Identity() == Id(c.GetOr(ObjectClass), if mp.Some? then ParameterSite(mp.value) else NoSite, NoPreset)
    {
      d := new TypeDescriptor(c.GetOr(ObjectClass), if mp.Some? then ParameterSite(mp.value) else NoSite);
      Adopt(d);
    }
  }

  /**
   * The element descriptor of `valueOf(String[].class)` is the shared descriptor
   * `valueOf(String.class)`: an array without a site resolves its component via `valueOf`.
   */
  method StringArrayElementIsShared(w: Jvm) returns (e: TypeDescriptor, s: TypeDescriptor)
    requires !IsCollectionClass(w, ArrayClass(StringClass))
    ensures e == s && s.Identity() == Id(StringClass, NoSite, NoPreset)
  {
    var r := new DescriptorHeap(w);
    StringIsCached();
    ArraysNotCached(ArrayClass(StringClass));
    assert StringClass in r.cache && ArrayClass(StringClass) !in r.cache;
    ghost var shared := r.cache[StringClass];
    var a := r.ValueOf(Some(ArrayClass(StringClass)));
    assert a.Identity() == Id(ArrayClass(StringClass), NoSite, NoPreset) && a.elementType == null;
    assert ElementId(w, a.Identity()) == Id(StringClass, NoSite, NoPreset);
    var res := a.GetElementTypeDescriptor(r);
    e := res.value;
    assert e == shared;
    s := r.ValueOf(Some(StringClass));
  }

  /** `forObject` of a collection whose elements are all strings presets the shared `valueOf(String.class)`. */
  method StringListElementIsShared(w: Jvm, list: ObjectRef) returns (e: TypeDescriptor, s: TypeDescriptor)
    requires IsCollectionClass(w, w.classOf(list)) && w.commonType(list, ElementRole) == Some(StringClass)
    ensures e == s && s.Identity() == Id(StringClass, NoSite, NoPreset)
  {
    var r := new DescriptorHeap(w);
    var d := r.ForObject(Some(list));
    var res := d.GetElementTypeDescriptor(r);
    e := res.value;
    s := r.ValueOf(Some(StringClass));
  }

  /** A memoized element descriptor is the same instance before and after an `isAssignableTo` that walks the same descriptor. */
  method ElementSurvivesAssignability(r: DescriptorHeap, d: TypeDescriptor) returns (e1: TypeDescriptor, e2: TypeDescriptor)
    requires r.Valid() && FinitelyNested(r.jvm) && d in r.all && HasElementType(r.jvm, d.Identity())
    modifies r, r.all
    ensures e1 == e2 && e1.Identity() == ElementId(r.jvm, d.Identity())
  {
    var first := d.GetElementTypeDescriptor(r);
    var _ := d.IsAssignableTo(r, d);
    var second := d.GetElementTypeDescriptor(r);
    e1, e2 := first.value, second.value;
  }

  /** `NULL.applyType` of a string is `valueOf(String.class)`, the shared instance. */
  method StringApplyTypeIsShared(w: Jvm, str: ObjectRef) returns (d: TypeDescriptor, shared: TypeDescriptor)
    requires w.classOf(str) == StringClass && !IsCollectionClass(w, StringClass) && !IsMapClass(w, StringClass)
    ensures d == shared && d.Identity() == Id(StringClass, NoSite, NoPreset)
  {
    var r := new DescriptorHeap(w);
    StringIsCached();
    d := r.NULL.ApplyType(r, Some(str));
    shared := r.ValueOf(Some(StringClass));
  }

  /**
   * On a heap the static initializer has just built, `valueOf(int.class).isAssignableTo(valueOf(Integer.class))`
   * holds: the new heap's descriptors may be read and their memo fields filled.
   */
  method IntAssignableToInteger(w: Jvm) returns (b: bool)
    requires FinitelyNested(w) && ReflexiveAssignable(w)
    requires !IsCollectionClass(w, PrimitiveClass(Int)) && !IsMapClass(w, PrimitiveClass(Int))
    ensures b
  {
    var r := new DescriptorHeap(w);
    var p := r.ValueOf(Some(PrimitiveClass(Int)));
    var q := r.ValueOf(Some(WrapperClass(Int)));
    PrimitiveWrapperAssignable(w, Int, NoSite, NoSite);
    b := p.IsAssignableTo(r, q);
  }
}
