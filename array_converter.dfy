/**
 * `ArrayToArrayGenericConverter`: converts an array into an array of another
 * element type by looking up one element converter and applying it to every
 * element in index order. The conversion service is abstract: a partial lookup
 * from a pair of element descriptors to a converter, and a total function that
 * applies a converter to one element.
 */
module ArrayConversion {
  import opened Wrappers
  import opened Jvm
  import opened DescriptorSpec
  import opened TypeDescriptors

  /** An element converter handed out by the conversion service. */
  type ConverterRef = nat

  /** `GenericConversionService.getConverter` and `ConversionUtils.invokeConverter`, over element values of type V. */
  datatype ConversionService<!V> = ConversionService(
    getConverter: (Id, Id) -> Option<ConverterRef>,
    invokeConverter: (ConverterRef, V, Id, Id) -> V)

  /** What `convert` throws: converter-not-found with both element descriptors, or a descriptor's own exception. */
  datatype ConversionFailure =
    | ConverterNotFound(sourceType: TypeDescriptor, targetType: TypeDescriptor)
    | DescriptorFailure(failure: Failure)

  /** The element-wise image of `source` under converter `c`, from element descriptor `se` to `te`. */
  function ConvertAll<V>(service: ConversionService<V>, c: ConverterRef, source: seq<V>, se: Id, te: Id): (out: seq<V>)
    ensures |out| == |source|
    ensures forall i :: 0 <= i < |source| ==> out[i] == service.invokeConverter(c, source[i], se, te)
  {
    if source == [] then []
    else ConvertAll(service, c, source[..|source| - 1], se, te) + [service.invokeConverter(c, source[|source| - 1], se, te)]
  }

  class ArrayToArrayGenericConverter<V(0)> {
    const conversionService: ConversionService<V>

    constructor (conversionService: ConversionService<V>)
      ensures this.conversionService == conversionService
    {
      this.conversionService := conversionService;
    }

    /**
     * `convert`: the source itself when its descriptor is assignable to the target's;
     * otherwise both element descriptors (the source's first), a converter for them
     * (or converter-not-found before any element is touched), and a fresh array of
     * the same length whose element i is the converter applied to source element i.
     * `order` logs every `Array.set` as it happens: the index written and the value stored.
     */
    method Convert(r: DescriptorHeap, source: array<V>, sourceType: TypeDescriptor, targetType: TypeDescriptor)
      returns (res: Result<array<V>, ConversionFailure>, ghost order: seq<(int, V)>)
      requires r.Valid() && FinitelyNested(r.jvm) && sourceType in r.all && targetType in r.all
      modifies r, r.all
      ensures r.Valid() && r.Grew()
      ensures source[..] == old(source[..])
      ensures Assignable(r.jvm, sourceType.Identity(), targetType.Identity()) ==> res == Success(source) && order == []
      ensures !Assignable(r.jvm, sourceType.Identity(), targetType.Identity()) ==> sourceType.Identity().Id? && targetType.Identity().Id?
      ensures !Assignable(r.jvm, sourceType.Identity(), targetType.Identity())
                && (!HasElementType(r.jvm, sourceType.Identity()) || !HasElementType(r.jvm, targetType.Identity())) ==>
                res == Failure(DescriptorFailure(IllegalState(NotCollectionOrArray))) && order == []
      ensures !Assignable(r.jvm, sourceType.Identity(), targetType.Identity())
                && HasElementType(r.jvm, sourceType.Identity()) && HasElementType(r.jvm, targetType.Identity()) ==>
                var se, te := ElementId(r.jvm, sourceType.Identity()), ElementId(r.jvm, targetType.Identity());
                match conversionService.getConverter(se, te)
                case None =>
                  && res.Failure? && res.error.ConverterNotFound?
                  && res.error.sourceType.Identity() == se && res.error.targetType.Identity() == te
                  && order == []
                case Some(c) =>
                  && res.Success? && fresh(res.value) && res.value != source
                  && res.value.Length == source.Length
                  && res.value[..] == ConvertAll(conversionService, c, source[..], se, te)
                  && |order| == source.Length
                  && forall k :: 0 <= k < |order| ==> order[k] == (k, res.value[k])
    {
      var assignable := sourceType.IsAssignableTo(r, targetType);
      if assignable {
        return Success(source), [];
      }
      order := [];
      var elements := ElementTypeDescriptors(r, sourceType, targetType);
      if elements.Failure? {
        return Failure(DescriptorFailure(elements.error)), order;
      }
      var (sourceElementType, targetElementType) := elements.value;
      var target := new V[source.Length];
      var converter := conversionService.getConverter(sourceElementType.Identity(), targetElementType.Identity());
      if converter.None? {
        return Failure(ConverterNotFound(sourceElementType, targetElementType)), order;
      }
      order := Fill(converter.value, source, target, sourceElementType.Identity(), targetElementType.Identity());
      res := Success(target);
    }

    /** `sourceType.getElementTypeDescriptor()`, then `targetType.getElementTypeDescriptor()`. */
    method ElementTypeDescriptors(r: DescriptorHeap, sourceType: TypeDescriptor, targetType: TypeDescriptor)
      returns (res: Result<(TypeDescriptor, TypeDescriptor), Failure>)
      requires r.Valid() && sourceType in r.all && targetType in r.all
      requires sourceType.Identity().Id? && targetType.Identity().Id?
      modifies r, r.all
      ensures r.Valid() && r.Grew()
      ensures !HasElementType(r.jvm, sourceType.Identity()) || !HasElementType(r.jvm, targetType.Identity()) ==>
                res == Failure(IllegalState(NotCollectionOrArray))
      ensures HasElementType(r.jvm, sourceType.Identity()) && HasElementType(r.jvm, targetType.Identity()) ==>
                && res.Success?
                && res.value.0.Identity() == ElementId(r.jvm, sourceType.Identity())
                && res.value.1.Identity() == ElementId(r.jvm, targetType.Identity())
    {
      var se := sourceType.GetElementTypeDescriptor(r);
      if se.Failure? {
        return Failure(se.error);
      }
      var te := targetType.GetElementTypeDescriptor(r);
      if te.Failure? {
        return Failure(te.error);
      }
      res := Success((se.value, te.value));
    }

    /**
     * The loop of `convert`: writes the conversion of `source[i]` into `target[i]`;
     * the k-th write logged in `order` stores `target[k]` at index k, so the writes go in ascending index order.
     */
    method Fill(c: ConverterRef, source: array<V>, target: array<V>, se: Id, te: Id) returns (ghost order: seq<(int, V)>)
      requires source.Length == target.Length && source != target
      modifies target
      ensures target[..] == ConvertAll(conversionService, c, source[..], se, te)
      ensures |order| == target.Length && forall k :: 0 <= k < |order| ==> order[k] == (k, target[k])
    {
      order := [];
      ghost var initial := target[..];
      for i := 0 to target.Length
        invariant forall k :: 0 <= k < i ==> target[k] == conversionService.invokeConverter(c, source[k], se, te)
        invariant forall k :: i <= k < target.Length ==> target[k] == initial[k]
        invariant |order| == i && forall k :: 0 <= k < i ==> order[k] == (k, target[k])
      {
        var targetElement := conversionService.invokeConverter(c, source[i], se, te);
        target[i] := targetElement;
        order := order + [(i, targetElement)];
      }
    }
  }
}
