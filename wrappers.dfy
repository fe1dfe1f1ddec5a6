/**
 * The type-wrapper descriptor of Graphiti's schema definitions.
 *
 * In the Swift library, `Optional<T>` and `Array<T>` conform to a `Wrapper`
 * protocol: each reports the modifier it contributes to a field's GraphQL
 * type (`optional` for a nullable layer, `list` for a List layer) and the
 * type it wraps. Every other Swift type is a terminal: it does not conform.
 *
 * Here a Swift field type is an explicit type expression instead of a
 * runtime metatype, and conformance to `Wrapper` is the predicate IsWrapper.
 */
module Wrappers {

  /** The two kinds of wrapper layer: a nullable layer and a list layer. */
  datatype WrapperModifier = Optional | List

  /**
   * A Swift type as the wrapper descriptor sees it. `Opt(T)` is `T?`
   * (`Optional<Wrapped>`), `Arr(T)` is `[T]` (`Array<Element>`), and
   * `Terminal(name)` is any other type, named by its Swift name.
   */
  datatype TypeExpr =
    | Terminal(name: string)
    | Opt(wrapped: TypeExpr)
    | Arr(element: TypeExpr)

  /** Conformance to `Wrapper`: only `Optional` and `Array` conform. */
  predicate IsWrapper(t: TypeExpr) {
    t.Opt? || t.Arr?
  }

  /** Number of wrapper layers around the terminal type of `t`. */
  function Depth(t: TypeExpr): nat {
    match t
    case Terminal(_) => 0
    case Opt(inner) => 1 + Depth(inner)
    case Arr(inner) => 1 + Depth(inner)
  }

  /** The static `modifier` of a wrapper type. */
  function Modifier(t: TypeExpr): (m: WrapperModifier)
    requires IsWrapper(t)
    ensures t.Opt? ==> m == Optional
    ensures t.Arr? ==> m == List
  {
    if t.Opt? then Optional else List
  }

  /**
   * The static `wrappedType` of a wrapper type: the generic parameter,
   * unchanged. It has exactly one wrapper layer fewer than `t`, which is
   * what makes stripping layers terminate.
   */
  function WrappedType(t: TypeExpr): (w: TypeExpr)
    requires IsWrapper(t)
    ensures t.Opt? ==> w == t.wrapped
    ensures t.Arr? ==> w == t.element
    ensures Depth(w) + 1 == Depth(t)
  {
    match t
    case Opt(inner) => inner
    case Arr(inner) => inner
  }

  /**
   * Forming one wrapper layer: `inner?` for `Optional`, `[inner]` for
   * `List`. It is the inverse of taking `Modifier` and `WrappedType`.
   */
  function Wrap(m: WrapperModifier, inner: TypeExpr): (t: TypeExpr)
    ensures IsWrapper(t)
    ensures Modifier(t) == m
    ensures WrappedType(t) == inner
  {
    match m
    case Optional => Opt(inner)
    case List => Arr(inner)
  }

  /** A terminal type is not a wrapper and has no layers. */
  lemma TerminalIsNotWrapper(t: TypeExpr)
    ensures !IsWrapper(t) <==> t.Terminal?
    ensures !IsWrapper(t) <==> Depth(t) == 0
  {
  }

  /** A wrapper layer is fully determined by its modifier and wrapped type. */
  lemma LayerDetermined(t: TypeExpr)
    requires IsWrapper(t)
    ensures Wrap(Modifier(t), WrappedType(t)) == t
  {
  }

  /** Two wrappers with equal modifier and wrapped type are the same type. */
  lemma LayerInjective(a: TypeExpr, b: TypeExpr)
    requires IsWrapper(a) && IsWrapper(b)
    requires Modifier(a) == Modifier(b) && WrappedType(a) == WrappedType(b)
    ensures a == b
  {
  }
}
