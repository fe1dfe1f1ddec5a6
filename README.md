# Graphiti type-wrapper descriptor in Dafny

Graphiti derives the shape of a GraphQL field's type from the field's
declared Swift type. `Optional<T>` and `Array<T>` conform to a `Wrapper`
protocol. Each reports a `WrapperModifier` (`optional` for a nullable
layer, `list` for a List layer) and its `wrappedType`, the generic
parameter. Every other type is terminal. Peeling wrapper layers off a type
gives a terminal type plus a stack of modifiers. In GraphQL these are the
List and nullable/Non-Null type modifiers (sections 3.11 and 3.12 of the
GraphQL specification, October 2021 edition).

This project models that descriptor on an explicit type expression rather
than on Swift metatypes:

- `wrappers.dfy`, module `Wrappers`: the `WrapperModifier` datatype (exactly
  the two cases `Optional` and `List`), the `TypeExpr` datatype
  (`Terminal(name)`, `Opt(inner)` for `inner?`, `Arr(inner)` for `[inner]`),
  conformance (`IsWrapper`), the two static properties (`Modifier`,
  `WrappedType`) and their inverse `Wrap`, which forms one layer.
- `unwrapping.dfy`, module `Unwrapping`: `Unwrap`, the recursive stripping
  that the protocol exists to support (modifiers outermost first);
  `Rebuild`, which re-wraps a terminal innermost-out; `Peel`, following
  `wrappedType` a given number of times; and the laws relating them.

Termination of the stripping rests on `WrappedType` removing exactly one
layer (`Depth` drops by one), which is the measure of `Unwrap`.

## Model

| member | source | states |
|---|---|---|
| `Wrappers.Modifier` | Sources/Graphiti/Definition/Wrappers.swift:16-28 | an `Optional` layer reports `optional`; an `Array` layer reports `list` |
| `Wrappers.WrappedType` | Sources/Graphiti/Definition/Wrappers.swift:12-24 | the wrapped type of `T?` is exactly `T`, of `[T]` exactly `T`, and it has one wrapper layer fewer than the wrapper |
| `Wrappers.Wrap` | Sources/Graphiti/Definition/Wrappers.swift:11-29 | forming a layer from a modifier and an inner type yields a wrapper whose `modifier` and `wrappedType` are exactly those |
| `Wrappers.TerminalIsNotWrapper` | Sources/Graphiti/Definition/Wrappers.swift:11-21 | a type is a non-wrapper exactly when it is terminal, exactly when it has no wrapper layers |
| `Wrappers.LayerDetermined` | Sources/Graphiti/Definition/Wrappers.swift:11-29 | every wrapper equals the layer formed from its own `modifier` and `wrappedType` |
| `Wrappers.LayerInjective` | Sources/Graphiti/Definition/Wrappers.swift:11-29 | two wrappers with equal `modifier` and `wrappedType` are the same type |
| `Unwrapping.Unwrap` | Sources/Graphiti/Definition/Wrappers.swift:6-29 | stripping terminates at a non-wrapper, and the number of modifiers collected equals the number of wrapper layers |
| `Unwrapping.Rebuild` | Sources/Graphiti/Definition/Wrappers.swift:11-29 | re-wrapping a terminal adds exactly one layer per modifier |
| `Unwrapping.Peel` | Sources/Graphiti/Definition/Wrappers.swift:12-24 | each step along `wrappedType` removes exactly one layer |
| `Unwrapping.UnwrapTerminal` | Sources/Graphiti/Definition/Wrappers.swift:11-21 | a terminal type unwraps to itself with no modifiers |
| `Unwrapping.UnwrapLayer` | Sources/Graphiti/Definition/Wrappers.swift:6-29 | unwrapping one layer puts its modifier in front of the inner type's modifiers and keeps the inner type's terminal |
| `Unwrapping.UnwrapListOfOptional` | Sources/Graphiti/Definition/Wrappers.swift:11-29 | `[Int?]` unwraps to `Int` with `[list, optional]`, and re-wrapping gives `[Int?]` |
| `Unwrapping.UnwrapFollowsWrappedType` | Sources/Graphiti/Definition/Wrappers.swift:6-29 | following `wrappedType` stays on wrappers for exactly as many steps as modifiers are collected, the k-th modifier is that of the type reached after k steps, and the last step reaches the terminal |
| `Unwrapping.RebuildUnwrap` | Sources/Graphiti/Definition/Wrappers.swift:11-29 | re-wrapping the terminal with the collected modifiers rebuilds the original type |
| `Unwrapping.UnwrapRebuild` | Sources/Graphiti/Definition/Wrappers.swift:11-29 | unwrapping a type rebuilt from a non-wrapper terminal and any modifiers gives back that terminal and those modifiers |
| `Unwrapping.UnwrapInjective` | Sources/Graphiti/Definition/Wrappers.swift:11-29 | two types with the same terminal and modifier stack are the same type |

## Left out

- Swift metatypes (`Any.Type`) and the runtime conformance check are replaced by the `TypeExpr` datatype and `IsWrapper`; types are not inspected at run time.
- Generic arguments of terminal types (for example `Dictionary` or `Set`) are not descended into: as in the source, only `Optional` and `Array` conform to `Wrapper`, so such types are terminal and carried only by name.
- The code that walks the descriptor and turns the modifier stack into GraphQL nullable, non-null and list types is not part of this model; `Unwrap` models the stripping it performs, with modifiers stored outermost first.
- Schema fragments and their merging (`SchemaBuilder`, `PartialSchema`, `Schema.create`) are not part of this model.
- `Sources/Graphiti/API/API.swift` only forwards requests to the external GraphQL engine with event loops and `async`/`await`; it has no logic of its own to model.
- `Tests/GraphitiTests/PartialSchemaTests.swift` runs queries against the external engine on an event loop; the merge order-independence it exercises belongs to merge code that is not part of this model.
