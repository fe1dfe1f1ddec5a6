/**
 * Stripping wrapper layers off a field's declared type, as the schema
 * definitions do with the `Wrapper` descriptor: follow `wrappedType` while
 * the type is a wrapper, collecting each layer's `modifier`, outermost
 * first, until a terminal type is reached.
 */
module Unwrapping {
  import opened Wrappers

  /** A terminal type together with the modifiers peeled off it, outermost first. */
  datatype Unwrapped = Unwrapped(terminal: TypeExpr, modifiers: seq<WrapperModifier>)

  /**
   * Strip every wrapper layer of `t`. The result's terminal is never a
   * wrapper, and one modifier is collected per layer.
   */
  function Unwrap(t: TypeExpr): (u: Unwrapped)
    ensures !IsWrapper(u.terminal)
    ensures |u.modifiers| == Depth(t)
    decreases Depth(t)
  {
    if IsWrapper(t) then
      var inner := Unwrap(WrappedType(t));
      Unwrapped(inner.terminal, [Modifier(t)] + inner.modifiers)
    else
      Unwrapped(t, [])
  }

  /**
   * Re-wrap `terminal` with `modifiers`, applying the last (innermost)
   * modifier first and the first (outermost) one last.
   */
  function Rebuild(terminal: TypeExpr, modifiers: seq<WrapperModifier>): (t: TypeExpr)
    ensures Depth(t) == Depth(terminal) + |modifiers|
  {
    if modifiers == [] then terminal
    else Wrap(modifiers[0], Rebuild(terminal, modifiers[1..]))
  }

  /** Follow `wrappedType` `k` times. */
  function Peel(t: TypeExpr, k: nat): (p: TypeExpr)
    requires k <= Depth(t)
    ensures Depth(p) == Depth(t) - k
  {
    if k == 0 then t else Peel(WrappedType(t), k - 1)
  }

  /** The unwrap law for a terminal type: nothing is stripped. */
  lemma UnwrapTerminal(name: string)
    ensures Unwrap(Terminal(name)) == Unwrapped(Terminal(name), [])
  {
  }

  /**
   * The unwrap law for one layer: the layer's modifier goes in front of
   * the modifiers of its wrapped type, and the terminal is unchanged.
   */
  lemma UnwrapLayer(m: WrapperModifier, inner: TypeExpr)
    ensures Unwrap(Wrap(m, inner)).terminal == Unwrap(inner).terminal
    ensures Unwrap(Wrap(m, inner)).modifiers == [m] + Unwrap(inner).modifiers
  {
  }

  /** `[Int?]` unwraps to terminal `Int` with modifiers `[list, optional]`. */
  lemma UnwrapListOfOptional()
    ensures Unwrap(Arr(Opt(Terminal("Int")))) == Unwrapped(Terminal("Int"), [List, Optional])
    ensures Rebuild(Terminal("Int"), [List, Optional]) == Arr(Opt(Terminal("Int")))
  {
  }

  /**
   * Following `wrappedType` stays on wrappers for exactly `Depth(t)` steps
   * and then reaches the terminal that Unwrap returns; the `k`-th modifier
   * collected is the modifier of the type reached after `k` steps.
   */
  lemma {:induction false} UnwrapFollowsWrappedType(t: TypeExpr, k: nat)
    requires k <= Depth(t)
    ensures k < Depth(t) ==> IsWrapper(Peel(t, k)) && Unwrap(t).modifiers[k] == Modifier(Peel(t, k))
    ensures k == Depth(t) ==> Peel(t, k) == Unwrap(t).terminal
    decreases k
  {
    if k == 0 {
      if IsWrapper(t) {
        assert Unwrap(t).modifiers[0] == Modifier(t);
      } else {
        TerminalIsNotWrapper(t);
      }
    } else {
      var w := WrappedType(t);
      UnwrapFollowsWrappedType(w, k - 1);
      assert Unwrap(t).modifiers == [Modifier(t)] + Unwrap(w).modifiers;
    }
  }

  /** Re-wrapping the terminal with the collected modifiers gives the type back. */
  lemma {:induction false} RebuildUnwrap(t: TypeExpr)
    ensures Rebuild(Unwrap(t).terminal, Unwrap(t).modifiers) == t
    decreases Depth(t)
  {
    if IsWrapper(t) {
      var w := WrappedType(t);
      RebuildUnwrap(w);
      var u := Unwrap(w);
      assert ([Modifier(t)] + u.modifiers)[1..] == u.modifiers;
      LayerDetermined(t);
    }
  }

  /**
   * Conversely, unwrapping a rebuilt type gives back its terminal and its
   * modifiers, so Unwrap and Rebuild are inverse bijections between types
   * and (non-wrapper terminal, modifier sequence) pairs.
   */
  lemma {:induction false} UnwrapRebuild(terminal: TypeExpr, modifiers: seq<WrapperModifier>)
    requires !IsWrapper(terminal)
    ensures Unwrap(Rebuild(terminal, modifiers)) == Unwrapped(terminal, modifiers)
    decreases |modifiers|
  {
    if modifiers != [] {
      UnwrapRebuild(terminal, modifiers[1..]);
      assert [modifiers[0]] + modifiers[1..] == modifiers;
    }
  }

  /** Two types with the same terminal and the same modifiers are equal. */
  lemma UnwrapInjective(a: TypeExpr, b: TypeExpr)
    requires Unwrap(a) == Unwrap(b)
    ensures a == b
  {
    RebuildUnwrap(a);
    RebuildUnwrap(b);
  }
}
