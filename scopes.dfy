/** The chain of scopes both passes keep: a `HANLinkedList` of frames,
    innermost first, each frame a `HashMap` from variable name to a payload
    (a type in the checker, a literal in the evaluator). */
module Scopes {
  import opened Wrappers
  import opened Datastructures

  /** The abstract chain: one map per frame, innermost first. */
  type Chain<V> = seq<map<string, V>>

  /** Innermost-first lookup: the first frame that holds the name wins. */
  function Lookup<V>(chain: Chain<V>, name: string): Option<V> {
    if chain == [] then None
    else if name in chain[0] then Some(chain[0][name])
    else Lookup(chain[1..], name)
  }

  /** Lookup finds nothing exactly when no frame binds the name, and otherwise
      returns the binding of the innermost frame that has one. */
  lemma {:induction false} LookupInnermost<V>(chain: Chain<V>, name: string)
    ensures Lookup(chain, name).None? <==> forall k :: 0 <= k < |chain| ==> name !in chain[k]
    ensures Lookup(chain, name).Some? ==>
      exists k :: 0 <= k < |chain| && name in chain[k] && Lookup(chain, name).value == chain[k][name]
        && forall j :: 0 <= j < k ==> name !in chain[j]
  {
    if chain != [] && name !in chain[0] {
      LookupInnermost(chain[1..], name);
      if Lookup(chain, name).Some? {
        var k :| 0 <= k < |chain[1..]| && name in chain[1..][k] && Lookup(chain, name).value == chain[1..][k][name]
          && forall j :: 0 <= j < k ==> name !in chain[1..][j];
        assert name in chain[k + 1] && forall j :: 0 <= j < k + 1 ==> name !in chain[j];
      } else {
        forall k | 0 <= k < |chain| ensures name !in chain[k] {
          if k > 0 {
            assert chain[k] == chain[1..][k - 1];
          }
        }
      }
    }
  }

  /** One step of the innermost-first scan, at frame `i`. */
  lemma LookupStep<V>(chain: Chain<V>, i: nat, name: string)
    requires i < |chain|
    ensures Lookup(chain[i..], name)
      == if name in chain[i] then Some(chain[i][name]) else Lookup(chain[i + 1..], name)
  {
    assert chain[i..][1..] == chain[i + 1..];
  }

  /** Frames the lookup passes over without finding the name do not matter. */
  lemma {:induction false} LookupSkipsFrames<V>(inner: Chain<V>, outer: Chain<V>, name: string)
    requires forall k :: 0 <= k < |inner| ==> name !in inner[k]
    ensures Lookup(inner + outer, name) == Lookup(outer, name)
  {
    if inner == [] {
      assert inner + outer == outer;
    } else {
      assert (inner + outer)[1..] == inner[1..] + outer;
      LookupSkipsFrames(inner[1..], outer, name);
    }
  }

  /** One frame: a mutable map, as `java.util.HashMap`. */
  class Frame<V> {
    var bindings: map<string, V>

    constructor ()
      ensures bindings == map[]
    {
      bindings := map[];
    }

    /** `HashMap.put`. */
    method Put(name: string, v: V)
      modifies this
      ensures bindings == old(bindings)[name := v]
    {
      bindings := bindings[name := v];
    }
  }

  /** A well-formed chain of scopes: a valid list of distinct frames, none of
      which is part of the list's own nodes. */
  ghost predicate StackValid<V>(stack: HANLinkedList<Frame<V>>)
    reads stack, stack.Repr
  {
    && stack.Valid()
    && (forall i :: 0 <= i < |stack.Contents| ==> stack.Contents[i] !in stack.Repr)
    && (forall i, j :: 0 <= i < j < |stack.Contents| ==> stack.Contents[i] != stack.Contents[j])
  }

  /** The frames of a chain of scopes. */
  ghost function Frames<V>(stack: HANLinkedList<Frame<V>>): set<object>
    reads stack
  {
    set i | 0 <= i < |stack.Contents| :: stack.Contents[i]
  }

  /** The objects a chain of scopes occupies: the list and its frames. */
  ghost function StackFootprint<V>(stack: HANLinkedList<Frame<V>>): set<object>
    reads stack
  {
    stack.Repr + Frames(stack)
  }

  /** The abstract chain a list of frames stands for. */
  ghost function FrameMaps<V>(frames: seq<Frame<V>>): (c: Chain<V>)
    reads set i | 0 <= i < |frames| :: frames[i]
    ensures |c| == |frames| && forall i :: 0 <= i < |frames| ==> c[i] == frames[i].bindings
  {
    if frames == [] then [] else [frames[0].bindings] + FrameMaps(frames[1..])
  }

  ghost function ChainOf<V>(stack: HANLinkedList<Frame<V>>): Chain<V>
    reads stack, set i | 0 <= i < |stack.Contents| :: stack.Contents[i]
  {
    FrameMaps(stack.Contents)
  }

  /** `addFirst(new HashMap<>())`: a fresh innermost frame. */
  function PushFrame<V>(chain: Chain<V>): Chain<V> {
    [map[]] + chain
  }

  /** `removeFirst()`: drops the innermost frame, nothing on an empty chain. */
  function PopFrame<V>(chain: Chain<V>): Chain<V> {
    if chain == [] then [] else chain[1..]
  }

  /** `getFirst().put(name, v)`: writes the innermost frame only, and nothing
      when there is no frame. */
  function BindInnermost<V>(chain: Chain<V>, name: string, v: V): Chain<V> {
    if chain == [] then chain else chain[0 := chain[0][name := v]]
  }

  /** `addFirst(new HashMap<>())`: a fresh empty frame becomes the innermost
      one and every other frame keeps its bindings. */
  method PushScope<V>(stack: HANLinkedList<Frame<V>>)
    requires StackValid(stack)
    modifies stack.Repr
    ensures StackValid(stack) && fresh(StackFootprint(stack) - old(StackFootprint(stack)))
    ensures |stack.Contents| == |old(stack.Contents)| + 1 && stack.Contents[1..] == old(stack.Contents)
    ensures ChainOf(stack) == PushFrame(old(ChainOf(stack)))
  {
    var frame := new Frame();
    stack.AddFirst(frame);
    assert stack.Contents[1..] == old(stack.Contents);
  }

  /** `removeFirst()`: the innermost frame is dropped (nothing happens on an
      empty chain) and the others keep their bindings. */
  method PopScope<V>(stack: HANLinkedList<Frame<V>>)
    requires StackValid(stack)
    modifies stack.Repr
    ensures StackValid(stack) && StackFootprint(stack) <= old(StackFootprint(stack))
    ensures stack.Contents == if old(stack.Contents) == [] then [] else old(stack.Contents)[1..]
    ensures ChainOf(stack) == PopFrame(old(ChainOf(stack)))
  {
    stack.RemoveFirst();
  }

  /** `getFirst()`, then `put(name, v)` into that frame when there is one:
      only the innermost frame changes, and the list itself not at all. */
  method BindInScope<V>(stack: HANLinkedList<Frame<V>>, name: string, v: V)
    requires StackValid(stack)
    modifies Frames(stack)
    ensures StackValid(stack) && stack.Contents == old(stack.Contents)
    ensures ChainOf(stack) == BindInnermost(old(ChainOf(stack)), name, v)
  {
    var scope := stack.GetFirst();
    if scope.Some? {
      ghost var before := ChainOf(stack);
      scope.value.Put(name, v);
      ghost var after := ChainOf(stack);
      forall i | 0 <= i < |after|
        ensures after[i] == BindInnermost(before, name, v)[i]
      {
        if i > 0 {
          assert stack.Contents[i] != stack.Contents[0];
        }
      }
    }
  }

  /** The scan of `lookupVariableType` and `lookupVariableValue`: `get(i)` for
      each frame from the innermost out, returning the first binding found. */
  method FindBinding<V>(stack: HANLinkedList<Frame<V>>, name: string) returns (found: Option<V>)
    requires StackValid(stack)
    ensures found == Lookup(ChainOf(stack), name)
  {
    ghost var chain := ChainOf(stack);
    var scopes := stack.GetSize();
    var i := 0;
    while i < scopes
      invariant 0 <= i <= scopes == |chain|
      invariant Lookup(chain[i..], name) == Lookup(chain, name)
    {
      var scope := stack.Get(i);
      LookupStep(chain, i, name);
      if scope.Some? && name in scope.value.bindings {
        return Some(scope.value.bindings[name]);
      }
      i := i + 1;
    }
    return None;
  }

  /** After a binding, lookup of that name finds it and every other name
      resolves as before. */
  lemma BindThenLookup<V>(chain: Chain<V>, name: string, v: V, other: string)
    ensures Lookup(BindInnermost(chain, name, v), other)
      == if other == name && chain != [] then Some(v) else Lookup(chain, other)
  {
    if chain != [] {
      assert BindInnermost(chain, name, v)[1..] == chain[1..];
    }
  }
}
