/** The scopes an evaluation can reach, and the ways evaluation may change them: names are
    only ever added, and only to the scope a statement runs in; constants are never
    dropped, and a constant's binding never changes. */
module Store {
  import opened Runtime

  /** The scopes a value holds on to: the declaration scopes of the functions in it. */
  ghost function EnvsIn(v: Value): set<Environment>
  {
    match v
    case FunctionVal(_, _, e, _) => {e}
    case ObjectVal(m) => set k, e | k in m && e in EnvsIn(m[k]) :: e
    case Boxed(inner) => EnvsIn(inner)
    case _ => {}
  }

  /** Wrapping a value in a number record holds on to the same scopes. */
  lemma BoxedEnvs(v: Value)
    ensures EnvsIn(Boxed(v)) == EnvsIn(v)
  {
  }

  /** One scope of a closed heap: its chain of parents is finite and inside `heap`, it lists
      only bound names as constants, and its values only hold scopes of `heap`. */
  ghost predicate Sound(x: Environment, heap: set<Environment>)
    reads x
  {
    && x.Valid()
    && (x.parent != null ==> x.parent in heap)
    && (forall k :: k in x.constants ==> k in x.variables)
    && (forall k :: k in x.variables ==> EnvsIn(x.variables[k]) <= heap)
  }

  /** `heap` is closed: every scope in it is sound. Soundness is only unfolded where a proof
      names it, which keeps the proofs that merely pass a closed heap along cheap. */
  ghost predicate Closed(heap: set<Environment>)
    reads heap
  {
    && (forall x :: x in heap ==> x.Valid())
    && (forall x {:trigger Sound(x, heap)} :: x in heap ==> Sound(x, heap))
  }

  /** How one scope may change between two moments: its names and constants are only added
      to, a constant keeps its value, a name only becomes a constant as it is declared, and
      unless `mayDeclare` the scope gains no name and no constant. */
  twostate predicate Kept(x: Environment, mayDeclare: bool)
    reads x
  {
    && old(x.variables).Keys <= x.variables.Keys
    && (forall k :: k in old(x.constants) ==> k in x.constants)
    && (forall k :: k in old(x.constants) && k in old(x.variables) ==> x.variables[k] == old(x.variables[k]))
    && (forall k :: k in x.constants && k !in old(x.constants) ==> k !in old(x.variables))
    && (!mayDeclare ==> x.variables.Keys == old(x.variables).Keys && x.constants == old(x.constants))
  }

  /** The effect of one evaluation step: `heap` grew into `heap'` by fresh scopes only, the
      result is closed, and every scope of `heap` changed only as `Kept` allows, with
      `declaring` the one scope that may receive new names. */
  twostate predicate Evolved(heap: set<Environment>, new heap': set<Environment>, declaring: Environment?)
    reads heap'
  {
    && heap <= heap'
    && fresh(heap' - heap)
    && Closed(heap')
    && forall x :: x in heap ==> Kept(x, x == declaring)
  }

  /** Declaring a new name in `env` keeps the heap closed and changes nothing but `env`. */
  twostate lemma AfterDeclare(new heap: set<Environment>, new env: Environment, new name: string, new value: Value, new constant: bool)
    requires old(allocated(heap)) && old(Closed(heap)) && env in heap && EnvsIn(value) <= heap
    requires forall x :: x in heap && x != env ==> unchanged(x)
    requires name !in old(env.variables)
    requires env.variables == old(env.variables)[name := value]
    requires constant ==> env.constants == old(env.constants) + [name]
    requires !constant ==> env.constants == old(env.constants)
    ensures Evolved(heap, heap, env)
  {
    assert old(Sound(env, heap));
    forall x | x in heap
      ensures Sound(x, heap) && Kept(x, x == env)
    {
      if x != env {
        assert unchanged(x) && old(Sound(x, heap));
      }
    }
  }

  /** Rebinding a name that `env` holds and does not list as constant keeps the heap closed
      and changes nothing but that binding. */
  twostate lemma AfterAssign(new heap: set<Environment>, new env: Environment, new name: string, new value: Value)
    requires old(allocated(heap)) && old(Closed(heap)) && env in heap && EnvsIn(value) <= heap
    requires forall x :: x in heap && x != env ==> unchanged(x)
    requires name in old(env.variables) && name !in old(env.constants)
    requires env.variables == old(env.variables)[name := value]
    requires env.constants == old(env.constants)
    ensures Evolved(heap, heap, null)
  {
    assert old(Sound(env, heap));
    forall x | x in heap
      ensures Sound(x, heap) && Kept(x, false)
    {
      if x != env {
        assert unchanged(x) && old(Sound(x, heap));
      }
    }
  }

  /** Filling a scope that had no constants with names, still no constant among them, keeps
      the heap closed when the new values only hold scopes of the heap. */
  twostate lemma AfterBind(new heap: set<Environment>, new sc: Environment)
    requires old(allocated(heap)) && old(Closed(heap)) && sc in heap
    requires forall x :: x in heap && x != sc ==> unchanged(x)
    requires old(sc.constants) == [] && sc.constants == []
    requires old(sc.variables).Keys <= sc.variables.Keys
    requires forall k :: k in sc.variables ==> EnvsIn(sc.variables[k]) <= heap
    ensures Evolved(heap, heap, sc)
  {
    assert old(Sound(sc, heap));
    forall x | x in heap
      ensures Sound(x, heap) && Kept(x, x == sc)
    {
      if x != sc {
        assert unchanged(x) && old(Sound(x, heap));
      }
    }
  }

  /** A step that changed no scope of a closed heap keeps it closed. */
  twostate lemma Untouched(new heap: set<Environment>)
    requires old(allocated(heap)) && old(Closed(heap))
    requires forall x :: x in heap ==> unchanged(x)
    ensures Evolved(heap, heap, null)
  {
    forall x | x in heap
      ensures Sound(x, heap)
    {
      assert old(Sound(x, heap));
    }
  }

  /** A new empty scope whose parent is in the heap may join it. */
  twostate lemma AfterNewScope(heap: set<Environment>, new sc: Environment)
    requires old(Closed(heap)) && unchanged(heap) && fresh(sc)
    requires sc.Valid() && (sc.parent != null ==> sc.parent in heap)
    requires sc.variables == map[] && sc.constants == []
    ensures Evolved(heap, heap + {sc}, null)
  {
    forall x | x in heap + {sc}
      ensures Sound(x, heap + {sc})
    {
      if x != sc {
        assert unchanged(x) && old(Sound(x, heap));
      }
    }
  }

  /** The whole chain of a scope in a closed heap lies in the heap. */
  lemma {:induction false} ChainInHeap(env: Environment, heap: set<Environment>)
    requires Closed(heap) && env in heap
    ensures forall x :: x in env.Chain() ==> x in heap
    decreases env.depth
  {
    if env.parent != null {
      assert Sound(env, heap);
      ChainInHeap(env.parent, heap);
      forall x | x in env.Chain()
        ensures x in heap
      {
        if x != env {
          assert x in env.Chain()[1..];
        }
      }
    }
  }

  /** The scope that resolves a name from a scope of a closed heap lies in the heap. */
  lemma OwnerInHeap(env: Environment, heap: set<Environment>, name: string)
    requires Closed(heap) && env in heap
    ensures env.Owner(name) <= heap
    ensures env.Resolve(name).Ok? ==> env.Resolve(name).value in heap
  {
    ChainInHeap(env, heap);
  }

  /** A value looked up through a scope of a closed heap only holds scopes of the heap. */
  lemma LookupWithin(env: Environment, heap: set<Environment>, name: string)
    requires Closed(heap) && env in heap
    ensures env.LookupVar(name).Ok? ==> EnvsIn(env.LookupVar(name).value) <= heap
  {
    ChainInHeap(env, heap);
    if env.LookupVar(name).Ok? {
      var i := FirstHolder(env.Frames(), name).value;
      assert env.Chain()[i] in heap && Sound(env.Chain()[i], heap);
    }
  }

  /** A step that changed no scope of a closed heap leaves the variable maps along every
      chain in it as they were. */
  twostate lemma FramesUnchanged(new heap: set<Environment>, new env: Environment)
    requires old(allocated(heap)) && Closed(heap) && env in heap && unchanged(heap)
    ensures env.Valid() && env.Frames() == old(env.Frames())
  {
    ChainInHeap(env, heap);
  }

  /** A step that changed no scope of a closed heap resolves `name` to the scope it
      resolved to before, whose constants are as they were, and leaves the variable maps
      along the chain as they were. */
  twostate lemma ResolveUnchanged(new heap: set<Environment>, new env: Environment, name: string)
    requires old(allocated(heap)) && Closed(heap) && env in heap && unchanged(heap)
    ensures env.Valid() && env.Frames() == old(env.Frames())
    ensures env.Resolve(name) == old(env.Resolve(name))
    ensures env.Resolve(name).Ok? ==> env.Resolve(name).value.constants == old(env.Resolve(name).value.constants)
  {
    ChainInHeap(env, heap);
    FramesUnchanged(heap, env);
  }

  /** The ancestors of a scope of a closed heap lie in the heap, and the scope is not among
      them. */
  lemma AncestorsBelow(env: Environment, heap: set<Environment>)
    requires Closed(heap) && env in heap && env.parent != null
    ensures forall x :: x in env.parent.Chain() ==> x in heap - {env}
  {
    assert Sound(env, heap);
    ChainInHeap(env.parent, heap);
    var c := env.parent.Chain();
    forall i | 0 < i < |c|
      ensures c[i] != env
    {
      assert c[0].depth > c[i].depth;
    }
  }

  /** The variable maps along a chain whose scopes kept their variables are as they were. */
  twostate lemma FramesKept(new e: Environment)
    requires e.Valid() && old(allocated(e))
    requires forall x :: x in e.Chain() ==> old(allocated(x)) && x.variables == old(x.variables)
    ensures e.Frames() == old(e.Frames())
  {
    var c := e.Chain();
    var f := e.Frames();
    var g := old(e.Frames());
    assert |f| == |c| == |g|;
    forall i | 0 <= i < |c|
      ensures f[i] == g[i]
    {
      var x := c[i];
      assert x in c;
      assert f[i] == x.variables;
      assert g[i] == old(x.variables);
    }
  }

  /** A scope's variable maps are its own followed by its ancestors'. */
  lemma FramesSplit(env: Environment)
    requires env.Valid()
    ensures env.Frames() == [env.variables] + env.Outer()
  {
  }

  /** A step that changed no scope of a closed heap but `env` leaves the variable maps of
      `env`'s ancestors as they were. */
  twostate lemma OuterKept(new heap: set<Environment>, new env: Environment)
    requires old(allocated(heap)) && Closed(heap) && env in heap && unchanged(heap - {env})
    ensures env.Valid() && env.Outer() == old(env.Outer())
  {
    if env.parent != null {
      AncestorsBelow(env, heap);
      FramesKept(env.parent);
    }
  }
}
