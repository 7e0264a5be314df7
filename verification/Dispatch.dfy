/** Finding the handler for a target in nested maps of functions. */
module Dispatch {
  import opened Wrappers

  /** A function: a handler, or a map from targets to functions. */
  datatype Function<H> = Leaf(handler: H) | Mapping(functions: map<string, Function<H>>)

  function GetHandler<H>(f: Function<H>, target: string): Result<H> {
    match f
    case Leaf(handler) => Ok(handler)
    case Mapping(functions) =>
      if target in functions then GetHandler(functions[target], target)
      else Thrown("Function not found " + target)
  }

  /** The flattened map: what a path of keys leads to, from its last key back. */
  function Reached<H>(f: Function<H>, path: seq<string>): Option<Function<H>> {
    if path == [] then Some(f)
    else
      var last := |path| - 1;
      match Reached(f, path[..last])
      case Some(Mapping(functions)) =>
        if path[last] in functions then Some(functions[path[last]]) else None
      case _ => None
  }

  function Repeated(target: string, n: nat): (path: seq<string>)
    ensures |path| == n
  {
    seq(n, _ => target)
  }

  lemma {:induction false} ReachedFromFront<H>(f: Function<H>, path: seq<string>)
    requires path != []
    ensures Reached(f, path) ==
            match f
            case Leaf(_) => None
            case Mapping(functions) =>
              if path[0] in functions then Reached(functions[path[0]], path[1..]) else None
  {
    var last := |path| - 1;
    if last == 0 {
      assert path[..last] == [] && path[1..] == [];
      assert Reached(f, path[..last]) == Some(f);
    } else {
      ReachedFromFront(f, path[..last]);
      assert path[..last][1..] == path[1..][..last - 1];
    }
  }

  /** Every target has one end: a handler, or a map without it. The search finds which. */
  lemma {:induction false} HandlerIsReached<H>(f: Function<H>, target: string) returns (n: nat)
    ensures var end := Reached(f, Repeated(target, n));
            && end.Some?
            && match end.value
               case Leaf(handler) => GetHandler(f, target) == Ok(handler)
               case Mapping(functions) => target !in functions && GetHandler(f, target).Thrown?
  {
    n := 0;
    if f.Mapping? && target in f.functions {
      var more := HandlerIsReached(f.functions[target], target);
      n := more + 1;
      assert Repeated(target, n)[1..] == Repeated(target, more);
      ReachedFromFront(f, Repeated(target, n));
    }
  }

  lemma {:induction false} ReachedLeafIsFound<H>(f: Function<H>, target: string, n: nat, handler: H)
    requires Reached(f, Repeated(target, n)) == Some(Leaf(handler))
    ensures GetHandler(f, target) == Ok(handler)
    decreases n
  {
    if n > 0 {
      ReachedFromFront(f, Repeated(target, n));
      assert Repeated(target, n)[1..] == Repeated(target, n - 1);
      ReachedLeafIsFound(f.functions[target], target, n - 1, handler);
    }
  }

  /** The `n`th function on the way is a map that lacks the target. */
  predicate StuckAt<H>(f: Function<H>, target: string, n: nat) {
    var reached := Reached(f, Repeated(target, n));
    reached.Some? && reached.value.Mapping? && target !in reached.value.functions
  }

  lemma {:induction false} StuckIsNotFound<H>(f: Function<H>, target: string, n: nat)
    requires StuckAt(f, target, n)
    ensures GetHandler(f, target).Thrown?
    decreases n
  {
    if n > 0 {
      ReachedFromFront(f, Repeated(target, n));
      assert Repeated(target, n)[1..] == Repeated(target, n - 1);
      StuckIsNotFound(f.functions[target], target, n - 1);
    }
  }

  /** A handler is found exactly when every map on the way has the target. */
  lemma FoundWhenEveryMapHasTarget<H>(f: Function<H>, target: string)
    ensures GetHandler(f, target).Ok? <==> forall n: nat :: !StuckAt(f, target, n)
  {
    var end := HandlerIsReached(f, target);
    if n: nat :| StuckAt(f, target, n) {
      StuckIsNotFound(f, target, n);
    } else {
      assert !StuckAt(f, target, end);
    }
  }

  /** The handler that is found is the one in the flattened map. */
  lemma LookupIsFlattened<H>(f: Function<H>, target: string, handler: H)
    ensures GetHandler(f, target) == Ok(handler) <==>
            exists n: nat :: Reached(f, Repeated(target, n)) == Some(Leaf(handler))
  {
    var end := HandlerIsReached(f, target);
    if n: nat :| Reached(f, Repeated(target, n)) == Some(Leaf(handler)) {
      ReachedLeafIsFound(f, target, n, handler);
    }
  }
}
