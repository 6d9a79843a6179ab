/** Freezing a whole object graph, cycles and sharing included. */
module DeepFreeze {

  /** An object: its own enumerable values, and whether it is frozen. */
  class Node {
    var values: seq<Value>
    var frozen: bool
  }

  /** What a worklist entry can be: an object, or anything else. */
  datatype Value = Plain | Object(node: Node)

  /** Following these value positions from v, through objects of the heap, ends at n. */
  ghost predicate Leads(heap: set<Node>, v: Value, steps: seq<nat>, n: Node)
    reads heap`values
    decreases |steps|
  {
    && v.Object? && v.node in heap
    && if steps == [] then v.node == n
       else steps[0] < |v.node.values| && Leads(heap, v.node.values[steps[0]], steps[1..], n)
  }

  ghost predicate Reachable(heap: set<Node>, v: Value, n: Node)
    reads heap`values
  {
    exists steps :: Leads(heap, v, steps, n)
  }

  /** The finite graph the value lives in: no reference leaves it. */
  ghost predicate Graph(heap: set<Node>, v: Value)
    reads heap`values
  {
    && (v.Object? ==> v.node in heap)
    && forall n | n in heap :: forall w | w in n.values && w.Object? :: w.node in heap
  }

  /** The objects whose values are all dealt with: in seen, or still pending. */
  ghost predicate Covered(seen: set<Node>, pending: seq<Value>)
    reads seen`values
  {
    forall n | n in seen :: forall w | w in n.values && w.Object? :: w.node in seen || w in pending
  }

  /** A set that holds the start and is closed under references holds everything reachable. */
  lemma {:induction false} ClosedHoldsReachable(heap: set<Node>, v: Value, steps: seq<nat>, n: Node, closed: set<Node>)
    requires Leads(heap, v, steps, n) && v.node in closed && Covered(closed, [])
    ensures n in closed
    decreases |steps|
  {
    if steps != [] {
      var w := v.node.values[steps[0]];
      assert w in v.node.values;
      ClosedHoldsReachable(heap, w, steps[1..], n, closed);
    }
  }

  /** A value held by a reachable object is reachable. */
  lemma {:induction false} LeadsFurther(heap: set<Node>, v: Value, steps: seq<nat>, n: Node, i: nat)
    requires Leads(heap, v, steps, n) && i < |n.values| && n.values[i].Object? && n.values[i].node in heap
    ensures Leads(heap, v, steps + [i], n.values[i].node)
    decreases |steps|
  {
    if steps == [] {
      assert Leads(heap, n.values[i], [], n.values[i].node);
    } else {
      LeadsFurther(heap, v.node.values[steps[0]], steps[1..], n, i);
      assert (steps + [i])[1..] == steps[1..] + [i];
    }
  }

  lemma ValuesAreReachable(heap: set<Node>, v: Value, n: Node)
    requires Graph(heap, v) && n in heap && Reachable(heap, v, n)
    ensures forall w | w in n.values && w.Object? :: w.node in heap && Reachable(heap, v, w.node)
  {
    var steps :| Leads(heap, v, steps, n);
    forall w | w in n.values && w.Object? ensures Reachable(heap, v, w.node) {
      var i :| 0 <= i < |n.values| && n.values[i] == w;
      LeadsFurther(heap, v, steps, n, i);
    }
  }

  /** The worklist invariant: entries and seen objects are reachable, and what seen objects hold is dealt with. */
  ghost predicate Progress(heap: set<Node>, v: Value, seen: set<Node>, pending: seq<Value>)
    reads heap`values
  {
    && seen <= heap && Graph(heap, v) && Covered(seen, pending)
    && (forall w | w in pending && w.Object? :: w.node in heap && Reachable(heap, v, w.node))
    && (forall n | n in seen :: Reachable(heap, v, n))
    && (v.Object? ==> v.node in seen || v in pending)
  }

  lemma ProgressStarts(heap: set<Node>, v: Value)
    requires Graph(heap, v)
    ensures Progress(heap, v, {}, [v])
  {
    if v.Object? { assert Leads(heap, v, [], v.node); }
  }

  /** Popping an entry that needs nothing, or seeing its object, keeps the invariant. */
  lemma ProgressContinues(heap: set<Node>, v: Value, seen: set<Node>, pending: seq<Value>, item: Value)
    requires Progress(heap, v, seen, pending + [item])
    ensures item.Plain? || item.node in seen ==> Progress(heap, v, seen, pending)
    ensures item.Object? ==> item.node in heap && Progress(heap, v, seen + {item.node}, pending + item.node.values)
    ensures item.Object? && item.node !in seen ==> |heap - (seen + {item.node})| < |heap - seen|
  {
    assert item in pending + [item];
    if item.Object? {
      ValuesAreReachable(heap, v, item.node);
      assert heap - seen == heap - (seen + {item.node}) + (if item.node in seen then {} else {item.node});
    }
  }

  lemma ProgressEnds(heap: set<Node>, v: Value, seen: set<Node>)
    requires Progress(heap, v, seen, [])
    ensures seen <= heap && forall n | n in heap :: n in seen <==> Reachable(heap, v, n)
  {
    forall n | n in heap && Reachable(heap, v, n) ensures n in seen {
      var steps :| Leads(heap, v, steps, n);
      ClosedHoldsReachable(heap, v, steps, n, seen);
    }
  }

  /**
   * The worklist always ends, and then the frozen objects are exactly the reachable
   * ones and those that were frozen before; no value held by any object changes.
   */
  method DeepFreeze(value: Value, ghost heap: set<Node>) returns (result: Value)
    requires Graph(heap, value)
    modifies heap`frozen
    ensures result == value
    ensures forall n | n in heap :: n.frozen <==> old(n.frozen) || Reachable(heap, value, n)
  {
    ProgressStarts(heap, value);
    hide *;
    var pending: seq<Value>, seen: set<Node> := [value], {};
    while pending != []
      invariant Progress(heap, value, seen, pending)
      invariant forall n | n in heap :: n.frozen <==> old(n.frozen) || n in seen
      decreases |heap - seen|, |pending|
    {
      pending, seen := Visit(value, pending, seen, heap);
    }
    ProgressEnds(heap, value, seen);
    result := value;
  }

  /** One turn of the worklist. */
  method Visit(ghost value: Value, pending: seq<Value>, seen: set<Node>, ghost heap: set<Node>)
    returns (pending': seq<Value>, seen': set<Node>)
    requires pending != [] && Progress(heap, value, seen, pending)
    modifies heap`frozen
    ensures Progress(heap, value, seen', pending') && seen <= seen'
    ensures |heap - seen'| < |heap - seen| || (seen' == seen && |pending'| < |pending|)
    ensures forall n | n in heap :: n.frozen <==> old(n.frozen) || n in seen' - seen
  {
    var last := |pending| - 1;
    var item := pending[last];
    assert pending == pending[..last] + [item];
    ProgressContinues(heap, value, seen, pending[..last], item);
    hide *;
    if item.Plain? || item.node in seen { return pending[..last], seen; }
    seen' := seen + {item.node};
    pending' := pending[..last] + item.node.values;
    item.node.frozen := true;
  }
}
