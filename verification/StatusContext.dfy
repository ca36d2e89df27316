/**
 * The status-context pass: every element of the scene is annotated with the set of statuses
 * from which it can be reached, that is, the values of `status` under which the dispatch
 * function runs its code.
 *
 * The pass is a fork/join dataflow over the tree. A context flows into each element and the
 * element adds it to its own context. A suspend point (a message or an options message)
 * resets the flowing context to its own status. A parallel element (a switch, an options
 * message) gives each child its own copy of the context and joins the children's exit
 * contexts by union. A serial element (a case, an option) threads one context through its
 * children in order.
 *
 * `Assign` gives the result; the method `AssignStatusContext` computes it with the source's
 * loops and is proved to agree with it.
 */
module StatusContext {
  import opened Elements

  /**
   * The annotated element and its exit context, for the incoming context `ctx`. The element's
   * own context gains the incoming statuses and loses none of those it had.
   */
  function Assign(n: Node, ctx: set<int>): (r: (Node, set<int>))
    ensures ctx <= r.0.ctx && n.ctx <= r.0.ctx && r.0.ctx <= n.ctx + ctx
    decreases n, 1
  {
    var entry := if n.ControlFlowBreaker() then {n.status} else ctx;
    if !n.HasChildren() then (n.WithContext(n.ctx + ctx), entry)
    else
      var (cs, out) := if n.Parallel() then AssignParallel(n.children, entry) else AssignSerial(n.children, entry);
      (n.WithContext(n.ctx + ctx).WithChildren(cs), out)
  }

  /** The exit context of an element. */
  function Exit(n: Node, ctx: set<int>): set<int>
  {
    Assign(n, ctx).1
  }

  /** Each child annotated from the same context; the exit is the union of the children's exits. */
  function AssignParallel(cs: seq<Node>, ctx: set<int>): (r: (seq<Node>, set<int>))
    ensures |r.0| == |cs|
    decreases cs, 0
  {
    if cs == [] then ([], {})
    else
      var (front, outs) := AssignParallel(cs[..|cs| - 1], ctx);
      var (c, out) := Assign(cs[|cs| - 1], ctx);
      (front + [c], outs + out)
  }

  /** The children annotated in order, each from the exit context of the one before. */
  function AssignSerial(cs: seq<Node>, ctx: set<int>): (r: (seq<Node>, set<int>))
    ensures |r.0| == |cs|
    decreases cs, 0
  {
    if cs == [] then ([], ctx)
    else
      var (front, mid) := AssignSerial(cs[..|cs| - 1], ctx);
      var (c, out) := Assign(cs[|cs| - 1], mid);
      (front + [c], out)
  }

  /**
   * `HaJSCompiler.AssignStatusContext`: the element's context gains the incoming statuses; a
   * suspend point replaces the flowing context by its own status; a parallel element runs
   * each child on a copy and collects the union; a serial element passes the context along.
   */
  method AssignStatusContext(n: Node, ctx: set<int>) returns (m: Node, out: set<int>)
    ensures (m, out) == Assign(n, ctx)
    decreases n
  {
    m := n.WithContext(n.ctx + ctx);
    out := ctx;
    if n.ControlFlowBreaker() {
      out := {n.status};
    }
    if n.HasChildren() {
      var cs: seq<Node> := [];
      var i := 0;
      if n.Parallel() {
        var result: set<int> := {};
        while i < |n.children|
          invariant 0 <= i <= |n.children|
          invariant (cs, result) == AssignParallel(n.children[..i], out)
        {
          assert n.children[..i + 1][..i] == n.children[..i];
          var c, exit := AssignStatusContext(n.children[i], out);
          cs := cs + [c];
          result := result + exit;
          i := i + 1;
        }
        out := result;
      } else {
        ghost var entry := out;
        while i < |n.children|
          invariant 0 <= i <= |n.children|
          invariant (cs, out) == AssignSerial(n.children[..i], entry)
        {
          assert n.children[..i + 1][..i] == n.children[..i];
          var c, exit := AssignStatusContext(n.children[i], out);
          cs := cs + [c];
          out := exit;
          i := i + 1;
        }
      }
      assert n.children[..i] == n.children;
      m := m.WithChildren(cs);
    }
  }

  // ----- fork and join -----

  /**
   * A parallel fork: every child is annotated from the same incoming context, independently of
   * its siblings, and the exit is exactly the union of the children's exits (empty without children).
   */
  lemma {:induction false} ParallelFork(cs: seq<Node>, ctx: set<int>)
    ensures forall i :: 0 <= i < |cs| ==> AssignParallel(cs, ctx).0[i] == Assign(cs[i], ctx).0
    ensures forall x :: x in AssignParallel(cs, ctx).1 <==> exists i :: 0 <= i < |cs| && x in Exit(cs[i], ctx)
    ensures cs == [] ==> AssignParallel(cs, ctx).1 == {}
    decreases |cs|
  {
    if cs != [] {
      var front := cs[..|cs| - 1];
      ParallelFork(front, ctx);
      forall i | 0 <= i < |cs|
        ensures AssignParallel(cs, ctx).0[i] == Assign(cs[i], ctx).0
      {
        if i < |cs| - 1 {
          assert cs[i] == front[i];
        }
      }
      forall x
        ensures x in AssignParallel(cs, ctx).1 <==> exists i :: 0 <= i < |cs| && x in Exit(cs[i], ctx)
      {
        if x in AssignParallel(front, ctx).1 {
          var i :| 0 <= i < |front| && x in Exit(front[i], ctx);
          assert cs[i] == front[i];
        }
        if exists i :: 0 <= i < |cs| && x in Exit(cs[i], ctx) {
          var i :| 0 <= i < |cs| && x in Exit(cs[i], ctx);
          if i < |cs| - 1 {
            assert cs[i] == front[i];
          }
        }
      }
    }
  }

  /** A serial fork over two runs of children is the second run started from the exit of the first. */
  lemma {:induction false} SerialCompose(a: seq<Node>, b: seq<Node>, ctx: set<int>)
    ensures var (ca, mid) := AssignSerial(a, ctx);
      AssignSerial(a + b, ctx) == (ca + AssignSerial(b, mid).0, AssignSerial(b, mid).1)
    decreases |b|
  {
    if b == [] {
      assert a + b == a;
      var (ca, mid) := AssignSerial(a, ctx);
      assert AssignSerial(b, mid) == ([], mid);
      assert ca + [] == ca;
    } else {
      var front := b[..|b| - 1];
      assert (a + b)[..|a + b| - 1] == a + front;
      assert (a + b)[|a + b| - 1] == b[|b| - 1];
      SerialCompose(a, front, ctx);
      var (ca, mid) := AssignSerial(a, ctx);
      var (cf, midf) := AssignSerial(front, mid);
      var (c, out) := Assign(b[|b| - 1], midf);
      assert AssignSerial(b, mid) == (cf + [c], out);
      assert AssignSerial(a + b, ctx) == ((ca + cf) + [c], out);
      assert (ca + cf) + [c] == ca + (cf + [c]);
    }
  }

  /**
   * A suspend point forgets the incoming context: its exit, and the context its children start
   * from, are determined by its own status alone. A message's exit is exactly its status, and
   * every option of an options message is reachable from the options' status.
   */
  lemma SuspendResets(n: Node, a: set<int>, b: set<int>)
    requires n.ControlFlowBreaker()
    ensures Exit(n, a) == Exit(n, b)
    ensures Assign(n, a).0.WithContext({}) == Assign(n, b).0.WithContext({})
    ensures n.MessageNode? ==> Exit(n, a) == {n.status}
    ensures n.OptionsNode? ==> forall i :: 0 <= i < |n.children| ==> n.status in Assign(n, a).0.children[i].ctx
  {
    if n.OptionsNode? {
      ParallelFork(n.children, {n.status});
    }
  }

  // ----- algebraic laws of the exit context -----

  /** The exit context distributes over the union of incoming contexts. */
  lemma {:induction false} ExitDistributes(n: Node, a: set<int>, b: set<int>)
    ensures Exit(n, a + b) == Exit(n, a) + Exit(n, b)
    decreases n, 1
  {
    if n.HasChildren() && !n.ControlFlowBreaker() {
      if n.Parallel() {
        ParallelDistributes(n.children, a, b);
      } else {
        SerialDistributes(n.children, a, b);
      }
    }
  }

  lemma {:induction false} ParallelDistributes(cs: seq<Node>, a: set<int>, b: set<int>)
    ensures AssignParallel(cs, a + b).1 == AssignParallel(cs, a).1 + AssignParallel(cs, b).1
    decreases cs, 0
  {
    if cs != [] {
      ParallelDistributes(cs[..|cs| - 1], a, b);
      ExitDistributes(cs[|cs| - 1], a, b);
    }
  }

  lemma {:induction false} SerialDistributes(cs: seq<Node>, a: set<int>, b: set<int>)
    ensures AssignSerial(cs, a + b).1 == AssignSerial(cs, a).1 + AssignSerial(cs, b).1
    decreases cs, 0
  {
    if cs != [] {
      var front := cs[..|cs| - 1];
      SerialDistributes(front, a, b);
      ExitDistributes(cs[|cs| - 1], AssignSerial(front, a).1, AssignSerial(front, b).1);
    }
  }

  /** The statuses of the suspend points in a subtree. */
  function Statuses(n: Node): set<int>
    decreases n, 1
  {
    (if n.ControlFlowBreaker() then {n.status} else {}) + (if n.HasChildren() then StatusesOf(n.children) else {})
  }

  function StatusesOf(cs: seq<Node>): set<int>
    decreases cs, 0
  {
    if cs == [] then {} else StatusesOf(cs[..|cs| - 1]) + Statuses(cs[|cs| - 1])
  }

  /** An element can only be left with statuses that came in or that belong to its own suspend points. */
  lemma {:induction false} ExitBounded(n: Node, ctx: set<int>)
    ensures Exit(n, ctx) <= ctx + Statuses(n)
    decreases n, 1
  {
    if n.HasChildren() {
      var entry := if n.ControlFlowBreaker() then {n.status} else ctx;
      if n.Parallel() {
        ParallelBounded(n.children, entry);
      } else {
        SerialBounded(n.children, entry);
      }
    }
  }

  lemma {:induction false} ParallelBounded(cs: seq<Node>, ctx: set<int>)
    ensures AssignParallel(cs, ctx).1 <= ctx + StatusesOf(cs)
    decreases cs, 0
  {
    if cs != [] {
      ParallelBounded(cs[..|cs| - 1], ctx);
      ExitBounded(cs[|cs| - 1], ctx);
    }
  }

  lemma {:induction false} SerialBounded(cs: seq<Node>, ctx: set<int>)
    ensures AssignSerial(cs, ctx).1 <= ctx + StatusesOf(cs)
    decreases cs, 0
  {
    if cs != [] {
      var front := cs[..|cs| - 1];
      SerialBounded(front, ctx);
      ExitBounded(cs[|cs| - 1], AssignSerial(front, ctx).1);
    }
  }

  // ----- non-empty contexts -----

  /** Every parallel element in the subtree has at least one child. */
  predicate ForksNonEmpty(n: Node)
    decreases n, 1
  {
    (n.Parallel() ==> n.children != []) && (n.HasChildren() ==> AllForksNonEmpty(n.children))
  }

  predicate AllForksNonEmpty(cs: seq<Node>)
    decreases cs, 0
  {
    cs == [] || (AllForksNonEmpty(cs[..|cs| - 1]) && ForksNonEmpty(cs[|cs| - 1]))
  }

  /** Every element in the subtree has a non-empty status context. */
  predicate Reachable(n: Node)
    decreases n, 1
  {
    n.ctx != {} && (n.HasChildren() ==> AllReachable(n.children))
  }

  predicate AllReachable(cs: seq<Node>)
    decreases cs, 0
  {
    cs == [] || (AllReachable(cs[..|cs| - 1]) && Reachable(cs[|cs| - 1]))
  }

  /**
   * From a non-empty context, and when no switch or options message is childless, every
   * element gets a non-empty status context and the exit context is not empty either.
   */
  lemma {:induction false} ContextsNonEmpty(n: Node, ctx: set<int>)
    requires ctx != {} && ForksNonEmpty(n)
    ensures Exit(n, ctx) != {}
    ensures Reachable(Assign(n, ctx).0)
    decreases n, 1
  {
    var entry := if n.ControlFlowBreaker() then {n.status} else ctx;
    assert entry != {} by {
      if n.ControlFlowBreaker() {
        assert n.status in entry;
      }
    }
    if n.HasChildren() {
      if n.Parallel() {
        ParallelNonEmpty(n.children, entry);
      } else {
        SerialNonEmpty(n.children, entry);
      }
    }
  }

  lemma {:induction false} ParallelNonEmpty(cs: seq<Node>, ctx: set<int>)
    requires ctx != {} && AllForksNonEmpty(cs)
    ensures cs != [] ==> AssignParallel(cs, ctx).1 != {}
    ensures AllReachable(AssignParallel(cs, ctx).0)
    decreases cs, 0
  {
    if cs != [] {
      var front := cs[..|cs| - 1];
      ParallelNonEmpty(front, ctx);
      ContextsNonEmpty(cs[|cs| - 1], ctx);
      var r := AssignParallel(cs, ctx).0;
      assert r[..|r| - 1] == AssignParallel(front, ctx).0;
    }
  }

  lemma {:induction false} SerialNonEmpty(cs: seq<Node>, ctx: set<int>)
    requires ctx != {} && AllForksNonEmpty(cs)
    ensures AssignSerial(cs, ctx).1 != {}
    ensures AllReachable(AssignSerial(cs, ctx).0)
    decreases cs, 0
  {
    if cs != [] {
      var front := cs[..|cs| - 1];
      SerialNonEmpty(front, ctx);
      ContextsNonEmpty(cs[|cs| - 1], AssignSerial(front, ctx).1);
      var r := AssignSerial(cs, ctx).0;
      assert r[..|r| - 1] == AssignSerial(front, ctx).0;
    }
  }

  // ----- shape -----

  /** The element tree with every status context emptied. */
  function Strip(n: Node): Node
    decreases n, 1
  {
    if n.HasChildren() then n.WithContext({}).WithChildren(StripAll(n.children)) else n.WithContext({})
  }

  function StripAll(cs: seq<Node>): (r: seq<Node>)
    ensures |r| == |cs|
    decreases cs, 0
  {
    if cs == [] then [] else StripAll(cs[..|cs| - 1]) + [Strip(cs[|cs| - 1])]
  }

  /** The pass changes the status contexts and nothing else: kinds, texts, statuses and children stay. */
  lemma {:induction false} ShapePreserved(n: Node, ctx: set<int>)
    ensures Strip(Assign(n, ctx).0) == Strip(n)
    decreases n, 1
  {
    if n.HasChildren() {
      var entry := if n.ControlFlowBreaker() then {n.status} else ctx;
      if n.Parallel() {
        ParallelShape(n.children, entry);
      } else {
        SerialShape(n.children, entry);
      }
    }
  }

  lemma {:induction false} ParallelShape(cs: seq<Node>, ctx: set<int>)
    ensures StripAll(AssignParallel(cs, ctx).0) == StripAll(cs)
    decreases cs, 0
  {
    if cs != [] {
      var front := cs[..|cs| - 1];
      ParallelShape(front, ctx);
      ShapePreserved(cs[|cs| - 1], ctx);
      var r := AssignParallel(cs, ctx).0;
      assert r[..|r| - 1] == AssignParallel(front, ctx).0;
    }
  }

  lemma {:induction false} SerialShape(cs: seq<Node>, ctx: set<int>)
    ensures StripAll(AssignSerial(cs, ctx).0) == StripAll(cs)
    decreases cs, 0
  {
    if cs != [] {
      var front := cs[..|cs| - 1];
      SerialShape(front, ctx);
      ShapePreserved(cs[|cs| - 1], AssignSerial(front, ctx).1);
      var r := AssignSerial(cs, ctx).0;
      assert r[..|r| - 1] == AssignSerial(front, ctx).0;
    }
  }
}
