/**
 * The compiler: it builds the element tree of a scene from its tags, assigns status contexts,
 * generates the code of every element into the buffer of its status context, and assembles the
 * script: a dispatch function with one `if (status == …)` block per context, in the order the
 * contexts were first met.
 *
 * `Compiler` keeps the state the source keeps in its fields: the dependency set, the number of
 * registered messages (their ids), the list of contexts met so far and, parallel to it, the
 * buffer of each context (`sbl` in the source, here the `Writer` value of each buffer).
 */
module HaJSCompiler {
  import opened Results
  import opened Text
  import opened Features
  import opened Elements
  import opened Indented
  import opened StatusContext
  import opened SceneBuilder
  import opened Dispatch

  // ----- collections -----

  /** No element occurs twice. */
  predicate Distinct<T(==)>(xs: seq<T>)
  {
    forall i, j :: 0 <= i < j < |xs| ==> xs[i] != xs[j]
  }

  /** `xs` lists the elements of `s`, each once, in some order (how a hash set enumerates). */
  ghost predicate Enumerates<T(!new)>(xs: seq<T>, s: set<T>)
  {
    (forall x :: x in xs <==> x in s) && Distinct(xs)
  }

  /** The first `k` guard lists each enumerate the context at their position, and none is empty. */
  ghost predicate GuardsFor(guards: seq<seq<int>>, cs: seq<set<int>>, k: nat)
  {
    |guards| == k <= |cs| && forall j :: 0 <= j < k ==> guards[j] != [] && Enumerates(guards[j], cs[j])
  }

  lemma GuardsForSnoc(guards: seq<seq<int>>, cs: seq<set<int>>, k: nat, xs: seq<int>)
    requires GuardsFor(guards, cs, k) && k < |cs| && xs != [] && Enumerates(xs, cs[k])
    ensures GuardsFor(guards + [xs], cs, k + 1)
  {
  }

  /** A context with a non-empty enumeration is not empty. */
  lemma GuardsForNonEmpty(guards: seq<seq<int>>, cs: seq<set<int>>)
    requires GuardsFor(guards, cs, |cs|)
    ensures forall j :: 0 <= j < |cs| ==> cs[j] != {}
  {
    forall j | 0 <= j < |cs|
      ensures cs[j] != {}
    {
      assert guards[j][0] in cs[j];
    }
  }

  /** The distinct contexts of a context list. */
  function Known(cs: seq<set<int>>): (r: set<set<int>>)
    ensures forall c :: c in r <==> c in cs
  {
    set c | c in cs
  }

  /** The empty context is among the distinct contexts exactly when some entry of the list is empty. */
  lemma EmptyKnown(cs: seq<set<int>>)
    ensures {} in Known(cs) <==> exists k :: 0 <= k < |cs| && cs[k] == {}
  {
  }

  /** Enumerating a hash set: some order of its elements. */
  method Enumerate<T(==, !new)>(s: set<T>) returns (xs: seq<T>)
    ensures Enumerates(xs, s)
    ensures |xs| == |s|
  {
    xs := [];
    var rest := s;
    while rest != {}
      invariant rest <= s
      invariant forall x :: x in xs <==> x in s && x !in rest
      invariant Distinct(xs)
      invariant |xs| + |rest| == |s|
      decreases |rest|
    {
      if forall x :: x !in rest {
        assert false;
      }
      var x :| x in rest;
      xs := xs + [x];
      rest := rest - {x};
    }
  }

  /** Two sets of the same size, one inside the other, are equal. */
  lemma SameSizeSubset(a: set<int>, b: set<int>)
    requires a <= b && |a| == |b|
    ensures a == b
  {
    assert b == a + (b - a);
    assert |b - a| == 0;
  }

  // ----- what the compiler writes -----

  /** The contexts whose buffers an element's compilation asks for. */
  function ResumeKeys(n: Node): set<set<int>>
  {
    if n.OptionsNode? || (n.MessageNode? && (n.style.PrevNextStyle? || n.style.YesNoStyle?)) then {{n.status}} else {}
  }

  /**
   * The contexts whose buffers compiling a tree touches: the context of every element, and for
   * a back/next message, a yes/no message and an options message the context `{status}` in which
   * its continuation runs.
   */
  function Keys(n: Node): set<set<int>>
    decreases n, 1
  {
    {n.ctx} + ResumeKeys(n) + (if n.HasChildren() then KeysOf(n.children) else {})
  }

  function KeysOf(ns: seq<Node>): set<set<int>>
    decreases ns, 0
  {
    if ns == [] then {} else KeysOf(ns[..|ns| - 1]) + Keys(ns[|ns| - 1])
  }

  // ----- the dependencies a compile records -----

  /** The dependency compiling the feature `name` records, if the configuration has it. */
  function NamedDeps(cfg: Config, name: string): set<string>
  {
    if name in cfg.features then Recorded({}, cfg.features[name]) else {}
  }

  /**
   * The dependencies a suspend point records while writing its own lines: its dialogue
   * feature's, and for an Ok message `special_End`'s.
   */
  function SuspendDeps(cfg: Config, m: Node): set<string>
    requires m.ControlFlowBreaker()
  {
    NamedDeps(cfg, DialogFeature(m)) + (if m.MessageNode? && m.style.OkStyle? then NamedDeps(cfg, "special_End") else {})
  }

  /** The dependencies `PostCompile` records: those of `dlg_Ok` and `special_End` for a yes/no message. */
  function PostDeps(cfg: Config, m: Node): set<string>
  {
    if m.MessageNode? && m.style.YesNoStyle? then NamedDeps(cfg, "dlg_Ok") + NamedDeps(cfg, "special_End") else {}
  }

  /** The dependency the header of a switch's child records: the switch feature's, unless it is the default case. */
  function CaseDeps(f: SwitchFeature, n: Node): set<string>
  {
    if n.CaseNode? then CaseRecorded({}, n.kind, f) else {}
  }

  /**
   * The dependencies compiling an element records: a command's feature, the switch feature for
   * every case but the default one, a suspend point's dialogue feature (with `special_End` for an
   * Ok message, and `dlg_Ok` and `special_End` for a yes/no message), and those of the children.
   */
  function DepsOf(cfg: Config, n: Node): set<string>
    decreases n, 1
  {
    match n
    case SwitchNode(f, cs, _) => CaseDepsOf(cfg, f, cs)
    case CaseNode(_, cs, _) => DepsOfAll(cfg, cs)
    case MessageNode(_, _, _, _) => SuspendDeps(cfg, n) + PostDeps(cfg, n)
    case OptionsNode(_, _, cs, _) => SuspendDeps(cfg, n) + DepsOfAll(cfg, cs)
    case OptionNode(_, cs, _) => DepsOfAll(cfg, cs)
    case CommandNode(f, _, _, _, _) => Recorded({}, f)
  }

  function DepsOfAll(cfg: Config, ns: seq<Node>): set<string>
    decreases ns, 0
  {
    if ns == [] then {} else DepsOfAll(cfg, ns[..|ns| - 1]) + DepsOf(cfg, ns[|ns| - 1])
  }

  /** The dependencies of a switch's children, each with its case header's. */
  function CaseDepsOf(cfg: Config, f: SwitchFeature, ns: seq<Node>): set<string>
    decreases ns, 0
  {
    if ns == [] then {} else CaseDepsOf(cfg, f, ns[..|ns| - 1]) + CaseDeps(f, ns[|ns| - 1]) + DepsOf(cfg, ns[|ns| - 1])
  }

  /**
   * The dependencies do not depend on the status contexts: an element records what its
   * stripped shape records.
   */
  lemma {:induction false} DepsOfStrip(cfg: Config, n: Node)
    ensures DepsOf(cfg, Strip(n)) == DepsOf(cfg, n)
    decreases n, 1
  {
    match n
    case SwitchNode(f, cs, _) => DepsOfStripAll(cfg, cs);
    case CaseNode(_, cs, _) => DepsOfStripAll(cfg, cs);
    case MessageNode(_, _, _, _) =>
    case OptionsNode(_, _, cs, _) => DepsOfStripAll(cfg, cs);
    case OptionNode(_, cs, _) => DepsOfStripAll(cfg, cs);
    case CommandNode(_, _, _, _, _) =>
  }

  lemma {:induction false} DepsOfStripAll(cfg: Config, ns: seq<Node>)
    ensures DepsOfAll(cfg, StripAll(ns)) == DepsOfAll(cfg, ns)
    ensures forall f: SwitchFeature :: CaseDepsOf(cfg, f, StripAll(ns)) == CaseDepsOf(cfg, f, ns)
    decreases ns, 0
  {
    if ns != [] {
      var front, last := ns[..|ns| - 1], ns[|ns| - 1];
      DepsOfStripAll(cfg, front);
      DepsOfStrip(cfg, last);
      var r := StripAll(ns);
      assert r[..|r| - 1] == StripAll(front) && r[|r| - 1] == Strip(last);
    }
  }

  /** Assigning status contexts leaves the dependencies of a tree as they were. */
  lemma DepsOfAssigned(cfg: Config, n: Node, ctx: set<int>)
    ensures DepsOf(cfg, Assign(n, ctx).0) == DepsOf(cfg, n)
  {
    ShapePreserved(n, ctx);
    DepsOfStrip(cfg, Assign(n, ctx).0);
    DepsOfStrip(cfg, n);
  }

  /**
   * A suspend point's own lines, then `PostCompile`, then what follows it record the
   * dependencies of the whole suspend point.
   */
  lemma SuspendDepsSum(cfg: Config, m: Node, d0: set<string>, d1: set<string>, d2: set<string>, d3: set<string>)
    requires m.ControlFlowBreaker()
    requires d1 == d0 + SuspendDeps(cfg, m) && d2 == d1 + PostDeps(cfg, m)
    requires d3 == d2 + (if m.OptionsNode? then DepsOfAll(cfg, m.children) else {})
    ensures d3 == d0 + DepsOf(cfg, m)
  {
  }

  /**
   * The dependencies recorded after the first `i` children, then child `i`, are those of the
   * first `i + 1` children.
   */
  lemma DepsOfAllStep(cfg: Config, ns: seq<Node>, i: nat, d0: set<string>, d1: set<string>, d2: set<string>)
    requires i < |ns|
    requires d1 == d0 + DepsOfAll(cfg, ns[..i]) && d2 == d1 + DepsOf(cfg, ns[i])
    ensures d2 == d0 + DepsOfAll(cfg, ns[..i + 1])
  {
    assert ns[..i + 1][..i] == ns[..i];
  }

  lemma CaseDepsOfStep(cfg: Config, f: SwitchFeature, ns: seq<Node>, i: nat, d0: set<string>, d1: set<string>, d2: set<string>)
    requires i < |ns|
    requires d1 == d0 + CaseDepsOf(cfg, f, ns[..i]) && d2 == d1 + CaseDeps(f, ns[i]) + DepsOf(cfg, ns[i])
    ensures d2 == d0 + CaseDepsOf(cfg, f, ns[..i + 1])
  {
    assert ns[..i + 1][..i] == ns[..i];
  }

  /** A header line and a braced block holding `body`, the braces at the header's indentation. */
  function BlockText(level: int, header: string, body: string): string
  {
    IndentString(level) + header + CRLF + IndentString(level) + "{" + CRLF + body + IndentString(level) + "}" + CRLF
  }

  /** One block per header, in order, the `i`-th holding `bodies[i]`. */
  function BlocksText(level: int, headers: seq<string>, bodies: seq<string>): string
    requires |headers| == |bodies|
  {
    if headers == [] then ""
    else BlocksText(level, headers[..|headers| - 1], bodies[..|bodies| - 1]) + BlockText(level, headers[|headers| - 1], bodies[|bodies| - 1])
  }

  /**
   * A header line, an Enter, whatever was written one level deeper, and a Leave: the text gained
   * is a block at the outer level holding what was written inside.
   */
  lemma BlockWritten(w0: Writer, header: string, w1: Writer) returns (body: string)
    requires Entered(LineAppended(w0, header)).text <= w1.text && w1.level == w0.level + 1
    ensures Left(w1).text == w0.text + BlockText(w0.level, header, body)
  {
    var a := IndentString(w0.level);
    var head := a + header + CRLF + a + "{" + CRLF;
    var tail := a + "}" + CRLF;
    assert Entered(LineAppended(w0, header)).text == w0.text + head;
    body := w1.text[|w0.text + head|..];
    assert w1.text == w0.text + head + body;
    assert Left(w1).text == w1.text + tail;
    assert BlockText(w0.level, header, body) == head + body + tail;
  }

  /** A text holding the first `i` blocks, then block `i`, holds the first `i + 1` blocks. */
  lemma BlocksTextStep(t0: string, t1: string, t2: string, level: int, headers: seq<string>, bodies: seq<string>, body: string)
    requires |bodies| < |headers|
    requires t1 == t0 + BlocksText(level, headers[..|bodies|], bodies)
    requires t2 == t1 + BlockText(level, headers[|bodies|], body)
    ensures t2 == t0 + BlocksText(level, headers[..|bodies| + 1], bodies + [body])
  {
    var i := |bodies|;
    assert headers[..i + 1][..i] == headers[..i];
    assert (bodies + [body])[..i] == bodies;
  }

  /** The header of the `i`-th arm of an options message's selection. */
  function ArmHeader(i: nat): string
  {
    (if i == 0 then "if" else "else if") + " (selection == " + IntToString(i) + ")"
  }

  /** The headers of the arms of an options message with `n` options. */
  function ArmHeaders(n: nat): seq<string>
  {
    seq(n, i requires 0 <= i => ArmHeader(i))
  }

  /** The header of a switch's child: its case header if it is a case. */
  function CaseHeaderOf(f: SwitchFeature, manager: string, n: Node, first: bool): string
  {
    if n.CaseNode? then CaseHeader(n.kind, f, manager, first) else ""
  }

  /** `w` is `w0` followed by the `n` arms of an options message's selection, each holding some code. */
  ghost predicate ArmsWritten(w0: Writer, w: Writer, n: nat)
  {
    exists bodies: seq<string> :: |bodies| == n && w.text == w0.text + BlocksText(w0.level, ArmHeaders(n), bodies)
  }

  /** The headers of a switch's children: the case header of each case (the first opens with `if`). */
  function CaseHeaders(f: SwitchFeature, manager: string, children: seq<Node>): seq<string>
  {
    seq(|children|, i requires 0 <= i < |children| => CaseHeaderOf(f, manager, children[i], i == 0))
  }

  /** `w` is `w0` followed by one block per case of a switch, each holding some code. */
  ghost predicate CasesWritten(f: SwitchFeature, manager: string, children: seq<Node>, w0: Writer, w: Writer)
  {
    exists bodies: seq<string> :: |bodies| == |children| && w.text == w0.text + BlocksText(w0.level, CaseHeaders(f, manager, children), bodies)
  }

  /**
   * What compiling an element writes into the buffer of its own context, `w0` becoming `w`, by
   * its kind: a switch its case blocks; a command its one line; a message or options message
   * first its suspend lines. A serial element's children write what they write, so its buffer
   * only grows.
   */
  ghost predicate Wrote(cfg: Config, root: Node, w0: Writer, w: Writer)
  {
    if root.SwitchNode? then CasesWritten(root.switchType, cfg.manager, root.children, w0, w)
    else if root.HasChildren() && !root.Parallel() then w0.text <= w.text
    else if root.CommandNode? then w == LineAppended(w0, CompileText(root.feature, cfg.manager, root.x, root.y, root.z))
    else root.ControlFlowBreaker() && SuspendLines(cfg, root).Ok? && LinesAppended(w0, SuspendLines(cfg, root).value).text <= w.text
  }

  /**
   * Some buffer kept for context `ctx` holds what `Wrote` says of `root`, written after the text it
   * had in `b0` (an empty writer if the buffer was not there yet).
   */
  ghost predicate WroteIn(cfg: Config, root: Node, ctx: set<int>, b0: seq<Writer>, contexts: seq<set<int>>, buffers: seq<Writer>)
  {
    exists k :: 0 <= k < |contexts| && k < |buffers| && contexts[k] == ctx &&
      Wrote(cfg, root, if k < |b0| then b0[k] else NewWriter(), buffers[k])
  }

  /** An element's own context, then what its body meets, are the contexts of the element. */
  lemma KeysSum(k0: set<set<int>>, k1: set<set<int>>, k2: set<set<int>>, n: Node)
    requires k1 == k0 + {n.ctx}
    requires k2 == k1 + ResumeKeys(n) + (if n.HasChildren() then KeysOf(n.children) else {})
    ensures k2 == k0 + Keys(n)
  {
  }

  /** The contexts of the first `i + 1` children are those of the first `i` and of child `i`. */
  lemma KeysOfStep(ns: seq<Node>, i: nat)
    requires i < |ns|
    ensures KeysOf(ns[..i + 1]) == KeysOf(ns[..i]) + Keys(ns[i])
  {
    assert ns[..i + 1][..i] == ns[..i];
  }

  /** When every element has a status context, no context a compile asks for is empty. */
  lemma {:induction false} ReachableKeys(n: Node)
    requires Reachable(n)
    ensures {} !in Keys(n)
    decreases n, 1
  {
    if n.HasChildren() {
      ReachableKeysOf(n.children);
    }
  }

  lemma {:induction false} ReachableKeysOf(ns: seq<Node>)
    requires AllReachable(ns)
    ensures {} !in KeysOf(ns)
    decreases ns, 0
  {
    if ns != [] {
      ReachableKeysOf(ns[..|ns| - 1]);
      ReachableKeys(ns[|ns| - 1]);
    }
  }

  /**
   * A scene in which no switch and no options message is childless never stops for an empty
   * status context: annotated from `{-1}`, none of the contexts its compile asks for is empty.
   */
  lemma NoEmptyContext(main: Node)
    requires ForksNonEmpty(main)
    ensures {} !in Keys(Assign(main, {-1}).0)
  {
    ContextsNonEmpty(main, {-1});
    ReachableKeys(Assign(main, {-1}).0);
  }

  /** Every element is a case. */
  predicate AllCases(ns: seq<Node>)
  {
    forall j :: 0 <= j < |ns| ==> ns[j].CaseNode?
  }

  lemma AllCasesStep(ns: seq<Node>, i: nat)
    requires i < |ns| && AllCases(ns[..i]) && ns[i].CaseNode?
    ensures AllCases(ns[..i + 1])
  {
  }

  /** The first `i` elements compile, and so does element `i`: the first `i + 1` compile. */
  lemma AllCompilableStep(cfg: Config, ns: seq<Node>, i: nat, p: Node)
    requires i < |ns| && AllCompilable(cfg, ns[..i], p) && Compilable(cfg, ns[i], Some(p))
    ensures AllCompilable(cfg, ns[..i + 1], p)
  {
    assert forall j :: 0 <= j < i ==> ns[..i + 1][j] == ns[..i][j];
  }

  /** Buffers only grow: the context list keeps its prefix and every old buffer keeps its text. */
  ghost predicate Grown(c0: seq<set<int>>, b0: seq<Writer>, c1: seq<set<int>>, b1: seq<Writer>)
  {
    c0 <= c1 && |b0| <= |b1| && forall k :: 0 <= k < |b0| ==> b0[k].text <= b1[k].text
  }

  /** Every Enter was matched by a Leave: old buffers are back at their level, new ones at the default. */
  ghost predicate LevelsKept(b0: seq<Writer>, b1: seq<Writer>)
  {
    && |b0| <= |b1|
    && (forall k :: 0 <= k < |b0| ==> b1[k].level == b0[k].level)
    && (forall k :: |b0| <= k < |b1| ==> b1[k].level == DefaultIndent)
  }

  /** Growth and balanced levels carry over a sequence of two steps. */
  lemma Chain(c0: seq<set<int>>, b0: seq<Writer>, c1: seq<set<int>>, b1: seq<Writer>, c2: seq<set<int>>, b2: seq<Writer>)
    requires Grown(c0, b0, c1, b1) && Grown(c1, b1, c2, b2)
    requires LevelsKept(b0, b1) && LevelsKept(b1, b2)
    ensures Grown(c0, b0, c2, b2) && LevelsKept(b0, b2)
  {
  }

  /** One more child compiled after the first `i`: growth, balanced levels and the contexts met extend by that child. */
  lemma ChildStep(c0: seq<set<int>>, b0: seq<Writer>, c1: seq<set<int>>, b1: seq<Writer>, c2: seq<set<int>>, b2: seq<Writer>,
                  ns: seq<Node>, i: nat)
    requires i < |ns|
    requires Grown(c0, b0, c1, b1) && LevelsKept(b0, b1) && Grown(c1, b1, c2, b2) && LevelsKept(b1, b2)
    requires Known(c1) == Known(c0) + KeysOf(ns[..i]) && Known(c2) == Known(c1) + Keys(ns[i])
    ensures Grown(c0, b0, c2, b2) && LevelsKept(b0, b2)
    ensures Known(c2) == Known(c0) + KeysOf(ns[..i + 1])
  {
    Chain(c0, b0, c1, b1, c2, b2);
    KeysOfStep(ns, i);
  }

  /**
   * One more child compiled into a block after the first `|bodies|`: growth, balanced levels, the
   * contexts met and the blocks written so far all extend by that child.
   */
  lemma BlockStep(c0: seq<set<int>>, b0: seq<Writer>, c1: seq<set<int>>, b1: seq<Writer>, c2: seq<set<int>>, b2: seq<Writer>,
                  k: nat, ns: seq<Node>, headers: seq<string>, bodies: seq<string>, body: string)
    requires k < |b0| && |bodies| < |ns| == |headers|
    requires Grown(c0, b0, c1, b1) && LevelsKept(b0, b1) && Grown(c1, b1, c2, b2) && LevelsKept(b1, b2)
    requires Known(c1) == Known(c0) + KeysOf(ns[..|bodies|]) && Known(c2) == Known(c1) + Keys(ns[|bodies|])
    requires b1[k].text == b0[k].text + BlocksText(b0[k].level, headers[..|bodies|], bodies)
    requires b2[k].text == b1[k].text + BlockText(b1[k].level, headers[|bodies|], body)
    ensures Grown(c0, b0, c2, b2) && LevelsKept(b0, b2)
    ensures Known(c2) == Known(c0) + KeysOf(ns[..|bodies| + 1])
    ensures b2[k].text == b0[k].text + BlocksText(b0[k].level, headers[..|bodies| + 1], bodies + [body])
  {
    Chain(c0, b0, c1, b1, c2, b2);
    KeysOfStep(ns, |bodies|);
    BlocksTextStep(b0[k].text, b1[k].text, b2[k].text, b0[k].level, headers, bodies, body);
  }

  /**
   * One more case of a switch compiled after the first `|bodies|`: growth, balanced levels, the
   * contexts met, the cases seen, the dependencies recorded and the blocks written so far all
   * extend by that case.
   */
  lemma CaseStep(c0: seq<set<int>>, b0: seq<Writer>, c1: seq<set<int>>, b1: seq<Writer>, c2: seq<set<int>>, b2: seq<Writer>,
                 k: nat, cfg: Config, f: SwitchFeature, ns: seq<Node>, p: Node, bodies: seq<string>, body: string,
                 d0: set<string>, d1: set<string>, d2: set<string>)
    requires k < |b0| && |bodies| < |ns|
    requires Grown(c0, b0, c1, b1) && LevelsKept(b0, b1) && Grown(c1, b1, c2, b2) && LevelsKept(b1, b2)
    requires Known(c1) == Known(c0) + KeysOf(ns[..|bodies|]) && Known(c2) == Known(c1) + Keys(ns[|bodies|])
    requires AllCases(ns[..|bodies|]) && ns[|bodies|].CaseNode?
    requires AllCompilable(cfg, ns[..|bodies|], p) && Compilable(cfg, ns[|bodies|], Some(p))
    requires d1 == d0 + CaseDepsOf(cfg, f, ns[..|bodies|]) && d2 == d1 + CaseDeps(f, ns[|bodies|]) + DepsOf(cfg, ns[|bodies|])
    requires b1[k].text == b0[k].text + BlocksText(b0[k].level, CaseHeaders(f, cfg.manager, ns)[..|bodies|], bodies)
    requires b2[k].text == b1[k].text + BlockText(b1[k].level, CaseHeaderOf(f, cfg.manager, ns[|bodies|], |bodies| == 0), body)
    ensures Grown(c0, b0, c2, b2) && LevelsKept(b0, b2)
    ensures Known(c2) == Known(c0) + KeysOf(ns[..|bodies| + 1])
    ensures AllCases(ns[..|bodies| + 1]) && AllCompilable(cfg, ns[..|bodies| + 1], p)
    ensures d2 == d0 + CaseDepsOf(cfg, f, ns[..|bodies| + 1])
    ensures b2[k].text == b0[k].text + BlocksText(b0[k].level, CaseHeaders(f, cfg.manager, ns)[..|bodies| + 1], bodies + [body])
  {
    var i := |bodies|;
    var headers := CaseHeaders(f, cfg.manager, ns);
    assert headers[i] == CaseHeaderOf(f, cfg.manager, ns[i], i == 0);
    BlockStep(c0, b0, c1, b1, c2, b2, k, ns, headers, bodies, body);
    AllCasesStep(ns, i);
    AllCompilableStep(cfg, ns, i, p);
    CaseDepsOfStep(cfg, f, ns, i, d0, d1, d2);
  }

  /**
   * Buffer `k` got a header line and an Enter, the code compiled in between grew the buffers
   * and kept their levels, and then buffer `k` got a Leave: growth, with every level back where
   * it was, and buffer `k` gained one block.
   */
  lemma BlockClosed(c0: seq<set<int>>, b0: seq<Writer>, c2: seq<set<int>>, b2: seq<Writer>, k: nat, header: string) returns (body: string)
    requires k < |b0|
    requires var b1 := b0[k := Entered(LineAppended(b0[k], header))]; Grown(c0, b1, c2, b2) && LevelsKept(b1, b2)
    ensures Grown(c0, b0, c2, b2[k := Left(b2[k])]) && LevelsKept(b0, b2[k := Left(b2[k])])
    ensures Left(b2[k]).text == b0[k].text + BlockText(b0[k].level, header, body)
  {
    var b1 := b0[k := Entered(LineAppended(b0[k], header))];
    assert b1[k].text <= b2[k].text && b2[k].level == b0[k].level + 1;
    body := BlockWritten(b0[k], header, b2[k]);
  }

  /** Appending lines to one buffer is growth that keeps every level. */
  lemma Appended(c: seq<set<int>>, b: seq<Writer>, k: nat, ds: seq<string>)
    requires k < |b|
    ensures Grown(c, b, c, b[k := LinesAppended(b[k], ds)]) && LevelsKept(b, b[k := LinesAppended(b[k], ds)])
  {
    LinesAppendedText(b[k], ds);
  }

  /** The dialogue call of a message or options message, or why it cannot be compiled. */
  function DialogCall(cfg: Config, m: Node): Result<string, CompileError>
    requires m.ControlFlowBreaker()
  {
    var arg :- DialogArgument(m);
    var name := DialogFeature(m);
    if name !in cfg.features then Err(UnknownFeature(name))
    else Ok(CompileText(cfg.features[name], cfg.manager, Some(arg), None, None))
  }

  /**
   * The lines a suspend point writes into its own context's buffer: the status change, the
   * dialogue call, for an Ok message the end-of-conversation call, and `return;`.
   */
  function SuspendLines(cfg: Config, m: Node): (r: Result<seq<string>, CompileError>)
    requires m.ControlFlowBreaker()
    ensures r.Ok? ==> |r.value| >= 3 && r.value[0] == StatusChange(m.status) && r.value[|r.value| - 1] == "return;"
    ensures r.Ok? ==> (|r.value| == 4 <==> m.MessageNode? && m.style.OkStyle?)
    ensures DialogCall(cfg, m).Err? ==> r == Err(DialogCall(cfg, m).error)
    ensures r.Ok? ==> DialogCall(cfg, m).Ok? && r.value[1] == DialogCall(cfg, m).value
  {
    var call :- DialogCall(cfg, m);
    if m.MessageNode? && m.style.OkStyle? then
      if "special_End" !in cfg.features then Err(UnknownFeature("special_End"))
      else Ok([StatusChange(m.status), call, CompileText(cfg.features["special_End"], cfg.manager, None, None, None), "return;"])
    else Ok([StatusChange(m.status), call, "return;"])
  }

  /** `Children`: the element's list, empty for the elements that have none. */
  function ChildList(n: Node): seq<Node>
  {
    if n.HasChildren() then n.children else []
  }

  /** The status a back/next message goes back to: some status of the preceding suspend point among its siblings, or -1. */
  predicate PreviousStatusOf(siblings: seq<Node>, id: int, p: int)
  {
    var j := MessagePosition(siblings, id, 0);
    && j != -1
    && var q := PrecedingMessage(siblings, j);
    && (q == -1 ==> p == -1)
    && (q != -1 ==> p in siblings[q].ctx)
  }

  /**
   * `GetPreviousStatus` finds what it looks for: the message is among the siblings, and the
   * suspend point before it, if there is one, has a status context.
   */
  predicate PreviousFound(siblings: seq<Node>, id: int)
  {
    var j := MessagePosition(siblings, id, 0);
    && j != -1
    && var q := PrecedingMessage(siblings, j);
    && (q != -1 ==> siblings[q].ctx != {})
  }

  /**
   * `PostCompile` succeeds: a back/next message has a parent whose children hold it and the
   * suspend point before it, and a yes/no message finds `dlg_Ok` and `special_End`.
   */
  predicate PostCompiles(cfg: Config, m: Node, parent: Option<Node>)
  {
    if m.MessageNode? && m.style.PrevNextStyle? then parent.Some? && PreviousFound(ChildList(parent.value), m.status)
    else if m.MessageNode? && m.style.YesNoStyle? then "dlg_Ok" in cfg.features && "special_End" in cfg.features
    else true
  }

  /**
   * Compiling an element under `parent` succeeds: every child of a switch is a case, every
   * suspend point's own lines and continuation compile, and so does every child.
   */
  predicate Compilable(cfg: Config, n: Node, parent: Option<Node>)
    decreases n, 1
  {
    match n
    case SwitchNode(_, cs, _) => AllCases(cs) && AllCompilable(cfg, cs, n)
    case CaseNode(_, cs, _) => AllCompilable(cfg, cs, n)
    case MessageNode(_, _, _, _) => SuspendLines(cfg, n).Ok? && PostCompiles(cfg, n, parent)
    case OptionsNode(_, _, cs, _) => SuspendLines(cfg, n).Ok? && AllCompilable(cfg, cs, n)
    case OptionNode(_, cs, _) => AllCompilable(cfg, cs, n)
    case CommandNode(_, _, _, _, _) => true
  }

  /** Every element of `ns`, a child of `parent`, compiles. */
  predicate AllCompilable(cfg: Config, ns: seq<Node>, parent: Node)
    decreases ns, 0
  {
    forall j :: 0 <= j < |ns| ==> Compilable(cfg, ns[j], Some(parent))
  }

  /** The main element of a scene: the first element of the list the builder is left holding. */
  function MainElement(cfg: Config, scene: Elem, next: nat): Result<Node, CompileError>
  {
    var t :- Run(cfg, Target([], []), [scene], next);
    if t.0.items == [] then Err(EmptySceneList) else Ok(t.0.items[0])
  }

  function Bodies(bs: seq<Writer>): (r: seq<string>)
    ensures |r| == |bs|
    ensures forall k :: 0 <= k < |bs| ==> r[k] == bs[k].text
  {
    seq(|bs|, k requires 0 <= k < |bs| => bs[k].text)
  }

  /** Every element's size is at most the size of the list holding it. */
  lemma ElemSizeAt(es: seq<Elem>, i: nat)
    requires i < |es|
    ensures ElemSize(es[i]) <= ElemsSize(es)
  {
    assert es == es[..i] + es[i..];
    ElemsSizeAppend(es[..i], es[i..]);
    ElemsSizeCons(es[i..]);
  }

  class Compiler {
    const config: Config
    var deps: set<string>
    var messageCount: nat
    var contexts: seq<set<int>>
    var buffers: seq<Writer>

    ghost predicate Valid()
      reads this
    {
      |contexts| == |buffers| && Distinct(contexts)
    }

    constructor (config: Config)
      ensures Valid() && this.config == config
      ensures deps == {} && messageCount == 0 && contexts == [] && buffers == []
    {
      this.config := config;
      deps := {};
      messageCount := 0;
      contexts := [];
      buffers := [];
    }

    /** Registers a message and hands out its id, the number of messages registered before it. */
    method RegisterMessage() returns (id: nat)
      modifies this`messageCount
      ensures id == old(messageCount) && messageCount == old(messageCount) + 1
    {
      id := messageCount;
      messageCount := messageCount + 1;
    }

    /** The placeholders of a template replaced in turn: `$.`, then `$x`, `$y` and `$z`. */
    method SubstituteTemplate(val: string, x: Option<string>, y: Option<string>, z: Option<string>) returns (result: string)
      ensures result == Substitute(val, config.manager, x, y, z)
    {
      result := val;
      if Contains(val, "$.") {
        result := Replace(result, "$.", config.manager + ".");
      }
      if Contains(val, "$x") {
        result := Replace(result, "$x", ArgText(x));
      }
      if Contains(val, "$y") {
        result := Replace(result, "$y", ArgText(y));
      }
      if Contains(val, "$z") {
        result := Replace(result, "$z", ArgText(z));
      }
    }

    /** `HaJSFeature.Compile` (and the switch override): records the dependency, substitutes the template. */
    method CompileFeature(f: Feature, x: Option<string>, y: Option<string>, z: Option<string>) returns (s: string)
      modifies this`deps
      ensures deps == Recorded(old(deps), f)
      ensures s == CompileText(f, config.manager, x, y, z)
    {
      if f.dep.Some? {
        deps := deps + {f.dep.value};
      }
      var result := SubstituteTemplate(f.val, x, y, z);
      if f.Switch? {
        var lval := f.left;
        if Contains(f.left, "$.") {
          lval := Replace(lval, "$.", config.manager + ".");
        }
        result := lval + " == " + result;
      }
      s := result;
    }

    /** `GetFeature(name).Compile(…)`: a missing feature is an error and records nothing. */
    method CompileFeatureNamed(name: string, x: Option<string>, y: Option<string>, z: Option<string>) returns (r: Result<string, CompileError>)
      modifies this`deps
      ensures r.Err? <==> name !in config.features
      ensures r.Err? ==> r.error == UnknownFeature(name) && deps == old(deps)
      ensures r.Ok? ==> r.value == CompileText(config.features[name], config.manager, x, y, z)
      ensures r.Ok? ==> deps == Recorded(old(deps), config.features[name])
    {
      if name !in config.features {
        return Err(UnknownFeature(name));
      }
      var s := CompileFeature(config.features[name], x, y, z);
      r := Ok(s);
    }

    /** `HaJSSwitchFeature.GetLeft`: records the dependency and gives the left side. */
    method GetLeft(f: SwitchFeature) returns (s: string)
      modifies this`deps
      ensures deps == Recorded(old(deps), f)
      ensures s == LeftText(f, config.manager)
    {
      if f.dep.Some? {
        deps := deps + {f.dep.value};
      }
      s := f.left;
      if Contains(f.left, "$.") {
        s := Replace(s, "$.", config.manager + ".");
      }
    }

    /** `CaseElement.Compile`: the header of a case of a switch on `f`. */
    method CompileCase(kind: CaseKind, f: SwitchFeature, first: bool) returns (s: string)
      modifies this`deps
      ensures s == CaseHeader(kind, f, config.manager, first)
      ensures deps == CaseRecorded(old(deps), kind, f)
    {
      if kind.DefaultCase? {
        return "else";
      }
      var opening := if first then "if (" else "else if (";
      if kind.CondCase? {
        var left := GetLeft(f);
        return opening + Replace(kind.cond, "$x", left) + ")";
      }
      var values := SplitOn(kind.value, ",");
      ghost var tests := ValueTests(f, config.manager, values);
      ValueTestsAt(f, config.manager, values);
      var joined := CompileFeature(f, Some(values[0]), None, None);
      assert tests[..1] == [tests[0]];
      var i := 1;
      while i < |values|
        invariant 1 <= i <= |values|
        invariant joined == Join(tests[..i], " || ")
        invariant deps == Recorded(old(deps), f)
      {
        var test := CompileFeature(f, Some(values[i]), None, None);
        JoinSnoc(tests[..i], test, " || ");
        assert tests[..i + 1] == tests[..i] + [test];
        joined := joined + " || " + test;
        i := i + 1;
      }
      assert tests[..i] == tests;
      s := opening + joined + ")";
    }

    /** `CompareHashSets`: same size and every element of `a` in `b`. */
    method CompareHashSets(a: set<int>, b: set<int>) returns (eq: bool)
      ensures eq <==> a == b
    {
      if |a| != |b| {
        return false;
      }
      var rest := a;
      while rest != {}
        invariant rest <= a
        invariant a - rest <= b
        decreases |rest|
      {
        if forall x :: x !in rest {
          assert false;
        }
        var x :| x in rest;
        if x !in b {
          return false;
        }
        rest := rest - {x};
      }
      SameSizeSubset(a, b);
      eq := true;
    }

    /**
     * `GetStringBuilderByContext`: the buffer of an equal context met before, or a fresh buffer
     * at the default level for a context met for the first time, added at the end.
     */
    method GetStringBuilderByContext(c: set<int>) returns (k: nat)
      requires Valid()
      modifies this`contexts, this`buffers
      ensures Valid() && k < |contexts| && contexts[k] == c
      ensures c in old(contexts) ==> contexts == old(contexts) && buffers == old(buffers)
      ensures c !in old(contexts) ==> contexts == old(contexts) + [c] && buffers == old(buffers) + [NewWriter()]
      ensures Grown(old(contexts), old(buffers), contexts, buffers) && LevelsKept(old(buffers), buffers)
      ensures Known(contexts) == Known(old(contexts)) + {c}
    {
      var i := 0;
      while i < |contexts|
        invariant 0 <= i <= |contexts|
        invariant forall j :: 0 <= j < i ==> contexts[j] != c
        invariant contexts == old(contexts) && buffers == old(buffers)
      {
        var same := CompareHashSets(contexts[i], c);
        if same {
          return i;
        }
        i := i + 1;
      }
      contexts := contexts + [c];
      buffers := buffers + [NewWriter()];
      k := |contexts| - 1;
    }

    method AppendLineTo(k: nat, line: string)
      requires k < |buffers|
      modifies this`buffers
      ensures buffers == old(buffers)[k := LineAppended(old(buffers)[k], line)]
    {
      buffers := buffers[k := LineAppended(buffers[k], line)];
    }

    /** `WriteStatusChange`: the statement that makes `n` the status to resume at. */
    method WriteStatusChange(k: nat, n: int)
      requires k < |buffers|
      modifies this`buffers
      ensures buffers == old(buffers)[k := LineAppended(old(buffers)[k], StatusChange(n))]
    {
      AppendLineTo(k, "status = " + IntToString(n) + ";");
    }

    /** `MessageBaseElement.Compile`: the dialogue call of a message or options message. */
    method CompileMessage(m: Node) returns (r: Result<string, CompileError>)
      requires m.ControlFlowBreaker()
      modifies this`deps
      ensures r == DialogCall(config, m)
      ensures r.Ok? ==> deps == Recorded(old(deps), config.features[DialogFeature(m)])
      ensures r.Err? ==> deps == old(deps)
    {
      var arg: string;
      if m.MessageNode? {
        arg := Quote(m.text);
      } else {
        var full := OptionsFullText(m.text, m.children);
        if full.Err? {
          return Err(full.error);
        }
        arg := Quote(full.value);
      }
      r := CompileFeatureNamed(DialogFeature(m), Some(arg), None, None);
    }

    /**
     * `PostCompile`: the continuation a back/next or yes/no message leaves for its resume
     * context; other suspend points leave none.
     */
    method PostCompile(m: Node, parent: Option<Node>) returns (r: Result<Option<string>, CompileError>)
      requires m.ControlFlowBreaker()
      modifies this`deps
      ensures old(deps) <= deps
      ensures r.Ok? ==> deps == old(deps) + PostDeps(config, m)
      ensures r.Err? ==> deps == old(deps) + (if m.MessageNode? && m.style.YesNoStyle? then NamedDeps(config, "dlg_Ok") else {})
      ensures r.Ok? ==> (r.value.Some? <==> ResumeKeys(m) != {} && !m.OptionsNode?)
      ensures m.MessageNode? && m.style.PrevNextStyle? && parent.None? ==> r == Err(NoParent)
      ensures m.MessageNode? && m.style.PrevNextStyle? && r.Ok? ==>
        parent.Some? && exists p :: PreviousStatusOf(ChildList(parent.value), m.status, p) && r.value == Some(JoinLines(BackContinuation(p)))
      ensures m.MessageNode? && m.style.YesNoStyle? ==>
        r == (if "dlg_Ok" !in config.features then Err(UnknownFeature("dlg_Ok"))
              else if "special_End" !in config.features then Err(UnknownFeature("special_End"))
              else Ok(Some(JoinLines(DeclineContinuation(
                CompileText(config.features["dlg_Ok"], config.manager, Some(Quote(m.style.no)), None, None),
                CompileText(config.features["special_End"], config.manager, None, None, None))))))
      ensures !(m.MessageNode? && (m.style.PrevNextStyle? || m.style.YesNoStyle?)) ==> r == Ok(None)
      ensures r.Ok? <==> PostCompiles(config, m, parent)
    {
      if m.MessageNode? && m.style.PrevNextStyle? {
        if parent.None? {
          return Err(NoParent);
        }
        var prev := GetPreviousStatus(ChildList(parent.value), m.status);
        if prev.Err? {
          return Err(prev.error);
        }
        assert PreviousStatusOf(ChildList(parent.value), m.status, prev.value);
        return Ok(Some(JoinLines(BackContinuation(prev.value))));
      } else if m.MessageNode? && m.style.YesNoStyle? {
        var noCall := CompileFeatureNamed("dlg_Ok", Some(Quote(m.style.no)), None, None);
        if noCall.Err? {
          return Err(noCall.error);
        }
        var endCall := CompileFeatureNamed("special_End", None, None, None);
        if endCall.Err? {
          return Err(endCall.error);
        }
        return Ok(Some(JoinLines(DeclineContinuation(noCall.value, endCall.value))));
      }
      r := Ok(None);
    }

    /**
     * The lines of a suspend point in its own buffer `k`, or the error that stops them; `lines`
     * are the lines written before it stopped.
     */
    method EmitSuspend(k: nat, m: Node) returns (o: Outcome<CompileError>, ghost lines: seq<string>)
      requires Valid() && k < |buffers| && m.ControlFlowBreaker()
      modifies this`deps, this`buffers
      ensures Valid() && old(deps) <= deps
      ensures o.Pass? ==> deps == old(deps) + SuspendDeps(config, m)
      ensures o.Fail? ==> deps == old(deps) + (if DialogCall(config, m).Ok? then NamedDeps(config, DialogFeature(m)) else {})
      ensures buffers == old(buffers)[k := LinesAppended(old(buffers)[k], lines)]
      ensures o.Pass? <==> SuspendLines(config, m).Ok?
      ensures o.Fail? ==> o.error == SuspendLines(config, m).error
      ensures o.Pass? ==> lines == SuspendLines(config, m).value
    {
      ghost var w0 := buffers[k];
      WriteStatusChange(k, m.status);
      lines := [StatusChange(m.status)];
      var call := CompileMessage(m);
      if call.Err? {
        return Fail(call.error), lines;
      }
      LinesAppendedSnoc(w0, lines, call.value);
      AppendLineTo(k, call.value);
      lines := lines + [call.value];
      if m.MessageNode? && m.style.OkStyle? {
        var end := CompileFeatureNamed("special_End", None, None, None);
        if end.Err? {
          return Fail(end.error), lines;
        }
        LinesAppendedSnoc(w0, lines, end.value);
        AppendLineTo(k, end.value);
        lines := lines + [end.value];
      }
      LinesAppendedSnoc(w0, lines, "return;");
      AppendLineTo(k, "return;");
      lines := lines + ["return;"];
      o := Pass;
    }

    /** The continuation text, appended line by line to the buffer of the context `{status}`. */
    method WriteContinuation(status: int, text: string)
      requires Valid()
      modifies this`contexts, this`buffers
      ensures Valid() && Grown(old(contexts), old(buffers), contexts, buffers) && LevelsKept(old(buffers), buffers)
      ensures Known(contexts) == Known(old(contexts)) + {{status}}
      ensures exists k :: 0 <= k < |contexts| && contexts[k] == {status} && buffers[k] == TextAppended(old(if k < |buffers| then buffers[k] else NewWriter()), text)
    {
      var k := GetStringBuilderByContext({status});
      ghost var b1 := buffers;
      LinesAppendedText(buffers[k], RemoveEmpty(SplitOn(text, CRLF)));
      buffers := buffers[k := TextAppended(buffers[k], text)];
      assert contexts[k] == {status};
    }

    /**
     * `CompileJSRecursive`: the code of an element goes into the buffer of its context, which is
     * met (and created) first. A switch writes one header and one braced block per case, a serial
     * element compiles its children in order, a command writes its call, a suspend point writes
     * its lines and its continuation (for an options message, one braced block per option in the
     * buffer of `{status}`).
     */
    method CompileJSRecursive(root: Node, parent: Option<Node>) returns (o: Outcome<CompileError>)
      requires Valid()
      modifies this`deps, this`contexts, this`buffers
      ensures Valid() && Grown(old(contexts), old(buffers), contexts, buffers) && old(deps) <= deps
      ensures root.ctx in contexts
      ensures old(contexts) == [] ==> |contexts| > 0 && contexts[0] == root.ctx
      ensures o.Pass? ==> LevelsKept(old(buffers), buffers)
      ensures o.Pass? ==> Known(contexts) == Known(old(contexts)) + Keys(root)
      ensures o.Pass? ==> deps == old(deps) + DepsOf(config, root)
      ensures o.Pass? ==> WroteIn(config, root, root.ctx, old(buffers), contexts, buffers)
      ensures o.Pass? <==> Compilable(config, root, parent)
      decreases root, 4
    {
      var k := GetStringBuilderByContext(root.ctx);
      ghost var c1, b1 := contexts, buffers;
      o := CompileBody(root, parent, k);
      if o.Pass? {
        Chain(old(contexts), old(buffers), c1, b1, contexts, buffers);
        KeysSum(Known(old(contexts)), Known(c1), Known(contexts), root);
        assert b1[k] == if k < |old(buffers)| then old(buffers)[k] else NewWriter();
        assert Wrote(config, root, b1[k], buffers[k]);
      }
    }

    /** The code of an element, by its kind, into its context's buffer `k`. */
    method CompileBody(root: Node, parent: Option<Node>, k: nat) returns (o: Outcome<CompileError>)
      requires Valid() && k < |buffers|
      modifies this`deps, this`contexts, this`buffers
      ensures Valid() && Grown(old(contexts), old(buffers), contexts, buffers) && old(deps) <= deps
      ensures o.Pass? ==> LevelsKept(old(buffers), buffers)
      ensures o.Pass? ==> Known(contexts) == Known(old(contexts)) + ResumeKeys(root) + (if root.HasChildren() then KeysOf(root.children) else {})
      ensures o.Pass? ==> deps == old(deps) + DepsOf(config, root)
      ensures o.Pass? ==> Wrote(config, root, old(buffers)[k], buffers[k])
      ensures o.Pass? <==> Compilable(config, root, parent)
      decreases root, 3
    {
      if root.SwitchNode? {
        o := CompileSwitch(root, k);
      } else if root.HasChildren() && !root.Parallel() {
        o := CompileSerial(root);
      } else if root.CommandNode? {
        var line := CompileFeature(root.feature, root.x, root.y, root.z);
        AppendLineTo(k, line);
        Appended(contexts, old(buffers), k, [line]);
        o := Pass;
      } else {
        o := CompileSuspend(root, parent, k);
      }
    }

    method CompileSwitch(root: Node, k: nat) returns (o: Outcome<CompileError>)
      requires root.SwitchNode? && Valid() && k < |buffers|
      modifies this`deps, this`contexts, this`buffers
      ensures Valid() && Grown(old(contexts), old(buffers), contexts, buffers) && old(deps) <= deps
      ensures o.Pass? ==> LevelsKept(old(buffers), buffers)
      ensures o.Pass? ==> Known(contexts) == Known(old(contexts)) + KeysOf(root.children)
      ensures o.Pass? ==> AllCases(root.children)
      ensures o.Pass? ==> deps == old(deps) + CaseDepsOf(config, root.switchType, root.children)
      ensures o.Pass? ==> CasesWritten(root.switchType, config.manager, root.children, old(buffers)[k], buffers[k])
      ensures o.Pass? <==> AllCases(root.children) && AllCompilable(config, root.children, root)
      decreases root, 2
    {
      ghost var w0 := buffers[k];
      ghost var headers := CaseHeaders(root.switchType, config.manager, root.children);
      ghost var bodies: seq<string> := [];
      var i := 0;
      while i < |root.children|
        invariant 0 <= i <= |root.children|
        invariant Valid() && Grown(old(contexts), old(buffers), contexts, buffers) && old(deps) <= deps
        invariant LevelsKept(old(buffers), buffers)
        invariant Known(contexts) == Known(old(contexts)) + KeysOf(root.children[..i])
        invariant AllCases(root.children[..i]) && AllCompilable(config, root.children[..i], root)
        invariant deps == old(deps) + CaseDepsOf(config, root.switchType, root.children[..i])
        invariant |bodies| == i && buffers[k].text == w0.text + BlocksText(w0.level, headers[..i], bodies)
      {
        ghost var c1, b1, d1 := contexts, buffers, deps;
        ghost var body;
        o, body := CompileCaseAt(root, k, i);
        if o.Fail? {
          return;
        }
        CaseStep(old(contexts), old(buffers), c1, b1, contexts, buffers, k, config, root.switchType, root.children, root, bodies, body, old(deps), d1, deps);
        bodies := bodies + [body];
        i := i + 1;
      }
      assert root.children[..i] == root.children;
      assert headers[..i] == headers;
      o := Pass;
    }

    /** Case `i` of a switch: its header, then its block; a child that is not a case is an error. */
    method CompileCaseAt(root: Node, k: nat, i: nat) returns (o: Outcome<CompileError>, ghost body: string)
      requires root.SwitchNode? && Valid() && k < |buffers| && i < |root.children|
      modifies this`deps, this`contexts, this`buffers
      ensures Valid() && Grown(old(contexts), old(buffers), contexts, buffers) && old(deps) <= deps
      ensures o.Pass? ==> LevelsKept(old(buffers), buffers)
      ensures o.Pass? ==> Known(contexts) == Known(old(contexts)) + Keys(root.children[i])
      ensures o.Pass? ==> root.children[i].CaseNode?
      ensures o.Pass? ==> deps == old(deps) + CaseDeps(root.switchType, root.children[i]) + DepsOf(config, root.children[i])
      ensures o.Pass? ==>
        buffers[k].text == old(buffers)[k].text + BlockText(old(buffers)[k].level, CaseHeaderOf(root.switchType, config.manager, root.children[i], i == 0), body)
      ensures !root.children[i].CaseNode? ==> o == Fail(UnexpectedChild)
      ensures root.children[i].CaseNode? ==> (o.Pass? <==> Compilable(config, root.children[i], Some(root)))
      decreases root, 1
    {
      var child := root.children[i];
      if !child.CaseNode? {
        return Fail(UnexpectedChild), "";
      }
      var header := CompileCase(child.kind, root.switchType, i == 0);
      o, body := CompileBlock(k, header, child, root);
    }

    method CompileSerial(root: Node) returns (o: Outcome<CompileError>)
      requires root.HasChildren() && Valid()
      modifies this`deps, this`contexts, this`buffers
      ensures Valid() && Grown(old(contexts), old(buffers), contexts, buffers) && old(deps) <= deps
      ensures o.Pass? ==> LevelsKept(old(buffers), buffers)
      ensures o.Pass? ==> Known(contexts) == Known(old(contexts)) + KeysOf(root.children)
      ensures o.Pass? ==> deps == old(deps) + DepsOfAll(config, root.children)
      ensures o.Pass? <==> AllCompilable(config, root.children, root)
      decreases root, 2
    {
      var i := 0;
      while i < |root.children|
        invariant 0 <= i <= |root.children|
        invariant Valid() && Grown(old(contexts), old(buffers), contexts, buffers) && old(deps) <= deps
        invariant LevelsKept(old(buffers), buffers)
        invariant Known(contexts) == Known(old(contexts)) + KeysOf(root.children[..i])
        invariant deps == old(deps) + DepsOfAll(config, root.children[..i])
        invariant AllCompilable(config, root.children[..i], root)
      {
        ghost var c1, b1, d1 := contexts, buffers, deps;
        o := CompileJSRecursive(root.children[i], Some(root));
        if o.Fail? {
          return;
        }
        ChildStep(old(contexts), old(buffers), c1, b1, contexts, buffers, root.children, i);
        DepsOfAllStep(config, root.children, i, old(deps), d1, deps);
        AllCompilableStep(config, root.children, i, root);
        i := i + 1;
      }
      assert root.children[..i] == root.children;
      o := Pass;
    }

    method CompileSuspend(root: Node, parent: Option<Node>, k: nat) returns (o: Outcome<CompileError>)
      requires root.ControlFlowBreaker() && Valid() && k < |buffers|
      modifies this`deps, this`contexts, this`buffers
      ensures Valid() && Grown(old(contexts), old(buffers), contexts, buffers) && old(deps) <= deps
      ensures o.Pass? ==> LevelsKept(old(buffers), buffers)
      ensures o.Pass? ==> Known(contexts) == Known(old(contexts)) + ResumeKeys(root) + (if root.OptionsNode? then KeysOf(root.children) else {})
      ensures SuspendLines(config, root).Err? ==> o == Fail(SuspendLines(config, root).error)
      ensures o.Pass? ==> SuspendLines(config, root).Ok?
      ensures SuspendLines(config, root).Ok? && root.MessageNode? && root.style.PrevNextStyle? && parent.None? ==> o == Fail(NoParent)
      ensures SuspendLines(config, root).Ok? && root.MessageNode? && root.style.YesNoStyle? && "dlg_Ok" !in config.features ==> o == Fail(UnknownFeature("dlg_Ok"))
      ensures o.Pass? <==> Compilable(config, root, parent)
      ensures o.Pass? ==> deps == old(deps) + DepsOf(config, root)
      ensures o.Pass? ==> LinesAppended(old(buffers)[k], SuspendLines(config, root).value).text <= buffers[k].text
      decreases root, 2
    {
      ghost var lines;
      o, lines := EmitSuspend(k, root);
      Appended(old(contexts), old(buffers), k, lines);
      if o.Fail? {
        return;
      }
      ghost var d1 := deps;
      var post := PostCompile(root, parent);
      if post.Err? {
        return Fail(post.error);
      }
      ghost var c1, b1, d2 := contexts, buffers, deps;
      o := CompileResume(root, post.value);
      if o.Pass? {
        Chain(old(contexts), old(buffers), c1, b1, contexts, buffers);
        SuspendDepsSum(config, root, old(deps), d1, d2, deps);
      }
    }

    /**
     * What follows a suspend point in the context `{status}`: the option arms of an options
     * message, or the continuation text `PostCompile` left, or nothing.
     */
    method CompileResume(root: Node, cont: Option<string>) returns (o: Outcome<CompileError>)
      requires root.ControlFlowBreaker() && Valid()
      requires cont.Some? <==> ResumeKeys(root) != {} && !root.OptionsNode?
      modifies this`deps, this`contexts, this`buffers
      ensures Valid() && Grown(old(contexts), old(buffers), contexts, buffers) && old(deps) <= deps
      ensures o.Pass? ==> LevelsKept(old(buffers), buffers)
      ensures o.Pass? ==> Known(contexts) == Known(old(contexts)) + ResumeKeys(root) + (if root.OptionsNode? then KeysOf(root.children) else {})
      ensures o.Pass? ==> deps == old(deps) + (if root.OptionsNode? then DepsOfAll(config, root.children) else {})
      ensures !root.OptionsNode? && cont.Some? ==>
        exists k :: 0 <= k < |contexts| && contexts[k] == {root.status} &&
          buffers[k] == TextAppended(old(if k < |buffers| then buffers[k] else NewWriter()), cont.value)
      ensures root.OptionsNode? && o.Pass? ==>
        exists k :: 0 <= k < |contexts| && contexts[k] == {root.status} &&
          ArmsWritten(old(if k < |buffers| then buffers[k] else NewWriter()), buffers[k], |root.children|)
      ensures o.Pass? <==> (root.OptionsNode? ==> AllCompilable(config, root.children, root))
      decreases root, 1
    {
      if root.OptionsNode? {
        var k2 := GetStringBuilderByContext({root.status});
        ghost var c2, b2 := contexts, buffers;
        o := CompileOptionArms(root, k2);
        if o.Pass? {
          Chain(old(contexts), old(buffers), c2, b2, contexts, buffers);
          assert b2[k2] == old(if k2 < |buffers| then buffers[k2] else NewWriter());
          assert ArmsWritten(b2[k2], buffers[k2], |root.children|);
        }
      } else if cont.Some? {
        WriteContinuation(root.status, cont.value);
        o := Pass;
      } else {
        o := Pass;
      }
    }

    /** The `if (selection == i)` blocks of an options message, one per option, in order. */
    method CompileOptionArms(root: Node, k: nat) returns (o: Outcome<CompileError>)
      requires root.OptionsNode? && Valid() && k < |buffers|
      modifies this`deps, this`contexts, this`buffers
      ensures Valid() && Grown(old(contexts), old(buffers), contexts, buffers) && old(deps) <= deps
      ensures o.Pass? ==> LevelsKept(old(buffers), buffers)
      ensures o.Pass? ==> Known(contexts) == Known(old(contexts)) + KeysOf(root.children)
      ensures o.Pass? ==> ArmsWritten(old(buffers)[k], buffers[k], |root.children|)
      ensures o.Pass? ==> deps == old(deps) + DepsOfAll(config, root.children)
      ensures o.Pass? <==> AllCompilable(config, root.children, root)
      decreases root, 0
    {
      ghost var w0 := buffers[k];
      ghost var headers := ArmHeaders(|root.children|);
      ghost var bodies: seq<string> := [];
      var i := 0;
      while i < |root.children|
        invariant 0 <= i <= |root.children|
        invariant Valid() && Grown(old(contexts), old(buffers), contexts, buffers) && old(deps) <= deps
        invariant LevelsKept(old(buffers), buffers)
        invariant Known(contexts) == Known(old(contexts)) + KeysOf(root.children[..i])
        invariant |bodies| == i && buffers[k].text == w0.text + BlocksText(w0.level, headers[..i], bodies)
        invariant deps == old(deps) + DepsOfAll(config, root.children[..i])
        invariant AllCompilable(config, root.children[..i], root)
      {
        ghost var c1, b1, d1 := contexts, buffers, deps;
        ghost var body;
        o, body := CompileBlock(k, ArmHeader(i), root.children[i], root);
        if o.Fail? {
          return;
        }
        BlockStep(old(contexts), old(buffers), c1, b1, contexts, buffers, k, root.children, headers, bodies, body);
        DepsOfAllStep(config, root.children, i, old(deps), d1, deps);
        AllCompilableStep(config, root.children, i, root);
        bodies := bodies + [body];
        i := i + 1;
      }
      assert root.children[..i] == root.children;
      assert headers[..i] == headers;
      o := Pass;
    }

    /**
     * A header line, then the child's code in a braced block one level deeper, in buffer `k`:
     * the shape of a switch case and of an option's arm.
     */
    method CompileBlock(k: nat, header: string, child: Node, root: Node) returns (o: Outcome<CompileError>, ghost body: string)
      requires Valid() && k < |buffers|
      modifies this`deps, this`contexts, this`buffers
      ensures Valid() && Grown(old(contexts), old(buffers), contexts, buffers) && old(deps) <= deps
      ensures o.Pass? ==> LevelsKept(old(buffers), buffers)
      ensures o.Pass? ==> Known(contexts) == Known(old(contexts)) + Keys(child)
      ensures o.Pass? ==> deps == old(deps) + DepsOf(config, child)
      ensures o.Pass? ==> buffers[k].text == old(buffers)[k].text + BlockText(old(buffers)[k].level, header, body)
      ensures o.Pass? <==> Compilable(config, child, Some(root))
      decreases child, 5
    {
      AppendLineTo(k, header);
      buffers := buffers[k := Entered(buffers[k])];
      o := CompileJSRecursive(child, Some(root));
      ghost var ok := Compilable(config, child, Some(root));
      assert o.Pass? <==> ok;
      if o.Fail? {
        body := "";
        return;
      }
      body := BlockClosed(old(contexts), old(buffers), contexts, buffers, k, header);
      buffers := buffers[k := Left(buffers[k])];
    }

    // ----- building the tree -----

    /**
     * `BuildElementRecursive(element, ref targetList)`: builds one tag into the current target;
     * `rest` stands for the siblings still to come. The outcome is that of building the tag and
     * its siblings by `Run`: an error is `Run`'s error, and otherwise `Run` goes on from the new
     * target with the new message count.
     */
    method BuildElementRecursive(e: Elem, t: Target, ghost rest: seq<Elem>) returns (r: Result<Target, CompileError>)
      modifies this`messageCount
      ensures r.Err? ==> Run(config, t, [e] + rest, old(messageCount)) == Err(r.error)
      ensures r.Ok? ==> Run(config, t, [e] + rest, old(messageCount)) == Run(config, r.value, rest, messageCount)
      decreases ElemSize(e), 1
    {
      assert ([e] + rest)[0] == e && ([e] + rest)[1..] == rest;
      if e.name == "ifdef" || e.name == "ifndef" {
        if !Holds(config, e) {
          return Ok(t);
        }
        var cur := t;
        var i := 0;
        assert e.children[0..] + rest == e.children + rest;
        while i < |e.children|
          invariant 0 <= i <= |e.children|
          invariant Run(config, t, [e] + rest, old(messageCount)) == Run(config, cur, e.children[i..] + rest, messageCount)
        {
          ElemSizeAt(e.children, i);
          assert [e.children[i]] + (e.children[i + 1..] + rest) == e.children[i..] + rest;
          var step := BuildElementRecursive(e.children[i], cur, e.children[i + 1..] + rest);
          if step.Err? {
            return Err(step.error);
          }
          cur := step.value;
          i := i + 1;
        }
        assert e.children[i..] + rest == rest;
        return Ok(cur);
      } else if e.name == "assert" {
        var cond := Attr(e, "cond");
        var fail := TryResolve(config, Attr(e, "onFail"));
        var f := SwitchFeatureNamed(config, "switch_" + Attr(e, "type"));
        if f.Err? {
          return Err(f.error);
        }
        var id := RegisterMessage();
        var fallback := MessageNode(OkStyle, fail, id, {});
        return Ok(Target([], t.frames + [Frame(t.items, f.value, cond, fallback)]));
      }
      var n := BuildElement(e);
      if n.Err? {
        return Err(n.error);
      }
      r := Ok(Target(t.items + [n.value], t.frames));
    }

    /** The element built from a tag that is not a directive, taking message ids as it goes. */
    method BuildElement(e: Elem) returns (r: Result<Node, CompileError>)
      requires !Directive(e)
      modifies this`messageCount
      ensures BuildNode(config, e, old(messageCount)) == (if r.Ok? then Ok((r.value, messageCount)) else Err(r.error))
      decreases ElemSize(e), 0
    {
      if e.name == "switch" {
        var f := SwitchFeatureNamed(config, "switch_" + Attr(e, "type"));
        if f.Err? {
          return Err(f.error);
        }
        var cs := BuildChildren(e.children);
        if cs.Err? {
          return Err(cs.error);
        }
        r := Ok(SwitchNode(f.value, cs.value, {}));
      } else if e.name == "case" || e.name == "default" {
        var kind := if e.name == "default" then DefaultCase
          else if "cond" in e.attrs then CondCase(e.attrs["cond"]) else ValueCase(Attr(e, "val"));
        var cs := BuildChildren(e.children);
        if cs.Err? {
          return Err(cs.error);
        }
        r := Ok(CaseNode(kind, cs.value, {}));
      } else if e.name == "message" {
        var text := TextOf(config, e);
        var style := Attr(e, "style");
        var ms: MessageStyle;
        if style == "n" {
          ms := NextStyle;
        } else if style == "pn" {
          ms := PrevNextStyle;
        } else if style == "yn" {
          ms := YesNoStyle(TryResolve(config, Attr(e, "no")));
        } else if style == "ok" {
          ms := OkStyle;
        } else {
          return Err(UnknownMessageStyle(style, e.outer));
        }
        var id := RegisterMessage();
        r := Ok(MessageNode(ms, text, id, {}));
      } else if e.name == "options" {
        var text := TextOf(config, e);
        var id := RegisterMessage();
        var cs := BuildChildren(e.children);
        if cs.Err? {
          return Err(cs.error);
        }
        r := Ok(OptionsNode(text, id, cs.value, {}));
      } else if e.name == "option" {
        var text := TextOf(config, e);
        var cs := BuildChildren(e.children);
        if cs.Err? {
          return Err(cs.error);
        }
        r := Ok(OptionNode(text, cs.value, {}));
      } else if e.name in config.features {
        r := Ok(CommandNode(config.features[e.name], OptAttr(e, "x"), OptAttr(e, "y"), OptAttr(e, "z"), {}));
      } else {
        r := Err(UnknownTag(e.name, GetFirstTag(e.outer)));
      }
    }

    /** The children of an element, built one tag after another into the element's own list. */
    method BuildChildren(es: seq<Elem>) returns (r: Result<seq<Node>, CompileError>)
      modifies this`messageCount
      ensures BuildSeq(config, es, old(messageCount)) == (if r.Ok? then Ok((r.value, messageCount)) else Err(r.error))
      decreases ElemsSize(es), 2
    {
      RunCloses(config, Target([], []), es, messageCount);
      var local := Target([], []);
      var i := 0;
      while i < |es|
        invariant 0 <= i <= |es|
        invariant Run(config, Target([], []), es, old(messageCount)) == Run(config, local, es[i..], messageCount)
      {
        ElemSizeAt(es, i);
        assert [es[i]] + es[i + 1..] == es[i..];
        var step := BuildElementRecursive(es[i], local, es[i + 1..]);
        if step.Err? {
          return Err(step.error);
        }
        local := step.value;
        i := i + 1;
      }
      assert es[i..] == [];
      assert [] + BuildSeq(config, es, old(messageCount)).value.0 == BuildSeq(config, es, old(messageCount)).value.0;
      r := Ok(Close(local));
    }

    // ----- the whole compilation -----

    /** The header line, one `importPackage` line per dependency in the order given, and the fixed prologue. */
    static method WritePreamble(date: string, ds: seq<string>) returns (out: string)
      ensures out == Preamble(date, ds)
    {
      ghost var head := HeaderLine(date) + CRLF;
      out := HeaderLine(date) + CRLF;
      var i := 0;
      while i < |ds|
        invariant 0 <= i <= |ds|
        invariant out == head + ImportText(ds[..i])
      {
        assert ds[..i + 1][..i] == ds[..i];
        Assoc(head, ImportText(ds[..i]), ImportLine(ds[i]));
        out := out + ImportLine(ds[i]);
        i := i + 1;
      }
      assert ds[..i] == ds;
      out := out + JoinLines(PrologueLines);
    }

    /**
     * The dispatch blocks, one per context in the order met, each guarded by the statuses of
     * its context in their enumeration order; an empty context is an error (aggregating no
     * tests fails).
     */
    method WriteDispatch() returns (r: Result<string, CompileError>, guards: seq<seq<int>>)
      requires |contexts| == |buffers|
      ensures r.Err? <==> exists k :: 0 <= k < |contexts| && contexts[k] == {}
      ensures r.Err? ==> r.error == EmptyGuard
      ensures r.Ok? ==> GuardsFor(guards, contexts, |contexts|)
      ensures r.Ok? ==> r.value == Blocks(GuardTexts(guards), Bodies(buffers))
    {
      ghost var bodies := Bodies(buffers);
      var out := "";
      guards := [];
      ghost var texts: seq<string> := [];
      var k := 0;
      while k < |contexts|
        invariant 0 <= k <= |contexts|
        invariant |guards| == k && |texts| == k
        invariant GuardsFor(guards, contexts, k)
        invariant forall j :: 0 <= j < k ==> guards[j] != [] && texts[j] == Guard(guards[j])
        invariant out == Blocks(texts, bodies[..k])
      {
        var xs := Enumerate(contexts[k]);
        if xs == [] {
          return Err(EmptyGuard), guards;
        }
        var g := Guard(xs);
        GuardsForSnoc(guards, contexts, k, xs);
        BlocksSnoc(texts, bodies, g);
        out := out + Block(g, buffers[k].text);
        guards := guards + [xs];
        texts := texts + [g];
        k := k + 1;
      }
      assert bodies[..k] == bodies;
      GuardsForNonEmpty(guards, contexts);
      assert texts == GuardTexts(guards);
      r := Ok(out);
    }

    /** The whole script: the preamble, the dispatch blocks and the closing braces. */
    method AssembleScript(date: string, ds: seq<string>) returns (r: Result<string, CompileError>, guards: seq<seq<int>>)
      requires |contexts| == |buffers|
      ensures r.Err? <==> exists k :: 0 <= k < |contexts| && contexts[k] == {}
      ensures r.Ok? <==> {} !in Known(contexts)
      ensures r.Err? ==> r.error == EmptyGuard
      ensures r.Ok? ==> GuardsFor(guards, contexts, |contexts|)
      ensures r.Ok? ==> r.value == Script(date, ds, guards, Bodies(buffers))
    {
      EmptyKnown(contexts);
      var pre := WritePreamble(date, ds);
      var blocks;
      blocks, guards := WriteDispatch();
      if blocks.Err? {
        return Err(blocks.error), guards;
      }
      r := Ok(pre + blocks.value + JoinLines(EpilogueLines));
    }

    /**
     * The scene built from an empty target list: the first element of the list `ref targetList`
     * is left pointing at, or `EmptySceneList` when that list is empty.
     */
    method BuildMain(scene: Elem) returns (r: Result<Node, CompileError>)
      modifies this`messageCount
      ensures r == MainElement(config, scene, old(messageCount))
    {
      var built := BuildElementRecursive(scene, Target([], []), []);
      assert [scene] + [] == [scene];
      if built.Err? {
        return Err(built.error);
      }
      if built.value.items == [] {
        return Err(EmptySceneList);
      }
      r := Ok(built.value.items[0]);
    }

    /**
     * `CompileInternal`: clears the dependencies, builds the scene tag into a fresh list, takes
     * its first element as the main element, assigns status contexts from `{-1}` (the status
     * `start()` sets), compiles the tree into the context buffers and assembles the script.
     * The enumeration orders of the dependency set and of every context are returned too.
     */
    method CompileInternal(scene: Elem, date: string) returns (r: Result<string, CompileError>, depOrder: seq<string>, guards: seq<seq<int>>)
      requires Valid()
      modifies this
      ensures Valid()
      ensures MainElement(config, scene, old(messageCount)).Err? ==> r == Err(MainElement(config, scene, old(messageCount)).error)
      ensures r.Ok? <==>
        && MainElement(config, scene, old(messageCount)).Ok?
        && var annotated := Assign(MainElement(config, scene, old(messageCount)).value, {-1}).0;
        && Compilable(config, annotated, None)
        && {} !in Known(old(contexts)) + Keys(annotated)
      ensures r.Ok? ==> Known(contexts) == Known(old(contexts)) + Keys(Assign(MainElement(config, scene, old(messageCount)).value, {-1}).0)
      ensures r.Ok? ==> deps == DepsOf(config, MainElement(config, scene, old(messageCount)).value)
      ensures r.Ok? && old(contexts) == [] ==> |contexts| > 0 && -1 in contexts[0]
      ensures r.Ok? ==> Enumerates(depOrder, deps)
      ensures r.Ok? ==> GuardsFor(guards, contexts, |contexts|)
      ensures r.Ok? ==> r.value == Script(date, depOrder, guards, Bodies(buffers))
    {
      depOrder, guards := [], [];
      deps := {};
      var main := BuildMain(scene);
      if main.Err? {
        return Err(main.error), depOrder, guards;
      }
      r, depOrder, guards := CompileScene(main.value, date);
      ghost var all := DepsOf(config, main.value);
      assert {} + all == all;
    }

    /**
     * The main element annotated with the status context `{-1}` and compiled, then the
     * dependencies enumerated and the script assembled.
     */
    method CompileScene(main: Node, date: string) returns (r: Result<string, CompileError>, depOrder: seq<string>, guards: seq<seq<int>>)
      requires Valid()
      modifies this`deps, this`contexts, this`buffers
      ensures Valid()
      ensures r.Ok? <==> Compilable(config, Assign(main, {-1}).0, None) && {} !in Known(old(contexts)) + Keys(Assign(main, {-1}).0)
      ensures r.Ok? ==> Known(contexts) == Known(old(contexts)) + Keys(Assign(main, {-1}).0)
      ensures r.Ok? ==> deps == old(deps) + DepsOf(config, main)
      ensures r.Ok? && old(contexts) == [] ==> |contexts| > 0 && -1 in contexts[0]
      ensures r.Ok? ==> Enumerates(depOrder, deps)
      ensures r.Ok? ==> GuardsFor(guards, contexts, |contexts|)
      ensures r.Ok? ==> r.value == Script(date, depOrder, guards, Bodies(buffers))
    {
      depOrder, guards := [], [];
      var annotated, _ := AssignStatusContext(main, {-1});
      var o := CompileJSRecursive(annotated, None);
      if o.Fail? {
        return Err(o.error), depOrder, guards;
      }
      DepsOfAssigned(config, main, {-1});
      depOrder := Enumerate(deps);
      r, guards := AssembleScript(date, depOrder);
    }
  }
}
