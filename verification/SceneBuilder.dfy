/**
 * Building the element tree from a parsed scene.
 *
 * A scene element has a tag name, attributes and child elements. `switch`, `case`, `default`,
 * `message`, `options` and `option` build the element of that kind; a tag naming a registered
 * feature builds a command. `ifdef`/`ifndef` build nothing of their own: when their condition
 * holds their children are built in their place. `assert` builds a switch with a condition case
 * and a default case holding an Ok message, and every later sibling is built into that
 * condition case.
 *
 * `BuildSeq` is the nested reading of that rule. The compiler itself appends to a list it
 * holds by reference and, at an `assert`, retargets that reference to the new case's children;
 * `Target` and `Run` follow that process step by step, and `RunCloses` proves that the tree it
 * leaves behind is the one `BuildSeq` describes.
 */
module SceneBuilder {
  import opened Results
  import opened Text
  import opened Features
  import opened Elements

  /** A parsed scene element: its tag, its attributes, its child elements and its markup as written. */
  datatype Elem = Elem(name: string, attrs: map<string, string>, children: seq<Elem>, outer: string)

  /** What a compilation is configured with: the registered features, the text resources, the manager reference. */
  datatype Config = Config(features: map<string, Feature>, resources: map<string, string>, manager: string)

  /** An attribute's value; a missing attribute reads as the empty text. */
  function Attr(e: Elem, key: string): string
  {
    if key in e.attrs then e.attrs[key] else ""
  }

  /** An optional attribute, absent when the element does not carry it. */
  function OptAttr(e: Elem, key: string): Option<string>
  {
    if key in e.attrs then Some(e.attrs[key]) else None
  }

  /** `TryResolveResource`: the resource of that name, or the name itself when there is none. */
  function TryResolve(cfg: Config, name: string): string
  {
    if name in cfg.resources then cfg.resources[name] else name
  }

  /**
   * `GetTextFromElement`: the `text` attribute, or else the resource named by `rsrc`; without
   * such a resource the text is null, which the generated code shows as empty.
   */
  function TextOf(cfg: Config, e: Elem): string
  {
    if "text" in e.attrs then e.attrs["text"]
    else if Attr(e, "rsrc") in cfg.resources then cfg.resources[Attr(e, "rsrc")]
    else ""
  }

  /** `GetFirstTag`: the markup up to and including the first `>`, or nothing when there is no `>`. */
  function GetFirstTag(x: string): (r: string)
    ensures r <= x
    ensures (forall i :: 0 <= i < |x| ==> x[i] != '>') ==> r == ""
    ensures (exists i :: 0 <= i < |x| && x[i] == '>') ==>
      |r| > 0 && r[|r| - 1] == '>' && forall j :: 0 <= j < |r| - 1 ==> r[j] != '>'
  {
    IndexOfFirst(x, '>', 0);
    var idx := IndexOfChar(x, '>', 0) + 1;
    if idx >= |x| then x else x[..idx]
  }

  /** The switch feature registered under `name`: unknown names and plain features are errors. */
  function SwitchFeatureNamed(cfg: Config, name: string): Result<SwitchFeature, CompileError>
  {
    if name !in cfg.features then Err(UnknownFeature(name))
    else if !cfg.features[name].Switch? then Err(NotASwitchFeature(name))
    else Ok(cfg.features[name])
  }

  /** The tags that build no element of their own. */
  predicate Directive(e: Elem)
  {
    e.name == "ifdef" || e.name == "ifndef" || e.name == "assert"
  }

  /** An `ifdef` holds when its feature is registered, an `ifndef` when it is not. */
  predicate Holds(cfg: Config, e: Elem)
  {
    (e.name == "ifdef" && Attr(e, "name") in cfg.features) || (e.name == "ifndef" && Attr(e, "name") !in cfg.features)
  }

  /** The switch an `assert` stands for: the guarded elements under the condition, the failure message under `default`. */
  function AssertSwitch(f: SwitchFeature, cond: string, guarded: seq<Node>, fallback: Node): Node
  {
    SwitchNode(f, [CaseNode(CondCase(cond), guarded, {}), CaseNode(DefaultCase, [fallback], {})], {})
  }

  function ElemSize(e: Elem): nat
    decreases e, 1
  {
    1 + ElemsSize(e.children)
  }

  function ElemsSize(es: seq<Elem>): nat
    decreases es, 0
  {
    if es == [] then 0 else ElemSize(es[0]) + ElemsSize(es[1..])
  }

  lemma {:induction false} ElemsSizeAppend(a: seq<Elem>, b: seq<Elem>)
    ensures ElemsSize(a + b) == ElemsSize(a) + ElemsSize(b)
    decreases |a|
  {
    if a == [] {
      assert a + b == b;
    } else {
      assert (a + b)[0] == a[0];
      assert (a + b)[1..] == a[1..] + b;
      ElemsSizeAppend(a[1..], b);
    }
  }

  /** The first sibling and the rest are each smaller than the list; a holding directive's children and the rest too. */
  lemma ElemsSizeCons(es: seq<Elem>)
    requires es != []
    ensures ElemsSize(es[1..]) < ElemsSize(es)
    ensures ElemSize(es[0]) <= ElemsSize(es)
    ensures ElemsSize(es[0].children + es[1..]) < ElemsSize(es)
  {
    ElemsSizeAppend(es[0].children, es[1..]);
  }

  /**
   * The element built from a tag that is not a directive, with the next free message status.
   * Messages and options messages take the next status (an options message before its
   * options are built); unknown message styles and unknown tags are errors.
   */
  function BuildNode(cfg: Config, e: Elem, next: nat): (r: Result<(Node, nat), CompileError>)
    requires !Directive(e)
    ensures r.Ok? ==> next <= r.value.1
    decreases ElemSize(e), 0
  {
    if e.name == "switch" then
      var f :- SwitchFeatureNamed(cfg, "switch_" + Attr(e, "type"));
      var b :- BuildSeq(cfg, e.children, next);
      Ok((SwitchNode(f, b.0, {}), b.1))
    else if e.name == "case" then
      var kind := if "cond" in e.attrs then CondCase(e.attrs["cond"]) else ValueCase(Attr(e, "val"));
      var b :- BuildSeq(cfg, e.children, next);
      Ok((CaseNode(kind, b.0, {}), b.1))
    else if e.name == "default" then
      var b :- BuildSeq(cfg, e.children, next);
      Ok((CaseNode(DefaultCase, b.0, {}), b.1))
    else if e.name == "message" then
      var text := TextOf(cfg, e);
      var style := Attr(e, "style");
      if style == "n" then Ok((MessageNode(NextStyle, text, next, {}), next + 1))
      else if style == "pn" then Ok((MessageNode(PrevNextStyle, text, next, {}), next + 1))
      else if style == "yn" then Ok((MessageNode(YesNoStyle(TryResolve(cfg, Attr(e, "no"))), text, next, {}), next + 1))
      else if style == "ok" then Ok((MessageNode(OkStyle, text, next, {}), next + 1))
      else Err(UnknownMessageStyle(style, e.outer))
    else if e.name == "options" then
      var text := TextOf(cfg, e);
      var b :- BuildSeq(cfg, e.children, next + 1);
      Ok((OptionsNode(text, next, b.0, {}), b.1))
    else if e.name == "option" then
      var b :- BuildSeq(cfg, e.children, next);
      Ok((OptionNode(TextOf(cfg, e), b.0, {}), b.1))
    else if e.name in cfg.features then
      Ok((CommandNode(cfg.features[e.name], OptAttr(e, "x"), OptAttr(e, "y"), OptAttr(e, "z"), {}), next))
    else
      Err(UnknownTag(e.name, GetFirstTag(e.outer)))
  }

  /**
   * The elements built from a list of sibling tags, in order: a holding `ifdef`/`ifndef`
   * is replaced by its children, a failing one by nothing, and an `assert` becomes a switch
   * whose condition case holds everything built from the siblings after it.
   */
  function BuildSeq(cfg: Config, es: seq<Elem>, next: nat): (r: Result<(seq<Node>, nat), CompileError>)
    ensures r.Ok? ==> next <= r.value.1
    decreases ElemsSize(es), 1
  {
    if es == [] then Ok(([], next))
    else
      var e := es[0];
      var rest := es[1..];
      ElemsSizeCons(es);
      if e.name == "ifdef" || e.name == "ifndef" then
        if Holds(cfg, e) then
          BuildSeq(cfg, e.children + rest, next)
        else BuildSeq(cfg, rest, next)
      else if e.name == "assert" then
        var f :- SwitchFeatureNamed(cfg, "switch_" + Attr(e, "type"));
        var fallback := MessageNode(OkStyle, TryResolve(cfg, Attr(e, "onFail")), next, {});
        var b :- BuildSeq(cfg, rest, next + 1);
        Ok(([AssertSwitch(f, Attr(e, "cond"), b.0, fallback)], b.1))
      else
        var n :- BuildNode(cfg, e, next);
        var b :- BuildSeq(cfg, rest, n.1);
        Ok(([n.0] + b.0, b.1))
  }

  // ----- the list the builder appends to -----

  /**
   * An `assert` passed on the way to the current list: the list it was appended to (what came
   * before it), and the parts of the switch it built around the current list.
   */
  datatype Frame = Frame(before: seq<Node>, switchType: SwitchFeature, cond: string, fallback: Node)

  /**
   * The list the builder currently appends to (`items`) and, outermost first, the asserts whose
   * condition cases lead from the list the builder started with to it.
   */
  datatype Target = Target(items: seq<Node>, frames: seq<Frame>)

  /** The list the builder started with, as the appends through its current target have left it. */
  function Close(t: Target): seq<Node>
    decreases |t.frames|
  {
    if t.frames == [] then t.items
    else
      var f := t.frames[|t.frames| - 1];
      Close(Target(f.before + [AssertSwitch(f.switchType, f.cond, t.items, f.fallback)], t.frames[..|t.frames| - 1]))
  }

  /** The started list once `ns` is appended to the current target. */
  function Fill(t: Target, ns: seq<Node>): seq<Node>
  {
    Close(Target(t.items + ns, t.frames))
  }

  /**
   * Building sibling tags one after another into a target: each element is appended to the
   * current list; an `assert` appends its switch and makes the condition case's children the
   * current list; an `ifdef`/`ifndef` that holds builds its children into the same target.
   */
  function Run(cfg: Config, t: Target, es: seq<Elem>, next: nat): (r: Result<(Target, nat), CompileError>)
    decreases ElemsSize(es)
  {
    if es == [] then Ok((t, next))
    else
      var e := es[0];
      var rest := es[1..];
      ElemsSizeCons(es);
      if e.name == "ifdef" || e.name == "ifndef" then
        if Holds(cfg, e) then
          Run(cfg, t, e.children + rest, next)
        else Run(cfg, t, rest, next)
      else if e.name == "assert" then
        var f :- SwitchFeatureNamed(cfg, "switch_" + Attr(e, "type"));
        var fallback := MessageNode(OkStyle, TryResolve(cfg, Attr(e, "onFail")), next, {});
        Run(cfg, Target([], t.frames + [Frame(t.items, f, Attr(e, "cond"), fallback)]), rest, next + 1)
      else
        var n :- BuildNode(cfg, e, next);
        Run(cfg, Target(t.items + [n.0], t.frames), rest, n.1)
  }

  /**
   * Building by retargeting gives the nested tree: whatever target the builder starts from, it
   * fails exactly when `BuildSeq` fails, with the same error, and otherwise the started list ends
   * as if the elements of `BuildSeq` had been appended to the starting target.
   */
  lemma {:induction false} RunCloses(cfg: Config, t: Target, es: seq<Elem>, next: nat)
    ensures Run(cfg, t, es, next).Ok? <==> BuildSeq(cfg, es, next).Ok?
    ensures Run(cfg, t, es, next).Err? ==> Run(cfg, t, es, next).error == BuildSeq(cfg, es, next).error
    ensures Run(cfg, t, es, next).Ok? ==>
      && Close(Run(cfg, t, es, next).value.0) == Fill(t, BuildSeq(cfg, es, next).value.0)
      && Run(cfg, t, es, next).value.1 == BuildSeq(cfg, es, next).value.1
    decreases ElemsSize(es)
  {
    if es == [] {
      assert t.items + [] == t.items;
    } else {
      var e := es[0];
      var rest := es[1..];
      ElemsSizeCons(es);
      if e.name == "ifdef" || e.name == "ifndef" {
        if Holds(cfg, e) {
          RunCloses(cfg, t, e.children + rest, next);
        } else {
          RunCloses(cfg, t, rest, next);
        }
      } else if e.name == "assert" {
        var f := SwitchFeatureNamed(cfg, "switch_" + Attr(e, "type"));
        if f.Ok? {
          var fallback := MessageNode(OkStyle, TryResolve(cfg, Attr(e, "onFail")), next, {});
          var fr := Frame(t.items, f.value, Attr(e, "cond"), fallback);
          var t' := Target([], t.frames + [fr]);
          RunCloses(cfg, t', rest, next + 1);
          var b := BuildSeq(cfg, rest, next + 1);
          if b.Ok? {
            assert [] + b.value.0 == b.value.0;
            assert (t.frames + [fr])[..|t.frames|] == t.frames;
            assert Fill(t', b.value.0) == Fill(t, [AssertSwitch(f.value, Attr(e, "cond"), b.value.0, fallback)]);
          }
        }
      } else {
        var n := BuildNode(cfg, e, next);
        if n.Ok? {
          var t' := Target(t.items + [n.value.0], t.frames);
          RunCloses(cfg, t', rest, n.value.1);
          var b := BuildSeq(cfg, rest, n.value.1);
          if b.Ok? {
            assert t'.items + b.value.0 == t.items + ([n.value.0] + b.value.0);
          }
        }
      }
    }
  }

  /** Starting from an empty list with nothing around it, the list ends as the built elements. */
  lemma BuildFromEmpty(cfg: Config, es: seq<Elem>, next: nat)
    ensures Run(cfg, Target([], []), es, next).Ok? <==> BuildSeq(cfg, es, next).Ok?
    ensures Run(cfg, Target([], []), es, next).Ok? ==>
      Close(Run(cfg, Target([], []), es, next).value.0) == BuildSeq(cfg, es, next).value.0
  {
    RunCloses(cfg, Target([], []), es, next);
    if BuildSeq(cfg, es, next).Ok? {
      assert [] + BuildSeq(cfg, es, next).value.0 == BuildSeq(cfg, es, next).value.0;
    }
  }

  /**
   * After building a single scene tag into a fresh list, the list the builder is left holding:
   * for an element tag, exactly that element; after a root `assert`, the (empty) condition case.
   */
  lemma RootTarget(cfg: Config, root: Elem, next: nat)
    ensures !Directive(root) && BuildNode(cfg, root, next).Ok? ==>
      Run(cfg, Target([], []), [root], next) == Ok((Target([BuildNode(cfg, root, next).value.0], []), BuildNode(cfg, root, next).value.1))
    ensures root.name == "assert" && SwitchFeatureNamed(cfg, "switch_" + Attr(root, "type")).Ok? ==>
      Run(cfg, Target([], []), [root], next).Ok? && Run(cfg, Target([], []), [root], next).value.0.items == []
  {
    assert [root][1..] == [];
    if !Directive(root) && BuildNode(cfg, root, next).Ok? {
      assert [] + [BuildNode(cfg, root, next).value.0] == [BuildNode(cfg, root, next).value.0];
    }
  }

  // ----- message statuses -----

  /** The statuses registered for the suspend points of a tree, as a multiset. */
  function NodeIds(n: Node): multiset<int>
    decreases n, 1
  {
    (if n.ControlFlowBreaker() then multiset{n.status} else multiset{}) + (if n.HasChildren() then NodesIds(n.children) else multiset{})
  }

  function NodesIds(ns: seq<Node>): multiset<int>
    decreases ns, 0
  {
    if ns == [] then multiset{} else NodeIds(ns[0]) + NodesIds(ns[1..])
  }

  /** The integers from `lo` up to but excluding `hi`, each once. */
  function Range(lo: int, hi: int): multiset<int>
    decreases hi - lo
  {
    if hi <= lo then multiset{} else Range(lo, hi - 1) + multiset{hi - 1}
  }

  lemma {:induction false} RangeSplit(a: int, b: int, c: int)
    requires a <= b <= c
    ensures Range(a, b) + Range(b, c) == Range(a, c)
    decreases c - b
  {
    if b < c {
      RangeSplit(a, b, c - 1);
      assert Range(b, c) == Range(b, c - 1) + multiset{c - 1};
      assert Range(a, c) == Range(a, c - 1) + multiset{c - 1};
    }
  }

  lemma {:induction false} NodesIdsAppend(a: seq<Node>, b: seq<Node>)
    ensures NodesIds(a + b) == NodesIds(a) + NodesIds(b)
    decreases |a|
  {
    if a == [] {
      assert a + b == b;
    } else {
      assert (a + b)[0] == a[0];
      assert (a + b)[1..] == a[1..] + b;
      NodesIdsAppend(a[1..], b);
    }
  }

  /** The statuses of an assert's switch: those of the guarded elements and the failure message's. */
  lemma AssertSwitchIds(f: SwitchFeature, cond: string, guarded: seq<Node>, fallback: Node)
    ensures NodeIds(AssertSwitch(f, cond, guarded, fallback)) == NodesIds(guarded) + NodeIds(fallback)
  {
    var guardedCase := CaseNode(CondCase(cond), guarded, {});
    var defaultCase := CaseNode(DefaultCase, [fallback], {});
    assert [fallback][1..] == [];
    assert NodesIds([fallback]) == NodeIds(fallback) + NodesIds([]);
    assert NodeIds(defaultCase) == NodeIds(fallback);
    assert [guardedCase, defaultCase][1..] == [defaultCase];
    assert [defaultCase][1..] == [];
    assert NodesIds([guardedCase, defaultCase]) == NodeIds(guardedCase) + NodeIds(defaultCase);
  }

  /** A node that is no suspend point carries the statuses of its children. */
  lemma InnerIds(n: Node)
    requires n.HasChildren() && !n.ControlFlowBreaker()
    ensures NodeIds(n) == NodesIds(n.children)
  {
  }

  /**
   * Message statuses are handed out in construction order: the suspend points built from an
   * element carry exactly the statuses from the first free one up to the next free one after
   * it, each once.
   */
  lemma {:induction false} BuildNodeIds(cfg: Config, e: Elem, next: nat)
    requires !Directive(e) && BuildNode(cfg, e, next).Ok?
    ensures NodeIds(BuildNode(cfg, e, next).value.0) == Range(next, BuildNode(cfg, e, next).value.1)
    decreases ElemSize(e), 0
  {
    var r := BuildNode(cfg, e, next).value;
    if e.name == "switch" || e.name == "case" || e.name == "default" || e.name == "option" {
      ParentIds(cfg, e, next);
    } else if e.name == "options" {
      OptionsIds(cfg, e, next);
    } else if e.name == "message" {
      MessageIds(cfg, e, next);
    } else {
      assert r.0.CommandNode? && r.1 == next;
    }
  }

  lemma {:induction false} ParentIds(cfg: Config, e: Elem, next: nat)
    requires e.name == "switch" || e.name == "case" || e.name == "default" || e.name == "option"
    requires BuildNode(cfg, e, next).Ok?
    ensures NodeIds(BuildNode(cfg, e, next).value.0) == Range(next, BuildNode(cfg, e, next).value.1)
    decreases ElemSize(e), -1
  {
    var r := BuildNode(cfg, e, next).value;
    var b := BuildSeq(cfg, e.children, next);
    assert b.Ok? && r.0.HasChildren() && !r.0.ControlFlowBreaker() && r.0.children == b.value.0 && r.1 == b.value.1;
    BuildSeqIds(cfg, e.children, next);
    InnerIds(r.0);
  }

  lemma {:induction false} OptionsIds(cfg: Config, e: Elem, next: nat)
    requires e.name == "options" && BuildNode(cfg, e, next).Ok?
    ensures NodeIds(BuildNode(cfg, e, next).value.0) == Range(next, BuildNode(cfg, e, next).value.1)
    decreases ElemSize(e), -1
  {
    var r := BuildNode(cfg, e, next).value;
    var b := BuildSeq(cfg, e.children, next + 1);
    assert b.Ok? && r.0 == OptionsNode(TextOf(cfg, e), next, b.value.0, {}) && r.1 == b.value.1;
    BuildSeqIds(cfg, e.children, next + 1);
    RangeSplit(next, next + 1, r.1);
    assert Range(next, next + 1) == multiset{next};
  }

  lemma MessageIds(cfg: Config, e: Elem, next: nat)
    requires e.name == "message" && BuildNode(cfg, e, next).Ok?
    ensures NodeIds(BuildNode(cfg, e, next).value.0) == Range(next, BuildNode(cfg, e, next).value.1)
  {
    var r := BuildNode(cfg, e, next).value;
    assert r.0.MessageNode? && r.0.status == next && r.1 == next + 1;
    assert Range(next, next + 1) == multiset{next};
  }

  lemma {:induction false} BuildSeqIds(cfg: Config, es: seq<Elem>, next: nat)
    requires BuildSeq(cfg, es, next).Ok?
    ensures NodesIds(BuildSeq(cfg, es, next).value.0) == Range(next, BuildSeq(cfg, es, next).value.1)
    decreases ElemsSize(es), 1
  {
    if es != [] {
      var e := es[0];
      var rest := es[1..];
      ElemsSizeCons(es);
      if e.name == "ifdef" || e.name == "ifndef" {
        if Holds(cfg, e) {
          BuildSeqIds(cfg, e.children + rest, next);
        } else {
          BuildSeqIds(cfg, rest, next);
        }
      } else if e.name == "assert" {
        var f := SwitchFeatureNamed(cfg, "switch_" + Attr(e, "type")).value;
        var fallback := MessageNode(OkStyle, TryResolve(cfg, Attr(e, "onFail")), next, {});
        var b := BuildSeq(cfg, rest, next + 1).value;
        var sw := AssertSwitch(f, Attr(e, "cond"), b.0, fallback);
        assert BuildSeq(cfg, es, next).value == ([sw], b.1);
        BuildSeqIds(cfg, rest, next + 1);
        AssertSwitchIds(f, Attr(e, "cond"), b.0, fallback);
        assert [sw][1..] == [];
        RangeSplit(next, next + 1, b.1);
        assert Range(next, next + 1) == multiset{next};
      } else {
        var n := BuildNode(cfg, e, next).value;
        var b := BuildSeq(cfg, rest, n.1).value;
        assert BuildSeq(cfg, es, next).value == ([n.0] + b.0, b.1);
        BuildNodeIds(cfg, e, next);
        BuildSeqIds(cfg, rest, n.1);
        assert ([n.0] + b.0)[1..] == b.0;
        RangeSplit(next, n.1, b.1);
      }
    }
  }

  /** Each integer of a range occurs in it once, and nothing else does. */
  lemma {:induction false} RangeCount(lo: int, hi: int, x: int)
    ensures Range(lo, hi)[x] == if lo <= x < hi then 1 else 0
    decreases hi - lo
  {
    if lo < hi {
      RangeCount(lo, hi - 1, x);
    }
  }

  /**
   * No two suspend points built from a scene share a status, and the statuses used are exactly
   * those from the first free one up to the next free one.
   */
  lemma StatusesDistinct(cfg: Config, es: seq<Elem>, next: nat, ns: seq<Node>, hi: nat)
    requires BuildSeq(cfg, es, next) == Ok((ns, hi))
    ensures forall x :: NodesIds(ns)[x] <= 1
    ensures forall x :: x in NodesIds(ns) <==> next <= x < hi
  {
    BuildSeqIds(cfg, es, next);
    forall x
      ensures NodesIds(ns)[x] <= 1 && (x in NodesIds(ns) <==> next <= x < hi)
    {
      RangeCount(next, hi, x);
    }
  }

}
