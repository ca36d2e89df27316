/**
 * The element kinds of a dialogue scene, their capability flags, and the text each kind
 * generates on its own: case headers, the options message text, the previous status a
 * back-navigating message returns to, and the continuation lines of the messages that
 * have one.
 */
module Elements {
  import opened Results
  import opened Text
  import opened Features
  import Indented

  datatype CaseKind =
    | ValueCase(value: string)     // `case val="a,b"`: equal to one of the listed values
    | CondCase(cond: string)       // `case cond="..."`: an expression where `$x` is the switch subject
    | DefaultCase                  // `default`

  datatype MessageStyle = NextStyle | PrevNextStyle | YesNoStyle(no: string) | OkStyle

  /**
   * A scene element. `ctx` is its status context: the statuses from which it can be reached.
   * `status` is the id a message got when it was registered.
   */
  datatype Node =
    | SwitchNode(switchType: SwitchFeature, children: seq<Node>, ctx: set<int>)
    | CaseNode(kind: CaseKind, children: seq<Node>, ctx: set<int>)
    | MessageNode(style: MessageStyle, text: string, status: int, ctx: set<int>)
    | OptionsNode(text: string, status: int, children: seq<Node>, ctx: set<int>)
    | OptionNode(text: string, children: seq<Node>, ctx: set<int>)
    | CommandNode(feature: Feature, x: Option<string>, y: Option<string>, z: Option<string>, ctx: set<int>)
  {
    predicate HasChildren()
    {
      match this
      case SwitchNode(_, _, _) => true
      case CaseNode(_, _, _) => true
      case MessageNode(_, _, _, _) => false
      case OptionsNode(_, _, _, _) => true
      case OptionNode(_, _, _) => true
      case CommandNode(_, _, _, _, _) => false
    }

    predicate Parallel()
    {
      match this
      case SwitchNode(_, _, _) => true
      case CaseNode(_, _, _) => false
      case MessageNode(_, _, _, _) => false
      case OptionsNode(_, _, _, _) => true
      case OptionNode(_, _, _) => false
      case CommandNode(_, _, _, _, _) => false
    }

    /** The same element with the status context `c`. */
    function WithContext(c: set<int>): (r: Node)
      ensures r.ctx == c
    {
      match this
      case SwitchNode(f, cs, _) => SwitchNode(f, cs, c)
      case CaseNode(k, cs, _) => CaseNode(k, cs, c)
      case MessageNode(s, t, id, _) => MessageNode(s, t, id, c)
      case OptionsNode(t, id, cs, _) => OptionsNode(t, id, cs, c)
      case OptionNode(t, cs, _) => OptionNode(t, cs, c)
      case CommandNode(f, x, y, z, _) => CommandNode(f, x, y, z, c)
    }

    /** The same element with the children `cs`. */
    function WithChildren(cs: seq<Node>): (r: Node)
      requires HasChildren()
      ensures r.HasChildren() && r.children == cs && r.ctx == ctx
    {
      match this
      case SwitchNode(f, _, c) => SwitchNode(f, cs, c)
      case CaseNode(k, _, c) => CaseNode(k, cs, c)
      case OptionsNode(t, id, _, c) => OptionsNode(t, id, cs, c)
      case OptionNode(t, _, c) => OptionNode(t, cs, c)
    }

    /** A suspend point: a message, after which execution resumes at the message's status. */
    predicate ControlFlowBreaker()
    {
      match this
      case SwitchNode(_, _, _) => false
      case CaseNode(_, _, _) => false
      case MessageNode(_, _, _, _) => true
      case OptionsNode(_, _, _, _) => true
      case OptionNode(_, _, _) => false
      case CommandNode(_, _, _, _, _) => false
    }
  }

  /** The capability flags of each kind. */
  lemma FlagTable(n: Node)
    ensures n.SwitchNode? ==> n.HasChildren() && n.Parallel() && !n.ControlFlowBreaker()
    ensures n.CaseNode? || n.OptionNode? ==> n.HasChildren() && !n.Parallel() && !n.ControlFlowBreaker()
    ensures n.MessageNode? ==> !n.HasChildren() && n.ControlFlowBreaker()
    ensures n.OptionsNode? ==> n.HasChildren() && n.Parallel() && n.ControlFlowBreaker()
    ensures n.CommandNode? ==> !n.HasChildren() && !n.Parallel() && !n.ControlFlowBreaker()
    ensures n.ControlFlowBreaker() <==> n.MessageNode? || n.OptionsNode?
  {
  }

  // ----- case headers -----

  /** One equality test of the switch subject per listed value, in order. */
  function ValueTests(f: Feature, manager: string, values: seq<string>): (r: seq<string>)
    ensures |r| == |values|
  {
    if values == [] then [] else [CompileText(f, manager, Some(values[0]), None, None)] + ValueTests(f, manager, values[1..])
  }

  /** `CaseElement.Compile`: the `if` / `else if` / `else` header of a case. */
  function CaseHeader(kind: CaseKind, f: SwitchFeature, manager: string, first: bool): (r: string)
    ensures kind.DefaultCase? ==> r == "else"
    ensures !kind.DefaultCase? ==> (if first then "if (" else "else if (") <= r && r[|r| - 1] == ')'
  {
    var opening := if first then "if (" else "else if (";
    match kind
    case DefaultCase => "else"
    case CondCase(cond) => opening + Replace(cond, "$x", LeftText(f, manager)) + ")"
    case ValueCase(value) => opening + Join(ValueTests(f, manager, SplitOn(value, ",")), " || ") + ")"
  }

  /** Compiling a case header records the switch feature's dependency unless it is the default case. */
  function CaseRecorded(deps: set<string>, kind: CaseKind, f: Feature): set<string>
  {
    if kind.DefaultCase? then deps else Recorded(deps, f)
  }

  /**
   * A value case tests the switch subject against every comma-separated value, empty ones
   * included: one disjunct `left == right(value)` per value, in the order written.
   */
  lemma {:induction false} ValueCaseDisjuncts(f: SwitchFeature, manager: string, value: string)
    ensures var tests := ValueTests(f, manager, SplitOn(value, ","));
      && |tests| == Count(value, ',') + 1
      && forall i :: 0 <= i < |tests| ==>
           tests[i] == LeftText(f, manager) + " == " + Substitute(f.val, manager, Some(SplitOn(value, ",")[i]), None, None)
  {
    SplitCount(value, ',');
    ValueTestsAt(f, manager, SplitOn(value, ","));
  }

  lemma {:induction false} ValueTestsAt(f: SwitchFeature, manager: string, values: seq<string>)
    ensures forall i :: 0 <= i < |values| ==>
      ValueTests(f, manager, values)[i] == LeftText(f, manager) + " == " + Substitute(f.val, manager, Some(values[i]), None, None)
    decreases |values|
  {
    if values != [] {
      ValueTestsAt(f, manager, values[1..]);
      forall i | 0 <= i < |values|
        ensures ValueTests(f, manager, values)[i] == LeftText(f, manager) + " == " + Substitute(f.val, manager, Some(values[i]), None, None)
      {
        if i > 0 {
          assert ValueTests(f, manager, values)[i] == ValueTests(f, manager, values[1..])[i - 1];
        }
      }
    }
  }

  // ----- the options message text -----

  /** One option in the options text: a JavaScript-escaped line break, then `#L<i>#<label>#l`. */
  function OptionEntry(i: int, caption: string): string
  {
    "\\r\\n#L" + IntToString(i) + "#" + caption + "#l"
  }

  /** The entries of the given labels, numbered from 0 in order. */
  function OptionEntries(labels: seq<string>): string
    decreases |labels|
  {
    if labels == [] then ""
    else OptionEntries(labels[..|labels| - 1]) + OptionEntry(|labels| - 1, labels[|labels| - 1])
  }

  /** The labels of an options message's children, which must all be options. */
  function OptionLabels(children: seq<Node>): (r: Result<seq<string>, CompileError>)
    ensures r.Ok? <==> forall i :: 0 <= i < |children| ==> children[i].OptionNode?
    ensures r.Ok? ==> |r.value| == |children| && forall i :: 0 <= i < |children| ==> r.value[i] == children[i].text
    ensures r.Err? ==> r.error == UnexpectedChild
  {
    if children == [] then Ok([])
    else if !children[0].OptionNode? then Err(UnexpectedChild)
    else
      match OptionLabels(children[1..])
      case Ok(rest) => Ok([children[0].text] + rest)
      case Err(e) => Err(e)
  }

  /**
   * `OptionsMessageElement.Compile` builds the dialogue text step by step: the message text,
   * `#b`, one entry per option in order, then `#k`. A child that is not an option fails the cast.
   */
  method OptionsFullText(text: string, children: seq<Node>) returns (r: Result<string, CompileError>)
    ensures r.Err? <==> exists i :: 0 <= i < |children| && !children[i].OptionNode?
    ensures r.Err? ==> r.error == UnexpectedChild
    ensures r.Ok? ==> r.value == text + "#b" + OptionEntries(OptionLabels(children).value) + "#k"
  {
    var fullText := text + "#b";
    ghost var head := fullText;
    ghost var labels: seq<string> := [];
    var i := 0;
    while i < |children|
      invariant 0 <= i <= |children| && |labels| == i
      invariant forall k :: 0 <= k < i ==> children[k].OptionNode? && labels[k] == children[k].text
      invariant fullText == head + OptionEntries(labels)
    {
      if !children[i].OptionNode? {
        return Err(UnexpectedChild);
      }
      var entry := OptionEntry(i, children[i].text);
      EntriesLast(labels + [children[i].text], OptionEntries(labels), entry);
      Assoc(head, OptionEntries(labels), entry);
      fullText := fullText + entry;
      labels := labels + [children[i].text];
      i := i + 1;
    }
    assert labels == OptionLabels(children).value;
    r := Ok(fullText + "#k");
  }

  /** One more label adds its entry at the end. */
  lemma EntriesLast(labels: seq<string>, front: string, entry: string)
    requires |labels| > 0
    requires OptionEntries(labels[..|labels| - 1]) == front
    requires entry == OptionEntry(|labels| - 1, labels[|labels| - 1])
    ensures OptionEntries(labels) == front + entry
  {
  }

  /** The entries of the first `j` labels begin the entries of all of them. */
  lemma {:induction false} OptionEntriesPrefix(labels: seq<string>, j: nat)
    requires j <= |labels|
    ensures OptionEntries(labels[..j]) <= OptionEntries(labels)
    decreases |labels| - j
  {
    if j < |labels| {
      OptionEntriesPrefix(labels, j + 1);
      assert labels[..j + 1][..j] == labels[..j];
      assert OptionEntries(labels[..j + 1]) == OptionEntries(labels[..j]) + OptionEntry(j, labels[j]);
    } else {
      assert labels[..j] == labels;
    }
  }

  /**
   * The options text carries every label, numbered with its position: the entry of label `i`
   * sits right after the entries of the labels before it.
   */
  lemma OptionEntryAt(labels: seq<string>, i: nat)
    requires i < |labels|
    ensures var p, e := |OptionEntries(labels[..i])|, OptionEntry(i, labels[i]);
      p + |e| <= |OptionEntries(labels)| && OptionEntries(labels)[p..p + |e|] == e
  {
    OptionEntriesPrefix(labels, i + 1);
    assert labels[..i + 1][..i] == labels[..i];
    var front, e := OptionEntries(labels[..i]), OptionEntry(i, labels[i]);
    assert OptionEntries(labels[..i + 1]) == front + e;
    assert (front + e)[|front|..|front| + |e|] == e;
  }

  // ----- messages -----

  /** The dialogue feature a message is sent with. */
  function DialogFeature(m: Node): string
    requires m.ControlFlowBreaker()
  {
    if m.OptionsNode? then "dlg_Options"
    else match m.style
      case NextStyle => "dlg_Next"
      case PrevNextStyle => "dlg_PrevNext"
      case YesNoStyle(_) => "dlg_YesNo"
      case OkStyle => "dlg_Ok"
  }

  /** The quoted argument of the dialogue call: the text, or for options the full options text. */
  function DialogArgument(m: Node): Result<string, CompileError>
    requires m.ControlFlowBreaker()
  {
    if m.MessageNode? then Ok(Quote(m.text))
    else
      var labels :- OptionLabels(m.children);
      Ok(Quote(m.text + "#b" + OptionEntries(labels) + "#k"))
  }

  /** `status = N;`, the statement that makes N the status to resume at. */
  function StatusChange(n: int): string
  {
    "status = " + IntToString(n) + ";"
  }

  /** Is `n` a message (a suspend point) carrying the given status id? */
  predicate IsMessageWithStatus(n: Node, id: int)
  {
    n.ControlFlowBreaker() && n.status == id
  }

  /** The first position at or after `from` holding the message with status `id`, or -1. */
  function MessagePosition(siblings: seq<Node>, id: int, from: nat): (r: int)
    requires from <= |siblings|
    ensures r == -1 || (from <= r < |siblings| && IsMessageWithStatus(siblings[r], id))
    ensures r == -1 ==> forall j :: from <= j < |siblings| ==> !IsMessageWithStatus(siblings[j], id)
    ensures r != -1 ==> forall j :: from <= j < r ==> !IsMessageWithStatus(siblings[j], id)
    decreases |siblings| - from
  {
    if from == |siblings| then -1
    else if IsMessageWithStatus(siblings[from], id) then from
    else MessagePosition(siblings, id, from + 1)
  }

  /** The position of the nearest message before position `j`, or -1 when none precedes it. */
  function PrecedingMessage(siblings: seq<Node>, j: nat): (r: int)
    requires j <= |siblings|
    ensures r == -1 || (0 <= r < j && siblings[r].ControlFlowBreaker())
    ensures forall q :: r < q < j ==> !siblings[q].ControlFlowBreaker()
    decreases j
  {
    if j == 0 then -1
    else if siblings[j - 1].ControlFlowBreaker() then j - 1
    else PrecedingMessage(siblings, j - 1)
  }

  /**
   * `PrevNextMessageElement.GetPreviousStatus`: walking the parent's children, the message's
   * own position is found; the result is -1 when no message precedes it, and otherwise some
   * status of the nearest preceding message's status context (which must not be empty).
   * A message that is not among the children is an internal error.
   */
  method GetPreviousStatus(siblings: seq<Node>, id: int) returns (r: Result<int, CompileError>)
    ensures var j := MessagePosition(siblings, id, 0);
      && (j == -1 ==> r == Err(NotAChild))
      && (j != -1 ==>
            var p := PrecedingMessage(siblings, j);
            && (p == -1 ==> r == Ok(-1))
            && (p != -1 && siblings[p].ctx == {} ==> r == Err(EmptyContext))
            && (p != -1 && siblings[p].ctx != {} ==> r.Ok? && r.value in siblings[p].ctx))
  {
    var prev: Option<Node> := None;
    var i := 0;
    while i < |siblings|
      invariant 0 <= i <= |siblings|
      invariant MessagePosition(siblings, id, 0) == MessagePosition(siblings, id, i)
      invariant var p := PrecedingMessage(siblings, i);
        (p == -1 <==> prev.None?) && (p != -1 ==> prev == Some(siblings[p]))
    {
      var child := siblings[i];
      if child.ControlFlowBreaker() {
        if child.status == id {
          if prev.None? {
            return Ok(-1);
          }
          var c := prev.value.ctx;
          if c == {} {
            return Err(EmptyContext);
          } else {
            var s := ElementAt0(c);
            return Ok(s);
          }
        }
        prev := Some(child);
      }
      i := i + 1;
    }
    return Err(NotAChild);
  }

  /** `HashSet.ElementAt(0)`: some element of a non-empty set, the enumeration order being unspecified. */
  method ElementAt0(c: set<int>) returns (s: int)
    requires c != {}
    ensures s in c
  {
    if forall x :: x !in c {
      assert false;
    }
    s :| s in c;
  }

  /**
   * The continuation of a back/next message: in "back" mode (mode 0) the status goes back
   * to the previous one and the dispatch entry runs again at once.
   */
  function BackContinuation(previous: int): seq<string>
  {
    [ "if (mode == 0)",
      "{",
      Indented.Indent + "status = " + IntToString(previous),
      Indented.Indent + "action(1,0,0);",
      Indented.Indent + "return;",
      "}" ]
  }

  /**
   * The continuation of a yes/no message: on "no" (mode 0) the "no" text is shown as an
   * Ok message, the conversation ends, and the call returns.
   */
  function DeclineContinuation(noCall: string, endCall: string): seq<string>
  {
    [ "if (mode == 0)",
      "{",
      Indented.Indent + noCall,
      Indented.Indent + endCall,
      Indented.Indent + "return;",
      "}" ]
  }

  /** Text without a carriage return holds no line terminator. */
  lemma {:induction false} NoCarriageReturn(s: string)
    requires forall i :: 0 <= i < |s| ==> s[i] != '\r'
    ensures !Contains(s, CRLF)
    decreases |s|
  {
    if s != [] {
      assert !(CRLF <= s) by {
        if |s| >= 2 {
          assert s[0] != CRLF[0];
        }
      }
      NoCarriageReturn(s[1..]);
    }
  }

  lemma {:induction false} DigitsOnly(n: nat)
    ensures forall i :: 0 <= i < |NatToString(n)| ==> NatToString(n)[i] in "0123456789"
    decreases n
  {
    if n >= 10 {
      DigitsOnly(n / 10);
    }
  }

  /**
   * The back continuation is written to the resume buffer line by line, unchanged: none of
   * its lines is empty or holds a line terminator.
   */
  lemma BackContinuationAppended(w: Indented.Writer, previous: int)
    ensures Indented.TextAppended(w, JoinLines(BackContinuation(previous)))
         == Indented.Writer(w.text + Indented.Rendered(w.level, BackContinuation(previous)), w.level)
  {
    var lines := BackContinuation(previous);
    var digits := if previous < 0 then NatToString(-previous) else NatToString(previous);
    DigitsOnly(if previous < 0 then -previous else previous);
    forall i | 0 <= i < |lines|
      ensures lines[i] != [] && !Contains(lines[i], CRLF)
    {
      forall k | 0 <= k < |lines[i]|
        ensures lines[i][k] != '\r'
      {
        if i == 2 {
          var l := Indented.Indent + "status = " + IntToString(previous);
          if k >= |Indented.Indent + "status = "| {
            var t := IntToString(previous);
            var d := k - |Indented.Indent + "status = "|;
            assert l[k] == t[d];
            if previous < 0 {
              assert t == "-" + digits;
              if d > 0 {
                assert t[d] == digits[d - 1];
              }
            } else {
              assert t == digits;
            }
          }
        }
      }
      NoCarriageReturn(lines[i]);
    }
    Indented.AppendJoinedLines(w, lines);
  }
}
