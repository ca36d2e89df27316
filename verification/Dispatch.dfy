/**
 * The script the compiler assembles: a header, one `importPackage` line per dependency, the
 * fixed `start` and `action` functions and, inside `action`, one dispatch block per status
 * context, guarded by the statuses of that context, holding the code generated for it.
 */
module Dispatch {
  import opened Text

  function HeaderLine(date: string): string
  {
    "/* This script was automatically generated by HaJS on " + date + " */"
  }

  function ImportLine(d: string): string
  {
    "importPackage(" + d + ");" + CRLF
  }

  /** One `importPackage` line per dependency, in the order given. */
  function ImportText(ds: seq<string>): string
  {
    if ds == [] then "" else ImportText(ds[..|ds| - 1]) + ImportLine(ds[|ds| - 1])
  }

  /** The fixed part of the script between the imports and the dispatch blocks. */
  const PrologueLines: seq<string> := [
    "var status = 0;",
    "function start() {",
    "    status = -1;",
    "    action(1, 0, 0);",
    "}",
    "function action(mode, type, selection) {",
    "    if (mode == -1) {",
    "        cm.dispose();",
    "    } else {"
  ]

  const EpilogueLines: seq<string> := ["    }", "}"]

  function Preamble(date: string, ds: seq<string>): string
  {
    HeaderLine(date) + CRLF + ImportText(ds) + JoinLines(PrologueLines)
  }

  /** One equality test per status of a context. */
  function StatusTests(xs: seq<int>): seq<string>
  {
    seq(|xs|, i requires 0 <= i < |xs| => "status == " + IntToString(xs[i]))
  }

  /** The condition of a dispatch block: the status is one of the listed statuses. */
  function Guard(xs: seq<int>): string
    requires xs != []
  {
    Join(StatusTests(xs), " || ")
  }

  /** The guards of all contexts, in the order enumerated. */
  function GuardTexts(gs: seq<seq<int>>): seq<string>
    requires forall k :: 0 <= k < |gs| ==> gs[k] != []
  {
    seq(|gs|, k requires 0 <= k < |gs| && gs[k] != [] => Guard(gs[k]))
  }

  /** The dispatch block of one context: its guard, then its buffer's text between braces. */
  function Block(guard: string, body: string): string
  {
    "        if (" + guard + ")" + CRLF + "        {" + CRLF + body + "        }" + CRLF
  }

  function Blocks(guards: seq<string>, bodies: seq<string>): string
    requires |guards| == |bodies|
  {
    if guards == [] then ""
    else Blocks(guards[..|guards| - 1], bodies[..|guards| - 1]) + Block(guards[|guards| - 1], bodies[|guards| - 1])
  }

  /** The generated script for the given enumeration orders of the dependencies and contexts. */
  function Script(date: string, ds: seq<string>, gs: seq<seq<int>>, bodies: seq<string>): string
    requires |gs| == |bodies|
    requires forall k :: 0 <= k < |gs| ==> gs[k] != []
  {
    Preamble(date, ds) + Blocks(GuardTexts(gs), bodies) + JoinLines(EpilogueLines)
  }

  /**
   * A guard tests exactly the statuses listed, in the order enumerated: split at the JavaScript
   * or-operator it gives back one test per status, since no test holds a `|`.
   */
  lemma GuardTests(xs: seq<int>)
    requires xs != []
    ensures SplitOn(Guard(xs), " || ") == StatusTests(xs)
  {
    var tests := StatusTests(xs);
    forall i, j | 0 <= i < |tests| && 0 <= j < |tests[i]|
      ensures tests[i][j] != '|'
    {
      var head := "status == ";
      IntToStringChars(xs[i]);
      assert tests[i] == head + IntToString(xs[i]);
      if |head| <= j {
        assert tests[i][j] == IntToString(xs[i])[j - |head|];
      }
    }
    SplitJoin(tests, " || ");
  }

  lemma {:induction false} BlocksAppend(a: seq<string>, ab: seq<string>, b: seq<string>, bb: seq<string>)
    requires |a| == |ab| && |b| == |bb|
    ensures Blocks(a + b, ab + bb) == Blocks(a, ab) + Blocks(b, bb)
    decreases |b|
  {
    if b == [] {
      assert a + b == a && ab + bb == ab;
    } else {
      var n := |b| - 1;
      assert (a + b)[..|a + b| - 1] == a + b[..n];
      assert (ab + bb)[..|a + b| - 1] == ab + bb[..n];
      BlocksAppend(a, ab, b[..n], bb[..n]);
      var x, y, z := Blocks(a, ab), Blocks(b[..n], bb[..n]), Block(b[n], bb[n]);
      assert Blocks(a + b, ab + bb) == (x + y) + z;
      Assoc(x, y, z);
    }
  }

  /** One more context adds its block at the end. */
  lemma BlocksSnoc(texts: seq<string>, bodies: seq<string>, g: string)
    requires |texts| < |bodies|
    ensures Blocks(texts + [g], bodies[..|texts| + 1]) == Blocks(texts, bodies[..|texts|]) + Block(g, bodies[|texts|])
  {
    var t, b := texts + [g], bodies[..|texts| + 1];
    assert t[..|t| - 1] == texts;
    assert b[..|t| - 1] == bodies[..|texts|];
    BlocksLast(t, b, Blocks(texts, bodies[..|texts|]), g, bodies[|texts|]);
  }

  lemma BlocksLast(t: seq<string>, b: seq<string>, front: string, g: string, body: string)
    requires |t| == |b| > 0 && t[|t| - 1] == g && b[|b| - 1] == body
    requires Blocks(t[..|t| - 1], b[..|t| - 1]) == front
    ensures Blocks(t, b) == front + Block(g, body)
  {
  }

  /** The blocks are the ones before block `k`, block `k`, and the ones after it. */
  lemma BlocksAt(g: seq<string>, bodies: seq<string>, k: nat)
    requires |g| == |bodies| && k < |g|
    ensures Blocks(g, bodies) == Blocks(g[..k], bodies[..k]) + Block(g[k], bodies[k]) + Blocks(g[k + 1..], bodies[k + 1..])
  {
    SplitAt(g, k);
    SplitAt(bodies, k);
    BlocksAppend(g[..k + 1], bodies[..k + 1], g[k + 1..], bodies[k + 1..]);
    BlocksLast(g[..k + 1], bodies[..k + 1], Blocks(g[..k], bodies[..k]), g[k], bodies[k]);
  }

  /**
   * The buffer of every context appears verbatim in the script, inside the braces of the block
   * guarded by that context's statuses, after the blocks of the contexts met before it and
   * before those met after it.
   */
  lemma ScriptBlock(date: string, ds: seq<string>, gs: seq<seq<int>>, bodies: seq<string>, k: nat)
    requires |gs| == |bodies| && k < |gs|
    requires forall j :: 0 <= j < |gs| ==> gs[j] != []
    ensures Script(date, ds, gs, bodies) ==
      Preamble(date, ds) + Blocks(GuardTexts(gs)[..k], bodies[..k]) + Block(Guard(gs[k]), bodies[k])
      + Blocks(GuardTexts(gs)[k + 1..], bodies[k + 1..]) + JoinLines(EpilogueLines)
  {
    var g := GuardTexts(gs);
    BlocksAt(g, bodies, k);
    var p, x, y, z, e := Preamble(date, ds), Blocks(g[..k], bodies[..k]), Block(g[k], bodies[k]), Blocks(g[k + 1..], bodies[k + 1..]), JoinLines(EpilogueLines);
    assert g[k] == Guard(gs[k]);
    Assoc(p, x + y, z);
    Assoc(p, x, y);
  }
}
