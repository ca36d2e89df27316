/**
 * `ArbitraryJSTranslator.Translate`: raw script text in which a span `$name(a,b,c)` calls the
 * feature `name`. The scan runs left to right; at each `$` it looks for the first `(` after it
 * and the first `)` after that, and when the text between the `$` and the `(` names a feature,
 * the whole span is replaced by that feature compiled with the comma-separated arguments.
 * Inserted text is never scanned again.
 *
 * The meaning of a scan is given by `Scan`, `AtDollar` and `Tail`, which read the INPUT at a
 * position: nothing that was inserted is ever looked at. `Translate` rewrites the text in place
 * with Remove and Insert, as the source does; its loop keeps the unscanned part of the text
 * equal to a suffix of the input, and is proved against those functions.
 */
module ArbitraryJSTranslator {
  import opened Results
  import opened Text
  import opened Features
  import opened SceneBuilder
  import opened HaJSCompiler

  /** A call recognised at a `$`: the feature's name, its arguments, and where its `)` is. */
  datatype Call = Call(name: string, args: seq<string>, close: nat)

  /** What a scan produces: the text, and the dependencies of the features it compiled. */
  datatype Expansion = Expansion(text: string, used: set<string>)

  function Prepend(p: string, e: Expansion): Expansion
  {
    Expansion(p + e.text, e.used)
  }

  /** `args.ElementAtOrDefault(k)`: the `k`-th argument, or null. */
  function ArgAt(args: seq<string>, k: nat): Option<string>
  {
    if k < |args| then Some(args[k]) else None
  }

  /** The text between the parentheses split on commas, empty entries dropped. */
  function Arguments(inner: string): seq<string>
  {
    RemoveEmpty(SplitOn(inner, [',']))
  }

  /**
   * The call at the `$` at `i`: the first `(` after it, the first `)` after that, and a
   * registered feature named between the `$` and the `(`; otherwise none.
   */
  function CallAt(cfg: Config, s: string, i: nat): (r: Option<Call>)
    requires i < |s| && s[i] == '$'
    ensures r.Some? ==> i < r.value.close < |s|
  {
    var open := IndexOfChar(s, '(', i);
    if open == -1 then None
    else
      var close := IndexOfChar(s, ')', open);
      if close == -1 then None
      else if s[i + 1..open] !in cfg.features then None
      else Some(Call(s[i + 1..open], Arguments(s[open + 1..close]), close))
  }

  /** The compiled feature: at most the first three arguments are passed, missing ones as null. */
  function Replacement(cfg: Config, name: string, args: seq<string>): string
    requires name in cfg.features
  {
    CompileText(cfg.features[name], cfg.manager, ArgAt(args, 0), ArgAt(args, 1), ArgAt(args, 2))
  }

  /** The dependency compiling the call records, if its feature has one. */
  function Uses(cfg: Config, name: string): set<string>
    requires name in cfg.features
  {
    Recorded({}, cfg.features[name])
  }

  /**
   * The scan of `s` from position `p`: the text up to the next `$` is kept, and the scan goes
   * on at that `$`.
   */
  function Scan(cfg: Config, s: string, p: nat, rescan: bool): Expansion
    requires p <= |s|
    decreases |s| - p, 3
  {
    var j := IndexOfChar(s, '$', p);
    if j == -1 then Expansion(s[p..], {}) else Prepend(s[p..j], AtDollar(cfg, s, j, rescan))
  }

  /** The scan at a `$`: the call replaced, or the `$` kept and the scan going on after it. */
  function AtDollar(cfg: Config, s: string, i: nat, rescan: bool): Expansion
    requires i < |s| && s[i] == '$'
    decreases |s| - i, 2
  {
    match CallAt(cfg, s, i)
    case None => Prepend("$", Scan(cfg, s, i + 1, rescan))
    case Some(c) =>
      var rest := After(cfg, s, c.close + 1, rescan);
      Expansion(Replacement(cfg, c.name, c.args) + rest.text, Uses(cfg, c.name) + rest.used)
  }

  /**
   * How the scan goes on after a replaced span ending before `p`: as the source does (`Tail`)
   * when `rescan` is false, right at `p` when it is true.
   */
  function After(cfg: Config, s: string, p: nat, rescan: bool): Expansion
    requires p <= |s|
    decreases |s| - p, 4
  {
    if rescan then Scan(cfg, s, p, rescan) else Tail(cfg, s, p)
  }

  /**
   * After a replacement the position is the first character after the inserted text; the scan
   * stops when at most that character is left, and otherwise searches for `$` from the
   * character after it, so the first character after a call is never looked at.
   */
  function Tail(cfg: Config, s: string, p: nat): Expansion
    requires p <= |s|
    decreases |s| - p, 0
  {
    if |s| - p <= 1 then Expansion(s[p..], {}) else Prepend(s[p..p + 1], Scan(cfg, s, p + 1, false))
  }

  /** The translation of a whole text. */
  function Translation(cfg: Config, s: string, rescan: bool): Expansion
  {
    Scan(cfg, s, 0, rescan)
  }

  // ----- what a call is -----

  /**
   * A recognised call spans from the `$` to the first `)` after the first `(`, its name is the
   * registered feature between them, and its arguments are the pieces inside the parentheses.
   */
  lemma CallSpan(cfg: Config, s: string, i: nat)
    requires i < |s| && s[i] == '$' && CallAt(cfg, s, i).Some?
    ensures var c := CallAt(cfg, s, i).value; var open := i + 1 + |c.name|;
      && open < c.close < |s|
      && s[open] == '(' && s[c.close] == ')'
      && s[i + 1..open] == c.name && c.name in cfg.features
      && (forall k :: i <= k < open ==> s[k] != '(')
      && (forall k :: open <= k < c.close ==> s[k] != ')')
      && c.args == Arguments(s[open + 1..c.close])
  {
    var open := IndexOfChar(s, '(', i);
    IndexOfFirst(s, '(', i);
    IndexOfFirst(s, ')', open);
  }

  /** A slice of a text that agrees with another from `a` and from `b` on is the matching slice of the other. */
  lemma SliceShift(x: string, a: nat, y: string, b: nat, lo: nat, hi: nat)
    requires a <= lo <= hi <= |x| && b <= |y| && x[a..] == y[b..]
    ensures hi - a + b <= |y| && x[lo..hi] == y[lo - a + b..hi - a + b]
  {
    assert |x| - a == |y| - b;
    assert forall k :: lo <= k < hi ==> x[k] == x[a..][k - a] == y[b..][k - a] == y[k - a + b];
  }

  /** A suffix of a text that agrees with another from `a` and from `b` on is the matching suffix of the other. */
  lemma SuffixShift(x: string, a: nat, y: string, b: nat, lo: nat)
    requires a <= lo <= |x| && b <= |y| && x[a..] == y[b..]
    ensures lo - a + b <= |y| && x[lo..] == y[lo - a + b..]
  {
    assert |x| - a == |y| - b;
    assert forall k :: lo <= k < |x| ==> x[k] == x[a..][k - a] == y[b..][k - a] == y[k - a + b];
  }

  /** The call at `i` read off the positions of its parentheses. */
  lemma CallAtParts(cfg: Config, s: string, i: nat)
    requires i < |s| && s[i] == '$'
    ensures var open := IndexOfChar(s, '(', i);
      && (open == -1 ==> CallAt(cfg, s, i).None?)
      && (open != -1 ==> i < open && IndexOfChar(s, ')', open) == -1 ==> CallAt(cfg, s, i).None?)
      && (open != -1 ==> i < open && var close := IndexOfChar(s, ')', open); close != -1 ==>
            CallAt(cfg, s, i) == if s[i + 1..open] in cfg.features then Some(Call(s[i + 1..open], Arguments(s[open + 1..close]), close)) else None)
  {
  }

  /** Two texts that agree from the `$` on recognise the same call, at the same distance. */
  lemma CallShift(cfg: Config, x: string, a: nat, y: string, b: nat)
    requires a < |x| && b < |y| && x[a..] == y[b..] && x[a] == '$'
    ensures y[b] == '$'
    ensures CallAt(cfg, x, a).None? <==> CallAt(cfg, y, b).None?
    ensures CallAt(cfg, x, a).Some? ==>
      var c, d := CallAt(cfg, x, a).value, CallAt(cfg, y, b).value;
      c.name == d.name && c.args == d.args && c.close - a == d.close - b
  {
    assert y[b] == y[b..][0] == x[a..][0];
    CallAtParts(cfg, x, a);
    CallAtParts(cfg, y, b);
    IndexOfShift(x, a, y, b, '(');
    var open, open' := IndexOfChar(x, '(', a), IndexOfChar(y, '(', b);
    if open != -1 {
      SuffixShift(x, a, y, b, open);
      IndexOfShift(x, open, y, open', ')');
      var close, close' := IndexOfChar(x, ')', open), IndexOfChar(y, ')', open');
      if close != -1 {
        SliceShift(x, a, y, b, a + 1, open);
        SliceShift(x, a, y, b, open + 1, close);
      }
    }
  }

  /** The replacement passes the first three arguments only: any further ones are ignored. */
  lemma ExtraArgumentsIgnored(cfg: Config, name: string, args: seq<string>, more: seq<string>)
    requires name in cfg.features && |args| >= 3
    ensures Replacement(cfg, name, args + more) == Replacement(cfg, name, args)
  {
    assert ArgAt(args + more, 0) == ArgAt(args, 0);
    assert ArgAt(args + more, 1) == ArgAt(args, 1);
    assert ArgAt(args + more, 2) == ArgAt(args, 2);
  }

  // ----- properties of a scan -----

  /** A text without `$` is returned unchanged, and nothing is compiled. */
  lemma NoDollarUnchanged(cfg: Config, s: string, rescan: bool)
    requires forall k :: 0 <= k < |s| ==> s[k] != '$'
    ensures Translation(cfg, s, rescan) == Expansion(s, {})
  {
    assert s[0..] == s;
  }

  /** The text before the first `$` is kept as it is. */
  lemma PrefixKept(cfg: Config, s: string, rescan: bool)
    ensures var j := IndexOfChar(s, '$', 0);
      j != -1 ==> s[..j] <= Translation(cfg, s, rescan).text
  {
  }

  /**
   * The scan depends only on the text from its position on: two texts that agree from `a` and
   * from `b` on translate the same from there.
   */
  lemma {:induction false} ScanShift(cfg: Config, x: string, a: nat, y: string, b: nat, rescan: bool)
    requires a <= |x| && b <= |y| && x[a..] == y[b..]
    ensures Scan(cfg, x, a, rescan) == Scan(cfg, y, b, rescan)
    decreases |x| - a, 3
  {
    IndexOfShift(x, a, y, b, '$');
    var i := IndexOfChar(x, '$', a);
    if i != -1 {
      var j := IndexOfChar(y, '$', b);
      SliceShift(x, a, y, b, a, i);
      SuffixShift(x, a, y, b, i);
      AtDollarShift(cfg, x, i, y, j, rescan);
    }
  }

  lemma {:induction false} AtDollarShift(cfg: Config, x: string, a: nat, y: string, b: nat, rescan: bool)
    requires a < |x| && b < |y| && x[a..] == y[b..] && x[a] == '$'
    ensures y[b] == '$'
    ensures AtDollar(cfg, x, a, rescan) == AtDollar(cfg, y, b, rescan)
    decreases |x| - a, 2
  {
    CallShift(cfg, x, a, y, b);
    if CallAt(cfg, x, a).None? {
      KeptShift(cfg, x, a, y, b, rescan);
    } else {
      ReplacedShift(cfg, x, a, y, b, rescan);
    }
  }

  /** `AtDollarShift` where no call starts at the `$`. */
  lemma {:induction false} KeptShift(cfg: Config, x: string, a: nat, y: string, b: nat, rescan: bool)
    requires a < |x| && b < |y| && x[a..] == y[b..] && x[a] == '$' && y[b] == '$'
    requires CallAt(cfg, x, a).None? && CallAt(cfg, y, b).None?
    ensures AtDollar(cfg, x, a, rescan) == AtDollar(cfg, y, b, rescan)
    decreases |x| - a, 1
  {
    SuffixShift(x, a, y, b, a + 1);
    ScanShift(cfg, x, a + 1, y, b + 1, rescan);
  }

  /** `AtDollarShift` where the same call starts at both `$`s. */
  lemma {:induction false} ReplacedShift(cfg: Config, x: string, a: nat, y: string, b: nat, rescan: bool)
    requires a < |x| && b < |y| && x[a..] == y[b..] && x[a] == '$' && y[b] == '$'
    requires CallAt(cfg, x, a).Some? && CallAt(cfg, y, b).Some?
    requires var c, d := CallAt(cfg, x, a).value, CallAt(cfg, y, b).value;
      c.name == d.name && c.args == d.args && c.close - a == d.close - b
    ensures AtDollar(cfg, x, a, rescan) == AtDollar(cfg, y, b, rescan)
    decreases |x| - a, 1
  {
    var c, d := CallAt(cfg, x, a).value, CallAt(cfg, y, b).value;
    SuffixShift(x, a, y, b, c.close + 1);
    AfterShift(cfg, x, c.close + 1, y, d.close + 1, rescan);
  }

  lemma {:induction false} AfterShift(cfg: Config, x: string, a: nat, y: string, b: nat, rescan: bool)
    requires a <= |x| && b <= |y| && x[a..] == y[b..]
    ensures After(cfg, x, a, rescan) == After(cfg, y, b, rescan)
    decreases |x| - a, 4
  {
    if rescan {
      ScanShift(cfg, x, a, y, b, rescan);
    } else {
      TailShift(cfg, x, a, y, b);
    }
  }

  lemma {:induction false} TailShift(cfg: Config, x: string, a: nat, y: string, b: nat)
    requires a <= |x| && b <= |y| && x[a..] == y[b..]
    ensures Tail(cfg, x, a) == Tail(cfg, y, b)
    decreases |x| - a, 0
  {
    if |x| - a > 1 {
      SliceShift(x, a, y, b, a, a + 1);
      SuffixShift(x, a, y, b, a + 1);
      ScanShift(cfg, x, a + 1, y, b + 1, false);
    }
  }

  /** A call that makes up all of `a` is found the same when more text follows. */
  lemma CallFirst(cfg: Config, a: string, b: string)
    requires a != [] && a[0] == '$' && CallAt(cfg, a, 0).Some? && CallAt(cfg, a, 0).value.close == |a| - 1
    ensures (a + b)[0] == '$' && CallAt(cfg, a + b, 0) == CallAt(cfg, a, 0)
    ensures IndexOfChar(a + b, '$', 0) == 0
  {
    var open := IndexOfChar(a, '(', 0);
    IndexOfPrefix(a, b, '(', 0);
    IndexOfPrefix(a, b, ')', open);
    var c := CallAt(cfg, a, 0).value;
    assert 0 < open < c.close == IndexOfChar(a, ')', open) < |a|;
    PrefixSlice(a, b, 1, open);
    PrefixSlice(a, b, open + 1, c.close);
  }

  /** A slice that lies within `a` is the same slice of `a + b`. */
  lemma PrefixSlice(a: string, b: string, lo: nat, hi: nat)
    requires lo <= hi <= |a|
    ensures (a + b)[lo..hi] == a[lo..hi]
  {
    assert forall k :: lo <= k < hi ==> (a + b)[k] == a[k];
  }

  /** A text that starts with a call that makes up all of `a` translates to its replacement, then what follows it. */
  lemma CallFirstTranslation(cfg: Config, a: string, b: string, rescan: bool)
    requires a != [] && a[0] == '$' && CallAt(cfg, a, 0).Some? && CallAt(cfg, a, 0).value.close == |a| - 1
    ensures var c, rest := CallAt(cfg, a, 0).value, After(cfg, a + b, |a|, rescan);
      Translation(cfg, a + b, rescan) == Expansion(Replacement(cfg, c.name, c.args) + rest.text, Uses(cfg, c.name) + rest.used)
  {
    CallFirst(cfg, a, b);
    var c := CallAt(cfg, a, 0).value;
    assert AtDollar(cfg, a + b, 0, rescan) == Expansion(Replacement(cfg, c.name, c.args) + After(cfg, a + b, |a|, rescan).text, Uses(cfg, c.name) + After(cfg, a + b, |a|, rescan).used);
    assert (a + b)[0..0] == [];
  }

  /**
   * As the source is written, a call directly followed by more text is replaced, and then the
   * first character after it is copied without being looked at: a `$` there starts no call.
   */
  lemma AfterCallAsWritten(cfg: Config, a: string, b: string)
    requires a != [] && a[0] == '$' && CallAt(cfg, a, 0).Some? && CallAt(cfg, a, 0).value.close == |a| - 1
    requires |b| >= 2
    ensures var c := CallAt(cfg, a, 0).value;
      Translation(cfg, a + b, false) ==
      Expansion(Replacement(cfg, c.name, c.args) + [b[0]] + Scan(cfg, b, 1, false).text, Uses(cfg, c.name) + Scan(cfg, b, 1, false).used)
  {
    CallFirstTranslation(cfg, a, b, false);
    TailOfJoin(cfg, a, b);
  }

  /** After a call that makes up all of `a`, the scan of `a + b` copies `b[0]` and scans `b` from 1. */
  lemma TailOfJoin(cfg: Config, a: string, b: string)
    requires |b| >= 2
    ensures After(cfg, a + b, |a|, false) == Prepend([b[0]], Scan(cfg, b, 1, false))
  {
    var s := a + b;
    assert s[|a|..|a| + 1] == [b[0]];
    assert s[|a| + 1..] == b[1..];
    ScanShift(cfg, s, |a| + 1, b, 1, false);
  }

  /** With the scan resumed right after each replaced span, a call directly after a call is replaced too. */
  lemma AfterCallRescan(cfg: Config, a: string, b: string)
    requires a != [] && a[0] == '$' && CallAt(cfg, a, 0).Some? && CallAt(cfg, a, 0).value.close == |a| - 1
    ensures var c := CallAt(cfg, a, 0).value;
      Translation(cfg, a + b, true) ==
      Expansion(Replacement(cfg, c.name, c.args) + Translation(cfg, b, true).text, Uses(cfg, c.name) + Translation(cfg, b, true).used)
  {
    CallFirstTranslation(cfg, a, b, true);
    assert (a + b)[|a|..] == b[0..];
    ScanShift(cfg, a + b, |a|, b, 0, true);
  }

  /** A single feature `f`: the template `F`, no dependency. */
  predicate OneFeature(cfg: Config)
  {
    cfg.features == map["f" := Plain("F", None)]
  }

  lemma CallOfF(cfg: Config)
    requires OneFeature(cfg)
    ensures CallAt(cfg, "$f()", 0) == Some(Call("f", [], 3))
    ensures Replacement(cfg, "f", []) == "F" && Uses(cfg, "f") == {}
  {
    assert IndexOfChar("$f()", '(', 0) == 2;
    assert IndexOfChar("$f()", ')', 2) == 3;
    assert "$f()"[1..2] == "f";
    assert "$f()"[3..3] == [];
    assert SplitOn([], [',']) == [""];
    assert !Contains("F", "$.") && !Contains("F", "$x") && !Contains("F", "$y") && !Contains("F", "$z");
  }

  /** As written: of two back-to-back calls `$f()$f()`, only the first is replaced. */
  lemma AdjacentCallsAsWritten(cfg: Config)
    requires OneFeature(cfg)
    ensures Translation(cfg, "$f()$f()", false).text == "F$f()"
  {
    CallOfF(cfg);
    AfterCallAsWritten(cfg, "$f()", "$f()");
    assert IndexOfChar("$f()", '$', 1) == -1;
    assert "$f()"[1..] == "f()";
    assert "$f()" + "$f()" == "$f()$f()";
  }

  /** Resuming right after the span: both calls of `$f()$f()` are replaced. */
  lemma AdjacentCallsRescan(cfg: Config)
    requires OneFeature(cfg)
    ensures Translation(cfg, "$f()$f()", true).text == "FF"
  {
    CallOfF(cfg);
    AfterCallRescan(cfg, "$f()", "$f()");
    AfterCallRescan(cfg, "$f()", "");
    assert "$f()" + "" == "$f()";
    assert Translation(cfg, "", true).text == "";
    assert "$f()" + "$f()" == "$f()$f()";
  }

  // ----- the in-place scan -----

  /**
   * The search for the next `$` in the rewritten text from `a`, where it agrees with the input
   * from `b` on, is the scan of the input from `b`.
   */
  lemma Resume(cfg: Config, x: string, a: nat, input: string, b: nat, rescan: bool)
    requires a <= |x| && b <= |input| && x[a..] == input[b..]
    ensures var i, j := IndexOfChar(x, '$', a), IndexOfChar(input, '$', b);
      var e := Scan(cfg, input, b, rescan);
      && (i == -1 <==> j == -1)
      && (i == -1 ==> x[..a] + e.text == x && e.used == {})
      && (i != -1 ==>
           && j != -1 && x[i] == '$' && input[j] == '$' && x[i..] == input[j..]
           && x[..a] + e.text == x[..i] + AtDollar(cfg, input, j, rescan).text
           && e.used == AtDollar(cfg, input, j, rescan).used)
  {
    IndexOfShift(x, a, input, b, '$');
    var i := IndexOfChar(x, '$', a);
    if i == -1 {
      assert x[..a] + input[b..] == x;
    } else {
      var j := IndexOfChar(input, '$', b);
      assert x[a..i] == x[a..][..i - a] == input[b..][..j - b] == input[b..j];
      assert x[i..] == x[a..][i - a..] == input[b..][j - b..] == input[j..];
      Assoc(x[..a], x[a..i], AtDollar(cfg, input, j, rescan).text);
      assert x[..a] + x[a..i] == x[..i];
    }
  }

  /** A `$` that starts no call is kept; the scan goes on one character on. */
  lemma KeepStep(cfg: Config, x: string, i: nat, input: string, q: nat, rescan: bool)
    requires i < |x| && q < |input| && x[i..] == input[q..] && input[q] == '$' && CallAt(cfg, input, q).None?
    ensures x[i + 1..] == input[q + 1..]
    ensures x[..i] + AtDollar(cfg, input, q, rescan).text == x[..i + 1] + Scan(cfg, input, q + 1, rescan).text
    ensures AtDollar(cfg, input, q, rescan).used == Scan(cfg, input, q + 1, rescan).used
  {
    assert x[i + 1..] == x[i..][1..] == input[q..][1..] == input[q + 1..];
    assert x[i] == x[i..][0] == '$';
    Assoc(x[..i], "$", Scan(cfg, input, q + 1, rescan).text);
    assert x[..i] + "$" == x[..i + 1];
  }

  /**
   * A call replaced at `i` leaves `y`: the text before it, the replacement, the text after its
   * span. What is left to do is what follows the span, from the end of the replacement.
   */
  lemma CallStep(cfg: Config, x: string, i: nat, input: string, q: nat, y: string, rescan: bool)
    requires i < |x| && q < |input| && x[i..] == input[q..] && input[q] == '$' && CallAt(cfg, input, q).Some?
    requires var c := CallAt(cfg, input, q).value; y == x[..i] + Replacement(cfg, c.name, c.args) + input[c.close + 1..]
    ensures var c := CallAt(cfg, input, q).value; var k := i + |Replacement(cfg, c.name, c.args)|;
      && k <= |y| && y[k..] == input[c.close + 1..]
      && x[..i] + AtDollar(cfg, input, q, rescan).text == y[..k] + After(cfg, input, c.close + 1, rescan).text
      && AtDollar(cfg, input, q, rescan).used == Uses(cfg, c.name) + After(cfg, input, c.close + 1, rescan).used
  {
    var c := CallAt(cfg, input, q).value;
    var rep := Replacement(cfg, c.name, c.args);
    var k := i + |rep|;
    assert y[..k] == x[..i] + rep;
    assert y[k..] == input[c.close + 1..];
    Assoc(x[..i], rep, After(cfg, input, c.close + 1, rescan).text);
  }

  /** After a replacement: the text is final with at most one character left, else the search resumes one character on. */
  lemma TailStep(cfg: Config, y: string, k: nat, input: string, p: nat)
    requires k <= |y| && p <= |input| && y[k..] == input[p..]
    ensures k + 1 >= |y| ==> y[..k] + Tail(cfg, input, p).text == y && Tail(cfg, input, p).used == {}
    ensures k + 1 < |y| ==>
      && y[k + 1..] == input[p + 1..]
      && y[..k] + Tail(cfg, input, p).text == y[..k + 1] + Scan(cfg, input, p + 1, false).text
      && Tail(cfg, input, p).used == Scan(cfg, input, p + 1, false).used
  {
    assert |y| - k == |input| - p;
    if k + 1 >= |y| {
      assert y[..k] + y[k..] == y;
    } else {
      assert y[k + 1..] == y[k..][1..] == input[p..][1..] == input[p + 1..];
      assert input[p..p + 1] == y[k..][..1] == y[k..k + 1];
      Assoc(y[..k], y[k..k + 1], Scan(cfg, input, p + 1, false).text);
      assert y[..k] + y[k..k + 1] == y[..k + 1];
    }
  }

  /**
   * The step at the `$` at `i`: when a call starts there, its span is removed, the compiled
   * feature inserted in its place, and the position moved to the end of the inserted text.
   */
  method ReplaceAt(compiler: Compiler, x: string, i: nat) returns (y: string, j: nat, replaced: bool)
    requires i < |x| && x[i] == '$'
    modifies compiler`deps
    ensures replaced <==> CallAt(compiler.config, x, i).Some?
    ensures !replaced ==> y == x && j == i && compiler.deps == old(compiler.deps)
    ensures replaced ==>
      var c := CallAt(compiler.config, x, i).value;
      && y == x[..i] + Replacement(compiler.config, c.name, c.args) + x[c.close + 1..]
      && j == i + |Replacement(compiler.config, c.name, c.args)|
      && compiler.deps == old(compiler.deps) + Uses(compiler.config, c.name)
  {
    y, j, replaced := x, i, false;
    var callOpen := IndexOfChar(x, '(', i);
    if callOpen != -1 {
      var callClose := IndexOfChar(x, ')', callOpen);
      if callClose != -1 {
        var feature := x[i + 1..callOpen];
        var args := Arguments(x[callOpen + 1..callClose]);
        if feature in compiler.config.features {
          ghost var c := Call(feature, args, callClose);
          assert CallAt(compiler.config, x, i) == Some(c);
          var f := compiler.config.features[feature];
          var replacement := compiler.CompileFeature(f, ArgAt(args, 0), ArgAt(args, 1), ArgAt(args, 2));
          assert replacement == Replacement(compiler.config, c.name, c.args);
          y := x[..i] + x[callClose + 1..];
          assert y[..i] == x[..i] && y[i..] == x[callClose + 1..];
          y := y[..i] + replacement + y[i..];
          j := i + |replacement|;
          replaced := true;
        }
      }
    }
  }

  /**
   * One step of the in-place scan at the `$` at `i0` of `x0`, which agrees with the input from
   * `q` on: `x` and `j` are the text and the position after the step, `u` what it recorded.
   * Either the text is final, or the scan resumes one character after `j`, where the text
   * agrees with the input from the returned `b` on.
   */
  lemma AdvanceAt(cfg: Config, input: string, x0: string, i0: nat, q: nat, x: string, j: nat, replaced: bool, u: set<string>)
    returns (b: nat)
    requires i0 < |x0| && q < |input| && x0[i0..] == input[q..] && input[q] == '$' && x0[i0] == '$'
    requires replaced <==> CallAt(cfg, x0, i0).Some?
    requires !replaced ==> x == x0 && j == i0 && u == {}
    requires replaced ==>
      var c := CallAt(cfg, x0, i0).value;
      && x == x0[..i0] + Replacement(cfg, c.name, c.args) + x0[c.close + 1..]
      && j == i0 + |Replacement(cfg, c.name, c.args)|
      && u == Uses(cfg, c.name)
    ensures j + 1 >= |x| ==>
      x == x0[..i0] + AtDollar(cfg, input, q, false).text && AtDollar(cfg, input, q, false).used == u
    ensures j + 1 < |x| ==>
      && q < b <= |input| && x[j + 1..] == input[b..]
      && x0[..i0] + AtDollar(cfg, input, q, false).text == x[..j + 1] + Scan(cfg, input, b, false).text
      && AtDollar(cfg, input, q, false).used == u + Scan(cfg, input, b, false).used
  {
    CallShift(cfg, x0, i0, input, q);
    if replaced {
      b := AdvanceCall(cfg, input, x0, i0, q, x, j);
    } else {
      KeepStep(cfg, x, i0, input, q, false);
      b := q + 1;
      if j + 1 >= |x| {
        Resume(cfg, x, j + 1, input, q + 1, false);
      }
    }
  }

  /** `Advance` where a call was replaced. */
  lemma AdvanceCall(cfg: Config, input: string, x0: string, i0: nat, q: nat, x: string, j: nat) returns (b: nat)
    requires i0 < |x0| && q < |input| && x0[i0..] == input[q..] && input[q] == '$' && x0[i0] == '$'
    requires CallAt(cfg, x0, i0).Some? && CallAt(cfg, input, q).Some?
    requires var c, d := CallAt(cfg, x0, i0).value, CallAt(cfg, input, q).value;
      c.name == d.name && c.args == d.args && c.close - i0 == d.close - q
    requires var c := CallAt(cfg, x0, i0).value;
      && x == x0[..i0] + Replacement(cfg, c.name, c.args) + x0[c.close + 1..]
      && j == i0 + |Replacement(cfg, c.name, c.args)|
    ensures var u := Uses(cfg, CallAt(cfg, input, q).value.name);
      j + 1 >= |x| ==>
      x == x0[..i0] + AtDollar(cfg, input, q, false).text && AtDollar(cfg, input, q, false).used == u
    ensures j + 1 < |x| ==> q < b <= |input| && x[j + 1..] == input[b..]
    ensures var u := Uses(cfg, CallAt(cfg, input, q).value.name);
      j + 1 < |x| ==>
      && x0[..i0] + AtDollar(cfg, input, q, false).text == x[..j + 1] + Scan(cfg, input, b, false).text
      && AtDollar(cfg, input, q, false).used == u + Scan(cfg, input, b, false).used
  {
    var c := CallAt(cfg, input, q).value;
    var cx := CallAt(cfg, x0, i0).value;
    SuffixShift(x0, i0, input, q, cx.close + 1);
    CallStep(cfg, x0, i0, input, q, x, false);
    TailStep(cfg, x, j, input, c.close + 1);
    b := c.close + 2;
  }

  /**
   * The step at the first `$` at or after `a` of `x`, stated against the scan of the input from
   * `b`: either the text is final, or the scan resumes one character after `j`, at `b'`.
   */
  lemma Advance(cfg: Config, input: string, x: string, a: nat, b: nat, i: nat, y: string, j: nat, replaced: bool, u: set<string>)
    returns (b': nat)
    requires a <= |x| && b <= |input| && x[a..] == input[b..] && i == IndexOfChar(x, '$', a)
    requires replaced <==> CallAt(cfg, x, i).Some?
    requires !replaced ==> y == x && j == i && u == {}
    requires replaced ==>
      var c := CallAt(cfg, x, i).value;
      && y == x[..i] + Replacement(cfg, c.name, c.args) + x[c.close + 1..]
      && j == i + |Replacement(cfg, c.name, c.args)|
      && u == Uses(cfg, c.name)
    ensures j + 1 >= |y| ==> y == x[..a] + Scan(cfg, input, b, false).text && Scan(cfg, input, b, false).used == u
    ensures j + 1 < |y| ==> b < b' <= |input| && y[j + 1..] == input[b'..]
    ensures j + 1 < |y| ==>
      && x[..a] + Scan(cfg, input, b, false).text == y[..j + 1] + Scan(cfg, input, b', false).text
      && Scan(cfg, input, b, false).used == u + Scan(cfg, input, b', false).used
  {
    Resume(cfg, x, a, input, b, false);
    var q := IndexOfChar(input, '$', b);
    b' := AdvanceAt(cfg, input, x, i, q, y, j, replaced, u);
  }

  /**
   * One pass of the loop body at the `$` at `i` of `x`, where the text from `a` on is the input
   * from `b` on: the call there replaced, if any. Either the text is then final, or the scan
   * resumes one character after `j`, where the text is the input from `b'` on.
   */
  method Step(compiler: Compiler, ghost input: string, x: string, i: nat, ghost a: nat, ghost b: nat,
              ghost goal: string, ghost want: set<string>)
    returns (y: string, j: nat, ghost b': nat)
    requires a <= |x| && b <= |input| && x[a..] == input[b..]
    requires i == IndexOfChar(x, '$', a)
    requires x[..a] + Scan(compiler.config, input, b, false).text == goal
    requires compiler.deps + Scan(compiler.config, input, b, false).used == want
    modifies compiler`deps
    ensures j + 1 >= |y| ==> y == goal && compiler.deps == want
    ensures j + 1 < |y| ==>
        && b < b' <= |input| && y[j + 1..] == input[b'..]
        && y[..j + 1] + Scan(compiler.config, input, b', false).text == goal
        && compiler.deps + Scan(compiler.config, input, b', false).used == want
  {
    ghost var cfg := compiler.config;
    ghost var u := if CallAt(cfg, x, i).Some? then Uses(cfg, CallAt(cfg, x, i).value.name) else {};
    ghost var d0 := compiler.deps;
    var replaced;
    y, j, replaced := ReplaceAt(compiler, x, i);
    b' := Advance(cfg, input, x, a, b, i, y, j, replaced, u);
    if j + 1 < |y| {
      assert (d0 + u) + Scan(cfg, input, b', false).used == d0 + (u + Scan(cfg, input, b', false).used);
    }
  }

  /**
   * `Translate(compiler, x)`: the text with every call the scan meets replaced, in place, and
   * the dependencies of the compiled features recorded in the compiler. The part of the text
   * from `a` on is always the part of the input from `b` on, and `b` grows at every step.
   */
  method Translate(compiler: Compiler, input: string) returns (x: string)
    modifies compiler`deps
    ensures x == Translation(compiler.config, input, false).text
    ensures compiler.deps == old(compiler.deps) + Translation(compiler.config, input, false).used
  {
    ghost var cfg := compiler.config;
    ghost var goal := Translation(cfg, input, false);
    ghost var want := old(compiler.deps) + goal.used;
    ghost var a: nat, b: nat := 0, 0;
    x := input;
    var i := IndexOfChar(x, '$', 0);
    assert x[..0] == [];
    while i != -1
      invariant a <= |x| && b <= |input| && x[a..] == input[b..]
      invariant i == IndexOfChar(x, '$', a)
      invariant x[..a] + Scan(cfg, input, b, false).text == goal.text
      invariant compiler.deps + Scan(cfg, input, b, false).used == want
      decreases |input| - b
    {
      ghost var b';
      x, i, b' := Step(compiler, input, x, i, a, b, goal.text, want);
      if i + 1 >= |x| {
        return;
      }
      a, b := i + 1, b';
      i := IndexOfChar(x, '$', i + 1);
    }
    Resume(cfg, x, a, input, b, false);
  }

  // ----- the corrected scan -----

  /**
   * A call recognised at the `$` at `i` of a text that agrees with the input from `q` on is the
   * input's call there: the same replacement, the same dependencies, the same text after it.
   */
  lemma ReplacedAlike(cfg: Config, x: string, i: nat, input: string, q: nat)
    requires i < |x| && q < |input| && x[i..] == input[q..] && x[i] == '$' && CallAt(cfg, x, i).Some?
    ensures input[q] == '$' && CallAt(cfg, input, q).Some?
    ensures var cx, c := CallAt(cfg, x, i).value, CallAt(cfg, input, q).value;
      && x[cx.close + 1..] == input[c.close + 1..]
      && Replacement(cfg, cx.name, cx.args) == Replacement(cfg, c.name, c.args)
      && Uses(cfg, cx.name) == Uses(cfg, c.name)
  {
    CallShift(cfg, x, i, input, q);
    SuffixShift(x, i, input, q, CallAt(cfg, x, i).value.close + 1);
  }

  /** The corrected scan goes on right after a replaced span. */
  lemma AfterRescan(cfg: Config, s: string, p: nat)
    requires p <= |s|
    ensures After(cfg, s, p, true) == Scan(cfg, s, p, true)
  {
  }

  /** `RescanAt` where a call was replaced: the scan resumes at the end of the inserted text. */
  lemma RescanCall(cfg: Config, input: string, x: string, i: nat, q: nat, y: string, j: nat) returns (b': nat)
    requires i < |x| && q < |input| && x[i..] == input[q..] && input[q] == '$' && CallAt(cfg, input, q).Some?
    requires var c := CallAt(cfg, input, q).value;
      && y == x[..i] + Replacement(cfg, c.name, c.args) + input[c.close + 1..]
      && j == i + |Replacement(cfg, c.name, c.args)|
    ensures j <= |y| && q < b' <= |input| && y[j..] == input[b'..]
    ensures x[..i] + AtDollar(cfg, input, q, true).text == y[..j] + After(cfg, input, b', true).text
    ensures AtDollar(cfg, input, q, true).used == Uses(cfg, CallAt(cfg, input, q).value.name) + After(cfg, input, b', true).used
  {
    b' := CallAt(cfg, input, q).value.close + 1;
    CallStep(cfg, x, i, input, q, y, true);
  }

  /**
   * One step of the corrected scan at the `$` at `i` of `x`, which agrees with the input from
   * `q` on: the scan resumes at `k`, right after the inserted text when a call was replaced and
   * one character on otherwise, and the text from there agrees with the input from `b'` on.
   */
  lemma RescanAt(cfg: Config, input: string, x: string, i: nat, q: nat, y: string, j: nat, k: nat, replaced: bool, u: set<string>)
    returns (b': nat)
    requires i < |x| && q < |input| && x[i..] == input[q..] && input[q] == '$' && x[i] == '$'
    requires replaced <==> CallAt(cfg, x, i).Some?
    requires k == if replaced then j else j + 1
    requires !replaced ==> y == x && j == i && u == {}
    requires replaced ==>
      var c := CallAt(cfg, x, i).value;
      && y == x[..i] + Replacement(cfg, c.name, c.args) + x[c.close + 1..]
      && j == i + |Replacement(cfg, c.name, c.args)|
      && u == Uses(cfg, c.name)
    ensures k <= |y| && q < b' <= |input| && y[k..] == input[b'..]
    ensures x[..i] + AtDollar(cfg, input, q, true).text == y[..k] + Scan(cfg, input, b', true).text
    ensures AtDollar(cfg, input, q, true).used == u + Scan(cfg, input, b', true).used
  {
    if replaced {
      ReplacedAlike(cfg, x, i, input, q);
      b' := RescanCall(cfg, input, x, i, q, y, j);
      AfterRescan(cfg, input, b');
    } else {
      CallShift(cfg, x, i, input, q);
      KeepStep(cfg, x, i, input, q, true);
      b' := q + 1;
    }
  }

  /** `RescanAt` at the first `$` at or after `a` of `x`, stated against the scan of the input from `b`. */
  lemma RescanAdvance(cfg: Config, input: string, x: string, a: nat, b: nat, i: nat, y: string, j: nat, k: nat, replaced: bool, u: set<string>)
    returns (b': nat)
    requires a <= |x| && b <= |input| && x[a..] == input[b..] && i == IndexOfChar(x, '$', a)
    requires replaced <==> CallAt(cfg, x, i).Some?
    requires k == if replaced then j else j + 1
    requires !replaced ==> y == x && j == i && u == {}
    requires replaced ==>
      var c := CallAt(cfg, x, i).value;
      && y == x[..i] + Replacement(cfg, c.name, c.args) + x[c.close + 1..]
      && j == i + |Replacement(cfg, c.name, c.args)|
      && u == Uses(cfg, c.name)
    ensures k <= |y| && b < b' <= |input| && y[k..] == input[b'..]
    ensures x[..a] + Scan(cfg, input, b, true).text == y[..k] + Scan(cfg, input, b', true).text
    ensures Scan(cfg, input, b, true).used == u + Scan(cfg, input, b', true).used
  {
    Resume(cfg, x, a, input, b, true);
    var q := IndexOfChar(input, '$', b);
    b' := RescanAt(cfg, input, x, i, q, y, j, k, replaced, u);
  }

  /**
   * One pass of the corrected loop body at the `$` at `i` of `x`, where the text from `a` on is
   * the input from `b` on: the call there replaced, if any, and the position `k` where the
   * search goes on, where the text is the input from `b'` on.
   */
  method RescanStep(compiler: Compiler, ghost input: string, x: string, i: nat, ghost a: nat, ghost b: nat)
    returns (y: string, k: nat, ghost b': nat)
    requires a <= |x| && b <= |input| && x[a..] == input[b..]
    requires i == IndexOfChar(x, '$', a)
    modifies compiler`deps
    ensures k <= |y| && b < b' <= |input| && y[k..] == input[b'..]
    ensures var e, e' := Scan(compiler.config, input, b, true), Scan(compiler.config, input, b', true);
      && x[..a] + e.text == y[..k] + e'.text
      && compiler.deps + e'.used == old(compiler.deps) + e.used
  {
    ghost var cfg := compiler.config;
    ghost var u := if CallAt(cfg, x, i).Some? then Uses(cfg, CallAt(cfg, x, i).value.name) else {};
    ghost var d0 := compiler.deps;
    var j, replaced;
    y, j, replaced := ReplaceAt(compiler, x, i);
    k := if replaced then j else j + 1;
    b' := RescanAdvance(cfg, input, x, a, b, i, y, j, k, replaced, u);
    assert (d0 + u) + Scan(cfg, input, b', true).used == d0 + (u + Scan(cfg, input, b', true).used);
  }

  /**
   * The translation as evidently intended: after a replacement the search for the next `$`
   * starts right after the inserted text, so a call that follows another at once is replaced
   * too. Inserted text is still never scanned.
   */
  method TranslateRescan(compiler: Compiler, input: string) returns (x: string)
    modifies compiler`deps
    ensures x == Translation(compiler.config, input, true).text
    ensures compiler.deps == old(compiler.deps) + Translation(compiler.config, input, true).used
  {
    ghost var cfg := compiler.config;
    ghost var goal := Translation(cfg, input, true);
    ghost var want := old(compiler.deps) + goal.used;
    ghost var a: nat, b: nat := 0, 0;
    x := input;
    var i := IndexOfChar(x, '$', 0);
    assert x[..0] == [];
    while i != -1
      invariant a <= |x| && b <= |input| && x[a..] == input[b..]
      invariant i == IndexOfChar(x, '$', a)
      invariant x[..a] + Scan(cfg, input, b, true).text == goal.text
      invariant compiler.deps + Scan(cfg, input, b, true).used == want
      decreases |input| - b
    {
      var k;
      x, k, b := RescanStep(compiler, input, x, i, a, b);
      a := k;
      i := IndexOfChar(x, '$', k);
    }
    Resume(cfg, x, a, input, b, true);
  }
}
