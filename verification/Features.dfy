/**
 * Features: named code templates. A template may hold `$.` (the manager reference) and the
 * positional placeholders `$x`, `$y`, `$z`. A switch feature also has a left-hand template and
 * compiles to an equality test `left == right`. Compiling a feature that declares a
 * dependency records that dependency in the compilation's dependency set; the recording is
 * given here as a function on sets, and the compiler's methods apply it to their field.
 */
module Features {
  import opened Results
  import opened Text

  datatype Feature =
    | Plain(val: string, dep: Option<string>)
    | Switch(val: string, dep: Option<string>, left: string)

  /** The features a `switch` or an `assert` may name: those with a left-hand side. */
  type SwitchFeature = f: Feature | f.Switch? witness Switch("", None, "")

  /** A missing argument is a null string, which Replace treats as the empty text. */
  function ArgText(a: Option<string>): string
  {
    if a.Some? then a.value else ""
  }

  /**
   * The base compilation of a template: `$.` first, then `$x`, `$y`, `$z`, each replaced only
   * when the ORIGINAL template holds it, each applied to the text produced so far.
   */
  function Substitute(val: string, manager: string, x: Option<string>, y: Option<string>, z: Option<string>): string
  {
    var r0 := if Contains(val, "$.") then Replace(val, "$.", manager + ".") else val;
    var r1 := if Contains(val, "$x") then Replace(r0, "$x", ArgText(x)) else r0;
    var r2 := if Contains(val, "$y") then Replace(r1, "$y", ArgText(y)) else r1;
    if Contains(val, "$z") then Replace(r2, "$z", ArgText(z)) else r2
  }

  /** The left side of a switch feature with its manager reference substituted. */
  function LeftText(f: SwitchFeature, manager: string): string
  {
    if Contains(f.left, "$.") then Replace(f.left, "$.", manager + ".") else f.left
  }

  /** What `Compile` returns: the template, or for a switch feature `left == right`. */
  function CompileText(f: Feature, manager: string, x: Option<string>, y: Option<string>, z: Option<string>): string
  {
    match f
    case Plain(val, _) => Substitute(val, manager, x, y, z)
    case Switch(val, _, _) => LeftText(f, manager) + " == " + Substitute(val, manager, x, y, z)
  }

  /** The dependency set after compiling `f` (or taking its left side). */
  function Recorded(deps: set<string>, f: Feature): set<string>
  {
    if f.dep.Some? then deps + {f.dep.value} else deps
  }

  /** A template without any placeholder compiles to itself. */
  lemma NoPlaceholderUnchanged(val: string, manager: string, x: Option<string>, y: Option<string>, z: Option<string>)
    requires !Contains(val, "$.") && !Contains(val, "$x") && !Contains(val, "$y") && !Contains(val, "$z")
    ensures Substitute(val, manager, x, y, z) == val
  {
  }

  /**
   * With only `$.` in the template, the result is the template's pieces around `$.` joined
   * by `manager + "."`: every occurrence becomes the manager reference, nothing else changes.
   */
  lemma ManagerReferenceSubstituted(val: string, manager: string, x: Option<string>, y: Option<string>, z: Option<string>)
    requires !Contains(val, "$x") && !Contains(val, "$y") && !Contains(val, "$z")
    ensures Substitute(val, manager, x, y, z) == Join(SplitOn(val, "$."), manager + ".")
    ensures Join(SplitOn(val, "$."), "$.") == val
  {
    JoinSplit(val, "$.");
    if Contains(val, "$.") {
      ReplaceIsJoinSplit(val, "$.", manager + ".");
    } else {
      ReplaceAbsent(val, "$.", manager + ".");
      ReplaceIsJoinSplit(val, "$.", manager + ".");
    }
  }

  /**
   * The placeholders are substituted in order on the text produced so far, so an `$x`
   * argument that itself holds `$y` has that `$y` replaced too, whatever the `$y` argument.
   */
  lemma LaterPlaceholderInArgument(manager: string, b: string, z: Option<string>)
    ensures Substitute("$x$y", manager, Some("$y"), Some(b), z) == b + b
  {
    assert Contains("$x$y", "$x");
    assert Contains("$x$y", "$y") by {
      assert "$y" <= "$x$y"[2..];
    }
    assert !Contains("$x$y", "$.") && !Contains("$x$y", "$z") by {
      assert "$x$y"[1..] == "x$y" && "x$y"[1..] == "$y" && "$y"[1..] == "y" && "y"[1..] == "";
      assert "$y"[1] != "$."[1] && "$y"[1] != "$z"[1];
      assert !Contains("", "$.") && !Contains("y", "$.") && !Contains("$y", "$.") && !Contains("x$y", "$.");
      assert !Contains("", "$z") && !Contains("y", "$z") && !Contains("$y", "$z") && !Contains("x$y", "$z");
    }
    calc {
      Replace("$x$y", "$x", "$y");
      "$y" + Replace("$y", "$x", "$y");
      { assert Replace("$y", "$x", "$y") == "$" + Replace("y", "$x", "$y"); }
      "$y$y";
    }
    calc {
      Replace("$y$y", "$y", b);
      b + Replace("$y", "$y", b);
      { assert "$y"[2..] == []; }
      b + b;
    }
  }

  /** The dependency is recorded exactly when the feature declares one, and recording is idempotent. */
  lemma RecordedDependency(deps: set<string>, f: Feature)
    ensures deps <= Recorded(deps, f)
    ensures Recorded(deps, f) - deps <= (if f.dep.Some? then {f.dep.value} else {})
    ensures forall d :: d in Recorded(deps, f) <==> d in deps || f.dep == Some(d)
    ensures Recorded(Recorded(deps, f), f) == Recorded(deps, f)
  {
  }
}
