/**
 * The text buffer the code generator writes into: lines are prefixed with the current
 * indentation (four spaces per level, starting at level 3) and braces open and close levels.
 *
 * `Writer` is the value of a buffer (its text and its level); the functions on it give the
 * meaning of each operation, and the class `IndentedStringBuilder` updates its fields in
 * place as the source does, proved against those functions.
 */
module Indented {
  import opened Text

  /** One indentation level. */
  const Indent: string := "    "

  /** The level a new buffer starts at. */
  const DefaultIndent: int := 3

  /** The indentation cache for a level: `Indent` repeated, nothing for levels at or below zero. */
  function IndentString(level: int): string
    decreases if level < 0 then 0 else level
  {
    if level <= 0 then "" else IndentString(level - 1) + Indent
  }

  /** The cache is four spaces per positive level and only spaces. */
  lemma {:induction false} IndentStringShape(level: int)
    ensures |IndentString(level)| == 4 * (if level < 0 then 0 else level)
    ensures forall i :: 0 <= i < |IndentString(level)| ==> IndentString(level)[i] == ' '
    decreases if level < 0 then 0 else level
  {
    if level > 0 {
      IndentStringShape(level - 1);
    }
  }

  datatype Writer = Writer(text: string, level: int)

  /** A fresh buffer: empty, at the default level. */
  function NewWriter(): Writer
  {
    Writer("", DefaultIndent)
  }

  /** `AppendLine(d)`: the indentation, the data and a line terminator. */
  function LineAppended(w: Writer, d: string): Writer
  {
    Writer(w.text + IndentString(w.level) + d + CRLF, w.level)
  }

  /** `Enter()`: an opening brace at the current level, then one level deeper. */
  function Entered(w: Writer): Writer
  {
    LineAppended(w, "{").(level := w.level + 1)
  }

  /** `Leave()`: one level up, then a closing brace at that level. */
  function Left(w: Writer): Writer
  {
    LineAppended(w.(level := w.level - 1), "}")
  }

  /** A sequence of `AppendLine` calls, in order. */
  function LinesAppended(w: Writer, ds: seq<string>): Writer
    decreases |ds|
  {
    if ds == [] then w else LinesAppended(LineAppended(w, ds[0]), ds[1..])
  }

  /** `Append(data)`: the non-empty CRLF-separated pieces of `data`, each as a line. */
  function TextAppended(w: Writer, data: string): Writer
  {
    LinesAppended(w, RemoveEmpty(SplitOn(data, CRLF)))
  }

  /** The text a sequence of lines adds at a fixed level. */
  function Rendered(level: int, ds: seq<string>): string
    decreases |ds|
  {
    if ds == [] then "" else IndentString(level) + ds[0] + CRLF + Rendered(level, ds[1..])
  }

  lemma {:induction false} LinesAppendedSnoc(w: Writer, ds: seq<string>, d: string)
    ensures LinesAppended(w, ds + [d]) == LineAppended(LinesAppended(w, ds), d)
    decreases |ds|
  {
    if ds == [] {
      assert [] + [d] == [d];
    } else {
      assert (ds + [d])[1..] == ds[1..] + [d];
      LinesAppendedSnoc(LineAppended(w, ds[0]), ds[1..], d);
    }
  }

  /** Appending lines keeps the level and adds exactly the rendered lines, in order, after the old text. */
  lemma {:induction false} LinesAppendedText(w: Writer, ds: seq<string>)
    ensures LinesAppended(w, ds) == Writer(w.text + Rendered(w.level, ds), w.level)
    decreases |ds|
  {
    if ds != [] {
      LinesAppendedText(LineAppended(w, ds[0]), ds[1..]);
    }
  }

  /**
   * A block opened with Enter and closed with Leave restores the level; the braces sit at the
   * outer level and the lines between them one level deeper.
   */
  lemma EnterLeaveBalanced(w: Writer, ds: seq<string>)
    ensures Left(LinesAppended(Entered(w), ds)) ==
      Writer(w.text + IndentString(w.level) + "{" + CRLF
               + Rendered(w.level + 1, ds)
               + IndentString(w.level) + "}" + CRLF,
             w.level)
  {
    LinesAppendedText(Entered(w), ds);
  }

  /** Appending lines that hold no terminator and are not empty, joined by terminators, appends those lines. */
  lemma AppendJoinedLines(w: Writer, lines: seq<string>)
    requires forall i :: 0 <= i < |lines| ==> lines[i] != [] && !Contains(lines[i], CRLF)
    ensures TextAppended(w, JoinLines(lines)) == Writer(w.text + Rendered(w.level, lines), w.level)
  {
    SplitJoinLines(lines);
    LinesAppendedText(w, lines);
  }

  class IndentedStringBuilder {
    var sb: string
    var indent: int
    var indentCache: string

    ghost predicate Valid()
      reads this
    {
      indentCache == IndentString(indent)
    }

    /** The buffer's value: what has been written and the current level. */
    function Value(): Writer
      reads this
    {
      Writer(sb, indent)
    }

    constructor ()
      ensures Valid() && Value() == NewWriter()
    {
      sb := "";
      indent := DefaultIndent;
      indentCache := "";
      new;
      RecacheIndent();
    }

    method Enter()
      requires Valid()
      modifies this
      ensures Valid() && Value() == Entered(old(Value()))
    {
      AppendLine("{");
      indent := indent + 1;
      RecacheIndent();
    }

    method Leave()
      requires Valid()
      modifies this
      ensures Valid() && Value() == Left(old(Value()))
    {
      indent := indent - 1;
      RecacheIndent();
      AppendLine("}");
    }

    method RecacheIndent()
      modifies this`indentCache
      ensures Valid()
    {
      indentCache := "";
      var i := 0;
      while i < indent
        invariant 0 <= i <= (if indent < 0 then 0 else indent)
        invariant indentCache == IndentString(i)
      {
        indentCache := indentCache + Indent;
        i := i + 1;
      }
    }

    method AppendLine(data: string)
      requires Valid()
      modifies this`sb
      ensures Valid() && Value() == LineAppended(old(Value()), data)
    {
      sb := sb + indentCache + data + CRLF;
    }

    method Append(data: string)
      requires Valid()
      modifies this`sb
      ensures Valid() && Value() == TextAppended(old(Value()), data)
    {
      var pieces := RemoveEmpty(SplitOn(data, CRLF));
      var i := 0;
      while i < |pieces|
        invariant 0 <= i <= |pieces|
        invariant Valid() && Value() == LinesAppended(old(Value()), pieces[..i])
      {
        LinesAppendedSnoc(old(Value()), pieces[..i], pieces[i]);
        assert pieces[..i + 1] == pieces[..i] + [pieces[i]];
        AppendLine(pieces[i]);
        i := i + 1;
      }
      assert pieces[..i] == pieces;
    }

    method ToString() returns (s: string)
      requires Valid()
      ensures s == Value().text
    {
      s := sb;
    }
  }
}
