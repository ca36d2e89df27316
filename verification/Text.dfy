/**
 * The ordinal string operations of the .NET runtime that the compiler relies on:
 * IndexOf, Contains, Replace, Split (with and without dropping empty entries),
 * the `Aggregate` join, line terminators and decimal rendering of integers.
 */
module Text {

  /** Environment.NewLine on the Windows runtime the compiler targets. */
  const CRLF: string := "\r\n"

  /** `s.IndexOf(c, from)`: the first position at or after `from` holding `c`, or -1. */
  function IndexOfChar(s: string, c: char, from: nat): (r: int)
    requires from <= |s|
    ensures -1 <= r < |s|
    ensures r != -1 ==> from <= r && s[r] == c
    decreases |s| - from
  {
    if from == |s| then -1
    else if s[from] == c then from
    else IndexOfChar(s, c, from + 1)
  }

  /** The position found is the FIRST `c` at or after `from`; when none is found there is no `c` there. */
  lemma {:induction false} IndexOfFirst(s: string, c: char, from: nat)
    requires from <= |s|
    ensures IndexOfChar(s, c, from) == -1 ==> forall j :: from <= j < |s| ==> s[j] != c
    ensures IndexOfChar(s, c, from) != -1 ==> forall j :: from <= j < IndexOfChar(s, c, from) ==> s[j] != c
    decreases |s| - from
  {
    if from < |s| && s[from] != c {
      IndexOfFirst(s, c, from + 1);
    }
  }

  /** Two texts that agree from `a` and from `b` on have their next `c` at the same distance. */
  lemma {:induction false} IndexOfShift(x: string, a: nat, y: string, b: nat, c: char)
    requires a <= |x| && b <= |y| && x[a..] == y[b..]
    ensures IndexOfChar(x, c, a) == -1 <==> IndexOfChar(y, c, b) == -1
    ensures IndexOfChar(x, c, a) != -1 ==> IndexOfChar(x, c, a) - a == IndexOfChar(y, c, b) - b
    decreases |x| - a
  {
    if a < |x| {
      assert x[a] == x[a..][0] == y[b..][0] == y[b];
      if x[a] != c {
        assert x[a + 1..] == x[a..][1..] == y[b..][1..] == y[b + 1..];
        IndexOfShift(x, a + 1, y, b + 1, c);
      }
    }
  }

  /** A character found in a text is found at the same place once more text follows. */
  lemma {:induction false} IndexOfPrefix(x: string, y: string, c: char, from: nat)
    requires from <= |x| && IndexOfChar(x, c, from) != -1
    ensures IndexOfChar(x + y, c, from) == IndexOfChar(x, c, from)
    decreases |x| - from
  {
    if x[from] != c {
      IndexOfPrefix(x, y, c, from + 1);
    }
  }

  /** `s.Contains(p)`: `p` occurs somewhere in `s`. */
  predicate Contains(s: string, p: string)
    decreases |s|
  {
    p <= s || (|s| > 0 && Contains(s[1..], p))
  }

  /** `s.Replace(p, r)`: every non-overlapping occurrence of `p`, found left to right, becomes `r`. */
  function Replace(s: string, p: string, r: string): string
    requires p != []
    decreases |s|
  {
    if s == [] then []
    else if p <= s then r + Replace(s[|p|..], p, r)
    else [s[0]] + Replace(s[1..], p, r)
  }

  /** `s.Split(p)`: the pieces between the occurrences of `p`, empty pieces kept. */
  function SplitOn(s: string, p: string): (parts: seq<string>)
    requires p != []
    ensures |parts| >= 1
    decreases |s|
  {
    if s == [] then [""]
    else if p <= s then [""] + SplitOn(s[|p|..], p)
    else
      var rest := SplitOn(s[1..], p);
      [[s[0]] + rest[0]] + rest[1..]
  }

  /** `parts.Aggregate((a, b) => a + sep + b)` on a non-empty list. */
  function Join(parts: seq<string>, sep: string): string
    requires |parts| >= 1
  {
    if |parts| == 1 then parts[0] else parts[0] + sep + Join(parts[1..], sep)
  }

  /** The pieces that are not empty, in order (`StringSplitOptions.RemoveEmptyEntries`). */
  function RemoveEmpty(parts: seq<string>): (r: seq<string>)
    ensures forall i :: 0 <= i < |r| ==> r[i] != []
    ensures |r| <= |parts|
  {
    if parts == [] then []
    else if parts[0] == [] then RemoveEmpty(parts[1..])
    else [parts[0]] + RemoveEmpty(parts[1..])
  }

  /** The pieces kept are exactly the non-empty ones, and a list with no empty piece is kept whole. */
  lemma {:induction false} RemoveEmptyKeeps(parts: seq<string>)
    ensures forall x :: x in RemoveEmpty(parts) <==> x in parts && x != []
    ensures (forall i :: 0 <= i < |parts| ==> parts[i] != []) ==> RemoveEmpty(parts) == parts
  {
    if parts != [] {
      RemoveEmptyKeeps(parts[1..]);
      assert parts == [parts[0]] + parts[1..];
    }
  }

  /** Removing the empty pieces of two lists one after the other keeps them in order. */
  lemma {:induction false} RemoveEmptyAppend(a: seq<string>, b: seq<string>)
    ensures RemoveEmpty(a + b) == RemoveEmpty(a) + RemoveEmpty(b)
    decreases |a|
  {
    if a == [] {
      assert a + b == b;
    } else {
      assert (a + b)[0] == a[0] && (a + b)[1..] == a[1..] + b;
      RemoveEmptyAppend(a[1..], b);
    }
  }

  /** Number of occurrences of the character `c` in `s`. */
  function Count(s: string, c: char): nat
  {
    if s == [] then 0 else (if s[0] == c then 1 else 0) + Count(s[1..], c)
  }

  /** Aggregating one more piece appends the separator and that piece. */
  lemma {:induction false} JoinSnoc(parts: seq<string>, x: string, sep: string)
    requires |parts| >= 1
    ensures Join(parts + [x], sep) == Join(parts, sep) + sep + x
    decreases |parts|
  {
    if |parts| == 1 {
      assert (parts + [x])[1..] == [x];
    } else {
      assert (parts + [x])[1..] == parts[1..] + [x];
      JoinSnoc(parts[1..], x, sep);
    }
  }

  /** Joining the pieces of a split with the separator gives back the original text. */
  lemma {:induction false} JoinSplit(s: string, p: string)
    requires p != []
    ensures Join(SplitOn(s, p), p) == s
    decreases |s|
  {
    if s == [] {
    } else if p <= s {
      JoinSplit(s[|p|..], p);
      var rest := SplitOn(s[|p|..], p);
      assert SplitOn(s, p) == [""] + rest;
      assert ([""] + rest)[1..] == rest;
    } else {
      JoinSplit(s[1..], p);
      var rest := SplitOn(s[1..], p);
      var parts := [[s[0]] + rest[0]] + rest[1..];
      assert SplitOn(s, p) == parts;
      if |rest| > 1 {
        assert parts[1..] == rest[1..];
      }
    }
  }

  /** Replacing is splitting on the pattern and joining with the replacement. */
  lemma {:induction false} ReplaceIsJoinSplit(s: string, p: string, r: string)
    requires p != []
    ensures Replace(s, p, r) == Join(SplitOn(s, p), r)
    decreases |s|
  {
    if s == [] {
    } else if p <= s {
      ReplaceIsJoinSplit(s[|p|..], p, r);
      var rest := SplitOn(s[|p|..], p);
      assert SplitOn(s, p) == [""] + rest;
      assert ([""] + rest)[1..] == rest;
    } else {
      ReplaceIsJoinSplit(s[1..], p, r);
      var rest := SplitOn(s[1..], p);
      var parts := [[s[0]] + rest[0]] + rest[1..];
      assert SplitOn(s, p) == parts;
      if |rest| > 1 {
        assert parts[1..] == rest[1..];
      }
    }
  }

  /** Text without the pattern is left as it is by Replace. */
  lemma {:induction false} ReplaceAbsent(s: string, p: string, r: string)
    requires p != [] && !Contains(s, p)
    ensures Replace(s, p, r) == s
    decreases |s|
  {
    if s != [] {
      ReplaceAbsent(s[1..], p, r);
    }
  }

  /** Splitting on a single character yields one piece more than there are separators. */
  lemma {:induction false} SplitCount(s: string, c: char)
    ensures |SplitOn(s, [c])| == Count(s, c) + 1
    decreases |s|
  {
    if s != [] {
      SplitCount(s[1..], c);
      assert [c] <= s <==> s[0] == c;
    }
  }

  /** Each line followed by the line terminator, as StringBuilder.AppendLine produces them. */
  function JoinLines(lines: seq<string>): string
  {
    if lines == [] then [] else lines[0] + CRLF + JoinLines(lines[1..])
  }

  /** Splitting on CRLF stops at the first terminator after a line that holds none. */
  lemma {:induction false} SplitLine(l: string, rest: string)
    requires !Contains(l, CRLF)
    ensures SplitOn(l + CRLF + rest, CRLF) == [l] + SplitOn(rest, CRLF)
    decreases |l|
  {
    var s := l + CRLF + rest;
    if l == [] {
      assert s == CRLF + rest;
      assert CRLF <= s;
      assert s[|CRLF|..] == rest;
    } else {
      assert !(CRLF <= l) by {
        assert CRLF <= l ==> Contains(l, CRLF);
      }
      if |l| == 1 {
        assert s[1] == '\r';
      } else {
        assert s[..2] == l[..2];
      }
      assert !(CRLF <= s);
      assert s[1..] == l[1..] + CRLF + rest;
      SplitLine(l[1..], rest);
      var tail := [l[1..]] + SplitOn(rest, CRLF);
      assert SplitOn(s, CRLF) == [[s[0]] + tail[0]] + tail[1..];
      assert [s[0]] + tail[0] == l;
      assert tail[1..] == SplitOn(rest, CRLF);
    }
  }

  /** Lines written with terminators and read back with empty entries dropped are the same lines. */
  lemma {:induction false} SplitJoinLines(lines: seq<string>)
    requires forall i :: 0 <= i < |lines| ==> lines[i] != [] && !Contains(lines[i], CRLF)
    ensures RemoveEmpty(SplitOn(JoinLines(lines), CRLF)) == lines
    decreases |lines|
  {
    if lines == [] {
    } else {
      SplitLine(lines[0], JoinLines(lines[1..]));
      SplitJoinLines(lines[1..]);
      var parts := SplitOn(JoinLines(lines[1..]), CRLF);
      assert ([lines[0]] + parts)[1..] == parts;
    }
  }

  /**
   * No occurrence of `p` can start inside `t` when `t` lacks `p`'s second character, which
   * differs from its first, and what follows `t` is empty or begins like `p`.
   */
  lemma NoOccurrenceIn(t: string, u: string, p: string)
    requires |p| >= 2 && p[0] != p[1]
    requires forall j :: 0 <= j < |t| ==> t[j] != p[1]
    requires u == [] || u[0] == p[0]
    ensures forall j :: 0 <= j < |t| ==> !(p <= (t + u)[j..])
  {
    forall j | 0 <= j < |t|
      ensures !(p <= (t + u)[j..])
    {
      if j + 1 < |t| {
        assert (t + u)[j..][1] == t[j + 1];
      } else if u != [] {
        assert (t + u)[j..][1] == u[0];
      } else {
        assert |(t + u)[j..]| == 1;
      }
    }
  }

  /** A text in which no occurrence of `p` starts heads the first piece of whatever follows it. */
  lemma {:induction false} SplitFront(t: string, u: string, p: string)
    requires p != []
    requires forall j :: 0 <= j < |t| ==> !(p <= (t + u)[j..])
    ensures SplitOn(t + u, p) == [t + SplitOn(u, p)[0]] + SplitOn(u, p)[1..]
    decreases |t|
  {
    if t == [] {
      var r := SplitOn(u, p);
      assert t + u == u && t + r[0] == r[0];
      assert [r[0]] + r[1..] == r;
    } else {
      assert (t + u)[0..] == t + u;
      assert (t + u)[1..] == t[1..] + u;
      forall j | 0 <= j < |t[1..]|
        ensures !(p <= (t[1..] + u)[j..])
      {
        assert (t[1..] + u)[j..] == (t + u)[j + 1..];
      }
      SplitFront(t[1..], u, p);
      var rest := SplitOn(t[1..] + u, p);
      assert !(p <= t + u);
      assert SplitOn(t + u, p) == [[t[0]] + rest[0]] + rest[1..];
      assert [t[0]] + (t[1..] + SplitOn(u, p)[0]) == t + SplitOn(u, p)[0];
    }
  }

  /**
   * Splitting a join on its separator gives back the pieces, when no piece holds the
   * separator's second character and that character differs from its first: then the only
   * occurrences of the separator are the ones the join put in.
   */
  lemma {:induction false} SplitJoin(parts: seq<string>, p: string)
    requires |parts| >= 1 && |p| >= 2 && p[0] != p[1]
    requires forall i, j :: 0 <= i < |parts| && 0 <= j < |parts[i]| ==> parts[i][j] != p[1]
    ensures SplitOn(Join(parts, p), p) == parts
    decreases |parts|
  {
    var t := parts[0];
    if |parts| == 1 {
      NoOccurrenceIn(t, "", p);
      SplitFront(t, "", p);
      assert t + "" == t;
    } else {
      var rest := Join(parts[1..], p);
      assert Join(parts, p) == t + (p + rest);
      NoOccurrenceIn(t, p + rest, p);
      SplitFront(t, p + rest, p);
      assert (p + rest)[|p|..] == rest;
      assert SplitOn(p + rest, p) == [""] + SplitOn(rest, p);
      SplitJoin(parts[1..], p);
      assert t + "" == t;
      assert [t] + parts[1..] == parts;
    }
  }

  function Digit(d: nat): char
    requires d < 10
  {
    "0123456789"[d]
  }

  /** Decimal rendering of a non-negative integer, without leading zeros. */
  function NatToString(n: nat): (r: string)
    ensures |r| >= 1
    decreases n
  {
    if n < 10 then [Digit(n)] else NatToString(n / 10) + [Digit(n % 10)]
  }

  /** The decimal rendering of a natural number is made of digits. */
  lemma {:induction false} NatToStringDigits(n: nat)
    ensures forall j :: 0 <= j < |NatToString(n)| ==> '0' <= NatToString(n)[j] <= '9'
    decreases n
  {
    if n >= 10 {
      NatToStringDigits(n / 10);
    }
  }

  /** `n.ToString()` for an integer: a minus sign before the digits of a negative value. */
  function IntToString(n: int): string
  {
    if n < 0 then "-" + NatToString(-n) else NatToString(n)
  }

  /** The rendering of an integer is made of digits and perhaps a minus sign. */
  lemma IntToStringChars(n: int)
    ensures forall j :: 0 <= j < |IntToString(n)| ==> IntToString(n)[j] == '-' || '0' <= IntToString(n)[j] <= '9'
  {
    var m: nat := if n < 0 then -n else n;
    NatToStringDigits(m);
    if n < 0 {
      forall j | 1 <= j < |IntToString(n)|
        ensures '0' <= IntToString(n)[j] <= '9'
      {
        assert IntToString(n)[j] == NatToString(m)[j - 1];
      }
    }
  }

  /** A list is its first `k + 1` elements followed by the rest. */
  lemma SplitAt<T>(s: seq<T>, k: nat)
    requires k < |s|
    ensures s[..k + 1] + s[k + 1..] == s && s[..k + 1][..k] == s[..k]
  {
  }

  /** Concatenation regrouped, for proofs where the solver would search for it. */
  lemma Assoc(x: string, y: string, z: string)
    ensures (x + y) + z == x + (y + z)
  {
  }

  /** `"\"" + x + "\""`: a text wrapped in double quotes. */
  function Quote(x: string): string
  {
    "\"" + x + "\""
  }
}
