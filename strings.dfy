/** Python's string primitives used by the translator: str.isspace, str.split
    with a one-character separator, str.join, str.rstrip() and str.rstrip(c). */
module Strings {

  /** The characters for which Python's str.isspace() is true. */
  predicate IsSpace(c: char) {
    c == ' ' || ('\t' <= c <= '\r') || ('\U{1c}' <= c <= '\U{1f}')
    || c == '\U{85}' || c == '\U{a0}' || c == '\U{1680}'
    || ('\U{2000}' <= c <= '\U{200a}') || c == '\U{2028}' || c == '\U{2029}'
    || c == '\U{202f}' || c == '\U{205f}' || c == '\U{3000}'
  }

  /** `line.strip()` is truthy: the line holds a non-whitespace character. */
  predicate HasContent(line: string) {
    exists i :: 0 <= i < |line| && !IsSpace(line[i])
  }

  /** `s` is non-empty and its last character is not whitespace. */
  predicate EndsInContent(s: string) {
    |s| > 0 && !IsSpace(s[|s| - 1])
  }

  /** Python's `s.split(sep)` for a single-character separator. */
  function Split(s: string, sep: char): (r: seq<string>)
    ensures |r| >= 1
    ensures forall k :: 0 <= k < |r| ==> sep !in r[k]
    decreases |s|
  {
    if |s| == 0 then [""]
    else
      var rest := Split(s[1..], sep);
      if s[0] == sep then [""] + rest
      else [[s[0]] + rest[0]] + rest[1..]
  }

  /** Python's `sep.join(parts)`. */
  function Join(sep: string, parts: seq<string>): string
    decreases |parts|
  {
    if |parts| == 0 then ""
    else if |parts| == 1 then parts[0]
    else parts[0] + sep + Join(sep, parts[1..])
  }

  /** The concatenation of a sequence of strings, in order. */
  function Concat(parts: seq<string>): string
    decreases |parts|
  {
    if |parts| == 0 then "" else parts[0] + Concat(parts[1..])
  }

  /** Python's `s.rstrip()`: drops the trailing whitespace. */
  function RStrip(s: string): (r: string)
    ensures |r| <= |s| && r == s[..|r|]
    ensures forall k :: |r| <= k < |s| ==> IsSpace(s[k])
    ensures r == [] || !IsSpace(r[|r| - 1])
    decreases |s|
  {
    if |s| > 0 && IsSpace(s[|s| - 1]) then RStrip(s[..|s| - 1]) else s
  }

  /** Python's `s.rstrip(c)`: drops the trailing run of the character `c`. */
  function RStripChar(s: string, c: char): (r: string)
    ensures |r| <= |s| && r == s[..|r|]
    ensures forall k :: |r| <= k < |s| ==> s[k] == c
    ensures r == [] || r[|r| - 1] != c
    decreases |s|
  {
    if |s| > 0 && s[|s| - 1] == c then RStripChar(s[..|s| - 1], c) else s
  }

  /** `n` copies of the character `c`. */
  function Repeat(c: char, n: nat): (r: string)
    ensures |r| == n && forall k :: 0 <= k < n ==> r[k] == c
  {
    seq(n, _ => c)
  }

  /** Splitting and re-joining on the same separator gives the input back. */
  lemma {:induction false} JoinSplit(s: string, sep: char)
    ensures Join([sep], Split(s, sep)) == s
    decreases |s|
  {
    if |s| > 0 {
      var rest := Split(s[1..], sep);
      JoinSplit(s[1..], sep);
      if s[0] == sep {
        assert Split(s, sep) == [""] + rest;
        if |rest| == 1 {
          assert Join([sep], [""] + rest) == "" + [sep] + rest[0];
        } else {
          assert ([""] + rest)[1..] == rest;
        }
      } else {
        var r := Split(s, sep);
        assert r == [[s[0]] + rest[0]] + rest[1..];
        if |rest| == 1 {
          assert Join([sep], r) == [s[0]] + rest[0];
        } else {
          assert r[1..] == rest[1..];
          assert Join([sep], rest) == rest[0] + [sep] + Join([sep], rest[1..]);
        }
        assert s == [s[0]] + s[1..];
      }
    }
  }

  /** Joining lines that hold no separator and splitting again gives the lines back. */
  lemma {:induction false} SplitJoin(parts: seq<string>, sep: char)
    requires |parts| >= 1
    requires forall k :: 0 <= k < |parts| ==> sep !in parts[k]
    ensures Split(Join([sep], parts), sep) == parts
    decreases |parts|, |parts[0]|
  {
    var p := parts[0];
    if |p| == 0 {
      if |parts| > 1 {
        SplitJoin(parts[1..], sep);
        var j := Join([sep], parts);
        assert j == [sep] + Join([sep], parts[1..]);
        assert j[1..] == Join([sep], parts[1..]);
        assert Split(j, sep) == [""] + parts[1..];
      }
    } else {
      var shorter := parts[0 := p[1..]];
      assert sep !in p[1..] by {
        forall k | 0 <= k < |p[1..]| ensures p[1..][k] != sep {
          assert p[1..][k] == p[k + 1];
        }
      }
      SplitJoin(shorter, sep);
      var j := Join([sep], parts);
      var js := Join([sep], shorter);
      if |parts| == 1 {
        assert j == p && js == p[1..];
      } else {
        assert shorter[1..] == parts[1..];
        assert j == p + [sep] + Join([sep], parts[1..]);
        assert js == p[1..] + [sep] + Join([sep], parts[1..]);
      }
      assert j == [p[0]] + js;
      assert j[0] == p[0] && j[0] != sep;
      assert j[1..] == js;
      assert [p[0]] + p[1..] == p;
    }
  }

  /** Splitting a string with one more separator at its end adds one empty piece. */
  lemma {:induction false} SplitSnocSep(s: string, sep: char)
    ensures Split(s + [sep], sep) == Split(s, sep) + [""]
    decreases |s|
  {
    if |s| == 0 {
      assert Split([sep], sep) == [""] + Split([], sep);
    } else {
      assert (s + [sep])[1..] == s[1..] + [sep];
      SplitSnocSep(s[1..], sep);
    }
  }

  /** Appending an empty part to a non-empty list appends one separator to the join. */
  lemma {:induction false} JoinSnoc(sep: string, parts: seq<string>, last: string)
    requires |parts| >= 1
    ensures Join(sep, parts + [last]) == Join(sep, parts) + sep + last
    decreases |parts|
  {
    if |parts| == 1 {
      assert (parts + [last])[1..] == [last];
    } else {
      assert (parts + [last])[1..] == parts[1..] + [last];
      JoinSnoc(sep, parts[1..], last);
    }
  }

  /** The last piece of a split is the suffix after the last separator, so a string
      whose last character is content has a last piece ending in that character. */
  lemma {:induction false} SplitLastEnds(s: string, sep: char)
    requires |s| > 0 && s[|s| - 1] != sep
    ensures var r := Split(s, sep); |r[|r| - 1]| > 0 && r[|r| - 1][|r[|r| - 1]| - 1] == s[|s| - 1]
    decreases |s|
  {
    if |s| > 1 {
      SplitLastEnds(s[1..], sep);
    }
  }

  /** The join ends with the last part when that part is not empty. */
  lemma {:induction false} JoinLastChar(sep: string, parts: seq<string>)
    requires |parts| >= 1 && |parts[|parts| - 1]| > 0
    ensures var j := Join(sep, parts); var l := parts[|parts| - 1];
      |j| > 0 && j[|j| - 1] == l[|l| - 1]
    decreases |parts|
  {
    if |parts| > 1 {
      JoinLastChar(sep, parts[1..]);
    }
  }

  /** Concatenation distributes over sequence append. */
  lemma {:induction false} ConcatAppend(a: seq<string>, b: seq<string>)
    ensures Concat(a + b) == Concat(a) + Concat(b)
    decreases |a|
  {
    if |a| > 0 {
      assert (a + b)[1..] == a[1..] + b;
      ConcatAppend(a[1..], b);
    } else {
      assert a + b == b;
    }
  }

  /** Stripping a run of `c` that was appended to a string not ending in `c`
      gives that string back. */
  lemma {:induction false} RStripCharAppended(x: string, c: char, n: nat)
    requires x == [] || x[|x| - 1] != c
    ensures RStripChar(x + Repeat(c, n), c) == x
    decreases n
  {
    var s := x + Repeat(c, n);
    if n == 0 {
      assert s == x;
    } else {
      assert s[..|s| - 1] == x + Repeat(c, n - 1);
      RStripCharAppended(x, c, n - 1);
    }
  }

  /** Stripping whitespace from a string that ends in content, followed by a run
      of newlines, gives the string back. */
  lemma {:induction false} RStripAppendedNewlines(x: string, n: nat)
    requires x == [] || !IsSpace(x[|x| - 1])
    ensures RStrip(x + Repeat('\n', n)) == x
    decreases n
  {
    var s := x + Repeat('\n', n);
    if n == 0 {
      assert s == x;
    } else {
      assert s[..|s| - 1] == x + Repeat('\n', n - 1);
      RStripAppendedNewlines(x, n - 1);
    }
  }

  /** Splitting newline-joined lines with a final newline gives the lines back
      and one empty piece after the last newline. */
  lemma SplitTerminated(lines: seq<string>)
    requires |lines| >= 1
    requires forall k :: 0 <= k < |lines| ==> '\n' !in lines[k]
    ensures Split(Join("\n", lines) + "\n", '\n') == lines + [""]
  {
    SplitSnocSep(Join("\n", lines), '\n');
    SplitJoin(lines, '\n');
  }

  /** The text ends in a non-whitespace character followed by nothing but newlines. */
  predicate EndsInContentLine(s: string) {
    EndsInContent(RStripChar(s, '\n'))
  }

  /** A text is its stripped part followed by the run of `c` that was stripped. */
  lemma RStripCharParts(s: string, c: char)
    ensures s == RStripChar(s, c) + Repeat(c, |s| - |RStripChar(s, c)|)
  {
    var r := RStripChar(s, c);
    assert s == s[..|r|] + s[|r|..];
    assert s[|r|..] == Repeat(c, |s| - |r|);
  }

  /** What precedes a text that keeps something after stripping is not stripped. */
  lemma {:induction false} RStripCharAfter(a: string, b: string, c: char)
    requires RStripChar(b, c) != []
    ensures RStripChar(a + b, c) == a + RStripChar(b, c)
    decreases |b|
  {
    if b[|b| - 1] == c {
      assert (a + b)[..|a + b| - 1] == a + b[..|b| - 1];
      RStripCharAfter(a, b[..|b| - 1], c);
    }
  }

  /** Appending a run of `c` does not change what stripping `c` leaves. */
  lemma {:induction false} RStripCharRun(a: string, c: char, n: nat)
    ensures RStripChar(a + Repeat(c, n), c) == RStripChar(a, c)
    decreases n
  {
    var s := a + Repeat(c, n);
    if n == 0 {
      assert s == a;
    } else {
      assert s[..|s| - 1] == a + Repeat(c, n - 1);
      RStripCharRun(a, c, n - 1);
    }
  }

  /** A text ending in content keeps that shape with or without one more newline. */
  lemma ContentThenNewline(x: string)
    requires EndsInContent(x)
    ensures EndsInContentLine(x) && EndsInContentLine(x + "\n")
  {
    RStripCharAppended(x, '\n', 0);
    assert x + Repeat('\n', 0) == x;
    RStripCharAppended(x, '\n', 1);
    assert Repeat('\n', 1) == "\n";
  }

  /** A line of content closed by one newline. */
  lemma ContentNewline(s: string)
    requires |s| >= 2 && s[|s| - 1] == '\n' && !IsSpace(s[|s| - 2])
    ensures EndsInContentLine(s)
  {
    var x := s[..|s| - 1];
    assert s == x + "\n";
    ContentThenNewline(x);
  }

  /** Whatever precedes a text that ends in content and newlines, the whole does too. */
  lemma ContentLineAfter(a: string, b: string)
    requires EndsInContentLine(b)
    ensures EndsInContentLine(a + b)
  {
    RStripCharAfter(a, b, '\n');
    var r := RStripChar(b, '\n');
    assert (a + r)[|a + r| - 1] == r[|r| - 1];
  }

  /** More newlines at the end keep the shape. */
  lemma ContentLineNewlines(a: string, n: nat)
    requires EndsInContentLine(a)
    ensures EndsInContentLine(a + Repeat('\n', n))
  {
    RStripCharRun(a, '\n', n);
  }
}
