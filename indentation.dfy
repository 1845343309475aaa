/** The indentation emitter: the text of a compound statement `{ ... }` and the
    `indent` helper the for-loop translation applies to its body and step. Both put
    one level of four spaces before every line that holds a non-whitespace
    character and turn whitespace-only lines into empty lines. */
module Indentation {
  import opened Strings

  /** One level of Python indentation. */
  const Level: string := "    "

  /** The comprehension `'    ' + line if line.strip() else ''`. */
  function IndentLine(line: string): string {
    if HasContent(line) then Level + line else ""
  }

  function IndentLines(lines: seq<string>): (r: seq<string>)
    ensures |r| == |lines| && forall k :: 0 <= k < |lines| ==> r[k] == IndentLine(lines[k])
  {
    seq(|lines|, k requires 0 <= k < |lines| => IndentLine(lines[k]))
  }

  /** `indent(code)`: the trailing newlines are trimmed, every line is indented and
      the lines are joined again, with one newline at the end. */
  function Indent(code: string): (r: string)
    ensures |r| > 0 && r[|r| - 1] == '\n'
  {
    Join("\n", IndentLines(Split(RStripChar(code, '\n'), '\n'))) + "\n"
  }

  /** The text of `compound_statement : LBRACE statements RBRACE` for the text of the
      statements: every line is indented, all trailing whitespace of the result is
      stripped and one newline is added. */
  function CompoundBlock(body: string): (r: string)
    ensures |r| > 0 && r[|r| - 1] == '\n'
    ensures |r| == 1 || !IsSpace(r[|r| - 2])
  {
    RStrip(Join("\n", IndentLines(Split(body, '\n')))) + "\n"
  }

  /** The lines of `indent`'s input: the text without its trailing newlines, split. */
  function InputLines(code: string): seq<string> {
    Split(RStripChar(code, '\n'), '\n')
  }

  /** The lines of an emitted block: the text before its final newline, split. */
  function OutputLines(r: string): seq<string>
    requires |r| > 0
  {
    Split(r[..|r| - 1], '\n')
  }

  /** A line read back from the output with its indentation level removed. */
  function Dedent(line: string): (r: string)
    ensures line == Level + r || r == line
  {
    if |line| >= |Level| && line[..|Level|] == Level then line[|Level|..] else line
  }

  /** What indentation keeps of an input line: the line itself when it has content,
      the empty line otherwise. */
  function Blanked(line: string): string {
    if HasContent(line) then line else ""
  }

  lemma IndentLineNoNewline(line: string)
    requires '\n' !in line
    ensures '\n' !in IndentLine(line)
  {
    if HasContent(line) {
      assert forall k :: 0 <= k < |Level + line| ==> (Level + line)[k] == ' ' || (Level + line)[k] in line;
    }
  }

  /** Every output line of `indent` is the input line at the same place with four
      spaces before it when it has content, and empty when it is whitespace-only. */
  lemma IndentedLines(code: string)
    ensures var ins := InputLines(code); var outs := OutputLines(Indent(code));
      && |outs| == |ins|
      && (forall k :: 0 <= k < |ins| && HasContent(ins[k]) ==> outs[k] == Level + ins[k])
      && (forall k :: 0 <= k < |ins| && !HasContent(ins[k]) ==> outs[k] == "")
  {
    var ins := InputLines(code);
    SplitIndented(ins);
    var r := Indent(code);
    assert r[..|r| - 1] == Join("\n", IndentLines(ins));
  }

  /** Removing one indentation level from the output lines of `indent` gives back
      the input lines, with whitespace-only lines read as empty. */
  lemma IndentDedent(code: string)
    ensures var ins := InputLines(code); var outs := OutputLines(Indent(code));
      |outs| == |ins| && forall k :: 0 <= k < |ins| ==> Dedent(outs[k]) == Blanked(ins[k])
  {
    IndentedLines(code);
    var ins := InputLines(code);
    var outs := OutputLines(Indent(code));
    forall k | 0 <= k < |ins| ensures Dedent(outs[k]) == Blanked(ins[k]) {
      if HasContent(ins[k]) {
        assert (Level + ins[k])[..|Level|] == Level;
        assert (Level + ins[k])[|Level|..] == ins[k];
      }
    }
  }

  /** When the input has no whitespace-only line other than empty ones, dedenting
      the output and joining the lines again gives back the input without its
      trailing newlines. */
  lemma IndentRoundTrip(code: string)
    requires forall k :: 0 <= k < |InputLines(code)| ==> InputLines(code)[k] == Blanked(InputLines(code)[k])
    ensures var outs := OutputLines(Indent(code));
      Join("\n", seq(|outs|, k requires 0 <= k < |outs| => Dedent(outs[k]))) == RStripChar(code, '\n')
  {
    IndentDedent(code);
    var ins := InputLines(code);
    var outs := OutputLines(Indent(code));
    assert seq(|outs|, k requires 0 <= k < |outs| => Dedent(outs[k])) == ins;
    JoinSplit(RStripChar(code, '\n'), '\n');
  }

  /** The last line of a text that ends in content ends in the same character, so it
      has content. */
  lemma LastLineContent(x: string)
    requires EndsInContent(x)
    ensures var ins := Split(x, '\n'); var last := ins[|ins| - 1];
      |last| > 0 && last[|last| - 1] == x[|x| - 1] && HasContent(last)
  {
    SplitLastEnds(x, '\n');
    var ins := Split(x, '\n');
    var last := ins[|ins| - 1];
    assert !IsSpace(last[|last| - 1]);
  }

  /** Joined indented lines end in the last character of the last line when that
      line has content. */
  lemma IndentedLinesLastChar(ins: seq<string>)
    requires |ins| >= 1 && HasContent(ins[|ins| - 1])
    ensures var j := Join("\n", IndentLines(ins)); var last := ins[|ins| - 1];
      |j| > 0 && j[|j| - 1] == last[|last| - 1]
  {
    var lines := IndentLines(ins);
    var last := ins[|ins| - 1];
    var i :| 0 <= i < |last| && !IsSpace(last[i]);
    var l := Level + last;
    assert lines[|lines| - 1] == l;
    assert l[|l| - 1] == last[|last| - 1];
    JoinLastChar("\n", lines);
  }

  /** The last indented line ends in the last character of the text. */
  lemma IndentedLastChar(x: string)
    requires EndsInContent(x)
    ensures var j := Join("\n", IndentLines(Split(x, '\n')));
      |j| > 0 && j[|j| - 1] == x[|x| - 1]
  {
    LastLineContent(x);
    IndentedLinesLastChar(Split(x, '\n'));
  }

  /** The output of `indent` ends in exactly one newline when the last input line,
      after the trailing newlines are trimmed, ends in a non-whitespace character:
      the character before the final newline is that character. */
  lemma IndentEndsOnce(code: string)
    requires EndsInContent(RStripChar(code, '\n'))
    ensures var x := RStripChar(code, '\n'); var r := Indent(code);
      |r| >= 2 && r[|r| - 2] == x[|x| - 1]
  {
    IndentedLastChar(RStripChar(code, '\n'));
  }

  /** A whitespace-only last line is emptied but its newline stays, so `indent` can
      end in two newlines. */
  lemma IndentBlankLastLine()
    ensures Indent("a\n \n") == "    a\n\n"
  {
    assert RStripChar("a\n \n", '\n') == "a\n ";
    assert Split("a\n ", '\n') == ["a", " "] by {
      assert Join("\n", ["a", " "]) == "a\n ";
      SplitJoin(["a", " "], '\n');
    }
    assert !IsSpace("a"[0]);
    assert IndentLine("a") == "    a";
    assert forall i :: 0 <= i < |" "| ==> " "[i] == ' ';
    assert IndentLine(" ") == "";
    assert IndentLines(["a", " "]) == ["    a", ""];
  }

  /** Four spaces before a line do not change whether it has content. */
  lemma LevelContent(line: string)
    ensures HasContent(Level + line) <==> HasContent(line)
  {
    if HasContent(line) {
      var i :| 0 <= i < |line| && !IsSpace(line[i]);
      assert (Level + line)[|Level| + i] == line[i];
    }
    if HasContent(Level + line) {
      var i :| 0 <= i < |Level + line| && !IsSpace((Level + line)[i]);
      assert line[i - |Level|] == (Level + line)[i];
    }
  }

  /** Lines with two indentation levels: eight spaces before every line with
      content, whitespace-only lines empty. */
  function TwiceIndented(lines: seq<string>): (r: seq<string>)
    ensures |r| == |lines|
  {
    seq(|lines|, k requires 0 <= k < |lines| => if HasContent(lines[k]) then Level + Level + lines[k] else "")
  }

  /** Indented lines hold no newline when the lines did not. */
  lemma SplitIndented(ins: seq<string>)
    requires |ins| >= 1 && forall k :: 0 <= k < |ins| ==> '\n' !in ins[k]
    ensures Split(Join("\n", IndentLines(ins)), '\n') == IndentLines(ins)
  {
    var lines := IndentLines(ins);
    forall k | 0 <= k < |lines| ensures '\n' !in lines[k] {
      IndentLineNoNewline(ins[k]);
    }
    SplitJoin(lines, '\n');
  }

  /** Indenting lines twice gives two levels. */
  lemma IndentLinesTwice(ins: seq<string>)
    ensures IndentLines(IndentLines(ins)) == TwiceIndented(ins)
  {
    var once := IndentLines(ins);
    forall k | 0 <= k < |ins|
      ensures IndentLine(once[k]) == TwiceIndented(ins)[k]
    {
      LevelContent(ins[k]);
      if !HasContent(ins[k]) {
        assert !HasContent("");
      }
    }
  }

  /** `indent` is not idempotent: applied twice to text whose last line ends in
      content, it puts eight spaces before every line with content. */
  lemma IndentTwice(code: string)
    requires EndsInContent(RStripChar(code, '\n'))
    ensures Indent(Indent(code)) == Join("\n", TwiceIndented(InputLines(code))) + "\n"
  {
    var ins := InputLines(code);
    var j := Join("\n", IndentLines(ins));
    var r := Indent(code);
    IndentEndsOnce(code);
    assert r == j + Repeat('\n', 1);
    assert RStripChar(r, '\n') == j by {
      assert j[|j| - 1] == r[|r| - 2];
      RStripCharAppended(j, '\n', 1);
    }
    SplitIndented(ins);
    IndentLinesTwice(ins);
  }

  /** Indenting a line twice puts eight spaces before it, where once puts four. */
  lemma IndentLineTwice(line: string)
    requires HasContent(line) && '\n' !in line
    ensures Indent(line) == Level + line + "\n"
    ensures Indent(Indent(line)) == Level + Level + line + "\n"
  {
    IndentOneLine(line);
    LevelContent(line);
    assert Indent(line) == (Level + line) + Repeat('\n', 1);
    RStripCharAppended(Level + line, '\n', 1);
    NoNewlineLevel(line);
    IndentOneLine(Level + line);
  }

  lemma NoNewlineLevel(line: string)
    requires '\n' !in line
    ensures '\n' !in Level + line
  {
    assert forall k :: 0 <= k < |Level + line| ==> (Level + line)[k] == ' ' || (Level + line)[k] in line;
  }

  /** Indenting the lines of a text followed by a run of newlines gives the indented
      text followed by the same run: each trailing newline adds one empty line. */
  lemma {:induction false} IndentTrailingNewlines(x: string, n: nat)
    ensures Join("\n", IndentLines(Split(x + Repeat('\n', n), '\n')))
         == Join("\n", IndentLines(Split(x, '\n'))) + Repeat('\n', n)
    decreases n
  {
    if n == 0 {
      assert x + Repeat('\n', 0) == x;
    } else {
      var y := x + Repeat('\n', n - 1);
      assert x + Repeat('\n', n) == y + ['\n'];
      SplitSnocSep(y, '\n');
      var a := Split(y, '\n');
      assert !HasContent("");
      assert IndentLines(a + [""]) == IndentLines(a) + [""];
      JoinSnoc("\n", IndentLines(a), "");
      IndentTrailingNewlines(x, n - 1);
      assert Repeat('\n', n - 1) + "\n" == Repeat('\n', n);
    }
  }

  /** For a block body that ends in content followed by newlines, which is the shape
      of every statement list, the compound statement's text is `indent` of the
      body: the same lines, indented, with one final newline. */
  lemma CompoundIsIndent(x: string, n: nat)
    requires EndsInContent(x)
    ensures CompoundBlock(x + Repeat('\n', n)) == Indent(x + Repeat('\n', n))
  {
    var s := x + Repeat('\n', n);
    RStripCharAppended(x, '\n', n);
    IndentTrailingNewlines(x, n);
    var j := Join("\n", IndentLines(Split(x, '\n')));
    IndentEndsOnce(x);
    assert RStripChar(x, '\n') == x by {
      RStripCharAppended(x, '\n', 0);
      assert x + Repeat('\n', 0) == x;
    }
    assert Indent(x) == j + "\n";
    RStripAppendedNewlines(j, n);
  }

  /** `indent` of one line with content and no line break indents it and ends it. */
  lemma IndentOneLine(line: string)
    requires HasContent(line) && '\n' !in line
    ensures Indent(line) == Level + line + "\n"
  {
    assert line[|line| - 1] != '\n';
    assert RStripChar(line, '\n') == line;
    SplitJoin([line], '\n');
  }

  /** A block body that ends in content followed by newlines, indented once more by
      `indent` after the compound statement's own level: every line with content
      carries eight spaces. */
  lemma CompoundIndentedAgain(x: string, n: nat)
    requires EndsInContent(x)
    ensures Indent(CompoundBlock(x + Repeat('\n', n))) == Join("\n", TwiceIndented(Split(x, '\n'))) + "\n"
  {
    var s := x + Repeat('\n', n);
    CompoundIsIndent(x, n);
    RStripCharAppended(x, '\n', n);
    assert InputLines(s) == Split(x, '\n');
    IndentTwice(s);
  }
}
