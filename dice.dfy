/** The ASCII die renderer of dice.py: the pip pattern of each face (`side`), a
    face drawn in a five-line box (`str`), and several multi-line drawings set
    side by side (`join`). Multi-line drawings are single strings whose lines
    are separated by '\n', as in the source. */
module Dice {
  import opened Lines

  datatype Option<T> = None | Some(value: T)

  /** The character drawn for each pip: `chr(183)`, the middle dot. */
  const DICE_DOTS: char := '\U{00B7}'

  /** The placeholder for a pip in the face patterns. */
  const PIP: char := 'x'

  const ONE: seq<string> := ["     ", "  x  ", "     "]
  const TWO: seq<string> := ["x    ", "     ", "    x"]
  const THREE: seq<string> := ["x    ", "  x  ", "    x"]
  const FOUR: seq<string> := ["x   x", "     ", "x   x"]
  const FIVE: seq<string> := ["x   x", "  x  ", "x   x"]
  const SIX: seq<string> := ["x   x", "x   x", "x   x"]

  /** The table that `side` indexes. */
  const FACES: seq<seq<string>> := [ONE, TWO, THREE, FOUR, FIVE, SIX]

  /** The top and bottom border of a drawn face. */
  const TOP: string := "  ------- "

  /** A pattern row holds only spaces and pips. */
  predicate PatternRow(row: string)
  {
    forall c | c in row :: c == ' ' || c == PIP
  }

  /** `side(number)`: the 3x5 pip pattern at `[one, ..., six][number - 1]`. A negative
      index counts from the end of the table, as in Python, so numbers -5 to 0 give a
      face too; any other number raises IndexError, here `None`. */
  function Side(number: int): (r: Option<seq<string>>)
    ensures r.Some? <==> -5 <= number <= 6
    ensures r.Some? ==> |r.value| == 3
    ensures r.Some? ==> forall i :: 0 <= i < 3 ==> |r.value[i]| == 5
  {
    var k := number - 1;
    if 0 <= k < 6 then Some(FACES[k])
    else if -6 <= k < 0 then Some(FACES[6 + k])
    else None
  }

  /** Every row of every face holds only spaces and pips. */
  lemma SidePattern(number: int)
    requires Side(number).Some?
    ensures forall i :: 0 <= i < 3 ==> PatternRow(Side(number).value[i])
  {
    assert PatternRow("     ") && PatternRow("  x  ") && PatternRow("x    ");
    assert PatternRow("    x") && PatternRow("x   x");
  }

  /** The face for a die value shows that many pips. */
  lemma SideDots(number: int)
    requires 1 <= number <= 6
    ensures CountIn(Side(number).value, PIP) == number
  {
    assert Count("     ", PIP) == 0 && Count("  x  ", PIP) == 1;
    assert Count("x    ", PIP) == 1 && Count("    x", PIP) == 1;
    assert Count("x   x", PIP) == 2;
  }

  /** The out-of-range numbers that do not raise wrap round the table: `side(0)` is the
      six, `side(-5)` the one. */
  lemma SideWraps(number: int)
    requires -5 <= number <= 0
    ensures Side(number) == Side(number + 6)
  {
  }

  function Spaces(n: nat): (r: string)
    ensures |r| == n && forall i :: 0 <= i < n ==> r[i] == ' '
  {
    if n == 0 then "" else " " + Spaces(n - 1)
  }

  /** Python's `"{0:^w}".format(s)`: `s` padded with spaces to width `w`, the odd
      space going to the right; a string at least `w` long is left as it is. */
  function Center(s: string, width: nat): (r: string)
    ensures |r| == if |s| >= width then |s| else width
    ensures |s| >= width ==> r == s
  {
    if |s| >= width then s
    else
      var left := (width - |s|) / 2;
      Spaces(left) + s + Spaces(width - |s| - left)
  }

  /** A pattern row in its box: `" | {0:^5} |".format(row)`. */
  function Framed(row: string): (r: string)
    ensures |row| <= 5 ==> |r| == 10
    ensures |r| >= 5 && r[..3] == " | " && r[|r| - 2..] == " |"
  {
    " | " + Center(row, 5) + " |"
  }

  /** The middle lines of a drawn face, one per pattern row. */
  function FramedRows(rows: seq<string>): (r: seq<string>)
    ensures |r| == |rows| && forall i :: 0 <= i < |rows| ==> r[i] == Framed(rows[i])
  {
    seq(|rows|, i requires 0 <= i < |rows| => Framed(rows[i]))
  }

  /** The lines `str` assembles before the pips are replaced by dots. */
  function Frame(rows: seq<string>): seq<string>
  {
    [TOP] + FramedRows(rows) + [TOP]
  }

  /** The string `str(number)` returns: no pip marker is left in it. */
  function Render(number: int): (r: string)
    requires Side(number).Some?
    ensures PIP !in r
  {
    ReplaceCounts(JoinLines(Frame(Side(number).value)), PIP, DICE_DOTS);
    Replace(JoinLines(Frame(Side(number).value)), PIP, DICE_DOTS)
  }

  /** `str(number)`: builds the list of lines (top border, one boxed line per pattern
      row, bottom border), joins it with newlines and turns every pip into a dot.
      `None` stands for the IndexError that `side` raises outside -5..6. */
  method Str(number: int) returns (r: Option<string>)
    ensures r.Some? <==> -5 <= number <= 6
    ensures r.Some? ==> r.value == Render(number)
  {
    var face := Side(number);
    if face.None? {
      return None;
    }
    var rows := face.value;
    var s := [TOP];
    for i := 0 to |rows|
      invariant s == [TOP] + FramedRows(rows[..i])
    {
      s := s + [Framed(rows[i])];
    }
    assert rows[..|rows|] == rows;
    s := s + [TOP];
    r := Some(Replace(JoinLines(s), PIP, DICE_DOTS));
  }

  /** The box adds no pip and no dot, and the substitution passes through it. */
  lemma BoxReplace(row: string)
    ensures Replace(" | " + row + " |", PIP, DICE_DOTS) == " | " + Replace(row, PIP, DICE_DOTS) + " |"
  {
    ReplaceConcat(" | ", row, PIP, DICE_DOTS);
    ReplaceConcat(" | " + row, " |", PIP, DICE_DOTS);
    assert Replace(" | ", PIP, DICE_DOTS) == " | ";
    assert Replace(" |", PIP, DICE_DOTS) == " |";
  }

  lemma BoxCount(row: string, c: char)
    requires c != ' ' && c != '|'
    ensures Count(" | " + row + " |", c) == Count(row, c)
  {
    CountConcat(" | ", row, c);
    CountConcat(" | " + row, " |", c);
    assert Count(" | ", c) == 0 && Count(" |", c) == 0;
  }

  /** A pattern row after the substitution holds only spaces and dots. */
  lemma ReplacedPattern(row: string)
    requires PatternRow(row)
    ensures forall c | c in Replace(row, PIP, DICE_DOTS) :: c == ' ' || c == DICE_DOTS
  {
    var r := Replace(row, PIP, DICE_DOTS);
    forall c | c in r ensures c == ' ' || c == DICE_DOTS {
      var i :| 0 <= i < |r| && r[i] == c;
      assert row[i] in row;
    }
  }

  lemma FramedPattern(row: string)
    requires |row| == 5 && PatternRow(row)
    ensures Framed(row) == " | " + row + " |"
    ensures Replace(Framed(row), PIP, DICE_DOTS) == " | " + Replace(row, PIP, DICE_DOTS) + " |"
    ensures '\n' !in Replace(Framed(row), PIP, DICE_DOTS)
    ensures |Replace(Framed(row), PIP, DICE_DOTS)| == 10
    ensures Count(Framed(row), PIP) == Count(row, PIP)
    ensures Count(Framed(row), DICE_DOTS) == 0
  {
    BoxReplace(row);
    BoxCount(row, PIP);
    BoxCount(row, DICE_DOTS);
    ReplacedPattern(row);
    assert DICE_DOTS !in row;
    var r := Replace(row, PIP, DICE_DOTS);
    assert '\n' !in r;
    assert '\n' !in " | " + r + " |";
  }

  /** The border holds no newline, no pip and no dot. */
  lemma TopBorder()
    ensures |TOP| == 10
    ensures '\n' !in TOP && PIP !in TOP && DICE_DOTS !in TOP
    ensures Replace(TOP, PIP, DICE_DOTS) == TOP
  {
    assert '\n' !in TOP && PIP !in TOP && DICE_DOTS !in TOP;
    ReplaceAbsent(TOP, PIP, DICE_DOTS);
  }

  /** The drawn lines, after the dots are substituted, for a face from `side`. */
  lemma {:induction false} FrameReplaced(rows: seq<string>)
    requires forall i :: 0 <= i < |rows| ==> |rows[i]| == 5 && PatternRow(rows[i])
    ensures var lines := ReplaceEach(Frame(rows), PIP, DICE_DOTS);
      |lines| == |rows| + 2 && lines[0] == TOP && lines[|rows| + 1] == TOP &&
      (forall i :: 0 <= i < |rows| ==> lines[i + 1] == " | " + Replace(rows[i], PIP, DICE_DOTS) + " |") &&
      (forall i :: 0 <= i < |lines| ==> '\n' !in lines[i] && |lines[i]| == 10)
  {
    var lines := ReplaceEach(Frame(rows), PIP, DICE_DOTS);
    TopBorder();
    forall i | 0 <= i < |rows|
      ensures lines[i + 1] == " | " + Replace(rows[i], PIP, DICE_DOTS) + " |"
      ensures '\n' !in lines[i + 1] && |lines[i + 1]| == 10
    {
      assert Frame(rows)[i + 1] == Framed(rows[i]);
      FramedPattern(rows[i]);
    }
    forall i | 0 <= i < |lines| ensures '\n' !in lines[i] && |lines[i]| == 10 {
      if i == 0 || i == |rows| + 1 {
        assert lines[i] == TOP;
      } else {
        assert lines[(i - 1) + 1] == " | " + Replace(rows[i - 1], PIP, DICE_DOTS) + " |";
      }
    }
  }

  /** The text drawn for pattern rows splits back into the framed, substituted lines. */
  lemma FrameText(rows: seq<string>)
    requires forall i :: 0 <= i < |rows| ==> |rows[i]| == 5 && PatternRow(rows[i])
    ensures SplitLines(Replace(JoinLines(Frame(rows)), PIP, DICE_DOTS)) == ReplaceEach(Frame(rows), PIP, DICE_DOTS)
  {
    ReplaceJoin(Frame(rows), PIP, DICE_DOTS);
    FrameReplaced(rows);
    SplitJoin(ReplaceEach(Frame(rows), PIP, DICE_DOTS));
  }

  /** The lines of the text drawn for three pattern rows. */
  lemma FrameLines(rows: seq<string>)
    requires |rows| == 3
    requires forall i :: 0 <= i < |rows| ==> |rows[i]| == 5 && PatternRow(rows[i])
    ensures var lines := SplitLines(Replace(JoinLines(Frame(rows)), PIP, DICE_DOTS));
      |lines| == 5 && lines[0] == TOP && lines[4] == TOP &&
      (forall i :: 0 <= i < 3 ==> lines[i + 1] == " | " + Replace(rows[i], PIP, DICE_DOTS) + " |") &&
      (forall i :: 0 <= i < 5 ==> |lines[i]| == 10)
  {
    FrameText(rows);
    FrameReplaced(rows);
  }

  /** `str(number)` has five lines: the top border, the three pattern rows each boxed
      as `" | " + row + " |"` (pips already dots), and a bottom border equal to the
      top; every line is ten characters wide. */
  lemma RenderLines(number: int)
    requires Side(number).Some?
    ensures var lines := SplitLines(Render(number));
      var rows := Side(number).value;
      |lines| == 5 && lines[0] == TOP && lines[4] == TOP &&
      (forall i :: 0 <= i < 3 ==> lines[i + 1] == " | " + Replace(rows[i], PIP, DICE_DOTS) + " |") &&
      (forall i :: 0 <= i < 5 ==> |lines[i]| == 10)
  {
    SidePattern(number);
    FrameLines(Side(number).value);
  }

  /** Counting over the lines of a framed pattern: the borders and the box add no
      pips and no dots. */
  lemma {:induction false} FramedRowsCount(rows: seq<string>, c: char)
    requires c == PIP || c == DICE_DOTS
    requires forall i :: 0 <= i < |rows| ==> |rows[i]| == 5 && PatternRow(rows[i])
    ensures CountIn(FramedRows(rows), c) == (if c == PIP then CountIn(rows, c) else 0)
  {
    if |rows| > 0 {
      FramedRowsCount(rows[1..], c);
      assert FramedRows(rows)[1..] == FramedRows(rows[1..]);
      FramedPattern(rows[0]);
      assert DICE_DOTS !in rows[0];
    }
  }

  /** The text drawn for pattern rows has no pip left and one dot per pip. */
  lemma FrameDots(rows: seq<string>)
    requires forall i :: 0 <= i < |rows| ==> |rows[i]| == 5 && PatternRow(rows[i])
    ensures PIP !in Replace(JoinLines(Frame(rows)), PIP, DICE_DOTS)
    ensures Count(Replace(JoinLines(Frame(rows)), PIP, DICE_DOTS), DICE_DOTS) == CountIn(rows, PIP)
  {
    var joined := JoinLines(Frame(rows));
    ReplaceCounts(joined, PIP, DICE_DOTS);
    CountJoin(Frame(rows), PIP);
    CountJoin(Frame(rows), DICE_DOTS);
    FramedRowsCount(rows, PIP);
    FramedRowsCount(rows, DICE_DOTS);
    CountInConcat([TOP] + FramedRows(rows), [TOP], PIP);
    CountInConcat([TOP], FramedRows(rows), PIP);
    CountInConcat([TOP] + FramedRows(rows), [TOP], DICE_DOTS);
    CountInConcat([TOP], FramedRows(rows), DICE_DOTS);
    TopBorder();
    assert CountIn([TOP], PIP) == 0 && CountIn([TOP], DICE_DOTS) == 0;
  }

  /** `str(number)` contains no pip placeholder, and for a die value it shows exactly
      `number` dots. */
  lemma RenderDots(number: int)
    requires Side(number).Some?
    ensures PIP !in Render(number)
    ensures 1 <= number <= 6 ==> Count(Render(number), DICE_DOTS) == number
  {
    SidePattern(number);
    FrameDots(Side(number).value);
    if 1 <= number <= 6 {
      SideDots(number);
    }
  }

  /** Each drawing split into its lines, in order. */
  function SplitEach(faces: seq<string>): (r: seq<seq<string>>)
    ensures |r| == |faces| && forall k :: 0 <= k < |faces| ==> r[k] == SplitLines(faces[k])
  {
    if |faces| == 0 then [] else [SplitLines(faces[0])] + SplitEach(faces[1..])
  }

  /** Line `i` of the joined text: every face's line `i` followed by `sep`, in face
      order; a face with fewer lines adds nothing to it. */
  function JoinedLine(split: seq<seq<string>>, i: nat, sep: string): (r: string)
    ensures (forall k :: 0 <= k < |split| ==> i >= |split[k]|) ==> r == ""
    ensures |split| >= 1 && i < |split[0]| ==>
      |r| >= |split[0][i] + sep| && r[..|split[0][i] + sep|] == split[0][i] + sep
  {
    if |split| == 0 then ""
    else
      var last := split[|split| - 1];
      JoinedLine(split[..|split| - 1], i, sep) + (if i < |last| then last[i] + sep else "")
  }

  /** Taking one more face into account appends that face's line `i`, if it has one. */
  lemma JoinedLineStep(split: seq<seq<string>>, f: nat, i: nat, sep: string)
    requires f < |split|
    ensures JoinedLine(split[..f + 1], i, sep)
      == JoinedLine(split[..f], i, sep) + (if i < |split[f]| then split[f][i] + sep else "")
  {
    assert split[..f + 1][..f] == split[..f];
  }

  /** Some face has more lines than the first one. */
  predicate Overlong(split: seq<seq<string>>)
    requires |split| >= 1
  {
    exists k :: 0 <= k < |split| && |split[k]| > |split[0]|
  }

  /** The joined text for faces already split into lines; `None` when a face has
      more lines than the first one. */
  function JoinedSplit(split: seq<seq<string>>, sep: string): Option<string>
    requires |split| >= 1
  {
    if Overlong(split) then None
    else Some(JoinLines(seq(|split[0]|, i requires 0 <= i < |split[0]| => JoinedLine(split, i, sep))))
  }

  /** What `join(*faces, sep=sep)` returns. `None` stands for the IndexError that
      Python raises when there is no face at all, or when a face has more lines
      than the first one. */
  function Joined(faces: seq<string>, sep: string): (r: Option<string>)
    ensures r.None? <==>
      (|faces| == 0 || exists k :: 0 <= k < |faces| && |SplitLines(faces[k])| > |SplitLines(faces[0])|)
  {
    if |faces| == 0 then None else JoinedSplit(SplitEach(faces), sep)
  }

  /** `join(*faces, sep)`: splits every face into its lines, then glues them
      together line by line (`Accumulate`). */
  method Join(faces: seq<string>, sep: string := "") returns (r: Option<string>)
    ensures r == Joined(faces, sep)
  {
    var split: seq<seq<string>> := [];
    for f := 0 to |faces|
      invariant |split| == f
      invariant forall k :: 0 <= k < f ==> split[k] == SplitLines(faces[k])
    {
      split := split + [SplitLines(faces[f])];
    }
    assert split == SplitEach(faces);
    if |split| == 0 {
      return None;
    }
    r := Accumulate(split, sep);
  }

  /** The second half of `join`: one empty line per line of the first face, then,
      face by face, each of the face's lines followed by `sep` is appended to the
      line with the same index; the lines are joined with newlines. Indexing a line
      past those of the first face raises IndexError, here `None`. */
  method Accumulate(split: seq<seq<string>>, sep: string) returns (r: Option<string>)
    requires |split| >= 1
    ensures r == JoinedSplit(split, sep)
  {
    var lines: seq<string> := seq(|split[0]|, _ => "");
    for f := 0 to |split|
      invariant |lines| == |split[0]|
      invariant forall k :: 0 <= k < f ==> |split[k]| <= |split[0]|
      invariant forall i :: 0 <= i < |lines| ==> lines[i] == JoinedLine(split[..f], i, sep)
    {
      var face := split[f];
      for line := 0 to |face|
        invariant |lines| == |split[0]|
        invariant line <= |lines|
        invariant forall i :: 0 <= i < line ==> lines[i] == JoinedLine(split[..f + 1], i, sep)
        invariant forall i :: line <= i < |lines| ==> lines[i] == JoinedLine(split[..f], i, sep)
      {
        if line >= |lines| {
          assert Overlong(split) by {
            assert |split[f]| > |split[0]|;
          }
          return None;
        }
        JoinedLineStep(split, f, line, sep);
        lines := lines[line := lines[line] + (face[line] + sep)];
      }
      forall i | |face| <= i < |lines|
        ensures lines[i] == JoinedLine(split[..f + 1], i, sep)
      {
        JoinedLineStep(split, f, i, sep);
      }
    }
    assert !Overlong(split);
    assert lines == seq(|split[0]|, i requires 0 <= i < |split[0]| => JoinedLine(split, i, sep)) by {
      assert split[..|split|] == split;
    }
    r := Some(JoinLines(lines));
  }

  /** A joined line holds no newline when neither the pieces nor `sep` do. */
  lemma {:induction false} JoinedLineNoNewline(split: seq<seq<string>>, i: nat, sep: string)
    requires '\n' !in sep
    requires forall k, j :: 0 <= k < |split| && 0 <= j < |split[k]| ==> '\n' !in split[k][j]
    ensures '\n' !in JoinedLine(split, i, sep)
  {
    if |split| > 0 {
      JoinedLineNoNewline(split[..|split| - 1], i, sep);
    }
  }

  /** With a separator free of newlines, the joined text has exactly as many lines
      as the first face, and line `i` is the faces' lines `i`, each followed by `sep`,
      in order. */
  lemma JoinedLines(faces: seq<string>, sep: string)
    requires '\n' !in sep
    requires Joined(faces, sep).Some?
    ensures |faces| >= 1
    ensures var lines := SplitLines(Joined(faces, sep).value);
      |lines| == |SplitLines(faces[0])| &&
      forall i :: 0 <= i < |lines| ==> lines[i] == JoinedLine(SplitEach(faces), i, sep)
  {
    var split := SplitEach(faces);
    var joined := seq(|split[0]|, i requires 0 <= i < |split[0]| => JoinedLine(split, i, sep));
    forall i | 0 <= i < |joined| ensures '\n' !in joined[i] {
      JoinedLineNoNewline(split, i, sep);
    }
    SplitJoin(joined);
  }

  lemma JoinedLineOne(first: seq<string>, i: nat, sep: string)
    ensures JoinedLine([first], i, sep) == if i < |first| then first[i] + sep else ""
  {
    assert [first][..0] == [];
  }

  lemma JoinedLineTwo(first: seq<string>, second: seq<string>, i: nat, sep: string)
    ensures JoinedLine([first, second], i, sep)
      == (if i < |first| then first[i] + sep else "") + (if i < |second| then second[i] + sep else "")
  {
    assert [first, second][..1] == [first];
    JoinedLineOne(first, i, sep);
  }

  /** Joining a single face with no separator gives the face back. */
  lemma JoinedSingle(face: string)
    ensures Joined([face], "") == Some(face)
  {
    var split := SplitEach([face]);
    var lines := SplitLines(face);
    assert split == [lines];
    assert !Overlong(split);
    var joined := seq(|lines|, i requires 0 <= i < |lines| => JoinedLine(split, i, ""));
    forall i | 0 <= i < |lines| ensures joined[i] == lines[i] {
      JoinedLineOne(lines, i, "");
      assert lines[i] + "" == lines[i];
    }
    assert joined == lines;
    JoinSplit(face);
  }

  /** Two faces with the same number of lines, joined with no separator: the same
      number of lines, each the two faces' lines side by side. */
  lemma JoinedPair(x: string, y: string)
    requires |SplitLines(x)| == |SplitLines(y)|
    ensures Joined([x, y], "").Some?
    ensures var lines := SplitLines(Joined([x, y], "").value);
      |lines| == |SplitLines(x)| &&
      forall i :: 0 <= i < |lines| ==> lines[i] == SplitLines(x)[i] + SplitLines(y)[i]
  {
    var lx, ly := SplitLines(x), SplitLines(y);
    var split := SplitEach([x, y]);
    assert split == [lx, ly];
    assert !Overlong(split);
    JoinedLines([x, y], "");
    forall i | 0 <= i < |lx| ensures JoinedLine(split, i, "") == lx[i] + ly[i] {
      JoinedLineTwo(lx, ly, i, "");
      assert lx[i] + "" == lx[i] && ly[i] + "" == ly[i];
    }
  }

  /** Two faces drawn by `str`, joined with no separator: five lines, each the two
      faces' lines side by side, twenty characters wide. */
  lemma JoinedRenders(a: int, b: int)
    requires Side(a).Some? && Side(b).Some?
    ensures Joined([Render(a), Render(b)], "").Some?
    ensures var lines := SplitLines(Joined([Render(a), Render(b)], "").value);
      var left, right := SplitLines(Render(a)), SplitLines(Render(b));
      |left| == |right| == |lines| == 5 &&
      forall i :: 0 <= i < 5 ==> lines[i] == left[i] + right[i] && |lines[i]| == 20
  {
    var x, y := Render(a), Render(b);
    assert |SplitLines(x)| == 5 && forall i :: 0 <= i < 5 ==> |SplitLines(x)[i]| == 10 by {
      RenderLines(a);
    }
    assert |SplitLines(y)| == 5 && forall i :: 0 <= i < 5 ==> |SplitLines(y)[i]| == 10 by {
      RenderLines(b);
    }
    JoinedPair(x, y);
  }
}
