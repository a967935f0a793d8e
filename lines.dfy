/** Python string operations that the dice renderer relies on, over `seq<char>`:
    `s.split("\n")`, `"\n".join(lines)`, one-character `s.replace(x, y)` and
    character counting. */
module Lines {

  /** Number of occurrences of `c` in `s`. */
  function Count(s: string, c: char): (n: nat)
    ensures n <= |s|
    ensures n == 0 <==> c !in s
  {
    if |s| == 0 then 0
    else (if s[0] == c then 1 else 0) + Count(s[1..], c)
  }

  lemma {:induction false} CountConcat(a: string, b: string, c: char)
    ensures Count(a + b, c) == Count(a, c) + Count(b, c)
  {
    if |a| == 0 {
      assert a + b == b;
    } else {
      assert (a + b)[1..] == a[1..] + b;
      CountConcat(a[1..], b, c);
    }
  }

  /** Total occurrences of `c` over several lines. */
  function CountIn(lines: seq<string>, c: char): nat
  {
    if |lines| == 0 then 0 else Count(lines[0], c) + CountIn(lines[1..], c)
  }

  lemma {:induction false} CountInConcat(a: seq<string>, b: seq<string>, c: char)
    ensures CountIn(a + b, c) == CountIn(a, c) + CountIn(b, c)
  {
    if |a| == 0 {
      assert a + b == b;
    } else {
      assert (a + b)[1..] == a[1..] + b;
      CountInConcat(a[1..], b, c);
    }
  }

  /** Joining adds only newlines, so any other character is counted line by line. */
  lemma {:induction false} CountJoin(lines: seq<string>, c: char)
    requires c != '\n'
    ensures Count(JoinLines(lines), c) == CountIn(lines, c)
  {
    if |lines| > 1 {
      CountJoin(lines[1..], c);
      CountConcat(lines[0], "\n" + JoinLines(lines[1..]), c);
      CountConcat("\n", JoinLines(lines[1..]), c);
      assert lines[0] + "\n" + JoinLines(lines[1..]) == lines[0] + ("\n" + JoinLines(lines[1..]));
      assert Count("\n", c) == 0;
    } else if |lines| == 1 {
      assert CountIn(lines[1..], c) == 0;
    }
  }

  /** `s.replace(x, y)` for one-character `x` and `y`: every `x` becomes `y`. */
  function Replace(s: string, x: char, y: char): (r: string)
    ensures |r| == |s|
    ensures forall i :: 0 <= i < |s| ==> r[i] == (if s[i] == x then y else s[i])
  {
    if |s| == 0 then "" else [if s[0] == x then y else s[0]] + Replace(s[1..], x, y)
  }

  lemma ReplaceConcat(a: string, b: string, x: char, y: char)
    ensures Replace(a + b, x, y) == Replace(a, x, y) + Replace(b, x, y)
  {
    var l, r := Replace(a + b, x, y), Replace(a, x, y) + Replace(b, x, y);
    assert |l| == |r|;
    forall i | 0 <= i < |l| ensures l[i] == r[i] {
      if i < |a| {
        assert (a + b)[i] == a[i];
      } else {
        assert (a + b)[i] == b[i - |a|];
      }
    }
  }

  /** A string without `x` is left unchanged. */
  lemma ReplaceAbsent(s: string, x: char, y: char)
    requires x !in s
    ensures Replace(s, x, y) == s
  {
    var r := Replace(s, x, y);
    forall i | 0 <= i < |s| ensures r[i] == s[i] {
      assert s[i] in s;
    }
  }

  /** After the replacement no `x` is left, and every former `x` is a `y`. */
  lemma {:induction false} ReplaceCounts(s: string, x: char, y: char)
    requires x != y
    ensures x !in Replace(s, x, y)
    ensures Count(Replace(s, x, y), y) == Count(s, x) + Count(s, y)
  {
    if |s| > 0 {
      ReplaceCounts(s[1..], x, y);
      var head := [if s[0] == x then y else s[0]];
      assert Replace(s, x, y) == head + Replace(s[1..], x, y);
      CountConcat(head, Replace(s[1..], x, y), y);
      CountConcat(head, Replace(s[1..], x, y), x);
    }
  }

  /** Python's `s.split("\n")`: the pieces between newlines, never an empty list. */
  function SplitLines(s: string): (r: seq<string>)
    ensures |r| == Count(s, '\n') + 1
    ensures forall i :: 0 <= i < |r| ==> '\n' !in r[i]
  {
    if |s| == 0 then [""]
    else
      var rest := SplitLines(s[1..]);
      if s[0] == '\n' then [""] + rest
      else [[s[0]] + rest[0]] + rest[1..]
  }

  /** Python's `"\n".join(lines)`: the text starts with the first line. */
  function JoinLines(lines: seq<string>): (r: string)
    ensures |lines| == 0 ==> r == ""
    ensures |lines| >= 1 ==> |r| >= |lines[0]| && r[..|lines[0]|] == lines[0]
  {
    if |lines| == 0 then ""
    else if |lines| == 1 then lines[0]
    else lines[0] + "\n" + JoinLines(lines[1..])
  }

  /** Joining the pieces of a split gives back the original string. */
  lemma {:induction false} JoinSplit(s: string)
    ensures JoinLines(SplitLines(s)) == s
  {
    if |s| > 0 {
      var rest := SplitLines(s[1..]);
      JoinSplit(s[1..]);
      if s[0] == '\n' {
        assert SplitLines(s) == [""] + rest;
        assert ([""] + rest)[1..] == rest;
        assert JoinLines([""] + rest) == "" + "\n" + JoinLines(rest);
        assert s == [s[0]] + s[1..];
      } else if |rest| == 1 {
        assert SplitLines(s) == [[s[0]] + rest[0]];
        assert JoinLines(rest) == rest[0];
        assert s == [s[0]] + s[1..];
      } else {
        var lines := [[s[0]] + rest[0]] + rest[1..];
        assert SplitLines(s) == lines;
        assert lines[1..] == rest[1..];
        assert JoinLines(lines) == ([s[0]] + rest[0]) + "\n" + JoinLines(rest[1..]);
        assert JoinLines(rest) == rest[0] + "\n" + JoinLines(rest[1..]);
        assert s == [s[0]] + s[1..];
      }
    }
  }

  /** A string with no newline splits into itself. */
  lemma {:induction false} SplitSingle(a: string)
    requires '\n' !in a
    ensures SplitLines(a) == [a]
  {
    if |a| > 0 {
      SplitSingle(a[1..]);
      assert a == [a[0]] + a[1..];
    }
  }

  /** A newline-free prefix followed by a newline is split off as one piece. */
  lemma {:induction false} SplitCons(a: string, b: string)
    requires '\n' !in a
    ensures SplitLines(a + "\n" + b) == [a] + SplitLines(b)
  {
    var s := a + "\n" + b;
    if |a| == 0 {
      assert s == "\n" + b;
      assert s[1..] == b;
    } else {
      assert s[1..] == a[1..] + "\n" + b;
      assert a[0] in a;
      SplitCons(a[1..], b);
      var rest := SplitLines(s[1..]);
      assert rest == [a[1..]] + SplitLines(b);
      assert s[0] == a[0] && s[0] != '\n';
      assert SplitLines(s) == [[s[0]] + rest[0]] + rest[1..];
      assert a == [a[0]] + a[1..];
    }
  }

  /** Splitting a join of newline-free lines gives back the lines. */
  lemma {:induction false} SplitJoin(lines: seq<string>)
    requires |lines| >= 1
    requires forall i :: 0 <= i < |lines| ==> '\n' !in lines[i]
    ensures SplitLines(JoinLines(lines)) == lines
  {
    if |lines| == 1 {
      SplitSingle(lines[0]);
    } else {
      SplitJoin(lines[1..]);
      SplitCons(lines[0], JoinLines(lines[1..]));
      assert lines == [lines[0]] + lines[1..];
    }
  }

  /** `Replace` applied to each line. */
  function ReplaceEach(lines: seq<string>, x: char, y: char): (r: seq<string>)
    ensures |r| == |lines|
    ensures forall i :: 0 <= i < |lines| ==> r[i] == Replace(lines[i], x, y)
  {
    if |lines| == 0 then [] else [Replace(lines[0], x, y)] + ReplaceEach(lines[1..], x, y)
  }

  /** A replacement that neither removes nor introduces newlines commutes with joining. */
  lemma {:induction false} ReplaceJoin(lines: seq<string>, x: char, y: char)
    requires x != '\n' && y != '\n'
    ensures Replace(JoinLines(lines), x, y) == JoinLines(ReplaceEach(lines, x, y))
  {
    if |lines| > 1 {
      var rest := JoinLines(lines[1..]);
      var out := ReplaceEach(lines, x, y);
      assert out[1..] == ReplaceEach(lines[1..], x, y);
      assert Replace("\n", x, y) == "\n";
      calc {
        Replace(JoinLines(lines), x, y);
        { assert JoinLines(lines) == lines[0] + ("\n" + rest); }
        Replace(lines[0] + ("\n" + rest), x, y);
        { ReplaceConcat(lines[0], "\n" + rest, x, y); ReplaceConcat("\n", rest, x, y); }
        Replace(lines[0], x, y) + ("\n" + Replace(rest, x, y));
        { ReplaceJoin(lines[1..], x, y); }
        out[0] + ("\n" + JoinLines(out[1..]));
      }
    }
  }
}
