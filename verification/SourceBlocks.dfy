/**
 The uniqueness test for an unchanged block of source lines: the block, wrapped in line feeds,
 is counted in the wrapped file. Counting does not overlap, which decides what it can miss.
 */
module SourceBlocks {
  import opened Text

  predicate Prefix<T(==)>(p: seq<T>, s: seq<T>) {
    |p| <= |s| && s[..|p|] == p
  }

  /** `str.count`: matches found from the left, each search starting after the previous match. */
  function Count(s: string, p: string): nat
    requires p != ""
    decreases |s|
  {
    if |s| < |p| then 0
    else if Prefix(p, s) then 1 + Count(s[|p|..], p)
    else Count(s[1..], p)
  }

  /** A line feed before every line and one at the end. */
  function Wrapped(lines: seq<string>): (s: string)
    ensures s != "" && s[0] == '\n'
  {
    if lines == [] then "\n" else "\n" + lines[0] + Wrapped(lines[1..])
  }

  lemma {:induction false} WrappedIsJoin(lines: seq<string>)
    requires lines != []
    ensures Wrapped(lines) == "\n" + Join(lines, "\n") + "\n"
  {
    if |lines| == 1 {
      assert lines[1..] == [];
    } else {
      WrappedIsJoin(lines[1..]);
      assert Wrapped(lines) == "\n" + lines[0] + ("\n" + Join(lines[1..], "\n") + "\n");
    }
  }

  predicate NoFeed(s: string) {
    '\n' !in s
  }

  predicate Feedless(lines: seq<string>) {
    forall k :: 0 <= k < |lines| ==> NoFeed(lines[k])
  }

  /** Counting at the level of lines; after a match the search resumes one line later than it ends. */
  function LineCount(lines: seq<string>, block: seq<string>): nat
    requires block != []
    decreases |lines|
  {
    if |lines| < |block| then 0
    else if Prefix(block, lines) then 1 + if |lines| == |block| then 0 else LineCount(lines[|block| + 1..], block)
    else LineCount(lines[1..], block)
  }

  lemma HeadAndTail<T>(p: seq<T>, s: seq<T>)
    requires p != [] && s != []
    ensures Prefix(p, s) <==> p[0] == s[0] && Prefix(p[1..], s[1..])
  {
    if |p| <= |s| {
      assert s[..|p|] == [s[0]] + s[1..][..|p| - 1];
      assert p == [p[0]] + p[1..];
    }
  }

  /** Two lines followed by line feeds agree as text only if they are the same line. */
  lemma {:induction false} SameLine(a: string, b: string, s: string, t: string)
    requires NoFeed(a) && NoFeed(b) && s != "" && t != "" && s[0] == t[0] == '\n'
    ensures Prefix(a + s, b + t) ==> a == b && Prefix(s, t)
  {
    var x, y := a + s, b + t;
    HeadAndTail(x, y);
    if a == "" && b == "" {
      assert x == s && y == t;
    } else if a == "" {
      assert y[0] == b[0] && b[0] in b;
    } else if b == "" {
      assert x[0] == a[0] && a[0] in a;
    } else {
      assert x[0] == a[0] && x[1..] == a[1..] + s && y[0] == b[0] && y[1..] == b[1..] + t;
      SameLine(a[1..], b[1..], s, t);
    }
  }

  lemma PrefixAppend(a: string, s: string, t: string)
    ensures Prefix(s, t) ==> Prefix(a + s, a + t)
  {
    if Prefix(s, t) {
      assert (a + t)[..|a + s|] == a + t[..|s|];
    }
  }

  lemma {:induction false} WrappedPrefix(block: seq<string>, lines: seq<string>)
    requires Feedless(block) && Feedless(lines)
    ensures Prefix(Wrapped(block), Wrapped(lines)) <==> Prefix(block, lines)
  {
    if block == [] {
      assert Wrapped(lines)[..1] == "\n";
    } else if lines == [] {
      assert |Wrapped(block)| >= 2;
    } else {
      var a, b := block[0], lines[0];
      var s, t := Wrapped(block[1..]), Wrapped(lines[1..]);
      assert Wrapped(block) == "\n" + (a + s) && Wrapped(lines) == "\n" + (b + t);
      assert Prefix("\n" + (a + s), "\n" + (b + t)) <==> Prefix(a + s, b + t) by {
        PrefixAppend("\n", a + s, b + t);
        if Prefix("\n" + (a + s), "\n" + (b + t)) {
          assert forall j :: 0 <= j < |a + s| ==>
            (a + s)[j] == ("\n" + (a + s))[j + 1] == ("\n" + (b + t))[j + 1] == (b + t)[j];
        }
      }
      SameLine(a, b, s, t);
      PrefixAppend(a, s, t);
      WrappedPrefix(block[1..], lines[1..]);
      HeadAndTail(block, lines);
    }
  }

  /** Text without a line feed holds no start of a match. */
  lemma {:induction false} SkipLine(line: string, s: string, p: string)
    requires NoFeed(line) && p != "" && p[0] == '\n'
    ensures Count(line + s, p) == Count(s, p)
  {
    if line == "" {
      assert line + s == s;
    } else {
      var t := line + s;
      assert t[0] == line[0] && line[0] in line;
      assert t[1..] == line[1..] + s;
      assert !Prefix(p, t);
      SkipLine(line[1..], s, p);
      if |t| < |p| { CountShort(s, p); }
    }
  }

  lemma CountShort(s: string, p: string)
    requires p != "" && |s| < |p|
    ensures Count(s, p) == 0
  {
  }

  lemma {:induction false} AfterBlock(block: seq<string>, lines: seq<string>)
    requires Prefix(block, lines)
    ensures |Wrapped(block)| <= |Wrapped(lines)|
    ensures Wrapped(lines)[|Wrapped(block)|..] ==
      if |lines| == |block| then "" else lines[|block|] + Wrapped(lines[|block| + 1..])
  {
    if block == [] {
      if lines != [] { assert Wrapped(lines)[1..] == lines[0] + Wrapped(lines[1..]); }
    } else {
      HeadAndTail(block, lines);
      AfterBlock(block[1..], lines[1..]);
      var head := "\n" + block[0];
      assert Wrapped(block) == head + Wrapped(block[1..]) && Wrapped(lines) == head + Wrapped(lines[1..]);
      DropAppend(head, Wrapped(lines[1..]), |Wrapped(block[1..])|);
    }
  }

  lemma DropAppend(h: string, s: string, n: nat)
    requires n <= |s|
    ensures (h + s)[|h| + n..] == s[n..]
  {
  }

  /** Counting the wrapped block in the wrapped file is counting at the level of lines. */
  lemma {:induction false} CountIsLineCount(lines: seq<string>, block: seq<string>)
    requires Feedless(lines) && Feedless(block) && block != []
    ensures Count(Wrapped(lines), Wrapped(block)) == LineCount(lines, block)
    decreases |lines|
  {
    hide Feedless;
    var s, p := Wrapped(lines), Wrapped(block);
    WrappedPrefix(block, lines);
    if Prefix(block, lines) {
      AfterBlock(block, lines);
      if |lines| > |block| {
        var rest := lines[|block| + 1..];
        FeedlessTail(lines, |block|);
        SkipLine(lines[|block|], Wrapped(rest), p);
        CountIsLineCount(rest, block);
      } else {
        CountShort("", p);
      }
    } else if lines == [] {
      WrappedLonger(block);
      CountShort(s, p);
    } else {
      FeedlessTail(lines, 0);
      assert s[1..] == lines[0] + Wrapped(lines[1..]);
      SkipLine(lines[0], Wrapped(lines[1..]), p);
      CountIsLineCount(lines[1..], block);
      CountStep(s, p);
      LineCountStep(lines, block);
    }
  }

  lemma WrappedLonger(block: seq<string>)
    requires block != []
    ensures |Wrapped(block)| >= 2
  {
  }

  lemma FeedlessTail(lines: seq<string>, k: nat)
    requires Feedless(lines) && k < |lines|
    ensures NoFeed(lines[k]) && Feedless(lines[k + 1..])
  {
  }

  lemma CountStep(s: string, p: string)
    requires p != "" && s != "" && !Prefix(p, s)
    ensures Count(s, p) == Count(s[1..], p)
  {
    if |s| < |p| { CountShort(s[1..], p); }
  }

  lemma LineCountStep(lines: seq<string>, block: seq<string>)
    requires block != [] && lines != [] && !Prefix(block, lines)
    ensures LineCount(lines, block) == LineCount(lines[1..], block)
  {
  }

  // ----- what a count of one means -----

  predicate OccursAt(lines: seq<string>, block: seq<string>, i: int) {
    0 <= i <= |lines| && Prefix(block, lines[i..])
  }

  lemma OccursShifted(lines: seq<string>, block: seq<string>, n: nat, i: int)
    requires n <= |lines| && i >= n
    ensures OccursAt(lines, block, i) <==> OccursAt(lines[n..], block, i - n)
  {
    if i <= |lines| { assert lines[n..][i - n..] == lines[i..]; }
  }

  lemma {:induction false} CountZero(lines: seq<string>, block: seq<string>)
    requires block != []
    ensures LineCount(lines, block) == 0 <==> forall i :: !OccursAt(lines, block, i)
    decreases |lines|
  {
    if |lines| < |block| {
    } else if Prefix(block, lines) {
      assert lines[0..] == lines;
      assert OccursAt(lines, block, 0);
    } else {
      CountZero(lines[1..], block);
      assert lines[0..] == lines;
      forall i ensures OccursAt(lines, block, i) <==> OccursAt(lines[1..], block, i - 1) {
        if i >= 1 { OccursShifted(lines, block, 1, i); }
      }
      if exists j :: OccursAt(lines[1..], block, j) {
        var j :| OccursAt(lines[1..], block, j);
        assert OccursAt(lines, block, j + 1) <==> OccursAt(lines[1..], block, j + 1 - 1);
      }
    }
  }

  /** Every occurrence lies within the block's length of the first one. */
  ghost predicate Clustered(lines: seq<string>, block: seq<string>, first: int) {
    OccursAt(lines, block, first) && forall i :: OccursAt(lines, block, i) ==> first <= i <= first + |block|
  }

  ghost predicate Unique(lines: seq<string>, block: seq<string>, at: int) {
    OccursAt(lines, block, at) && forall i :: OccursAt(lines, block, i) ==> i == at
  }

  lemma FirstMatch(lines: seq<string>, block: seq<string>)
    requires block != [] && Prefix(block, lines)
    ensures LineCount(lines, block) == 1 <==> Clustered(lines, block, 0)
  {
    assert lines[0..] == lines;
    var k := |block| + 1;
    if |lines| >= k {
      CountZero(lines[k..], block);
      forall i | i >= k ensures OccursAt(lines, block, i) <==> OccursAt(lines[k..], block, i - k) {
        OccursShifted(lines, block, k, i);
      }
      if Clustered(lines, block, 0) {
        forall j ensures !OccursAt(lines[k..], block, j) {
          if j >= 0 { OccursShifted(lines, block, k, j + k); }
        }
      }
    }
  }

  lemma ShiftCluster(lines: seq<string>, block: seq<string>, first: int)
    requires lines != [] && !OccursAt(lines, block, 0)
    ensures Clustered(lines, block, first) <==> Clustered(lines[1..], block, first - 1)
  {
    forall i ensures OccursAt(lines, block, i) <==> OccursAt(lines[1..], block, i - 1) {
      if i >= 1 { OccursShifted(lines, block, 1, i); }
    }
    if Clustered(lines, block, first) {
      forall j | OccursAt(lines[1..], block, j) ensures first - 1 <= j <= first - 1 + |block| {
        assert OccursAt(lines, block, j + 1) <==> OccursAt(lines[1..], block, j + 1 - 1);
      }
    }
  }

  lemma {:induction false} OneMeansClustered(lines: seq<string>, block: seq<string>)
    requires block != []
    ensures LineCount(lines, block) == 1 <==> exists first :: Clustered(lines, block, first)
    decreases |lines|
  {
    hide Clustered;
    if |lines| < |block| {
      forall first ensures !Clustered(lines, block, first) { TooShort(lines, block, first); }
    } else if Prefix(block, lines) {
      FirstMatch(lines, block);
      forall first | Clustered(lines, block, first) ensures first == 0 { StartsFirst(lines, block, first); }
    } else {
      assert lines[0..] == lines;
      assert !OccursAt(lines, block, 0);
      OneMeansClustered(lines[1..], block);
      forall first ensures Clustered(lines, block, first) <==> Clustered(lines[1..], block, first - 1) {
        ShiftCluster(lines, block, first);
      }
      if exists j :: Clustered(lines[1..], block, j) {
        var j :| Clustered(lines[1..], block, j);
        assert Clustered(lines, block, j + 1) <==> Clustered(lines[1..], block, j + 1 - 1);
      }
    }
  }

  lemma TooShort(lines: seq<string>, block: seq<string>, first: int)
    requires |lines| < |block|
    ensures !Clustered(lines, block, first)
  {
  }

  lemma StartsFirst(lines: seq<string>, block: seq<string>, first: int)
    requires Prefix(block, lines) && Clustered(lines, block, first)
    ensures first == 0
  {
    assert lines[0..] == lines;
    assert OccursAt(lines, block, 0);
  }

  /**
   The test the gate applies to a file and one of its blocks. A block that passes occurs once,
   except that further occurrences may overlap the first or start right where it ends.
   */
  predicate CountedOnce(lines: seq<string>, block: seq<string>) {
    Count(Wrapped(lines), Wrapped(block)) == 1
  }

  lemma CountedOnceExact(lines: seq<string>, block: seq<string>, at: int)
    requires Feedless(lines) && Feedless(block) && block != [] && OccursAt(lines, block, at)
    ensures CountedOnce(lines, block) <==> exists first :: Clustered(lines, block, first)
    ensures Unique(lines, block, at) <==>
      CountedOnce(lines, block) && forall i :: at - |block| <= i <= at + |block| && i != at ==>
        !OccursAt(lines, block, i)
  {
    CountIsLineCount(lines, block);
    OneMeansClustered(lines, block);
    if Unique(lines, block, at) { assert Clustered(lines, block, at); }
  }

  lemma LineFoundOnce(line: string)
    requires NoFeed(line)
    ensures CountedOnce([line], [line])
  {
    assert [line][0..] == [line] && OccursAt([line], [line], 0);
    assert Clustered([line], [line], 0);
    CountedOnceExact([line], [line], 0);
  }

  /** The count misses a repeat that starts on the line after the block. */
  lemma AdjacentRepeatPasses(line: string)
    requires NoFeed(line)
    ensures CountedOnce([line, line], [line]) && !exists at :: Unique([line, line], [line], at)
  {
    var lines, block := [line, line], [line];
    assert lines[0..] == lines && lines[1..] == [line];
    assert OccursAt(lines, block, 0) && OccursAt(lines, block, 1);
    forall i | OccursAt(lines, block, i) ensures 0 <= i <= 0 + |block| {
      assert |lines[i..]| == 2 - i;
    }
    assert Clustered(lines, block, 0);
    CountedOnceExact(lines, block, 0);
  }
}
