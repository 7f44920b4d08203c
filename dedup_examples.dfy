/** The scenarios the deduplicator's unit tests check, proved for every conforming output. */
module DedupExamples {
  import opened Results
  import opened Dedup

  /** A match with the given key and span and no bindings. */
  function Node(file: string, line: usize, startLine: usize, startChar: usize, endLine: usize, endChar: usize): ResultNode {
    ResultNode(file, line, map[], Location(Position(startLine, startChar), Position(endLine, endChar)))
  }

  /** Three matches on `file1.cs:10` with line spans 5, 2 and 10, and one on `file2.cs:20`. */
  function SpansInput(): seq<ResultNode> {
    [Node("file1.cs", 10, 10, 0, 15, 0), Node("file1.cs", 10, 10, 5, 12, 0),
     Node("file1.cs", 10, 10, 0, 20, 0), Node("file2.cs", 20, 20, 0, 21, 0)]
  }

  lemma SpansKeys()
    ensures StrictlyAscending(Keys([SpansInput()[1], SpansInput()[3]]))
    ensures KeySet([SpansInput()[1], SpansInput()[3]]) == KeySet(SpansInput())
  {
    var rs := SpansInput();
    var expected := [rs[1], rs[3]];
    StrLessAtFirstDifference("file1.cs", "file2.cs", 4);
    assert KeyLess(Key("file1.cs", 10), Key("file2.cs", 20));
    KeysCoverKeySet(rs);
    KeysCoverKeySet(expected);
    assert Keys(rs) == [Key("file1.cs", 10), Key("file1.cs", 10), Key("file1.cs", 10), Key("file2.cs", 20)];
    assert Keys(expected) == [Key("file1.cs", 10), Key("file2.cs", 20)];
  }

  /** The span-2 match and the `file2.cs` match are kept, in key order. */
  lemma KeepsSmallestSpan(out: seq<ResultNode>)
    requires Deduplicated(SpansInput(), out)
    ensures out == [Node("file1.cs", 10, 10, 5, 12, 0), Node("file2.cs", 20, 20, 0, 21, 0)]
  {
    var rs := SpansInput();
    var expected := [rs[1], rs[3]];
    SpansKeys();
    assert SelectedAt(rs, 1) && SelectedAt(rs, 3);
    assert Kept(rs, expected[0]) && Kept(rs, expected[1]);
    Deterministic(rs, out, expected);
  }

  /** Spans 5, 2, 10 and 3 on one line; only the second match has span 2. */
  function TieInput(): seq<ResultNode> {
    [Node("file1.cs", 10, 10, 0, 15, 0), Node("file1.cs", 10, 10, 5, 12, 0),
     Node("file1.cs", 10, 10, 0, 20, 0), Node("file1.cs", 10, 10, 8, 13, 0)]
  }

  /** The single span-2 match, starting at character 5, is the single result; no start-character tie arises. */
  lemma PicksCharacterFive(out: seq<ResultNode>)
    requires Deduplicated(TieInput(), out)
    ensures out == [Node("file1.cs", 10, 10, 5, 12, 0)]
  {
    var rs := TieInput();
    var expected := [rs[1]];
    assert KeySet(expected) == KeySet(rs) by {
      KeysCoverKeySet(rs);
      KeysCoverKeySet(expected);
      assert Keys(rs) == [Key("file1.cs", 10), Key("file1.cs", 10), Key("file1.cs", 10), Key("file1.cs", 10)];
      assert Keys(expected) == [Key("file1.cs", 10)];
    }
    assert SelectedAt(rs, 1);
    assert Kept(rs, expected[0]);
    Deterministic(rs, out, expected);
  }

  /** Three span-2 matches on one line starting at characters 10, 5 and 15. */
  function SameSpanInput(): seq<ResultNode> {
    [Node("file1.cs", 10, 10, 10, 12, 0), Node("file1.cs", 10, 10, 5, 12, 0), Node("file1.cs", 10, 10, 15, 12, 0)]
  }

  /** Same span on one line: the earliest start character wins. */
  lemma PrefersEarlierCharacter(out: seq<ResultNode>)
    requires Deduplicated(SameSpanInput(), out)
    ensures out == [Node("file1.cs", 10, 10, 5, 12, 0)]
  {
    var rs := SameSpanInput();
    var expected := [rs[1]];
    assert KeySet(expected) == KeySet(rs) by {
      KeysCoverKeySet(rs);
      KeysCoverKeySet(expected);
      assert Keys(rs) == [Key("file1.cs", 10), Key("file1.cs", 10), Key("file1.cs", 10)];
      assert Keys(expected) == [Key("file1.cs", 10)];
    }
    assert SelectedAt(rs, 1);
    assert Kept(rs, expected[0]);
    Deterministic(rs, out, expected);
  }

  const ACCOUNT: string := "AccountController.cs"
  const DINNER: string := "DinnerController.cs"

  /**
   * Several matches reported for lines 179, 240 and 241 of one file, with
   * spans reaching into neighbouring lines, and one match in another file.
   */
  function TreeSitterInput(): seq<ResultNode> {
    [Node(ACCOUNT, 179, 179, 16, 179, 26), Node(ACCOUNT, 179, 179, 16, 181, 17),
     Node(ACCOUNT, 179, 177, 0, 179, 26), Node(ACCOUNT, 240, 240, 0, 240, 94),
     Node(ACCOUNT, 240, 240, 0, 241, 20), Node(ACCOUNT, 240, 239, 0, 240, 94),
     Node(ACCOUNT, 241, 241, 16, 241, 23), Node(ACCOUNT, 241, 241, 0, 242, 10),
     Node(DINNER, 100, 100, 0, 100, 10)]
  }

  function TreeSitterOutput(): seq<ResultNode> {
    [TreeSitterInput()[0], TreeSitterInput()[3], TreeSitterInput()[6], TreeSitterInput()[8]]
  }

  lemma TreeSitterAscending()
    ensures StrictlyAscending(Keys(TreeSitterOutput()))
  {
    var a, b, c, d := Key(ACCOUNT, 179), Key(ACCOUNT, 240), Key(ACCOUNT, 241), Key(DINNER, 100);
    StrLessAtFirstDifference(ACCOUNT, DINNER, 0);
    assert KeyLess(a, b) && KeyLess(b, c) && KeyLess(a, c);
    assert KeyLess(a, d) && KeyLess(b, d) && KeyLess(c, d);
    var ks := Keys(TreeSitterOutput());
    assert ks == [a, b, c, d];
    forall i, j | 0 <= i < j < |ks|
      ensures KeyLess(ks[i], ks[j])
    {
    }
  }

  lemma TreeSitterKeySet()
    ensures KeySet(TreeSitterOutput()) == KeySet(TreeSitterInput())
  {
    var rs, expected := TreeSitterInput(), TreeSitterOutput();
    var a, b, c, d := Key(ACCOUNT, 179), Key(ACCOUNT, 240), Key(ACCOUNT, 241), Key(DINNER, 100);
    KeysCoverKeySet(rs);
    KeysCoverKeySet(expected);
    assert Keys(rs) == [a, a, a, b, b, b, c, c, d];
    assert Keys(expected) == [a, b, c, d];
  }

  lemma TreeSitterSelectedFirstLines()
    ensures SelectedAt(TreeSitterInput(), 0) && SelectedAt(TreeSitterInput(), 3)
  {
  }

  lemma TreeSitterSelectedLastLines()
    ensures SelectedAt(TreeSitterInput(), 6) && SelectedAt(TreeSitterInput(), 8)
  {
  }

  lemma TreeSitterKept()
    ensures forall j :: 0 <= j < |TreeSitterOutput()| ==> Kept(TreeSitterInput(), TreeSitterOutput()[j])
  {
    var rs := TreeSitterInput();
    TreeSitterSelectedFirstLines();
    TreeSitterSelectedLastLines();
    assert Kept(rs, rs[0]) && Kept(rs, rs[3]) && Kept(rs, rs[6]) && Kept(rs, rs[8]);
  }

  /** Each line keeps its single-line match, the lines are not merged, and the other file keeps its own. */
  lemma TightestSpanPerLine(out: seq<ResultNode>)
    requires Deduplicated(TreeSitterInput(), out)
    ensures out == [
      Node(ACCOUNT, 179, 179, 16, 179, 26), Node(ACCOUNT, 240, 240, 0, 240, 94),
      Node(ACCOUNT, 241, 241, 16, 241, 23), Node(DINNER, 100, 100, 0, 100, 10)]
  {
    TreeSitterAscending();
    TreeSitterKeySet();
    TreeSitterKept();
    Deterministic(TreeSitterInput(), out, TreeSitterOutput());
  }

  /** Single-line matches on lines 179, 180 and 181 of one file. */
  function AdjacentInput(): seq<ResultNode> {
    [Node("file.cs", 179, 179, 0, 179, 10), Node("file.cs", 180, 180, 0, 180, 10), Node("file.cs", 181, 181, 0, 181, 10)]
  }

  lemma AdjacentAscending()
    ensures StrictlyAscending(Keys(AdjacentInput()))
  {
    var a, b, c := Key("file.cs", 179), Key("file.cs", 180), Key("file.cs", 181);
    assert KeyLess(a, b) && KeyLess(b, c) && KeyLess(a, c);
    var ks := Keys(AdjacentInput());
    assert ks == [a, b, c];
    forall i, j | 0 <= i < j < |ks|
      ensures KeyLess(ks[i], ks[j])
    {
    }
  }

  lemma AdjacentSelected()
    ensures SelectedAt(AdjacentInput(), 0) && SelectedAt(AdjacentInput(), 1) && SelectedAt(AdjacentInput(), 2)
  {
  }

  /** Adjacent lines stay three records. */
  lemma AdjacentLinesStaySeparate(out: seq<ResultNode>)
    requires Deduplicated(AdjacentInput(), out)
    ensures |out| == 3
    ensures out[0].lineNumber == 179 && out[1].lineNumber == 180 && out[2].lineNumber == 181
  {
    var rs := AdjacentInput();
    AdjacentAscending();
    AdjacentSelected();
    assert Kept(rs, rs[0]) && Kept(rs, rs[1]) && Kept(rs, rs[2]);
    Deterministic(rs, out, rs);
  }

  /** Two span-2 matches on line 10, one on source lines 10 to 12 and one on 11 to 13: their ranks are equal. */
  function ShiftedA(): ResultNode { Node("f", 10, 10, 0, 12, 0) }
  function ShiftedB(): ResultNode { Node("f", 10, 11, 0, 13, 0) }

  /** The kept record of a single-key input is determined by the record selected for it. */
  lemma SingleKeyOutput(rs: seq<ResultNode>, i: nat, out: seq<ResultNode>)
    requires i < |rs| && SelectedAt(rs, i)
    requires forall j :: 0 <= j < |rs| ==> KeyOf(rs[j]) == KeyOf(rs[0])
    requires Deduplicated(rs, out)
    ensures out == [rs[i]]
  {
    var expected := [rs[i]];
    assert KeySet(expected) == KeySet(rs) by {
      KeysCoverKeySet(rs);
      KeysCoverKeySet(expected);
      forall k
        ensures k in Keys(rs) <==> k in Keys(expected)
      {
        if k in Keys(rs) {
          var j :| 0 <= j < |Keys(rs)| && Keys(rs)[j] == k;
          assert KeyOf(rs[j]) == KeyOf(rs[i]);
        }
      }
    }
    assert Kept(rs, expected[0]);
    Deterministic(rs, out, expected);
  }

  /**
   * Equal ranks on different source lines: whichever match comes first is kept, so
   * the two orders of the same input give different outputs.
   */
  lemma FirstSeenWinsTies(o1: seq<ResultNode>, o2: seq<ResultNode>)
    requires Deduplicated([ShiftedA(), ShiftedB()], o1)
    requires Deduplicated([ShiftedB(), ShiftedA()], o2)
    ensures RankOf(ShiftedA()) == RankOf(ShiftedB())
    ensures o1 == [ShiftedA()] && o2 == [ShiftedB()]
    ensures o1[0].codeLocation.startPosition.line != o2[0].codeLocation.startPosition.line
  {
    assert SelectedAt([ShiftedA(), ShiftedB()], 0);
    assert SelectedAt([ShiftedB(), ShiftedA()], 0);
    SingleKeyOutput([ShiftedA(), ShiftedB()], 0, o1);
    SingleKeyOutput([ShiftedB(), ShiftedA()], 0, o2);
  }
}
