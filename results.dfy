/**
 * Match records produced by the query engine (`ResultNode`), the grouping key
 * `(file_uri, line_number)` with the order a `BTreeMap` keeps it in, and the
 * ranking tuple the deduplicator compares records of one group by.
 */
module Results {

  /** `usize` on a 64-bit target. */
  const USIZE_MODULUS: int := 0x1_0000_0000_0000_0000

  type usize = n: int | 0 <= n < USIZE_MODULUS

  datatype Position = Position(line: usize, character: usize)

  datatype Location = Location(startPosition: Position, endPosition: Position)

  datatype ResultNode = ResultNode(
    fileUri: string,
    lineNumber: usize,
    variables: map<string, string>,
    codeLocation: Location)

  /** The grouping key `(file_uri, line_number)`. */
  datatype Key = Key(fileUri: string, line: int)

  function KeyOf(r: ResultNode): Key {
    Key(r.fileUri, r.lineNumber)
  }

  /**
   * Line width of a match, `end.line - start.line` on `usize`: an end line
   * before the start line wraps around (release-build arithmetic).
   */
  function Span(r: ResultNode): (s: usize)
    ensures r.codeLocation.startPosition.line <= r.codeLocation.endPosition.line ==>
              s == r.codeLocation.endPosition.line - r.codeLocation.startPosition.line
    ensures r.codeLocation.endPosition.line < r.codeLocation.startPosition.line ==>
              s == r.codeLocation.endPosition.line - r.codeLocation.startPosition.line + USIZE_MODULUS
  {
    (r.codeLocation.endPosition.line - r.codeLocation.startPosition.line) % USIZE_MODULUS
  }

  /** The tuple `(line_number, span, start.character, end.character)` the deduplicator compares. */
  datatype Rank = Rank(line: int, span: int, startChar: int, endChar: int)

  function RankOf(r: ResultNode): Rank {
    Rank(r.lineNumber, Span(r), r.codeLocation.startPosition.character, r.codeLocation.endPosition.character)
  }

  /** Rust's `<` on a 4-tuple: lexicographic, component by component. */
  predicate RankLess(a: Rank, b: Rank) {
    || a.line < b.line
    || (a.line == b.line && a.span < b.span)
    || (a.line == b.line && a.span == b.span && a.startChar < b.startChar)
    || (a.line == b.line && a.span == b.span && a.startChar == b.startChar && a.endChar < b.endChar)
  }

  lemma RankLessTransitive(a: Rank, b: Rank, c: Rank)
    requires RankLess(a, b) && RankLess(b, c)
    ensures RankLess(a, c)
  {
  }

  /** Two ranks neither of which is below the other are the same tuple. */
  lemma RankLessTotal(a: Rank, b: Rank)
    requires !RankLess(a, b) && !RankLess(b, a)
    ensures a == b
  {
  }

  /** `String`'s `Ord`: lexicographic over characters, a proper prefix first. */
  predicate StrLess(a: string, b: string)
    decreases |a|
  {
    if |a| == 0 then |b| > 0
    else if |b| == 0 then false
    else if a[0] != b[0] then a[0] < b[0]
    else StrLess(a[1..], b[1..])
  }

  lemma {:induction false} StrLessIrreflexive(a: string)
    ensures !StrLess(a, a)
    decreases |a|
  {
    if |a| > 0 {
      StrLessIrreflexive(a[1..]);
    }
  }

  lemma {:induction false} StrLessTransitive(a: string, b: string, c: string)
    requires StrLess(a, b) && StrLess(b, c)
    ensures StrLess(a, c)
    decreases |a|
  {
    if |a| > 0 && a[0] == b[0] && b[0] == c[0] {
      StrLessTransitive(a[1..], b[1..], c[1..]);
    }
  }

  lemma StrLessAsymmetric(a: string, b: string)
    requires StrLess(a, b)
    ensures !StrLess(b, a)
  {
    if StrLess(b, a) {
      StrLessTransitive(a, b, a);
      StrLessIrreflexive(a);
    }
  }

  lemma {:induction false} StrLessTotal(a: string, b: string)
    requires a != b
    ensures StrLess(a, b) || StrLess(b, a)
    decreases |a|
  {
    if |a| > 0 && |b| > 0 && a[0] == b[0] {
      assert a == [a[0]] + a[1..] && b == [b[0]] + b[1..];
      StrLessTotal(a[1..], b[1..]);
    }
  }

  /** A proper prefix sorts first, and otherwise the first differing character decides. */
  lemma {:induction false} StrLessAtFirstDifference(a: string, b: string, i: nat)
    requires i <= |a| && i <= |b| && a[..i] == b[..i]
    requires (i == |a| && i < |b|) || (i < |a| && i < |b| && a[i] < b[i])
    ensures StrLess(a, b)
    decreases i
  {
    if i > 0 {
      assert a[0] == a[..i][0] == b[..i][0] == b[0];
      assert a[1..][..i - 1] == a[..i][1..] == b[..i][1..] == b[1..][..i - 1];
      StrLessAtFirstDifference(a[1..], b[1..], i - 1);
    }
  }

  /** The order of the `BTreeMap<(String, usize), _>` keys: by file, then by line. */
  predicate KeyLess(a: Key, b: Key) {
    StrLess(a.fileUri, b.fileUri) || (a.fileUri == b.fileUri && a.line < b.line)
  }

  lemma KeyLessIrreflexive(a: Key)
    ensures !KeyLess(a, a)
  {
    StrLessIrreflexive(a.fileUri);
  }

  lemma KeyLessTransitive(a: Key, b: Key, c: Key)
    requires KeyLess(a, b) && KeyLess(b, c)
    ensures KeyLess(a, c)
  {
    if StrLess(a.fileUri, b.fileUri) && StrLess(b.fileUri, c.fileUri) {
      StrLessTransitive(a.fileUri, b.fileUri, c.fileUri);
    }
  }

  lemma KeyLessTotal(a: Key, b: Key)
    requires a != b
    ensures KeyLess(a, b) || KeyLess(b, a)
  {
    if a.fileUri != b.fileUri {
      StrLessTotal(a.fileUri, b.fileUri);
    }
  }

  lemma KeyLessAsymmetric(a: Key, b: Key)
    requires KeyLess(a, b)
    ensures !KeyLess(b, a)
  {
    if KeyLess(b, a) {
      KeyLessTransitive(a, b, a);
      KeyLessIrreflexive(a);
    }
  }

  /** Keys in strictly ascending order, pair by pair: the iteration order of a `BTreeMap`. */
  ghost predicate StrictlyAscending(ks: seq<Key>) {
    forall i, j :: 0 <= i < j < |ks| ==> KeyLess(ks[i], ks[j])
  }

  function Keys(rs: seq<ResultNode>): (ks: seq<Key>)
    ensures |ks| == |rs| && forall i :: 0 <= i < |rs| ==> ks[i] == KeyOf(rs[i])
  {
    seq(|rs|, i requires 0 <= i < |rs| => KeyOf(rs[i]))
  }

  ghost function KeySet(rs: seq<ResultNode>): set<Key> {
    set r | r in rs :: KeyOf(r)
  }

  lemma KeysCoverKeySet(rs: seq<ResultNode>)
    ensures forall k :: k in Keys(rs) <==> k in KeySet(rs)
  {
    forall k | k in KeySet(rs)
      ensures k in Keys(rs)
    {
      var r :| r in rs && KeyOf(r) == k;
      var i :| 0 <= i < |rs| && rs[i] == r;
      assert Keys(rs)[i] == k;
    }
  }

  /** The head of a non-empty sequence is a member; kept apart so that no index is checked where the assumptions already rule the sequence out. */
  lemma HeadIsMember(t: seq<Key>)
    ensures |t| > 0 ==> t[0] in t
  {
  }

  /** Two ascending key sequences over the same set of keys are the same sequence. */
  lemma {:induction false} AscendingUnique(s: seq<Key>, t: seq<Key>)
    requires StrictlyAscending(s) && StrictlyAscending(t)
    requires forall k :: k in s <==> k in t
    ensures s == t
    decreases |s|
  {
    if s == [] {
      HeadIsMember(t);
    } else {
      assert s[0] in s;
      assert t != [];
      assert t[0] in t;
      if s[0] != t[0] {
        var m :| 0 <= m < |t| && t[m] == s[0];
        var n :| 0 <= n < |s| && s[n] == t[0];
        assert KeyLess(t[0], s[0]);
        assert KeyLess(s[0], t[0]);
        KeyLessAsymmetric(s[0], t[0]);
      }
      assert s == [s[0]] + s[1..] && t == [t[0]] + t[1..];
      forall k
        ensures k in s[1..] <==> k in t[1..]
      {
        if k in s[1..] {
          var i :| 0 <= i < |s| - 1 && s[1..][i] == k;
          assert KeyLess(s[0], s[i + 1]);
          KeyLessIrreflexive(k);
          assert k in t && k != t[0];
        }
        if k in t[1..] {
          var i :| 0 <= i < |t| - 1 && t[1..][i] == k;
          assert KeyLess(t[0], t[i + 1]);
          KeyLessIrreflexive(k);
          assert k in s && k != s[0];
        }
      }
      AscendingUnique(s[1..], t[1..]);
      assert s == [s[0]] + s[1..] && t == [t[0]] + t[1..];
    }
  }
}
