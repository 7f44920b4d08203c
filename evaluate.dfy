/**
 * The response `evaluate` builds from a query outcome: "not found" is a
 * successful empty answer, any other error is reported in the response, and
 * matches are deduplicated, converted to incidents and sorted by the string
 * key `"<file_uri>-<line>"`.
 */
module Evaluation {
  import opened Wrappers
  import opened Results
  import opened Service
  import opened Query
  import Dedup

  function Digit(d: nat): (c: char)
    requires d < 10
    ensures '0' <= c <= '9'
  {
    ('0' as int + d) as char
  }

  /** Every character of `s` is a decimal digit. */
  predicate AllDigits(s: string) {
    forall i :: 0 <= i < |s| ==> '0' <= s[i] <= '9'
  }

  /** The decimal digits of `n`, most significant first, without leading zeros. */
  function DecimalDigits(n: nat): (s: string)
    ensures |s| >= 1 && AllDigits(s)
    decreases n
  {
    if n < 10 then [Digit(n)] else DecimalDigits(n / 10) + [Digit(n % 10)]
  }

  /** The number a string of decimal digits denotes. */
  function DigitsValue(s: string): nat
    requires AllDigits(s)
  {
    if s == [] then 0 else DigitsValue(s[..|s| - 1]) * 10 + (s[|s| - 1] as int - '0' as int)
  }

  /** Reading the digits back gives the number they were printed from. */
  lemma {:induction false} DecimalDigitsRoundTrip(n: nat)
    ensures DigitsValue(DecimalDigits(n)) == n
    decreases n
  {
    if n >= 10 {
      DecimalDigitsRoundTrip(n / 10);
      var s := DecimalDigits(n);
      assert s[..|s| - 1] == DecimalDigits(n / 10);
    }
  }

  /** `{:?}` of an `i64`: a minus sign for negative values, then the digits. */
  function Decimal(n: int): string {
    if n < 0 then "-" + DecimalDigits(-n) else DecimalDigits(n)
  }

  /** The printed form reads back as the number: digits for a non-negative one, a minus sign and digits otherwise. */
  lemma DecimalReadsBack(n: int)
    ensures |Decimal(n)| >= 1
    ensures n >= 0 ==> AllDigits(Decimal(n)) && DigitsValue(Decimal(n)) == n
    ensures n < 0 ==> Decimal(n)[0] == '-' && AllDigits(Decimal(n)[1..]) && DigitsValue(Decimal(n)[1..]) == -n
  {
    if n < 0 {
      DecimalDigitsRoundTrip(-n);
      assert Decimal(n)[1..] == DecimalDigits(-n);
    } else {
      DecimalDigitsRoundTrip(n);
    }
  }

  /** `IncidentContext::line_number()`: the line, or 0 when it is absent. */
  function LineNumberOrZero(i: IncidentContext): int {
    if i.lineNumber.Some? then i.lineNumber.value else 0
  }

  /** The sort key `"<file_uri>-<line>"` compared as a string. */
  function SortKey(i: IncidentContext): string {
    i.fileUri + "-" + Decimal(LineNumberOrZero(i))
  }

  /** The key holds the file, a dash, and the printed line, and the line reads back from it. */
  lemma SortKeyReadsBack(i: IncidentContext)
    ensures |SortKey(i)| > |i.fileUri| + 1 && SortKey(i)[..|i.fileUri| + 1] == i.fileUri + "-"
    ensures var line, rest := LineNumberOrZero(i), SortKey(i)[|i.fileUri| + 1..];
      if line >= 0 then AllDigits(rest) && DigitsValue(rest) == line
      else rest[0] == '-' && AllDigits(rest[1..]) && DigitsValue(rest[1..]) == -line
  {
    var prefix := i.fileUri + "-";
    DecimalReadsBack(LineNumberOrZero(i));
    assert SortKey(i)[..|prefix|] == prefix && SortKey(i)[|prefix|..] == Decimal(LineNumberOrZero(i));
  }

  /** `x` may precede `y`: its sort key is not greater. */
  predicate Le(x: IncidentContext, y: IncidentContext) {
    !StrLess(SortKey(y), SortKey(x))
  }

  ghost predicate SortedByKey(s: seq<IncidentContext>) {
    forall i, j :: 0 <= i < j < |s| ==> Le(s[i], s[j])
  }

  lemma LeTransitive(x: IncidentContext, y: IncidentContext, z: IncidentContext)
    requires Le(x, y) && Le(y, z)
    ensures Le(x, z)
  {
    var a, b, c := SortKey(x), SortKey(y), SortKey(z);
    if StrLess(c, a) {
      if a == b {
      } else {
        StrLessTotal(a, b);
        StrLessTransitive(c, a, b);
      }
    }
  }

  /** Sorted neighbour by neighbour is sorted pair by pair. */
  lemma AdjacentSortedIsSorted(s: seq<IncidentContext>)
    requires forall k :: 0 < k < |s| ==> Le(s[k - 1], s[k])
    ensures SortedByKey(s)
  {
    forall i, j | 0 <= i < j < |s|
      ensures Le(s[i], s[j])
    {
      ChainLe(s, i, j);
    }
  }

  lemma {:induction false} ChainLe(s: seq<IncidentContext>, i: nat, j: nat)
    requires i < j < |s|
    requires forall k :: 0 < k < |s| ==> Le(s[k - 1], s[k])
    ensures Le(s[i], s[j])
    decreases j - i
  {
    if i + 1 < j {
      ChainLe(s, i + 1, j);
      LeTransitive(s[i], s[i + 1], s[j]);
    }
  }

  /**
   * `sort_by_key` on the incidents: afterwards they are ordered by sort key
   * and are the same incidents as before. Elements move only past a strictly
   * greater key.
   */
  method SortIncidents(a: array<IncidentContext>)
    modifies a
    ensures SortedByKey(a[..])
    ensures multiset(a[..]) == multiset(old(a[..]))
  {
    var i := 1;
    while i < a.Length
      invariant 1 <= i
      invariant SortedExcept(a[..], i - 1, -1)
      invariant multiset(a[..]) == multiset(old(a[..]))
    {
      SinkInto(a, i);
      i := i + 1;
    }
    AdjacentSortedIsSorted(a[..]);
  }

  /** Neighbours up to index `hi` are in order, except possibly at the gap `j`. */
  ghost predicate SortedExcept(s: seq<IncidentContext>, hi: int, j: int) {
    forall k :: 0 < k <= hi && k < |s| && k != j ==> Le(s[k - 1], s[k])
  }

  /** Moves `a[i]` down past every strictly greater key before it, extending the sorted prefix by one. */
  method SinkInto(a: array<IncidentContext>, i: nat)
    requires 0 < i < a.Length
    requires SortedExcept(a[..], i - 1, -1)
    modifies a
    ensures SortedExcept(a[..], i, -1)
    ensures multiset(a[..]) == multiset(old(a[..]))
  {
    var j := i;
    while j > 0 && StrLess(SortKey(a[j]), SortKey(a[j - 1]))
      invariant 0 <= j <= i
      invariant SortedExcept(a[..], i, j)
      invariant 0 < j < i ==> Le(a[j - 1], a[j + 1])
      invariant multiset(a[..]) == multiset(old(a[..]))
    {
      ghost var s := a[..];
      assert 1 < j ==> Le(s[j - 2], s[j - 1]);
      SwapKeepsOrder(s, i, j);
      SwapDown(a, j);
      assert a[..] == s[j - 1 := s[j]][j := s[j - 1]];
      j := j - 1;
    }
    assert j > 0 ==> Le(a[j - 1], a[j]);
  }

  /** Exchanging an out-of-order pair at the gap moves the gap one place down. */
  lemma SwapKeepsOrder(s: seq<IncidentContext>, i: nat, j: nat)
    requires 0 < j <= i < |s|
    requires SortedExcept(s, i, j)
    requires j < i ==> Le(s[j - 1], s[j + 1])
    requires StrLess(SortKey(s[j]), SortKey(s[j - 1]))
    ensures SortedExcept(s[j - 1 := s[j]][j := s[j - 1]], i, j - 1)
    ensures 1 < j ==> Le(s[j - 2], s[j - 1])
  {
    var t := s[j - 1 := s[j]][j := s[j - 1]];
    forall k | 0 < k <= i && k < |t| && k != j - 1
      ensures Le(t[k - 1], t[k])
    {
      if k == j {
        StrLessAsymmetric(SortKey(s[j]), SortKey(s[j - 1]));
      } else if k == j + 1 {
        assert t[k - 1] == s[j - 1] && t[k] == s[j + 1];
      } else {
        assert t[k - 1] == s[k - 1] && t[k] == s[k];
      }
    }
  }

  /** Exchanges `a[j - 1]` and `a[j]`. */
  method SwapDown(a: array<IncidentContext>, j: nat)
    requires 0 < j < a.Length
    modifies a
    ensures a[..] == old(a[..])[j - 1 := old(a[j])][j := old(a[j - 1])]
    ensures multiset(a[..]) == multiset(old(a[..]))
  {
    a[j - 1], a[j] := a[j], a[j - 1];
  }

  function ConvertAll(rs: seq<ResultNode>, convert: ResultNode -> IncidentContext): (cs: seq<IncidentContext>)
    ensures |cs| == |rs| && forall i :: 0 <= i < |rs| ==> cs[i] == convert(rs[i])
  {
    seq(|rs|, i requires 0 <= i < |rs| => convert(rs[i]))
  }

  /** The incidents are, in some order, the converted records of a deduplication of `results`. */
  ghost predicate IncidentsOf(results: seq<ResultNode>, convert: ResultNode -> IncidentContext, incidents: seq<IncidentContext>) {
    exists out :: Dedup.Deduplicated(results, out) && multiset(incidents) == multiset(ConvertAll(out, convert))
  }

  /** The response `evaluate` returns for a query outcome. */
  ghost predicate IsResponseTo(outcome: QueryOutcome, convert: ResultNode -> IncidentContext, resp: EvaluateResponse) {
    match outcome
    case NotFound =>
      resp == EvaluateResponse("", true, Some(ProviderEvaluateResponse(false, [])))
    case QueryFailed(message) =>
      resp == EvaluateResponse(message, false, None)
    case Found(results) =>
      && resp.error == ""
      && resp.successful
      && resp.response.Some?
      && var incidents := resp.response.value.incidentContexts;
      && (resp.response.value.matched <==> |incidents| > 0)
      && (|incidents| > 0 <==> |results| > 0)
      && SortedByKey(incidents)
      && IncidentsOf(results, convert, incidents)
  }

  /** Builds the response for one query outcome. */
  method Respond(outcome: QueryOutcome, convert: ResultNode -> IncidentContext) returns (resp: EvaluateResponse)
    ensures IsResponseTo(outcome, convert, resp)
  {
    match outcome {
      case NotFound =>
        resp := EvaluateResponse("", true, Some(ProviderEvaluateResponse(false, [])));
      case QueryFailed(message) =>
        resp := EvaluateResponse(message, false, None);
      case Found(results) =>
        var newResults := Dedup.DeduplicateResults(results);
        var incidents := new IncidentContext[|newResults|](k requires 0 <= k < |newResults| => convert(newResults[k]));
        assert incidents[..] == ConvertAll(newResults, convert);
        SortIncidents(incidents);
        var sorted := incidents[..];
        assert |multiset(sorted)| == |sorted| == |newResults|;
        Dedup.EmptyExactlyWhenInputEmpty(results, newResults);
        resp := EvaluateResponse("", true, Some(ProviderEvaluateResponse(|sorted| > 0, sorted)));
    }
  }

  /** The key is compared as a string, so line 10 sorts before line 9 of the same file. */
  lemma LineTenSortsBeforeLineNine(ten: IncidentContext, nine: IncidentContext)
    requires ten.fileUri == nine.fileUri == "f.cs"
    requires ten.lineNumber == Some(10) && nine.lineNumber == Some(9)
    ensures StrLess(SortKey(ten), SortKey(nine)) && !Le(nine, ten)
  {
    assert DecimalDigits(10) == "10";
    assert SortKey(ten) == "f.cs-10" && SortKey(nine) == "f.cs-9";
    StrLessAtFirstDifference("f.cs-10", "f.cs-9", 5);
  }

  /** An incident without a line number sorts as line 0. */
  lemma MissingLineSortsAsZero(i: IncidentContext)
    requires i.lineNumber.None?
    ensures SortKey(i) == i.fileUri + "-0"
  {
  }
}
