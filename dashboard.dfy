/** The dashboard's summary, computed from one page of rules and one page
    of segments. */
module Dashboard {
  import opened Js
  import opened Api

  datatype Stats = Stats(totalSegments: int, totalRules: int, totalUsers: int)

  /** What the page shows: the counters and the two short lists. */
  datatype View = View(stats: Stats, recentSegments: seq<Segment>, recentRules: seq<Rule>)

  const RecentSegmentCount: nat := 3
  const RecentRuleCount: nat := 5

  /** The state before any data arrives, kept when the fetch fails. */
  const InitialView: View := View(Stats(0, 0, 0), [], [])

  /** `segment.row_count || 0`. */
  function RowCount(s: Segment): (n: int)
    ensures s.rowCount.None? ==> n == 0
    ensures s.rowCount.Some? ==> n == s.rowCount.value
  {
    OrZero(s.rowCount)
  }

  /** The total user count, as a plain sum over the segments. */
  function SumRowCounts(segments: seq<Segment>): int
  {
    if segments == [] then 0 else RowCount(segments[0]) + SumRowCounts(segments[1..])
  }

  /** `segments.reduce((sum, s) => sum + (s.row_count || 0), acc)`: a left fold. */
  function ReduceRowCounts(acc: int, segments: seq<Segment>): (total: int)
    ensures (forall k :: 0 <= k < |segments| ==> RowCount(segments[k]) >= 0) ==> total >= acc
    ensures (forall k :: 0 <= k < |segments| ==> RowCount(segments[k]) == 0) ==> total == acc
    decreases |segments|
  {
    if segments == [] then acc else ReduceRowCounts(acc + RowCount(segments[0]), segments[1..])
  }

  lemma {:induction false} ReduceIsSum(acc: int, segments: seq<Segment>)
    ensures ReduceRowCounts(acc, segments) == acc + SumRowCounts(segments)
    decreases |segments|
  {
    if segments != [] {
      ReduceIsSum(acc + RowCount(segments[0]), segments[1..]);
    }
  }

  lemma {:induction false} SumAppend(a: seq<Segment>, b: seq<Segment>)
    ensures SumRowCounts(a + b) == SumRowCounts(a) + SumRowCounts(b)
    decreases |a|
  {
    if a == [] {
      assert a + b == b;
    } else {
      assert (a + b)[1..] == a[1..] + b;
      SumAppend(a[1..], b);
    }
  }

  /** With non-negative counts, the total bounds every segment's count. */
  lemma {:induction false} SumBoundsEach(segments: seq<Segment>, i: nat)
    requires forall k :: 0 <= k < |segments| ==> RowCount(segments[k]) >= 0
    requires i < |segments|
    ensures 0 <= RowCount(segments[i]) <= SumRowCounts(segments)
    decreases |segments|
  {
    SumNonNegative(segments[1..]);
    if i > 0 {
      SumBoundsEach(segments[1..], i - 1);
    }
  }

  lemma {:induction false} SumNonNegative(segments: seq<Segment>)
    requires forall k :: 0 <= k < |segments| ==> RowCount(segments[k]) >= 0
    ensures SumRowCounts(segments) >= 0
    decreases |segments|
  {
    if segments != [] {
      SumNonNegative(segments[1..]);
    }
  }

  /** `s.slice(0, k)`: the first `min(k, |s|)` elements. */
  function Take<T>(s: seq<T>, k: nat): (r: seq<T>)
    ensures |r| == if |s| < k then |s| else k
    ensures forall i :: 0 <= i < |r| ==> r[i] == s[i]
  {
    if |s| <= k then s else s[..k]
  }

  /** The summary `fetchData` stores once both listings arrive. */
  function ComputeView(rulesPage: Page<Rule>, segmentsPage: Page<Segment>): (v: View)
    ensures v.stats.totalSegments == OrZero(segmentsPage.totalItems)
    ensures v.stats.totalRules == OrZero(rulesPage.totalItems)
    ensures v.stats.totalUsers == SumRowCounts(PageItems(segmentsPage))
    ensures segmentsPage.items.None? ==> v.stats.totalUsers == 0 && v.recentSegments == []
    ensures rulesPage.items.None? ==> v.recentRules == []
    ensures v.recentSegments == Take(PageItems(segmentsPage), RecentSegmentCount)
    ensures v.recentRules == Take(PageItems(rulesPage), RecentRuleCount)
  {
    var rules := PageItems(rulesPage);
    var segments := PageItems(segmentsPage);
    ReduceIsSum(0, segments);
    View(
      Stats(OrZero(segmentsPage.totalItems), OrZero(rulesPage.totalItems), ReduceRowCounts(0, segments)),
      Take(segments, RecentSegmentCount),
      Take(rules, RecentRuleCount))
  }

  /** The page after `fetchData`: `None` when either request failed, in which
      case nothing is stored. */
  function AfterFetch(responses: Option<(Page<Rule>, Page<Segment>)>): (v: View)
    ensures responses.None? ==> v == InitialView
    ensures responses.Some? ==> v == ComputeView(responses.value.0, responses.value.1)
  {
    match responses
    case None => InitialView
    case Some((rulesPage, segmentsPage)) => ComputeView(rulesPage, segmentsPage)
  }
}
