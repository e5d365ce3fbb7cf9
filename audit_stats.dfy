/** The aggregations the audit servers and the browser collector compute over
    a list of events: counts by `type`, distinct visitors or sessions, event
    counts by `eventType`, and the most viewed pages. */
module AuditStats {
  import opened Optional
  import opened JsString
  import opened JsArray
  import opened Tally
  import opened AuditEvent

  /** `xs.filter(x => x === v).length`. */
  function CountOf(xs: seq<Option<string>>, v: string): (n: nat)
    ensures n <= |xs|
    ensures n > 0 <==> Some(v) in xs
  {
    if xs == [] then 0
    else (if xs[0] == Some(v) then 1 else 0) + CountOf(xs[1..], v)
  }

  /** Three filters for three different values never count one element twice,
      so together they count at most every element once. */
  lemma {:induction false} CountsOfDistinctValuesBounded(xs: seq<Option<string>>, a: string, b: string, c: string)
    requires a != b && b != c && a != c
    ensures CountOf(xs, a) + CountOf(xs, b) + CountOf(xs, c) <= |xs|
  {
    if xs != [] {
      CountsOfDistinctValuesBounded(xs[1..], a, b, c);
    }
  }

  /** The `type` property of every event, in order. */
  function Kinds(es: seq<Event>): (r: seq<Option<string>>)
    ensures |r| == |es| && forall i :: 0 <= i < |es| ==> r[i] == es[i].kind
  {
    seq(|es|, i requires 0 <= i < |es| => es[i].kind)
  }

  /** The `device?.type` of every event, in order. */
  function DeviceTypes(es: seq<Event>): (r: seq<Option<string>>)
    ensures |r| == |es| && forall i :: 0 <= i < |es| ==> r[i] == es[i].deviceType
  {
    seq(|es|, i requires 0 <= i < |es| => es[i].deviceType)
  }

  /** `es.filter(e => e.type === k).length`. */
  function CountKind(es: seq<Event>, k: string): nat {
    CountOf(Kinds(es), k)
  }

  /** The values of a JavaScript `Set` built from a list; `undefined` is one
      value of its own. */
  function ValueSet(xs: seq<Option<string>>): set<Option<string>> {
    set x | x in xs
  }

  /** A `Set` built from a list is never larger than the list. */
  lemma {:induction false} ValueSetBounded(xs: seq<Option<string>>)
    ensures |ValueSet(xs)| <= |xs|
    ensures xs != [] ==> |ValueSet(xs)| >= 1
  {
    if xs != [] {
      var p := xs[..|xs| - 1];
      ValueSetBounded(p);
      assert ValueSet(xs) == ValueSet(p) + {xs[|xs| - 1]};
      assert xs[|xs| - 1] in ValueSet(xs);
    }
  }

  function VisitorIds(es: seq<Event>): (r: seq<Option<string>>)
    ensures |r| == |es| && forall i :: 0 <= i < |es| ==> r[i] == es[i].visitorId
  {
    seq(|es|, i requires 0 <= i < |es| => es[i].visitorId)
  }

  function SessionIds(es: seq<Event>): (r: seq<Option<string>>)
    ensures |r| == |es| && forall i :: 0 <= i < |es| ==> r[i] == es[i].sessionId
  {
    seq(|es|, i requires 0 <= i < |es| => es[i].sessionId)
  }

  /** The property name `eventsByType[e.eventType]` files an event under: a
      missing `eventType` becomes the key `"undefined"`. */
  function TypeKey(e: Event): string {
    e.eventType.GetOr("undefined")
  }

  function TypeKeys(es: seq<Event>): (r: seq<string>)
    ensures |r| == |es| && forall i :: 0 <= i < |es| ==> r[i] == TypeKey(es[i])
  {
    seq(|es|, i requires 0 <= i < |es| => TypeKey(es[i]))
  }

  /** `e.page?.path || '/'`. */
  function PagePath(e: Event): (p: string)
    ensures p != ""
    ensures Truthy(e.pagePath) ==> p == e.pagePath.value
  {
    Or(e.pagePath, Some("/")).value
  }

  /** The page path of every `page_view` event, in order. */
  function PageViewPaths(es: seq<Event>): (r: seq<string>)
    ensures |r| == CountKind(es, "page_view")
    ensures forall p :: p in r ==> exists e :: e in es && e.kind == Some("page_view") && PagePath(e) == p
    ensures forall e :: e in es && e.kind == Some("page_view") ==> PagePath(e) in r
  {
    if es == [] then []
    else
      assert Kinds(es)[1..] == Kinds(es[1..]);
      var rest := PageViewPaths(es[1..]);
      if es[0].kind == Some("page_view") then [PagePath(es[0])] + rest else rest
  }

  /** The `summary` answer of the serverless functions. `eventsByType` lists
      the keys in the order they were first seen, as the JSON object does. */
  datatype Summary = Summary(totalEvents: nat, uniqueVisitors: nat, eventsByType: seq<Entry>)

  /** The summary of a list of events: its length, the number of distinct
      `visitorId` values, and the count of every type key in first-seen order. */
  function SummaryFor(events: seq<Event>): Summary {
    Summary(|events|, |ValueSet(VisitorIds(events))|, Entries(TypeKeys(events)))
  }

  /** The `summary` action, which fills `eventsByType` with a counting loop.
      The per-type counts add up to the total and no more distinct visitors
      than events are reported. */
  method Summarize(events: seq<Event>) returns (s: Summary)
    ensures s == SummaryFor(events)
    ensures s.totalEvents == |events|
    ensures s.uniqueVisitors == |ValueSet(VisitorIds(events))| <= s.totalEvents
    ensures s.eventsByType == Entries(TypeKeys(events))
    ensures forall i :: 0 <= i < |s.eventsByType| ==>
      s.eventsByType[i].0 in TypeKeys(events) && s.eventsByType[i].1 == Occurrences(TypeKeys(events), s.eventsByType[i].0)
    ensures forall e :: e in events ==> (TypeKey(e), Occurrences(TypeKeys(events), TypeKey(e))) in s.eventsByType
    ensures SumCounts(s.eventsByType) == s.totalEvents
  {
    var keys := TypeKeys(events);
    var order, counts := Count(keys);
    ValueSetBounded(VisitorIds(events));
    CountsSumToLength(keys);
    EntriesAreCounts(keys);
    s := Summary(|events|, |ValueSet(VisitorIds(events))|, EntriesOf(order, counts));
  }

  /** `getTopPages`: the page paths of `page_view` events, counted, sorted by
      count (descending, ties in first-seen order) and cut to `limit`. */
  method TopPages(events: seq<Event>, limit: nat) returns (r: seq<Entry>)
    ensures r == Ranking(PageViewPaths(events), limit)
  {
    var order, counts := Count(PageViewPaths(events));
    r := Slice(SortByCount(EntriesOf(order, counts)), 0, limit);
  }

  /** Before the cut, the page counts add up to the number of `page_view`
      events. */
  lemma PageCountsSumToPageViews(events: seq<Event>)
    ensures SumCounts(Entries(PageViewPaths(events))) == CountKind(events, "page_view")
  {
    CountsSumToLength(PageViewPaths(events));
  }

  /** What `TopPages` promises: at most `limit` distinct paths, each with its
      exact number of page views, in non-increasing order of count; a viewed
      page left out means the list is full and every listed page was viewed at
      least as often. */
  lemma TopPagesAreTheMostViewed(events: seq<Event>, limit: nat, e: Event)
    requires e in events && e.kind == Some("page_view")
    ensures |Ranking(PageViewPaths(events), limit)| <= limit
    ensures SortedDesc(Ranking(PageViewPaths(events), limit))
    ensures (forall i :: 0 <= i < |Ranking(PageViewPaths(events), limit)| ==>
               Ranking(PageViewPaths(events), limit)[i].0 != PagePath(e)) ==>
            |Ranking(PageViewPaths(events), limit)| == limit &&
            forall i :: 0 <= i < |Ranking(PageViewPaths(events), limit)| ==>
              Ranking(PageViewPaths(events), limit)[i].1 >= Occurrences(PageViewPaths(events), PagePath(e))
  {
    var paths := PageViewPaths(events);
    RankingIsSortedCounts(paths, limit);
    if forall i :: 0 <= i < |Ranking(paths, limit)| ==> Ranking(paths, limit)[i].0 != PagePath(e) {
      RankingKeepsTheMostFrequent(paths, limit, PagePath(e));
    }
  }
}
