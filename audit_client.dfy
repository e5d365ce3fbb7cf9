/** The browser-side audit trail: an `AuditTrail` object that keeps every
    event of the page in memory, mirrors the last 100 into local storage, and
    summarises the stored list. */
module AuditClient {
  import opened Optional
  import opened JsString
  import opened JsArray
  import opened Tally
  import opened AuditEvent
  import opened AuditStats
  import opened AuditStore

  const StoredLimit: nat := 100
  const TopPageCount: nat := 5

  /** The local-storage slot as `JSON.parse(getItem(key) || '[]')` sees it:
      nothing (or an empty string) stored, text that does not parse, a JSON
      value that is not a list, or a list of events. */
  datatype Slot = Empty | Unparsable | NotAList | List(events: seq<Event>)

  /** Within the limit, the single `shift` cuts back exactly as the servers'
      `slice(-limit)` does. */
  lemma PushShiftIsRetain(s: seq<Event>, e: Event)
    requires |s| <= StoredLimit
    ensures PushShift(s, e, StoredLimit) == Retain(s + [e], StoredLimit)
  {
  }

  /** A single `shift` is not a cut-back: a list already over the limit stays
      over it. */
  lemma PushShiftOverLimit(s: seq<Event>, e: Event)
    requires |s| > StoredLimit
    ensures |PushShift(s, e, StoredLimit)| == |s| > StoredLimit
  {
  }

  /** `getStoredEvents`: the stored list, `[]` for an empty or unparsable
      slot; a stored value that is not a list makes the summary's first
      `filter` throw (`None`). */
  function StoredList(slot: Slot): (r: Option<seq<Event>>)
    ensures r == None <==> slot == NotAList
    ensures slot.List? ==> r == Some(slot.events)
  {
    match slot
    case Empty => Some([])
    case Unparsable => Some([])
    case NotAList => None
    case List(es) => Some(es)
  }

  /** What `logEvent` leaves in local storage after logging `e`, where
      `saved` says whether `localStorage.setItem` succeeds (it throws when
      the quota is exceeded or storage is disabled): a stored list gets `e`
      with one `shift` over the limit, an empty slot becomes `[e]`, and a
      slot whose update throws, at the parse, the push or the write, is left
      as it was. */
  function StoredAfter(slot: Slot, e: Event, saved: bool): (r: Slot)
    ensures !saved ==> r == slot
    ensures saved && slot == Empty ==> r == List([e])
    ensures saved && slot.List? ==> r == List(PushShift(slot.events, e, StoredLimit))
    ensures slot == Unparsable || slot == NotAList ==> r == slot
  {
    if !saved then slot
    else
      match slot
      case Empty => List(PushShift([], e, StoredLimit))
      case List(es) => List(PushShift(es, e, StoredLimit))
      case Unparsable => slot
      case NotAList => slot
  }

  /** A stored list within the limit stays within it, and holds the most
      recent events, as the servers keep them. */
  lemma StoredAfterKeepsTheMostRecent(slot: Slot, e: Event, saved: bool)
    requires slot.List? ==> |slot.events| <= StoredLimit
    ensures StoredAfter(slot, e, saved).List? ==> |StoredAfter(slot, e, saved).events| <= StoredLimit
    ensures saved && slot.List? ==> StoredAfter(slot, e, saved).events == Retain(slot.events + [e], StoredLimit)
  {
    if slot.List? {
      PushShiftIsRetain(slot.events, e);
    }
  }

  /** The sum of `e.duration || 0` over the `page_exit` events. */
  function ExitDurationTotal(es: seq<Event>): int {
    if es == [] then 0
    else (if es[0].kind == Some("page_exit") then es[0].duration.GetOr(0) else 0) + ExitDurationTotal(es[1..])
  }

  /** `calculateAverageTime`: 0 without `page_exit` events, otherwise
      `Math.round(total / count)`, which is `floor(total / count + 1/2)`. */
  function AverageTime(es: seq<Event>): (avg: int)
    ensures CountKind(es, "page_exit") == 0 ==> avg == 0
    ensures CountKind(es, "page_exit") > 0 ==>
      var n := CountKind(es, "page_exit");
      var total := ExitDurationTotal(es);
      2 * avg * n - n <= 2 * total < 2 * avg * n + n
  {
    var n := CountKind(es, "page_exit");
    if n == 0 then 0
    else
      var total := ExitDurationTotal(es);
      var q := (2 * total + n) / (2 * n);
      assert 2 * total + n == q * (2 * n) + (2 * total + n) % (2 * n);
      q
  }

  /** At most one integer lies within half of `n` of a doubled total. */
  lemma RoundingIsUnique(t: int, n: int, a: int, k: int)
    requires n > 0
    requires 2 * a * n - n <= 2 * t < 2 * a * n + n
    requires 2 * k * n - n <= 2 * t < 2 * k * n + n
    ensures a == k
  {
    var d := a - k;
    assert 2 * a * n == 2 * k * n + 2 * d * n;
    if d >= 1 {
      assert false;
    } else if d <= -1 {
      assert false;
    }
  }

  /** The rounded average is the only integer within half a second of the
      exact mean (halves round up), so the contract of `AverageTime` pins it
      down. */
  lemma AverageTimeIsNearest(es: seq<Event>, k: int)
    requires CountKind(es, "page_exit") > 0
    requires 2 * k * CountKind(es, "page_exit") - CountKind(es, "page_exit") <= 2 * ExitDurationTotal(es)
    requires 2 * ExitDurationTotal(es) < 2 * k * CountKind(es, "page_exit") + CountKind(es, "page_exit")
    ensures AverageTime(es) == k
  {
    RoundingIsUnique(ExitDurationTotal(es), CountKind(es, "page_exit"), AverageTime(es), k);
  }

  /** `getDeviceType`: the mobile pattern wins over the tablet pattern, and
      anything else is a desktop. Both patterns are case-insensitive. */
  function DeviceType(ua: string): (t: string)
    ensures t in {"mobile", "tablet", "desktop"}
    ensures t == "mobile" <==>
      Contains(Lower(ua), "mobile") || Contains(Lower(ua), "android") || Contains(Lower(ua), "iphone")
    ensures t == "tablet" <==>
      !(Contains(Lower(ua), "mobile") || Contains(Lower(ua), "android") || Contains(Lower(ua), "iphone")) &&
      (Contains(Lower(ua), "tablet") || Contains(Lower(ua), "ipad"))
  {
    var l := Lower(ua);
    if Contains(l, "mobile") || Contains(l, "android") || Contains(l, "iphone") then "mobile"
    else if Contains(l, "tablet") || Contains(l, "ipad") then "tablet"
    else "desktop"
  }

  /** `e.device?.type || 'desktop'` for every `page_view` event, in order. */
  function PageViewDevices(es: seq<Event>): (r: seq<string>)
    ensures |r| == CountKind(es, "page_view")
  {
    if es == [] then []
    else
      assert Kinds(es)[1..] == Kinds(es[1..]);
      var rest := PageViewDevices(es[1..]);
      if es[0].kind == Some("page_view") then [Or(es[0].deviceType, Some("desktop")).value] + rest else rest
  }

  predicate IsKnownDevice(t: string) {
    t == "desktop" || t == "mobile" || t == "tablet"
  }

  /** The device types outside the three counters, in order. */
  function OtherTypes(s: seq<string>): (r: seq<string>)
    ensures forall t :: t in r <==> t in s && !IsKnownDevice(t)
  {
    if s == [] then []
    else
      assert s == s[..|s| - 1] + [s[|s| - 1]];
      var p := OtherTypes(s[..|s| - 1]);
      if IsKnownDevice(s[|s| - 1]) then p else p + [s[|s| - 1]]
  }

  /** The breakdown object: the three counters, plus the other type names in
      the order `breakdown[type]++` first created them (their values are
      `NaN`). */
  datatype Breakdown = Breakdown(desktop: nat, mobile: nat, tablet: nat, others: seq<string>)

  function BreakdownFor(devs: seq<string>): Breakdown {
    Breakdown(Occurrences(devs, "desktop"), Occurrences(devs, "mobile"), Occurrences(devs, "tablet"),
              Distinct(OtherTypes(devs)))
  }

  /** Every device type is counted once: by one of the three counters or as
      an other type. */
  lemma {:induction false} DevicesArePartitioned(s: seq<string>)
    ensures Occurrences(s, "desktop") + Occurrences(s, "mobile") + Occurrences(s, "tablet") + |OtherTypes(s)| == |s|
  {
    if s != [] {
      DevicesArePartitioned(s[..|s| - 1]);
    }
  }

  lemma {:induction false} OnlyKnownDevices(s: seq<string>)
    requires forall t :: t in s ==> IsKnownDevice(t)
    ensures OtherTypes(s) == []
  {
    if s != [] {
      OnlyKnownDevices(s[..|s| - 1]);
    }
  }

  /** When every page view carries no type, an empty type or one that
      `getDeviceType` produces, the three counters add up to the number of
      page views and no other key appears. */
  lemma BreakdownCountsPageViews(es: seq<Event>)
    requires forall t :: t in PageViewDevices(es) ==> IsKnownDevice(t)
    ensures var b := BreakdownFor(PageViewDevices(es));
      b.others == [] && b.desktop + b.mobile + b.tablet == CountKind(es, "page_view")
  {
    var devs := PageViewDevices(es);
    DevicesArePartitioned(devs);
    OnlyKnownDevices(devs);
  }

  /** One `breakdown[type]++`: a counter goes up, or a new other type is
      added. */
  function Tick(b: Breakdown, t: string): Breakdown {
    if t == "desktop" then b.(desktop := b.desktop + 1)
    else if t == "mobile" then b.(mobile := b.mobile + 1)
    else if t == "tablet" then b.(tablet := b.tablet + 1)
    else if t in b.others then b
    else b.(others := b.others + [t])
  }

  /** The breakdown of one more device type is one more tick. */
  lemma BreakdownStep(done: seq<string>, t: string)
    ensures BreakdownFor(done + [t]) == Tick(BreakdownFor(done), t)
  {
    var s := done + [t];
    assert s[..|s| - 1] == done;
    var p := OtherTypes(done);
    if !IsKnownDevice(t) {
      assert OtherTypes(s) == p + [t];
      assert (p + [t])[..|p|] == p;
    }
  }

  /** The `forEach` loop of `getDeviceBreakdown`. */
  method DeviceBreakdown(es: seq<Event>) returns (b: Breakdown)
    ensures b == BreakdownFor(PageViewDevices(es))
  {
    var devs := PageViewDevices(es);
    var desktop, mobile, tablet := 0, 0, 0;
    var others: seq<string> := [];
    for i := 0 to |devs|
      invariant Breakdown(desktop, mobile, tablet, others) == BreakdownFor(devs[..i])
    {
      var t := devs[i];
      assert devs[..i + 1] == devs[..i] + [t];
      BreakdownStep(devs[..i], t);
      if t == "desktop" {
        desktop := desktop + 1;
      } else if t == "mobile" {
        mobile := mobile + 1;
      } else if t == "tablet" {
        tablet := tablet + 1;
      } else if t !in others {
        others := others + [t];
      }
    }
    assert devs[..|devs|] == devs;
    b := Breakdown(desktop, mobile, tablet, others);
  }

  datatype AnalyticsSummary = AnalyticsSummary(
    totalEvents: nat,
    pageViews: nat,
    clicks: nat,
    formSubmissions: nat,
    averageTimeOnPage: int,
    maxScrollDepth: int,
    deviceBreakdown: Breakdown,
    topPages: seq<Entry>)

  function SummaryOf(es: seq<Event>, maxScrollDepth: int): AnalyticsSummary {
    AnalyticsSummary(|es|, CountKind(es, "page_view"), CountKind(es, "click"), CountKind(es, "form_submission"),
                     AverageTime(es), maxScrollDepth, BreakdownFor(PageViewDevices(es)),
                     Ranking(PageViewPaths(es), TopPageCount))
  }

  /** The summary counts every stored event at most once among page views,
      clicks and form submissions, and ranks at most five pages. */
  lemma SummaryIsConsistent(es: seq<Event>, depth: int)
    ensures SummaryOf(es, depth).totalEvents == |es|
    ensures SummaryOf(es, depth).pageViews + SummaryOf(es, depth).clicks + SummaryOf(es, depth).formSubmissions <= |es|
    ensures |SummaryOf(es, depth).topPages| <= TopPageCount && SortedDesc(SummaryOf(es, depth).topPages)
  {
    CountsOfDistinctValuesBounded(Kinds(es), "page_view", "click", "form_submission");
    RankingIsSortedCounts(PageViewPaths(es), TopPageCount);
  }

  /** The `scroll_depth` event for a milestone (its `page` is a plain path,
      so it has no `page.path`). */
  function ScrollEvent(sessionId: string, now: string, depth: int): Event {
    Blank.(kind := Some("scroll_depth"), sessionId := Some(sessionId), timestamp := Some(now), depth := Some(depth))
  }

  predicate IsMilestone(p: int) {
    p == 25 || p == 50 || p == 75 || p == 100
  }

  class AuditTrail {
    const sessionId: string
    var events: seq<Event>
    var stored: Slot
    var maxScrollDepth: int

    /** The object as built, before `init` logs its first page view; `stored`
        is whatever local storage held at page load. */
    constructor (sessionId: string, stored: Slot)
      ensures this.sessionId == sessionId && this.stored == stored
      ensures events == [] && maxScrollDepth == 0
    {
      this.sessionId := sessionId;
      this.stored := stored;
      events := [];
      maxScrollDepth := 0;
    }

    /** `logEvent`: the in-memory list grows by the event; a stored list gets
        it too, capped by one `shift`; an empty slot becomes `[event]`; a slot
        that does not hold a list makes the update throw and is left as it
        was, and so is every slot when `setItem` fails (`saved` is false). */
    method LogEvent(e: Event, saved: bool)
      modifies this
      ensures events == old(events) + [e]
      ensures maxScrollDepth == old(maxScrollDepth)
      ensures stored == StoredAfter(old(stored), e, saved)
    {
      events := events + [e];
      if saved {
        match stored
        case Empty => stored := List(PushShift([], e, StoredLimit));
        case List(s) => stored := List(PushShift(s, e, StoredLimit));
        case Unparsable =>
        case NotAList =>
      }
    }

    /** `clearStoredEvents`: both the stored and the in-memory list are empty
        afterwards. */
    method ClearStoredEvents()
      modifies this
      ensures stored == Empty && events == []
      ensures maxScrollDepth == old(maxScrollDepth)
    {
      stored := Empty;
      events := [];
    }

    /** The milestone logic of `trackScrollDepth` for the rounded scroll
        percentage `p`: the maximum never decreases, and an event is logged
        exactly when `p` is a new maximum and a milestone; `saved` is the
        outcome of the storage write, as for `LogEvent`. */
    method TrackScrollDepth(p: int, now: string, saved: bool) returns (emitted: bool)
      modifies this
      ensures maxScrollDepth == if p > old(maxScrollDepth) then p else old(maxScrollDepth)
      ensures maxScrollDepth >= old(maxScrollDepth)
      ensures emitted <==> p > old(maxScrollDepth) && IsMilestone(p)
      ensures emitted ==> events == old(events) + [ScrollEvent(sessionId, now, p)]
      ensures emitted ==> stored == StoredAfter(old(stored), ScrollEvent(sessionId, now, p), saved)
      ensures !emitted ==> events == old(events) && stored == old(stored)
    {
      emitted := false;
      if p > maxScrollDepth {
        maxScrollDepth := p;
        if IsMilestone(p) {
          LogEvent(ScrollEvent(sessionId, now, p), saved);
          emitted := true;
        }
      }
    }

    /** `getAnalyticsSummary` over the stored list. */
    method GetAnalyticsSummary() returns (r: Option<AnalyticsSummary>)
      ensures StoredList(stored) == None ==> r == None
      ensures StoredList(stored).Some? ==> r == Some(SummaryOf(StoredList(stored).value, maxScrollDepth))
    {
      var list := StoredList(stored);
      if list == None {
        return None;
      }
      var es := list.value;
      var breakdown := DeviceBreakdown(es);
      var top := TopPages(es, TopPageCount);
      r := Some(AnalyticsSummary(|es|, CountKind(es, "page_view"), CountKind(es, "click"),
                                 CountKind(es, "form_submission"), AverageTime(es), maxScrollDepth,
                                 breakdown, top));
    }
  }
}
