/** The Express audit server: events are appended to a JSON file that is cut
    back to its 10000 most recent events on every save, and a statistics
    report is computed from the file. */
module AuditBackend {
  import opened Optional
  import opened JsArray
  import opened Tally
  import opened AuditEvent
  import opened AuditStats
  import opened AuditStore

  const MaxLogSize: nat := 10000
  const RecentCount: nat := 10
  const TopPageCount: nat := 10

  /** The log file as `loadLogs` finds it: missing, unreadable or not valid
      JSON, valid JSON that is not a list, or a list of events. */
  datatype LogFile = NoFile | Unreadable | NotAList | Saved(logs: seq<Event>)

  /** `loadLogs`: a missing or unreadable file reads as `[]`; a JSON value
      that is not a list is returned as it is, and the first list operation
      on it throws (`None`). */
  function Load(f: LogFile): (r: Option<seq<Event>>)
    ensures r == None <==> f == NotAList
    ensures f.Saved? ==> r == Some(f.logs)
    ensures f == NoFile || f == Unreadable ==> r == Some([])
  {
    match f
    case NoFile => Some([])
    case Unreadable => Some([])
    case NotAList => None
    case Saved(logs) => Some(logs)
  }

  /** How `fs.writeFileSync` ends. It opens the file with flag `'w'`, which
      truncates it: a failure before the open leaves the file as it was, and a
      failure after it (a full disk, an I/O error) leaves empty or partial
      JSON text, which `loadLogs` cannot parse. */
  datatype WriteOutcome = Written | NotOpened | FailedAfterTruncating

  datatype PostResponse = EventLogged | SaveFailed | PostError

  datatype DeviceCounts = DeviceCounts(desktop: nat, mobile: nat, tablet: nat)

  datatype Stats = Stats(
    totalEvents: nat,
    pageViews: nat,
    uniqueSessions: nat,
    clicks: nat,
    formSubmissions: nat,
    devices: DeviceCounts,
    topPages: seq<Entry>,
    recentEvents: seq<Event>,
    first: Option<string>,
    last: Option<string>)

  /** The report of `GET /api/audit/stats` over the loaded events. */
  function StatsFor(logs: seq<Event>): Stats {
    Stats(|logs|,
          CountKind(logs, "page_view"),
          |ValueSet(SessionIds(logs))|,
          CountKind(logs, "click"),
          CountKind(logs, "form_submission"),
          DeviceCounts(CountOf(DeviceTypes(logs), "desktop"),
                       CountOf(DeviceTypes(logs), "mobile"),
                       CountOf(DeviceTypes(logs), "tablet")),
          Ranking(PageViewPaths(logs), TopPageCount),
          Reverse(SliceFrom(logs, -(RecentCount as int))),
          if |logs| > 0 then logs[0].timestamp else None,
          if |logs| > 0 then logs[|logs| - 1].timestamp else None)
  }

  /** The statistics, with the top pages counted by a loop. */
  method ComputeStats(logs: seq<Event>) returns (s: Stats)
    ensures s == StatsFor(logs)
  {
    var top := TopPages(logs, TopPageCount);
    var devices := DeviceTypes(logs);
    s := Stats(|logs|,
               CountKind(logs, "page_view"),
               |ValueSet(SessionIds(logs))|,
               CountKind(logs, "click"),
               CountKind(logs, "form_submission"),
               DeviceCounts(CountOf(devices, "desktop"), CountOf(devices, "mobile"), CountOf(devices, "tablet")),
               top,
               Reverse(SliceFrom(logs, -(RecentCount as int))),
               if |logs| > 0 then logs[0].timestamp else None,
               if |logs| > 0 then logs[|logs| - 1].timestamp else None);
  }

  /** The report is consistent: the three event kinds and the three device
      types together count no event twice, there are no more distinct
      sessions than events, the top pages are at most ten and sorted. */
  lemma StatsCountsAreBounded(logs: seq<Event>)
    ensures StatsFor(logs).totalEvents == |logs|
    ensures StatsFor(logs).pageViews + StatsFor(logs).clicks + StatsFor(logs).formSubmissions <= |logs|
    ensures StatsFor(logs).devices.desktop + StatsFor(logs).devices.mobile + StatsFor(logs).devices.tablet <= |logs|
    ensures StatsFor(logs).uniqueSessions <= |logs|
    ensures |StatsFor(logs).topPages| <= TopPageCount && SortedDesc(StatsFor(logs).topPages)
  {
    CountsOfDistinctValuesBounded(Kinds(logs), "page_view", "click", "form_submission");
    CountsOfDistinctValuesBounded(DeviceTypes(logs), "desktop", "mobile", "tablet");
    ValueSetBounded(SessionIds(logs));
    RankingIsSortedCounts(PageViewPaths(logs), TopPageCount);
  }

  /** The recent events are the last ten (or all, when fewer), newest first,
      and the time range is that of the first and the last stored event. */
  lemma StatsRecentAndRange(logs: seq<Event>)
    ensures |StatsFor(logs).recentEvents| == (if |logs| < RecentCount then |logs| else RecentCount)
    ensures forall i :: 0 <= i < |StatsFor(logs).recentEvents| ==> StatsFor(logs).recentEvents[i] == logs[|logs| - 1 - i]
    ensures logs == [] ==> StatsFor(logs).first == None && StatsFor(logs).last == None
    ensures logs != [] ==> StatsFor(logs).first == logs[0].timestamp && StatsFor(logs).last == logs[|logs| - 1].timestamp
  {
    SliceFromNegative(logs, RecentCount);
  }

  /** The server's log file. */
  class AuditServer {
    var file: LogFile

    constructor (file: LogFile)
      ensures this.file == file
    {
      this.file := file;
    }

    /** `saveLogs`: writes the most recent `MaxLogSize` events; `write` says
        how the file system handled the write. Only a completed write
        answers true. */
    method SaveLogs(logs: seq<Event>, write: WriteOutcome) returns (ok: bool)
      modifies this
      ensures ok <==> write == Written
      ensures write == Written ==> file == Saved(Retain(logs, MaxLogSize))
      ensures write == NotOpened ==> file == old(file)
      ensures write == FailedAfterTruncating ==> file == Unreadable
    {
      var kept := logs;
      if |kept| > MaxLogSize {
        SliceFromNegative(kept, MaxLogSize);
        kept := SliceFrom(kept, -(MaxLogSize as int));
      }
      match write {
        case Written => file := Saved(kept);
        case NotOpened =>
        case FailedAfterTruncating => file := Unreadable;
      }
      ok := write == Written;
    }

    /** `POST /api/audit`: stamp the event, load the file, push the event
        last and save. Without any client address `hashIP(undefined)` throws,
        and so does pushing onto a file that is not a list. */
    method Post(event: Event, headers: Headers, socket: Option<string>, now: string,
                hash: string -> IpHash, write: WriteOutcome) returns (res: PostResponse)
      modifies this
      ensures ClientIpExpress(headers, socket) == None || Load(old(file)) == None ==>
        res == PostError && file == old(file)
      ensures ClientIpExpress(headers, socket).Some? && Load(old(file)).Some? ==>
        var stamped := Stamp(event, now, ClientIpExpress(headers, socket).value, hash, headers);
        (write == Written ==> res == EventLogged && file == Saved(Retain(Load(old(file)).value + [stamped], MaxLogSize))) &&
        (write == NotOpened ==> res == SaveFailed && file == old(file)) &&
        (write == FailedAfterTruncating ==> res == SaveFailed && file == Unreadable && Load(file) == Some([]))
    {
      var ip := ClientIpExpress(headers, socket);
      if ip == None {
        return PostError;
      }
      var stamped := Stamp(event, now, ip.value, hash, headers);
      var loaded := Load(file);
      if loaded == None {
        return PostError;
      }
      var logs := loaded.value + [stamped];
      var ok := SaveLogs(logs, write);
      res := if ok then EventLogged else SaveFailed;
    }

    /** `GET /api/audit/stats`: the report over the loaded events, or a server
        error when the file does not hold a list. */
    method GetStats() returns (res: Option<Stats>)
      ensures Load(file) == None ==> res == None
      ensures Load(file).Some? ==> res == Some(StatsFor(Load(file).value))
    {
      var loaded := Load(file);
      if loaded == None {
        return None;
      }
      var s := ComputeStats(loaded.value);
      res := Some(s);
    }
  }
}
