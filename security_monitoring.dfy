/** The client-side security logger, with its burst detector, and the
    defacement detector that hashes the text of a few critical elements and
    reports when it changes. */
module SecurityMonitoring {
  import opened Optional
  import opened JsString
  import opened JsArray
  import opened Tally

  const MaxLogs: nat := 1000
  /** Entries of one type within this many milliseconds count as a burst. */
  const ThreatWindow: int := 60000
  const ThreatThreshold: nat := 5
  const SuspiciousActivity := "suspicious_activity"

  datatype Details =
    | ContentModification(element: string, originalHash: int, currentHash: int)
    | OtherDetails(description: string)

  /** A log entry; `timestamp` is the clock reading in milliseconds (the
      ISO string the source stores round-trips exactly). */
  datatype LogEntry = LogEntry(timestamp: int, eventType: string, details: Details, sessionId: Option<string>)

  datatype Threat = Threat(eventType: string, count: nat)

  /** The `portfolio_session` slot of session storage: nothing (or an empty
      string), text that is not JSON, JSON `null`, or a parsed value whose
      `sessionId` property may be missing. */
  datatype SessionSlot = NoSession | Unparsable | ParsedNull | Parsed(sessionId: Option<string>)

  /** `getSessionId`. */
  function SessionId(slot: SessionSlot): (r: Option<string>)
    ensures slot == NoSession ==> r == Some("no_session")
    ensures slot == Unparsable || slot == ParsedNull ==> r == Some("unknown")
    ensures slot.Parsed? ==> r == slot.sessionId
  {
    match slot
    case NoSession => Some("no_session")
    case Unparsable => Some("unknown")
    case ParsedNull => Some("unknown")
    case Parsed(id) => id
  }

  /** The entries of type `t` whose timestamp lies less than the window
      before `now`, in order. */
  function Recent(logs: seq<LogEntry>, t: string, now: int): (r: seq<LogEntry>)
    ensures |r| <= |logs|
    ensures forall e :: e in r <==> e in logs && e.eventType == t && now - e.timestamp < ThreatWindow
  {
    if logs == [] then []
    else
      var rest := Recent(logs[1..], t, now);
      assert logs == [logs[0]] + logs[1..];
      if logs[0].eventType == t && now - logs[0].timestamp < ThreatWindow then [logs[0]] + rest else rest
  }

  /** `logs.filter(log => log.eventType === type)` when `type` is truthy,
      otherwise all of `logs`. */
  function OfType(logs: seq<LogEntry>, eventType: Option<string>): (r: seq<LogEntry>)
    ensures |r| <= |logs|
    ensures !Truthy(eventType) ==> r == logs
    ensures Truthy(eventType) ==> forall e :: e in r <==> e in logs && e.eventType == eventType.value
  {
    if !Truthy(eventType) || logs == [] then logs
    else
      var rest := OfType(logs[1..], eventType);
      assert logs == [logs[0]] + logs[1..];
      if logs[0].eventType == eventType.value then [logs[0]] + rest else rest
  }

  /** `getLogs` as written: `filtered.slice(-limit)`. A limit of 0 is
      `slice(-0)`, that is `slice(0)`: the whole list. */
  function GetLogsAsWritten(logs: seq<LogEntry>, eventType: Option<string>, limit: int): (r: seq<LogEntry>)
    ensures limit == 0 ==> r == OfType(logs, eventType)
  {
    SliceFrom(OfType(logs, eventType), -limit)
  }

  /** A single logged entry and a limit of 0 give back one entry. */
  lemma GetLogsZeroLimitReturnsEverything(e: LogEntry)
    ensures |GetLogsAsWritten([e], None, 0)| == 1 > 0
  {
  }

  /** `getLogs` as intended: the most recent `limit` matching entries, in
      their original order, and none for a limit that is not positive. */
  function GetLogs(logs: seq<LogEntry>, eventType: Option<string>, limit: int): (r: seq<LogEntry>)
    ensures limit <= 0 ==> r == []
    ensures limit > 0 ==> |r| == (if |OfType(logs, eventType)| < limit then |OfType(logs, eventType)| else limit)
    ensures r == OfType(logs, eventType)[|OfType(logs, eventType)| - |r|..]
    ensures Truthy(eventType) ==> forall e :: e in r ==> e.eventType == eventType.value
    ensures forall e :: e in r ==> e in logs
  {
    var filtered := OfType(logs, eventType);
    if limit <= 0 then []
    else
      SliceFromNegative(filtered, limit);
      var r := SliceFrom(filtered, -limit);
      assert forall e :: e in r ==> e in filtered;
      r
  }

  /** The two agree on every positive limit. */
  lemma GetLogsAgreesForPositiveLimits(logs: seq<LogEntry>, eventType: Option<string>, limit: int)
    requires limit > 0
    ensures GetLogs(logs, eventType, limit) == GetLogsAsWritten(logs, eventType, limit)
  {
  }

  /** The `securityLogger` object. */
  class SecurityLogger {
    var logs: seq<LogEntry>

    ghost predicate Valid()
      reads this
    {
      |logs| <= MaxLogs
    }

    constructor ()
      ensures Valid() && logs == []
    {
      logs := [];
    }

    /** `checkForThreats`: a burst of the entry's type, counted over the
        whole log, when it has at least five entries in the window. */
    method CheckForThreats(entry: LogEntry, now: int) returns (threat: Option<Threat>)
      ensures threat.Some? <==> |Recent(logs, entry.eventType, now)| >= ThreatThreshold
      ensures threat.Some? ==> threat.value == Threat(entry.eventType, |Recent(logs, entry.eventType, now)|)
    {
      var recent := Recent(logs, entry.eventType, now);
      threat := if |recent| >= ThreatThreshold then Some(Threat(entry.eventType, |recent|)) else None;
    }

    /** `log`: the entry is pushed last, the oldest dropped when the log is
        over `MaxLogs`, and the burst check then runs over the new log, which
        always counts the new entry. The clock is read once, at `now`. */
    method Log(eventType: string, details: Details, now: int, session: SessionSlot) returns (threat: Option<Threat>)
      requires Valid()
      modifies this
      ensures Valid()
      ensures logs == PushShift(old(logs), LogEntry(now, eventType, details, SessionId(session)), MaxLogs)
      ensures LogEntry(now, eventType, details, SessionId(session)) in Recent(logs, eventType, now)
      ensures threat.Some? <==> |Recent(logs, eventType, now)| >= ThreatThreshold
      ensures threat.Some? ==> threat.value == Threat(eventType, |Recent(logs, eventType, now)|)
    {
      var entry := LogEntry(now, eventType, details, SessionId(session));
      logs := logs + [entry];
      if |logs| > MaxLogs {
        logs := logs[1..];
      }
      threat := CheckForThreats(entry, now);
    }
  }

  /** Appends every entry with `log`'s push and shift. */
  function PushAll(logs: seq<LogEntry>, es: seq<LogEntry>): (r: seq<LogEntry>)
    ensures |logs| <= MaxLogs ==> |r| <= MaxLogs
  {
    if es == [] then logs else PushShift(PushAll(logs, es[..|es| - 1]), es[|es| - 1], MaxLogs)
  }

  lemma PushAllSnoc(logs: seq<LogEntry>, es: seq<LogEntry>, e: LogEntry)
    ensures PushAll(logs, es + [e]) == PushShift(PushAll(logs, es), e, MaxLogs)
  {
    assert (es + [e])[..|es|] == es;
  }

  /** An element `createChecksums` tracks: a selector and its name. */
  datatype Critical = Critical(selector: string, name: string)

  const CriticalElements: seq<Critical> :=
    [Critical("title", "page_title"), Critical(".hero-name", "hero_name"), Critical(".nav-brand", "brand")]

  /** `getSelector`: the selector a tracked name was created from. */
  function GetSelector(name: string): (r: Option<string>)
    ensures forall i :: 0 <= i < |CriticalElements| && CriticalElements[i].name == name ==>
      r == Some(CriticalElements[i].selector)
    ensures r.Some? <==> exists i :: 0 <= i < |CriticalElements| && CriticalElements[i].name == name
  {
    if name == "page_title" then assert CriticalElements[0].name == name; Some("title")
    else if name == "hero_name" then assert CriticalElements[1].name == name; Some(".hero-name")
    else if name == "brand" then assert CriticalElements[2].name == name; Some(".nav-brand")
    else None
  }

  /** The 32-bit signed integer `ToInt32(x)` denotes. */
  function ToInt32(x: int): (r: int)
    ensures -0x8000_0000 <= r < 0x8000_0000
  {
    var m := x % 0x1_0000_0000;
    if m >= 0x8000_0000 then m - 0x1_0000_0000 else m
  }

  lemma ToInt32OfCongruent(a: int, b: int)
    requires (a - b) % 0x1_0000_0000 == 0
    ensures ToInt32(a) == ToInt32(b)
  {
    var q := (a - b) / 0x1_0000_0000;
    assert a - b == q * 0x1_0000_0000;
    assert a % 0x1_0000_0000 == b % 0x1_0000_0000;
  }

  /** `(h << 5) - h + unit` wraps to the same 32-bit value as `31 * h + unit`. */
  lemma ShiftStep(h: int, unit: int)
    ensures ToInt32(ToInt32(h * 32) - h + unit) == ToInt32(31 * h + unit)
  {
    var m := (h * 32) % 0x1_0000_0000;
    var q := (h * 32) / 0x1_0000_0000;
    assert h * 32 == q * 0x1_0000_0000 + m;
    var w := ToInt32(h * 32);
    assert w == m || w == m - 0x1_0000_0000;
    var d := if w == m then q else q + 1;
    assert (ToInt32(h * 32) - h + unit) - (31 * h + unit) == -d * 0x1_0000_0000;
    ToInt32OfCongruent(ToInt32(h * 32) - h + unit, 31 * h + unit);
  }

  /** The string hash as a recurrence over UTF-16 code units:
      `h := ToInt32(31 * h + unit)`, starting from 0. */
  function Hash(units: seq<int>): (h: int)
    ensures -0x8000_0000 <= h < 0x8000_0000
    ensures units == [] ==> h == 0
  {
    if units == [] then 0 else ToInt32(31 * Hash(units[..|units| - 1]) + units[|units| - 1])
  }

  function HashOf(text: string): int {
    Hash(CodeUnits(text))
  }

  /** `hashContent`: the loop computes `((h << 5) - h) + unit` and then
      `h & h`, which is the recurrence of `Hash`. */
  method HashContent(text: string) returns (h: int)
    ensures -0x8000_0000 <= h < 0x8000_0000
    ensures h == HashOf(text)
  {
    var units := CodeUnits(text);
    h := 0;
    for i := 0 to |units|
      invariant h == Hash(units[..i])
    {
      assert units[..i + 1][..i] == units[..i];
      var shifted := ToInt32(h * 32);
      ShiftStep(h, units[i]);
      h := ToInt32(shifted - h + units[i]);
    }
    assert units[..|units|] == units;
  }

  /** The page as `querySelector(selector).textContent` sees it: the text of
      the first element matching each selector that matches one. */
  type Document = map<string, string>

  /** The tracked names, in `checksums` key order, whose element is present
      and whose text now hashes differently. */
  function Modified(names: seq<string>, checksums: map<string, int>, doc: Document): (r: seq<string>)
    requires forall n :: n in names ==> n in checksums
  {
    if names == [] then []
    else
      var n := names[|names| - 1];
      assert n in names;
      var p := Modified(names[..|names| - 1], checksums, doc);
      var sel := GetSelector(n);
      if sel.Some? && sel.value in doc && HashOf(doc[sel.value]) != checksums[n] then p + [n] else p
  }

  /** The `content_modification` entries `checkForChanges` logs for `names`. */
  function ModificationEntries(names: seq<string>, checksums: map<string, int>, doc: Document,
                               now: int, session: SessionSlot): (r: seq<LogEntry>)
    requires forall n :: n in names ==> n in checksums
  {
    if names == [] then []
    else
      var n := names[|names| - 1];
      var p := ModificationEntries(names[..|names| - 1], checksums, doc, now, session);
      var sel := GetSelector(n);
      if sel.Some? && sel.value in doc && HashOf(doc[sel.value]) != checksums[n] then
        p + [LogEntry(now, SuspiciousActivity, ContentModification(n, checksums[n], HashOf(doc[sel.value])),
                      SessionId(session))]
      else p
  }

  /** An element is reported exactly when it is tracked, its selector is
      known and present in the page, and its text no longer hashes to the
      stored checksum. */
  lemma {:induction false} ModifiedIsExact(names: seq<string>, checksums: map<string, int>, doc: Document)
    requires forall n :: n in names ==> n in checksums
    ensures forall n :: n in Modified(names, checksums, doc) <==>
      n in names && GetSelector(n).Some? && GetSelector(n).value in doc &&
      HashOf(doc[GetSelector(n).value]) != checksums[n]
    decreases |names|
  {
    if names != [] {
      var n := names[|names| - 1];
      ModifiedIsExact(names[..|names| - 1], checksums, doc);
      assert names == names[..|names| - 1] + [n];
    }
  }

  /** One `content_modification` entry per reported element, in the same
      order, naming that element. */
  lemma {:induction false} EntriesNameTheModified(names: seq<string>, checksums: map<string, int>, doc: Document,
                                                  now: int, session: SessionSlot)
    requires forall n :: n in names ==> n in checksums
    ensures |ModificationEntries(names, checksums, doc, now, session)| == |Modified(names, checksums, doc)|
    ensures forall i :: 0 <= i < |ModificationEntries(names, checksums, doc, now, session)| ==>
      (ModificationEntries(names, checksums, doc, now, session)[i].eventType == SuspiciousActivity &&
       ModificationEntries(names, checksums, doc, now, session)[i].details.ContentModification? &&
       ModificationEntries(names, checksums, doc, now, session)[i].details.element == Modified(names, checksums, doc)[i])
    decreases |names|
  {
    if names != [] {
      EntriesNameTheModified(names[..|names| - 1], checksums, doc, now, session);
    }
  }

  /** What one more name adds to the report and to the entries. */
  lemma ModifiedStep(names: seq<string>, checksums: map<string, int>, doc: Document,
                     now: int, session: SessionSlot, i: nat)
    requires forall n :: n in names ==> n in checksums
    requires i < |names|
    ensures forall n :: n in names[..i] ==> n in checksums
    ensures forall n :: n in names[..i + 1] ==> n in checksums
    ensures var n := names[i];
      var sel := GetSelector(n);
      if sel.Some? && sel.value in doc && HashOf(doc[sel.value]) != checksums[n] then
        Modified(names[..i + 1], checksums, doc) == Modified(names[..i], checksums, doc) + [n] &&
        ModificationEntries(names[..i + 1], checksums, doc, now, session) ==
          ModificationEntries(names[..i], checksums, doc, now, session) +
          [LogEntry(now, SuspiciousActivity, ContentModification(n, checksums[n], HashOf(doc[sel.value])),
                    SessionId(session))]
      else
        Modified(names[..i + 1], checksums, doc) == Modified(names[..i], checksums, doc) &&
        ModificationEntries(names[..i + 1], checksums, doc, now, session) ==
          ModificationEntries(names[..i], checksums, doc, now, session)
  {
    assert names[..i + 1][..i] == names[..i];
    assert names[..i + 1][i] == names[i];
    assert forall n :: n in names[..i + 1] ==> n in names;
  }

  /** The checksums once `createChecksums` has visited the first `k`
      critical elements, starting from `sums`. */
  function Tracked(sums: map<string, int>, doc: Document, k: nat): map<string, int>
    requires k <= |CriticalElements|
  {
    if k == 0 then sums
    else
      var item := CriticalElements[k - 1];
      var c := Tracked(sums, doc, k - 1);
      if item.selector in doc then c[item.name := HashOf(doc[item.selector])] else c
  }

  /** The key order of those checksums: a name joins the end when it is
      first stored. */
  function TrackedNames(names: seq<string>, sums: map<string, int>, doc: Document, k: nat): seq<string>
    requires k <= |CriticalElements|
  {
    if k == 0 then names
    else
      var item := CriticalElements[k - 1];
      var n := TrackedNames(names, sums, doc, k - 1);
      if item.selector in doc && item.name !in Tracked(sums, doc, k - 1) then n + [item.name] else n
  }

  lemma DistinctCriticalNames()
    ensures forall i, j :: 0 <= i < j < |CriticalElements| ==> CriticalElements[i].name != CriticalElements[j].name
  {
    assert CriticalElements[0].name == "page_title";
    assert CriticalElements[1].name == "hero_name";
    assert CriticalElements[2].name == "brand";
  }

  /** Every visited element that is present has the hash of its text stored
      under its name. */
  lemma {:induction false} TrackedRecordsThePage(sums: map<string, int>, doc: Document, k: nat)
    requires k <= |CriticalElements|
    ensures forall i :: 0 <= i < k && CriticalElements[i].selector in doc ==>
      CriticalElements[i].name in Tracked(sums, doc, k) &&
      Tracked(sums, doc, k)[CriticalElements[i].name] == HashOf(doc[CriticalElements[i].selector])
  {
    if k > 0 {
      TrackedRecordsThePage(sums, doc, k - 1);
      DistinctCriticalNames();
    }
  }

  /** A name no present element carries keeps its checksum, and no name
      other than those of present elements is added. */
  lemma {:induction false} TrackedKeepsTheRest(sums: map<string, int>, doc: Document, k: nat, n: string)
    requires k <= |CriticalElements|
    requires forall i :: 0 <= i < k ==> CriticalElements[i].name != n || CriticalElements[i].selector !in doc
    ensures n in Tracked(sums, doc, k) <==> n in sums
    ensures n in sums ==> Tracked(sums, doc, k)[n] == sums[n]
  {
    if k > 0 {
      TrackedKeepsTheRest(sums, doc, k - 1, n);
    }
  }

  /** The names stay exactly the keys of the checksums, each once. */
  lemma {:induction false} TrackedNamesFollowKeys(names: seq<string>, sums: map<string, int>, doc: Document, k: nat)
    requires k <= |CriticalElements|
    requires (forall n :: n in sums <==> n in names) && NoDuplicates(names)
    ensures forall n :: n in Tracked(sums, doc, k) <==> n in TrackedNames(names, sums, doc, k)
    ensures NoDuplicates(TrackedNames(names, sums, doc, k))
  {
    if k > 0 {
      TrackedNamesFollowKeys(names, sums, doc, k - 1);
    }
  }

  /** The `defacementDetector` object. `names` is the key order of
      `checksums`. */
  class DefacementDetector {
    var checksums: map<string, int>
    var names: seq<string>

    ghost predicate Valid()
      reads this
    {
      (forall n :: n in checksums <==> n in names) && NoDuplicates(names)
    }

    constructor ()
      ensures Valid() && checksums == map[] && names == []
    {
      checksums := map[];
      names := [];
    }

    /** `createChecksums`: visits the critical elements in order and stores
        the hash of each present element's text under its name. */
    method CreateChecksums(doc: Document)
      requires Valid()
      modifies this
      ensures Valid()
      ensures checksums == Tracked(old(checksums), doc, |CriticalElements|)
      ensures names == TrackedNames(old(names), old(checksums), doc, |CriticalElements|)
    {
      TrackedNamesFollowKeys(names, checksums, doc, |CriticalElements|);
      ghost var sums0, names0 := checksums, names;
      for k := 0 to |CriticalElements|
        invariant checksums == Tracked(sums0, doc, k)
        invariant names == TrackedNames(names0, sums0, doc, k)
      {
        var item := CriticalElements[k];
        if item.selector in doc {
          var h := HashContent(doc[item.selector]);
          if item.name !in checksums {
            names := names + [item.name];
          }
          checksums := checksums[item.name := h];
        }
      }
    }

    /** `checkForChanges`, with its loop closed as intended: walks the names
        in key order and logs one `content_modification` entry for each
        tracked element that is present and whose text hashes differently,
        and no other entry. */
    method CheckForChanges(doc: Document, logger: SecurityLogger, now: int, session: SessionSlot)
        returns (reported: seq<string>)
      requires Valid() && logger.Valid()
      modifies logger
      ensures logger.Valid()
      ensures reported == Modified(names, checksums, doc)
      ensures logger.logs == PushAll(old(logger.logs), ModificationEntries(names, checksums, doc, now, session))
    {
      reported := [];
      for i := 0 to |names|
        invariant logger.Valid()
        invariant Valid()
        invariant reported == Modified(names[..i], checksums, doc)
        invariant logger.logs == PushAll(old(logger.logs), ModificationEntries(names[..i], checksums, doc, now, session))
      {
        var name := names[i];
        ModifiedStep(names, checksums, doc, now, session, i);
        var selector := GetSelector(name);
        if selector.Some? && selector.value in doc {
          var current := HashContent(doc[selector.value]);
          if current != checksums[name] {
            PushAllSnoc(old(logger.logs), ModificationEntries(names[..i], checksums, doc, now, session),
                        LogEntry(now, SuspiciousActivity, ContentModification(name, checksums[name], current),
                                 SessionId(session)));
            var _ := logger.Log(SuspiciousActivity, ContentModification(name, checksums[name], current), now, session);
            reported := reported + [name];
          }
        }
      }
      assert names[..|names|] == names;
    }
  }
}
