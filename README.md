# Audit trail and client-side security helpers of a portfolio site

This project models the logic of the site's analytics and security scripts
in Dafny and proves what they promise. Each core source file becomes one
module:

- `AuditEvent`, `AuditStore`, `AuditStats`, `AuditServerless` and
  `AuditBackend` model the servers. There are two serverless audit
  functions (`api/audit/index.js`, `api/audit.js`) and an Express server
  (`backend/audit-api.js`). They share:
  - the client-IP resolution and the `server` stamp;
  - the bounded store that keeps the most recent events in order;
  - the summary (event count, distinct visitors, counts per `eventType`);
  - the stats report with its top-page ranking.
- `AuditClient` models the browser collector `js/audit-trail.js`. It
  covers:
  - the `AuditTrail` class and its local-storage mirror capped at 100 by
    push and shift;
  - the rounded average time;
  - the device breakdown and the top five pages;
  - the milestone logic of the scroll tracker.
- `SecurityMonitoring` models `security/security-monitoring.js`. It covers:
  - the security logger capped at 1000, with its burst detector;
  - the 32-bit string hash;
  - the defacement detector that records and re-checks the text of three
    elements.
- `FileSecurity` models `security/file-security.js`. It covers:
  - the file-name predicates (extension, allow and block lists, double
    extension, null bytes, path traversal);
  - the sanitiser;
  - `validateFile`, the magic-byte content check and the validation part
    of `secureFileUpload`.
- `AuthSecurity` models `security/auth-security.js`. It covers:
  - the password policy and strength score;
  - the login limiter, a state machine per user;
  - the session manager with its thirty-minute timeout;
  - the steps of `secureLogin` around the backend call.
- `SiteScript` models `js/script.js`. It covers:
  - the HTML escaping done by `sanitizeHTML`/`escapeHTML`;
  - the three form validators and the submission rate limiter;
  - the attribute blocklist;
  - the trusted-host test of `isValidURL`.
- `Optional`, `JsString`, `JsArray` and `Tally` hold what several modules
  share:
  - JavaScript's `||` on optional values;
  - `trim`, `toLowerCase`, `indexOf`, `split` and `slice` with negative
    indices;
  - UTF-16 lengths;
  - a counting dictionary and a stable sort by count.

Objects whose fields the source updates are classes with `modifies`
clauses: `EventStore`, `AuditServer`, `AuditTrail`, `SecurityLogger`,
`DefacementDetector`, `LoginLimiter`, `SessionManager`, `RateLimiter` and
`Element`. Loops of the source are methods with loop invariants, each proved
equal to a specification function. Those functions carry the lemmas.

Some things are parameters:
- the clock (`now`), the SHA-256 address hash (`hash`), random tokens, the
  backend's login reply and the result of a file write;
- storage, as a datatype of the states a stored item can be in.

## Model

| member | source | states |
|---|---|---|
| AuditEvent.ForwardedFor | api/audit/index.js:11 | the text before the first comma of `x-forwarded-for` (all of the header when there is no comma), and nothing when the header is absent |
| AuditEvent.ClientIpWithSocket | api/audit/index.js:10-15 | the precedence is: forwarded address, then `x-real-ip`, then the socket address, then `'unknown'`; an empty value counts as absent at every step, so the result is never empty |
| AuditEvent.ClientIpHeadersOnly | api/audit.js:12-16 | the same precedence without the socket step; never empty |
| AuditEvent.ClientIpExpress | backend/audit-api.js:37-41 | the same precedence with the socket address last and no default, so the result can be empty or absent |
| AuditEvent.Stamp | api/audit/index.js:37-43 | `server` is replaced. Its `ip` is the resolved address and its `ipHash` is the hash of that same address. The user agent comes from `user-agent` and the referer from `referer` or else `referrer`. Every other property is unchanged |
| AuditStore.Retain | api/audit/index.js:48-50 | cutting back with `slice(-cap)` gives the last `min(n, cap)` events, in their order |
| AuditStore.AppendAllKeepsTheMostRecent | api/audit/index.js:45-50 | after any number of posts the store is the last `cap` of all events ever posted, oldest first |
| AuditStore.RetainSuffix | api/audit.js:47-52 | cutting back early and then appending more gives the same store as cutting back once at the end |
| AuditStore.EventStore.constructor | api/audit/index.js:3 | the store starts empty |
| AuditStore.EventStore.Append | api/audit/index.js:45-50 | the new event is last. The store holds at most `capacity` events. Only the oldest event is dropped, and only when the store was full. The returned total is the new length |
| AuditStore.EventStore.Clear | api/audit/index.js:82 | the store is empty |
| AuditStats.CountOf | backend/audit-api.js:117 | `filter(e => e === v).length` is at most the length, and positive exactly when `v` occurs |
| AuditStats.CountsOfDistinctValuesBounded | backend/audit-api.js:115-127 | counts for three different values add up to at most the number of events |
| AuditStats.ValueSetBounded | api/audit/index.js:66 | a `Set` built from a list has no more members than the list, and at least one when the list is not empty |
| AuditStats.PagePath | backend/audit-api.js:171 | `e.page?.path \|\| '/'`: the page path if it is truthy, otherwise `'/'`; never empty |
| AuditStats.PageViewPaths | backend/audit-api.js:167-171 | exactly one path per `page_view` event, and only paths of `page_view` events |
| AuditStats.Summarize | api/audit/index.js:65-78 | `totalEvents` is the store length. `uniqueVisitors` is the number of distinct `visitorId` values and at most `totalEvents`. Every type key appears once, with its exact count, in first-seen order. The counts add up to `totalEvents` (for type keys that are not inherited `Object.prototype` names, see Left out) |
| AuditStats.TopPages | backend/audit-api.js:166-179 | the counting loop, the sort and the cut equal the ranking of the page-view paths, for keys that are not inherited `Object.prototype` names |
| AuditStats.PageCountsSumToPageViews | backend/audit-api.js:167-173 | before the cut, the page counts add up to the number of `page_view` events, for keys that are not inherited `Object.prototype` names |
| AuditStats.TopPagesAreTheMostViewed | backend/audit-api.js:175-178 | at most `limit` pages, sorted by non-increasing count. A viewed page that is missing means the list is full and every listed page has at least its count, for keys that are not inherited `Object.prototype` names |
| AuditServerless.Action | api/audit/index.js:29 | `query.action \|\| ''` |
| AuditServerless.QueryRoute | api/audit/index.js:24-103 | each route is taken for exactly one method and action. Every other combination is refused |
| AuditServerless.RoutingPath | api/audit.js:31 | the path segments joined with `/`, or `''` when there is no path. A non-empty single string has no `join` and fails |
| AuditServerless.PathRoute | api/audit.js:26-94 | each route is taken for exactly one method and path. Anything else gets the info object, so no request is refused |
| AuditServerless.HandleQueryRouted | api/audit/index.js:17-112 | A POST stores the stamped event (at most 1000 kept, most recent last) and answers with the new total. A body that is not an object is an error. `events` lists the store newest first. `summary` is the summary of the store. `clear` empties it. A GET without an action gives the info with the current length. Anything else is a 405. Only POST and clear change the store |
| AuditServerless.HandlePathRouted | api/audit.js:19-100 | the same, routed on the path: no socket fallback for the IP, no total in the answer, and the info object for every other request. A primitive body is stored as a property-less event. Only POST and clear change the store |
| AuditBackend.Load | backend/audit-api.js:44-54 | a missing or unreadable file reads as `[]`. A saved list is returned. Valid JSON that is not a list makes the caller fail |
| AuditBackend.ComputeStats | backend/audit-api.js:112-140 | the report computed with the counting loop is the stats function of the loaded events |
| AuditBackend.StatsCountsAreBounded | backend/audit-api.js:115-130 | `totalEvents` is the number of events. Page views, clicks and form submissions together are at most that, and so are desktop, mobile and tablet. There are no more sessions than events. At most ten top pages, sorted, for keys that are not inherited `Object.prototype` names |
| AuditBackend.StatsRecentAndRange | backend/audit-api.js:133-139 | the recent events are the last `min(10, n)`, newest first. The time range is the timestamps of the first and last event, and absent without events |
| AuditBackend.AuditServer.constructor | backend/audit-api.js:16 | the server starts on the given file |
| AuditBackend.AuditServer.SaveLogs | backend/audit-api.js:57-70 | a completed write stores the most recent 10000 events in order and answers true. A write that fails before the file is opened changes nothing. One that fails after the truncating open leaves a file that reads as `[]`. Both answer false |
| AuditBackend.AuditServer.Post | backend/audit-api.js:73-107 | The event is stamped with the resolved address and pushed after the loaded events, then saved. If no address resolves, or the file holds no list, the answer is an error and nothing changes. A failed save answers an error, with the file unchanged or, after the truncating open, reading as `[]` |
| AuditBackend.AuditServer.GetStats | backend/audit-api.js:110-148 | the report over the loaded events, or an error when the file holds no list |
| AuditClient.PushShiftIsRetain | js/audit-trail.js:487-495 | within the limit, one push and one `shift` keep exactly the servers' most recent 100 |
| AuditClient.PushShiftOverLimit | js/audit-trail.js:491-493 | a single `shift` does not cut back a list already over the limit |
| AuditClient.StoredList | js/audit-trail.js:535-541 | the stored list, `[]` when nothing is stored or it does not parse, and a failure when it holds no list |
| AuditClient.AverageTime | js/audit-trail.js:566-572 | 0 without `page_exit` events. Otherwise the sum of their durations (missing counts as 0) divided by their number, rounded to the nearest integer, halves up |
| AuditClient.RoundingIsUnique | js/audit-trail.js:571 | at most one integer lies within half of the divisor of the doubled total |
| AuditClient.AverageTimeIsNearest | js/audit-trail.js:571 | the rounded average is the only integer within half a second of the exact mean |
| AuditClient.DeviceType | js/audit-trail.js:219-224 | `mobile` exactly when the mobile pattern matches case-insensitively. `tablet` exactly when only the tablet pattern matches. `desktop` otherwise |
| AuditClient.PageViewDevices | js/audit-trail.js:576-580 | one device type per `page_view` event |
| AuditClient.OtherTypes | js/audit-trail.js:581 | the device types that are none of the three counters |
| AuditClient.DevicesArePartitioned | js/audit-trail.js:577-582 | every device type is counted once, by a counter or as another key |
| AuditClient.OnlyKnownDevices | js/audit-trail.js:577-582 | device types of the three kinds add no other key |
| AuditClient.BreakdownCountsPageViews | js/audit-trail.js:575-585 | for device types that `getDeviceType` can produce, the three counters add up to the number of page views and no other key appears |
| AuditClient.BreakdownStep | js/audit-trail.js:581 | one `breakdown[type]++` raises a counter or adds a new key |
| AuditClient.DeviceBreakdown | js/audit-trail.js:575-585 | the `forEach` loop computes the breakdown of the page-view device types |
| AuditClient.SummaryIsConsistent | js/audit-trail.js:553-562 | `totalEvents` is the stored length. Page views, clicks and form submissions together are at most that. At most five top pages, sorted |
| AuditClient.AuditTrail.constructor | js/audit-trail.js:25-31 | no events in memory, a scroll maximum of 0, and storage as found |
| AuditClient.AuditTrail.LogEvent | js/audit-trail.js:482-504 | the in-memory list grows by the event, and the stored slot becomes `StoredAfter` of the old slot, the event and whether `setItem` succeeds |
| AuditClient.StoredAfter | js/audit-trail.js:485-500 | one event written to the stored slot: an empty slot becomes the one event, and a stored list gets it with one `shift` over 100. A slot that does not parse or holds no list, and every slot when `setItem` throws, is left as it was |
| AuditClient.StoredAfterKeepsTheMostRecent | js/audit-trail.js:487-497 | a stored list within 100 stays within 100, and after a successful write it is the most recent 100 of the old list and the event |
| AuditClient.AuditTrail.ClearStoredEvents | js/audit-trail.js:544-547 | both the stored list and the in-memory list are empty |
| AuditClient.AuditTrail.TrackScrollDepth | js/audit-trail.js:299-315 | the maximum never decreases and becomes the new percentage when that is larger. A `scroll_depth` event is logged exactly when the percentage is a new maximum and one of 25, 50, 75 and 100, and then the stored slot is `StoredAfter` of the old slot, that event and the write's outcome |
| AuditClient.AuditTrail.GetAnalyticsSummary | js/audit-trail.js:550-563 | the summary of the stored list, or a failure when storage holds no list |
| SecurityMonitoring.SessionId | security/security-monitoring.js:59-69 | `'no_session'` with nothing stored. `'unknown'` when the item does not parse or is `null`. Otherwise the stored `sessionId`, which may be absent |
| SecurityMonitoring.Recent | security/security-monitoring.js:99-102 | exactly the entries of the type whose timestamps lie less than 60000 ms before now |
| SecurityMonitoring.OfType | security/security-monitoring.js:128-132 | all entries when no type is given, otherwise exactly those of the type |
| SecurityMonitoring.GetLogsAsWritten | security/security-monitoring.js:127-135 | as written, a limit of 0 returns every matching entry |
| SecurityMonitoring.GetLogsZeroLimitReturnsEverything | security/security-monitoring.js:134 | with one entry logged, a limit of 0 returns that entry |
| SecurityMonitoring.GetLogs | security/security-monitoring.js:127-135 | at most `limit` entries, all of the given type, the most recent matches in their order; none for a limit that is not positive. The defaults `type = null` and `limit = 100` are the arguments `None` and 100 |
| SecurityMonitoring.GetLogsAgreesForPositiveLimits | security/security-monitoring.js:134 | for every positive limit the intended and the written version agree |
| SecurityMonitoring.SecurityLogger.constructor | security/security-monitoring.js:8 | the log starts empty |
| SecurityMonitoring.SecurityLogger.CheckForThreats | security/security-monitoring.js:97-108 | a threat is raised exactly when five or more entries of the type lie within 60000 ms, and it reports their number |
| SecurityMonitoring.SecurityLogger.Log | security/security-monitoring.js:27-56 | the entry is pushed last and the oldest is shifted out over 1000. The burst check then runs over the new log, which always counts the new entry |
| SecurityMonitoring.PushAll | security/security-monitoring.js:39-44 | repeated logging keeps a log within 1000 entries |
| SecurityMonitoring.PushAllSnoc | security/security-monitoring.js:39-44 | logging one more entry is one more push and shift |
| SecurityMonitoring.GetSelector | security/security-monitoring.js:317-324 | every tracked name maps to the selector its checksum was created from, and only the three names map to anything. Names are only ever the checksum keys, never inherited `Object.prototype` names |
| SecurityMonitoring.ToInt32 | security/security-monitoring.js:275 | the signed 32-bit value of an integer |
| SecurityMonitoring.ToInt32OfCongruent | security/security-monitoring.js:274-275 | numbers equal modulo 2^32 have the same 32-bit value |
| SecurityMonitoring.ShiftStep | security/security-monitoring.js:274-275 | `((h << 5) - h) + c` followed by `h & h` is `ToInt32(31 * h + c)` |
| SecurityMonitoring.Hash | security/security-monitoring.js:270-278 | the hash is a 32-bit signed integer, and 0 for the empty text |
| SecurityMonitoring.HashContent | security/security-monitoring.js:270-278 | the loop over the UTF-16 code units computes the recurrence `h := ToInt32(31 * h + unit)` from 0 |
| SecurityMonitoring.ModifiedIsExact | security/security-monitoring.js:288-312 | a name is reported exactly when it is tracked, its element is present and its text hashes differently from the checksum |
| SecurityMonitoring.EntriesNameTheModified | security/security-monitoring.js:297-305 | one `content_modification` entry per reported name, in the same order, naming it |
| SecurityMonitoring.ModifiedStep | security/security-monitoring.js:289-312 | what one more tracked name adds to the report and to the log |
| SecurityMonitoring.DistinctCriticalNames | security/security-monitoring.js:255-259 | the three critical elements have different names |
| SecurityMonitoring.TrackedRecordsThePage | security/security-monitoring.js:261-266 | after `createChecksums` every present element's text hash is stored under its name |
| SecurityMonitoring.TrackedKeepsTheRest | security/security-monitoring.js:261-266 | no other checksum is added or changed |
| SecurityMonitoring.TrackedNamesFollowKeys | security/security-monitoring.js:261-266 | the key order lists every checksum name exactly once |
| SecurityMonitoring.DefacementDetector.constructor | security/security-monitoring.js:245 | no checksums at first |
| SecurityMonitoring.DefacementDetector.CreateChecksums | security/security-monitoring.js:254-267 | the loop over the critical elements stores the hash of each present element's text under its name, in key order |
| SecurityMonitoring.DefacementDetector.CheckForChanges | security/security-monitoring.js:288-314 | it reports, and logs one entry for, exactly the tracked elements that are present and changed, in key order. The log stays within 1000 |
| FileSecurity.ShiftSelectsTextAfterLastDot | security/file-security.js:82-84 | for every name shorter than 2^32, the `>>> 0` expression selects exactly the lower-cased text after the last dot, and `''` when there is no dot or the only dot is first |
| FileSecurity.ExtensionStart | security/file-security.js:83 | the unsigned shift maps positions -2 and -1 past the end and keeps every other position |
| FileSecurity.FileExtensionEmpty | security/file-security.js:82-84 | the extension is empty exactly when there is no dot, the only dot is first, or the name ends with its last dot |
| FileSecurity.BlockListIsRedundant | security/file-security.js:87-97 | with the missing dot added, an extension is allowed exactly when it is on the allow list; the block list never changes the answer |
| FileSecurity.AllowedIsNotBlocked | security/file-security.js:15-22 | no allowed extension is blocked |
| FileSecurity.MimeTypeInSomeList | security/file-security.js:100-108 | a MIME type is allowed exactly when it is in the image, the document or the archive list |
| FileSecurity.HasDoubleExtension | security/file-security.js:111-122 | true exactly when the name has more than two dot parts and some part before the last, lower-cased and dotted, is blocked |
| FileSecurity.TraversalIsSomePattern | security/file-security.js:130-133 | `hasPathTraversal` is true exactly when one of the six patterns occurs in the lower-cased name |
| FileSecurity.DotFreeNamesAreNotTraversal | security/file-security.js:130-133 | a name without `.` or `%` never trips the check |
| FileSecurity.LineEnd | security/file-security.js:138 | the first line terminator, up to which `^.*` matches |
| FileSecurity.LastSeparatorBefore | security/file-security.js:138 | the last `/` or `\` on that line, which the greedy match ends at |
| FileSecurity.StripPath | security/file-security.js:138 | the result is a suffix of the name with no `/` or `\` before its first line terminator, and a name with no separator on its first line is kept whole. When something is cut, the character just before the result is a separator on the first line, so the cut falls at the last separator there |
| FileSecurity.LineEndOfSuffix | security/file-security.js:138 | cutting off part of the first line moves its end by the same amount |
| FileSecurity.StripPathIsIdempotent | security/file-security.js:138 | stripping the path a second time removes nothing more |
| FileSecurity.ReplaceUnsafe | security/file-security.js:141 | the result has only letters, digits, `.`, `_` and `-`. It has one character per UTF-16 code unit. A safe name is unchanged |
| FileSecurity.CollapseDots | security/file-security.js:144 | every run of dots becomes one dot: no two dots are adjacent, only dots are removed (the text without dots is the same), a name without a run of dots is kept, and safe text stays safe |
| FileSecurity.LimitLength | security/file-security.js:147-151 | intended: names of up to 255 characters are unchanged, longer names come out with exactly 255 characters and a dot, and safe names stay safe |
| FileSecurity.LimitLengthKeepsTheExtension | security/file-security.js:147-151 | intended: a long name whose extension has fewer than 255 characters keeps its start and ends with `.` and the extension |
| FileSecurity.KeepExtension | security/file-security.js:149-150 | intended: the start of a long name, a dot and an extension shorter than 255 make exactly 255 characters, safe when the parts are |
| FileSecurity.KeepExtensionEnds | security/file-security.js:149-150 | intended: that name ends with `.` and the extension and starts like the original |
| FileSecurity.DotAndExtensionStart | security/file-security.js:149-150 | intended: for an extension of 255 or more characters, a dot and its first 254 characters, 255 in all |
| FileSecurity.CutKeepsTheExtension | security/file-security.js:149-150 | for an extension shorter than 255 the written cut and the intended one give the same name |
| FileSecurity.LimitLengthAsWritten | security/file-security.js:147-151 | as written: names of up to 255 characters are unchanged. A longer name gets exactly 255 characters when its extension is shorter than 255, and grows by 255 characters otherwise. Safe names stay safe |
| FileSecurity.CutAndExtend | security/file-security.js:149-150 | as written, `${name.slice(0, 255 - ext.length - 1)}.${ext}` has 255 characters for an extension shorter than 255 and grows the name by 255 otherwise, and stays safe |
| FileSecurity.LongExtensionGrowsTheName | security/file-security.js:149-150 | as written, `a.` followed by 300 `b`, 302 characters, comes out with 557 |
| FileSecurity.LimitLengthVersionsAgree | security/file-security.js:147-151 | for extensions shorter than 255 characters the written and the intended step agree |
| FileSecurity.ExtensionIsShorter | security/file-security.js:82-84 | a non-empty extension leaves room for at least one character and the dot |
| FileSecurity.Collapsed | security/file-security.js:136-144 | after steps 1 to 3 the name has only safe characters and no two adjacent dots |
| FileSecurity.CleanedAsWritten | security/file-security.js:136-151 | as written, steps 1 to 4 also leave only safe characters |
| FileSecurity.ExtensionIsSafe | security/file-security.js:82-84 | the extension of a safe name is safe |
| FileSecurity.Cleaned | security/file-security.js:136-151 | intended: after steps 1 to 4 the name has only safe characters and at most 255 of them |
| FileSecurity.CleanInSteps | security/file-security.js:136-151 | the four reassignments compute the cleaned name |
| FileSecurity.DotlessNamesAreShort | security/file-security.js:147-151 | intended: a cleaned name without a dot was never shortened, so it is the name after steps 1 to 3 |
| FileSecurity.SanitizeDropsLastCharacter | security/file-security.js:155-158 | as written, a plain name without a dot loses its last character (`README` becomes `READM_<t>.`), unlike the intended version |
| FileSecurity.AddTimestampEnds | security/file-security.js:154-158 | intended: the stamped name ends with `_<timestamp>.<extension>` |
| FileSecurity.AddTimestampKeepsSafe | security/file-security.js:154-158 | intended: a safe name with a safe extension stays safe when stamped |
| FileSecurity.SanitizeFilenameInSteps | security/file-security.js:136-159 | the reassignments of `sanitizeFilename` compute the intended sanitised name |
| FileSecurity.SanitizedNameIsSafe | security/file-security.js:136-159 | intended: the sanitised name has only letters, digits, `.`, `_` and `-`, so no path separator, and ends with `_<timestamp>.<extension>` |
| FileSecurity.SanitizeKeepsDotlessNames | security/file-security.js:155-158 | intended: a cleaned name without a dot keeps every character and gets `_<timestamp>.` |
| FileSecurity.ErrorsFrom | security/file-security.js:44-73 | at most six errors, and none exactly when every check passes |
| FileSecurity.ExpectedErrors | security/file-security.js:35-78 | a missing file gives exactly the one error `No file provided`, and a present file at most six |
| FileSecurity.ValidMeansEveryCheckPasses | security/file-security.js:44-78 | a present file has no error exactly when its size, extension, double-extension, MIME, null-byte and traversal checks all pass |
| FileSecurity.RunChecks | security/file-security.js:44-73 | the helpers compute the six check outcomes |
| FileSecurity.ReportErrors | security/file-security.js:44-73 | the pushes add one error per failed check, in order |
| FileSecurity.ValidateFile | security/file-security.js:35-79 | `valid` exactly when the error list is empty, and the errors are those of the failed checks |
| FileSecurity.HexByte | security/file-security.js:170 | two hexadecimal digits per byte |
| FileSecurity.Hex | security/file-security.js:168-171 | two digits per byte |
| FileSecurity.HexHeader | security/file-security.js:167-171 | the concatenating loop builds the hexadecimal header of the first four bytes |
| FileSecurity.Magic | security/file-security.js:174-181 | a signature is known exactly when it is one of the six keys |
| FileSecurity.DetectedType | security/file-security.js:183 | the eight-digit signature wins, and the six-digit one is the fallback |
| FileSecurity.JpegIsDetected | security/file-security.js:175 | `ff d8 ff` with any fourth byte is detected as JPEG through the fallback |
| FileSecurity.Header | security/file-security.js:167-171 | the header has at most eight digits |
| FileSecurity.PlainNameIsClean | security/file-security.js:136-151 | a safe name without a run of dots and of at most 255 characters passes steps 1 to 4 unchanged, in both versions |
| FileSecurity.CollapsedOfPlainName | security/file-security.js:136-144 | a safe name without a run of dots passes steps 1 to 3 unchanged |
| FileSecurity.ShortNamesAreKept | security/file-security.js:147 | both versions of step 4 keep a name of at most 255 characters |
| FileSecurity.OnlyLeadingDot | security/file-security.js:82-84 | a name whose only dot is first has that dot as its last and no extension |
| FileSecurity.SanitizeDropsDotfileStem | security/file-security.js:155-158 | as written, a name whose only dot is first, such as `.jpg` (what is left of `x/.jpg`), becomes `_<t>.`. As intended it becomes the whole name followed by `_<t>.` |
| FileSecurity.StampOfDotless | security/file-security.js:154-158 | on a name without a dot, the intended step 5 appends `_<t>.` to the whole name, and the written one to `slice(0, -1)` of it |
| FileSecurity.StampOfDotfile | security/file-security.js:154-158 | on a name whose only dot is first, the written step 5 gives `_<t>.` and the intended one the whole name followed by `_<t>.` |
| FileSecurity.AddTimestampAsWrittenEnds | security/file-security.js:154-158 | as written, the stamped name also ends with `_<timestamp>.<extension>` |
| FileSecurity.AddTimestampAsWrittenKeepsSafe | security/file-security.js:154-158 | as written, a safe name with a safe extension stays safe when stamped |
| FileSecurity.SanitizedAsWrittenIsSafe | security/file-security.js:136-159 | as written, the sanitised name has only letters, digits, `.`, `_` and `-`, so no path separator, and ends with `_<timestamp>.<extension>` |
| FileSecurity.SanitizedNames | security/file-security.js:241-251 | intended: one sanitised name per uploaded file |
| FileSecurity.ReadyMeansEveryFilePassed | security/file-security.js:214-251 | with the intended sanitiser: an upload that gets through has every file valid, with matching content, and one sanitised name per file |
| FileSecurity.CheckFiles | security/file-security.js:216-236 | the loop stops at the first file that fails validation or the content check, and reports that failure |
| FileSecurity.SecureFileUpload | security/file-security.js:202-251 | more than five files fail before any is looked at. Otherwise the first failing file decides, and when none fails every file is renamed with the intended sanitiser |
| AuthSecurity.LowerIsIdempotent | security/auth-security.js:57 | lower-casing twice changes nothing more |
| AuthSecurity.CommonTestIgnoresCase | security/auth-security.js:50-58 | the common-password test gives the same answer for any letter case |
| AuthSecurity.ErrorsOf | security/auth-security.js:15-47 | at most six errors, none exactly when every rule holds, and a common password's last error is `TooCommon` |
| AuthSecurity.NoErrorsMeansPolicyMet | security/auth-security.js:43-46 | no error exactly when the password meets the policy |
| AuthSecurity.CommonPasswordsFail | security/auth-security.js:38-41 | every common password fails with the `too common` error |
| AuthSecurity.Validate | security/auth-security.js:15-47 | `valid` exactly when the policy is met, and the errors are those of the broken rules |
| AuthSecurity.ReportPasswordErrors | security/auth-security.js:16-41 | the pushes add one error per broken rule, in order |
| AuthSecurity.ClassBonus | security/auth-security.js:68-71 | the class bonuses add up to at most 45 |
| AuthSecurity.StrengthBounds | security/auth-security.js:61-78 | the score lies in [0, 100] and is 0 exactly for the empty password |
| AuthSecurity.CalculateStrength | security/auth-security.js:61-78 | the accumulating steps compute the score: in [0, 100], and 0 exactly for the empty password |
| AuthSecurity.PolicyPasswordsAreStrong | security/auth-security.js:15-78 | a password that meets the policy scores at least 93 |
| AuthSecurity.AtLeastFourDistinct | security/auth-security.js:74 | an uppercase letter, a lowercase letter, a digit and a special character are four distinct characters |
| AuthSecurity.SpecialIsNotAlphanumeric | security/auth-security.js:34 | no special character is a letter or digit |
| AuthSecurity.FourMembers | security/auth-security.js:74 | a set with four different members has at least four |
| AuthSecurity.AfterFailure | security/auth-security.js:183-190 | One failure raises the count by one and records the time. From the fifth failure on it (re)starts a fifteen-minute lock; before that the deadline stays |
| AuthSecurity.RemainingAttempts | security/auth-security.js:195 | `max(0, 5 - count)`: between 0 and 5, and 0 exactly from five failures on |
| AuthSecurity.FailureUsesAnAttempt | security/auth-security.js:183-198 | each failure uses up one remaining attempt, down to none |
| AuthSecurity.LockStatusAt | security/auth-security.js:201-210 | locked exactly while a deadline is set and ahead, with at least one minute reported |
| AuthSecurity.LockLastsFifteenMinutes | security/auth-security.js:188-210 | a lock started by the fifth failure holds for fifteen minutes, reporting between 1 and 15 minutes left |
| AuthSecurity.ExpiredLockIsCleared | security/auth-security.js:212-217 | once the deadline has passed the check unlocks and forgets the record, so all five attempts are back |
| AuthSecurity.FailuresAddUp | security/auth-security.js:183-190 | failures add up, and after five the lock runs fifteen minutes from the latest one |
| AuthSecurity.FailureKeepsWellFormed | security/auth-security.js:183-192 | a stored record always has a failure, and a lock only after five |
| AuthSecurity.LoginLimiter.constructor | security/auth-security.js:177-180 | no attempts stored, readable or not |
| AuthSecurity.LoginLimiter.GetAttempts | security/auth-security.js:221-224 | the stored record, or the empty one when nothing is stored, and a throw exactly when the stored item does not read back |
| AuthSecurity.LoginLimiter.RecordFailedAttempt | security/auth-security.js:183-198 | it stores the record after one more failure and returns the attempts left and the deadline. It throws, changing nothing, exactly when the record does not read back |
| AuthSecurity.LoginLimiter.IsLocked | security/auth-security.js:201-218 | it answers the lock status, and removes a record whose deadline has passed. It throws, changing nothing, exactly when the record does not read back |
| AuthSecurity.LoginLimiter.ResetAttempts | security/auth-security.js:227-229 | the user's item is removed, readable or not, and no other |
| AuthSecurity.LoginLimiter.GetRemainingAttempts | security/auth-security.js:232-235 | always between 0 and 5, 5 exactly when no failure is counted, and a throw exactly when the record does not read back |
| AuthSecurity.CheckSession | security/auth-security.js:107-133 | No session is invalid. More than thirty minutes since the last activity removes the session and answers expired. Unreadable data is invalid and left. A session whose `lastActivity` is not a number is valid, since the `NaN` comparison is false. Otherwise the session is valid with its activity moved to now |
| AuthSecurity.UntimedSessionIsAccepted | security/auth-security.js:115-126 | a session without a numeric activity time is accepted at any time, gets `now` as its activity time, and times out thirty minutes after that |
| AuthSecurity.ActivityRestartsTheTimeout | security/auth-security.js:119-126 | each check restarts the thirty minutes |
| AuthSecurity.ExpiryIsFinal | security/auth-security.js:119-121 | after expiry the next check finds no session |
| AuthSecurity.CheckIsIdempotent | security/auth-security.js:124-128 | checking twice at the same moment changes nothing more |
| AuthSecurity.NewSessionLastsThirtyMinutes | security/auth-security.js:83-119 | a new session is valid exactly until thirty minutes after its last activity, the last millisecond included |
| AuthSecurity.SessionManager.constructor | security/auth-security.js:82-84 | no session stored |
| AuthSecurity.SessionManager.CreateSession | security/auth-security.js:87-104 | the session, created and active now with the given identifiers, is stored and returned |
| AuthSecurity.SessionManager.ValidateSession | security/auth-security.js:107-133 | the answer and the stored item are those of the session check |
| AuthSecurity.SessionManager.DestroySession | security/auth-security.js:136-140 | no session is stored |
| AuthSecurity.AsWrittenNeverLocksChangedNames | security/auth-security.js:242-293 | as written, a name that sanitising changes and that has no record under itself is never locked, and the attempt writes no record under it |
| AuthSecurity.LeadingSpaceIsSanitisedAway | security/auth-security.js:251 | a name with a leading space is such a name |
| AuthSecurity.LockHoldsForEverySpelling | security/auth-security.js:242-248 | with the lock checked under the sanitised name, a locked account with a readable record is refused under every spelling that sanitises to it, and nothing changes |
| AuthSecurity.UnreadableRecordFailsEveryLogin | security/auth-security.js:221-224 | a record that does not read back makes the lock check throw, so the login fails and nothing changes, in both versions, when the name checked is the unreadable one |
| AuthSecurity.RejectionIsCountedWhereTheLockIsChecked | security/auth-security.js:291-299 | a rejected login with a readable record is recorded under the name the lock is checked under |
| AuthSecurity.VersionsAgreeOnPlainNames | security/auth-security.js:239-309 | for a name that sanitising keeps, the written and the intended login agree |
| AuthSecurity.SecureLogin | security/auth-security.js:239-309 | intended, with the lock checked under the sanitised name: a locked account is refused first. Then a password shorter than 8 is rejected before the backend is asked. Acceptance resets the attempts and stores the new session. Rejection records a failure and reports the attempts left. A failed request changes nothing beyond removing an expired record. A record that does not read back makes the login fail with nothing changed |
| SiteScript.EscapeChar | js/script.js:5-17 | every character is written as at least one character |
| SiteScript.EscapeText | js/script.js:5-17 | escaping never shortens the text |
| SiteScript.UnescapeChar | js/script.js:5-17 | each escaped character reads back as itself |
| SiteScript.UnescapeEscape | js/script.js:5-17 | escaping loses nothing: reading the references back gives the original text |
| SiteScript.EscapedTextHasNoTags | js/script.js:5-17 | escaped text contains no `<` and no `>` |
| SiteScript.PlainTextIsUnchanged | js/script.js:5-17 | text without `&`, `<`, `>` and no-break spaces is unchanged |
| SiteScript.EmailSplitsAtFirstAt | js/script.js:182 | the e-mail pattern matches exactly when the split at the first `@` gives a local part and a domain of valid labels |
| SiteScript.FirstAtEndsTheLocalPart | js/script.js:182 | the local part holds no `@`, so an `@` after it is the first |
| SiteScript.TrimIsIdempotent | js/script.js:179-186 | trimming twice trims nothing more |
| SiteScript.ValidatorsIgnoreSurroundingSpace | js/script.js:177-188 | surrounding whitespace never changes the name, message or e-mail pattern verdict |
| SiteScript.ValidNamesSurviveSanitising | js/script.js:393-398 | a valid name without no-break spaces passes through sanitising unchanged |
| SiteScript.CeilDivBounds | js/script.js:213 | `Math.ceil(x / d)` is the least `r` with `x <= r * d` |
| SiteScript.AttemptsAt | js/script.js:198-203 | attempts are forgotten once more than a minute has passed since the last one, and kept otherwise |
| SiteScript.RateLimiter.constructor | js/script.js:192-196 | no attempts, last attempt at 0 |
| SiteScript.RateLimiter.CanSubmit | js/script.js:198-204 | stale attempts are forgotten, and submitting is allowed exactly with fewer than three |
| SiteScript.RateLimiter.RecordAttempt | js/script.js:206-209 | one more attempt, at now |
| SiteScript.RateLimiter.RemainingTime | js/script.js:211-214 | positive exactly while less than a minute has passed, and at most 60 seconds |
| SiteScript.ThirdAttemptFillsTheWindow | js/script.js:198-209 | three attempts, each within a minute of the previous one, make `canSubmit` refuse until a minute after the third |
| SiteScript.SubmitContactForm | js/script.js:365-417 | the rate limit is checked first, and a refusal reports `getRemainingTime`. Then the three validators run on the trimmed, sanitised values. Only a valid form is counted as an attempt and sent |
| SiteScript.Element.constructor | js/script.js:103 | no attributes |
| SiteScript.Element.SafelySetAttribute | js/script.js:103-120 | a name that lower-cases to a blocked one changes nothing. Any other is set, lower-cased, with the escaped value. No blocked attribute ever changes |
| SiteScript.InnerWwwPassesAsTrusted | js/script.js:47-50 | as written, `github.www.com`, a host under `www.com`, passes as trusted |
| SiteScript.InnerWwwIsRemoved | js/script.js:47 | `replace('www.', '')` turns `github.www.com` into `github.com` |
| SiteScript.RemovesFirstWww | js/script.js:47 | `replace` cuts out the first `www.` wherever it occurs |
| SiteScript.StripWww | js/script.js:47 | intended: only a leading `www.` is removed |
| SiteScript.TrustedHostIsUnderTrustedDomain | js/script.js:39-50 | with only a leading `www.` removed, a host is trusted exactly when it is a trusted domain or a name under one |
| SiteScript.NoTrustedDomainStartsWithWww | js/script.js:39-45 | no trusted domain starts with `www.` |
| Tally.Occurrences | api/audit/index.js:69-71 | the number of times a key occurs: at most the length, and positive exactly when the key occurs |
| Tally.Distinct | api/audit/index.js:66 | the keys in first-seen order: the same members as the list, no repeats, no longer than the list |
| Tally.Count | api/audit/index.js:66-71 | the counting loop gives every key its exact number of occurrences, keys in first-seen order, for keys that are not inherited `Object.prototype` names |
| Tally.EntriesAreCounts | api/audit/index.js:69-71 | every key appears once, with its count, for keys that are not inherited `Object.prototype` names |
| Tally.CountsSumToLength | api/audit/index.js:69-71 | the counts add up to the number of keys, for keys that are not inherited `Object.prototype` names |
| Tally.SortByCount | backend/audit-api.js:176 | the sort is a permutation, sorted by non-increasing count |
| Tally.SortIsStable | backend/audit-api.js:176 | entries of equal count keep their order |
| Tally.RankingIsSortedCounts | backend/audit-api.js:175-178 | the ranking holds `min(limit, distinct keys)` distinct keys, each with its exact count, in non-increasing order |
| Tally.RankingKeepsTheMostFrequent | backend/audit-api.js:175-178 | a key left out means the ranking is full of keys at least as frequent |
| Tally.OwnKeysAreCounted | api/audit/index.js:69-71 | as written, `(o[k] \|\| 0) + 1` on a plain object counts a key that is not an inherited `Object.prototype` name exactly: it is present exactly when it occurs, with its number of occurrences |
| Tally.InheritedKeysBecomeText | api/audit/index.js:69-71 | as written, an inherited name that occurs gets a non-empty text, never its number of occurrences |
| Tally.InheritedSlotIsUnset | api/audit/index.js:69-71 | as written, a key that never occurs gets no own entry |
| Tally.ConstructorCountIsText | api/audit/index.js:69-71 | as written, one event of type `constructor` is counted as the text `function Object() { [native code] }1` |
| JsArray.SliceFromNegative | api/audit/index.js:49 | `slice(-k)` for positive `k` is the last `min(n, k)` elements |
| JsArray.Reverse | api/audit/index.js:61 | `[...a].reverse()` lists the elements newest first |
| JsArray.PushShift | js/audit-trail.js:488-493 | push and one `shift` over the cap: the new element is last, and the length grows by at most one and stays within the cap |
| JsString.Trim | js/script.js:179 | the result is the text right after the leading whitespace, everything cut off on either side is whitespace, and the result neither starts nor ends with whitespace, so exactly the surrounding whitespace goes |
| JsString.IndexOf | api/audit/index.js:11 | the first position of the character, where `split(',')[0]` ends, or -1 exactly when it does not occur |
| JsString.LastIndexOf | security/file-security.js:83 | the last position of the character, or -1 exactly when it does not occur |
| JsString.Split | api/audit/index.js:11 | at least one piece, no piece holds the separator, and the first piece is the text before the first separator |
| JsString.SplitJoin | api/audit.js:31 | splitting a joined path at `/` gives the segments back |
| JsString.JoinSplit | api/audit.js:31 | joining the pieces of a split gives the text back |

## Left out

- Network and persistence: `fetch`, `sendBeacon`, `FileReader`, the
  `FormData` upload and its CSRF token, `fs` and local or session storage.
  Storage is a datatype of the states a stored item can be in, the outcome
  of a file write is a parameter (completed, failed before the open, or
  failed after the truncating open), and HTTP answers are `Response` values. CORS and other response
  headers are left out, as is the export route of the Express server.
- `hashIP`'s SHA-256 digest is a parameter function onto 16 lower-case hex
  digits. Random session ids and CSRF tokens are parameters. Browser
  fingerprints (canvas, audio, fonts, `btoa`) are left out because they are
  foreign code.
- The Express server also stores the request headers, the language, the host
  and the origin in `server`. The model keeps only the properties some
  aggregation reads, because the others are carried along unread.
- Event creation in the browser collector (`getVisitorInfo` and the click,
  form, key, input, project and section trackers) is left out, because it
  reads the DOM and `navigator`. The collector's events are inputs of
  `LogEvent`.
- Timers and listeners are left out: the 30 s timer, the unload handler, the
  five-second defacement check, the inactivity logout, the mutation and
  intersection observers, the activity monitor (rapid clicks, console,
  devtools, paste), the performance monitor and the global error handlers.
  Each would only call one of the modelled operations.
- `handleThreat`'s alert and the console logging are left out: the threat is
  the value `Log` returns.
- The scroll percentage is computed in floating point, so it is an integer
  input of `TrackScrollDepth`.
- AuditClient.AverageTime: rounds the exact quotient. The source divides in
  floating point first, which can differ for totals beyond 2^53.
- AuthSecurity.LockStatusAt: the minutes are an integer ceiling of the
  milliseconds over 60000, where the source divides twice in floating point.
- `toLowerCase` is ASCII lower-casing. Non-ASCII letters, such as the Kelvin
  sign, are not folded. `\s` and `trim` use the ECMAScript whitespace set.
- FileSecurity.ShiftSelectsTextAfterLastDot: proved for names shorter than
  2^32 code units, because `>>> 0` wraps differently beyond that.
- Dafny characters are code points. A string with a lone surrogate cannot be
  represented. JavaScript lengths are counted in UTF-16 code units through
  `JsString.CodeUnits`.
- JSON objects used as dictionaries take keys in first-seen order. The
  source does not do that for integer-like keys: JavaScript lists those
  first, in numeric order. A key `__proto__` is not stored at all. Both
  change the order or the contents of `eventsByType`, the page ranking and
  the device breakdown.
- AuditStats.Summarize: counts every type exactly. As written, a type that
  names an inherited `Object.prototype` member (`constructor`, `toString`
  and the others in `Tally.InheritedMethods`) is counted as text, as
  `Tally.CountAsWritten` shows. The model follows the intended count (see
  Findings).
- AuditStats.TopPages: ranks the exact counts. As written, a page path that
  names an inherited member gets a text count, the comparator then answers
  `NaN`, and the order of the sorted entries depends on the engine.
- AuditStats.PageCountsSumToPageViews: holds as written only when no page
  path names an inherited member.
- AuditStats.TopPagesAreTheMostViewed: holds as written only when no page
  path names an inherited member.
- AuditBackend.StatsCountsAreBounded: its page counts hold as written only
  when no page path names an inherited member.
- Tally.Count: the exact count. `Tally.CountAsWritten` is the count as
  written, which agrees with it on every other key (`Tally.OwnKeysAreCounted`).
- Tally.EntriesAreCounts: holds as written only for keys that are not
  inherited names.
- Tally.CountsSumToLength: holds as written only for keys that are not
  inherited names.
- SecurityMonitoring.GetSelector: answers nothing for an inherited name,
  where the source's object literal returns a prototype function. It is only
  called with the names `Object.entries` lists, which are own names
  (security/security-monitoring.js:289-290).
- `getLogs`'s default arguments (`type = null`, `limit = 100`) are not
  defaults of `GetLogs`: a caller passes `None` and 100.
- AuditServerless.HandlePathRouted: a primitive JSON body is stored as the
  event with no properties. Every aggregation reads it that way, but the
  events listing would return the primitive itself.
- FileSecurity.SanitizedNames: all names of one upload get one timestamp.
  The source reads the clock once per `sanitizeFilename` call.
- FileSecurity.SanitizedNames: uses the intended sanitiser. As written
  (`FileSecurity.SanitizeFilenameAsWritten`) the names differ for a name
  without a dot, a name whose only dot is first (`x/.jpg` becomes `_<t>.`,
  not `.jpg_<t>.`) and an extension of 255 or more characters (see
  Findings). `FileSecurity.SanitizedAsWrittenIsSafe` states what holds of
  the written names.
- FileSecurity.SecureFileUpload: renames with the intended sanitiser, as
  `FileSecurity.SanitizedNames` does.
- FileSecurity.ReadyMeansEveryFilePassed: the sanitised names are the
  intended ones, as in `FileSecurity.SanitizedNames`.
- AuthSecurity.SecureLogin: checks the lock under the sanitised name. As
  written (`AuthSecurity.LoginAsWritten`) it checks the name as typed, so
  with `alice` locked the spelling ` alice` still reaches the backend (see
  Findings).
- FileSecurity.ExpectedErrors: states only the count for a present file.
  `ValidateFile` and `ValidMeansEveryCheckPasses` state which errors.
- Error messages: only the file and password messages are modelled. Other
  error texts are outcome constructors.
- A `null` element passed to `safelySetAttribute` and the
  `InvalidCharacterError` that `setAttribute` raises for an invalid name
  are left out. `Element` models a present element and names it accepts.
- The honeypot test of the submit handler is left out: it returns before
  any modelled step. Showing the form messages is DOM work and is left out
  too.
- `isValidURL`'s URL parsing, protocol test and `confirm` prompt are left
  out. Only the trusted-host test is modelled.
- The checksum loop at security/security-monitoring.js:313 closes with
  `});`, which is a syntax error. The model is the `for...of` loop the code
  evidently means.
- The security logger stores ISO timestamps and parses them back. The model
  stores the millisecond reading, which that round trip preserves.
- Stored items of other shapes are left out. A login-attempts item or a
  session item is modelled as the record the code writes, as text that
  does not read back (`JSON.parse` throws or gives `null`) or, for the
  session, as a record without a numeric `lastActivity`. Items that parse
  to a number, a string or an object with wrongly typed fields do not
  arise from the code's own writes.
- A failed `sessionStorage.setItem` in `validateSession` and a failed
  `localStorage.setItem` in `recordFailedAttempt` are left out: both would
  throw into the callers' `catch`. The collector's `logEvent` write
  outcome is modelled, as the `saved` parameter of `LogEvent`.
- Concurrency is left out: every handler runs to completion on its own.

## Findings

| source | as written | input that shows it | evidently intended | confidence | as-written member | corrected member |
|---|---|---|---|---|---|---|
| security/security-monitoring.js:127-135 | `filtered.slice(-limit)` with `limit` 0 is `slice(0)` | `getLogs(null, 0)` with one entry logged returns that entry | at most `limit` entries, so none for 0 | not executed | SecurityMonitoring.GetLogsZeroLimitReturnsEverything | SecurityMonitoring.GetLogs |
| security/file-security.js:155-158 | `filename.slice(0, filename.lastIndexOf('.'))` is `slice(0, -1)` without a dot | `README` becomes `READM_<t>.` | the whole name is the stem when there is no extension | not executed | FileSecurity.SanitizeDropsLastCharacter | FileSecurity.SanitizeKeepsDotlessNames |
| security/file-security.js:155-158 | `filename.slice(0, filename.lastIndexOf('.'))` is `slice(0, 0)` when the only dot is first | `x/.jpg`, cut to `.jpg`, becomes `_<t>.` | the whole name is the stem when there is no extension | not executed | FileSecurity.SanitizeDropsDotfileStem | FileSecurity.SanitizeFilename |
| security/file-security.js:147-151 | `filename.slice(0, 255 - ext.length - 1)` has a negative end for an extension of 255 or more characters, and `slice` then counts from the end | `a.` followed by 300 `b`, 302 characters, comes out with 557 | a long name is cut to 255 characters | not executed | FileSecurity.LongExtensionGrowsTheName | FileSecurity.LimitLength |
| api/audit/index.js:69-71 | `(eventsByType[t] \|\| 0) + 1` on a plain object reads inherited `Object.prototype` members; api/audit.js:67-69, backend/audit-api.js:170-172 and js/audit-trail.js:593-595 count the same way | one event of type `constructor` is counted as the text `function Object() { [native code] }1` | every key is counted as its number of occurrences | not executed | Tally.ConstructorCountIsText | Tally.Count |
| security/auth-security.js:242-293 | the lock is looked up under the name as typed, but failures are recorded under `sanitizeHTML(username.trim())` | ` alice` (leading space) is never locked, however many of its attempts the backend rejects | the lock is checked under the name failures are recorded under | not executed | AuthSecurity.AsWrittenNeverLocksChangedNames | AuthSecurity.LockHoldsForEverySpelling |
| js/script.js:47-50 | `hostname.replace('www.', '')` removes the first `www.` anywhere in the host | `github.www.com`, a host under `www.com`, is trusted as GitHub | only a leading `www.` is dropped | not executed | SiteScript.InnerWwwPassesAsTrusted | SiteScript.TrustedHostIsUnderTrustedDomain |
