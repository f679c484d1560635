# SyncWatch node coordination, modelled in Dafny

SyncWatch checks whether a volume shared by every replica of a Docker Swarm
service really replicates writes. Every replica runs a node agent. Each tick
the agent re-reads the poll interval from a config record on the shared
volume, discovers its peers through the swarm's DNS name `tasks.<service>`,
and elects itself writer when its address sorts first. The writer then
overwrites a probe record (writer, time, sequence number) on the volume. A
separate dashboard replica polls every node's `/api/node_info` snapshot and
publishes the merged list at `/api/status`. The dashboard page classifies
each node as writer, synced or out of sync, and keeps a timer per node for
how long it has been out of sync. The development page also keeps a bounded
history of sync delays per writer sequence.

`app.py` and `dev/app.py` share all of this Python logic. It is modelled
once, and the rows below cite one of the two files. Only the development
page keeps the delay history.

Modules, one per component:

- `Ordering` (ordering.dfy): Python's `str` ordering (`Below`, `AtMost`), duplicate-free lists, and the stable sort behind `sorted(...)` and `Array.prototype.sort`.
- `Discovery` (discovery.dfy): `discover_peers` and `discover_other_peers`. The DNS answer is an input `Resolution`.
- `Election` (election.dfy): the writer decision of `check_loop` and of `/api/node_info`.
- `PyJson` (pyjson.dfy): decoded JSON bodies and Python's `int()` on them.
- `NodeAgent` (node.dfy): the shared volume (`SharedVolume`), the agent's globals (`Node`), one `check_loop` tick, and the node's HTTP handlers.
- `Collector` (collector.dfy): one `dashboard_loop` pass and `/api/status`.
- `SyncView` (syncview.dfy): the `render` classification and the logic of the `unsyncStart` timer.
- `ChartHistory` (history.dfy): the development page's `knownSequences` / `syncDelayHistory` / `lastRecordedSeq` logic as functions on values.
- `Page` (page.dfy): the page's script globals as a class, with `render` and both `fetchData` versions as methods.

Inputs that stand for the outside world:

- The DNS answer is a `Resolution`: a list of addresses, or a resolution error.
- Each peer fetch is a `Fetch`: the snapshot the peer answered, or a failure.
- Each file on the volume is a `FileCell` (missing, garbled, or holding a record).
- Each write attempt has a `WriteOutcome`:
  - `Persisted`: the write succeeded.
  - `OpenFailed`: `open` failed and the file is untouched.
  - `DumpFailed`: `json.dump` failed after `open(..., "w")` had already truncated the file.
- Both clocks (`datetime.utcnow()` and `Date.now()`) are integer parameters. `Millis` values are positive milliseconds. Because they are never 0, a start time stored in `unsyncStart` is always truthy in JavaScript, as it is at run time.

Where the design description and the code disagree, the model follows the code:

- The probe counter. The design says a new writer reads the persisted sequence back before incrementing it. The code numbers each record from its own in-memory `test_file_info` instead (dev/app.py:95, app.py:94). A node that has never written therefore restarts the shared sequence at 1 when it becomes writer, and a former writer resumes from its own count. `NodeAgent.WriterHandoff` shows this.
- Unreachable nodes. The design says unreachable nodes get no lag timer. The page code does not treat error entries specially, so they get a timer like any unsynced node (`SyncView.UnreachableIsTimed`).
- Validation of the interval. The design puts the `>= 1` check in the config write. In the code only `api_set_config` checks it. `write_config` does not check. `read_config` adopts any integer stored in the file, including values below 1.
- Recording each delay once. The design records a node's delay at most once per writer sequence. The guard at dev/app.py:394 remembers only the last sequence recorded for each node. A writer hand-over restarts the counter, so an old sequence can come back, and its delay is then recorded again and overwrites the earlier one (`ChartHistory.RecurringSequenceRecordedAgain`, `ChartHistory.RecurringSequenceExample`). The once-only promise holds while the writer sequence stays the same (`ChartHistory.RecordedOnceAcrossFetches`).
- The empty election list. `check_loop` treats an empty list as writer and `api_node_info` treats it as not writer. Neither case can happen, because the list always holds the node's own address. With no peers, the node is always writer (`Election.TickIsWriter`).

## Model

| member | source | states |
|---|---|---|
| `Ordering.Below` | dev/app.py:119 | Python's `a < b` on `str`, which `sorted` uses: code-point lexicographic order, a proper prefix being smaller. The order lemmas below state its properties. |
| `Ordering.AtMost` | dev/app.py:119 | Python's `a <= b` on `str`: equal or `Below`. |
| `Ordering.BelowTotal` | dev/app.py:119 | Any two distinct addresses are ordered one way or the other, so `sorted` has a well-defined first element. |
| `Ordering.BelowTransitive` | dev/app.py:119 | Python's string order is transitive. |
| `Ordering.BelowAsymmetric` | dev/app.py:119 | If `a < b`, then `b < a` is false. |
| `Ordering.AtMostAntisymmetric` | dev/app.py:119 | Two strings that are each `<=` the other are equal. |
| `Ordering.SortBy` | dev/app.py:119 | `sorted(...)` and the page's `Array.prototype.sort` (dev/app.py:357): the result is a permutation of the input (same multiset) in ascending key order. It is stable: the entries with any given key keep their input order. |
| `Ordering.InsertByStable` | dev/app.py:357 | One insertion step puts the new element before every element with the same key, which is what makes the sort stable. |
| `Ordering.SortedHeadIsLeast` | dev/app.py:120 | The first element of a sorted list is `<=` every element of it. |
| `Discovery.ListOfSet` | dev/app.py:49 | `list(set(items))`: each item exactly once, nothing else, in an unspecified order. |
| `Discovery.DiscoverPeers` | dev/app.py:39-49 | The result has no duplicates and holds exactly the resolved addresses. A resolution error (`gaierror`) yields `[]`. Same code at app.py:38-48. |
| `Discovery.OtherPeers` | dev/app.py:54 | The comprehension keeps exactly the peers that differ from `MY_IP`. It keeps the list duplicate-free and removes exactly one entry when `MY_IP` occurs once. |
| `Discovery.DiscoverOtherPeers` | dev/app.py:52-54 | The result is duplicate-free, never contains `MY_IP`, and holds exactly the resolved addresses other than `MY_IP`. Same code at app.py:51-53. |
| `Election.HeadIsMeIffLeast` | dev/app.py:119-120 | `sorted([MY_IP] + peers)[0] == MY_IP` holds iff `MY_IP` is `<=` every peer in string order. |
| `Election.TickIsWriter` | dev/app.py:118-120 | In a tick the node is writer iff `MY_IP` is the string-minimum of `[MY_IP] + peers`. With no peers it is always writer. Same code at app.py:117-119. |
| `Election.SnapshotIsWriter` | dev/app.py:431-434 | `/api/node_info` reports writer iff the node is not in dashboard mode and is the string-minimum. Dashboard mode always reports false. Same code at app.py:286-289. |
| `Election.OneWriterPerView` | dev/app.py:118-120 | When all nodes resolve the same non-empty address list, exactly one of them elects itself writer. |
| `Election.TextOrderElectsDotTen` | dev/app.py:119-120 | The order is textual: `"10.0.0.10" < "10.0.0.9"`, so the `.10` node writes and the `.9` node does not. |
| `PyJson.Truncate` | dev/app.py:458 | `int()` of a float truncates toward zero: the result is within one of the value, on the zero side. |
| `PyJson.IntOfStr` | dev/app.py:458 | `int(str(i)) == i` for every integer `i`, under the modelled `int()` string grammar (white space, sign, digit groups). |
| `PyJson.IsSpace` | dev/app.py:458 | The characters `int()` strips around its digits: ASCII tab, line feed, vertical tab, form feed, carriage return and space, and the non-ASCII white space of `str.isspace()`. It excludes U+001C..U+001F. |
| `PyJson.Strip` | dev/app.py:458 | `int()`'s removal of `IsSpace` characters from both ends of its argument. |
| `PyJson.SeparatorIsNotStripped` | dev/app.py:458 | `int()` does not strip the ASCII separators U+001C..U+001F, although `str.isspace()` accepts them. A string that starts with one is refused. |
| `PyJson.Truthy` | dev/app.py:455 | Python truthiness of a decoded body, which decides whether `request.get_json() or {}` keeps the body. Its meaning is stated through `NodeAgent.ConfigReplyFor` and `NodeAgent.ConfigReplyExamples`. |
| `PyJson.ParseIntText` | dev/app.py:458 | `int()` on a `str`: stripped white space, an optional sign, then digit groups with single underscores. Otherwise ValueError, which is None here. `PyJson.IntOfStr` and `PyJson.SeparatorIsNotStripped` state its properties. |
| `PyJson.PyInt` | dev/app.py:458 | `int()` on a decoded JSON value: bools as 0/1, ints as is, floats truncated (`PyJson.Truncate`), strings by `ParseIntText`, anything else a TypeError (None). |
| `NodeAgent.SeparatorLedIntervalRejected` | dev/app.py:458-464 | `{"check_interval": "\x1c5"}` is refused with 400, because `int()` raises inside the `try`. |
| `NodeAgent.IntervalFrom` | dev/app.py:69 | The interval `read_config` leaves in memory. `NodeAgent.ConfigRoundTrip` and `NodeAgent.FailedConfigWriteIsInvisible` state its properties. |
| `NodeAgent.AfterWrite` | dev/app.py:80-81 | The file after one `open(..., "w")` / `json.dump` attempt (also dev/app.py:97-98), by outcome. `NodeAgent.ConfigRoundTrip` and `NodeAgent.FailedConfigWriteIsInvisible` state its properties. |
| `NodeAgent.LoadProbe` | dev/app.py:105-111 | What `read_test_file` returns for a file cell. See `NodeAgent.Node.ReadTestFile`. |
| `NodeAgent.NextSequence` | dev/app.py:95 | `test_file_info.get("sequence", 0) + 1`. `NodeAgent.ConsecutiveProbes` and `NodeAgent.WriterHandoff` state its properties. |
| `NodeAgent.ConfigRoundTrip` | dev/app.py:63-83 | After a persisted `write_config(v)`, the next `read_config` of any node on the volume yields `v`. |
| `NodeAgent.FailedConfigWriteIsInvisible` | dev/app.py:75-83 | A failed config write is invisible to readers. A failed dump leaves a truncated file, and readers keep their own interval. A failed `open` leaves the old file. |
| `NodeAgent.ConfigReplyFor` | dev/app.py:451-464 | Accepts iff the body is an object with the key, `int()` of the value succeeds, and the result is `>= 1`; it then returns exactly that value. A truthy number or bool body raises a 500 before the `try`. Everything else gets a 400. Same code at app.py:306-319. |
| `NodeAgent.ConfigReplyExamples` | dev/app.py:455-464 | `{"check_interval": 0}` and a missing body get 400. `{"check_interval": true}` is accepted as 1. A bare number body is a 500. |
| `NodeAgent.ConfigReplyFromText` | dev/app.py:458 | A positive interval sent as its decimal text is accepted as that value. |
| `NodeAgent.SharedVolume.constructor` | dev/app.py:36 | The volume holds the probe file (`TEST_FILE`) and the config file (`CONFIG_FILE`, dev/app.py:60), each starting in the given state. |
| `NodeAgent.Node.constructor` | dev/app.py:56-59 | A node starts with `test_file_info = {}` and the interval `int()` reads from `CHECK_INTERVAL`, or 30 (`DefaultCheckInterval`) when the variable is unset. A value `int()` refuses stops the process at import, so the constructor requires a parsable value. |
| `NodeAgent.Node.ReadConfig` | dev/app.py:63-72 | `check_interval` becomes the stored value when the file loads and has the key. On any failure or a missing key it keeps the previous value. Returns the resulting interval. Same code at app.py:62-71. |
| `NodeAgent.Node.WriteConfig` | dev/app.py:75-83 | Memory is updated first and holds even when persisting fails. The file then reflects the write outcome. Same code at app.py:74-82. |
| `NodeAgent.Node.WriteTestFile` | dev/app.py:86-102 | Success stores and returns sequence = previous in-memory sequence + 1 (1 from the empty state). Failure leaves `test_file_info` unchanged and returns an error record. A failed dump leaves a truncated file. Same code at app.py:85-101. |
| `NodeAgent.Node.ReadTestFile` | app.py:104-110 | Returns the stored record, or `None` when the file is missing or unreadable. A volume that was never written gives `None`. |
| `NodeAgent.Node.CheckTick` | dev/app.py:114-125 | One tick refreshes the interval from the file, is writer iff `MY_IP` is the minimum of the resolved addresses, writes a probe only when it is writer, and sleeps for the refreshed interval. On a non-writer tick the probe state is untouched. |
| `NodeAgent.Node.ApiNodeInfo` | dev/app.py:428-442 | The snapshot has the node's hostname and IP, the probe file as this node reads it, the in-memory interval, and the writer flag (false in dashboard mode). |
| `NodeAgent.Node.ApiGetConfig` | dev/app.py:445-448 | `GET /api/config` answers `read_config()`, which also refreshes the interval in memory. |
| `NodeAgent.Node.ApiSetConfig` | app.py:306-319 | Calls `write_config` with exactly `int(value)` when validation accepts. Otherwise it replies 400 or 500 and neither memory nor the file changes. |
| `NodeAgent.ConsecutiveProbes` | dev/app.py:86-102 | `n` successful writes from the empty state produce the sequences `1..n`, and the volume ends holding the `n`-th record. |
| `NodeAgent.WriterHandoff` | app.py:85-101 | A node that never wrote restarts the shared sequence at 1 when it writes. The former writer then continues from its own in-memory count. |
| `NodeAgent.ConfigPropagates` | app.py:62-82 | An interval accepted on one node is read by another node on the same volume when persisted. After a failed dump the other node keeps its own interval. |
| `Collector.CollectNodes` | dev/app.py:137-142 | Exactly one entry per discovered IP, in discovery order. A failed fetch becomes `{"ip": ip, "error": "unreachable"}`, and only a failed fetch does. |
| `Collector.EntryFor` | dev/app.py:139-142 | The entry for one fetch: the snapshot, or `{"ip": ip, "error": "unreachable"}`. See `Collector.CollectNodes`. |
| `Collector.Dashboard.constructor` | dev/app.py:57 | `last_check` starts as `None`. |
| `Collector.Dashboard.DashboardRound` | dev/app.py:128-145 | One pass discovers every node and replaces `last_check` once, after the loop, with the complete list. Same code at app.py:127-144. |
| `Collector.Dashboard.ApiStatus` | dev/app.py:467-470 | Returns the last published list, or empty `all_nodes` before the first round. Same code at app.py:322-325. |
| `SyncView.FirstWriter` | dev/app.py:312 | `nodes.find(n => n.is_writer)` is the first index whose node reports writer; none exists iff no node reports writer. |
| `SyncView.WriterSequence` | dev/app.py:312-313 | The writer sequence is the sequence of the first node that reports writer (null when that node has no probe record), and it is null when no node reports writer. |
| `SyncView.Key` | dev/app.py:319 | `n.hostname \|\| n.ip`: an empty hostname falls back to the address, and an error entry uses its address. |
| `SyncView.ReportsWriter` | dev/app.py:312 | `n.is_writer`, as used at dev/app.py:312, 327 and 381. It is false on an error entry, which has no such field. |
| `SyncView.IsError` | dev/app.py:318 | `!!n.error`, as used at dev/app.py:318 and 381. It is true exactly for the collector's unreachable entries. |
| `SyncView.SequenceOf` | dev/app.py:323 | `n.test_file ? n.test_file.sequence : null`, as used at dev/app.py:313, 323 and 384. |
| `SyncView.ClearsTimer` | dev/app.py:327 | `synced \|\| n.is_writer`: the condition that deletes a node's timer. |
| `SyncView.Synced` | dev/app.py:324 | `writerSeq !== null && nodeSeq === writerSeq`. See `SyncView.SyncedExamples`. |
| `SyncView.StepTimer` | dev/app.py:327-331 | The timer update for one card: delete when synced or writer, otherwise set to `now` when absent. The timer lemmas below state its effect over a whole render. |
| `SyncView.TimersAfter` | dev/app.py:317-331 | `unsyncStart` after the `forEach` of one render, a fold of `StepTimer` over the list. |
| `SyncView.Elapsed` | dev/app.py:333 | `unsyncStart[key] ? now - unsyncStart[key] : 0`. `SyncView.LagGrows` states its properties. |
| `SyncView.ViewOf` | dev/app.py:334-338 | The badge of one card: writer, synced, or the lag `Elapsed`. The card is marked unreachable for an error entry. |
| `SyncView.SyncedExamples` | dev/app.py:324 | Writer sequence 5 with node sequence 5 is synced, 4 is not, and a null writer sequence syncs nothing. |
| `SyncView.TimerUntouched` | dev/app.py:326-331 | A render leaves untouched the timers of keys that no listed node carries. |
| `SyncView.StartNeverMoves` | dev/app.py:326-331 | While every entry of a node is unsynced and not the writer, its timer start stays the same (it is set only if absent). |
| `SyncView.TimerStartsNow` | dev/app.py:329-331 | A key with no timer, seen in the render and unsynced and not the writer in all its entries, gets a timer started at `now`. |
| `SyncView.ClearedWhenSyncedOrWriter` | dev/app.py:327-328 | An entry that is synced or the writer, at any position, leaves its key without a timer at the end of the render, provided no later entry carries the same key. |
| `SyncView.TimersNotAfter` | app.py:232-239 | A render never stores a start time later than its clock reading. |
| `SyncView.UnreachableIsTimed` | app.py:224-241 | An error entry whose key no other entry carries is neither synced nor the writer, so it ends the render with a timer and its card shows a lag badge. |
| `SyncView.LagGrows` | dev/app.py:326-333 | With a clock that does not go back, the elapsed lag of a node that stays unsynced is `>= 0` and never shrinks from one render to the next (`now − start`, or 0 without a timer). |
| `ChartHistory.Admit` | dev/app.py:366-377 | Push a new writer sequence; past `MAX_SEQUENCES` shift the oldest out and `Evict` it. See `ChartHistory.AdmitKeepsValid` and `ChartHistory.EvictionForgetsOldest`. |
| `ChartHistory.Evict` | dev/app.py:373-375 | `delete syncDelayHistory[nodeName][removed]` for every node. |
| `ChartHistory.RecordNode` | dev/app.py:380-399 | The history `forEach` body for one node. See `ChartHistory.SkipsWriterAndErrors`, `ChartHistory.RecordsOnSync` and `ChartHistory.RecordedOnce`. |
| `ChartHistory.RecordAll` | dev/app.py:380-400 | The history `forEach` over the sorted list, a fold of `RecordNode`. |
| `ChartHistory.AfterFetch` | dev/app.py:359-403 | The history after one `fetchData`: unchanged without a writer sequence, otherwise `Admit` then `RecordAll`. See `ChartHistory.AfterFetchKeepsValid`. |
| `ChartHistory.AfterFetches` | dev/app.py:351-418 | The history after a series of `fetchData` calls, in order. See `ChartHistory.RecordedOnceAcrossFetches`. |
| `ChartHistory.AdmitKeepsValid` | dev/app.py:365-377 | Admitting the writer sequence keeps `knownSequences` duplicate-free with length `<= 30`, keeps delays only for known sequences, and makes the sequence known. |
| `ChartHistory.EvictionForgetsOldest` | dev/app.py:370-376 | When the list overflows, the oldest sequence leaves `knownSequences` and is deleted from every node's delay map. Nothing else is lost. |
| `ChartHistory.RecordAllKeepsValid` | dev/app.py:380-400 | Recording delays for a known sequence keeps the history well formed and leaves `knownSequences` unchanged. |
| `ChartHistory.AfterFetchKeepsValid` | dev/app.py:359-403 | Every `fetchData` keeps `knownSequences` duplicate-free with at most `MAX_SEQUENCES` (30) entries, and keeps delays only for known sequences. |
| `ChartHistory.SkipsWriterAndErrors` | dev/app.py:381 | A key that appears only on writer or error entries gets no delay map entry and no record-once mark. |
| `ChartHistory.RecordedOnce` | dev/app.py:392-398 | Within one `forEach` over the nodes with writer sequence `w`: once `lastRecordedSeq[key]` equals `w`, the delay recorded for that node at `w` does not change, and the mark stays `w`. |
| `ChartHistory.AdmitKeepsDelayAt` | dev/app.py:366-377 | Admitting the writer sequence `w` changes neither the marks nor any node's delay at `w`. The evicted sequence is the oldest known one, never `w`. |
| `ChartHistory.RecordedOnceAcrossFetches` | dev/app.py:392-398 | Over any series of fetches whose writer sequence stays `w`: once a node is marked for `w`, its delay at `w` is left as recorded and the mark stays `w`. |
| `ChartHistory.RecurringSequenceRecordedAgain` | dev/app.py:394-397 | The mark keeps only the last sequence recorded. When the writer sequence returns to one recorded before, a unique non-writer, non-error node that reached it gets the delay its timer shows now, whatever had been recorded for that sequence. |
| `ChartHistory.RecurringSequenceExample` | dev/app.py:394-397 | Node `b`: 50 ms was recorded for sequence 1, and later sequence 2 was marked. When sequence 1 returns and `b` shows 400 ms, the delay for sequence 1 becomes 400. |
| `ChartHistory.RecordsOnSync` | dev/app.py:391-398 | A non-writer, non-error node that reached the writer sequence and has no mark for it records the delay its timer shows (`now − start`, or 0), and is marked. This holds when no other entry carries its key. |
| `Page.DashboardPage.constructor` | dev/app.py:200-207 | Page load starts with no node list and empty timers, sequences, delays and marks. The history is well formed. |
| `Page.DashboardPage.Render` | app.py:211-250 | Without a list, `render` shows nothing and changes no timer. Otherwise it gives one card per node, in order, each built after that node's timer update, and `unsyncStart` ends as the fold of those updates. Same code at dev/app.py:305-349. |
| `Page.DashboardPage.RenderNode` | app.py:223-241 | One node: delete the timer if synced or writer, else set it if absent. The card shows the writer badge, the synced badge, or `now − start`. |
| `Page.DashboardPage.FetchData` | app.py:252-270 | A failed request changes nothing. An empty list clears `latestNodes`. Any other list is stored sorted by `hostname || ip`. |
| `Page.DashboardPage.ForgetSequence` | dev/app.py:373-375 | Deletes the evicted sequence from every node's delay map and from nothing else (`Evict`). |
| `Page.DashboardPage.AdmitSequence` | dev/app.py:366-377 | A new writer sequence is pushed, and past 30 entries the oldest is shifted out and forgotten (`Admit`). The history stays well formed and the sequence becomes known. |
| `Page.DashboardPage.RecordDelay` | dev/app.py:380-399 | The per-node step of the history `forEach` equals `RecordNode`. |
| `Page.DashboardPage.RecordDelays` | dev/app.py:380-400 | The history `forEach` over all sorted nodes equals `RecordAll`. For a known writer sequence, the history stays well formed. |
| `Page.DashboardPage.FetchDataWithHistory` | dev/app.py:351-415 | As `FetchData`; when the sorted list has a writer sequence, it also admits the sequence and records delays. The history stays well formed. |

## Left out

- `Page.DashboardPage.FetchData`: sorts by code-point order of `hostname || ip`. The page sorts with `localeCompare`, whose collation depends on the browser's locale, so the two orders can differ.
- `Page.DashboardPage.FetchDataWithHistory`: same approximation of `localeCompare` as `FetchData`.
- `PyJson.IntOfStr`: the `int()` string grammar covers the white space `int()` strips, a sign, ASCII digits and single underscores. Non-ASCII decimal digits, which `int()` also accepts, are not modelled.
- `NodeAgent.Node.constructor`: requires a `CHECK_INTERVAL` that `int()` accepts. A value it refuses raises ValueError at import (dev/app.py:59), and the process never starts. That failure is not modelled.
- `SyncView.StepTimer`, `ChartHistory.RecordNode`: `unsyncStart`, `syncDelayHistory` and `lastRecordedSeq` are plain JavaScript objects (dev/app.py:202-205). A node key that names an `Object.prototype` member (such as `constructor` or `toString`) reads as already present, so for that key no timer is set and the badge shows `+NaNms`. The model's maps start empty for every key. Node keys are container host names or addresses.
- `PyJson.ParseIntText`: has no digit limit. Python 3.11 and later refuses an `int()` of a string with more than 4300 digits (ValueError, so a 400 from `api_set_config`).
- `PyJson.Truncate`: JSON fractions are exact reals here. The rounding of the decimal literal to a binary double, and `NaN`/`Infinity`, are not modelled.
- `NodeAgent.Node.ReadConfig`: the stored interval is an integer or absent. A stored value of another JSON type, which `read_config` would also adopt, is not modelled.
- `NodeAgent.Node.ReadTestFile`: a probe file that is valid JSON but not a probe record (for example one without `sequence`) counts as garbled. The code would return that JSON as is.
- `Collector.CollectNodes`: a peer answer is a snapshot or a failure. A JSON body that is not a snapshot (for example a JSON error page) would be appended as is by the code.
- Flask routing, `jsonify`, status codes as HTTP responses, the HTML page, CSS, Chart.js (`updateChart`), `getNodeColor`, the `prevData` change highlight and the `latestNodes < 2` banner: presentation.
- `get_my_ip`, `/health`, and start-up (the thread started at import in dev/app.py:474-478, and `MY_IP` unset unless run as a script in app.py:26 and 335): deployment. A node's address is a constructor argument.
- Threads, the endless `while True` loops and `time.sleep`: one tick or pass is one method call. Races between the loops, the HTTP handlers and other nodes are not modelled.
- `NodeAgent.Node.CheckTick`: returns the interval to sleep for. `time.sleep` then raises for a negative interval. Such a value can come from `CHECK_INTERVAL`, which `int()` accepts as `"-5"` (dev/app.py:59) and `read_config` keeps while the config file is missing or garbled. It can also come from the config file. It also raises for an interval too large for it (OverflowError), which `api_set_config` accepts because it checks only `>= 1` (dev/app.py:459). Either exception ends `check_loop` for good on every node that reads that interval. This is not modelled.
- Exceptions from `getaddrinfo` other than `gaierror`, which would end the loop: not modelled.
- `datetime.utcnow()`, `isoformat()`, `timestamp()` and `Date.now()`: integer inputs. The probe's `written_at` and `timestamp` are one value, `writtenAt`.
- The error text `str(e)` of a failed probe write: the error record carries no text.
