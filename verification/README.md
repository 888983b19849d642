# A verified model of the adaptive streaming client and server

The program streams video in short numbered segments. A client downloads segments one by one over a small
text protocol, chooses a bitrate for each, and puts them into a bounded buffer that a playback thread empties.
This project models the parts whose correctness depends on what holds over a whole run, and proves what they
keep. All quantities are exact: times, bitrates and scores are `real`, ids and counts are integers.

| module | subject |
|---|---|
| `Tasks`, `Scheduler`, `Reordering`, `PendingTasks` | the task heap, the deadline scheduler on top of it, when it hands out other ids than asked, and what it leaves pending |
| `Buffer`, `BufferHistory` | the bounded buffer, and any series of attempts to put and get |
| `Session`, `SessionProofs`, `SessionHistory`, `Client` | the download loop and the playback thread as interleaved steps, what every run keeps, and what its steps leave behind |
| `Playback`, `SessionReport`, `StallForecast` | the playback thread's report and its time accounting, for any clock script and for those of a session, and the stalls that predictive control foresees |
| `Text`, `Protocol`, `Headers`, `HeaderBreaks`, `HeaderTable` | request lines and response headers, printed and parsed, line breaks included; what any header text means |
| `Rounding`, `Numerals`, `FloatShapes` | durations: six significant digits, their text, what it reads back as, and which texts are numbers at all |
| `Framing`, `Server`, `Listening` | the client's and the server's side of a byte stream that arrives in arbitrary pieces |
| `Lockstep`, `LockstepProofs`, `LockstepServing`, `LockstepAnswers` | many connections of client and handler sharing one segment cache, and what the clients get back |
| `Ladder`, `Mpc`, `MpcBounds`, `MpcChoice`, `MpcScore` | the bitrate ladder and model predictive control |
| `Hysteresis`, `Decisions` | the switch stabiliser and the count of switches |
| `Rate`, `Shaping`, `ShapedRuns` | smoothing, the rate-based controller, and the shaped download path that feeds it |
| `Thresholds` | the two controllers that read the buffer level only |
| `Wrappers`, `Arithmetic` | option and result types, facts about products and quotients |

Classes stand for the program's objects: their methods change fields as the program does, and each is proved
equal to a function from old state to new state. The theorems are about those functions and about runs of them.

## Main results

- **In order.** With any buffer level and clock reading in each round, the scheduler returns exactly the id asked
  for, as long as the ids asked for rise (`Scheduler.RunInOrder`). For a fixed lookahead and any list of ids that is
  the exact condition, but for a lookahead of at most one, where any ids will do (`Reordering.InOrderExactly`). What
  is pushed for later segments stays in the heap, each task once and at its price in seconds, and with lookahead L the
  heap grows by at most L - 1 tasks a round.
- **Session.** In every interleaving the ids requested, stored and played count up from 1 and never pass the segment
  count; stored = played + buffered; a parked thread is one whose condition is really false; and every unfinished
  state allows a step other than a timeout that lowers a measure, so at most 7N + 1 such steps end the session. The
  session's objects keep that invariant. Every segment stored lasts as long as its reply reported, so the level and the
  video played add up to what was reported. The playback report lists the stalls of the session, and startup, stalls and
  video account for the time that has passed, with exact timing up to 0.07 s a segment.
- **Wire.** Request lines read back as printed exactly when name and id are well formed. Headers read back with all
  their values exactly when the duration has at most six significant digits and no line break stands before the last
  visible character of the representation; for any header text there is an exact condition for what it is read as. A
  fetch yields the same result however the stream is cut up. The server
  throws away whatever follows a request line in its buffer, and a line that outgrows its limit with all that came in
  the same piece; it throws nothing away exactly when newlines only ever end the pieces it hears and the last line
  stays within the limit. With a client that waits for each answer that is always so: the k-th answer belongs to the
  k-th request and has status 200, 404 or 400 exactly as that is available, only well formed, or neither; every payload
  is the store's whatever the other handlers do to the shared cache, and comes with the manifest's figures; each handler has
  replied as the server's request loop does on the pieces it was given, and each client has fetched what the socket
  client does from the pieces it got. A client that pipelines can lose requests (`Server.PipelinedRequestIsLost`).
- **Predictive control.** The enumeration loop returns the smallest first level of an optimal plan, which is the choice
  of the staged recursion. A plan's score has a closed form in bitrates, bits and seconds. On a rich network the top level
  is chosen from below it exactly when alpha * H > gamma; on any network the stall of the chosen plan exceeds the least
  possible one by a bounded time only. When downloads take the time assumed, the predicted stall is the time playback really idles, and the one
  reported up to 0.07 s a segment.
- **Stabiliser.** With n levels and stability s, the number of switches times n + s - 1 is at most n times the number of
  decisions, whatever the wrapped controller proposes, and that rate is attained. A call switches up exactly when it
  ends s requests for one level of which the others were held, each over a deep buffer, or over a healthy one at the
  bitrate ratio.
- **Rate.** The smoothing error falls geometrically and below 1 / (1 + k alpha). On constant positive throughput the
  choice settles on that of the true throughput, from an explicit k on, exactly unless alpha is below one and the
  estimate comes from below while safety times the throughput is a rung above the lowest. In every run a download takes its
  wire time or what its bits take at the cap then in force, and its sample is its bits a second. In all runs every choice but
  the lowest level stays within safety times the largest cap exactly when every rung that safety times the lowest
  bitrate reaches does and, unless no level could exceed it, every cap in force after the latency is positive.
- **Thresholds.** Both scans equal closed forms, are monotone in the buffer level, reach every level, and make their
  saturation returns redundant.

## Where code and documentation differ

The model follows the code.

- `client/scheduler/deadline_scheduler.py:6-7` describes deadlines that grow with the segment's place; line 44 uses
  the current time plus slack, which shrinks with it.
- `client/abr/buffer_based.py:8` speaks of the first threshold not above the buffer level; the loop of lines 38-44 stops
  at the last one.

## Model

| member | source | states |
|---|---|---|
| Tasks.FirstExists | client/scheduler/priority_queue.py:15-20 | any non-empty collection of tasks has a minimum in the field-by-field order |
| Tasks.FirstIsUnique | client/scheduler/priority_queue.py:15-20 | that minimum is unique, so a pop is determined by the contents alone |
| Tasks.RootIsFirst | client/scheduler/priority_queue.py:36-40 | the root of a heap-ordered list is its minimum |
| Tasks.RootIsLeast | client/scheduler/priority_queue.py:15-20 | the root has the least priority; of several the earliest deadline; of several it was pushed first |
| Tasks.SwapUp | client/scheduler/priority_queue.py:31-34 | one sift-up step moves the only violation to the parent |
| Tasks.SwapDown | client/scheduler/priority_queue.py:36-40 | one sift-down step moves the only violation to the smaller child |
| Tasks.SegmentScheduler.Push | client/scheduler/priority_queue.py:31-34 | the heap stays ordered and gains exactly one task, numbered by the running sequence |
| Tasks.SegmentScheduler.Pop | client/scheduler/priority_queue.py:36-40 | nothing on an empty heap; else the minimum leaves and all other tasks stay |
| Scheduler.DeadlineScheduler.ScheduleUpcoming | client/scheduler/deadline_scheduler.py:34-47 | the pending tasks gain the round's batch and nothing else |
| Scheduler.DeadlineScheduler.NextSegment | client/scheduler/deadline_scheduler.py:49-57 | push, then pop past stale tasks: result and remaining tasks are those of draining the multiset by minima |
| Scheduler.PopAgrees | client/scheduler/deadline_scheduler.py:53-57 | one pop of the heap is one step of draining the multiset |
| Scheduler.NearerFirst | client/scheduler/deadline_scheduler.py:39-47 | within a round a nearer segment's task precedes a farther one's at every buffer level |
| Scheduler.BatchKeepsGapless | client/scheduler/deadline_scheduler.py:39-47 | pushing a round keeps every later task preceded by tasks for all ids between |
| Scheduler.DrainInOrder | client/scheduler/deadline_scheduler.py:53-57 | draining such a heap yields the requested id, and touches no task for a later id |
| Scheduler.RoundInOrder | client/scheduler/deadline_scheduler.py:49-57 | one round returns the id asked for, whatever old tasks are pending; with lookahead at least one the fallback is not taken |
| Scheduler.RunInOrderFrom | client/client.py:114-115 | the same over any run of rounds from any gapless state, with gaplessness at its end |
| Scheduler.RunInOrder | client/client.py:114-115 | a session's rounds return exactly the increasing ids asked for |
| Scheduler.FutureTasksKept | client/scheduler/deadline_scheduler.py:34-57 | every task pushed for an id beyond the last request is still pending, as often as it was pushed; no others appear |
| Scheduler.HeapGrowth | client/scheduler/deadline_scheduler.py:34-57 | with lookahead L, at most (L - 1) times the number of rounds tasks are added |
| Reordering.ShortRun | client/scheduler/deadline_scheduler.py:49-57 | with a lookahead of at most one any ids are answered as asked, in any order |
| Reordering.DescentSkips | client/scheduler/deadline_scheduler.py:49-57 | with a longer lookahead, an id not above the one before it gets that one's successor instead, when a deep buffer has drained in between |
| Reordering.InOrderExactly | client/scheduler/deadline_scheduler.py:34-57 | for any list of ids, fixed lookahead and non-negative duration, weight and bonus: all levels and times give the ids asked for if and only if they rise or the lookahead is at most one |
| PendingTasks.PriceInSeconds | client/scheduler/deadline_scheduler.py:39-47 | while the buffer covers the seconds ahead, a task is due when it has drained to them and priced (w + 1) ahead - (b + 1) level; beyond it is due now at w ahead - b level |
| PendingTasks.LeftPending | client/scheduler/deadline_scheduler.py:34-57 | after rounds asking for rising ids only tasks of those rounds are pending, at those prices and at most once; for segments still to come all of them are |
| Buffer.BufferManager.Put | client/buffer/buffer_manager.py:46-64 | one evaluation of the put loop: store and notify, wait, or give up and count a drop |
| Buffer.BufferManager.Get | client/buffer/buffer_manager.py:67-79 | one stage of get: take the oldest and notify, wait, or report an empty buffer |
| Buffer.PutKeepsConsistent | client/buffer/buffer_manager.py:53-63 | after a put the level is still the buffered time and at most the bound |
| Buffer.GetKeepsConsistent | client/buffer/buffer_manager.py:70-79 | after a get too, and the negative-level clamp is never what sets the level |
| Buffer.StorableExactlyWhenShort | client/buffer/buffer_manager.py:53-60 | a segment can ever be stored if and only if it is no longer than the whole buffer |
| BufferHistory.FirstInFirstOut | client/buffer/buffer_manager.py:46-79 | over any attempts, what went in is what came out and then what is held; the level is the difference in seconds; refusals are counted |
| BufferHistory.AttemptsDecided | client/buffer/buffer_manager.py:53-78 | a put is stored exactly when the seconds held and its own are within the bound, else refused exactly when its time is up; a get takes the oldest segment, else gives up exactly when it has waited |
| Client.StreamingSession.BeginRound | client/client.py:114-115 | the step that asks the scheduler acts as on the session state, keeps the session invariant, and requests the next id in turn |
| Client.StreamingSession.FinishDownload | client/client.py:124-143 | the step that counts a switch and builds the segment does too |
| Client.StreamingSession.TryPut | client/client.py:145-153 | so does one attempt to store it |
| Client.StreamingSession.FinishLoop | client/client.py:113-155 | so does the end of the loop, with every segment stored |
| Client.StreamingSession.TryGet | client/playback/playback_controller.py:75-85 | so does one attempt of the playback thread to take a segment; the last id played is the number played |
| Client.StreamingSession.FinishSegment | client/playback/playback_controller.py:54-72 | so does the end of a segment, stopping after the last |
| SessionProofs.StepInv | client/client.py:114-155 | every step of either thread keeps the session invariant |
| SessionProofs.RunInv | client/client.py:114-155 | so does every run |
| SessionProofs.SessionSafety | client/client.py:114-155 | requested, stored and played ids count up from 1 within the count; stored = played + buffered; counters agree; a finished session played all segments |
| SessionProofs.LevelIsBufferedTime | client/buffer/buffer_manager.py:46-79 | at every moment of every run the level is the buffered time, between zero and the bound |
| SessionProofs.NoLostWakeup | client/buffer/buffer_manager.py:53-79 | a thread parked without a pending notification would have to wait again: its condition is false |
| SessionProofs.StepWork | client/playback/playback_controller.py:44-85 | every step other than an empty timeout or a repeated wait lowers the remaining work, and those keep it |
| SessionProofs.Progress | client/playback/playback_controller.py:44-85 | every unfinished reachable state has an enabled step that lowers the remaining work |
| SessionProofs.SessionLength | client/client.py:114-155 | no run has more than 7N + 1 useful steps |
| SessionHistory.StoredAsReported | client/client.py:145-153 | in every run the i-th segment stored lasts what the i-th reply reported, or 2 s if zero; level plus video played is the sum of those |
| SessionHistory.SwitchesOfRun | client/client.py:139-143 | the switch counter is the number of downloads at another level than the one before, the first compared with level 0 |
| SessionHistory.SchedulerOfRun | client/client.py:114-115 | requests and pending tasks are those of the scheduler on rounds with the next id, three ahead, at the buffered time of that moment |
| SessionHistory.HeapOfSession | client/client.py:114-115 | so of the tasks for segments not yet requested exactly those pushed are pending, once each |
| Playback.PlaybackController.Run | client/playback/playback_controller.py:44-72 | the report is the one the script of buffer results and clock readings determines |
| Playback.PlayAccounted | client/playback/playback_controller.py:54-71 | over any part of the loop stalls add up, are ordered and disjoint, and fit beside the video in the elapsed time |
| Playback.TimeAccounting | client/playback/playback_controller.py:44-87 | rebuffer seconds are the sum of the events; startup delay, stalls and playing time together are at most the elapsed time |
| Playback.UnreportedIdle | client/playback/playback_controller.py:54-71 | per segment at most one short timeout plus one unreported stall of idle time is missing from the report |
| Playback.IdleAfterStartup | client/playback/playback_controller.py:44-72 | idle time after startup lies between the reported stalls and that plus 0.07 s for each later segment |
| Playback.TurnsPlayed | client/playback/playback_controller.py:54-72 | turns are played one by one until the total is reached, a long wait runs out or the script ends; the startup delay stays |
| Playback.StallsReported | client/playback/playback_controller.py:56-68 | the events are those of the turns whose long wait took more than 0.02 s, with their start in the session, length and segment |
| Playback.StartupAndIdle | client/playback/playback_controller.py:44-72 | the startup delay is the first arrival minus the start of waiting; with exact timing the time since is that delay, the stalls and the video, and at most 0.07 s more for each later segment |
| SessionReport.PlayedThrough | client/playback/playback_controller.py:54-72 | while the total is not exceeded every turn is played and counted |
| SessionReport.ReportOfSession | client/playback/playback_controller.py:44-87 | for every session run and clock script: the report counts what the session played, stalls are ordered and disjoint, and startup, stalls and all the video played fit in the time passed |
| SessionReport.ClockOfSession | client/playback/playback_controller.py:44-72 | for session runs with exact timing: the report lists the stalls of the script, and leaves at most 0.07 s a segment of the time unexplained |
| StallForecast.IdleClosedForm | client/playback/playback_controller.py:54-71 | idle time is the largest lag of a segment's arrival behind the video shown before it, or nothing |
| StallForecast.ForecastIsIdle | client/abr/mpc.py:42-46 | the stall predicted for a plan is the time playback idles when the downloads take the time assumed |
| StallForecast.ForecastIsReported | client/playback/playback_controller.py:54-71 | and the stalls reported for those segments, up to 0.07 s each |
| Text.DecimalRoundTrip | common/protocol.py:34-44 | reading a printed number gives it back |
| Text.PaddedRoundTrip | common/protocol.py:34 | zero padding to a width changes neither value nor longer numbers |
| Text.IntRoundTrip | common/protocol.py:58-95 | the same for signed numbers |
| Text.NoLeadingZero | common/protocol.py:59-64 | printed numbers have no leading zero |
| Text.PlacesOfText | common/protocol.py:34 | an id in a path has three places at least, its sign among them, and reads as the id |
| Text.IntegerGrammar | common/protocol.py:91-93 | an integer is read off a text if and only if, spaces and one sign apart, it is digits with single underscores between them; and is what the digits write |
| Rounding.ExponentBounds | common/protocol.py:62 | the decimal exponent places a positive number between two powers of ten |
| Rounding.RoundedExactly | common/protocol.py:62 | keeping six significant digits leaves a number alone if and only if six digits and a power of ten write it |
| Rounding.RoundedNearest | common/protocol.py:62 | rounding is off by at most half a unit of the sixth digit |
| Rounding.TiesToEven | common/protocol.py:62 | half-way cases go to the even digit |
| Numerals.NumeralReads | common/protocol.py:94 | digits, point and exponent are read as the number they write |
| Numerals.LayoutAmount | common/protocol.py:62 | positional and scientific layouts write the rounded number |
| Numerals.GeneralReads | common/protocol.py:62-94 | a printed finite duration reads back rounded to six significant digits |
| Numerals.FloatReads | common/protocol.py:62-94 | so do infinities and not-a-number, unchanged |
| Numerals.GeneralExactly | common/protocol.py:62-94 | it reads back unchanged if and only if six significant digits can write it |
| Numerals.SeventhDigitIsLost | common/protocol.py:62-94 | a duration of 1.000001 reads back as 1 |
| Numerals.GeneralShape | common/protocol.py:62 | no superfluous zeros are printed, and an exponent is exactly when the rounded number is below 0.0001 or at least a million |
| FloatShapes.FloatExactly | common/protocol.py:94 | a finite number is read off a text if and only if, spaces and one sign apart, it is grouped digits, a point and grouped digits, and an exponent, some of them missing; and is what those write |
| Text.StripParts | common/protocol.py:40 | strip removes whitespace at both ends and nothing else |
| Protocol.RequestText | common/protocol.py:33-35 | the bytes of a request |
| Protocol.ShapeAccepted | common/protocol.py:26-47 | every line of the documented shape is accepted, unless its id is zero |
| Protocol.AcceptedShape | common/protocol.py:26-47 | every accepted line has that shape |
| Protocol.RequestGrammar | common/protocol.py:26-47 | a line parses to a request if and only if it has the shape with that name and that id, at least one |
| Protocol.RequestRoundTrip | common/protocol.py:33-47 | a printed request parses back to itself if its name is ASCII alphanumeric and its id positive, and fails otherwise |
| Protocol.AcceptedReprints | common/protocol.py:33-47 | printing an accepted request again gives a line with the same meaning |
| Headers.ParseResponseHeader | common/protocol.py:70-97 | the line loop computes the header the specification reads off the text |
| Headers.HeaderText | common/protocol.py:58-67 | the bytes of a header |
| HeaderTable.SetsExactly | common/protocol.py:80-88 | a line sets a key to a value if and only if, stripped, it is that key, space and that value, or the key alone |
| HeaderTable.EntriesExactly | common/protocol.py:72-88 | an entry holds a value if and only if the last line with its key before DATA sets it so |
| HeaderTable.HeaderReadsExactly | common/protocol.py:70-97 | any text is accepted as a given header if and only if status and size are held and read as its numbers, the size not negative, bitrate and duration are read so or are absent and zero, and the entries are the values held |
| Headers.FieldLine | common/protocol.py:72-88 | a printed field splits into its key and its stripped value, also when the value is empty |
| Headers.LinesRead | common/protocol.py:73-88 | the printed lines are read as the table of their fields |
| Headers.EntryValues | common/protocol.py:58-66 | that table has all six fields with the values printed |
| HeaderBreaks.SplitAtEnd | common/protocol.py:73 | a CR LF ends a line whatever comes before it |
| HeaderBreaks.HarmfulBreaks | common/protocol.py:72-88 | a line break before visible characters leaves the representation read with fewer of them, whatever lines it adds |
| HeaderBreaks.HeaderSurvivesExactly | common/protocol.py:50-97 | a printed header reads back entire, the duration to six digits, if and only if no line break stands before the last visible character of the representation |
| HeaderBreaks.HeaderExactly | common/protocol.py:50-97 | it reads back with every field as it was if and only if, besides, six significant digits can write the duration |
| HeaderBreaks.NegativeSizeRefused | common/protocol.py:95-96 | the one such header that is refused has a negative size |
| Framing.SocketClient.ReadLine | client/network/socket_client.py:67-71 | takes the stream up to its first CR LF, however it is cut up, or fails and keeps what there is |
| Framing.SocketClient.ReadHeaderLines | client/network/socket_client.py:73-82 | takes the header the whole stream begins with, or fails as the specification says |
| Framing.SocketClient.ReadExact | client/network/socket_client.py:84-88 | takes exactly n bytes, or fails when the stream ends before |
| Framing.SocketClient.FetchSegment | client/network/socket_client.py:44-56 | sends one request and takes header and payload off buffer plus undelivered pieces |
| Framing.HeaderStable | client/network/socket_client.py:67-82 | a header read that has ended is not changed by bytes that arrive later |
| Framing.HeaderLimit | client/network/socket_client.py:73-82 | a header is read to its DATA line if and only if at most 32 lines precede that; otherwise it is refused after the 33rd |
| Framing.FetchStable | client/network/socket_client.py:44-88 | neither is a whole fetch |
| Framing.FetchTakesResponse | client/network/socket_client.py:44-88 | a fetch takes one response off the stream whole, whatever its payload contains and whatever follows |
| Framing.FramingRoundTrip | client/network/socket_client.py:44-88 | n fetches take n concatenated responses, in order and complete |
| Server.SegmentManager.LoadBytes | server/segment_manager.py:78-96 | returns the store's bytes from cache or file and leaves them cached |
| Server.SegmentManager.Resolve | server/segment_manager.py:61-76 | none for what the store lacks, else a segment with the store's bytes |
| Server.ConnectionHandler.ReadRequestLine | server/request_parser.py:30-43 | the line read, and exactly which bytes are thrown away: those behind it, or an over-long line |
| Server.ConnectionHandler.Handle | server/connection_handler.py:50-75 | one reply per line, and whether the connection stays open |
| Server.ConnectionHandler.Run | server/connection_handler.py:39-75 | the replies sent and the bytes thrown away over a whole connection |
| Server.LineTakesChunk | server/request_parser.py:36-42 | reading a line uses up part of what arrives |
| Server.ServeStep | server/connection_handler.py:44-75 | a connection is served one line at a time until it ends |
| Server.RequestIsOneLine | common/protocol.py:33-35 | a printed request has one newline, at its end, and strips to its line |
| Server.LineDropsExactly | server/request_parser.py:36-43 | reading a line throws nothing away if and only if newlines only end the pieces it uses up |
| Server.LineExactly | server/request_parser.py:35-43 | the line read is what precedes the first newline to arrive, stripped, and the rest of that piece goes, unless more than 4096 bytes have arrived by then |
| Server.LineOutgrows | server/request_parser.py:36-42 | short of a newline, a read ends for length if and only if what arrives exceeds the limit |
| Server.HeardIsPrefix | server/connection_handler.py:44-75 | what the answered lines use up is the beginning of what arrives |
| Server.DropsNothingExactly | server/request_parser.py:30-43 | a connection throws no byte away if and only if newlines only end the pieces the server hears and the rest, unless cut off by a hang-up, is within the limit |
| Server.OnlyOverlongDropped | server/request_parser.py:30-43 | when newlines only end what arrives, nothing is thrown away but an over-long last line |
| Server.OverlongTakesPiece | server/request_parser.py:41-42 | a piece that carries a line past the limit is thrown away with it, whole requests included |
| Listening.ListenServes | server/connection_handler.py:44-75 | hearing the pieces one by one gives the replies and losses of the request loop |
| Server.PipelinedRequestIsLost | server/request_parser.py:43 | two requests arriving in one piece: the second is dropped and never answered |
| Lockstep.AnswerMeaning | server/connection_handler.py:50-75 | which requests get 400 and a hang-up, which 404, and which the segment |
| Lockstep.PrefixFetch | client/network/socket_client.py:44-56 | a fetch ends on a prefix of the answer only when that is the whole answer |
| LockstepProofs.HandlerGetsRequest | server/request_parser.py:36-43 | the handler reads exactly the outstanding request, at its last byte and not before |
| LockstepProofs.StepInv | server/connection_handler.py:44-75 | every step of client, handler or channel keeps the connection invariant and the cache |
| LockstepProofs.RunInv | server/connection_handler.py:44-75 | so does every run of any number of connections |
| LockstepProofs.LockstepSafety | server/connection_handler.py:44-75 | nothing is ever dropped, and the k-th answer is the one to the k-th request |
| LockstepProofs.CacheIsStore | server/segment_manager.py:78-96 | whatever handlers race on it, the cache only holds the store's bytes |
| LockstepProofs.NeverStuck | client/network/socket_client.py:44-56 | a client waiting for an answer always has a step ahead |
| LockstepProofs.StepShortens | client/network/socket_client.py:44-56 | every such step brings the answer closer |
| LockstepProofs.FetchEnds | client/network/socket_client.py:44-56 | so a fetch ends within a number of steps fixed at its start |
| LockstepServing.HeardStep | server/connection_handler.py:44-75 | every step keeps handler and piece-by-piece listener in agreement |
| LockstepServing.LockstepIsServe | server/connection_handler.py:44-75 | in every run each handler has made the replies and losses of the request loop on the pieces it was given, and the client's answers are those replies |
| LockstepAnswers.ReplyMeaning | server/connection_handler.py:50-75 | to any line: 400 and a hang-up if it is no request, 404 if there is no such segment, else 200 with content, length, manifest bitrate and duration, name and id |
| LockstepAnswers.NothingAfter400 | server/connection_handler.py:57-59 | a reply of 400 is the last |
| LockstepAnswers.AnswersExactly | server/connection_handler.py:50-75 | in every run the k-th answer has status 200, 404 or 400 if and only if what the k-th request asks for is available, it is only well formed, or neither; with 200 come content, length, the manifest's bitrate and rounded duration, and name and id as asked |
| Framing.FeedIsFetch | client/network/socket_client.py:67-88 | looking for a reply after every piece ends as a fetch from all of them does, with the same bytes left |
| LockstepServing.LockstepIsFetch | client/network/socket_client.py:44-56 | in every run a client's answers and buffer are what successive fetches leave of the pieces it got |
| Ladder.HighestFitting | client/abr/base.py:63-72 | the loop stops at the last level of the leading run that fits |
| Ladder.HighestFits | client/abr/base.py:63-72 | on a rising ladder that is the highest level that fits, or level 0 |
| Ladder.QualityRises | client/abr/base.py:20-23 | quality rises strictly with the level and ends at one |
| Ladder.QualityIsProportional | client/abr/base.py:20-23 | qualities are to one another as bitrates |
| Ladder.ClampIsNearest | client/abr/base.py:60-61 | clamping gives the nearest level |
| Mpc.Simulate | client/abr/mpc.py:37-55 | the loop's score is the sum of staged scores along the plan |
| Mpc.PlansSound | client/abr/mpc.py:62 | every enumerated plan has the horizon's length and levels of the ladder |
| Mpc.PlansComplete | client/abr/mpc.py:62 | every such plan is enumerated |
| Mpc.FirstsRise | client/abr/mpc.py:62 | plans come in the order of their first level |
| Mpc.Select | client/abr/mpc.py:57-69 | returns the smallest first level of a plan no other plan of the horizon, one segment at least, beats; without throughput the lowest bitrate stands for it |
| Mpc.NoPlanBeatsValue | client/abr/mpc.py:57-69 | no plan scores above the staged recursion's value |
| Mpc.ValueReached | client/abr/mpc.py:57-69 | some plan attains it |
| Mpc.OptimalMeetsValue | client/abr/mpc.py:57-69 | a plan is optimal if and only if it attains it |
| Mpc.ChoiceIsBellman | client/abr/mpc.py:57-69 | the enumeration's choice is exactly the first level that attains the recursion's value |
| MpcBounds.StallClosedForm | client/abr/mpc.py:42-46 | the total stall is the largest deficit of buffer against download time over all prefixes, or zero |
| MpcBounds.TimeIsBits | client/abr/mpc.py:43-44 | download times move bitrate times duration, summed over the plan, at the throughput, or at one bit a second if that is more |
| MpcBounds.KeepsUpExactly | client/abr/mpc.py:43-44 | a level downloads within its own duration if and only if its bitrate is at most the throughput |
| MpcBounds.StallInBits | client/abr/mpc.py:42-46 | the total stall is the time to move the largest excess of bits over what fits in the buffered time and the segments gained, or zero |
| MpcBounds.BufferConservation | client/abr/mpc.py:42-46 | final buffer = initial buffer + video - download time + stalls |
| MpcBounds.ScoreMonotone | client/abr/mpc.py:42-54 | a fuller buffer and a faster network never lower a plan's score nor lengthen its stalls |
| MpcBounds.ValueMonotone | client/abr/mpc.py:57-69 | nor do they lower the best score |
| MpcBounds.ScoreUpper | client/abr/mpc.py:48-53 | a score is at most weighted quality minus weighted stalls minus weighted variation |
| MpcBounds.VariationReaches | client/abr/mpc.py:50 | the total variation of a plan is at least its rise to any of its levels |
| MpcBounds.SteadyScore | client/abr/mpc.py:42-55 | the score of staying on a level the network sustains |
| MpcChoice.BelowTopIsWorse | client/abr/mpc.py:42-55 | with alpha * H > gamma every plan not starting at the top loses to staying there |
| MpcChoice.RichThroughput | client/abr/mpc.py:57-69 | hence the top level is chosen from any current level on a network that affords it |
| MpcChoice.StayingTiesTop | client/abr/mpc.py:57-69 | otherwise staying on the current level scores at least as well as any plan starting at the top |
| MpcChoice.TopStays | client/abr/mpc.py:57-69 | from the top level the top is chosen if and only if quality or switching has a positive weight |
| MpcChoice.RichThroughputExactly | client/abr/mpc.py:57-69 | on such a network and several levels, the exact condition on the weights for choosing the top, from any current level |
| MpcChoice.StallBound | client/abr/mpc.py:57-69 | the stall of an optimal plan is at most (alpha H (1 - q0) + gamma (q - q0)) / beta, and its first segment arrives within the buffered time and that |
| MpcScore.QualityInBitrates | client/abr/mpc.py:48 | total quality is the sum of bitrates over the top one |
| MpcScore.VariationInBitrates | client/abr/mpc.py:50 | total variation is the sum of bitrate differences over the top one |
| MpcScore.BufferInBits | client/abr/mpc.py:44-46 | the buffer after a plan, in bits: what was there, segments and stall, less the bits downloaded |
| MpcScore.ScoreExactly | client/abr/mpc.py:37-55 | the score is alpha quality - beta stall - gamma variation - the risk cost of each download that leaves less than 2 s |
| MpcScore.ExcessStall | client/abr/mpc.py:57-69 | on any network an optimal plan stalls longer than staying on the lowest level by at most a limit given by the weights |
| MpcScore.FirstArrives | client/abr/mpc.py:57-69 | so its first segment arrives within the buffered time, that least stall and that limit |
| Hysteresis.HysteresisABR.Select | client/abr/hysteresis.py:37-70 | level and hold state after a call are those of the decision function |
| Hysteresis.HoldIsHistory | client/abr/hysteresis.py:41-70 | the count stays below the stability; it is positive exactly with a candidate; the last calls all requested it, were allowed and kept the level |
| Hysteresis.UpOnlyWhenStable | client/abr/hysteresis.py:41-70 | an up-switch ends that many identical allowed requests; the level returned never exceeds the clamped proposal; down-switches are immediate |
| Hysteresis.UpExactlyWhenStable | client/abr/hysteresis.py:41-70 | a call switches up to a level if and only if the last calls, as many as the stability, were allowed requests for it and all but this one were held |
| Hysteresis.StableSeriesSwitches | client/abr/hysteresis.py:60-70 | every such series contains an up-switch to its level |
| Hysteresis.UpNeedsRatio | client/abr/hysteresis.py:48-70 | an up-switch ends as many proposals of its level, each over the deep buffer, or over the minimum with bitrate at least the ratio times the one in force |
| Hysteresis.RatioSeriesSwitches | client/abr/hysteresis.py:48-70 | as many such proposals in a row contain the up-switch |
| Hysteresis.SwitchesAreUpsAndDowns | client/client.py:139-143 | the client's switch counter is up-switches plus down-switches |
| Hysteresis.LoopBudget | client/abr/hysteresis.py:37-70 | ups times stability + downs + count is at most the number of decisions, and downs are paid for by ups |
| Hysteresis.SwitchRate | client/client.py:124-143 | switches times (n + s - 1) is at most decisions times n |
| Hysteresis.SwitchRateAttained | client/client.py:124-143 | for every number of cycles there are proposals that meet the bound with equality |
| Rate.EWMA.Update | client/throughput/ewma.py:18-24 | first sample taken as it is, later ones mixed in; the sample counter advances |
| Rate.EstimateWithin | client/throughput/ewma.py:18-24 | from scratch the estimate stays between the smallest and the largest sample |
| Rate.GeometricError | client/throughput/ewma.py:18-24 | on constant throughput the error after k samples is (1 - alpha)^k times the first |
| Rate.Bernoulli | client/throughput/ewma.py:18-24 | that factor times 1 + k alpha is at most one |
| Rate.ErrorBound | client/throughput/ewma.py:18-24 | so the error after k samples is at most the first divided by 1 + k alpha |
| Rate.EstimateAppend | client/throughput/ewma.py:18-24 | smoothing a series is smoothing its tail from where its head ended |
| Rate.SelectByRate | client/abr/rate_based.py:16-18 | the choice is made on the estimate, or on the lowest bitrate when there is none or it is zero |
| Rate.Settles | client/abr/rate_based.py:16-18 | after any history, k constant samples settle the choice once the error bound clears the next rung on the estimate's side |
| Rate.SettlesExactly | client/abr/rate_based.py:16-18 | on constant positive throughput the choice settles if and only if a smoothed estimate does not come up from below to an exact rung above the lowest |
| Rate.SettlesOnDeadLink | client/abr/rate_based.py:16-18 | on zero throughput it settles on the lowest level if and only if the estimate only fades, or the fallback is the lowest level |
| Rate.NeverReachesExactRung | client/abr/rate_based.py:16-18 | when safety times the throughput is a rung, an estimate rising to it misses the choice of the true throughput at one of any two successive samples |
| Shaping.StepAtIsLastReached | client/network/shaper.py:52-64 | on a sorted timeline the scan stops at a step if and only if it is the last one reached, or the first when none is |
| Shaping.NetworkShaper.Start | client/network/shaper.py:47-50 | anchors the timeline once; later calls change nothing |
| Shaping.NetworkShaper.CurrentCap | client/network/shaper.py:52-64 | returns the cap of that step for the time since the anchor |
| Shaping.NetworkShaper.ApplyDownloadDelay | client/network/shaper.py:72-85 | sleeps for, and returns, what a transfer lacks to the time its cap requires |
| Shaping.Download | client/network/downloader.py:34-57 | time, throughput and clock after one shaped or unshaped download, delayed only on success |
| Shaping.MeasuredIsSlowest | client/network/downloader.py:43-46 | through a positive cap the throughput measured is the smaller of wire speed and cap |
| Shaping.WithinCapExactly | client/network/shaper.py:77-85 | a measurement respects the cap if and only if the cap is positive, or zero with nothing measured |
| Shaping.Adapt | client/client.py:114-137 | the session loop with shaper, smoothing and rate-based control makes the choices the run function determines |
| ShapedRuns.RunInBits | client/network/downloader.py:34-46 | in every run a download takes its wire time or its bits over the cap in force when its last byte is on hand, measures its bits a second, and the level before it is chosen on the smoothed measurements so far |
| Shaping.ChoicesAffordable | client/client.py:117-137 | when the fallback is covered and every cap in force is positive, in every run every choice is the lowest level or within safety times the largest cap |
| Shaping.FallbackOvershoots | client/client.py:120 | when it is not, the first choice already exceeds that |
| Shaping.AppliedSometime | client/network/shaper.py:52-64 | a step counted as applied is in force at some time after the latency |
| Shaping.UncappedOvershoots | client/network/shaper.py:77-79 | an applied step without a positive cap lets one fast download push the next choice to any level |
| Shaping.AffordableExactly | client/client.py:117-137 | on any sorted timeline all runs from an empty estimate keep the bound if and only if the fallback is covered and either all applied caps are positive or no level could exceed it |
| Thresholds.BufferBasedABR.Select | client/abr/buffer_based.py:32-44 | the loop's level is that of the scan over the band thresholds |
| Thresholds.ThresholdOnScale | client/abr/buffer_based.py:27-30 | a threshold is passed exactly when its index is passed on the bands' own scale |
| Thresholds.BandReached | client/abr/buffer_based.py:32-44 | a level is reached if and only if its own threshold is |
| Thresholds.BandsAreArithmetic | client/abr/buffer_based.py:32-44 | the level is the clamped floor of (B - reserve)(n - 1) / (cap - reserve) |
| Thresholds.BandSaturationIsRedundant | client/abr/buffer_based.py:34-37 | the two early returns give what the scan would |
| Thresholds.BandsMonotoneOnto | client/abr/buffer_based.py:32-44 | more buffer never lowers the level, and each level is chosen at its threshold |
| Thresholds.BOLA.Select | client/abr/bola.py:53-68 | the loop's level is that of the first score that is not negative, else the top |
| Thresholds.ScoreIsDistance | client/abr/bola.py:39-51 | a score is the distance of the buffer to b_low + V (q_i - q_0) |
| Thresholds.CoversRise | client/abr/bola.py:39-48 | these marks rise strictly from b_low and stay below b_high |
| Thresholds.BolaIsLeastCover | client/abr/bola.py:53-68 | the level is the least whose mark reaches the buffer, else the top |
| Thresholds.BolaInBitrates | client/abr/bola.py:39-68 | in seconds and bitrates: the level is at most i if and only if i is the top or (B - low) top bitrate <= (high - low)(bitrate i - bitrate 0) |
| Thresholds.BolaSaturationIsRedundant | client/abr/bola.py:55-58 | the two early returns give what the scan would |
| Thresholds.BolaMonotoneOnto | client/abr/bola.py:53-68 | more buffer never lowers the level, and each level is chosen at its mark |

## Left out

- Sockets, threads, clocks and sleeping: byte streams are sequences of pieces, threads are interleaved atomic steps, clock
  readings and the pieces' sizes are inputs. That the operating system eventually runs an enabled thread is not modelled.
- Rounding of floating-point numbers; everything is exact.
- The heap library's own sifting order: pushes and pops are those of a textbook binary heap. Tasks are totally ordered by
  their sequence number, so the results do not depend on it.
- Class inheritance: the deadline scheduler holds its heap instead of extending it, and the controllers share functions.
- Constructor checks that raise (a non-positive buffer bound, a smoothing factor outside (0, 1], crossed thresholds) are
  preconditions of the constructors; so are a ladder of at least two levels for the band controller, whose constructor
  divides by zero on one level, and a non-empty timeline for the shaper, which is taken as already sorted.
- Playback after a 600 s wait without a segment, and sessions whose downloads fail: the session model has successful
  downloads of segments no longer than the buffer, and no such timeout.
- Which level the controller picks inside the session model: any index of the ladder may be chosen, so the session
  results hold for all controllers.
- Timed `put` in the session: the client calls it without a timeout. The buffer model has the timed branch.
- More than one producer or consumer for a buffer; the client has one of each.
- Text beyond ASCII: Unicode whitespace, digits and replacement of undecodable bytes. A character stands for a byte.
- Lockstep requests are single lines of at most 4096 bytes: a client that sends others is outside the lockstep results,
  not outside the server model.
- Forecasts compare playback at speed one with downloads that follow each other without waiting for buffer space.
- A line the peer never finishes before closing is not counted as thrown away.
- Client-side network shaping's packet-loss figure, which the program reads and does not use.
- Real segment files, the manifest and the synthetic payload generator: the store is a fixed function from representation
  and id to bytes.
- Server counters, the accept loop, socket timeouts of idle connections, and reconnecting.
- Metrics storage, quality-of-experience summaries, analysis, plots, scripts and command lines.
- The moving-average estimator, resetting the smoothing, and the factory that picks a controller by name are not modelled.
