# The line monitor, modelled and proved

This project models in Dafny the parts of the program that compute or keep
something, and proves what they are for, for all inputs and all runs.

- `ber.dfy`, `oid.dfy`, `snmp.dfy`, `agent.dfy`, `walk.dfy`, `wire.dfy`: SNMPv2c
  messages, the reference agent and the walk of a branch, as bytes and over the
  packets of its exchanges; `device.dfy`: the messages of any other device.
- `mqtt.dfy`: framing and packets of MQTT 3.1.1, with the readers of the test
  broker.
- `journal.dfy`, `detect.dfy`, `recorder.dfy`, `episodes.dfy`: the journal of
  the line as a table, what a reading or a failure writes in it, and what every
  run keeps, restarts of the program included; `line_report.dfy`: which reading,
  failure or answer of the modem is told, and how.
- `shares.dfy`: the time per state in the report, against the instants
  themselves.
- `notify.dfy`, `alerts.dfy`: the cursor of the notifier, under failures, crashes,
  deletions and retention, and what it sends to whom.
- `samples.dfy`, `meter.dfy`, `slices.dfy`, `probe.dfy`, `failures.dfy`,
  `probe_report.dfy`, `resumption.dfy`: the Internet probe: slices of measures
  against the instants of the attempts, outages and short cuts against their
  runs of failures, default settings, what is told of them, stops of the
  program.
- `counters.dfy`: errors counted over counters that restart from zero.
- `version.dfy`, `version_text.dfy`, `version_bound.dfy`, `orders.dfy`: the texts
  of versions and their order, up to which numbers it is one, and the choice of
  the latest.
- `limiter.dfy`: the delay after failed logins, in 64-bit arithmetic.
- `regression.dfy`, `scale.dfy`, `reals.dfy`: least squares, correlation and
  axis marks.
- `wrappers.dfy`: options, results, fixed-width integers, sequences.

Code that updates state in the source is a class or a method with loops here,
proved equal to a specification function; the theorems are about that function.
Times are integers in nanoseconds, whole seconds once stored. Numbers with a
decimal point are exact reals. Tables are sequences or maps in the order of
the query that reads them.

What the proofs found. Each comes with its exact condition and, but for the
lengths of elements and topics, with a concrete case:

- a restart request can be concluded twice, when the reading that concludes it
  falls in the very second of the request (`Episodes.ConcludedTwice`,
  `Episodes.ConclusionIsFinal`);
- an event can be passed over by the notifier, when deleting a note or dropping
  old events leaves the cursor ahead of the journal: the table gives an
  identifier again (`Notifications.AlertNeverSent`,
  `Notifications.NewEventLookedAt`, `Notifications.OnTopKept`);
- over versions whose numbers are m at most, "newer" is an order if and only if
  m fits in an int: just above, three of them make a cycle
  (`VersionBounds.OrderedUpToInt`, `VersionBounds.CycleAtBound`);
- the report leaves a state that changes in the last, unfinished second of a
  period under the previous state (`Shares.LastSecondMissed`,
  `Shares.SharesAreTime`);
- after a reading without channels the timeline counts what happened since the
  last one that has channels, the journal nothing (`Counters.GapCountsApart`,
  `Counters.PointAgainstJournal`);
- elements and topics longer than 65535 bytes are written with a length that
  wraps (`Ber.ElementOfTlv`, `Mqtt.PublishRoundTrip`).

The comment above `niceScale` speaks of 1, 2, 2.5 and 5 times a power of ten;
the code also tries 10 and 20, which are again 1 and 2 times a power of ten.

## Model

| member | source | states |
|---|---|---|
| `Ber.EncodeInt` | internal/snmp/snmp.go:271-279 | the eight-byte loop writes the integer element whose content is the shortest two's complement form |
| `Ber.IntContentShortest` | internal/snmp/snmp.go:271-279 | for every int64 the content has that value and is the shortest allowed by section 8.3.2 of ITU-T X.690, eight bytes at most |
| `Ber.UintContentShortest` | internal/snmp/agent.go:45-56 | an unsigned integer is written on the fewest octets, a zero octet keeping it positive, and reads back as itself |
| `Ber.ShortestUnique` | internal/snmp/snmp.go:271-279 | a value has only one shortest form, so the form written is the standard's |
| `Ber.DecodeInt` | internal/snmp/snmp.go:399-411 | any content decodes to its two's complement value wrapped to 64 bits |
| `Ber.DecodeUint` | internal/snmp/snmp.go:413-419 | any content decodes to its unsigned value modulo 2^64 |
| `Ber.WrapsModulo` | internal/snmp/snmp.go:399-411 | what is kept of an integer too long for 64 bits differs from it by a multiple of 2^64 |
| `Ber.EncodeUint` | internal/snmp/agent.go:45-56 | the loop over low bytes yields the shortest unsigned content |
| `Ber.ReadElement` | internal/snmp/snmp.go:377-397 | the three length forms are read exactly as specified by Element, errors included |
| `Ber.ElementOfTlv` | internal/snmp/snmp.go:257-269 | an element is read back from what tlv wrote if and only if its content is at most 65535 bytes; beyond, the written length wraps |
| `Ber.ElementConsumes` | internal/snmp/snmp.go:377-397 | whatever is accepted starts with the tag, then length octets that announce the content, then the content, then the rest of the input |
| `Devices.ElementIff` | internal/snmp/snmp.go:377-397 | the reader accepts exactly the elements of the tag whose length is in short form or on one to three octets, in any number of leading zeros, and gives their content and what follows |
| `Devices.ValueSaid` | internal/snmp/snmp.go:345-370 | counters, gauges, ticks and 64-bit counters are read as the unsigned integer of their content, strings, addresses and opaque values as octets, both markers of absence and the end mark as such, other types as nothing, for every content and every form of length |
| `Devices.GaugeRead` | internal/snmp/snmp.go:350-353 | the three bytes of a gauge of 38 are read as 38 |
| `Devices.ItemsSaid` | internal/snmp/snmp.go:323-372 | a list of such variables is read with each of them, in order |
| `Devices.AnswerSaid` | internal/snmp/snmp.go:297-373 | an answer of any device gives its identifier and its variables if its status is zero, and that status as an error otherwise |
| `Devices.OthersRefused` | internal/snmp/snmp.go:297-322 | a message of another kind than an answer, or followed by anything, is refused |
| `Devices.RequestIsStandard` | internal/snmp/snmp.go:244-255 | the bytes of a request are a message of the standard, kind 0xa5 for a walk and 0xa0 for a read, with its identifier, counts and null variables |
| `Oids.Compare` | internal/snmp/snmp.go:177-187 | the sign of the loop's result is the lexicographic order, zero only for equal identifiers |
| `Oids.LessTotal` | internal/snmp/snmp.go:177-187 | exactly one of before, after, equal holds for any two identifiers |
| `Oids.LessTransitive` | internal/snmp/snmp.go:177-187 | the order is transitive |
| `Oids.InBranch` | internal/snmp/snmp.go:80-90 | the loop tests whether one identifier is under another |
| `Oids.BranchContiguous` | internal/snmp/snmp.go:165-171 | between two objects of a branch everything belongs to the branch, which is why a walk may stop at the first object outside |
| `Oids.EncodeOid` | internal/snmp/snmp.go:281-294 | the loops write the base-128 content of section 8.19 of ITU-T X.690, the first byte computed as the code does, with its wrap-around |
| `Oids.DecodeOid` | internal/snmp/snmp.go:421-440 | arcs are read on 32 bits with the same errors for empty and cut contents |
| `Oids.AnyArcRead` | internal/snmp/snmp.go:421-440 | an arc written on any number of bytes is their base-128 value on 32 bits |
| `Oids.OidRoundTrip` | internal/snmp/snmp.go:281-440 | an identifier is read back if and only if its first arc is 0 or 1 with a second below 40, or 2 with a second at most 175 |
| `Oids.CutOid` | internal/snmp/snmp.go:421-440 | the content of an identifier cut anywhere before its end is never read as that identifier |
| `Oids.ReadOidEncodable` | internal/snmp/snmp.go:421-440 | every identifier ever read can be written back |
| `Snmp.Encode` | internal/snmp/snmp.go:244-255 | the request of the client is the message specified, as bytes |
| `Snmp.EncodeValue` | internal/snmp/agent.go:39-62 | each kind of value is written under its tag; the exception markers become Null |
| `Snmp.Decode` | internal/snmp/snmp.go:297-373 | a message of any bytes is read as specified, error cases included |
| `Snmp.ValueRoundTrip` | internal/snmp/agent.go:39-62 | a value is read back from its bytes if and only if its content holds on 65535 bytes and, for an identifier, can be encoded |
| `Snmp.ListRoundTrip` | internal/snmp/snmp.go:330-372 | any list of variables is read back, same order and values, if and only if each variable holds on 65535 bytes and its identifiers can be encoded |
| `Snmp.CutVarBind` | internal/snmp/snmp.go:330-397 | the bytes of a variable cut anywhere before their end are never read as that variable |
| `Snmp.ResponseRoundTrip` | internal/snmp/agent.go:97-127 | an agent's response decodes to the request's identifier and the same list if and only if the message fits in 65535 bytes and every variable can be encoded |
| `Snmp.TooLong` | internal/snmp/snmp.go:257-269 | a message longer than 65535 bytes is refused by the reader |
| `Snmp.MessageParts` | internal/snmp/agent.go:71-96 | version, community and data unit are found again in a message |
| `Agents.Serve` | internal/snmp/agent.go:64-130 | one turn of the loop: silence, or the response to the request understood |
| `Agents.RequestReachesAgent` | internal/snmp/agent.go:71-96 | the agent understands the request the client encoded: same kind, identifier, repetitions and identifiers |
| `Agents.SilentForOthers` | internal/snmp/agent.go:71-80 | a message that fits is left without answer if and only if it is of another community |
| `Agents.GetAnswers` | internal/snmp/agent.go:100-108 | a read is answered in the order asked: the value of the object of that identifier, or a mark that there is none |
| `Agents.ExchangeRoundTrip` | internal/snmp/agent.go:64-130 | client to agent to client: the answers of the agent's objects reach the caller unchanged |
| `Walks.Walk` | internal/snmp/snmp.go:148-175 | against any agent: at most 100000 exchanges, and whatever is returned, even with an error, is strictly increasing and under the root |
| `Walks.BulkIsSlice` | internal/snmp/agent.go:109-123 | a page is the objects that come next, as many as asked, then the end mark if there are fewer; all of them without a mark when the count is negative |
| `Walks.WalkEnds` | internal/snmp/snmp.go:155-175 | whatever the agent, an exchange that fails, an empty page, an object outside the branch, the end mark and an object that goes back end the walk, each with its outcome and what was taken before |
| `Walks.WalkOfAgent` | internal/snmp/snmp.go:148-175 | against the agent the walk returns exactly the branch, without error, if and only if it has fewer objects than 100000 pages hold |
| `Walks.BranchMembers` | internal/snmp/agent.go:101-123 | the branch is every object strictly after the root and under it, in order, once each |
| `Wires.WalkExchange` | internal/snmp/snmp.go:189-236 | one exchange, through the bytes of request and answer, gives the agent's page if and only if both fit in a packet, an error otherwise |
| `Wires.WalkOverPackets` | internal/snmp/snmp.go:148-236 | the walk over such exchanges returns exactly the branch, without error, if and only if it has fewer objects than 100000 pages hold and every page asked for fits; at the first that does not it fails with the full pages before |
| `Limiters.Limiter.Wait` | internal/auth/limiter.go:35-46 | the delay left for an address |
| `Limiters.Limiter.Fail` | internal/auth/limiter.go:48-67 | the whole new memory after a failure: old addresses forgotten, the counted one delayed in 64-bit arithmetic |
| `Limiters.Limiter.Succeed` | internal/auth/limiter.go:70-74 | the address is forgotten and no other |
| `Limiters.Limiter.ForgetOld` | internal/auth/limiter.go:78-85 | the loop removes exactly the addresses neither seen within the hour nor still waiting |
| `Limiters.DelayIsMeant` | internal/auth/limiter.go:57-64 | for every shift, overflowing ones included, the 64-bit delay is five seconds doubled n times capped at fifteen minutes |
| `Limiters.RunRemembers` | internal/auth/limiter.go:48-85 | over every run an entry follows from the failures of its own address alone |
| `Limiters.WaitOfRun` | internal/auth/limiter.go:35-85 | forgetting never changes a Wait: it is a function of the address's own failures since its last success |
| `Limiters.StreakIs` | internal/auth/limiter.go:48-85 | the failures that count are the last ones with no more than an hour between two of them |
| `Limiters.WaitInFigures` | internal/auth/limiter.go:22-67 | over every run: nothing to wait up to two failures in a row, five seconds doubled each time from the third to the tenth, fifteen minutes from the eleventh |
| `Limiters.MemoryIsBounded` | internal/auth/limiter.go:48-85 | after a failure every remembered address was seen within the last hour |
| `Counters.DeltaAgainstReal` | internal/docsis/types.go:193-198 | between two observations the increase counted is at most the real one, and equal exactly when nothing, or just the first value seen to drop, was wiped out |
| `Counters.SumAgainstReal` | internal/docsis/types.go:193-198 | over any history of increments and resets the sum counted never exceeds the real increase and equals it without reset |
| `Counters.SumTelescopes` | internal/docsis/types.go:193-198 | the sum is the last observation less the first plus the values lost at each observed drop |
| `Counters.ErrorTotals` | internal/store/errors.go:33-73 | one pass over the rows gives each channel seen twice the sum over its own observations, and no other channel |
| `Counters.TotalInFigures` | internal/store/errors.go:33-73 | each total is, for corrected as for uncorrected errors, the last value less the first plus what each observed drop lost |
| `Counters.InterleavingDoesNotMatter` | internal/store/errors.go:41-71 | the totals do not depend on how the rows of different channels interleave |
| `Counters.LinePoints` | internal/store/timeline.go:30-94 | the streaming pass gives each reading shown its errors against the last reading that has channels |
| `Counters.UncorrectedDelta` | internal/events/detect.go:233-245 | the two loops give the errors of a reading against the values of the one before |
| `Counters.PointAgainstJournal` | internal/store/timeline.go:58-94 | a timeline point equals the journal's count for the reading and its predecessor if and only if the predecessor has channels, or every counter shared with the last reading that has channels is zero or unchanged |
| `Counters.GapCountsApart` | internal/store/timeline.go:58-94 | three readings, the second without channels, for which the timeline counts four errors and the journal none |
| `Counters.ShownPoints` | internal/store/timeline.go:30-94 | the errors of the timeline are the sum over the points it shows, when it shows all or all but the first |
| `Counters.TotalsAgainstTimeline` | internal/store/errors.go:33-73 | over a window the totals by channel exceed the sum of the points the timeline shows by exactly what channels that left and came back count, nothing when none does |
| `Mqtt.EncodeRemaining` | internal/mqtt/mqtt.go:359-372 | the loop writes the variable-length size of section 2.2.3 of MQTT 3.1.1 |
| `Mqtt.LengthRoundTrip` | internal/mqtt/mqtt.go:331-372 | a size is read back if and only if it fits in the bytes allowed |
| `Mqtt.RemainingShortest` | internal/mqtt/mqtt.go:359-372 | no other bytes read as the same size are fewer |
| `Mqtt.AnyLengthRead` | internal/mqtt/mqtt.go:336-350 | a size in any form, zeros added or not, is read as the value of its bytes if they are no more than allowed |
| `Mqtt.Reader.NextLength` | internal/mqtt/mqtt.go:336-350 | the loop over the reader reads a size as specified and leaves the rest of the input |
| `Mqtt.Reader.Next` | internal/mqtt/mqtt.go:331-356 | a packet is read as specified; what follows it is left in the input |
| `Mqtt.FrameRoundTrip` | internal/mqtt/mqtt.go:309-356 | a packet is read back from what write sends, whatever follows, if and only if its body is at most 268435455 bytes |
| `Mqtt.CutFrame` | internal/mqtt/mqtt.go:331-356 | a packet cut anywhere reads as an end of input, never as another packet |
| `Mqtt.StreamRoundTrip` | internal/mqtt/mqtt.go:309-356 | repeated reading of a stream of packets, the last one cut, gives back exactly the whole ones |
| `Mqtt.BrokerReadsTheSame` | internal/mqtt/mqtttest/broker.go:176-196 | the broker, which has no bound on the size, reads the same packet wherever the client's reader accepts one |
| `Mqtt.PublishRoundTrip` | internal/mqtt/mqtt.go:147-168 | parsePublish inverts Publish if and only if the topic is at most 65535 bytes |
| `Mqtt.OtherPublications` | internal/mqtt/mqtt.go:147-168 | a publication to acknowledge gives topic, content, flag and identifier, sent again or not; without its identifier, or of the service never asked for, it is dropped |
| `Mqtt.PublishedOverStream` | internal/mqtt/mqtt.go:272-356 | messages published one after the other arrive as they were, in order |
| `Mqtt.ConnectRoundTrip` | internal/mqtt/mqtttest/broker.go:209-231 | the connection request is read back, up to the keep-alive cap and a password without user, if and only if its strings are at most 65535 bytes |
| `Mqtt.ConnectPayload` | internal/mqtt/mqtt.go:201-229 | flags and strings of the connection request in the order of section 3.1 of MQTT 3.1.1 |
| `Mqtt.ConnectHead` | internal/mqtt/mqtt.go:201-229 | the ten leading bytes of the request: the name MQTT, level 4, each flag, whole seconds of keep-alive up to 65535 |
| `Mqtt.Client.Write` | internal/mqtt/mqtt.go:309-320 | a body within the bound is framed and appended to what was sent; a longer one is refused and sends nothing |
| `Mqtt.Client.Publish` | internal/mqtt/mqtt.go:272-280 | what is sent is the frame of the message's packet |
| `Mqtt.Client.SendConnect` | internal/mqtt/mqtt.go:201-229 | what is sent is the frame of the connection request |
| `Scales.NiceScale` | internal/webview/chart.go:239-254 | for all lo and hi the search returns from its loop: bounds multiple of a step of 1, 2, 2.5 or 5 times a power of ten, one to four intervals, coverage to a billionth of a step, and no finer such step covers the range in four |
| `Regression.ScqamSlope` | internal/analyze/plausible.go:34-53 | a line is given exactly for four such channels or more, not all of one frequency, and no line has a smaller sum of squared residuals |
| `Regression.PointsAreDrawn` | internal/analyze/plausible.go:34-46 | the points are, one for one, the frequency and the power of the channels that are not of the OFDM kind and give both |
| `Regression.VxSign` | internal/analyze/plausible.go:47-50 | the denominator is never negative, and zero exactly when all frequencies are equal |
| `Regression.NormalIsLeast` | internal/analyze/plausible.go:51-52 | the solution of the normal equations beats every other line |
| `Regression.CovarianceBound` | internal/webview/tendance.go:196-205 | for any points the square of n.sxy - sx.sy is at most vx.vy, with equality exactly for points on one line, vertical ones included |
| `Regression.FitTrend` | internal/webview/tendance.go:184-206 | least-squares slope, correlation within [-1, 1], one in absolute value exactly for aligned points, zero for constant values |
| `Versions.ShowRoundTrip` | internal/update/update.go:194-281 | every version that can be read is read back from its text |
| `VersionTexts.ParseIff` | internal/update/update.go:44-46 | a text is a version exactly when it is, after an optional v, three numbers separated by dots and, after a dash, dotted words if any; a number that does not fit is the largest integer |
| `VersionTexts.TagIsRead` | internal/update/update.go:270-281 | the tag of a version, with its v, is read as that version |
| `VersionTexts.NewerInFigures` | internal/update/update.go:205-225 | the first number that differs decides which is newer; with the same three the final version is newer than a test one |
| `VersionTexts.SuffixNumbers` | internal/update/update.go:229-250 | after the same words the greater number is the newer, whatever follows |
| `VersionTexts.SuffixWords` | internal/update/update.go:229-250 | different words compare letter by letter, whatever numbers follow |
| `VersionTexts.SuffixLonger` | internal/update/update.go:229-250 | a suffix that goes on where the other stops is the newer |
| `Versions.Natural` | internal/update/update.go:229-250 | the loop compares suffixes chunk by chunk as specified |
| `Versions.Chunk` | internal/update/update.go:254-261 | the loop cuts the longest head of digits, or of other characters |
| `Versions.Newer` | internal/update/update.go:205-225 | the comparison of two texts as specified, false when one cannot be read |
| `Versions.NewerIsStrictWeakOrder` | internal/update/update.go:205-250 | over versions whose digit runs fit in an int: irreflexive, asymmetric, transitive, and so is its negation |
| `VersionBounds.OrderedUpToInt` | internal/update/update.go:205-250 | over the versions whose suffix has numbers of m at most, "newer" is a strict weak order if and only if m fits in an int |
| `VersionBounds.CycleAtBound` | internal/update/update.go:229-250 | 1.0.0-rc93, 1.0.0-rc100 and 1.0.0-rc9223372036854775808 are each newer than the one before, the first newer than the last |
| `Versions.FinalIsNewest` | internal/update/update.go:215-222 | a final version is newer than each of its pre-releases, never the reverse |
| `Versions.Latest` | internal/update/update.go:157-181 | the fold over published tags chooses one of the readable ones, after which none comes provided numbers fit; none when none can be read |
| `Versions.ChosenIsPublished` | internal/update/update.go:157-181 | the version chosen is that of a published tag that can be read, not a draft, and none is chosen only if there is no such tag |
| `Versions.NoneNewer` | internal/update/update.go:176-181 | the version chosen has no published tag newer than it, provided numbers fit |
| `Journals.Journal.SaveEvents` | internal/store/events.go:22-39 | events get increasing identifiers and dates in whole seconds, in order |
| `Journals.Journal.LastEvent` | internal/store/events.go:84-107 | the ordered query, as a fold over the rows |
| `Journals.LastIsGreatest` | internal/store/events.go:88-97 | the event found is the greatest of its kinds by date then identifier, and none is found only if there is none |
| `Journals.LastRecorded` | internal/store/events.go:84-107 | when dates follow the order of recording, the event found is the last recorded |
| `Journals.Journal.DeleteNote` | internal/store/events.go:152-159 | only the note of that identifier goes; found says whether there was one |
| `Journals.Journal.Purge` | internal/store/retention.go:46-70 | exactly the events dated before the cutoff go, the others stay in order |
| `Journals.Journal.AddNote` | internal/store/events.go:147-149 | a note is one more event |
| `Detection.DetectRestart` | internal/events/detect.go:212-231 | the two loops compare counters channel by channel and test the share of those that fell |
| `Detection.RestartMeaning` | internal/events/detect.go:212-231 | if all common channels fell a restart is seen exactly when they are three at least; if none fell it is never seen |
| `LineReports.RestartSeenIs` | internal/events/detect.go:212-231 | a restart is seen exactly when the readings share three channels and the counters fell, none rising, on four fifths of them |
| `Detection.DetectSpike` | internal/events/detect.go:90-100 | a start when errors reach the limit and no spike is open, an end when they no longer do |
| `Detection.Detect` | internal/events/detect.go:65-106 | the events of a reading, in the order they are recorded |
| `Recorders.SettleRestart` | internal/events/recorder.go:135-179 | the batch after settling: a conclusion replaces the restart counted or is appended |
| `LineReports.ConclusionMeaning` | internal/events/recorder.go:118-179 | what a reading tells of restarts: with a request accepted within the hour and not concluded since, confirmed exactly when the counters fell or the modem is known to have started no earlier than a minute before the request, missed exactly when neither holds, the uptime is known and ten minutes have passed, nothing otherwise |
| `Recorders.Recorder.Recorded` | internal/events/recorder.go:63-116 | the whole journal after a reading, and the failures back to zero |
| `LineReports.StateMeaning` | internal/events/detect.go:110-146 | the state told: the level of a qualified reading, tolerated being good, when it is known and differs from the last one |
| `LineReports.SpikeMeaning` | internal/events/detect.go:90-100 | an episode of errors starts when a reading counts the limit, a thousand by default, and ends when one counts fewer |
| `LineReports.ChangeMeaning` | internal/events/detect.go:73-87 | each change between two readings is told under its kind and level |
| `LineReports.BackMeaning` | internal/events/recorder.go:99-110 | a reading tells that the modem is back exactly if it was down |
| `LineReports.ReadingForgetsFailures` | internal/events/recorder.go:63-82 | a reading ends the failures in a row; one that cannot be judged tells nothing |
| `Recorders.Recorder.Failed` | internal/events/recorder.go:182-209 | the second failure in a row records a modem down, dated at the first, unless one already is |
| `LineReports.TwoFailures` | internal/events/recorder.go:182-209 | of three failures in a row the second alone tells that the modem is down, from the date of the first, a warning if the password is refused, critical otherwise, and only if it was not down already |
| `Recorders.RestartModem` | internal/service/restart.go:67-105 | the outcome of a request and the journal after it |
| `LineReports.AskMeaning` | internal/service/restart.go:40-105 | a request is told exactly when the modem can be asked, none was told within ten minutes and the modem was reached, as a warning if it refuses; each case has its own answer |
| `Episodes.BatchMarks` | internal/events/recorder.go:63-116 | what a reading adds to each kind of episode, and that each kind comes from one cause |
| `Episodes.RunKept` | internal/events/recorder.go:63-209 | the invariant of every run of readings, failures, program restarts, requests and other writes |
| `Episodes.EpisodesWellFormed` | internal/events/detect.go:65-146 | over every run consecutive states differ and are good, warning or critical; spikes start then end; the modem goes down then up; requests are 600 s apart |
| `Episodes.StateIsCurrent` | internal/events/detect.go:117-146 | after a reading that qualifies the line the last state recorded is that of the reading, good if there is none |
| `Episodes.OneRestartPerReading` | internal/events/recorder.go:135-179 | a batch holds one restart event at most, the conclusion if there is one |
| `Episodes.AtMostOneConclusion` | internal/events/recorder.go:135-179 | over every run a request gets one conclusion at most, not counting those read in its own second |
| `Episodes.ConclusionIsFinal` | internal/events/recorder.go:141-149 | a conclusion is the last for its request, whatever follows, if and only if it is read in a later second than the request |
| `Episodes.ConcludedTwice` | internal/events/recorder.go:145-149 | a concrete run in which one request is concluded twice |
| `Shares.LastEventBefore` | internal/store/report.go:123-137 | the ordered query, as a fold over the rows |
| `Shares.LastUpToIsGreatest` | internal/store/report.go:123-137 | it is the last state event by date then identifier up to a date |
| `Shares.EventsBetween` | internal/store/report.go:92-120 | the ordered query, as an insertion by date |
| `Shares.BetweenOrdered` | internal/store/report.go:92-120 | the rows of the query are exactly the state events of the window, by date then identifier |
| `Shares.StateShares` | internal/webview/rapport.go:96-113 | the loop gives every level the instants at which the events the query can see put it in force |
| `Shares.SharesAreTime` | internal/webview/rapport.go:85-113 | the shares are the time in each state, for every level, if and only if the period ends on a whole second or the state does not change during its last one |
| `Shares.LastSecondMissed` | internal/webview/rapport.go:85-113 | a line that turns critical in the last unfinished second of a period: critical for one instant, shown for none |
| `Shares.BuildPeriod` | internal/webview/rapport.go:85-114 | what is reported is exactly the instants of the period that have come, since the first reading; the shares are measured over them and add up to what is covered |
| `Shares.ShownCoverPeriod` | internal/webview/rapport.go:388-392 | with a journal of three levels the three shares shown cover the whole period |
| `Shares.ShownCoverEveryRun` | internal/webview/rapport.go:388-392 | they do for the journal of every run of the recorder |
| `Notifications.EventsAfter` | internal/store/events.go:111-130 | one page of the rows after an identifier, in order |
| `Notifications.Collect` | internal/notify/notify.go:184-201 | the loop by pages of 500 ends and reads every later row, keeping those to send |
| `Notifications.Notifier.Poll` | internal/notify/notify.go:160-215 | what is sent, the cursor and the failing flag after a poll that works, fails or crashes after the send |
| `Alerts.PollSends` | internal/notify/notify.go:45-75 | a poll that does not fail sends exactly the events after the cursor that are at most an hour old and are not notes: all of them, the critical ones, or those of the six kinds that change the line, as the filter says |
| `Alerts.PollMoves` | internal/notify/notify.go:160-215 | the cursor goes to the last event at the first poll and at each that works; it stays after a crash, and after a failure if there was something to send |
| `Alerts.AlertsReachSubscriber` | internal/notify/notify.go:160-215 | over every run with failures and crashes, an event passed within the hour was sent if the filter wants it, and nothing else is ever sent |
| `Notifications.SentInTurn` | internal/notify/notify.go:160-215 | over every run without crash events are sent once each, in increasing order of identifier |
| `Notifications.NoneForgotten` | internal/notify/notify.go:184-214 | over every run with failures and crashes an event between the first cursor and the current one was sent, unwanted, or over an hour old when looked at, provided nothing was recorded while the cursor was ahead |
| `Notifications.NewEventLookedAt` | internal/store/events.go:111-159 | an event about to be recorded will be looked at by some poll if and only if the cursor is not ahead of the journal |
| `Notifications.OnTopKept` | internal/store/retention.go:46-70 | recording, polling, deleting a note or dropping old events keeps the cursor from being ahead of the journal if and only if a row it has not gone beyond stays |
| `Notifications.AlertNeverSent` | internal/store/migrations/0004_evenements.sql:7-15 | a concrete journal: its only row, passed then deleted or dropped for its age, leaves its identifier to a critical state that no poll ever looks at |
| `Samples.MergeIsConcat` | internal/store/probe.go:46-66 | saving two halves of a slice one after the other is saving the whole: rounds, failures, least, weighted mean, greatest, jitter over pairs |
| `Samples.MeanBetween` | internal/probe/probe.go:383-395 | the mean is between the least and the greatest |
| `Meters.Aggregate.Add` | internal/probe/probe.go:365-381 | the running figures stay those of the attempts added |
| `Meters.Aggregate.Pair` | internal/probe/probe.go:357-363 | one more change of latency, in absolute value |
| `Meters.Aggregate.ToSample` | internal/probe/probe.go:383-395 | the sample is that of the attempts added: least, mean, greatest, mean change |
| `Meters.Meter.Flush` | internal/probe/probe.go:320-326 | the slice measured is merged in its row and the aggregate starts empty |
| `Meters.Meter.Measure` | internal/probe/probe.go:160-165 | an attempt of another slice stores the one being measured first; jitter only between two successes in a row |
| `Meters.Meter.constructor` | internal/probe/probe.go:61-76 | slices last five minutes unless set otherwise |
| `Meters.UpsertHolds` | internal/store/probe.go:24-66 | the upsert keeps every row the sample of all that was saved in it |
| `Meters.NothingLost` | internal/probe/probe.go:154-165 | over any run with orderly stops what is stored of a slice and what is being measured are together its attempts |
| `Meters.RowAfterStop` | internal/probe/probe.go:320-326 | after an orderly stop a row counts every attempt and failure of its slice, and min, mean, max are in order |
| `Meters.RowForEverySlice` | internal/probe/probe.go:320-326 | after an orderly stop a slice has a row exactly when it had an attempt |
| `Slices.BucketIsSlice` | internal/probe/probe.go:161 | the attempts put together are those of one interval of the slice's length counted from the origin of Go's times |
| `Slices.RowIsSlice` | internal/probe/probe.go:154-165 | after an orderly stop, with slices of whole seconds, a row exists for each slice with an attempt and tells of the attempts made in that interval: how many, how many failed, least, mean and greatest latency, mean change between two successes in a row |
| `Probes.Prober.Round` | internal/probe/probe.go:154-189 | an attempt: its measure, then the new watch and tables |
| `Probes.Prober.Resume` | internal/probe/probe.go:129-151 | the outage left open is closed, and only it |
| `Probes.Database.CloseOutage` | internal/store/probe.go:170-173 | only the row of that identifier ends |
| `Probes.Database.SaveMicroCut` | internal/store/micro.go:19-23 | a cut of a second already there is ignored |
| `ProbeReports.SettingsMeaning` | internal/probe/probe.go:61-70 | what is set is kept; by default an attempt every five seconds and the fewest failures, three at least, that last ninety seconds |
| `FailureRuns.TablesAreRuns` | internal/probe/probe.go:154-284 | for every trace and any threshold the tables are those of the runs of failures: outages from the threshold on, short cuts from two failures to the threshold, nothing for one |
| `FailureRuns.SpellsAreRuns` | internal/probe/probe.go:261-284 | the outages ended are exactly the maximal runs of failures as long as the threshold, from first failure to next success |
| `FailureRuns.CutsAreRuns` | internal/probe/probe.go:206-217 | the short cuts are exactly the maximal runs of two failures or more below the threshold |
| `ProbeReports.OutageFromNinetySeconds` | internal/probe/probe.go:61-84 | with default settings and attempts an interval apart a run of failures is an outage exactly when there are three and the answer comes back ninety seconds or more after the first, otherwise a short cut exactly when there are two, attempts being thirty seconds apart at most |
| `ProbeReports.NewsAreRuns` | internal/probe/probe.go:246-284 | for every trace the journal tells the start of each outage, a warning if only the local network is down, critical otherwise, and its end, in order, and nothing else |
| `ProbeReports.BurstTold` | internal/probe/probe.go:219-232 | a burst is told exactly when five short cuts started within the hour and none was told within it |
| `ProbeReports.CutRowIs` | internal/store/micro.go:17-23 | the row of a short cut: both bounds in whole seconds, the cause found at its second failure |
| `FailureRuns.EveryCutHasItsRow` | internal/store/micro.go:17-23 | with attempts a second apart every short cut has its own row |
| `FailureRuns.BoundsInOrder` | internal/probe/probe.go:203-211 | the least length of a short cut is at most the greatest, as stored too |
| `FailureRuns.EvenBounds` | internal/probe/probe.go:61-84 | with the default threshold and attempts exactly an interval apart the bounds are two intervals apart and under 90 s and an interval |
| `Resumption.RunKept` | internal/probe/probe.go:129-284 | the invariant of every run of attempts and program starts |
| `Resumption.OneOpenOutage` | internal/probe/probe.go:261-284 | in every reachable state at most one row is open, the last one and the one followed; every closed row ends after it starts |
| `Resumption.BootCloses` | internal/probe/probe.go:129-151 | a program that starts leaves no row open and changes no other: the open one ends with the last slice stored if that is between its start and now, at its start otherwise, and the journal is told |
| `Resumption.BurstStep` | internal/probe/probe.go:219-232 | bursts of short cuts are told an hour apart at least |

## Left out

- Sockets, dialling, TLS, UDP retries, timeouts, goroutines, tickers and mutexes: an exchange, an attempt or a poll is an input, and calls are atomic.
- SQLite itself and failures of storage: every read and write succeeds. What the retention drops from the journal is an operation of the notifier's runs, its date being an input; the runs of the recorder go without it, and the purge of readings and measures is not modelled.
- IEEE rounding: latencies, slopes and axis marks are exact reals, square roots a parameter.
- Texts of messages, directions and channel numbers of events: an event is a date, a kind and a level.
- Lost and returned channels, modulation and power changes: which of them a reading shows is an input of Detect.
- `ErrorHistory`: it is the per-channel form of ErrorTotals, with the same counter rule.
- The verdict on a reading and the previous reading found: inputs, arbitrary, of each observation.
- `Agents.Serve`: the agent's objects are a list sorted by identifier; a map with several spellings of one identifier is not modelled.
- `Walks.WalkOfAgent`: stated for answers that reach the client as they are; `Wires.WalkOverPackets` says when they do.
- `Wires.WalkOverPackets`: one attempt per exchange, and a packet that fits is never lost; it assumes the root and the identifiers of the objects can be encoded.
- `Mqtt.BrokerReadsTheSame`: the overflow of the broker's size after more than nine continuation bytes is not modelled.
- `Limiters.Limiter.Fail`: one reading of the clock per call, and a count of failures that never overflows.
- `Recorders.RestartModem`: the last request read from the journal is never dated at the zero time of Go, which the code takes for none.
- `Regression.FitTrend`: the square root is exact, given as a function.
- `Shares.StateShares`: the start of a period is a whole second, as midnights and dates of readings are.
- `Probes.Prober.Resume`: the date of the last slice stored is an input.
- `Meters.NothingLost`: stops are orderly; the slice being measured is lost by a crash.
- `Versions.Latest`: the list is that of the test channel; the other channel offers a single tag.
- Subscriptions, pings, HTTP handlers, pages, parsing of modem answers, statistics of the report, weather, speed tests and Home Assistant: not modelled.
