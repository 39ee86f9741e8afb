# InstaMsg MQTT device client: a verified model

This project models the parts of the InstaMsg device driver that carry its guarantees, and proves what those parts promise.
The client runs on a gateway or a small device: it publishes messages to an MQTT broker, keeps what it could not deliver in a log
file, reads packets from a socket, keeps editable configurations in another file, and brings its own calendar, JSON reader, number
parser and sprintf. Five groups of modules follow that structure.

**Guaranteed delivery** (`Delivery`, `Client`, `Outcomes`, `HandlerLifetime`, `ResultHandlers`, `DataLog`, `LineFiles`). `Delivery` is a step
machine: a world holds the handler table, the variables of `instamsg.c`, the records in the log file and a ledger of where each
message went; events are submissions, drains, packets, missed read rounds, ticks, socket errors and restarts. `Client` is the
client object, with its methods in the source's own order of steps; every method is proved to perform exactly the events its
inputs call for, over an outside world that decides each write and each read round, malformed replies with id 0 included. The main theorem is a conservation law over
every run: a submitted message is acknowledged, in the log, evicted by the size limit, lost by a restart while in flight, or in
flight, and in exactly one of these places, counted with multiplicity. It holds for the program as a whole, with publishes at
every QoS, subscriptions, pings, restarts and deaths inside any of them (`Client.ProgramLosesNothing`, `Client.CrashAnywhere`).
`Outcomes` says what publishes, turns, pings and restarts come to in terms of the log, the ledger and the rows alone: a message is
acknowledged exactly by its reply, saved exactly without one, and drained, oldest first, exactly from an open log.

**Packets and streams** (`Wire`, `RemainingLength`, `PacketIO`, `PublishCodec`, `SubscribeCodec`, `ConnectCodec`, `ByteSources`,
`StreamReaders`, `PacketReader`). Each packet has a byte-level meaning, a serialiser and a deserialiser over buffers with a moving
cursor, and a round trip between them, with the exact condition under which it holds where the code does not always meet it; the
bytes written are those of `Wire`, which draws the packets of MQTT 3.1.1 in numbers and shares nothing with the codecs. The
call-again reader is proved to refine the waiting one for every way the bytes may arrive in pieces, and the driver's packet reader
to read back exactly the packets that were written to the stream.

**Dates** (`Calendar`): seconds to a date, against a Gregorian calendar defined year by year.

**Topic filters** (`TopicFilter`): the two-pointer scan, against matching of level lists, and both against section 4.7.1 of
MQTT 3.1.1.

**Configurations** (`Json`, `ConfigStore`, `Config`, `Numerals`, `SgStdlib`, `Varargs`, `Sprintf`): the JSON reader against
printed dictionaries, the line file as a map, whatever line ends the records have, pushed records against defaults over whole runs, and the sprintf/atoi pair below them.
On linux_desktop `sg_sprintf` is the C library's `sprintf` (device_defines.h:42); `sg_varargs`, which `Varargs` and `Sprintf` model, is
the printer of devices that have none.

Results that show the code not meeting its documentation, each stated exactly:

- A message survives the trip through the log exactly when topic and payload contain no single quote, CR or LF (`Delivery.RecordRoundTrip`).
- Of the messages that a publish can keep, exactly those of 970 characters or more, topic and payload together, have a record that
  overruns the 1000 bytes of `messageBuffer` when it is drained (`Delivery.KeptMessageFits`, `DataLog.DataLogger.GetNextRecord`).
- A PINGRESP does not reset the count of read rounds without one: ten pings, each answered one round late, make a reboot due
  (`Client.AnsweredPingsForceReboot`).
- With message acknowledgement switched off, draining takes a record out of the log and tracks it nowhere (`Delivery.DrainConserves`).
- A reply with id 0 matches the first free row of the handler table: it calls the handler that the row last had a second time or
  after its timeout, or calls NULL in a row that was never used (`HandlerLifetime.ZeroIdCallsAgain`, `ZeroIdCallsExpiredOrNull`). A
  handler is called so exactly when such a packet arrives while its row is the first free one and was not overwritten
  (`HandlerLifetime.StrayCallsExactly`).
- Issuing fewer than 10000 ids during the life of any entry does not keep live ids distinct: a PUBREC that arrives late opens a new
  entry under an old id, and the next publish shares it (`HandlerLifetime.LatePubRecCollides`). They stay distinct exactly if no publish takes
  an id that was issued a multiple of 10000 issues before for a row still live (`HandlerLifetime.LiveIdsDistinct`).
- `readPacket` returns SUCCESS without a packet exactly when the bytes end inside one, also inside one that is announced longer than the
  buffer; the driver then acts on a header that was never filled in (instamsg.c:2236-2244; `PacketReader.SuccessIsPacket`,
  `PacketReader.OversizedPacketBreaksOff`, `PacketReader.ReadStream`).
- `delete_config_value_from_persistent_storage` returns FAILURE even when it deletes, and does not delete the only key
  (`ConfigStore.ConfigFile.Delete`, `ConfigStore.DeleteIsRemoval`).
- A pushed configuration goes into the line file with the line ends it has. It is found again with its value exactly if no later line of
  it carries its key and its first line holds key and value (`Config.SurvivesByFirstLine`): for a printed dictionary, if its first LF
  stands behind the closing quotes of both pairs (`Config.SurvivesByPlace`). `{'key' : 'k',<LF>'val' : 'v'}` loads an empty text, a
  leading LF loses the record, and a second line can replace the value of another key (`Config.BrokenPushes`,
  `Config.LeadingLineEndLosesRecord`, `Config.PushForAnotherKeyReplaces`).
- A pushed value with a single quote is cut by the second registration (`Config.PushedConfigWins`), and registering again leaves the
  file as it was exactly when value and description are plain (`Config.RegisteringAgainChangesNothing`).
- `MQTTPacket_len` is one too big at exactly four lengths (`RemainingLength.PacketLenExact`).
- The call-again reader never finishes a packet without a body, and empty polls use up its four length bytes
  (`StreamReaders.NonBlockingRefinesBlocking`).
- The space test of `MQTTSerialize_suback` lets through buffers that are too small (`SubscribeCodec.SubackCheckTooSmall`). The test of
  `MQTTDeserialize_suback` stores one code beyond the caller's array exactly when the packet has more codes than fit, and reports that as
  success exactly when it has one more (`SubscribeCodec.SubackOverruns`). A failure code in a SUBACK is never recognised
  (`SubscribeCodec.FailureCodeUnseen`), a malformed list can return the code that means success
  (`SubscribeCodec.ErrorLooksLikeSuccess`, `MalformedListReportedAsSuccess`), and a body too short for its packet id is taken for an
  empty list (`SubscribeCodec.TooShortForIdIsSuccess`).
- A CONNECT with an empty last user name or password is refused by the reader (`ConnectCodec.ConnectRoundTrip`).
- `+` and `#` never match an empty level, and `a/#` does not match `a` (`TopicFilter.AgainstStandard`).
- `%16d` does not pad a one-digit number (`Varargs.PaddedToWidth`).
- `extract_date_params` takes a time before 2000-03-01 for one a whole `unsigned long` range later, and where that type has 64 bits
  the year overflows its int exactly from `END_OF_YEARS` on (`Calendar.ExtractDateParams`).

`dafny verify dfyconfig.toml` checks the project.

## Model

| member | source | states |
|---|---|---|
| `Delivery.NoMessageIsLost` | common/instamsg/driver/instamsg.c:1999-2067 | in every allowed run, submitted = acknowledged + evicted + lost + logged + in flight, as multisets, and the state stays sound |
| `Delivery.KeptMessageFits` | common/instamsg/driver/instamsg.c:2842-2856 | a message that a publish keeps has a record that fits messageBuffer if and only if topic and payload are shorter than 970 together |
| `Delivery.WhereEveryMessageIs` | common/instamsg/driver/instamsg.c:2610-2649 | after any run each submitted message is acknowledged, evicted, lost, in flight, or a line of the log |
| `Delivery.RunKeepsSound` | common/instamsg/driver/instamsg.c:2749-2779 | the client waits exactly while a message is tracked, the attempt counter is below ten and zero when not waiting, the count of missed pings is below ten, and every log line is the record of a sendable message, in all runs |
| `Delivery.RestartLosesAtMostOne` | common/instamsg/driver/instamsg.c:1882-1963 | the messages lost in a run are at most as many as its restarts |
| `Delivery.AckedOnlyByItsReply` | common/instamsg/driver/instamsg.c:290-317 | a message counts as acknowledged only when a reply with its own id, which is not 0, arrives while it is in flight and its handler row is still there |
| `Delivery.EvictedOnlyWhenFull` | device/linux_desktop/instamsg/device_data_logger.c:74-128 | a message is evicted only by saving another one into a full log |
| `Delivery.NoDrainUntilRestart` | common/instamsg/driver/instamsg.c:3123-3135 | once a message went to the log no record is drained before the next restart |
| `Delivery.DrainConserves` | common/instamsg/driver/instamsg.c:2945-2967 | draining conserves messages if and only if acknowledgement is on or the log is empty |
| `Delivery.RecordRoundTrip` | common/instamsg/driver/instamsg.c:2630-2632 | a message read back from its log line is the same if and only if it holds no quote, CR or LF |
| `Delivery.RecordIsClean` | common/instamsg/driver/instamsg.c:2630-2632 | the log line of such a message is one clean line of the file |
| `Delivery.RecordSpelt` | common/instamsg/driver/instamsg.c:2630-2632 | the line spelt out, with the keys topic and payload |
| `Client.WaitEnds` | common/instamsg/driver/instamsg.c:2749-2779 | waiting for the acknowledgement always ends, after at most ten read rounds, with nothing in flight and the counter at 0 |
| `Client.PublishEnds` | common/instamsg/driver/instamsg.c:2818-2942 | whatever the network does, a publish at QoS 1 or 2 ends with nothing in flight, in allowed steps, after at most eleven read rounds |
| `Client.PublishedIsRun` | common/instamsg/driver/instamsg.c:2818-2942 | a publish at any QoS is a run of the step machine, above QoS 0 beginning with the submission, so the conservation law applies to it |
| `Client.DrainedIsRun` | common/instamsg/driver/instamsg.c:1999-2067 | draining a record and publishing it is such a run, beginning with the drain |
| `Client.TurnIsRun` | common/instamsg/driver/instamsg.c:3073-3150 | every turn of the main loop is a run without a restart, drained with acknowledgement on if it is on after the turn's read |
| `Client.ProgramLosesNothing` | common/instamsg/driver/instamsg.c:3025-3306 | for the whole program: after any sequence of turns, publishes at every QoS, subscriptions, pings, ends of business, restarts with a CONNECT that may fail, and deaths after any event of these, every message is in exactly one place, nothing is in flight between them, and only a death, or the restart after an exit, loses a message, one at most |
| `Client.OperationConserves` | common/instamsg/driver/instamsg.c:3073-3150 | each of these operations, from its first step to its last, keeps the conservation law, the sound state and that nothing is in flight; it loses at most one message, and none unless it is a death or follows an exit |
| `Client.SurvivedIsRun` | common/instamsg/driver/instamsg.c:3025-3306 | what the program survives is a run without a restart |
| `Client.GateIsRun` | common/instamsg/driver/instamsg.c:3123-3135 | passing the drain gate, open or closed, is a run |
| `Client.ServedIsRun` | common/instamsg/driver/instamsg.c:3121-3136 | reading, draining and noting a pending reboot is a run |
| `Client.CrashAnywhere` | common/instamsg/driver/instamsg.c:1882-1963 | stopping after any prefix of a run and starting again, with the socket up or down, gives a sound state in which all messages but the one in flight are where they were |
| `Client.InstaMsg.InitInstaMsg` | common/instamsg/driver/instamsg.c:1882-1963 | performs exactly the restart event: table emptied, counter and flags reset, log untouched; with the socket down acknowledgement is as the stored setting says, with the socket up the CONNECT is written |
| `Client.InstaMsg.MQTTConnect` | common/instamsg/driver/instamsg.c:2590-2599 | writes without a connection, and a failed write breaks the socket |
| `Client.InstaMsg.SendPingReqToServer` | common/instamsg/driver/instamsg.c:1409-1430 | performs exactly the events of a ping: nothing with a broken socket, else the ping, written if there is a connection, and the wait |
| `Client.InstaMsg.WaitForPingResp` | common/instamsg/driver/instamsg.c:2782-2814 | leaves world and network as the stretch of waiting for the PINGRESP does |
| `Client.PingEnds` | common/instamsg/driver/instamsg.c:2782-2814 | that wait always ends, after at most ten read rounds, with the answer, a pending reboot or the end of the process |
| `Client.PingIsRun` | common/instamsg/driver/instamsg.c:1409-1430 | a ping with its wait is a run that leaves nothing in flight |
| `Client.AnsweredPingsForceReboot` | common/instamsg/driver/instamsg.c:2793-2799 | pings answered one round late add up: a reboot is due exactly with the tenth missed round, although each was answered |
| `Client.InstaMsg.FireResultHandlerAndRemove` | common/instamsg/driver/instamsg.c:290-317 | performs exactly the reply event, for every id; a NULL handler ends the process |
| `Client.InstaMsg.ProcessPacket` | common/instamsg/driver/instamsg.c:2244-2523 | performs exactly the event of the received packet, a PUBREC too short for an id included |
| `Client.InstaMsg.ReadAndProcessIncomingMQTTPacketsIfAny` | common/instamsg/driver/instamsg.c:2229-2529 | performs the events of one read round and consumes that round |
| `Client.InstaMsg.SaveFailedPublishedMessage` | common/instamsg/driver/instamsg.c:2610-2649 | moves the message in flight to the end of the log, evicting only what the limit demands |
| `Client.InstaMsg.CountMissedRound` | common/instamsg/driver/instamsg.c:2760-2769 | counts a round without a reply and saves the message exactly at the tenth |
| `Client.InstaMsg.WaitTurn` | common/instamsg/driver/instamsg.c:2749-2779 | one turn of the waiting loop is one step of the waiting stretch of events |
| `Client.InstaMsg.WaitForPubAck` | common/instamsg/driver/instamsg.c:2749-2779 | leaves world and network as the waiting stretch of events does |
| `Client.InstaMsg.Publish` | common/instamsg/driver/instamsg.c:2818-2942 | leaves world and network as the publishing events do, and nothing in flight at QoS 1 and 2 |
| `Client.InstaMsg.PublishMessageWithDeliveryGuarantee` | common/instamsg/driver/instamsg.c:2945-2967 | publishes at QoS 1 with the acknowledgement handler, or at QoS 0 when acknowledgement is off |
| `Client.InstaMsg.SendPreviouslyUnsentData` | common/instamsg/driver/instamsg.c:1999-2067 | takes the oldest record and publishes the message in it; FAILURE exactly on an empty log |
| `Client.InstaMsg.DrainIfGateOpen` | common/instamsg/driver/instamsg.c:3123-3130 | drains only from the log source, while not waiting and with no reboot pending |
| `Client.InstaMsg.MainLoopTurn` | common/instamsg/driver/instamsg.c:3073-3150 | performs the events of a turn: serve the socket if it works, then age the handlers |
| `Outcomes.AcknowledgedExactly` | common/instamsg/driver/instamsg.c:290-317 | a message counts as acknowledged if and only if a PUBACK, PUBREC, SUBACK or PUBCOMP comes with its id while it is in flight and the first row with that id holds a handler; nothing is then in flight or waited for, the counter is 0 and the log is as it was |
| `Outcomes.InnerOutcome` | common/instamsg/driver/instamsg.c:2749-2779 | in any run inside a publish: acknowledged if and only if one of the events is such a reply, and else still in flight, or in the log with a reboot due |
| `Outcomes.PublishEndsAs` | common/instamsg/driver/instamsg.c:2818-2942 | a publish at QoS 1 or 2 ends with its message acknowledged and the log as it was if and only if a reply to it was read, and else, unless the process exited, with the message as the last record of the log and a reboot due |
| `Outcomes.RepliedInTime` | common/instamsg/driver/instamsg.c:2749-2779 | a written publish whose reply comes within ten rounds, the others silent, ends acknowledged, and without a compulsory read with the very round of the reply |
| `Outcomes.GivenUpAfterTenRounds` | common/instamsg/driver/instamsg.c:2749-2779 | without a reply the wait reads the socket ten times, less the rounds missed before |
| `Outcomes.PublishSucceeds` | common/instamsg/driver/instamsg.c:2877-2888 | publishing returns SUCCESS if and only if the packet fits 1000 bytes, the client is connected over a working socket, and the write succeeds; a write that fails breaks the socket |
| `Outcomes.CompulsoryReads` | common/instamsg/driver/instamsg.c:2896-2911 | a publish at QoS 0 reads the socket once if and only if the number of publishes is a multiple of the interval |
| `Outcomes.GuaranteedEnds` | common/instamsg/driver/instamsg.c:2945-2967 | with acknowledgement on, a guaranteed publish is tracked for ten ticks and ends as above; with it off nothing is recorded |
| `Outcomes.TurnDrainsExactly` | common/instamsg/driver/instamsg.c:3121-3136 | a turn with a working socket takes the oldest record and publishes its message if and only if, after the read, the log is the source, nothing is waited for, no reboot is due, and there is a record; else log and writes are untouched, and an empty log makes the source general |
| `Outcomes.ConnAckDrains` | common/instamsg/driver/instamsg.c:3123-3130 | a turn that reads a CONNACK with code 0 or 6, nothing waited for and no reboot due, takes the oldest record |
| `Outcomes.EmptiesLog` | common/instamsg/driver/instamsg.c:3123-3130 | over runs: n turns acknowledged at once take the first n records, oldest first, each message acknowledged, and the turn after the last record sets the general source |
| `Outcomes.ReadsInOrder` | common/instamsg/driver/instamsg.c:2229-2529 | a read round takes its packets one by one, in order, and then notices a broken socket, from which nothing is read |
| `Outcomes.SubmitTakesRow` | common/instamsg/driver/instamsg.c:2838-2858 | a submission takes the next id, going round at 10000, and the first free row with the timeout asked for |
| `Outcomes.SubscribeTakesRow` | common/instamsg/driver/instamsg.c:2652-2725 | so does a subscription, and nothing else changes |
| `Outcomes.PubRecTakesRow` | common/instamsg/driver/instamsg.c:2493-2507 | a PUBREC takes a row for the PUBCOMP, ten ticks long, and one too short for an id takes it for -1 |
| `Outcomes.IdleTurnAges` | common/instamsg/driver/instamsg.c:1368-1396 | a turn with a broken socket, or one that brings and drains nothing, writes nothing, ages every live row by one and frees it after its last tick |
| `Outcomes.RestartedState` | common/instamsg/driver/instamsg.c:1882-1963 | after a restart every row is free, the first id is 1, nothing is waited for, the log is as it was, and a new process with the socket up drains it |
| `Outcomes.BusinessEnds` | common/instamsg/driver/instamsg.c:3241-3252 | the end of a business-logic run makes the log the source the first time, and later ends the process if and only if a reboot is due |
| `Outcomes.UnansweredPing` | common/instamsg/driver/instamsg.c:2782-2814 | a ping that is not answered makes a reboot due after ten rounds, less those missed before |
| `Outcomes.PingBreaksSocket` | common/instamsg/driver/instamsg.c:1409-1430 | a broken socket is not pinged; a ping whose write fails breaks the socket and is waited for even so |
| `Outcomes.AnsweredPing` | common/instamsg/driver/instamsg.c:1409-1430 | a ping answered in the first round changes nothing |
| `ResultHandlers.HandlerTable.GetNextPacketId` | common/instamsg/driver/instamsg.c:244-247 | the next id, in 1..10000, going round |
| `ResultHandlers.HandlerTable.AttachResultHandler` | common/instamsg/driver/instamsg.c:250-271 | the first free row takes the handler with its id and timeout; no handler or a full table changes nothing |
| `ResultHandlers.HandlerTable.FireResultHandlerAndRemove` | common/instamsg/driver/instamsg.c:290-317 | the first row with the id, a free one for id 0, gives its handler and is freed, no other row changes; with a NULL handler nothing changes |
| `ResultHandlers.HandlerTable.RemoveExpiredResultHandlers` | common/instamsg/driver/instamsg.c:1368-1396 | every live row is aged by one or, at zero, freed |
| `HandlerLifetime.HandlerLifetime` | common/instamsg/driver/instamsg.c:1368-1396 | over any interleaving of attaching, packets and ticks, replies that carry an id call a handler at most once, only by its id, never after its timeout |
| `HandlerLifetime.HandlerFiresExactly` | common/instamsg/driver/instamsg.c:290-317 | with no second row for its id, and unless NULL is called, it is called by replies exactly as it would be alone in the table: at the first packet with its id that is not too late |
| `HandlerLifetime.AttachedFiresExactly` | common/instamsg/driver/instamsg.c:250-271 | a handler attached to a table with a free row and no row of its id is called, through any events, exactly as it would be alone with the timeout asked for; with a full table never |
| `HandlerLifetime.AttachedFiresInTime` | common/instamsg/driver/instamsg.c:1368-1396 | attached and answered after n ticks it is called, once and by its id, if and only if n is at most its timeout |
| `HandlerLifetime.NoStrayCalls` | common/instamsg/driver/instamsg.c:829-841 | without a packet with id 0 there are no other calls, so that these two results are about all of them |
| `HandlerLifetime.StrayCallsExactly` | common/instamsg/driver/instamsg.c:290-317 | a handler is called by a packet with id 0 if and only if one arrives while its row is the first free one and still holds it |
| `HandlerLifetime.ZeroIdCallsAgain` | common/instamsg/driver/instamsg.c:290-317 | a PUBACK with id 7 and then one with id 0 call the handler of id 7 twice |
| `HandlerLifetime.ZeroIdCallsExpiredOrNull` | common/instamsg/driver/instamsg.c:290-317 | id 0 calls a handler after it expired, and NULL in a row that was never used |
| `HandlerLifetime.LiveIdsDistinct` | common/instamsg/driver/instamsg.c:2493-2507 | in every run live ids stay in range, and they stay pairwise distinct all along it if and only if each publish is fresh: the table is full or no live row has an id issued a multiple of 10000 issues before |
| `HandlerLifetime.DistinctExactly` | common/instamsg/driver/instamsg.c:250-271 | the same for each request by itself |
| `HandlerLifetime.IssuePaceSuffices` | common/instamsg/driver/instamsg.c:244-247 | every publish is fresh if fewer than 10000 ids are issued from the issue of any live id on |
| `HandlerLifetime.LifePaceSufficesWithoutPubRec` | common/instamsg/driver/instamsg.c:244-247 | the same if fewer than 10000 are issued during the life of any entry and no PUBREC comes |
| `HandlerLifetime.IdsRepeat` | common/instamsg/driver/instamsg.c:244-247 | two issues get the same id if and only if they are a multiple of 10000 apart |
| `HandlerLifetime.LatePubRecCollides` | common/instamsg/driver/instamsg.c:2493-2507 | a late PUBREC for a finished request and then a publish give two live rows one id, although fewer than 10000 ids are issued during the life of every entry |
| `DataLog.EvictedIsLongestSuffix` | device/linux_desktop/instamsg/device_data_logger.c:74-128 | eviction keeps the longest suffix of records below the size limit |
| `DataLog.SavedSize` | device/linux_desktop/instamsg/device_data_logger.c:72-133 | the file exceeds the limit by at most the record just saved |
| `DataLog.SavedKeeps` | device/linux_desktop/instamsg/device_data_logger.c:72-133 | the new record is the last line, and a log below the limit loses nothing |
| `DataLog.FullLogHasTwo` | device/linux_desktop/instamsg/device_data_logger.c:74-128 | a full log has two records at least, so an eviction round always leaves a temp file to rename |
| `DataLog.DataLogger.CopyAllButFirst` | device/linux_desktop/instamsg/device_data_logger.c:176-211 | hands out the first line and copies all others, in order, to the temp file |
| `DataLog.DataLogger.SaveRecord` | device/linux_desktop/instamsg/device_data_logger.c:72-133 | the file then holds the longest fitting suffix of the old records and the new one; the temp file is gone; the loop ends |
| `DataLog.DataLogger.GetNextRecord` | device/linux_desktop/instamsg/device_data_logger.c:162-229 | returns and removes the oldest record, FAILURE exactly on an empty log; overruns the buffer of the caller exactly if the record does not fit |
| `LineFiles.CutJoin` | device/linux_desktop/common/file_utils.c:42-77 | reading a line from a file of clean lines gives the first line and leaves the others |
| `LineFiles.LinesJoin` | device/linux_desktop/common/file_utils.c:42-77 | a loop that reads lines up to the first empty one gets the lines that were written, and then those of whatever text follows |
| `LineFiles.InputFile.ReadLine` | device/linux_desktop/common/file_utils.c:42-77 | returns the text up to the newline without trailing CRs and consumes it with the newline, into a buffer with room for it |
| `LineFiles.Disk.AppendLine` | device/linux_desktop/common/file_utils.c:140-167 | appends the line and a newline, creating the file if need be |
| `LineFiles.Disk.CopyFile` | device/linux_desktop/instamsg/device_file_system.c:120-148 | the new file has the content of the old one |
| `LineFiles.Disk.RenameFile` | device/linux_desktop/instamsg/device_file_system.c:110-113 | replaces the target by the source file; fails and changes nothing when there is no source |
| `RemainingLength.DecodeEncoded` | common/instamsg/mqtt/src/MQTTPacket.c:29-81 | decoding an encoded length, followed by any bytes, gives it back and consumes exactly its bytes |
| `RemainingLength.EncodedSize` | common/instamsg/mqtt/src/MQTTPacket.c:29-45 | how many bytes are written, 1 to 4, by the thresholds of section 2.2.3 of MQTT 3.1.1 |
| `RemainingLength.EncodedAsStandard` | common/instamsg/mqtt/src/MQTTPacket.c:29-45 | the bytes written, in numbers, as section 2.2.3 of MQTT 3.1.1 gives them |
| `RemainingLength.FieldEnding` | common/instamsg/mqtt/src/MQTTPacket.c:54-81 | a field ends at its first byte without the top bit, unless the bytes or the places run out before it |
| `RemainingLength.PacketLenExact` | common/instamsg/mqtt/src/MQTTPacket.c:84-98 | the space computed for a packet is exact except at four lengths, where it is one byte too much |
| `RemainingLength.Encode` | common/instamsg/mqtt/src/MQTTPacket.c:29-45 | writes the encoded length at the given place and nothing else |
| `RemainingLength.DecodeBuf` | common/instamsg/mqtt/src/MQTTPacket.c:54-117 | reads the field, or tells that it is cut off or longer than four bytes |
| `PacketIO.TwoBytesRoundTrip` | common/instamsg/mqtt/src/MQTTPacket.c:125-170 | an integer written and read comes back modulo 65536 |
| `PacketIO.CharRoundTrip` | common/instamsg/mqtt/src/MQTTPacket.c:139-156 | a code survives writeChar and readChar if and only if it is in -128..127 |
| `PacketIO.LenAgreesWithWritten` | common/instamsg/mqtt/src/MQTTPacket.c:194-251 | the length function counts what is written if and only if one kind of string is set or both are equally long |
| `PacketIO.StringRoundTrip` | common/instamsg/mqtt/src/MQTTPacket.c:194-234 | a string below 65536 bytes is read back whole and nothing after it is consumed |
| `PacketIO.StringReadIsWritten` | common/instamsg/mqtt/src/MQTTPacket.c:215-234 | bytes read as a string are that string, written, and what follows it; no other bytes are refused but those that end too early |
| `PacketIO.StringTruncates` | common/instamsg/mqtt/src/MQTTPacket.c:194-234 | a longer one is read back as another string without an error |
| `PacketIO.HeaderRoundTrip` | common/instamsg/mqtt/src/MQTTPacket.c:411-417 | type, DUP, QoS and RETAIN survive the header byte if and only if each fits its bit field |
| `PacketIO.UnframedPacket` | common/instamsg/mqtt/src/MQTTPacket.c:113-117 | the frame of a packet is taken off exactly, whatever follows it |
| `PacketIO.WriteMqttString` | common/instamsg/mqtt/src/MQTTPacket.c:194-206 | writes length and text of the string that is set, counted first |
| `PacketIO.ReadLenString` | common/instamsg/mqtt/src/MQTTPacket.c:215-234 | reads a string if and only if it ends before the end pointer, and fails otherwise |
| `PublishCodec.PublishRoundTrip` | common/instamsg/mqtt/src/MQTTDeserializePublish.c:23-61 | a PUBLISH comes back with all fields, the id only for QoS above 0, if and only if the topic is shorter than 65536 bytes |
| `PublishCodec.PublishAsStandard` | common/instamsg/mqtt/src/MQTTSerializePublish.c:55-91 | the packet in numbers: first byte 0x30 with the flags, length, topic, the id above QoS 0, payload, as section 3.3 draws it |
| `PublishCodec.BodyReadIsWritten` | common/instamsg/mqtt/src/MQTTDeserializePublish.c:23-61 | a body that is accepted is the one that the fields read from it are written as |
| `PublishCodec.ErrorsAreSeen` | common/instamsg/mqtt/src/MQTTDeserializePublish.c:23-61 | an error is never reported with the code of success, 0: it is -1 for another type, and the size of the length field for a topic that does not end inside the packet |
| `PublishCodec.BodyLength` | common/instamsg/mqtt/src/MQTTSerializePublish.c:31-39 | the length function counts exactly the bytes of the body |
| `PublishCodec.SerializePublish` | common/instamsg/mqtt/src/MQTTSerializePublish.c:55-91 | writes the packet of the standard at the front of the buffer, never past `buflen`, or refuses and writes nothing |
| `PublishCodec.DeserializePublish` | common/instamsg/mqtt/src/MQTTDeserializePublish.c:23-61 | computes the meaning of the bytes, errors and reads past the packet included |
| `PublishCodec.AckRoundTrip` | common/instamsg/mqtt/src/MQTTDeserializePublish.c:64-89 | acknowledgements of every type come back with type, DUP and id |
| `PublishCodec.AckAsStandard` | common/instamsg/mqtt/src/MQTTSerializePublish.c:104-127 | the four bytes in numbers, PUBREL with QoS bits 1, as sections 3.4 to 3.7 draw them |
| `PublishCodec.AckErrorsAreSeen` | common/instamsg/mqtt/src/MQTTDeserializePublish.c:64-89 | an acknowledgement is refused if and only if its body has less than two bytes, and never with the code of success |
| `PublishCodec.SerializeAck` | common/instamsg/mqtt/src/MQTTSerializePublish.c:104-127 | the four bytes of the standard, or nothing when they do not fit |
| `PublishCodec.DeserializeFixedHeaderAndMsgId` | common/instamsg/mqtt/src/MQTTDeserializePublish.c:64-89 | computes header and id of an acknowledgement |
| `SubscribeCodec.ListRoundTrip` | common/instamsg/mqtt/src/MQTTSubscribeServer.c:35-70 | a SUBSCRIBE or UNSUBSCRIBE list of any length comes back in order with DUP, id and codes, whatever follows, if and only if it has room in the arrays of the caller, its filters are shorter than 65536 and its codes fit a signed char |
| `SubscribeCodec.SubscribeAsStandard` | common/instamsg/mqtt/src/MQTTSubscribeClient.c:50-86 | the SUBSCRIBE in numbers: first byte 0x82, and 8 more with DUP, length, id and each filter with its length high byte first and its code, as section 3.8 draws it |
| `SubscribeCodec.UnsubscribeAsStandard` | common/instamsg/mqtt/src/MQTTUnsubscribeClient.c:49-82 | the UNSUBSCRIBE likewise, with first byte 0xA2 and without codes, as section 3.10 draws it |
| `SubscribeCodec.EntriesReadExactly` | common/instamsg/mqtt/src/MQTTSubscribeServer.c:52-64 | bytes are read as a list if and only if they are that list, written, of entries that can be sent and with room for them: nothing malformed is taken for a list |
| `SubscribeCodec.ErrorLooksLikeSuccess` | common/instamsg/mqtt/src/MQTTUnsubscribeServer.c:34-66 | an error inside a list returns 1, the success code, if and only if the length field is one byte |
| `SubscribeCodec.TooShortForIdIsSuccess` | common/instamsg/mqtt/src/MQTTSubscribeServer.c:50-66 | a body too short for the packet id is taken for an empty list with an id made of the bytes behind it, whatever the length field |
| `SubscribeCodec.MalformedListReportedAsSuccess` | common/instamsg/mqtt/src/MQTTSubscribeServer.c:35-70 | the SUBSCRIBE 82 03 00 01 00, whose list breaks off in its first length, returns 1 |
| `SubscribeCodec.ListLength` | common/instamsg/mqtt/src/MQTTSubscribeClient.c:28-36 | the length function counts exactly what the loop of the serialiser writes |
| `SubscribeCodec.SerializeList` | common/instamsg/mqtt/src/MQTTSubscribeClient.c:50-86 | writes the packet, which is the one of the standard, or refuses and writes nothing |
| `SubscribeCodec.WriteEntries` | common/instamsg/mqtt/src/MQTTUnsubscribeClient.c:49-82 | the loop writes all filters in order, with their codes for SUBSCRIBE |
| `SubscribeCodec.DeserializeList` | common/instamsg/mqtt/src/MQTTSubscribeServer.c:35-70 | computes the meaning of the bytes, its odd error codes included |
| `SubscribeCodec.SubackRoundTrip` | common/instamsg/mqtt/src/MQTTSubscribeClient.c:100-135 | the granted codes come back with the success code if and only if each is in -128..127 and at most one is too many for the array |
| `SubscribeCodec.SubackAsStandard` | common/instamsg/mqtt/src/MQTTSubscribeServer.c:82-110 | the SUBACK in numbers, as section 3.9 draws it |
| `SubscribeCodec.SubackOverruns` | common/instamsg/mqtt/src/MQTTSubscribeClient.c:120-129 | the array is overrun, by one code, if and only if there are more codes than it holds, and that is reported as success if and only if there is one more; the codes stored are the first ones, as signed characters |
| `SubscribeCodec.FailureCodeUnseen` | common/instamsg/mqtt/src/MQTTSubscribeClient.c:100-135 | the failure code 0x80 arrives as -128 |
| `SubscribeCodec.SubackCheckTooSmall` | common/instamsg/mqtt/src/MQTTSubscribeServer.c:82-110 | exactly which buffers pass the space test and are too small |
| `SubscribeCodec.SerializeSuback` | common/instamsg/mqtt/src/MQTTSubscribeServer.c:82-110 | writes id and codes, one byte a code, or refuses, or writes past the end of the buffer: exactly if the packet passes the space test and is longer |
| `SubscribeCodec.DeserializeSuback` | common/instamsg/mqtt/src/MQTTSubscribeClient.c:100-135 | computes id and return code, and stores the codes at the front of the array, or past its end exactly if they do not fit |
| `ConnectCodec.ConnectRoundTrip` | common/instamsg/mqtt/src/MQTTConnectServer.c:51-108 | a CONNECT of version 3 or 4 comes back whole if and only if its credentials are acceptable, and is refused otherwise |
| `ConnectCodec.ConnectAsStandard` | common/instamsg/mqtt/src/MQTTConnectClient.c:58-121 | the packet in numbers: first byte 0x10, protocol name and level, flags, keep-alive and payload, as section 3.1 draws it |
| `ConnectCodec.PayloadReadIsWritten` | common/instamsg/mqtt/src/MQTTConnectServer.c:79-103 | what is accepted behind the keep-alive begins with the payload of the session, written, and the flags say which parts it has |
| `ConnectCodec.VersionByName` | common/instamsg/mqtt/src/MQTTConnectServer.c:30-41 | which names of no, four and six bytes are accepted with which version |
| `ConnectCodec.UnknownProtocolRefused` | common/instamsg/mqtt/src/MQTTConnectServer.c:69-77 | a CONNECT with another pair of name and version is refused, whatever follows |
| `ConnectCodec.ConnectLengthExact` | common/instamsg/mqtt/src/MQTTConnectClient.c:27-48 | the length function counts exactly the bytes of the body |
| `ConnectCodec.FlagsRoundTrip` | common/instamsg/mqtt/src/MQTTConnectClient.c:90-104 | the six connect flags survive their byte |
| `ConnectCodec.SerializeConnect` | common/instamsg/mqtt/src/MQTTConnectClient.c:58-121 | writes the packet that describes the options, which is the one of the standard, or refuses and writes nothing |
| `ConnectCodec.DeserializeConnect` | common/instamsg/mqtt/src/MQTTConnectServer.c:30-108 | computes the session the bytes describe up to the end of the buffer, whatever the length field says, or the failure |
| `StreamReaders.NonBlockingRefinesBlocking` | common/instamsg/mqtt/src/MQTTPacket.c:324-409 | for every cutting of the input, calling again ends with a packet if and only if the waiting reader finds one in the same bytes, the length field took at most four polls and the body is not empty; type, buffer and rest are then the same |
| `StreamReaders.NonBlockingFails` | common/instamsg/mqtt/src/MQTTPacket.c:324-409 | calling again ends with -1 if and only if the source fails before the packet is whole, the packet does not fit, or its length field is not complete after four polls, and without a packet otherwise with 0 |
| `StreamReaders.BlockingReadsPacket` | common/instamsg/mqtt/src/MQTTPacket.c:290-316 | a packet is read whole exactly when it fits, stands in the buffer as it was sent, and nothing after it is consumed |
| `StreamReaders.Read` | common/instamsg/mqtt/src/MQTTPacket.c:290-316 | return value, buffer and rest of the source as the bytes determine them |
| `StreamReaders.WaitingSource.Decode` | common/instamsg/mqtt/src/MQTTPacket.c:54-81 | the value of the field and the bytes consumed, for cut and overlong fields too |
| `StreamReaders.MQTTTransport.DecodeNb` | common/instamsg/mqtt/src/MQTTPacket.c:324-351 | a call in the length field keeps the ending that lies ahead |
| `StreamReaders.MQTTTransport.ReadNb` | common/instamsg/mqtt/src/MQTTPacket.c:361-409 | a call either ends the packet as calling on would, or leaves the same ending ahead, in whichever of the three states it finds the transport |
| `StreamReaders.Receive` | common/instamsg/mqtt/src/MQTTPacket.c:361-409 | a loop over the calls ends, and does what the waiting reader does, under the condition of the refinement; a failure is one of those above |
| `PacketReader.Framing` | common/instamsg/driver/instamsg.c:641-734 | the packets written to a stream one after the other are exactly the packets read, in order, with buffer images that start with the packet and are zero behind it, and the tail is read as if alone |
| `PacketReader.FramingLeavesTail` | common/instamsg/driver/instamsg.c:641-734 | after whole packets the rest of the stream is left as if alone |
| `PacketReader.SuccessIsPacket` | common/instamsg/driver/instamsg.c:679-729 | SUCCESS is returned if and only if a packet was read or the bytes end inside one, in the length field or in a body of which no more came than the buffer has room for |
| `PacketReader.OversizedPacketBreaksOff` | common/instamsg/driver/instamsg.c:716-729 | two bytes of a packet announced with 5000 and then a socket error return SUCCESS |
| `PacketReader.PacketIsRead` | common/instamsg/driver/instamsg.c:641-734 | one packet is read if and only if it fits the 4000-byte buffer, and nothing after it is consumed |
| `PacketReader.Connection.ReadPacket` | common/instamsg/driver/instamsg.c:641-734 | outcome and return code depend on the bytes and not on their pieces; the timeout is returned exactly if the socket has nothing yet, FAILURE exactly if it is or gets broken before the header byte |
| `PacketReader.Connection.ReadAll` | device/linux_desktop/instamsg/device_socket.c:215-299 | the retrying read delivers exactly the next n bytes, or fails when they do not come |
| `PacketReader.Connection.ReadLength` | common/instamsg/driver/instamsg.c:700-712 | the value of the length field, or how it goes wrong |
| `PacketReader.ReadStream` | common/instamsg/driver/instamsg.c:2229-2244 | repeated reading delivers the frames of all bytes heard, timeouts notwithstanding; a header that was not read is acted on if and only if the bytes end inside a packet |
| `Calendar.ExtractDateParams` | common/instamsg/driver/time.c:52-150 | for an `unsigned long` of 32 or 64 bits: a valid Gregorian date with its weekday and day of the year, which stands for the argument from 2000-03-01 on and for the argument plus the range of the type before, if and only if that moment is below END_OF_YEARS; otherwise the year overflows its int |
| `Calendar.YearFits` | common/instamsg/driver/time.c:120-140 | a date has a year that fits an int if and only if its second is below END_OF_YEARS |
| `Calendar.CyclesMeanDays` | common/instamsg/driver/time.c:84-120 | the 400/100/4/1-year cycles count the days of the Gregorian calendar |
| `Calendar.SplitIsValid` | common/instamsg/driver/time.c:84-111 | with the corrections at the ends of cycles, the split loses no day and stays in range |
| `Calendar.SplitDays` | common/instamsg/driver/time.c:84-111 | the divisions and corrections give cycles in range that lose no day |
| `Calendar.FindMonth` | common/instamsg/driver/time.c:122-125 | the month loop stays inside its table of twelve and leaves a day of that month |
| `Calendar.DateIsRight` | common/instamsg/driver/time.c:113-143 | month, day and the year correction after February give the right date |
| `Calendar.SecondsInjective` | common/instamsg/driver/time.c:134-147 | a number of seconds has only one date, so the result is the right one |
| `Calendar.NewYear2000` | common/instamsg/driver/time.c:52-82 | the calendar is anchored: 2000-01-01 is a Saturday and 946684800 seconds after 1970 |
| `TopicFilter.ScanIsLevelMatch` | common/instamsg/driver/instamsg.c:742-767 | for every well-formed filter and every name the scan matches if and only if the level lists match |
| `TopicFilter.IsTopicMatched` | common/instamsg/driver/instamsg.c:742-767 | the two-pointer loop returns exactly that |
| `TopicFilter.AgainstStandard` | common/instamsg/driver/instamsg.c:742-767 | it matches if and only if the standard does and every wildcard has a non-empty level to take |
| `TopicFilter.LevelsInjective` | common/instamsg/driver/instamsg.c:742-767 | two texts with the same levels are the same |
| `TopicFilter.LevelsAreParts` | common/instamsg/driver/instamsg.c:742-767 | the levels of a text are its parts between the slashes: they hold no slash, and joined by slashes they are the text |
| `TopicFilter.PlainFilterIsEquality` | common/instamsg/driver/instamsg.c:777-783 | a filter without wildcards matches exactly itself, so that the extra comparison in delivery adds nothing |
| `TopicFilter.DeliverMessageToSelf` | common/instamsg/driver/instamsg.c:770-826 | all handlers whose filter matches are called in order, the default one exactly if there are none; then QoS 1 is answered by the PUBACK and QoS 2 by the PUBREC of the standard with the id of the message |
| `TopicFilter.CalledAreTakers` | common/instamsg/driver/instamsg.c:777-798 | what is called: by position in the table, exactly the handlers with a callback whose filter is the name or matches it, in order; the default one if and only if there is none of them |
| `Json.LookupPrinted` | common/instamsg/driver/json.c:56-179 | looking up in a printed dictionary gives the value of the first pair with the key, line ends as blanks, or nothing |
| `Json.LookupField` | common/instamsg/driver/json.c:56-179 | a value is read up to the first quote in it, whatever the text and whatever follows |
| `Json.GetJsonKeyValueIfPresent` | common/instamsg/driver/json.c:56-179 | the scan appends exactly what the lookup finds to the output |
| `ConfigStore.RefinesMap` | device/linux_desktop/instamsg/device_config.c:230-255 | under any sequence of saves and deletes, of records with any line ends, the file stands for a map in which a save replaces the entry of the key by those of all lines of the text; if every record is one line there is at most one line a key |
| `ConfigStore.SaveIsUpdate` | device/linux_desktop/instamsg/device_config.c:230-241 | saving a record of one line under its key updates the map at that key only, saving a text of several lines adds the entries of all of them |
| `ConfigStore.LinesSaved` | device/linux_desktop/instamsg/device_config.c:230-241 | the lines after a save are the lines of other keys and the lines of the text |
| `ConfigStore.GotSaved` | device/linux_desktop/instamsg/device_config.c:101-132 | what is read after a save: for its key the lines of the text with that key, for another key what was read before, unless the text has lines of that one |
| `ConfigStore.DeleteIsRemoval` | device/linux_desktop/instamsg/device_config.c:61-163 | deleting removes the key if and only if it is not the only one |
| `ConfigStore.FindIsMap` | device/linux_desktop/instamsg/device_config.c:101-132 | the last line with a key is the entry of the map |
| `ConfigStore.OverlaidIsFind` | device/linux_desktop/instamsg/device_config.c:103-128 | with unique keys, copying matches over the buffer leaves the line that was looked for |
| `ConfigStore.SecondLineOverFirst` | device/linux_desktop/instamsg/device_config.c:103-128 | of two lines with the key the second is read, followed by the end of a longer first one |
| `ConfigStore.ConfigFile.Scan` | device/linux_desktop/instamsg/device_config.c:61-163 | the shared pass: matches to the buffer, or all other lines to the temp file |
| `ConfigStore.ConfigFile.Get` | device/linux_desktop/instamsg/device_config.c:201-210 | SUCCESS exactly if the key has a line; the result is what the copies of its lines leave in the buffer, shorter than 1000, and with unique keys the line; no file changes |
| `ConfigStore.ConfigFile.Save` | device/linux_desktop/instamsg/device_config.c:230-241 | the file then holds the other lines and the text of the record as it is, and the temp file is gone |
| `ConfigStore.ConfigFile.Delete` | device/linux_desktop/instamsg/device_config.c:252-255 | returns FAILURE in every case; the lines of other keys remain, or all lines if there are no others |
| `Config.PushedConfigWins` | common/instamsg/driver/config.c:64-186 | after a pushed record that survives, every later registration of its key loads the pushed value, in all runs within the buffers, if and only if it has no quote or the key was not registered since |
| `Config.SurvivesExactly` | common/instamsg/driver/config.c:64-93 | a pushed value is loaded whatever the default is if and only if its record survives, for every text |
| `Config.SurvivesByFirstLine` | device/linux_desktop/instamsg/device_config.c:86-132 | unless a later line carries the key, a text survives if and only if its first line is not empty and holds its key, and its value, as far as they are not empty |
| `Config.SurvivesByPlace` | device/linux_desktop/instamsg/device_config.c:86-132 | a printed dictionary with line ends for blanks, with a key and a value, survives if and only if its first LF stands behind the closing quotes of key pair and value pair |
| `Config.BrokenPushLosesValue` | common/instamsg/driver/config.c:64-93 | a record with an LF between its key and its value loads an empty text, whatever key, value and stored lines |
| `Config.LeadingLineEndLosesRecord` | common/instamsg/driver/config.c:64-93 | a record that begins with an LF is lost, and the default is loaded |
| `Config.PushForAnotherKeyReplaces` | common/instamsg/driver/config.c:64-93 | a record for one key whose second line carries another one replaces the value of that one |
| `Config.BrokenPushes` | common/instamsg/driver/config.c:64-93 | the same at two concrete texts |
| `Config.RegisteringAgainChangesNothing` | common/instamsg/driver/config.c:96-186 | registering a second time leaves the file as it was, character by character, if and only if the value and the description in use are plain |
| `Config.RegisteringAgainLoadsTheSame` | common/instamsg/driver/config.c:96-186 | the second registration loads the value of the first if and only if it is plain, unless the record in use has a later line that carries the key |
| `Config.PushedIntIsLoaded` | common/instamsg/driver/config.c:150-169 | an integer pushed in decimal is what the application gets, in all runs within the buffers that leave the key alone on every line, if and only if its absolute value fits an int, unless the description has a later line that carries the key |
| `Config.PushedSetting` | common/instamsg/driver/config.c:150-169 | what the application's variable gets after a pushed record that survives and any run that leaves its key alone: the pushed text, without a quote in it or before the first registration, or the number pushed in decimal, exactly if it fits an int |
| `Config.RecordPrinted` | common/instamsg/driver/config.c:54-61 | sg_varargs with the format of the source prints the dictionary of the four pairs |
| `Config.RecordSpelt` | common/instamsg/driver/config.c:54-61 | the record spelt out, for texts with type 0 and for integers with type 1 |
| `Config.RegisteredSpelt` | common/instamsg/driver/config.c:96-186 | the text that a registration stores and publishes, spelt out: its own key and type, with value and description of the stored record if there is one |
| `Config.RecordValue` | common/instamsg/driver/config.c:54-61 | what is read back as the value of a record, for any value and description |
| `Config.GenerateConfigJson` | common/instamsg/driver/config.c:54-61 | produces that dictionary |
| `Config.ProcessConfig` | common/instamsg/driver/config.c:64-93 | stores the text under its own key, as it is, and hands the same text to the publish |
| `Config.RegisterEditableConfig` | common/instamsg/driver/config.c:96-186 | a text variable gets the stored value if there is one and the default otherwise, an integer variable the number atoi reads in it: with nothing stored the default text, and the number of a decimal default exactly if it fits an int; the record in use is stored and published, if and only if that record fits messageBuffer |
| `Numerals.NumberOfDigits` | common/instamsg/driver/globals.c:392-395 | the decimal digits of a number stand for that number |
| `Numerals.DigitsMean` | common/instamsg/driver/globals.c:390-395 | in any base up to 16 the digits are 0 to 9 and a to f below the base, without a zero in front, and stand for the number |
| `Numerals.DigitAt` | common/instamsg/driver/globals.c:392-395 | dividing by the weight and taking the remainder gives the digit of that weight |
| `Varargs.Weight` | common/instamsg/driver/globals.c:330-336 | in spite of wrap-around the loop stops at the largest power of the base that is not above the value, the count going down once a step |
| `Varargs.PadCount` | common/instamsg/driver/globals.c:342-375 | the wrapped count asks for exactly the padding wanted, and never for padding when it wrapped |
| `Varargs.PaddedToWidth` | common/instamsg/driver/globals.c:369-375 | a number is padded to its width if and only if the width is at most 16 and not 16 with one character; the buffer is overrun exactly for wider fields it would pad |
| `Varargs.PaddedInPlace` | common/instamsg/driver/globals.c:342-387 | blanks go in front of the sign, zeros between sign and digits, and a width far beyond the buffer pads nothing |
| `Varargs.Convert` | common/instamsg/driver/globals.c:330-410 | sign, padding and digits of the number as its width and fill ask for |
| `Sprintf.SgVarargs` | common/instamsg/driver/globals.c:48-446 | the loop over the format prints what the tokens of the format print |
| `Sprintf.FormatsPieces` | common/instamsg/driver/globals.c:48-446 | a format made of any list of texts and commands, with widths and zero flags, prints the pieces in order, each with its own argument |
| `Sprintf.OtherLetters` | common/instamsg/driver/globals.c:165-440 | `%i` is `%d`, `%X` and `%p` are `%x`, and a letter that is no command prints nothing and takes no argument, whatever follows |
| `Sprintf.FieldFilled` | common/instamsg/driver/globals.c:221-257 | a text is never cut, and filled up with blanks behind it |
| `Sprintf.PrintedIntIsRead` | common/instamsg/driver/sg_stdlib.c:36-95 | `%d` prints the decimal form of every int and sg_atoi reads it back for all but the smallest |
| `SgStdlib.Atoi` | common/instamsg/driver/sg_stdlib.c:36-95 | the backward loop computes the scan from the right, signed overflow apart |
| `SgStdlib.AtoiReads` | common/instamsg/driver/sg_stdlib.c:36-95 | the last word of the text is the number read, negative with one minus sign or more, if it has at most ten digits and fits an int |
| `SgStdlib.AtoiOfDecimal` | common/instamsg/driver/sg_stdlib.c:36-95 | a decimal form is read back if and only if the absolute value fits an int |

## Left out

- Sockets, TLS, DNS, NTP, GPS, AT commands, media, file transfer, upgrades, watchdogs, timers and logging: foreign calls and plumbing. The socket is a list of polls, each with some bytes, none, or an error; in `Client` each write succeeds or fails and each read round brings packets, as parameters of the outside world. Logging has no effect in the model.
- Allocation failure: every `sg_malloc` succeeds.
- PROVACK, one-to-one messages, special topics and the CONNACK bit layout: string plumbing over pieces covered here. In `Client` a CONNACK or PROVACK only sets the connected flag or ends the process, as `handleConnOrProvAckGeneric` decides.
- `sg_mem.c`, `hex.c`, `misc.c`, `MQTTFormat.c` and the device stubs: would only add easy members.
- Delivery.NoMessageIsLost: supposes what the program keeps to: no publish at QoS 1 or 2 starts from inside a callback while another one is waiting, topics and payloads fit their buffers and hold no quote, CR or LF, and acknowledgement is on when a record is drained (`Delivery.DrainConserves` shows what happens when it is off). Their records are shorter than the 1000 bytes of messageBuffer, beyond which draining overruns it (`Delivery.KeptMessageFits` says which messages that shuts out).
- Client.InstaMsg.ReadAndProcessIncomingMQTTPacketsIfAny: QoS 0 publishes made by callbacks during a round count as part of that round's packets, and the connection-wait loop before the first read is one round.
- Client.InstaMsg.InitInstaMsg: a crash inside a rename of a file is not modelled; a crash between any two events is. The CONNECT fits its buffer.
- Client.InstaMsg.ProcessPacket: the two buffers `lastPubTopic` and `lastPubPayload` are one optional message, and the variables of the file are gathered in one record.
- LineFiles.InputFile.ReadLine: the read before the buffer that the source makes on an empty line is not modelled; it has no effect unless that byte is a CR. The line has room in the buffer, which the source does not test.
- DataLog.DataLogger.SaveRecord: records are single clean lines below the line buffer's size, as `saveFailedPublishedMessage` makes them; the log file exists, as the source assumes.
- ConfigStore.ConfigFile.Save: lines, their CRs included, are shorter than the 1000 bytes that keys and matching lines are read into; that the temp file is absent at the start is what `initInstaMsg` arranges.
- RemainingLength.Encode: lengths are not negative; above 2^28 - 1 the field has more than four bytes.
- PublishCodec.DeserializePublish: reads beyond the end of a packet or buffer are one outcome, `Overread`, with no value, because they depend on foreign bytes; the same holds for the other deserialisers.
- ConnectCodec.SerializeConnect: for protocol versions 3 and 4, the only ones the client sets, and with at most one of the two kinds of string set, as `PacketIO.LenAgreesWithWritten` requires.
- StreamReaders.Read: the buffer has room for the five bytes that the source writes before it tests the length.
- StreamReaders.Receive: packets of the reserved type 0 are excepted, because the value that announces them means "call again".
- PacketReader.Connection.ReadPacket: a fifth length byte overflows an int, and a body of which more bytes arrive than are left of the 4000 overruns the buffer; both are the outcome `Undefined`. The buffer has the size it has with SSL enabled, as on linux_desktop. The end of the list of polls is a socket error.
- PacketReader.Connection.ReadAll: a `recv` that returns 0 with errno 0, which the source takes for all bytes read, is not modelled.
- Calendar.ExtractDateParams: a signed overflow of the year is one outcome, None; printing the date is left out.
- Varargs.Convert: `unsigned long` has 32 bits here; negating the smallest long wraps. It is not the sprintf of linux_desktop, which maps `sg_sprintf` to the one of the C library, not part of this model.
- HandlerLifetime.LiveIdsDistinct: every PUBREC names id 0 or an id that was issued; one too short to hold an id, which registers the id -1, is a packet of `Delivery` and not of this module.
- SubscribeCodec.DeserializeSuback: what a code stored beyond the caller's array overwrites is one outcome, None; the same holds for `SubscribeCodec.SerializeSuback` and its buffer.
- SgStdlib.Atoi: a signed overflow is one outcome, None.
- Sprintf.SgVarargs: a missing or wrong argument, a `%` that ends the format and a number that overruns the 16-character buffer are one outcome, `Undefined`.
- TopicFilter.DeliverMessageToSelf: filters are well-formed, which the source assumes too; what the socket answers to the acknowledgement is a parameter.
- Config.PushedConfigWins: keys that the application registers are plain texts, as the constants in the source are. A line of the file or a record of 1000 characters or more ends a run, because it does not fit the buffers it is printed into, or read back into if it is one line; pushed texts of several shorter lines could be longer.
- Config.ProcessConfig: the publish that follows is `Client`'s, so only the text handed to it is stated here.
