# Verification of the OSNS libraries

A Dafny model of the parts of the OSNS libraries where correctness is hardest to see, with proofs.
`dafny verify dfyconfig.toml` checks all of it.

**mDNS names and messages** (`lib/dnssd/mdns.h`). Names are written into a shared buffer with message
compression (section 4.1.4 of RFC 1035): a label sequence written before is replaced by a reference
found through a ring of 16 remembered offsets. `NameWalk` holds the four walkers over arbitrary octets,
`NameMake` the writer, as methods on the message buffer with functions that give their effect on
values. `NameTrip` says what compressed names mean and that later writes leave them alone, `NameExact`
when a name written is read back (if and only if), whatever names were written before, `NameEvery` carries
this through every message, `NameRun` gives a condition a caller can check beforehand for all names of a
message, and `NameExamples` gives names that are lost. `NameReach` says how far the readers go, and `NameRing` what is
found and compressed. `Answer` builds messages, `Receive` reads them,
`MessageTrip` proves that what is built is what is read, `MessageSeen` says so of the records given,
`QuestionTrip` adds questions, `TextStrings` says what any TXT data means, and `MessageFits` that a buffer
with room for the uncompressed records is always enough.

**Lists** (`lib/list`). `PlainList` proves the plain operations on the heap against a sequence.
`LockedList` is the fine-grained locked form as a transition system with one step for each flag taken
or given back and each pointer read or written, `ListAlone` says how its operations end; `Chain` is the
list order all rest on.

**The event queue of a watched object** (`lib/eventloop`). `EventQueue` is the protocol of the event
loop thread and the workers. The word of pending events is updated by the loop outside the lock, so its
loads and stores are separate steps: safety holds in every run. `EventAlone` says what one report comes to
when nobody interferes. `EventLoss` says which of these stores lose
reports (if and only if), and `EventExamples` gives two runs with such stores.

**The mount table monitor** (`lib/mountinfo`). `MountTable` has the two buffers, the list whose entries
point into them, and the merge; `MountMerge` says exactly when a pass leaves the table it read;
`MountChange` is the hand-over between callers.

**Smaller pieces.** `PathBuffer` (`lib/path`), `Base64` and the unescaping (`lib/misc/txtutils.c`),
`Escapes` (the same), `ScanNames` (`lib/dnssd/mdns-utils.c`), `ActionList` (`lib/osns/start.c`). `Bytes` holds what all share.

Received octets, tables read, reported events, callback results and mount ids of lines are parameters.

## Where the code falls short

- A reference is taken to whatever remembered label sequence begins like the sought one, also one of the
  unfinished name (`lib/dnssd/mdns.h:697-699`, `:761`). `NameExact.RoundTripExactly` gives the exact
  condition for one call, `NameEvery.EveryNameExactly` for every name of every message,
  `NameRun.NamesSurvive` one a caller can check beforehand.
- A TXT answer is announced but never written, so that the receiver finds one record less than announced
  and takes the first record of the other sections for the answer (`MessageTrip.TextAnswerIsLost`).
- A TXT string is read back exactly when its key is non-empty printable ASCII without `=` and it fits
  one length octet (`Receive.TextRoundTripExactly`).
- `lib/eventloop/backend.c:215` and `lib/eventloop/bae.c:152` update the pending events without the lock that
  the workers hold. A worker's store (`lib/eventloop/queue.c:125`) can wipe out a report stored by the first
  since its load (`EventExamples.TornReportIsLost`); the store of the second can revive a bit that a worker
  has cleared, after which `lib/eventloop/backend.c:211` masks every report of that event alone
  (`EventExamples.RevivedBitStays`, `EventLoss.ReportsMasked`). `EventLoss.ReportsKeptExactly` says exactly
  which steps do harm.
- The thread that served a watched object first is never forgotten (`lib/eventloop/queue.c:65-76`): a worker in
  any other thread leaves what is listed alone (`EventAlone.OtherThreadLeaves`).
- With a signal callback the bit of an error, a hang-up or an input listed already stays pending
  (`EventAlone.ReportAlone`), so that further reports of it alone are masked.
- After a removal the merge loop reads a fresh line (`lib/mountinfo/read.c:541`), so the line the removed
  mount was compared with is lost (`MountMerge.MergeExactly`, `MountMerge.StayingMountIsLost`).
- A pass that stops at a line it cannot read can leave entries that point into the buffer read into next
  (`MountMerge.UnreadableLeaves`), so that reading it changes their texts (`MountTable.Monitor.ReadFromSystem`,
  `MountTable.ReadOver`); `MountMerge.LeftExactly` says when, by the ids known and those read before that line.
- A dot behind a backslash separates labels all the same, so that a name written that way is found again
  exactly when no label sought has a dot (`ScanNames.BackslashNamesExactly`).
- The first prepend to an empty path begins it with a zero octet, which later appends come after
  (`PathBuffer.Path.PrependDynamic`).

## Model

| member | source | states |
|---|---|---|
| NameWalk.GetNextSubstring | lib/dnssd/mdns.h:528-560 | on any octets and any start: follows at most 16 references, never reads outside the packet, and finds the substring the reference function NextSubstring finds |
| NameReach.SubstringExactly | lib/dnssd/mdns.h:528-560 | on any octets: a substring is found exactly when at most 16 references lead to one that lies in the packet in full, and there |
| NameWalk.Skip | lib/dnssd/mdns.h:562-580 | the end of a name without leaving the octets at it, or failure with the offset unchanged, after at most 65 substrings |
| NameWalk.Extract | lib/dnssd/mdns.h:623-659 | on success the buffer holds exactly the first min(capacity, total) octets of the full dotted name, the rest of it untouched, and the offset moves to the end; otherwise nothing |
| NameWalk.ExtractImpliesSkip | lib/dnssd/mdns.h:562-580 | a name that can be extracted can be skipped, to the same end |
| NameReach.SkipExactly | lib/dnssd/mdns.h:562-580 | on any octets: a name is skipped exactly when at most 64 labels lie at it before its terminator or first reference, to the end of that |
| NameWalk.Equal | lib/dnssd/mdns.h:582-621 | 1 exactly when both names can be read and their label sequences match, with both offsets behind the names as skipping would have it; otherwise both unchanged |
| NameWalk.StrNCaseEqual | lib/dnssd/mdns.h:582-621 | the label comparison: equal up to ASCII case as far as the first zero octet |
| NameWalk.CaseEqualExactly | lib/dnssd/mdns.h:582-621 | that comparison holds exactly when all octets up to the first zero are the same or the two cases of one letter |
| NameWalk.NamesMatchIgnoresCase | lib/dnssd/mdns.h:582-621 | for labels without zero octets, names match exactly when they have the same octets but for the case of the 26 letters (section 16 of RFC 6762) |
| NameMake.StringTable.constructor | lib/dnssd/mdns.h:118-122 | an empty ring of 16 offsets |
| NameMake.TableAdd | lib/dnssd/mdns.h:705-717 | the offset is remembered in the next slot, over the oldest once all are in use; without a table nothing happens |
| NameRing.RingHolds | lib/dnssd/mdns.h:705-717 | after any offsets were remembered the ring holds the last 16 of them, each in the slot its number gives |
| NameMake.TableFind | lib/dnssd/mdns.h:661-703 | the first remembered offset inside the buffer whose labels begin with the sought ones |
| NameRing.FindExactly | lib/dnssd/mdns.h:661-703 | nothing is found exactly when no slot in use holds an offset inside the buffer whose labels begin with the sought ones; else what the least such slot holds |
| NameRing.RingFinds | lib/dnssd/mdns.h:661-717 | so a label sequence is found exactly when one of the last 16 offsets remembered begins with it |
| NameMake.MakeRef | lib/dnssd/mdns.h:730-735 | two octets, 0xC000 with the 14-bit target, or nothing when they do not fit |
| NameMake.Make | lib/dnssd/mdns.h:737-773 | buffer, ring and end are what the functional description of writing the labels gives, also where the name does not fit |
| NameRing.MakeExactly | lib/dnssd/mdns.h:737-773 | labels are written out until the longest tail of the name that is found, which becomes a two-octet reference; it fails exactly when a label does not leave an octet, the reference not two, or the terminator not one |
| NameMake.MakeNameFrame | lib/dnssd/mdns.h:737-773 | writing a name changes nothing in front of it |
| NameTrip.DecodeCompressed | lib/dnssd/mdns.h:623-659 | every reader sees exactly the labels a compressed encoding stands for, and fails for more than 64 of them |
| NameTrip.CompressedFrame | lib/dnssd/mdns.h:737-773 | writes to other octets leave an encoding, its name and its end alone |
| NameTrip.MatchesStored | lib/dnssd/mdns.h:661-703 | the search accepts a stored name exactly when the sought labels are a prefix of it: it does not check where the stored name ends |
| NameTrip.ReadyStep | lib/dnssd/mdns.h:737-773 | writing one more label keeps the record of what the ring points to, also when a slot is overwritten |
| NameTrip.MakeSound | lib/dnssd/mdns.h:737-773 | with sound references a name is encoded with references strictly backwards to literal labels, ends where the writer stopped, and the ring again knows only complete names |
| NameExact.CycleNeverEnds | lib/dnssd/mdns.h:528-560 | a name whose labels run into a reference to themselves is never read to an end |
| NameExact.DecodesTo | lib/dnssd/mdns.h:661-703 | on any octets: what is read is a given name exactly when the search accepts it and it ends where the name ends, the check the search leaves out |
| NameExact.MakeReads | lib/dnssd/mdns.h:737-773 | after any names at all, the labels read where labels were written are those written if and only if the reference picked is sound, and any name read there ends where the writer stopped |
| NameExact.MakeClosed | lib/dnssd/mdns.h:737-773 | a name with labels under 192 octets, faithfully written or not, leaves a message in which every walk from a remembered offset stays before what is written next |
| NameExact.RoundTripExactly | lib/dnssd/mdns.h:737-773 | one name, after any names, also circular or wrongly referenced ones: it is read back, with its end, if and only if its labels have lengths from 1 to 191, there are at most 64, and the reference picked is before the name and to a stored name that ends where the sought one ends |
| NameEvery.EveryNameExactly | lib/dnssd/mdns.h:661-773 | every message from an empty ring: after any names with labels under 192 octets and any other octets, a name is read back from the finished message under exactly that condition, whatever follows |
| NameRun.RegularIsSound | lib/dnssd/mdns.h:661-703 | names that share one final label found nowhere else and have distinct labels always get sound references |
| NameRun.NameAppended | lib/dnssd/mdns.h:737-773 | one more such name is encoded soundly and the message stays sound |
| NameRun.OtherOctetsWritten | lib/dnssd/mdns.h:1225-1281 | octets of no name, such as a length filled in later, may be written at any time |
| NameRun.NamesSurvive | lib/dnssd/mdns.h:661-773 | whole message: every such name written, among any other octets and with the ring wrapping, is read back at the end with the end the writer returned, through references strictly backwards to literal labels |
| NameRun.DottedSplit | lib/dnssd/mdns.h:737-773 | the labels of text, dotted again, give the text with a dot at its end |
| NameRun.LabelsExactly | lib/dnssd/mdns.h:737-773 | the labels of a name are its text between the dots, without one dot at its end, and have no dot |
| NameExamples.RepeatedLabelIsLost | lib/dnssd/mdns.h:761 | "a.a" is written as a circle that no reader can leave |
| NameExamples.PrefixIsTaken | lib/dnssd/mdns.h:697-699 | after "b.a", the name "b" is written as a reference to it and read back as "b.a" |
| Answer.WriteHeader | lib/dnssd/mdns.h:1208-1223 | name and fixed fields in place, or failure, as AddHeader describes |
| Answer.WriteRecord | lib/dnssd/mdns.h:1225-1281 | a whole record with its length filled in afterwards; TXT records are passed over |
| Answer.WriteTexts | lib/dnssd/mdns.h:1295-1343 | all TXT records of a section in one record, named after the first |
| Answer.CountRecords | lib/dnssd/mdns.h:1345-1357 | the records of a section, its TXT records counted as one |
| Answer.WriteSection | lib/dnssd/mdns.h:1448-1464 | the records of a section in order and then its TXT record |
| Answer.AnswerMulticast | lib/dnssd/mdns.h:1423-1470 | the buffer and the size sent are those of AnswerMessage, failures included |
| MessageTrip.RecordAdded | lib/dnssd/mdns.h:1225-1281 | after one record everything before it is unchanged, and its name, fixed fields, true length and data lie where a reader looks |
| MessageTrip.TextsAdded | lib/dnssd/mdns.h:1295-1343 | the TXT record of a section holds the strings of all its TXT records in order, behind one header with the right length |
| MessageTrip.SectionAdded | lib/dnssd/mdns.h:1448-1455 | the records of a section lie one behind the other, each as expected, up to the end returned |
| MessageTrip.SectionSeen | lib/dnssd/mdns.h:775-807 | a scan for as many records as lie there sees each of them in its place and stops behind the last |
| MessageTrip.HeaderReadsBack | lib/dnssd/mdns.h:1431-1438 | id, flags and the four counts are read as written |
| MessageTrip.MessageRoundTrip | lib/dnssd/mdns.h:1423-1470 | for any answer that is not TXT and any regular authority and additional records that fit, the header announces the records expected, the receiver is called back once for each in order, with entry, type, class and ttl, and PTR, SRV, A and AAAA data and all names are recovered; TXT pairs exactly when they are plain |
| MessageSeen.RecordsSeen | lib/dnssd/mdns.h:1423-1470 | the same in terms of the records given: each that is not TXT is seen in its place, with its type code, name and data, its own time to live and class bits or those of the message, its octets in network order; the TXT records of a section as one with all their pairs; the twelve octets of the header |
| MessageFits.NameFits | lib/dnssd/mdns.h:737-773 | compression never takes more room than writing every label out |
| MessageFits.MessageFitsIn | lib/dnssd/mdns.h:1423-1470 | building never fails when the buffer has 48 octets and room for the uncompressed records, with no TXT string over 0x3FFF octets |
| MessageFits.MessageDelivered | lib/dnssd/mdns.h:1423-1470 | the round trip of the whole message from conditions that can be checked before the call |
| MessageTrip.SeenDefaults | lib/dnssd/mdns.h:1283-1293 | records without a class and time to live of their own are seen by the receiver with those of the message, PTR records without the cache-flush bit |
| MessageTrip.SeenFollowsRules | lib/dnssd/mdns.h:1283-1293 | as received: no PTR record carries the cache-flush bit, and with ttl 0 every record has ttl 0 (sections 10.1 and 10.2 of RFC 6762) |
| MessageTrip.TextAnswerIsLost | lib/dnssd/mdns.h:1228-1230 | for any TXT answer and regular sections that fit, the header announces one record more than the sections have; the receiver sees exactly those of the sections, each read back, the first as the answer and each section one record early |
| Receive.RecordsParse | lib/dnssd/mdns.h:775-807 | the scan of any octets, with a callback that may end it, sees what ScanRecords sees and stops at its offset |
| Receive.ScanStops | lib/dnssd/mdns.h:775-807 | the first record the callback gives true for is the last one seen, and the scan is left before its data |
| Receive.SeenFields | lib/dnssd/mdns.h:775-807 | on any octets: the fields of a record seen are the ten octets behind its name, or where it begins when that cannot be skipped |
| Receive.ScanInPlace | lib/dnssd/mdns.h:775-807 | on any packet every record seen has its name and data inside, its data 10 octets behind its name, directly follows the one before, and there are no more than asked for (section 4.1.3 of RFC 1035) |
| Receive.QueryReceive | lib/dnssd/mdns.h:1124-1189 | header, questions and the three sections of any message, a short section being the last |
| QuestionTrip.ReplySeen | lib/dnssd/mdns.h:1124-1189 | for a packet with any questions before the records of its three sections, exactly those records are seen, with the id of the message, and each read back |
| QuestionTrip.OtherIdIgnored | lib/dnssd/mdns.h:1145-1151 | a message with another id than the one waited for is passed over |
| Receive.ShortSectionIsLast | lib/dnssd/mdns.h:1165-1186 | a section that gives fewer records than announced is the last one looked at |
| Receive.ParsePointer | lib/dnssd/mdns.h:1500-1508 | the name in PTR data of at least 2 octets inside the packet, else nothing |
| Receive.ParseService | lib/dnssd/mdns.h:1510-1530 | priority, weight, port and name of SRV data of at least 8 octets inside the packet, else zeros |
| Receive.AddressesAt | lib/dnssd/mdns.h:1532-1556 | an address is taken from data of just 4 or 16 octets inside the packet, and is zero otherwise |
| Receive.ParseTexts | lib/dnssd/mdns.h:1558-1610 | the pairs in the strings of any octets, up to the capacity, as PairsIn describes |
| TextStrings.TextsExactly | lib/dnssd/mdns.h:1558-1610 | on any data: the pairs of the strings that have a key, with or without a value, in order, as many as there is room for, up to a string that is cut off |
| TextStrings.EveryText | lib/dnssd/mdns.h:1558-1610 | all octets can be taken apart into such strings |
| Receive.TextRoundTripExactly | lib/dnssd/mdns.h:1558-1610 | the pairs written are read back in order if and only if every key is non-empty printable ASCII without '=' and every string fits its length octet (sections 6.1 and 6.4 of RFC 6763) |
| PlainList.Header.constructor | lib/list/header.c:66-101 | an empty list, its sentinels linked in a ring |
| PlainList.Element.Init | lib/list/list.c:129-149 | header set, links, use count and lock flags cleared, operations chosen by the header and its lock bit |
| PlainList.LinkAfter | lib/list/insert.c:81-106 | the element comes right behind the given one, all links and the count follow; without a header nothing changes |
| PlainList.LinkBefore | lib/list/insert.c:157-184 | the element comes right before the given one, all links and the count follow |
| PlainList.AddAfter | lib/list/list.c:163-166 | by the operations table: as LinkAfter, and nothing behind the tail |
| PlainList.AddBefore | lib/list/list.c:168-171 | by the operations table: as LinkBefore, and nothing before the head |
| PlainList.Remove | lib/list/remove.c:76-90 | exactly that element leaves the sequence and is no longer listed; sentinels and unlisted elements are left alone |
| PlainList.GetNext | lib/list/next.c:45-53 | the next listed element, NULL behind the last and at the tail |
| PlainList.GetPrev | lib/list/next.c:72-80 | the previous listed element, NULL before the first and at the head |
| PlainList.Header.GetFirst | lib/list/header.c:110-114 | the first of the sequence |
| PlainList.Header.GetLast | lib/list/header.c:116-120 | the last of the sequence |
| PlainList.Header.RemoveFirst | lib/list/header.c:122-127 | the first is taken off and unlisted |
| PlainList.Header.RemoveLast | lib/list/header.c:129-134 | the last is taken off and unlisted |
| PlainList.Header.AddLast | lib/list/header.c:136-140 | the sequence grows at its end |
| PlainList.Header.AddFirst | lib/list/header.c:142-146 | the sequence grows at its front |
| PlainList.Header.SearchForward | lib/list/utils.c:28-40 | the first element the condition accepts, NULL exactly when there is none |
| PlainList.Header.SearchBackward | lib/list/utils.c:42-54 | the last element the condition accepts, NULL exactly when there is none |
| PlainList.WalksMirror | lib/list/next.c:45-80 | following the links from either end passes exactly the listed elements, as many as counted, in opposite orders |
| PlainList.EndsOfList | lib/list/utils.c:56-72 | an element is first, or last, by its links exactly when it is in the sequence |
| LockedList.ReadsReady | lib/list/insert.c:47-50 | the neighbour an operation reads under one flag is the true one |
| LockedList.LinkInOrder | lib/list/remove.c:36-47 | a link with a free guarding flag, or with one held by an operation that is not rewriting it, is in order |
| LockedList.OwnMove | lib/list/insert.c:47-68 | every step of an add or remove keeps what the operation relies on |
| LockedList.OthersKept | lib/event/lock.c:30-48 | no step disturbs what any other running operation relies on |
| LockedList.StepOrder | lib/list/insert.c:52-55 | a step changes the list order only by putting the added element next to the named one or taking the removed one out |
| LockedList.ListSafety | lib/list/insert.c:29-155 | every interleaving of adds and removes: flags exclude each other, a link with a free flag satisfies p->n == n and n->p == p, and when nothing runs the list walked from head holds exactly the elements added and not removed, with the count right |
| ListAlone.RestIsFree | lib/list/insert.c:29-155 | whenever no operation is running no flag is set |
| ListAlone.OperationAlone | lib/list/insert.c:29-155 | from every state so reached, each operation comes to its end when its thread goes on alone, with exactly the order, links and count its caller asked for |
| EventQueue.QueueSafety | lib/eventloop/queue.c:47-144 | every interleaving: RLIST exactly when listed, no duplicates, PENDING only on listed watches, callbacks only for these, never two at once |
| EventAlone.ReportAlone | lib/eventloop/bae.c:23-190 | a report of one watch and then the loop alone: input is listed and a job posted, unless it is listed; an error or hang-up is listed if nothing else is, and posts a job in any case, but with a signal callback neither; writeable lists nothing |
| EventAlone.JobServesAll | lib/eventloop/queue.c:47-144 | the worker begun on a job runs the callbacks of all listed watches in the order of the list, and empties it |
| EventAlone.OtherThreadLeaves | lib/eventloop/queue.c:63-77 | once one thread has served the object, a worker in another takes its job and leaves without looking at the list |
| EventLoss.LoopAccounts | lib/eventloop/bae.c:23-167 | a step of the loop leaves every report accounted for if and only if it neither revives a bit behind itself nor masks a report of an unlisted watch |
| EventLoss.WorkAccounts | lib/eventloop/queue.c:116-142 | a step of a worker does if and only if it does not wipe out a report of an unlisted watch |
| EventLoss.ReportsKeptExactly | lib/eventloop/backend.c:204-220 | every run, for a READABLE or PRI watch without a signal callback: no state leads on, without a further report or harmful step, to one where the watch is off the list with a report unanswered or its bit left, if and only if no step does that harm |
| EventLoss.ReportsKept | lib/eventloop/backend.c:204-220 | in every run without a harmful step, between two reports with the lock free: a watch that is pending, or was reported since its callback began, is listed, and unless pending its callback is still to begin |
| EventLoss.HarmLoses | lib/eventloop/bae.c:146-167 | after every harmful step the queue can come to such a loss with steps of the loop and the worker alone |
| EventLoss.ReportsMasked | lib/eventloop/backend.c:209-213 | from a state between reports with the bit of an input watch pending, a report of it alone changes nothing of the queue |
| EventExamples.TornReportIsLost | lib/eventloop/backend.c:211-215 | a run in which a worker's store wipes out a bit the loop has just set |
| EventExamples.RevivedBitStays | lib/eventloop/bae.c:146-152 | a run in which the store for a writeable object revives the input bit, with nothing listed, no job and no worker |
| MountTable.LineReader.ReadLine | lib/mountinfo/utils.c:51-77 | the next line and the end-of-data mark, line by line |
| MountTable.LinesExactly | lib/mountinfo/utils.c:51-77 | the lines are what lies between the newlines, all of it |
| MountTable.Monitor.ReadTurn | lib/mountinfo/read.c:290-343 | the comparison of the next line with the entry at the cursor |
| MountTable.Monitor.Merge | lib/mountinfo/read.c:520-578 | list, callbacks and buffers after the loop, which entries it has moved to the new buffer, and how many it left behind |
| MountTable.OtherBuffer | lib/mountinfo/read.c:345-439 | reading into one buffer never changes a line that lies in the other |
| MountTable.NothingLeft | lib/mountinfo/read.c:520-578 | a pass over lines that all parse leaves no entry behind |
| MountMerge.LeftExactly | lib/mountinfo/read.c:520-578 | at a first line that cannot be read, no known mount is left behind if and only if each known id, counted from the end, has an id at least as large against it among those read before |
| MountMerge.UnreadableLeaves | lib/mountinfo/read.c:520-578 | one known mount and one line that cannot be read: the mount is left behind |
| MountTable.Monitor.ReadFromSystem | lib/mountinfo/read.c:345-439 | reading replaces the texts of the entries in the current buffer and no others |
| MountTable.ReadOver | lib/mountinfo/read.c:345-439 | such an entry keeps its text exactly when the same octets are read at its place |
| MountTable.Monitor.Pass | lib/mountinfo/read.c:464-590 | one turn, skipped or merged: afterwards every entry carries the generation and lies in the buffer now previous, if and only if the turn was skipped or the merge left no entry behind; those left behind are the last ones and lie in the buffer read into next; the texts reported are the original ones |
| MountMerge.TurnReads | lib/mountinfo/read.c:464-490 | a table that could be read, is not empty and is not octet for octet the one last read is merged; any other changes nothing |
| MountMerge.RunReads | lib/mountinfo/read.c:442-607 | over every run the table last merged is the last one that could be read and was not empty |
| MountMerge.MergeExactly | lib/mountinfo/read.c:520-578 | one pass leaves exactly the table read if and only if every dropped id is larger than every id in the table |
| MountMerge.MergeReports | lib/mountinfo/read.c:229-258 | then each new mount is reported once in order, and after them each dropped one once |
| MountMerge.StayingMountIsLost | lib/mountinfo/read.c:541 | with mounts 1 and 2 known, a table of 2 alone removes both |
| MountMerge.HeardIsListed | lib/mountinfo/read.c:210-258 | a listener to the callback believes mounted what the list holds, even when mounts are lost |
| MountMerge.RunTracked | lib/mountinfo/read.c:442-607 | so over every run of passes |
| MountMerge.TurnMirrors | lib/mountinfo/read.c:482-578 | a turn leaves the list holding the last table exactly when that table drops only the youngest mounts |
| MountMerge.RunMirrors | lib/mountinfo/read.c:442-607 | over every run of good tables from the empty list: after every turn the list holds the last table that could be read and was not empty, if and only if no such table drops any but the youngest mounts |
| MountChange.NoLostChange | lib/mountinfo/read.c:451-462 | at most one reader; a notification newer than the last read start is on its way in or will be read; none is open when the field is cleared |
| MountChange.AllReadAtRest | lib/mountinfo/read.c:442-607 | when all calls have returned, every change has been read and field, bit and flag are clear |
| MountChange.CallAlone | lib/mountinfo/read.c:442-607 | a call that runs alone reads the table once |
| PathBuffer.Path.AppendDynamic | lib/path/append.c:58-116 | the content grows by separator and text, FS_path_valid holds after any growth |
| PathBuffer.Path.AppendStatic | lib/path/append.c:118-138 | the same if all of it fits, else nothing is written |
| PathBuffer.Path.PrependDynamic | lib/path/append.c:196-252 | the content grows in front by text and separator; an unset path starts with a zero octet |
| PathBuffer.Path.PrependStatic | lib/path/append.c:254-263 | the same if there is room in front, else nothing |
| PathBuffer.EditAll | lib/path/append.c:58-252 | any mix of edits on any path gives the exact concatenation under both chunk-size functions, on top of a zero octet when the first edit is a prepend to an unset path |
| PathBuffer.Path.GetFilename | lib/path/filename.c:30-54 | the place returned, NULL only without a separator, the name behind the last separator, and what is left of the path |
| PathBuffer.FilenameUndoesAppend | lib/path/filename.c:30-54 | taking the file name off undoes appending a slash-free name |
| PathBuffer.FilenameMissing | lib/path/filename.c:30-54 | without a separator nothing is taken off; behind a last separator there is no name, and the separator goes |
| Base64.InitTable | lib/misc/txtutils.c:302-324 | the decoding table inverts the alphabet |
| Base64.Decode | lib/misc/txtutils.c:344-384 | succeeds exactly for lengths divisible by 4, with the octets of all groups less the padding |
| Base64.RoundTrip | lib/misc/txtutils.c:344-384 | decoding the encoding of section 4 of RFC 4648 gives the same octets |
| ScanNames.Unescape | lib/misc/txtutils.c:195-280 | the callbacks made, on any input |
| ScanNames.CountersInside | lib/misc/txtutils.c:195-280 | every callback counter is below the source length |
| Escapes.UnescapedExactly | lib/misc/txtutils.c:195-280 | any text of plain, quoted, named and octal characters is taken apart into their values, numbers and marks |
| ScanNames.ScanNamesIn | lib/dnssd/mdns-utils.c:51-140 | data and names are those of ScannedNames, on any input |
| ScanNames.LeadingDotEnds | lib/dnssd/mdns-utils.c:97-138 | a dot at the very beginning ends the walk with the names found by then, even if they are too few |
| ScanNames.ScanNeeds | lib/dnssd/mdns-utils.c:51-95 | nothing is found in fewer than 8 characters, and nothing without an unmarked dot at the end |
| ScanNames.PlainNamesFound | lib/dnssd/mdns-utils.c:51-140 | for a dotted name of 8 to 256 octets with plain labels: the last count labels in order when there are so many, otherwise none |
| ScanNames.UnescapedUnits | lib/misc/txtutils.c:195-280 | unescaping undoes the escaping of any octets, with a mark exactly on the dots written in octal |
| ScanNames.BackslashNamesExactly | lib/dnssd/mdns-utils.c:51-140 | labels of any non-zero octets, 8 to 256 in all, written with `\.` for a dot and `\\` for a backslash: the last count labels are found if and only if none of them contains a dot |
| ScanNames.OctalNamesFound | lib/dnssd/mdns-utils.c:51-140 | with dots written `\056` they are always found, and none when there are fewer than count |
| ActionList.Context.ProcessActions | lib/osns/start.c:19-90 | modules, calls, position and result after a pass in either direction |
| ActionList.DoExactly | lib/osns/start.c:19-90 | a do pass calls, in order, exactly the modules that have an action and, if external, are loaded, up to the first that fails; only those called are marked |
| ActionList.UndoExactly | lib/osns/start.c:19-90 | an undo pass calls exactly the done ones of these, the last first, clears their marks and unloads the external ones |
| ActionList.DoStopsAtFailure | lib/osns/start.c:45-59 | a do pass ends with the first call that fails, and marks its module |
| ActionList.UndoUnloads | lib/osns/start.c:72-77 | an undo pass unloads external modules |
| ActionList.UndoMirrorsDo | lib/osns/start.c:131-135 | undo is called exactly for the modules whose do succeeded, in the opposite order, none stays marked, and a second undo calls nothing |

## Left out

- NameRun.NamesSurvive: names are required to be regular and the buffer to be at most 0x4000 octets, because references have 14 bits; NameEvery.EveryNameExactly has no condition on the name.
- NameWalk.StrNCaseEqual: strncasecmp in the C locale only.
- MessageTrip.MessageRoundTrip: for callbacks that let the scan go on; Receive.RecordsParse covers the others.
- LockedList.ListSafety: progress of operations that run together is not claimed, since the two inserts take their flags in opposite order; LIST_element_init is one step, and the getters under locks are not modelled.
- EventQueue.QueueSafety: handlers do not call BEVENT_release_thread, and the registered watches and the context do not change during a run.
- EventLoss.ReportsKept: not eventual delivery, because the thread field is never reset, so that a second worker thread gives up at once.
- EventLoss.ReportsKeptExactly: for READABLE and PRI watches of a context without a signal callback; what becomes of the other events, and of reports handed to a signal callback, is not followed.
- NameEvery.EveryNameExactly: the buffer has at most 0x4000 octets, because references have 14 bits; names before the one in question have labels under 192 octets, since the length octet of a longer one is read as a reference; the one in question may be any name.
- MountTable.Monitor.ReadFromSystem: octets of a buffer behind those last read are not modelled.
- MountTable.Monitor.Pass: a buffer is a value, so moving it in memory when it grows is not modelled; the ignore-system flag is clear and the fields of a line beyond its id are not parsed.
- ScanNames.PlainNamesFound: names longer than 256 octets, where the counter wraps, are covered by ScanNames.ScanNamesIn alone.
- ActionList.Context.ProcessActions: the list of modules is an array of records, so that list links play no part.
- PathBuffer.Path.Grow: realloc always moves and never fails.
- Unicast answers, queries, service discovery and sockets in lib/dnssd/mdns.h.
- The read and write locks of lib/list/lock.c and lib/lock/lock.c, skip lists, hash tables, time, configuration and all system calls.
- Failing allocations and logging.
