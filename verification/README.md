# bearmail: a verified model of its protocol and data-handling core

The project models the parts of the repository whose behaviour is hardest to see from the code, and proves what they
promise for all inputs and all runs:

- the IMAP request receiver and the modified UTF-7 mailbox codec (`Receiver.dfy`, `ReceiverEvents.dfy`, `Utf7.dfy`,
  `BitStrings.dfy`);
- the edge tunnel: the VM and the Mac as interleaved steps over two FIFO channels, the id windows and the ids only the
  Mac keeps, the framed codec and its incremental decoder, the egress quota and the quota month (`Tunnel*.dfy`,
  `Sessions.dfy`, `Frames.dfy`, `FrameLayout.dfy`, `Quota.dfy`, `Calendar.dfy`);
- the JMAP patch calculation, with JSON pointers and an independent definition of applying a patch
  (`JsonPointer.dfy`, `JmapPatch.dfy`);
- the ZIP writer and its CRC-32, against a bit-serial division and a reader of the format (`Crc.dfy`, `Zip.dfy`);
- WebDAV dead properties as a forest (`DeadProperties.dfy`) and the event-stream client (`EventStream.dfy`).

Code that loops or updates fields is modelled by methods and classes. Each is tied to a function on values, and the laws
are proved about that function. Where several threads interleave, one step is one locked section, one atomic swap or one
send, and a claim about a run is a claim about every finite sequence of enabled steps.

`dafny verify dfyconfig.toml` checks the whole project with Dafny 4.11.

What the proofs show about the code beyond what it promises:

- A frame decoder that meets an error throws away the frames it had already decoded in the same `push`
  (`FramesBeforeAnErrorCanBeLost`). A cut of the input delivers exactly the frames of the chunks before the failing one,
  and all the frames if and only if the failing chunk completes none (`AllFramesDeliveredExactly`). The buffer and the
  first error never depend on the cut.
- The Mac can reject a frame of an honest VM: exactly a DATA that an uplink sends behind the CLOSE of a pause
  (`MacRejectsExactly`, `PauseRace`). Until the VM pauses there is no such run.
- The VM ends its session when two CLOSEs cross, without any pause (`CrossingCloses`). It rejects exactly a CLOSE for an
  id that is not open and a DATA for one that is not open or has no writer (`VmRejectsExactly`), and then it is itself
  closing that connection or has lost it (`VmRejectsOnlyWhatItCloses`).
- The Mac keeps its id open when its local socket ends first, and the VM answers its CLOSE with none: with nothing in
  flight, exactly these ids are open at the Mac only (`OpenOnlyAtMac`). They stay so for the rest of the session
  (`LeakIsPermanent`), and after 64 of them every further connection is refused (`FullOfLeaks`, `TunnelCanFillUp`).
- Top-level patch keys are not escaped. Between objects without null members the patch gives the modified object if and
  only if no changed key is `id`, is dropped by a change of `@type`, or has a `/` or a `~`
  (`PatchRestoresIffNothingIsLost`). Two edits share a key if and only if one's top-level key spells out the beginning of
  the other's path (`PointersCollideExactly`).
- `find_tag` after `remove_element` and `add_element` returns the added value exactly when that value is balanced
  (`SetThenFind`). On lists with a stray end tag the two disagree about depth 0 (`StrayEndTag`).
- `utc_year_month` is right for every timestamp once the year is read modulo 2^16.
- A quoted empty string adds a NIL token without being charged to the request size, so the limit bounds the other tokens
  only (`NilIsFree`, `TokensAreBounded`); an empty literal is charged one.

## Model

| member | source | states |
|---|---|---|
| Utf16.RoundTrip | crates/imap-proto/src/utf7.rs:69-78 | decoding the UTF-16 units of any Unicode string gives the string back |
| Utf7.UnitsRoundTrip | crates/imap-proto/src/utf7.rs:21-118 | decoding the encoding of any sequence of 16-bit units gives exactly those units |
| Utf7.RoundTrip | crates/imap-proto/src/utf7.rs:21-118 | decoding the encoding of any Unicode string gives the string |
| Utf7.EncodeFromIsReference | crates/imap-proto/src/utf7.rs:73-115 | the 32-bit accumulator loop writes the run-by-run reference encoding, whatever stale bits the accumulator starts with |
| Utf7.Encode | crates/imap-proto/src/utf7.rs:72-118 | the loop returns the reference encoding of every string |
| Utf7.WriteDigits | crates/imap-proto/src/utf7.rs:103-106 | the inner loop writes the whole digits among the pending bits and leaves fewer than six |
| Utf7.WriteClosing | crates/imap-proto/src/utf7.rs:80-87 | ending a run writes the padded last digit, if bits are pending, and the dash |
| Utf7.DecodeFromOutside | crates/imap-proto/src/utf7.rs:28-67 | outside a run, the decoder's state machine reads what the reference decoding says, errors included |
| Utf7.DecodeFromInside | crates/imap-proto/src/utf7.rs:29-50 | inside a run, with any pending bits, it reads the units of the pending bits and the remaining digits |
| Utf7.Decode | crates/imap-proto/src/utf7.rs:21-70 | the loop returns the reference decoding of every string, and fails exactly where it does |
| Utf7.EncodingIsCanonical | crates/imap-proto/src/utf7.rs:72-118 | every encoding is canonical: only characters from 0x20 to 0x7e, closed non-empty runs with zero padding and no unit from 0x20 to 0x7e inside, no two runs adjacent |
| Utf7.CanonicalIsEncoding | crates/imap-proto/src/utf7.rs:21-118 | every canonical text decodes, and is the encoding of what it decodes to |
| Utf7.UnchangedExactly | crates/imap-proto/src/utf7.rs:78-95 | a name is its own encoding if and only if all its characters are from 0x20 to 0x7e and none is `&` |
| Utf7.TablesAre | crates/imap-proto/src/utf7.rs:10-19 | the digits are A-Z, a-z, 0-9, plus and comma in order, and nothing else has a rank |
| Utf7.KnownEncoding | crates/imap-proto/src/utf7.rs:72-118 | the example of RFC 3501: U+53F0 U+5317 is `&U,BTFw-` |
| Utf7.DecodeDirect | crates/imap-proto/src/utf7.rs:64-66 | outside runs the decoder takes the low 16 bits of each character |
| Utf7.DecodeAmpersand | crates/imap-proto/src/utf7.rs:29-63 | an `&` at the end and `&-` stand for themselves; a run is read to its dash or the end, and fails exactly on a character outside the alphabet |
| Imap.FeedAppend | crates/imap-proto/src/receiver.rs:146-414 | feeding input in two chunks raises the same events and ends in the same state as feeding it whole |
| ImapLimits.ReachableStatesAreBounded | crates/imap-proto/src/receiver.rs:118-144 | after any input the tokens cost at most the counted size, which is at most the maximum, and the buffer is within the bound of its state |
| ImapLimits.TokensAreBounded | crates/imap-proto/src/receiver.rs:118-144 | after any input the tokens other than NIL are at most as many as the counted size |
| ImapRequests.NilIsFree | crates/imap-proto/src/receiver.rs:128-130 | whatever the maximum, n quoted empty strings add n NIL tokens and no size |
| ImapLimits.LiteralDataCannotFail | crates/imap-proto/src/receiver.rs:397-409 | in every reachable state no byte of literal data raises an error, the last push included |
| ImapLimits.AnswersLeaveFresh | crates/imap-proto/src/receiver.rs:102-116 | a finished request and an error both leave the receiver as fresh as at the start, from any state |
| ImapRequests.AnnouncedData | crates/imap-proto/src/receiver.rs:361-409 | in every reachable state, from the line feed after a literal header on, the buffer is the data so far and the rest of the announced size is awaited |
| ImapRequests.OversizedLiteralIsSkipped | crates/imap-proto/src/receiver.rs:361-396 | an oversized non-synchronising literal, however announced and after any white space, drops exactly its announced bytes, raises one error, and what follows is read as by a fresh receiver |
| ImapRequests.OversizedHeaderIsSkipped | crates/imap-proto/src/receiver.rs:223-396 | the same from its header, behind white space or a lone tilde |
| ImapRequests.ItemTaken | crates/imap-proto/src/receiver.rs:218-409 | one printed token, quoted in any way, literal, atom or punctuation, is read as that token wherever it can stand, with the atom before it pending or not, and adds its size |
| ImapRequests.RequestRoundTrip | crates/imap-proto/src/receiver.rs:146-415 | every request printed within the limits, with spaces only where two items need one, is read back exactly and leaves the receiver fresh |
| ImapRequests.BareRequestRoundTrip | crates/imap-proto/src/receiver.rs:180-210 | so is a command directly before the line feed |
| ImapRequests.QuotedBytes | crates/imap-proto/src/receiver.rs:278-311 | a quoted string means its bytes with `\"` and `\\` unescaped and any other backslash kept |
| ImapRequests.EscapedIsQuoted | crates/imap-proto/src/receiver.rs:278-311 | every string without a line feed can be quoted |
| ImapEvents.EventsExactly | crates/imap-proto/src/receiver.rs:146-414 | in every state and for every byte, an error, a finished request and a demand for a literal come exactly under the listed conditions on bytes and counts |
| ImapEvents.EventsCarry | crates/imap-proto/src/receiver.rs:102-116 | an error carries the tag, a demand the announced size, and a request its command and all tokens, the pending argument last |
| ImapEvents.IgnoredExactly | crates/imap-proto/src/receiver.rs:149-384 | exactly which bytes leave the receiver as it is |
| ImapEvents.CaseIsIgnored | crates/imap-proto/src/receiver.rs:181-186 | upper and lower case are the same in a command name |
| Utf8.Utf8Exactly | crates/imap-proto/src/receiver.rs:160-163 | a tag is accepted as UTF-8 exactly when it encodes some string |
| ImapRequests.LengthsCanBeAnnounced | crates/imap-proto/src/receiver.rs:312-335 | every 32-bit length has a decimal form that a literal header accepts as that length |
| ImapReceiver.FeedIsRepeatedParse | crates/imap-proto/src/receiver.rs:146-414 | calling `parse` again on what it left over raises, one by one, the events of the whole input |
| ImapReceiver.RequestReceiver.constructor | crates/imap-proto/src/receiver.rs:81-100 | a new receiver is in its start state with nothing buffered |
| ImapReceiver.RequestReceiver.Parse | crates/imap-proto/src/receiver.rs:146-414 | the loop stops after the first event, at the byte that raised it, in the state the byte steps lead to |
| ImapReceiver.RequestReceiver.OnByte | crates/imap-proto/src/receiver.rs:149-410 | one byte updates the fields as the step of its state says |
| ImapReceiver.RequestReceiver.OnTag | crates/imap-proto/src/receiver.rs:157-179 | a byte in a tag |
| ImapReceiver.RequestReceiver.OnCommand | crates/imap-proto/src/receiver.rs:180-217 | a byte in a command name |
| ImapReceiver.RequestReceiver.OnArgument | crates/imap-proto/src/receiver.rs:218-277 | a byte between or in unquoted arguments |
| ImapReceiver.RequestReceiver.OnQuoted | crates/imap-proto/src/receiver.rs:278-311 | a byte in a quoted string |
| ImapReceiver.RequestReceiver.OnLiteral | crates/imap-proto/src/receiver.rs:312-360 | a byte in a literal header |
| ImapReceiver.RequestReceiver.OnSeek | crates/imap-proto/src/receiver.rs:361-384 | a byte between a literal header and its data |
| ImapReceiver.RequestReceiver.PushArg | crates/imap-proto/src/receiver.rs:118-132 | pushing the buffer as an argument, or the error reset when the request is too large |
| ImapReceiver.RequestReceiver.PushTok | crates/imap-proto/src/receiver.rs:134-144 | pushing a token at the cost of one |
| ImapReceiver.RequestReceiver.PushChecked | crates/imap-proto/src/receiver.rs:431-438 | one byte into the buffer within a limit, or the error reset |
| ImapReceiver.RequestReceiver.Reset | crates/imap-proto/src/receiver.rs:102-116 | an error takes the tag and leaves the receiver fresh |
| ImapReceiver.RequestReceiver.Finish | crates/imap-proto/src/receiver.rs:261-266 | a finished request is handed over and the receiver is fresh |
| TunnelSafety.StepKeepsInv | edge/src/relay.rs:228-584 | every step of every thread keeps the invariant that ties each side's bookkeeping of each id to the frames sent and read |
| TunnelSafety.RunKeepsInv | edge/src/relay.rs:228-584 | so every reachable state has it |
| TunnelRuns.MacRejectsOnlyDataAfterPause | edge/src/relay.rs:440-544 | in every run, until the VM pauses the Mac raises no protocol error; afterwards only over a DATA behind the pause's CLOSE |
| TunnelRuns.MacRejectsExactly | edge/src/relay.rs:463-477 | the Mac rejects its next frame if and only if it is such a DATA |
| TunnelRuns.VmRejectsOnlyDataOrClose | edge/src/relay.rs:265-311 | in every run the VM never rejects an answer to its OPEN |
| TunnelRuns.VmRefuses | edge/src/relay.rs:277-308 | from any peer and in any state: exactly which frames the VM refuses, and that refusing changes nothing else |
| TunnelRuns.MacRefuses | edge/src/relay.rs:463-480 | the same for the Mac |
| TunnelRuns.VmRejectsExactly | edge/src/relay.rs:277-310 | the VM rejects its next frame if and only if it is a CLOSE for an id not open, or a DATA for an id not open or without a writer |
| TunnelRuns.VmRejectsOnlyWhatItCloses | edge/src/relay.rs:331-400 | and then it is itself closing that connection, or it is a DATA for which it never got a local writer |
| TunnelRuns.OpensInFlight | edge/src/relay.rs:241-255 | the OPENs in flight carry exactly the ids from the Mac's next to the VM's next, in order |
| TunnelRuns.OpenIdIsInOnePlace | edge/src/relay.rs:228-400 | each id open at the VM is in exactly one place: not yet sent, OPEN in flight, OPEN_FAIL in flight, or open at the Mac |
| TunnelRuns.MacFramesForm | edge/src/relay.rs:487-584 | the Mac's frames about an id are one OPEN_FAIL, or OPEN_OK, DATA and at most one CLOSE at the end |
| TunnelRuns.MacFramesStart | edge/src/relay.rs:531-571 | a DATA or CLOSE of the Mac comes after its OPEN_OK |
| TunnelRuns.VmFramesForm | edge/src/relay.rs:331-400 | the VM's frames about an id are one OPEN, DATA and at most one CLOSE, and only a DATA can follow the CLOSE, only when paused |
| TunnelRuns.OneDataAfterClose | edge/src/relay.rs:339-371 | at most one |
| TunnelRuns.IdsAreNotReused | edge/src/session.rs:40-67 | in every run at most 64 ids are open on each side, and OPENs carry increasing ids |
| TunnelRuns.PauseRace | edge/src/relay.rs:339-408 | a run in which the Mac does reject a DATA behind the pause's CLOSE |
| TunnelRuns.CrossingCloses | edge/src/relay.rs:386-387 | a run without a pause in which the VM rejects the Mac's CLOSE |
| TunnelRuns.PauseCloses | edge/src/relay.rs:402-416 | a run of a whole pause over an open connection: id released, writer dropped, one CLOSE and then QUOTA |
| TunnelRuns.PauseReachesMac | edge/src/relay.rs:471-477 | and the Mac releases the id when it reads that |
| TunnelRuns.PauseMeetsEnd | edge/src/relay.rs:386-399 | a pause over a connection whose uplink is already closing leaves the only CLOSE to the uplink |
| TunnelMaps.MacMapsAre | edge/src/relay.rs:463-571 | an id is open at the Mac exactly from its OPEN to the VM's CLOSE unless refused; while the Mac runs exactly the open ids have writers; an uplink's flag is set once the VM's CLOSE is read or its own is due, and not before |
| TunnelMaps.VmMapsAre | edge/src/relay.rs:241-400 | an id waits exactly until the Mac's answer is read; once its CLOSE is dealt with, the id is not open, has no writer, and its uplink is told |
| TunnelCloses.MacStopsAfterClose | edge/src/relay.rs:471-581 | once the Mac has read CLOSE for an id, every continuation adds at most one frame of the Mac about it, and a CLOSE only if its uplink had already swapped its flag |
| TunnelCloses.VmStopsAfterClose | edge/src/relay.rs:305-400 | once the VM has read CLOSE for an id and reads again, the same holds of the VM |
| TunnelCloses.StopEndsTraffic | edge/src/relay.rs:229-345 | after the VM is stopped, every continuation adds at most one OPEN, and for each id at most one DATA |
| TunnelLeaks.OpenOnlyAtMac | edge/src/relay.rs:552-561 | with nothing in flight and no close of the VM under way, the Mac has an id open that the VM has not if and only if the VM opened it and sent no CLOSE, and the Mac did |
| TunnelLeaks.OpenOnlyAtMacIsLeaked | edge/src/relay.rs:386-400 | and then, once the VM is reading again, exactly the leaked ids are open at the Mac only |
| TunnelLeaks.OpenOnlyAtVm | edge/src/relay.rs:241-255 | with nothing in flight, an id open at the VM is not open at the Mac if and only if its OPEN is not sent yet |
| TunnelLeaks.LeakIsPermanent | edge/src/relay.rs:386-400 | whatever steps follow, a leaked id stays open at the Mac and closed at the VM |
| TunnelLeaks.FullOfLeaks | edge/src/relay.rs:497-503 | once 64 ids are leaked, every OPEN the Mac reads in any continuation is answered by OPEN_FAIL |
| TunnelLeaks.LeakRun | edge/src/relay.rs:546-561 | for every n up to 64 a run that leaves the VM with nothing open and the Mac with n leaked ids |
| TunnelLeaks.TunnelCanFillUp | edge/src/relay.rs:497-561 | so a run after which the VM has nothing open and every OPEN of every continuation is refused |
| IdWindows.IdWindow.constructor | edge/src/session.rs:29-34 | a new window starts at id 1 with nothing open |
| IdWindows.IdWindow.Alloc | edge/src/session.rs:40-51 | a new id is the next one; at the cap or at the last id nothing changes |
| IdWindows.IdWindow.AdmitId | edge/src/session.rs:55-68 | only the next id is admitted; at the cap it is used up and stays closed |
| IdWindows.IdWindow.Close | edge/src/session.rs:78-84 | closes an open id and refuses any other |
| IdWindows.UsedIdsStayClosed | edge/src/session.rs:40-84 | whatever is done to a window it stays valid, and an id that was used and is not open never opens again |
| IdWindows.VmUsesWindow | edge/src/relay.rs:241-400 | the VM's steps do to its window what the operations do: the accept loop allocates; OPEN_FAIL, CLOSE, the uplinks and the pause close |
| IdWindows.MacUsesWindow | edge/src/relay.rs:471-522 | the Mac's frames too: OPEN admits, a refused dial closes again, CLOSE closes |
| Frames.ParseEncoded | edge/src/frame.rs:219-353 | an encoded frame, whatever follows it, is read back as that frame with that length |
| Frames.EncodeParsed | edge/src/frame.rs:300-353 | whatever is read as a frame is exactly that frame's encoding |
| Frames.FrontStable | edge/src/frame.rs:366-403 | more bytes never change a frame or an error that is already decided |
| FrameLayout.EncodableExactly | edge/src/frame.rs:232-275 | exactly HELLO_OK with a month out of range and DATA over 16384 bytes cannot be encoded, with the error for each |
| FrameLayout.HelloLayout | edge/src/frame.rs:154-164 | HELLO byte by byte: version 1 and the five port pairs |
| FrameLayout.HelloOkLayout | edge/src/frame.rs:226-240 | HELLO_OK byte by byte |
| FrameLayout.OneNumberLayout | edge/src/frame.rs:241-264 | PING, PONG and OPEN_OK byte by byte |
| FrameLayout.OpenLayout | edge/src/frame.rs:249-260 | OPEN byte by byte, with the address mapped into IPv6 |
| FrameLayout.NumberAndCodeLayout | edge/src/frame.rs:265-290 | OPEN_FAIL, CLOSE and QUOTA byte by byte |
| FrameLayout.DataLayout | edge/src/frame.rs:270-280 | DATA byte by byte |
| FrameLayout.HeaderErrorsExactly | edge/src/frame.rs:166-186 | which error a header raises, and exactly when none |
| FrameLayout.PayloadErrorsExactly | edge/src/frame.rs:300-353 | which error a payload of the right length raises |
| FrameStream.DecodeEncoded | edge/src/frame.rs:366-403 | decoding concatenated encodings gives the frames and then what the rest gives |
| FrameStream.EncodeDecoded | edge/src/frame.rs:219-403 | encoding what was decoded, and then the bytes left, gives back the input up to where decoding stopped |
| FrameStream.AcceptsExactlyEncodings | edge/src/frame.rs:366-412 | a byte string is accepted to its end if and only if it is a concatenation of frame encodings |
| FrameStream.DecodeAppend | edge/src/frame.rs:366-403 | decoding in two parts is decoding the whole, and an error is final |
| FrameStream.ChunksDoNotMatter | edge/src/frame.rs:366-403 | for every cut into chunks: the same buffer, the same first error, and the same frames if there is no error |
| FrameStream.FirstBadIs | edge/src/frame.rs:366-403 | the chunk that fails is the first one with which the input so far has an error |
| FrameStream.DeliveredFrames | edge/src/frame.rs:366-403 | with an error, exactly the frames of the chunks before the failing one are delivered |
| FrameStream.AllFramesDeliveredExactly | edge/src/frame.rs:367-402 | a cut delivers all the frames of the input if and only if no push fails or the failing chunk completes none |
| FrameStream.FramesBeforeAnErrorCanBeLost | edge/src/frame.rs:367-396 | a PING and a bad header: one chunk delivers nothing, two chunks deliver the PING |
| FrameStream.Decoder.Push | edge/src/frame.rs:366-403 | a push delivers what decoding the buffer and the chunk gives, keeps what is left, never holds more than 16397 bytes, and continues the decoding of all the bytes ever pushed |
| FrameStream.Decoder.Fill | edge/src/frame.rs:385-393 | input moves into the buffer until the wanted size is reached, and nothing is lost |
| FrameStream.Decoder.Finish | edge/src/frame.rs:406-412 | if no push failed, the end is clean if and only if all the bytes ever pushed are a concatenation of frame encodings; otherwise it is a truncation |
| Meters.Meter.NoteTx | edge/src/meter.rs:64-67 | the counter grows by a saturating add, and the answer says whether the line is reached |
| Meters.PauseLine | edge/src/meter.rs:6-7 | the line is 966367641 bytes, 0.90 of 2^30 truncated |
| Meters.Meter.State | edge/src/meter.rs:46-54 | the state is paused exactly when data is not allowed |
| QuotaRuns.OvershootIsBounded | edge/src/relay.rs:338-371 | with N forwarders, in every run the counter and the bytes sent stay at most N frames above the last byte below the line |
| QuotaRuns.PauseRunsOnce | edge/src/relay.rs:402-416 | the pause body runs at most once, and once the line is met the session is stopped or a forwarder that counted past the line is about to pause it |
| QuotaRuns.NothingStartsAfterTheLine | edge/src/relay.rs:288-304 | once the line is met it stays met and no forward starts |
| QuotaRuns.OvershootIsTight | edge/src/relay.rs:338-371 | for every N there is a run that meets the bound |
| QuotaRuns.LineIsMet | edge/src/relay.rs:343-371 | a run in which counting meets the line, the pause stops the session, and the next check is refused |
| QuotaRuns.PausesOnlyAtTheLine | edge/src/relay.rs:402-404 | below the line nobody is refused and the pause body does not run |
| QuotaRuns.OnlyPauseStops | edge/src/relay.rs:402-405 | unless something else stops the session, it is stopped exactly when the pause body has run |
| Calendar.CivilMonthIsRight | edge/src/meter.rs:114-123 | the computed year and month hold the day under the Gregorian leap-year rule |
| Calendar.MonthIsUnique | edge/src/meter.rs:112-113 | a day lies in one month only |
| Calendar.UtcYearMonthIsRight | edge/src/meter.rs:114-125 | for every timestamp the month is right and between 1 and 12, and the year is right modulo 2^16 |
| Calendar.MonthsAreMonotone | edge/src/meter.rs:114-125 | a later second is in the same month or a later one, also as returned while the year fits 16 bits |
| JsonPointer.UnescapeEscape | bearos-webui/src/lib/jmapPatch.ts:47-49 | unescaping by section 4 of RFC 6901 undoes the two-pass escaping of any key |
| JsonPointer.EscapeIsPerCharacter | bearos-webui/src/lib/jmapPatch.ts:47-49 | escaping goes character by character: a tilde becomes `~0`, a slash `~1`, any other stays |
| JsonPointer.EscapedIsToken | bearos-webui/src/lib/jmapPatch.ts:47-49 | an escaped key is one valid token with no slash in it |
| JsonPointer.ParseBelow | bearos-webui/src/lib/jmapPatch.ts:60-63 | a pointer parses to the path of its prefix and then exactly the members it was built from |
| JsonPointer.ParseKey | bearos-webui/src/lib/jmapPatch.ts:20-37 | a bare key stands for itself if it has no slash or tilde; otherwise it is no pointer or starts at a shorter key |
| JsonTrees.ApplyMemberwise | bearos-webui/src/lib/jmapPatch.ts:62-78 | edits below different members do not disturb each other, in any order |
| JmapPatch.EntriesRestore | bearos-webui/src/lib/jmapPatch.ts:51-92 | the entries between any two values, applied to the first in any order, give the second, null and absent being equal |
| JmapPatch.EntryExactly | bearos-webui/src/lib/jmapPatch.ts:51-92 | the entries between two values are exactly where they differ and are not both objects of one `@type`, reached through objects of one `@type` on both sides |
| JmapPatch.TopEntryExactly | bearos-webui/src/lib/jmapPatch.ts:15-37 | what the whole patch holds at a path, from lookups, the `@type` members and the key `id` alone |
| JmapPatch.EntryIsEdit | bearos-webui/src/lib/jmapPatch.ts:51-92 | every entry holds the new value of its path, and the old one was different |
| JmapPatch.ParentsAreObjects | bearos-webui/src/lib/jmapPatch.ts:52-80 | every parent on the path of an entry is an object in the original |
| JmapPatch.EntriesArePrefixFree | bearos-webui/src/lib/jmapPatch.ts:52-80 | no entry lies below another |
| JmapPatch.PatchRecord.DiffValues | bearos-webui/src/lib/jmapPatch.ts:51-92 | the loop adds the entries between two values below a prefix to the shared record and nothing else, whatever the order of the keys |
| JmapPatch.CalculateJmapPatch | bearos-webui/src/lib/jmapPatch.ts:7-41 | the record holds the pointer of every entry, and behind each pointer the value of an entry |
| JmapPatch.PointersCollideExactly | bearos-webui/src/lib/jmapPatch.ts:20-77 | two paths get the same key if and only if the longer top-level key spells out the beginning of the other path |
| JmapPatch.PatchAtPath | bearos-webui/src/lib/jmapPatch.ts:7-41 | so with plain changed keys the record holds each entry's own value |
| JmapPatch.PatchRestores | bearos-webui/src/lib/jmapPatch.ts:7-92 | with plain changed keys and the same `@type` and `id`, the patch gives the modified object in every order of its entries |
| JmapPatch.PatchRestoresExactly | bearos-webui/src/lib/jmapPatch.ts:7-92 | with plain changed keys it does so if and only if the skipped members did not change in meaning |
| JmapPatch.PatchRestoresIffNothingIsLost | bearos-webui/src/lib/jmapPatch.ts:7-92 | between null-free objects, for any keys, it does so if and only if no changed key is skipped or has a slash or a tilde |
| JmapPatch.PatchIsLegal | bearos-webui/src/lib/jmapPatch.ts:47-92 | every key is a pointer whose parents are all objects of the original, so no path enters an array |
| JmapPatch.PatchIsPrefixFree | bearos-webui/src/lib/jmapPatch.ts:47-92 | no key's path is a prefix of another's |
| JmapPatch.PatchHoldsEdits | bearos-webui/src/lib/jmapPatch.ts:7-92 | every key holds the new value of its path, and the old one was different |
| JmapPatch.EmptyPatch | bearos-webui/src/lib/jmapPatch.ts:19-38 | the patch is empty exactly when only skipped members changed |
| JmapPatch.KeysCollide | bearos-webui/src/lib/jmapPatch.ts:37-37 | two different edits that get the same key, because a top-level key has a slash |
| Crc.TableStep | webui/src/zip.ts:16-18 | eight bit steps of any register are one table look-up and a shift by a byte |
| Crc.BuildTable | webui/src/zip.ts:6-14 | entry i of the table is eight division steps of i |
| Crc.LookUp | webui/src/zip.ts:18-18 | one look-up is dividing the eight bits of the byte, lowest first |
| Crc.ComputeCrc | webui/src/zip.ts:16-20 | the loop returns the bit-by-bit reflected division of every byte sequence |
| Crc.GeneratorIs | webui/src/zip.ts:10-10 | the constant is the CRC-32 generator, coefficient by coefficient |
| Crc.CheckValue | webui/src/zip.ts:16-20 | the CRC of the digits one to nine is 0xCBF43926 |
| Zip.U16RoundTrip | webui/src/zip.ts:40-42 | two bytes, lowest first, give back every 16-bit value |
| Zip.U32RoundTrip | webui/src/zip.ts:44-46 | four bytes give back every 32-bit value |
| Zip.LocalFields | webui/src/zip.ts:57-69 | every field of a local header by its place: signature, version, UTF-8 flag, stored, no time, the CRC, both sizes, the name's length |
| Zip.CentralFields | webui/src/zip.ts:71-89 | every field of a central header by its place, the offset included |
| Zip.EndFields | webui/src/zip.ts:95-104 | every field of the end record by its place, both counts equal |
| Zip.LocalAt | webui/src/zip.ts:57-92 | the running offset of an entry is where its local header stands |
| Zip.EntryBack | webui/src/zip.ts:53-93 | that reader, at an entry's place in the central directory, gives its name, data, CRC and the offset of its local header |
| Zip.ArchiveReadsBack | webui/src/zip.ts:48-106 | a strict reader, which takes the stored bytes by the compressed size and refuses other versions, flags, methods or unequal sizes, recovers every entry in order from the end record, for all lists within the field limits |
| Zip.BuildZip | webui/src/zip.ts:48-106 | the loops write that archive |
| Zip.WriteEntry | webui/src/zip.ts:57-89 | the local and the central part of one entry |
| Zip.Concat | webui/src/zip.ts:115-123 | the parts are copied into one array in order, with no gap |
| DeadProperties.BalancedIsForest | crates/types/src/dead_property.rs:11-31 | a tag list is balanced if and only if it is some forest written flat |
| DeadProperties.FlattenIsInjective | crates/types/src/dead_property.rs:11-31 | and only one forest |
| DeadProperties.FindInForest | crates/types/src/dead_property.rs:58-97 | the depth-counting search takes the children of the first top-level element of that name |
| DeadProperties.RemoveFromForest | crates/types/src/dead_property.rs:101-124 | the depth-counting removal filters the top-level elements of that name and keeps everything else |
| DeadProperties.SetForest | crates/types/src/dead_property.rs:101-130 | remove then add filters the forest and appends one element |
| DeadProperties.SetThenFind | crates/types/src/dead_property.rs:58-130 | after remove and add on a balanced list, the search returns the added value if and only if that value is balanced |
| DeadProperties.SetKeepsOthers | crates/types/src/dead_property.rs:58-130 | every other name is found as before |
| DeadProperties.SetKeepsBalance | crates/types/src/dead_property.rs:101-130 | balance is kept |
| DeadProperties.RemovedIsNotFound | crates/types/src/dead_property.rs:58-124 | on every list where no end tag comes without a start, balanced or not, a removed name is not found |
| DeadProperties.StrayEndTag | crates/types/src/dead_property.rs:78-121 | after a stray end tag the search finds an element that the removal keeps |
| DeadProperties.DeadProperty.FindTag | crates/types/src/dead_property.rs:58-97 | the loop returns what the search function gives, on every list |
| DeadProperties.DeadProperty.RemoveElement | crates/types/src/dead_property.rs:101-124 | the loop retains what the removal function gives, on every list |
| DeadProperties.DeadProperty.AddElement | crates/types/src/dead_property.rs:126-130 | the element is appended around its values |
| StreamStatus.BackoffIsBounded | bearos-webui/src/services/sse.ts:50-52 | delays never shrink, never pass the maximum, and double until they reach it |
| StreamOutcomes.WaitIsBackoff | bearos-webui/src/services/sse.ts:50-52 | reconnect number n in a row waits the base doubled n - 1 times, up to the maximum |
| StreamSafety.StepKeepsInv | bearos-webui/src/services/sse.ts:148-275 | every callback keeps source, timers, token fetches and status in step |
| StreamSafety.StreamIsSafe | bearos-webui/src/services/sse.ts:148-275 | in every run at most one source is live, only while connecting or open; while active something is pending; when over, nothing is |
| StreamSafety.NothingAfterTheEnd | bearos-webui/src/services/sse.ts:179-255 | every message comes from the one live source, every source is made when none is live, and nothing is made, delivered or reported after the end |
| StreamSafety.FinalIsFinal | bearos-webui/src/services/sse.ts:179-197 | after the end no sequence of events changes the status or does anything outside |
| StreamSafety.LiveMessagesAreDelivered | bearos-webui/src/services/sse.ts:240-255 | in every run a message of the live source that parses is delivered and makes an open stream stable |
| StreamSafety.LostSourceIsRetried | bearos-webui/src/services/sse.ts:231-239 | in every run losing the live source is retried exactly when it was not the first attempt and fewer than `maxAttempts` reconnects were made since the stream was stable |
| StreamSafety.ReconnectsAreBounded | bearos-webui/src/services/sse.ts:54-77 | between two moments without a stable point there are at most `maxAttempts` reconnects |
| StreamOutcomes.TokenOutcome | bearos-webui/src/services/sse.ts:204-219 | in every run, what a current token, a refused source and a failed fetch lead to |
| StreamOutcomes.OpenOutcome | bearos-webui/src/services/sse.ts:220-230 | in every run, opening keeps the count of reconnects, and is watched for stability only after one |
| StreamOutcomes.SourceErrorOutcome | bearos-webui/src/services/sse.ts:231-239 | in every run, losing the source before the first open is final, and later is retried or fails as disconnected |
| StreamOutcomes.TimerOutcome | bearos-webui/src/services/sse.ts:54-77 | in every run, a retry connects again, stability forgets the reconnects, and a stop closes |
| StreamOutcomes.StaleEventsAreIgnored | bearos-webui/src/services/sse.ts:206-241 | in every run, sources that are not live, old tokens and messages that do not parse change nothing |
| StreamOutcomes.DeadlineOutcome | bearos-webui/src/services/sse.ts:258-264 | in every run, a deadline that was set stays set until the stream is over, and ends it when it fires |
| EventStreamClient.EventStream.constructor | bearos-webui/src/services/sse.ts:148-265 | opening a stream starts the deadline and the first connect |
| EventStreamClient.EventStream.DispatchAction | bearos-webui/src/services/sse.ts:179-197 | a dispatch that changes the status enters it and reports it last |
| EventStreamClient.EventStream.Enter | bearos-webui/src/services/sse.ts:183-195 | a new status arms the retry timer, starts a connect, or ends everything pending |
| EventStreamClient.EventStream.CloseSourceNow | bearos-webui/src/services/sse.ts:163-170 | closing drops the stable timer and the source |
| EventStreamClient.EventStream.OnToken | bearos-webui/src/services/sse.ts:210-219 | a token of an old generation is ignored; a current one makes the source or fails the stream |
| EventStreamClient.EventStream.OnTokenError | bearos-webui/src/services/sse.ts:205-209 | a token error of an old generation is ignored |
| EventStreamClient.EventStream.OnOpen | bearos-webui/src/services/sse.ts:220-230 | opening arms the stable timer after a reconnect |
| EventStreamClient.EventStream.OnError | bearos-webui/src/services/sse.ts:231-239 | an error of the current source closes it, and is final on the first attempt |
| EventStreamClient.EventStream.OnEvent | bearos-webui/src/services/sse.ts:240-255 | a message of the current source makes the stream stable and is delivered |
| EventStreamClient.EventStream.OnRetryTimer | bearos-webui/src/services/sse.ts:185-188 | the retry timer reconnects |
| EventStreamClient.EventStream.OnStableTimer | bearos-webui/src/services/sse.ts:225-228 | the stable timer resets the attempts, if its source is still current |
| EventStreamClient.EventStream.OnDeadline | bearos-webui/src/services/sse.ts:259-263 | the deadline closes the source and fails the stream |
| EventStreamClient.EventStream.StopStream | bearos-webui/src/services/sse.ts:271-273 | stopping ends an active stream |

## Left out

- Sockets, TLS, thread creation, clocks and sleeps: they are steps that may happen at any time. Outcomes of I/O are
  parameters or alternative steps, and the meter's answer inside the tunnel model is one of them.
- Ping and pong timers, HELLO negotiation, `HelloOnce`, `SessionGate`, `reconnect_delay`: easy members.
- `encode_proxy_v2` and the port map: the answer BadPort does not occur, because a VM only advertises a known port.
- The tunnel model carries frame types and ids; payloads, reasons and addresses are in the codec model.
- `NicCounter` and `roll_month`: a saturating sum and a reset with easy laws.
- `CommandParser::parse` and `tokenize_brackets` are arbitrary functions; error message texts and the token accessors are
  not modelled.
- `utf7_maybe_decode`: a wrapper.
- Widths of `current_request_size`, of the depth counters in dead properties and of the decoder's lengths: they are
  unbounded integers, since the limits keep them far below their machine width.
- `uniqueZipNames` and `sanitizeZipName`: names are byte strings after UTF-8 encoding, and may repeat.
- JavaScript `undefined`, the order of an object's keys (which JSON.stringify shows when it compares arrays, so equal
  arrays may be sent again), the identity of an `@type` that is itself an object or array, and the key `__proto__`:
  JSON values are trees, compared by value.
- The server's side of a patch is a definition of its own, after section 5.3 of RFC 8620; a key that is not a valid
  pointer makes the whole patch fail.
- `DeadProperty` sizes and the conversion from its archived form.
- Callbacks of the event stream that call back into it before they return, and a `fetchToken` that throws instead of
  returning a promise.
- `buildStreamUrl`, `parseJsonBatch`: parsing is an arbitrary success or failure.
- Everything else in the repository: HTTP, DAV and storage plumbing, the web pages, the migration script, and
  `mcp/src/limits.ts`.
