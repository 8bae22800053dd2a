# Verification of the andor2k camera daemon

This project models the parts of the andor2k camera daemon in which mistakes are hard to see by reading, and proves
what they do for every input or in every interleaving. `dafny verify dfyconfig.toml` checks all of it.

## What is modelled

**The acquisition protocol** (`Acquisition*.dfy`). `get_rta_scan` or `get_single_scan` runs against a progress reporter
and an abort listener. `Acquisition.Step` is the step relation of all three threads together: a program counter per
thread, the two mutexes, the globals `abort_socket_fd`, `abort_set` and `cur_img_in_series`, the camera, the listening
socket, the save directory, and a log of what the client was sent. A step is one access to shared state or one SDK,
socket or file call; what that call answers is arbitrary. The 10-second exit of debug builds is included, since the
library is built that way. Any number of calls of either kind follow one another. `AcquisitionInvariant` states the
inductive invariant, `AcquisitionPreservation` proves it part by part, `AcquisitionTheorems` draws the guarantees from
it, `AcquisitionAnswers` shows that the answers of camera and file system decide how a call ends, `AcquisitionRecords`
says word for word what main tells the client, how the files are numbered and when the camera is on,
`AcquisitionThreads` accounts for reporter and listener, and `AcquisitionRuns` exhibits runs in which the code does less
than its comments say and gives the exact conditions.

**Base64** (`BitStream.dfy`, `Base64.dfy`, `Cdecode.dfy`). Section 4 of RFC 4648 is stated on streams of bits. The
buffer-filling encoder and decoder, including C's sign extension of `char`, and the retired resumable decoder are each
proved against that one reference.

**Telescope headers** (`Framing.dfy`, `Cards.dfy`, `HeaderRequest.dfy`, `LineBreaks.dfy`). A reply is searched for its
Base64 block, decoded, handed to an arbitrary decompressor, and split into 80-character cards (section 4.1 of the FITS
Standard 4.0). The retry loop joins the pieces.

**The header store** (`FitsKeys.dfy`, `FitsHeader.dfy`, `FitsHeaderRuns.dfy`). The insertion-ordered list with
type-checked update, and merge with its vector growth; keys trimmed in place.

**File names** (`CString.dfy`, `FitsFilenames.dfy`). The next-index scan of the save directory, on `strtol` and
`sprintf` models that are proved inverse.

**Image commands and setup** (`ImageParameters.dfy`, `ImageCommands.dfy`, `SetupHeaders.dfy`, `SetAcquisition.dfy`).
Options change parameters that outlive the command. The setup sizes the image buffer by truncating division, merges the
telescope's headers, and adds the daemon's own on top.

`Basics.dfy` holds two facts every part needs.

## Where code and documentation differ

The model follows the code. Each point below is a lemma.

- The wait for the listener's descriptor never waits, because its predicate is the descriptor just set to -100
  (`WaitDoesNotWait`). A shutdown can therefore miss the listener, and the call then joins a thread nobody wakes
  (`BlindShutdownCanHang`). `StuckExactlyWhen` lists every stuck state: this one, and main asleep in the wait after
  a descriptor 0 was published (`ZeroDescriptorHangs`).
- An abort is lost when it comes in while main is not waiting for the camera: `CancelWait` then cancels nothing
  (`CancelHitsExactlyWhen`), and nobody looks at `abort_set` any more. A series can be aborted by its client and report
  that it completed (`AbortGetsLost`). The client is told of the abort exactly when the call ends in a failed wait
  (`AbortIsReportedExactlyWhen`).
- A series can start by reporting the image number an earlier series left behind (`StaleNumberIsReported`). Its reports
  follow the camera in every interleaving exactly when that number is 1 (`ReportsFollowCameraExactlyWhen`). The daemon
  starts with 0 (src/andor2k.cpp:11), so its very first series can already report image 0.
- When a series fails to save, "done" goes out while the reporter is still talking (`DoneBeforeProgress`). "done" is
  certain to be the last message of a call exactly for single scans and series without images
  (`DoneIsLastExactlyWhen`).
- The length check after decoding rejects every padded block: payloads must be a multiple of three bytes long
  (`FramedPayload`).
- `merge` forgets the store when it has to regrow, and keeps a key then only if it is among the headers applied
  (`MergeKeepsKeysExactlyWhen`). Told to stop at errors, it applies the headers in front of the first one that loses
  against an earlier header with its key (`AppliedEndsAtFirstLoser`). Its only caller starts from an empty store, where
  the regrow loses nothing (`MergeIntoEmpty`), and passes cards, which are all texts, so that none is rejected
  (`CardsMergeCompletely`).
- Split cards keep the spaces in their keys, so a trimmed key never meets them unless the key fills its columns
  (`MetByTrimmedExactlyWhen`). Of the daemon's own headers three have such keys. OBSERVER and INSTRUME replace what the
  telescope has sent (`CardsAfterSetup`); TIMECORR, a number, is refused when the telescope has sent one
  (`OwnHeadersAfterSetup`).
- Two saves under a generic name with a '/' get the same name (`ConsecutiveNamesDiffer`).
- An exposure that is not a number is rejected, but kept, and accepted by the next command
  (`ProperExposureExactlyWhen`).
- A negative bin with a reversed region passes every check (`SizeFitsExactlyWhen`, `ReversedRegionPasses`).

## Model

| member | source | states |
|---|---|---|
| AcquisitionPreservation.StepKeepsInv | src/get_rta_scan.cpp:49-352 | every step of main, reporter or listener, with any answer from outside, keeps the protocol's invariant |
| AcquisitionPreservation.ReachableInv | src/get_rta_scan.cpp:49-352 | the invariant holds in every state of every run of any sequence of calls |
| AcquisitionPreservation.InitialInv | src/get_rta_scan.cpp:15-23 | it holds of an idle daemon with arbitrary leftovers in the globals |
| AcquisitionPreservation.BeginKeepsInv | bin/andor2kd.cpp:94-137 | the start of a new call keeps the invariant, whatever the call before left behind |
| AcquisitionTheorems.MutualExclusion | src/get_rta_scan.cpp:98-102 | neither mutex ever has two holders, and every unlock is made by the owner |
| AcquisitionTheorems.ReporterStaysUntilRelease | src/acquisition_series_reporter.cpp:107-114 | the reporter leaves its loop only after main has released the mutex; only a bias frame's reporter leaves otherwise |
| AcquisitionTheorems.CleanReturn | src/get_rta_scan.cpp:338-352 | every return leaves both mutexes free, reporter and listener joined, and the camera stopped |
| AcquisitionTheorems.EveryCallStartsClean | src/get_rta_scan.cpp:41-58 | the idle states that can be reached are exactly the states the daemon can start in, so every call of either kind starts afresh |
| AcquisitionTheorems.ExactlyOneDone | src/get_rta_scan.cpp:72-347 | each call sends exactly one "done", with its cause, and as its last message unless a series failed to save; that of a series names one image more than it has fetched if it fails on an image, 1 if the start fails, all its images if it succeeds, and the number it found if it has none; that of a single scan names none |
| AcquisitionTheorems.NothingAfterDone | src/get_single_scan.cpp:77-202 | no thread sends anything after the "done", again unless a series failed to save |
| AcquisitionTheorems.AbortIsClassifiedCorrectly | src/get_rta_scan.cpp:128-150 | when main looks at `abort_set` after a failed wait, it is set exactly if this call's listener received something; a cancelled wait is such a case |
| AcquisitionTheorems.AbortIsReportedExactlyWhen | src/get_rta_scan.cpp:118-151 | whatever its cause, a returning call has told the client of a user abort exactly if it ended in a failed wait and its listener had received something; a wait ended by `CancelWait` is such a case |
| AcquisitionTheorems.CancelHitsExactlyWhen | src/abort_listener.cpp:103-113 | `CancelWait` ends main's wait exactly if main is waiting at that moment |
| AcquisitionTheorems.CancelledWaitFails | src/abort_listener.cpp:103-113 | after `CancelWait` hit main's wait, the exit for a failed wait is the only way on |
| AcquisitionTheorems.OneToAt | src/get_rta_scan.cpp:108-109 | the sequence 1..n has i + 1 at position i |
| AcquisitionTheorems.SuccessfulSeries | src/get_rta_scan.cpp:108-352 | a successful series of n images fetches 1..n in order and writes n files under new, distinct names, each announced once and in order; its last message says n |
| AcquisitionTheorems.FailedSeries | src/get_rta_scan.cpp:118-264 | a series that fails at image i has completed and announced exactly i - 1 saves |
| AcquisitionTheorems.AllocatedNameIsFree | src/save_as_fits.cpp:18-35 | no write is refused because the file exists, if the generic name has no '/' |
| AcquisitionTheorems.ProgressNumbers | src/acquisition_series_reporter.cpp:128-176 | every report names image 1, the number an earlier series left, or an image of this series that is at most one ahead of those fetched |
| AcquisitionTheorems.ReportsFollowCamera | src/acquisition_series_reporter.cpp:104-176 | a series that finds 1 in `cur_img_in_series` reports finished only what is fetched, progress at most on the next image, and numbers that never go down |
| AcquisitionTheorems.MainReadyMoves | src/get_rta_scan.cpp:49-352 | wherever main is ready there is an answer with which it moves on |
| AcquisitionTheorems.ReporterReadyMoves | src/acquisition_series_reporter.cpp:95-195 | a reporter that has not ended always moves on |
| AcquisitionTheorems.ListenerReadyMoves | src/abort_listener.cpp:31-129 | wherever the listener is ready there is an answer with which it moves on |
| AcquisitionTheorems.MainNotReadyWaits | src/get_rta_scan.cpp:54-56 | wherever main is not ready it waits for another thread or is idle |
| AcquisitionTheorems.StuckExactlyWhen | src/get_rta_scan.cpp:53-88 | a call in progress is stuck in exactly two situations, both caused by the predicate of the wait for the descriptor |
| AcquisitionTheorems.NotStuckOncePublished | src/abort_listener.cpp:46-64 | if the descriptor is not 0 and was published before the shutdown, no reachable state is stuck |
| AcquisitionTheorems.ShutdownIsBlindExactlyWhen | src/get_rta_scan.cpp:87-88 | the shutdown misses the listener exactly if the listener has not published yet; otherwise it wakes `accept` |
| AcquisitionTheorems.WindingDownDecreases | src/get_rta_scan.cpp:128-151 | after the mutex is released every step of every thread lowers a rank, failed `try_lock`s without cause aside |
| AcquisitionTheorems.WindingDownIsBounded | src/get_rta_scan.cpp:128-151 | so every run of all threads together has at most 36 steps from the release to the return |
| AcquisitionTheorems.CallReturns | src/get_rta_scan.cpp:128-151 | unless a shutdown has gone astray, from every state after the release a run of at most 36 steps, none of which waits for another thread, ends the call |
| AcquisitionAnswers.RunIsRecorded | src/get_rta_scan.cpp:69-264 | at every place of main, the questions it has put to camera and file system are those of its kind of call, in order, and all have been answered as hoped for unless main is on its way out for the last one |
| AcquisitionAnswers.AnswersDecide | src/get_single_scan.cpp:77-202 | a returning call has stopped at the first answer it had not hoped for, and that one is its cause; it has completed exactly if start, waits, fetches, names and writes have all been answered as hoped for, which takes five questions for a single scan and one and five for each image of a series |
| AcquisitionAnswers.WrittenExactly | src/save_as_fits.cpp:33-50 | at any time a call has written one file for each write that has succeeded |
| AcquisitionAnswers.SingleScanSaves | src/get_single_scan.cpp:108-202 | a single scan leaves one announced file exactly if all five questions are answered as hoped for, and none otherwise |
| AcquisitionRecords.ClientIsTold | src/get_single_scan.cpp:77-202 | apart from the reporter's messages the client is told exactly this: by a single scan with its data that it has them, then the name of each file written, in order, then "done" |
| AcquisitionRecords.AbortIsWhatWasReceived | src/abort_listener.cpp:89-104 | an abort counts as received exactly if this call's listener has received something on its connection |
| AcquisitionRecords.FilesAreNumbered | src/save_as_fits.cpp:18-35 | the files a call writes under one generic name without '/' carry consecutive indices, from the next one that was free before the call |
| AcquisitionRecords.CameraIsOnExactlyWhen | src/get_single_scan.cpp:77-150 | the camera is on exactly if it has been started and neither been stopped since nor finished a single exposure |
| AcquisitionRecords.CameraIsStopped | src/get_rta_scan.cpp:118-352 | every series, and every single scan that fails before it has its data, tells the camera to stop before it returns |
| AcquisitionThreads.ReportsAreInTurn | src/acquisition_series_reporter.cpp:104-176 | in every interleaving the reporter tells progress on image 1 first and stays with an image until it calls that one finished; progress on the next one to be shown follows |
| AcquisitionThreads.ListenerStopsAtRefusal | src/abort_listener.cpp:31-129 | a returning call's listener has asked for a socket, a connection and a message, in that order, and stopped at the first refusal |
| AcquisitionRuns.WaitDoesNotWait | src/get_rta_scan.cpp:51-56 | from any idle state, main can start the camera before the listener has run at all |
| AcquisitionRuns.BlindShutdownCanHang | src/get_rta_scan.cpp:72-89 | from any idle state, a call can end up joining a listener that waits for ever |
| AcquisitionRuns.ZeroDescriptorHangs | src/get_rta_scan.cpp:51-56 | from any idle state, a call can sleep for ever because its listener's descriptor is 0 |
| AcquisitionRuns.StaleNumberIsReported | src/acquisition_series_reporter.cpp:104-176 | whatever number was left behind, a new series can report it as its own |
| AcquisitionRuns.ReportsFollowCameraExactlyWhen | src/acquisition_series_reporter.cpp:104-176 | the reports of a series follow the camera, in all interleavings, exactly if the number left behind is 1 |
| AcquisitionRuns.DoneBeforeProgress | src/save_as_fits.cpp:18-28 | a series that cannot name its file sends progress after its "done" |
| AcquisitionRuns.DoneIsLastExactlyWhen | src/get_rta_scan.cpp:254-264 | every returning call of a job ends with its "done" exactly if the job is a single scan or has no images |
| AcquisitionRuns.AbortGetsLost | src/abort_listener.cpp:89-113 | from any idle state in which a name can be allocated there is a series that receives an abort and returns with "done", completed, and no word of the abort |
| BitStream.OctetsOfBytes | src/cbase64.cpp:36-75 | grouping bits into bytes undoes writing bytes as bits, whatever incomplete byte follows |
| BitStream.SextetsOfValues | src/cbase64.cpp:82-110 | grouping into sextets gives the only values below 64 that spell the stream with zero fill |
| BitStream.BitsOfSextets | src/cbase64.cpp:82-110 | the sextets of a stream spell it, followed by fewer than six zero bits |
| Base64.Basis64 | src/cbase64.cpp:77-78 | the encoding table maps into the alphabet and is undone by the decoding table |
| Base64.AlphabetTable | src/cbase64.cpp:77-78 | the encoding table is Table 1 of RFC 4648, character by character |
| Base64.BasisOfPr2Six | src/cbase64.cpp:4-19 | on the alphabet the decoding table is undone by the encoding table |
| Base64.Run | src/cbase64.cpp:26-30 | the longest prefix of alphabet characters |
| Base64.RunLength | src/cbase64.cpp:26-30 | the scan ends at the first character outside the alphabet |
| Base64.DecodeEncode | src/cbase64.cpp:36-110 | decoding an encoding gives the original bytes, for every byte sequence and whatever foreign text follows |
| Base64.EncodeIsCanonical | src/cbase64.cpp:82-110 | every encoding is canonical: padded, and with zero trailing bits |
| Base64.PaddedWithEquals | src/cbase64.cpp:95-106 | an encoding ends in '==' after one leftover byte, '=' after two, and nothing else; all before it is in the alphabet |
| Base64.EncodeDecodeExactlyWhen | src/cbase64.cpp:36-110 | encoding a decoded text reproduces it exactly when it is canonical (section 3.5 of RFC 4648) |
| Base64.ReencodingIsCanonical | src/cbase64.cpp:36-110 | any other text becomes a canonical one that decodes to the same bytes |
| Base64.RfcEncodeLength | src/cbase64.cpp:80 | an encoding is one shorter than `base64encode_len`, which counts the NUL |
| Base64.PromoteExtendsSign | src/cbase64.cpp:87-93 | a character from 128 on is promoted to the negative number 256 less than its byte |
| Base64.SextetsOfSignedChars | src/cbase64.cpp:88-93 | the encoder's masks undo the sign extension of characters from 128 on |
| Base64.GroupBits | src/cbase64.cpp:87-94 | the four sextets computed from three characters spell the same 24 bits |
| Base64.EncodeGroup | src/cbase64.cpp:87-94 | one pass of the loop writes the characters of the next four sextets |
| Base64.EncodeRest | src/cbase64.cpp:95-106 | the tail writes the sextets of one or two leftover bytes, and their padding |
| Base64.EncodeTail | src/cbase64.cpp:95-108 | the tail completes what the loop has encoded to the encoding of the whole text |
| Base64.Base64Encode | src/cbase64.cpp:82-110 | the buffer holds the RFC encoding and a NUL, exactly `base64encode_len` bytes are written, and the rest is untouched |
| Base64.DecodedGroupBits | src/cbase64.cpp:51-58 | the three bytes computed from four table values spell the same 24 bits |
| Base64.DecodeGroups | src/cbase64.cpp:51-70 | whole groups, and a last group cut to complete bytes, spell the complete bytes of the run |
| Base64.DecodeFour | src/cbase64.cpp:51-58 | one pass of the loop writes the three bytes its four characters spell |
| Base64.DecodeRest | src/cbase64.cpp:60-70 | the tail writes the complete bytes of at most four characters |
| Base64.DecodeFours | src/cbase64.cpp:51-58 | the loop decodes everything but the last one to four characters |
| Base64.DecodeTail | src/cbase64.cpp:60-74 | the tail and the NUL complete what the loop has decoded to the bytes of the whole run |
| Base64.DecodedCount | src/cbase64.cpp:46-74 | the returned count, computed from what the loop leaves over, is the number of complete bytes |
| Base64.Base64DecodeLen | src/cbase64.cpp:21-34 | the announced length is more than the number of decoded bytes |
| Base64.Base64Decode | src/cbase64.cpp:36-75 | for an alphabet run of n characters the buffer holds the floor(3n/4) bytes it spells and one NUL, within `base64decode_len`, and nothing else changes |
| Cdecode.TablesAgree | src/cdecode.cpp.old:21-34 | the two decoders' tables accept the same characters with the same values |
| Cdecode.ForeignValues | src/cdecode.cpp.old:21-34 | outside the alphabet the resumable decoder's table has -2 for '=' and -1 for everything else |
| Cdecode.CompletedBits | src/cdecode.cpp.old:76-102 | each case completes the byte in hand with the first bits of the new character |
| Cdecode.StartedBits | src/cdecode.cpp.old:64-90 | and starts the next byte with its remaining bits and zeros |
| Cdecode.CaseKeeps | src/cdecode.cpp.old:50-104 | each case of the switch emits the next decoded byte, if one is complete, and keeps exactly the bits in hand |
| Cdecode.FedDecodes | src/cdecode.cpp.old:42-107 | fed any text after any other, the machine completes the bytes spelt by all alphabet characters so far |
| Cdecode.FedAppends | src/cdecode.cpp.old:42-48 | what a call completes does not depend on what was completed before it |
| Cdecode.DecodeState.Take | src/cdecode.cpp.old:50-104 | one character is skipped, or completes and starts the bytes of its case |
| Cdecode.DecodeState.Loop | src/cdecode.cpp.old:50-104 | the loop leaves step, output and byte in hand as the machine does, and writes nowhere else |
| Cdecode.DecodeState.constructor | src/cdecode.cpp.old:36-40 | a fresh decoder has been fed nothing |
| Cdecode.DecodeState.DecodeBlock | src/cdecode.cpp.old:42-107 | one call appends to the output exactly the bytes its text completes, keeps the state valid, and writes nowhere else |
| Cdecode.DecodePieces | src/cdecode.cpp.old:42-107 | a text fed in any pieces decodes like the whole text with everything outside the alphabet removed |
| Cdecode.DecodersAgreeExactlyWhen | src/cdecode.cpp.old:42-107 | the table-driven decoder finds a prefix of the resumable one's bytes, and all of them exactly if the characters behind the run complete no further byte |
| Cdecode.CompareDecoders | src/aristarchos.cpp.old:566-582 | the comparison of the two decoders on one text comes out equal exactly in that case |
| Framing.LengthCheck | src/aristarchos.cpp:379-392 | the check on the decoded length passes exactly for runs of a multiple of four characters |
| Framing.MarkIs | src/aristarchos.cpp:352 | the mark is 'B', 'F', '=' |
| Framing.FindMark | src/aristarchos.cpp:352 | the first "BF=" in the message, if there is one |
| Framing.FindSemicolon | src/aristarchos.cpp:364-375 | the first ';' from a position on, if there is one |
| Framing.Strstr | src/aristarchos.cpp:352 | the search in the buffer finds that mark |
| Framing.FramedPayload | src/aristarchos.cpp:351-392 | a framed encoding is found and decoded, and accepted exactly if the payload's length is a multiple of three |
| Framing.DecodeMessage | src/aristarchos.cpp:342-465 | only the closing ';' of the first block is overwritten, and the decompressor gets what the block carries |
| Cards.Rebuild | src/aristarchos.cpp:525-557 | a well-placed card is exactly key, columns 8-10, value, '/' and comment of its header |
| Cards.ParseRender | src/aristarchos.cpp:525-557 | splitting a rendered card gives back its header |
| Cards.RenderParse | src/aristarchos.cpp:525-557 | and a card that can be split is the rendering of its header |
| Cards.Slash | src/aristarchos.cpp:535 | the first '/' of a card from column 8 on |
| Cards.Strchr | src/aristarchos.cpp:535-542 | the search finds the first '/', or the end of the string before it |
| Cards.VisitsEveryCard | src/aristarchos.cpp:494-506 | on 80k characters without NUL and message length 80k - 1 exactly k cards are visited |
| Cards.VisitsUpTo | src/aristarchos.cpp:494-506 | the loop visits the cards in front of the first that starts with a NUL or behind the message length |
| Cards.SlashlessExactlyWhen | src/aristarchos.cpp:535-542 | the search for '/' fails exactly if the string ends in front of any |
| Cards.HeadersAt | src/aristarchos.cpp:508-560 | any block has as many headers as cards with '=' in column 8; each such card's header stands behind those of the cards before it, with columns 0-7 as key, 11 to the slash as value and the rest as comment |
| Cards.SplitCard | src/aristarchos.cpp:515-558 | one card yields its header, nothing, or failure if no '/' follows up to the end of the string |
| Cards.DecodedStrToHeader | src/aristarchos.cpp:479-564 | the result is one header for each card with '=' at column 8, in order, up to the first card without '/', which makes it -1 |
| Cards.SplitRendered | src/aristarchos.cpp:479-564 | splitting a rendered block gives back exactly the headers it was rendered from, whatever other cards stand among them and whatever lies behind it |
| HeaderRequest.GetAristarchosHeaders | src/aristarchos.cpp:205-295 | the headers come from the first decodable reply among the allowed tries; without one the status is 1 and there are none |
| HeaderRequest.Ask | src/aristarchos.cpp:232-263 | one try yields the decoded text of its reply, or nothing |
| HeaderRequest.HeadersArrive | src/aristarchos.cpp:205-295 | a reply framing the compressed form of a rendered block ends as exactly the headers that were rendered |
| LineBreaks.JoinedDelimited | src/aristarchos.cpp:297-330 | dropping the inserted positions recovers the text, and one delimiter is inserted for each block |
| LineBreaks.NeedIsLeast | src/aristarchos.cpp:313-330 | the room asked for is what the text with its NUL, or its blocks with the last one padded, take, and no more |
| LineBreaks.PutBlock | src/aristarchos.cpp:319-326 | one pass copies the next block and puts the delimiter behind it |
| LineBreaks.AddCharEvery | src/aristarchos.cpp:313-330 | the buffer holds the text's blocks, each followed by the delimiter, and a NUL; nothing beyond the needed length changes |
| FitsKeys.SameSlotExactlyWhen | src/fits_header.cpp:24-35 | two keys are stored alike exactly when they differ only in surrounding spaces |
| FitsKeys.MetByTrimmedExactlyWhen | src/aristarchos.cpp:529-531 | a key stored untrimmed is met by a trimmed one exactly if it has no spaces around it |
| FitsKeys.Rtrim | src/fits_header.cpp:6-16 | the spaces at the end of the string become NULs, and nothing else changes |
| FitsKeys.CpyChars | src/fits_header.cpp:24-35 | the fields hold the trimmed key and the comment, filled up with NULs |
| FitsHeader.CreateFitsHeader | src/fits_header.cpp:37-85 | a new header has the trimmed key, the comment and the tagged value |
| FitsHeader.FitsHeaders.constructor | src/fits_header.hpp:63 | a store starts empty with at least the hinted capacity |
| FitsHeader.FitsHeaders.Clear | src/fits_header.hpp:65 | clearing empties the store and keeps its capacity |
| FitsHeader.FitsHeaders.Update | src/fits_header.cpp:114-137 | a new key is appended, a key of the same known type is overwritten in place, and anything else is rejected with -1 |
| FitsHeader.FitsHeaders.UpdateValue | src/fits_header.hpp:71-75 | the templated update does that for the trimmed key |
| FitsHeader.UpdateDoes | src/fits_header.cpp:114-137 | an update, by the first header with its key: appended with 1, replaced in place with 0 if both values have the same of six known types, and otherwise refused with -1 |
| FitsHeader.StopsAt | src/fits_header.cpp:99-110 | where a merge that stops at errors stops |
| FitsHeader.FitsHeaders.Merge | src/fits_header.cpp:90-112 | a merge is a fold of updates from the old store, or from the empty one if it regrows; it returns the accepted count, minus the rejections, or -1 with everything before the first rejection applied |
| FitsHeaderRuns.KeysStayUnique | src/fits_header.cpp:90-137 | over any run of updates and merges from empty, keys stay unique |
| FitsHeaderRuns.KeysOfFold | src/fits_header.cpp:99-110 | after applying headers, the store has exactly the old keys and theirs |
| FitsHeaderRuns.SlotsStay | src/fits_header.cpp:90-137 | without a regrow in between every key keeps its position and its type |
| FitsHeaderRuns.LookupSeesLastAccepted | src/fits_header.cpp:90-137 | after any run a lookup sees the last header accepted for the key since the last regrow |
| FitsHeaderRuns.AcceptedExactlyWhenWinning | src/fits_header.cpp:114-137 | a header is accepted exactly if it is the first with its key, or has that first one's type and it is known |
| FitsHeaderRuns.SlotsInOrderOfFirstUse | src/fits_header.cpp:120-123 | slots are ordered by the first use of their keys |
| FitsHeaderRuns.MergeKeepsKeysExactlyWhen | src/fits_header.cpp:90-112 | a merge, stopping at errors or not, keeps all old keys exactly if it need not regrow or all of them come in again among the headers it applies |
| FitsHeaderRuns.MergeIntoEmpty | bin/andor2kd.cpp:110-113 | into an empty store the capacity makes no difference, and exactly the keys of the headers applied arrive, stopping at errors or not |
| FitsHeaderRuns.AppliedEndsAtFirstLoser | src/fits_header.cpp:99-110 | a merge into an empty store that stops at errors applies exactly the headers in front of the first one that is neither the first with its key nor of that one's known type |
| FitsHeaderRuns.OneTypeMergesCompletely | src/set_acquisition.cpp:160 | headers of one known type are all applied |
| FitsHeaderRuns.MergeReturns | src/fits_header.cpp:99-112 | a merge returns the number of headers if all are accepted; otherwise -1 if it stops at errors, and the negated number of the rejected ones if not |
| FitsHeaderRuns.NothingIsForgotten | src/fits_header.cpp:90-97 | as long as a store is offered no more headers than it was made for, no merge regrows it |
| FitsHeaderRuns.FoldConcat | src/fits_header.cpp:99-110 | applying two lists in turn is applying their concatenation |
| FitsHeaderRuns.DistinctArrive | src/fits_header.cpp:114-137 | of headers with distinct keys each is accepted or not as if it were the only one |
| FitsHeaderRuns.OwnHeaderArrivesExactlyWhen | src/fits_header.cpp:114-137 | on top of text headers a header ends up in the store exactly if it is a text or its key is new |
| CString.DecimalRoundTrip | src/fits_filenames.cpp:130 | reading printed digits gives the number back |
| CString.StrtolReadsDecimal | src/fits_filenames.cpp:112 | `strtol` reads what `sprintf` wrote and stops right behind it |
| CString.StrtolReads | src/fits_filenames.cpp:112 | of any text `strtol` reads white space, at most one sign and digits, stops behind them, saturates out of range, and reads nothing without a digit |
| CString.EveryTextHasParts | src/fits_filenames.cpp:112 | every text is made of such parts |
| CString.LeadingZero | src/fits_filenames.cpp:112 | leading zeros do not change a number |
| CString.ToInt32 | src/fits_filenames.cpp:112 | a `long` stored in an `int` keeps its value modulo 2^32 |
| FitsFilenames.NextIndexIsNext | src/fits_filenames.cpp:100-127 | the scan ends with max(1, 1 + largest matching index) |
| FitsFilenames.NextIndexIgnoresOrder | src/fits_filenames.cpp:104 | the order in which the directory is read does not matter |
| FitsFilenames.GeneratedNameMatches | src/fits_filenames.cpp:110-131 | a generated name is recognised by the scan, with its own index |
| FitsFilenames.MatchesExactlyWhen | src/fits_filenames.cpp:104-121 | any name is recognised exactly if the generic name is followed by a number and that by a dot, and its index is that number, with its sign |
| FitsFilenames.NextNameIsFresh | src/fits_filenames.cpp:73-135 | the name is not in the directory |
| FitsFilenames.NextIndexIncreases | src/fits_filenames.cpp:73-135 | saving under the name makes the next index larger by one |
| FitsFilenames.SavesNeverCollide | src/fits_filenames.cpp:73-135 | any number of saves under one prefix get consecutive indices and new, distinct names |
| FitsFilenames.SlashPrefixGetsIndexOne | src/fits_filenames.cpp:104-131 | under a generic name with '/' no entry ever matches, so the index is always 1 |
| FitsFilenames.ConsecutiveNamesDiffer | src/fits_filenames.cpp:89-134 | two saves in a row get different names exactly if the generic name has no '/' |
| FitsFilenames.MakeFitsFilename | src/fits_filenames.cpp:73-135 | the loop over the entries computes that name, or nothing without a directory or a date |
| ImageParameters.AndorParameters.constructor | src/andor2k.hpp:77-133 | the defaults |
| ImageParameters.Tokens | src/resolve_image_parameters.cpp:59-64 | tokens are not empty and have no spaces |
| ImageParameters.TokensOfWords | src/resolve_image_parameters.cpp:59-64 | the tokens of words with any spaces around them are exactly the words |
| ImageParameters.StandsForExactlyWhen | src/resolve_image_parameters.cpp:71-354 | a token stands for an option exactly if it starts with the option's name; the order of the comparisons does not matter |
| ImageCommands.OptionsOfItems | src/resolve_image_parameters.cpp:67-357 | a command of options with arguments and other words has exactly these options, in order; it is incomplete exactly if it ends in an option |
| ImageCommands.EveryCommandHasItems | src/resolve_image_parameters.cpp:67-357 | every command is made up so |
| ImageCommands.NumberTakenExactlyWhen | src/resolve_image_parameters.cpp:79-115 | a number is taken exactly if a digit follows white space and sign, and as a count only if positive; it is stored with its sign |
| ImageCommands.TextTakenExactlyWhen | src/resolve_image_parameters.cpp:218-328 | texts are taken up to 127, 31, 15 and 15 characters, and exposures that are numbers from zero on |
| ImageParameters.ReachedUpTo | src/resolve_image_parameters.cpp:67-357 | the options reached are those up to the first that is refused |
| ImageParameters.AndorParameters.StoreOption | src/resolve_image_parameters.cpp:69-354 | one option stores its argument, numbers even if it is then refused, and nothing else |
| ImageParameters.AndorParameters.StoreOptions | src/resolve_image_parameters.cpp:63-357 | all options up to the first refused one are stored, and the command goes on exactly if each has an argument that is taken |
| ImageParameters.AndorParameters.ResolveImageParameters | src/resolve_image_parameters.cpp:40-405 | status and parameters after the command |
| ImageCommands.StatusExactlyWhen | src/resolve_image_parameters.cpp:40-405 | the status of any command: 1 without "image" or with an option refused or cut off, 4 in another read-out mode; of the others 0 exactly if the last given or old values have bins other than 0, starts in [1, 2047], ends in [2, 2048] and no negative exposure, and 2 if not |
| ImageCommands.FullFrameIsAccepted | src/resolve_image_parameters.cpp:359-404 | "image" on the default region is accepted |
| ImageCommands.AcceptedSettings | src/resolve_image_parameters.cpp:359-404 | whatever was left before, an accepted command has nonzero bins, starts in [1, 2047], ends in [2, 2048], and, if it gave the number of images, that is one exactly in single-scan mode |
| ImageCommands.StoreSets | src/resolve_image_parameters.cpp:69-354 | a taken option sets the fields it is documented to set, to its argument, and no others |
| ImageCommands.AcceptedFields | src/resolve_image_parameters.cpp:63-357 | every field holds the last value an accepted command gave for it, or its old one |
| ImageCommands.ProperExposureExactlyWhen | src/resolve_image_parameters.cpp:312-390 | an accepted exposure is at least zero exactly if the command gave one or the old one was a number |
| ImageCommands.RejectedNumberStays | src/resolve_image_parameters.cpp:79-328 | a rejected command leaves its bad image count or exposure behind |
| ImageCommands.RejectedFields | src/resolve_image_parameters.cpp:67-357 | a rejected command leaves, of every field, the last value in front of the refused option, or that option's own if it is a number |
| ImageCommands.RepeatingChangesNothing | src/resolve_image_parameters.cpp:40-405 | giving an accepted command again is accepted and changes nothing |
| SetAcquisition.TruncDivBrackets | src/set_acquisition.cpp:127-128 | the truncating quotient brackets the dividend from the side of zero |
| SetAcquisition.Divide | src/set_acquisition.cpp:127-128 | division of two `int`s, of either sign |
| SetAcquisition.SizeOfPositiveBins | src/set_acquisition.cpp:124-135 | with a positive bin the size is the number of whole bins in the region |
| SetAcquisition.SizeFitsExactlyWhen | src/set_acquisition.cpp:124-136 | a size passes the check exactly for a positive bin no larger than the region, or a negative bin and a region reversed at least as far |
| SetAcquisition.ReversedRegionPasses | src/set_acquisition.cpp:124-136 | region 2000 to 1000 with bin -1 passes as 999 pixels |
| SetAcquisition.AcceptedGeometry | src/set_acquisition.cpp:124-136 | from an accepted command a buffer is only reached for 1 to 2048 pixels each way, at most 2^22 in all, which positive bins cover up to an incomplete one |
| SetupHeaders.Add | src/set_acquisition.cpp:193-198 | one more header is applied to the store, under its key as it is |
| SetupHeaders.AddSpeeds | src/set_acquisition.cpp:192-204 | the two speeds are applied, in order |
| SetupHeaders.AddJob | src/set_acquisition.cpp:220-308 | the nine headers of the job are applied, in order, with the parameters' values |
| SetupHeaders.HeadersAreCards | src/aristarchos.cpp:525-557 | the card splitter only yields texts under keys of eight characters |
| SetupHeaders.CardsMergeCompletely | src/set_acquisition.cpp:159-168 | cards are all applied to an empty store, and none is rejected |
| SetupHeaders.OwnHeadersArrive | src/set_acquisition.cpp:192-326 | on top of cards each of the daemon's headers ends up in the store, but the time correction exactly if no card has its key |
| SetupHeaders.CardsArrive | src/set_acquisition.cpp:159-326 | under the daemon's headers each card's key keeps the last value sent, except OBSERVER and INSTRUME, which hold the daemon's |
| SetAcquisition.MergeTelescope | src/set_acquisition.cpp:148-169 | the telescope's headers are merged if they were asked for and some have come; it fails exactly at a rejected one |
| SetAcquisition.AddRest | src/set_acquisition.cpp:206-326 | gain, job and temperature complete the daemon's headers |
| SetAcquisition.SetupAcquisition | src/set_acquisition.cpp:46-361 | status, headers in the store and, on success, a zeroed buffer of width times height, for every answer of the camera and every list from the telescope; the parameters stay |
| SetAcquisition.SetupSucceedsExactlyWhen | src/set_acquisition.cpp:46-361 | after an accepted command, with an empty store and cards, the merge never fails, and the setup succeeds exactly if the camera answers, the detector is the expected one and the bins fit the region |
| SetAcquisition.SetupFailsExactlyWhen | src/set_acquisition.cpp:46-221 | which failure gives 10, 1, 2 and 3, and what each leaves in the store |
| SetAcquisition.MergeFailsExactlyWhen | src/set_acquisition.cpp:148-169 | into an empty store the merge fails exactly if headers are asked for and one of them is neither the first with its key nor of that one's known type |
| SetAcquisition.MergedUpToLoser | src/set_acquisition.cpp:159-168 | and the headers in front of that one are in the store |
| SetAcquisition.OwnHeadersAfterSetup | src/set_acquisition.cpp:148-326 | after a successful setup each of the daemon's headers is in the store with its value, but TIMECORR exactly if the telescope has sent none |
| SetAcquisition.SpeedValues | src/set_acquisition.cpp:192-204 | after a successful setup HSSPEED holds the horizontal speed and VSSPEED the vertical one |
| SetAcquisition.JobValues | src/set_acquisition.cpp:224-308 | VBIN and HBIN hold the vertical and horizontal bin, EXPOSED and EXPTIME the exposure, OBSERVER, OBJECT and FILTER the observer's texts, INSTRUME the camera, and TIMECORR the correction if no card has that key |
| SetAcquisition.OptionalValues | src/set_acquisition.cpp:206-326 | GAIN is there exactly if the gain is at least 0, and CCDTEMP exactly if the temperature was stable |
| SetAcquisition.CardsAfterSetup | src/set_acquisition.cpp:148-326 | and each key of the telescope with the last value sent for it, but OBSERVER and INSTRUME with the daemon's |

## Left out

- The Andor SDK, cfitsio, bzip2, sockets, the clock and `strtod`: their answers are arbitrary parameters.
- `send_request_header_sequence`: an arbitrary reply for each try; its error flag is cleared on every path, so its own retries are not claimed.
- Reporter texts, time estimates, `exp2tick_every` and `adjust_timing`: messages are kept as kinds with their image number. The last message a bias frame's reporter prepares is never sent by the code, and so is not a message here.
- Data races on the plain `int` globals: each access is one atomic step. Closed descriptors reused by the system are not modelled either.
- Spurious `try_lock` failures are possible in every state, but are not counted in the bound of `WindingDownIsBounded`, and are no part of the run `CallReturns` gives.
- The kinetic scan, `src/cmd_parser.cpp`, cooling, shutdown and NTP code.
- `FitsFilenames.NextNameIsFresh`: assumes that no matching index reaches 2^31 - 1, where the code's counter overflows.
- `Cards.DecodedStrToHeader`: assumes what the code needs to stay inside its fields, namely no NUL inside a visited card and a first '/' in columns 16 to 42 or none at all. The 1000-card limit of the code has no effect, since its counter is never incremented.
- `FitsKeys.CpyChars`: assumes that key and comment fit their fields, as the code does.
- `Base64.Base64Decode`: buffer lengths are unbounded integers; 32-bit overflow for texts of more than 2^31 characters is not modelled.
- `Cdecode.DecodeState.DecodeBlock`: asks for room for all bytes a call can complete and the one in hand, which is what the code writes.
- `SetAcquisition.SetupAcquisition`: what the camera answers to the settings is arbitrary; which settings are sent (shutter, pre-amp gain, trigger) is left out. The time correction is an arbitrary number, its floating-point formula is not modelled. The texts are taken to fit the fields of a header. Without GCC the buffer is not zeroed.
- `strtok` and the copy of the command into a 1024-character buffer: tokens are computed on values, and the command is taken to fit.
- Rounding of exposures to `float`, and infinite exposures.
- `apply_headers` and `close` in `save_as_fits`: they change nothing the client or the directory shows.
