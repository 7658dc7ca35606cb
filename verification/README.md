# Robot stack: verified models

Dafny models of the robot stack's components whose guarantees run across loops and
whole runs, each proved against a specification of its own.

- **minIni** (`IniText`, `IniDocument`, `IniRewrite`, `IniMeaning`, `IniLayout`,
  `IniLines`, `IniInteger`, `MinIni`): the INI reader and the in-place writer as a lens
  over files. A file is a string; its document is the list of its non-blank lines
  without leading blanks. The character walks, line buffers and the rewriting loops of
  `MinIni` are proved against it; `IniMeaning` and `IniLayout` say in plain characters
  what is read and written.
- **CM730 serial protocol** (`Cm730Frame`, `Cm730Receive`, `Cm730Bulk`, `Cm730`,
  `Cm730Meaning`, `Cm730Access`, `PortArbitration`): frames and checksums,
  resynchronisation on the header in a noisy stream that arrives in arbitrary chunks,
  the bulk-read parser over a shifting buffer with its missing and damaged replies, the
  register calls end to end, and the three-level semaphores.
- **Gait** (`Gait`): the clock of `Walking` with its four windows and latched
  amplitudes, and the gait manager's start, step and stop.
- **Planner** (`Fsm`, `FsmMeaning`, `FsmFalls`, `FsmMirror`, `FsmClass`, `Planner`,
  `PlannerOrder`, `PlannerSteps`, `AgentBridge`): the plan-executing state machine with
  a log of everything the robot is made to do, what each command and sight makes it do,
  and the interleaving of the control thread with the bridge thread over the queue.
- **Ball vision** (`Morphology`, `ImageMorphology`, `ColorFinder`, `VisionManager`): the
  morphological opening, the colour conversion, the hue filter and the centroid, from
  camera bytes to the place of the ball.
- **Motion** (`MotionPlayback`, `MotionPlayer`, `JointFusion`, `Servo`): blocking and
  asynchronous keyframe playback, the fusion of module joints, the wire format, and the
  registers it leaves in the servos.
- **Matrix** (`MatrixInverse`): the optimised 4x4 inverse against the textbook
  determinant and product, and rigid transforms as turns and moves.

`Basics` holds the two types several of them share. Methods carry the imperative code;
the functions next to them say what it computes, and the lemmas prove what the code is
for. Doubles are modelled as `real`.

What the proofs found:

- `ini_puts` then `ini_gets` returns the value unless it has blanks at an edge that
  `check_enquote` does not quote: a leading blank, or a trailing blank other than a
  space. The condition of `PutGet` is exact.
- An entry that goes before the header of the next section is written without the cut
  of the line buffer, so a long one leaves a line the reader cannot hold; everywhere
  else the lines stay short. The condition of `PutFitsExactly` is exact.
- Erasing a key that a section holds twice leaves the second one readable.
- The bulk-read parser reports corruption when the last of several replies has an
  empty payload, because it stops when six bytes or fewer remain.
- A reply damaged on the way costs the bulk read only itself, but the read reports a
  timeout only when a single device was asked, nothing came, and a frame left over in
  the buffer from an earlier exchange passes for its reply (`IncompleteRead`).
- With a gait period of at most two time units a stop is honoured only if the
  amplitudes that the next checkpoint will see are zero (`WillRest`): at once or after
  the latching on the way there. With a fixed period of at most three the cycle skips a
  phase. The phase windows overlap exactly below 32 milliseconds (`WindowsApart`); order
  and stopping still hold above 24.
- The hue filter means the circular distance for tolerances below 180 and target hues
  from 0 to 360 or less than a tolerance beyond, and at tolerance 180 only for hue 180;
  `Faithful` lists all pairs, and target hue 400 with tolerance 15 is one that fails.
- Opening is not idempotent on every image that touches the border
  (`IdempotentExactly` says on which); opening twice equals opening the image with its
  border cleared.
- `Matrix3D::operator*` returns the identity plus the product.
- The state machine's run safety does not need the assumption that no command
  arrives during boot: a command simply ends it. Nor can one arrive then, because
  only the booted machine submits snapshots.
- The machine treats left and right alike except in a search that has not found its
  ball, which turns right, and in kicks whose side is open: a commanded kick that names
  none and a shot at a ball or goal exactly ahead go to the right foot. `ActMirrored`
  is exact.
- The remembered bearing of the goal (`GoalRemembered`, `DriveExactly`) moves to the left
  as commanded turns turn the body left, where a goal that stands still would move to
  the right in the picture; turning while tracking the ball is not counted at all.
- The blocking playback plays a page of zero repetitions not at all, the
  asynchronous one once; the asynchronous playback of a page with a link never
  reports its end.

## Model

| member | source | states |
|---|---|---|
| IniText.QuotingRoundTrip | libraries/robotis-op2/robotis/Framework/src/minIni/minIni.c:119-159 | for every text and any two capacities, dequoting what enquoting stored gives a prefix of the text, and the whole text when both capacities suffice |
| IniText.CutQuoted | libraries/robotis-op2/robotis/Framework/src/minIni/minIni.c:219-234 | the comment scan never stops inside a quoted value, whatever the value contains and whatever follows it |
| IniText.SameNameExactly | libraries/robotis-op2/robotis/Framework/src/minIni/minIni.c:181-207 | two names are the same if and only if they agree character by character, letters in either case |
| IniMeaning.OpensExactly | libraries/robotis-op2/robotis/Framework/src/minIni/minIni.c:170-182 | a header opens a section if and only if what stands between its brackets spells the name |
| IniMeaning.HasKeyExactly | libraries/robotis-op2/robotis/Framework/src/minIni/minIni.c:200-207 | a line answers to a key if and only if the text before its first =, or before the first : where there is no =, spells the key, blanks behind it aside |
| IniMeaning.PlainValueRead | libraries/robotis-op2/robotis/Framework/src/minIni/minIni.c:221-247 | whatever blanks surround a plain value and whatever comment follows it, the value between them is read, cut only by the caller's buffer |
| IniMeaning.VerbatimRead | libraries/robotis-op2/robotis/Framework/src/minIni/minIni.c:221-247 | quotes that do not enclose the whole value are read as they stand, and a lone quote as nothing |
| IniMeaning.QuotedValueRead | libraries/robotis-op2/robotis/Framework/src/minIni/minIni.c:119-159 | between two quotes blanks and comment characters count, and a quote behind a backslash or another quote is one quote |
| IniMeaning.EscapeExactly | libraries/robotis-op2/robotis/Framework/src/minIni/minIni.c:137-147 | the writer puts a backslash before each quote and changes nothing else |
| IniMeaning.EntryIsRead | libraries/robotis-op2/robotis/Framework/src/minIni/minIni.c:161-248 | a section and its first entry, in any case, with blanks around everything and a comment behind the value, read as that value, whatever follows in the file |
| IniMeaning.ReadAnyCase | libraries/robotis-op2/robotis/Framework/src/minIni/minIni.c:161-248 | a file gives the same value for every spelling of section and key |
| IniMeaning.RemarksIgnored | libraries/robotis-op2/robotis/Framework/src/minIni/minIni.c:207-207 | a line that begins with a comment character changes no lookup |
| IniMeaning.LookupAt | libraries/robotis-op2/robotis/Framework/src/minIni/minIni.c:161-248 | a lookup gives the value of the first line that holds the key in the first section of the name, and looks no further than the next header |
| IniMeaning.UpdateAt | libraries/robotis-op2/robotis/Framework/src/minIni/minIni.c:486-599 | a write replaces, removes or inserts exactly one line, at that place or before the next header or at the end, and keeps all others in order, comments included |
| IniMeaning.UpdateNowhere | libraries/robotis-op2/robotis/Framework/src/minIni/minIni.c:487-512 | a missing section is added at the end with its entry, and nothing is added for an erasure |
| IniDocument.WritableExactly | libraries/robotis-op2/robotis/Framework/src/minIni/minIni.c:369-380 | the writable values in plain terms: no blank at an edge, or a quote, a comment character or a space at the end |
| IniDocument.KeyLineParts | libraries/robotis-op2/robotis/Framework/src/minIni/minIni.c:397-410 | the line written for a key splits at the first separator into that key and its value, and answers to no other key |
| IniDocument.ReadBack | libraries/robotis-op2/robotis/Framework/src/minIni/minIni.c:224-246 | a value is read back from its own line exactly when it is writable: quoted by the writer, or free of blanks at the edges |
| IniDocument.UpdateThenLookup | libraries/robotis-op2/robotis/Framework/src/minIni/minIni.c:486-580 | on the list of meaningful lines, setting a key and looking it up gives the new line's value |
| IniDocument.UpdateKeepsOthers | libraries/robotis-op2/robotis/Framework/src/minIni/minIni.c:486-580 | on the list of meaningful lines, setting or erasing a key changes no other pair of section and key |
| IniDocument.EraseThenLookup | libraries/robotis-op2/robotis/Framework/src/minIni/minIni.c:486-580 | an erased key is gone exactly when its section held it at most once |
| IniRewrite.RewrittenIsUpdate | libraries/robotis-op2/robotis/Framework/src/minIni/minIni.c:478-599 | the line-by-line rewriting, with its blank-line removal, blank stripping and inserted separators, is the update of the list of meaningful lines |
| IniLayout.RewrittenLaidOut | libraries/robotis-op2/robotis/Framework/src/minIni/minIni.c:478-599 | the whole text of a rewritten file: each line without leading blanks, no blank lines but one before each header that is not first, the entry in its place or, appended, behind a blank line |
| IniRewrite.PutGet | libraries/robotis-op2/robotis/Framework/src/minIni/minIni.c:443-599 | PutGet on every existing or missing file and all write paths: the value is read back if and only if it is writable or the file already said it |
| IniRewrite.PutKeepsOthers | libraries/robotis-op2/robotis/Framework/src/minIni/minIni.c:443-599 | a write or an erasure leaves what is read for every other pair of section and key, in any buffer size |
| IniRewrite.GetPut | libraries/robotis-op2/robotis/Framework/src/minIni/minIni.c:464-476 | writing back a value just read leaves the file byte-identical |
| IniRewrite.PutTwice | libraries/robotis-op2/robotis/Framework/src/minIni/minIni.c:443-599 | writing the same writable value twice equals writing it once, byte for byte |
| IniRewrite.EraseGet | libraries/robotis-op2/robotis/Framework/src/minIni/minIni.c:443-599 | reading an erased key finds nothing if and only if the section held the key at most once |
| IniRewrite.PutKeepsLinesShort | libraries/robotis-op2/robotis/Framework/src/minIni/minIni.c:382-433 | the writer keeps every line within the buffer with which the reader reads it |
| IniLines.PutFitsExactly | libraries/robotis-op2/robotis/Framework/src/minIni/minIni.c:443-599 | after every write or erasure of a fitting file the lines fit again if and only if the entry did not go before a later header, or is short enough uncut, or the file already said it |
| IniLines.KeyTextShort | libraries/robotis-op2/robotis/Framework/src/minIni/minIni.c:397-410 | an entry written through the line buffer fits it whatever its length |
| IniLines.KeyTextCut | libraries/robotis-op2/robotis/Framework/src/minIni/minIni.c:397-410 | where an entry that is too long is cut: keys after 508 characters, plain lines after 509, quoted values after the longest part whose escaped text fits |
| IniLines.SectionTextCut | libraries/robotis-op2/robotis/Framework/src/minIni/minIni.c:382-395 | a section name is cut after 507 characters |
| IniLines.LongEntryOverflows | libraries/robotis-op2/robotis/Framework/src/minIni/minIni.c:560-570 | a value of 509 characters put before the header of a later section leaves a line that the reader's buffer cannot hold |
| IniRewrite.LookupClips | libraries/robotis-op2/robotis/Framework/src/minIni/minIni.c:119-159 | reading into a smaller buffer gives a prefix of what a larger one receives |
| MinIni.SaveStrncpy | libraries/robotis-op2/robotis/Framework/src/minIni/minIni.c:119-159 | the three copy modes store exactly the specified text, terminated, and touch no cell outside their range |
| MinIni.CommentStart | libraries/robotis-op2/robotis/Framework/src/minIni/minIni.c:219-234 | the walk over the line stops where the specified scan stops |
| MinIni.SeekSection | libraries/robotis-op2/robotis/Framework/src/minIni/minIni.c:170-195 | the first loop of the reader leaves the file behind the header, or at its end, with the lookup unchanged |
| MinIni.SeekKey | libraries/robotis-op2/robotis/Framework/src/minIni/minIni.c:197-248 | the second loop finds the first line of the section that holds the key and stores its value |
| MinIni.GetKeyString | libraries/robotis-op2/robotis/Framework/src/minIni/minIni.c:161-248 | the reader's two loops compute the lookup on the list of meaningful lines |
| MinIni.CheckEnquote | libraries/robotis-op2/robotis/Framework/src/minIni/minIni.c:369-380 | quotes are used exactly for values with a quote, a comment character or a trailing space |
| MinIni.WriteKey | libraries/robotis-op2/robotis/Framework/src/minIni/minIni.c:397-410 | the line buffer holds key, separator and stored value, cut where the buffer ends |
| MinIni.WriteQuoted | libraries/robotis-op2/robotis/Framework/src/minIni/minIni.c:412-433 | the unbuffered writer emits the same encoding of the value |
| MinIni.RewriteFile | libraries/robotis-op2/robotis/Framework/src/minIni/minIni.c:478-599 | the loops, flags and counters of the rewrite produce the specified text |
| MinIni.FileStore.Gets | libraries/robotis-op2/robotis/Framework/src/minIni/minIni.c:260-275 | the caller's buffer holds the value read, or the default cut to the buffer, and the length returned is its length |
| MinIni.FileStore.Puts | libraries/robotis-op2/robotis/Framework/src/minIni/minIni.c:443-599 | the named file becomes what Put specifies and no file other than it and the temporary one changes |
| IniInteger.DecimalRoundTrip | libraries/robotis-op2/robotis/Framework/src/minIni/minIni.c:604-632 | every long, the most negative one included, is the number read from its decimal text |
| IniInteger.DecimalShape | libraries/robotis-op2/robotis/Framework/src/minIni/minIni.c:616-632 | a sign exactly for negative numbers and no redundant leading zero |
| IniInteger.NumeralExactly | libraries/robotis-op2/robotis/Framework/src/minIni/minIni.c:616-632 | the last digit written is the one for the remainder by ten |
| IniInteger.NumberRead | libraries/robotis-op2/robotis/Framework/src/minIni/minIni.c:285-290 | white space, a sign and leading zeros in front of a number and anything behind it are accepted, and numbers beyond a long saturate |
| IniInteger.StrReverse | libraries/robotis-op2/robotis/Framework/src/minIni/minIni.c:604-614 | the in-place reversal reverses the text and keeps the other cells |
| IniInteger.Long2Str | libraries/robotis-op2/robotis/Framework/src/minIni/minIni.c:616-632 | the digit loop and the reversal leave the decimal text in the buffer |
| IniInteger.PutLongReadLong | libraries/robotis-op2/robotis/Framework/src/minIni/minIni.c:285-290 | after ini_putl of a number ini_getl returns it, whatever the file and the default were |
| IniInteger.LongOfText | libraries/robotis-op2/robotis/Framework/src/minIni/minIni.c:285-290 | a missing or empty value gives the default, any other the number it begins with |
| Cm730Frame.CalculateChecksum | libraries/robotis-op2/robotis/Framework/src/CM730.cpp:383-389 | the wrapping byte loop computes the complemented sum of the covered bytes |
| Cm730Frame.ChecksumCompletes | libraries/robotis-op2/robotis/Framework/src/CM730.cpp:383-389 | the covered bytes and the checksum add up to 255 modulo 256 |
| Cm730Frame.WellFormedExactly | libraries/robotis-op2/robotis/Framework/src/CM730.cpp:186-204 | a frame is two bytes 255, a length byte that counts what follows it, and from the id on a sum of 255 modulo 256 |
| Cm730Frame.SealedIsWellFormed | libraries/robotis-op2/robotis/Framework/src/CM730.cpp:80-86 | every transmitted packet with a length byte of at least one passes the receiver's checksum test |
| Cm730Frame.ScanSkipsNoHeader | libraries/robotis-op2/robotis/Framework/src/CM730.cpp:178-184 | the header search skips no header: nothing before its result is one, and a result inside the data is one or a last byte that may begin one |
| Cm730Frame.WordRoundTrip | libraries/robotis-op2/robotis/Framework/src/CM730.cpp:790-813 | splitting a word into two bytes and joining them keeps its low sixteen bits, negative numbers included |
| Cm730Frame.WordExactly | libraries/robotis-op2/robotis/Framework/src/CM730.cpp:790-799 | a word is its low byte and 256 times its high byte |
| Cm730Receive.Port.ReadPort | libraries/robotis-op2/robotis/Framework/src/CM730.cpp:166-172 | a chunk of the stream lands behind what was received, of a size the port chooses |
| Cm730Receive.ReceiveOne | libraries/robotis-op2/robotis/Framework/src/CM730.cpp:155-238 | for every chunking the dropped bytes begin no header, a full buffer is the window at the first header of the stream, and success means its last byte is the checksum |
| Cm730Receive.NoiseBeforeFrame | libraries/robotis-op2/robotis/Framework/src/CM730.cpp:176-204 | a frame is the first header behind noise if and only if the noise holds no header and does not end in a header byte |
| Cm730Receive.CleanReplyAccepted | libraries/robotis-op2/robotis/Framework/src/CM730.cpp:186-204 | a well-formed reply behind such noise is what the full buffer holds, and it passes the test |
| Cm730Receive.SuccessIsFrame | libraries/robotis-op2/robotis/Framework/src/CM730.cpp:186-204 | an accepted window is a well-formed frame if and only if its length byte fits the expected length |
| Cm730Bulk.ParseStream | libraries/robotis-op2/robotis/Framework/src/CM730.cpp:281-328 | the parse of a concatenation of well-formed frames stores them all, with success if and only if there is a single reply or the last payload is not empty |
| Cm730Bulk.ParseReplies | libraries/robotis-op2/robotis/Framework/src/CM730.cpp:262-328 | the same for fewer replies than were asked for: all are stored, and the read is corrupt |
| Cm730Meaning.DamagedReplySkipped | libraries/robotis-op2/robotis/Framework/src/CM730.cpp:262-328 | a reply damaged on the way costs only itself: those in front of it and behind it are stored, and the read is corrupt |
| Cm730Bulk.ParseOutcome | libraries/robotis-op2/robotis/Framework/src/CM730.cpp:281-328 | on every buffer the parse ends and keeps the outcome of the reception or turns it into corruption |
| Cm730Bulk.AcceptEach | libraries/robotis-op2/robotis/Framework/src/CM730.cpp:297-305 | among replies of distinct devices each device ends with exactly its own payload and error byte |
| Cm730Bulk.BulkReadCorrect | libraries/robotis-op2/robotis/Framework/src/CM730.cpp:281-328 | success, every payload in its device's table, every error byte stored, every other cell of every table unchanged |
| Cm730Bulk.StoreFrame | libraries/robotis-op2/robotis/Framework/src/CM730.cpp:297-305 | the inner copy writes the payload at the start address of the device the frame names |
| Cm730Bulk.ParseLoop | libraries/robotis-op2/robotis/Framework/src/CM730.cpp:281-328 | the nested in-place loops over the shifting buffer compute the specified parse and terminate on every buffer, with a measure on the remaining length |
| Cm730.AnswerLength | libraries/robotis-op2/robotis/Framework/src/CM730.cpp:214-227 | the replies to the requests take exactly the bytes the receiver waits for |
| Cm730.BulkExchangeCorrect | libraries/robotis-op2/robotis/Framework/src/CM730.cpp:212-328 | from request packet to tables: distinct devices that all answer give success, each payload at the address its request names, all other cells and devices as before |
| Cm730Meaning.MakeBulkReadPacket | libraries/robotis-op2/robotis/Framework/src/CM730.cpp:391-435 | the packet asks exactly the boards that answered their ping, three bytes each |
| Cm730Meaning.RequestsAsSent | libraries/robotis-op2/robotis/Framework/src/CM730.cpp:214-227 | the length, id and address bytes of such a packet are read out as they were put in |
| Cm730Meaning.RequestedExactly | libraries/robotis-op2/robotis/Framework/src/CM730.cpp:217-260 | before any answer the asked devices have their request and the mark of no answer on record, and no other record changes |
| Cm730Meaning.SilentDevice | libraries/robotis-op2/robotis/Framework/src/CM730.cpp:212-328 | a device that does not answer keeps the mark of no answer and its table, and the read is corrupt |
| Cm730Meaning.IncompleteRead | libraries/robotis-op2/robotis/Framework/src/CM730.cpp:234-328 | with bytes missing at the deadline the read is corrupt; a timeout is reported only for a single request, nothing received, and a stale frame left in the buffer |
| Cm730Access.Ping | libraries/robotis-op2/robotis/Framework/src/CM730.cpp:628-646 | the ping packet leaves byte for byte, and the device's error byte comes back behind any noise, unless sending or the deadline fails |
| Cm730Access.ReadTable | libraries/robotis-op2/robotis/Framework/src/CM730.cpp:695-719 | the request leaves byte for byte, and the device's registers land at their addresses in the table and nowhere else |
| Cm730Access.ReadWord | libraries/robotis-op2/robotis/Framework/src/CM730.cpp:671-693 | the value is the device's two registers, the low byte first |
| Cm730Access.WriteWord | libraries/robotis-op2/robotis/Framework/src/CM730.cpp:743-764 | the word leaves as two bytes, the low one first, and the device's error byte comes back |
| Cm730.SyncOnWire | libraries/robotis-op2/robotis/Framework/src/CM730.cpp:450-463 | the synchronous-write packet byte for byte, with its sum |
| Cm730.Controller.ReceiveAll | libraries/robotis-op2/robotis/Framework/src/CM730.cpp:234-259 | for every chunking either all bytes arrive in order or the deadline has passed |
| Cm730.Controller.BulkExchange | libraries/robotis-op2/robotis/Framework/src/CM730.cpp:212-328 | the bulk-read branch updates the device records and the outcome as specified |
| Cm730.Controller.TxRxPacket | libraries/robotis-op2/robotis/Framework/src/CM730.cpp:81-346 | what leaves has a header and a sum of 255 modulo 256; a broadcast gets no answer, a unicast packet one resynchronised reply whose bytes received and last byte decide the outcome exactly, a bulk read its parse |
| Cm730.Controller.SyncWrite | libraries/robotis-op2/robotis/Framework/src/CM730.cpp:450-463 | exactly the sealed synchronous-write packet leaves, or the part the port accepts |
| PortArbitration.MutualExclusion | libraries/robotis-op2/robotis/Framework/src/CM730.cpp:75-79 | in every run of any number of threads at most one is between acquire and release of the port |
| PortArbitration.OneContender | libraries/robotis-op2/robotis/Framework/src/CM730.cpp:75-79 | at most one thread of priority 1 or 2 waits for or holds the high semaphore |
| PortArbitration.ReleasesItsOwn | libraries/robotis-op2/robotis/Framework/src/CM730.cpp:374-378 | every release gives back a semaphore the releasing thread took and nobody else holds |
| PortArbitration.AllReturnedAllFree | libraries/robotis-op2/robotis/Framework/src/CM730.cpp:374-378 | once all calls have returned every semaphore is free |
| PortArbitration.NoDeadlock | libraries/robotis-op2/robotis/Framework/src/CM730.cpp:75-79 | in every reachable state with a call in progress some call can go on |
| PortArbitration.CallsComplete | libraries/robotis-op2/robotis/Framework/src/CM730.cpp:75-378 | without new calls every interleaving ends all calls after exactly as many steps as they have operations left |
| PortArbitration.CallExactly | libraries/robotis-op2/robotis/Framework/src/CM730.cpp:73-79 | a call with the port to itself takes low, middle and high semaphore as far as its priority says, and gives them back the other way round |
| Gait.RunSound | libraries/robotis-op2/robotis/Framework/src/motion/modules/Walking.cpp:362-409 | over every run of ticks, starts, stops and parameter writes with periods above three time units the clock stays in the interval of its phase |
| Gait.RestIsSafe | libraries/robotis-op2/robotis/Framework/src/motion/modules/Walking.cpp:366-400 | running is false only at time 0 or half a period, with all three latched move amplitudes zero |
| Gait.StopEnds | libraries/managers/src/RobotisOp2GaitManager.cpp:126-130 | from every reachable state the stop loop ends after at most half of the running period, half of the period set, each in ticks, and two more |
| Gait.StopEndsExactly | libraries/managers/src/RobotisOp2GaitManager.cpp:126-130 | a stop requested at any time of the period, with any positive periods, is honoured if and only if the period set exceeds two time units or the next checkpoint will find nothing latched |
| Gait.StopInRun | libraries/managers/src/RobotisOp2GaitManager.cpp:126-130 | the same for a stop requested at any point of any run from Initialize whose periods are positive |
| Gait.StopNeverComes | libraries/managers/src/RobotisOp2GaitManager.cpp:126-130 | a run with the period shortened from 32 to 10 milliseconds after which the stop loop never ends |
| Gait.PhaseOrder | libraries/robotis-op2/robotis/Framework/src/motion/modules/Walking.cpp:362-409 | from every sound state, however parameters are written and the gait is started and stopped between the ticks, the i-th window entered before it rests is the i-th from the next phase on in the order 0, 1, 2, 3 |
| Gait.PhasesOfRun | libraries/robotis-op2/robotis/Framework/src/motion/modules/Walking.cpp:362-409 | the same at every point of every run from Initialize at which the gait is running, with a stop pending or not |
| Gait.FirstWalk | libraries/robotis-op2/robotis/Framework/src/motion/modules/Walking.cpp:303-341 | started from Initialize the gait enters 0, 1, 2, 3, 0 and so on |
| Gait.WindowsRecur | libraries/robotis-op2/robotis/Framework/src/motion/modules/Walking.cpp:362-409 | while the gait runs, with a stop pending or not, no more than a quarter period and one tick passes without a window |
| Gait.OrderExactly | libraries/robotis-op2/robotis/Framework/src/motion/modules/Walking.cpp:362-409 | with a fixed period the cycles are in order if and only if the period exceeds three time units |
| Gait.AmplitudesHold | libraries/robotis-op2/robotis/Framework/src/motion/modules/Walking.cpp:382-408 | in every run the latched amplitudes stay the same until phase 1 or 3 is entered, whatever is written, started or stopped |
| Gait.LatchedAsWritten | libraries/robotis-op2/robotis/Framework/src/motion/modules/Walking.cpp:254-290 | a tick in window 1 or 3 latches the command last written: forward in full, sideways half, half the angle in radians, the other way round when aiming |
| Gait.PeriodHolds | libraries/robotis-op2/robotis/Framework/src/motion/modules/Walking.cpp:225-243 | in every run the period in use stays the same until phase 0 or 2 is entered |
| Gait.TimingAsWritten | libraries/robotis-op2/robotis/Framework/src/motion/modules/Walking.cpp:366-400 | a tick in window 0 or 2 takes the period last written, and window 2 sets the clock to half of it |
| Gait.WindowExactly | libraries/robotis-op2/robotis/Framework/src/motion/modules/Walking.cpp:366-408 | with a period of 32 or more the windows are time zero and the eight milliseconds around each quarter, their first ends included |
| Gait.FirstHalf | libraries/robotis-op2/robotis/Framework/src/motion/modules/Walking.cpp:529-534 | from time zero the clock shows eight milliseconds a tick up to the window around half the period |
| Gait.SecondHalf | libraries/robotis-op2/robotis/Framework/src/motion/modules/Walking.cpp:529-534 | from there it goes on from half the period and is back at zero once the period is full |
| Gait.WalksUntilStopped | libraries/robotis-op2/robotis/Framework/src/motion/modules/Walking.cpp:332-341 | a started gait keeps running until it is told to stop, whatever is written and ticked |
| Gait.WindowsApart | libraries/robotis-op2/robotis/Framework/src/motion/modules/Walking.cpp:382-404 | the four windows overlap at some time of the period if and only if it is shorter than 32 milliseconds |
| Gait.Walking.UpdateParamTime | libraries/robotis-op2/robotis/Framework/src/motion/modules/Walking.cpp:225-243 | the phase times are the quarters of the period, whatever the double support ratio |
| Gait.Walking.UpdateParamMove | libraries/robotis-op2/robotis/Framework/src/motion/modules/Walking.cpp:254-290 | the latched amplitudes are the public ones: forward in full, sideways half, and half the angle in radians, the other way round when aiming |
| Gait.Walking.Initialize | libraries/robotis-op2/robotis/Framework/src/motion/modules/Walking.cpp:303-330 | the state the runs start from |
| Gait.Walking.Process | libraries/robotis-op2/robotis/Framework/src/motion/modules/Walking.cpp:362-545 | one call is one tick of the clock, whether or not the inverse kinematics has a solution, which only decides about the joints |
| Gait.GaitManager.Step | libraries/managers/src/RobotisOp2GaitManager.cpp:82-124 | below eight milliseconds nothing; else the amplitudes are copied while walking and one tick follows for each full unit |
| Gait.GaitManager.Stop | libraries/managers/src/RobotisOp2GaitManager.cpp:126-130 | the loop runs until the first tick after which the gait rests, whenever there is one; from every sound state that is within the bound and at a checkpoint with nothing latched |
| Fsm.EachPlanOnce | controllers/soccerv3/fsm.py:759-781 | in every log of allowed events kicks and celebrations, and prefetches, each use up a plan of their own |
| Fsm.OnePrefetchPerPlan | controllers/soccerv3/fsm.py:260-290 | between two prefetches another plan is taken |
| Fsm.StepInv | controllers/soccerv3/fsm.py:197-297 | one step keeps machine and log in agreement: every event allowed, the plan the one in force, as many plans taken as commands drained |
| Fsm.ActInv | controllers/soccerv3/fsm.py:300-339 | every action keeps the invariant: moving only under a live plan, one-shot actions ending it |
| Fsm.RunIsSafe | controllers/soccerv3/fsm.py:197-297 | over every run, whenever commands arrive: no plan means booting or idle, every movement comes before the deadline of the plan in force, one-shot actions and prefetches never outnumber the commands |
| Fsm.ActionsInTime | controllers/soccerv3/fsm.py:246-297 | in every run every action of every state, poses and stops included, runs before the deadline of the plan held, or is standing still for want of one |
| FsmMeaning.CommandObeyed | controllers/soccerv3/fsm.py:445-501 | in the step that takes it a command moves the body as its name says: forward, back, sideways, turning left or right, or not at all |
| FsmMeaning.PlanLasts | controllers/soccerv3/fsm.py:127-136 | the motion is repeated in every calm step for as long as the command says, three seconds by default and half a second at least, and in the first step after that the body stands still |
| FsmMeaning.PlanDropped | controllers/soccerv3/fsm.py:250-263 | at its deadline a plan is dropped; a head that was tracking is levelled, any other keeps its pose |
| FsmMeaning.ChaseExactly | controllers/soccerv3/fsm.py:541-598 | a lost ball ends the chase, a ball beyond 0.65 is kicked with the left foot exactly when it lies to the left, and otherwise the body walks and turns to the side on which the ball has been |
| FsmMeaning.DriveExactly | controllers/soccerv3/fsm.py:600-680 | driving kicks by the goal, less than 0.5 to either side, or without one by the ball, and turns towards the goal as well |
| FsmMeaning.FindExactly | controllers/soccerv3/fsm.py:503-539 | the search turns right and sweeps until the ball is seen |
| FsmMeaning.KickExactly | controllers/soccerv3/fsm.py:331-333 | a commanded kick is played at once, with the left foot exactly when the command says left |
| FsmMeaning.CelebrateExactly | controllers/soccerv3/fsm.py:724-733 | a celebration is played at once and ends its plan |
| FsmMeaning.LookExactly | controllers/soccerv3/fsm.py:700-722 | a look points head and neck where its direction says, within the motors' limits |
| FsmMeaning.GoalRemembered | controllers/soccerv3/fsm.py:342-367 | the last sight of the goal is remembered, with the turns of commands and of the search since |
| FsmMeaning.BootExactly | controllers/soccerv3/fsm.py:369-403 | boot is over exactly when thirty-one simulation steps succeed |
| FsmMeaning.AsksExactly | controllers/soccerv3/fsm.py:265-297 | a plan is asked for exactly when the bridge grants it and there is none, or the one in force has at most three seconds left and none was asked for during it |
| FsmFalls.GetsUpAfterFall | controllers/soccerv3/fsm.py:406-441 | in every run the robot gets up only after twenty-one samples in a row beyond the same edge of the dead zone, in that direction |
| FsmFalls.FallSeen | controllers/soccerv3/fsm.py:406-441 | and after twenty-one such samples it does |
| FsmMirror.FindMirrored | controllers/soccerv3/fsm.py:503-539 | the search treats both sides alike if and only if it has found the ball |
| FsmMirror.ChaseMirrored | controllers/soccerv3/fsm.py:541-598 | chasing treats both sides alike if and only if it does not kick a ball exactly ahead |
| FsmMirror.DriveMirrored | controllers/soccerv3/fsm.py:600-680 | driving treats both sides alike if and only if it does not kick with the goal, or without a goal the ball, exactly ahead |
| FsmMirror.CommandedKickMirrored | controllers/soccerv3/fsm.py:331-333 | a commanded kick treats both sides alike if and only if its plan names the side |
| FsmMirror.ActMirrored | controllers/soccerv3/fsm.py:300-339 | acting in the mirror is the mirror image of acting if and only if the guard of the state's action holds; for poses, walking and turning always |
| FsmMirror.StepMirrored | controllers/soccerv3/fsm.py:197-297 | a whole step is mirrored if and only if it ends before its action or the action treats both sides alike |
| FsmMirror.SearchTurnsRight | controllers/soccerv3/fsm.py:530-538 | a search that has not found its ball turns right in the mirror too |
| FsmMirror.CentredBallGoesRight | controllers/soccerv3/fsm.py:594-598 | a booted machine told to chase, with the ball at its feet and exactly ahead, kicks with the right foot in the mirror too |
| FsmClass.FSM.constructor | controllers/soccerv3/fsm.py:147-188 | a new machine is in the state from which run safety holds |
| FsmClass.FSM.TakeCommands | controllers/soccerv3/fsm.py:200-213 | the drained commands are taken in order, the last one wins |
| FsmClass.FSM.DoBoot | controllers/soccerv3/fsm.py:369-403 | the greeting ends boot only when all its simulation steps succeed |
| FsmClass.FSM.UpdateFallCounters | controllers/soccerv3/fsm.py:406-416 | the counters of consecutive samples outside the dead zone decide about a fall |
| FsmClass.FSM.HandleFall | controllers/soccerv3/fsm.py:418-441 | recovery drops the plan, levels the head and resets the counter that fired |
| FsmClass.FSM.ExpirePlan | controllers/soccerv3/fsm.py:250-263 | a plan at its deadline is dropped and a tracking head goes back to the horizon |
| FsmClass.FSM.DoLook | controllers/soccerv3/fsm.py:700-722 | the preset pose is clamped to the motor limits and the body stands still |
| FsmClass.FSM.DoFindBall | controllers/soccerv3/fsm.py:503-539 | the search ends when the ball is seen, and turns and sweeps otherwise |
| FsmClass.FSM.DoChaseBall | controllers/soccerv3/fsm.py:541-598 | tracking, pace and kick as specified; a lost ball ends the plan |
| FsmClass.FSM.DoDriveToGoal | controllers/soccerv3/fsm.py:600-680 | the goal seen or remembered biases the turn and decides whether and with which foot to kick |
| FsmClass.FSM.Kick | controllers/soccerv3/fsm.py:759-781 | one kick, and plan, state, integrators and head targets are reset |
| FsmClass.FSM.ApplyState | controllers/soccerv3/fsm.py:300-333 | each state runs its own action |
| FsmClass.FSM.Step | controllers/soccerv3/fsm.py:197-297 | the whole step in its order: drain, goal memory, boot, falls, expiry, request, action; and after it the log is still one in which every event was allowed |
| Planner.Protocol | controllers/soccerv3/agent_bridge.py:189-205 | in every interleaving at most one chat is in flight, at most two plans are queued, and accepted snapshots equal plans drained, plans queued, chats not yet posted and chats without a plan |
| Planner.MotionIsPaidFor | controllers/soccerv3/agent_bridge.py:403-417 | in every interleaving kicks and celebrations, and prefetches, never outnumber accepted snapshots, and no chat or command exists before boot is over |
| Planner.BusOfTwo | controllers/soccerv3/mcp_server.py:46-56 | the bound of two queued plans is reached |
| PlannerOrder.NothingLost | controllers/soccerv3/mcp_server.py:46-56 | in every interleaving the plans the machine took, the commands in the control thread's hands and those queued are together the commands posted, in order |
| PlannerSteps.OneStep | controllers/soccerv3/fsm.py:197-297 | from rest to rest the control thread's atomic steps make exactly one step of the machine, on the commands drained in between and with the bridge's answer, whatever the bridge thread does meanwhile |
| Planner.EventInv | controllers/soccerv3/fsm.py:276-288 | every atomic step of either thread keeps the invariant of the whole system |
| AgentBridge.CommandBus.Drain | controllers/soccerv3/mcp_server.py:49-56 | draining returns everything queued in order and leaves the queue empty |
| AgentBridge.Bridge.SubmitSnapshot | controllers/soccerv3/agent_bridge.py:189-201 | the flag is tested and set at once: a chat starts exactly when the bridge is ready, not stopped and free |
| AgentBridge.Bridge.ChatOnce | controllers/soccerv3/agent_bridge.py:396-417 | the plan is queued before the flag is cleared |
| Morphology.OpenInBlock | libraries/robotis-op2/robotis/Framework/src/vision/ImgProcess.cpp:109-184 | a pixel survives the opening if and only if it is off the border and lies in a full 3x3 block of the image centred off the border |
| Morphology.OpenShrinks | libraries/robotis-op2/robotis/Framework/src/vision/ImgProcess.cpp:109-184 | the opening is a subset of the image without its border |
| Morphology.OpenMonotone | libraries/robotis-op2/robotis/Framework/src/vision/ImgProcess.cpp:109-184 | a larger image has a larger opening |
| Morphology.OpenTwice | libraries/robotis-op2/robotis/Framework/src/vision/ImgProcess.cpp:109-184 | opening twice is opening the image with its border cleared |
| Morphology.IdempotentExactly | libraries/robotis-op2/robotis/Framework/src/vision/ImgProcess.cpp:109-184 | opening is idempotent on an image if and only if every inner pixel in a full block also lies in a full block that avoids the border |
| Morphology.IdempotentInside | libraries/robotis-op2/robotis/Framework/src/vision/ImgProcess.cpp:109-184 | opening is idempotent on images whose border is background |
| Morphology.CornerBlock | libraries/robotis-op2/robotis/Framework/src/vision/ImgProcess.cpp:109-184 | a block in the corner survives one opening and not two |
| ImageMorphology.Erosion | libraries/robotis-op2/robotis/Framework/src/vision/ImgProcess.cpp:109-135 | the nested loops over the zeroed copy leave the conjunction of each inner block and zero on the border |
| ImageMorphology.Dilation | libraries/robotis-op2/robotis/Framework/src/vision/ImgProcess.cpp:158-184 | the nested loops leave the disjunction of each inner block and zero on the border |
| ImageMorphology.ErodedPixels | libraries/robotis-op2/robotis/Framework/src/vision/ImgProcess.cpp:109-135 | eroding the bytes erodes the pixel set of every bit |
| ImageMorphology.DilatedPixels | libraries/robotis-op2/robotis/Framework/src/vision/ImgProcess.cpp:158-184 | dilating the bytes dilates the pixel set of every bit |
| ImageMorphology.Opening | libraries/robotis-op2/robotis/Framework/src/vision/ColorFinder.cpp:167-168 | erosion then dilation in place is the opening of every bit's pixel set |
| ColorFinder.HsvRange | libraries/robotis-op2/robotis/Framework/src/vision/ImgProcess.cpp:254-291 | hue in 0..359 or the marker, saturation and value in 0..100; the marker exactly for grey pixels, which have neither |
| ColorFinder.HueRotates | libraries/robotis-op2/robotis/Framework/src/vision/ImgProcess.cpp:277-284 | moving the channels one place on turns the hue by 120 degrees and changes nothing else |
| ColorFinder.HueMirrors | libraries/robotis-op2/robotis/Framework/src/vision/ImgProcess.cpp:277-284 | exchanging green and blue mirrors the hue and changes nothing else |
| ColorFinder.HueOfReds | libraries/robotis-op2/robotis/Framework/src/vision/ImgProcess.cpp:277-284 | from red to yellow the hue is the exact one rounded down |
| ColorFinder.ValueAndSaturation | libraries/robotis-op2/robotis/Framework/src/vision/ImgProcess.cpp:254-291 | value and saturation are the percentages of the largest channel and of the spread in it, rounded down |
| ColorFinder.CircularExactly | libraries/robotis-op2/robotis/Framework/src/vision/ColorFinder.cpp:74-110 | the circular distance is the least way round |
| ColorFinder.BGRAtoHSV | libraries/robotis-op2/robotis/Framework/src/vision/ImgProcess.cpp:247-301 | every pixel of the image is converted and stored in its four bytes |
| ColorFinder.FilterExactly | libraries/robotis-op2/robotis/Framework/src/vision/ColorFinder.cpp:74-110 | for every integer target hue and tolerance: the window test is the circular distance below the tolerance, on all hue words, if and only if the pair is faithful: below 180 the hues 0 to 360 and those less than a tolerance beyond |
| ColorFinder.FarHueGoesWrong | libraries/robotis-op2/robotis/Framework/src/vision/ColorFinder.cpp:74-110 | target hue 400 with tolerance 15 selects a red forty degrees away |
| ColorFinder.PipelineSelects | libraries/robotis-op2/robotis/Framework/src/vision/ColorFinder.cpp:66-113 | with a minimum saturation above zero and a faithful target, exactly the coloured pixels in range whose circular hue distance is below the tolerance are selected |
| ColorFinder.ColorFinder.Filtering | libraries/robotis-op2/robotis/Framework/src/vision/ColorFinder.cpp:66-113 | the loop writes 1 exactly for the selected pixels and 0 elsewhere |
| ColorFinder.ColorFinder.Accumulate | libraries/robotis-op2/robotis/Framework/src/vision/ColorFinder.cpp:170-181 | the nested loops count the set pixels and sum their columns and rows |
| ColorFinder.CentroidInside | libraries/robotis-op2/robotis/Framework/src/vision/ColorFinder.cpp:183-192 | with a non-negative minimum percentage a centroid lies in columns 1 to w-2 and rows 1 to h-2 |
| ColorFinder.CentroidIsMean | libraries/robotis-op2/robotis/Framework/src/vision/ColorFinder.cpp:183-192 | a place is found exactly when the number of lit pixels lies in the two percentages, and it is the mean of their places, rounded down |
| VisionManager.FilteredAreWanted | libraries/robotis-op2/robotis/Framework/src/vision/ColorFinder.cpp:66-113 | with a minimum saturation above zero and a faithful target the filtered pixels of a camera image are the coloured ones near enough in hue |
| VisionManager.GetBallCenter | libraries/managers/src/RobotisOp2VisionManager.cpp:32-52 | from camera bytes to the ball: the mean of the opened set of filtered pixels, or nothing when they are out of proportion |
| ColorFinder.ColorFinder.GetPosition | libraries/robotis-op2/robotis/Framework/src/vision/ColorFinder.cpp:161-195 | the result is the mean of the set pixels of the opened selection, off the border, when their number lies in the two percentages, and nothing otherwise |
| MotionPlayback.AheadIsLinear | libraries/managers/src/RobotisOp2MotionManager.cpp:270-277 | after j of n ticks a motor is at start + (target - start) * j / n |
| MotionPlayback.ClampedIsAhead | libraries/managers/src/RobotisOp2MotionManager.cpp:230-235 | between limits that hold start and target the clamp never interferes |
| MotionPlayback.ClampedArrives | libraries/managers/src/RobotisOp2MotionManager.cpp:229-239 | from anywhere every clamped command is within the limits and the last is the clamped target |
| MotionPlayback.TicksInterpolate | libraries/managers/src/RobotisOp2MotionManager.cpp:270-277 | within a keyframe the asynchronous step moves every motor in proportion to the ticks done |
| MotionPlayback.KeyframePlayed | libraries/managers/src/RobotisOp2MotionManager.cpp:269-293 | the calls of one keyframe: for its time the motors move in equal parts to its positions, then they stay there for its pause |
| MotionPlayback.StepCounts | libraries/managers/src/RobotisOp2MotionManager.cpp:269-299 | every call takes exactly one off the calls left, and playing ends with the last |
| MotionPlayback.PlaybackLength | libraries/managers/src/RobotisOp2MotionManager.cpp:247-299 | a page without a link plays for exactly max(1, repeat) times the sum over its keyframes of max(1, 8 * time / step) and 8 * pause / step, and one call more |
| MotionPlayback.KeyframesReached | libraries/managers/src/RobotisOp2MotionManager.cpp:269-299 | every keyframe is reached before the next is loaded, and the last one when the page is over |
| MotionPlayback.LinkedNeverEnds | libraries/managers/src/RobotisOp2MotionManager.cpp:294-297 | a page with a link is never reported as finished |
| MotionPlayer.RobotisOp2MotionManager.AchieveTarget | libraries/managers/src/RobotisOp2MotionManager.cpp:210-239 | time / step commands, all within the limits, each where the specification says, the last one the clamped target |
| MotionPlayer.RobotisOp2MotionManager.PlayPage | libraries/managers/src/RobotisOp2MotionManager.cpp:167-184 | a chain of pages that ends issues the commands of its pages, repetitions and keyframes in order and no others, all within the limits |
| MotionPlayer.KeyframePosesExactly | libraries/managers/src/RobotisOp2MotionManager.cpp:210-239 | the commands of one keyframe: within the limits, equal parts of the way, the last as near to the keyframe's position as the limits let it be |
| MotionPlayer.RobotisOp2MotionManager.PlayAsync | libraries/managers/src/RobotisOp2MotionManager.cpp:247-267 | playback begins at the sensed pose, before the first keyframe |
| MotionPlayer.RobotisOp2MotionManager.Step | libraries/managers/src/RobotisOp2MotionManager.cpp:269-299 | the recursive step terminates, by repetitions left and keyframes left, and computes the specified machine |
| JointFusion.LastEnablingWins | libraries/robotis-op2/robotis/Framework/src/motion/MotionManager.cpp:266-283 | a joint takes the clamped value and the gains of the last registered module that enables it |
| JointFusion.UnclaimedStays | libraries/robotis-op2/robotis/Framework/src/motion/MotionManager.cpp:266-283 | a joint no module enables keeps everything it had |
| JointFusion.EnabledInOrder | libraries/robotis-op2/robotis/Framework/src/motion/MotionManager.cpp:288-303 | the joints sent are exactly the enabled ones, in increasing order of their ids |
| JointFusion.OrdersDecode | libraries/robotis-op2/robotis/Framework/src/motion/MotionManager.cpp:285-308 | the packet passes the checksum test, starts at the register and with the length that it names, and decodes to exactly the enabled joints in id order, with their gains and value plus offset as a 16-bit word |
| Servo.ServosObey | libraries/robotis-op2/robotis/Framework/src/motion/MotionManager.cpp:285-308 | every servo that hears the packet and whose joint is enabled ends with its gains and its position word in their registers, and no other register of any servo changes |
| JointFusion.ExclusiveOwnership | libraries/robotis-op2/robotis/Framework/src/motion/JointData.cpp:36-42 | after an exclusive enable the module is the only registered owner, and single ownership lasts until a module is added or enabled without exclusion |
| JointFusion.AddingEndsOwnership | libraries/robotis-op2/robotis/Framework/src/motion/MotionManager.cpp:341-345 | adding a module that enables the joint ends single ownership |
| JointFusion.JointData.SetEnable | libraries/robotis-op2/robotis/Framework/src/motion/JointData.cpp:31-42 | exactly the owners change as specified, and nothing but the enable flags of that joint |
| JointFusion.JointData.SetValue | libraries/robotis-op2/robotis/Framework/src/motion/JointData.cpp:160-169 | the value is clamped to the servo's range |
| JointFusion.MotionManager.SetJointDisable | libraries/robotis-op2/robotis/Framework/src/motion/MotionManager.cpp:352-359 | every registered module lets go of the joint and nothing else changes |
| JointFusion.MotionManager.FuseModules | libraries/robotis-op2/robotis/Framework/src/motion/MotionManager.cpp:266-283 | the nested loops compute the fusion in the order of registration |
| JointFusion.MotionManager.PackJoints | libraries/robotis-op2/robotis/Framework/src/motion/MotionManager.cpp:285-303 | the packing loop lays down seven parameters for each enabled joint |
| JointFusion.MotionManager.Process | libraries/robotis-op2/robotis/Framework/src/motion/MotionManager.cpp:241-308 | one cycle of a calibrated and enabled manager fuses all modules and sends one packet, or none when no joint is enabled; any other cycle does neither |
| MatrixInverse.AdjugateProduct | libraries/robotis-op2/robotis/Framework/src/math/Matrix.cpp:50-126 | a matrix times the matrix of the optimised cofactors is its determinant times the identity |
| MatrixInverse.FirstColumn | libraries/robotis-op2/robotis/Framework/src/math/Matrix.cpp:109-110 | the four products the source adds up are the textbook determinant |
| MatrixInverse.Matrix3D.Inverse | libraries/robotis-op2/robotis/Framework/src/math/Matrix.cpp:50-126 | true exactly when the determinant is not zero; then old times new is the identity; on false the matrix is unchanged |
| MatrixInverse.RigidDeterminant | libraries/robotis-op2/robotis/Framework/src/math/Matrix.cpp:206-228 | a transform of any point and any cosine-sine pairs on the unit circle has determinant one |
| MatrixInverse.RigidIsComposed | libraries/robotis-op2/robotis/Framework/src/math/Matrix.cpp:206-228 | the transform turns about x, then y, then z, and then moves |
| MatrixInverse.ProductExactly | libraries/robotis-op2/robotis/Framework/src/math/Matrix.cpp:244-257 | the textbook product, element by element |
| MatrixInverse.Matrix3D.SetTransform | libraries/robotis-op2/robotis/Framework/src/math/Matrix.cpp:206-228 | the elements are those of the rigid transform |
| MatrixInverse.Matrix3D.Times | libraries/robotis-op2/robotis/Framework/src/math/Matrix.cpp:244-257 | the operator returns the identity plus the textbook product |
| MatrixInverse.TimesIsNotProduct | libraries/robotis-op2/robotis/Framework/src/math/Matrix.cpp:244-257 | so it never returns the textbook product |
| MatrixInverse.Matrix3D.TimesAssign | libraries/robotis-op2/robotis/Framework/src/math/Matrix.cpp:237-242 | the assigning operator stores the same sum |

## Left out

- MinIni.GetKeyString: lookups by index, which `ini_getsection` and `ini_getkey` make.
- minIni: `ini_getd` and `ini_putd`, null keys, browsing; they rest on null comparisons or floating-point formatting.
- minIni: characters are 7-bit and files hold no NUL; every line fits the 512-character buffer (`LinesFit`); when the writer keeps it so is what `PutFitsExactly` says. A null section is the empty section.
- minIni: the reader's line buffer is a string value whose truncations are slices; the writer's line buffer and all copies into it are arrays.
- IniLayout.RewrittenLaidOut: for a value that is set in a file whose last line is terminated; of erasures only `RewrittenIsUpdate` and `UpdateAt` speak.
- MinIni.FileStore.Puts: the temporary name, the file name with its last character replaced by a tilde, is assumed to differ from the file's own name; failing to open the output file is modelled, failing to remove or rename is not.
- IniInteger.PutLongReadLong: `strtol` in base 10 is modelled with saturation; other bases are not.
- CM730: the port is an oracle that delivers a stream in chunks and whose deadline passes when its polls are used up; negative results of `ReadPort`, clearing the port and debug output are not modelled.
- Cm730Bulk.StoreFrame: a write beyond a device's table or to a device number of 254 or more has no effect, where the source would write outside its arrays.
- Cm730.Controller.TxRxPacket: stands behind the semaphores, which PortArbitration models on their own; a bulk-read packet must name existing devices and expect fewer bytes than the receive buffer holds, and the length byte must be at least 2.
- Cm730.Controller.SyncWrite: at most 251 parameter bytes; beyond, the length byte of the source wraps around.
- CM730: the calls for single bytes and for writing a table, which differ from those modelled in the number of registers; the second bulk-read packet, power and the start-up settings.
- Cm730Access.ReadTable: from the first to the last address at most 255 registers; for 256 the length byte of the source wraps around to zero.
- Servo.ServosObey: a servo stores what it hears at once; the servos' own limits and the registers' meaning inside the servo are not modelled.
- PortArbitration: threads are anonymous and scheduling is unfair; starvation of a low priority is possible and nothing is stated about it.
- Gait: trigonometry, inverse kinematics (an oracle that succeeds or fails), balance, arm swing, the swap and height amplitudes, sensors, and the variant of the gait manager compiled for the robot itself, where a timer thread calls Process.
- Gait.GaitManager.Stop: is called only where the loop ends; where it never does, which StopEndsExactly says exactly, the source hangs and a terminating method cannot say so.
- Gait.Walking.UpdateParamMove: the swap, height and shift amplitudes derived beside the three move amplitudes.
- Gait.Walking.Process: the foot end points and joint angles; the joint values are the oracle's.
- Planner: the text protocol with the agent, the extraction of a plan from an answer (a plan or none), start-up and shutdown of the event loop; any chat may fail at any moment.
- Planner.Protocol: nothing is stated about plans put on the queue by anyone but the chats.
- Fsm: lights, speech, world-state publishing, camera images, motion pages and the head motors' commands; the sine of the search sweep is an input. Time stands still within a step.
- FsmClass.FSM.Step: an exception inside the drain block of the source, which it swallows, is not modelled.
- Vision: the test of single pixels after a detection, two-image erosion and dilation, RGB and YUV conversion and flips, integer overflow of the coordinate sums on images beyond two billion pixel columns.
- ColorFinder.ColorFinder.GetPosition: needs a non-negative minimum percentage; with a negative one and no selected pixel the source divides zero by zero.
- Motion: loading page files, enabling sensors, waiting on the simulation clock, and the variant for the robot itself.
- MotionPlayer.RobotisOp2MotionManager.PlayPage: the chain of links must end; a cyclic chain plays for ever in the source.
- MotionPlayer.RobotisOp2MotionManager.AchieveTarget: each motor's lower limit must not exceed its upper one, as the source asserts.
- JointFusion: how the gyroscope is calibrated, fall detection, logging and the bulk read at the end of the cycle; one array of records stands for the parallel arrays of JointData, and angles are not stored.
- JointFusion.MotionManager.Process: what a module does to its own joints in a cycle is an input; modules do not change each other's joints while they run.
- MatrixInverse: angles are given by their cosines and sines; rounding, so a determinant that is tiny instead of zero, is not modelled.
- Vectors and points, the ball tracker and follower, head limits, the walking parameters' INI section and the demonstration controllers: no guarantee modelled here depends on them; the ball positions they use are inputs.
