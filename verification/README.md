# A verified model of the COM5003 PCB server's stateful core

The COM5003 server drives one measuring board: it keeps calibration curves for every range of every
channel, stores them in a flash chip and in XML files, lets network clients subscribe to value changes, and
switches the board between two measuring modes. This project models these four parts in Dafny and proves what
they promise, over all inputs and over all runs. `dafny verify dfyconfig.toml` checks everything.

| files | part |
|---|---|
| `Polynomial.dfy`, `JustData.dfy` | a calibration curve: nodes, discovered order, computed coefficients, evaluation |
| `QtText.dfy`, `Decimal.dfy`, `JustText.dfy` | the text form of a curve |
| `Wrappers.dfy`, `QtArg.dfy`, `Utf8.dfy`, `DataStream.dfy`, `Board.dfy`, `RecordTag.dfy`, `Calibration.dfy` | place markers, texts as bytes, the binary stream, the board's channels and ranges, the record tags, the records |
| `VersionPrint.dfy`, `VersionGate.dfy`, `FlashStore.dfy`, `FlashGates.dfy`, `XmlStore.dfy`, `XmlGates.dfy`, `AdjStatus.dfy` | the version text, the gate that compares it, the flash image and what is made of any flash contents, the XML document and what is made of any document, the reported status |
| `Notifier.dfy`, `NotifierRuns.dfy`, `NotifierEffects.dfy` | subscriptions: the server object, what holds over runs, what peers and clients see |
| `Resource.dfy`, `SenseMode.dfy`, `SenseModeRuns.dfy`, `SenseModeSafety.dfy`, `SenseEffects.dfy`, `SenseRanges.dfy`, `RealBoard.dfy` | message numbers and acknowledgements, the mode change, what holds over runs, replies and labels, the range tables, the real names |

How it is put together: what the code does step by step is a method of a class, or a method over arrays, that
is proved equal to a function of the old state; what the program promises is proved about these functions, for
all inputs or for every sequence of events.

Where a promise does not hold without a condition, the condition is proved exact and an input that breaks the
promise is given:

- The order of a curve is found by comparing neighbouring arguments only. That does not make the arguments
  pairwise distinct, and without that the equations have no unique answer (`CurveDeterminedIffDistinct`,
  `NeighbourTestMissesRepeat`).
- The checksum element of the XML document is written in hexadecimal and read as a decimal number, so importing
  an exported document leaves the checksum at zero (`XmlRoundTrip`).
- The version text and the record tags are printed by filling in the place markers of a format one after the other.
  A field that has a marker of its own, such as a PCB version "A%3", is filled in too. A field is safe in its place
  exactly when its markers, if it has any, are numbered above the format's (`InertNeededIff`); with such fields the
  version gate is exact (`GatePassesIff`), and without, it can refuse what it is there to let pass
  (`MarkerRefused`), and different boards can print the same text (`PrintedAlike`).
- Identifying texts are stored as C strings and read back as UTF-8: one survives exactly when it has no NUL and does
  not start with a byte order mark (`KeptIff`, `FlashRoundTripIff`, `MarkAndNulLost`). Record tags are stored as
  Latin-1 and read back as UTF-8: a range's record finds its range again exactly when the names are 7-bit, free of
  NUL and colons, and printed as they are (`RecordFindsItsRangeIff`). The names the board really has are like that
  (`ConstructedNamesGood`); that an umlaut or a marker in a name would lose the range's data is hypothetical
  (`UmlautLost`, `MarkerLost`).
- If the number formatter drops the sign of zeros, a second export differs from the first exactly where a negative
  value rounds to zero (`SecondExportSame`, `SecondDocumentSameIff`, `LostSign`).
- A registration whose query raises no notifier stays queued and captures somebody else's later query, also
  after its peer has gone: closing a peer silences it exactly when nothing of it was queued (`ClosedPeerQuietIff`,
  `StaleEntryIsCaptured`, `ClosedPeerIsSentTo`).
- A registration whose query fails after raising notifiers serves the waiting ones early, and is harmless exactly when
  it raised nothing (`FailedRegistrationHarmlessIff`). Registrations are conserved exactly as long as none of these
  raised more notifiers than registrations were waiting (`ConservedIffUnbroken`, `BrokenIffOverdrawn`); one that did
  is active without ever having been acknowledged (`FailedButActive`).
- The mode change is safe, its mode published only after both its batches are acknowledged, exactly as long as the
  registration of all resources at startup does not arrive while the machine waits (`TwoPhaseSafetyIff`). The server
  listens before it is connected to the resource manager, so a mode command can come first; then the startup
  registration takes the place of what is outstanding (`WaitsForOwnIff`), and the mode is published without a single
  acknowledged unregister command (`StartupMisleads`).
- A broadcast acknowledgement is claimed by two outstanding commands exactly when their numbers were drawn a
  multiple of 2^32-1 apart (`ClaimedTwiceIff`, `RoundClaimedTwice`).
- Availability of ranges is kept by toggling. When mode commands arrive while the machine runs, it fits the mode at
  the next rest exactly when their number is even (`AvailabilityFitsIff`, `OverlapMisleads`).
- Channel modes, units and descriptions are set by the last reconfiguration. At rest they fit the mode exactly when
  the number of mode changes since then is even (`ConfigurationFitsIff`, `LateCommandMisleads`). Acknowledged range
  commands publish what they name exactly when the channel measures AC or the number of overlapping commands before
  the last reconfiguration is even (`PublishesAsNamedIff`, `OverlapCollapsesName`).
- A channel starts with a listed range name unless the controller is in AC mode and its range code cannot be read
  or is unknown (`InitialNameListedIff`, `UnknownCodeMisleads`).

Assumptions. A text is a sequence of Unicode characters without lone surrogates. A curve is computed over the reals.
In the binary store a double is eight opaque bytes; in the text form it is a sign and a real magnitude, so that
negative zero exists; a tie rounds to the even digit. A calibration node is two doubles, correction first, written
as two terminated fields (its class is not part of this model). The CRC is an arbitrary function of the bytes. The
solver for the calibration equations is known only by its contract: coefficients with the highest power first that
solve the system when the system has one solution. Popping the queue of registrations while it is empty is undefined
in the source; the model leaves the queue empty and notes it, and what the theorems say of a run after that is the
model's choice. What the controller, the flash chip, the file system and the SCPI parser answer are parameters.
Where the header comment of a curve gives the highest power first (`src/justdata.h:56`) and the code stores the
constant term first, the model follows the code. In the XML import two pointers are declared inside the loop that is
meant to carry them; the model lets the channel pointer keep its value from child to child of one channel and
reports a fault when a pointer is followed that no Name element has set.

## Model

| member | source | states |
|---|---|---|
| Polynomial.EvalAppend | src/justdata.cpp:403-414 | one round of the evaluation with a running power adds exactly the next term of the polynomial |
| Polynomial.ManyRootsZero | src/justdata.cpp:363-379 | a polynomial with n coefficients that vanishes at n distinct arguments is zero |
| Polynomial.SolutionUnique | src/justdata.cpp:363-379 | pairwise distinct arguments leave the equation solver one possible answer |
| Polynomial.NewtonSolves | src/justdata.cpp:363-379 | pairwise distinct arguments always have an answer, so the solver's contract can be met |
| Polynomial.SolvableUniquelyIffDistinct | src/justdata.cpp:363-379 | the equations determine their answer if and only if the arguments are pairwise distinct |
| JustData.JustData.SetNode | src/justdata.cpp:308-318 | a node goes to its place and every later one, earlier ones stay; an index beyond the order changes nothing and is refused |
| JustData.JustData.SetCoefficient | src/justdata.cpp:326-338 | a coefficient is stored, every later one is cleared, earlier ones stay |
| JustData.JustData.EffectiveOrder | src/justdata.cpp:352-361 | the order in use is the first index whose successor's argument is nearer than epsilon, or the last one |
| JustData.JustData.WriteBack | src/justdata.cpp:377-382 | through the setter that clears, the solver's answer arrives complete, in reverse order, with zeros above |
| JustData.JustData.CmpCoefficients | src/justdata.cpp:347-386 | coefficients above the order in use are zero, and the curve meets every node in use when their arguments are pairwise distinct |
| JustData.JustData.InitJustData | src/justdata.cpp:395-400 | afterwards the curve has the initial value at every argument and the status is zero |
| JustData.JustData.constructor | src/justdata.cpp:18-25 | a new curve of any order has the initial value at every argument |
| JustData.JustData.GetCorrection | src/justdata.cpp:403-414 | the loop computes the value of the stored polynomial at the argument |
| JustData.JustData.Calibrate | src/justdata.cpp:308-414 | nodes set in order, computed and read: with ascending arguments the correction read at each is the one set |
| JustData.SolveVandermonde | src/justdata.cpp:363-379 | the contract of the unseen solver: as many coefficients as nodes, highest power first, a solution when the arguments are distinct |
| JustData.FeedOrder | src/justdata.cpp:308-361 | after setting nodes 0..k in ascending order from any state the discovered order is k if and only if no two neighbours are nearer than epsilon |
| JustData.CurveThroughFedNodes | src/justdata.cpp:308-386 | nodes set in order with ascending arguments and then computed give a curve through exactly those nodes, zero above, and no other coefficient array does |
| JustData.CurveDeterminedIffDistinct | src/justdata.cpp:347-386 | for any nodes there is one and only one curve of the order in use through the nodes in use if and only if their arguments are pairwise distinct |
| JustData.NeighbourTestMissesRepeat | src/justdata.cpp:355-360 | three nodes accepted with order two that no curve can meet |
| QtText.SectionTerminated | src/justdata.cpp:292-305 | field i of a terminated list is the i-th field, and two neighbouring fields come back joined |
| QtText.ReplaceOnce | src/adjustment.cpp:196-204 | a text that occurs in one place only is replaced there and nowhere else |
| Decimal.FixedRoundTrip | src/justdata.cpp:265-297 | a value written with d decimals reads back on the grid, within half a unit, with its sign; unchanged when it was on the grid |
| Decimal.SecondTextSame | src/justdata.cpp:265-297 | writing the value read back gives the same text if and only if no sign of a zero is lost |
| JustText.SerializeCoefficients | src/justdata.cpp:265-272 | the text is one terminated field per coefficient, in order |
| JustText.SerializeNodes | src/justdata.cpp:275-282 | the text is two terminated fields per node, correction then argument, in order |
| JustText.DeserializeCoefficients | src/justdata.cpp:292-297 | coefficient i is read from field i, for every array length |
| JustText.DeserializeNodes | src/justdata.cpp:300-305 | node i is read from fields 2i and 2i+1, for every array length |
| JustText.TextRoundTrip | src/justdata.cpp:258-305 | reading an exported curve rereads every value on its own and in its own place, for every order; the status comes back exactly |
| JustText.StatusRead | src/justdata.cpp:285-289 | the status reads as the low byte of a number, and as zero from any other text |
| JustText.TextRoundTripOnGrid | src/justdata.cpp:258-305 | import after export is the identity for values on the 12-digit and 8-digit grids |
| JustText.SecondExportSame | src/justdata.cpp:258-305 | a second export gives the same three texts if and only if no negative value loses its sign by rounding to zero |
| JustText.LostSign | src/justdata.cpp:258-305 | a curve whose second text differs |
| DataStream.CTextRead | src/adjustment.cpp:48-54 | a C string is written with its NUL and read back without it: what comes back is the text up to its first NUL and without a leading byte order mark, and exactly the bytes that follow are left |
| Utf8.KeptIff | src/adjustment.cpp:48-54 | what comes back of a C string is the text if and only if it has no NUL and no leading byte order mark |
| Utf8.MarkAndNulLost | src/adjustment.cpp:48-54 | a leading mark is dropped, a text with a NUL is cut off there |
| DataStream.ArrayTextRead | src/scpi-interfaces/senseinterface.cpp:306-311 | a byte array is written without a NUL and leaves exactly the bytes that follow; the same reader gives the text back if and only if it is 7-bit and free of NUL |
| Calibration.PayloadRead | src/com5003justdata.cpp:233-246 | three curves written gain, phase, offset are read back the same, leaving exactly the bytes that follow |
| Calibration.CurveLayout | src/justdata.cpp:236-246 | a curve is 97 bytes: the status, then the coefficients, then the nodes, each at its place |
| Calibration.PayloadLayout | src/com5003justdata.cpp:233-238 | gain, phase and offset follow each other |
| DataStream.WordsCutShort | src/justdata.cpp:248-255 | from a stream cut short what is missing reads as zero and nothing is left |
| Calibration.CurveCutShort | src/justdata.cpp:248-255 | from a stream that ends early nothing is left and what is missing is zero |
| DataStream.TextCutShort | src/adjustment.cpp:160-235 | a text cut short anywhere reads as no text and leaves nothing |
| RecordTag.TagFields | src/scpi-interfaces/senseinterface.cpp:306-309 | what the chained filling in of markers makes of the three fields of a tag, for all names |
| RecordTag.MarkerTag | src/scpi-interfaces/senseinterface.cpp:306-309 | a channel named "%3" is tagged with its range twice |
| RecordTag.TagFramed | src/scpi-interfaces/senseinterface.cpp:269-294 | whatever NUL-free names were printed, the tag read back is a sense tag of at least three fields |
| RecordTag.RecoveredIff | src/scpi-interfaces/senseinterface.cpp:269-311 | both names come back in their fields if and only if they are 7-bit, free of NUL and colons, and printed as they are |
| Calibration.RecordsConsumed | src/adjustment.cpp:232-244 | every sense record with NUL-free names consumes its own payload and no more, known or unknown, so a run of records has the effect of those whose tags, as read back, are known |
| Calibration.StrangeTagStops | src/adjustment.cpp:239-243 | whatever follows the records, if its first text is no sense tag, be it foreign, empty or garbled, the import ends there with exactly the preceding records applied |
| Calibration.MalformedIff | src/scpi-interfaces/senseinterface.cpp:269-286 | a tag is followed out of its fields if and only if it is a sense tag with nothing after it, or with a known channel and no range |
| Calibration.MalformedFaults | src/scpi-interfaces/senseinterface.cpp:269-286 | such a tag ends the import in a fault with exactly the preceding records applied |
| Calibration.RecordFindsItsRangeIff | src/scpi-interfaces/senseinterface.cpp:269-315 | a range's record finds its range again if and only if both names are 7-bit, free of NUL and colons, and printed as they are |
| Calibration.UmlautLost | src/scpi-interfaces/senseinterface.cpp:302-311 | a channel name with an umlaut: the exported data does not come back |
| Calibration.MarkerLost | src/scpi-interfaces/senseinterface.cpp:302-311 | a channel named "%3": the exported data does not come back |
| RealBoard.ConstructedNamesGood | src/scpi-interfaces/senseinterface.cpp:28-112 | the names of the constructed channels and ranges are distinct and come back in record tags |
| Calibration.RecordRoundTrip | src/scpi-interfaces/senseinterface.cpp:269-315 | an exported record stream read into any state of the same channels and ranges restores every status, coefficient and node and uses up every byte |
| VersionGate.GraftLca | src/adjustment.cpp:192-197 | the first surgery rewrites what follows the LCA dot and nothing else of the version text |
| VersionGate.GraftCtrl | src/adjustment.cpp:199-204 | the second surgery rewrites what follows the CTRL dot and nothing else of the version text |
| VersionPrint.ArgOnFields | src/systeminfo.cpp:33-37 | filling in an argument fills in the lowest marker of all four fields, in each field on its own |
| VersionPrint.PrintedPlainly | src/systeminfo.cpp:31-39 | fields whose markers are numbered above the format's are printed as they are; the last field may hold any |
| VersionPrint.InertNeededIff | src/systeminfo.cpp:31-39 | in the first, second and third field alike a text is printed as it is next to empty fields if and only if its markers are numbered above the format's |
| VersionPrint.PrintedInjective | src/systeminfo.cpp:31-39 | equal version texts come from equal fields, when these are printed as they are |
| VersionPrint.PrintedAlike | src/systeminfo.cpp:31-39 | two boards with different fields and one version text |
| VersionGate.GatePassesIff | src/adjustment.cpp:185-214 | a stored version passes if and only if device name, PCB version and both major versions agree, when the fields are printed as they are; only what follows the dots may differ |
| VersionGate.MarkerRefused | src/adjustment.cpp:185-214 | two boards with PCB version "A%3" that differ in the minor LCA version only: the gate refuses |
| FlashStore.Adjustment.ExportAdjData | src/scpi-interfaces/senseinterface.cpp:297-315 | the nested loops append one record per range of every channel, in order, behind what was there |
| FlashStore.Adjustment.ImportAdjData | src/scpi-interfaces/senseinterface.cpp:269-294 | a sense tag takes one payload off the stream and changes the range it names, if there is one, and no other; a foreign tag takes nothing |
| FlashStore.Adjustment.ImportLoop | src/adjustment.cpp:232-246 | the record loop ends and has the effect of the record function |
| FlashStore.Adjustment.ImportGated | src/adjustment.cpp:151-246 | verdict, calibration and status once marker and device name are checked, in this order |
| FlashStore.Adjustment.ImportIdentified | src/adjustment.cpp:178-246 | a wrong version or serial number ends the import at once, or with write access leaves its bit and lets the records in |
| FlashStore.Adjustment.ImportJDataFlash | src/adjustment.cpp:97-247 | verdict, calibration, checksum and status are a function of flash contents, chip answers, board identity and write access |
| FlashStore.Adjustment.Seal | src/adjustment.cpp:58-78 | the overwritten header ends with the length and the sum of the image taken with a zero sum |
| FlashStore.Adjustment.ExportJDataFlash | src/adjustment.cpp:33-93 | true if and only if the whole image was written and fits; then the chip starts with the image and the rest is kept, and when it reads back completely, calibration is unchanged, no status bit is set and the checksum is the image's |
| FlashStore.HeaderRebuilt | src/adjustment.cpp:131-149 | the header rebuilt at import with a zero checksum is byte for byte the one summed at export, and length and sum read back |
| FlashStore.ImageImported | src/adjustment.cpp:97-247 | any board sees the exporting board's texts as far as C strings hold them and, if it passes them, ends with exactly the exported calibration |
| FlashStore.FlashRoundTripIff | src/adjustment.cpp:33-247 | on the same board importing an exported image succeeds, uses up all bytes, restores everything and sets no status bit, if and only if C strings hold the device name and the serial number and the version passes as far as one holds it |
| FlashStore.FlashRoundTrip | src/adjustment.cpp:33-247 | it does whenever C strings hold all three texts |
| FlashStore.ImageAcceptedIff | src/adjustment.cpp:169-227 | an image is taken if and only if the device name agrees and, without write access, PCB version, both majors and serial number too; what was let pass is in the status |
| FlashStore.RefusedKeepsCalibration | src/adjustment.cpp:97-227 | an import refused for length, reading, checksum, header, name, version or serial number leaves the calibration alone; without write access an accepted one sets no bit |
| FlashGates.HeaderDecided | src/adjustment.cpp:97-149 | for any flash contents and chip answers: a header passes if and only if both reads are complete, the length in its first four bytes fits, and the bytes, with zeros for the sum, have the sum stored; each refusal has its own exact condition |
| FlashGates.OnlyIntactImported | src/adjustment.cpp:97-247 | an import that succeeds or changes anything has read an intact, marked image of this device and, without write access, of this version and serial number |
| FlashGates.RefusedByHeader | src/adjustment.cpp:97-149 | refused as too long, unreadable or with a bad sum if and only if the bytes say so |
| FlashGates.RefusedByTexts | src/adjustment.cpp:160-227 | refused for marker, name, version or serial number if and only if that is the first of the four that fails |
| FlashGates.ImportLeaves | src/adjustment.cpp:97-247 | the records of an admitted image are applied to the calibration, those of any other are not read; the stored sum is kept once it is read |
| FlashGates.ImportNotes | src/adjustment.cpp:185-227 | the status has exactly the bits of what was compared and differs, also when the import is refused for it |
| FlashStore.ReportedAfterImport | src/adjustment.cpp:475-489 | after any import, whatever the flash held, the reported status is below 8, bit 0 is clear if and only if every correction left is adjusted, bits 1 and 2 are those the import noted |
| XmlStore.XmlAdjustment.ImportJDataXML | src/adjustment.cpp:316-443 | verdict, calibration and checksum are a function of the document and the board identity |
| XmlStore.XmlAdjustment.ImportAdjustment | src/adjustment.cpp:413-432 | every child of the Adjustment element must be claimed by one of the two participants |
| XmlStore.ImportIsGated | src/adjustment.cpp:347-443 | when an import changes anything, matching version and serial number, a date and a time stand before the first Adjustment element, so before every one that can have changed it |
| XmlGates.ImportAcceptedIff | src/adjustment.cpp:316-443 | a document is accepted if and only if it is read, has the right type, no other version or serial number than the board's, every Adjustment after all four elements and no child of it without an owner; only a fault comes between |
| XmlGates.NamesFirstNoFault | src/scpi-interfaces/senseinterface.cpp:405-497 | where names come first no pointer is followed that is not set |
| XmlGates.NamelessFaults | src/scpi-interfaces/senseinterface.cpp:405-497 | a range element ahead of its channel's name, or one that does not start with its own, is a fault |
| XmlGates.UnknownChannelSkipped | src/scpi-interfaces/senseinterface.cpp:405-497 | a channel element with an unknown name writes nothing |
| XmlGates.UnknownRangeSkipped | src/scpi-interfaces/senseinterface.cpp:405-497 | a range element with an unknown name writes nothing |
| XmlGates.HexTextIs | src/adjustment.cpp:299-302 | the checksum is written in lower-case hexadecimal without leading zeros |
| XmlGates.ChecksumRead | src/adjustment.cpp:451-460 | a decimal number reads as its low 16 bits, one beyond 31 bits as zero |
| XmlGates.ExportedElements | src/adjustment.cpp:258-313 | the elements of an exported document in order, with their texts |
| XmlStore.XmlRoundTrip | src/scpi-interfaces/senseinterface.cpp:318-497 | importing an exported document on the same board rereads every value in its place, and leaves the checksum zero |
| XmlStore.XmlIdentityOnGrid | src/scpi-interfaces/senseinterface.cpp:318-497 | for a calibration on the 12-digit and 8-digit grids importing the exported document restores it exactly |
| XmlStore.SecondDocumentSameIff | src/scpi-interfaces/senseinterface.cpp:318-497 | exporting what the import of a first export left gives the same calibration elements if and only if no negative value on the board loses its sign by rounding to zero |
| AdjStatus.AndBits | src/com5003justdata.cpp:249-253 | a bit of a conjunction is set if and only if it is set in both |
| AdjStatus.GetChannelStatus | src/sensechannel.cpp:148-154 | the loop folds the status of any number of ranges |
| AdjStatus.GetSenseStatus | src/scpi-interfaces/senseinterface.cpp:213-220 | the loops fold the status of any number of channels |
| AdjStatus.SenseBit | src/scpi-interfaces/senseinterface.cpp:213-220 | bit 7 of the fold is set if and only if it is set in all three corrections of every range of every channel |
| AdjStatus.ReportedBits | src/adjustment.cpp:475-489 | the reported status is three independent bits: missing adjustment somewhere, wrong version, wrong serial number |
| FlashStore.Adjustment.GetAdjustmentStatus | src/adjustment.cpp:475-489 | the device status is the one these bits are proved about |
| Notifier.PcbServer.EstablishNewNotifier | src/pcbserver.cpp:405-415 | a raised notifier goes to the oldest waiting registration and has one connection afterwards; nothing changes when none waits |
| Notifier.PcbServer.RegisterNotifier | src/pcbserver.cpp:248-287 | queues the requester, executes the query, drops the last queued entry when it fails; acknowledged if and only if found and executed |
| Notifier.PcbServer.RemoveMatching | src/pcbserver.cpp:304-319 | the backward removal loop leaves exactly the entries that do not match, in their order |
| Notifier.PcbServer.UnregisterNotifier | src/pcbserver.cpp:290-301 | only the bare command unregisters and is acknowledged |
| Notifier.PcbServer.PeerConnectionClosed | src/pcbserver.cpp:463-467 | the close handler runs once for every registration the peer ever made |
| Notifier.PcbServer.AsyncHandler | src/pcbserver.cpp:418-461 | one message per matching entry, in order, each with its own peer, client and id although the message object is reused |
| Notifier.PcbServer.ValueChanged | src/pcbserver.cpp:413-461 | the handler runs once per live connection |
| Notifier.PcbServer.Handle | src/pcbserver.cpp:248-467 | any event takes the server to the state the run theorems compute |
| NotifierRuns.WithoutExact | src/pcbserver.cpp:304-319 | removal takes away every matching entry and keeps all others as often as they were there |
| NotifierRuns.WithoutParts | src/pcbserver.cpp:304-319 | removal keeps the order, part by part |
| NotifierRuns.CloseOnce | src/pcbserver.cpp:266-319 | repeated close signals have the effect of one |
| NotifierEffects.UnregisteredExactly | src/pcbserver.cpp:304-319 | an entry goes if and only if it is the peer's and not of another client, both being named; all others stay as often as they were |
| NotifierEffects.OthersStillServed | src/pcbserver.cpp:304-461 | after every run one client's unregistration leaves what another client gets at the next change as it was |
| NotifierEffects.NothingToUnregistered | src/pcbserver.cpp:304-461 | the unregistered client gets nothing any more |
| NotifierRuns.ConservedIffUnbroken | src/pcbserver.cpp:248-319 | over every run, whatever queries do, acknowledged registrations are pending, active or removed, and are in order those attached and then those waiting, if and only if the queue was never popped empty |
| NotifierRuns.BrokenIffOverdrawn | src/pcbserver.cpp:275-279 | the queue is popped empty if and only if some failing query raised more notifiers than registrations were waiting before it |
| NotifierRuns.ConservationAndOrder | src/pcbserver.cpp:248-319 | in runs whose failing queries raised nothing acknowledged registrations are pending, active or removed, and the k-th notifier taken goes to the k-th acknowledged registration |
| NotifierRuns.FailedRegistration | src/pcbserver.cpp:266-279 | a failed registration is not acknowledged and takes back exactly its own entry, the waiting ones being served in turn; if its query raised more than were waiting, its own entry is attached and the empty queue popped |
| NotifierRuns.FailedRegistrationHarmlessIff | src/pcbserver.cpp:275-279 | a failed registration leaves queue and entries as they were if and only if its query raised nothing |
| NotifierRuns.FailedButActive | src/pcbserver.cpp:266-279 | a registration that failed, was never acknowledged, and is active |
| NotifierRuns.PromptRunsAreDirect | src/pcbserver.cpp:248-415 | when each registered query raises exactly its notifier, the queue is empty between commands, every entry pairs its own requester and notifier, and plain queries subscribe nobody |
| NotifierRuns.StaleEntryIsCaptured | src/pcbserver.cpp:405-415 | a run in which a registration is attached to a notifier its own query never raised |
| NotifierRuns.ChangeSendsOncePerEntry | src/pcbserver.cpp:405-461 | after every run, whatever queries raised and however they ended, a notifier has one live connection at most and its change sends one message per matching entry |
| NotifierRuns.FanOutParts | src/pcbserver.cpp:427-459 | messages come in the order of the entries |
| NotifierEffects.ChangeDelivers | src/pcbserver.cpp:418-461 | after every run a change sends one message per entry of the notifier, the k-th to the k-th entry's peer with its id, in the old style if and only if it has no client, else with its client |
| NotifierEffects.EntriesExactly | src/pcbserver.cpp:427-432 | the entries of a notifier are those attached to it, each as often as it is active |
| NotifierEffects.RegistrationKeeps | src/pcbserver.cpp:259-270 | a registration keeps peer and client, and the low 16 bits of the id |
| NotifierRuns.ClosedPeerQuietIff | src/pcbserver.cpp:304-319 | after every run, once a peer is closed no further run without its registering again sends to it, if and only if nothing of it was waiting |
| NotifierRuns.ClosedPeerIsSentTo | src/pcbserver.cpp:304-461 | a run in which a closed peer is sent to |
| Resource.MsgCounter.GetMsgNr | src/pcbserver.cpp:51-57 | the counter's n-th value is the n-th number |
| Resource.NrAtIs | src/pcbserver.cpp:51-57 | the n-th number is ((n-1) mod (2^32-1)) + 1 |
| Resource.NumbersRepeatIff | src/pcbserver.cpp:51-57 | two draws give the same number if and only if they lie a multiple of 2^32-1 apart; zero never occurs |
| Resource.ReadyOnCompletion | src/resource.cpp:34-42 | in any stream of acknowledgements the ready signal is raised by exactly the one that completes the batch |
| Resource.ReadyOnce | src/resource.cpp:34-42 | a batch raises the signal at most once |
| Resource.OneClaimant | src/resource.cpp:34-42 | over every run of several resources on one counter, a broadcast number is claimed by at most one outstanding command while none has come round |
| Resource.ClaimedTwiceIff | src/resource.cpp:34-42 | in every run two outstanding commands claim one broadcast if and only if their draws lie a multiple of 2^32-1 apart |
| Resource.RoundClaimedTwice | src/resource.cpp:34-42 | a run in which one broadcast is claimed twice |
| Resource.StepOnNumbers | src/resource.cpp:18-42 | a broadcast takes its number off every resource's list that has it, a command adds the next number to its own resource's list, other lists stay |
| Resource.OneHolder | src/resource.cpp:34-42 | in every such run no resource holds a number twice and no two hold the same |
| SenseMode.SenseInterface.Send | src/scpi-interfaces/senseinterface.cpp:500-531 | the outstanding list becomes exactly the next numbers, one per resource |
| SenseMode.SenseInterface.UnregisterSense | src/scpi-interfaces/senseinterface.cpp:521-531 | six numbers are outstanding and the machine waits |
| SenseMode.SenseInterface.RegisterSense | src/scpi-interfaces/senseinterface.cpp:745-790 | reconfigures for the mode wanted now, then seven numbers are outstanding and the machine waits |
| SenseMode.SenseInterface.RegisterResource | src/scpi-interfaces/senseinterface.cpp:500-518 | seven numbers are outstanding and nothing else is, in a turn of the machine and at startup alike |
| SenseMode.SenseInterface.Reconfigure | src/scpi-interfaces/senseinterface.cpp:750-786 | every channel gets the description, unit and mode of its position, every range is toggled, names and published range stay |
| SenseMode.SenseInterface.NotifySense | src/scpi-interfaces/senseinterface.cpp:793-800 | publishes the mode, takes the oldest waiting command and answers it if it wants that |
| SenseMode.SenseInterface.ReadWriteMMode | src/scpi-interfaces/senseinterface.cpp:545-610 | a new mode is taken at once and queued, the machine is started only when idle; the same mode is answered at once |
| SenseMode.SenseInterface.ResourceManagerAck | src/resource.cpp:34-42 | an acknowledgement removes its number and moves the machine on when it empties the list |
| SenseMode.SenseInterface.ReadWriteRange | src/sensechannel.cpp:334-397 | reply and published name for every case of known, available, mode and controller answer; other channels stay |
| SenseMode.SenseInterface.ReadUrvalue | src/sensechannel.cpp:400-415 | the unchecked index is in bounds if and only if the published name is in the list |
| SenseMode.SenseInterface.Handle | src/scpi-interfaces/senseinterface.cpp:545-800 | any event takes the interface to the state the run theorems compute |
| SenseModeRuns.AnsweredInOrder | src/scpi-interfaces/senseinterface.cpp:563-599 | over every run the deferred answers go to the commands that changed the mode, in order and once each |
| SenseEffects.AnsweredAtOnceIff | src/scpi-interfaces/senseinterface.cpp:545-610 | a command naming the current mode is acknowledged at once, one naming none is refused at once if it wants an answer, one that changes the mode is not answered at once |
| SenseEffects.EveryCommandAnsweredOrTaken | src/scpi-interfaces/senseinterface.cpp:545-610 | over every run each command that names a mode is acknowledged at once or taken for a change, each other that wants an answer is refused, and no deferred answer is a refusal |
| SenseModeRuns.AvailabilityFitsIff | src/scpi-interfaces/senseinterface.cpp:545-800 | over every run availability is the initial one flipped once per register state; at rest it fits the mode if and only if an even number of commands overlapped, that many are unanswered, and the published mode is the mode |
| SenseModeRuns.ConfigurationFitsIff | src/scpi-interfaces/senseinterface.cpp:745-800 | over every run, at rest channel modes, units and descriptions fit the mode if and only if it changed an even number of times since the last reconfiguration; otherwise they are those of the other mode |
| SenseModeRuns.IdleMeansConsistent | src/scpi-interfaces/senseinterface.cpp:745-800 | without overlaps, at every rest ranges, channel modes, units, descriptions and published mode fit the mode |
| SenseEffects.LabelsInWords | src/scpi-interfaces/senseinterface.cpp:750-773 | at any moment of any run each channel bears the texts of its mode: voltage for the first three and current for the others in AC, reference for all in REF |
| SenseEffects.OnlyRangeCommandsPublish | src/scpi-interfaces/senseinterface.cpp:745-790 | no event but a range command to a channel changes what it publishes, none its name or its ranges' names and codes |
| SenseModeRuns.AcknowledgedRangePublished | src/sensechannel.cpp:334-397 | without overlaps, every acknowledged range command publishes exactly the range it named, every other one changes nothing |
| SenseModeRuns.PublishedAsNamedIff | src/sensechannel.cpp:360-384 | an acknowledged command publishes its range if and only if the channel measures AC or the range is a reference range |
| SenseModeRuns.PublishesAsNamedIff | src/sensechannel.cpp:334-397 | at any moment of any run, acknowledged range commands to a channel publish what they name if and only if it measures AC or an even number of commands overlapped before the last reconfiguration |
| SenseEffects.ReplyIff | src/sensechannel.cpp:334-397 | a command is acknowledged if and only if the mode was read, the first range of the name is there and available, and in AC the controller took it; it fails exactly when the controller did; else it is refused |
| SenseEffects.CommandPublishes | src/sensechannel.cpp:360-384 | published is the name in AC, R0V or R10V in REF, and what it was after anything but an acknowledgement |
| SenseEffects.RangeEventPublishes | src/sensechannel.cpp:334-397 | a command to an offered range is carried out on its own channel, any other leaves what is published |
| SenseEffects.AcknowledgedAtRestIff | src/sensechannel.cpp:334-397 | at rest without overlaps a listed range is acknowledged if and only if it belongs to the mode and the controller went along |
| SenseModeRuns.TurnCompletes | src/scpi-interfaces/senseinterface.cpp:132-140 | acknowledging what it sends takes the machine from unregistering to rest |
| SenseModeRuns.OverlapMisleads | src/scpi-interfaces/senseinterface.cpp:563-592 | a run with one overlap after which the mode is AC, the reference ranges are the available ones and a command is unanswered |
| SenseModeRuns.LateCommandMisleads | src/scpi-interfaces/senseinterface.cpp:563-800 | a run with two overlaps after which mode and available ranges are those of REF while every channel has mode and labels of AC |
| SenseModeRuns.OverlapCollapsesName | src/sensechannel.cpp:360-384 | a run with one overlap after which an acknowledged command publishes a range it did not name |
| SenseModeSafety.TwoPhaseSafety | src/scpi-interfaces/senseinterface.cpp:132-140 | over every run in which the startup registration does not arrive while the machine waits, overlaps included, publication and deferred answer come only after all acknowledgements of the unregister batch and then all of the register batch, for each publication anew |
| SenseModeSafety.TwoPhaseSafetyIff | src/scpi-interfaces/senseinterface.cpp:132-140 | after a run every continuation without a startup registration is safe if and only if none has arrived while the machine waited |
| SenseModeSafety.StartupMisleads | src/com5003d.cpp:407-416 | a run with the startup registration in a turn: the mode is published although no unregister command was acknowledged |
| SenseModeSafety.WaitsForOwnIff | src/com5003d.cpp:407-416 | exactly the startup registration makes a waiting machine wait for another batch than its own |
| SenseModeSafety.AdvancesOnCompletionIff | src/resource.cpp:34-42 | at any moment of any run the waiting machine moves on if and only if the acknowledgement completes the last batch sent; duplicates, stale and foreign numbers do not count; that batch is its own unless the startup registration arrived while it waited |
| SenseModeSafety.BatchDistinct | src/pcbserver.cpp:51-57 | the numbers of one batch are pairwise distinct, across the wrap too |
| SenseEffects.OthersNumbersApart | src/pcbserver.cpp:51-57 | numbers other users take are not in the interface's next batch |
| SenseRanges.InitialNameListedIff | src/sensechannel.cpp:304-331 | a channel starts with a name from its list if and only if the controller is not in AC mode or its range code is read and in the table |
| SenseRanges.InitialNameIs | src/sensechannel.cpp:304-331 | which name a channel starts with, for every answer of the controller |
| SenseRanges.UnknownCodeMisleads | src/sensechannel.cpp:304-331 | a range code the table lacks has the list indexed out of bounds, an unreadable one leaves the channel without a listed name |
| SenseRanges.LookupStaysInBounds | src/sensechannel.cpp:400-415 | over every run, overlaps included, the published name stays in the range list, so the lookup of the upper range value is in bounds |
| SenseRanges.TablesProper | src/scpi-interfaces/senseinterface.cpp:72-112 | the two range tables have both reference ranges and start available for AC |
| SenseRanges.ConstructedIsFresh | src/scpi-interfaces/senseinterface.cpp:25-141 | the constructed interface is a state the theorems start from |

## Left out

- SCPI parsing, delegates and command dispatch: commands arrive parsed; a registration whose command has not two parameters does nothing and is not modelled.
- I2C traffic, FPGA access, programming of the controller, sockets, message encoding and logging: their results are parameters or events.
- The startup machine, which runs its stages in a fixed order, the watcher that counts down from 100 while the controller starts, the settings, which are tables, and the source, frequency input, scan head, hand key and sampling interfaces, which answer from such tables.
- The init and compute commands that forward to three curves of a range, and their write-access checks: one-line forwarding to the members above.
- Floating-point rounding in computing and evaluating curves: values are reals.
- The inside of the equation solver and of the checksum function: neither is part of the repository.
- Date and time texts: they are read and dropped, as in the code.
- XML parsing and writing as text: a document is a tree of elements, and opening or parsing failures are one input.
- Numbers in notations other than plain decimals (exponents, signs before integers, blanks): they read as zero.
- Characters beyond U+FFFF in a record tag: each is written as one question mark where the string class, which holds them as two units, writes two.
- Calibration objects as heap objects: the stores keep channels and ranges as values in a field, so aliasing between them is not captured; the curve itself is an object with arrays.
- The raw pointers of the XML import between ranges: following one that no Name element has set is a fault of the model.
- Registrations over the SCPI socket, which have no peer: only network peers are modelled.
- Place markers with digits other than 0 to 9: they are taken as ordinary text.
- The mode the controller reports back, and whether setting it succeeded: the code ignores both after construction.
- JustData.SolveVandermonde: nothing is promised when the arguments are not pairwise distinct, because the solver is not shown.
