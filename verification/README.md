# StreamStack workstation tools: a verified model

This project models nine small cores of the developer workstation repository and proves, in Dafny 4.11, what they are
for. Run `dafny verify dfyconfig.toml` to check everything.

| files | what they model |
|---|---|
| Crc8, Stamp, Picture | the time stamp painted into a picture: CRC-8, painting in place, reading under noise |
| AptRepository, AptProtocol, ControlStanza, IndexListing | the apt repository: pull, index, sign, publish, dying publishers, clients; control stanzas |
| CallDetection, CallMonitoring | the call detector with its two clocks, and the monitor that notifies listeners |
| Licence, LinkedPackages | licence expressions (SPDX 2.3, Annex D, in the grammar of the code), and the dependency closure |
| Blocks, Sections, Merging, MergeLaws, Remerging, Promotion, Versions, ReleaseGate | the changelog compiler, and what prepare promises the tag gate |
| ResponseRouter, MessageCursor | response chunks of many requests, and the cursor over polled messages |
| Rounding, Smoothstep, LookRamp | bounded looks and the smoothstep ramp |
| CrashLimiter | the rate limit of crash reports with its evicting table |
| PostRendering, PostBuffer | re-rendering an edited post into the lines it has |
| Prelude, Text | Option and Result; lines, stripping, splitting and decimal numbers, shared by the others |

Code that updates state is a class or a method with loops, proved against a function of its inputs and the old state;
the theorems are lemmas about those functions and about runs of them.

## How the world outside is represented

- Clocks, directory listings, the outcome of gpg, of the working tree checks, of probes and of each upload are parameters.
- SHA-256 is injective: a digest is the file it was taken of. A signature vouches only for the Release it was made of.
- One publisher works at a time and publishes the directory it just indexed; `--extra` names are not repository names.
- Batches reach the message callbacks in the order in which the server took them; message ids are distinct and not empty.
- The crash limiter's clock never runs backwards and starts at zero or later; reading it, the two locked sections and the
  filing between them are separate steps of any number of threads.
- Numbers of the ramp are real; `round(x, 4)` is rounding to the nearest ten-thousandth, ties to even.
- A changelog is a sequence of lines; dates have the form YYYY-MM-DD.

## What the proofs found

- The documentation of `current_call` says that in_call needs a capture stream and the camera; the code answers in_call
  for any capture stream (`CallDetection.CurrentCallState`). The monitor's documentation lists state, service and
  microphone; the code also notifies on the camera.
- Listeners run outside the lock, so the chain of notices is one of lock order, not of delivery order
  (`CallMonitoring.DeliveryAgreesIff`, `CallMonitoring.DeliveryOrderMatters`).
- `publish` on a directory that was not pulled first removes packages from the list; the exact condition is
  `AptProtocol.ListedSetKeptIff`. The protocol lemmas about runs therefore publish only pulled directories;
  `AptProtocol.StoppedPublishIsSafe` does not ask for it.
- The look of a ramp can leave the range between start and target when an end has more than four decimals
  (`LookRamp.RampBetweenIff`, `LookRamp.FirstWriteEscapes`), and `apply_look` does not end on its target when a
  colour that the proposal does not name has more than four decimals while another colour changes
  (`LookRamp.ApplyEndsOnTargetIff`, `LookRamp.UnnamedColorMoves`).
- Merging a body a second time is not always without effect (`Remerging.MergeAgainGivenIff`, `Remerging.EmptyGroupIsNotSettled`),
  and a group with a blank heading becomes text of what stands before it (`Remerging.ResplitIff`).
- A dated heading named Unreleased above the plain one makes the two branches of `promote_unreleased` take different
  sections: with fragments the next promotion is refused (`Promotion.NextPromotionPossibleIff`), without them an empty
  section can be released, which the tag gate then refuses (`ReleaseGate.DatedUnreleasedFailsGate`).
- The exact noise bound of the picture stamp is 66, for time zero 67 (`Picture.NoiseBoundTight`); 590 s is the exact
  waiting bound of the crash limiter (`CrashLimiter.LongWaitBreaksSpacing`).
- A picture higher than eight rows that is painted into a too short plane does not read back (`Picture.PaintedReadsIff`).
- A post with an empty text does not always fill its lines (`PostRendering.RenderExactIff`).
- The keyword test of the licence parser compares upper-cased tokens, so a dotless i also spells WITH
  (`Licence.DotlessIReadsAsWith`).

## Model

| member | source | states |
|---|---|---|
| Crc8.Crc8 | roles/developer_workstation/files/streamstack/src/streamstack/latency.py:25-31 | The byte and bit loops compute the register function `Crc` of the data. |
| Crc8.CrcIsRemainder | roles/developer_workstation/files/streamstack/src/streamstack/latency.py:25-31 | The CRC of a message is the remainder of the message times x^8 modulo x^8 + x^2 + x + 1 over GF(2). |
| Crc8.RemainderXor | roles/developer_workstation/files/streamstack/src/streamstack/latency.py:25-31 | The remainder is linear: the remainder of a XOR is the XOR of the remainders. |
| Crc8.RemainderParity | roles/developer_workstation/files/streamstack/src/streamstack/latency.py:25-31 | Modulo the factor x + 1: the remainder has the parity of the bit string. |
| Crc8.PowerNotOne | roles/developer_workstation/files/streamstack/src/streamstack/latency.py:25-31 | No power x^d with 0 < d < 57 is 1, so the places of the 56-bit word have different syndromes. |
| Crc8.TwoPlacesDetected | roles/developer_workstation/files/streamstack/src/streamstack/latency.py:25-31 | Two set places in at most 56 never have remainder zero. |
| Crc8.OddPlacesDetected | roles/developer_workstation/files/streamstack/src/streamstack/latency.py:25-31 | An odd number of set places never has remainder zero. |
| Crc8.BurstDetected | roles/developer_workstation/files/streamstack/src/streamstack/latency.py:25-31 | A nonempty burst inside eight adjacent places never has remainder zero. |
| Stamp.BitsForIsCodeWord | roles/developer_workstation/files/streamstack/src/streamstack/latency.py:34-40 | The bits taken by shifting `(ms << 8) or crc8` are the sync pattern, the 48 time bits and the 8 check bits. |
| Stamp.AcceptIffRemainderZero | roles/developer_workstation/files/streamstack/src/streamstack/latency.py:80-84 | The reader accepts exactly the words whose remainder is zero, and then returns their first 48 bits. |
| Stamp.AcceptCodeWord | roles/developer_workstation/files/streamstack/src/streamstack/latency.py:80-84 | Every stamped time is read back when no bit is wrong. |
| Stamp.ErrorUndetectedIff | roles/developer_workstation/files/streamstack/src/streamstack/latency.py:80-84 | A received word is accepted if and only if its difference from the stamped word is a multiple of the generator. |
| Stamp.ErrorsDetected | roles/developer_workstation/files/streamstack/src/streamstack/latency.py:77-84 | One, two, three or any odd number of wrong bits, or a burst of at most eight, are never read as a time. |
| Stamp.FourErrorsUndetected | roles/developer_workstation/files/streamstack/src/streamstack/latency.py:77-84 | The limits are sharp: for every time some four wrong bits inside nine adjacent ones are read as another time. |
| Picture.StripHeight | roles/developer_workstation/files/streamstack/src/streamstack/latency.py:43-44 | Between 8 and 96 rows; a picture of at least 8 rows holds the strip. |
| Picture.TimeCheck | roles/developer_workstation/files/streamstack/src/streamstack/latency.py:38-39 | The check value of a time, from the loops of `crc8`. |
| Picture.StampBits | roles/developer_workstation/files/streamstack/src/streamstack/latency.py:34-40 | The 60 bits of a time, or the error for a time outside 48 bits. |
| Picture.StampedRow | roles/developer_workstation/files/streamstack/src/streamstack/latency.py:52-54 | The row of blocks written slice by slice is the row of the stamp. |
| Picture.PaintStamp | roles/developer_workstation/files/streamstack/src/streamstack/latency.py:47-57 | In place, for every plane and height: the strip holds the stamp rows, every byte below it is untouched, a plane that ends inside the strip grows to its end, the errors change nothing. |
| Picture.FillStrip | roles/developer_workstation/files/streamstack/src/streamstack/latency.py:55-57 | The slice assignments, also those past the end of the plane, fill exactly the strip. |
| Picture.AcceptBits | roles/developer_workstation/files/streamstack/src/streamstack/latency.py:80-84 | Folding the bits into one value and comparing its CRC is the reader of the word. |
| Picture.ReadStamp | roles/developer_workstation/files/streamstack/src/streamstack/latency.py:60-84 | `read_stamp` with its guards, the middle row and the folding computes `Read`. |
| Picture.NoisyRoundTrip | roles/developer_workstation/files/streamstack/src/streamstack/latency.py:34-84 | For every plane, height, width of at least 256 and 48-bit time: paint, change every byte by at most 66 (67 for time zero), and exactly that time is read, unless the frame is shorter than width times height. |
| Picture.PaintedReadsIff | roles/developer_workstation/files/streamstack/src/streamstack/latency.py:47-63 | A painted plane reads back if and only if it was long enough or the picture is at most eight rows high. |
| Picture.NoiseBoundTight | roles/developer_workstation/files/streamstack/src/streamstack/latency.py:60-84 | These bounds are exact: for every time some plane with one more loses it. |
| CallDetection.CallDetector.Update | roles/developer_workstation/files/streamstack/src/streamstack/callstate.py:399-429 | One look updates the snapshot and both clocks as `Updated` says. |
| CallDetection.CallDetector.Quiet | roles/developer_workstation/files/streamstack/src/streamstack/callstate.py:437-446 | An empty look keeps the call until the leave hold is over, then goes idle. |
| CallDetection.CallDetector.Reset | roles/developer_workstation/files/streamstack/src/streamstack/callstate.py:431-435 | A reset forgets the call and both clocks. |
| CallDetection.DetectorRefinesHistory | roles/developer_workstation/files/streamstack/src/streamstack/callstate.py:387-446 | After every timed run with a forward clock the state is a declared function of the whole history: idle when every piece of evidence has been followed by a reset or an unbroken stretch of empty looks spanning the leave hold; in_call when capture evidence broken only by empty looks that ended nothing lasted the settle time; else joining. |
| CallDetection.Transitions | roles/developer_workstation/files/streamstack/src/streamstack/callstate.py:413-414 | in_call never falls back to joining; with a positive settle time idle never jumps to in_call. |
| CallDetection.SinceLastChange | roles/developer_workstation/files/streamstack/src/streamstack/callstate.py:417-417 | `since` is the time of the event that last changed the state, or of a later reset. |
| CallDetection.ReasonIffCall | roles/developer_workstation/files/streamstack/src/streamstack/callstate.py:369-381 | After every run the snapshot gives a reason exactly when the state is not idle. |
| CallDetection.CurrentCallState | roles/developer_workstation/files/streamstack/src/streamstack/callstate.py:449-454 | One look without hysteresis is in_call exactly when some app captures; the camera does not matter. |
| CallMonitoring.CallMonitor.PollOnce | roles/developer_workstation/files/streamstack/src/streamstack/callstate.py:544-561 | The locked section of a poll: health, snapshot and the notice that is due; a failing probe changes nothing. |
| CallMonitoring.CallMonitor.Reset | roles/developer_workstation/files/streamstack/src/streamstack/callstate.py:530-542 | The locked section of a reset. |
| CallMonitoring.CallMonitor.ReportMute | roles/developer_workstation/files/streamstack/src/streamstack/callstate.py:525-528 | The adapter report is stored or withdrawn. |
| CallMonitoring.CallMonitor.Subscribe | roles/developer_workstation/files/streamstack/src/streamstack/callstate.py:512-514 | A listener is added. |
| CallMonitoring.CallMonitor.Unsubscribe | roles/developer_workstation/files/streamstack/src/streamstack/callstate.py:516-519 | Its first registration is removed, if there is one. |
| CallMonitoring.ListenerAgrees | roles/developer_workstation/files/streamstack/src/streamstack/callstate.py:500-561 | Over any interleaving of the locked sections the notices chain on state, service, microphone and camera, and a listener that stays subscribed and keeps the last `after` agrees with the snapshot on all four. |
| CallMonitoring.DeliveryAgreesIff | roles/developer_workstation/files/streamstack/src/streamstack/callstate.py:556-560 | For any order in which the notices of a run reach a listener: it agrees with the snapshot if and only if the one that reaches it last carries what the last one in lock order carries. |
| CallMonitoring.DeliveryOrderMatters | roles/developer_workstation/files/streamstack/src/streamstack/callstate.py:556-560 | The listeners run outside the lock: two notices delivered in the other order leave a listener wrong. |
| Licence.Parser.Take | roles/developer_workstation/files/streamstack/images/dfn-ladspa/supply_chain.py:73-78 | The next token, or the unexpected end; the cursor moves by one. |
| Licence.Parser.Atom | roles/developer_workstation/files/streamstack/images/dfn-ladspa/supply_chain.py:80-91 | The shared cursor and the returned value are those of the token-level reader `ReadAtom`. |
| Licence.Parser.Both | roles/developer_workstation/files/streamstack/images/dfn-ladspa/supply_chain.py:93-98 | The AND loop reads and evaluates what `ReadBoth` reads. |
| Licence.Parser.Either | roles/developer_workstation/files/streamstack/images/dfn-ladspa/supply_chain.py:100-105 | The OR loop reads and evaluates what `ReadEither` reads. |
| Licence.Satisfiable | roles/developer_workstation/files/streamstack/images/dfn-ladspa/supply_chain.py:55-110 | Tokenize, parse the whole list, evaluate; every error of the source with its own value. It terminates on every text. |
| Licence.AllowedSetMonotone | roles/developer_workstation/files/streamstack/images/dfn-ladspa/supply_chain.py:80-110 | Whether an expression is rejected does not depend on the allowed set, and a larger set never turns True into False. |
| Licence.PrintedTreeEvaluates | roles/developer_workstation/files/streamstack/images/dfn-ladspa/supply_chain.py:80-110 | Every tree over names that are not reserved, printed with minimal parentheses, is consumed whole and evaluates to its Boolean meaning, AND binding tighter than OR. |
| Licence.TokenizeRender | roles/developer_workstation/files/streamstack/images/dfn-ladspa/supply_chain.py:48-61 | Tokens written out with spaces are the tokens found again. |
| Licence.WrittenTreeEvaluates | roles/developer_workstation/files/streamstack/images/dfn-ladspa/supply_chain.py:55-110 | The same from text to answer. |
| Licence.SlashMeansOr | roles/developer_workstation/files/streamstack/images/dfn-ladspa/supply_chain.py:61-61 | `A/B` has the tokens of `A OR B`. |
| Licence.DotlessIReadsAsWith | roles/developer_workstation/files/streamstack/images/dfn-ladspa/supply_chain.py:69-91 | A token spelled with a dotless i joins two names as WITH does. |
| LinkedPackages.PushNormal | roles/developer_workstation/files/streamstack/images/dfn-ladspa/supply_chain.py:127-129 | The inner loop pushes the targets of the normal dependencies, in order and as often as they are named. |
| LinkedPackages.Collect | roles/developer_workstation/files/streamstack/images/dfn-ladspa/supply_chain.py:130-130 | The packages of the ids in order, or an unknown id. |
| LinkedPackages.LinkedPackages | roles/developer_workstation/files/streamstack/images/dfn-ladspa/supply_chain.py:113-130 | Exactly the packages reachable from the root through normal edges, each once, root first, cycles included; it fails exactly when the root is not unique or a reachable id is unknown. |
| LinkedPackages.ClosedHoldsPath | roles/developer_workstation/files/streamstack/images/dfn-ladspa/supply_chain.py:122-129 | A set with the root that is closed under normal edges holds every reachable id. |
| ControlStanza.Parse | roles/developer_workstation/files/streamstack/scripts/apt_repo.py:76-91 | The line loop of `parse_control` computes `ParseControl`, errors included. |
| ControlStanza.ParsePrintParse | roles/developer_workstation/files/streamstack/scripts/apt_repo.py:76-91 | For every accepted text, printing the fields and parsing again gives the same fields in the same order, continuation lines included. |
| ControlStanza.GoodIsPrintable | roles/developer_workstation/files/streamstack/scripts/apt_repo.py:94-100 | Every entry that `read_deb` can produce can be printed. |
| ControlStanza.PackagesText | roles/developer_workstation/files/streamstack/scripts/apt_repo.py:107-121 | The loop builds the stanzas of the sorted entries, joined by blank lines. |
| ControlStanza.OrderedSorts | roles/developer_workstation/files/streamstack/scripts/apt_repo.py:109-109 | The sort keeps every entry, and no entry is followed directly by one with a larger key. |
| ControlStanza.OrderedEveryPair | roles/developer_workstation/files/streamstack/scripts/apt_repo.py:109-109 | Of any two entries of the index the later one has no larger key. |
| ControlStanza.OrderedStable | roles/developer_workstation/files/streamstack/scripts/apt_repo.py:109-109 | Entries with the same key keep the order they had. |
| ControlStanza.IndexReadBack | roles/developer_workstation/files/streamstack/scripts/apt_repo.py:306-312 | Splitting the index text and parsing every stanza gives the fields of every entry in order. |
| ControlStanza.PackagesRoundTrip | roles/developer_workstation/files/streamstack/scripts/apt_repo.py:107-121 | What is read back from a written index: every entry once, in the sorted order, with its control fields, then its Filename, Size and three checksums. |
| IndexListing.IndexIsListing | roles/developer_workstation/files/streamstack/scripts/apt_repo.py:338-338 | The file names and checksums read back from the index text of a directory are the listing of that directory. |
| IndexListing.ChecksumsDecide | roles/developer_workstation/files/streamstack/scripts/apt_repo.py:341-345 | Comparing a listed checksum with the checksum of a file compares the files. |
| AptRepository.Registry.Get | roles/developer_workstation/files/streamstack/scripts/apt_repo.py:265-283 | The file of a name, or not found. |
| AptRepository.Registry.Put | roles/developer_workstation/files/streamstack/scripts/apt_repo.py:351-351 | One file is set, the others stay. |
| AptRepository.Registry.Published | roles/developer_workstation/files/streamstack/scripts/apt_repo.py:306-312 | The published list: empty without a Packages file. |
| AptRepository.Registry.PutEach | roles/developer_workstation/files/streamstack/scripts/apt_repo.py:350-352 | The upload loop, stopped after any number of PUTs, has put exactly that prefix. |
| AptRepository.Directory.ReadPackages | roles/developer_workstation/files/streamstack/scripts/apt_repo.py:146-153 | Every file is read, or the first unreadable one is the error. |
| AptRepository.Directory.ListPackages | roles/developer_workstation/files/streamstack/scripts/apt_repo.py:154-156 | The index lists every .deb file with its digest and nothing else. |
| AptRepository.Directory.FindRepeat | roles/developer_workstation/files/streamstack/scripts/apt_repo.py:147-152 | The first package version that appears twice. |
| AptRepository.Directory.Index | roles/developer_workstation/files/streamstack/scripts/apt_repo.py:141-165 | Errors change nothing; otherwise the index lists exactly the .deb files with their digests, Release gives the digests of both index files, and old signatures are gone. |
| AptRepository.Directory.Sign | roles/developer_workstation/files/streamstack/scripts/apt_repo.py:168-181 | Both signatures of the Release, or what a failing gpg call leaves. |
| AptRepository.Directory.Pull | roles/developer_workstation/files/streamstack/scripts/apt_repo.py:315-330 | It succeeds exactly when every listed file that is missing can be fetched with its checksum; it then adds exactly those; files already there are never replaced, also when it fails. |
| AptRepository.Directory.Publish | roles/developer_workstation/files/streamstack/scripts/apt_repo.py:333-353 | The registry after any number of PUTs is the plan applied so far; a refused plan uploads nothing. |
| AptRepository.IndexSucceedsIff | roles/developer_workstation/files/streamstack/scripts/apt_repo.py:143-152 | `index` succeeds exactly when there are .deb files, all readable, and no package version twice. |
| AptProtocol.PlanShape | roles/developer_workstation/files/streamstack/scripts/apt_repo.py:338-350 | A plan is the extras and the new .deb files, then Packages, Packages.gz, Release, Release.gpg and InRelease; a published name keeps its bytes or the plan is refused. |
| AptProtocol.StoppedPublishIsSafe | roles/developer_workstation/files/streamstack/scripts/apt_repo.py:333-353 | Stopped after any PUT: the list shown is the old or the new one, everything on it is there with its checksum, and nothing listed before has changed. |
| AptProtocol.ListedSetKeptIff | roles/developer_workstation/files/streamstack/scripts/apt_repo.py:315-353 | A finished publish keeps everything that was listed if and only if every listed name is in the directory. |
| AptProtocol.UnpulledPublishShrinks | roles/developer_workstation/files/streamstack/scripts/apt_repo.py:333-353 | Without a pull a publish takes the old package off the list. |
| AptProtocol.StepInv | roles/developer_workstation/files/streamstack/scripts/apt_repo.py:141-165 | Every step (new directory, write, pull, index, sign, publish, PUT, stop) keeps the invariant of registry, directory and remaining uploads. |
| AptProtocol.RunInv | roles/developer_workstation/files/streamstack/scripts/apt_repo.py:315-353 | The invariant holds in every reachable state. |
| AptProtocol.PublishCanFinish | roles/developer_workstation/files/streamstack/scripts/apt_repo.py:350-352 | Every reachable state in the middle of a publish can be continued to the end of its uploads. |
| AptProtocol.SomeRunPublishes | roles/developer_workstation/files/streamstack/scripts/apt_repo.py:141-353 | For every package there is a run that ends with the package listed and there, and a client accepts the list. |
| AptProtocol.ListAlwaysReadable | roles/developer_workstation/files/streamstack/scripts/apt_repo.py:306-312 | In every reachable state the published list can be read. |
| AptProtocol.ListedFilesStay | roles/developer_workstation/files/streamstack/scripts/apt_repo.py:315-353 | In every reachable state every listed file is there with its checksum; later on the list only grows and no listed file has other bytes. |
| AptProtocol.ClientIsSafe | roles/developer_workstation/files/streamstack/scripts/apt_repo.py:347-352 | A client that takes a signature at one time and a package list at another accepts only a whole list that some publish uploaded, and at any later time every file on it is there. |
| AptProtocol.PublishAgainCompletes | roles/developer_workstation/files/streamstack/scripts/apt_repo.py:333-353 | A publish stopped anywhere and run again is not refused and ends with the registry of an undisturbed publish. |
| AptProtocol.FinishedPublishAccepted | roles/developer_workstation/files/streamstack/scripts/apt_repo.py:347-352 | After a finished publish a client accepts the new list, plain or compressed, under either signature. |
| Blocks.SplitFlat | roles/developer_workstation/files/streamstack/scripts/release.py:126-133 | Splitting at headings loses no line and leaves no heading inside a body. |
| Blocks.SplitOfFlat | roles/developer_workstation/files/streamstack/scripts/release.py:126-133 | There is one way to split: what is put together from headings and heading-free bodies is found again. |
| Sections.FindHeadings | roles/developer_workstation/files/streamstack/scripts/release.py:128-128 | The heading lines in order. |
| Sections.FindSections | roles/developer_workstation/files/streamstack/scripts/release.py:126-133 | The loop computes name, start and end of every section. |
| Sections.SpansAreBlocks | roles/developer_workstation/files/streamstack/scripts/release.py:126-133 | The spans are the sections, one after the other without gap, each with its name and body. |
| Sections.HeadingName | roles/developer_workstation/files/streamstack/scripts/release.py:44-44 | The heading written for a version is recognised with exactly that name, and not as the plain Unreleased heading. |
| Sections.UnreleasedName | roles/developer_workstation/files/streamstack/scripts/release.py:43-44 | Every line UNRELEASED_HEADING matches is a section heading named Unreleased. |
| Merging.Render | roles/developer_workstation/files/streamstack/scripts/release.py:207-215 | The loop over the lines computes the rendered entry. |
| Merging.RenderedEntry | roles/developer_workstation/files/streamstack/scripts/release.py:207-215 | A rendered fragment is a bullet, has no empty last line, and no line of it is a section or group heading. |
| Merging.SplitBody | roles/developer_workstation/files/streamstack/scripts/release.py:234-241 | The loop collects the groups, joining repeated headings. |
| Merging.AddChunks | roles/developer_workstation/files/streamstack/scripts/release.py:249-253 | One chunk per heading that has something under it, in order. |
| Merging.MergeReleaseBody | roles/developer_workstation/files/streamstack/scripts/release.py:244-254 | The merged body is `Merged` of the body and the fragments. |
| Merging.OrderIsTypes | roles/developer_workstation/files/streamstack/scripts/release.py:248-251 | Headings and fragment types correspond one to one. |
| Merging.EndedIsJoined | roles/developer_workstation/files/streamstack/scripts/release.py:254-254 | The lines of the merged body are those of the chunks joined by blank lines. |
| MergeLaws.GroupTextIs | roles/developer_workstation/files/streamstack/scripts/release.py:238-240 | The text of a heading is the texts of all its occurrences in order. |
| MergeLaws.MergeConserves | roles/developer_workstation/files/streamstack/scripts/release.py:244-254 | The merged body is the preamble and one block per heading that has something under it, standard headings first, each once, and nothing else; the blocks hold every hand-written group text and every fragment entry exactly once. |
| MergeLaws.EveryFragmentListed | roles/developer_workstation/files/streamstack/scripts/release.py:251-251 | No fragment type is dropped. |
| Remerging.ResplitMerged | roles/developer_workstation/files/streamstack/scripts/release.py:234-254 | For every body: splitting the merged body gives the preamble and the merged groups, each once and in order; a group with a blank heading is found as text of what stands before it. |
| Remerging.ResplitIff | roles/developer_workstation/files/streamstack/scripts/release.py:234-254 | The merged groups themselves come back if and only if no group heading of the body is blank. |
| Remerging.MergeAgainIff | roles/developer_workstation/files/streamstack/scripts/release.py:234-254 | For every body: merging once more without fragments changes nothing if and only if no text found in the merged body begins or ends with an empty line. |
| Remerging.MergeAgainGivenIff | roles/developer_workstation/files/streamstack/scripts/release.py:234-254 | The same condition on what is given, for every body: no heading with fragments has an empty first line in its hand-written text, and no other text has an empty line at an end; under a blank heading only the end counts, under the heading printed before it only the start. |
| Remerging.GroupTidyIff | roles/developer_workstation/files/streamstack/scripts/release.py:240-253 | When that is, per heading: it fails for an empty hand-written text followed by fragments, or joined texts with an empty end. |
| Remerging.EmptyGroupIsNotSettled | roles/developer_workstation/files/streamstack/scripts/release.py:244-254 | A heading with nothing under it and one fragment: the second merge differs from the first. |
| Remerging.MergeTwiceSettles | roles/developer_workstation/files/streamstack/scripts/release.py:244-254 | For every body: from the second merge on nothing changes. |
| Promotion.ReadSection | roles/developer_workstation/files/streamstack/scripts/release.py:140-150 | The loop over the sections finds the body, or the missing or empty section. |
| Promotion.BodyIs | roles/developer_workstation/files/streamstack/scripts/release.py:140-150 | The body of a version is the first section of that name, without the empty lines around it. |
| Promotion.MergedNoSections | roles/developer_workstation/files/streamstack/scripts/release.py:166-170 | A merged body never contains a section heading. |
| Promotion.PromotedSections | roles/developer_workstation/files/streamstack/scripts/release.py:157-170 | With fragments: the sections before, an empty Unreleased, the version with the merged body, and all others unchanged and in order. |
| Promotion.PromotedBody | roles/developer_workstation/files/streamstack/scripts/release.py:157-170 | The body read for the version is the merged body; Unreleased is empty. |
| Promotion.ReheadedSections | roles/developer_workstation/files/streamstack/scripts/release.py:157-171 | Without fragments: the version takes over the body under the plain heading, everything else stays. |
| Promotion.ReheadedBody | roles/developer_workstation/files/streamstack/scripts/release.py:157-171 | The body read for the version is that body, or the section is empty. |
| Promotion.NextPromotionPossibleIff | roles/developer_workstation/files/streamstack/scripts/release.py:165-170 | The result has one plain Unreleased heading again if and only if the first section named Unreleased had the plain heading. |
| Versions.VersionRoundTrip | roles/developer_workstation/files/streamstack/scripts/release.py:66-82 | A formatted version is parsed back, also from its tag. |
| Versions.UnapprovedRuns | roles/developer_workstation/files/streamstack/scripts/release.py:85-105 | Any run of bumps without the owner stays in its major and minor and never goes back; from 0.0.x the CI rule passes. |
| Versions.ReadWritten | roles/developer_workstation/files/streamstack/scripts/release.py:108-118 | Reading after writing gives the written version; every other line stays. |
| ReleaseGate.LoadFragments | roles/developer_workstation/files/streamstack/scripts/release.py:218-231 | The loop over the files, with the first bad fragment as the error. |
| ReleaseGate.ReadFragmentsGood | roles/developer_workstation/files/streamstack/scripts/release.py:218-231 | What is accepted is rendered under known types, and is empty only without files. |
| ReleaseGate.Tree.PrepareRelease | roles/developer_workstation/files/streamstack/scripts/release.py:389-426 | All checks come before the first write; then changelog, fragments and version line change together. |
| ReleaseGate.Tree.CheckTagged | roles/developer_workstation/files/streamstack/scripts/release.py:444-463 | The checks of the tag in their order. |
| ReleaseGate.PrepareImpliesGateIff | roles/developer_workstation/files/streamstack/scripts/release.py:389-463 | From 0.0.x without the owner flag the prepared tag passes the gate if and only if there were fragments or text under the plain Unreleased heading. |
| ReleaseGate.PrepareImpliesGate | roles/developer_workstation/files/streamstack/scripts/release.py:389-463 | It passes whenever the first section named Unreleased is the one with the plain heading. |
| ReleaseGate.DatedUnreleasedFailsGate | roles/developer_workstation/files/streamstack/scripts/release.py:161-171 | A family of changelogs for which prepare succeeds and the gate refuses the tag. |
| ReleaseGate.PreparedOnce | roles/developer_workstation/files/streamstack/scripts/release.py:389-416 | A tree prepared from fragments cannot be prepared again. |
| ReleaseGate.DefaultIsAllowed | roles/developer_workstation/files/streamstack/scripts/release.py:308-312 | The default version is never refused for its number. |
| ResponseRouter.SplitJoined | roles/developer_workstation/files/teams.py:302-310 | Id, callback and data come back from the joined text, whatever the data holds. |
| ResponseRouter.EventRouter.BuildBufferCbData | roles/developer_workstation/files/teams.py:336-339 | A new id for every request. |
| ResponseRouter.EventRouter.BufferedResponse | roles/developer_workstation/files/teams.py:302-331 | One chunk: buffered, or the callback with everything buffered for its id, whose buffer is gone. |
| ResponseRouter.RouterDemultiplexes | roles/developer_workstation/files/teams.py:302-339 | For every interleaving of chunks: each finished request had its callback run once, with its own data and exactly its own chunks in order; only unfinished requests keep a buffer. |
| MessageCursor.Conversation.OnBatch | roles/developer_workstation/files/teams.py:1079-1110 | One batch: what is shown and the new last id; the channel callback (lines 1304-1330) has the same code. |
| MessageCursor.ClientMirrorsTracker | roles/developer_workstation/files/teams.py:1079-1110 | Searching by id is the same as tracking a place in the log. |
| MessageCursor.RenderedIncreasing | roles/developer_workstation/files/teams.py:1079-1110 | Over any windows of an append-only log taken in order, the shown messages are a strictly increasing subsequence of the user messages. |
| MessageCursor.PollMissesNothingIff | roles/developer_workstation/files/teams.py:1079-1110 | A poll misses nothing if and only if its window still holds the last known message, or there is nothing new. |
| MessageCursor.NothingMissed | roles/developer_workstation/files/teams.py:1304-1330 | From the first window with a user message on, and while every later batch still holds the last known message, everything is shown, each once. |
| MessageCursor.NothingToShow | roles/developer_workstation/files/teams.py:1304-1330 | Windows without user messages show nothing and leave no last id. |
| Rounding.RoundMonotone | roles/developer_workstation/files/streamstack/src/streamstack/auto.py:330-330 | Rounding to four decimals is monotone. |
| Smoothstep.SmoothSteps | roles/developer_workstation/files/streamstack/src/streamstack/auto.py:328-329 | The smoothstep rises, never faster than one and a half times its argument. |
| LookRamp.BoundNumbers | roles/developer_workstation/files/streamstack/src/streamstack/auto.py:399-405 | The first loop of `bounded` in any order of the step table. |
| LookRamp.BoundFlags | roles/developer_workstation/files/streamstack/src/streamstack/auto.py:406-409 | The switches the proposal names. |
| LookRamp.BoundedStays | roles/developer_workstation/files/streamstack/src/streamstack/auto.py:397-409 | The target stays inside the limits and within one step of the look, up to the rounding. |
| LookRamp.StepValues | roles/developer_workstation/files/streamstack/src/streamstack/auto.py:328-330 | The values of one write. |
| LookRamp.Ramp | roles/developer_workstation/files/streamstack/src/streamstack/auto.py:308-335 | The writes, and the look they leave, also when the ramp is cancelled. |
| LookRamp.RampStays | roles/developer_workstation/files/streamstack/src/streamstack/auto.py:308-335 | Every written value lies between the rounded ends and inside the limits, and the last one is the rounded target. |
| LookRamp.LastWrite | roles/developer_workstation/files/streamstack/src/streamstack/auto.py:325-330 | An uncancelled ramp writes the rounded target last. |
| LookRamp.RampMoves | roles/developer_workstation/files/streamstack/src/streamstack/auto.py:325-330 | From one write to the next: one way only, and by at most 1.5/n of the whole change plus the rounding. |
| LookRamp.RampStarts | roles/developer_workstation/files/streamstack/src/streamstack/auto.py:325-330 | The first write leaves the start by at most 1.5/n of the whole change plus the rounding, and never the wrong way from a start with at most four decimals. |
| LookRamp.MixedMoves | roles/developer_workstation/files/streamstack/src/streamstack/auto.py:328-330 | Before rounding a step of h moves towards the target by at most 1.5 h of the whole change. |
| LookRamp.WrittenBetween | roles/developer_workstation/files/streamstack/src/streamstack/auto.py:330-330 | A written value lies between the rounded start and the rounded target. |
| LookRamp.RampBetweenIff | roles/developer_workstation/files/streamstack/src/streamstack/auto.py:325-330 | For every look, target and number of steps: all writes of one number lie between start and target if and only if the first write does and the rounded target does. |
| LookRamp.FirstWriteEscapes | roles/developer_workstation/files/streamstack/src/streamstack/auto.py:325-341 | Under the limits in use, a bounded proposal and the sixteen steps of `apply_look`: the first write falls below both start and target. |
| LookRamp.ApplyLook | roles/developer_workstation/files/streamstack/src/streamstack/auto.py:338-349 | Ramp, then the switches and the LUT amount that differ; whether anything changed. |
| LookRamp.ApplyEndsOnTargetIff | roles/developer_workstation/files/streamstack/src/streamstack/auto.py:338-349 | Applying a bounded proposal to the look in place ends on the target if and only if no colour changes or every colour of the target has at most four decimals. |
| LookRamp.ApplyEndsOnTarget | roles/developer_workstation/files/streamstack/src/streamstack/auto.py:338-349 | So it does for every look in the limits whose colours have at most four decimals. |
| LookRamp.UnnamedColorMoves | roles/developer_workstation/files/streamstack/src/streamstack/auto.py:338-349 | Under the limits in use: a gamma with more decimals that the proposal does not name is rewritten, so the end differs from the target. |
| LookRamp.DirectorRulesGood | roles/developer_workstation/files/streamstack/src/streamstack/director/limits.py:5-15 | The limits and steps in use meet what the theorems ask of them. |
| CrashLimiter.Limiter.Claim | roles/developer_workstation/files/streamstack/src/streamstack/crash.py:214-220 | The first locked section: claim or refuse, and evict. |
| CrashLimiter.Limiter.Complete | roles/developer_workstation/files/streamstack/src/streamstack/crash.py:222-225 | The second locked section. |
| CrashLimiter.EvictionInvisible | roles/developer_workstation/files/streamstack/src/streamstack/crash.py:210-226 | With many threads, none waiting over 590 s between clock and lock, the evicting table decides exactly like one that never evicts. |
| CrashLimiter.FullTableSpaced | roles/developer_workstation/files/streamstack/src/streamstack/crash.py:213-225 | A table that never evicts keeps ten seconds after every earlier claim and completed report of the key. |
| CrashLimiter.ReportsSpaced | roles/developer_workstation/files/streamstack/src/streamstack/crash.py:210-226 | So does the evicting one. |
| CrashLimiter.LongWaitBreaksSpacing | roles/developer_workstation/files/streamstack/src/streamstack/crash.py:213-220 | 590 s is sharp: any longer wait can break the ten seconds. |
| PostRendering.RenderMessage | roles/developer_workstation/files/wee_most.py:762-802 | Truncate or pad, mark, append attachments and files; the failing case of the truncation included. |
| PostRendering.FitText | roles/developer_workstation/files/wee_most.py:780-788 | The text cut or padded to its room. |
| PostRendering.Assemble | roles/developer_workstation/files/wee_most.py:790-800 | The parts of the message with their separators. |
| PostRendering.RenderFits | roles/developer_workstation/files/wee_most.py:762-802 | With a text and a line of room the message has exactly the given number of lines: the fitted text, then attachments and files. |
| PostRendering.RenderExactIff | roles/developer_workstation/files/wee_most.py:774-800 | The exact number of lines comes out if and only if the counts fit (`ExactFit`). |
| PostBuffer.PrefixThreadMessage | roles/developer_workstation/files/wee_most.py:1168-1171 | As many lines as before, each with its prefix. |
| PostBuffer.Channel.GetLinesPointers | roles/developer_workstation/files/wee_most.py:1221-1239 | The places of that block, in order. |
| PostBuffer.OneBlock | roles/developer_workstation/files/wee_most.py:1226-1237 | The block of adjacent lines that ends with the last line of the post is the only one of its kind. |
| PostBuffer.Channel.NewLines | roles/developer_workstation/files/wee_most.py:1208-1215 | The lines of the new message. |
| PostBuffer.Channel.WriteLines | roles/developer_workstation/files/wee_most.py:1217-1219 | Pairwise overwriting as far as both lists go. |
| PostBuffer.Channel.UpdatePost | roles/developer_workstation/files/wee_most.py:1203-1219 | In place: the lines of the post get the new lines in order, nothing else changes, an error changes nothing. |
| PostBuffer.NewTextFits | roles/developer_workstation/files/wee_most.py:1203-1219 | With a text and room for it, exactly one new line for each line of the post. |
| PostBuffer.EachLineOnceIff | roles/developer_workstation/files/wee_most.py:1203-1219 | There are as many new lines as lines of the post if and only if the counts fit; only then is each line of the post given one new line and no new line is dropped. |
| PostBuffer.FilesStayLast | roles/developer_workstation/files/wee_most.py:795-800 | The file lines are still the last lines after the update. |

## Left out

- HTTP, gpg, git, dpkg-deb, PipeWire and file system calls: only their outcomes appear, as parameters.
- Retries and status codes of `_request`, and the date handling of `release_text`: the Release date is a parameter.
- The text of Release and the digest formats: an index file is the value its text stands for; the Packages text itself is
  in ControlStanza, the listing in AptRepository has its name and SHA-256 columns only.
- `verify_repository`: it re-checks what the client of AptProtocol checks.
- The order in which pull fetches files and publish uploads new .deb files: the proofs hold for any order.
- ControlStanza.Parse: a value is kept as its lines, not as one string; `isdigit` digits other than 0-9 in version keys
  are not modelled.
- AptRepository.Registry.Get: failures of the request other than a missing file are not modelled.
- AptRepository.Registry.Put: a failing PUT appears in the upload loop, which stops there.
- AptRepository.Directory.Index: sizes, MD5 and SHA1 columns and the texts of the files are left to ControlStanza.
- Sections.FindHeadings: names in brackets that run over a line end are not recognised.
- Heading, version and token recognition are predicates or scanners on single lines: matches of `[^\]]+`, `\s*` and
  `[^"]+` that run over a line end, and `\d` digits other than 0-9, are not modelled.
- ReleaseGate.Tree.PrepareRelease: `date.fromisoformat` is modelled on YYYY-MM-DD only, the files of changelog.d come in
  the order the directory listing gives (the natural sort is not modelled), and the printed messages are left out.
- The rest of `release.py` (fragment gate, pipeline waiting, uploads): flat decisions and network calls.
- CallMonitoring.CallMonitor.Reset: the listener calls themselves and their logged exceptions are outside the model.
- CallMonitoring.CallMonitor.PollOnce: the listener calls themselves and their logged exceptions are outside the model.
- The YUYV conversion, percentiles and summaries of `latency.py`: arithmetic without a protocol.
- The rest of `supply_chain.py`, `auto.py`, `crash.py`, `teams.py` and `wee_most.py`: user interface, network and
  measurement code, and the chat buffer cap, which the callbacks do not check.
- PostRendering.RenderMessage: tabs, outer newlines, markdown links and `format_style` are applied outside the model.
- LookRamp.Ramp: floating-point error and the waiting between writes are not modelled; a cancellation is the number of
  writes after which it is noticed.
