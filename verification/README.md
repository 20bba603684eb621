# CrossPoint host: verified models

The repository runs an e-reader's firmware on a phone. Six of its parts decide things whose failures
nobody sees at the time, and those six are modelled and proved here.

- **Read aloud** (`ReadAloud`, `ReadAloudProperties`, `ReadAloudResponses`). The core that turns channel
  pages, speech-engine reports and taps into utterance, highlight and page-turn actions. The actions are
  replayed against a model engine and a model painter, over every run but the one kind that breaks step.
- **The e-ink panel** (`EinkOptics`, `EinkPanel`, `EinkPanelProperties`, `EinkFlash`, `EinkModes`,
  `EinkWorstGhost`). The affine maps that stand in for frame-by-frame optics, the fixed-point ghost plane
  and its 7:1 contrast cap, and the flash.
- **The web server's codecs** (`Text`, `Query`, `Paths`, `Multipart`, `MultipartPrinter`,
  `MultipartRoundTrip`). Percent decoding and query parsing, path normalisation and protection, and the
  multipart upload parser, each against an independent printer or specification.
- **Touch** (`ZenVerbs`, `TapCandidate`, `PadCore`, `TouchPipeline`, `TouchProperties`). Three trackers
  fed from one finger stream, and what the three answer, told from the stream alone.
- **Font seeding** (`FontLedger`, `FontSeed`, `FontTiers`, `FontSeedProperties`, `FontMigration`). A
  protocol over launches, bundle changes and owner deletions whose only memory is a text ledger on the
  card.
- **The log and the chevron** (`FirmwareLog`, `FirmwareLogSwitch`, `Chevron`). A two-generation log that
  must stay a suffix of its stream and obey its switch, and an interval-union measure that a run-length
  painter draws.

Code that changes fields is a class here, and each of its methods is proved equal to a step function on
a value: `ReadAloudCore` (ios/ReadAloudCore.cpp:9-293) to `ReadAloud.Step`, `EinkDisplay`
(src/EinkPanel.h:232-379) to `EinkPanel.OnLevels` and its companions, `Classifier` (ios/ZenVerbs.h:61-143),
`Candidate` (ios/TapCandidate.h:36-69), `Pad` (ios/PadCore.cpp:3-39) and `EventWatch`
(ios/CrossPointIOSShim.cpp:3867-4134) to `TouchPipeline.Watch` and its parts, `FirmwareLogFile`
(src/FirmwareLogFile.h:128-250) to `FirmwareLog.Step`, `FontSeeder` (ios/CrossPointFsPrep.cpp:259-424) to
`FontSeed.Pass`. The properties are lemmas about those functions over runs of any length. The table below
names those of the methods that hold a loop or write pixels, and the lemmas.

`dafny verify dfyconfig.toml` checks everything.

## Where the code and its promises part

Each of these is stated with the exact condition under which the promise holds.

- Multipart: the file comes back exactly when no leading field's name ends with `filename=`, the
  filename holds no blank line (CR LF CR LF), and the file field's own name does not end with
  `filename=`; a failing input is in `FieldNamedFilenameDefeats`. When a leading field's type line holds
  a quote and its name ends with `filename=`, that field is taken for a file, so the right answer can
  also come back by coincidence; `RoundTrip` says exactly when.
- Paths: what the handlers guard is a text, what they hand the storage is a C string. A name with a NUL
  behind it (`%00`) is not a protected name, and the storage reads it as one (`NulReachesProtected`).
  What is handed over is safe exactly when the name cut at the first NUL is not protected
  (`DeliversExactly`, and the four handlers with it).
- Queries: no query parses to the empty map (`NoQueryForEmpty`); its form, the empty query, parses to
  one empty key (`EmptyQuery`). Every other map round-trips. `strtol` accepts a leading space, a sign and
  an embedded NUL after `%`, and the model does too.
- Read aloud: the core ignores an utterance reported finished while it is paused, and stays paused over
  an idle engine. That finish, as one queued just before a pause, is the only input that breaks step
  (`OnlyHeldFinishBreaksStep`). A word report that comes late and the cancel of the core's own stop
  change nothing (`LateWordIsIgnored`, `LateCancelIsIgnored`).
- Touch: the tap candidate's "nobody" is finger id -1, so the uncancelled lift of a finger with that id
  fires a tap whatever it did (`TapIsStillTap`; a stream in `NobodyTaps`).
- Ledger: a family name survives the text exactly when it is not empty, does not start with `#`, holds
  no newline and does not end with a carriage return (`LedgerRoundTrip`). For any other name a deletion
  does not stick (`DeletionSticksIffPlain`).
- Seeding: a stray regular file at `fonts/<family>` blocks a family, a directory named like a bundled
  file blocks that file, and nothing else keeps what the bundle carries from being matched
  (`PassBringsUpToDate`). A tier the bundle dropped keeps its old files (`DroppedTierStays`), so a family
  matches the bundle in every tier exactly when such a tier had none (`PassMatchesBundleIff`).
- Returning: a family off the card is seeded exactly when no name of the last bundle has a line in the
  ledger that reads as it (`ReturningFamilyIsSeeded`). A name with a newline in it can spell another
  family's line (`NewlineNameBlocksReturn`).
- Log switch: the comment promises that the poll after an install happens at once. It does exactly when
  the monotonic clock stands at one second or more (`InstallForcesPollIff`).
- Ghosts: a ghost between -12 and 0 sixteenths of a level never fades, because the floor shift maps it
  to itself. The truncating division then hides it. Forty-six FAST refreshes always suffice, and
  `FortyFiveAreTooFew` gives a run after which forty-five do not.
- Contrast cap: the comment promises the largest symmetric ghost that passes. The loop stops at the
  first that fails, so the promise holds exactly when nothing passes above a level that fails
  (`CapIsLargestIff`); `GappedRampStopsEarly` is a ramp where it does not. It does on a ramp whose
  luminance never decreases, and there the 7:1 floor holds exactly when the bare palette meets it
  (`FloorHolds`).

## Model

| member | source | states |
|---|---|---|
| ReadAloud.ReadAloudCore.RectContaining | ios/ReadAloudCore.cpp:150-168 | the loop answers and leaves the cursor as the scan function says, for every cursor value |
| ReadAloud.ReadAloudCore.TapAtLogical | ios/ReadAloudCore.cpp:264-293 | a tap on the lit word stops, on another word restarts there, elsewhere does nothing |
| ReadAloudProperties.CursorRefinesScan | ios/ReadAloudCore.cpp:150-168 | for well-formed rects the resumable search finds the same word as a full scan for every cursor, stale or out of range, and nothing exactly when no rect holds the byte |
| ReadAloudProperties.ScanFindsHolder | ios/ReadAloudCore.cpp:158-167 | the early exit in a gap misses no rect that holds the byte |
| ReadAloudProperties.BeginAtStarts | ios/ReadAloudCore.cpp:195-218 | beginning at a word's first byte speaks from that byte and lights that word; beginning where no word is touches no highlight |
| ReadAloudProperties.StepKeepsLockstep | ios/ReadAloudCore.cpp:18-293 | in a core in step with engine and painter, every input but the finish of a held utterance, late word and cancel reports among them, emits actions that can be played in order and leave all three in step; disabled cores emit nothing |
| ReadAloudProperties.OnlyHeldFinishBreaksStep | ios/ReadAloudCore.cpp:18-293 | and that finish is the one input that does not |
| ReadAloudProperties.HeldFinishLeavesItPaused | ios/ReadAloudCore.cpp:120-128 | it leaves the core paused over an idle engine |
| ReadAloudProperties.LateWordIsIgnored | ios/ReadAloudCore.cpp:170-176 | a word reported when the engine does not talk changes nothing and lights nothing |
| ReadAloudProperties.LateCancelIsIgnored | ios/ReadAloudCore.cpp:130-139 | the cancel of the core's own stop changes nothing |
| ReadAloudProperties.RunKeepsLockstep | ios/ReadAloudCore.cpp:18-293 | the same over any run without such a finish, with the core's own invariant |
| ReadAloudProperties.EveryRunStaysInLockstep | ios/ReadAloudCore.cpp:18-293 | from boot, over any such run: Start only when idle, Pause only when talking, Resume only when held; Speaking and Paused match the engine; what is lit is a word of the page, at the resume point, and only in a live core; utterances start at word beginnings inside the text |
| ReadAloudResponses.PageStartsSpeech | ios/ReadAloudCore.cpp:37-118 | a page with words that is not the one being read starts speech at byte 0 and turns nothing |
| ReadAloudResponses.RepublishKeepsReading | ios/ReadAloudCore.cpp:53-62 | the page being read, published again, only brings new rects |
| ReadAloudResponses.ClearSilences | ios/ReadAloudCore.cpp:68-83 | a clear leaves the engine idle, the page dark and forgotten, and turns nothing |
| ReadAloudResponses.FinishTurnsThePage | ios/ReadAloudCore.cpp:120-128 | a page read to its end is turned, once, and the next one waited for |
| ReadAloudResponses.CancelGoesOff | ios/ReadAloudCore.cpp:130-139 | a lost utterance leaves the core Off and turns nothing |
| ReadAloudResponses.TimeoutGivesUp | ios/ReadAloudCore.cpp:141-148 | a timeout ends the wait, and does nothing else |
| ReadAloudResponses.WordIsLit | ios/ReadAloudCore.cpp:170-193 | a reported byte lights the word a full scan finds and moves the resume point to it; a byte of no word changes neither |
| ReadAloudResponses.WordIsPaintedOnce | ios/ReadAloudCore.cpp:184-189 | the word lit already is not painted again |
| ReadAloudResponses.TogglePlays | ios/ReadAloudCore.cpp:220-249 | talking is held, held talks on, Off with a page in hand speaks from the resume point and lights its word, anything else is ignored |
| ReadAloudResponses.RestartBeginsAgain | ios/ReadAloudCore.cpp:251-262 | a talking utterance is stopped and one begun at the current word; nothing else restarts |
| ReadAloudResponses.BeginNeverPastText | ios/ReadAloudCore.cpp:195-200 | an utterance never begins past the text, whatever the rects say |
| ReadAloudResponses.SwitchObeys | ios/ReadAloudCore.cpp:18-35 | switched off, the core is silent, dark and deaf; switched on, it only remembers |
| ReadAloudResponses.TapActsOnWord | ios/ReadAloudCore.cpp:264-293 | a tap within two pixels of a word, the first such, stops on the lit word and speaks from any other; elsewhere it does nothing |
| ReadAloudResponses.TapIgnored | ios/ReadAloudCore.cpp:264-267 | a disabled or waiting core ignores taps |
| ReadAloudResponses.EveryTurnHasItsCause | ios/ReadAloudCore.cpp:18-293 | over any run the page turns are those of blank pages and of pages read to their end; no cancel, tap, toggle or timeout turns |
| ReadAloudProperties.TapStopToggle | ios/ReadAloudCore.cpp:195-293 | from Off, tapping a word, tapping it again and toggling starts, stops and restarts speech at that same word's byte |
| ReadAloudProperties.BlankPageStep | ios/ReadAloudCore.cpp:84-105 | an accepted blank page turns one page while fewer than twelve are counted, and otherwise leaves the core Off |
| ReadAloudProperties.BlankTurnsAreCounted | ios/ReadAloudCore.cpp:84-118 | the latched count is the number of page turns blank pages caused, under any interleaving |
| ReadAloudProperties.BlankPagesTurnAtMostTwelve | ios/ReadAloudCore.cpp:68-118 | between two accepted pages with words (or clears) blank pages cause at most twelve turns; after the twelfth each leaves the core Off |
| ReadAloudProperties.SilentWithoutText | ios/ReadAloudCore.cpp:220-267 | with no text held, nothing starts speech and only blank pages turn pages, until a page with words |
| ReadAloudProperties.BlankPageSilences | ios/ReadAloudCore.cpp:84-105 | once a blank page is accepted, no input starts speech until a page with words arrives |
| EinkOptics.CountFrames | src/EinkPanel.h:134-138 | the frames of a program are those of its segments |
| EinkOptics.AffineAt | src/EinkPanel.h:200-216 | the loop's map is the composition of the segments' maps |
| EinkOptics.AffineIsGlass | src/EinkPanel.h:195-216 | for every program, class, frame count, start level and decay, the map gives what the optics stepped one frame at a time give |
| EinkOptics.GlassSegment | src/EinkPanel.h:208-214 | frames inside one segment keep a power of the distance to that segment's rail |
| EinkOptics.GlassInRange | src/EinkPanel.h:200-216 | a level between ink and paper stays between them through any program |
| EinkOptics.WaveformSettles | src/EinkPanel.h:122-132 | after all frames of either waveform a pixel of any transition class is within 255 * r^24 of the rail the class's new half selects, whatever level it started from; `EinkFlash` ties that half to the page |
| EinkFlash.ClearingFollowsThePath | src/EinkPanel.h:195-303 | frame by frame a HALF or FULL refresh takes every pixel from the level the glass showed to the new page's rail, along the waveform's documented path; which rail is read off the new level alone |
| EinkFlash.ShakeFollowsThePath | src/EinkPanel.h:255-265 | so does a shake, over the page the panel holds |
| EinkFlash.ClearingEndsOnThePage | src/EinkPanel.h:122-132 | the last frame shown stands within 255 * r^24 (scrub) or 255 * r^23 (full) of paper where the new level is 128 or more, and of ink where it is less |
| EinkFlash.ShakeEndsOnThePage | src/EinkPanel.h:255-265 | the same for a shake |
| EinkFlash.FullInvertsFirst | src/EinkPanel.h:122-128 | halfway through the full waveform, what will be paper stands near ink, and what will be ink has not moved |
| EinkFlash.FlashLasts | src/EinkPanel.h:267-281 | a scrub lasts 500 ms and a full waveform 1240 ms, a new frame every 20 ms |
| EinkFlash.CastToInt | src/EinkPanel.h:275 | the frame number keeps the low 32 bits of the count |
| EinkFlash.NegativeFrameIsTheOldGlass | src/EinkPanel.h:200-216 | a frame number the cast makes negative shows the old glass |
| EinkFlash.NearestIsNearest | src/EinkPanel.h:290-293 | the level written is the one nearest to the optics' |
| EinkPanel.EinkDisplay.CapLevels | src/EinkPanel.h:186-193 | the loop returns the end of the unbroken run of passing levels from 0, at most 26, or 0 |
| EinkPanel.EinkDisplay.Accumulate | src/EinkPanel.h:337-351 | every ghost forgets by a floor shift, then takes its share of the pixel's change and is clamped |
| EinkPanel.EinkDisplay.StartWaveform | src/EinkPanel.h:353-364 | the waveform starts from the old page with its ghosts, which are then gone |
| EinkPanel.EinkDisplay.Write | src/EinkPanel.h:366-379 | the output is the settled page, pixel by pixel, and nothing past it is written |
| EinkPanel.EinkDisplay.Show | src/EinkPanel.h:232-253 | a page write prepares, refreshes from the old page, keeps the new one and writes the settled pixels |
| EinkPanel.EinkDisplay.Shake | src/EinkPanel.h:255-265 | a full refresh over the page already shown, or false with nothing changed when there is none |
| EinkPanel.EinkDisplay.FlashFrame | src/EinkPanel.h:267-303 | for every clock reading, 1, 0 or -1 as documented; when 1, every pixel is what stepping its own optics frame by frame gives, although it came from a table |
| EinkPanel.EinkDisplay.PaintFrame | src/EinkPanel.h:295-302 | the table lookup agrees with the per-pixel optics for every pixel |
| EinkPanel.EinkDisplay.FillRow | src/EinkPanel.h:286-294 | one class of the table holds the rounded optics of every starting level |
| EinkPanel.EinkDisplay.FrameTable | src/EinkPanel.h:283-294 | the table holds every class and starting level |
| EinkPanelProperties.ApplyKeepsSound | src/EinkPanel.h:232-379 | every operation keeps the buffers the page's size, the ghosts within 416 sixteenths and the cap the palette's own |
| EinkPanelProperties.After | src/EinkPanel.h:232-379 | every panel a run reaches is sound |
| EinkPanelProperties.FadeReachesRest | src/EinkPanel.h:345-349 | undisturbed positive ghosts reach 0 and negative ones below -12 reach -12, at least a sixteenth a refresh; between they rest |
| EinkPanelProperties.QuietIsEnough | src/EinkPanel.h:337-351 | forty-six refreshes bring any ghost under one level, and forty-five do not for the darkest |
| EinkPanelProperties.QuietPixelIsExact | src/EinkPanel.h:337-371 | a pixel left alone by forty-six FAST refreshes is shown at exactly its drawn level, whatever the rest of the page and the palette do |
| EinkPanelProperties.RedrawnPageIsExact | src/EinkPanel.h:337-371 | forty-six redraws of the same page show it exactly, from any sound panel |
| EinkWorstGhost.FortyFiveAreTooFew | src/EinkPanel.h:337-371 | the bound is tight: from any fresh panel, on any palette that allows a ghost, a run reaches a page drawn as paper that forty-five redraws still show darker |
| EinkPanelProperties.ContrastShrinks | src/EinkPanel.h:176-180 | on a monotone ramp, moving two levels toward each other never raises their contrast |
| EinkPanelProperties.CapIsLargest | src/EinkPanel.h:182-193 | every level up to the cap passes when the bare palette does, and on a monotone ramp none above it does |
| EinkPanelProperties.CapIsLargestIff | src/EinkPanel.h:182-193 | the cap is at least every symmetric ghost that passes, as the comment has it, if and only if nothing passes above a level that fails |
| EinkPanelProperties.GappedRampStopsEarly | src/EinkPanel.h:186-193 | a ramp on which the loop returns 0 although every level from 2 to 26 passes |
| EinkPanelProperties.NearRailsKeepFloor | src/EinkPanel.h:182-193 | on a monotone ramp, levels within the cap of the rails keep 7:1 exactly when the rails do |
| EinkPanelProperties.FloorHolds | src/EinkPanel.h:176-193 | in every reachable panel on a monotone ramp, any settled ink pixel against any settled paper pixel meets 7:1 (WCAG 2.1, success criterion 1.4.6) exactly when the bare palette does |
| EinkPanelProperties.RunsAgree | src/EinkPanel.h:232-309 | panels that agree on page, ghosts, cap and palette agree after any run, whatever their flashes |
| EinkPanelProperties.ClearingForgets | src/EinkPanel.h:232-303 | two panels of any history that take one page as HALF or FULL and then the same events settle on the same pixels |
| EinkModes.FirstPageIsExact | src/EinkPanel.h:232-253 | the first page, and the first of a new size, is shown as drawn and flashes nothing |
| EinkModes.DropForgets | src/EinkPanel.h:318-321 | after a drop the next page is a first page |
| EinkModes.StopSettles | src/EinkPanel.h:305-309 | a stopped flash is over, and the settled page is unchanged |
| EinkModes.ComposeKeepsGhosts | src/EinkPanel.h:232-253 | composing the page again keeps every ghost and the flash that runs, which then ends on the new page |
| EinkModes.FastLeavesGhosts | src/EinkPanel.h:337-351 | a FAST refresh starts no flash and leaves a lightened pixel darker, a darkened one lighter, than fading alone would |
| EinkModes.ResidueIsExact | src/EinkPanel.h:337-351 | 31/64 of a sixteenth of a level for each level a pixel lightens, 15/64 for each it darkens, rounded toward none |
| EinkModes.ResidueIsAShare | src/EinkPanel.h:143-158 | which is three per cent and one and a half, to within a sixth of a level |
| EinkModes.LuminanceWeighsChannels | src/EinkPanel.h:171-175 | the relative luminance of WCAG 2.1, each channel from its own byte |
| EinkPanelProperties.LastWrittenIsSettled | src/EinkPanel.h:232-265 | what the panel last wrote is always its settled page |
| EinkPanelProperties.FirstFrameIsTheOldGlass | src/EinkPanel.h:353-371 | with no flash running and the palette unchanged, a waveform's frame 0 is pixel for pixel what was last written: the glass never jumps |
| Text.DelimiterFound | src/CrossPointWebServer.cpp:605 | a delimiter without a border is first found where it was put, after any text that does not contain it |
| Text.FindIsFirst | src/CrossPointWebServer.cpp:591 | a search from an index gives the first match at or after it, or none exactly when there is none |
| Text.FindTail | src/CrossPointWebServer.cpp:598 | searching from an index is searching the tail |
| Query.UrlDecode | src/CrossPointWebServer.cpp:97-114 | the loop decodes as the recursive definition, malformed escapes kept as they are |
| Query.StrtolIsTheLibrarys | src/CrossPointWebServer.cpp:97-114 | an escape is taken exactly when the C library's conversion of its two characters ends at the C string's end, and gives the library's value |
| Query.DigitsAndSpaces | src/CrossPointWebServer.cpp:103-105 | which characters the conversion takes for digits, of either case, and for white space, and what each digit is worth |
| Query.EscapeByte | src/CrossPointWebServer.cpp:105-108 | the value stored is a byte, a negative one its two's complement |
| Query.DecodeUndoesEncode | src/CrossPointWebServer.cpp:97-114 | decoding undoes every percent or plus encoding of a text (section 2.1 of RFC 3986), and no encoding holds `&` or `=` |
| Query.Encode | src/CrossPointWebServer.cpp:97-114 | every byte string has an encoding |
| Query.ParseQuery | src/CrossPointWebServer.cpp:261-279 | the index loop assigns item by item, later ones winning |
| Query.ParseUndoesForm | src/CrossPointWebServer.cpp:261-279 | parsing a form's text assigns its entries in order, however each was encoded |
| Query.QueryRoundTrip | src/CrossPointWebServer.cpp:261-279 | every non-empty map, listed in any order and encoding, parses back to itself |
| Query.EveryMapIsListed | src/CrossPointWebServer.cpp:261-279 | every map of byte strings has such a listing |
| Query.NoQueryForEmpty | src/CrossPointWebServer.cpp:261-279 | no query parses to the empty map |
| Query.EmptyQuery | src/CrossPointWebServer.cpp:261-279 | the empty query parses to one empty key |
| Paths.NormalizePath | src/CrossPointWebServer.cpp:150-168 | the loop ends, and its result is empty when a `..` is walked through and otherwise the one spelling of the names walked through |
| Paths.NormalForm | src/CrossPointWebServer.cpp:150-168 | empty exactly for a `..`; otherwise a leading slash, no doubled slash, no trailing slash but the root's, no `..`, and the same names as the decoded path |
| Paths.TidyIsCanonical | src/CrossPointWebServer.cpp:150-168 | a path in normal form is determined by its names |
| Paths.CanonicalIsTidy | src/CrossPointWebServer.cpp:150-168 | every list of names has a path in normal form |
| Paths.IsProtectedPath | src/CrossPointWebServer.cpp:170-192 | the scan agrees with splitting the path and asking of each name whether it is protected |
| Paths.WhichNamesAreProtected | src/CrossPointWebServer.cpp:170-173 | the empty name, names that begin with a dot, and the two folders of the firmware, case counting |
| Paths.BasenameAndParent | src/CrossPointWebServer.cpp:194-204 | basename and parent take a normal path apart at its last name, and the join undoes them |
| Paths.BasenameIsTail | src/CrossPointWebServer.cpp:194-198 | the basename of any path is what follows its last slash, or all of it |
| Paths.AdmittedDirectory | src/CrossPointWebServer.cpp:150-192 | a directory parameter is let through exactly when every name it walks through is unprotected |
| Paths.DeliversExactly | src/CrossPointWebServer.cpp:847-909 | a path made of unprotected names reaches the storage whole exactly when no name holds a NUL, and what reaches it is a safe path exactly when the name cut at the first NUL is not protected |
| Paths.UploadIsSafe | src/CrossPointWebServer.cpp:834-859 | an upload is refused exactly when a name is protected; otherwise the file's path, and the directory's, are delivered as above, made of exactly the directory's names and the file's |
| Paths.MkdirIsSafe | src/CrossPointWebServer.cpp:870-881 | the same for a new folder |
| Paths.RenameIsSafe | src/CrossPointWebServer.cpp:885-895 | both paths are delivered as above, the new one differs in its last name only, and the root and protected names are refused |
| Paths.MoveIsSafe | src/CrossPointWebServer.cpp:899-909 | both paths are delivered as above, and the last name is kept under the new directory |
| Paths.NulReaches | src/CrossPointWebServer.cpp:885-895 | a rename of any ordinary name with an escaped NUL behind it is let through, and the storage is given the name alone |
| Paths.NulReachesProtected | src/CrossPointWebServer.cpp:885-895 | so the storage is asked to rename a protected folder |
| Multipart.FindPart | src/CrossPointWebServer.cpp:598-607 | the two searches by index cut the part where its headers and its bytes end |
| Multipart.ParseMultipartFile | src/CrossPointWebServer.cpp:586-621 | one index moving through the body parses as the part-by-part definition does, for every body |
| Multipart.EveryUploadIsSafe | src/CrossPointWebServer.cpp:834-859 | whatever the request, the parsed name holds no slash and the upload is refused or delivered as above |
| MultipartPrinter.MarkerAtFirstQuote | src/CrossPointWebServer.cpp:602 | `filename="` is found in printed headers only where a name ends with `filename=` or at the marker itself |
| MultipartPrinter.FieldHeadersEnd | src/CrossPointWebServer.cpp:598 | a field's headers end at the blank line that was printed |
| MultipartPrinter.FileHeadersEnd | src/CrossPointWebServer.cpp:598 | a file's headers end there too when the filename holds no blank line |
| MultipartPrinter.FileHeadersCut | src/CrossPointWebServer.cpp:598 | and at the filename's blank line when it does |
| MultipartRoundTrip.ContentEnds | src/CrossPointWebServer.cpp:604-607 | the bytes of a part end at its delimiter: no match can straddle the two |
| MultipartRoundTrip.FieldSkipped | src/CrossPointWebServer.cpp:588-619 | a field part is stepped over, unless its name ends with `filename=`: then the parse ends with it, and it is misread as a file when its type line holds a quote |
| MultipartRoundTrip.FileRead | src/CrossPointWebServer.cpp:608-617 | a file part gives its bytes and its filename, or the text after the name when the name ends with `filename=` |
| MultipartRoundTrip.FileLost | src/CrossPointWebServer.cpp:598-617 | a blank line in the filename loses the filename |
| MultipartRoundTrip.BoundaryOfHeader | src/CrossPointWebServer.cpp:575-584 | the header's boundary is read with its two dashes |
| MultipartRoundTrip.UnquotedComesBack | src/CrossPointWebServer.cpp:602-613 | without quotes in the fields' type lines no field is misread as a file |
| MultipartRoundTrip.RoundTrip | src/CrossPointWebServer.cpp:575-621 | for any CR-free boundary, any leading fields, file and tail, the parser returns exactly the file's name and bytes if and only if the conditions above hold (sections 4.1 and 4.2 of RFC 7578, section 5.1.1 of RFC 2046) |
| MultipartRoundTrip.FieldNamedFilenameDefeats | src/CrossPointWebServer.cpp:602-613 | a form that is well formed and defeats the parser |
| MultipartRoundTrip.ClosedFormHasNoFile | src/CrossPointWebServer.cpp:593-594 | a form closed before any file has none, whatever comes after its closing dashes |
| ZenVerbs.Classifier.FindSlot | ios/ZenVerbs.h:116-120 | the first slot of a finger still down |
| PadCore.Pad.SlotHeldBy | ios/PadCore.cpp:12-16 | the lowest slot the finger holds, or none |
| PadCore.Pad.Reset | ios/PadCore.cpp:30-39 | releases every held slot, once each and in slot order |
| TouchPipeline.EventWatch.HitTest | ios/CrossPointIOSShim.cpp:3699-3705 | the first control a point lands on |
| TouchPipeline.EventWatch.PadWatch | ios/CrossPointIOSShim.cpp:3867-4134 | one event reaches the three trackers as the watch hands it on |
| TouchProperties.StreamTracks | ios/CrossPointIOSShim.cpp:3867-4134 | after every well-formed stream the three trackers are what the stream says |
| TouchProperties.EdgesAreNotShared | ios/CrossPointIOSShim.cpp:3699-3705 | controls that share an edge share no point of it, and miss none |
| TapCandidate.SecondFingerDisarms | ios/TapCandidate.h:36-48 | a second finger disarms, and a first one never does |
| TouchProperties.VerbIsDeliberateTap | ios/ZenVerbs.h:61-142 | Down is answered exactly on the last lift of a gesture that had one finger, no cancel, Chebyshev excursion at most 28 over every reported position including the lift, and at most 400 ms |
| TouchProperties.TapIsStillTap | ios/TapCandidate.h:36-69 | a chip or word tap fires exactly for an uncancelled lone finger that landed off every control and moved within the slop (or has the reserved id) |
| TouchProperties.NobodyTaps | ios/TapCandidate.h:60-64 | a stream on which the finger with the reserved id lands second, lifts far away and fires a tap |
| TouchProperties.PadHoldsLoneFinger | ios/PadCore.cpp:3-39 | the active count is the number of fingers on the glass; at most one slot is held, exactly by a lone finger that has not left its control; none is held on an empty glass |
| TouchProperties.StepAlternates | ios/PadCore.cpp:3-39 | from any slots, an event's presses and releases are edges of the buttons that are down |
| TouchProperties.ReleasesAlternate | ios/PadCore.cpp:30-39 | a reset's releases are edges and leave no button down |
| TouchProperties.EdgesFollowSlots | ios/CrossPointIOSShim.cpp:454-464 | over any stream the applied actions alternate button by button, and the buttons down are the slots held |
| Chevron.Coverage | ios/ChevronCoverage.h:62-68 | the accumulating loop averages the sampled rows |
| Chevron.CoverageIsUnionMeasure | ios/ChevronCoverage.h:40-58 | the `min` formula is the exact measure of the pixel's overlap with the union of the two arms, and lies in 0..1 |
| Chevron.CoverageIsUnionOfArms | ios/ChevronCoverage.h:40-58 | the arms spread below the top with the keyboard down, above the bottom with it up, and nothing is covered beyond either |
| Chevron.PixelIsDifference | ios/ChevronCoverage.h:40-58 | a pixel's coverage is what crossing it adds of the union |
| Chevron.RowCarriesBothArms | ios/ChevronCoverage.h:40-82 | over the bounds a row sums to min(2 arm, 2u + arm): nothing is lost or counted twice |
| Chevron.RowSpreadsFromApex | ios/ChevronCoverage.h:40-82 | with the keyboard down a row sums to min(2 arm, 2 (sy - top) + arm), with it up to min(2 arm, 2 (top + chevH - sy) + arm) |
| Chevron.RowsMirror | ios/ChevronCoverage.h:40-58 | the two glyphs are mirror images, row by row |
| Chevron.PictureMirrors | ios/ChevronCoverage.h:62-68 | and pixel by pixel, samples included, where the glyph is centred between pixel rows |
| Chevron.BoundsAreTight | ios/ChevronCoverage.h:76-82 | each side of the box is within a pixel of the glyph's own edge |
| Chevron.NothingOutsideBounds | ios/ChevronCoverage.h:76-82 | coverage is zero outside the box |
| Chevron.AlphaIsByte | ios/CrossPointIOSShim.cpp:3168-3188 | the alpha of a pixel fits a byte and is the one nearest to its coverage |
| Chevron.PaintRow | ios/CrossPointIOSShim.cpp:3168-3188 | every pixel of a row with a non-zero alpha is in exactly one run, with its own alpha |
| Chevron.PaintChevron | ios/CrossPointIOSShim.cpp:3168-3188 | the same for the whole plane: the box misses nothing |
| FirmwareLog.AppendKeeps | src/FirmwareLogFile.h:180-190 | an append keeps the two generations the end of the stream, loses nothing before a full generation is behind, and leaves the current file under 262144 bytes |
| FirmwareLog.EventKeeps | src/FirmwareLogFile.h:218-250 | so does every event |
| FirmwareLog.RunKeeps | src/FirmwareLogFile.h:146-250 | so does every run of writes, host lines, queries, installs and deletions, and the counter is always the open file's length |
| FirmwareLog.NothingRecentIsLost | src/FirmwareLogFile.h:146-250 | with no owner deletion, previous plus current is a suffix of the initial contents plus everything logged, with at least the last min(total, 262144) bytes |
| FirmwareLog.DeletionLosesNothingNew | src/FirmwareLogFile.h:174-250 | whatever the owner deletes, what was logged since is kept, up to its last 262144 bytes |
| FirmwareLog.InstallForcesPollIff | src/FirmwareLogFile.h:195-203 | after a switch is installed the next answer is the switch's own, whatever it is, if and only if the monotonic clock stands at one second or more |
| FirmwareLogSwitch.SwitchIsObeyedWithinASecond | src/FirmwareLogFile.h:135-144 | once the switch says on, or off, from some time on, everything, or nothing, is logged from a second later on, whatever it said before and whatever the clock does |
| FirmwareLogSwitch.OffIsObeyed | src/FirmwareLogFile.h:135-144 | off is obeyed from any state and through installs |
| FirmwareLogSwitch.OnIsObeyed | src/FirmwareLogFile.h:135-144 | so is on, while a switch stays installed |
| FirmwareLogSwitch.AskedOnceASecond | src/FirmwareLogFile.h:135-144 | what the switch says at the first line after an install decides every line of the next second, whatever it says meanwhile |
| FirmwareLogSwitch.ForcedLogsEverything | src/FirmwareLogFile.h:135-136 | forced on, a run logs the concatenation of all its texts |
| FirmwareLogSwitch.UninstalledLogsNothing | src/FirmwareLogFile.h:137-138 | with no switch installed it logs nothing |
| FirmwareLogSwitch.OffClosesTheFile | src/FirmwareLogFile.h:223-226 | a line that is not logged lets go of the file and changes neither generation |
| FontLedger.ReadSeedLedger | ios/CrossPointFsPrep.cpp:316-327 | the line loop reads what the text's lines name |
| FontLedger.WriteSeedLedger | ios/CrossPointFsPrep.cpp:340-353 | the header and then one line a name |
| FontLedger.ParseIsPlain | ios/CrossPointFsPrep.cpp:316-327 | whatever the text, no name read is empty, a comment, or holds a line end |
| FontLedger.CarriageReturnIsDropped | ios/CrossPointFsPrep.cpp:316-327 | a line saved with a carriage return names the same family |
| FontLedger.LedgerRoundTrip | ios/CrossPointFsPrep.cpp:316-353 | the ledger reads back exactly when every name in it is plain |
| FontLedger.PlainIsFound | ios/CrossPointFsPrep.cpp:316-353 | one name is found again exactly when it is plain, whatever the others are |
| FontLedger.LedgerReads | ios/CrossPointFsPrep.cpp:316-353 | a name is read back exactly when the line of some name written reads as it |
| FontLedger.NewlineNameSpells | ios/CrossPointFsPrep.cpp:316-353 | a name with a newline in it is read back as two |
| FontSeed.FilesIdentical | ios/CrossPointFsPrep.cpp:127-156 | the chunked compare is equality of contents, and a missing file equals nothing |
| FontSeed.CopyFiles | ios/CrossPointFsPrep.cpp:194-212 | every visible bundle file lands unless a directory is in the way, and nothing else changes |
| FontSeed.PruneFiles | ios/CrossPointFsPrep.cpp:219-239 | exactly the visible files the bundle lacks are removed |
| FontSeed.SeedOneFontDirectory | ios/CrossPointFsPrep.cpp:194-239 | the directory's files end as the bundle's and the hidden ones, its subdirectories untouched |
| FontSeed.SeedTiers | ios/CrossPointFsPrep.cpp:417-420 | every tier the bundle carries is seeded, and no other |
| FontTiers.TiersAreNumbered | ios/CrossPointFsPrep.cpp:417-420 | the tiers visited are the numerals from 2 to the build's scale, each followed by `x` |
| FontTiers.TwoXIsATier | ios/CrossPointFsPrep.cpp:417-420 | `2x` is one exactly from scale 2 on; `1x` and `02x` are none |
| FontSeed.SeedFolderTwice | ios/CrossPointFsPrep.cpp:194-239 | seeding a seeded directory changes nothing |
| FontSeed.FontSeeder.CloneFontDirectory | ios/CrossPointFsPrep.cpp:259-281 | a leftover link goes, and a whole family is cloned only where nothing stands |
| FontSeed.FontSeeder.SeedBundledFontFamilies | ios/CrossPointFsPrep.cpp:355-424 | the pass leaves fonts/ and the ledger as the launch function says, in whatever order the bundle is listed and whichever families can be cloned |
| FontSeedProperties.PassAt | ios/CrossPointFsPrep.cpp:355-424 | after a pass each family is seeded or was left to its owner, and nothing else is touched |
| FontSeedProperties.FamilyIffListed | ios/CrossPointFsPrep.cpp:366-374 | the bundle's families are its directories whose names do not begin with a dot |
| FontSeedProperties.OwnerDeletedMeans | ios/CrossPointFsPrep.cpp:379-386 | left to the owner is what the ledger names and no directory stands at, a real one or one behind a link |
| FontSeedProperties.LedgerNamesBundle | ios/CrossPointFsPrep.cpp:340-424 | the ledger read after a pass names exactly the bundle's family directories, if and only if those names are plain |
| FontSeedProperties.DeletedStaysDeleted | ios/CrossPointFsPrep.cpp:314-424 | a listed family found absent stays absent and listed over any launches that keep bundling it |
| FontSeedProperties.DeletionSticksIffPlain | ios/CrossPointFsPrep.cpp:314-424 | a deletion after a pass survives the next one exactly when the name is plain |
| FontSeedProperties.LedgerRemembers | ios/CrossPointFsPrep.cpp:314-424 | after any run the ledger names a family exactly when some name of the last bundle has a line that reads as it |
| FontSeedProperties.PlainNamesSpellThemselves | ios/CrossPointFsPrep.cpp:316-353 | in a bundle of plain names those are the bundle's families |
| FontSeedProperties.ReturningFamilyIsSeeded | ios/CrossPointFsPrep.cpp:355-424 | after any run, a bundled family that is off the card is seeded, byte-equal to the bundle, if and only if no name of the last bundle has a line that reads as it |
| FontSeedProperties.NewlineNameBlocksReturn | ios/CrossPointFsPrep.cpp:355-424 | a name with a newline in it keeps another family from being seeded |
| FontSeedProperties.PassSeedsWhatFits | ios/CrossPointFsPrep.cpp:194-281 | every other bundled family gets each file no directory stands in the way of, with no stale regular file, exactly unless a stray file holds its place |
| FontSeedProperties.PassBringsUpToDate | ios/CrossPointFsPrep.cpp:194-281 | its visible files, top level and carried tiers, end byte-equal to the bundle's if and only if no stray file holds its place and no directory stands at the name of one of them |
| FontSeedProperties.TwoXIsSeeded | ios/CrossPointFsPrep.cpp:417-420 | so a build of scale 2 leaves a carried `2x` byte-equal to the bundle's |
| FontSeedProperties.FreshFamilyIs | ios/CrossPointFsPrep.cpp:259-281 | a family that was not there is the bundle's whole where clonefile works, and elsewhere its visible files and tiers |
| FontSeedProperties.LinkIsReplaced | ios/CrossPointFsPrep.cpp:259-281 | a link an earlier build left is replaced by a real directory with the bundle's files |
| FontSeedProperties.OwnersFilesStay | ios/CrossPointFsPrep.cpp:194-239 | in a family that is there, dot files and subdirectories that are no tier of the bundle stay |
| FontSeedProperties.PassMatchesBundleIff | ios/CrossPointFsPrep.cpp:194-281 | counting also the tiers the bundle does not carry, it matches the bundle if and only if, besides, none of those had a visible file |
| FontSeedProperties.DroppedTierStays | ios/CrossPointFsPrep.cpp:417-420 | a tier the bundle dropped is neither updated nor pruned |
| FontSeedProperties.PassTwice | ios/CrossPointFsPrep.cpp:355-424 | a repeat pass changes nothing, cloned or copied |
| FontMigration.MigrateFontFamilies | ios/CrossPointFsPrep.cpp:59-99 | exactly the visible family directories whose name is free move, and the emptied root goes |
| FontMigration.MigrationKeepsFamilies | ios/CrossPointFsPrep.cpp:59-99 | the firmware reads the same family under every name before and after, no entry is lost, and names that begin with a dot or an underscore stay where they are |

## Left out

- Read aloud: the adapter's event queue and serial filter, the real speech engine, and fields' casts to 32 bits other than the ones that wrap text lengths and rect ends. What `ReadAloudChannel.h` promises about a page's rects is assumed as `Published`; that file is not part of this model.
- Float rounding, `exp`, `pow` and the sRGB curve; the value of an out-of-range cast to int, taken modulo 2^32. Levels and positions are reals, the decay is any `r` between 0 and 1, and luminance is any non-negative function of a channel.
- Touch with zen on, drawers up, the app in the background, or the window's geometry unknown; and which of a chip or a word a tap then means, with the layout arithmetic behind it.
- RoundTrip: part headers other than Content-Disposition and Content-Type, a field's content type that spells `filename="`, and quoted boundary parameters are not printed by the model's printer. The parser itself is modelled for every body.
- Paths: the delete and download handlers, PUT and WebDAV, the replies, and what the storage does with the C string it is given.
- Sockets, request reading, HTML, and the rest of the request handlers.
- Fonts: copies that fail, temporary names left by a crash, links and deeper directories inside a family, storage that clones share, and an owner who edits the ledger's text.
- The log: disk errors, flush calls and the reentry guard, an owner who creates a new file under the log's name while it is open, or deletes one in the middle of a host line. One mutex serialises the calls, so events are atomic here.
- The gesture bindings, pad palette, field selection, appearance seed, sleep touch, shake responder and zen preference tables, the short closed forms beside them, the build scripts and the hardware stubs: only easy members.
