# golf++: what the game's rules keep

golf++ is a golf game with an online service. This project models the parts of it that
carry state or search text by hand, and proves what they keep over every input and every
run. `dafny verify dfyconfig.toml` checks all of it.

How it is laid out, by what it models:

- **Editing JSON in place.** `JsonScan` says what the cursor scanner computes, `JsonTree`
  is JSON as a syntax tree that keeps every byte, with lookup and update on the tree alone.
  `JsonRefinement` and `JsonFind` prove the scanner finds on printed trees what the lookup
  finds; `JsonParse` proves that every text it takes is a printed tree; `JsonEdit` draws
  the laws of the editor from the two; `JsonStandard` places the JSON of RFC 8259 among
  these trees. `JsonIndex` says which element a segment names. `JsonScanner` is the scanner with its cursor and loops, `JsonPath` the path syntax.
- **Movement by input.** `RunLength` is the encoding of steps, `MotionProtocol` the
  protocol and what every run of it keeps, `MotionOpen` when motion goes out, `MotionWire`
  the way from the queue to the steps the server plays, `MotionSync` the fields the game
  updates.
- **The content fingerprint.** `Fnv` and `ContentHash`; `ContentNames` says which files
  it is of.
- **Base files.** `BaseFiles`.
- **State machines of play.** `BallLife`, `BallLaws` and `CourseState` (ball, shot, mode and
  card of an offline course), `CartSeats`, `CartLaws` and `CartRide` (seats in carts
  against the server's rows), `Rejoin` (back into the room after an outage).
- **Algorithms.** `Floodlights`, `VisualTour`, `Effects`, `AnchorCache`, `XpDrops`.

Where the source updates fields, a class does too, and each of its methods is proved to do
what a function on the whole state does; runs are sequences of such events, and the
invariants and laws are about all of them.

Five places where the code and what is said of it differ are stated as exact conditions,
each with a run or an input that shows it:

- An action does not always follow the steps before it: while motion is held it overtakes
  those pending (`MotionProtocol.Barrier`, `MotionProtocol.ActionOvertakes`;
  src/game/motion_sync.h:15 and 117-118).
- A batch can mix steps on foot with steps at the wheel: walking on after the server has
  taken the wheel away, while motion is held (`MotionProtocol.StepMixes`,
  `MotionProtocol.KindsKeptApart`, `MotionProtocol.KindsMix`; src/game/motion_sync.h:110-113).
- Step numbers start again when the menu replaces the game's state
  (`MotionProtocol.NumberFalls`, `MotionProtocol.NumbersShared`,
  `MotionProtocol.NumbersAgain`; src/game/motion_sync.h:76-78). A server mover that joined
  anew plays them all the same, one that did not passes them over
  (`MotionWire.PlayedOnce`, `MotionWire.PlaysAll`).
- The terrain's revision falls when the menu's course fails to load, and then names two
  courses (`AnchorCache.RevisionRises`, `AnchorCache.StaleKey`; src/game/game_state.h:428).
- Content checked out with CRLF or with LF does not hash the same stream where a text
  already had a carriage return before a line feed, or two: only one is dropped
  (`ContentHash.CheckoutsAgree`, `ContentHash.DoubleTells`; src/game/content_hash.h:3-5).

## Model

| member | source | states |
|---|---|---|
| `JsonEdit.Finds` | src/game/json_edit.cpp:210-217 | For every text and path: a span is found exactly when the whole text is one value and the tree the text prints has a node at the path; the span is never empty, lies in the text, and holds exactly one value |
| `JsonEdit.PutGet` | src/game/json_edit.cpp:219-225 | For every text, path found there and replacement: the path finds exactly the replacement, at the old start, if and only if the replacement is one value with no white space around it (a caller can check that first) |
| `JsonEdit.GetPut` | src/game/json_edit.cpp:219-225 | Writing back the value that is there leaves the text byte for byte as it was |
| `JsonEdit.PutPut` | src/game/json_edit.cpp:219-225 | Of two values written at one path the later stands alone |
| `JsonEdit.PutElsewhere` | src/game/json_edit.cpp:219-225 | Every path that parts from the written one at some node (object keys by raw text, array segments by number) finds the same text as before, or nothing as before |
| `JsonEdit.PutInside` | src/game/json_edit.cpp:219-225 | A path through the written value finds what its rest finds in the replacement alone |
| `JsonEdit.PutAbove` | src/game/json_edit.cpp:219-225 | A path that stops above the written value finds its old text edited by the same replacement at the rest of the path |
| `JsonEdit.ReplaceIsUpdate` | src/game/json_edit.cpp:219-225 | Splicing the text is printing the updated tree between the white space the text had around it: nothing else changes |
| `JsonEdit.SpanIsExtent` | src/game/json_edit.cpp:210-217 | On a printed tree with any white space around it the span is the printed extent of the node a tree lookup finds, and nothing when the lookup finds nothing |
| `JsonEdit.GetIsLookup` | src/game/json_edit.cpp:210-217 | The text at a path is the print of the node looked up |
| `JsonEdit.PrintUpdate` | src/game/json_edit.cpp:219-225 | A node is printed at its offset, and printing an update is splicing the new print there |
| `JsonEdit.OffsetOfUpdate` | src/game/json_edit.cpp:219-225 | An update does not move where its own path starts |
| `JsonEdit.UpdateIsNode` | src/game/json_edit.cpp:219-225 | Updating a well-formed tree with a well-formed value gives a well-formed tree |
| `JsonEdit.NodeEdited` | src/game/json_edit.cpp:219-225 | Replacing in the text of one node is printing that node updated |
| `JsonTree.LensLaws` | src/game/json_edit.cpp:219-225 | Lookup and update on trees obey put-get, get-put and put-put |
| `JsonTree.PartsOrAlong` | src/game/json_edit.cpp:143-189 | Of two paths, the first found, exactly one thing holds: they part at some node, or one runs along the other; so the three laws about other paths leave none out |
| `JsonTree.LookupElsewhere` | src/game/json_edit.cpp:143-189 | An update is not seen along a path that parts from it |
| `JsonTree.LookupInside` | src/game/json_edit.cpp:27-43 | Through the updated node a lookup goes on in the new value |
| `JsonTree.LookupAbove` | src/game/json_edit.cpp:27-43 | Above the updated node a lookup finds the old container with the update in it |
| `JsonTree.PickOfSet` | src/game/json_edit.cpp:143-189 | Replacing a child changes which child no path segment picks: of repeated keys still the first, and indices still count the same |
| `JsonRefinement.ScanNode` | src/game/json_edit.cpp:50-64 | Wherever a tree is printed and no scalar runs on after it, the scanner stops exactly at its end: it depends on the bytes of the value and one byte after |
| `JsonRefinement.ScanItems` | src/game/json_edit.cpp:124-141 | From any item on, a printed container is scanned to just past its bracket |
| `JsonRefinement.BodyRun` | src/game/json_edit.cpp:75-86 | A string whose backslashes each escape one character ends at its closing quote and not before |
| `JsonRefinement.KeyRun` | src/game/json_edit.cpp:89-99 | A printed key is read back as written, its white space aside |
| `JsonFind.FindNode` | src/game/json_edit.cpp:27-43 | On any printed tree, at any cursor, the search for a path returns the printed extent of the node a lookup finds, or nothing when there is none |
| `JsonFind.FindMemberItems` | src/game/json_edit.cpp:143-163 | In an object the first member whose key is written the same is searched on, others are passed over |
| `JsonFind.FindElementItems` | src/game/json_edit.cpp:165-189 | In an array exactly the element of that number is searched on |
| `JsonIndex.ElementByNumber` | src/game/json_edit.cpp:165-189 | On every array, white space around it: a number of at most nine characters, zeros before it included, finds exactly the element of that number where it is printed, and nothing past the last; numbers written by repeated division |
| `JsonIndex.NotANumber` | src/game/json_edit.cpp:171 | A segment that is empty, of ten or more characters, or not of digits alone finds nothing in an array, whatever follows it |
| `JsonIndex.DigitsAreDecimal` | src/game/json_edit.cpp:171-180 | Every run of digits is such a number, so the two leave no segment out |
| `JsonIndex.IndexOfDecimal` | src/game/json_edit.cpp:180 | The number read from decimal digits, zeros before them, is the one written |
| `JsonIndex.Alphabets` | src/game/json_edit.cpp:12-19 | The white space of RFC 8259, section 2, and the scalar characters are exactly those listed |
| `JsonParse.DocumentIsPrinted` | src/game/json_edit.cpp:210-215 | The texts accepted as one value are exactly the printed well-formed trees with white space around them |
| `JsonParse.NodeRead` | src/game/json_edit.cpp:50-64 | Every value the scanner takes is the print of a well-formed tree, ending where the scanner stopped |
| `JsonParse.RootOfPrint` | src/game/json_edit.cpp:210-215 | Every well-formed tree is read back from its print, so no text is printed from two and the laws about a text's tree are about any tree that prints it |
| `JsonParse.ItemsRead` | src/game/json_edit.cpp:124-141 | Every list of items the scanner takes is the print of well-formed items up to its closing bracket |
| `JsonParse.BodyRead` | src/game/json_edit.cpp:75-86 | What the scanner takes for a string body has every backslash escaping one character, no bare quote, and a quote after it |
| `JsonStandard.StandardIsNode` | src/game/json_edit.cpp:50-64 | Every JSON tree of RFC 8259 (literal names, numbers, strings, arrays and objects, white space anywhere) is one the scanner takes |
| `JsonStandard.StandardSpans` | src/game/json_edit.cpp:210-217 | So on every JSON text a path finds the printed extent of the node the lookup finds, and nothing exactly when the lookup fails |
| `JsonScanner.Scanner.SkipString` | src/game/json_edit.cpp:75-86 | The loop moves the cursor as the string scan is defined, past the end after a dangling backslash |
| `JsonScanner.Scanner.ReadKey` | src/game/json_edit.cpp:89-99 | The key is the raw text between its quotes, and the cursor is past them |
| `JsonScanner.Scanner.NextItem` | src/game/json_edit.cpp:111-122 | The cursor goes past a comma or the bracket, whichever is there, and stays before anything else |
| `JsonScanner.Scanner.SkipOne` | src/game/json_edit.cpp:50-64 | Mutually recursive with the container loop, terminates on every text from every cursor, and leaves the cursor where the value ends |
| `JsonScanner.Scanner.SkipAll` | src/game/json_edit.cpp:124-141 | The item loop is the recursive scan of the items, from every start |
| `JsonScanner.Scanner.FindFrom` | src/game/json_edit.cpp:27-43 | The cursor search finds the span the search function gives, for any path from any segment on |
| `JsonScanner.Scanner.FindInObject` | src/game/json_edit.cpp:143-163 | The member loop gives the first member of that raw key, or nothing |
| `JsonScanner.Scanner.FindInArray` | src/game/json_edit.cpp:165-189 | The counting loop gives the element of that number, or nothing for a segment of no or more than nine digits |
| `JsonScanner.JsonValueSpan` | src/game/json_edit.cpp:210-217 | Terminates on every text and returns the span the laws are about, the whole text checked by a scanner of its own first |
| `JsonScanner.ReplaceJsonValue` | src/game/json_edit.cpp:219-225 | Returns the text the laws are about; its slices are always in bounds |
| `JsonPath.SplitInvertsJoin` | src/game/json_edit.cpp:196-208 | A text is read as a path exactly when the path has a segment, none empty and none with a slash, and joined with slashes is the text |
| `JsonPath.SplitReads` | src/game/json_edit.cpp:196-208 | Whatever is read as a path joins to the text it was read from |
| `JsonPath.SplitWritten` | src/game/json_edit.cpp:196-208 | Every path of slash-free, non-empty segments is read back from its joined text |
| `JsonPath.ParseJsonPath` | src/game/json_edit.cpp:196-208 | The nested loops read the path the laws above are about, or none |
| `RunLength.AppendExpands` | src/game/movement_step.cpp:43-50 | One step appended stands for the steps before and that one |
| `RunLength.AppendKeepsRuns` | src/game/movement_step.cpp:43-50 | Runs keep 1 to 65535 steps, a jump stands alone, and only a full run is followed by one of the same input |
| `RunLength.EncodeLossless` | src/game/movement_step.cpp:43-50 | Encoding any inputs and expanding gives them back, canonically encoded |
| `RunLength.EncodeCanonical` | src/game/movement_step.cpp:43-50 | A canonical encoding is the one its own steps encode to |
| `RunLength.RunsAreUnique` | src/game/movement_step.cpp:43-50 | Two canonical encodings of the same steps are equal |
| `RunLength.PlayRunsIsPlay` | src/game/movement_step.cpp:43-50 | For any step function, playing the runs is playing the steps they stand for |
| `MotionProtocol.ExactlyOnce` | src/game/motion_sync.cpp:90-213 | In every run of steps, ticks, sends, flushes, actions, corrections, refusals, resets, room changes, sendings and new states: the batches in the order pushed, then the pending steps, tell exactly the steps taken online since the state was made and not dropped, each with its number, and the numbers rise |
| `MotionProtocol.NothingLost` | src/game/motion_sync.cpp:165-195 | In any stretch of any run online with nothing dropped in it, each step is told once, numbered on from where the stretch began, after what was told or pending then |
| `MotionProtocol.NumbersGoOn` | src/game/motion_sync.cpp:165-213 | From any point, while the state lasts, as many numbers are taken as steps, resets or not: none is skipped or used twice |
| `MotionProtocol.NumberFalls` | src/core/app.cpp:373-386 | The number falls exactly when a new state takes the place of one that took steps, against "never goes back while the game runs" (src/game/motion_sync.h:76) |
| `MotionProtocol.NumbersShared` | src/core/app.cpp:373-386 | Two steps of a run share a number if and only if a new state comes between two of its steps |
| `MotionProtocol.NumbersAgain` | src/core/app.cpp:373-398 | A run that does: two states, each online with motion open, push a batch of the same number |
| `MotionProtocol.BatchesSpan` | src/game/motion_sync.cpp:90-114 | Every non-empty batch is canonical, its last number is its first plus its steps less one, and it starts where the step of its first number was taken, or was moved to by corrections while pending |
| `MotionProtocol.BatchesRise` | src/game/motion_sync.cpp:90-114 | Any two non-empty batches one state pushed span disjoint, rising numbers, whatever was dropped between them |
| `MotionProtocol.BatchesMeet` | src/game/motion_sync.cpp:90-114 | Between drops, at any point of any run, the next non-empty batch starts right after the last |
| `MotionProtocol.PushKeepsValid` | src/game/motion_sync.cpp:90-114 | A push moves all that is pending to the end of what is told |
| `MotionProtocol.StepKeepsValid` | src/game/motion_sync.cpp:165-195 | A recorded step is told last, under its own number, despite the number being taken back around the push in its middle |
| `MotionProtocol.DropKeepsValid` | src/game/motion_sync.cpp:209-213 | A reset or refusal drops exactly the pending steps, which are the last ones kept, and leaves every batch a batch |
| `MotionProtocol.CorrectKeepsValid` | src/game/sync_reconciliation.cpp:184-199 | A correction moves where the pending steps started and no batch pushed |
| `MotionProtocol.RunKeepsValid` | src/game/motion_sync.cpp:90-213 | The invariant behind these holds after every run |
| `MotionProtocol.SendsWhenItMay` | src/game/motion_sync.cpp:145-207 | Each way of sending leaves nothing pending exactly when it may send or nothing was pending; none changes what is told |
| `MotionOpen.WhenMotionGoes` | src/game/motion_sync.cpp:116-163 | In every run, in terms of the round, the ride, the camera and the ball alone: exactly when a tick, a send, a flush and an action push a batch; a push leaves nothing pending and everything told, and with the round over and nobody waited for nothing is pushed |
| `MotionOpen.WhenStepsGo` | src/game/motion_sync.cpp:171-194 | In every run a step pushes what is pending exactly when it may not join it (other kind, or on foot from elsewhere) and motion may be sent and is not held, and is then pending alone from where I stand; else it joins |
| `MotionOpen.OnlineSince` | src/game/game_state.h:316-319 | In every run: online exactly when the last course was started so and no new state came since |
| `MotionOpen.RunsAreSmall` | src/game/movement_step.cpp:43-50 | The limits in figures: 1 to 65535 steps a run, a jump alone, the same input again only after 65535 |
| `MotionProtocol.Barrier` | src/game/mode_dispatch.cpp:53-56 | In every run an action stands at the queue's end, and every step recorded before it stands in batches ahead of it if and only if motion may be sent and is not held, or nothing was pending; so while motion is held an action overtakes pending steps, against the header's "before any action" (src/game/motion_sync.h:15) |
| `MotionProtocol.BarrierHolds` | src/game/mode_dispatch.cpp:53-56 | An action pushed with motion open stays behind all steps before it, whatever follows in that state |
| `MotionProtocol.ActionOvertakes` | src/game/mode_dispatch.cpp:53-56 | A run that shows the other case: one step taken, then an action while the server corrects my ball, and the action is pushed alone, the step still pending |
| `MotionProtocol.StepMixes` | src/game/motion_sync.cpp:171-184 | A step puts walking and driving into one batch exactly when the other kind is pending and motion may not be sent or is held |
| `MotionProtocol.KindsMix` | src/game/motion_sync.cpp:171-184 | A run that shows it: a step at the wheel, which the server then takes away (src/game/golf_cart.cpp:589-597, sending nothing), and a step on foot while it still corrects my ball |
| `MotionProtocol.BoardingSends` | src/game/golf_cart.cpp:256-257 | Getting into a cart is no such case: it pushes what is pending, held or not, so a step at the wheel after it mixes nothing |
| `MotionProtocol.KindsKeptApart` | src/game/motion_sync.cpp:171-184 | In every run no batch has mixed the two at any time if and only if no step has met the other kind pending while motion may not be sent or is held |
| `MotionProtocol.OpenKeepsApart` | src/game/motion_sync.cpp:171-184 | So when every step is recorded with motion open no batch ever mixes the two |
| `MotionProtocol.PlacedIsKept` | src/game/motion_sync.cpp:165-213 | In every run a place is remembered if and only if some step on foot ended with no later step at the wheel, step from elsewhere, or drop; and it is that step's motion at the last place a step or a correction put me |
| `MotionProtocol.BatchIsPlaced` | src/game/motion_sync.cpp:97-107 | In every run a batch of steps on foot carries that motion at that place, any other my motion now |
| `MotionSync.MotionState.constructor` | src/game/motion_sync.cpp:209-213 | Starts with nothing pending and number 0 |
| `MotionSync.MotionState.Append` | src/game/movement_step.cpp:43-50 | In place: the runs stand for the steps before and the new one |
| `MotionSync.MotionState.PushMotion` | src/game/motion_sync.cpp:90-114 | Updates the pending runs and the queue in place as the push whose batches the laws are about, the runs moved out before the motion is worked out |
| `MotionSync.MotionState.SyncMotion` | src/game/motion_sync.cpp:145-157 | Updates in place as the tick: a push only when online, not finished, not held and due |
| `MotionSync.MotionState.SendMotionNow` | src/game/motion_sync.cpp:159-163 | Updates in place as the send, held or not |
| `MotionSync.MotionState.SendSteps` | src/game/motion_sync.cpp:203-207 | Updates in place as the flush: never an empty batch |
| `MotionSync.MotionState.PushCommand` | src/game/mode_dispatch.cpp:53-56 | Updates in place as the action the barrier is about: flush first, then the action at the queue's end |
| `MotionSync.MotionState.SendBefore` | src/game/motion_sync.cpp:171-188 | With the number taken back and put on again around the push, the fields change as if the step had no number yet |
| `MotionSync.MotionState.RecordStep` | src/game/motion_sync.cpp:165-195 | Updates in place as the step the exactly-once law is about, and returns the number told for it, one above the last |
| `MotionSync.MotionState.SteppedOnFoot` | src/game/motion_sync.cpp:197-201 | Remembers where the step ended and changes nothing else |
| `MotionSync.MotionState.Reset` | src/game/motion_sync.cpp:209-213 | Forgets all pending motion and keeps the number and the queue |
| `MotionSync.MotionState.Correct` | src/game/sync_reconciliation.cpp:196-199 | Moves where the pending steps started and where the last one ended |
| `MotionSync.MotionState.DiscardPending` | src/game/sync_reconciliation.cpp:40-51 | The loop takes exactly the batches out of the queue, and nothing stays pending |
| `MotionSync.MotionState.ChangeRoom` | src/net/net_client.cpp:604-614 | Pending motion and the queue are gone, the number is kept |
| `MotionWire.EndToEnd` | src/net/net_client.cpp:309-415 | Over any stretch of any run online without loss: what a server mover that joined as it began has played, then what is queued and pending, is what was queued and pending then and every step taken since, each once, in order |
| `MotionWire.PlayedOnce` | server/golfpp_module/src/movement_rules.cpp:136-149 | Whatever is refused, cleared or not taken by the connection: a mover that joins at any point plays all that goes out from then on, each step once, in order |
| `MotionWire.SentInOrder` | src/net/net_client.cpp:309-415 | In every run what went out and then what is queued are commands of the log, each once, in the order pushed |
| `MotionWire.QueueIsHeld` | src/game/sync_reconciliation.cpp:40-51 | In every run the queue the game holds is that part of the log, and the rest of its state does not depend on it |
| `MotionWire.ActionsKept` | src/game/sync_reconciliation.cpp:47-50 | A refusal keeps every action queued and no batch |
| `MotionWire.NoneLost` | src/net/net_client.cpp:309-415 | Without refusals, room changes and failed sendings all pushed since is out or queued |
| `MotionWire.PartRises` | server/golfpp_module/src/movement_rules.cpp:136-149 | Commands taken from the log in order tell rising numbers |
| `MotionWire.PlaysRest` | server/golfpp_module/src/movement_rules.cpp:145-149 | Of steps told in rising order exactly those above the last one played are played |
| `MotionWire.PlaysAll` | server/golfpp_module/src/movement_rules.cpp:145-149 | All of them are played if and only if the first is above the last one played: so a new state's steps need a mover that joined anew (server/golfpp_module/src/lib.cpp:819-826) |
| `MotionWire.PlayedAgain` | server/golfpp_module/src/movement_rules.cpp:145-148 | A batch that comes again changes nothing |
| `MotionWire.PlayMove` | server/golfpp_module/src/movement_rules.cpp:136-149 | The loops over runs and steps play the batch's steps in turn, passing over those played already |
| `Fnv.MixIsBijection` | src/game/content_hash.cpp:22 | For each byte the step maps the 64-bit words one to one onto themselves |
| `Fnv.MixTellsBytes` | src/game/content_hash.cpp:22 | From one word, different bytes lead to different words |
| `Fnv.OneByteShows` | src/game/content_hash.cpp:21-22 | Streams of one length that differ in exactly one byte hash differently |
| `Fnv.XorAgain` | src/game/content_hash.cpp:22 | Exclusive or with the same number undoes itself |
| `Fnv.MultipliedBack` | src/game/content_hash.cpp:22 | Modulo 2^64 the multiplication by the prime is undone by its inverse, and the other way round |
| `ContentHash.StreamTellsContent` | src/game/content_hash.cpp:23-43 | The hashed streams of two maps are equal if and only if their simulation files' normalised paths and texts are, in order |
| `ContentHash.FrameTells` | src/game/content_hash.cpp:28-36 | A frame tells what it holds and where it ends, whatever follows |
| `ContentHash.FramesTell` | src/game/content_hash.cpp:28-43 | A stream of frames tells the list of what is framed |
| `ContentHash.LittleEndianTells` | src/game/content_hash.cpp:28-31 | Length bytes tell the length |
| `ContentHash.CrlfNormal` | src/game/content_hash.cpp:25-27 | Text with carriage returns put before its line feeds normalises back to the text |
| `ContentHash.LfNormal` | src/game/content_hash.cpp:25-27 | Normalising changes a text exactly when a carriage return stands right before a line feed |
| `ContentHash.MixedNormal` | src/game/content_hash.cpp:25-36 | Carriage returns put before any choice of a text's line feeds normalise away if and only if every line feed that had one already is chosen; so always, in a text with line feeds alone |
| `ContentHash.MixedOf` | src/game/content_hash.cpp:25-36 | Every text is its normalised text with carriage returns put in |
| `ContentHash.EndingsExactly` | src/game/content_hash.cpp:25-36 | Two texts are mixes of line endings of one text if and only if they normalise alike and have no two carriage returns before a line feed |
| `ContentHash.CrlfAgrees` | src/game/content_hash.cpp:25-36 | A text and its CRLF form agree if and only if it has no carriage return before a line feed already |
| `ContentHash.LfAgrees` | src/game/content_hash.cpp:25-36 | A text and its LF form agree if and only if it has no two carriage returns before a line feed |
| `ContentHash.CheckoutsAgree` | src/game/content_hash.cpp:20-45 | Content rewritten to CRLF, or to LF, hashes the same stream if and only if every simulation file's text is so |
| `ContentHash.DoubleTells` | src/game/content_hash.cpp:25-36 | Texts that show both failing |
| `ContentHash.EndingsAside` | src/game/content_hash.cpp:20-45 | Maps whose texts are any two mixes of line endings of the same texts have the same content and fingerprint |
| `ContentHash.OthersAside` | src/game/content_hash.cpp:6-17 | Files outside the simulation's folders, or not JSON, change neither content nor fingerprint |
| `ContentNames.SimulationTold` | src/game/content_hash.cpp:6-17 | With the five folders and the suffix written out: a file at folder, slash, any name, .json whose text changes beyond line endings changes what is hashed |
| `ContentNames.OthersUntold` | src/game/content_hash.cpp:6-17 | Any other file can be added or taken out anywhere without changing what is hashed |
| `ContentNames.NamesTaken` | src/game/content_hash.h:15-17 | Each such path is the simulation's |
| `ContentNames.NamesLeft` | src/game/content_hash.cpp:6-17 | No other path is |
| `ContentNames.OneFileLaidOut` | src/game/content_hash.cpp:23-43 | Byte by byte: the path's length in eight bytes, lowest first, the path, the text's length so, the text |
| `ContentNames.LengthBytes` | src/game/content_hash.cpp:29-31 | The k-th length byte is the length over 256 to the k, below 256 |
| `ContentNames.KnownHashes` | src/game/content_hash.cpp:21-22 | The values published for 64-bit FNV-1a of nothing and of the byte of "a" |
| `ContentHash.OneByteApart` | src/game/content_hash.cpp:20-45 | Maps whose streams are of one length and differ in one byte never share a fingerprint |
| `ContentHash.CountBytes` | src/game/content_hash.cpp:24-27 | The counting loop's length is the length of the normalised text |
| `ContentHash.HashLength` | src/game/content_hash.cpp:28-31 | Hashes on exactly the eight length bytes, lowest first |
| `ContentHash.HashBytes` | src/game/content_hash.cpp:32-36 | The emitting loop hashes on exactly the normalised text |
| `ContentHash.HashText` | src/game/content_hash.cpp:23-37 | The length framed is the length emitted: the text's frame is hashed on |
| `ContentHash.SimulationContentHash` | src/game/content_hash.cpp:20-45 | The fingerprint is FNV-1a of the framed stream the laws are about |
| `BaseFiles.ResolvesExactly` | src/game/json_util.cpp:129-170 | A file resolves if and only if a chain of bases starts at it, all present, all objects, each base a string, to a file without one, with the kinds along it agreeing: cycles included |
| `BaseFiles.ResolvedKeys` | src/game/json_util.cpp:148-162 | The result has no base; a plain key has the value of the nearest file in the chain; a merged key is the member-wise overlay down the chain |
| `BaseFiles.TwoFiles` | src/game/json_util.cpp:129-163 | One file on one base, with "base" and "kind" written out: when it resolves, and each key of what it resolves to; a file with no base is itself, one with a base that is no string or is itself is refused |
| `BaseFiles.CyclesRefused` | src/game/json_util.cpp:131-143 | Files whose bases lead round to the first resolve to nothing |
| `BaseFiles.ChainsMeet` | src/game/json_util.cpp:129-143 | No file stands twice in a chain |
| `BaseFiles.ResolveChain` | src/game/json_util.cpp:129-163 | Along a chain clear of the names being resolved, the recursion lays the chain over from its end, if its kinds agree |
| `BaseFiles.ChainOf` | src/game/json_util.cpp:129-143 | Whatever resolves has a chain, clear of the names being resolved |
| `BaseFiles.PlainKeys` | src/game/json_util.cpp:148-160 | Laid over, a plain key has the nearest file's value |
| `BaseFiles.MergedKeys` | src/game/json_util.cpp:148-160 | Laid over, a merged object has each member from the nearest file that has it, as far up as the key stays an object |
| `BaseFiles.KindsAgreeStep` | src/game/json_util.cpp:144-147 | The check of one file against its resolved base, all along, is that each named kind is the nearest kind of what it builds on |
| `BaseFiles.NoBaseLaid` | src/game/json_util.cpp:161 | No base is left in what is laid over |
| `BaseFiles.MergeMembers` | src/game/json_util.cpp:153-157 | The member loop overlays the file's members on the base's |
| `BaseFiles.LayFile` | src/game/json_util.cpp:148-162 | The loop over the file's members gives the file laid over its base, its base's name erased, in whatever order the members come |
| `BaseFiles.ResolveBase` | src/game/json_util.cpp:129-163 | Terminates on every file map and gives what the resolving function gives |
| `CartSeats.SeatsAgree` | src/game/golf_cart.cpp:584-612 | In every online run with any server rows, right after following the rows a golfer sat in a seat, or driving, is in that seat in the server's row, and was confirmed |
| `CartSeats.RunKeepsValid` | src/game/golf_cart.cpp:60-121 | In every run, online nobody sits without a step playing in a seat never confirmed |
| `CartSeats.ApplyKeepsValid` | src/game/golf_cart.cpp:244-268 | Every operation, room change and change of the rows keeps that |
| `CartSeats.FollowedRide` | src/game/golf_cart.cpp:584-612 | What following the rows leaves of a ride, for every state of the handshake |
| `CartSeats.FollowKeepsRide` | src/game/golf_cart.cpp:584-612 | A ride is kept if and only if the server agrees, I am stepping out, or it is still to be confirmed |
| `CartSeats.AdoptKeepsSeat` | src/game/golf_cart.cpp:614-629 | Taking over the server's cart keeps my seat but when I drive it and it has overturned |
| `CartSeats.RideWasAsked` | src/game/golf_cart.cpp:244-268 | In every run a ride has one beginning: on foot, at a seat nobody had or stood in the way of, online with one request pushed for it; and its cart, seat and time are that beginning's |
| `CartSeats.SatInTime` | src/game/golf_cart.cpp:60-95 | In every run whoever sits has sat down at a frame by which the frames' time since that beginning was up, and online only once confirmed |
| `CartSeats.RequestsApart` | src/game/golf_cart.cpp:244-268 | Between two requests of a run the earlier ride has ended |
| `CartSeats.LeavesAsked` | src/game/golf_cart.cpp:97-121 | In every run the server is told of leaving only for a seat that was asked for, of the wheel exactly when it was the wheel |
| `CartLaws.LeavingTold` | src/game/golf_cart.cpp:97-121 | In every run a step out begins exactly when, sat in a cart that stands about, interact is pressed, and online tells the server once: leaving the wheel of my own cart, the seat of another's. Being put out at once tells it exactly of a passenger's seat the row still gives me. Nothing else tells of leaving |
| `CartLaws.StepPlays` | src/game/golf_cart.cpp:60-95 | A step plays on by each frame's time; one out ends the ride when its time is up, one in ends sat when its time is up and, online, it is confirmed, and waits until then |
| `CartLaws.BoardsExactly` | src/game/golf_cart.cpp:244-268 | In every run, on foot: going to a seat begins a ride exactly when nobody else has it or stands in the way, else changes nothing; online my own cart is first taken over as its row has it |
| `CartLaws.TipsOver` | src/game/golf_cart.cpp:136-182 | Driving tips the cart over exactly at my own wheel, putting me out of it; else a frame sat changes nothing |
| `CartLaws.RowIsTaken` | src/game/golf_cart.cpp:584-629 | In every online run following the rows takes over my cart's row unless I am at its wheel and the row has me there |
| `CartLaws.ParkedAnew` | src/game/golf_cart.cpp:317-328 | Parked anew my cart stands upright, online as its row has it, and nobody sits |
| `CartLaws.RowsComeIn` | src/net/net_client.cpp:604-614 | New rows change nothing else of mine; another room takes the ride and tells nobody |
| `CartLaws.RowsHaveMe` | src/game/golf_cart.cpp:584-612 | Seat agreement by the rows themselves: the driver of my row at my wheel, the passenger of the other's row in its seat |
| `CartRide.CartState.FollowServerCarts` | src/game/golf_cart.cpp:584-612 | In place; and from any state of a run a golfer left sitting has the server's agreement |
| `BallLife.StateFits` | src/game/course_session.cpp:95-183 | In every reachable offline state: a playing shot has a ball not in its cup, addressing has a ball in play and no shot, following has a shot, a ball in play on a scored course is on a hole not yet scored, and its strokes are those since its tee-up |
| `BallLife.ScoresAreTrue` | src/game/course_session.cpp:128-141 | In every run each score is the shots struck since that hole's tee-up plus their penalty strokes, each hole is scored once a round, and the card shows exactly the scores since the round started |
| `BallLife.CardCleared` | src/game/course_session.cpp:163-169 | A score leaves the card only when a round starts |
| `BallLife.BallStays` | src/game/game_state.cpp:299-365 | No frame of a scored round takes a ball in play off its hole, or a stroke off it, but the answer to the give-up question at another tee |
| `BallLaws.ShotFrame` | src/game/game_state.cpp:227-271 | In every reachable state with a shot playing: before its time is up a frame only plays it on; the frame that ends it has the ball in its cup, and on a scored course the hole scored, if and only if the shot is holed, and adds exactly its penalty |
| `BallLaws.AddressFrame` | src/game/address_play.cpp:238-307 | In every reachable state over the ball: a frame strikes exactly when a swing under way reaches the ball; a swing begins from the club held back, and the ball is left without a club or by cancelling before |
| `BallLaws.WalkFrame` | src/game/game_state.cpp:86-158 | In every reachable state on foot with no shot playing: exactly when pressing tees up, asks, steps up or picks the ball up, and that nothing else changes |
| `BallLaws.ScoresAreHoled` | src/game/course_session.cpp:128-141 | In every run an event scores a hole if and only if it is a frame that ends a holed shot on a scored course; no note is taken back |
| `BallLaws.EveryScoreWasHoled` | src/game/course_session.cpp:128-141 | So each score has the frame that ended its holed shot |
| `BallLaws.BetweenFrames` | src/game/course_session.cpp:53-169 | Giving up takes the ball in play away and scores nothing; the card starts over exactly when every hole is scored; a course starts with a clear card and no ball |
| `BallLaws.TeeUpRefused` | src/game/course_session.cpp:95-126 | A tee-up is refused exactly off the course and, in a round, for a hole scored, for the ball's own hole, with the ball in its cup, or with it in play and not given up |
| `BallLaws.StepUpAddresses` | src/game/address_play.cpp:201-219 | Stepping up addresses the ball exactly with a club, a ball and the bag down, a swing half made forgotten |
| `BallLaws.AceScores` | src/game/game_state.cpp:299-365 | A run that scores: teed up, swung and holed in one, the card says one, the ball is in its cup and the log tells it |
| `BallLaws.RunSettled` | src/game/game_state.cpp:86-158 | In every reachable state a question is open only on foot with no shot playing, and practice is never scored |
| `BallLife.FrameKeepsValid` | src/game/game_state.cpp:299-365 | Every frame, in every mode and on every input, keeps ball, shot, mode, card and log together |
| `BallLife.WalkKeepsValid` | src/game/game_state.cpp:136-158 | Walking, with the give-up question open or not, keeps it |
| `BallLife.InteractKeepsValid` | src/game/game_state.cpp:86-132 | Interacting with the nearest thing keeps it |
| `BallLife.AddressKeepsValid` | src/game/address_play.cpp:238-307 | Addressing, metering and swinging keep it |
| `BallLife.LaunchKeepsValid` | src/game/address_play.cpp:146-184 | A launched shot counts one stroke and leaves the ball in play |
| `BallLife.PlayShotKeepsValid` | src/game/game_state.cpp:227-271 | A shot playing out, penalised or holed, keeps it |
| `BallLife.TeeUpKeepsValid` | src/game/course_session.cpp:95-126 | Teeing up keeps it, and starts the count anew |
| `BallLife.CompleteKeepsValid` | src/game/course_session.cpp:128-141 | A completed hole is scored with the strokes since its tee-up, and the ball is no longer in play |
| `BallLife.GiveUpKeepsValid` | src/game/course_session.cpp:154-161 | Giving up scores nothing and keeps it |
| `BallLife.NextRoundKeepsValid` | src/game/course_session.cpp:163-169 | The next round clears the card, the ball in its cup staying, and keeps it |
| `BallLife.CourseKeepsValid` | src/game/course_session.cpp:53-93 | Starting a course keeps it |
| `BallLife.StepUpKeepsValid` | src/game/address_play.cpp:201-219 | Stepping up to a ball in play keeps it |
| `CourseState.GameState.TeeUp` | src/game/course_session.cpp:95-126 | Refused exactly for a hole not on the course or already scored, a ball in its cup, or a ball in play not given up or on that hole |
| `CourseState.GameState.AnswerGiveUpPrompt` | src/game/game_state.cpp:136-158 | The question is answered exactly on interact, on foot, at its open tee with a ball in play; dropped exactly when it no longer applies |
| `CourseState.GameState.UpdateShotPlayback` | src/game/game_state.cpp:227-271 | In place, the ball's strokes, its shot and the card change as one frame of a shot says |
| `CourseState.GameState.UpdateGame` | src/game/game_state.cpp:299-365 | A whole frame, the mode's step and then the shot's, which keeps the invariant |
| `Rejoin.JoinsAfterOutage` | src/core/online_session.cpp:87-125 | Over any trace a join is sent on exactly the frames back, nothing refused and an account known, after an outage with no join and no end since |
| `Rejoin.RestartsAfterJoin` | src/core/online_session.cpp:87-125 | The round starts over on exactly the frames back in a ready room after a join sent on an earlier frame, with no outage and no report since |
| `Rejoin.LostExactly` | src/core/online_session.cpp:87-125 | The round is lost on exactly the frames signed out or failed, those back after an outage whose join was refused, and those connected outside the room with no outage open |
| `Rejoin.OneJoinAnOutage` | src/core/online_session.cpp:87-125 | Between two joins there is an outage |
| `Rejoin.OneRestartAnOutage` | src/core/online_session.cpp:87-125 | Between two restarts there is an outage, and its join before the second |
| `Rejoin.QuietUntilOutage` | src/core/online_session.cpp:87-130 | After a round is left or lost nothing is joined or started over until the next outage |
| `Rejoin.WhyRejoining` | src/core/online_session.cpp:87-130 | A session rejoining has the outage, or the join, that made it so |
| `Rejoin.OnlineSession.WatchRound` | src/core/online_session.cpp:87-125 | The fields, the report and the join sent are those of the trace's step |
| `Rejoin.OnlineSession.LeaveRound` | src/core/online_session.cpp:127-130 | Leaving ends the rejoining |
| `VisualTour.NeverDips` | src/core/visual_tour.cpp:38-63 | For every ring size and ease, windows longer than the ring included, the mean of the largest nearby is at least the required height at every index |
| `VisualTour.ChangesSlowly` | src/core/visual_tour.cpp:38-63 | Neighbouring heights, the last and the first too, differ by at most the range over (2 ease + 1), and stay in the range |
| `VisualTour.WindowsMeet` | src/core/visual_tour.cpp:38-63 | Every index the mean takes in has the middle in its own window |
| `VisualTour.LargestIsBound` | src/core/visual_tour.cpp:38-50 | The largest is at least each value in its window |
| `VisualTour.LargestIsThere` | src/core/visual_tour.cpp:38-50 | The largest is a value of its window |
| `VisualTour.SumMovesOn` | src/core/visual_tour.cpp:52-63 | Moving the window on drops one value and takes in one |
| `VisualTour.WrappedIsRound` | src/core/visual_tour.cpp:38-63 | The index worked out with a remainder that takes the dividend's sign is the place round the ring, negative offsets included |
| `VisualTour.LowestClears` | src/core/visual_tour.cpp:84-106 | The required height clears the ground and every tree in reach |
| `VisualTour.LowestExactly` | src/core/visual_tour.cpp:84-102 | The height asked for, field by field, is at least the flight's own and each near crown's clearance, and is one of them |
| `VisualTour.WindowIs` | src/core/visual_tour.cpp:38-50 | The largest is over exactly the places up to the reach before and after |
| `VisualTour.RingMaxOf` | src/core/visual_tour.cpp:38-50 | The loops give the largest of each window |
| `VisualTour.RingMeanOf` | src/core/visual_tour.cpp:52-63 | The loops give the mean of each window |
| `VisualTour.TourHeights` | src/core/visual_tour.cpp:84-106 | The eye clears its ground and the top of every tree in reach, at every point |
| `VisualTour.FlightClears` | src/core/visual_tour.cpp:66-106 | At any place of the flight, between the points too: over a tree's crown the eye, mixed from the two heights beside it, is above the tree's top, for neighbouring points at most the spacing apart |
| `VisualTour.Triangle` | src/core/visual_tour.cpp:92-99 | The triangle inequality by squares, for which the reach has the spacing added |
| `Floodlights.PoleNear` | src/game/floodlights.cpp:205-227 | Every cell in reach is tried at most once, in ring order, up to the one taken; a pole is found exactly when some cell is open with a clear beam, and then at the first such cell |
| `Floodlights.FirstIsNearest` | src/game/floodlights.cpp:205-227 | There is one such cell, and no good cell lies in a smaller ring |
| `Floodlights.OrderIsTotal` | src/game/floodlights.cpp:205-227 | The order of trying is strict and total |
| `Floodlights.CandidateLies` | src/game/floodlights.cpp:205-227 | Along crossing unit directions a cell lies its number of steps out and to the side |
| `Floodlights.FirstPole` | src/game/floodlights.cpp:237-245 | The pole of the first try that has any place, none exactly when no try has |
| `Floodlights.Add` | src/game/floodlights.cpp:237-245 | A wanted pole is put up where its first try with a place has it, or left out |
| `Floodlights.PlaceHoleFloodlights` | src/game/floodlights.cpp:256-309 | A hole's wanted poles are served in turn, tee, fairway and green, each seeing those before |
| `Floodlights.PlaceFloodlights` | src/game/floodlights.cpp:312-323 | All poles of all holes are pairwise at least two pole radii and the clearance apart, each wanted one served in turn |
| `Floodlights.ServedKeepsApart` | src/game/floodlights.cpp:138-184 | Serving one more keeps all poles apart |
| `Floodlights.StagesApart` | src/game/floodlights.cpp:256-323 | So after every one of them |
| `Floodlights.StandingPoles` | src/game/floodlights.cpp:138-184 | All over the course, by their coordinates: poles stand on open ground with a clear beam to what they light, two radii and the clearance apart |
| `Floodlights.ServedExactly` | src/game/floodlights.cpp:205-245 | A wanted pole goes up if and only if one of its tries has a place in its grid where a pole may stand, and then for the first such try |
| `Floodlights.WantsAre` | src/game/floodlights.cpp:269-306 | What is wanted of each hole is its tee's, each of its fairway's and each of its green's, in turn |
| `Effects.OrderAside` | src/game/effects.cpp:10-33 | Any permutation of the effects gives the same value |
| `Effects.BucketsAct` | src/game/effects.cpp:20-32 | A flat effect raises the base, an increase adds its share of base and flats before the multipliers, a "more" multiplies; no effects leave the base |
| `Effects.GatheredLast` | src/game/effects.cpp:15-31 | An effect gathered anywhere could as well be gathered last |
| `Effects.PruningAside` | src/game/effects.cpp:46-51 | Pruning at a time never changes a value at that time or later |
| `Effects.PrunedExactly` | src/game/effects.cpp:46-51 | Pruning drops exactly what has ended |
| `Effects.RefreshedAlone` | src/game/mode_dispatch.cpp:191-195 | After any sequence of uses, a refreshing item's effects are those of its last use alone, less what has ended since |
| `Effects.OfWithout` | src/game/item_catalog.cpp:335-343 | Refreshing erases all the item's lasting effects and no other item's |
| `Effects.UseLeaves` | src/game/item_catalog.cpp:335-356 | After a use runs what ran, but of a refreshing item what it had left, and each of its effects that lasts: for its seconds, or for a usable item's use |
| `Effects.NearestMillisecond` | src/game/item_catalog.cpp:17-19 | Times are to the nearest millisecond, from halfway away from zero |
| `Effects.OfRunning` | src/game/effects.cpp:46-51 | Pruning one item's effects is pruning all and taking that item's |
| `Effects.EffectiveValue` | src/game/effects.cpp:10-33 | The loop over the effects gives the value the laws are about |
| `Effects.EffectsAfterUse` | src/game/item_catalog.cpp:335-356 | The loop over the item's effects gives the running effects the laws are about |
| `AnchorCache.CacheUnseen` | src/game/game_state.cpp:447-504 | In every run a current cache is a fresh build, so no tee or pin lookup can tell whether the cache answered it |
| `AnchorCache.LookupUnseen` | src/game/game_state.cpp:492-504 | A cache kept for this terrain or for an older one, or none: a lookup gives the hole's place on the ground as it is now |
| `AnchorCache.CurrentAfter` | src/game/game_state.cpp:463-490 | In every run the cache is current right after a frame and once a course has loaded |
| `AnchorCache.RunKeepsValid` | src/game/game_state.cpp:447-490 | In every run the cache is never keyed ahead of the terrain |
| `AnchorCache.RevisionRises` | src/core/app.cpp:373-386 | The revision rises, by one, if and only if a course loads; it falls exactly when the menu's course does not load, against "only ever increases" (src/game/game_state.h:428) |
| `AnchorCache.KeysTell` | src/game/game_state.cpp:478-490 | With no such failure, from any state on, a revision met again stands for the same course, so a cache outside keyed by it is never stale |
| `AnchorCache.StaleKey` | src/core/app.cpp:373-398 | After such a failure one revision does stand for two courses: for any two different courses |
| `AnchorCache.GameState.BuildStaticAnchors` | src/game/game_state.cpp:447-461 | The loops build the anchors of every hole and collectible |
| `AnchorCache.GameState.RefreshStaticAnchors` | src/game/game_state.cpp:467-471 | Rebuilt exactly when not current |
| `AnchorCache.GameState.MarkTerrainDirty` | src/game/game_state.cpp:473-476 | A new revision, and the anchors for it |
| `AnchorCache.GameState.ContinueRevision` | src/game/game_state.cpp:478-490 | The revision goes on from the replaced state's; current anchors are only keyed anew |
| `AnchorCache.GameState.StartCourse` | src/game/course_session.cpp:53-71 | A loaded course with its anchors, or nothing changed |
| `AnchorCache.GameState.TeeAnchor` | src/game/game_state.cpp:492-497 | The hole's tee on the ground, cached or not |
| `AnchorCache.GameState.PinAnchor` | src/game/game_state.cpp:499-504 | The hole's pin on the ground, cached or not |
| `AnchorCache.BackToMenu` | src/core/app.cpp:373-386 | The new state goes on from the old one's revision when its course loads |
| `XpDrops.Conserved` | src/game/mode_dispatch.cpp:17-40 | In every run, for every skill and any gains: all it ever earned is on screen, pending, or gone from the screen with its time or with a new course |
| `XpDrops.AlwaysFits` | src/game/mode_dispatch.cpp:26-40 | With no gain negative, every state shows at most one drop a skill, each at least the smallest shown, and keeps pending only what is below it |
| `XpDrops.QueueAt` | src/game/mode_dispatch.cpp:17-26 | The first drop of the skill grows in place and starts its time anew, or a new one stands last |
| `XpDrops.ShowAdds` | src/game/mode_dispatch.cpp:30-40 | Showing gains adds exactly the gains to what is on screen and pending |
| `XpDrops.AgeTakes` | src/game/game_state.cpp:367-375 | A frame takes off the screen exactly the drops whose time it ends |
| `XpDrops.AgesExactly` | src/game/game_state.cpp:367-375 | A frame leaves exactly the drops whose age, its time added, is below their lifetime; a negative time adds nothing |
| `XpDrops.XpState.QueueXpDrop` | src/game/mode_dispatch.cpp:17-26 | The search loop queues in place |
| `XpDrops.XpState.ShowAwardedXp` | src/game/mode_dispatch.cpp:30-40 | The loop over the gains shows or pools each |
| `XpDrops.XpState.UpdateXpDrops` | src/game/game_state.cpp:367-375 | All drops age, those past their time are erased |

## Left out

- Numbers written as text (src/game/json_edit.cpp:227-254): formatting by the C library.
- Characters outside one byte: a text is a string of characters, each standing for one byte.
- The scanner takes any run of scalar characters for a scalar, so it accepts more than RFC 8259; the model does the same, and `JsonStandard` states the one direction that holds.
- Motion: when a motion is due (src/game/motion_sync.cpp, `should_send_motion`), when the server refuses or corrects, by how much, and what the connection takes are inputs of each event. The timers, the prediction history and its replay, the placement added to a queued motion, the cart beside a batch and the riders' own motion are not modelled.
- Motion: numbers are unbounded; the source's are 64 bits wide.
- Motion: play changes between offline and online only with a reset or a new state.
- Server: of playing a motion only the passing over of numbers already played; time credit, validity, carts and where the steps lead are left out.
- ContentHash.StreamTellsContent: (and `ContentHash.CheckoutsAgree`) for paths and texts below 2^64 bytes, as any in memory is. That two different streams may share a hash is a property of any 64-bit hash; only a single changed byte is ruled out.
- Base files: an object is a map, so member order and repeated keys are gone before this code sees them; numbers are reals.
- Carts: poses, driving, falling and righting, sounds; whether driving overturns a cart is an input of the frame. Going to a seat happens only on foot, as its caller sees to.
- Ball: online play, positions, physics, notices, flags, experience; what is nearest, whether the club is in hand, what the swing input does and what a shot results in are inputs of the frame.
- Tour: sampling the route (that neighbouring points are at most the spacing apart is asked of it), the ground between the points, the camera and the sky; heights are reals and tree reach is compared by squares.
- Floodlights: terrain, trees and beams are any predicates, and where each wanted pole may be looked for (src/game/floodlights.cpp:256-309) is any list of tries per hole.
- Effects: floating-point rounding, so "any order" is about the real value; rewards worked out from it.
- Rejoining: the menus, the requests and the client beneath.
- Anchors: how a place is put on the ground is any function, and profiling is left out.
- Experience: 64-bit overflow of amounts, and how a gain is worked out.
- Quantising of yaw and steering, pulled steps of the setup dials and the field-by-field loaders: one-line arithmetic or many easy branches.
