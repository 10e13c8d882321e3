# A verified model of the LocateAnything server

The server answers "where is it?" questions about single images. A Rust edge takes frames over
WebSockets, checks them, and hands them over a Unix socket to a Python worker that runs one vision
model; the worker turns the model's text into boxes or points. This project models the parts of that
path that decide what a client is told, and proves what they promise:

- **The answer parser** (`Scanner`, `Regex`, `Blocks`, `Items`, `Parsing`, `Accounting`, `Routing`).
  The five regular expressions are one-pass scanners over characters, proved equal to a backtracking
  search of the patterns. On every string, each match is emitted or counted, once, with the label of the
  run it stands in; boxes, points and malformed blocks add up to the closed `<box>...</box>` blocks.
- **The trained grammar** (`Grammar`, `Answers`, `Truncation`). Parsing after printing returns what was
  printed; cutting a printed answer anywhere loses blocks and never alters or invents one.
- **What an answer says** (`Readings`). Every returned box and point in terms of the characters it was read
  from: its label, its digits, and its place in the image.
- **The protocol** (`Protocol`, `Runs`, `Verdicts`, `Liveness`). Any number of connections, closes,
  rejections, timeouts and worker exits, as a labelled transition system; what holds after every run.
- **The byte streams** (`Bytes`, `Framing`, `ByteWires`). Length-prefixed frames under any chunking, the
  worker's loop over two-frame requests, and the protocol over such streams, which refines the protocol.
- **Prompts** (`Text`, `Prompts`). The Rust compiler of typed requests and its Python inverses.
- **Images** (`Exif`, `ExifFiles`, `Gates`, `EdgeFrames`). The EXIF scanner, the size limits that are
  written three times, and the classification of one binary message.
- **The whole path** (`Sessions`, `EndToEnd`). Runs of the protocol from the bytes of the messages to the
  replies, and from there to the response each client reads.
- **Tiles** (`Tiling`, `Nms`, `Coordinates`). Grid coverage under half-even rounding, greedy suppression
  with a stable sort, and coordinate arithmetic.
- **The reply on the wire** (`Json`, `Wire`, `Schema`). The body the worker builds against the edge's egress
  check, and that check against the reply schema.

`Wrappers` and `Lists` hold shared datatypes and list lemmas. `dafny verify dfyconfig.toml` checks
everything.

## How the model idealises

- Python's `\d` and `int()` accept every Unicode decimal digit, so the table of digits is a parameter
  (`Digits`); whitespace is the exact set of `str.isspace`. Neither holds a character that the output
  grammar gives a meaning to.
- Pixel coordinates are whole hundredths of a pixel, and ratios are fractions; `round` is exact and rounds
  half to even. Floating-point error is not modelled.
- Parameters stand for what the model does not look into: Normalisation Form C, the JSON parsers, the
  JPEG decoder, the engine's answer, and the square-root downscale.
- In `Protocol` a socket carries whole frames in order. `ByteWires.ByteRunsAreRuns` justifies that: over
  byte streams, which either end may cut in the middle of a frame, every run is a run of `Protocol`. Of
  the JSON of headers and replies it assumes only that what fits a frame reads back as it was written.
- `edge` keeps its last phase when a connection closes, so one invariant covers open and closed connections.
- Points are returned run by run and then bare, so the points that a truncated answer lacks need not be the
  last ones of the whole answer (`Truncation.CutLosesEarlierPoints`; `Truncation.PointsArePrefixIff` says
  exactly when they are). No point changes place relative to another (`Truncation.TruncationIsSafe`).

## Where the source and its documents differ

- `docs/CLIENT_PROTOCOL.md:151` gives a frame id "length 1..=256" without a unit, and the message at
  `rust_server/src/ws.rs:286` says characters; the edge counts UTF-8 bytes. `EdgeFrames.IdLimitCountsBytes`
  says on exactly which ids the two counts agree.
- `worker/la_worker.py:195` advertises at most 6400 tokens an image. That holds exactly for caps up to the
  configured 2240 pixels a side (`Gates.AdvertisedTokensIff`); under any larger cap the gates let through
  more, up to 6669 (`Gates.TokensAtAnyCap`).
- The module text of `worker/la_worker.py:27-30` says that one `generate` runs at a time. After an
  inference timeout the lock is free while the abandoned call still runs, so two can overlap until the
  worker has exited. `Liveness.TimeoutOverlaps` is such a run: the client has left, so the handler finds
  its connection closing and yields once before it ends the process. `Runs.OneEngineCall` says exactly
  when at most one runs.
- No document mentions that `int` raises on more than 4300 digits under the pinned Python 3.12. The
  parser then raises, and the worker answers `invalid_image` (`Routing.Route`, `Wire.ReplyTo`).
- `worker/tiling.py:54-58` speaks of overlap as a fraction of the tile. `Tiling.EveryRectangleInATile` says what
  it buys: every rectangle of up to twice the pad and one pixel more is whole in some tile.

## Model

| member | source | states |
|---|---|---|
| `Regex.ScannerIsRegex` | worker/parsing.py:108-128 | At every position of every string the one-pass scanner of each of the five patterns finds exactly what a backtracking search of the pattern (greedy longest first, lazy shortest first) finds. |
| `Regex.FullMatchIsRegex` | worker/parsing.py:372-374 | `fullmatch`, which may backtrack to reach the end, succeeds exactly when the one match at the start ends there. |
| `Scanner.FindIter` | worker/parsing.py:222-226 | The left-to-right loop of `finditer` yields the matches found from the end of the last one on. |
| `Scanner.Found` | worker/parsing.py:236-243 | Every span found is a match in range, and spans are in text order without overlap. |
| `Blocks.StrictApart` | worker/parsing.py:285-291 | Overlapping matches of the strict forms are one match of one form: no match straddles another. |
| `Blocks.StrictByBlocks` | worker/parsing.py:368-378 | `finditer` of a strict form is its matches inside the closed blocks, block by block. |
| `Blocks.StrictByRun` | worker/parsing.py:222-243 | A ref-run cuts `finditer` of a strict form into before, inside its blocks, and after; nothing crosses. |
| `Items.ItemsByRun` | worker/parsing.py:222-243 | Comparing spans attributes exactly the matches found in a run's own text to that run, in run order. |
| `Parsing.ParseBoxes` | worker/parsing.py:172-243 | The output is every 4-coordinate match in a run with a non-empty label, in text order with that label; output and off-contract count add up to all 4-coordinate matches. It is an error exactly when one of the matches in a labelled run has a coordinate of more than 4300 digits. |
| `Parsing.ParsePoints` | worker/parsing.py:246-342 | The output is every 2-coordinate match in a labelled run, then the bare ones under the phrase if there is one; output and count add up to all 2-coordinate matches. It is an error exactly when one of those output has a coordinate of more than 4300 digits. |
| `Parsing.GroupRead` | worker/parsing.py:225-233 | What is read from the text of a run's blocks is what stands in the answer at that place. |
| `Parsing.NoBoxThere` | worker/parsing.py:309-310 | The defensive skip of points that overlap a box never fires. |
| `Parsing.ConsumedIsOwned` | worker/parsing.py:328-334 | Overlap with a point read in the first pass is the same as standing in a run, so no point is counted twice or lost. |
| `Text.PlaceValues` | worker/parsing.py:221-233 | Digits of any script are read as `int` reads them: each counts as many tens as digits follow it. |
| `Text.WhitespaceIs` | rust_server/src/prompt_validator.rs:324-330 | Python strips exactly 29 characters, and Rust trims all of them but U+001C to U+001F. |
| `Text.StripRemovesOnlySpace` | worker/parsing.py:224 | Stripping a label removes the whitespace at its ends, all of it, and nothing else. |
| `Readings.NamedByItsRun` | worker/parsing.py:219-243 | Every match is named by the one ref-run it stands in and bare if there is none; the name is the text between `<ref>` and `</ref>` without the whitespace around it. |
| `Readings.BoxesAreRead` | worker/parsing.py:219-243 | On every answer the boxes are one for each labelled match, in text order; box k has the label of the run it stands in, the four numbers between the tags of its own text brought down to the grid and sorted, and pixels that are these scaled and rounded. |
| `Readings.PointsAreRead` | worker/parsing.py:270-342 | The points are those of the labelled matches, with their labels, positions and pixels likewise, and then under a phrase those that stand in no run, named by the phrase. |
| `Accounting.CountMalformed` | worker/parsing.py:345-378 | The loop counts the closed blocks that are exactly none of box, point and None literal. |
| `Accounting.Account` | worker/parsing.py:345-378 | On every string boxes + points + malformed = closed blocks that are not a None literal + doubled blocks, and at most the malformed ones are doubled. |
| `Accounting.TailOfOneBlock` | worker/parsing.py:122-128 | Each strict match is the tail of exactly one closed block and overlaps no other. |
| `Accounting.NothingPresent` | worker/inference.py:1628-1635 | No box, no point and nothing malformed is found exactly when every closed block is a None literal. |
| `Routing.Route` | worker/inference.py:1564-1689 | One variant results; it is abstained exactly when every closed block is a None literal; returned and dropped geometry add up to the account; every label is non-empty and every coordinate in range; an unknown task, a foreign point prompt, or a coordinate that is read and is too long for `int` is an error, and nothing else is; the answer is reported truncated exactly when its last ten characters are not the model's end-of-turn mark. |
| `Routing.DroppedOnAbstention` | worker/inference.py:1608-1689 | The sum over boxes, points and malformed blocks that the source would drop is what is localised, and it is the 0 written on abstention exactly when the answer abstains. |
| `Routing.LocalisedIsBounded` | worker/inference.py:1608-1622 | What is localised is at most 2/11 of the answer's length. |
| `Routing.AcceptedIsRoutable` | worker/inference.py:1572-1575 | Every prompt and task the edge compiles is routable, and the label for bare points is the slot for a point request and none otherwise. |
| `Routing.BarePointsCarryThePhrase` | worker/parsing.py:314-341 | For a compiled point request every point outside a run is returned, labelled with the requested phrase. |
| `Coordinates.RoundedOnce` | worker/parsing.py:433-438 | There is one integer nearest to a fraction, the even one of two, and that is what is computed. |
| `Coordinates.BoxIsCanonical` | worker/parsing.py:407-439 | A box is determined by its label and four tokens: corners are the tokens, at most 1000, in order on each axis; pixel corners are these scaled to the nearest hundredth, half to even, sorted inside the image. |
| `Coordinates.PointIsPlaced` | worker/parsing.py:442-464 | Likewise a point, whose two tokens keep their order. |
| `Coordinates.BoxTokensRecovered` | worker/parsing.py:407-439 | On sides of ten pixels and more the pixel corners determine the four tokens, up to the sorting. |
| `Coordinates.PointTokensRecovered` | worker/parsing.py:442-464 | On such sides the pixel position determines both tokens, in order. |
| `Coordinates.NarrowSidesLoseCoordinates` | worker/parsing.py:433-438 | Two tokens share a pixel value exactly on sides under ten pixels. |
| `Grammar.BlockPrinted` | worker/parsing.py:4-7 | A printed block matches its form where it stands and its decimal coordinates read back. |
| `Grammar.GroupPrinted` | worker/parsing.py:108-112 | A printed group that no block follows is one ref-run; its label is the text printed without the whitespace around it. |
| `Answers.ParseAfterPrint` | worker/parsing.py:4-13 | For all bare blocks, groups and following text without `</box>`: the boxes and points returned are those printed, in order and labelled; only bare geometry is off contract; nothing is malformed; and nothing is unreadable if no printed coordinate is too long, or each is on the grid of 0 to 1000. |
| `Readings.PrintedIsRead` | worker/parsing.py:4-13 | Of a printed answer, box k has the name printed for the group it stands in, whatever whitespace was put around it, and the four numbers printed; so have the points, and the bare ones have the phrase. |
| `Truncation.CutsAreTruncated` | worker/inference.py:1630 | A printed answer and the end-of-turn mark is complete, and no proper cut of it is. |
| `Truncation.TruncationIsSafe` | worker/inference.py:1025-1039 | Every cut of such an answer yields a prefix of its boxes and of its labelled points, and a subsequence of all its points, the bare ones under a phrase included; nothing becomes malformed, nothing is unreadable if no coordinate is too long or each is on the grid, and only bare geometry is off contract. |
| `Truncation.PointsArePrefixIff` | worker/parsing.py:294-342 | Every cut yields a prefix of all points exactly when there are no bare points under the phrase, or none in the groups, or all are one and the same point. |
| `Truncation.CutLosesEarlierPoints` | worker/parsing.py:294-342 | A bare point before a labelled group with another: the points of some cut are not the first ones of the whole answer. |
| `Framing.StreamReader.ReadExactly` | worker/la_worker.py:137-145 | Whatever the chunks, the next n bytes of the stream, or end of file. |
| `Framing.StreamReader.ReadFrame` | worker/la_worker.py:137-145 | The first four bytes, the most significant first, are the size: more than 16 MiB is the oversize error, a size that is there is the frame, anything else an incomplete read; a frame leaves the stream behind it. |
| `Framing.StreamWriter.WriteFrame` | worker/la_worker.py:148-158 | Appends prefix and data, or nothing when the transport is closing or the data too large. |
| `Framing.EncodeLayout` | worker/la_worker.py:156-157 | A written frame is its size in four bytes, the most significant first, and then the data. |
| `Framing.ReadAllInverts` | worker/la_worker.py:137-158 | Reading the concatenation of written frames returns the frames, empty ones included; reading a cut of it returns a prefix of them. |
| `Framing.RequestsStayInStep` | worker/la_worker.py:257-290 | The two-frame requests decoded are those sent, and from a stream cut anywhere a prefix of them. |
| `Framing.HandleConnection` | worker/la_worker.py:249-405 | One reply for each request of the stream, in order, until the peer is gone or a request ends the process (out of memory, timeout); a header that does not parse is answered and shifts nothing; what is served may differ from request to request. |
| `ByteWires.ByteRunsAreRuns` | worker/la_worker.py:137-158 | Every run over byte streams, cut anywhere by either end, is a run of the protocol with the same lock and ends, whose wires carry exactly the frames that can be read from the streams. |
| `ByteWires.BytesBlockNothing` | worker/la_worker.py:137-158 | The other way round: what the protocol can do next can be done over byte streams that match it, as long as what is written fits in a frame. |
| `ByteWires.BytesAnswerFrames` | rust_server/src/ipc.rs:69-160 | Over byte streams the k-th reply answers the k-th non-fatal frame; the job does not travel back, and still whatever ties the worker's verdicts to ids and jobs ties each verdict to that frame's. |
| `Runs.InvKept` | rust_server/src/ws.rs:105-197 | The invariant of connections and lock is kept by every event of the edge, the worker and the wires. |
| `Runs.RepliesAnswerFrames` | rust_server/src/ws.rs:170-196 | After every run the k-th reply on a connection answers the k-th non-fatal frame: its id, and its own rejection or what the worker made of its very job; at most one frame is unanswered. |
| `Runs.AlwaysInStep` | worker/la_worker.py:259-290 | After every run a handler that expects a header has one next, and one that expects a payload has one next. |
| `Runs.FailureIsFinal` | worker/la_worker.py:343-388 | A handler whose engine call ran out of memory or time never takes another request, whatever happens afterwards. |
| `Runs.OneEngineCall` | worker/la_worker.py:512-533 | At most one handler is in the engine; running calls are the holder of the lock and the abandoned ones, so at most one runs exactly when none is abandoned, or one is and the lock is free; at most as many are abandoned as timed out. |
| `Runs.GrantsFollowArrivals` | worker/la_worker.py:524-525 | The lock is granted in arrival order, and who is not granted it waits. |
| `Runs.BoundedWait` | worker/la_worker.py:524-533 | A queued frame waits behind at most all other live connections. |
| `Runs.NeverOvertaken` | worker/la_worker.py:524-533 | Each engine call that ends brings every waiter one place closer, and no other event moves it. |
| `Liveness.EveryFrameCanBeAnswered` | rust_server/src/ws.rs:170-196 | From the end of every run, an outstanding frame whose handler lives can still be answered by some continuation. |
| `Liveness.TimeoutOverlaps` | worker/la_worker.py:512-523 | The client of a running call leaves, the call times out, and the next one starts: a run with one timeout in which two engine calls are in progress. |
| `Liveness.WaitingCanBeAnswered` | worker/la_worker.py:249-290 | As long as the worker has not ended and its engine has not failed on a connection, every outstanding frame of a client that is still there can be answered by some continuation. |
| `Liveness.EveryEventCanHappen` | rust_server/src/ws.rs:105-197 | On any connection, for any frame and any verdict, each event of the edge, the worker and the lock happens in some run. |
| `Verdicts.RepliesAreLawful` | rust_server/src/ws.rs:170-196 | If every verdict the worker gives in a run obeys a law about its id and its job, so does every verdict sent to a client. |
| `Prompts.AcceptedIffWellFormed` | rust_server/src/prompt_validator.rs:192-245 | A request compiles exactly when its slots obey the rules, to prefix, body and period; the length cap never fires. |
| `Prompts.PromptIsSentence` | worker/prompts.py:62-80 | An accepted request becomes its trained sentence, word for word, with the wire name of its task. |
| `Prompts.PromptIsShort` | rust_server/src/prompt_validator.rs:225-243 | No well-formed request gives more than 2107 of the 16384 characters allowed. |
| `Prompts.PythonBuildsTheSame` | worker/prompts.py:154-214 | For every accepted request the Python builders give the same prompt, although `strip` removes more than `trim`. |
| `Prompts.PythonIgnoresWhitespace` | worker/prompts.py:154-214 | In the Python builders whitespace around a slot makes no difference, a blank slot is an error, and blank categories are as good as not there. |
| `Prompts.ClassifyInverts` | worker/prompts.py:257-289 | The worker classifies every accepted prompt as the task it was compiled from. |
| `Prompts.PointPhraseInverts` | worker/prompts.py:217-254 | `point_phrase` recovers the slot exactly. |
| `Prompts.PointPhraseIff` | worker/prompts.py:217-254 | On any string the phrase is what follows `Point to: `, without one final period, and there is none exactly if that is empty or the prefix is not there. |
| `Prompts.CategoriesRecovered` | rust_server/src/prompt_validator.rs:252-279 | Splitting a detection prompt's body on the separator recovers the categories. |
| `Prompts.CompileIsInjective` | rust_server/src/prompt_validator.rs:192-245 | Distinct accepted requests give distinct prompts. |
| `Exif.TiffOrientation` | rust_server/src/jpeg.rs:98-141 | Returns a value exactly when the directory's first orientation entry can be reached and read, and then that value. |
| `Exif.ExifOrientation` | rust_server/src/jpeg.rs:56-93 | Returns a value exactly when the first Exif segment states one; the cursor always advances and every read is in bounds. |
| `Exif.StatesByBytes` | rust_server/src/jpeg.rs:56-141 | The orientation a file states, byte for byte: `FF D8`, a chain of segments whose lengths are two bytes, the most significant first, to the first that holds `Exif`, and there, in the byte order that `II` or `MM` says, the first directory entry with tag 0x112. |
| `Exif.ReadDimensions` | rust_server/src/jpeg.rs:30-50 | The axes are swapped exactly when an orientation of 5 to 8 is stated. |
| `Exif.StatedStays` | rust_server/src/jpeg.rs:56-93 | Bytes that follow do not change a stated orientation. |
| `ExifFiles.FileReadsBack` | rust_server/src/jpeg.rs:56-141 | For any other segments before, either byte order, any directory offset, entries and following bytes: the orientation stated is the one written. |
| `Tiling.Grid` | worker/tiling.py:46-77 | The tiles row by row, or an error exactly for a bad shape or a ratio outside [0, 0.5). |
| `Tiling.TileByRatio` | worker/tiling.py:66-77 | Every tile reaches from its boundary to the next, i parts of the side to the nearest pixel, and on both sides as far beyond as the overlap share of a part, to the nearest pixel, or to the edge of the image; ties go to even. |
| `Tiling.NeighboursShare` | worker/tiling.py:66-77 | Neighbouring tiles with room on both sides share twice that share. |
| `Tiling.TilesInImage` | worker/tiling.py:66-77 | Tiles lie in the image, and none is empty exactly when there is a pixel for each row and column. |
| `Tiling.EveryRectangleInATile` | worker/tiling.py:66-77 | Every rectangle of at most 2*pad+1 pixels a side lies in one tile, where pad is the overlap share of a part to the nearest pixel; so the tiles cover the image. |
| `Tiling.SharesFit` | worker/tiling.py:54-67 | Sides of up to twice the exact overlap share are within that bound. |
| `Tiling.WiderFitsNowhere` | worker/tiling.py:66-77 | One pixel more, around a boundary between columns or between rows with room on both sides, fits in no tile. |
| `Tiling.EveryRectangleIsSeen` | worker/tiling.py:66-91 | Every such rectangle is what a box inside some tile is mapped to in image coordinates, and a box inside a tile is only ever mapped to a rectangle of the image. |
| `Nms.Suppress` | worker/tiling.py:112-144 | The nested loops compute the greedy pass over the boxes sorted by area. |
| `Nms.SortIsStable` | worker/tiling.py:128-132 | The sort is descending by area, a permutation, and keeps boxes of equal area in order. |
| `Nms.SurvivorsAreGreedy` | worker/tiling.py:112-144 | Survivors are a subsequence of the sorted boxes, none is suppressed by an earlier one, and every other box is suppressed by a survivor at least as large. |
| `Nms.SuppressTwice` | worker/tiling.py:112-144 | Suppression is idempotent. |
| `Nms.LabelsAreIndependent` | worker/tiling.py:137-139 | Keeping one label of the survivors is suppressing that label's boxes alone. |
| `Nms.IouCountsCells` | worker/tiling.py:94-109 | The ratio is the number of unit cells in both boxes over the number in either, or 0 if they share none; it is 1 exactly for two boxes that are the same and not empty. |
| `Nms.SuppressesByCells` | worker/tiling.py:112-144 | One box suppresses another exactly when their labels agree, if labels count, and the cells in both are at least the threshold share of the cells in either; larger means more cells. |
| `Nms.IouIsARatio` | worker/tiling.py:94-109 | The overlap ratio is within 0..1, symmetric, and the same in tile and image coordinates. |
| `Gates.EdgeGateIff` | rust_server/src/ws.rs:392-492 | A size is accepted exactly when both sides are at least 32 and at most the cap and 7140, and there are at most 25600 whole patches of 14 by 14 pixels. |
| `Gates.AcceptedIsPlanned` | worker/pixel_token_math.py:48-108 | An accepted size is planned without downscaling: each side to the next multiple of 28, one token for each 28-pixel square. |
| `Gates.PlanIff` | worker/pixel_token_math.py:48-108 | A size is planned exactly when both sides are positive and, after the downscale if there are more than 25600 whole patches, at most 7140. |
| `Gates.TokensAtDefaultCap` | rust_server/src/ws.rs:405-449 | At most 6400 tokens when the cap is at most 2240. |
| `Gates.AdvertisedTokensIff` | worker/la_worker.py:191-195 | Every accepted image costs at most the advertised 6400 tokens exactly when the cap is at most 2240. |
| `Gates.TokensAtAnyCap` | rust_server/src/ws.rs:446-492 | At most 6669 tokens under any cap, reached by 6889 by 729. |
| `Gates.AcceptedSizesKeepTokens` | rust_server/src/protocol.rs:272 | On every accepted image, whose sides are at least 32, the pixel corners of a box and the pixel position of a point determine the tokens. |
| `EdgeFrames.PendingIffAcceptable` | rust_server/src/ws.rs:300-494 | A frame is forwarded exactly when the request is well formed, the payload has the announced length within the limit and begins with FF D8 FF, and its size passes the gate; and then with the prompt and task of its request. |
| `EdgeFrames.RefusalIff` | worker/la_worker.py:443-505 | The worker's own checks, case by case: which it blames on the edge, which on the image, and which frames pass. |
| `EdgeFrames.Utf8Length` | rust_server/src/ws.rs:286-292 | A character counts as many bytes as its UTF-8 form has. |
| `EdgeFrames.WorkerAcceptsWhatTheEdgeForwards` | worker/la_worker.py:443-505 | The worker's own checks, its task table, gates and resize plan let through everything the edge forwards, even if the two sides disagree about the orientation of the image. |
| `EdgeFrames.IdLimitCountsBytes` | rust_server/src/ws.rs:286-292 | The id limit is one of bytes: it implies the documented one, refuses some id of 129 characters, and agrees with it on exactly the ids that are empty, over 256 characters, or within 256 bytes. |
| `Sessions.PartsOfMessage` | rust_server/src/ws.rs:235-262 | A message of four bytes with the length of the header, the most significant first, a header and an image is taken apart into these two, and nothing else is a message. |
| `Sessions.RepliesAnswerMessages` | rust_server/src/ws.rs:105-300 | After every run whose frames come from binary messages, on each connection the k-th reply answers the k-th message that carries an id: with the id in its own header, and what the worker made of the prompt compiled from its own request and of its own image, or the rejection it earned, with exactly its code; an open connection has seen no other message. |
| `EndToEnd.EveryReplyIsRight` | rust_server/src/ws.rs:105-197 | After every run whose frames come from messages and whose verdicts are bodies the worker builds for some answer, or errors: the edge accepts the verdict of every acceptable frame, and the client reads, with its own id, the routed result of an answer to its own request on an image of its size, or an error. |
| `Wire.ErrorReads` | worker/la_worker.py:590-611 | An error body exists exactly for the four codes, and the edge reads it as written. |
| `Wire.EgressReadsTheBody` | rust_server/src/ipc.rs:119-160 | The edge accepts the body of a routed result exactly when its counts fit the schema, a deviation always, and reads back id, variant, every box and point, and the metadata. |
| `Schema.EgressIsExact` | rust_server/src/ipc.rs:119-160 | The edge accepts a body exactly when it is the JSON object of one typed response with every number in range, and reads that response; a missing or added field and an `ok` that contradicts the variant are refused. |
| `Wire.ReplyTo` | worker/la_worker.py:523-582 | For every accepted request, accepted image and answer under 2^32 characters the edge accepts the reply body: an `invalid_image` error exactly when a coordinate that is read is too long, else the routed result, abstained exactly when every closed block is a None literal, with the account complete. |

## Left out

- Model loading, attention patches, generation, colour profiles, image decoding and CUDA: foreign calls; the answer is an arbitrary string.
- Floating point: coordinates, ratios and overlaps are exact here; `bbox_px` as 32-bit floats is not modelled.
- `Gates.PlanResize`: the square-root downscale is a parameter, because it is floating point and no accepted image reaches it; the reported scale factor is left out.
- JSON text and serde internals: headers are parsed by a parameter, and bodies are values with typed fields.
- Normalisation tables: `ValidateSlot` takes the test as a parameter. The order in which rules of a slot are reported is kept, the texts are not.
- `Protocol.StepConn`: the edge loop, `infer` and the worker's lock are steps of a transition system over values, which captures every interleaving but not update in place; the sequential loop over one connection is a method over objects in `Framing.HandleConnection`.
- `EdgeFrames.WorkerAcceptsWhatTheEdgeForwards`: that the edge's and the worker's decoders read the same stored size is assumed; that they agree on the orientation is not.
- Wall-clock behaviour: pings, idle timeouts and shutdown notices are closes that can come at any time.
- `Protocol.Step`: the worker can end at any time, and a process that comes back starts with a free lock; the restart itself, and control queries, are not events.
- `ExifFiles.FileReadsBack`: files without fill bytes before markers, which the scanner does not pass over; a size the decoder cannot read is not part of `Exif.ReadDimensions`.
- `Runs.BoundedWait`: counts frames ahead, not time; an engine call lasts as long as it lasts.
- `detect_text`, `ground_gui` with output type point, presets and calibration: they add no new prompt form.
- `has_abstention`, the typed error texts, HTTP routes, start-up validation, scripts and clients.
