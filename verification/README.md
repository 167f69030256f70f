# DStudio control plane: verified models

DStudio is a local host that owns inference engines, relays model traffic, installs engines
and reads PDFs.  This project models the parts of it that carry state, partial input and
output, bounded buffers and ownership, and proves what they promise.  Reads, writes, clocks,
process exits, other programs and users are choices of the environment, so every contract
holds for every fragmentation, failure point and interleaving.  Where an operation must also
get somewhere, what each pipe answers is an input (`Relay.World`, `Launch.Chance`), and the
contract says what is done for each answer.

Code that changes state step by step is modelled by classes and methods that change state
step by step; each method is proved against a specification function or relation, and the
lemmas beside it say what that specification means.

- `Prelude`: bytes, options, a few facts about finite sets and sequences.
- `WireString`, `BodyDecoder`, `Frames`, `Relay`: the model relay.  The JSON string decoder
  and encoder of the private wire (RFC 8259 section 7, RFC 3629 sections 3 and 4), the
  worker's incremental decoder, the `D n` / `F n` frames, and the owner loop with its epoch
  fence.
- `JsonGrammar`, `JsonTokens`, `JsonOpen`, `JsonLookup`, `JsonChecks`, `Receipt`: the syntax
  check by recursive descent, the JSON tokenizer in place, the checks of an opened document,
  and the scans over its token array.
- `ToolCalls`, `ToolGroup`: tool calls streamed in pieces, published all at once by the host
  and read back by the runtime.
- `Steering`: inputs for a running turn, delivered at most once and in order.
- `Launch`, `Readiness`, `Lease`, `HardLinks`: replacing one engine by another, the readiness
  of an owned server, the installation lease shared by installers and engines, and carrying
  the user's files into a new installation.
- `PageSelection`, `SemanticPages`, `PageBudget`, `RagWindows`, `Evidence`, `Sections`: which
  pages of a PDF are read and how much of each, retrieval windows, quotes and section links.
- `Progress`: framing of a native program's progress records.

Five properties that one might expect turn out not to hold as they stand.  In each case the
model follows the code, a lemma shows the failing case, and another member says exactly when
the property does hold.

- A failure that replaces a receipt already being written breaks the promise of one terminal
  receipt (`Relay.ReplacingIsCleanExactlyWhenUntouched`,
  `Relay.ReplacingBegunFailureIsNotClean`).  From its record mark on the
  replacement is correct exactly when only data was written before, or the worker itself had
  said the same bytes (`Relay.ReplacingIsCleanExactly`); a caller can check that nothing of the
  old receipt was written.  No pass of the owner replaces a receipt (`Relay.Owner.Tick`).
- Bytes after the envelope's newline are noticed only when they share a read with the newline
  (`BodyDecoder.TrailingBytesDependOnTheCut`); what is accepted is independent of the reads
  exactly when nothing follows the envelope
  (`BodyDecoder.CutMattersExactlyWhenSomethingFollows`).
- A change of a user file that is undone between its stamp check and the stamp read after its
  link, leaving only a new change time, is not noticed, whether it comes before the link
  (`HardLinks.UnnoticedChange`), after it (`HardLinks.UnnoticedLateChange`) or spans it;
  `HardLinks.PreserveUserFiles` rejects exactly the changes that no such window covers.
- Not every batch the host publishes is admitted by the runtime: the host keeps names of 128
  bytes, the runtime only 127 (`ToolGroup.LongNameIsRefused`).  The runtime reads back exactly
  the pieces the host collected, and refuses a published batch exactly when a name is longer
  than 127 bytes, an id is known, the session has no room for the ids, or a call fits no tool
  (`ToolGroup.PublishedIsReadBack`).
- A progress poll while a record is still incomplete can invent a record
  (`Progress.EarlyPollInventsDenoise`); the records come out right exactly when every poll
  reads nothing, the last record again, or the next one of the text
  (`Progress.FramingIsExact`).

Two more observations.  The comment above `pdf_select_interactive_pages` speaks of even
coverage; the bound proved is `(limit - 4) * radius <= count - 5`.  The buffer-overflow branch
of `model_rpc_relay_fail` cannot be taken, because every failure receipt fits
(`Relay.ReceiptFits`), and the 32-byte page floor and the wire limit never bind in interactive
reads and in accepted envelopes (`PageBudget.FloorNeverBinds`,
`BodyDecoder.WireLimitNeverBinds`).

## Model

| member | source | states |
|---|---|---|
| PageSelection.SelectedCount | src/dstudio_pdf.c:347-351 | The count of marked pages is the size of the set of chosen pages of the range |
| PageSelection.NearestChosen | src/dstudio_pdf.c:379-384 | The inner scan finds the distance to the nearest chosen page, or the page count when none is chosen |
| PageSelection.FarthestPage | src/dstudio_pdf.c:376-387 | The outer scan finds the first page at the greatest distance from the chosen ones; -1 exactly when every page is chosen |
| PageSelection.FillToLimit | src/dstudio_pdf.c:375-390 | From any chosen set the loop ends with the greedy farthest-point fill and returns its size |
| PageSelection.FillStaysSeparated | src/dstudio_pdf.c:373-389 | If some page stays r away from the finished fill, every filled page was taken at distance r or more from those before it |
| PageSelection.Packing | src/dstudio_pdf.c:373-389 | k + 1 points pairwise r apart need an interval of length k * r |
| PageSelection.EveryPageIsNearAChosenOne | src/dstudio_pdf.c:356-391 | A page r or more away from every chosen page can exist only if (limit - 4) * r <= count - 5 |
| PageSelection.OverviewSize | src/dstudio_pdf.c:356-391 | A document longer than the limit gets exactly limit pages, all in range, both three-page ends among them |
| PageSelection.OverviewCovers | src/dstudio_pdf.c:356-391 | There is one radius with (limit - 4) * radius <= count - 5 such that every page has a chosen page within it |
| PageSelection.SelectInteractivePages | src/dstudio_pdf.c:356-391 | In place, for every range and limit: the marked pages are the overview of the range, and the result is their number |
| SemanticPages.Search | src/dstudio_pdf.c:789-804 | One pass finds the first best-scored unchosen page, in the first pass only among pages apart from all anchors; -1 exactly when there is none |
| SemanticPages.ChooseAnchors | src/dstudio_pdf.c:786-808 | Up to three anchors, each the best hit apart from the earlier ones while such a hit is left, else the best hit left |
| SemanticPages.AddNeighbours | src/dstudio_pdf.c:809-821 | The pages added are exactly the first of the queue of neighbours (one away before two away, anchor by anchor, the page before an anchor first) as far as they are in range, all of it while there is room |
| SemanticPages.FillSpare | src/dstudio_pdf.c:822-835 | Spare pages are the best hits not chosen yet; room is left only when none is |
| SemanticPages.SelectSemanticPages | src/dstudio_pdf.c:780-837 | At most limit pages; fewer than fit only when no scored page and no neighbour is left out; a spare page comes after all neighbours and scores at least as much as every hit left out |
| SemanticPages.FirstAnchorIsBest | src/dstudio_pdf.c:786-808 | The first anchor has the best score of the range |
| SemanticPages.AnchorsApart | src/dstudio_pdf.c:786-808 | An anchor next to an earlier one is taken only when every hit left is next to an anchor |
| PageBudget.SafeStart | src/dstudio_pdf.c:393-396 | The first character boundary at or after a position |
| PageBudget.SafeEnd | src/dstudio_pdf.c:398-401 | The last character boundary at or before a position |
| PageBudget.CutPage | src/dstudio_pdf.c:406-428 | Whole page, window around a hit or head and tail, with the quota arithmetic of each |
| PageBudget.CutIsClean | src/dstudio_pdf.c:403-428 | Every cut is on character boundaries, head and tail do not overlap, and the bytes kept never exceed the quota (or 32) |
| PageBudget.HeadIsTwoThirds | src/dstudio_pdf.c:421-427 | Of a UTF-8 page without a hit two thirds of the quota go to its head and a third to its tail, each cut back by less than a character |
| PageBudget.SplitWellFormed | src/dstudio_pdf.c:393-401 | Cutting UTF-8 text at a boundary leaves UTF-8 text on both sides |
| PageBudget.StartMovesLittle | src/dstudio_pdf.c:393-396 | In UTF-8 text a start moves forward by at most three bytes |
| PageBudget.EndMovesLittle | src/dstudio_pdf.c:398-401 | In UTF-8 text an end moves back by at most three bytes |
| PageBudget.WindowContainsMatch | src/dstudio_pdf.c:410-420 | In UTF-8 text an excerpt around a hit contains the hit |
| PageBudget.KeptTextIsWellFormed | src/dstudio_pdf.c:403-428 | Every kept piece of a UTF-8 page is UTF-8 text |
| PageBudget.FindScoreBounds | src/dstudio_pdf.c:1248-1255 | The least and greatest score of the selected scored pages |
| PageBudget.WeightMeaning | src/dstudio_pdf.c:1256-1268 | A hit weighs 3 and as many thirds of the span of scores as it lies above the weakest, rounded down, a page without a hit 1; in an overview the first page weighs 6, the second and the last 2 |
| PageBudget.WeightBounds | src/dstudio_pdf.c:1256-1268 | Weights are 1 to 6; with unequal scores the best hit weighs 6 and the weakest 3 |
| PageBudget.TotalWeightBounds | src/dstudio_pdf.c:1256-1269 | The total weight lies between the page count and the page count plus seven, or six per hit |
| PageBudget.FloorNeverBinds | src/dstudio_pdf.c:1210-1214 | In interactive mode 32 bytes per unit of weight fit the budget, so the 32-byte floor never raises a share |
| PageBudget.Share | src/dstudio_pdf.c:1286 | A share is the rounded-down proportional part, and at least 32 |
| PageBudget.FairShareIsDivision | src/dstudio_pdf.c:1286 | The inequalities that describe a share fix it as the rounded-down quotient |
| PageBudget.TakePage | src/dstudio_pdf.c:1270-1301 | One turn of the budget loop keeps the plan's invariant: which pages, quotas, cuts, bytes used and pages skipped |
| PageBudget.Plan | src/dstudio_pdf.c:1239-1301 | The whole plan satisfies that invariant for every selection, score, text length and cap |
| PageBudget.PlanWithinBudget | src/dstudio_pdf.c:1239-1301 | Interactive plans skip no page and keep at most max_chars bytes of text; a selection that fits is kept whole; a range read passes its cap only by less than 32 |
| PageBudget.PlannedPageKeepsItsHit | src/dstudio_pdf.c:1293-1296 | In a plan every UTF-8 page is cut cleanly; a page that is not sent whole is sent with its hit in it, the first page of an overview without a hit from its beginning, and any other as head and tail |
| RagWindows.BuildWindows | src/dstudio_pdf.c:486-518 | The stride loop ends and yields the windows of every counted page |
| RagWindows.WindowsCoverPage | src/dstudio_pdf.c:486-518 | A page's windows start at 0, follow each other at the stride with a 500-byte overlap, end with the page and are at most 3700 bytes |
| RagWindows.PassageInOneWindow | src/dstudio_pdf.c:486-518 | Every passage of up to 500 bytes lies whole inside one window |
| RagWindows.EveryByteCovered | src/dstudio_pdf.c:486-518 | Every byte of the page is in a window that lies in the page |
| RagWindows.PassageOfAnyPage | src/dstudio_pdf.c:486-518 | Every passage of up to 500 bytes of every counted page lies whole inside one window with that page number |
| RagWindows.WindowsOfPages | src/dstudio_pdf.c:486-518 | Every window lies in the text of the page it names, and windows come in page order, each page from its beginning on |
| Evidence.Normalize | src/dstudio_pdf_evidence.c:218-229 | The loop computes the words of the text joined by single spaces |
| Evidence.NormalIsIdempotent | src/dstudio_pdf_evidence.c:218-229 | Normalizing twice changes nothing |
| Evidence.WordsOfJoin | src/dstudio_pdf_evidence.c:218-229 | Joining proper words and splitting again gives the words back |
| Evidence.JoinIsNormal | src/dstudio_pdf_evidence.c:334-342 | The join of normalized nonempty texts is normalized |
| Evidence.PageTextIsNormal | src/dstudio_pdf_evidence.c:325-345 | The joined text of a page is in the same normal form as the quote |
| Evidence.ReadWords | src/dstudio_pdf_evidence.c:325-345 | The word table holds the nonempty normalized words with their places in the join, each with the corners of the word it was read from; the page is refused exactly when a word comes, empty or not, after 20000 nonempty ones |
| Evidence.JoinSlice | src/dstudio_pdf_evidence.c:337-342 | Consecutive words' join is the slice of the whole join between their offsets |
| Evidence.SpanIsComparison | src/dstudio_pdf_evidence.c:348-353 | The byte comparison finds span (i, j) exactly when the words i to j join to the quote |
| Evidence.FindMatches | src/dstudio_pdf_evidence.c:346-354 | The match count is the number of word spans whose join is the quote |
| Evidence.Locate | src/dstudio_pdf_evidence.c:346-371 | Each status exactly when its condition holds; "matched" means one span with all corners on the page, and exactly the places of its words are returned, as fractions of the page and inside it |
| Sections.SectionNumber | src/dstudio_pdf_evidence.c:103-115 | The number found is the longest dotted number, under 32 bytes and not followed by a letter or digit, with its depth |
| Sections.OneHeading | src/dstudio_pdf_evidence.c:132-140 | A line is a heading of at most one kind and number |
| Sections.CollectHeadings | src/dstudio_pdf_evidence.c:124-143 | The table holds the first 128 headings of the whole document |
| Sections.OneReference | src/dstudio_pdf_evidence.c:162-170 | At most one reference stands at a position |
| Sections.ReadReference | src/dstudio_pdf_evidence.c:163-170 | The reference at a position is found exactly when there is one |
| Sections.FindTarget | src/dstudio_pdf_evidence.c:171-173 | A target is found exactly when one heading in the table has the kind and number |
| Sections.CollectLinks | src/dstudio_pdf_evidence.c:158-183 | The links are the first 128 of the document, none when the heading table is full, and every one of them has a unique target in the whole document |
| Sections.LinksHaveUniqueTargets | src/dstudio_pdf_evidence.c:117-118 | Relative to a heading table, every link goes from a page to another page's heading whose kind and number no other heading of the table has |
| Sections.FullTableHidesDuplicates | src/dstudio_pdf_evidence.c:160 | Without the rule about the full table a later heading could make a link ambiguous |
| WireString.FirstUnit | extension/remote/dstudio_wire_string.h:29-84 | A unit takes 1 to 12 bytes and yields 1 to 4 |
| WireString.DecodeAppend | extension/remote/dstudio_wire_string.h:24-91 | Decoding a concatenation is decoding its parts when the first one is whole |
| WireString.LiteralKeepsBytes | extension/remote/dstudio_wire_string.h:55-68 | The literal decoder accepts exactly the UTF-8 sequences of RFC 3629 and keeps their bytes |
| WireString.DecodesExactly | extension/remote/dstudio_wire_string.h:24-90 | A text decodes exactly when it is spelt as RFC 8259 section 7 says: characters as they are, the eight short escapes, four hexadecimal digits in either case for a character of the basic plane, and a high and a low surrogate for one beyond it; it decodes to the UTF-8 bytes of those characters |
| WireString.SpellingRead | extension/remote/dstudio_wire_string.h:29-84 | Each such spelling is read whole and stands for the bytes RFC 3629 gives its character |
| WireString.DecodeRatio | src/dstudio_model_rpc.c:14-15 | Decoding shrinks at most sixfold and never grows |
| WireString.DecodedIsWellFormed | extension/remote/dstudio_wire_string.h:7-10 | Whatever is decoded is NUL-free UTF-8 |
| WireString.PutEscaped | src/dstudio.c:1031-1052 | The escaping loop computes the quoted escaped text |
| WireString.EscapeRoundTrip | src/dstudio.c:1031-1052 | Escaping and decoding restores every UTF-8 text byte for byte |
| WireString.RoundTripExactly | src/dstudio.c:1031-1052 | Published text decodes back exactly when it is NUL-free UTF-8, and otherwise not at all |
| BodyDecoder.BodyReader.Byte | src/dstudio_model_rpc.c:237-268 | One byte moves the buffers as the automaton moves, or ends as finished, invalid or oversized |
| BodyDecoder.BodyReader.Settle | src/dstudio_model_rpc.c:255-267 | A unit is decoded exactly when it is complete, within the 16-byte unit buffer |
| BodyDecoder.CompleteExactlyWhenAccepted | src/dstudio_model_rpc.c:216-276 | The byte automaton completes with a body exactly when the wire is a quoted string that decodes to it, a brace and a newline, within 16 MiB |
| BodyDecoder.AcceptedBodyUnique | src/dstudio_model_rpc.c:216-276 | At most one body can be read out of given bytes |
| BodyDecoder.WireLimitNeverBinds | src/dstudio_model_rpc.c:14-15 | The wire limit admits every envelope whose body is within the decoded limit |
| BodyDecoder.FragmentationIndependent | src/dstudio_model_rpc.c:212-276 | For bytes with nothing after the envelope, whether a body is accepted does not depend on the cut into reads; for the kind of refusal see AnswerOfText |
| BodyDecoder.TrailingBytesDependOnTheCut | src/dstudio_model_rpc.c:242-243 | With any bytes after the newline the cut does matter: in reads of their own the envelope is accepted, in one read nothing is |
| BodyDecoder.CutMattersExactlyWhenSomethingFollows | src/dstudio_model_rpc.c:216-276 | All ways to read a text accept the same bodies if and only if nothing follows its envelope |
| BodyDecoder.WorkerBody | src/dstudio_model_rpc.c:216-276 | For every sequence of reads: a body exactly when some whole reads make up its envelope and it is a JSON object; oversized only when the decoded bytes pass 16 MiB, and within the wire limit exactly then |
| BodyDecoder.AnswerOfText | src/dstudio_model_rpc.c:212-276 | Within the wire limit and with nothing after the envelope, the answer, refusals included, is one function of the bytes |
| Frames.HeaderFrame | src/dstudio_model_rpc.c:621-627 | An accepted header has a positive size within the frame limit, or within the receipt buffer |
| Frames.HeaderRoundTrip | src/dstudio.c:1892-1897 | The header reader inverts the header writer, in under 32 bytes |
| Frames.ParseAppend | src/dstudio_model_rpc.c:604-644 | Parsing does not depend on how the pipe was cut |
| Frames.DataGrows | src/dstudio_model_rpc.c:604-644 | Later bytes never take data back |
| Frames.ParseOutput | src/dstudio.c:1874-1901 | The owner recovers exactly the payloads and the receipt of every worker run |
| Frames.ParsePrefixOfOutput | src/dstudio_model_rpc.c:611-643 | A proper prefix of a worker run gives leading data, no receipt and no error |
| Frames.DeliveredIsWorkerOutput | src/dstudio_model_rpc.c:604-644 | What a correct delivery hands over is a prefix of payloads and receipt, receipt bytes only after every payload byte |
| Frames.FailureFollowsData | src/dstudio_model_rpc.c:604-644 | A failed delivery is a prefix of the payloads followed by at most the owner's own receipt |
| Relay.ReceiptFits | src/dstudio_model_rpc.c:172-180 | Every failure receipt fits its buffer |
| Relay.ReceiptText | src/dstudio_model_rpc.c:170-176 | The exact text of a failure receipt: a newline, the record mark, and one JSON object with type, id and escaped reason |
| Relay.ReceiptShape | src/dstudio_model_rpc.c:170-176 | A failure receipt is one record led by a newline: its record mark stands once, its newlines are its first and last byte |
| Relay.FailureIsNeverSuccess | src/dstudio_model_rpc.c:167-181 | After early end, bad header or deadline the runtime has a prefix of the payloads and at most the one failure receipt of a reason; a success receipt found in those bytes is the worker's own data |
| Relay.UploadAdvances | src/dstudio_model_rpc.c:584-600 | A write takes the front of the staged request: metadata, then body or staged input, in order |
| Relay.Relay.Stage | src/dstudio_model_rpc.c:502-516 | Staged input is appended to what was admitted |
| Relay.Relay.Taken | src/dstudio_model_rpc.c:588-600 | A write takes the next bytes of the staged request; bytes admitted are the bytes taken followed by the bytes still staged |
| Relay.Relay.TakeHeaderByte | src/dstudio_model_rpc.c:611-629 | A header byte is parsed or fails the relay with the receipt of its fault, and the delivered bytes still agree with what was read |
| Relay.Relay.TakePayload | src/dstudio_model_rpc.c:631-643 | Payload goes to the delivery stage or the receipt; the last receipt byte ends the response, stops the worker and starts the delivery clock |
| Relay.Relay.StopWorker | src/dstudio_model_rpc.c:137-154 | The worker group is told to end once, while unreaped; both pipes close, and the clocks of the delivery and of the grace start |
| Relay.Relay.Cancel | src/dstudio_model_rpc.c:161-164 | Nothing is staged any more, both pipes are closed, the relay is stopping, and what both pipes had at that moment is remembered |
| Relay.Relay.Fail | src/dstudio_model_rpc.c:167-181 | The response becomes one failure receipt, none of it written; replacing a receipt already begun is recorded |
| Relay.Owner.AtMostOneMatches | src/dstudio_model_rpc.c:106-110 | At most one relay ever passes the fence |
| Relay.Owner.WorkerOutputArrives | src/dstudio_model_rpc.c:531-581 | End to end over a run: when a worker writes its payloads and its receipt, its segment of the runtime pipe is a prefix of just these, past the payloads only if all of it was read, or data of the payloads and then the failure the owner composed |
| Relay.Owner.PipeHoldsResponses | src/dstudio_model_rpc.c:531-581 | The runtime pipe holds the responses one after the other in epoch order and nothing else; each is data and at most one receipt unless its receipt was replaced, and a revoked one ends where it was revoked |
| Relay.Owner.Cancel | src/dstudio_model_rpc.c:156-165 | The epoch moves on, the queued relay is freed, and the current one no longer passes the fence |
| Relay.Owner.RequestChildStop | src/dstudio.c:4464-4490 | Stopping the runtime revokes everything first |
| Relay.Owner.Deliver | src/dstudio_model_rpc.c:531-542 | One write behind the fence delivers exactly the bytes the pipe takes, and says whether more are left or the pipe refuses |
| Relay.Owner.UploadOnce | src/dstudio_model_rpc.c:586-600 | One write offers what is left of the buffer within the budget; a full pipe changes nothing, a refusal closes the input, and what is taken is the front of the request |
| Relay.Owner.PumpUpload | src/dstudio_model_rpc.c:583-601 | The upload goes on until nothing of the request is missing, 64 KiB are gone, or the pipe takes nothing; only a refusal closes the input |
| Relay.Owner.FlushStaged | src/dstudio_model_rpc.c:605-610 | Staged data goes out before anything else is read: a full runtime pipe changes nothing, a refusal revokes the relay, and a write sends exactly the next bytes |
| Relay.Owner.ReadOnce | src/dstudio_model_rpc.c:611-643 | One read takes all that is offered up to the end of the frame, the buffer or the budget; the end of the pipe and a bad header each become the failure receipt of their reason, and the last byte of the receipt ends the response |
| Relay.Owner.OutputOnce | src/dstudio_model_rpc.c:603-644 | Staged data first, then one read: the response goes on, waits for a pipe, ends or is revoked as the two answers say |
| Relay.Owner.PumpOutput | src/dstudio_model_rpc.c:603-644 | What was read is what the worker pipe gave, piece by piece; the pass ends with 64 KiB read, with a runtime pipe that is full or gone, with a worker pipe that is silent or ended, or with the end of the response, and each end says what became of the relay |
| Relay.Owner.DeliverFinal | src/dstudio_model_rpc.c:572-576 | One write of the receipt sends exactly the bytes the pipe takes, and the delivery stays correct |
| Relay.Owner.Launch | src/dstudio_model_rpc.c:369-455 | The worker of a relay runs exactly when the fence admits it and its process and pipes start; otherwise the relay carries the failure, and one already failed is only announced |
| Relay.Owner.Retire | src/dstudio_model_rpc.c:571-581 | What the pipe takes of a receipt is its next bytes; a relay goes when it is revoked, refused or wholly delivered, its response joins the finished ones, and the queued one begins; otherwise it stays, uncanceled, with the same receipt |
| Relay.Owner.Reap | src/dstudio_model_rpc.c:559-570 | A stopping worker is killed exactly when its grace is over and signaled no more after it is reaped |
| Relay.Owner.Settle | src/dstudio_model_rpc.c:559-581 | A response that is over waits for its worker; once that is gone its receipt is written as far as the pipe takes it, or the revoked relay is dropped and the queued one begins |
| Relay.Owner.Lose | src/dstudio_model_rpc.c:546-581 | A relay that lost its runtime is revoked, forwards nothing in either direction, and goes when its worker is gone |
| Relay.Owner.Expire | src/dstudio_model_rpc.c:557-581 | Past the request deadline the response fails with its reason, and is told as any other once the worker is gone |
| Relay.Owner.TickRelay | src/dstudio_model_rpc.c:544-645 | One pass of the current relay, for every answer of its pipes: the five laws of `Tick` |
| Relay.Owner.Tick | src/dstudio_model_rpc.c:544-645 | For every answer of every pipe a pass does exactly one thing. A receipt not taken in time revokes everything and stops the runtime. A revoked relay forwards nothing and, once its worker is gone, is replaced by the queued one. A response that is over is told once its worker is gone: a write that takes n bytes adds its next n bytes to the pipe, all of them taken drop the relay, a full pipe leaves it in place. A live relay uploads until nothing is missing, 64 KiB are gone or the pipe takes nothing, and forwards until 64 KiB are read or a pipe or the response ends it; a full runtime pipe revokes nothing. The worker is told to end, killed and reaped by its clocks. Bytes go only to the runtime, pipe and endpoint the relay was admitted for, and no receipt is replaced |
| Relay.Announce | src/dstudio_model_rpc.c:571-581 | A runtime that takes some of the receipt in every pass has all of it within as many passes as it has bytes left; the relay is then gone and its response finished |
| Relay.Run | src/dstudio_model_rpc.c:457-645 | Over every run of passes, requests, input, errors, cancellations and changes of the runtime: pipe and finished responses only grow, a relay once revoked forwards nothing more, and no receipt is replaced unless a start error hits one already begun |
| Relay.Owner.Prepare | src/dstudio_model_rpc.c:465-483 | A new relay has its own epoch, runtime and endpoint, a deadline 30 minutes on, and the exact description of its request, or the failure of its reason |
| Relay.Owner.Describe | src/dstudio_model_rpc.c:469-483 | A body outside 1 byte to 16 MiB, or a description that is too long, fails with its reason; otherwise the request is described and nothing else changes |
| Relay.Owner.Enqueue | src/dstudio_model_rpc.c:484-487 | A relay is queued, untouched, only behind a revoked one; otherwise it is current and its worker runs or it carries the failure |
| Relay.Owner.Start | src/dstudio_model_rpc.c:457-488 | Refused only when something is missing or in the way. An admitted request has a new epoch and nothing delivered; it fails at once with its reason, is described to the worker that runs for it, or waits described behind a revoked relay; a local endpoint never gets the remote credential |
| Relay.Owner.InputAppend | src/dstudio_model_rpc.c:490-516 | Input belongs to the newest relay while its epoch passes the fence and its request is encoded, unfinished and not stopping; what fits the room is staged, a newline at its end completes it, or the relay fails with the reason of the wire limit; any other input is used up and changes nothing |
| Relay.Owner.SendStartError | src/dstudio_model_rpc.c:518-529 | The pending relay fails with the message, or a new relay of the present runtime carries it, behind a revoked one if there is one; it records when a receipt already begun is replaced |
| Relay.ReplacingIsCleanExactly | src/dstudio_model_rpc.c:518-529 | For whatever was written before and every number of bytes of the replacement from its record mark on: the delivery is correct exactly when only data was written before, or the worker itself had said those bytes |
| Relay.ReplacingIsCleanExactlyWhenUntouched | src/dstudio_model_rpc.c:518-529 | Replacing a worker's receipt of which k bytes were written is correct exactly when k is 0 |
| Relay.ReplacingBegunFailureIsNotClean | src/dstudio_model_rpc.c:518-529 | Replacing a failure receipt is correct when none of it was written and not once its head was, if the worker never said such a head |
| Lease.InvStep | scripts/install-q36.py:643-700 | Every step of every installer, engine or editor keeps the invariant of locks, records and candidates |
| Lease.Reachable | scripts/install-q36.py:643-829 | Every reachable state satisfies the invariant |
| Lease.TransitionsAreExclusive | scripts/install-q36.py:689-692 | When an installer touches the installed tree no other process holds the lease in any mode |
| Lease.LeaseFreezesTree | src/dstudio_q36.c:60-66 | While a process holds the lease only an editor can change the tree |
| Lease.EngineRunsAdmittedBinary | src/dstudio_q36.c:78-89 | An engine runs the executable it was admitted with, if nobody edits the tree between its check and its exec |
| Lease.NothingMovesUnderRunningEngine | src/dstudio_q36.c:60-66 | No installer changes the tree under a running engine |
| Lease.MatchedThroughout | scripts/install-q36.py:688-700 | If the tree matches a record at a later check it matched at every moment in between |
| Lease.NobodySlippedIn | scripts/install-q36.py:693-698 | Although the lease conversion is not atomic, an upgrade that passes its checks has seen one tree throughout, up to its own links |
| Lease.SnapshotKept | scripts/install-q36.py:650-698 | From the snapshot to the final check directory, receipt and code stay what they were, and so does the verified receipt of the record |
| Lease.ReplacedTreeIsVerified | scripts/install-q36.py:807-816 | The directory swapped out is the one that was verified and snapshotted, with the receipt and code it had then, and the candidate takes its place |
| Lease.CreateReplacesNothing | scripts/install-q36.py:699-700 | A first installation never replaces a tree |
| Lease.SharedIsGranted | scripts/install-q36.py:656 | A shared lease is refused exactly while an installer holds it exclusively, however many share it |
| Lease.ExclusiveIsGranted | scripts/install-q36.py:690 | The conversion to the exclusive lease is refused exactly while another process holds the lease in any mode |
| Lease.UpgradePublishes | scripts/install-q36.py:643-818 | Whenever nobody holds the lease and the receipt vouches for the code, an upgrade that takes its steps undisturbed ends with its candidate as the tree and the old directory kept |
| Lease.InstallPublishes | scripts/install-q36.py:643-829 | The same for a first installation, where there is no tree |
| Lease.EngineStarts | src/dstudio_q36.c:69-89 | An engine admitted for the executable of the tree runs it, however many engines share the lease, when no installer holds it exclusively |
| HardLinks.SnapshotTracks | scripts/install-q36.py:432-460 | A snapshot describes the tree it was taken of |
| HardLinks.TaintedNeverMatches | scripts/install-q36.py:571-572 | A prediction spoiled by a visible change never equals a later snapshot |
| HardLinks.ForeignTaints | scripts/install-q36.py:535-572 | Outside the windows of the links, any change by another program spoils the prediction for good |
| HardLinks.WindowMoves | scripts/install-q36.py:558-564 | Whatever other programs do between the stamp check and the stamp read after the link, what is not as it was has a later change time, and the candidate gains just the linked name |
| HardLinks.HiddenChangeTracks | scripts/install-q36.py:558-569 | If the window as a whole is the link and at most a new change time of the file, the comparison passes and the prediction stays exact |
| HardLinks.VisibleChangeTaints | scripts/install-q36.py:558-569 | Any other change in the window, before the link, after it or both, that passes the comparison spoils the prediction |
| HardLinks.LinkTracks | scripts/install-q36.py:558-569 | After a link and its checks the prediction still tracks the tree, for all names of the inode, whatever happened in the window |
| HardLinks.LinkPredicted | scripts/install-q36.py:540-543 | A link adds one to the predicted link count of every alias, owned names included |
| HardLinks.UnnoticedChange | scripts/install-q36.py:558-567 | In every tree and for every file of it: a change of mode and back between the stamp check and the link changes a recorded stamp, every check passes, and the final snapshot is the predicted one |
| HardLinks.UnnoticedLateChange | scripts/install-q36.py:563-567 | The same for a change between the link and the stamp read after it |
| HardLinks.HistoryGrows | scripts/install-q36.py:545-570 | The recorded events stay a chain of states, and a visible change among them stays one |
| HardLinks.ParentComesFirst | scripts/install-q36.py:545 | In sorted order a directory comes before its contents |
| HardLinks.LinkUserFile | scripts/install-q36.py:558-569 | With interference before the link, after it and both, the link fails only if the history holds a change that no window covers, and otherwise binds the candidate name to the same inode |
| HardLinks.CarryFile | scripts/install-q36.py:556-570 | A regular file is shared by link; it is rejected only for a conflict or a change in the history that no window covers |
| HardLinks.CarryOther | scripts/install-q36.py:549-561 | A directory or symbolic link is made anew or conflicts |
| HardLinks.PreserveUserFiles | scripts/install-q36.py:527-584 | The recorded events lead from the old state to the new one; accepted exactly when the tree matches the snapshot, no name conflicts and every change by another program is covered by the window of a link; then every unowned path is in the candidate, in place and shared, and the prediction is the real snapshot |
| HardLinks.MergeUserFiles | scripts/install-q36.py:527-584 | The same operation in plain terms. When the tree matches its snapshot, nobody interferes, and no name of it but the root, `.dstudio-source.json` and the owned names is in the candidate, it is accepted; every other name outside the owned ones is then in the candidate, a regular file as the very same file, and the candidate keeps its own receipt |
| HardLinks.CarriedNames | scripts/install-q36.py:545-548 | The names carried over are all names of the snapshot but the root, the receipt and the owned ones |
| Launch.RecordDependencies | src/dstudio_launch.c:90-104 | Every path of the request is recorded with its identity on disk; the server asked for is recorded with the identities of its model and image encoder |
| Launch.Host.Begin | src/dstudio_launch.c:407-478 | Admitted exactly when nothing is pending or stopping, the paths are at most 24 and can be read, and the worker starts. What is recorded is the request: its files, executable and tool runtime, and the server it asks for with the identities on disk; request and worker are events, and the current engine is untouched |
| Launch.Host.KillWorker | src/dstudio_launch.c:115-125 | The worker is signaled at most once and only while it is ours |
| Launch.Host.Cancel | src/dstudio_launch.c:148-164 | The first cancellation is recorded and gives the worker five seconds; a second changes nothing |
| Launch.Host.CancelPending | src/dstudio_launch.c:148-164 | Only a server this launch started is stopped by its cancellation |
| Launch.Host.ReadResult | src/dstudio_launch.c:506-537 | A poll takes the pieces of the pipe until the line is complete, 64 KiB are read, the pipe is silent or closed, or the next piece is too much; the last two fail the launch with their reason |
| Launch.Host.ReadOnce | src/dstudio_launch.c:506-521 | One read is appended to the result, or ends the worker with its reason; the read that completes the line is the last |
| Launch.Host.TakeResult | src/dstudio_launch.c:515-536 | The line is received once and the worker let go. The executables recorded are those the line names, the one built with prompt lookup if it says so; a refusal is a failure with its text |
| Launch.Host.CheckDeadline | src/dstudio_launch.c:538-541 | Past its deadline a launch is canceled, past the second its worker is killed; before it nothing happens |
| Launch.Host.ReapWorker | src/dstudio_launch.c:543-548 | A worker told to go is waited for, and recorded as reaped when it is gone |
| Launch.Host.Revalidate | src/dstudio_launch.c:388-405 | True exactly when every recorded identity equals the disk's now |
| Launch.Host.StopPrevious | src/dstudio_launch.c:578-585 | The previous engine is told to stop once, by a validated launch |
| Launch.Host.StartServer | src/dstudio_launch.c:591-602 | The owned server starts exactly when the disk is unchanged, its model is there and the process starts; else the launch fails with the reason |
| Launch.Host.Conclude | src/dstudio_launch.c:604-609 | Published exactly when the server that is needed is ready with the recorded settings and the new engine starts; otherwise failed with no engine touched |
| Launch.Host.Publish | src/dstudio_launch.c:603-609 | Publication follows a comparison with the disk in the same step |
| Launch.Host.Handoff | src/dstudio_launch.c:578-609 | Exactly one of: tell the child to stop, tell another server to stop, start the own one, wait until it is ready, publish; what each does and what it leaves alone, and each stop, start and publication is an event |
| Launch.Host.Abandon | src/dstudio_launch.c:554-568 | A launch that ends without publication stops only the server it started |
| Launch.Host.Decide | src/dstudio_launch.c:549-609 | What a launch whose worker is gone comes to, stated by the engines and the disk alone: hopeless, it ends and takes along no server but its own; otherwise the child is told to stop, then another server, then the server it needs is started, awaited, and the launch published if the disk still matches |
| Launch.Host.Settle | src/dstudio_launch.c:543-610 | A worker told to go is reaped when it has exited, and the launch decided in the same poll; until then nothing happens |
| Launch.Host.Tick | src/dstudio_launch.c:494-610 | A poll is what its worker said, then the deadline, then the reaping, then the decision, each fixed for every chance; it keeps the history safe and records every stop, start, signal and publication it makes; while the worker lives child and server are untouched |
| Launch.Replacement | src/dstudio_launch.c:494-610 | With a running child and another server: admitted, prepared, the child told to stop, then the server, the one asked for started and, when ready, published with the new child; the engine that runs is the one the request asked for |
| Launch.Host.Shutdown | src/dstudio_launch.c:612-618 | Closing leaves no launch pending |
| Launch.Host.Run | src/dstudio_launch.c:407-618 | Every run of admissions, cancellations and polls, with anything in between: each call accounts for what it did to child, server and worker by events, and all events together are the safe history |
| Launch.EndsOnce | src/dstudio_launch.c:127-164 | A launch ends at most once: committed, failed or canceled |
| Launch.PublishedAsAsked | src/dstudio.c:8282-8332 | In every safe history a published launch is what its user asked for: no previous child is left, every file has the identity it had at admission, the executable is the one the worker named and is on disk, and a server that was asked for is running, ready and not stopping with the settings of the request and the executable, model and image encoder on disk |
| Launch.ServerStartsAsAsked | src/dstudio_launch.c:586-602 | An owned server is started only by a validated launch with no child left, for the request of that launch and the executable its worker named |
| Launch.PreviousEngineIsSafe | src/dstudio_launch.c:569-590 | The previous engine is told to stop only by a launch that received its result, was validated against the disk and was neither canceled nor failed before |
| Launch.ExplainedTwice | src/dstudio_launch.c:494-610 | Two accounts in a row make one account |
| Launch.StopsAreDeserved | src/dstudio_launch.c:569-590 | A call after which the child, or a server it did not start, is newly told to stop belongs to such a launch |
| Launch.UnreapedWasSpawned | src/dstudio_launch.c:115-125 | An unreaped worker was spawned and not reaped since |
| Launch.SignalsReachOwnWorkers | src/dstudio_launch.c:115-125 | No worker is signaled after it was reaped |
| Readiness.ReadyIsFinal | src/dstudio_q36.c:223-242 | After its line a ready server that says anything more has failed |
| Readiness.FailedIsFinal | src/dstudio_q36.c:223-242 | A failed verdict stays failed |
| Readiness.Server.RequestStop | src/dstudio_q36.c:138-149 | Stopping revokes readiness at once |
| Readiness.Server.ReadChannel | src/dstudio_q36.c:223-242 | After every read the flags are the verdict on all bytes sent so far |
| Readiness.Server.Tick | src/dstudio_q36.c:209-262 | Ready implies running, not stopping and a matching receipt; a poll stops the server exactly when its channel ends, its bytes decide against it, or its loading deadline passes, kills it exactly when it was stopping past its grace, and a server that is gone is never ready |
| Readiness.Feed | src/dstudio_q36.c:223-242 | The verdict depends only on the bytes sent, not on how reads split them |
| JsonGrammar.PassNumber | extension/remote/dstudio_json_tokens.h:72-94 | The scan of a number ends where the grammar of numbers says, or refuses |
| JsonGrammar.PassValue | extension/remote/dstudio_json_tokens.h:131-145 | One value: the recursive descent computes the end of the value, or refuses, with nesting up to 64 |
| JsonGrammar.PassArray | extension/remote/dstudio_json_tokens.h:96-109 | The loop over the elements computes the end of the array |
| JsonGrammar.PassObject | extension/remote/dstudio_json_tokens.h:111-129 | The loop over the members computes the end of the object |
| JsonGrammar.Validate | extension/remote/dstudio_json_tokens.h:147-160 | The whole check on a text |
| JsonGrammar.ValueFound | extension/remote/dstudio_json_tokens.h:131-145 | What the descent passes over is the text of a value of the grammar, numbers and literals included, nested no deeper than allowed |
| JsonGrammar.ValueAccepted | extension/remote/dstudio_json_tokens.h:131-145 | The text of every such value is passed over as a whole |
| JsonGrammar.NumberAccepted | extension/remote/dstudio_json_tokens.h:72-94 | Every number of RFC 8259 section 6 that ends at a delimiter is accepted whole |
| JsonGrammar.ValidExactly | extension/remote/dstudio_json_tokens.h:147-160 | The check accepts exactly the complete documents: one value between blanks that starts with the required byte |
| JsonTokens.FindStringEnd | extension/remote/dstudio_json_tokens.h:174-204 | The closing quote of a string, or none |
| JsonTokens.FindWordEnd | extension/remote/dstudio_json_tokens.h:206-215 | The end of a bare word, or none |
| JsonTokens.AdvanceInPlace | extension/remote/dstudio_json_tokens.h:230-261 | One lexeme in the caller's buffer does what the scanner's step says |
| JsonTokens.TokenizeInto | extension/remote/dstudio_json_tokens.h:227-265 | The buffer holds the tokens of the text, or -1 when it is no document or does not fit |
| JsonTokens.ScanNode | extension/remote/dstudio_json_tokens.h:227-265 | Scanning the text of any value appends its preorder tokens, or fails exactly when they do not fit |
| JsonTokens.TokenizeDocument | extension/remote/dstudio_json_tokens.h:227-265 | The tokens of a document are its tree in preorder with ranges, sizes and parents |
| JsonLookup.Field | src/dstudio_model_stream.c:44-56 | The loop computes the scan over the object's children |
| JsonLookup.FieldFindsMember | src/dstudio_model_stream.c:44-56 | On the tokens of any object in a document the scan returns a member of that object, never a nested one |
| JsonLookup.LookupIsFirst | src/dstudio_model_stream.c:44-56 | What is returned is the value of the first member with the name, and -1 exactly when there is none |
| JsonLookup.ValueInPlace | src/dstudio_model_stream.c:112-116 | The value of every member of a laid out object is itself in place |
| JsonLookup.FoundInPlace | src/dstudio_model_stream.c:112-116 | What the scan of an object in place returns is the token of a wanted member's value, in place again, so lookups nest |
| JsonLookup.RootInPlace | src/dstudio_model_stream.c:20-35 | The root of a tokenized document is in place |
| JsonLookup.AsciiDecodesAlike | extension/remote/dstudio_json_tokens.h:274-316 | Both string decoders agree on ASCII text |
| JsonLookup.DecodersAgreeExactly | extension/remote/dstudio_json_tokens.h:274-316 | The two decoders of the source agree on a text exactly when no character of it is spelt as a pair of surrogates |
| JsonLookup.FoundMemberIsTheOnlyOne | src/dstudio_model_stream.c:28 | With unique keys an ASCII name is the key of at most one member |
| JsonOpen.ArrayNth | extension/remote/dstudio_json_tokens.h:339-347 | The loop finds the n-th child of an array, or -1 |
| JsonOpen.ChildrenOfParts | extension/remote/dstudio_json_tokens.h:339-347 | Among the tokens of a container the children are exactly its parts, in order, never anything nested |
| JsonOpen.CheckKeys | extension/remote/dstudio_json_tokens.h:352-386 | The two loops over an object accept exactly when its keys can be read and differ |
| JsonOpen.CheckTokens | src/dstudio_model_stream.c:28-36 | Every string of the document can be decoded and every object has unique keys |
| JsonOpen.NodeTokensOk | src/dstudio_model_stream.c:28-36 | The checks on the tokens of a value pass exactly when the value is legible: strings decode and no object in it repeats a key |
| JsonOpen.Open | src/dstudio_model_stream.c:19-42 | Opening a text in the buffer of tokens: syntax, tokenizer, checks |
| JsonOpen.OpenDocument | src/dstudio_model_stream.c:19-42 | A complete document opens exactly when it fits and is legible, and its tokens are its tree |
| JsonOpen.OpenExactly | src/dstudio_model_stream.c:19-42 | A text opens exactly when it is a complete, legible document that fits |
| JsonOpen.LegibleIsUnique | src/dstudio_model_stream.c:28 | In a document that opened the keys of every object are unique |
| JsonChecks.BoundModel | src/dstudio_model_rpc.c:281-298 | The loop computes the scan for the model member |
| JsonChecks.BoundMeaning | src/dstudio_model_rpc.c:286-294 | The scan accepts exactly when every top-level key is readable, one of them is the model's and its value is the expected string |
| JsonChecks.BoundModelExactly | src/dstudio_model_rpc.c:278-298 | On the tokens of any document the check accepts exactly those; nested members do not count |
| JsonChecks.CheckModel | src/dstudio_model_rpc.c:281-298 | Syntax check, tokenizer and scan together compute the whole check on a text |
| JsonChecks.BoundTextExactly | src/dstudio_model_rpc.c:278-298 | For every text: it passes exactly when it is one JSON object that fits 32768 tokens and one top-level member names the expected model |
| JsonChecks.BodyIsObject | src/dstudio_model_rpc.c:239-242 | With the real syntax check the worker takes a body exactly when its reads form an envelope of it and it is one complete JSON object |
| Receipt.ReceiptMatches | src/dstudio_q36.c:171-207 | The loop accepts exactly when the scan does and leaves no entry out |
| Receipt.ReceiptExactly | src/dstudio_q36.c:171-207 | Accepted exactly: fourteen flat members, each agreed one among them with its agreed value |
| Receipt.CheckReceipt | src/dstudio_q36.c:171-207 | Syntax check, tokenizer and scan together compute the whole check on a line |
| Receipt.ReceiptTextExactly | src/dstudio_q36.c:171-207 | For every text: it passes exactly when it is one JSON object that is such a receipt; the room for 64 tokens never decides |
| Receipt.ReadyMeansAgreed | src/dstudio_q36.c:223-242 | A server is ready exactly when it has sent one line, short enough and without a zero byte, that is one JSON object with the fourteen members of its launch |
| Receipt.AnyOrderWillDo | src/dstudio_q36.c:176-177 | The order of the members does not matter |
| Receipt.ReceiptIsAgreed | src/dstudio_q36.c:178-181 | The fourteen agreed keys are distinct |
| Receipt.ReceiptSays | src/dstudio_q36.c:178-205 | The complete receipt of a launch, name by name: version 1, event ready, the pid, host 127.0.0.1, the configured port and context, the model, backend and cache types, no streaming, the identities of model and vision file, and an empty third file |
| Receipt.IntegerMeaning | src/dstudio_q36.c:193-197 | A word counts as an integer exactly when it is an optional sign and decimal digits, shorter than 48 bytes, that write that 64-bit value |
| Receipt.Pigeonhole | src/dstudio_q36.c:205 | Distinct names need distinct places |
| Steering.Desk.Prepare | src/dstudio_steering.c:12-23 | A new runtime drops what was not applied and replays nothing |
| Steering.Desk.Post | src/dstudio_steering.c:52-85 | The reply to every request, one condition for each: admitted exactly under the source's conditions; a repeated request adds nothing |
| Steering.Desk.OpenTurn | src/dstudio_steering.c:93-104 | A new turn starts empty and open; asking again changes nothing |
| Steering.Desk.Acknowledge | src/dstudio_steering.c:106-124 | Only the first confirmation of the input in flight is echoed; what was not handed out is refused |
| Steering.Desk.HandOut | src/dstudio_steering.c:125-135 | The next pending input in order of admission, at most one in flight; closed only when everything is applied and the runtime has finished |
| Steering.Desk.Pull | src/dstudio_steering.c:87-136 | Every reply has its exact condition. The admissions never change, the hand-outs grow by exactly the input handed over, the echoes by exactly the first confirmation of the one in flight; a wrong credential, a stale turn or an acknowledgement of something not handed out changes nothing |
| Steering.OutstandingInOrder | src/dstudio_steering.c:75-76 | The states read applied, at most one delivered, pending, so the outstanding ones are those after the applied |
| Steering.ClosedTurnIsComplete | src/dstudio_steering.c:125-135 | In a closed turn every admitted input was handed out once and echoed once, in order of admission |
| Steering.OpenTurnIsAPrefix | src/dstudio_steering.c:106-135 | In an open turn the echoes are the applied inputs and at most sixteen wait |
| Steering.Desk.EverythingOnce | src/dstudio_steering.c:52-136 | Over all turns: nothing is handed out twice or out of order, and the transcript is the confirmed inputs, each once, in order of admission |
| Steering.TurnAdded | src/dstudio_steering.c:93-104 | A finished turn joins the earlier ones without breaking this |
| Steering.Serve | src/dstudio_steering.c:52-136 | Any requests in any order, lost or repeated, over any number of turns and runtimes: admissions, hand-outs and echoes only grow, and all of this holds at the end |
| ToolCalls.Append | src/dstudio_model_stream.c:68-84 | A piece is appended and counted, or refused exactly when unreadable or past a limit |
| ToolCalls.AbsorbedExactly | src/dstudio_model_stream.c:58-118 | An entry is taken exactly when its type, if it has one, is the word function, its callee is an object, every text in it can be read, and every text and the batch stay within their limits |
| ToolCalls.AbsorbAccumulates | src/dstudio_model_stream.c:101-116 | A call stays the concatenation of its own pieces and the counter grows by the delta's weight |
| ToolCalls.EntryAccumulates | src/dstudio_model_stream.c:86-119 | The same for all calls at once, so interleaving does not matter and the counter is the total |
| ToolCalls.Job.AddEntry | src/dstudio_model_stream.c:101-116 | One entry changes only its own call |
| ToolCalls.Job.AddEntries | src/dstudio_model_stream.c:86-119 | All entries of an array, or the batch is lost: too many, a repeated index, an unreadable or oversized piece |
| ToolCalls.Job.Take | src/dstudio_model_stream.c:121-176 | One line: the batch is lost exactly when the line is not acceptable; otherwise entries, calls, counter, reason and sentinel are exactly what the line says |
| ToolCalls.Drive | src/dstudio.c:1903-1914 | Lines are taken until the stream is done, and what is collected is the fold of the lines |
| ToolCalls.TakenIsExplained | src/dstudio_model_stream.c:121-176 | What was collected comes from the lines up to the sentinel: the log is all their entries, and a reason comes from a chunk after which no chunk says anything |
| ToolCalls.Transfer | src/dstudio_model_stream.c:121-220 | A whole transfer publishes a batch exactly when the stream ended with tool_calls and the sentinel, every call is whole and the text got through; what is published is the rendering of the calls |
| ToolCalls.Job.Complete | src/dstudio_model_stream.c:178-220 | A batch is published exactly when the stream ended with tool_calls and the sentinel and every call is whole with its own id; else nothing |
| ToolCalls.Job.CheckCalls | src/dstudio_model_stream.c:194-201 | The check passes exactly when indices 0 to n-1 are whole and ids are distinct |
| ToolCalls.Job.Publish | src/dstudio_model_stream.c:202-211 | The published text is the rendering of the batch |
| ToolCalls.CallTextRenders | src/dstudio_model_stream.c:206-209 | The pieces written for a call are the rendering of its object |
| ToolCalls.BatchIsJson | src/dstudio_model_stream.c:202-211 | What is published is one JSON array with one element per call |
| ToolCalls.PublishedCallDecodes | src/dstudio_model_stream.c:192-193 | Every published id, name and argument text decodes back byte for byte to the pieces received |
| ToolGroup.ReadOne | patch/ds4-agent-jsonl/remote-tools.cfrag:450-456 | The field lookups of one call compute its three texts, or none |
| ToolGroup.ReadGroup | patch/ds4-agent-jsonl/remote-tools.cfrag:444-471 | The loop over the calls returns all of them exactly when each can be read and is in order |
| ToolGroup.PrepareGroup | patch/ds4-agent-jsonl/remote-tools.cfrag:434-474 | The runtime admits the whole group read from a text, or nothing |
| ToolGroup.CallReadBack | patch/ds4-agent-jsonl/remote-tools.cfrag:450-456 | A published call in its place among the tokens is read back byte for byte |
| ToolGroup.BatchOpens | patch/ds4-agent-jsonl/remote-tools.cfrag:28-48 | Every batch the host can publish opens in the runtime: text, tokens and strings are within its limits |
| ToolGroup.BatchIsRead | patch/ds4-agent-jsonl/remote-tools.cfrag:434-474 | Reading the rendering of a batch within the host's limits gives its calls back exactly when they are welcome, and nothing otherwise |
| ToolGroup.TakenAccumulates | src/dstudio_model_stream.c:86-119 | After every line of a stream the slots hold the pieces received and the counter is their total |
| ToolGroup.TextsAreReceived | src/dstudio_model_stream.c:76-82 | All ids, names and arguments together are no longer than what the deltas carried |
| ToolGroup.PublishedIsReadBack | patch/ds4-agent-jsonl/remote-tools.cfrag:434-474 | For every stream: what the host publishes the runtime reads back, piece for piece, or refuses exactly when a name is longer than 127 bytes, an id is known, the session has no room for the ids, or a call fits no tool |
| ToolGroup.HandOver | patch/ds4-agent-jsonl/remote-tools.cfrag:434-474 | From deltas to the admitted group: there is one exactly when the stream publishes a welcome batch, and it holds exactly the pieces collected |
| ToolGroup.LongNameIsRefused | patch/ds4-agent-jsonl/remote-tools.cfrag:457-458 | A stream with one call whose name has 128 bytes is published and refused |
| ToolGroup.OpenedArguments | patch/ds4-agent-jsonl/remote-tools.cfrag:399 | Arguments the host accepts are one complete, legible JSON object; the runtime opens them again unless they hold a form feed or a vertical tab |
| ToolGroup.ArgumentsAreObjects | src/dstudio_model_stream.c:198-200 | The arguments of every published call passed that test |
| Progress.Split | scripts/h3-run.py:781-782 | One pass splits at carriage returns and newlines and keeps the unterminated tail |
| Progress.SplitContinues | scripts/h3-run.py:781-782 | Splitting the kept tail with the next chunk continues the splitting of the whole |
| Progress.DistinctHasNoRepeats | scripts/h3-run.py:770-776 | No two neighbours of the emitted records are equal |
| Progress.Parser.Emit | scripts/h3-run.py:770-776 | A record is emitted unless it repeats the last one |
| Progress.Parser.Feed | scripts/h3-run.py:778-787 | A chunk emits the records of the pieces it completes |
| Progress.Parser.Poll | scripts/h3-run.py:789-794 | A forced or quiet poll reads the tail, an early one does nothing |
| Progress.ExtraRecords | scripts/h3-run.py:770-776 | Extra records in a sequence leave it without repeats unchanged exactly when each repeats the one before or is the next one; otherwise the result is longer |
| Progress.FramingIsExact | scripts/h3-run.py:755-794 | For every chunking and all polls: the records are those of the whole text without consecutive repeats if and only if every poll reads nothing, the last record again, or the next one of the text |
| Progress.SilentPollsAreHarmless | scripts/h3-run.py:789-794 | Polls that would emit nothing, and polls after the last output, are harmless: a caller can check this before the poll |
| Progress.FramingIsBatchSplit | scripts/h3-run.py:778-794 | So are polls of a tail that is no record or turns out to be a whole one |
| Progress.ParsesExactly | scripts/h3-run.py:748-752 | The record reader accepts exactly the texts of the pattern, with the phase and counts they spell |
| Progress.Drive | scripts/h3-run.py:755-794 | A parser driven through a run emits exactly the records looked at without repeats; these are the batch records exactly under that condition |
| Progress.EarlyPollInvents | scripts/h3-run.py:789-794 | A poll of a record that one more byte changes emits a record the text does not hold |
| Progress.EarlyPollInventsDenoise | scripts/h3-run.py:226 | With the pattern of the native program: denoise 1/2 is polled, a 0 arrives, and both come out |
| Progress.EarlyPollBeforeBlank | scripts/h3-run.py:789-794 | The same poll is harmless when a blank arrives |

## Left out

- Sockets, pipes, fork and exec, signals, Poppler, curl, Metal and embedding calls: their results are choices of the environment or parameters.
- Windows branches, HTTP routing and response text, logging, task bookkeeping, skill catalogs, media pipelines, download scripts, cache keys and hashes.
- Relay: the mode of the runtime pipe and its restoration, and the erasing of credentials from memory; buffers are sequences held to the source's capacities. The owner reads the clock once a pass instead of up to four times. A runtime pipe that cannot be switched to nonblocking mode counts as one that is gone.
- Relay.Owner.SendStartError: records when it replaces a receipt already begun, because the delivery is then not correct; the exact condition is a lemma of its own.
- BodyDecoder.WorkerBody: whether the decoded body is a complete JSON object is a parameter here; `JsonChecks.BodyIsObject` fills it in. Beyond the wire limit a read is refused whole, so bytes in it that pass the body limit are answered as invalid.
- JsonTokens: a bare word stands for any number or literal; `JsonGrammar` says which are. JSON text holds no NUL, as in a C string.
- JsonLookup.FoundMemberIsTheOnlyOne: is stated for ASCII names, which all names the source looks up are; beyond ASCII the two decoders differ exactly where a character is spelt as a pair of surrogates (`JsonLookup.DecodersAgreeExactly`).
- Receipt.ReceiptTextExactly: the agreed values are parameters.
- JsonOpen.Open: allocation failure and error texts; the runtime decodes the strings before it compares the keys, the host after, with the same outcome.
- Readiness.Feed: whether a line is the agreed receipt is a parameter here; `Receipt.ReadyMeansAgreed` fills it in.
- ToolCalls: the display frames of text deltas, the assembly of lines from the byte stream, and the lookups that turn the text of a line into choices and deltas; whether argument text is a valid JSON object is a parameter here, and `ToolGroup.ArgumentsAreObjects` fills it in. After a refused piece the slot's partial contents are not described, because the batch is lost.
- ToolGroup: the frame that carries the published text to the runtime, and whether arguments fit the schema of a known tool, which is a parameter; adding the group to the transcript and running it.
- Steering: the JSON text of requests and replies and the random key; whether a request parses is a parameter.
- Launch: the composition of the dependency list, the prepared charter, resuming a saved server, the preparation process itself and task status after publication; whether the request and configuration are still fit is a parameter of each check.
- Lease: a tree is its stamp, receipt, code and executable, and each metadata check is one step; the lock file is never replaced; the probe for engines without a lease, the recovery journal and fsync are not modelled.
- HardLinks.PreserveUserFiles: does not reject changes covered by the window of a link; changes by other programs renew the change time, as file systems do. `installation_snapshot` scans entry by entry and is modelled as one step, so no change falls inside a scan; a link or directory that fails for want of space is not modelled. Entry, path and link-length limits, modes of new directories and fsync are not modelled.
- PageSelection.OverviewSize: needs a limit of at least six, because the six anchors alone may exceed a smaller one; the caller gives 16 to 48.
- PageBudget: page delimiters, labels and ellipsis marks are not counted; the text of a page ends at a byte that is no continuation byte, as the text layer's separators do.
- PageBudget.CutPage: is not stated for a page of 24 to 31 bytes with a hit and a smaller quota, where the source's unsigned subtraction wraps; the plan never asks for such a cut.
- Evidence: parsing Poppler's output and rendering; coordinates are real numbers.
- Sections: parent pages of heading hints and the JSON text of hints and links.
- SemanticPages, PageBudget: scores are given integers; embeddings, BM25 and their combination are not modelled.
- RagWindows: the text of windows across pages and allocation failure.
- Progress.ParsesExactly: blanks and digits beyond ASCII, which the source's pattern also accepts, and the decoding of the output.
- Launch.Host.Shutdown: gives up a worker that outlives its grace without waiting for it, so no event says that it was reaped.
