# ExUI: proofs about the control interface

This project models the parts of ExUI in which a small mistake would be hard to see, and proves what
those parts are for. Each model keeps the branches, constants and error cases of the code it follows.

The code works by changing state, so the models do too: the command handlers, the clipper's cached
outcode, the canvas draw list, the receive buffer, the stream table, the query queue, the backoff
counter and the line buffer are classes or loops over arrays and sequences. Each method is proved equal
to a specification function of its input and old state, and the theorems are proved about those
functions, for all inputs or for every run. Concurrency is modelled as a transition system whose steps
are the mutex-protected sections (and, where the code takes no mutex, the single accesses).

## Contents

| file | what it models |
|---|---|
| `Sequences.dfy`, `SequenceRoundTrip.dfy`, `SequenceTheorems.dfy`, `SequenceCells.dfy`, `SequenceConfigs.dfy` | compiling valve sequences into controller arrays and reading them back, and every cell of it |
| `Redlines.dfy` | loading and downloading redline limits |
| `Poller.dfy` | the node-to-datapoints index and one poll |
| `Geometry.dfy`, `ClipSegment.dfy`, `ClipPolygon.dfy`, `ClipFill.dfy`, `ClipPixels.dfy`, `Simplify.dfy` | clipping lines and polygons to the view, what a clipped polygon fills, clipping on whole pixels, simplifying lines |
| `DrawOrder.dfy` | the canvas renderer's doubly linked draw list |
| `HttpParser.dfy`, `HttpResponses.dfy`, `HttpGrammar.dfy` | the resumable HTTP response parser, what it reads and what it rejects |
| `VideoWorkers.dfy`, `VideoViewers.dfy` | one worker per video stream; delivery of packets to viewers |
| `QueryQueue.dfy`, `Backoff.dfy` | the cloud link's query queue and its reconnect delays |
| `Slots.dfy`, `SlotLayout.dfy` | task numbers and ports of datapoints with their own adapter, across three programs |
| `Lines.dfy` | reassembling lines from TCP chunks |
| `Options.dfy`, `Collections.dfy`, `Opcua.dfy`, `Decimal.dfy`, `KeyOrder.dfy`, `TextSearch.dfy` | shared pieces: options, sequences, nodes, decimal printing, sorted key lists, text search |

## Where the code keeps less than it seems to promise

- **Backoff** (`adapters/netdata/aclk/aclk_util.c:310-347`). The comment promises milliseconds, but a
  delay that meets a bound is returned in the bound's seconds. `PromisedIff` says exactly when the result
  is the promised one, and `TruncationShortens` when a later attempt waits less than an earlier one. The
  64-bit product and sum can wrap. Exact conditions: `IntervalIffFits` for the documented interval,
  `GrowsIff` for growth from one attempt to the next whatever the jitter, `AlwaysMaxIff` for returning the
  maximum. For base 2 (up to the 64th attempt, the last whose power fits) the delays grow for the first 55
  attempts and no further (`BaseTwoGrowth`): the 56th always waits less than the 55th (`BaseTwoShrinks`).
  With the default bounds the delay falls below one second from attempt 62 on (`DefaultBackoff`).
- **Flush** (`adapters/netdata/aclk/aclk_query_queue.c:67-96`). A flush pops, and pop refuses while the
  queue is blocked. `FlushEmptiesIffOpen` is the exact condition; the restart branch, which locks before
  it flushes, therefore keeps every queued query (`RestartKeepsTheQueue`, `Queue.Restart`).
- **Stream registration** (`adapters/video/http.go:183-193`). Registration takes no mutex, so two first
  requests for one new URL can start two workers: `TwoWorkersIffNotConfigured` says that a run with two
  workers exists for a stream if and only if the stream is not configured, and
  `OneWorkerIfRegisteredOnce` that one registration per stream would be enough to prevent it.
- **Viewers without a worker** (`adapters/video/stream.go:33-36`). A worker that has seen no viewer keeps
  the lock until it unlocks. A request in between starts nothing and its viewer is left without a worker
  (`StarvedViewer` is the run) until the next request (`StarvedUntilRequest`). `SureOfWorkerIff` says that
  a joining viewer has a worker for as long as it stays, in every run, if and only if one is still in its
  loop as the viewer is added.
- **Header lines** (`adapters/netdata/aclk/https_client.c:73-92`). The search for `": "` does not stop at
  the end of its line, so for a header line without it the outcome depends on how much was received.
  `IndependentIffClean` says that the verdict is the same for every cut of a stream if and only if the
  stream is clean (every header line the parser consumes has its separator); well-formed responses are.
  `MalformedIsUnclean` gives a family of streams that are not, `AnUncleanStream` one of them with a cut
  that changes its verdict.
- **Task numbers** (`start.py:1093-1147`). Data sources typed `locat2d` use up task numbers that the
  adapter does not count. `SlotAgreement` holds if and only if there is no such source; in the
  configuration of `ShiftedSlot` the adapter finds no source at all. A datapoint that shares its service
  key with another loses its service: `AllDeployedIff`.
- **Last delay** (`adapters/opcua/client.py:290-291`). The delay of a commanded last slot is never
  written. With a delay vector that has an entry for it, what comes back there is the old entry:
  `RoundTrip` holds if and only if the vector is shorter, the slot is not commanded, or the old entry
  happens to fit.
- **Longitude** (`adapters/wtw/adapter.js:196-199`). Both branches set the direction to `W`; it is the
  text's own direction if and only if the text has a `W` (`LongitudeIff`).

## What the callers must provide

A sequence to load is not empty and has at most as many steps as the type has slots, and the nodes and
cells it addresses exist; the source's own indexing fails otherwise. The three arrays of a redline are
different nodes, because all three are read before the first is written. The path texts of a sequence
type's node families are not prefixes of each other (`PathsApart`), so that printed numbers cannot make
two of them meet. With rounding, boxes and points are whole pixels, as the map's pixel coordinates are.

## Model

| member | source | states |
|---|---|---|
| SequenceTheorems.RoundTrip | adapters/opcua/client.py:251-477 | download after load returns exactly the first min(n, L) commanded steps, durations and values (n steps, delay vector of L entries), if and only if the last slot's delay is not needed or its old entry fits, whatever else was stored before |
| SequenceTheorems.RoundTripOfPlant | adapters/opcua/client.py:287-291 | with N - 1 delays for N slots a full-length sequence loses exactly its last step, every shorter one comes back complete |
| SequenceTheorems.LoadedIsReadable | adapters/opcua/client.py:427-459 | after a load that can be read back, every slot the download visits has its nodes and cells |
| SequenceTheorems.DownloadTimes | adapters/opcua/client.py:427-431 | a downloaded step carries the delay of its slot |
| SequenceTheorems.LoadIsolated | adapters/opcua/client.py:279-346 | loading one sequence changes no node of another sequence of its type |
| SequenceTheorems.NodesDisjoint | adapters/opcua/client.py:293-312 | the printed node paths of two sequences of a type never coincide |
| SequenceTheorems.FamiliesApart | adapters/opcua/client.py:293-312 | delay, step and hold paths never coincide for any sequences and slots |
| SequenceTheorems.LoadForgets | adapters/opcua/client.py:279-401 | two controllers that agree on the unaddressed cells are equal on the whole sequence after the same load |
| SequenceTheorems.DownloadStops | adapters/opcua/client.py:427-469 | download returns the slots before the first zero delay after slot 0, in order |
| SequenceCells.ReportedOutput | adapters/opcua/client.py:455-467 | whatever the arrays hold, an output is reported as 2 if it is held and closed, else as its state |
| SequenceTheorems.SlotShows | adapters/opcua/client.py:455-467 | a slot of the loaded controller decodes to the keys and values of its step, holds included |
| SequenceTheorems.StepArrayForgets | adapters/opcua/client.py:317-341 | a cell that a step addresses does not depend on its old content |
| SequenceRoundTrip.LoadAt | adapters/opcua/client.py:287-401 | a load by slots: what each step stores, then the tail arrays, whose cells RemainingSlots states, and the delays |
| SequenceCells.CommandedCell | adapters/opcua/client.py:314-346 | in a commanded slot the last output that stores a value in a cell decides it: 1 opens, 0 and 2 close, 2 holds |
| SequenceCells.OtherCell | adapters/opcua/client.py:314-346 | a cell in which no output stores a value, or only an invalid one, stays as it was |
| SequenceCells.RemainingSlots | adapters/opcua/client.py:350-372 | every cell of the slot after the last equals that of the last commanded slot as loaded, every cell of later slots is 0 |
| SequenceCells.RemainingHolds | adapters/opcua/client.py:374-398 | the same for the hold arrays |
| SequenceCells.DelayCell | adapters/opcua/client.py:290-291 | every cell of the loaded delay vector: duration, zero, or untouched |
| SequenceCells.PathTexts | adapters/opcua/client.py:280-312 | the node paths of a sequence, printed |
| SequenceRoundTrip.LoadElsewhere | adapters/opcua/client.py:287-401 | a load changes no node but the sequence's own |
| SequenceRoundTrip.FinalDelayCells | adapters/opcua/client.py:290-291 | every cell of the stored delay vector: duration, zero, or untouched (last slot, and cells beyond the slots) |
| SequenceRoundTrip.StepCell | adapters/opcua/client.py:323-339 | the cell of each addressed output holds the encoding of its value when output cells are distinct |
| SequenceRoundTrip.HoldCell | adapters/opcua/client.py:323-332 | the same for the hold array |
| SequenceRoundTrip.DownloadSlot | adapters/opcua/client.py:455-467 | the loop over outputs reads one slot as specified |
| SequenceRoundTrip.DownloadSlots | adapters/opcua/client.py:427-469 | the loop over the delays returns the specified steps |
| SequenceRoundTrip.DownloadSequence | adapters/opcua/client.py:405-477 | the download loop returns the specified steps, none for an unknown key |
| Sequences.Client.LoadSequence | adapters/opcua/client.py:251-403 | verdict, new nodes and resorted key list of a load; a rejected load changes no node |
| Sequences.Client.Check | adapters/opcua/client.py:255-271 | the first step whose keys differ or whose duration is not positive rejects the command |
| SequenceCells.AcceptedIff | adapters/opcua/client.py:255-271 | a command is accepted if and only if every step names exactly the configured outputs and lasts longer than 0 |
| SequenceCells.FirstOffender | adapters/opcua/client.py:255-271 | otherwise the first step that does not decides the verdict, its outputs before its duration |
| Sequences.Client.CheckStep | adapters/opcua/client.py:257-271 | sorted key lists are equal exactly when the outputs match; the configured list ends up sorted |
| Sequences.Client.StoreAll | adapters/opcua/client.py:287-346 | delays and arrays after all commanded steps, and the arrays of the last one |
| Sequences.Client.StoreOne | adapters/opcua/client.py:301-346 | one slot's arrays after its outputs are written |
| Sequences.Client.FillAll | adapters/opcua/client.py:350-398 | the remaining slots and delays |
| Sequences.Client.CopyOrClear | adapters/opcua/client.py:366-370 | an array becomes a copy of the last step's, or zeros |
| KeyOrder.SortedEqualIff | adapters/opcua/client.py:262-264 | sorted lists are equal if and only if the lists have the same elements with multiplicity |
| KeyOrder.SortAgain | adapters/opcua/client.py:262 | sorting the configured list in place again changes nothing |
| KeyOrder.LeqIsLexicographic | adapters/opcua/client.py:262 | keys are compared as strings are, by the first difference |
| SequenceConfigs.GetSequenceConfigs | adapters/opcua/client.py:72-88 | each key has the configuration, field by field, of the last numbered sequence with that key; without clashes each sequence has its own |
| SequenceConfigs.KeysOfOneType | adapters/opcua/client.py:78-81 | the keys of one type never clash |
| Decimal.StrRoundTrip | adapters/opcua/client.py:280-298 | decimal printing is read back to the same number |
| Decimal.StrOfValue | adapters/opcua/client.py:280-298 | printing is canonical: every numeral without leading zero is the printed form of its value |
| Decimal.StepPathInjective | adapters/opcua/client.py:295 | base + k + state + k + "_" + step determines k and step |
| Redlines.RedlineRoundTrip | adapters/opcua/client.py:588-741 | download after a complete load returns the expected redlines in configured order, whatever was stored before |
| Redlines.ExpectedWasSent | adapters/opcua/client.py:602-626 | those are exactly the sent, configured, known redlines that differ from the sentinel, with their sent limits |
| Redlines.ReportedInOrder | adapters/opcua/client.py:701-741 | whatever the nodes hold, exactly the known redlines away from the sentinel are reported, each once and in configured order, with the contents of their cells |
| Redlines.LastSentCounts | adapters/opcua/client.py:595-597 | a redline sent twice counts with its last occurrence |
| Redlines.StoredStays | adapters/opcua/client.py:651-669 | once stored, a redline keeps its limits through all later stores: its cells hold the sent lower limit, upper limit and timeout, or -1000000, 1000000 and 0 if it was not sent |
| Redlines.StoreKeeps | adapters/opcua/client.py:655-669 | storing one redline sets its own limits and keeps those of every other |
| Redlines.WriteRedlineCell | adapters/opcua/client.py:655-669 | storing a redline sets its three cells and no other |
| Redlines.Client.LoadRedlines | adapters/opcua/client.py:588-671 | nodes and data source after a load; the first sent limit that is no number stops it there |
| Redlines.Client.LoadAll | adapters/opcua/client.py:602-670 | the loop over the configured redlines: nodes, data source, and where it stops |
| Redlines.Client.DownloadRedlines | adapters/opcua/client.py:701-741 | the reported redlines are those read back that differ from the sentinel |
| Poller.PublishedIsDirect | adapters/opcua/client.py:37-160 | the published map has the keys of the tree, each with its node's value, or the cell of it that its index names, though nodes are shared and polled repeatedly |
| Poller.PublishAt | adapters/opcua/client.py:146-157 | a datapoint shows the result of its node's last poll |
| Poller.PublishedIff | adapters/opcua/client.py:146-157 | a datapoint is published if and only if its node was polled |
| Poller.PublishOnly | adapters/opcua/client.py:146-157 | no other key is published |
| Poller.AddAllIsOfNode | adapters/opcua/client.py:47-50 | the index holds under each node exactly that node's datapoints in tree order |
| Poller.FlattenVisits | adapters/opcua/client.py:37-55 | the walk visits exactly the datapoints of the tree, at any depth |
| Poller.Client.Collect | adapters/opcua/client.py:37-55 | the recursive walk polls every datapoint's node and indexes the flattened tree |
| Poller.Client.Handle | adapters/opcua/client.py:136-157 | one poll publishes the specified map |
| ClipSegment.ClipExactAt | adapters/locat1d/frontend/leaflet.js:5 | a point is on the clipped segment if and only if it is on the segment and in the box |
| ClipSegment.NothingLeftIff | adapters/locat1d/frontend/leaflet.js:5 | clipping returns false if and only if no point of the segment is in the box |
| ClipSegment.ClipKeepsDirection | adapters/locat1d/frontend/leaflet.js:5 | the ends of the clipped segment come in the order of the segment |
| ClipSegment.KeptIsInBox | adapters/locat1d/frontend/leaflet.js:5 | both ends of a kept part are in the box, with rounding on whole pixels too |
| ClipSegment.TurnShrinks | adapters/locat1d/frontend/leaflet.js:5 | a turn that moves the first end lowers the number of outcode bits or makes the next turn reject; the loop ends |
| ClipSegment.TurnShrinksSecond | adapters/locat1d/frontend/leaflet.js:5 | the same for the second end |
| ClipSegment.PolylineExact | adapters/locat1d/frontend/leaflet.js:5 | the parts of a clipped polyline show exactly the points of its rings inside the box |
| ClipSegment.RingPartsExact | adapters/locat1d/frontend/leaflet.js:5 | the same for one ring added to earlier parts |
| ClipSegment.PartCount | adapters/locat1d/frontend/leaflet.js:5 | a ring is cut into as many parts as it has visible segments that are the first or start outside the box |
| ClipSegment.InsideRing | adapters/locat1d/frontend/leaflet.js:5 | a ring inside the box adds exactly one part, the ring itself |
| ClipSegment.Clipper.ClipSegment | adapters/locat1d/frontend/leaflet.js:5 | reusing the cached outcode of the previous end gives the result of a fresh clip and leaves the right cache |
| ClipSegment.Clipper.ClipPoints | adapters/locat1d/frontend/leaflet.js:5 | clipping all rings with the cache gives the parts of fresh clips |
| Geometry.EdgeHitIsLerp | adapters/locat1d/frontend/leaflet.js:5 | the edge intersection is the point of the segment on the edge line |
| ClipPixels.HitIsPixel | adapters/locat1d/frontend/leaflet.js:5 | with rounding, the intersection is the pixel (half open, upwards) of the point where the segment meets the edge line |
| ClipPixels.PassIsPixels | adapters/locat1d/frontend/leaflet.js:5 | on whole pixels a pass gives the vertices of the exact pass, each moved to its pixel |
| ClipPixels.VertexOfPass | adapters/locat1d/frontend/leaflet.js:5 | each vertex of a rounded pass is a kept one, or the pixel of the point where the polygon edge between two neighbours meets the edge line |
| ClipPixels.RoundedOutline | adapters/locat1d/frontend/leaflet.js:5 | the polygon clipped on whole pixels: its outline is in the box and within two pixels of the outline or of a border line, and every outline point one and a half pixels inside has it within two pixels |
| ClipPixels.RoundedFill | adapters/locat1d/frontend/leaflet.js:5 | the polygon clipped on whole pixels fills nothing outside the box, and fills a point more than two pixels from the border lines and the outline if and only if the polygon does |
| ClipPixels.MovedFill | adapters/locat1d/frontend/leaflet.js:5 | moving every vertex by at most d changes the even-odd fill only within d of the outline |
| ClipPixels.RoundedSegment | adapters/locat1d/frontend/leaflet.js:5 | a segment clipped on whole pixels: what is kept is in the box and within two pixels of the segment, and its points one and a half pixels inside are kept up to two pixels |
| Geometry.FirstIsHighest | adapters/locat1d/frontend/leaflet.js:5 | of several outcode bits the highest, 8, 4, 2, then 1, is cut first |
| Geometry.HitFacts | adapters/locat1d/frontend/leaflet.js:5 | the intersection clears the edge's bit and sets no bit that neither end has |
| Geometry.CutKeepsInside | adapters/locat1d/frontend/leaflet.js:5 | cutting an end off at an edge it lies beyond keeps exactly the points on the near side |
| Geometry.BitCodeMeaning | adapters/locat1d/frontend/leaflet.js:5 | each outcode bit says on which side of its edge a point lies; zero means inside |
| ClipPolygon.ClippedIsInside | adapters/locat1d/frontend/leaflet.js:5 | after four passes every vertex is in the box and its stored outcode is the recomputed one |
| ClipPolygon.ClipIsFourPasses | adapters/locat1d/frontend/leaflet.js:5 | one pass against each edge in the order 1, 4, 2, 8 |
| ClipPolygon.InsideUnchanged | adapters/locat1d/frontend/leaflet.js:5 | a polygon inside the box comes back unchanged |
| ClipPolygon.PassesRespectEdges | adapters/locat1d/frontend/leaflet.js:5 | no pass brings back a violation that an earlier pass removed |
| ClipPolygon.ClippedOutline | adapters/locat1d/frontend/leaflet.js:5 | the clipped outline contains the visible outline, stays in the box, and adds points on the edge lines only |
| ClipPolygon.PassKeepsOutline | adapters/locat1d/frontend/leaflet.js:5 | a pass keeps every outline point on the near side of its edge |
| ClipPolygon.PassAddsOnlyLine | adapters/locat1d/frontend/leaflet.js:5 | a pass adds outline points on its edge line only |
| ClipPolygon.ClipAgainst | adapters/locat1d/frontend/leaflet.js:5 | one turn of the outer loop is the specified pass |
| ClipPolygon.ClipPolygon | adapters/locat1d/frontend/leaflet.js:5 | the four turns give the specified vertices, all in the box, and a polygon inside as it was |
| ClipPolygon.ClipVertices | adapters/locat1d/frontend/leaflet.js:5 | the four passes over the coded vertices |
| ClipFill.ClippedFill | adapters/locat1d/frontend/leaflet.js:5 | by the even-odd rule the clipped polygon fills, off the lines of the border, exactly the points of the box that the polygon fills, self-intersecting or not |
| ClipFill.PassKeepsFill | adapters/locat1d/frontend/leaflet.js:5 | a pass keeps the crossing parity of every point strictly on the near side of its edge |
| ClipFill.RaySplit | adapters/locat1d/frontend/leaflet.js:5 | cutting a polygon edge at one of its points keeps the parity of the crossings |
| Simplify.SimplifiedIsSubsequence | adapters/locat1d/frontend/leaflet.js:5 | the result is a subsequence of the input that keeps both ends |
| Simplify.DroppedIsNearSegment | adapters/locat1d/frontend/leaflet.js:5 | a point dropped by Douglas-Peucker is within tolerance of the segment between the neighbours in the result around it |
| Simplify.KeptIsFar | adapters/locat1d/frontend/leaflet.js:5 | every kept point but the ends was the first of the points farthest from the segment between two kept points, and beyond the tolerance |
| Simplify.OnlyEndsIff | adapters/locat1d/frontend/leaflet.js:5 | a line is simplified to its ends if and only if all its points are within tolerance of the segment between them |
| Simplify.RadialThins | adapters/locat1d/frontend/leaflet.js:5 | neighbours kept by the radial pass, but for the last two points, are farther apart than the tolerance |
| Simplify.RadialSkips | adapters/locat1d/frontend/leaflet.js:5 | a skipped point is within tolerance of the kept point before it |
| Simplify.SimplifiedIsBoth | adapters/locat1d/frontend/leaflet.js:5 | simplification is the radial pass, then Douglas-Peucker on what it kept, both with the squared tolerance: which points each keeps and drops |
| Simplify.RadialFacts | adapters/locat1d/frontend/leaflet.js:5 | a radially dropped point is within tolerance of a kept one |
| Simplify.SimplifiedStaysClose | adapters/locat1d/frontend/leaflet.js:5 | every input point is within twice the tolerance of the simplified line |
| Simplify.ClosestIsNearest | adapters/locat1d/frontend/leaflet.js:5 | the closest-point formula gives a point of the segment that no other point of it beats |
| Simplify.SimplifyStep | adapters/locat1d/frontend/leaflet.js:5 | the recursion sets exactly the specified markers in the array |
| Simplify.ReducePoints | adapters/locat1d/frontend/leaflet.js:5 | the radial loop keeps the specified points |
| Simplify.Simplify | adapters/locat1d/frontend/leaflet.js:5 | both reductions in turn, or a copy without a tolerance |
| DrawOrder.Canvas.Run | adapters/locat1d/frontend/leaflet.js:5 | any legal run keeps the list well linked and acts on the forward walk as on a plain sequence |
| DrawOrder.Canvas.BringToFront | adapters/locat1d/frontend/leaflet.js:5 | relinking moves the layer to the end of the walk |
| DrawOrder.Canvas.BringToBack | adapters/locat1d/frontend/leaflet.js:5 | relinking moves the layer to the start of the walk |
| DrawOrder.Canvas.RemovePath | adapters/locat1d/frontend/leaflet.js:5 | relinking takes the layer out of the walk |
| DrawOrder.Canvas.InitPath | adapters/locat1d/frontend/leaflet.js:5 | a new layer is appended to the walk |
| DrawOrder.RunDrawsEachOnce | adapters/locat1d/frontend/leaflet.js:5 | after any run every layer on the canvas is drawn once and no other is |
| DrawOrder.MovesOnlyOne | adapters/locat1d/frontend/leaflet.js:5 | moving a layer keeps the order of all others |
| DrawOrder.WithoutAt | adapters/locat1d/frontend/leaflet.js:5 | a removed layer leaves the layers before and after it as they were |
| HttpParser.ChunksDoNotMatter | adapters/netdata/aclk/https_client.c:104-161 | on a clean stream every cut gives verdict, status code, content length and bytes of parsing it whole |
| HttpParser.IndependentIffClean | adapters/netdata/aclk/https_client.c:73-92 | the verdict is the same for all cuts of a stream if and only if the stream is clean |
| HttpParser.UncleanDepends | adapters/netdata/aclk/https_client.c:73-77 | every stream that is not clean has a cut that fails though the whole does not fail there |
| HttpResponses.MalformedIsUnclean | adapters/netdata/aclk/https_client.c:73-77 | a response with a line without separator before a header is not clean |
| HttpResponses.AnUncleanStream | adapters/netdata/aclk/https_client.c:73-77 | a stream and a cut that changes its verdict |
| HttpParser.ParseExtends | adapters/netdata/aclk/https_client.c:109-160 | parsing may be resumed: more bytes continue where parsing stopped |
| HttpParser.WaitingStays | adapters/netdata/aclk/https_client.c:110-111 | a call without new data after NEED_MORE_DATA changes nothing |
| HttpResponses.AnyCutOfAResponse | adapters/netdata/aclk/https_client.c:289-350 | every cut of a well-formed response ends with the verdict, context and bytes of parsing it whole |
| HttpResponses.FramedResponse | adapters/netdata/aclk/https_client.c:289-350 | if its last content-length header announces the body's length, every cut ends in success with its status code and that length, exactly its body in the buffer and nothing unread |
| HttpResponses.UnframedResponse | adapters/netdata/aclk/https_client.c:151-154 | without such a header every cut ends in success with its status code and no length |
| HttpResponses.WaitsIff | adapters/netdata/aclk/https_client.c:156-158 | all of a response is waited for in vain if and only if its last content-length header announces more than the body |
| HttpResponses.LastLength | adapters/netdata/aclk/https_client.c:52-60 | the last content-length header alone decides the length |
| HttpResponses.NamesLengthIff | adapters/netdata/aclk/https_client.c:96-98 | a name counts as content-length if and only if it spells it, each letter in either case, up to its end or a NUL |
| HttpResponses.NoLength | adapters/netdata/aclk/https_client.c:52-60 | other headers change nothing |
| HttpResponses.PayloadIsTheBody | adapters/netdata/aclk/https_client.c:151-158 | after success with a length up to the body's, the buffer begins with that many bytes of the body |
| HttpResponses.ParseWellFormed | adapters/netdata/aclk/https_client.c:104-161 | parsing a rendered response gives its status code, the effect of its headers and its body, and the stream is clean |
| HttpResponses.AtoiReadsNumerals | adapters/netdata/aclk/https_client.c:58 | atoi reads a printed number back |
| HttpGrammar.AtoiReads | adapters/netdata/aclk/https_client.c:58 | atoi skips white space, takes one sign, reads digits and ignores the rest; without digits the length is 0 |
| HttpGrammar.StatusCodeIff | adapters/netdata/aclk/https_client.c:114-132 | a status code is read if and only if the text starts with the protocol, three digits from 100 to 599 and a blank |
| HttpGrammar.BadStartFails | adapters/netdata/aclk/https_client.c:114-132 | any other first line is an error for every cut |
| HttpGrammar.NoLineWaits | adapters/netdata/aclk/https_client.c:110-111 | a stream without a line end is waited for and kept, for every cut |
| HttpGrammar.LongHeaderFails | adapters/netdata/aclk/https_client.c:78-92 | after well-formed headers, a name or a value of 256 characters or more is an error for every cut |
| HttpGrammar.MissingSeparatorFails | adapters/netdata/aclk/https_client.c:73-77 | and so is a line that is not empty with no separator behind it |
| HttpGrammar.UnfinishedHeadersWait | adapters/netdata/aclk/https_client.c:110-111 | headers without their empty line are waited for, for every cut |
| TextSearch.ToLowerAt | adapters/netdata/aclk/https_client.c:96-97 | exactly the capital letters are folded |
| HttpResponses.Client.ParseStatusLine | adapters/netdata/aclk/https_client.c:113-139 | the status line step on the buffer |
| HttpResponses.Client.ParseHdr | adapters/netdata/aclk/https_client.c:62-102 | one header taken from the buffer, or an error |
| HttpResponses.Client.ParseResponse | adapters/netdata/aclk/https_client.c:104-161 | the loop over the three states |
| HttpResponses.Client.ReadParse | adapters/netdata/aclk/https_client.c:289-350 | reading chunk by chunk until the verdict is not NEED_MORE_DATA |
| VideoWorkers.OneWorkerPerConfiguredStream | adapters/video/stream.go:17-39 | in every interleaving a configured on-demand stream is locked exactly while one worker runs, one that is not on demand has its worker exactly from start-up on, and no configured stream has two |
| VideoWorkers.TwoWorkersIffNotConfigured | adapters/video/http.go:183-193 | some run gives a stream two workers if and only if it is not configured |
| VideoWorkers.RaceStartsTwo | adapters/video/http.go:185-193 | the run: two requests look before either registers |
| VideoWorkers.OneWorkerIfRegisteredOnce | adapters/video/http.go:185-193 | a stream registered at most once has at most one worker |
| VideoWorkers.SureOfWorkerIff | adapters/video/stream.go:33-36 | a joining viewer has a worker while it stays, in every run, if and only if one is in its loop as it joins |
| VideoWorkers.StarvedViewer | adapters/video/stream.go:33-36 | the run that leaves a configured stream with a viewer and no worker |
| VideoWorkers.StarvedUntilRequest | adapters/video/config.go:55-65 | an unlocked stream has no worker until the next request |
| VideoWorkers.ViewerKeepsWorker | adapters/video/stream.go:33-36 | a worker in its loop stays there as long as a viewer does |
| VideoWorkers.StepKeepsSound | adapters/video/config.go:55-76 | every step keeps the lock in line with the worker |
| VideoWorkers.StreamAfter | adapters/video/config.go:204-230 | adding or removing a viewer changes this viewer of the stream only, new codecs the codecs only |
| VideoWorkers.OthersStay | adapters/video/config.go:55-76 | a step about another stream changes nothing |
| VideoWorkers.LastViewerLeaves | adapters/video/config.go:78-85 | once the last viewer has left, and not before, the worker may leave its loop |
| VideoWorkers.Config.RunIFNotRun | adapters/video/config.go:55-65 | starts a worker and locks exactly when on demand and not locked |
| VideoWorkers.Config.Unlock | adapters/video/config.go:67-76 | opens the lock of an on-demand stream when its worker returns |
| VideoWorkers.Config.WorkerTurn | adapters/video/stream.go:26-38 | a worker leaves its loop only on demand and without viewers |
| VideoWorkers.Config.CoAd | adapters/video/config.go:165-171 | changes a stream's codecs and nothing else of it |
| VideoWorkers.Config.ServeOne | adapters/video/stream.go:18-22 | the start-up starts workers for streams that are not on demand |
| VideoWorkers.Config.RegisterStream | adapters/video/http.go:185-191 | the unsynchronised write of a fresh stream |
| VideoWorkers.Config.ClAd | adapters/video/config.go:204-211 | adds a viewer and changes nothing else |
| VideoWorkers.Config.ClDe | adapters/video/config.go:226-230 | removes a viewer and changes nothing else |
| VideoViewers.Delivery | adapters/video/http.go:128-154 | in every run received then queued packets are in order those cast since joining that found room, at most 100 are queued, and the muxer has a prefix of the received ones from the first keyframe on, or of all of them if the viewer joined with audio only |
| VideoViewers.RecordedSinceJoin | adapters/video/config.go:204-211 | a viewer's recorded casts are the packets cast in the run since its last join, it has taken one per reception, and it has the audio flag it joined with |
| VideoViewers.StoppedIff | adapters/video/http.go:134-151 | a viewer has stopped if and only if since it joined it timed out or a write failed once there was something to write |
| VideoViewers.OthersStay | adapters/video/config.go:226-230 | a viewer that leaves is gone, and only its own events and casts change a viewer |
| VideoViewers.CastStep | adapters/video/config.go:148-156 | a packet is skipped for a viewer exactly when its queue is full, independently of other viewers |
| VideoViewers.AcceptedIsSubsequence | adapters/video/config.go:148-156 | the packets that found room are an in-order selection of those cast |
| VideoViewers.ProcessKeepsSound | adapters/video/http.go:139-151 | the goroutine's turn keeps what holds of every viewer |
| VideoViewers.Hub.CastPacket | adapters/video/config.go:148-156 | the loop over the viewers offers the packet to each once |
| VideoViewers.Hub.ReceivePacket | adapters/video/http.go:139-151 | one received packet is written, skipped before the first keyframe, or ends the viewer |
| VideoViewers.Hub.NoVideoTimeout | adapters/video/http.go:136-138 | the timeout ends the viewer |
| QueryQueue.Conservation | adapters/netdata/aclk/aclk_query_queue.c:21-87 | in every interleaving accepted queries are the popped ones followed by the linked ones, each handed out at most once, refused ones never |
| QueryQueue.BlockedFreezes | adapters/netdata/aclk/aclk_query_queue.c:27-33 | while blocked nothing enters or leaves the queue |
| QueryQueue.FlushEmptiesIffOpen | adapters/netdata/aclk/aclk_query_queue.c:89-96 | an undisturbed flush empties the queue if and only if it is not blocked or was empty |
| QueryQueue.RestartKeepsTheQueue | adapters/netdata/aclk/aclk.c:323-333 | whatever runs between lock and unlock, a restart keeps every queued query |
| QueryQueue.Queue.Push | adapters/netdata/aclk/aclk_query_queue.c:21-46 | appends the query at the tail, or refuses it with code 1 exactly while blocked; the list stays acyclic with tail last |
| QueryQueue.Queue.Take | adapters/netdata/aclk/aclk_query_queue.c:66-83 | the part under the mutex hands out the head |
| QueryQueue.Queue.Detach | adapters/netdata/aclk/aclk_query_queue.c:85 | the store outside the mutex never changes the list |
| QueryQueue.Queue.PopQuery | adapters/netdata/aclk/aclk_query_queue.c:62-87 | both parts of a pop |
| QueryQueue.Queue.ProcessMsgs | adapters/netdata/aclk/aclk_query.c:286-325 | a thread's loop treats all queued queries in order by their type, or none while blocked |
| QueryQueue.OutcomesAt | adapters/netdata/aclk/aclk_query.c:286-310 | types 0 and from 14 on are dropped, type 1 goes to the HTTP handler, types 2 to 13 to the binary one |
| QueryQueue.Queue.Flush | adapters/netdata/aclk/aclk_query_queue.c:89-96 | empties the queue, or nothing while blocked |
| QueryQueue.Queue.LockAndFlush | adapters/netdata/aclk/aclk_query.c:385-386 | leaves the queue blocked with every query in it |
| QueryQueue.Queue.Restart | adapters/netdata/aclk/aclk.c:373-377 | lock, flush and unlock leave every query queued |
| Backoff.GrowsIff | adapters/netdata/aclk/aclk_util.c:335-338 | the delay grows from one attempt to the next for all jitters if and only if the first product with its jitters stays below the second, which does not wrap |
| Backoff.NotBelow | adapters/netdata/aclk/aclk_util.c:335-338 | otherwise two jitters for which it does not grow |
| Backoff.BaseTwoGrowth | adapters/netdata/aclk/aclk_util.c:335-338 | for base 2 the first n delays grow for all jitters if and only if n is at most 55 |
| Backoff.BaseTwoShrinks | adapters/netdata/aclk/aclk_util.c:335-338 | the 56th attempt waits less than the 55th for every two jitters |
| Backoff.Growth | adapters/netdata/aclk/aclk_util.c:335-338 | for every base of at least 2 successive attempts that fit in 64 bits grow strictly |
| Backoff.IntervalIffFits | adapters/netdata/aclk/aclk_util.c:335-338 | attempt n lies in its interval if and only if neither product nor sum wraps |
| Backoff.JitterIff | adapters/netdata/aclk/aclk_util.c:338 | exactly which jitters occur: those below 1000 or half the delay, in 31 bits |
| Backoff.AlwaysMaxIff | adapters/netdata/aclk/aclk_util.c:340-346 | an attempt returns max for all jitters if and only if its product, wrapped or not, reaches max in ms and no jitter wraps the sum |
| Backoff.StaysAtMax | adapters/netdata/aclk/aclk_util.c:340-346 | once the power reaches max every later attempt that fits in 64 bits returns max |
| Backoff.PromisedIff | adapters/netdata/aclk/aclk_util.c:310-346 | the result is the promised number of ms if and only if no nonzero bound is met; else it is the promised number of seconds |
| Backoff.TruncationShortens | adapters/netdata/aclk/aclk_util.c:340-346 | when a truncated attempt waits less than an earlier one |
| Backoff.BaseTwoFits | adapters/netdata/aclk/aclk_util.c:335-338 | for base 2 exactly the first 55 attempts lie in their interval |
| Backoff.DefaultBackoff | adapters/netdata/aclk/aclk.c:423-424 | with the default bounds attempts 11 to 61 return 1024, later ones less than 1000 |
| Backoff.Link.TbebDelay | adapters/netdata/aclk/aclk_util.c:320-347 | the static counter: reset, immediate first attempt, then the specified delay |
| Backoff.Link.ReconnectDelay | adapters/netdata/aclk/aclk.c:402-427 | which delay is chosen, and what happens to the counter and the cloud's block |
| Backoff.BlockTillReconAllowed | adapters/netdata/aclk/aclk.c:434-455 | the naps are at most a quarter second and add up to the delay unless shutdown is seen |
| Slots.SlotAgreement | start.py:1126-1148 | the adapter and frontend settle on the datapoint its service was made for if and only if no source is typed locat2d |
| Slots.ServiceOfDatapoint | start.py:1131-1145 | a datapoint's service has its port and the number of typed sources plus its rank |
| Slots.PortsAreDistinct | start.py:1140-1145 | every served datapoint has a port of its own from 9001 on |
| SlotLayout.PortLayout | start.py:1126-1145 | exactly the datapoints with a special adapter, a name and a key have a port; the ports run from 9001 on without a gap and rise with adapter, source and datapoint |
| SlotLayout.SourceService | start.py:1093-1106 | a supported data source has its service under its name, with its own port and its number among the sources of its type, unless a later one takes the key |
| SlotLayout.Offsets | start.py:1126-1136 | of the four special adapters, locat2d and locat3d are shifted by the sources of that type |
| SlotLayout.CountInIs | adapters/locat2d/adapter.js:51-58 | counting gives the number of datapoints that use the adapter |
| SlotLayout.TypedIs | start.py:1093-1099 | counting gives the number of sources of a type |
| Slots.AllDeployedIff | start.py:1137-1150 | all services are deployed if and only if no two share a key |
| Slots.SelectOfRank | adapters/locat2d/adapter.js:51-71 | selecting by a rank shifted by d finds the datapoint of that rank if and only if d is 0 |
| Slots.ShiftedSlot | start.py:1131-1138 | a configuration with a source typed locat2d: task number 2, for which the adapter picks no source |
| Slots.RanksDiffer | adapters/locat2d/adapter.js:51-58 | later datapoints of an adapter have greater ranks |
| Slots.NumberAdapters | start.py:1089-1148 | the two numbering loops compute the specified services and ports |
| Slots.ParseEqConfig | adapters/locat2d/adapter.js:51-71 | the adapter picks the source and local rank of the datapoint with its global rank, or none |
| Slots.SetParameters | adapters/locat2d/frontend/main.js:79-94 | the frontend picks the datapoint with the local rank, or none |
| Lines.LineReassembly | adapters/wtw/adapter.js:136-209 | for every stream and cut the location is the handler folded over its complete lines, and the kept text is what follows the last newline |
| Lines.LinesExtend | adapters/wtw/adapter.js:153-160 | more text completes the remainder and only the remainder |
| Lines.LinesRejoin | adapters/wtw/adapter.js:155-160 | lines and remainder contain no newline and joined give back the stream |
| Lines.AssignAt | adapters/wtw/adapter.js:189-191 | every field named in the data order gets the token at its position, or undefined if there is none |
| Lines.AssignElsewhere | adapters/wtw/adapter.js:189-191 | fields not named in the data order stay |
| Lines.LongitudeIff | adapters/wtw/adapter.js:196-199 | the longitude's direction is the text's own if and only if the text has a W |
| Lines.PositionLine | adapters/wtw/adapter.js:189-199 | a position line sets the named fields to their tokens, the latitude to S if its text has an S and else N, the longitude to W, and nothing else |
| Lines.OtherLine | adapters/wtw/adapter.js:201-203 | an altitude line sets ALT to its value and nothing else; any other line changes nothing |
| Lines.SplitCuts | adapters/wtw/adapter.js:155-169 | split cuts a text at its separators from left to right and loses nothing |
| Lines.EmptyLineIsIgnored | adapters/wtw/adapter.js:166-201 | the empty text after a final newline is harmless |
| Lines.Receiver.HandleLine | adapters/wtw/adapter.js:164-203 | one line's effect on the location record |
| Lines.Receiver.OnData | adapters/wtw/adapter.js:137-209 | one chunk's effect on the buffer and the record |

## Left out

- Rounding of coordinates: on whole pixels clipping is exact up to half a pixel for each cut, two pixels in all; that bound is not claimed to be the least one. A pixel coordinate is a real number with an integral value.
- Floating point: coordinates, durations and limits are real numbers; not-a-number and infinities do not occur.
- ClipFill.ClippedFill: points on the lines of the box's border, where the half-open ray decides by convention.
- The receive buffer's capacity and its wrap-around: it is a byte sequence that holds the response.
- Backoff.Link.TbebDelay: the power is exact; converting a power of 2 to the 64 or more to an integer is undefined in C and not given a meaning beyond reduction to 64 bits. A negative base does not occur (the configuration allows 1 to 10).
- HttpParser.ChunksDoNotMatter: atoi has no overflow, so a content length is below 2 to the 31.
- Sequences.Client.LoadSequence: an empty sequence, a missing node and a missing cell raise in the code and are preconditions here.
- Redlines.Client.LoadRedlines: a sent redline with a limit missing altogether is not modelled; the limits of a sent redline are complete.
- Poller.Client.Handle: a datapoint without a key or an index outside its array raises in the code and is a precondition here.
- VideoWorkers.OneWorkerPerConfiguredStream: concurrent access to the stream map without the mutex is a step of its own, not a crash of the runtime.
- VideoViewers.Delivery: random viewer ids are new; a stream whose entry is replaced by a registration is not followed across the replacement.
- Slots.ServiceOfDatapoint: replica counts, container names and compose texts; case folding is that of ASCII.
- Lines.LineReassembly: the break-up of a position text at several delimiters is a parameter; the separator of label and value is not empty.
- Redline delays, calibrations, igniters and the set command would add easier members of the same kind.
- Transport: OPC UA, Redis, MQTT, TLS, WebSockets, Docker and files; timers and clocks are parameters or events.
- Statistics counters, log texts and user interface code.
