# Readback, verified

Readback listens to a call, recognises identifiers that carry check digits (ISO 6346 container
numbers, IBANs, VINs, NHS and card numbers), repairs what was misheard, and asks a human about
one character when it must. This project models its deterministic and stateful core in Dafny 4.11
and proves what the code is for. `dafny verify dfyconfig.toml` checks everything.

| file | component |
|---|---|
| `Matching.dfy`, `ShapeCue.dfy`, `DetectorState.dfy` | the detector: independence test by augmenting paths, shape cue and commit gate, arming state machine |
| `Resampler.dfy`, `FilterLaws.dfy` | the streaming low-pass and resampler of the capture worklet; what one-shot filtering does to a signal |
| `Tape.dfy` | the rolling tape of recogniser frames |
| `Catalogue.dfy` | capped edit distance and unique-nearest lookup |
| `Iso6346.dfy`, `Iban.dfy` | check digits and their residue tables |
| `Posterior.dfy`, `Ranking.dfy`, `Repairs.dfy`, `Marginals.dfy`, `Solver.dfy`, `SolverLaws.dfy` | posteriors, candidate generation, marginals, the solver's decision; ranking, verdict and question in terms of masses and weights |
| `Narrowing.dfy` | what an answer does to the candidates |
| `Decider.dfy`, `DeciderLaws.dfy` | budgets, gates and the choice of what to do; when each decision is taken, field by field |
| `Runner.dfy`, `SessionLoop.dfy`, `SessionLaws.dfy` | candidates and rows as values; the session loop over its mutable state; what its values come to |
| `Journal.dfy`, `Abandonment.dfy` | what a session opened, asked, re-read and wrote, in order, and what follows for a character a human named; a run in which one is lost |
| `Events.dfy`, `Ingress.dfy` | the event stream and the audio ingress as step systems |
| `Common.dfy` | formats, characters, optional values, finite sets and sums |

How the model reads the source:

- A format is its name, its alphabet per position and its check, which the solver, the decider and
  the runner treat as any predicate. ISO 6346 and IBAN checks are modelled in full beside them. The
  solver asks of a format at least three positions and at least two distinct characters at each,
  which all five registered formats have.
- Confidences, samples and filter taps are reals. The solver's sums of logarithms become products,
  compared without rounding; scaling by the largest likelihood cancels and is not written out.
- Clocks, recogniser frames, answers, re-read spans, format identification and the entropy of a
  marginal are inputs. Nothing is assumed about them beyond their shape; in particular the clock
  may stand still or run backwards.
- Concurrency is modelled by steps: one method per stretch between two awaits, and a driver that
  takes them in any order. A session is any sequence of windows, waits and an end.
- An exception is an outcome. The deferral limit can raise, which ends the session and hands the
  open identifier over; the iteration limit provably never does.

Where code and comments differ, the model follows the code:

- `iso_ok` folds remainder ten onto zero; the strict table check refuses it. Both are modelled, and
  `Iso6346.StrictIsReferenceBelowTen` and `Iso6346.LenientBlindSpot` say exactly how they differ.
- `iban_ok` refuses a string whose first two letters are a listed country of another length; the
  table check does not look. `Iban.TableAgrees` carries that condition.
- A span decision is spoken but is charged neither to the identifier's spoken budget nor to the
  session's speech budget (`Decider.SpanIsSpokenUncharged`).
- The tape's window need not be a suffix of the timeline. Among the last words within the word
  limit it is one exactly when the first already ends inside the time span, or no word inside the
  span precedes one outside it (`Tape.SuffixExactlyWhen`). When the first ends inside the span
  nothing is filtered, so words outside the span can stay (`Tape.InsideSpanExactlyWhen`).
- A Terminate does not always flush. The pacer ends with 50 ms or more unsent exactly when the
  Terminate arrived while a drain was under way and the buffer held at least that much beyond its
  last full frame (`Ingress.AudioIngress.TerminateAndRun`, with a run in `Ingress.TailCanBeLost`).
- Comments say a human's answer is a fact from then on, and that a replaced candidate was never
  asked about. A frame with another value replaces the open candidate and loses what was named:
  exactly when something was named, the value differs and is not yet decided
  (`Journal.AbandonsExactlyWhen`, with a run in `Abandonment.NamedCanBeLost`). A re-read of the span
  loses it too, and before the row nothing else does (`Journal.LosesExactlyWhen`).
- Locking an answered position is said to make the candidate set strictly shrink. The strings within
  reach of legal edits do shrink (`Narrowing.NamingNarrowsReach`); the candidates need not
  (`Narrowing.ConfirmingNeedNotNarrow`). With candidates at most one edit away and the answer one of
  theirs, they do exactly when they differed at that position
  (`Narrowing.NamingNarrowsExactlyWhen`). `Narrowing.ShrinksExactlyWhen` is the condition for any
  answer, two edits away as well: there a correction brings in every single repair of the corrected
  string (`Narrowing.CorrectingMovesCloser`), and a confirmation what the sixth doubted position
  finds (`Narrowing.ConfirmingKeepsFound`).
- `close` promises no further events, but `emit` does not look, and `terminate_live` closes the
  stream while the runner has yet to emit its last ones. Readers subscribed at `close` never see
  those, and one that came later can wait for good (`Events.EventStream.Drain` says exactly when,
  with a run in `Events.LateReaderCanWait`).
- The blind-class guard of the solver comes after the guard on unexplained doubt and asks for a
  subset of it, so its action is never returned.
- In the decider the last test for spent questions cannot fire, because the ambiguity to resolve is
  at least one and was compared with the questions left just before.

## Model

| member | source | states |
|---|---|---|
| Matching.Augment | server/pipeline/detector.py:591-601 | one augmenting search: on success the matching grows by exactly this slot along the path found; on failure the matching is untouched and the positions visited form a set that no later search leaves or disturbs |
| Matching.CoverBound | server/pipeline/detector.py:591-612 | a slot whose search failed confines its neighbours to a closed set, so no matching is larger than the one found |
| Matching.MaxIllegal | server/pipeline/detector.py:604-612 | terminates with the size of a maximum matching on the illegal (character, position) pairs |
| ShapeCue.MaximumIsWorst | server/pipeline/detector.py:604-612 | the size of a maximum matching is the largest number of illegal positions over all permutations of the window's characters, and is reached by one |
| ShapeCue.MaxIllegalOf | server/pipeline/detector.py:604-612 | `max_illegal` of a format and a window is that matching size, and that worst arrangement when the window has the format's length |
| ShapeCue.ShapeIsEvidence | server/pipeline/detector.py:615-624 | true exactly when some rearrangement of the same characters would have been refused |
| ShapeCue.UniformHitIsNoEvidence | server/pipeline/detector.py:544-624 | under one alphabet at every position the worst arrangement is the window itself, so a hit within the forgiveness budget is never evidence |
| ShapeCue.IsoHitIsEvidence | server/pipeline/detector.py:406-409 | every ISO 6346 hit within two mismatches could have been refused in another order |
| ShapeCue.IbanHitIsEvidence | server/pipeline/detector.py:406-409 | the same for every GB IBAN hit |
| ShapeCue.EvidenceByFormat | server/pipeline/detector.py:406-409 | over the five registered formats a hit is evidence exactly when its format is not NHS, Luhn-16 or VIN |
| ShapeCue.ShapeCueBest | server/pipeline/detector.py:526-550 | the earliest window, by run, format and offset, that lies within two mismatches and that no other such window beats; none only when there is none |
| ShapeCue.NoneMeans | server/pipeline/detector.py:526-550 | no hit exactly when no window of any run, at any offset up to the last, differs from its format in at most two places |
| ShapeCue.BestMeans | server/pipeline/detector.py:526-550 | the hit is such a window; no other passes the check where it fails, or with the same check differs in fewer places, or with both the same is longer; no earlier one is as good |
| ShapeCue.DistanceIsLeastChange | server/pipeline/detector.py:526-541 | the distance is the least number of characters to change for the window to fit the alphabets |
| ShapeCue.FormatsExactly | server/pipeline/detector.py:406-409 | the five formats, their order, names and lengths |
| ShapeCue.AlphabetsExactly | server/pipeline/detector.py:406-409 | which characters each of the five allows at which position |
| ShapeCue.CommitCues | server/pipeline/detector.py:755-768 | the shape cue is dropped from the commit count exactly when rhythm fired and the hit is of a bare-length format |
| ShapeCue.Evaluate | server/pipeline/detector.py:705-777 | cues, commit cues and best hit together, for every timeline of runs and every set of checks: the hit is the earliest window no other beats, and the cue flags and the hit's format say whether the commit gate opens |
| ShapeCue.GateOpensExactlyWhen | server/pipeline/detector.py:664-694 | two commit cues exactly when a carrier or spelling cue comes with another cue, or rhythm and shape come together on a hit that is not of bare length |
| DetectorState.DistinctTerms | server/pipeline/detector.py:904-922 | no two key terms agree up to case and none is longer than fifty characters |
| DetectorState.KeptExactly | server/pipeline/detector.py:904-922 | the terms kept are exactly those of at most fifty characters that no earlier such term equals up to case, as written and in order |
| DetectorState.BuildKeyterms | server/pipeline/detector.py:886-922 | the loop yields the first hundred distinct short terms in priority order |
| DetectorState.PayloadExactly | server/pipeline/detector.py:886-947 | which of the session's vocabularies each state pushes, and which format's terms |
| DetectorState.Detector.Observe | server/pipeline/detector.py:1001-1056 | armed only on evidence newer than the last disarm and within the time to live; disarmed exactly on expiry or on new prose; a payload is emitted exactly when the configuration changed |
| DetectorState.Detector.Committed | server/pipeline/detector.py:1058-1065 | a settled identifier leaves the detector idle, with no format, and re-arming needs newer evidence |
| DetectorState.Detector.NoteFinals | server/pipeline/detector.py:1083-1107 | reports a change exactly when a turn not seen before closed as prose, and forgets turns that left the tape |
| DetectorState.TopicExactly | server/pipeline/detector.py:1083-1107 | the topic moved exactly when some turn, final and not seen before, closed as prose, and what is remembered are the orders of the final turns present |
| DetectorState.Detector.ConfigIfChanged | server/pipeline/detector.py:1109-1116 | the payload last pushed is the configuration of the current state; it is emitted only if it differs |
| DetectorState.Detector.Run | server/pipeline/detector.py:1001-1116 | over any run of inputs no configuration is emitted twice in a row and the last one emitted is the one in force |
| Resampler.SampleOfSuffix | web/public/pcm-worklet.js:117-123 | filtering a suffix of the signal at a shifted position is filtering the whole signal |
| Resampler.ResampledIsUnique | web/public/pcm-worklet.js:167-175 | the one-shot output of a signal is unique |
| Resampler.OutputIsCausal | web/public/pcm-worklet.js:167-175 | later input never changes an output already produced |
| Resampler.ConstantPasses | web/public/pcm-worklet.js:84-86 | with taps summing to one, a constant signal comes out unchanged |
| FilterLaws.LinePasses | web/public/pcm-worklet.js:167-175 | with symmetric taps that sum to one, a linear signal comes out on the line, read at half + k * step |
| FilterLaws.ImpulseResponse | web/public/pcm-worklet.js:117-123 | with any taps, a single sample shows in each output as the two taps that stand over it, each weighted by how near its index is to the output's position |
| FilterLaws.Superposes | web/public/pcm-worklet.js:117-175 | the output of a combination of two signals is that combination of their outputs |
| FilterLaws.OutputCount | web/public/pcm-worklet.js:167-175 | output k exists exactly when the filter fits one sample beyond its position |
| Resampler.QuantiseIsMonotone | web/public/pcm-worklet.js:126-130 | clamping and rounding to sixteen bits keeps the order of samples |
| FilterLaws.QuantiseIsNearest | web/public/pcm-worklet.js:126-130 | a sample in range is posted within half a unit of its value times 32767, or 32768 when negative |
| FilterLaws.PostedSample | web/public/pcm-worklet.js:125-141 | every sample of every posted chunk is the rounding of the output at its place, clipped outside the range, and within the chunk's peak |
| Resampler.Rebase | web/public/pcm-worklet.js:177-179 | dropping what no later output needs keeps at most one filter length and leaves the position at the filter's half width |
| Resampler.PcmCaptureProcessor.FirAt | web/public/pcm-worklet.js:117-123 | every read stays inside the live samples and the sum is the filter at that index |
| Resampler.PcmCaptureProcessor.Push | web/public/pcm-worklet.js:125-141 | one more sample: posted chunks and the partial chunk concatenate to the quantised output, with the peak of each |
| Resampler.PcmCaptureProcessor.FoldChannels | web/public/pcm-worklet.js:159-165 | several channels are folded in as their mean |
| FilterLaws.MonoMeans | web/public/pcm-worklet.js:159-165 | the fold lies between the least and the greatest channel; of one channel it is that channel, of two half their sum |
| Resampler.PcmCaptureProcessor.Emit | web/public/pcm-worklet.js:167-175 | the scan pushes exactly the outputs the live samples allow, each the one-shot sample at its position |
| Resampler.PcmCaptureProcessor.Process | web/public/pcm-worklet.js:143-181 | one render quantum keeps the output equal to one-shot filtering of the whole signal so far; nothing happens once stopped or on silence-shaped input |
| Resampler.PcmCaptureProcessor.ProcessAll | web/public/pcm-worklet.js:143-181 | any split into quanta gives the one-shot filtering of their concatenation |
| Resampler.SplitIndependent | web/public/pcm-worklet.js:143-181 | two worklets fed the same signal in different quanta agree on samples pushed, chunks posted with their peaks, the partial chunk and its peak, tail and position |
| Tape.WinnerIsUnique | server/pipeline/tape.py:122-130 | at most one frame of a history is the winner of a turn: the last of the highest rank for a partial, the first for a final |
| Tape.RankOrders | server/pipeline/tape.py:122-130 | which of two frames of a turn outranks the other: a final a partial, a formatted final an unformatted one |
| Tape.TurnIsTheFrame | server/pipeline/tape.py:168-216 | a stored turn is the whole frame, its words in order with their texts, times and confidences, each marked with the turn |
| Tape.StoreStep | server/pipeline/tape.py:168-216 | accepting a frame keeps every stored turn equal to its winner |
| Tape.IgnoreStep | server/pipeline/tape.py:168-216 | a duplicate, an outranked or an already evicted frame is never the winner, so ignoring it keeps the meaning |
| Tape.EvictStep | server/pipeline/tape.py:309-343 | dropping the oldest turn raises the floor and keeps the meaning above it |
| Tape.Tape.Ingest | server/pipeline/tape.py:168-216 | the whole new state of one frame: history extended, turns above the new floor, a turn gone only because the limits required it; it reports a change exactly when the frame is new, above the floor and not outranked, and without a change nothing changes |
| Tape.Tape.Evict | server/pipeline/tape.py:309-343 | only turns at or below the raised floor go, each because, those before it gone, it was the oldest of several and the word limit was exceeded or it was empty or out of span; the newest never does |
| Tape.Tape.IngestAll | server/pipeline/tape.py:218-222 | for any frame history every turn above the floor holds exactly one whole frame, its winner, and no turn at or below it is present |
| Tape.Tape.Words | server/pipeline/tape.py:224-247 | the cached window is the recomputed one, and in it the turn orders never decrease when every word carries its turn's order |
| Tape.StoredSplits | server/pipeline/tape.py:224-236 | around any turn, the timeline is what the turns below it hold, then its words, then what the turns above it hold |
| Tape.StoredAscends | server/pipeline/tape.py:224-236 | along the timeline the turn orders never decrease when every word carries its turn's order |
| Tape.WindowPicks | server/pipeline/tape.py:237-247 | the window's words are picked from the timeline in order, each at most once: of the last words within the word limit, all when the first ends inside the span, otherwise exactly those that end inside it |
| Tape.Tape.Clear | server/pipeline/tape.py:294-301 | a cleared tape has forgotten its turns, its finals, its floor and its cache |
| Tape.WindowIsSuffix | server/pipeline/tape.py:224-247 | when word end times do not decrease, the window is exactly the suffix inside both limits |
| Tape.SuffixExactlyWhen | server/pipeline/tape.py:224-247 | for any word times the window is a suffix of the timeline exactly when the first of the last words ends inside the span or no word inside the span precedes one outside it |
| Tape.InsideSpanExactlyWhen | server/pipeline/tape.py:238-245 | every word of the window ends inside the span exactly when the first of the last words does not, so that the filter runs, or all of them do |
| Tape.WindowIsBounded | server/pipeline/tape.py:224-247 | the window never holds more than the word limit |
| Tape.WindowNeedNotBeSuffix | server/pipeline/tape.py:224-247 | ends 0, 100, 50, 100 with a span of 10 give a window that is no suffix |
| Tape.WindowCanHoldStaleWords | server/pipeline/tape.py:241-243 | ends 100, 50, 100 with a span of 10 keep the word that ends at 50 |
| Catalogue.CheapestScript | server/readback/catalogue.py:41-53 | a script of that cost exists |
| Catalogue.NoCheaperScript | server/readback/catalogue.py:41-53 | no insert, delete and replace script is cheaper than the recurrence |
| Catalogue.DistanceIsLeastCost | server/readback/catalogue.py:41-53 | the recurrence is the least cost of any script |
| Catalogue.RowBound | server/readback/catalogue.py:49-51 | once a row's minimum exceeds the cap, so does every later row |
| Catalogue.LengthGap | server/readback/catalogue.py:43-44 | the distance is at least the difference in length |
| Catalogue.EditDistance | server/readback/catalogue.py:41-53 | within the cap exactly when the true distance is, and then equal to it, despite both early exits |
| Catalogue.ZeroMeansEqual | server/readback/catalogue.py:110-130 | distance zero is equality |
| Catalogue.CatalogueIndex.constructor | server/readback/catalogue.py:75-83 | the index holds the first row of each non-empty normal form, and every normal form of the input; the stored code is stripped of blanks and still has the row's normal form |
| Catalogue.IndexedAreFirst | server/readback/catalogue.py:75-83 | the rows are the input rows whose non-empty normal form no earlier row has, all of them, in order, with their stripped code and description |
| Catalogue.NormaliseExactly | server/readback/catalogue.py:27-30 | normalising drops exactly what is neither an ASCII letter nor a digit, upper-cases the rest and works character by character |
| Catalogue.StripCutsBlanks | server/readback/catalogue.py:82 | stripping cuts blanks off both ends and nothing else |
| Catalogue.StripKeepsNormalForm | server/readback/catalogue.py:82 | stripping leaves no blank at either end and keeps the normal form |
| Catalogue.CatalogueIndex.Match | server/readback/catalogue.py:110-130 | a row is returned exactly when its normal form is the unique nearest within two, with its true distance |
| Catalogue.NearestByScripts | server/readback/catalogue.py:110-130 | the unique nearest row in terms of edit scripts: one of at most two edits leads to it, and to every other row only dearer ones do |
| Catalogue.LookupIgnoresOrder | server/readback/catalogue.py:110-130 | two indexes of the same normal forms agree on the nearest one, whatever their order |
| Iso6346.BuildIsoLetters | server/readback/validators.py:6-10 | the loop gives the letters 10 to 38 skipping multiples of eleven (ISO 6346:1995, Annex A) |
| Iso6346.TableResidual | server/readback/fastval.py:28-32 | the residue table sums to the weighted sum modulo eleven |
| Iso6346.LenientIsReference | server/readback/fastval.py:42-47 | the lenient table check equals the plain definition |
| Iso6346.StrictIsReferenceBelowTen | server/readback/fastval.py:34-40 | the strict check equals the plain definition except that it refuses remainder ten |
| Iso6346.IsoTableOk | server/readback/fastval.py:34-40 | the early-return scan decides the strict check |
| Iso6346.IsoTableOkLenient | server/readback/fastval.py:42-47 | the early-return scan decides the plain check |
| Iso6346.RemainderAfterSubstitution | server/readback/solver.py:208-211 | a substitution left of the check digit keeps the remainder exactly when the two values are congruent modulo eleven |
| Iso6346.StrictBlindSpot | server/readback/solver.py:208-211 | the strict check misses a substitution exactly on such a congruence, which only two owner letters can have |
| Iso6346.LenientBlindSpot | server/readback/validators.py:14-18 | the plain check additionally misses the fold of remainder ten onto zero, and nothing else |
| Iso6346.StrictSeesSwaps | server/readback/fastval.py:34-40 | the strict check refuses every swap of adjacent distinct digits |
| Iban.ValueIsTheInteger | server/readback/validators.py:77-80 | the recursive value is the integer written by the expanded digits |
| Iban.SpacesDoNotCount | server/readback/validators.py:73-80 | a blank anywhere in the string changes nothing |
| Iban.ExampleIsIban | server/readback/validators.py:73-80 | GB82WEST12345698765432 is an IBAN |
| Iban.BuildStarts | server/readback/fastval.py:64-68 | the moving index gives each source position its place among the expanded digits after rotation |
| Iban.BuildIban | server/readback/fastval.py:55-79 | the table built in place holds each character's contribution modulo 97 |
| Iban.TableResidual | server/readback/fastval.py:88-90 | the table's residue is the remainder of the rearranged integer modulo 97 (ISO/IEC 7064 MOD 97-10) |
| Iban.TableAgrees | server/readback/fastval.py:88-97 | a string that fits the alphabet is an IBAN exactly when its table residue is one and its country is not listed with another length |
| Iban.IbanGbOk | server/readback/fastval.py:92-97 | the GB table check agrees with the big-integer check on every string of the GB alphabet, up to that country test |
| Iban.SubstitutionChangesCheck | server/readback/validators.py:73-80 | a same-class substitution always changes the remainder |
| Iban.SwapChangesCheck | server/readback/validators.py:73-80 | swapping adjacent distinct characters of one class, on one side of the cut for rearrangement, always changes the remainder |
| Iban.CutSwapChangesCheck | server/readback/validators.py:73-80 | swapping the two characters astride the cut keeps the remainder exactly when a power of ten given by the digits between them is congruent to one modulo 97, which takes more than the 34 characters of an IBAN |
| Iban.ErrorsRefused | server/readback/validators.py:73-80 | every same-class substitution and neighbour swap in a valid IBAN is refused; across the cut, up to 34 characters |
| Events.LiveSkips | server/pipeline/events.py:238-246 | an event already in the backlog is skipped, not repeated |
| Events.LiveYields | server/pipeline/events.py:238-246 | the next queued event continues the run without a gap |
| Events.LiveEnds | server/pipeline/events.py:238-246 | the queue runs empty only without an end marker and with everything delivered; the marker is reached only after the last event before it |
| Events.EventStream.Emit | server/pipeline/events.py:179-198 | one event more, numbered next, on every live queue, also after `close`; an unknown type changes nothing |
| Events.EventStream.Close | server/pipeline/events.py:200-206 | idempotent; every live queue gets one end marker |
| Events.EventStream.Subscribe | server/pipeline/events.py:224-236 | a new reader starts at the first event still retained |
| Events.EventStream.Next | server/pipeline/events.py:236-248 | each delivery is the next number after what the reader has; waiting means it has everything, stopping that it has everything emitted before `close` |
| Events.EventStream.Run | server/pipeline/events.py:154-248 | for every interleaving, also with events after `close`, each reader has a gap-free, duplicate-free ascending run from its first event; once stopped it has all that preceded `close`, and no more if it was subscribed then; dropped + retained == emitted |
| Events.EventStream.Drain | server/pipeline/events.py:236-248 | reading on after `close` delivers everything owed, and ends exactly when `close` found the reader subscribed or it is still in its backlog with an empty queue; otherwise it waits for good |
| Events.LateReaderCanWait | server/pipeline/events.py:224-248 | one event emitted after `close`, while a late reader is in its backlog, leaves that reader waiting |
| Ingress.NeverFasterThanRealTime | server/main.py:782-802 | between any two frames no more audio is sent than fits into the gap between their schedules |
| Ingress.AtMostRealTime | server/main.py:782-802 | between any two frames no more audio is sent than real time allows, at 32 bytes a millisecond |
| Ingress.AudioIngress.ReceiveBytes | server/main.py:739-779 | what a binary frame adds, and when it ends the socket: odd length, or more than two seconds ahead |
| Ingress.AudioIngress.ReceiveText | server/main.py:760-779 | Terminate asks for the drain, KeepAlive is ignored, anything else ends the socket |
| Ingress.AudioIngress.DrainFrom | server/main.py:804-829 | where the drain loop goes: a full frame, a final short one, the end, or back to waiting |
| Ingress.AudioIngress.Sent | server/main.py:782-812 | a sent frame leaves the front of the buffer and sets the earliest time of the next |
| Ingress.AudioIngress.Run | server/main.py:739-829 | in every order of steps the bytes forwarded are a prefix of those received and exactly the frames sent one after the other, counts balance, frames are 100 ms or one final 50 to 100 ms, paced, and a terminated pacer leaves under 100 ms |
| Ingress.AudioIngress.Serve | server/main.py:839-869 | the tasks in any order and then the way out: what was received is what was forwarded plus what was lost, which after a clean end is under 100 ms |
| Ingress.AudioIngress.TerminateAndRun | server/main.py:804-829 | whatever happens after a Terminate, a pacer that ends on it leaves 50 ms or more unsent exactly when a drain was under way and the buffer held at least that beyond its last full frame |
| Ingress.TailCanBeLost | server/main.py:804-829 | a run in which this happens: bytes and Terminate arrive while a frame is being sent, and 60 ms are left unsent |
| Posterior.LegalRawSum | server/readback/solver.py:110-114 | with a legal heard character and another to share with, the raw masses already sum to one |
| Posterior.IsDistribution | server/readback/solver.py:101-116 | the posterior is a probability distribution, except over a one-character alphabet heard with confidence zero |
| Posterior.HeardMass | server/readback/solver.py:101-116 | a legal heard character gets exactly its confidence, an illegal one nothing, a locked one everything |
| SolverLaws.SharesFollowWeights | server/readback/solver.py:101-116 | the characters not heard share what is left in proportion to the confusion weights |
| Ranking.SortedSorts | server/readback/solver.py:276 | sorting by a strict order is an ordered permutation |
| Ranking.SortedIsStable | server/readback/solver.py:276 | whatever order the elements were given in, those that rank alike stay in it |
| Repairs.RepairsR1 | server/readback/solver.py:125-139 | exactly the valid strings one legal, unlocked edit away, each once and in the order of positions and alphabets, at one validator call per edit |
| Repairs.CallsR1Bound | server/readback/solver.py:125-139 | at most length times alphabet calls |
| Repairs.DoubtOrderRanks | server/readback/solver.py:142-151 | exactly the unlocked positions, each once, the most doubted first and of equally doubted ones the later first |
| Repairs.AlternatesAreLegal | server/readback/solver.py:163 | at most six alternatives, all allowed at the position and none of them the heard character |
| Repairs.AlternatesAreLikeliest | server/readback/solver.py:163 | no other character allowed at the position is likelier than an alternative kept, nor as likely and greater |
| Repairs.AlternatesCount | server/readback/solver.py:163 | six alternatives, or all the other characters when there are fewer |
| Repairs.SearchFindsLegalEdits | server/readback/solver.py:154-173 | whatever a seeded search finds is valid and one or two legal, unlocked edits away |
| Repairs.RepairsR2 | server/readback/solver.py:154-173 | exactly what seeding the five most doubted positions finds, within M*K*(1 + L*A) calls |
| Repairs.LessExactly | server/readback/solver.py:173 | the order of the double search's result: at the first difference the smaller character first, and a beginning before what continues it |
| SolverLaws.TrialOrderExactly | server/readback/solver.py:125-139 | single edits are tried by position and then in the order of the alphabet there |
| SolverLaws.DoubleSearchExactly | server/readback/solver.py:154-173 | with no single repair, the candidates are exactly the valid strings two legal edits away of which one puts, at one of the five most doubted positions, one of its six likeliest other characters |
| Solver.Candidates | server/readback/solver.py:252-265 | the candidate list by radius, in generation order: the string itself, all single repairs, or the bounded double search only when no single repair exists |
| Solver.CandidatesAreLegal | server/readback/solver.py:257-265 | every candidate is valid, leaves locked positions alone and differs in exactly as many positions as the radius |
| Solver.NoFewerEdits | server/readback/solver.py:257-265 | no valid string needs fewer legal edits than the candidates offered |
| Solver.SharesDecide | server/readback/solver.py:281-286 | the test on normalised shares, with its floor under the runner-up, is the test on likelihoods |
| Solver.GuardedAction | server/readback/solver.py:281-318 | the guards in order; ASK_BLIND is never the action |
| SolverLaws.VerdictExactly | server/readback/solver.py:281-318 | each verdict exactly, by likelihoods, masses and weights: nine tenths of the whole and eight times the next, or alone and plausible; no doubt left; no unknown edit |
| SolverLaws.LoneCandidate | server/readback/solver.py:280-282 | a lone candidate with every character at five percent or more is plausible, one with every character below is not |
| SolverLaws.DoubtfulExactly | server/readback/solver.py:292-293 | doubtful are exactly the unlocked positions heard with an illegal character or with confidence below three fifths |
| Marginals.Tally | server/readback/solver.py:188-193 | the dictionaries built candidate by candidate give, per position, each character's summed share |
| Marginals.MarginalExactly | server/readback/solver.py:188-193 | the mass of a character at a position is to one as the likelihoods of the candidates that have it there are to those of all |
| Marginals.MarginalIsDistribution | server/readback/solver.py:188-193 | a marginal sums to one over any alphabet that holds the candidates' characters there |
| Marginals.CertainExactlyWhen | server/readback/solver.py:324-328 | a position is certain exactly when all candidates agree on it, as a single one always does |
| Solver.Decide | server/readback/solver.py:252-348 | candidates, ranking, verdict, doubt, ambiguity and the unlocked position to ask about, within the call bound; no result exactly when every position is locked and the string is valid, where the source raises |
| Solver.RankingIsDetermined | server/readback/solver.py:257-277 | string, confidences and locks determine the ranked list, ties included |
| Solver.ResultIsDetermined | server/readback/solver.py:252-348 | two results on the same input agree on everything but the position among equally doubted ones and the number of calls |
| Solver.TopIsBest | server/readback/solver.py:271-279 | the top candidate is valid, legal, at least as likely as every other, the first generated of those as likely, and no valid string is closer |
| SolverLaws.SingleEditsRank | server/readback/solver.py:119-122 | of two candidates one edit away at different positions, the first is strictly likelier, and then ranked first, exactly when its new character's mass times the other's heard one exceeds the other product |
| SolverLaws.OneCharacterRanks | server/readback/solver.py:119-122 | two candidates that differ at one position rank by their masses there, whatever the rest is |
| SolverLaws.Exchange | server/readback/solver.py:119-122 | exchanging one character exchanges its factor in the likelihood and nothing else |
| SolverLaws.AsksWhere | server/readback/solver.py:319-348 | with doubt left, the position asked about is one of those left, heard least surely; otherwise the one the candidates differ on most, the last of equals; and how many are left and in play |
| Solver.AcceptMeans | server/readback/solver.py:281-318 | an accept explains every doubtful position by an edit, every edit has weight at least MIN_EDGE, and every rival is eight times less likely |
| Solver.UnchangedAcceptNeedsConfidence | server/readback/solver.py:287-298 | accepting the heard string unchanged takes a legal character of confidence at least 0.6 at every unlocked position |
| Solver.BlindAlternativesStayValid | server/readback/solver.py:223-249 | a blind alternative keeps a valid ISO 6346 number valid, and exists only among the owner letters |
| SolverLaws.BlindExactly | server/readback/solver.py:223-249 | left of the check digit the blind alternatives are exactly the other allowed, confusable characters that leave the ISO 6346 remainder as it is; no other format has any |
| SolverLaws.NoneAtTheCheckDigit | server/readback/solver.py:223-249 | at the check digit there are none |
| Narrowing.NamingNarrowsReach | server/pipeline/decider.py:125-132 | naming an allowed character leaves within reach of legal edits exactly the strings that have it there, and rules out at least one |
| Narrowing.NamingSettles | server/pipeline/decider.py:207-210 | once a character is named the corrected string is the only candidate exactly when it is valid |
| Narrowing.NamingNarrowsExactlyWhen | server/pipeline/decider.py:207-210 | with candidates at most one edit away and one of them having the named character: those that have it stay, no other does, and there are fewer exactly when some candidate had another character there |
| Narrowing.SeedsAre | server/readback/solver.py:154-158 | the double search seeds exactly at the unlocked positions with fewer than five more doubted ones ahead |
| Narrowing.CorrectingMovesCloser | server/pipeline/decider.py:207-210 | with no single repair, naming another character than the heard one keeps the candidates that have it, and if there is one the new list is every valid single repair of the corrected string |
| Narrowing.ConfirmingKeepsFound | server/pipeline/decider.py:207-210 | with no single repair, confirming the heard character keeps the candidates that leave it alone; something is new exactly when the position was a seed and the sixth in doubt, which takes its place, finds something new |
| Narrowing.ShrinksExactlyWhen | server/pipeline/decider.py:125-132 | whatever is named: candidates that have the named character stay; the set shrinks strictly exactly when some candidate had another one there and none is new, which is told from the candidates before the answer, or nothing is found any more |
| Narrowing.ConfirmingNeedNotNarrow | server/pipeline/decider.py:125-132 | a valid string is the only candidate before and after its heard character is confirmed |
| Decider.SpeechBudget.BlockingReason | server/pipeline/decider.py:105-117 | latched, cooling down, or two in the window, in that order; the last one latches |
| Decider.Attempt.Step | server/pipeline/decider.py:160-174 | one pass more; raises exactly past the fourth |
| Decider.Attempt.Defer | server/pipeline/decider.py:176-193 | takes the pass back; raises exactly past the deferral limit |
| Decider.Attempt.SpendSpan | server/pipeline/decider.py:212-217 | a span re-read is charged and clears the locks |
| Decider.MaySpeak | server/pipeline/decider.py:334-366 | the first of the gates that refuses, in order |
| Decider.Decide | server/pipeline/decider.py:369-528 | the action, what it charges to the identifier, the session's speech afterwards, and when it raises |
| Decider.CommitMeans | server/pipeline/decider.py:275-311 | a commit happens exactly on an accept with a second signal on a closed turn whose edits the regime can localise and no IBAN rule forbids |
| DeciderLaws.CommitsExactly | server/pipeline/decider.py:442-448 | a commit exactly on an accept with a second signal, a closed turn and nothing arriving that changes nothing or may change it silently |
| DeciderLaws.WaitsExactly | server/pipeline/decider.py:386-413 | when the loop waits for a second signal, when for the turn to close, and when it hands over for having waited too long |
| DeciderLaws.FlagsExactly | server/pipeline/decider.py:430-440 | an implausible repair is flagged exactly the first time and handed over after that |
| DeciderLaws.RereadsExactly | server/pipeline/decider.py:417-492 | the span is heard again exactly when that has not been done and there is no candidate, or an accept whose edits the regime cannot place with questions left, or more in play than questions left |
| DeciderLaws.HandsOverExactly | server/pipeline/decider.py:417-492 | each other reason for a handover, exactly |
| DeciderLaws.AsksExactly | server/pipeline/decider.py:465-528 | one character is the subject exactly when something is unsettled, can be placed and the questions suffice, and whether it is asked about or waited for |
| DeciderLaws.AsksHow | server/pipeline/decider.py:498-528 | aloud, with a tone or on the screen alone, exactly |
| DeciderLaws.NeverAsksUnderBlock | server/pipeline/decider.py:465-492 | an accept with edits under confidence per block is never asked about nor written |
| DeciderLaws.RefusalExactly | server/pipeline/decider.py:334-366 | which gate refuses, by the fields of the moment and the speech spent |
| DeciderLaws.BlockingExactly | server/pipeline/decider.py:105-117 | when the session's gate is shut for good and when for twenty seconds, and what latches it |
| DeciderLaws.ChargesExactly | server/pipeline/decider.py:160-217 | what each decision costs the identifier |
| Decider.SpokenExactlyWhen | server/pipeline/decider.py:496-528 | a question that is asked is asked aloud exactly when every gate is open, and is only asked with a second signal and within the questions left |
| Decider.BudgetsHold | server/pipeline/decider.py:123-217 | two questions, one span, one spoken; iterations == questions + spans while open; the exception for a fifth iteration is unreachable |
| Decider.SpeechStaysSpaced | server/pipeline/decider.py:98-120 | whatever the clock does: twenty seconds between spoken questions, no three in five minutes, none after the latch |
| Runner.RegisteredFormatsAreWellFormed | server/pipeline/detector.py:406-408 | each of the five formats has at least three positions and offers two or more distinct characters at each, which is what the solver asks of a format |
| Runner.ParseAnswer | server/pipeline/runner.py:481-499 | only an offered character can be named |
| Runner.AnswersExactly | server/pipeline/runner.py:481-499 | what silence, the empty answer, a yes and a no come to: to a confirmation a yes names the first choice and a no nothing; anything else is looked up among the offered characters |
| Runner.OfferedIsUnderstood | server/pipeline/runner.py:481-499 | a single character that was offered, and that no table spells as another offered one, is understood as itself |
| Runner.UnnamedPhraseIsNotEnough | server/pipeline/runner.py:937-988 | a carrier phrase naming no format gives no second signal to a format known from its length alone |
| Runner.SignalExactly | server/pipeline/runner.py:937-988 | each second signal exactly: a phrase counts when it names no other format and either names this one or the shape is evidence; else a prefix, else a fitting identification, else none |
| Runner.ContinuingKeeps | server/pipeline/runner.py:1171-1249 | going round again spends one budget, keeps locks and named characters in step, and loses a named character only to a re-read |
| Runner.RefreshingKeeps | server/pipeline/runner.py:818-826 | a fresher frame never overwrites what a human named |
| Runner.CommitWritesWell | server/pipeline/runner.py:1555-1606 | the row of a commit is valid, carries a second signal, is corrected exactly when heard and final differ, silent exactly without questions and spans, contains every named character, and a silent one is a closest repair that never corrects an IBAN |
| Runner.ValidationExactly | server/pipeline/runner.py:1316-1328 | validated by the check digit exactly when the string is valid, by the registry exactly when its prefix is registered |
| SessionLoop.Pending.TakeAnswer | server/pipeline/runner.py:1233-1249 | a named character is written, trusted and locked; a no only lowers the confidence; anything else changes nothing |
| Runner.AnswerExactly | server/pipeline/runner.py:1233-1249 | what a reply does to string, confidence, locks and names at every position |
| SessionLoop.Pending.Refresh | server/pipeline/runner.py:818-826 | the working string follows the newest frame until a position is locked |
| SessionLaws.RefreshedExactly | server/pipeline/runner.py:818-826 | a fresher window is the working string exactly until something is named; budget and names stay |
| SessionLaws.RereadExactly | server/pipeline/runner.py:1168-1186 | what is heard again replaces string and confidences and clears the names |
| SessionLoop.Session.SignalOf | server/pipeline/runner.py:937-988 | carrier, prefix, identification or none, in order of strength |
| SessionLoop.Session.Look | server/pipeline/runner.py:1058-1110 | the identification, asked for once and only for a complete window without another signal, and otherwise unchanged; the solver's result and the facts of the moment |
| SessionLoop.Session.TakeIn | server/pipeline/runner.py:1188-1249 | a question is noted with its reply, counted, and leaves candidate and journal agreeing on what is named |
| SessionLoop.Session.HearAgain | server/pipeline/runner.py:1168-1186 | a re-read that fits the format clears what was named and goes on; one that does not ends in a handover |
| SessionLoop.Session.Judge | server/pipeline/runner.py:1107-1128 | solver and decider on the open candidate: the decision is the decider's choice on the solver's result, and the only exception is a wait past the deferral limit |
| SessionLaws.MomentExactly | server/pipeline/runner.py:1058-1078 | a decision is taken on the string as it stands: known valid exactly when the solver needed no repair, always of full length, required exactly with a second signal; the clocks, the turn and the regime as found |
| SessionLaws.GatesNeverShut | server/pipeline/decider.py:334-366 | in a session an open turn, characters still arriving, a wrong length and an answer nobody requires are never what keeps a question from being spoken |
| SessionLaws.IdentifiesExactly | server/pipeline/runner.py:1092-1106 | the identification is asked for exactly when it can be, has not been, the window is complete and nothing else is a signal; its answer then replaces the one before |
| SessionLaws.CommitsTheLikeliest | server/pipeline/runner.py:1107-1110 | what is committed is the solver's first candidate, and no other is likelier |
| SessionLoop.Session.OnePass | server/pipeline/runner.py:1092-1249 | the identification when it is due, what the loop does about each decision, the candidate it goes on with, and the row it writes for each terminal one |
| SessionLaws.RowExactly | server/pipeline/runner.py:1555-1650 | every row keeps format, heard string, signal and what was spent; its status, final string and reason follow the decision |
| SessionLoop.Session.Resolve | server/pipeline/runner.py:1081-1249 | at most four passes, each that goes round again spending one budget; everything the journal gains concerns the open candidate and keeps the journal sound; an identification already asked for stays as it was |
| SessionLoop.Session.Finish | server/pipeline/runner.py:867-880 | an identifier still open at the end, or after an exception, is handed over unverified, with the reason |
| SessionLoop.Session.Consider | server/pipeline/runner.py:792-826 | a frame with another value opens a new candidate with nothing named, a fresh budget and no identification; one with the same value refreshes it and keeps all three |
| SessionLoop.Session.Handle | server/pipeline/runner.py:786-839 | one event: a decided string is skipped, the same value and the passing of time only continue the open candidate, another value opens one, the end hands it over; what was named and spent is carried to the row |
| SessionLoop.Session.Run | server/pipeline/runner.py:590-905 | over any session, event by event the journal grows as `Handle` says and its rows are the rows written; with decided strings skipped no two hear one string nor one already written; and spoken questions keep their spacing |
| Journal.NamedSurvives | server/pipeline/runner.py:1233-1241 | over any stretch of questions about one candidate, across frames, nothing named is lost or changed |
| Journal.NamedReachesTheRow | server/pipeline/runner.py:1233-1241 | a character a human named is in the committed row at its position, and no later question is about it, if only questions come between |
| Journal.AbandonsExactlyWhen | server/pipeline/runner.py:789-826 | a frame abandons what was named exactly when a candidate with something named is open, the frame's value is another, and it is not skipped as decided |
| Journal.RowsAreDistinct | server/pipeline/runner.py:789-790 | with decided strings skipped, no row hears a string another row heard or an earlier row wrote |
| SessionLaws.DecidedExactly | server/pipeline/runner.py:1136-1183 | decided are exactly the strings some row heard or wrote |
| Journal.RowsAreSound | server/pipeline/runner.py:1555-1606 | every row of a session is sound about what had been named for its candidate when it was written |
| Abandonment.NamedCanBeLost | server/pipeline/runner.py:792-812 | for any confusion weights, a session on a valid container number: a human corrects a letter of the owner code to one no registry knows, the loop waits for another signal, the next frame reads another number, and the name is gone |
| Abandonment.HeardIsUnexplained | server/readback/solver.py:281-299 | on that number, one letter heard with confidence one half, the solver finds it valid and asks about exactly that letter |

## Left out

- Solver.Decide: keeps the full ranking where the source returns the first eight candidates and their shares, leaves open which of several equally doubted positions is asked about, as the source's iteration over a set does, and takes the entropy as an arbitrary function of the position's marginal, because the logarithm is not modelled.
- Decider.Attempt.Defer: the limit of 400 deferrals can be reached when the clock does not advance; only its effect is stated, not that it is never reached.
- Iban.SwapChangesCheck: leaves the pair astride the cut (positions 3 and 4) to `Iban.CutSwapChangesCheck`, because its weights are not adjacent.
- Catalogue.CatalogueIndex.Match: rows are compared by normal form over ASCII letters and digits, and only ASCII blanks are stripped.
- SessionLoop.Session.Run: sessions with a catalogue also write rows from it; those, their `decided` entries and the timer that decides when to look again are not modelled.
- SessionLoop.Session.Finish: wall-clock latency, confidence at write, capture identifiers and event payloads are not part of a row.
- Lower-case and non-ASCII letters and digits: the checks are modelled over ASCII; a lower-case owner letter has no ISO value and is its own outcome.
- Tokenising, spoken vocabulary, carrier matching, rhythm statistics and confidence alignment: runs, windows and cue flags are inputs.
- Question wording, answer matching by spoken form beyond the offered characters, the rack shown on screen, and memoised blind alternatives.
- The VIN, NHS, Luhn and other checks as arithmetic; the catalogue's signature and vocabulary filter.
- Floating-point rounding, filter design, sockets, storage, authentication, the LLM gateway and the user interface.
