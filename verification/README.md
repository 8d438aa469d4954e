# A verified model of the Sentry SDK's algorithms

Between an application and Sentry's servers, the Python SDK flattens exceptions, trims and annotates
events, batches spans, frames envelopes, and keeps books on whatever it drops.  This project models
that code in Dafny and proves what it promises.  Where a promise fails for some inputs, the code is
kept as it is, the project shows such an input, and proves exactly when the promise holds.

`dafny verify dfyconfig.toml` checks everything.  Some methods and lemmas `hide` definitions they do
not need, to keep their proofs cheap.

## What is modelled

**Exceptions** (`Exceptions`, `ExceptionTheorems`).  The walk that flattens a graph of causes,
contexts and group members into a numbered list, with its shared set of seen exceptions.  A graph may
be cyclic.  The method is proved against a stack-driven walk; the theorems say that the list holds
exactly the reachable exceptions, once each, that its numbering is a gap-free pre-order, and when it
agrees with the plain chain.  An exception class may define `__bool__`; the walk asks for it and the
chain does not, so the two agree if and only if all exceptions before the last are truthy.

**UTF-8 and string stripping** (`Utf8`, `StripString`).  Python strings are sequences of code points,
lone surrogates included.  Stripping keeps the longest prefix of whole code points that leaves room
for the ellipsis.  A limit below 3 leaves no room, and exactly then some result exceeds it.

**The serializer** (`MetaDict`, `SerializerSpec`, `Serializer`, `SerializerTheorems`,
`SerializerRuns`, `MetaRuns`, `SerializerImages`).  The recursive walk with its path, its memo and its stack of entries of
the `_meta` tree, a heap of dictionaries in which the annotation of a value and the children of that
value share one dictionary.  For every key, the empty string included, entry k of the stack is what
the first k segments lead to, also after an exception was caught; `_annotate` itself raises where part
of an annotation is in its way.  `SerializerSpec` says what a call returns, annotates and leaves, as a
function; its parameter `stack` is the number of interpreter frames left, and running out of them is
the `RecursionError` that `except BaseException` catches.

The theorems are about whole runs: every call made for an event gets the databag decision of its whole
path; every part of the result is the result of one of these calls; in a databag it is small, keeps the
first ten children of each container, and ends by itself on any graph of objects.  What a value comes
out as is stated on the objects alone: without cycles and empty keys every call yields the image of its
object, an event that is plain JSON within its limits comes out as itself, and on any graph the value
of every leaf is given by its kind and its place.  `_meta` is exact if and only if no annotated path
has an empty segment, so it is exact for every event whose mappings have no empty key.  For
`{"extra": {key: text}}` it is exact if and only if the key is not empty or the text fits, and there is
an event whose empty key even costs it a value.

**The span batcher** (`SpanBatcher`, `SpanBatcherRuns`).  Each section the source runs under the lock
is a method; a run is any interleaving of these sections, with flushes that have released the lock but
not captured all their envelopes.  In every state the index of pending buckets is exact, and nothing
is lost, duplicated or reordered.

**Queue and worker** (`Queue`, `Worker`, `WorkerRuns`).  The bounded queue with its counter of
unfinished tasks, and the restartable consumer thread that a sentinel stops.  Over every interleaving
the counter is right, `task_done` never raises, and the live threads are those started less the
sentinels and fatal callbacks finished.  Sentinels never outnumber live threads if and only
if no callback raises past `except Exception`: such a callback ends its thread without a sentinel.

**Envelopes** (`Json`, `JsonTheorems`, `Envelope`, `EnvelopeTheorems`).  Header lines are JSON as
`json_dumps` prints it and `json.loads` reads it.  Reading a written envelope gives the same headers
and payloads, for payloads of any bytes, and writing that again gives the same bytes.  A string
survives JSON if and only if it holds no high surrogate followed by a low one as separate code points.
A payload that is JSON null is the one an event item does not get back.

**Baggage** (`Baggage`, `BaggageTheorems`).  Percent-encoding, parsing and printing baggage headers
(section 3 of W3C Baggage, section 2.1 of RFC 3986), and adding baggage to a header.  Items are
recovered if and only if no key has a hyphen and everything can be encoded; third-party members are
kept unless the only one is an empty member.

**Accounting** (`Transport`, `SpanLoss`, `Sessions`).  Three conservation laws: what client reports
say is what items suffered; spans started are spans sent plus losses recorded; session counters sum to
the sessions added.

An item can vanish, neither delivered nor charged: an exception ends the job that holds it, and is
swallowed.  `json_dumps` raises on NaN and infinities, when an envelope is serialized and when the
bytes of a lost log or metric are counted; reading the limits from a response's headers can raise
before a failed request is charged.  A client report that was attached vanishes with the items, and
with it the counts it carries.  Every item of an envelope is delivered or charged under one reason if
and only if the items over quota can be charged, the others can be dumped, and, if there are any, the
headers of an error response can be read.

A transaction that an event processor drops is charged in full if and only if nothing had been dropped
from it before: the code returns before it looks at the earlier drops.

**Sampling and caching** (`Sampling`, `LruCache`).  Random numbers and sampling decisions in real
arithmetic, the health monitor's downsample factor, and a cache that agrees with its recency history.

`Options` holds the usual option type.  Methods follow the source's loops and branches and are proved
against functions; the lemmas are about those functions.

Where documentation and code disagree the model follows the code: `_generate_sample_rand` is
documented to draw from `[lower, upper)`, and draws below `lower` when `lower` has more than six
decimals (`Sampling.NeverBelowIffSixDecimals`).

## Model

| member | source | states |
|---|---|---|
| Exceptions.ExceptionsFromError | sentry_sdk/utils.py:851-987 | On any finite graph, cyclic or not, the recursive walk ends; its list is the depth-first walk with a stack of edges, it records exactly what it emits, and the returned counter is the start plus the length of the list |
| Exceptions.WalkConcat | sentry_sdk/utils.py:930-985 | Walking two stacks of edges at once is walking them in turn, the second with the counter and the seen set the first one left: why the source may thread both through recursive calls |
| Exceptions.WalkExceptionChain | sentry_sdk/utils.py:816-843 | The loop yields the chain of causes and contexts and stops at the first exception it has seen |
| Exceptions.ChainLinks | sentry_sdk/utils.py:816-843 | The chain starts at the exception, each of its exceptions is the cause or unsuppressed context of the one before, none comes twice or was seen, and it ends only where there is no next one or that one was seen |
| Exceptions.ExceptionsFromErrorTuple | sentry_sdk/utils.py:990-1026 | A group gives the numbered walk, anything else the plain chain, backwards: element i is for the exception at position n-1-i, the exception captured comes last, and each element of a chain is the cause or context of the element after it |
| Exceptions.NumberedBackwards | sentry_sdk/utils.py:1002-1028 | The list for a group has one element for each entry of the walk, the last entry first |
| Exceptions.PlainBackwards | sentry_sdk/utils.py:1014-1028 | Without a group a chained cause or context stands directly before the exception it led to, and the captured exception stands last |
| Exceptions.Seen.Add | sentry_sdk/utils.py:898-900 | The list that keeps exceptions alive and the set of their ids always hold the same exceptions |
| ExceptionTheorems.EmitsExactlyReachable | sentry_sdk/utils.py:851-987 | The list for an exception holds exactly the exceptions reachable from it through followed edges, each exactly once |
| ExceptionTheorems.WalkIsClosed | sentry_sdk/utils.py:894-985 | What was emitted, together with what was seen before, holds every target on the stack and is closed under following edges |
| ExceptionTheorems.WalkIsSound | sentry_sdk/utils.py:894-985 | Whatever is emitted is reachable from some target on the stack |
| ExceptionTheorems.WalkHasNoRepeats | sentry_sdk/utils.py:894-900 | No exception is emitted twice |
| ExceptionTheorems.IdsAreConsecutive | sentry_sdk/utils.py:914-915 | Ids run from the start value without a gap, in list order |
| ExceptionTheorems.EntryHasOrigin | sentry_sdk/utils.py:917-985 | Every entry was made for an edge of the initial stack or for an edge of an earlier entry's exception |
| ExceptionTheorems.NextComesRightAfter | sentry_sdk/utils.py:920-966 | A cause or context comes right after the exception it belongs to |
| ExceptionTheorems.NumberingIsPreOrder | sentry_sdk/utils.py:894-985 | Entry k has id k; only the root has no parent; every other parent is smaller than the own id; a member's parent is the group that holds it at its index; a cause or context follows its exception and has parent 0 |
| ExceptionTheorems.GroupsComeInOrder | sentry_sdk/utils.py:968-985 | The members of a group come in the order the group has them |
| ExceptionTheorems.WalkMatchesChain | sentry_sdk/utils.py:816-985 | Without groups, the walk emits what the plain chain yields if and only if every exception of the chain but the last is truthy |
| ExceptionTheorems.FalsyExceptionHidesItsCause | sentry_sdk/utils.py:924-929 | A concrete exception with a false `bool` whose cause is in the chain and not in the walk |
| Utf8.DecodeInvertsEncode | sentry_sdk/utils.py:1263-1269 | Decoding encoded text gives the text back, whatever follows it and however errors are handled (section 3 of RFC 3629) |
| Utf8.DecodeStepInvertsEncodeOne | sentry_sdk/utils.py:1267 | Each code point that is not a surrogate is decoded from its own one to four bytes, and only those |
| Utf8.GoodMeansEncoded | sentry_sdk/utils.py:1267 | A character is read only from its own bytes: overlong forms, surrogates and stray bytes are broken |
| Utf8.EncodingExamples | sentry_sdk/utils.py:1263-1269 | One code point of each length, as in section 7 of RFC 3629 |
| Utf8.DecodeOfPrefix | sentry_sdk/utils.py:1263-1269 | Cutting encoded text at any byte and decoding with errors ignored keeps exactly the code points that fit whole |
| Utf8.FittingIsLongest | sentry_sdk/utils.py:1263-1266 | That prefix fits, and no longer one does |
| StripString.StripKeepsLongestPrefix | sentry_sdk/utils.py:1279-1303 | For a limit of 3 or more, text comes back whole if and only if it fits; otherwise as the longest whole-code-point prefix that leaves room for the ellipsis, annotated with the original length |
| StripString.StripFitsAndIsIdempotent | sentry_sdk/utils.py:1279-1303 | For a limit of 3 or more the result never exceeds the limit, and stripping it again changes nothing |
| StripString.StripUnencodable | sentry_sdk/utils.py:1279-1303 | Text that cannot be encoded is measured and cut in code points |
| StripString.LimitRespectedIffRoomForEllipsis | sentry_sdk/utils.py:1263-1303 | The limit is respected for every encodable text if and only if it is at least 3 |
| StripString.SmallLimitIsExceeded | sentry_sdk/utils.py:1263-1269 | Two letters stripped to a limit of one byte come out as three dots |
| Serializer.Memo.Enter | sentry_sdk/serializer.py:76-82 | Reports whether the object is being serialized already, and leaves it recorded either way |
| Serializer.Memo.Exit | sentry_sdk/serializer.py:84-90 | Forgets the latest object, also when entering it was a hit |
| Serializer.Serializer.SetDefault | sentry_sdk/serializer.py:133-134 | `setdefault` on a dictionary of the tree returns what its key leads to, and changes the tree only by an empty dictionary where the key was missing; tree and stack stay aligned |
| Serializer.Serializer.Attach | sentry_sdk/serializer.py:134 | The new dictionary hangs at its own address, once, and every other address shows what it showed |
| Serializer.Serializer.PushNode | sentry_sdk/serializer.py:131-138 | One round of the loop pushes what one more segment leads to, whatever the segment, or raises where a value is in the way; either way it leaves the outcome of the call open or unchanged |
| Serializer.Serializer.Update | sentry_sdk/serializer.py:140 | Updating an annotation changes that dictionary only; dictionaries that it overwrites leave the tree, and none of them is on the stack |
| Serializer.Serializer.Merge | sentry_sdk/serializer.py:140 | The end of `_annotate`: merges under the empty key of the current node, or raises and changes nothing if that key holds a value |
| Serializer.Serializer.Annotate | sentry_sdk/serializer.py:130-140 | On any path and in any state: raises exactly where nested dictionaries would, changes the tree exactly as they would, and keeps the stack aliasing the path |
| Serializer.Serializer.EnterSegment | sentry_sdk/serializer.py:198-199 | Lengthening the path by any segment keeps the stack invariant |
| Serializer.Serializer.LeaveSegment | sentry_sdk/serializer.py:221-224 | The `finally` restores the path and leaves the stack at most one longer than it, whatever happened inside |
| Serializer.Serializer.SerializeNode | sentry_sdk/serializer.py:188-224 | For any object, key and state: returns, annotates and leaves memo and tree as specified, restores the path, and keeps stack and tree aligned, also after a caught exception |
| Serializer.Serializer.SerializeNodeImpl | sentry_sdk/serializer.py:232-382 | The same for the body, whether it returns or raises |
| Serializer.Serializer.SerializeBody | sentry_sdk/serializer.py:264-382 | The same for what follows the flattening: trimming by depth, containers and leaves |
| Serializer.Serializer.SerializeMapping | sentry_sdk/serializer.py:302-335 | The loop over a copy of only the pairs that may be kept does what a loop over all pairs would do |
| Serializer.Serializer.SerializeSequence | sentry_sdk/serializer.py:337-361 | The loop over the items, stopped at the breadth or by an exception, does what the specification says |
| Serializer.Serializer.SerializeLeaf | sentry_sdk/serializer.py:283-382 | A value without children gives its literal, its date, its text or its repr, and nothing else is annotated or changed than stripping asks for; `SerializerImages.LeafOfEveryCall` says which it is |
| Serializer.Serializer.FlattenStripped | sentry_sdk/serializer.py:226-230 | A stripped string is annotated with its length and the removed range exactly if it was cut, and is lost if annotating it raises |
| Serializer.SeenIsTree | sentry_sdk/serializer.py:130-140 | Following keys from any entry of the heap shows exactly what the tree has at that address |
| Serializer.ShowsOneTree | sentry_sdk/serializer.py:130-140 | What a reader can see determines the whole tree |
| Serializer.Serialize | sentry_sdk/serializer.py:385-424 | `_meta` is attached only to a dictionary, and a reader of it sees exactly the tree that the run's annotations make, whatever was raised and caught on the way |
| MetaDict.AnnotateClean | sentry_sdk/serializer.py:130-140 | On dictionaries shared by annotations and children, annotating a path of non-empty keys changes the annotation there and no other |
| MetaDict.PlainLogIsExact | sentry_sdk/serializer.py:130-140 | Any series of annotations at paths of non-empty keys is found again exactly where it was made |
| MetaDict.EmptyKeyPollutes | sentry_sdk/serializer.py:134-140 | An annotation below an empty key turns up inside the annotation of the container |
| MetaDict.ExactIffNoEmptyKey | sentry_sdk/serializer.py:130-140 | Any series of annotations, failed ones included, is found again where it was made if and only if no path has an empty key |
| MetaDict.AnnotateInPlace | sentry_sdk/serializer.py:140 | With all dictionaries in place, nested `setdefault`s amount to one update under the empty key |
| MetaDict.AnnotateGrown | sentry_sdk/serializer.py:131-138 | Making a missing dictionary on the way changes nothing in the outcome, and from there on the call succeeds |
| MetaDict.AnnotateStuck | sentry_sdk/serializer.py:131-140 | A value on the way, or under the empty key at its end, makes the call raise |
| MetaDict.GrownFaces | sentry_sdk/serializer.py:134 | `setdefault` shows at its own key and nowhere else |
| MetaDict.UpdatedFaces | sentry_sdk/serializer.py:140 | `update` shows at the updated keys, hides what hung below them, and nothing else |
| MetaRuns.NodeIsLogged | sentry_sdk/serializer.py:188-382 | The tree a call leaves is what its annotations, in order, make of the tree it found |
| MetaRuns.NodeIsPlain | sentry_sdk/serializer.py:188-382 | Without empty keys among the objects every annotated path is free of empty segments |
| MetaRuns.MetaIsExactIffNoEmptyKey | sentry_sdk/serializer.py:385-424 | For every event: `_meta` holds what was annotated, where it was annotated, if and only if no annotated path has an empty segment |
| MetaRuns.PlainKeysMakeMetaExact | sentry_sdk/serializer.py:385-424 | The `_meta` of an event whose mappings have no empty key is exact |
| MetaRuns.ExtraTextIsExactIff | sentry_sdk/serializer.py:302-335 | The `_meta` of `{"extra": {key: text}}` is exact if and only if the key is not empty or the text fits the limit |
| MetaRuns.EmptyKeyLosesText | sentry_sdk/serializer.py:130-140 | A concrete event in which annotating a cut text below an empty key raises, so that the event loses the text |
| SerializerTheorems.IsDatabagIsDecision | sentry_sdk/serializer.py:142-186 | The decision by indexing and IndexError is: yes below `extra`, `request.data` or `breadcrumbs.values.*`, undecided while one more segment may complete such a prefix, no otherwise |
| SerializerTheorems.InheritedDecisionIsWholePathDecision | sentry_sdk/serializer.py:246-250 | Inheriting the decision gives the same answer at every node as deciding from its whole path |
| SerializerTheorems.EveryNodeFits | sentry_sdk/serializer.py:240-262 | The root gets fitting parameters and every node that is not trimmed passes fitting ones on: decisions of the parent's path, and no limits before a databag |
| SerializerRuns.CallsFit | sentry_sdk/serializer.py:188-382 | Every call made below a call with fitting parameters has fitting parameters |
| SerializerRuns.RunFits | sentry_sdk/serializer.py:385-424 | Every call made for an event, from the root on, has fitting parameters |
| SerializerRuns.KeptAreCalls | sentry_sdk/serializer.py:302-361 | Each child a container keeps is the result of a call made for it, with the container's path and the child's segment |
| SerializerTheorems.DecimalIsNumeral | sentry_sdk/serializer.py:133-134 | The segment of an index is its decimal numeral without leading zeros |
| SerializerRuns.PartIsResult | sentry_sdk/serializer.py:188-382 | Whatever a path leads to in a result is the result of a call made at that path |
| SerializerRuns.LogIsPart | sentry_sdk/serializer.py:188-382 | What a call annotates is a contiguous part of what the calls above it annotate |
| SerializerRuns.DatabagsAreTrimmed | sentry_sdk/serializer.py:252-361 | In the result for any event, wherever a path leads into a databag: at most 111111 values, and each container holds the first ten children of its object, its length annotated by that call if and only if there were more |
| SerializerRuns.DatabagCallsEndByThemselves | sentry_sdk/serializer.py:252-267 | Every databag call of a run, its top included, has a result that does not depend on the number of frames once there are more than five |
| SerializerTheorems.DatabagLimits | sentry_sdk/serializer.py:252-260 | Inside a trimmed databag at most five more levels follow, exactly five at its top, each with breadth ten |
| SerializerTheorems.NotesStayBelow | sentry_sdk/serializer.py:188-382 | Everything a node annotates lies at or below its own path |
| SerializerTheorems.LoopKeepsPrefix | sentry_sdk/serializer.py:302-361 | A container that does not raise keeps a prefix of its children, as many as the breadth allows, and its length is annotated at its own path if and only if something was cut |
| SerializerTheorems.DatabagContainerKeepsTen | sentry_sdk/serializer.py:302-361 | In a databag a container keeps its first ten children, and its length is annotated if and only if it had more |
| SerializerTheorems.TrimmedNodeIsSmall | sentry_sdk/serializer.py:252-361 | With d levels left a databag node comes out with at most 1 + 10 + ... + 10^d values |
| SerializerTheorems.DatabagIsSmall | sentry_sdk/serializer.py:232-382 | A databag comes out with at most 111111 values, whatever went in |
| SerializerTheorems.TrimmedNodeNeverHitsLimit | sentry_sdk/serializer.py:252-267 | With more frames than levels left the result of a trimmed node does not depend on the number of frames |
| SerializerTheorems.DatabagNeverHitsRecursionLimit | sentry_sdk/serializer.py:252-267 | From its top as from any node in it, a databag ends by itself on any graph of objects: with more than five frames none is refused |
| SerializerTheorems.AcyclicNeverHitsRecursionLimit | sentry_sdk/serializer.py:188-382 | On objects with a rank the walk ends by itself everywhere, databag or not |
| SerializerImages.RunIsPlaced | sentry_sdk/serializer.py:240-262 | For every call of a run, on any graph: depth and breadth left are those of its path, five levels less one for each container of the databag it is in, and ten children; none outside databags, no limit in a request body kept whole |
| SerializerImages.BelowAnnotated | sentry_sdk/serializer.py:241-242 | Everything in an `AnnotatedValue` is serialized without showing reprs |
| SerializerImages.ShownIffVarsOutsideAnnotated | sentry_sdk/serializer.py:241-244 | A call of any run shows strings and scalars by their repr if and only if the run is for stack variables and the call is in no `AnnotatedValue` |
| SerializerImages.LeafOfEveryCall | sentry_sdk/serializer.py:200-220 | For every event, cyclic or not, and every call of its run: an object being serialized already gives the cycle marker; a value cut off gives its stripped repr; a number, bool or None gives itself, or its repr if shown, infinite or NaN; a date its format; a string its text, or its repr if shown; any other object its repr; an object that raises gives the failure text in a databag and null elsewhere; texts are stripped except span descriptions |
| SerializerImages.NotesOfEveryCall | sentry_sdk/serializer.py:226-382 | For every event and every call of its run: the metadata of an `AnnotatedValue` is annotated first; a value cut off is annotated as removed; a text that is cut with its length and the removed range; any other value without children, and an object being serialized already, not at all |
| SerializerImages.NothingStaysRecorded | sentry_sdk/serializer.py:76-90 | After a call no object is recorded that was not before, and the call's own is not; a visit to an object being serialized removes exactly that object |
| SerializerImages.NodeImage | sentry_sdk/serializer.py:188-382 | Without cycles and empty keys a call yields the image of its object, a function of the objects, the path and whether reprs are shown, and leaves the memo as it was |
| SerializerImages.EveryCallHasImage | sentry_sdk/serializer.py:188-382 | In the run of an event without cycles and empty keys every call yields the image of its object, whatever came before it |
| SerializerImages.EventHasImage | sentry_sdk/serializer.py:385-424 | Such an event comes out as its image |
| SerializerImages.DictOfDistinct | sentry_sdk/serializer.py:331-332 | Children with different keys come out under these keys, in order |
| SerializerImages.PlainEventIsKept | sentry_sdk/serializer.py:385-424 | Outside stack variables, an event of mappings with readable, different keys, sequences, finite scalars and texts within the limit, with databags within depth five and breadth ten, comes out as itself, and nothing is annotated |
| SerializerImages.NumberIsKept | sentry_sdk/serializer.py:283-290 | The number in `{"n": 5}` comes out as that number and not as text |
| SpanBatcher.SpanBatcher.Add | sentry_sdk/_span_batcher.py:112-154 | A span is refused exactly on re-entry or without a flusher, and then changes nothing; otherwise it is lost if and only if its trace has 2000 spans buffered, and then changes nothing either; otherwise it ends its trace's bucket, no other bucket changes, and the flusher is woken exactly for a segment span, 1000 spans or 5 MiB |
| SpanBatcher.SpanBatcher.EnsureThread | sentry_sdk/_batcher.py:63-93 | Starts the flusher once; if the interpreter cannot start threads the batcher stops for good |
| SpanBatcher.SpanBatcher.Kill | sentry_sdk/_batcher.py:140-146 | Stops the batcher only if it has a flusher |
| SpanBatcher.SpanBatcher.EstimateSize | sentry_sdk/_span_batcher.py:157-170 | The loop computes 210, plus 50 for every attribute, plus the lengths of their texts |
| SpanBatcher.EstimateIs | sentry_sdk/_span_batcher.py:157-170 | Adding up attribute by attribute gives the closed form |
| SpanBatcher.ChunkAt | sentry_sdk/_span_batcher.py:205-238 | Chunk k holds the spans from 1000 k on |
| SpanBatcher.SpanBatcher.Flush | sentry_sdk/_span_batcher.py:185-241 | The locked half takes the pending buckets, or all of them, each once, and turns exactly these into envelopes |
| SpanBatcher.SpanBatcher.EnvelopesOf | sentry_sdk/_span_batcher.py:205-238 | The inner loop cuts a bucket into envelopes: number k holds the spans from 1000 k on, 1000 of them unless it is the last, and counts them |
| SpanBatcherRuns.AddKeepsIndex | sentry_sdk/_span_batcher.py:127-154 | After `add` a trace is pending if and only if its bucket has a segment span, 1000 spans or 5 MiB; sizes are sums of estimates; no bucket has more than 2000 spans |
| SpanBatcherRuns.OfferedSpan | sentry_sdk/_span_batcher.py:127-154 | In every run, a span offered is lost if and only if its trace has 2000 spans buffered, and then nothing changes; otherwise it ends its bucket; no other trace is touched, and no envelope |
| SpanBatcherRuns.NotifiedWhenDueIff | sentry_sdk/_span_batcher.py:141-151 | The flusher is woken for the span itself, the count or the size; that is, if and only if the trace is due after the call, exactly when no earlier segment span waits in its bucket or the new span is urgent itself; a due trace is pending in any case |
| SpanBatcherRuns.FlushRemovesBuckets | sentry_sdk/_span_batcher.py:200-241 | A flush removes the listed buckets whole and leaves the others as they were |
| SpanBatcherRuns.FlushKeepsIndex | sentry_sdk/_span_batcher.py:185-241 | Flushing the pending buckets, or all, keeps the index exact: nothing due is left behind |
| SpanBatcherRuns.ChunksCover | sentry_sdk/_span_batcher.py:205-238 | A bucket's envelopes concatenate back to it, each with 1 to 1000 spans of that one trace and a matching `item_count` |
| SpanBatcherRuns.FlushMovesBuckets | sentry_sdk/_span_batcher.py:200-241 | Per trace, what a flush puts in envelopes followed by what it leaves is what was buffered |
| SpanBatcherRuns.StepConserves | sentry_sdk/_span_batcher.py:112-244 | Every section of every thread keeps the conservation law below |
| SpanBatcherRuns.EveryRunConserves | sentry_sdk/_span_batcher.py:112-244 | In every state of every interleaving: per trace the accepted spans, in order, are those in envelopes followed by those buffered, every envelope is captured or in flight exactly once, envelopes are well formed and the index is exact |
| Queue.Queue.Put | sentry_sdk/_queue.py:191-221 | Puts if and only if there is room, fails or waits exactly as block and timeout say, and counts one more unfinished task |
| Queue.Queue.Get | sentry_sdk/_queue.py:223-252 | Takes the oldest item if there is one, fails or waits exactly as block and timeout say, and leaves the counter alone |
| Queue.Queue.TaskDone | sentry_sdk/_queue.py:126-146 | Counts down, notifies exactly at zero, and raises without a change if there was nothing to finish |
| Queue.Queue.TimedJoin | sentry_sdk/worker.py:69-84 | True exactly when nothing is unfinished at that instant, false exactly when something is and the deadline has passed |
| Worker.BackgroundWorker.Start | sentry_sdk/worker.py:86-100 | A second thread is started only when the known one is gone; a failed start forgets the thread |
| Worker.BackgroundWorker.Kill | sentry_sdk/worker.py:102-116 | Queues one sentinel if a thread is known and there is room, and forgets the thread either way |
| Worker.BackgroundWorker.Submit | sentry_sdk/worker.py:140-146 | Accepts if and only if the queue has room, with a thread started if need be |
| Worker.BackgroundWorker.Take | sentry_sdk/worker.py:148-150 | A consumer takes the oldest job, sentinel or callback |
| Worker.BackgroundWorker.Finish | sentry_sdk/worker.py:151-160 | A round ends with `task_done` in any case; a sentinel ends the thread, a callback only if it raises past `except Exception` |
| WorkerRuns.StepKeepsQueue | sentry_sdk/_queue.py:126-252 | Every step keeps: unfinished equals queued plus taken but not finished, the bound is respected, takes followed by the queue are the puts, taken jobs are finished or in hand; and `task_done` does not raise |
| WorkerRuns.StepKeepsPayment | sentry_sdk/worker.py:86-160 | Every step keeps: sentinels and the known thread are paid for by started threads that have not consumed one, restarts after kill and failed kills included |
| WorkerRuns.EveryStateIsOk | sentry_sdk/worker.py:69-160 | Both laws hold in every state of every interleaving, and no possible next step makes `task_done` raise |
| WorkerRuns.JoinedMeansAllFinished | sentry_sdk/worker.py:69-84 | Nothing is unfinished if and only if every item ever put has been taken and has finished |
| WorkerRuns.StepKeepsEndings | sentry_sdk/worker.py:147-164 | Every step keeps: ended threads are the sentinels finished, crashed ones the fatal callbacks finished, and every thread is live, ended or crashed |
| WorkerRuns.LiveThreadsAreStartedMinusEnded | sentry_sdk/worker.py:147-164 | In every run the live threads are the threads started, less the sentinels and the fatal callbacks finished |
| WorkerRuns.DeadStayDead | sentry_sdk/worker.py:152-153 | A thread that has finished a sentinel or a fatal callback is never live again |
| WorkerRuns.FatalCallbackStrandsSentinel | sentry_sdk/worker.py:148-160 | A concrete run in which a callback kills its thread and `kill` then queues a sentinel that no thread is left to take |
| WorkerRuns.EnoughThreadsIffNoFatalCallback | sentry_sdk/worker.py:86-160 | Sentinels queued or in hand never exceed live threads, in any run, if and only if no callback may raise past `except Exception` |
| JsonTheorems.StringRoundTripIffNoPairs | sentry_sdk/utils.py:121-123 | A string is read back unchanged if and only if it has no high surrogate followed by a low one |
| JsonTheorems.PairBecomesOne | sentry_sdk/utils.py:121-123 | Two surrogate code points in a row come back as one character |
| JsonTheorems.ParseOfPrint | sentry_sdk/envelope.py:15-19 | Parsing printed JSON gives the value back and stops right behind it |
| JsonTheorems.LoadsOfPrint | sentry_sdk/envelope.py:15-19 | Loading a dumped value gives it back, also with the line end that framing adds |
| JsonTheorems.PrintIsPrintable | sentry_sdk/utils.py:121-123 | Dumped JSON is printable ASCII, so it has no raw line end (section 7 of RFC 8259) |
| JsonTheorems.ShortEscapes | sentry_sdk/utils.py:121-123 | Quotes, backslashes and five control characters have the short escapes of section 7 of RFC 8259 |
| JsonTheorems.LongEscapes | sentry_sdk/utils.py:121-123 | Other characters that are not printable ASCII are escaped by number in lower-case hexadecimal, past FFFF as a surrogate pair |
| JsonTheorems.ListsAreSpelled | sentry_sdk/utils.py:121-123 | Lists are compact: brackets and commas without white space |
| JsonTheorems.ObjectsAreSpelled | sentry_sdk/utils.py:121-123 | Objects are compact: braces and colons without white space |
| Envelope.Stream.ReadLine | sentry_sdk/envelope.py:142 | Reads up to and including the first line end, or everything |
| Envelope.PayloadRef.GetBytes | sentry_sdk/envelope.py:173-181 | Caching the serialized JSON never changes the content |
| Envelope.Item.constructor | sentry_sdk/envelope.py:201-230 | The headers are those given, overridden by file name, type and content type, the last inferred if missing |
| Envelope.Item.SerializeInto | sentry_sdk/envelope.py:287-297 | Appends the framed item to the stream and leaves its content as it was |
| Envelope.Item.DeserializeFrom | sentry_sdk/envelope.py:304-325 | Reads one item, or the end, or fails, as the byte format says, and leaves the cursor behind it |
| Envelope.Item.ReadPayloadFrom | sentry_sdk/envelope.py:313-320 | With a length header reads that many bytes, newlines included; without one reads a line |
| Envelope.Envelope.SerializeInto | sentry_sdk/envelope.py:123-130 | Appends header line and items in order, also when items share a payload |
| Envelope.Envelope.DeserializeFrom | sentry_sdk/envelope.py:137-149 | The reading loop ends and collects exactly the items the byte format says, or fails where it says |
| EnvelopeTheorems.ParseOfDumps | sentry_sdk/envelope.py:15-19 | A header line is parsed back to the headers, also with its line end |
| EnvelopeTheorems.LengthHeader | sentry_sdk/envelope.py:291-293 | Adding the length changes no other header and adding it again changes nothing |
| EnvelopeTheorems.PayloadReadBack | sentry_sdk/envelope.py:313-316 | Any payload, empty or with newlines, is read back whole, and reading goes on right behind it |
| EnvelopeTheorems.ItemReadBack | sentry_sdk/envelope.py:287-325 | What any written item is read back as, events with unparsable payloads included |
| EnvelopeTheorems.NewItemIsFramable | sentry_sdk/envelope.py:201-230 | Every item the constructor makes from JSON-able headers satisfies what the round trip asks, and has the type, file name and content type it was given |
| EnvelopeTheorems.ItemRoundTrip | sentry_sdk/envelope.py:287-325 | Reading a written item gives back its payload and its headers, which have gained only the length |
| EnvelopeTheorems.ItemsRoundTrip | sentry_sdk/envelope.py:137-149 | The same for any number of items, in order |
| EnvelopeTheorems.EnvelopeRoundTrip | sentry_sdk/envelope.py:123-156 | Reading a written envelope gives back headers and items, and writing what was read gives identical bytes |
| EnvelopeTheorems.LengthlessItem | sentry_sdk/envelope.py:318-320 | Without a length header the payload is the rest of the line, with or without a line end after it |
| EnvelopeTheorems.ParsedTypes | sentry_sdk/envelope.py:321-324 | Exactly events and transactions have their payload parsed as JSON when they are read; all others keep their bytes |
| EnvelopeTheorems.NullEventComesBackEmpty | sentry_sdk/envelope.py:321-322 | An event item written with the JSON of any value is read back, and its payload comes back if and only if that value is not null |
| Baggage.Baggage.FromIncomingHeader | sentry_sdk/tracing_utils.py:767-800 | The loop over members splits sentry items from third-party members and freezes the baggage exactly as the header grammar says |
| Baggage.Baggage.Serialize | sentry_sdk/tracing_utils.py:956-967 | Joins the encodable items in order, with the third-party members last if asked for |
| Baggage.HeaderMap.AddSentryBaggage | sentry_sdk/tracing_utils.py:1615-1631 | Changes the baggage header to the third-party members followed by the new baggage, and no other header |
| BaggageTheorems.UnquoteInvertsQuote | sentry_sdk/tracing_utils.py:961 | Percent-decoding inverts percent-encoding for every encodable text (section 2.1 of RFC 3986) |
| BaggageTheorems.KeyReadBack | sentry_sdk/tracing_utils.py:788 | A printed key is read back up to its first hyphen |
| BaggageTheorems.MemberReadBack | sentry_sdk/tracing_utils.py:782-792 | A printed member is read back as one sentry item with its key up to the first hyphen and its value unchanged |
| BaggageTheorems.ParsedIsReadBack | sentry_sdk/tracing_utils.py:767-967 | What comes back from any printed dictionary: its encodable items, with keys cut at hyphens, and no third-party members |
| BaggageTheorems.ForeignMembersAreKept | sentry_sdk/tracing_utils.py:780-794 | Members that are not sentry items, and not empty, are kept as they are, in order; a sentry item freezes the baggage and nothing else does |
| BaggageTheorems.ThirdPartyOfHeader | sentry_sdk/tracing_utils.py:767-800 | The same for a whole header |
| BaggageTheorems.SentryMeans | sentry_sdk/tracing_utils.py:970-981 | Sentry's members are exactly those that start with `sentry-` once stripped |
| BaggageTheorems.ParseInvertsPrint | sentry_sdk/tracing_utils.py:767-967 | All sentry items are recovered if and only if no key has a hyphen and every key and value can be encoded |
| BaggageTheorems.HyphenCutsKey | sentry_sdk/tracing_utils.py:788 | The item `a-b` comes back as `a` |
| BaggageTheorems.PrintedIsAllSentry | sentry_sdk/tracing_utils.py:956-981 | Printed baggage is empty exactly if nothing can be encoded, and otherwise has only sentry members |
| BaggageTheorems.MembersOfAdded | sentry_sdk/tracing_utils.py:1624-1631 | The members of the new header are the third-party members in order followed by the members of the baggage |
| BaggageTheorems.AddingKeepsThirdParty | sentry_sdk/tracing_utils.py:1615-1631 | Adding replaces the sentry members; it keeps the third-party members, in order, if and only if they are not just one empty member |
| BaggageTheorems.EmptyMemberDisappears | sentry_sdk/tracing_utils.py:1624-1631 | The header `sentry-a=1,` loses its only third-party member, an empty one |
| BaggageTheorems.AddingIsIdempotent | sentry_sdk/tracing_utils.py:1615-1631 | Adding the same baggage twice is adding it once |
| Transport.HttpTransport.RecordLost | sentry_sdk/transport.py:282-331 | Without client reports nothing is counted; with them, reported plus pending stays equal to recorded for every category and reason |
| Transport.HttpTransport.RecordLostItem | sentry_sdk/transport.py:293-331 | Losing an item costs its own category by count or bytes, and its spans or bytes beside it; if its bytes are to be counted and cannot be had, it raises and costs nothing |
| Transport.HttpTransport.RecordLostEvent | sentry_sdk/transport.py:282-331 | A loss recorded without an item is counted once and kept apart from what items cost |
| Transport.HttpTransport.FetchReport | sentry_sdk/transport.py:433-463 | A report takes all pending counts, exactly once, and is made only if forced or due and there is something to report |
| Transport.HttpTransport.UpdateRateLimits | sentry_sdk/transport.py:338-361 | Limits from the header win, those read before an exception included; a bare 429 disables everything for the retry time or a minute; anything else changes nothing |
| Transport.HttpTransport.HandleOutcome | sentry_sdk/transport.py:363-417 | Charges every item of the envelope for a failed request and none for a 2xx or 429, and none if reading the headers raises |
| Transport.HttpTransport.LoseItems | sentry_sdk/transport.py:369-377 | Items are charged in order, once each, up to the first one that cannot be charged |
| Transport.HttpTransport.LoseDumped | sentry_sdk/transport.py:363-377 | Items that have been serialized are all charged |
| Transport.HttpTransport.DropOverQuota | sentry_sdk/transport.py:483-497 | Items of a disabled category are charged under `ratelimit_backoff` and the others kept, in order, up to the first one that cannot be charged |
| Transport.HttpTransport.ChargeOverQuota | sentry_sdk/transport.py:483-497 | The same with the books: what was charged has its fate, what was kept or not reached is still in hand |
| Transport.HttpTransport.AttachReport | sentry_sdk/transport.py:499-511 | A due report goes last into the envelope, with all pending counts |
| Transport.HttpTransport.Send | sentry_sdk/transport.py:499-694 | The kept items and the report share the fate of the request, or all vanish if one of them cannot be dumped |
| Transport.HttpTransport.SendEnvelope | sentry_sdk/transport.py:661-694 | Every item of the envelope gets the fate that `SendFates` gives it, the books stay balanced, and an exception is passed on exactly in the cases named there |
| Transport.HttpTransport.CaptureEnvelope | sentry_sdk/transport.py:704-716 | Every item is queued, or, exactly if the queue is full, charged under `queue_overflow` up to the first one that cannot be charged |
| Transport.HttpTransport.FlushClientReports | sentry_sdk/transport.py:699-702 | A due report is captured like any envelope: queued with all pending counts, or charged |
| Transport.HttpTransport.RunNext | sentry_sdk/transport.py:708-711 | One job of the worker: over any sequence of these calls reported plus pending equals recorded, recorded equals what items suffered plus direct losses, and every item has one fate or is queued; a job that raises flushes no report |
| Transport.NothingSentVanishesIff | sentry_sdk/transport.py:483-694 | Every item of a sent envelope is delivered or charged if and only if the items over quota can be charged, the others dumped, and, if there are any, the headers of an error response read |
| Transport.LimitsDecide | sentry_sdk/transport.py:465-494 | An item that can be dumped is charged under `ratelimit_backoff` if and only if the limits hold a later time for its category or for all, and otherwise shares the fate of the request |
| Transport.LastEntryCounts | sentry_sdk/transport.py:338-346 | After limits are read, each category named has the time of its last entry |
| Transport.OthersKeepLimits | sentry_sdk/transport.py:338-346 | Categories that are not named keep what they had |
| Transport.LimitedUntil | sentry_sdk/transport.py:338-494 | After a header whose last entry for a category is t, an item of that category sent before t is charged under `ratelimit_backoff` |
| Transport.NothingLostVanishesIff | sentry_sdk/transport.py:704-716 | Every lost item is charged if and only if the logs, metrics and attachments among them can be dumped; each has one fate either way |
| Transport.EveryItemHasOneFate | sentry_sdk/transport.py:483-694 | The fates of a sent envelope are one for each of its items, and one for an attached report |
| Transport.ReportSharesFate | sentry_sdk/transport.py:499-513 | An attached client report, with all counts in it, vanishes exactly when a kept item cannot be dumped or the request's items vanish |
| Transport.NanMetricVanishes | sentry_sdk/transport.py:312-325 | One NaN or infinity among the metrics of an item makes it vanish uncharged when it is sent, over quota or refused by a full queue; finite metrics are delivered or charged |
| Transport.OverOrNot | sentry_sdk/transport.py:483-494 | Every item of an envelope is over quota or kept, and not both |
| Transport.ChargesConcat | sentry_sdk/transport.py:282-331 | Charges and fates of two series of items add up |
| SpanLoss.SpanRecorder.Add | sentry_sdk/tracing.py:217-222 | The recorder never exceeds its limit; a span is kept or counted as dropped |
| SpanLoss.Transaction.StartChild | sentry_sdk/tracing.py:460-473 | Child spans started equal spans recorded plus spans counted as dropped |
| SpanLoss.Transaction.Finish | sentry_sdk/tracing.py:1021-1101 | Spans of the event plus its `_dropped_spans` equal the child spans started; unfinished spans count as dropped |
| SpanLoss.FinishedAre | sentry_sdk/tracing.py:1055-1070 | The event holds exactly the finished spans, each as often as it was recorded |
| SpanLoss.PrepareEvent | sentry_sdk/client.py:811-1020 | Losses are recorded in the order and under the reasons of the processor, the recorder and the callback |
| SpanLoss.ChargedUnder | sentry_sdk/client.py:811-1020 | How much each reason is charged, in spans and in transactions, for everything processor and callback may do, and what is sent |
| SpanLoss.LossesAreReal | sentry_sdk/client.py:811-1020 | No loss of nothing is recorded |
| SpanLoss.PrepareConserves | sentry_sdk/client.py:811-1020 | If processors and callbacks only remove spans, spans sent plus losses are the spans started; a callback's drop adds exactly one for the transaction; a processor's drop forgets what the recorder had dropped |
| SpanLoss.ProcessorDropIsExactIffNothingDroppedBefore | sentry_sdk/client.py:816-828 | A transaction dropped by an event processor is fully charged if and only if nothing had been dropped from it before |
| SpanLoss.ForgottenSpan | sentry_sdk/client.py:816-828 | One span dropped by the recorder and then the transaction by a processor: one loss is recorded where two spans were lost |
| SpanLoss.SplitGenAiSpans | sentry_sdk/client.py:275-301 | Splits spans by kind, keeping the order of each |
| SpanLoss.SplitLosesNothing | sentry_sdk/client.py:275-301 | The two parts together hold every span exactly once |
| SpanLoss.OfKindAre | sentry_sdk/client.py:275-301 | Each part holds exactly the spans of its kind |
| SpanLoss.RunTransaction | sentry_sdk/client.py:811-1020 | From first child to envelope, however it ends: spans in the transaction item plus spans in the span item plus losses equal the child spans started; a drop by the callback adds one; a drop by a processor or for its status adds one and forgets exactly the spans dropped before |
| Sessions.Session.UpdateFromEvent | sentry_sdk/client.py:1115-1150 | An open session is crashed if and only if some event had an unhandled exception, and its errors count the events with an exception |
| Sessions.Session.Update | sentry_sdk/session.py:116-121 | Replaces status and errors only where a value is given |
| Sessions.Session.Close | sentry_sdk/session.py:123-130 | A session that is still ok exits; any other status stays unless one is given |
| Sessions.BucketOfClosedSession | sentry_sdk/sessions.py:241-248 | A closed session counts as crashed iff some event had an unhandled exception, as errored iff none had but some had an exception, as exited iff none had any |
| Sessions.MinuteHolds | sentry_sdk/session.py:13-14 | A session starts within the minute it is counted in, which is a whole minute |
| Sessions.RunSession | sentry_sdk/client.py:1115-1150 | The same for a whole request session: opened, fed any events, closed |
| Sessions.SessionFlusher.AddAggregateSession | sentry_sdk/sessions.py:219-248 | For every attribute set and minute, the four counters are the tally of the sessions added since the last flush, and all counters of all buckets together are their number |
| Sessions.CountersSumToSessions | sentry_sdk/sessions.py:231-248 | The counters of a bucket sum to the sessions that belong to it |
| Sessions.CountersByKind | sentry_sdk/sessions.py:231-248 | Of the sessions that started in the minute with the attributes, `crashed` counts those with that status, `abnormal` those with that one, `errored` the others with errors, `exited` the rest |
| Sessions.TotalAfterSession | sentry_sdk/sessions.py:231-248 | Counting a session, in a new bucket or an old one, adds exactly one to the total of all buckets |
| Sessions.SessionFlusher.AddSession | sentry_sdk/sessions.py:250-258 | Request sessions are aggregated, all others kept one by one |
| Sessions.SessionFlusher.Flush | sentry_sdk/sessions.py:158-182 | Envelopes of 1 to 100 items, all but the last full, concatenate to the pending sessions followed by the aggregates, and stand for every session added since the last flush |
| Sessions.SessionFlusher.AddItem | sentry_sdk/sessions.py:166-177 | A full envelope is captured before the next item goes into a new one, so no item is lost or reordered |
| Sampling.GenerateSampleRand | sentry_sdk/tracing_utils.py:1267-1295 | Refuses exactly the empty intervals; otherwise a number of millionths from the scaled range, or its lower end if that range is empty |
| Sampling.DrawnIsInRange | sentry_sdk/tracing_utils.py:1283-1295 | The number has six decimals, lies strictly below the upper bound and less than a millionth below the lower one |
| Sampling.NeverBelowIffSixDecimals | sentry_sdk/tracing_utils.py:1274-1295 | No draw falls below the lower bound if and only if that bound has six decimals |
| Sampling.DrawBelowLower | sentry_sdk/tracing_utils.py:1274-1295 | With a lower bound of 0.0000005 the number 0 can be drawn |
| Sampling.BackfillRepeatsParentDecision | sentry_sdk/tracing_utils.py:1298-1311 | A backfilled number repeats the parent's decision at the parent's rate, for every draw, if and only if the parent was sampled or the rate has six decimals |
| Sampling.FillSampleRand | sentry_sdk/tracing_utils.py:681-726 | A usable number is kept; otherwise one is drawn from the range the parent's decision leaves, and repeats that decision unless the parent was unsampled at a rate with more than six decimals; an empty range changes nothing |
| Sampling.DecisionByInterval | sentry_sdk/tracing_utils.py:1709-1754 | For a positive rate: sampled iff the number is below rate/2^factor, unsampled for backpressure iff it is in [rate/2^factor, rate), and for the rate iff it is not below the rate |
| Sampling.RaisingFactorOnlyRemoves | sentry_sdk/tracing_utils.py:1717-1747 | A higher downsample factor only removes samples, and what it removes is put down to backpressure |
| Sampling.ParentDecides | sentry_sdk/tracing_utils.py:1692-1754 | Without a sampler an unsampled parent is never overruled, and a sampled one only by backpressure |
| Sampling.RateThatCounts | sentry_sdk/tracing_utils.py:1652-1754 | The sampler's rate counts before the parent's decision and that before the configured rate; the number in the baggage before a generated one; sampled is what lies below the rate halved `factor` times; bad rates, a raising sampler and no tracing have outcomes of their own |
| Sampling.Monitor.Run | sentry_sdk/monitor.py:101-126 | The factor is the number of unhealthy checks in a row, up to ten: a healthy check resets it, an unhealthy one adds one |
| Sampling.UnhealthyInARowIs | sentry_sdk/monitor.py:105-118 | That many of the latest checks failed, and the one before them did not |
| LruCache.LRUCache.Set | sentry_sdk/_lru_cache.py:19-28 | After any history the cache holds exactly the most recently touched keys, in recency order with their last values, and is full exactly at its size |
| LruCache.LRUCache.Get | sentry_sdk/_lru_cache.py:30-40 | A hit is a touch and returns the last value; a miss changes nothing; hits plus misses are the gets |
| LruCache.LRUCache.GetAll | sentry_sdk/_lru_cache.py:42-43 | Lists what the history says, oldest touch first |
| LruCache.RecencyIsOrderOfLastTouch | sentry_sdk/_lru_cache.py:19-40 | The recency list holds exactly the touched keys, ordered by their last touch, each with that touch's value |
| LruCache.ExpectedIsLatest | sentry_sdk/_lru_cache.py:19-28 | The cache holds the last n keys of the recency list, in order |
| LruCache.HitIsAmongLatest | sentry_sdk/_lru_cache.py:30-40 | A get hits with a value if and only if the key with that value is among the n latest |
| LruCache.HitIsLastValue | sentry_sdk/_lru_cache.py:30-40 | The value of a hit is the one last set for its key |
| LruCache.TouchLatest | sentry_sdk/_lru_cache.py:19-28 | Touching the latest n keys gives the latest n keys after the touch: evicting the oldest is all the cache has to remember |
| LruCache.ExpectedAfterSet | sentry_sdk/_lru_cache.py:19-28 | One `set` moves the expected content by one touch and never beyond the size |
| LruCache.ExpectedAfterGet | sentry_sdk/_lru_cache.py:30-40 | One `get` moves the expected content by one touch if it hits and by nothing if it misses, and keeps its size |
| LruCache.LatestIsDistinct | sentry_sdk/_lru_cache.py:19-40 | No key is in the cache twice |

## Left out

- Serializer.Serializer.Annotate: the values of an annotation are not dictionaries; metadata of an `AnnotatedValue` that holds dictionaries would be shared with the tree.
- Serializer.Serialize: the `_meta` entry is a second result, so an event that itself has the key `_meta` is not distinguished.
- SerializerTheorems.AcyclicNeverHitsRecursionLimit: nothing is claimed for cyclic values outside databags; leaving a hit forgets the object, so only the recursion limit is sure to end those walks.
- SerializerSpec: a frame is one call of `_serialize_node`; where inside a call the interpreter runs out of stack is not modelled.
- Sessions.Session.Update: status and errors only; user, user agent, address, duration and timestamps are not part of this model.
- Sampling.GenerateSampleRand: the seeded generator is any function into the range; floats are real numbers, so rounding and NaN are not modelled.
- SpanBatcher.SpanBatcher.Flush: the order of the buckets in a full flush is any order, not the insertion order of the dictionary; formatting spans and reading the sampling context never fail.
- Envelope.Envelope.DeserializeFrom: a header line that is a list of pairs is refused, where Python makes a dictionary of it.
- Envelope.PayloadRef.GetBytes: payloads read from files (`PayloadRef.path`), and content types guessed from their names.
- Json: fractions, exponents and NaN.
- Queue and Worker: wait loops are rounds under the mutex with the remaining time as a parameter; clocks, thread scheduling, `sleep` and fork handlers are the steps' nondeterminism.
- Transport: sequential use; how limits are read from headers, except that it may raise; envelope headers, which can always be dumped; compression, connection pools and the asynchronous transport and worker.
- Sessions: flushing and adding are atomic; the swap of `pending_sessions` without a lock is not modelled.
- Serializer.Serializer.SerializeLeaf: `__sentry_repr__`, custom reprs and global repr processors are absent; how dates and bytes are turned into text is a parameter.
- The batchers for logs and metrics, which have one bucket and no index.
- The text form of `sample_rand` and of the sample rate in baggage; the model has their values.
- The `previous_total_spans` metadata value, which is not the conserved quantity.
- Stack frame trimming, scope merging, the scrubber, integrations, crons and release scripts.
