# Verified models of the core programs

A Dafny 4.11 project that models the hardest parts of a repository of small C and C++ programs and proves what they
are for. `dafny verify dfyconfig.toml` checks all of it.

| component | files | main results |
|---|---|---|
| parallel sample sort | `SortSpec`, `SampleSort` | sorted output for every interleaving of the threads |
| JSON writer and minifier | `Json`, `JsonWriter`, `JsonRoundTrip`, `JsonLayout`, `JsonMinifier`, `JsonMinifierLaw` | written text reads back (RFC 8259) and is laid out right; exactly when minified pretty text is the compressed text |
| HTTP request parsing | `HttpLine`, `HttpHeaders`, `HttpHeaderLanguage`, `HttpPieces`, `HttpRequest`, `Webbench` | exact languages of both machines, when a request in pieces and across the ring's end is read whole, round trip with webbench (RFC 9112) |
| priority queue and timers | `PriorityQueue`, `Timer` | heap order, amortised resizing, accounts of timers over any run |
| header list | `HeaderList` | a doubly linked ring walked while it is being unlinked |
| FTP client and server | `FtpProtocol` | every reply read as what it is, every command done, progress, over all interleavings (RFC 959 reply codes) |
| 2048 | `GameLine`, `GameBoard`, `Game2048` | run-long invariants of board, score and win test |
| buffered reader | `Rio` | agreement with the raw stream under short reads and interruptions |
| broadcast server | `Broadcast` | slot table invariant and accounts over any run, every message delivered as often as it is said |

How the source's forms are kept: code that changes things in place is a class or a method over arrays, proved
against a function of the old state, and the laws are lemmas about that function. Threads and processes are step
machines; a schedule is an arbitrary sequence of turns. What the outside decides (read, write, clock, keys, random
numbers) is an arbitrary answer, a parameter or a nondeterministic choice.

Where the code and what is said about it differ, the code is followed:

- The heap comment says sink takes the larger child; it takes the lesser one (priority_queue.c:97-101).
- `isAllClientsClosed` returns 1 when a client is left (server.c:203-212).
- moveLeft merges only physically adjacent tiles (game.c:268-272); `GameLine.LeftSlidesIff` says exactly when that
  makes a difference.
- The comparator of the sort subtracts ints (multi_thread_bucket_sort_new.c:32-34);
  `SampleSort.CompareIsOrderIffDifferenceFits` says exactly when that is an order.
- The return value of `rio_read_line_b` is the number of bytes stored when the line ends with its newline or the
  stream is empty, and one more otherwise, also for a last line without newline (rio.c:142-172);
  `Rio.Reader.ReadLine` says exactly when.
- The request machines are meant to go on where they stopped (http_parse.c:34-37), and do; but a call that fails
  leaves position and state as they were before it, so these depend on the pieces (`HttpLine.AnyPiecesOneLine`). And
  do_request runs the line machine again after a read that ended in the headers, in the state the header machine saved
  (http.c:83-99): `HttpPieces.RequestInPieces` says exactly which requests survive their pieces.
- Saved headers are pairs of plain pointers into a ring: `HttpHeaders.FieldFromRing` says exactly which keys and values
  they stand for.
- The minifier is meant to leave strings alone, but counts an escaped quotation mark as the end of one
  (getStringSecond.c:61-66); `JsonMinifierLaw.MinifiedIsCompressedIff` says exactly which trees survive that.

## Model

| member | source | states |
|---|---|---|
| `SampleSort.SortInParallel` | multi_thread_sort/multi_thread_bucket_sort/multi_thread_bucket_sort_new.c:174-254 | for every array of values 0..999999999, every k from 2 to 32 with k*k elements at least, and every interleaving of the k threads, the result array is the ascending permutation of the input |
| `SampleSort.SortWithSplitters` | multi_thread_sort/multi_thread_bucket_sort/multi_thread_bucket_sort_new.c:204-254 | the same from any ascending in-range splitters, repeated ones included |
| `SampleSort.RunThreads` | multi_thread_sort/multi_thread_bucket_sort/multi_thread_bucket_sort_new.c:248-254 | threads scheduled in any order, one step of one thread at a time, all finish and leave the sorted input |
| `SampleSort.EveryInterleavingSorts` | multi_thread_sort/multi_thread_bucket_sort/multi_thread_bucket_sort_new.c:36-60 | for every schedule: the invariant holds after it, and if all threads are done the shared array is the sorted input |
| `SampleSort.AnyStepKeepsInv` | multi_thread_sort/multi_thread_bucket_sort/multi_thread_bucket_sort_new.c:36-60 | whichever thread moves next, its access is in bounds and the invariant of every thread survives |
| `SampleSort.StepKeepsOwn` | multi_thread_sort/multi_thread_bucket_sort/multi_thread_bucket_sort_new.c:43-56 | a step of a thread writes only inside that thread's own segment, and keeps what that thread knows |
| `SampleSort.OthersUndisturbed` | multi_thread_sort/multi_thread_bucket_sort/multi_thread_bucket_sort_new.c:53-56 | a write in one segment leaves the invariant of every other thread true: the segments are disjoint |
| `SampleSort.TurnsRunOut` | multi_thread_sort/multi_thread_bucket_sort/multi_thread_bucket_sort_new.c:43-56 | each turn of an unfinished thread uses up one of finitely many steps, so no interleaving runs for ever |
| `SampleSort.DoneMeansSorted` | multi_thread_sort/multi_thread_bucket_sort/multi_thread_bucket_sort_new.c:252-254 | when all threads are done the concatenated segments are the whole sorted input |
| `SampleSort.SegmentsAreTheSortedInput` | multi_thread_sort/multi_thread_bucket_sort/multi_thread_bucket_sort_new.c:141-171 | the sorted buckets laid end to end are the sorted input and their offsets end at the length, repeated splitters or not |
| `SampleSort.FirstSplitterIsTheSelector` | multi_thread_sort/multi_thread_bucket_sort/multi_thread_bucket_sort_new.c:44-44 | the bucket the counting loop chooses for a value is the one thread whose selection test takes it, and no other |
| `SampleSort.CountElementsEachBucket` | multi_thread_sort/multi_thread_bucket_sort/multi_thread_bucket_sort_new.c:141-163 | each counter is the number of elements the thread of that number will select |
| `SampleSort.FindArrBoundInSorted` | multi_thread_sort/multi_thread_bucket_sort/multi_thread_bucket_sort_new.c:165-171 | bound b is the sum of the counters before b |
| `SampleSort.PrefixSumIsOffset` | multi_thread_sort/multi_thread_bucket_sort/multi_thread_bucket_sort_new.c:165-171 | with correct counters the bounds are the offsets of the segments in the sorted result |
| `SampleSort.MakeParam` | multi_thread_sort/multi_thread_bucket_sort/multi_thread_bucket_sort_new.c:219-245 | thread i gets the segment, the count and the two cut values of bucket i, the outer buckets the infinities |
| `SampleSort.CreateThreads` | multi_thread_sort/multi_thread_bucket_sort/multi_thread_bucket_sort_new.c:218-250 | the threads start in the states the interleaving theorem begins with |
| `SampleSort.StepThread` | multi_thread_sort/multi_thread_bucket_sort/multi_thread_bucket_sort_new.c:36-60 | one step on the shared array is the step function of the thread machine |
| `SampleSort.FindSplitters` | multi_thread_sort/multi_thread_bucket_sort/multi_thread_bucket_sort_new.c:105-139 | arr is rearranged block by block, and splitter j is every k-th of the sorted candidates |
| `SampleSort.SortBlocks` | multi_thread_sort/multi_thread_bucket_sort/multi_thread_bucket_sort_new.c:110-117 | the first loop sorts each k-th block in place; what it leaves is the block function of the input |
| `SampleSort.BlockTurn` | multi_thread_sort/multi_thread_bucket_sort/multi_thread_bucket_sort_new.c:110-117 | turn i sorts n / k^2 * k elements from position i on when i is a multiple of k, and nothing else |
| `SampleSort.BlocksSortedPermutes` | multi_thread_sort/multi_thread_bucket_sort/multi_thread_bucket_sort_new.c:110-117 | find_splitters only permutes the input it samples |
| `SampleSort.BlockFits` | multi_thread_sort/multi_thread_bucket_sort/multi_thread_bucket_sort_new.c:112-112 | the branch that shortens the last block is never taken |
| `SampleSort.CollectCandidates` | multi_thread_sort/multi_thread_bucket_sort/multi_thread_bucket_sort_new.c:119-125 | the candidate array holds the candidates, in order |
| `SampleSort.CandidateInBounds` | multi_thread_sort/multi_thread_bucket_sort/multi_thread_bucket_sort_new.c:122-122 | every candidate position is inside the array |
| `SampleSort.AllCandidates` | multi_thread_sort/multi_thread_bucket_sort/multi_thread_bucket_sort_new.c:119-128 | there are exactly k * (k - 1) candidates |
| `SampleSort.CandidateIs` | multi_thread_sort/multi_thread_bucket_sort/multi_thread_bucket_sort_new.c:119-125 | candidate number b * (k - 1) + r - 1 is the value at (b * k + r) * (n / k^2), for every b and every r from 1 to k - 1 |
| `SampleSort.PickSplitters` | multi_thread_sort/multi_thread_bucket_sort/multi_thread_bucket_sort_new.c:131-133 | splitter j is sorted candidate (j + 1) * k - 1 |
| `SampleSort.SplitterEndsItsGroup` | multi_thread_sort/multi_thread_bucket_sort/multi_thread_bucket_sort_new.c:131-133 | of the sorted candidates, k at a time, splitter j is the last of the j-th k: they come up to it, later ones do not come before it |
| `SampleSort.ChosenSplittersValid` | multi_thread_sort/multi_thread_bucket_sort/multi_thread_bucket_sort_new.c:105-139 | the chosen splitters ascend and are in range, whatever the input |
| `SampleSort.CompareIsOrderIffDifferenceFits` | multi_thread_sort/multi_thread_bucket_sort/multi_thread_bucket_sort_new.c:32-34 | with 32-bit wrap-around the comparator is the order of two ints exactly when their difference fits an int |
| `SampleSort.CompareWrapsAround` | multi_thread_sort/multi_thread_bucket_sort/multi_thread_bucket_sort_new.c:32-34 | the least int and 1: the comparator says that the least is the greater |
| `SampleSort.Qsort` | multi_thread_sort/multi_thread_bucket_sort/multi_thread_bucket_sort_new.c:50-50 | what the library promises of qsort with this comparator: the range is sorted, the rest untouched |
| `SampleSort.SegmentsSorted` | multi_thread_sort/multi_thread_bucket_sort/multi_thread_bucket_sort_new.c:50-56 | the first n segments ascend, stay below their cut, and hold exactly the elements selected so far |
| `SortSpec.AscendingUnique` | multi_thread_sort/multi_thread_bucket_sort/multi_thread_bucket_sort_new.c:50-50 | two ascending arrangements of the same values are equal, so the sorted result is unique |
| `SortSpec.SortSeqSorts` | multi_thread_sort/multi_thread_bucket_sort/multi_thread_bucket_sort_new.c:50-50 | the reference result is ascending and a permutation |
| `PriorityQueue.Queue.constructor` | my_server/simple_http_server/version_1/src/priority_queue.c:10-22 | an empty heap with one spare slot |
| `PriorityQueue.Queue.IsEmpty` | my_server/simple_http_server/version_1/src/priority_queue.c:29-31 | not 0 exactly when nothing is stored |
| `PriorityQueue.Queue.Min` | my_server/simple_http_server/version_1/src/priority_queue.c:40-46 | NULL exactly when empty, else a stored item that no stored item precedes |
| `PriorityQueue.Queue.Resize` | my_server/simple_http_server/version_1/src/priority_queue.c:49-69 | fails exactly when too small; otherwise same contents in a new array, and n_alloc + 1 slots copied |
| `PriorityQueue.Queue.Exch` | my_server/simple_http_server/version_1/src/priority_queue.c:72-77 | two slots exchanged, all others kept |
| `PriorityQueue.Queue.Swim` | my_server/simple_http_server/version_1/src/priority_queue.c:79-85 | restores the heap order after an insertion, contents kept |
| `PriorityQueue.Queue.LesserChild` | my_server/simple_http_server/version_1/src/priority_queue.c:95-101 | the child that does not come after its sibling |
| `PriorityQueue.Queue.Sink` | my_server/simple_http_server/version_1/src/priority_queue.c:90-114 | restores the heap order below a slot, contents kept |
| `PriorityQueue.Queue.RemoveRoot` | my_server/simple_http_server/version_1/src/priority_queue.c:122-124 | the heap loses exactly its root |
| `PriorityQueue.Queue.LastToRoot` | my_server/simple_http_server/version_1/src/priority_queue.c:122-123 | the root leaves the contents, and only slot 1 may be out of order |
| `PriorityQueue.Queue.DeleteMin` | my_server/simple_http_server/version_1/src/priority_queue.c:116-133 | never fails; the contents lose exactly the root; the array is halved exactly when at most a quarter is left, and n_alloc + 1 slots copied then |
| `PriorityQueue.Queue.Append` | my_server/simple_http_server/version_1/src/priority_queue.c:142-143 | the heap gains exactly the item |
| `PriorityQueue.Queue.Add` | my_server/simple_http_server/version_1/src/priority_queue.c:135-146 | never fails; the contents gain exactly the item; the array is doubled exactly when it is full, and n_alloc + 1 slots copied then |
| `PriorityQueue.SwimStep` | my_server/simple_http_server/version_1/src/priority_queue.c:79-85 | one exchange with the parent moves the only possible disorder up |
| `PriorityQueue.SinkStep` | my_server/simple_http_server/version_1/src/priority_queue.c:94-111 | one exchange with the least child moves the only possible disorder down |
| `PriorityQueue.SinkStops` | my_server/simple_http_server/version_1/src/priority_queue.c:105-107 | when the least child does not precede the item the heap is in order |
| `PriorityQueue.RootIsLeastElement` | my_server/simple_http_server/version_1/src/priority_queue.c:40-46 | in a heap no stored item precedes slot 1 |
| `PriorityQueue.OneOperationIsCheap` | my_server/simple_http_server/version_1/src/priority_queue.c:116-146 | each insert or delete-min copies at most 8 slots, amortised by a potential, odd sizes included, and n_alloc + 1 <= size stays true |
| `PriorityQueue.ResizingIsAmortised` | my_server/simple_http_server/version_1/src/priority_queue.c:116-146 | over any run of operations at most 8 slots are copied per operation plus the initial potential, and there is always room |
| `PriorityQueue.CopiesFromEmpty` | my_server/simple_http_server/version_1/src/priority_queue.c:10-22 | from an empty queue the copies are at most 8 per operation plus the initial capacity |
| `Timer.RemainingExact` | my_server/simple_http_server/version_1/src/timer.c:64-67 | the unsigned subtraction gives max(0, key - now) exactly when a coming timer is less than 2^31 ms away, or an overdue one is late by at most 2^31 ms modulo 2^32 |
| `Timer.RemainingWrapsAround` | my_server/simple_http_server/version_1/src/timer.c:64-67 | a timer 2^31 ms ahead counts as due, and one overdue by 2^31 + 1 ms as still to come |
| `Timer.EarlierIsStrictWeakOrder` | my_server/simple_http_server/version_1/src/timer.c:16-21 | the comparison of keys is a strict weak order, as the heap needs |
| `Timer.EveryRunIsAccounted` | my_server/simple_http_server/version_1/src/timer.c:43-137 | over any run of add, delete, fire, discard and clock steps every added timer is pending, fired or discarded, and only one of these |
| `Timer.LeavesAtMostOnce` | my_server/simple_http_server/version_1/src/timer.c:43-137 | over any run a timer leaves the heap at most once and is never both fired and discarded |
| `Timer.StepKeepsAccounts` | my_server/simple_http_server/version_1/src/timer.c:43-137 | each step keeps the accounts: fired timers were due and not deleted when fired and had their handler called if they have one, discarded ones were deleted |
| `Timer.TimerQueue.ValidIsAccounted` | my_server/simple_http_server/version_1/src/timer.c:43-137 | whatever methods were called so far, the accounts hold |
| `Timer.TimerQueue.constructor` | my_server/simple_http_server/version_1/src/timer.c:35-41 | an empty queue and the first clock reading |
| `Timer.TimerQueue.TimeUpdate` | my_server/simple_http_server/version_1/src/timer.c:23-33 | the current time becomes the next clock reading |
| `Timer.TimerQueue.MinNode` | my_server/simple_http_server/version_1/src/timer.c:53-53 | NULL exactly when nothing is pending, else a pending timer with a least key |
| `Timer.TimerQueue.NextNode` | my_server/simple_http_server/version_1/src/timer.c:51-54 | one new reading of the clock first, then the foremost timer |
| `Timer.TimerQueue.DropDeleted` | my_server/simple_http_server/version_1/src/timer.c:56-62 | a deleted timer leaves the heap without being fired |
| `Timer.TimerQueue.FireMin` | my_server/simple_http_server/version_1/src/timer.c:99-105 | a due timer is handled once and leaves the heap |
| `Timer.TimerQueue.FindStep` | my_server/simple_http_server/version_1/src/timer.c:48-69 | one turn: done with the least live key, or one deleted timer fewer |
| `Timer.TimerQueue.FindTimer` | my_server/simple_http_server/version_1/src/timer.c:43-72 | -1 exactly when no live timer exists, else the remaining time of a least live key, by a reading of the clock made in the call if the heap was not empty; no live timer is lost |
| `Timer.TimerQueue.ExpireStep` | my_server/simple_http_server/version_1/src/timer.c:80-106 | one turn: nothing due, or one timer fewer, fired ones in key order |
| `Timer.TimerQueue.HandleExpireTimers` | my_server/simple_http_server/version_1/src/timer.c:74-107 | the pass fires in key order and leaves nothing due by a reading of the clock made in the pass; with an empty heap it reads nothing |
| `Timer.TimerQueue.AddTimer` | my_server/simple_http_server/version_1/src/timer.c:109-126 | a new timer with key now + timeout modulo 2^64 is pending and recorded for its request |
| `Timer.TimerQueue.InsertNode` | my_server/simple_http_server/version_1/src/timer.c:124-125 | the node is pending, nothing else changes |
| `Timer.TimerQueue.DelTimer` | my_server/simple_http_server/version_1/src/timer.c:128-137 | the request's timer is marked deleted and stays in the heap |
| `Timer.OrderKept` | my_server/simple_http_server/version_1/src/timer.c:80-106 | firing the foremost timer, discarding one or reading the clock keeps the firings in key order |
| `JsonRoundTrip.WrittenTreeReadsBack` | json_writer/version_1_1/json_writer.cpp:18-152 | the writer's text of any tree, under any layouts and blank paddings, is read back by an RFC 8259 reader, code escapes and surrogate pairs included, as the tree; the reader fails exactly when a string holds a control character the writer does not escape |
| `JsonRoundTrip.SameTreeIffRepresentable` | json_writer/version_1_1/json_writer.cpp:90-126 | the very same tree comes back exactly when no string or key holds a control character other than the five escaped ones |
| `JsonRoundTrip.LayoutDoesNotMatter` | json_writer/version_1_1/json_writer.cpp:18-88 | two writings of a tree under different settings read the same |
| `JsonRoundTrip.TreeReadsBack` | json_writer/version_1_1/json_writer.cpp:18-152 | a printed tree is read back from the middle of a text, and reading stops behind it |
| `JsonRoundTrip.EscapedReadsBack` | json_writer/version_1_1/json_writer.cpp:99-126 | an escaped string is read back exactly when every control character in it has an escape |
| `JsonRoundTrip.KeyReadsBack` | json_writer/version_1_1/json_writer.cpp:143-147 | a key, its paddings and the colon are read back, and the value stands next |
| `JsonRoundTrip.SepIsSkipped` | json_writer/version_1_1/json_writer.cpp:66-84 | before a child there is a comma exactly when it is not the first, and else only blanks |
| `JsonRoundTrip.NumberReads` | json_writer/version_1_1/json_writer.hpp:126-145 | a number of the grammar is read to its end |
| `Json.IntegersAreNumbers` | json_writer/version_1_1/json_writer.hpp:138-143 | what the Value overloads print for an integer is a number of section 6, and its decimal value is that integer |
| `JsonWriter.WriterPrints` | json_writer/version_1_1/json_writer.cpp:18-88 | the stack machine, driven over a tree, writes exactly the recursive printing of the tree and closes every container |
| `JsonLayout.WrittenTextIsLaidOut` | json_writer/version_1_1/json_writer.cpp:11-84 | for every tree, any layouts and blank paddings, counted from the written text: behind each line break stand exactly initialIndentDepth plus the number of open brackets copies of indent (one less in front of a closing bracket), then a visible character; a line break stands behind an opening bracket and in front of a closing one exactly when the container, by its own, forced or inherited layout, is multi-line, and behind a comma exactly when it is not single-line; every other gap is the padding of its place, and no string holds a line break |
| `JsonLayout.NestedArrays` | json_writer/version_1_1/json_writer.cpp:11-84 | the text of [[1]] under the default and under the compressed settings |
| `JsonWriter.TreeWrites` | json_writer/version_1_1/json_writer.cpp:18-88 | the same at any depth and inside any container: separator, then printed form, one child more |
| `JsonWriter.StartContainerWrites` | json_writer/version_1_1/json_writer.cpp:18-32 | after the bracket the new container is on top, empty, with the effective layout |
| `JsonWriter.EndContainerWrites` | json_writer/version_1_1/json_writer.cpp:35-51 | a closing line break and indentation only for non-empty multi-line containers |
| `JsonWriter.KeyWrites` | json_writer/version_1_1/json_writer.cpp:143-147 | after a key no separator comes before its value |
| `JsonWriter.Writer.constructor` | json_writer/version_1_1/json_writer.hpp:33-43 | the default settings and nothing written |
| `JsonWriter.Writer.ConfigureCompressedOutput` | json_writer/version_1_1/json_writer.hpp:46-53 | the six settings of compressed output |
| `JsonWriter.Writer.WriteIndent` | json_writer/version_1_1/json_writer.cpp:11-15 | initial depth plus stack depth times the indentation |
| `JsonWriter.Writer.WriteSeparator` | json_writer/version_1_1/json_writer.cpp:66-84 | comma, padding, line break and indentation by child count, kind and layout |
| `JsonWriter.Writer.StartChildCall` | json_writer/version_1_1/json_writer.cpp:58-88 | the field-by-field step is the state function of the machine |
| `JsonWriter.Writer.StartContainerCall` | json_writer/version_1_1/json_writer.cpp:18-32 | likewise for opening a container, with forced and inherited layouts |
| `JsonWriter.Writer.EndContainerCall` | json_writer/version_1_1/json_writer.cpp:35-51 | likewise for closing one |
| `JsonWriter.Writer.WriteEscapedChar` | json_writer/version_1_1/json_writer.cpp:99-126 | the seven escapes, all else as it is |
| `JsonWriter.Writer.WriteString` | json_writer/version_1_1/json_writer.cpp:90-97 | the loop up to the NUL writes the quoted and escaped string |
| `JsonWriter.Writer.StringValue` | json_writer/version_1_1/json_writer.cpp:128-136 | a string as one child |
| `JsonWriter.Writer.PlainValue` | json_writer/version_1_1/json_writer.cpp:138-152 | a literal or number as one child |
| `JsonWriter.Writer.KeyCall` | json_writer/version_1_1/json_writer.cpp:143-147 | a key as one child, its value to follow |
| `JsonWriter.Writer.WriteTreeCalls` | json_writer/version_1_1/json_writer.hpp:185-222 | the calls for a tree, in order, leave the state the functions say |
| `JsonMinifierLaw.MinifiedIsCompressedIff` | jsonFormatter/version_1_1/getStringSecond.c:33-73 | for every ASCII tree and all settings with blank paddings: minifying the text the writer writes gives the text it writes after configureCompressedOutput exactly when no blank of a string stands at lowered flag, no padding or line break that is not empty stands at raised flag, and no initial indentation is written; the flag is the parity of the quotation marks so far, read off the tree |
| `JsonMinifierLaw.MinifiedPrettyIsCompressed` | jsonFormatter/version_1_1/getStringSecond.c:33-73 | in particular it does so for all strings without quotation marks and initial indent 0, and minifying the result changes nothing |
| `JsonMinifier.MinifyingTwice` | jsonFormatter/version_1_1/getStringSecond.c:33-73 | minifying again changes nothing, for every ASCII text |
| `JsonMinifier.MinifiedSqueezes` | jsonFormatter/version_1_1/getStringSecond.c:52-73 | on ASCII text the result is the first character and the rest without the blanks outside quotation marks |
| `JsonMinifier.SqueezeByCharacter` | jsonFormatter/version_1_1/getStringSecond.c:43-50 | a character stays unless its code is 32 or less and it stands outside quotation marks |
| `JsonMinifier.LoopSqueezes` | jsonFormatter/version_1_1/getStringSecond.c:60-72 | the flag machine agrees with dropping blanks outside quotation marks; the flag is 1 inside and 0 outside |
| `JsonMinifierLaw.PrintIff` | jsonFormatter/version_1_1/getStringSecond.c:43-50 | squeezing a printed tree, from either flag and before any text, gives its compressed form exactly under that condition |
| `JsonMinifierLaw.IndentationStays` | jsonFormatter/version_1_1/getStringSecond.c:55-56 | the first character is copied before the loop: with an initial indentation the minified text is never the compressed one |
| `JsonMinifierLaw.QuotationMarkBreaksMinifying` | jsonFormatter/version_1_1/getStringSecond.c:61-66 | instances under the default settings: a quotation mark and a blank in a string break the law, a lone quotation mark does not |
| `JsonMinifier.Minifier.Process` | jsonFormatter/version_1_1/getStringSecond.c:52-73 | the loop over token and markFlag writes the output function of the source text |
| `JsonMinifier.Minifier.NextChar` | jsonFormatter/version_1_1/getStringSecond.c:33-41 | one character, or the next visible one after a second mark |
| `JsonMinifier.Minifier.NextWithoutSpaceAndEnter` | jsonFormatter/version_1_1/getStringSecond.c:44-50 | the next character above 32, or the end |
| `HttpLine.AcceptedIffInLanguage` | my_server/simple_http_server/version_1/src/http_parse.c:36-264 | ST_OK exactly when the unread bytes start with (CR|LF)* [A-Z_]+ SP+ "/" nonSP* SP+ "HTTP/" digits "." digits SP* CR? LF |
| `HttpLine.AgainIffBeginsLine` | my_server/simple_http_server/version_1/src/http_parse.c:261-264 | ST_AGAIN exactly when the unread bytes are the beginning of such a line and not all of it |
| `HttpLine.AcceptedLine` | my_server/simple_http_server/version_1/src/http_parse.c:164-220 | exactly that line is consumed, and each version number is its decimal value exactly when that value fits an int |
| `HttpLine.DigitsReadIff` | my_server/simple_http_server/version_1/src/http_parse.c:164-220 | the int the digit loop computes, wrapping around, is the decimal value exactly when that value is below 2^31 |
| `HttpLine.LineAccepted` | my_server/simple_http_server/version_1/src/http_parse.c:36-264 | all recorded places of an accepted line, request_end too: in front of the CR, or at the LF if nothing was recorded before, and else what an earlier line of the connection left |
| `HttpLine.AnyPiecesOneLine` | my_server/simple_http_server/version_1/src/http_parse.c:34-37 | however the bytes are cut into pieces, verdict and recorded places are those of one call; position and state in rq are too exactly when the call does not fail or no cut lies between its start and the byte that failed, because a failing call leaves those saved before |
| `HttpLine.PiecesAndTheBytes` | my_server/simple_http_server/version_1/src/http_parse.c:34-37 | for a new line the condition is read off the bytes: position and state differ from those of one call exactly when the bytes are wrong and some piece ended behind a beginning of a line |
| `HttpLine.PiecesMatter` | my_server/simple_http_server/version_1/src/http_parse.c:85-87 | "G1" at once and as "G", "1": the same verdict, and 0 or 1 as the position left |
| `HttpLine.LineResumes` | my_server/simple_http_server/version_1/src/http_parse.c:261-264 | stopping for want of bytes and resuming goes through the same states as one run of the loop |
| `HttpLine.LineIgnoresTheRest` | my_server/simple_http_server/version_1/src/http_parse.c:36-38 | bytes that have not arrived do not matter |
| `HttpLine.VerbRecorded` | my_server/simple_http_server/version_1/src/http_parse.c:54-84 | the recorded method code: 2 for GET, 3 for HEAD, 4 for POST, unknown for other lengths, unchanged for other words of three or four letters; unknown for every method that crosses the end of the ring, because its end pointer is before its start |
| `HttpLine.SoundStart` | my_server/simple_http_server/version_1/src/http_parse.c:41-53 | an accepted text can be taken apart into a line of the grammar |
| `HttpHeaders.PrintedHeadersReadBack` | my_server/simple_http_server/version_1/src/http_parse.c:285-376 | printing a non-empty list of header lines and parsing gives ST_OK just behind the blank line, with a header in reverse order for each line that ends with CRLF; and the ring holds all keys and values between the recorded pointers exactly when none of them reaches the ring's end |
| `HttpHeaders.FieldFromRing` | my_server/simple_http_server/version_1/src/http_parse.c:291-335 | a single field comes back from the ring exactly when neither its key nor its value reaches the ring's end |
| `HttpHeaders.ValueAtTheRingsEnd` | my_server/simple_http_server/version_1/src/http_parse.c:321-334 | the block "k: v" across the end of the ring: begun 6 bytes before it, the value comes back; begun 4 bytes before it, the value is lost |
| `HttpHeaderLanguage.BlockIffInLanguage` | my_server/simple_http_server/version_1/src/http_parse.c:286-375 | ST_OK exactly when the unread bytes start with (CR|LF)* line+ CR LF, a line being key SP* ":" SP* value CR? LF, where a key has no blank or colon behind its first byte, and a value starts with a byte that is not blank and has no CR or LF behind it |
| `HttpHeaderLanguage.BlockAccepted` | my_server/simple_http_server/version_1/src/http_parse.c:286-375 | exactly that block is consumed, and the lines that end with CRLF are saved, the newest first; lines that end with LF alone are dropped |
| `HttpHeaderLanguage.SoundBlock` | my_server/simple_http_server/version_1/src/http_parse.c:291-374 | accepted bytes can be taken apart into header lines |
| `HttpHeaderLanguage.AgainIffBeginsBlock` | my_server/simple_http_server/version_1/src/http_parse.c:378-381 | ST_AGAIN exactly when the unread bytes are the beginning of such a block and not all of it |
| `HttpHeaders.AnyPiecesOneBody` | my_server/simple_http_server/version_1/src/http_parse.c:378-381 | the same for the header machine: verdict and headers always, position and state exactly when no failing call follows a cut |
| `HttpHeaderLanguage.BodyPiecesAndTheBytes` | my_server/simple_http_server/version_1/src/http_parse.c:378-381 | for a new block the condition is read off the bytes, as for the line |
| `HttpHeaders.BodyPiecesMatter` | my_server/simple_http_server/version_1/src/http_parse.c:312-320 | "k x" at once and as "k ", "x": the same verdict, and 0 or 2 as the position left |
| `HttpHeaders.BodyResumes` | my_server/simple_http_server/version_1/src/http_parse.c:378-381 | resuming goes through the same states as one run |
| `HttpHeaders.RunField` | my_server/simple_http_server/version_1/src/http_parse.c:299-355 | one header line adds one header in front of the list |
| `HttpHeaders.NoHeadersNeverComplete` | my_server/simple_http_server/version_1/src/http_parse.c:291-298 | line breaks before the first header are skipped, so a request without headers is never complete and what follows its blank line is read as its headers |
| `HttpHeaders.RunKeepsRead` | my_server/simple_http_server/version_1/src/http_parse.c:321-334 | every saved value began at a byte that is not blank and ended at the first line break behind it |
| `HttpHeaders.OnlyReadableComeBack` | my_server/simple_http_server/version_1/src/http_parse.c:321-334 | so a header whose value starts with a blank, or has a line break behind its first byte, never comes back from a ring that still holds the bytes, wherever in it they lie |
| `HttpPieces.RequestInPieces` | my_server/simple_http_server/version_1/src/http.c:57-103 | do_request on a request in one lap of the ring whose header lines end with CRLF: it comes through with all its headers exactly when no read ends behind its line and in front of the end of its headers, and is then read as if it had come at once; otherwise the line machine runs on the headers in the header machine's state |
| `HttpPieces.UncutIsRead` | my_server/simple_http_server/version_1/src/http.c:83-99 | cuts inside the line do no harm, whatever the headers are |
| `HttpPieces.CutLosesAHeader` | my_server/simple_http_server/version_1/src/http.c:95-99 | a cut in the headers loses the header it falls into or in front of, or the request is refused or never complete |
| `HttpPieces.KeyIsLost` | my_server/simple_http_server/version_1/src/http.c:83-99 | a key begun before the cut, or the next one for the line machine, is never saved, however the rest is cut |
| `HttpPieces.CutBlankLineIsRefused` | my_server/simple_http_server/version_1/src/http.c:83-90 | a cut in the blank line: the line machine finds CR or LF where it wants HTTP |
| `HttpPieces.CutInDroppedLine` | my_server/simple_http_server/version_1/src/http.c:83-99 | a header line that ends with LF alone is not saved, and a cut in its value in front of a version loses nothing |
| `HttpPieces.LineThenHeaders` | my_server/simple_http_server/version_1/src/http.c:83-99 | a line that comes alone, then a header that starts with a small letter: refused as an invalid method |
| `HttpRequest.RefillIsSafe` | my_server/simple_http_server/version_1/src/http.c:58-62 | a refill stays inside the buffer, keeps the overflow check true and covers no unread byte |
| `HttpRequest.RemainSizeIsAllThatFits` | my_server/simple_http_server/version_1/src/http.c:59-62 | remain_size is exactly the most that stays inside the buffer and keeps the overflow check true; it is 0, and read's answer taken for the end of the stream, exactly when the buffer is full |
| `HttpRequest.RingAfterReceive` | my_server/simple_http_server/version_1/src/http.c:58-78 | after a refill byte q of the stream still lies at q mod MAX_BUF |
| `HttpRequest.Request.constructor` | my_server/simple_http_server/version_1/src/http_request.c:35-46 | an empty ring, both machines at their start, no headers |
| `HttpRequest.Request.Receive` | my_server/simple_http_server/version_1/src/http.c:58-78 | the bytes read follow the stream |
| `HttpRequest.Request.SameFour` | my_server/simple_http_server/version_1/src/http_parse.c:61-75 | the four-byte comparisons |
| `HttpRequest.Request.RecordMethod` | my_server/simple_http_server/version_1/src/http_parse.c:54-84 | the method code the machine over positions has, if the method still lies in the ring where request_start says; nothing else changes but method_end |
| `HttpRequest.Request.LineByte` | my_server/simple_http_server/version_1/src/http_parse.c:36-258 | one turn on the ring is one step of the machine over positions, for any request; the method code if the method still lies in the ring |
| `HttpRequest.Request.LineLoop` | my_server/simple_http_server/version_1/src/http_parse.c:36-258 | where the loop stops, in which state and why |
| `HttpRequest.Request.ParseRequestLine` | my_server/simple_http_server/version_1/src/http_parse.c:12-265 | the loop over the ring is the machine over the stream, for any request: verdict, places, and the position and state left in rq; the method code too, if the request line so far fits in the ring |
| `HttpRequest.Request.ReadRequestLine` | my_server/simple_http_server/version_1/src/http.c:57-90 | reading and parsing until the request line is complete or wrong: whatever read returns each time, verdict and places are those of one call on all the bytes; position and state are too exactly when the call does not fail or fails in the first bytes read; after ST_AGAIN it can go on |
| `HttpRequest.Request.ReadAndParseLine` | my_server/simple_http_server/version_1/src/http.c:78-83 | one read and one call |
| `HttpRequest.Request.BodyByte` | my_server/simple_http_server/version_1/src/http_parse.c:286-375 | one turn on the ring is one step of the header machine |
| `HttpRequest.Request.ParseRequestBody` | my_server/simple_http_server/version_1/src/http_parse.c:267-382 | the loop over the ring is the header machine over the stream |
| `HttpRequest.Request.ReadAndParse` | my_server/simple_http_server/version_1/src/http.c:58-99 | one turn: read, the line machine, and behind a line the header machine, on one shared state |
| `HttpRequest.Request.ReadRequest` | my_server/simple_http_server/version_1/src/http.c:57-103 | the loop over the ring leaves what the turns on the stream leave, whatever the pieces: verdict, position, state, headers and all recorded places but the method code |
| `HttpRequest.Request.ReadWholeRequest` | my_server/simple_http_server/version_1/src/http.c:57-103 | on the object: all headers are saved exactly when no read ends behind the line and in front of the end of the headers; then the ring holds their keys and values exactly when none reaches its end |
| `Webbench.BuiltRequestIsParsed` | my_server/webbench-1.5/webbench.c:199-291 | for every plain URL (http://, a host and a port that fit their buffers, no blank in the path, a host that is not empty, does not start with a blank and has no line break behind its first byte), and version 1.0 or 1.1, both server machines accept what build_request writes, recover method, path, version and all headers from the ring, and stop just behind the blank line |
| `Webbench.RequestRecoveredIff` | my_server/webbench-1.5/webbench.c:276-289 | for every direct URL whose host and port fit their buffers, all of this is recovered exactly when the URL is plain |
| `Webbench.BlankHostIsLost` | my_server/webbench-1.5/webbench.c:276-281 | "http:// x/": build_request writes it, and the server does not recover it |
| `Webbench.RecoveredTargetIsPlain` | my_server/webbench-1.5/webbench.c:263-263 | a path that the line machine recovers has no blank |
| `Webbench.BuiltLineIsParsed` | my_server/webbench-1.5/webbench.c:207-273 | the request-line part of it |
| `Webbench.DirectRequestText` | my_server/webbench-1.5/webbench.c:233-289 | for a direct URL the text is a request line, then a block of headers; for a plain one they are of the grammars |
| `Webbench.PlainTarget` | my_server/webbench-1.5/webbench.c:239-263 | target and host of a direct URL are its path and host; the path starts with a slash |
| `Webbench.PortIsRead` | my_server/webbench-1.5/webbench.c:249-258 | a port of less than 10 decimal digits behind the host is read as their value, 80 for 0 |
| `Webbench.BuiltFits` | my_server/webbench-1.5/webbench.c:228-232 | for all options, proxies included, what is written fits request[REQUEST_SIZE] and host[MAXHOSTNAMELEN] if the host in the URL fits |
| `Webbench.RequestText` | my_server/webbench-1.5/webbench.c:212-289 | the whole text of a request, direct or through a proxy, with every verb, version and header line written out |
| `Webbench.RefusedIff` | my_server/webbench-1.5/webbench.c:223-245 | a request is written exactly for URLs with "://", of at most 1500 characters, of scheme http unless there is a proxy, and with a slash behind the scheme; else the message of exit |
| `Webbench.FirstScheme` | my_server/webbench-1.5/webbench.c:239-239 | the scheme ends at the first "://" |
| `Webbench.HttpSchemeIs` | my_server/webbench-1.5/webbench.c:233-237 | the scheme is http in any letters |
| `Webbench.AtoiIs` | my_server/webbench-1.5/webbench.c:256-256 | atoi on the port: blanks in front, one sign, digits up to the first other character |
| `Webbench.Bench.AdjustVersion` | my_server/webbench-1.5/webbench.c:207-210 | at least 1.1 for OPTIONS and TRACE, at least 1.0 for HEAD and for a forced reload through a proxy, else as it was |
| `Webbench.Bench.WriteVerb` | my_server/webbench-1.5/webbench.c:212-221 | the method and a blank |
| `Webbench.Bench.WriteTarget` | my_server/webbench-1.5/webbench.c:223-268 | target, host and port taken from the URL, or the message of exit, if host and port fit their buffers |
| `Webbench.Bench.WriteHostAndPort` | my_server/webbench-1.5/webbench.c:246-264 | the host is what stands before the first colon or slash; the port is the number between them, 80 for 0, unchanged without a colon |
| `Webbench.Bench.WriteVersion` | my_server/webbench-1.5/webbench.c:269-273 | the version and the line end |
| `Webbench.Bench.WriteHost` | my_server/webbench-1.5/webbench.c:276-281 | the Host line, for direct requests from 1.0 on |
| `Webbench.Bench.WriteRest` | my_server/webbench-1.5/webbench.c:269-289 | version, header lines and blank line |
| `Webbench.Bench.BuildRequest` | my_server/webbench-1.5/webbench.c:199-291 | the appending statements leave the request, the host and the port the functions say, inside their buffers, or exit with the same message |
| `HeaderList.Node.constructor` | my_server/simple_http_server/version_1/src/list_wrapper.h:19-23 | a node linked to itself |
| `HeaderList.AddBetween` | my_server/simple_http_server/version_1/src/list_wrapper.h:26-32 | the ring with the node between its neighbours, doubly linked |
| `HeaderList.ListAdd` | my_server/simple_http_server/version_1/src/list_wrapper.h:34-36 | the node becomes the first of the ring |
| `HeaderList.ListAddTail` | my_server/simple_http_server/version_1/src/list_wrapper.h:38-40 | the node becomes the last of the ring |
| `HeaderList.ListDel` | my_server/simple_http_server/version_1/src/list_wrapper.h:43-51 | the ring without the node, whose own links stay as they were |
| `HeaderList.ListEmpty` | my_server/simple_http_server/version_1/src/list_wrapper.h:54-56 | true exactly when the ring is the head alone |
| `HeaderList.UnlinkAndGoOn` | my_server/simple_http_server/version_1/src/list_wrapper.h:70-71 | after unlinking and freeing, the removed node's next pointer, read all the same, leads to the rest of the ring |
| `HeaderList.HandleHeaders` | my_server/simple_http_server/version_1/src/http_request.c:71-93 | every header is visited exactly once, in ring order, unlinked and freed; the list ends empty, and the reply is what handling them in that order gives; the link of every node is read once after the node has been freed |
| `HeaderList.AddAll` | my_server/simple_http_server/version_1/src/http_parse.c:346-350 | adding nodes one by one leaves the ring that holds them newest first |
| `HeaderList.AddThenHandle` | my_server/simple_http_server/version_1/src/http_request.c:71-93 | headers saved and then handled are visited newest first, each exactly once |
| `HeaderList.ReplyDependsOnContents` | my_server/simple_http_server/version_1/src/http_request.c:104-141 | what the handlers leave: keep-alive exactly when some header whose key is a beginning of "Connection" says so, 304 and not-modified exactly when some header whose key is a beginning of "If-Modified-Since" has the file's date; the empty key is Host's |
| `HeaderList.HandlersByName` | my_server/simple_http_server/version_1/src/http_request.c:28-33 | which names the handlers answer to |
| `HeaderList.KeepAliveWords` | my_server/simple_http_server/version_1/src/http_request.c:113-121 | "keep-alive" in any letters, or any beginning of it, asks to keep the connection |
| `FtpProtocol.EveryRunIsGood` | ftp_simple/version_1/ftp_client/ftp_client.c:218-312 | in every interleaving from the start: every reply the client reads is, from its four bytes, the one it expects at that place (220, 331, 230 or 430 by the password, 200 or 221 by the command, 1 then 226, 150 or 550 by whether the file exists, then 226); user and password are sent as typed; at the prompt no message is left over, the server connects only to a listening client and never fails, only a right password gets to the prompt, a finished list or get has received exactly what the server set out to send, every finished get holds the bytes of the file or was refused because there is none, and until the client leaves some side can step |
| `FtpProtocol.EveryCommandIsDone` | ftp_simple/version_1/ftp_client/ftp_client.c:266-312 | over every run: at the prompt there is one transfer for each get typed so far, with its name, in order, one list for each list typed, and the lists are what ls printed; in between, but for the command under way |
| `FtpProtocol.NeverStuck` | ftp_simple/version_1/ftp_client/ftp_client.c:266-312 | until the client leaves, client or server can step |
| `FtpProtocol.StepKeepsInv` | ftp_simple/version_1/ftp_serve/ftp_serve.c:275-311 | each step of either side keeps the invariant over the queues, the data link and both places |
| `FtpProtocol.RunKeepsInv` | ftp_simple/version_1/ftp_serve/ftp_serve.c:275-311 | the invariant holds after any run |
| `FtpProtocol.ClientKeepsInv` | ftp_simple/version_1/ftp_client/ftp_client.c:266-312 | the client's steps keep it |
| `FtpProtocol.ServerKeepsInv` | ftp_simple/version_1/ftp_serve/ftp_serve.c:275-311 | the server's steps keep it |
| `FtpProtocol.ServerServes` | ftp_simple/version_1/ftp_serve/ftp_serve.c:56-123 | while serving, the replies on their way are the ones not yet read, in order, and received, travelling and unsent bytes make up the content |
| `FtpProtocol.ReadsData` | ftp_simple/version_1/ftp_client/ftp_client.c:83-98 | bytes received stay received: none lost, doubled or reordered |
| `FtpProtocol.AllReceived` | ftp_simple/version_1/ftp_client/ftp_client.c:306-307 | when list is done the client has received exactly what the server set out to send; when get is done, exactly the file |
| `FtpProtocol.RepliesAreRead` | ftp_simple/version_1/common/common.c:124-133 | at each read the client makes of the next four bytes the code it expects there |
| `FtpProtocol.ClientLoginKeepsInv` | ftp_simple/version_1/ftp_client/ftp_client.c:173-216 | the login replies reach the reads that expect them |
| `FtpProtocol.ServerLoginKeepsInv` | ftp_simple/version_1/ftp_serve/ftp_serve.c:200-239 | the server reads user and password as typed |
| `FtpProtocol.EveryStepIsProgress` | ftp_simple/version_1/ftp_serve/ftp_serve.c:275-311 | away from the prompt every step lowers a lexicographic measure |
| `FtpProtocol.EveryCommandEnds` | ftp_simple/version_1/ftp_client/ftp_client.c:266-312 | under any schedule that never runs a waiting side, the client gets back to its prompt or leaves |
| `FtpProtocol.CommandArrives` | ftp_simple/version_1/ftp_client/ftp_client.c:44-80 | the server reads from the message exactly the command and argument the user typed |
| `FtpProtocol.CommandsByWord` | ftp_simple/version_1/ftp_client/ftp_client.c:44-80 | list, get and quit, with any argument behind any number of blanks, are LIST, RETR and QUIT with that argument, as one text; a line with any other first word is invalid, and only such a line |
| `FtpProtocol.LineIsSent` | ftp_simple/version_1/ftp_client/ftp_client.c:268-280 | an invalid line changes nothing, any other is sent in one message |
| `FtpProtocol.AnyMessageIsAnswered` | ftp_simple/version_1/ftp_serve/ftp_serve.c:241-273 | the first four characters of any message decide the answer: 221, 200 or 502 |
| `FtpProtocol.AnyReplyIsTaken` | ftp_simple/version_1/ftp_client/ftp_client.c:281-290 | 221 and 430 end the client, 502 and 230 lead to the prompt, anything else to the data connection, or at the login to the error exit |
| `FtpProtocol.DataInPieces` | ftp_simple/version_1/ftp_serve/ftp_serve.c:67-78 | recv may return any piece of what is on its way up to 512 bytes; the server sends 512 at a time, then the rest |
| `FtpProtocol.WireRoundTrip` | ftp_simple/version_1/common/common.c:124-133 | the four bytes of a reply, as they travel in the queue, give its code back, in network order |
| `GameLine.MergedConserves` | 2048_c_ncurses/version_1_4/src/game.c:260-429 | both kinds of merge pass keep the sum of the tiles, and the points they give are the worth of what they build |
| `GameLine.NearestToTheWallFirst` | 2048_c_ncurses/version_1_4/src/game.c:308-330 | which tiles merge: a pair nearer to the wall goes first, and a merged tile is not merged again |
| `GameLine.SideBySideFirst` | 2048_c_ncurses/version_1_4/src/game.c:263-287 | which panes moveLeft merges |
| `GameLine.MovedIs` | 2048_c_ncurses/version_1_4/src/game.c:260-429 | a moved line: the tiles that the merging leaves, at the wall, and empty panes behind them |
| `GameLine.PackIs` | 2048_c_ncurses/version_1_4/src/game.c:290-302 | the tiles of a line, in order |
| `GameLine.WorthOfPower` | 2048_c_ncurses/version_1_4/src/game.c:465-467 | the worth of a tile 2^e is (e - 1) * 2^(e - 1) |
| `GameLine.MergedGrows` | 2048_c_ncurses/version_1_4/src/game.c:260-429 | every tile is an old one or twice an old one, and no tile gets lost |
| `GameLine.UnchangedIff` | 2048_c_ncurses/version_1_4/src/game.c:260-429 | a line stays as it is exactly when no tiles merge and its tiles are at the wall |
| `GameLine.LeftSlidesIff` | 2048_c_ncurses/version_1_4/src/game.c:268-272 | moveLeft does to a line what the others do exactly when it never stands at a tile whose equal is behind a gap |
| `GameLine.LeftMissesAPair` | 2048_c_ncurses/version_1_4/src/game.c:268-272 | 2 0 2 0: the others make 4, moveLeft makes 2 2 |
| `GameLine.MovedBooks` | 2048_c_ncurses/version_1_4/src/game.c:260-429 | one moved line: same sum, worth plus points, empty panes plus merges |
| `GameBoard.SpawnTestIsChange` | 2048_c_ncurses/version_1_4/src/game.c:162-162 | the test before the spawn is true exactly when the move changed the board |
| `GameBoard.Directions` | 2048_c_ncurses/version_1_4/src/game.c:260-429 | left and right are rows from either end, up and down columns from either end |
| `GameBoard.ChangedBoardHasRoom` | 2048_c_ncurses/version_1_4/src/game.c:162-166 | then a free pane exists |
| `GameBoard.MoveKeepsBooks` | 2048_c_ncurses/version_1_4/src/game.c:260-429 | a move in any direction keeps the tile sum, the empty count and the score equation |
| `GameBoard.MoveKeepsTiles` | 2048_c_ncurses/version_1_4/src/game.c:260-429 | all tiles stay powers of two from 2 on |
| `GameBoard.MoveTops` | 2048_c_ncurses/version_1_4/src/game.c:505-514 | before the win a move cannot get past the win flag, for any flag that is a power of two from 8 on |
| `GameBoard.WinTestIsExact` | 2048_c_ncurses/version_1_4/src/game.c:184-186 | the recorded maximum equals the win flag exactly when a tile does; without one all tiles are at most half of it |
| `GameBoard.SpawnKeepsGame` | 2048_c_ncurses/version_1_4/src/game.c:162-176 | the spawn keeps the books and the recorded maximum |
| `GameBoard.TotalInView` | 2048_c_ncurses/version_1_4/src/game.c:260-429 | sums over the board are the same in every direction |
| `GameBoard.PowersApart` | 2048_c_ncurses/version_1_4/src/game.c:184-186 | of two different powers of two the greater is at least twice the smaller |
| `Game2048.Game.constructor` | 2048_c_ncurses/version_1_4/src/game.c:11-32 | the counters of a blank board |
| `Game2048.Game.Init` | 2048_c_ncurses/version_1_4/src/game.c:42-48 | one 2 on a blank board makes the books right |
| `Game2048.Game.Join` | 2048_c_ncurses/version_1_4/src/game.c:317-322 | two panes written, points and empty count |
| `Game2048.Game.MergeLeft` | 2048_c_ncurses/version_1_4/src/game.c:263-287 | the in-place merge pass of moveLeft leaves its own merging |
| `Game2048.Game.MergeRight` | 2048_c_ncurses/version_1_4/src/game.c:308-330 | the in-place merge pass of moveRight leaves the merged tiles of the line function, read from the right |
| `Game2048.Game.MergeUp` | 2048_c_ncurses/version_1_4/src/game.c:350-372 | that of moveUp, read from the top |
| `Game2048.Game.MergeDown` | 2048_c_ncurses/version_1_4/src/game.c:392-414 | that of moveDown, read from the bottom |
| `Game2048.Game.MergePass` | 2048_c_ncurses/version_1_4/src/game.c:262-414 | all four lines, points and empty count summed |
| `Game2048.Game.PackLeftTile` | 2048_c_ncurses/version_1_4/src/game.c:295-300 | a tile moves up to the next tile, step set exactly if it moved |
| `Game2048.Game.PackLeft` | 2048_c_ncurses/version_1_4/src/game.c:290-302 | the in-place packing of moveLeft leaves the tiles at the wall, step set exactly if any moved |
| `Game2048.Game.PackRight` | 2048_c_ncurses/version_1_4/src/game.c:332-344 | likewise for moveRight |
| `Game2048.Game.PackUp` | 2048_c_ncurses/version_1_4/src/game.c:374-386 | likewise for moveUp |
| `Game2048.Game.PackDown` | 2048_c_ncurses/version_1_4/src/game.c:416-428 | likewise for moveDown |
| `Game2048.Game.PackPass` | 2048_c_ncurses/version_1_4/src/game.c:332-344 | all four lines |
| `Game2048.Game.Move` | 2048_c_ncurses/version_1_4/src/game.c:260-429 | in every direction, each with its own loops over board coordinates, the lines become what the line function (for moveLeft its own) says; the test before the spawn is true exactly when the board changed |
| `Game2048.Game.SetMaxNumber` | 2048_c_ncurses/version_1_4/src/game.c:505-514 | the maximum of the old record and all panes |
| `Game2048.Game.CountValue` | 2048_c_ncurses/version_1_4/src/game.c:225-245 | the spawn stays where it is exactly when no empty pane with more empty neighbours lies off the two coordinates remembered before the call; else it goes to such a pane, in the last row that has one, and m_old_row becomes its column |
| `Game2048.Game.CountOneIs` | 2048_c_ncurses/version_1_4/src/game.c:190-223 | the panes counted around one: all eight, but the one above not when it is in the first row |
| `Game2048.Game.Spawn` | 2048_c_ncurses/version_1_4/src/game.c:163-175 | one empty pane gets a 2 or a 4 |
| `Game2048.Game.MoveAndRecord` | 2048_c_ncurses/version_1_4/src/game.c:117-147 | the move, the maximum and the step count together keep the books |
| `Game2048.Game.Turn` | 2048_c_ncurses/version_1_4/src/game.c:113-182 | one turn: the moved board, with one spawned tile exactly if it changed; game over exactly when the moved board is full; all invariants kept |
| `Game2048.Game.Play` | 2048_c_ncurses/version_1_4/src/game.c:108-188 | after any keys: the boards between the turns are what the keys make of them one by one, steps grow by the direction keys used, it stops early exactly by q, a full board or the win; tiles are powers of two, score plus twice the spawned 4s equals the worth of the board, and the win is seen as soon as the tile exists |
| `Game2048.KeysByDirection` | 2048_c_ncurses/version_1_4/src/game.c:117-155 | which keys move in which direction, and which quit |
| `Rio.Reader.constructor` | my_server/simple_http_server/version_1/src/rio.c:76-80 | nothing buffered, nothing delivered |
| `Rio.Reader.Fill` | my_server/simple_http_server/version_1/src/rio.c:86-102 | an interrupted read is repeated; no byte is lost on any answer of read |
| `Rio.Reader.Read` | my_server/simple_http_server/version_1/src/rio.c:83-114 | min(n, buffered) of the next bytes; the device is read only when the buffer is empty; delivered plus unread is always the original stream |
| `Rio.Reader.ReadByte` | my_server/simple_http_server/version_1/src/rio.c:149-149 | one byte of the stream, or none at its end or on an error |
| `Rio.Reader.ReadN` | my_server/simple_http_server/version_1/src/rio.c:116-140 | min(n, remaining) next bytes for any short reads and interruptions; after an error the stored bytes and the unread ones still make up the stream |
| `Rio.Reader.ReadLine` | my_server/simple_http_server/version_1/src/rio.c:142-172 | the bytes up to the first newline, at most max_len - 1, ended by a 0; the return value is the number of bytes stored exactly when they end with the newline or the stream was empty and max_len above 1, else one more |
| `Rio.LineIsLongest` | my_server/simple_http_server/version_1/src/rio.c:148-158 | a line has no newline before its end, and ends at one, at the limit or at the end of the stream |
| `Rio.WriteN` | my_server/simple_http_server/version_1/src/rio.c:53-74 | the whole buffer once and in order under any short writes, or -1 after a beginning of it |
| `Broadcast.Server.constructor` | 2048_c_ncurses/version_1_4/src/server.c:117-133 | all slots free, listening socket and standard input watched |
| `Broadcast.Server.Accept` | 2048_c_ncurses/version_1_4/src/server.c:39-60 | the first free slot gets a new number and the descriptor, or the client is turned away exactly when none is free; the table stays good |
| `Broadcast.FirstFreeIsBelowMaxfd` | 2048_c_ncurses/version_1_4/src/server.c:56-58 | the slot of a new client is below maxfd, by counting distinct descriptors |
| `Broadcast.ManyNeedALargeOne` | 2048_c_ncurses/version_1_4/src/server.c:56-58 | pigeonhole: distinct descriptors up to m are at most m + 1 |
| `Broadcast.Server.SendToOthers` | 2048_c_ncurses/version_1_4/src/server.c:180-184 | one write to each slot below the count with another number |
| `Broadcast.Server.CloseSlot` | 2048_c_ncurses/version_1_4/src/server.c:158-178 | a failed or closed client frees its slot and is no longer watched; the count stays |
| `Broadcast.Server.HandleSlot` | 2048_c_ncurses/version_1_4/src/server.c:154-187 | one slot of the pass |
| `Broadcast.Server.Handle` | 2048_c_ncurses/version_1_4/src/server.c:149-189 | the pass below maxfd has the events of a pass over all slots, and keeps the table good |
| `Broadcast.NothingAboveMaxfd` | 2048_c_ncurses/version_1_4/src/server.c:153-153 | stopping at maxfd misses no client |
| `Broadcast.ReadyClientsAreRead` | 2048_c_ncurses/version_1_4/src/server.c:155-157 | in a pass each ready client is read exactly once, and nobody else |
| `Broadcast.MessageReachesTheOthers` | 2048_c_ncurses/version_1_4/src/server.c:180-184 | what a client says is written exactly once to each other client still connected, and not to itself |
| `Broadcast.EveryMessageIsDelivered` | 2048_c_ncurses/version_1_4/src/server.c:153-187 | over a whole pass, the writes of a message to a client are as many as the other ready clients that say it, as long as that client has not been closed earlier in the pass |
| `Broadcast.Server.IsAllClientsClosed` | 2048_c_ncurses/version_1_4/src/server.c:203-212 | 1 exactly when a client is left, against its name |
| `Broadcast.Server.Turn` | 2048_c_ncurses/version_1_4/src/server.c:22-79 | one turn of the main loop: unless an accept fails, the table is full or q is typed, it is one pass over the table with the new client in it; otherwise nothing is read or written; the count grows by one exactly when a client is admitted |
| `Broadcast.Server.Serve` | 2048_c_ncurses/version_1_4/src/server.c:22-79 | any number of turns, whatever select, accept, the keys and the clients do: the new part of the log is what the turns did one by one, each linked to the one before, and each turn that is not postponed or quit served its table with its own ready descriptors and their answers; the table stays good, the clients ever admitted are those connected and those closed, and the loop ends only by q or with no client left; it is followed up to the admission that the count cannot hold, which needs FD_SETSIZE earlier ones and a slot that was freed |
| `Broadcast.EveryMessageReachesEveryone` | 2048_c_ncurses/version_1_4/src/server.c:22-79 | over any such run, whoever holds a descriptor gets each message exactly as often as the other clients said it while it was held |
| `Broadcast.NobodyElseIsTold` | 2048_c_ncurses/version_1_4/src/server.c:180-184 | a descriptor that no client holds gets nothing |
| `Broadcast.Server.Pass` | 2048_c_ncurses/version_1_4/src/server.c:73-78 | handle and the test behind it: every ready client is read once, every client gets each message exactly as often as other ready clients say it up to its own end, and 1 is left exactly when a client is |
| `Broadcast.PassBooks` | 2048_c_ncurses/version_1_4/src/server.c:158-178 | a pass closes exactly the clients that are no longer in the table behind it |

## Left out

- Sample sort array sizes: elements_in_bucket and sorted_arr_bound have k + 1 places here; lines 205 and 210 allocate fewer.
- Sample sort load balance: nothing is claimed about bucket sizes, because blocks are sorted at arr + i (line 115). Reading the input file and writing the result are not modelled.
- SampleSort.Qsort: a selection sort stands for the library's qsort; only its promise is used.
- The other two bucket sorts, the duplicate versions, the interpreter stubs, flappybird, the snake games, the other chat programs and the Java program.
- JSON numbers: integers are their decimal text (`Json.IntegersAreNumbers`); int8_t as a character, floating point formatting and NaN are not modelled, a number is any lexeme of the grammar.
- JSON call orders that do not come from a tree are not modelled.
- JsonMinifierLaw.MinifiedIsCompressedIff: strings are ASCII, because the minifier compares plain chars and a byte above 127 ends its loop; paddings are blanks.
- JSON containers are values on a stack field where the source pushes pointers; releasing memory is not modelled.
- HttpRequest.Request.ReadRequest: up to the first request that is complete or wrong. Behind a wrong one the source goes on with the request it has freed; what it does behind a complete one is HeaderList and the static reply. The method code is not compared, because the line machine, run on headers, compares old bytes.
- HttpPieces.RequestInPieces: header lines that end with CRLF. One that ends with LF alone is never saved, so that a cut in it may do no harm (`HttpPieces.CutInDroppedLine`). The request lies in one lap of the ring.
- HttpRequest.Request.ParseRequestBody: called with a request line recorded, as do_request does; headers are kept as positions in a sequence, newest first; the linked list is HeaderList.
- HttpHeaders.PrintedHeadersReadBack: lines of the header grammar of `HttpHeaderLanguage.BlockIffInLanguage`; the machine reads other lines as something else or refuses them.
- Webbench.BuiltRequestIsParsed: direct URLs, versions 1.0 and 1.1; version 0.9 and proxy forms are not accepted by the server. Hosts are shorter than MAXHOSTNAMELEN (64 in sys/param.h) and ports than 10 characters, the sizes of the buffers they are copied into without a check. The request is the first on its connection.
- HeaderList.HandleHeaders: a freed node still holds its link when it is read; strptime is a parameter that says whether a date equals the modification time.
- Priority queue: malloc failure. The size_t arithmetic of the counters is unbounded here.
- Timers: a node is a value with a number of its own, its deleted flag is membership in a set, and handlers are recorded, not run.
- Timer.TimerQueue.DelTimer: the request's timer is still in the heap; the source reads a freed node otherwise.
- FtpProtocol.EveryRunIsGood: whole messages on the control link; TCP message boundaries, line and name lengths above the buffers and errors of send and recv are not modelled. It runs until the client leaves: after 221 the server's loop never ends.
- FTP authentication: matching against the auth file is a parameter; the encrypted logins of versions 2 and 3 are not modelled. What ls prints is an arbitrary choice.
- 2048: curses and the best score file. initValue clears only row 0, so the model starts from a board that is all zeros. The win flag is a parameter; the source uses 32.
- Rio.Reader.Read: errors other than EINTR and EAGAIN are one error; `rio_read_n` is the same loop without a buffer.
- Broadcast.Server.Handle: at most FD_SETSIZE clients have been admitted in all; the count is never lowered, so past that the source's loops over it leave the table (`Broadcast.Server.Serve` says up to where a run goes). Descriptors are below FD_SETSIZE. Write failures, ports and the exit path closing descriptors are not modelled.
- threadpool.c: compiled out in the server, and its add function never unlocks on success, so its concurrency claims fail as written.
