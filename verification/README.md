# Models of the Dart/C++ bridge and the web runtime

This project models, in Dafny, the parts of the repository whose correctness rests on more than
reading one function: the channels and timers of the bridge, the selector engine, the codecs that
must undo each other, and the sequence machinery of streams and headers. Each module states what the
code promises and proves it for all inputs, all runs or all interleavings.

## What is modelled

**The channel** (`ChannelModel`, `ChannelSafety`, `ChannelTheorems`, `ChannelOutcomes`, `ChannelHeap`). The
multi-producer channel is a transition system whose steps are the sections of code run under the
mutex: starting, stopping and destroying a send or a receive, `close`, `try_send`, `try_recv` and the
counting of senders. A completion that a section decides on and that the code delivers after
releasing the mutex is recorded as owed and delivered by a later step, so every interleaving of
sections and completions is a run. `ChannelSafety` has the inductive invariants, `ChannelTheorems` the
promises, `ChannelOutcomes` which step decides which operation and with what, and `ChannelHeap` the class with the fields and the intrusive doubly linked list of the
code; each lock section and each completion is proved to perform exactly one step of the transition
system, and the drain and `Close` exactly the run of their steps. Another section may run between two
rounds of the drain: by its frame it cannot reach the detached nodes' links, and `StaysDetached` shows
that they keep what is owed to them.
`Oneshot` and `Sleep` treat the single-shot channel and the timer's control block in the same way.

**The selector engine** (`Dom`, `Selectors`, `SelectorCompounds`, `Matcher`, `DocumentOrder`,
`StableSort`). A node is a
path of child indices in a tree. `Selectors` says declaratively what a selector list selects, by
propagating sets of elements from left to right (Selectors Level 3, section 8), and gives the
right-to-left backtracking relation with its budget of nested calls. The two are connected in three
ways: exactly and without any condition, through a propagation that spends the same budget; with the
declarative meaning, where the budget suffices at the element; and exactly for lists without negation,
for chains and `:has` without nesting, and for nested negations. `SelectorCompounds` says the same by whole
compounds, and what the combinators mean in terms of positions. `Matcher` has the loops along parent and sibling links and the traversal with an explicit stack. `DocumentOrder` has the comparison
through ancestor chains and the node sets built on it.

**Codecs** (`Bytes`, `Pairs`, `UrlEncoded`, `UrlRecord`, `UrlRelaxing`, `Base64`, `Text`,
`Multipart`, `MultipartRoundTrip`, `MultipartExact`, `MultipartGrammar`,
`Utf16`). Each codec has its loops as methods, proved against
recursive functions, and lemmas about those functions: round trips, their exact conditions, and the
coherence of a URL with its cached search parameters. `MultipartRoundTrip` says what a written form
comes back as, `MultipartExact` that it comes back unchanged under no other condition than the stated
one, and `MultipartGrammar` which bodies are read at all, whoever wrote them.

**Sequences** (`Tee`, `TeeStory`, `Lists`, `Streams`, `HttpHeaders`). The tee is a transition system
with several pulls in flight and a class that performs its steps; `TeeStory` tells every answer from
the events of a run alone. A pull stream is an object that owns its
upstream; its ghost field `rest` is the list it still stands for, and collecting any composition of
combinators gives that list. Header lists come with their guards, combined values and sorted view.

Methods follow the code's own loops and assignments; functions are their specifications. A byte
string is a sequence of characters below 256, or, where nothing depends on that bound, any string.

## Where the code and its comments differ

The models follow the code.

- `base64_decode` is said to fail on a bad length; it never does (`Base64.OddLengthIsAccepted`).
- `merge` is described as pulling the first stream first and as having no determined order; it takes
  strict turns and begins with the second stream (`Lists.MergeAlternates`).
- The guard of `TeeSource::read` only ever clears `pumping`, and nothing sets it, so reads do not wait
  for each other's pulls; `Tee` lets any number of pulls be in flight.
- A selector chain with more than 65 compounds matches nothing, and a negation that exhausts the budget
  of nested calls matches everything (`Selectors.FlatChainIs`, `Selectors.NestedNotsAreRight`).
- `:has` does not find a target more than 64 levels below the element, fewer when the chain has
  combinators or the `:has` stands inside other lists (`Selectors.HasReaches`).
- A form does not always survive: a blob without file name and type comes back as a string entry, a type
  loses its leading blanks, a string entry its byte order mark; a name that holds `filename=` is taken
  for the file name unless nothing readable follows it there; and a line break in a header value or the
  delimiter in the data breaks the frame. Nothing else is lost (`MultipartExact.RoundTrip`,
  `MultipartRoundTrip.HarmlessIsRead`).
- A response fills its headers before it sets their guard, so its sorted view can show a set-cookie2
  field that `get` hides (`HttpHeaders.SortedViewAgainstGet`, `HttpHeaders.FillThenGuard`); on
  a list that the guard admits they agree (`HttpHeaders.AdmissibleViewAgrees`).
- The document order comparison gives zero for nodes of different trees; sorting with it is defined only
  for nodes of one tree, or of different trees each (`DocumentOrder.SortableExactly`).
- In a bounded channel with a positive capacity the branch for an empty buffer with parked sends is
  never taken (`ChannelTheorems.TransientEmptyIsDead`).

## Model

| member | source | states |
|---|---|---|
| `ChannelTheorems.NoWakeupIsLost` | include/dart_cpp_bridge/channel.hpp:503-604 | in every reachable state: a parked receiver means an open channel with an empty buffer and no parked send; a parked send means an open channel whose ring is exactly full and no parked receiver; a closed channel parks nobody; the count is the ring's length |
| `ChannelTheorems.TransientEmptyIsDead` | include/dart_cpp_bridge/channel.hpp:893-929 | with a positive capacity an empty ring means no parked send, so the second claim branch is never taken there, and a refill always finds the slot that the pop freed |
| `ChannelTheorems.Conservation` | include/dart_cpp_bridge/channel.hpp:532-604 | delivered values, then the buffer, then the parked values are exactly the values that entered, in the order in which their sends took the lock, minus those withdrawn by a stop or a destruction or dropped by close |
| `ChannelTheorems.NoOvertaking` | include/dart_cpp_bridge/channel.hpp:688-723 | a live send that entered before a delivered one was itself delivered before it |
| `ChannelTheorems.NothingTwice` | include/dart_cpp_bridge/channel.hpp:503-604 | no value is delivered, buffered or parked twice, and a receive holds a value exactly when it took one |
| `ChannelTheorems.ExactlyOnce` | include/dart_cpp_bridge/channel.hpp:638-779 | a started, undestroyed send has exactly one completion, owed or delivered, exactly when it is not parked; true exactly when its value reached the buffer or a receiver; false or stopped only while it still owns the value |
| `ChannelTheorems.ReceiveExactlyOnce` | include/dart_cpp_bridge/channel.hpp:839-1007 | the same for receives, and a receive that took the k-th value completes with precisely that value |
| `ChannelTheorems.OutcomeIsFinal` | include/dart_cpp_bridge/channel.hpp:752-779 | over every later run the decided outcome of a send is neither changed nor repeated: a stop that lost the arbitration, close and destruction cannot touch it |
| `ChannelTheorems.RecvOutcomeIsFinal` | include/dart_cpp_bridge/channel.hpp:980-1007 | over every later run the decided outcome of a receive and the value it was given are final in the same way |
| `ChannelTheorems.StepIsFinal` | include/dart_cpp_bridge/channel.hpp:752-779 | one step of the above for sends, for each kind of step |
| `ChannelTheorems.RecvStepIsFinal` | include/dart_cpp_bridge/channel.hpp:980-1007 | one step of it for receives |
| `ChannelTheorems.LastSenderCloses` | include/dart_cpp_bridge/channel.hpp:1111-1124 | the sender count is the number of handles, and a channel without handles is closed or has a close still to run |
| `ChannelOutcomes.StartDecides` | include/dart_cpp_bridge/channel.hpp:688-723 | a starting send is stopped if and only if a stop was requested before, refused if and only if not and the channel is closed, completes at once if and only if neither and a receiver waits or the ring has room, and otherwise parks behind all that are parked |
| `ChannelOutcomes.StepDecides` | include/dart_cpp_bridge/channel.hpp:503-779 | every step decides exactly the sends that it should: the starting one as above, the parked one that is stopped, the oldest parked one when its value is taken, and every parked one at close |
| `ChannelOutcomes.StepDecidesRecv` | include/dart_cpp_bridge/channel.hpp:878-1002 | every step decides exactly the receives that it should: the value in line or the one that comes, the end only from a closed channel, a violation only beside a parked receive, a stop only when asked; otherwise the receive parks |
| `ChannelOutcomes.TrySendDecides` | include/dart_cpp_bridge/channel.hpp:503-530 | try_send refuses exactly when the channel is closed, and otherwise hands over or buffers |
| `ChannelOutcomes.TryRecvDecides` | include/dart_cpp_bridge/channel.hpp:570-604 | try_recv gives the value in line, or nothing exactly when there is none |
| `ChannelOutcomes.StopIsRemembered` | include/dart_cpp_bridge/channel.hpp:752-774 | a stop that comes before the start is remembered, and nothing else counts as one |
| `ChannelOutcomes.NothingWithoutCause` | include/dart_cpp_bridge/channel.hpp:532-779 | over every run from the start: the channel is closed if and only if it was told to close; a refusal or an end occurs only then; a send or receive is stopped only if it was asked to be |
| `ChannelOutcomes.LastHandleCloses` | include/dart_cpp_bridge/channel.hpp:1048-1124 | over every run the handles are the first one and the copies less those released, and exactly the release of the last one leaves one close to run |
| `ChannelSafety.StepInv` | include/dart_cpp_bridge/channel.hpp:503-604 | every lock section and every completion keeps the whole invariant |
| `ChannelSafety.RunInv` | include/dart_cpp_bridge/channel.hpp:503-604 | so does every run of them, in any interleaving |
| `ChannelSafety.StartSendParking` | include/dart_cpp_bridge/channel.hpp:672-723 | starting a send keeps the parking invariant, whichever of its five branches is taken |
| `ChannelSafety.PullParking` | include/dart_cpp_bridge/channel.hpp:893-929 | taking a value keeps it: nothing is taken only when buffer and wait list are both empty |
| `ChannelSafety.CloseParking` | include/dart_cpp_bridge/channel.hpp:532-567 | close keeps it too, so nobody stays parked |
| `ChannelSafety.RefillHistory` | include/dart_cpp_bridge/channel.hpp:905-917 | a pop with a refill from the oldest parked send keeps the line of values |
| `ChannelSafety.RendezvousHistory` | include/dart_cpp_bridge/channel.hpp:919-925 | so does a direct claim at capacity zero |
| `ChannelSafety.CloseHistory` | include/dart_cpp_bridge/channel.hpp:546-556 | so does dropping the whole wait list |
| `ChannelHeap.Channel.QueueSend` | include/dart_cpp_bridge/channel.hpp:474-484 | appends the node to the sequence that the links spell |
| `ChannelHeap.Channel.UnlinkSend` | include/dart_cpp_bridge/channel.hpp:487-500 | removes the node at any position, keeps the rest in order and clears its links |
| `ChannelHeap.Channel.StartSend` | include/dart_cpp_bridge/channel.hpp:688-723 | does on the abstract state exactly the start step, in all branches |
| `ChannelHeap.Channel.StopSend` | include/dart_cpp_bridge/channel.hpp:752-774 | does exactly the stop step: withdraws a queued node, marks a not yet started one, and ignores the others |
| `ChannelHeap.Channel.DestroySend` | include/dart_cpp_bridge/channel.hpp:638-652 | does exactly the destruction step |
| `ChannelHeap.Channel.StartRecv` | include/dart_cpp_bridge/channel.hpp:878-945 | does exactly the receive step: take, end, violation or park |
| `ChannelHeap.Channel.PullValue` | include/dart_cpp_bridge/channel.hpp:893-929 | takes the buffer's head, refilled from the oldest parked send, or else the oldest parked value |
| `ChannelHeap.Channel.StopRecv` | include/dart_cpp_bridge/channel.hpp:980-1002 | does exactly the stop step of a receive |
| `ChannelHeap.Channel.DestroyRecv` | include/dart_cpp_bridge/channel.hpp:839-852 | does exactly the destruction step of a receive |
| `ChannelHeap.Channel.TrySend` | include/dart_cpp_bridge/channel.hpp:503-530 | does exactly the unbounded send, and reports whether the channel was open |
| `ChannelHeap.Channel.TryRecv` | include/dart_cpp_bridge/channel.hpp:570-604 | does exactly the immediate receive |
| `ChannelHeap.Channel.CloseSection` | include/dart_cpp_bridge/channel.hpp:532-557 | does exactly the close step, empties the wait list and hands out the detached nodes, which are the old wait list in order, each with its refusal owed |
| `ChannelHeap.Channel.MarkClosed` | include/dart_cpp_bridge/channel.hpp:553-555 | the walk along the links marks each detached node and no other |
| `ChannelHeap.Channel.DrainOne` | include/dart_cpp_bridge/channel.hpp:561-567 | one round of the drain does exactly the completion step of the oldest detached node and clears its links; the rest stays detached |
| `ChannelHeap.Channel.DrainClosed` | include/dart_cpp_bridge/channel.hpp:561-567 | the loop keeps the channel sound and does on the abstract state exactly the run of the detached completions, oldest first, each node once |
| `ChannelHeap.Channel.StaysDetached` | include/dart_cpp_bridge/channel.hpp:557-567 | whatever other section or completion runs between two rounds, the nodes still to be visited stay detached, linked in order and owed their refusals |
| `ChannelHeap.Channel.Close` | include/dart_cpp_bridge/channel.hpp:532-567 | the whole of close, when nothing runs in between, is the legal run of the close step, the receiver's completion if one was parked, and the parked sends' completions, oldest first |
| `ChannelSafety.OwedStays` | include/dart_cpp_bridge/channel.hpp:549-567 | a completion owed to a send stays owed under every other step, and its send is not parked |
| `ChannelHeap.Channel.CompleteSend` | include/dart_cpp_bridge/channel.hpp:662-667 | delivers the completion that is owed to a send |
| `ChannelHeap.Channel.CompleteRecv` | include/dart_cpp_bridge/channel.hpp:862-876 | delivers the completion that is owed to a receive |
| `ChannelHeap.Channel.CopySender` | include/dart_cpp_bridge/channel.hpp:1048-1053 | counts one more sender |
| `ChannelHeap.Channel.ReleaseSender` | include/dart_cpp_bridge/channel.hpp:1111-1122 | reports the last handle exactly when one handle was left |
| `Oneshot.ExactlyOnce` | include/dart_cpp_bridge/channel.hpp:182-218 | over all interleavings of settling, starting and destroying the receiver: at most one settle is accepted, detached and settled exclude each other, and a started, undestroyed receiver completes exactly once, with the settled payload |
| `Oneshot.SettlesAreAccepted` | include/dart_cpp_bridge/channel.hpp:182-218 | in every reachable state a settle is accepted if and only if it is the first and nobody gave up waiting, a waiting receiver is then owed exactly its payload, and a refused settle changes nothing |
| `Oneshot.WaitingAndDetached` | include/dart_cpp_bridge/channel.hpp:270-283 | the receiver waits exactly while it is started, undestroyed and without completion, and gave up exactly if it was destroyed while it waited |
| `Oneshot.StartGives` | include/dart_cpp_bridge/channel.hpp:296-321 | a receiver that starts completes with what was settled before, and otherwise waits |
| `Oneshot.SettledForGood` | include/dart_cpp_bridge/channel.hpp:192-197 | once settled or detached, every later settle changes nothing, over every later run |
| `Oneshot.RunInv` | include/dart_cpp_bridge/channel.hpp:270-321 | every run keeps the invariant that ties status, payload, waiter and completion |
| `Oneshot.Channel.SettleWith` | include/dart_cpp_bridge/channel.hpp:182-218 | settles exactly when the sender still refers to the channel, nothing was settled and nobody detached, and otherwise leaves the payload with the caller |
| `Oneshot.Channel.StartRx` | include/dart_cpp_bridge/channel.hpp:296-321 | waits, or completes at once with the payload that was settled |
| `Oneshot.Channel.DestroyRx` | include/dart_cpp_bridge/channel.hpp:270-283 | detaches exactly when it was waiting |
| `Sleep.Arbitration` | include/dart_cpp_bridge/sleep.hpp:72-101 | in any run at most one completion is granted and at most one is in flight; once abandon returned on a thread other than the completing one, none is in flight; a waiting abandon can return as soon as none is |
| `Sleep.AbandonIsFinal` | include/dart_cpp_bridge/sleep.hpp:92-96 | after abandon no completion is ever granted |
| `Sleep.FirstBeginIsGranted` | include/dart_cpp_bridge/sleep.hpp:72-81 | a begin is granted if and only if neither a begin nor an abandon came before it in the run |
| `Sleep.AbandonBlocksExactly` | include/dart_cpp_bridge/sleep.hpp:92-101 | abandon blocks if and only if the completion granted to another thread is in flight, and otherwise returns at once |
| `Sleep.CompletingThreadNeverWaits` | include/dart_cpp_bridge/sleep.hpp:92-101 | in every run the thread of a completion in flight is not blocked, may abandon and then end the completion, and after that every blocked thread can go on |
| `Sleep.RunInv` | include/dart_cpp_bridge/sleep.hpp:62-101 | every run keeps the invariant of the control block |
| `Sleep.ControlBlock.BeginCompletion` | include/dart_cpp_bridge/sleep.hpp:72-81 | grants exactly when nothing was abandoned or granted before |
| `Sleep.ControlBlock.EndCompletion` | include/dart_cpp_bridge/sleep.hpp:84-89 | takes one completion out of flight |
| `Sleep.ControlBlock.AbandonSection` | include/dart_cpp_bridge/sleep.hpp:92-99 | abandons, and blocks exactly when another thread's completion is in flight |
| `Selectors.MatcherIsCorrect` | include/qjsbind/cheerio/lexbor_match.hpp:143-241 | for every tree of any height and every selector list, with nested :not, :is and :has, whose budget of 64 suffices at the element, the right-to-left backtracking matcher accepts the element exactly when left-to-right propagation of element sets selects it |
| `Selectors.MatcherIsBounded` | include/qjsbind/cheerio/lexbor_match.hpp:143-241 | for every tree and every selector list, with no condition on the budget, the matcher accepts exactly what the propagation selects when each combinator and nested list costs one unit of the budget and :has one a level |
| `Selectors.PositiveNeedsBudget` | include/qjsbind/cheerio/lexbor_match.hpp:143-241 | in lists without :not an accepted element is always selected, and a selected one is missed exactly when the least budget that it takes exceeds 64 |
| `Selectors.HasReaches` | include/qjsbind/cheerio/lexbor_match.hpp:508-520 | for lists that are not nested :has finds exactly the targets whose level below the element and whose chain's combinators take at most 64 together, less by the calls around it |
| `Selectors.FitsAny` | include/qjsbind/cheerio/lexbor_match.hpp:495-520 | where the budget suffices, the propagation with it and the one without it select the same; for :has it suffices that one target fits, or every element below, or that there is no target and no negation |
| `Selectors.ChainIs` | include/qjsbind/cheerio/lexbor_match.hpp:143-192 | for one chain of compounds, with no condition on the budget, backtracking is the bounded propagation |
| `Selectors.LeftIs` | include/qjsbind/cheerio/lexbor_match.hpp:161-188 | what the backtracking finds left of a combinator is what the combinator propagates, one unit of the budget cheaper |
| `Selectors.DescendantIs` | include/qjsbind/cheerio/lexbor_match.hpp:508-520 | the recursive search below an element finds a match exactly when some element below is selected with what its level leaves of the budget |
| `Selectors.FlatChainIs` | include/qjsbind/cheerio/lexbor_match.hpp:143-150 | a chain without nested lists is matched if and only if it selects the element and has at most 65 compounds, fewer by the calls around it |
| `Selectors.NestedNotsAreRight` | include/qjsbind/cheerio/lexbor_match.hpp:458-460 | for nested negations the matcher is right if and only if there are at most 64 of them or an even number, because the one that exhausts the budget accepts everything |
| `Selectors.DeepChainsFail` | include/qjsbind/cheerio/lexbor_match.hpp:143-147 | a chain that exceeds the budget matches nothing |
| `Selectors.AnbMeaning` | include/qjsbind/cheerio/lexbor_match.hpp:94-100 | the division test holds exactly for the positions a*m + b with m not negative |
| `SelectorCompounds.CompoundBegins` | include/qjsbind/cheerio/lexbor_match.hpp:147-155 | the place that the walk back finds is where the compound begins: everything behind it is joined to its left neighbour, and it is the first part or begins a new compound |
| `SelectorCompounds.CompoundsSelect` | include/qjsbind/cheerio/lexbor_match.hpp:143-192 | a chain selects exactly what its compounds select when they are passed as wholes from right to left, a definition that never looks for their beginnings; nested lists included |
| `SelectorCompounds.Split` | include/qjsbind/cheerio/lexbor_match.hpp:147-155 | every chain is made of such compounds |
| `SelectorCompounds.MatchesCompounds` | include/qjsbind/cheerio/lexbor_match.hpp:143-192 | without nested lists the matcher accepts exactly the elements that pass the compounds from right to left, up to 65 of them |
| `SelectorCompounds.OneCompound` | include/qjsbind/cheerio/lexbor_match.hpp:147-160 | a single compound, such as p.note, is matched exactly when every one of its parts holds |
| `SelectorCompounds.SiblingCombinators` | include/qjsbind/cheerio/lexbor_match.hpp:175-188 | + joins an element to the one with the position before it under the same parent, ~ to every one with a smaller position |
| `SelectorCompounds.AncestorCombinators` | include/qjsbind/cheerio/lexbor_match.hpp:162-174 | the descendant combinator is the child combinator repeated |
| `SelectorCompounds.PositionsAddUp` | include/qjsbind/cheerio/lexbor_match.hpp:66-80 | the positions from the front and from the back add up to the number of elements and one |
| `Matcher.IsMatch` | include/qjsbind/cheerio/lexbor_match.hpp:143-192 | the loops along parent and sibling links decide the recursive match relation |
| `Matcher.PreviousMatches` | include/qjsbind/cheerio/lexbor_match.hpp:175-181 | only the nearest element before is tried for + |
| `Matcher.EarlierMatches` | include/qjsbind/cheerio/lexbor_match.hpp:182-188 | every element before is tried for ~ |
| `Matcher.AncestorMatches` | include/qjsbind/cheerio/lexbor_match.hpp:162-168 | every ancestor is tried for the descendant combinator |
| `Matcher.ParentMatches` | include/qjsbind/cheerio/lexbor_match.hpp:169-174 | the parent is tried for > |
| `Matcher.IsSimpleMatch` | include/qjsbind/cheerio/lexbor_match.hpp:194-241 | decides a simple selector, with :nth-child, :nth-last-child, :not, :is and :has |
| `Matcher.IsAnyMatch` | include/qjsbind/cheerio/lexbor_match.hpp:495-505 | decides a selector list |
| `Matcher.HasDescendantMatch` | include/qjsbind/cheerio/lexbor_match.hpp:508-520 | decides :has |
| `Matcher.ChildIndex` | include/qjsbind/cheerio/lexbor_match.hpp:66-80 | the position among the parent's elements, from 1, or -1 |
| `Matcher.LastIndex` | include/qjsbind/cheerio/lexbor_match.hpp:426-433 | the position counted from the last element |
| `Matcher.PushChildren` | include/qjsbind/cheerio/lexbor_match.hpp:600-605 | the reversed children put their subtrees on the stack in document order |
| `Matcher.QueryAll` | include/qjsbind/cheerio/lexbor_match.hpp:580-617 | the explicit-stack loop returns the matching elements of the first 100000 proper descendants in recursive preorder, the root first when asked for, and ends because each round visits one more node |
| `Matcher.QueryIsBounded` | include/qjsbind/cheerio/lexbor_match.hpp:580-617 | a query over at most 100000 nodes returns exactly the elements below the root that the bounded propagation selects, each once, in document order, with no condition on the selectors or the height |
| `Matcher.QueryMeaning` | include/qjsbind/cheerio/lexbor_match.hpp:580-617 | when the budget suffices at each element, those are exactly the selected elements |
| `DocumentOrder.DocOrderCmp` | include/qjsbind/cheerio/lexbor_api.hpp:112-142 | negative, zero or positive exactly as the preorder positions of two nodes of one tree compare; zero for nodes of different trees |
| `Dom.BeforeIsPreorder` | include/qjsbind/cheerio/lexbor_api.hpp:112-142 | comparing paths step by step is comparing positions in the recursive preorder |
| `Dom.BeforeTransitive` | include/qjsbind/cheerio/lexbor_api.hpp:112-142 | the order is transitive |
| `Dom.BeforeStrict` | include/qjsbind/cheerio/lexbor_api.hpp:112-142 | and strict and total |
| `DocumentOrder.AncestorChain` | include/qjsbind/cheerio/lexbor_api.hpp:116-121 | collects the node and its ancestors, the root last |
| `DocumentOrder.SharedAncestors` | include/qjsbind/cheerio/lexbor_api.hpp:122-126 | counts the ancestors that two nodes share |
| `DocumentOrder.ComesAfterSibling` | include/qjsbind/cheerio/lexbor_api.hpp:134-140 | the walk back along the siblings finds the other one exactly when it is earlier |
| `DocumentOrder.UniqueSort` | include/qjsbind/cheerio/lexbor_api.hpp:144-152 | of nodes of one tree returns the same node set, strictly increasing in document order; of nodes from a tree each, drops only repetitions side by side |
| `DocumentOrder.SortableExactly` | include/qjsbind/cheerio/lexbor_api.hpp:144-152 | the comparison is a strict weak order on the nodes if and only if they are all of one tree or all of different trees, so a mixed set is outside what the library's sort allows |
| `DocumentOrder.AscendingIsPreorder` | include/qjsbind/cheerio/lexbor_api.hpp:112-152 | increasing under the comparison is increasing by preorder position |
| `StableSort.SortSorts` | include/qjsbind/cheerio/lexbor_api.hpp:144-152 | sorting needs the strict weak order only among the elements that are sorted |
| `DocumentOrder.AscendingIsCanonical` | include/qjsbind/cheerio/lexbor_api.hpp:144-152 | there is only one strictly increasing sequence of a node set |
| `DocumentOrder.RemoveDups` | include/qjsbind/cheerio/lexbor_api.hpp:155-165 | keeps the first occurrence of every node, in order |
| `DocumentOrder.FirstOccurrencesGrow` | include/qjsbind/cheerio/lexbor_api.hpp:155-165 | what a beginning of the list leaves is a beginning of what the list leaves, so it is the first occurrences that stay |
| `MultipartExact.RoundTrip` | include/qjsbind/web/formdata.hpp:132-296 | for every entry list and every non-empty boundary without a carriage return, parsing the encoding gives the list if and only if every entry survives: no header value holds a line break, the data neither begins with the delimiter nor holds it behind a line break, the wire form can express the entry, and its name does not disturb the file name |
| `MultipartExact.TransferRoundTrip` | include/qjsbind/web/formdata.hpp:161-178 | the receiver finds the sender's boundary in the content type, and reads the form back under exactly that condition |
| `MultipartExact.UnframedIsLost` | include/qjsbind/web/formdata.hpp:225-293 | an entry with a line break in a header value, or with the delimiter in its data, is never what one reading step gives, whatever follows it |
| `MultipartExact.BrokenHeaderIsLost` | include/qjsbind/web/formdata.hpp:249-293 | wherever the headers are cut, a value with a line break is not what is read from them |
| `MultipartRoundTrip.ReadsNormalForm` | include/qjsbind/web/formdata.hpp:132-296 | when nothing in the entries looks like the frame, parsing the encoding gives the normal form of each, misread names included |
| `MultipartRoundTrip.ExpressibleIsNormal` | include/qjsbind/web/formdata.hpp:278-293 | an entry is its own normal form exactly when its name is harmless and: a blob has a file name or a type that does not begin with a blank, a string entry has neither and no leading byte order mark |
| `MultipartRoundTrip.FilenameParam` | include/qjsbind/web/formdata.hpp:184-198 | the file name that is read, for every entry: the first "filename=" counts, even inside the name, and what follows it there is taken for the value |
| `MultipartRoundTrip.HarmlessIsRead` | include/qjsbind/web/formdata.hpp:184-198 | exactly for the harmless names that is the entry's own file name, or none for a string entry |
| `MultipartRoundTrip.ReadsBackExactly` | include/qjsbind/web/formdata.hpp:249-293 | for entries without a line break in a header value: one part reads back as its entry if and only if the entry is expressible and its name harmless |
| `MultipartRoundTrip.ReadEntry` | include/qjsbind/web/formdata.hpp:225-293 | one step over a framed entry reads its normal form and stops at the next delimiter |
| `MultipartRoundTrip.FindNextDelimiter` | include/qjsbind/web/formdata.hpp:245-250 | in a written part the first line break followed by the delimiter is the one behind the data |
| `MultipartRoundTrip.ReadWrittenPart` | include/qjsbind/web/formdata.hpp:249-293 | reading a written part gives the normal form of its entry |
| `MultipartRoundTrip.UnquoteEscape` | include/qjsbind/web/formdata.hpp:185-193 | unquoting undoes escaping, whatever follows the closing quote |
| `MultipartRoundTrip.EscapeOccurs` | include/qjsbind/web/formdata.hpp:134-143 | text without quotes and backslashes that occurs in an escaped value occurs in the value, at the place that its escaping begins at |
| `MultipartGrammar.ReadsExactlyFrames` | include/qjsbind/web/formdata.hpp:207-296 | for every body and every boundary: it is read as a list of entries if and only if it is a frame of delimiters, blanks, line breaks and parts, each without the delimiter behind a line break in it, that are read as those entries |
| `MultipartGrammar.ReadsFrame` | include/qjsbind/web/formdata.hpp:225-250 | a framed body is read as its entries whatever blanks follow its delimiters, and refused exactly when something else than blanks and at most one line break stands behind the closing delimiter |
| `MultipartGrammar.EndIs` | include/qjsbind/web/formdata.hpp:229-236 | the end is accepted if and only if blanks and tabs and then nothing or one line break follow the closing delimiter |
| `MultipartGrammar.LastBreakIsOptional` | include/qjsbind/web/formdata.hpp:229-236 | a body that ends with two hyphens and a line break is read as the body without the line break |
| `MultipartGrammar.EncodingWithoutBreak` | include/qjsbind/web/formdata.hpp:229-236 | the encoding of any list without its last two characters is read as the encoding |
| `MultipartGrammar.BlanksBehindDelimiter` | include/qjsbind/web/formdata.hpp:225-243 | blanks behind a delimiter change nothing, unless they part it from the two hyphens that would close the body |
| `MultipartGrammar.LooseForm` | include/qjsbind/web/formdata.hpp:207-296 | the parts of a written form keep their meaning in any such frame |
| `MultipartGrammar.HeaderCase` | include/qjsbind/web/formdata.hpp:255-277 | header names are read the same in any letter case, with any blanks before the value, and the headers line by line |
| `MultipartGrammar.EmptyBody` | include/qjsbind/web/formdata.hpp:207-224 | an empty body is an empty form, a missing boundary or a body that does not begin with the delimiter is an error |
| `MultipartGrammar.BareParam` | include/qjsbind/web/formdata.hpp:194-200 | a parameter without quotes goes up to the first semicolon, space or line break |
| `MultipartGrammar.BoundaryIs` | include/qjsbind/web/formdata.hpp:161-178 | the boundary is found behind any parameters, its name in any letter case, quoted or not, and ends at the first quote, semicolon, space or line break |
| `Multipart.EncodeMultipart` | include/qjsbind/web/formdata.hpp:132-157 | the appending loop writes exactly the wire form |
| `Multipart.ParseMultipart` | include/qjsbind/web/formdata.hpp:207-296 | the scanning loop computes exactly the recursive reading, including every failure |
| `Multipart.ParseStep` | include/qjsbind/web/formdata.hpp:225-250 | one round: a failure, the end, or a part and the place of the next delimiter |
| `Multipart.ParsePart` | include/qjsbind/web/formdata.hpp:249-293 | splits headers from data and makes the entry |
| `Multipart.ParseHeaders` | include/qjsbind/web/formdata.hpp:255-277 | the line loop reads the last disposition and the last type |
| `Multipart.ParseDispositionParam` | include/qjsbind/web/formdata.hpp:181-201 | reads a quoted or bare parameter value |
| `Multipart.ExtractBoundary` | include/qjsbind/web/formdata.hpp:161-178 | reads the boundary parameter, its name in any case |
| `Text.FindLine` | include/qjsbind/web/formdata.hpp:245-247 | a line break followed by d is found at the end of the line or behind it, never inside |
| `UrlEncoded.RoundTrip` | include/qjsbind/web/url.hpp:63-115 | every list of byte-string pairs survives being written and read, with or without a leading question mark |
| `UrlEncoded.ReadsItem` | include/qjsbind/web/url.hpp:93-115 | in any query an item goes up to the next ampersand and is split at its first equals sign; without one it is a name with an empty value, and an empty item is nothing |
| `UrlEncoded.FormEncode` | include/qjsbind/web/url.hpp:64-75 | writes exactly the query string of the list |
| `UrlEncoded.Parse` | include/qjsbind/web/url.hpp:93-115 | the index loop reads exactly the items between the ampersands |
| `Bytes.DecodeEncode` | include/qjsbind/web/utf8.hpp:51-69 | percent decoding undoes percent encoding for all byte strings, in both treatments of the space |
| `Bytes.EncodeIsPlain` | include/qjsbind/web/utf8.hpp:51-69 | an encoded string has no separator of a form in it |
| `Bytes.EncodeKeeps` | include/qjsbind/web/utf8.hpp:51-69 | encoding leaves a string alone if and only if it has only unreserved characters |
| `Bytes.EscapeIs` | include/qjsbind/web/utf8.hpp:51-69 | a triple has capital digits, the high one first |
| `Bytes.SpaceAndPlus` | include/qjsbind/web/utf8.hpp:51-69 | a space is a plus in a form and a triple elsewhere, a plus always a triple |
| `Bytes.DecodeKeeps` | include/qjsbind/web/url.hpp:41-60 | decoding leaves a string alone if and only if it holds no valid triple |
| `Bytes.Decode` | include/qjsbind/web/url.hpp:41-60 | the index loop decodes valid triples and copies everything else |
| `Bytes.Encode` | include/qjsbind/web/utf8.hpp:51-69 | the loop writes the encoding of each byte |
| `UrlRecord.AlwaysCoherent` | include/qjsbind/web/url.hpp:467-543 | after any mix of append, delete, set, sort, assigning search or href and asking for searchParams, the cached list is what the query string says |
| `UrlRecord.TypedIs` | include/qjsbind/web/url.hpp:513-522 | assigning search drops one leading question mark and nothing else, and an empty one removes the query |
| `UrlRecord.QueryFollows` | include/qjsbind/web/url.hpp:485-543 | each event leaves in the query what was assigned, or the edited list written out |
| `UrlRecord.WrittenIs` | include/qjsbind/web/url.hpp:535-543 | an empty list removes the query, and different lists are written differently |
| `UrlRecord.SearchParams.SetValue` | include/qjsbind/web/url.hpp:144-160 | the in-place loop overwrites the first pair of the name and erases the later ones; the attached URL follows |
| `UrlRecord.SearchParams.Append` | include/qjsbind/web/url.hpp:119-121 | appends, writes back to the attached URL, and stays coherent with it |
| `UrlRecord.SearchParams.Delete` | include/qjsbind/web/url.hpp:122-124 | erases the name, writes back, and stays coherent |
| `UrlRecord.SearchParams.SortKeys` | include/qjsbind/web/url.hpp:162-165 | sorts stably by key, writes back, and stays coherent |
| `UrlRecord.SearchParams.NotifyChange` | include/qjsbind/web/url.hpp:535-543 | writing back makes the URL coherent with the list again |
| `UrlRecord.Url.SetSearch` | include/qjsbind/web/url.hpp:513-522 | assigning search re-reads the cached list |
| `UrlRecord.Url.SetHref` | include/qjsbind/web/url.hpp:485-488 | assigning href re-reads it too, and a parse error changes nothing |
| `UrlRecord.Url.GetSearchParams` | include/qjsbind/web/url.hpp:581-597 | gives the same object every time, attached and coherent |
| `UrlRecord.SetMeaning` | include/qjsbind/web/url.hpp:144-160 | after set the name has exactly the one value and all other pairs are kept in order |
| `UrlRecord.SetKeepsPrefix` | include/qjsbind/web/url.hpp:144-160 | the overwritten pair keeps its place |
| `Pairs.SortMeaning` | include/qjsbind/web/url.hpp:162-165 | sorting is an ascending permutation that keeps the values of each key in order |
| `Pairs.LessMeaning` | include/qjsbind/web/url.hpp:162-165 | the order of keys is the dictionary order of their bytes, ascending |
| `Pairs.EraseMeaning` | include/qjsbind/web/url.hpp:122-124 | erasing removes exactly the pairs of one name |
| `StableSort.StableSortIsUnique` | include/qjsbind/web/url.hpp:162-165 | there is only one stable sorting of a sequence |
| `UrlRelaxing.RelaxIdempotent` | include/fetch/client.hpp:78-110 | relaxing twice is relaxing once; past the authority every byte is safe or in a valid triple; and nothing changes exactly when that held before |
| `UrlRelaxing.RelaxKeepsMeaning` | include/qjsbind/web/url.hpp:409-442 | a relaxed URL percent-decodes to what the original did |
| `UrlRelaxing.SameAuthority` | include/fetch/client.hpp:79-84 | relaxing does not move the end of the authority |
| `UrlRelaxing.AuthorityIs` | include/fetch/client.hpp:79-84 | the authority begins behind the first "://" and ends at the first slash, question mark or hash behind it; without "://" there is none |
| `UrlRelaxing.RelaxedParts` | include/fetch/client.hpp:78-110 | scheme and authority are kept whatever is in them, and everything behind is relaxed |
| `UrlRelaxing.SafeIs` | include/fetch/client.hpp:86-92 | the bytes that are kept are the unreserved and reserved characters of RFC 3986 |
| `UrlRelaxing.RelaxUrl` | include/qjsbind/web/url.hpp:409-442 | the index loop computes the relaxed URL |
| `UrlRelaxing.RelaxedIsClean` | include/fetch/client.hpp:98-108 | what the loop writes is safe bytes and valid triples |
| `Base64.RoundTrip` | include/fetch/types.hpp:189-306 | decoding undoes encoding for all byte strings, with the padding and without it |
| `Base64.QuadDigits` | include/fetch/types.hpp:290-306 | four characters stand for the four six-bit groups of three bytes, the highest first |
| `Base64.AlphabetIs` | include/fetch/types.hpp:290-306 | the alphabet is the standard one in its order |
| `Base64.EncodingLength` | include/fetch/types.hpp:290-306 | every group of up to three bytes takes four characters with the padding |
| `Base64.DecodingStopsAtPadding` | include/fetch/types.hpp:201-213 | what stands behind the first = does not matter |
| `Base64.DigestsMatch` | include/fetch/types.hpp:309-323 | two digests match exactly when the bytes are equal, in any of the four spellings of each: padded or not, standard or url-safe alphabet |
| `Base64.DecodingFails` | include/fetch/types.hpp:201-213 | decoding fails exactly on a character outside the alphabet before the first =, and k digits give 6k/8 bytes |
| `Base64.OddLengthIsAccepted` | include/fetch/types.hpp:188-213 | a length that no encoder produces is accepted, although the comment promises a failure |
| `Base64.Encode` | include/fetch/types.hpp:290-306 | the loop over groups of three writes exactly the encoding |
| `Base64.Decode` | include/fetch/types.hpp:189-214 | the loop over a 32-bit buffer that overflows computes exactly the decoding |
| `Base64.WrapKeepsPending` | include/fetch/types.hpp:207-211 | overflow of the buffer loses only bits that were already written out |
| `Base64.ReverseTable` | include/fetch/types.hpp:193-197 | the table maps every character to its digit or to -1 |
| `Base64.DigestMatches` | include/fetch/types.hpp:309-323 | compares the normal forms |
| `Tee.Faithful` | include/qjsbind/web/stream.hpp:132-234 | for every interleaving of reads, pull completions, cancels and destructions, with any number of pulls in flight: delivered and buffered blocks of an open branch are all blocks pulled so far, those of a closed one all blocks pulled before it was closed, and the source is cancelled exactly when both are closed |
| `Tee.ReadsEverything` | include/qjsbind/web/stream.hpp:156-199 | a read gives the next block whenever one was pulled already, ends on an open branch only after every block, and waits only when there is nothing left |
| `Tee.RunDelivers` | include/qjsbind/web/stream.hpp:156-234 | over any run a branch's blocks only grow, and so do the pulls and the cancellations |
| `Tee.StepInv` | include/qjsbind/web/stream.hpp:156-234 | every step keeps the invariant of both branches |
| `TeeStory.ReadAnswers` | include/qjsbind/web/stream.hpp:156-178 | from the events of any run: a read throws if and only if some pull failed; else it gives the next of the blocks pulled before its branch was closed; when it got them all it ends if and only if some pull met the end or the branch was closed, and waits otherwise |
| `TeeStory.PullAnswers` | include/qjsbind/web/stream.hpp:182-199 | the completion of a pull is answered in the same way by the run that it belongs to |
| `TeeStory.NobodyThrows` | include/qjsbind/web/stream.hpp:156-199 | without a failed pull no read of the run throws, so the end of the source is no failure |
| `TeeStory.RunMarks` | include/qjsbind/web/stream.hpp:156-227 | a run is failed, over or closed for a branch if and only if a pull failed, a pull met the end, or the branch was cancelled or destroyed in it |
| `TeeStory.RunGives` | include/qjsbind/web/stream.hpp:156-199 | the blocks of the tee are those that the pulls gave, and a branch was given what its reads returned |
| `Tee.TeeSource.ReadOn` | include/qjsbind/web/stream.hpp:158-178 | does on the abstract state exactly one pass of the read loop |
| `Tee.TeeSource.PullEnded` | include/qjsbind/web/stream.hpp:182-199 | does exactly the completion of a pull and the next pass |
| `Tee.TeeSource.Cancel` | include/qjsbind/web/stream.hpp:203-212 | does exactly the cancel step |
| `Tee.TeeSource.Destroy` | include/qjsbind/web/stream.hpp:214-227 | does exactly the destruction step |
| `Tee.MemorySource.Read` | include/qjsbind/web/stream.hpp:109-115 | gives its block once and the end from then on |
| `Tee.MemorySource.Cancel` | include/qjsbind/web/stream.hpp:116-120 | drops the block |
| `Streams.Stream.Collect` | include/dart_cpp_bridge/stream.hpp:417-424 | collecting any composition of combinators gives the list that the composition stands for |
| `Streams.Stream.Fold` | include/dart_cpp_bridge/stream.hpp:447-455 | folding any composition folds that list |
| `Streams.Stream.Count` | include/dart_cpp_bridge/stream.hpp:437-445 | counting gives its length |
| `Streams.Stream.Next` | include/dart_cpp_bridge/stream.hpp:55-61 | a pull of any combinator takes the head of its list, and an ended stream stays ended |
| `Streams.Stream.FromVector` | include/dart_cpp_bridge/stream.hpp:85-102 | stands for the vector |
| `Streams.Stream.Map` | include/dart_cpp_bridge/stream.hpp:135-156 | stands for the mapped list |
| `Streams.Stream.Filter` | include/dart_cpp_bridge/stream.hpp:158-182 | stands for the filtered list |
| `Streams.Stream.FlatMap` | include/dart_cpp_bridge/stream.hpp:184-217 | stands for concat-map |
| `Streams.Stream.Take` | include/dart_cpp_bridge/stream.hpp:219-238 | stands for the first n elements |
| `Streams.Stream.Skip` | include/dart_cpp_bridge/stream.hpp:240-265 | stands for the list without its first n elements |
| `Streams.Stream.TakeWhile` | include/dart_cpp_bridge/stream.hpp:267-292 | stands for the longest prefix that satisfies the test |
| `Streams.Stream.SkipWhile` | include/dart_cpp_bridge/stream.hpp:294-323 | stands for the list behind that prefix |
| `Streams.Stream.Scan` | include/dart_cpp_bridge/stream.hpp:325-351 | stands for the list of intermediate folds |
| `Streams.Stream.Zip` | include/dart_cpp_bridge/stream.hpp:353-379 | stands for the pairs, up to the shorter list |
| `Streams.Stream.Merge` | include/dart_cpp_bridge/stream.hpp:381-411 | stands for the alternating merge that begins with the second stream |
| `Streams.Stream.NextFiltered` | include/dart_cpp_bridge/stream.hpp:167-177 | the loop passes over what fails the test and ends because the upstream gets shorter |
| `Streams.Stream.NextFlatMapped` | include/dart_cpp_bridge/stream.hpp:194-212 | the loop passes over empty inner streams |
| `Lists.MergeInterleaves` | include/dart_cpp_bridge/stream.hpp:396-408 | the merge keeps the order of each stream |
| `Lists.InterleavesCounts` | include/dart_cpp_bridge/stream.hpp:396-408 | and has every element of both exactly once |
| `Lists.MergeAlternates` | include/dart_cpp_bridge/stream.hpp:396-408 | and takes strict turns, the second stream first, until one is exhausted |
| `Lists.WhileMeaning` | include/dart_cpp_bridge/stream.hpp:267-323 | take_while and skip_while split the list at the first element that fails the test |
| `Lists.TakeAndSkip` | include/dart_cpp_bridge/stream.hpp:219-265 | take and skip cut the list behind n elements, or at its end |
| `Lists.FoldMeaning` | include/dart_cpp_bridge/stream.hpp:447-455 | the fold goes from the left, what was folded so far first |
| `Lists.MapMeaning` | include/dart_cpp_bridge/stream.hpp:135-156 | map keeps length and order |
| `Lists.ScanMeaning` | include/dart_cpp_bridge/stream.hpp:325-351 | each scanned element is the fold of the list up to it |
| `Lists.ZipMeaning` | include/dart_cpp_bridge/stream.hpp:353-379 | the zip has the shorter length and pairs equal positions |
| `Lists.FilterCounts` | include/dart_cpp_bridge/stream.hpp:158-182 | the filter keeps each element that satisfies the test as often as it occurred |
| `Lists.FilterConcat` | include/dart_cpp_bridge/stream.hpp:158-182 | and keeps their order |
| `Lists.FlatMapMeaning` | include/dart_cpp_bridge/stream.hpp:184-217 | concat-map is compositional |
| `HttpHeaders.SortedViewAgrees` | include/qjsbind/web/headers.hpp:232-247 | after any history: every name appears in the sorted view, names ascend and repeat only for set-cookie, each other entry has the combined value of its name, and the set-cookie entries are the set-cookie values in order |
| `HttpHeaders.SortedViewAgainstGet` | include/qjsbind/web/headers.hpp:191-247 | the view agrees with get on a name if and only if it is not set-cookie2 under the response guard |
| `HttpHeaders.AdmissibleViewAgrees` | include/qjsbind/web/headers.hpp:145-247 | on a list that holds nothing its guard forbids, which every guarded operation keeps, the two agree on every entry |
| `HttpHeaders.Headers.SetGuard` | include/qjsbind/web/headers.hpp:70 | sets the guard and leaves the list as it is, so what the new guard forbids stays in it |
| `HttpHeaders.FillThenGuard` | include/qjsbind/web/request_response.hpp:729-734 | filling before the guard is set, as a response does, reaches the exception: the view shows set-cookie2 and get hides it |
| `HttpHeaders.Headers.SortedEntries` | include/qjsbind/web/headers.hpp:232-247 | the merging loop computes the sorted view |
| `HttpHeaders.Headers.Get` | include/qjsbind/web/headers.hpp:191-207 | joins the values of the name in insertion order |
| `HttpHeaders.Headers.Has` | include/qjsbind/web/headers.hpp:181-190 | is true exactly when get gives something |
| `HttpHeaders.Headers.GetSetCookie` | include/qjsbind/web/headers.hpp:223-229 | lists the set-cookie values, not combined |
| `HttpHeaders.Headers.Append` | include/qjsbind/web/headers.hpp:152-162 | appends, is ignored when forbidden, fails only when immutable, and never lets a forbidden field in |
| `HttpHeaders.Headers.SetValue` | include/qjsbind/web/headers.hpp:163-172 | leaves the name with exactly the one value and every other name untouched |
| `HttpHeaders.Headers.Delete` | include/qjsbind/web/headers.hpp:173-180 | leaves the name with no value and every other name untouched |
| `HttpHeaders.HasForbiddenMethod` | include/qjsbind/web/headers.hpp:118-143 | the splitting loop finds a forbidden method exactly when some item of the comma-separated list is one |
| `HttpHeaders.MethodSpelling` | include/qjsbind/web/headers.hpp:118-143 | a forbidden method is recognized in any letter case and between any blanks |
| `HttpHeaders.GuardMeaning` | include/qjsbind/web/headers.hpp:118-150 | exactly which fields each guard keeps out, by name and, for an override of the method, by value |
| `HttpHeaders.JoinedConcat` | include/qjsbind/web/headers.hpp:191-207 | values stand in order with a comma and a space between them |
| `HttpHeaders.MergedSummarizes` | include/qjsbind/web/headers.hpp:236-246 | merging a sorted list keeps names and values |
| `Utf16.RoundTrip` | include/qjsbind/web/utf8.hpp:14-41 | every sequence of code points survives UTF-16 |
| `Utf16.LoneIsReplaced` | include/qjsbind/web/utf8.hpp:14-41 | a lone surrogate becomes one replacement character wherever it stands |
| `Utf16.CodePointsConcat` | include/qjsbind/web/utf8.hpp:14-41 | only the two halves of a pair are joined |
| `Utf16.FaithfulWithoutLone` | include/qjsbind/web/utf8.hpp:14-41 | the code points say what the units said if and only if no surrogate is alone |
| `Utf16.Decode` | include/qjsbind/web/utf8.hpp:14-41 | the loop joins pairs and replaces lone surrogates |

## Left out

- ChannelHeap: the flags of an operation are grouped in one record field beside its links; memory ordering, the unlocked early reads of `closed`, the blocking of stop-callback deregistration and handles that were moved from are not modelled.
- ChannelModel: an operation is destroyed neither while a completion is owed to it nor twice, which the code states as a rule for its callers; the bounded queue library is a sequence with a capacity, since every access is under the mutex.
- Oneshot: the receiver is not destroyed between the decision on its completion and the delivery, which the code states as a rule for its callers (the waiting operation outlives its completion signal); the payload is stored by value, and the exception pointer of an error is an opaque value.
- Sleep: the mutex and the condition variable become atomic steps; a wait ends by a step of its own.
- Selectors.MatcherIsCorrect: tests on name, id, class, attribute, text and scope, and the pseudo-classes on types and form state, are one opaque property of the node; the condition that the budget suffices is sufficient, and exact conditions are proved for lists without negation, for chains and :has without nesting, and for nested negations; for other mixtures of negation the exact statement is `Selectors.MatcherIsBounded`.
- Matcher.QueryAll: nodes are paths in an immutable tree instead of linked nodes, so update of the tree during a query is not expressed; a tree is finite and has only elements as inner nodes below its root.
- DocumentOrder.UniqueSort: the library's stable sort is an insertion sort, shown to be the only stable sorting; node sets that mix several nodes of one tree with nodes of another are excluded, because there the comparison is not a strict weak order and the library promises nothing.
- MultipartExact.RoundTrip: a boundary with a carriage return, which the sender never generates, is outside the theorem; what a list that does not survive parses to is stated entry by entry for framed entries (`MultipartRoundTrip.ReadsNormalForm`), and for the others through the frames that their bytes happen to form (`MultipartGrammar.ReadsExactlyFrames`).
- UrlRecord.Url: URL parsing and resolving belong to a library; the query component is a byte string kept verbatim, and the verdict on a new href is a parameter.
- Base64.DigestMatches: the hash functions and the parsing of integrity metadata are not part of this model.
- Tee.TeeSource: waking of parked reads is left out, since no read is ever parked; the exception that a failed pull carries is not modelled.
- Streams.Stream: one class holds the fields of all combinators and selects by kind, in place of one virtual class each; a combinator's function is total and has no effects; `interval` is endless and clock-driven.
- Streams.Stream.FlatMap: its function gives the list that its inner stream yields instead of a stream object, so no inner object is pulled.
- Streams.Stream.NextFlatMapped: pulls from that list, for the same reason.
- HttpHeaders.Headers: names arrive in lower case and names and values arrive validated; the unguarded insertion used for network responses is not part of this model.
- Utf16.Decode: the bytes of each code point are the UTF-8 library's; the output is the sequence of code points.
- Editing operations of the form list (set and erase by name) repeat those of the search parameters and would add only easy members.
- The binding layer to the script engine, network transports, decompression, integrity checking of streams, event loops, abort wiring and the scripts are not modelled.
