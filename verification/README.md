# zmqpp, verified models

Models, in Dafny, of the parts of zmqpp that have state and protocols of their
own, with proofs of what they are for. libzmq is not modelled: what its calls
do is a parameter (the answer of each poll, the outcome of each send and
receive, each clock sample), and the frames and messages that it carries are
first in, first out. A statement therefore holds for everything libzmq, the
clock, the handlers and the peers may do.

## The pieces

| file | what it models |
|---|---|
| `Wrappers.dfy`, `PollTypes.dfy` | results; poll items, their keys, handler lists |
| `Poller.dfy` | the vector of poll items and its two hash indexes, updated in place |
| `Reactor.dfy` | the reactor: handlers, dispatch, deferred removal |
| `TimerList.dfy` | the loop's timers and their stable sort |
| `LoopMachine.dfy` | the event loop as a machine of small steps, the specification of the loop object |
| `LoopCoupling.dfy` | the invariant of every step of the loop, and of every call between runs |
| `LoopCalls.dfy` | what the calls on the loop do, and the handler list they make |
| `LoopRuns.dfy`, `LoopRemovals.dfy`, `LoopTimers.dfy` | safety and accounting over whole runs |
| `LoopPasses.dfy`, `LoopDue.dfy`, `LoopOwnResets.dfy`, `LoopDispatch.dfy` | one timer pass, one dispatch, one flush, one poll as a whole |
| `LoopIterations.dfy` | one iteration from poll to poll |
| `LoopGuarantees.dfy` | what holds of every run of `start()`, whatever was done with the loop before |
| `LoopStranded.dfy` | timers passed over by one pass, in the passes after it |
| `EventLoop.dfy` | the loop object, whose `Start` is proved to do exactly what the machine does |
| `Inet.dfy`, `Messages.dfy` | byte order, typed messages, signals |
| `Sockets.dfy` | sending and receiving multipart messages, waiting for a signal |
| `Delivery.dfy` | what arrives of messages with interrupted parts |
| `Actor.dfy`, `ActorObject.dfy` | the two threads of an actor, and the parent's object |
| `Authenticator.dfy` | the ZAP authenticator |
| `AuthenticatorPipe.dfy` | its server and its user, with the pipe between them |
| `PrefixCode.dfy`, `ZapMetadata.dfy` | the metadata frame of a ZAP reply |
| `HexCodec.dfy` | bytes to hexadecimal text and back |

`dafny verify dfyconfig.toml` checks everything.

## How to read the models

Each object of the library that changes in place is a class with the same
fields. A method is tied to a function of the old state, and the theorems are
lemmas about that function. The loop needs one more layer: its specification
`LoopMachine.Step` takes one small step (a callback starts, a callback makes one
call on the loop, a timer is completed, ...) and writes what happened to a log,
so that a theorem about a whole run is a statement about a log. `EventLoop.Loop`
has the loops, flags and lists of the source, and `Start` ends in the state
`Run(old state)`.

The environment of a loop is given in advance: how long after the previous
sample the clock is read, what each poll reports, and how each callback reacts
(the calls it makes on the loop, then what it returns). A run whose environment
is used up is cut off. Since the environment is arbitrary, a theorem about all
such runs is one about all finite pieces of all runs. `LoopMachine.StepDescends`
shows that a run can go on for ever only by polling for ever.

What callers of the loop must not do has no effect in the model: adding a key
that is already there, adding an item from a poll handler while the handler list
is being walked, and naming a timer id that `add` has not returned. What a
duplicate add does to the poller itself is exactly stated by
`PollerModel.Poller.Add`: the indexes stay consistent if and only if the key was
absent.

The actor is a system of two threads whose steps interleave in any order, with
the assumptions of its design: pipes do not fill up, the routine sends one `ok`
and returns true only after it, and the parent's user reads no signals from the
pipe. The authenticator's server sends an `ok` for every command too; it has a
protocol of its own, in `AuthenticatorPipe`.

## What the code does that its documentation does not say

- A part of a multipart message whose send is interrupted is dropped, although
  the comment at `src/zmqpp/socket.cpp:187-189` speaks of sending the rest of the
  message, and if it was the last part, the next message arrives glued to what is
  left of this one (`Delivery.GluedPair`). `Delivery.DeliveredIffUninterrupted`
  gives the exact condition for a sequence of messages to arrive as it was sent,
  `Delivery.ArrivesIff` the one for each message in it.
- A timer whose callback resets it ends the timer pass: the timer moves behind
  all the others that are due, and the iterator moves with it.
  `LoopDue.OwnResetEndsPass` proves it whatever else the callback does, and
  `LoopDue.DueServedIff` says exactly when a timer that was due is passed over.
  When callbacks reset at most their own timers this can be told before the pass:
  `LoopOwnResets.ServedUnlessCutShort` for each timer that is due and
  `LoopOwnResets.AllServedUnlessCutShort` for all of them. `LoopDue.OwnResetAlone`
  is the plain case. A timer that was passed over stays due, and is served by the
  next pass that settles without another own reset (`LoopStranded.DueAgain`,
  `LoopStranded.StrandedAreServed`).
- When a timer callback stops the loop, the list is left before it is sorted
  again. `LoopDispatch.StoppedPassLeaves` says what list is left,
  `LoopDispatch.StoppedPass` exactly when it is still in order, and
  `LoopPasses.OversleepsUnlessFrontFirst` from which lists a poll that is still to
  come can sleep past a deadline: exactly those whose front is a millisecond or
  more ahead of the clock and has a deadline before it.
  `LoopDispatch.RestartCanOversleep` is a run that leaves such a list. A run begun
  with it oversleeps at its first poll only (`LoopPasses.LaterPollsSleepInTime`),
  and as long as no run has been stopped there is no such list
  (`LoopGuarantees.SortedUntilStopped`).
- A poll of the authenticator's server that is interrupted ends its loop, and the
  actor then sends its last ok (a poll that fails with another error throws, and
  the actor sends ko). A user who waits for the ok of a command takes it
  for that, although the command was never taken in
  (`AuthenticatorPipe.InterruptedPollMisleads`), and the next wait never ends.
  `AuthenticatorPipe.SignalIsOwnIff` says exactly when a sender's signal is its own.
- The upper-case digit F decodes to 0, because the search over the table ends
  one entry early (`src/common.c:462-467`). `HexCodec.PrintReadHexadecimal` says
  exactly which texts survive.
- `u8nprints` does not truncate to `out_size` characters, as `src/common.h:262-265`
  has it: it compares `out_size` with the number of bytes to print and writes two
  characters for each. `HexCodec.WritesInside` says exactly when that stays inside
  an output of `out_size` characters, and `HexCodec.NotCutToSize` is a case where
  it does not. The comment at `src/common.c:532-538` has the low nibble first, the
  code the high one.
- `u8ncmp` does not compare as `src/common.h:217-219` has it: its result is the
  length of the common prefix minus the wished length, and the same with the
  arguments exchanged. `HexCodec.ComparesIff` says exactly when it has the sign of
  the comparison: when the common prefix has just the wished length, or is shorter
  and the first array is less. `HexCodec.ComparesWrongly` has two inputs at which
  it has not: 2 and 1 compare as less, and two arrays that agree beyond the wished
  length compare as greater.
- A move assignment of an actor to itself leaves it without a pipe, and what the
  target of a move held before is neither stopped nor freed
  (`ActorObject.Actor.MoveFrom`).

## Model

| member | source | states |
|---|---|---|
| `PollerModel.Appended` | src/zmqpp/poller.cpp:53-62 | appending an item keeps the two indexes a bijection between keys and positions if and only if the key was absent |
| `PollerModel.SwapWithLastAndPop` | src/zmqpp/poller.cpp:114-115 | after the swap and the pop every item but the removed one is there, the last one in its place |
| `PollerModel.SwappedAndDropped` | src/zmqpp/poller.cpp:107-121 | swap-with-last removal followed by re-indexing the moved item leaves no stale position: the moved item is still indexed, and exactly the removed key is gone |
| `PollerModel.LastDropped` | src/zmqpp/poller.cpp:128-133 | removing the last item needs no re-indexing |
| `PollerModel.RefreshedIsPolled` | src/zmqpp/poller.cpp:191-205 | writing the reported flags position by position is updating the map key by key; the result count is positive exactly when some monitored key has flags |
| `PollerModel.Poller.constructor` | src/zmqpp/poller.cpp:24-30 | a new poller is the empty map |
| `PollerModel.Poller.Add` | src/zmqpp/poller.cpp:53-62 | add is insertion into the map from keys to items; the representation stays valid if and only if the key was absent |
| `PollerModel.Poller.Has` | src/zmqpp/poller.cpp:74-79 | has is membership |
| `PollerModel.Poller.Reindex` | src/zmqpp/poller.cpp:81-95 | reindex throws if and only if the key has no position, and otherwise corrects that one position |
| `PollerModel.Poller.Detach` | src/zmqpp/poller.cpp:107-120 | the part of both removals that drops the item: the key is gone from the map, and at most one position is left to correct |
| `PollerModel.Poller.RemoveDescriptor` | src/zmqpp/poller.cpp:102-121 | removal of a descriptor deletes its key or does nothing, keeps all other entries, and never throws |
| `PollerModel.Poller.RemoveSocket` | src/zmqpp/poller.cpp:123-142 | the same for sockets |
| `PollerModel.Poller.Remove` | src/zmqpp/poller.cpp:144-150 | the same for items of either kind |
| `PollerModel.Poller.CheckFor` | src/zmqpp/poller.cpp:174-189 | check_for throws if and only if the key is absent, and otherwise changes the monitored events of that key only |
| `PollerModel.Poller.EventsOf` | src/zmqpp/poller.cpp:229-242 | events throws if and only if the key is absent, and otherwise gives its reported events wherever swaps have put the item |
| `PollerModel.Poller.Poll` | src/zmqpp/poller.cpp:191-205 | an interrupted poll returns false and changes nothing, a failed one throws, and a successful one returns true exactly when a monitored key has flags |
| `PollerModel.Poller.Perform` | src/zmqpp/poller.cpp:53-189 | any sequence of adds of absent keys, removals of present or absent ones and check_for keeps the representation valid, and the poller is the map that the same operations give |
| `PollTypes.ReadyIff` | src/zmqpp/loop.cpp:195-206 | after a poll a handler is ready if and only if its item is monitored and the flags reported for it have input, output or error |
| `ReactorModel.ServedIs` | src/zmqpp/reactor.cpp:63-109 | what a handler asks for during dispatch leaves the handler list and the reported events alone: it retunes monitored events and makes removals pending |
| `ReactorModel.DispatchIs` | src/zmqpp/reactor.cpp:115-122 | a dispatch calls exactly the handlers that were ready when it began, each once and in insertion order, whatever the earlier handlers asked for; looking up events never throws |
| `ReactorModel.AskedByHandlers` | src/zmqpp/reactor.cpp:63-99 | a key is asked to be removed in a dispatch if and only if one of the handlers called asks for it |
| `ReactorModel.RetunedToLast` | src/zmqpp/poller.cpp:174-189 | after a dispatch a key is monitored for the events it was last retuned to, and what was reported for it stays |
| `ReactorModel.RemovedAtOnce` | src/zmqpp/reactor.cpp:63-99 | removing one by one in any order is deleting the set of keys from the handler list and the poller, with the order of the rest kept |
| `ReactorModel.RemovalsArePending` | src/zmqpp/reactor.cpp:150-158 | the removals that a flush makes, in its own order, are exactly the pending ones |
| `ReactorModel.Reactor.Add` | src/zmqpp/reactor.cpp:46-51 | add appends to the handler list and inserts into the poller; if the key was absent, handler list and poller still hold the same keys |
| `ReactorModel.Reactor.RemoveSocket` | src/zmqpp/reactor.cpp:63-80 | removal is deferred during dispatch and immediate otherwise; either way handler list and poller still hold the same keys |
| `ReactorModel.Reactor.RemoveDescriptor` | src/zmqpp/reactor.cpp:82-99 | the same for descriptors |
| `ReactorModel.Reactor.FlushRemoveLater` | src/zmqpp/reactor.cpp:150-158 | a flush deletes exactly the pending keys and empties both lists |
| `ReactorModel.Reactor.Dispatch` | src/zmqpp/reactor.cpp:115-122 | the loop over the handlers is the specified dispatch |
| `ReactorModel.Reactor.Poll` | src/zmqpp/reactor.cpp:111-128 | a poll calls each handler that was ready at dispatch start exactly once in insertion order, even if an earlier handler asked for its removal; afterwards the removals asked for have taken effect, nothing is pending, and handler list and poller hold the same keys |
| `ReactorModel.AllPerformedCoupled` | src/zmqpp/reactor.cpp:46-128 | after any sequence of adds, removals and polls handler list and poller hold the same keys, each once, and nothing is pending |
| `ReactorModel.Reactor.Perform` | src/zmqpp/reactor.cpp:46-128 | the same of the object: it can be polled after any adds, removals and polls, and ends where their specifications do |
| `TimerList.SortIsSortedPermutation` | src/zmqpp/loop.cpp:231-234 | sorting by deadline yields an ordered permutation |
| `TimerList.SortIsStable` | src/zmqpp/loop.cpp:77-81 | timers that are not out of order keep their order |
| `LoopMachine.StepDescends` | src/zmqpp/loop.cpp:145-206 | every phase of an iteration ends: each step lowers a measure, so that a run can be endless only by polling for ever |
| `LoopCoupling.StepCoupled` | src/zmqpp/loop.cpp:62-143 | every step keeps the coupling: the handler list and the poller hold the same keys, each once; timer ids are distinct and were issued; the timer whose callback runs is still in the list; removals are pending only while dispatching |
| `LoopCoupling.RunCoupled` | src/zmqpp/loop.cpp:145-219 | after every run the coupling holds, no lookup has thrown, and when start() has returned or its poll has thrown nothing is pending and dispatching_ is false |
| `LoopCoupling.StepsCoupled` | src/zmqpp/loop.cpp:145-206 | the same in every intermediate state |
| `LoopCoupling.ServeAtRest` | src/zmqpp/loop.cpp:62-143 | any call outside a run, removals that take effect at once included, keeps the coupling and leaves nothing pending |
| `LoopCoupling.AllPerformedAtRest` | src/zmqpp/loop.cpp:62-171 | the same after any sequence of calls and runs, until a run is cut off |
| `LoopCalls.AddItemIs` | src/zmqpp/loop.cpp:62-67 | an added item is the last of the handler list, with its own events and handler, and is monitored with no flags; the poll set counts as changed |
| `LoopCalls.AddTimerIs` | src/zmqpp/loop.cpp:69-81 | an added timer has the next id, its own count and delay, and is due one delay after the clock sample; the list is sorted and otherwise the same |
| `LoopCalls.ResetTimerIs` | src/zmqpp/loop.cpp:83-91 | a reset makes the first timer with the id due one delay after the clock sample and sorts, and does nothing for an absent one |
| `LoopCalls.RemoveTimerIs` | src/zmqpp/loop.cpp:93-103 | while dispatching a timer removal is only noted; otherwise exactly the timers with the id go |
| `LoopCalls.RemoveItemIs` | src/zmqpp/loop.cpp:105-143 | while dispatching the removal of an item is only noted and the poll set counts as changed; otherwise exactly its handlers and its key go |
| `LoopCalls.StepFollowsScript` | src/zmqpp/loop.cpp:173-206 | a callback that starts makes its own calls, one by one and in order, and its own return value counts; each call is logged as the removal, timer or item it asks for, with its deadline, events and handler; nothing else makes calls |
| `LoopCalls.RunMatches` | src/zmqpp/loop.cpp:62-219 | in every run the handler list is what the log says: what was there and what was added, in order, less what was asked out before a later poll or the return |
| `LoopCalls.HandlersAreRegistered` | src/zmqpp/loop.cpp:62-219 | after any calls and runs the handler list is the accepted adds in the order made, each with its own handler and events, less those removed, and the poller monitors each for its events |
| `LoopRuns.NoCallAfterRefusal` | src/zmqpp/loop.cpp:145-171 | after a callback has returned false, no callback, poll or dispatch follows in the run |
| `LoopRuns.NoStaleDispatch` | src/zmqpp/loop.cpp:148-165 | handlers are called only in a dispatch of their own iteration, and no poll item was added and no removal of one asked for between that iteration's poll and its dispatch |
| `LoopRemovals.RemovedTimersStaySilent` | src/zmqpp/loop.cpp:93-103 | a timer whose removal was asked for does not fire after the next poll, in any later iteration |
| `LoopRemovals.RemovedItemsStaySilent` | src/zmqpp/loop.cpp:105-143 | a handler whose removal was asked for is not called after the next poll unless its key is added again after that poll |
| `LoopTimers.TimersConserved` | src/zmqpp/loop.cpp:33-48 | over any run, firings and remaining count of a timer add up to its initial count; it disappears exactly when the count is used up or its removal was asked for; a timer without a count is never erased by firing; without resets its deadline after k firings is k delays after its first one, however late it was dispatched |
| `LoopTimers.DeadlinesFromCreation` | src/zmqpp/loop.cpp:33-48 | a timer created in the run that has fired k times and was never reset is due k + 1 delays after the clock sample of its creation |
| `LoopTimers.CompletedBalanced` | src/zmqpp/loop.cpp:180-185 | one firing moves these books by one |
| `LoopCoupling.RunHalts` | src/zmqpp/loop.cpp:145-171 | every run on a given environment ends |
| `LoopPasses.RemovedOneByOne` | src/zmqpp/loop.cpp:208-219 | removing any list of descriptors, sockets and timers one by one, in any order, is removing the sets of them |
| `LoopPasses.FlushIsImmediateRemoval` | src/zmqpp/loop.cpp:208-219 | a flush gives the same handler list, poll map and timer list as immediate removals of the pending targets in any order |
| `LoopPasses.FlushKeepsOrder` | src/zmqpp/loop.cpp:113-121 | the survivors of a removal keep their order |
| `LoopPasses.TimeoutFits` | src/zmqpp/loop.cpp:221-229 | from a sorted list the timeout is between 0 and 3600000 ms; if it is positive, the second clock sample plus the timeout is not after any deadline; one millisecond more would pass a deadline or the hour |
| `LoopPasses.OversleepsUnlessFrontFirst` | src/zmqpp/loop.cpp:221-229 | for a list in any order and a time from which on the clock is read, no poll sleeps past a deadline if and only if the list is empty, its front is less than a millisecond ahead of that time, or no deadline is before that of the front |
| `LoopPasses.PollsSleepInTime` | src/zmqpp/loop.cpp:145-150 | at every poll of a run begun with a sorted list the timeout fits the timers of that moment, despite two clock samples and truncation |
| `LoopPasses.LaterPollsSleepInTime` | src/zmqpp/loop.cpp:145-193 | in a run begun with any list this holds of every poll but the first, because a timer phase that does not stop the loop ends in the sort |
| `LoopPasses.QuietPass` | src/zmqpp/loop.cpp:173-193 | when callbacks return true and do not add or reset timers, exactly the timers due fire, each once, in deadline order; used up ones are gone, the other fired ones are one delay later, the rest are unchanged, and the list is a sorted permutation of the survivors |
| `LoopDue.DueTimersFire` | src/zmqpp/loop.cpp:173-193 | whatever callbacks add, remove and reset, after a complete pass each timer that was due has fired or was itself reset, unless some callback reset its own timer |
| `LoopDue.NewTimersWait` | src/zmqpp/loop.cpp:69-81 | no timer added during a pass fires in that pass |
| `LoopDue.OwnResetEndsPass` | src/zmqpp/loop.cpp:83-91 | whatever the callbacks of a pass ask for and return, no timer fires in it after one of them has reset its own timer |
| `LoopDue.DueServedIff` | src/zmqpp/loop.cpp:173-193 | when a pass over a sorted list settles, every timer that was due has fired or been reset if and only if no callback has reset its own timer while another due timer was waiting that is not reset in the pass as well |
| `LoopOwnResets.MildPass` | src/zmqpp/loop.cpp:173-193 | when the callbacks of the timers that are due return true, add no timer and reset at most their own, the pass settles, and the due timers at the front of the list fire in its order, each once, up to the first whose callback resets it |
| `LoopOwnResets.ServedUnlessCutShort` | src/zmqpp/loop.cpp:173-193 | in such a pass the i-th of them is fired or reset if and only if none of the i callbacks before resets its own timer |
| `LoopOwnResets.AllServedUnlessCutShort` | src/zmqpp/loop.cpp:173-193 | in such a pass from a sorted list all of them are if and only if none but the last callback resets its own timer |
| `LoopDue.OwnResetAlone` | src/zmqpp/loop.cpp:83-91 | a first due timer whose callback does nothing but reset it is the only one that fires or is reset, whatever else is due |
| `LoopStranded.DueAgain` | src/zmqpp/loop.cpp:173-193 | a timer that was due when one pass began has, when any later pass of the run begins, fired, been reset or been asked to be removed, or it is due again |
| `LoopStranded.ServedByLaterPass` | src/zmqpp/loop.cpp:173-193 | when a later pass settles in which no callback resets its own timer, every timer that was due when the earlier one began has since fired, been reset or been asked to be removed |
| `LoopStranded.StrandedAreServed` | src/zmqpp/loop.cpp:145-193 | this holds for any two passes of a run of a loop at rest |
| `LoopDispatch.DispatchInOrder` | src/zmqpp/loop.cpp:195-206 | a dispatch calls the ready handlers in insertion order, each once, all of them if it is not stopped and a prefix if it is |
| `LoopDispatch.StoppedPass` | src/zmqpp/loop.cpp:180-192 | a sorted list left by a pass that its n-th timer stops, after callbacks that leave the timers alone, is in order if and only if no timer that fired and goes on has overtaken one behind it |
| `LoopDispatch.StoppedPassLeaves` | src/zmqpp/loop.cpp:178-187 | a pass stopped by the n-th due timer, after callbacks that leave the timers alone: exactly the first n have fired, each once and in order, and the list is left as it stands, with those n completed in place |
| `LoopDispatch.StoppedPassOversleeps` | src/zmqpp/loop.cpp:186-187 | from the list left by such a pass no poll after it sleeps past a deadline if and only if its front is less than a millisecond ahead of the clock or none of its timers is due before the front; the condition is on the state before the pass |
| `LoopDispatch.StoppedRunOversleeps` | src/zmqpp/loop.cpp:145-193 | a run stopped by its first timer returns with a list from which no poll after it oversleeps if and only if that timer was used up, alone, is still not due after the next one, or is due within a millisecond |
| `LoopDispatch.RestartCanOversleep` | src/zmqpp/loop.cpp:221-229 | a run of a loop at rest, begun with a sorted list, that returns with a list from which a poll after it can oversleep |
| `LoopGuarantees.EveryPassIsSound` | src/zmqpp/loop.cpp:152-193 | every timer pass of a run, the first one if the run began with a sorted list: due timers are served exactly unless an own reset strands one, nothing fires after an own reset, no timer added in the pass fires in it, and with callbacks that leave the timers alone firings and list are exactly those of a complete or a stopped pass |
| `LoopGuarantees.EveryDispatchIsSound` | src/zmqpp/loop.cpp:162-206 | every dispatch of a run calls the ready handlers in order, all of them unless one stops it |
| `LoopIterations.IterationSound` | src/zmqpp/loop.cpp:147-169 | an iteration makes one poll, whose timeout is exactly the time to the front deadline or the hour; when its timer phase and dispatch are over, a dispatch has begun if and only if flags were reported for a monitored key and no poll item was added or asked out since the poll, and then it has called exactly the handlers that are ready, in order; the loop is left if and only if a callback has returned false, and the poll throws if and only if zmq_poll failed |
| `LoopIterations.RunAccounted` | src/zmqpp/loop.cpp:145-171 | the n-th poll of a run is answered by the n-th round, and start() returns if and only if some callback has returned false |
| `LoopGuarantees.EveryIterationIsSound` | src/zmqpp/loop.cpp:145-171 | this holds of every iteration of a run, and the run goes on where the iteration ends |
| `LoopGuarantees.EveryStepFollows` | src/zmqpp/loop.cpp:145-206 | in every state of a run the callbacks follow the script, and as many rounds are used up as polls were made |
| `LoopGuarantees.RunGuarantees` | src/zmqpp/loop.cpp:145-219 | for every run of start() of a loop at rest: it ends; no lookup throws; on return nothing is pending and no removed timer is left; nothing follows a refusal, and it returns if and only if there was one; no stale dispatch; what was removed stays silent; the timers' books balance; every iteration dispatches what its poll reported unless the poll set has changed; every dispatch is sound; every poll sleeps in time and every timer pass is sound, the first of each if the run began with a sorted list; the handlers left are those the log says; iterations, passes, dispatches and the end of the run are among its states |
| `LoopGuarantees.EveryRunIsSound` | src/zmqpp/loop.cpp:62-219 | whatever calls and runs there were before, every run of a loop is such a run |
| `LoopGuarantees.SortedUntilStopped` | src/zmqpp/loop.cpp:62-219 | the list between runs is sorted as long as no callback has stopped a run |
| `LoopMachine.RunContinues` | src/zmqpp/loop.cpp:145-171 | the timer phase and the dispatch are parts of the run: going on from where either ends gives the same final state |
| `LoopMachine.TimerPassIsSteps` | src/zmqpp/loop.cpp:152-154 | the end of a timer pass is one of the states of the run |
| `EventLoop.Loop.constructor` | src/zmqpp/loop.cpp:23-27 | a new loop is empty and not dispatching |
| `EventLoop.Loop.AddItem` | src/zmqpp/loop.cpp:62-67 | add puts the item with its handler behind all others, makes the poller monitor it for its events, and marks the poll set as changed; a loop at rest (coupled, nothing pending, not dispatching) stays so |
| `EventLoop.Loop.AddTimer` | src/zmqpp/loop.cpp:69-81 | add samples the clock and puts a timer that is due one delay later into the sorted list; the id is one not used before; a loop at rest stays so |
| `EventLoop.Loop.Reset` | src/zmqpp/loop.cpp:83-91 | reset restarts the delay of the first timer with the id and sorts, and does nothing for an absent one; a loop at rest stays so |
| `EventLoop.Loop.RemoveTimer` | src/zmqpp/loop.cpp:93-103 | removal of a timer is deferred while dispatching and immediate otherwise; a loop at rest stays so |
| `EventLoop.Loop.RemoveSocket` | src/zmqpp/loop.cpp:105-123 | the same for sockets, with the poll set marked as changed when deferred; a loop at rest stays so |
| `EventLoop.Loop.RemoveDescriptor` | src/zmqpp/loop.cpp:125-143 | the same for descriptors; a loop at rest stays so |
| `EventLoop.Loop.FlushRemoveLater` | src/zmqpp/loop.cpp:208-219 | the three loops of a flush, in their order, remove exactly what is pending |
| `EventLoop.Loop.SampleTickless` | src/zmqpp/loop.cpp:221-229 | the timeout of two successive clock samples |
| `EventLoop.Loop.PollRound` | src/zmqpp/loop.cpp:148-150 | the head of an iteration: flush, timeout, poll |
| `EventLoop.Loop.FireTimer` | src/zmqpp/loop.cpp:178-187 | one due timer: its callback with all it calls, then erasure or update of the node the iterator stays with |
| `EventLoop.Loop.StartHandleTimers` | src/zmqpp/loop.cpp:173-193 | the timer phase is the timer pass of the machine |
| `EventLoop.Loop.VisitHandler` | src/zmqpp/loop.cpp:197-204 | the turn of one handler |
| `EventLoop.Loop.StartHandlePoller` | src/zmqpp/loop.cpp:195-206 | the dispatch is the item pass of the machine |
| `EventLoop.Loop.Iterate` | src/zmqpp/loop.cpp:147-169 | one iteration of the endless loop |
| `EventLoop.Loop.Leave` | src/zmqpp/loop.cpp:170-171 | the final flush |
| `EventLoop.Loop.Start` | src/zmqpp/loop.cpp:145-171 | start() ends exactly where the machine ends, normally, by an exception of the poll, or with the environment used up |
| `EventLoop.Loop.Perform` | src/zmqpp/loop.cpp:62-171 | any sequence of calls and runs can be made, and the object ends where their specifications do, at rest unless the last run was cut off |
| `Inet.LittleInverse` | src/zmqpp/inet.hpp:71-81 | the bytes of an integer determine it |
| `Inet.SwapIsNetworkOrder` | src/zmqpp/inet.hpp:94-114 | on a host of either byte order the converted integer lies in memory in network order, and converting twice gives the integer back |
| `Inet.SwapFromMemory` | src/zmqpp/inet.hpp:110-113 | converting the integer whose memory holds received bytes gives the value they encode in network order |
| `Inet.NetworkIsBigEndian` | src/zmqpp/inet.hpp:94-114 | bytes are in network order if and only if byte i of w is the number divided by 256^(w-1-i), modulo 256 |
| `Inet.DetectionIsRight` | src/zmqpp/inet.hpp:64 | htonl(42) == 42 tells the host order |
| `Inet.SwapIfNeeded` | src/zmqpp/inet.hpp:62-82 | the four swaps of the union are the conversion |
| `Inet.CastsInverse` | src/zmqpp/message.cpp:129-151 | the casts between signed and unsigned integers of the same width lose nothing |
| `Messages.ReadBack` | src/zmqpp/message.cpp:121-221 | any signed or unsigned 8, 16, 32 or 64 bit integer, bool, signal or string written on a host of either order is read back on a host of either order, and its bytes do not depend on the writer's host |
| `Messages.EncodedIs` | src/zmqpp/message.cpp:225-328 | a part is what a host of either order writes for a value if and only if it holds the value's bytes, most significant first for integers and signals |
| `Messages.DecodedIs` | src/zmqpp/message.cpp:121-221 | reading a part of any bytes succeeds if and only if its size is that of the type, and gives a value if and only if the value is in range and its bytes are the part |
| `Messages.StreamRoundTrip` | src/zmqpp/message.cpp:225-328 | a list of mixed values streamed in and read back by their types is the list |
| `Messages.SignalIffMagic` | src/zmqpp/message.cpp:488-498 | a message is a signal if and only if it is one part of eight bytes that begins 77 66 55 44 33 22 11, and its last byte is the signal's value |
| `Messages.SignalRoundTrip` | src/zmqpp/signal.hpp:24-44 | every declared signal, and every other value of the last byte, is recognised and read back |
| `Messages.DeclaredSignals` | src/zmqpp/signal.hpp:24-44 | ok, ko, stop and test are sent as the seven magic bytes followed by 0, 1, 2 and 255 |
| `Messages.Message.Write` | src/zmqpp/message.cpp:225-328 | operator<< appends one part: the bytes of an integer or signal modulo 256^w, most significant first, on either host; one byte 1 or 0 for a bool; the bytes of a string |
| `Messages.Message.PushFront` | src/zmqpp/message.cpp:330-416 | push_front puts the same part, with the same bytes, before all others |
| `Messages.PushFrontIsReadAgain` | src/zmqpp/message.cpp:330-333 | after k values have been read, a push_front makes the reader see the last of them again, since the cursor stays where it is |
| `Messages.RemovalShiftsReading` | src/zmqpp/message.cpp:418-431 | the removal of a part already read makes the reader skip a value; the removal of a later one only takes that one away |
| `Messages.Message.PopFront` | src/zmqpp/message.cpp:418-421 | takes the first part away and leaves the cursor |
| `Messages.Message.PopBack` | src/zmqpp/message.cpp:423-426 | takes the last part away and leaves the cursor |
| `Messages.Message.Remove` | src/zmqpp/message.cpp:428-431 | takes one part away and leaves the cursor |
| `Messages.Message.CopyFrom` | src/zmqpp/message.cpp:456-467 | the loop copies all parts with their marks, whether or not a message is copied to itself, and leaves the cursor |
| `Messages.Message.MoveFrom` | src/zmqpp/message.cpp:441-447 | a move hands over parts and cursor and leaves the source empty; a message moved to itself loses its cursor and keeps what the standard library leaves of the parts |
| `Messages.Message.Read` | src/zmqpp/message.hpp:253-258 | operator>> reads the part at the cursor, whoever wrote it: it fails if and only if the part is missing or has another size, and otherwise gives the number in range whose bytes, most significant first, are the part; it moves the cursor in any case |
| `Messages.Message.ReadAll` | src/zmqpp/message.hpp:253-258 | reading by a list of types succeeds exactly when every part is there and fits |
| `Messages.Message.Transfer` | src/zmqpp/message.cpp:121-328 | a list of mixed values streamed into a message on one host is streamed out of it on another |
| `Sockets.GatherTakesFirst` | src/zmqpp/socket.cpp:209-263 | whatever the calls of libzmq do, a true receive has taken exactly the first message of the stream, a false one has taken nothing and leaves no parts, and if interruptions are the only trouble a message that is there is delivered |
| `Sockets.GatherResultIs` | src/zmqpp/socket.cpp:209-263 | a receive returns false if and only if its first call delivers nothing; it throws only where a call fails, and an assertion fails only where a later part is reported to block |
| `Sockets.NothingThere` | src/zmqpp/socket.cpp:209-263 | on an empty pipe a receive that may block blocks, and one that may not returns false |
| `Sockets.ResultIs` | src/zmqpp/socket.cpp:148-207 | the result of a send is decided by the first part whose call fails for good, or is refused or interrupted as the first one, or that was marked as sent before; it is true if there is none |
| `Sockets.FramingRoundTrip` | src/zmqpp/socket.cpp:148-263 | any sequence of messages with at least one part comes back part for part from its frames |
| `Sockets.TakenWhole` | src/zmqpp/socket.cpp:157-201 | without an interruption the frames sent are all parts, each but the last marked as followed by more |
| `Delivery.SuccessIsReported` | src/zmqpp/socket.cpp:171-206 | a message not sent before is reported as sent if and only if its first part is taken and no later part meets another error than an interruption |
| `Delivery.DeliveredIffUninterrupted` | src/zmqpp/socket.cpp:171-193 | for any sequence of messages reported as sent: the messages that arrive are those sent if and only if no part past the first of any of them was interrupted |
| `Delivery.ArrivesIff` | src/zmqpp/socket.cpp:171-193 | each of them arrives as it was sent, made of exactly its own frames, if and only if all its parts were taken and so was the last part of the message before it |
| `Delivery.GluedPair` | src/zmqpp/socket.cpp:180-192 | behind a message whose last part was dropped an uninterrupted one arrives glued to it |
| `Sockets.FirstSignalIs` | src/zmqpp/socket.cpp:954-968 | the signal found is the first in the stream of messages, and what is left is what follows it |
| `Sockets.Socket.Send` | src/zmqpp/socket.cpp:148-207 | for every outcome of every call and any message: the result, the frames that go out, and which parts are left marked; a false send has sent and marked nothing, a true one empties the message; a part marked as sent before fails an assertion when it is taken; which calls are made, that none waits after an interruption, and that none waits if the caller does not want to |
| `Sockets.Socket.Receive` | src/zmqpp/socket.cpp:209-263 | the loop of receive gathers one message |
| `Sockets.Socket.ReceiveRetrying` | src/zmqpp/socket.cpp:959 | trying again until a receive succeeds takes exactly the first message, for any finite pattern of interruptions |
| `Sockets.Socket.ReceiveAll` | src/zmqpp/socket.cpp:209-263 | repeated receives get the messages of the stream in order |
| `Sockets.Socket.SendRetrying` | src/zmqpp/socket.cpp:173-185 | a message that is refused at its first part any number of times and sent again goes out whole, once |
| `Sockets.Socket.Convey` | src/zmqpp/socket.cpp:148-263 | messages sent through a pipe come out part for part and in order, however often first parts are refused and sent again and however often the receives are interrupted |
| `Sockets.Socket.Wait` | src/zmqpp/socket.cpp:954-968 | wait returns the first signal and consumes exactly the messages up to it, and succeeds if and only if there is one |
| `ActorProtocol.ReachableInv` | src/zmqpp/actor.cpp:32-136 | every interleaving of the two threads keeps the invariant of pipes, mutex, exception slot and result |
| `ActorProtocol.SignalsAreWellFormed` | src/zmqpp/actor.cpp:118-136 | the child's signals are a prefix of ok and a final one, or of ko alone; the final one is ok if and only if the routine returned true |
| `ActorProtocol.ConstructionFollowsFirstSignal` | src/zmqpp/actor.cpp:48-70 | the constructor returns if and only if the first signal is ok; if it throws, the routine's exception is nested if and only if the routine threw |
| `ActorProtocol.ExceptionBeforeKo` | src/zmqpp/actor.cpp:127-132 | if the routine threw, its exception is stored before ko can be seen |
| `ActorProtocol.StopTellsTheResult` | src/zmqpp/actor.cpp:94-116 | every answer of a blocking stop, the first and all later ones, is true if and only if the routine returned true |
| `ActorProtocol.PipesDeliver` | src/zmqpp/actor.cpp:32-136 | in every interleaving what was read from either pipe and what is still on it are exactly what the other side has sent, in order |
| `ActorProtocol.ChildIsTold` | src/zmqpp/actor.cpp:88-116 | the signals on the child's pipe are all stop, one for each stop() and for the destructor, waiting or not; wherever the parent waits in stop(), has its answer or is destroyed, a stop is on the child's pipe or has been read |
| `ActorProtocol.WaitIsNeverStuck` | src/zmqpp/actor.cpp:49 | while the parent waits, some thread can go on, and once the routine has taken its leave a signal is waiting |
| `ActorProtocol.WaitEnds` | src/zmqpp/actor.cpp:111 | once the routine has taken its leave the parent leaves wait() by its own steps |
| `ActorProtocol.CheckIsNeverStuck` | src/zmqpp/actor.cpp:51-55 | a constructor that got ko gets the mutex in the end |
| `ActorObject.TakenToSignal` | src/zmqpp/actor.cpp:49 | taking messages one by one until a signal is hearing that signal with all messages before it consumed |
| `ActorObject.StopAnswersTruly` | src/zmqpp/actor.cpp:94-116 | from every reachable state a blocking stop ends stopped with an answer that is true if and only if the routine returned true |
| `ActorObject.Pipe.Wait` | src/zmqpp/socket.cpp:954-968 | waiting consumes the messages up to the first signal |
| `ActorObject.Actor.Handshake` | src/zmqpp/actor.cpp:48-70 | the end of the constructor takes the parent's steps of the protocol, with mutex and exception slot: it fails, and gives up the pipe, if and only if the first signal is ko, and then carries the routine's exception if and only if the slot holds one |
| `ActorObject.Actor.Stop` | src/zmqpp/actor.cpp:94-116 | stop always sends the child one stop signal, whether it blocks or not, and takes the parent's steps of the protocol; a blocking one consumes the messages up to the first signal and answers whether that was ok, or says its answer again; without a pipe it does nothing and answers false |
| `ActorObject.Actor.MoveFrom` | src/zmqpp/actor.cpp:78-86 | a move hands over pipe, flag and result, and leaves the source without a pipe, even when source and target are the same |
| `ActorObject.Actor.MoveAndStop` | src/zmqpp/actor.cpp:78-116 | after a move the target answers stop as the source would have, and stopping the source does nothing |
| `Authentication.ConfigOfHistory` | src/zmqpp/auth.cpp:155-251 | the configuration is a function of the commands so far: all addresses allowed and denied, the first password of each user, all keys but the wildcard, and the wildcard if it was the last CURVE command |
| `Authentication.LastGivenCounts` | src/zmqpp/auth.cpp:187-235 | domain and verbosity are the last ones given |
| `Authentication.CommandsAreUnderstood` | src/zmqpp/auth.cpp:74-153 | the server takes a message for a command if and only if it begins with what the sender of that command sends |
| `Authentication.CommandsByName` | src/zmqpp/auth.cpp:155-251 | a message that is taken in is the command of its name, with its parts in their order |
| `Authentication.CommandsFail` | src/zmqpp/auth.cpp:155-251 | an empty message is nothing; one throws if and only if it lacks a part of the command it names; one is unknown if and only if it names none |
| `Authentication.RequestsAreUnderstood` | src/zmqpp/zap_request.cpp:37-74 | a message is taken for a request if and only if it begins with the frames of that request, in version 1.0 |
| `Authentication.RequestsFail` | src/zmqpp/zap_request.cpp:37-74 | frames hold no request if and only if there are none, too few for the mechanism, or the version is another one |
| `Authentication.ReplyIs` | src/zmqpp/auth.cpp:307-380 | the reply, frame by frame: 200 with the user id if and only if the address was allowed, or none ever was and it was not denied, and the mechanism's own condition on the commands holds, written out for NULL, PLAIN, CURVE, GSSAPI and unknown mechanisms; 400 otherwise |
| `Authentication.DenyIsMootAfterAllow` | src/zmqpp/auth.cpp:323-352 | once an address was allowed, deleting all DENY commands changes no answer |
| `Authentication.TalkIsMoot` | src/zmqpp/auth.cpp:187-194 | deleting all DOMAIN, VERBOSE and GSSAPI commands changes no answer |
| `Authentication.RepliesAreWellFormed` | src/zmqpp/zap_request.cpp:79-99 | a reply echoes version and sequence, and names a user only in a 200 for PLAIN or CURVE |
| `Authentication.ServiceIs` | src/zmqpp/auth.cpp:57-66 | whatever comes in and in whatever order: the history is the recognised commands, each request gets exactly one reply, decided by the commands before it, and the loop goes on until a poll is interrupted or TERMINATE has come, unless it throws or aborts; a poll that fails makes it throw and loses nothing done before |
| `AuthenticatorPipe.ReachableInv` | src/zmqpp/auth.cpp:40-125 | every interleaving of user and server keeps the order of the pipe: the announcement, one ok for each command taken in, the signal of the end |
| `AuthenticatorPipe.NthWaitNthCommand` | src/zmqpp/auth.cpp:81-153 | as long as the server serves, the n-th wait takes the ok of the n-th command, which has been taken in |
| `AuthenticatorPipe.SignalIsOwnIff` | src/zmqpp/auth.cpp:57-125 | a sender's signal is the ok of its own command if and only if the command was taken in; if the loop was over before, which happens to one sender at most, it is the actor's last signal, a ko if a failed poll or another exception ended the loop |
| `AuthenticatorPipe.OkIsWaiting` | src/zmqpp/auth.cpp:155-251 | a command that has been taken in has its ok waiting for its sender |
| `AuthenticatorPipe.NothingBehindTheEnd` | src/zmqpp/actor.cpp:118-136 | behind the signal of the end there is none: whoever waits then waits for ever |
| `AuthenticatorPipe.DestroyedInOrder` | src/zmqpp/auth.cpp:74-79 | the destructor returns only if every command, TERMINATE included, was taken in and acknowledged to its own sender |
| `AuthenticatorPipe.InterruptedPollMisleads` | src/zmqpp/auth.cpp:57-66 | a run in which the poll is interrupted and a sender takes the last ok for its own |
| `Authentication.Authenticator.constructor` | src/zmqpp/auth.cpp:35-38 | a new authenticator has the configuration of no commands |
| `Authentication.Authenticator.Take` | src/zmqpp/auth.cpp:169-243 | what each command updates, and that it updates nothing else |
| `Authentication.Authenticator.HandleCommand` | src/zmqpp/auth.cpp:155-251 | a recognised command is taken in and acknowledged, anything else changes nothing |
| `Authentication.Authenticator.AuthenticatePlain` | src/zmqpp/auth.cpp:253-271 | a password is right if and only if it is the first one configured for the user |
| `Authentication.Authenticator.AuthenticateCurve` | src/zmqpp/auth.cpp:273-297 | a key is good if and only if it was configured or the wildcard was the last CURVE command |
| `Authentication.Authenticator.Authenticate` | src/zmqpp/auth.cpp:307-380 | the code with its two flags gives the declarative decision on the history of commands, and sends exactly the 200 or the 400 reply that it means |
| `Authentication.Authenticator.Run` | src/zmqpp/auth.cpp:57-66 | the server loop is the specified service |
| `PrefixCode.JoinedInjective` | src/zmqpp/zap_request.cpp:101-126 | lists laid out by a code that tells the length of its words are told apart by their bytes |
| `ZapMetadata.SerializeMetadata` | src/zmqpp/zap_request.cpp:101-126 | on a host of either byte order the bytes are the properties in the layout of ZMTP 3.0; an assertion fails if and only if a property does not fit |
| `ZapMetadata.LayoutBytes` | src/zmqpp/zap_request.cpp:101-126 | the bytes of a property by position: the length of the name, the name, the four bytes of the value's length from the most significant on, the value |
| `ZapMetadata.FirstComesFirst` | src/zmqpp/zap_request.cpp:101-126 | the bytes of the first property come first, followed by those of the others |
| `ZapMetadata.ParseMetadata` | src/tests/test_auth.cpp:253-268 | reading driven by the lengths alone, stopping where the bytes end |
| `ZapMetadata.TakenIsSerialized` | src/zmqpp/zap_request.cpp:101-126 | reading n properties gives a list and a rest if and only if the bytes are that list serialized, followed by that rest |
| `ZapMetadata.SerializedInjective` | src/zmqpp/zap_request.cpp:101-126 | different lists of properties never have the same bytes |
| `ZapMetadata.MetadataRoundTrip` | src/tests/test_auth.cpp:253-268 | in whatever order the hash map hands out its entries, reading back gives them in that order and uses up all bytes, and they make up the map |
| `HexCodec.WriteDigit` | src/common.c:441-446 | the search over the sixteen lower-case entries writes the digit of the nibble |
| `HexCodec.PrintsNumerals` | src/common.c:436-454 | each printed byte is its two-digit numeral: sixteen times the value of the first digit plus that of the second, with digits 0-9 and a-f |
| `HexCodec.ReadsNumerals` | src/common.c:456-515 | each byte read is the value of its two characters as a numeral, counted from the end of the text, where an upper-case F counts as 0 |
| `HexCodec.U8toc` | src/common.c:436-454 | the digit of the high nibble goes to the first place, that of the low one to the second |
| `HexCodec.Ctou8` | src/common.c:456-477 | the search over all entries but the last gives the digit's nibble, and 0 for every other character |
| `HexCodec.U8nprints` | src/common.c:518-543 | if the digits of as many bytes as the output size and the input allow are inside the output, they are written and nothing else changes; otherwise the first byte whose digits are not is found |
| `HexCodec.WritesInside` | src/common.c:523-540 | writing stays inside an output of the given number of characters if and only if it is empty or has two for each byte |
| `HexCodec.NotCutToSize` | src/common.h:262-265 | two characters of room for two bytes are overrun |
| `HexCodec.Snprintu8` | src/common.c:479-515 | as many bytes as the output has room for, read from the end of the text, and nothing else changes |
| `HexCodec.ReadsInside` | src/common.c:484-496 | reading stays inside the text if and only if its size is even or the output is too small for all of it |
| `HexCodec.ReadText` | src/common.c:479-543 | reading the text of bytes gives the bytes reversed, and with room for m of them the last m reversed |
| `HexCodec.PrintRead` | src/common.c:479-543 | reading any text of even size and printing the bytes in reverse replaces each character by the digit of its nibble |
| `HexCodec.PrintReadHexadecimal` | src/common.c:479-543 | for hexadecimal text the result is the lower-case text if and only if no upper-case F is in it |
| `HexCodec.CapitalFIsLost` | src/common.c:462-467 | the text FF is read as 0, ff as 255 |
| `HexCodec.U8ncmp` | src/common.c:327-356 | the result is the length of the common prefix minus the wished length |
| `HexCodec.CommonPrefixIs` | src/common.c:342-353 | the first n bytes agree if and only if the common prefix has n bytes at least, and the prefix is the same with the arguments exchanged |
| `HexCodec.ComparesIff` | src/common.c:327-356 | the result has the sign of the comparison of the first n bytes if and only if the common prefix has n bytes exactly, or less and the first array is less there |
| `HexCodec.ComparesWrongly` | src/common.h:217-219 | two inputs at which it has not |

## Left out

- The loop's environment: callbacks that throw, nested calls of `start()` and `poll()`, and the reuse of a timer's address as an id are not modelled; delays are not negative.
- Timer ids: the source uses the address of the timer, the model a number that is never issued twice.
- Sockets in deferred removals are identified by their handle; a pointer to a socket that has been destroyed meanwhile is not modelled.
- `ActorProtocol.Next`: the two threads are steps on values, not code that runs concurrently; of the parent, `ActorObject` has the code. The binding of the endpoint, the deletion of sockets, and exceptions not derived from `std::exception` are left out, and so are pipes that fill up.
- `ActorObject.Actor.Handshake`: the mail it waits for, and the child's release of the mutex, have happened when it begins.
- `Sockets.Socket.Send`: the frames that libzmq takes are the ones it delivers; that it drops, routes or refuses frames by socket type is not modelled.
- `Authentication.Decoded`: the Z85 encoding of keys is a parameter and does not throw; how libzmq forms the request is not modelled.
- `AuthenticatorPipe.Next`: one user calls at a time, and sends on the pipe succeed; an aborted server does not take its user with it.
- `Authentication.Serve`: sends of replies and of acknowledgements succeed; after an interrupted receive the code answers with an empty version, and that libzmq may refuse this reply is not modelled.
- `Authentication.CommandOf`: the assertions of the senders against empty arguments are not modelled, the server takes empty ones in.
- `HexCodec.Snprintu8`: sizes above the range of `int`, to which the source casts them, are not modelled.
- `HexCodec.U8ncmp`: the same of its sizes and of the wished length.
- `Messages.Message`: float and double values, zero-copy parts and their release callbacks are not modelled.
- `reset_read_cursor`, `get_raw`, `add_raw` of user data: easy members.
- Socket options, `send_raw` and `receive_raw`, contexts, endpoints, `curve.cpp`, `z85.cpp` and the proxies: wrappers around libzmq.
- Verbose printing, version macros, and the rest of `common.c` (logging, processes, strings, time).
- `src/client` and the terminal programs: plumbing around the library.
