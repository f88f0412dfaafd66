# A verified model of the Lynks backend's stateful core

The backend of this repository keeps four pieces of shared state whose behaviour depends on the
order of events. This project models each of them in Dafny, following the C++ branch by branch, and
proves what holds over every order.

* **The Janus response buffer.** Messages from the long poll meet coroutines that wait for one
  transaction. `ResponseBufferModel` is the transition system (push, wait, timeout, resume, clock),
  with the gap between "a timer completed" and "the coroutine resumed" kept. `ResponseBuffer` is the
  object with its deque and waiter map, each method proved to take one of those steps.
  `ResponseBufferAccounting`, `ResponseBufferAnswers`, `ResponseBufferDelivery` and `ResponseBufferTiming`
  hold the run theorems: where messages are, what each call returns, who gets the next message, and what
  timers that fire on time guarantee.
* **The session store and its cleaner thread.** `SessionTokens` has the unsigned 64-bit expiry check,
  `SessionStore` one operation per critical section, `SessionHandlers` the object that searches,
  refreshes and compacts its vector in place, `SessionRefinement` and `SessionRuns` the run theorems,
  and `CleanerProtocol` the threads, the mutex and the two atomic flags.
* **The request pipeline.** `QueueProtocol` is the two-mutex queue with every lock, unlock and
  notification as its own event, and `QueueProgress` says what becomes of every item; `WriteChain` is the
  chain of asynchronous writes of one connection; `Pipeline`, `PipelineConservation`, `PipelineClosing` and
  `Servers` the whole way of a request from the socket it is read from to the response written on that
  socket, and which connections are open on the way.
* **Login and gating.** `Users` builds users from request bodies and table rows, including the
  constructor that swallows its own exceptions; `UserServices` composes it with the session store, and
  `ServiceOutcomes` gives every outcome of every request over whole runs of requests.

A transition system's step function is total: an event that cannot happen leaves the state as it is,
so every sequence of events is a run and the theorems range over all of them. `After`, `Run` or
`Exec` gives the state after a run, `Trace`, `Replies` or `Reads` what was observed on the way.
Messages, clock readings, generated tokens, database rows, Janus answers and the hash function are
inputs.

Three promises turn out to hold only under a condition, and each condition is proved to be the exact one:

* *A waiting call gets the next message for its transaction.* A call's resume erases the waiter map by
  key, so an earlier call can erase a later call's registration; `ReusedTransactionMissesItsMessage` is
  the run with the id "test123", which two of the request messages share
  (`network/main/janus/src/janus_messages.cpp`, lines 141 and 232). With steady timers, which fire in
  the order of their deadlines, delivery is guaranteed if and only if every earlier call still suspended
  on the transaction is undecided and due only after the newcomer (`DeliveryIffRivalsOutlast`, for
  punctual and for prompt runs). If timers may fire arbitrarily late, or if every call has the same
  timeout, as with the default that the only caller in the repository uses, it is guaranteed if and only if no
  earlier call on the transaction is suspended at all (`DeliveryIffNoneSuspended`,
  `OneTimeoutDeliveryIff`); `ShorterTimeoutIsSafe` is a reachable state in which the two conditions differ.
* *A push wakes the waiting consumer.* The wake-up stays due exactly unless a notification over a
  non-empty queue falls between the consumer's emptiness check and its block with no other producer
  still to notify (`StepKeepsWakeDueIff`, `WakeDueThroughoutIff`), and the consumer is safe from sleeping
  on a non-empty queue exactly while it is due (`NeverStrandedIffWakeDue`). One producer and one item are
  enough to lose it (`LostWakeUpIsReachable`). The header calls this wait non-blocking; the code blocks,
  and the model follows the code.
* *A clean request, or the destructor, wakes the cleaner thread.* Flags are set and the cleaner is
  notified without its mutex, so a notification can come after the cleaner's test and before its block.
  `CleanerProtocol.StepKeepsWakeDueIff` and `NeverOversleepsIffWakeDue` say exactly when the cleaner
  sleeps over a raised flag, `ShutdownCanBeMissed` and `RequestCanBeMissed` give the runs, and
  `OversleepsUntilTimeout` says that then only the 30-second timer, a spurious wake-up or a further
  request ends the wait.

A request can be left unanswered in one way besides failing or coming from a connection that has closed
when it is dispatched: its response stays queued behind a failed write, since the completion handler
closes the socket and does not pop (`RestLeavesNothingOpen`, `FailedWriteLeavesResponse`).

## Model

| member | source | states |
|---|---|---|
| ResponseBufferModel.RunKeepsInv | network/main/janus/src/janus_response_buffer.cpp:8-63 | exclusion in every run: no buffered message has a registered waiter, and every waiter is keyed by the transaction its own suspended, still empty-handed call waits for |
| ResponseBufferModel.ForRemoveFirst | network/main/janus/src/janus_response_buffer.cpp:67-77 | taking a message for one transaction takes the head of that transaction's order and leaves every other transaction's order alone |
| ResponseBufferModel.RunOrder | network/main/janus/src/janus_response_buffer.cpp:8-77 | the same order from any state a run can reach: what was buffered and what is pushed, against what is handed out and what stays buffered |
| ResponseBufferModel.PerTransactionFifo | network/main/janus/src/janus_response_buffer.cpp:8-77 | in every run, messages pushed for a transaction are, in order, those handed out for it followed by those still buffered, also when ids are reused |
| ResponseBufferAccounting.ExactAccounting | network/main/janus/src/janus_response_buffer.cpp:8-63 | in every run, each pushed message is buffered, held for a suspended call, returned or dropped, counted with multiplicity |
| ResponseBufferAccounting.OneAnswerAtMostOneDrop | network/main/janus/src/janus_response_buffer.cpp:55-63 | a suspended call answers exactly once, when it resumes; it drops at most one message, only if its timeout had won, and then answers nothing |
| ResponseBufferAnswers.WaitAnswersOwnTransaction | network/main/janus/src/janus_response_buffer.cpp:30-43 | a call takes the oldest buffered message of its own transaction, is refused exactly if nothing is buffered and a waiter is registered, and never touches another transaction's messages |
| ResponseBufferAnswers.AnswersBelongToTransaction | network/main/janus/src/janus_response_buffer.cpp:8-77 | in every run, what the calls waiting for a transaction return, at once or on resume, is what was handed out for it minus what is still held and what was dropped; no other message reaches them |
| ResponseBufferAnswers.ResultIsPushed | network/main/janus/src/janus_response_buffer.cpp:13-18 | the result of a suspended call is exactly what was pushed to its registration, one message at most |
| ResponseBufferAnswers.TimeoutIsFinal | network/main/janus/src/janus_response_buffer.cpp:55-63 | once a timeout has won the call answers nothing, whatever follows, and drops what was pushed to its registration afterwards |
| ResponseBufferAnswers.LateMessageIsDropped | network/main/janus/src/janus_response_buffer.cpp:11-18 | a timeout does not unregister its call: the next message for the transaction before the resume goes to that call and is lost |
| ResponseBufferDelivery.StaysRegistered | network/main/janus/src/janus_response_buffer.cpp:37-57 | a call that suspends alone on its transaction stays in the waiter map until the next message for it or its timeout |
| ResponseBufferDelivery.SignalledKeepsResult | network/main/janus/src/janus_response_buffer.cpp:11-18 | a message handed to a waiting call cannot be replaced or lost before the call resumes |
| ResponseBufferDelivery.NextMessageReturned | network/main/janus/src/janus_response_buffer.cpp:11-63 | such a call returns exactly the next message for its transaction, whatever else happens before and after the push |
| ResponseBufferDelivery.RivalStealsRegistration | network/main/janus/src/janus_response_buffer.cpp:57 | if timers may fire late, any earlier call suspended on the transaction can resume first and erase the newcomer's registration, so the next message misses it |
| ResponseBufferDelivery.DeliveryIffNoneSuspended | network/main/janus/src/janus_response_buffer.cpp:30-63 | over all continuations, late timers included, delivery of the next message is guaranteed if and only if no earlier call on the transaction is suspended |
| ResponseBufferDelivery.WaitingCallsAreRegistered | network/main/janus/src/janus_response_buffer.cpp:37-57 | in a run that never suspends two calls on one transaction, every waiting call is registered |
| ResponseBufferDelivery.ReusedTransactionMissesItsMessage | network/main/janus/src/janus_response_buffer.cpp:55-63 | the concrete run in which the second of two "test123" calls times out while its message stays buffered |
| ResponseBufferDelivery.NoWaiterLeak | network/main/janus/src/janus_response_buffer.cpp:37-57 | there are never more waiters than suspended calls, so none remains when no call is suspended |
| ResponseBufferDelivery.ResumeReducesSuspended | network/main/janus/src/janus_response_buffer.cpp:57-63 | each resume leaves one suspended call fewer |
| ResponseBufferTiming.DeliveryIffRivalsOutlast | network/main/janus/src/janus_response_buffer.cpp:45-63 | over all continuations in which the clock passes no undecided call's deadline, delivery is guaranteed if and only if every earlier call suspended on the transaction is undecided and due only after the newcomer; the same if due timeouts and resumes are also handled at once |
| ResponseBufferTiming.OneTimeoutDeliveryIff | network/main/janus/src/janus_context.cpp:130 | when all calls use one timeout, as ack handling does with the default, that condition is again that no earlier call on the transaction is suspended |
| ResponseBufferTiming.ShorterTimeoutIsSafe | network/main/janus/src/janus_response_buffer.cpp:45-63 | a reachable state in which a newcomer with a shorter timeout is served by punctual timers, although an earlier call is suspended, and can miss its message with late ones |
| ResponseBufferTiming.TimeNeverStops | network/main/janus/src/janus_response_buffer.cpp:47-55 | after every punctual run the clock can reach any later reading promptly, so the timing assumptions exclude no amount of waiting |
| ResponseBufferTiming.ClockReaches | network/main/janus/src/janus_response_buffer.cpp:47-63 | the same from any state without a missed deadline, by timeouts and resumes alone, leaving calls due later as they are |
| ResponseBufferTiming.BoundedWaiting | network/main/janus/src/janus_response_buffer.cpp:45-63 | in a prompt run a call that suspends has given exactly one answer once the clock is past its start plus timeout, and never gives up before |
| ResponseBuffer.Buffer.TryPopLocked | network/main/janus/src/janus_response_buffer.cpp:67-77 | removes and returns the first message of the transaction, and nothing else |
| ResponseBuffer.Buffer.Push | network/main/janus/src/janus_response_buffer.cpp:7-23 | hands the message to the registered waiter and unregisters it, or appends it |
| ResponseBuffer.Buffer.Register | network/main/janus/src/janus_response_buffer.cpp:37-48 | registers a fresh waiter with its deadline |
| ResponseBuffer.Buffer.WaitBegin | network/main/janus/src/janus_response_buffer.cpp:26-55 | returns the oldest buffered message of the transaction, refuses a second waiter, or suspends with a new waiter |
| ResponseBuffer.Buffer.FireTimeout | network/main/janus/src/janus_response_buffer.cpp:47-55 | the timeout wins for a call that is undecided at its deadline |
| ResponseBuffer.Buffer.Resume | network/main/janus/src/janus_response_buffer.cpp:57-63 | erases the entry under the call's key and answers the result only if the signal won |
| SessionTokens.ActiveExactly | network/main/src/network_session_token.cpp:24-26 | what the wrapping unsigned check means over the integers, for all stamps and readings |
| SessionTokens.WrapSafeIff | network/main/src/network_session_token.cpp:24-26 | the check equals the integer comparison at every reading if and only if the stamp is at most 2^64 - 300000 |
| SessionTokens.ExpiryIsPermanent | network/main/src/network_session_token.cpp:15-26 | with a clock that does not run backwards no number of validation attempts refreshes an expired session, and it stays expired |
| SessionTokens.SessionToken.ValidateToken | network/main/src/network_session_token.cpp:15-22 | succeeds exactly if active at the first reading and then stores the second reading |
| SessionStore.SweepKeepsActive | network/main/src/network_session_handler.cpp:102-108 | the sweep keeps a subsequence in order: all sessions active at its last reading stay, all expired at its first go |
| SessionRefinement.StoreRefinesLedger | network/main/src/network_session_handler.cpp:28-63 | for every order of logins, validations, lookups and sweeps, all answers are those of an unbounded keyed store that is never swept |
| SessionRuns.SlidingLifetime | network/main/src/network_session_handler.cpp:46-49 | the k-th attempt on a token succeeds if and only if every attempt so far came less than 300000 ms after the one before, whatever other operations do |
| SessionRuns.FailureIsFinal | network/main/src/network_session_token.cpp:15-22 | one failed attempt makes every later attempt on the token fail |
| SessionRuns.StoredWasIssued | network/main/src/network_session_handler.cpp:32-37 | every stored session comes from an admitted login with that token and owner |
| SessionRuns.StoredInLoginOrder | network/main/src/network_session_handler.cpp:32-36 | the stored sessions are in the order of the logins they come from, also if a token were issued twice |
| SessionRuns.ValidatedIffEarned | network/main/src/network_session_handler.cpp:77-87 | a validation succeeds if and only if it and every attempt since the issuing login came in time |
| SessionRuns.OwnerWhileFresh | network/main/src/network_session_handler.cpp:51-63 | the owner lookup answers exactly while the last stamp is fresh, however many sweeps come first |
| SessionRuns.OnlyOwner | network/main/src/network_session_handler.cpp:51-63 | whoever is stored under an issued token is the user it was issued to |
| SessionRuns.GateOpensIff | network/main/src/network_session_handler.cpp:46-63 | a token validates and then yields an owner if and only if an earlier login issued it to that owner, every attempt since came in time, and so does the lookup |
| SessionRuns.NeverOverfull | network/main/src/network_session_handler.cpp:28-44 | the session count never exceeds the limit |
| SessionRuns.AdmitsFreePlaces | network/main/src/network_session_handler.cpp:28-44 | without sweeps exactly the first max - count logins are admitted |
| SessionRuns.SweepFreesItsPlaces | network/main/src/network_session_handler.cpp:102-108 | after a sweep removes k sessions from a full store exactly k logins succeed before the next refusal |
| SessionHandlers.RemoveIf | network/main/src/network_session_handler.cpp:103-105 | compaction by moving active sessions to the front, one clock reading each, yields exactly the kept sessions in order |
| SessionHandlers.SessionHandler.NewSession | network/main/src/network_session_handler.cpp:28-44 | appends a session if there is room, otherwise refuses and raises the clean request |
| SessionHandlers.SessionHandler.FindToken | network/main/src/network_session_handler.cpp:77-80 | finds the first session with the token |
| SessionHandlers.SessionHandler.ValidateSession | network/main/src/network_session_handler.cpp:46-49 | refreshes the first matching session if it is active and no other |
| SessionHandlers.SessionHandler.GetUsernameByToken | network/main/src/network_session_handler.cpp:51-63 | the owner of the first matching session if it is active, without refreshing it |
| SessionHandlers.SessionHandler.RemoveInactive | network/main/src/network_session_handler.cpp:102-108 | remove_if and erase in place |
| SessionHandlers.SessionHandler.CleanupTurn | network/main/src/network_session_handler.cpp:101-109 | one turn of the cleaner: stop, or sweep and clear the request flag |
| CleanerProtocol.NoRequestLost | network/main/src/network_session_handler.cpp:28-109 | in every interleaving, a refused caller that no pass has followed has its request in the flag or has yet to set it |
| CleanerProtocol.FlagClearedAfterPass | network/main/src/network_session_handler.cpp:89-109 | the flag is cleared only after a pass that followed every refused check so far |
| CleanerProtocol.StepKeepsWakeDueIff | network/main/src/network_session_handler.cpp:93-99 | for each event: if a notification is due whenever the cleaner falls asleep over a raised flag, that stays so exactly unless the event is the last due notification and comes before the block |
| CleanerProtocol.WakeDueThroughoutIff | network/main/src/network_session_handler.cpp:65-68 | over whole runs: a notification stays due throughout if and only if no last one comes before the block |
| CleanerProtocol.NeverOversleepsIffWakeDue | network/main/src/network_session_handler.cpp:65-99 | without further early notifications the cleaner can never sleep over a raised flag with none due, if and only if one is due now |
| CleanerProtocol.WaitEndsIff | network/main/src/network_session_handler.cpp:93-99 | the wait is left by its timer, a spurious wake-up or a delivered notification, and by nothing else |
| CleanerProtocol.MovesWithoutTimerIff | network/main/src/network_session_handler.cpp:93-99 | while a flag is raised the cleaner can move without its timer if and only if it does not oversleep |
| CleanerProtocol.OversleepsUntilTimeout | network/main/src/network_session_handler.cpp:93-99 | a cleaner that oversleeps makes no pass until its timer, a spurious wake-up or a newly set flag |
| CleanerProtocol.ShutdownCanBeMissed | network/main/src/network_session_handler.cpp:18-23 | the run in which notify_all comes before the block and the destructor waits for the timer |
| CleanerProtocol.RequestCanBeMissed | network/main/src/network_session_handler.cpp:65-68 | the run in which a refused caller's notify_one comes before the block |
| CleanerProtocol.RecordedRequestIsServed | network/main/src/network_session_handler.cpp:89-109 | whatever the other threads do in between, seven moves of the cleaner serve every caller refused before a recorded request, unless the handler shuts down |
| CleanerProtocol.TimerLeadsToPass | network/main/src/network_session_handler.cpp:93-108 | whenever the wait times out, the cleaner's next three moves contain exactly one pass, with a request or without, whatever the other threads do, and exactly the sessions active at that pass's readings stay, unless the handler shuts down |
| CleanerProtocol.PassLowersFlag | network/main/src/network_session_handler.cpp:109 | after a pass the request flag is lowered within two moves, unless another caller raises it |
| CleanerProtocol.NoPassWithoutReason | network/main/src/network_session_handler.cpp:93-99 | while no flag is raised neither notifications nor spurious wake-ups lead to a pass before the timer |
| CleanerProtocol.UndisturbedTurn | network/main/src/network_session_handler.cpp:101-109 | one turn of the loop alone: it stops, or it sweeps and lowers the flag, as the object's CleanupTurn does |
| CleanerProtocol.EachRefusalRequests | network/main/src/network_session_handler.cpp:41-43 | in every interleaving there is one caller with a clean request for each refused login |
| CleanerProtocol.AtMostOnePassAfterShutdown | network/main/src/network_session_handler.cpp:92-108 | after the destructor clears the run flag at most one more pass is made, only if already decided |
| CleanerProtocol.ShutdownStopsCleaner | network/main/src/network_session_handler.cpp:18-23 | in every interleaving the cleaner makes at most six more moves after shutdown, and after six it has left its loop |
| CleanerProtocol.ThreadsRefineLedger | network/main/src/network_session_handler.cpp:28-111 | the refinement of the never-swept store holds for all thread interleavings |
| QueueProtocol.RunKeepsInv | network/main/include/network_queue.hpp:46-96 | mutual exclusion on both mutexes and the order of items, in every interleaving |
| QueueProtocol.QueueSafety | network/main/include/network_queue.hpp:77-96 | wait returns, and pop_front runs, only on a non-empty queue; pops are a prefix of pushes |
| QueueProtocol.NoDeadlock | network/main/include/network_queue.hpp:46-96 | a busy thread that cannot move waits, directly or through one other thread, for a thread that can |
| QueueProtocol.SleepEndsIff | network/main/include/network_queue.hpp:91-96 | the consumer's sleep is ended by a notification or a spurious wake-up, and by nothing else |
| QueueProgress.PushedAsAppended | network/main/include/network_queue.hpp:46-52 | the deque receives exactly the appended items, in the order the producers come to append them |
| QueueProgress.EachItemIsAppended | network/main/include/network_queue.hpp:46-52 | every item a producer starts with is appended once, in that producer's order, or still in its hand |
| QueueProgress.SixStepsPerItem | network/main/include/network_queue.hpp:46-52 | each push_back ends after six steps of its producer, in every interleaving |
| QueueProgress.EveryItemIsPopped | network/main/include/network_queue.hpp:77-96 | the item at place j of the queue is popped, after j others, within a bounded number of the consumer's own steps, whatever the producers do |
| QueueProtocol.NeverStrandedWithoutGapNotify | network/main/include/network_queue.hpp:91-96 | if no notification falls between emptiness check and block, the consumer never sleeps on a non-empty queue with no notification due |
| QueueProtocol.StepKeepsWakeDueIff | network/main/include/network_queue.hpp:46-96 | for each event: a wake-up for the non-empty queue stays due exactly unless the event is the last due notification and falls between emptiness check and block |
| QueueProtocol.WakeDueThroughoutIff | network/main/include/network_queue.hpp:46-96 | over whole runs: a wake-up stays due throughout if and only if no last notification falls there |
| QueueProtocol.NeverStrandedIffWakeDue | network/main/include/network_queue.hpp:91-96 | the consumer cannot be stranded without a further notification in that gap if and only if a wake-up is due |
| QueueProtocol.UndueStrands | network/main/include/network_queue.hpp:91-96 | without a wake-up due there is a continuation that strands the consumer |
| QueueProtocol.LostWakeUpIsReachable | network/main/include/network_queue.hpp:91-96 | the run from the start, with one producer and one item, in which the wake-up is lost |
| WriteChain.SentIsWrittenThenQueued | network/main/include/network_connection.hpp:76-82 | sent responses are the written ones followed by the queued ones; one write, of the front, is outstanding exactly when the queue is non-empty and no write failed |
| WriteChain.FailureStopsWriting | network/main/include/network_connection.hpp:140-153 | after a failed write nothing is ever written again |
| WriteChain.ChainDrains | network/main/include/network_connection.hpp:140-153 | successful completions alone write the whole queue in order |
| Pipeline.RunKeepsInv | network/main/include/network_server.hpp:108-137 | requests and responses stay with the connection they were read from, and only requests of closed connections are dropped |
| PipelineConservation.ExactlyOnePlace | network/main/include/network_server.hpp:83-137 | in every run each request read is in exactly one place of the pipeline |
| PipelineConservation.RestLeavesNothingOpen | network/main/include/network_server.hpp:108-137 | with nothing queued, running, posted or being written, each request read was answered on its own connection, has its response queued behind a failed write on that closed connection, was dropped because the connection had closed, or failed |
| PipelineConservation.FailedWriteLeavesResponse | network/main/include/network_connection.hpp:147-151 | the run in which a response stays queued for ever after a failed write |
| PipelineConservation.QueueKeepsReadOrder | network/main/include/network_connection.hpp:126-131 | requests leave the shared queue in the order they were read, across all connections |
| PipelineConservation.DispatchKeepsReadOrder | network/main/include/network_server.hpp:83-93 | whatever is read while the update loop runs, requests are dispatched in the order they were read |
| PipelineConservation.ResponsesKeepFinishOrder | network/main/include/network_connection.hpp:76-82 | on each connection the responses written, queued and still posted are, in order, those of its coroutines in the order they finished |
| PipelineConservation.ConnRunsItsChain | network/main/include/network_connection.hpp:76-82 | each connection's chain runs as WriteChain describes, so the theorems about it hold of every connection |
| PipelineClosing.OpenIffNotClosed | network/main/include/network_connection.hpp:56-61 | over every run the connections are the accepted ones, and each is open if and only if no read or write on it has failed and it was not disconnected, and reads if and only if no read has failed |
| PipelineClosing.DispatchSpawnsIffNotClosed | network/main/include/network_server.hpp:108-137 | a dispatched request is spawned if and only if nothing has closed its connection since it was accepted, and dropped otherwise |
| PipelineClosing.NeverReopens | network/main/include/network_connection.hpp:109-119 | a connection that has closed never opens again |
| Servers.Connection.WriteResponse | network/main/include/network_connection.hpp:140-141 | starts a write of the front response |
| Servers.Connection.HandleSend | network/main/include/network_connection.hpp:76-82 | queues the response and starts a write only if the queue was empty |
| Servers.Connection.HandleWrite | network/main/include/network_connection.hpp:142-151 | pops and continues on success, closes and stops on failure |
| Servers.Server.Accept | network/main/include/network_server.hpp:59-81 | adds a new open, reading connection and leaves the others as they are |
| Servers.Server.HandleRead | network/main/include/network_connection.hpp:126-131 | puts the request with its connection at the end of the shared queue |
| Servers.Server.HandleReadFailure | network/main/include/network_connection.hpp:109-119 | the object takes the failed-read step: the connection closes and its read chain ends, nothing else changes |
| Servers.Server.CloseSocket | network/main/include/network_connection.hpp:56-60 | the object takes the disconnect step of one connection |
| Servers.Server.Abandon | network/main/include/network_server.hpp:121-129 | a coroutine that ends with an exception leaves no response |
| Servers.Server.Answer | network/main/include/network_server.hpp:115-120 | a finished coroutine posts one response to the connection it keeps alive |
| Servers.Server.RunPosted | network/main/include/network_connection.hpp:77-81 | the oldest posted handler runs on its own connection |
| Servers.Server.CompleteWrite | network/main/include/network_connection.hpp:141-152 | a write completion changes its own connection only |
| Servers.Server.RunContext | network/main/include/network_server.hpp:38-40 | whatever handlers the context thread runs, the objects run as Pipeline does |
| Servers.Server.OnRequest | network/main/include/network_server.hpp:108-137 | spawns a coroutine for a connected client, drops the request otherwise |
| Servers.Server.PopAndDispatch | network/main/include/network_server.hpp:88-92 | one turn of the update loop, with any handlers of the context thread between its steps |
| Servers.Server.Update | network/main/include/network_server.hpp:83-93 | for any activity of the context thread meanwhile, the loop ends with an empty queue (or at once, for the limit 0; no other limit limits anything) after exactly one turn for each request queued or read meanwhile, dispatched in the order they were read |
| Servers.DrainingSorts | network/main/include/network_server.hpp:88-92 | n undisturbed turns sort the first n requests into coroutines and dropped ones by the state of their connection |
| Servers.TurnDispatchesOne | network/main/include/network_server.hpp:88-92 | each turn dispatches the request it popped, whatever the context thread does in between |
| Users.User.FromJson | network/main/src/network_user.cpp:19-35 | the fields the constructor leaves behind for every kind of body, after any swallowed exception |
| Users.GrantedExactly | network/main/service/user_service.cpp:8-17 | credentials are accepted if and only if the body has both fields, the fetched row is valid and its hash is that of the supplied password |
| Users.AcceptedUserIsWhole | network/main/src/network_user.cpp:19-35 | an accepted user passed its swallowed validation exactly when the supplied name is valid, always so if the row is of that name |
| Users.SuppliedIsValidIff | network/main/src/network_user.cpp:19-35 | the user built from a body is valid exactly if both fields are there, the name is valid and the hash has its length; the name asked of the database survives a missing password |
| Users.LooseMatchAdmitsHalfBuiltUser | network/main/repo/user_repo.cpp:26-35 | without that assumption on rows a user whose validation failed can be accepted |
| UserServices.LoginSucceedsIff | network/main/service/user_service.cpp:8-30 | a login request gets its token if and only if body, row and hash agree and the store has room |
| UserServices.IssuedByRequest | network/main/service/user_service.cpp:19-22 | every stored session comes from a login request with accepted credentials that was given that token |
| UserServices.GatedRequestNeedsLogin | network/main/service/user_service.cpp:32-53 | a successful create_meeting or list_participants carries a token from an earlier login, asks for that login's owner, and no two uses since were 300000 ms apart |
| UserServices.GatedRequestSucceedsIff | network/main/service/user_service.cpp:32-73 | a gated request returns a text if and only if its token was issued and kept alive, the lookup follows in time, the owner is in the database and Janus answered that text |
| UserServices.GatedOutcomeIff | network/main/service/user_service.cpp:37-52 | past the gate the returned text is Janus's answer, and an exception comes exactly from a NULL in the row or an unreadable Janus message |
| ServiceOutcomes.LoginOutcome | network/main/service/user_service.cpp:8-30 | every outcome of a login: an exception exactly for a row with a NULL, the generated token exactly for a good row, a matching password and room, a rejection otherwise |
| ServiceOutcomes.LoginStoresItsToken | network/main/service/user_service.cpp:19-22 | a login adds the session of its token under the name in the row exactly if it gives the token, and changes nothing otherwise |
| ServiceOutcomes.UsesAreAttempts | network/main/service/user_service.cpp:32-56 | over runs of requests, every gated request uses its token once, whether or not it passes, and nothing else does |
| ServiceOutcomes.EarnedIffKeptAlive | network/main/service/user_service.cpp:19-56 | a token may be used exactly if a served login request gave it out and the gated requests since then have kept it alive |
| ServiceOutcomes.GatedOutcome | network/main/service/user_service.cpp:32-74 | every outcome of create_meeting and list_participants over whole runs of requests: Janus's answer, an exception or a rejection, each with its exact condition |
| ServiceOutcomes.GateAsksForOwner | network/main/service/user_service.cpp:34-38 | the database is asked for the user the token was given to, exactly while the token is kept alive |
| UserServices.UnknownTokenIsRejected | network/main/service/user_service.cpp:55-73 | a token no login was given is rejected |
| UserServices.UserService.LogInUser | network/main/service/user_service.cpp:8-30 | the outcome and the store's change for every body, row and store state |
| UserServices.UserService.ServeGated | network/main/service/user_service.cpp:32-74 | the outcome and the store's change of a gated request, with cleaner passes between its two locked sections |

## Left out

- StoreRefinesLedger: assumes that a new token is not one of the stored ones, because token generation is random; GateOpensIff and the theorems about gated requests assume that no two logins of a run get the same token.
- SlidingLifetime: assumes clock readings that do not decrease, including the refresh reading of an attempt that fails, which the code does not take; WrapSafeIff says what a single check does without that assumption.
- BoundedWaiting: assumes a prompt scheduler (no time passes while a due timeout or a decided call waits to be handled); TimeNeverStops shows that this excludes no waiting time. DeliveryIffRivalsOutlast assumes only that the clock passes no undecided call's deadline, and the theorems of the other response buffer modules let timers fire late.
- ServeGated: other requests cannot run between its two locked sections, because the server context has one thread and nothing is awaited there; only cleaner passes can.
- UserService.LogInUser: `Done` carries the token, not the JSON text around it; one `Gated` request stands for both create_meeting and list_participants, which share the gate and differ in what they ask Janus.
- Update: the call `requests.wait()` at its start is modelled in QueueProtocol, not in the object; what the context thread does during a turn is given as two lists of events per turn.
- The queue and the cleaner thread are modelled on values rather than as objects, because their steps interleave with those of other threads; aliasing is not an issue there.
- C++ data races and asio internals: strand steps and mutex sections are taken as atomic, as the headers state.
- The missing co_return of response_buffer::push, the lifetime of `this` in posted handlers and exceptions thrown by socket shutdown.
- Direct calls of clean_inactive_sessions: only a refused login raises the request in this repository.
- Ordering of responses to pipelined requests (section 9.3.2 of RFC 9112): coroutines finish in any order, and only that order is kept.
- Which messages reach the response buffer: the keep-alive filter accepts every message with a string `janus` field, so a push is an event of the environment here.
- Pruning of `connected_clients`, connections denied by `on_client_connect` and the connection's buffers.
- Sockets, DNS, HTTP and JSON parsing, MySQL, SHA-256, random numbers, routing, Janus messages and printing.
