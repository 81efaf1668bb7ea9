# Chat relay: a verified model

`chat_server.py` is a small multi-threaded TCP chat server. An accept loop
adds every new socket to a shared list and gives it a listener thread. That
thread prompts for a username and takes the first chunk received as the name.
It queues a welcome, then loops. A received line that starts with
`/command` goes to the command parser; any other line is queued as
`">> name: text"`. The only command is exit. A line that splits on single
spaces into exactly two fields, the second of which strips to `exit`, queues
a goodbye, removes the socket from the list and ends the thread. A separate
distributor thread takes messages off the head of an unbounded FIFO queue
and writes each one to every socket in the list, in list order, the sender
included.

The model has three modules:

- `ChatText` (`chat_text.dfy`): the pure string layer. It holds the command
  prefix, the exit rule (Python 2's `str.split(' ')` and `str.strip()`
  written out) and the formats of the prompt, welcome, chat and goodbye
  lines.
- `Relay` (`relay.dfy`): the whole server as a value. Its state holds:
  - the socket list;
  - the queue;
  - per socket, everything written to it so far;
  - per socket, its username and how far its thread has got (`Phase`).

  Each thread's atomic step is a function (the input and command steps
  require the session to be named). `Step` interprets an `Event` and is
  total: a step that is not enabled changes nothing. `Run` folds a trace of
  events. All of the relay's properties are proved here, over
  arbitrary interleavings.
- `ChatServer` (`server.dfy`): the shared state as a `class Server` whose
  fields the methods update in place. The distributor's fan-out is a
  `while` loop over the list. Each method that is one thread step ties the
  new state to the `Relay` step it performs: `RegisterUser` to
  `Relay.StartSession`, the others to the step of the same name. `Broadcast`
  ties the outputs to `Relay.Fanout` and `Send` to `Relay.Send`;
  `QueueMessage` states its effect on the queue directly.

Sockets are numbered in accept order. A socket's output is the sequence of
strings written to it. Three behaviours worth noting are modelled as the
code does them:

- `receive_message` says an empty result signals a connection error. No
  caller checks for it, so an empty receive is a chat line `">> name: "`
  (`Relay.EmptyInputIsChat`). An empty first chunk is taken as the username.
- The command parser never looks at the first field. Any space-free head
  followed by ` exit` exits, once the line has passed the `/command`
  prefix test (`ChatText.ExitAnyHead`).
- The goodbye is queued before the socket leaves the list. Whether the
  leaving client receives it depends on when the distributor runs, and the
  model allows both orders.

## Model

| member | source | states |
|---|---|---|
| ChatText.ReceiveMessage | chat_server.py:97-114 | the received chunk is returned unchanged, the empty chunk included; nothing is turned into an error |
| ChatText.Split | chat_server.py:64 | splitting on a separator yields one field more than there are separators, and no field contains the separator |
| ChatText.JoinSplit | chat_server.py:64 | splitting loses nothing: joining the fields with the separator gives back the line |
| ChatText.SplitJoin | chat_server.py:64 | splitting undoes joining any fields that contain no separator |
| ChatText.SplitAtSep | chat_server.py:64 | a separator after a separator-free head ends the first field exactly there |
| ChatText.StripLeft | chat_server.py:67 | the result is a suffix of the input, everything cut off is whitespace, and the result does not start with whitespace |
| ChatText.StripRight | chat_server.py:67 | the result is a prefix of the input, everything cut off is whitespace, and the result does not end with whitespace |
| ChatText.StripShape | chat_server.py:67 | `strip()` returns a contiguous slice of the input that neither starts nor ends with whitespace |
| ChatText.StripExact | chat_server.py:67 | conversely, a stripped text surrounded by any whitespace strips to exactly that text |
| ChatText.StripIdempotent | chat_server.py:67 | stripping twice is stripping once |
| ChatText.ExitHasOneSpace | chat_server.py:64-69 | an exit line contains exactly one space |
| ChatText.ExitIff | chat_server.py:64-69 | for a space-free head, `head + " " + tail` is an exit line if and only if the tail holds no space and strips to `exit` |
| ChatText.ExitAnyHead | chat_server.py:64-69 | the first field is never checked: any space-free head followed by ` exit` is an exit line |
| ChatText.ExitPlain | chat_server.py:64-69 | `/command exit` is an exit line |
| ChatText.ExitPadded | chat_server.py:64-69 | any trailing whitespace other than a space after `exit` is stripped, so the line still exits |
| ChatText.ExitWithNewline | chat_server.py:64-69 | `/command exit` with a trailing newline is an exit line |
| ChatText.DoubleSpaceIsNoExit | chat_server.py:64-66 | `/command  exit`, with two spaces, has three fields and is ignored |
| ChatText.ExtraWordIsNoExit | chat_server.py:64-66 | `/command exit now` has three fields and is ignored |
| ChatText.BarePrefixIsNoExit | chat_server.py:64-66 | a bare `/command` is a single field and is ignored |
| ChatText.FormatChatInjective | chat_server.py:86 | under one username, two chat lines are equal if and only if their texts are |
| Relay.Init | chat_server.py:168-169 | start-up: empty list, empty queue, and the registry invariant holds |
| Relay.IndexOf | chat_server.py:72 | the index found holds the element and is its first occurrence |
| Relay.RemoveFirstShape | chat_server.py:72 | `list.remove` deletes the first occurrence and keeps everything else in order |
| Relay.RemoveFirstDistinct | chat_server.py:72 | on a list without duplicates, removal leaves the list without duplicates, one shorter, without the element, and keeps every other element |
| Relay.FanoutEffect | chat_server.py:135-136 | writing a message to every listed socket appends it once to each listed socket's output and leaves every other output unchanged |
| Relay.AcceptValid | chat_server.py:178-180 | an accepted socket is new, is appended at the end of the list, and the invariant is kept |
| Relay.PromptValid | chat_server.py:116-119 | sending the prompt keeps the invariant |
| Relay.StartValid | chat_server.py:120-121 | taking the username keeps the invariant |
| Relay.ExecuteValid | chat_server.py:62-70 | handling a command keeps the invariant |
| Relay.LeaveValid | chat_server.py:69-70 | an active session moving on to leaving keeps the invariant, whatever the queue becomes |
| Relay.CloseValid | chat_server.py:72-74 | removing and closing the socket keeps the invariant |
| Relay.InputValid | chat_server.py:85-87 | queueing a chat line keeps the invariant |
| Relay.DistributeValid | chat_server.py:132-136 | a round of the distributor keeps the invariant |
| Relay.StepValid | chat_server.py:58-87 | every thread step keeps the invariant: list without duplicates, listed exactly while not exited, named exactly once past registration |
| Relay.RunValid | chat_server.py:132-136 | every interleaving of the accept loop, the sessions and the distributor keeps the invariant |
| Relay.InputClassification | chat_server.py:81-87 | received text without the prefix queues `">> name: text"`; a prefixed non-exit line changes nothing; an exit line queues the goodbye and moves to leaving; no step here writes to a socket or changes the list |
| Relay.InputFrame | chat_server.py:81-87 | an input step writes to no socket, leaves the list alone, and at most moves its own session on to leaving |
| Relay.EmptyInputIsChat | chat_server.py:82-87 | an empty receive queues `">> name: "` and the session keeps looping |
| Relay.ExitEffects | chat_server.py:62-74 | exit queues the goodbye before the removal; removal takes out that socket alone and leaves the list one shorter; the session then takes no further step |
| Relay.ExitStep | chat_server.py:62-70 | an exit line queues the goodbye with the session's name and moves the session on to leaving; nothing else changes |
| Relay.CloseEffect | chat_server.py:72-74 | closing leaves the queue alone and removes exactly that socket, so the list is one shorter; afterwards the session's events change nothing |
| Relay.ExitedIsFinal | chat_server.py:74 | once the session thread has ended, none of its events changes anything |
| Relay.DistributeEffect | chat_server.py:132-136 | an empty queue changes nothing; otherwise the head leaves the queue and is appended to every listed socket's output, and to no other |
| Relay.Handshake | chat_server.py:116-121 | accept, prompt and name receipt: the socket is appended to the list, receives just the prompt, its name is the first chunk, the welcome is queued last, and no other socket is written to |
| Relay.HandshakeRun | chat_server.py:116-121 | the three handshake events are, in turn, the accept, the prompt and the start of the session |
| Relay.HandshakeState | chat_server.py:116-121 | the state the handshake leaves: appended socket, prompt only, username the first chunk, welcome queued last, other outputs unchanged |
| Relay.StepQueue | chat_server.py:89-95 | only the distributor takes from the queue, from the head; every other step only appends |
| Relay.QueueConservation | chat_server.py:89-95 | along any interleaving, what was waiting plus what was enqueued equals what was taken plus what still waits, in order |
| Relay.StepKeepsRemoved | chat_server.py:72-74 | after one step, a removed socket is still unlisted and its output is unchanged |
| Relay.RemovedReceivesNothing | chat_server.py:72-74 | once removed, a socket is never listed again and nothing more is written to it |
| Relay.StepKeepsName | chat_server.py:59 | no step changes a username once it is set |
| Relay.RunKeepsName | chat_server.py:59 | along any interleaving, a username keeps the value it was given |
| Relay.NameIsFirstChunk | chat_server.py:116-121 | after the handshake and any trace, the session's username is still the first chunk it received, so its chat lines and goodbye carry that name |
| Relay.StepDelivery | chat_server.py:134-136 | after one step, a listed socket past its prompt has received exactly what that step dequeued |
| Relay.SessionStepFrame | chat_server.py:58-87 | a step other than the distributor's writes nothing to a listed socket past its prompt and does not send it back to the start |
| Relay.ListedReceivesDequeued | chat_server.py:134-136 | a socket listed at the start and at the end of a trace receives exactly the dequeued messages, in order |
| Relay.ListedAfterStep | chat_server.py:134-136 | after any first step, a socket past its prompt that is listed at the end receives exactly the remaining dequeued messages |
| Relay.FifoDelivery | chat_server.py:132-136 | a socket that stays listed receives a prefix of the waiting and then the enqueued messages: in enqueue order, nothing lost, duplicated or reordered |
| Relay.DrainQueue | chat_server.py:132-136 | n rounds of the distributor deliver the first n queued messages, in order, to every listed socket and to no other |
| Relay.ChatStep | chat_server.py:83-87 | a line without the prefix from an active session only appends `">> name: text"` to the queue, and the invariant is kept |
| Relay.ChatReachesEveryListedSocket | chat_server.py:132-136 | after a chat line and enough distributor rounds, every listed socket, the sender included, has received the waiting messages followed by `">> name: text"` |
| Relay.ClientCount | chat_server.py:178-180 | the list holds one entry for every accepted socket whose session has not closed (by the sequence helpers `Elems` and `DistinctCard`) |
| ChatServer.Server.constructor | chat_server.py:168-169 | the server starts in the initial relay state |
| ChatServer.Server.Accept | chat_server.py:178-180 | the new socket is fresh and appended at the end of the list; the new state is the relay's accept step, and the invariant is kept |
| ChatServer.Server.Send | chat_server.py:119 | `sendall` appends the message to that socket's output |
| ChatServer.Server.QueueMessage | chat_server.py:89-95 | the message is put at the tail of the queue |
| ChatServer.Server.SendPrompt | chat_server.py:116-119 | the prompt is written to the new socket alone |
| ChatServer.Server.RegisterUser | chat_server.py:116-121 | the first chunk received (line 120) becomes the username, and the welcome is queued as `user_session` starts (line 79) |
| ChatServer.Server.ExecuteCommand | chat_server.py:62-70 | the exit rule decides whether the goodbye is queued and the session starts leaving |
| ChatServer.Server.CloseSession | chat_server.py:72-74 | the socket is removed from the list and the session ends |
| ChatServer.Server.HandleInput | chat_server.py:81-87 | one iteration of the input loop: a command goes to the parser, anything else is queued as a chat line |
| ChatServer.Server.Broadcast | chat_server.py:135-136 | the loop leaves each socket's output as the fan-out over the list describes |
| ChatServer.Server.DistributeOne | chat_server.py:132-136 | an empty queue sends nothing; otherwise the head leaves the queue; the new state is the relay's distributor round (whose outputs `Relay.DistributeEffect` describes), and the invariant is kept |

## Left out

- Sockets, binding, listening and the network are left out. A socket is a number plus the sequence of strings written to it.
- The 1024-byte `recv` limit and TCP framing are left out: each session step receives one chunk as a given string.
- Threads and true concurrency are left out. Each thread's iterations are atomic steps, and an arbitrary trace stands for any interleaving. The infinite loops are modelled one iteration per step.
- Races inside one iteration are left out. The source's distributor walks the live list while session threads remove from it and the accept loop appends to it, so it can skip or add a socket mid-broadcast; the model treats one broadcast as atomic.
- The 3-second timeout on `put` is left out: the queue is unbounded, so `put` never blocks. The blocking `get` on an empty queue is a step that changes nothing.
- Exceptions are left out: a failing `sendall` or `recv`, a `ValueError` from `remove`, and `exit()` raising `SystemExit`. The thread's end is the `Exited` phase.
- The `finally` block that joins threads at shutdown is left out, together with command-line parsing and logging.
- `chat_client.py` is not part of this model.
- Relay.FifoDelivery: stated only for sockets already past their prompt. The prompt itself is written directly, not through the queue.
