/** The chat relay as a sequential state machine over values.

    A socket is an id (the order in which it was accepted) together with an
    outbox: the sequence of strings `sendall` has written to it.  Each thread
    of the server contributes atomic steps (the accept loop, one session's
    handshake, one iteration of its input loop, one round of the distributor),
    and an interleaving of threads is a sequence of such steps. */
module Relay {
  import opened ChatText

  type Id = nat

  /** How far a session's thread has got. */
  datatype Phase =
    | Connected     // accepted and listed; the prompt is not sent yet
    | AwaitingName  // prompt sent; reading the username
    | Active        // username known and welcome queued; in the input loop
    | Leaving       // exit seen and goodbye queued; the socket is still listed
    | Exited        // socket removed from the list and closed; the thread is gone

  /** The phases in which a session has a username. */
  predicate Named(p: Phase)
  {
    p.Active? || p.Leaving? || p.Exited?
  }

  datatype State = State(
    clients: seq<Id>,              // `client_sockets`, in accept order
    queue: seq<string>,            // `message_queue`, head first
    outbox: map<Id, seq<string>>,  // what has been written to each socket
    name: map<Id, string>,         // each session's username
    phase: map<Id, Phase>,         // each session's progress
    nextId: Id)                    // the id of the next accepted socket

  predicate Distinct(s: seq<Id>)
  {
    forall i, j :: 0 <= i < j < |s| ==> s[i] != s[j]
  }

  /** What every reachable state satisfies: ids are handed out in order, every
      session has an outbox, the list holds each live socket exactly once and
      no closed one, and a username exists from the handshake on. */
  ghost predicate Valid(r: State)
  {
    && (forall id :: id in r.phase ==> id < r.nextId)
    && r.outbox.Keys == r.phase.Keys
    && r.name.Keys <= r.phase.Keys
    && Distinct(r.clients)
    && (forall c :: c in r.clients ==> c in r.phase)
    && (forall id :: id in r.phase ==> (id in r.clients <==> !r.phase[id].Exited?))
    && (forall id :: id in r.phase ==> (id in r.name <==> Named(r.phase[id])))
  }

  /** The server right after start-up: an empty list and an empty queue. */
  function Init(): (r: State)
    ensures Valid(r)
  {
    State([], [], map[], map[], map[], 0)
  }

  // ---------------------------------------------------------------------
  // The socket list
  // ---------------------------------------------------------------------

  /** The position of the first occurrence of `x`. */
  function IndexOf(s: seq<Id>, x: Id): (k: nat)
    requires x in s
    ensures k < |s| && s[k] == x && x !in s[..k]
  {
    if s[0] == x then 0 else 1 + IndexOf(s[1..], x)
  }

  /** Python's `list.remove(x)` on a list that holds `x`. */
  function RemoveFirst(s: seq<Id>, x: Id): seq<Id>
  {
    if s == [] then []
    else if s[0] == x then s[1..]
    else [s[0]] + RemoveFirst(s[1..], x)
  }

  /** Removal drops the first occurrence of `x` and keeps every other entry
      in order; a list without `x` is left as it is. */
  lemma RemoveFirstShape(s: seq<Id>, x: Id)
    ensures x !in s ==> RemoveFirst(s, x) == s
    ensures x in s ==> RemoveFirst(s, x) == s[..IndexOf(s, x)] + s[IndexOf(s, x) + 1..]
  {
    if x in s {
      RemoveFirstAt(s, x);
    } else {
      RemoveFirstAbsent(s, x);
    }
  }

  /** A list without `x` is left as it is. */
  lemma {:induction false} RemoveFirstAbsent(s: seq<Id>, x: Id)
    requires x !in s
    ensures RemoveFirst(s, x) == s
  {
    if s != [] {
      assert s[0] != x && x !in s[1..];
      RemoveFirstAbsent(s[1..], x);
      assert s == [s[0]] + s[1..];
    }
  }

  /** The first occurrence of `x` is cut out. */
  lemma {:induction false} RemoveFirstAt(s: seq<Id>, x: Id)
    requires x in s
    ensures RemoveFirst(s, x) == s[..IndexOf(s, x)] + s[IndexOf(s, x) + 1..]
  {
    if s[0] != x {
      assert x in s[1..];
      RemoveFirstAt(s[1..], x);
      var k := IndexOf(s[1..], x);
      assert IndexOf(s, x) == k + 1;
      ConsSplit(s, k);
    }
  }

  /** Cutting out entry `k + 1` of a list is keeping its head and cutting out
      entry `k` of its tail. */
  lemma ConsSplit(s: seq<Id>, k: nat)
    requires k + 1 < |s|
    ensures s[..k + 1] + s[k + 2..] == [s[0]] + (s[1..][..k] + s[1..][k + 1..])
  {
    assert s[..k + 1] == [s[0]] + s[1..][..k];
    assert s[k + 2..] == s[1..][k + 1..];
  }

  /** On a list without duplicates, removal takes out exactly `x`. */
  lemma {:induction false} RemoveFirstDistinct(s: seq<Id>, x: Id)
    requires Distinct(s)
    ensures Distinct(RemoveFirst(s, x))
    ensures x !in RemoveFirst(s, x)
    ensures forall y :: y != x ==> (y in RemoveFirst(s, x) <==> y in s)
    ensures x in s ==> |RemoveFirst(s, x)| == |s| - 1
  {
    if s != [] {
      assert s == [s[0]] + s[1..];
      DistinctCons(s[0], s[1..]);
      if s[0] != x {
        RemoveFirstDistinct(s[1..], x);
        DistinctCons(s[0], RemoveFirst(s[1..], x));
      }
    }
  }

  /** A list with an entry in front has no duplicates exactly when the rest
      has none and does not hold that entry. */
  lemma DistinctCons(a: Id, t: seq<Id>)
    ensures Distinct([a] + t) <==> a !in t && Distinct(t)
  {
    var s := [a] + t;
    if a !in t && Distinct(t) {
      forall i, j | 0 <= i < j < |s|
        ensures s[i] != s[j]
      {
        assert s[j] == t[j - 1];
        if i > 0 {
          assert s[i] == t[i - 1];
        }
      }
    }
    if Distinct(s) {
      forall i, j | 0 <= i < j < |t|
        ensures t[i] != t[j]
      {
        assert t[i] == s[i + 1] && t[j] == s[j + 1];
      }
      forall k | 0 <= k < |t|
        ensures t[k] != a
      {
        assert t[k] == s[k + 1] && s[0] == a;
      }
    }
  }

  // ---------------------------------------------------------------------
  // Writing to sockets
  // ---------------------------------------------------------------------

  /** Everything written to socket `id` so far. */
  function Written(ob: map<Id, seq<string>>, id: Id): seq<string>
  {
    if id in ob then ob[id] else []
  }

  /** `sendall(m)` on socket `id`. */
  function Send(ob: map<Id, seq<string>>, id: Id, m: string): map<Id, seq<string>>
  {
    ob[id := Written(ob, id) + [m]]
  }

  /** `for user in socket_list: user.sendall(m)`, one socket after another in
      list order. */
  function Fanout(ob: map<Id, seq<string>>, cs: seq<Id>, m: string): map<Id, seq<string>>
    decreases |cs|
  {
    if cs == [] then ob else Send(Fanout(ob, cs[..|cs| - 1], m), cs[|cs| - 1], m)
  }

  /** Over a list without duplicates whose sockets all exist, one fan-out
      appends the message to the outbox of every listed socket and leaves
      every other outbox alone. */
  lemma {:induction false} FanoutEffect(ob: map<Id, seq<string>>, cs: seq<Id>, m: string)
    requires Distinct(cs) && forall c :: c in cs ==> c in ob
    ensures Fanout(ob, cs, m).Keys == ob.Keys
    ensures forall id :: id in ob ==>
              Fanout(ob, cs, m)[id] == if id in cs then ob[id] + [m] else ob[id]
    decreases |cs|
  {
    if cs != [] {
      var init, last := cs[..|cs| - 1], cs[|cs| - 1];
      assert Distinct(init);
      FanoutEffect(ob, init, m);
      assert forall id :: id in cs <==> id in init || id == last;
      assert last !in init;
    }
  }

  // ---------------------------------------------------------------------
  // The steps of each thread
  // ---------------------------------------------------------------------

  /** The accept loop: the new socket gets the next id, an empty outbox, and
      is appended to the end of the list. */
  function Accept(r: State): State
  {
    var id := r.nextId;
    r.(clients := r.clients + [id],
       outbox := r.outbox[id := []],
       phase := r.phase[id := Connected],
       nextId := id + 1)
  }

  /** `register_user`, first half: the prompt is written straight to this
      socket, bypassing the queue. */
  function SendPrompt(r: State, id: Id): State
  {
    r.(outbox := Send(r.outbox, id, Prompt), phase := r.phase[id := AwaitingName])
  }

  /** `register_user`, second half, and the start of `user_session`: the
      first received chunk becomes the username and the welcome is queued. */
  function StartSession(r: State, id: Id, chunk: string): State
  {
    var username := ReceiveMessage(chunk);
    r.(name := r.name[id := username],
       queue := r.queue + [Welcome(username)],
       phase := r.phase[id := Active])
  }

  /** `execute_command`, up to the removal from the list: on the exit rule
      the goodbye is queued; any other command line does nothing. */
  function ExecuteCommand(r: State, id: Id, line: string): State
    requires id in r.name
  {
    if IsExit(line) then
      r.(queue := r.queue + [Goodbye(r.name[id])], phase := r.phase[id := Leaving])
    else r
  }

  /** The rest of the exit branch: the socket is removed from the list,
      closed, and the session's thread ends. */
  function CloseSession(r: State, id: Id): State
  {
    r.(clients := RemoveFirst(r.clients, id), phase := r.phase[id := Exited])
  }

  /** One iteration of the input loop of `user_session`. */
  function HandleInput(r: State, id: Id, chunk: string): State
    requires id in r.name
  {
    var text := ReceiveMessage(chunk);
    if IsCommand(text) then ExecuteCommand(r, id, text)
    else r.(queue := r.queue + [FormatChat(r.name[id], text)])
  }

  /** One iteration of the distributor.  With an empty queue it stays blocked
      in `get`; otherwise the head is taken off and written to every listed
      socket, the sender included. */
  function DistributeOne(r: State): State
  {
    if r.queue == [] then r
    else r.(queue := r.queue[1..], outbox := Fanout(r.outbox, r.clients, r.queue[0]))
  }

  // ---------------------------------------------------------------------
  // Interleavings
  // ---------------------------------------------------------------------

  /** One atomic step of some thread.  `chunk` is what the session's `recv`
      returned. */
  datatype Event =
    | AcceptStep
    | PromptStep(id: Id)
    | NameStep(id: Id, chunk: string)
    | InputStep(id: Id, chunk: string)
    | CloseStep(id: Id)
    | DistributeStep

  /** The steps taken by the thread of session `id`. */
  predicate StepOf(e: Event, id: Id)
  {
    !e.AcceptStep? && !e.DistributeStep? && e.id == id
  }

  /** A session step can happen only when that session's thread has reached
      it; the accept loop and the distributor can always take a step. */
  predicate Enabled(r: State, e: Event)
  {
    match e
    case AcceptStep => true
    case PromptStep(id) => id in r.phase && r.phase[id] == Connected
    case NameStep(id, _) => id in r.phase && r.phase[id] == AwaitingName
    case InputStep(id, _) => id in r.phase && r.phase[id] == Active && id in r.name
    case CloseStep(id) => id in r.phase && r.phase[id] == Leaving
    case DistributeStep => true
  }

  /** The effect of an event; one that is not enabled changes nothing. */
  function Step(r: State, e: Event): State
  {
    if !Enabled(r, e) then r
    else match e
      case AcceptStep => Accept(r)
      case PromptStep(id) => SendPrompt(r, id)
      case NameStep(id, chunk) => StartSession(r, id, chunk)
      case InputStep(id, chunk) => HandleInput(r, id, chunk)
      case CloseStep(id) => CloseSession(r, id)
      case DistributeStep => DistributeOne(r)
  }

  function Run(r: State, t: seq<Event>): State
    decreases |t|
  {
    if t == [] then r else Run(Step(r, t[0]), t[1..])
  }

  /** What one step appends to the queue. */
  function EnqueuedBy(r: State, e: Event): seq<string>
  {
    var q := Step(r, e).queue;
    if e.DistributeStep? || |q| < |r.queue| then [] else q[|r.queue|..]
  }

  /** What one step takes off the queue. */
  function DequeuedBy(r: State, e: Event): seq<string>
  {
    if e.DistributeStep? && r.queue != [] then [r.queue[0]] else []
  }

  /** Everything the steps of `t` append to the queue, in order. */
  function Enqueued(r: State, t: seq<Event>): seq<string>
    decreases |t|
  {
    if t == [] then [] else EnqueuedBy(r, t[0]) + Enqueued(Step(r, t[0]), t[1..])
  }

  /** Everything the distributor takes off the queue during `t`, in order. */
  function Dequeued(r: State, t: seq<Event>): seq<string>
    decreases |t|
  {
    if t == [] then [] else DequeuedBy(r, t[0]) + Dequeued(Step(r, t[0]), t[1..])
  }

  function Repeat(e: Event, n: nat): (t: seq<Event>)
    ensures |t| == n && forall i :: 0 <= i < n ==> t[i] == e
  {
    if n == 0 then [] else [e] + Repeat(e, n - 1)
  }

  // ---------------------------------------------------------------------
  // The invariant
  // ---------------------------------------------------------------------

  /** Accepting keeps the invariant: the new id is fresh, so the list still
      has no duplicates and no entry already there moves. */
  lemma AcceptValid(r: State)
    requires Valid(r)
    ensures r.nextId !in r.clients
    ensures Accept(r).clients == r.clients + [r.nextId]
    ensures Valid(Accept(r))
  {
    var r' := Accept(r);
    assert forall c :: c in r'.clients ==> c in r.clients || c == r.nextId;
  }

  lemma CloseValid(r: State, id: Id)
    requires Valid(r) && id in r.phase && r.phase[id] == Leaving
    ensures Valid(CloseSession(r, id))
  {
    var r' := CloseSession(r, id);
    RemoveFirstDistinct(r.clients, id);
    assert r'.phase.Keys == r.phase.Keys;
    forall c | c in r'.clients
      ensures c in r'.phase
    {
      assert c in r.clients;
    }
    forall c | c in r'.phase
      ensures (c in r'.clients <==> !r'.phase[c].Exited?) && (c in r'.name <==> Named(r'.phase[c]))
    {
      if c != id {
        assert r'.phase[c] == r.phase[c];
      }
    }
  }

  lemma DistributeValid(r: State)
    requires Valid(r)
    ensures Valid(DistributeOne(r))
  {
    if r.queue != [] {
      FanoutEffect(r.outbox, r.clients, r.queue[0]);
    }
  }

  lemma PromptValid(r: State, id: Id)
    requires Valid(r) && id in r.phase && r.phase[id] == Connected
    ensures Valid(SendPrompt(r, id))
  {
  }

  lemma StartValid(r: State, id: Id, chunk: string)
    requires Valid(r) && id in r.phase && r.phase[id] == AwaitingName
    ensures Valid(StartSession(r, id, chunk))
  {
  }

  /** Moving an active session on to leaving keeps the invariant, whatever
      the queue becomes. */
  lemma LeaveValid(r: State, id: Id, q: seq<string>)
    requires Valid(r) && id in r.phase && r.phase[id] == Active
    ensures Valid(r.(queue := q, phase := r.phase[id := Leaving]))
  {
    var r' := r.(queue := q, phase := r.phase[id := Leaving]);
    forall c | c in r'.phase
      ensures (c in r'.clients <==> !r'.phase[c].Exited?) && (c in r'.name <==> Named(r'.phase[c]))
    {
      if c != id {
        assert r'.phase[c] == r.phase[c];
      }
    }
  }

  lemma ExecuteValid(r: State, id: Id, line: string)
    requires Valid(r) && id in r.phase && r.phase[id] == Active && id in r.name
    ensures Valid(ExecuteCommand(r, id, line))
  {
    if IsExit(line) {
      LeaveValid(r, id, r.queue + [Goodbye(r.name[id])]);
    }
  }

  lemma InputValid(r: State, id: Id, chunk: string)
    requires Valid(r) && id in r.phase && r.phase[id] == Active && id in r.name
    ensures Valid(HandleInput(r, id, chunk))
  {
    var text := ReceiveMessage(chunk);
    if IsCommand(text) {
      ExecuteValid(r, id, text);
    } else {
      assert HandleInput(r, id, chunk) == r.(queue := r.queue + [FormatChat(r.name[id], text)]);
    }
  }

  /** Every step keeps the invariant. */
  lemma StepValid(r: State, e: Event)
    requires Valid(r)
    ensures Valid(Step(r, e))
  {
    if Enabled(r, e) {
      match e
      case AcceptStep => AcceptValid(r);
      case PromptStep(id) => PromptValid(r, id);
      case NameStep(id, chunk) => StartValid(r, id, chunk);
      case InputStep(id, chunk) => InputValid(r, id, chunk);
      case CloseStep(id) => CloseValid(r, id);
      case DistributeStep => DistributeValid(r);
    }
  }

  /** Every interleaving keeps the invariant. */
  lemma {:induction false} RunValid(r: State, t: seq<Event>)
    requires Valid(r)
    ensures Valid(Run(r, t))
    decreases |t|
  {
    if t != [] {
      StepValid(r, t[0]);
      RunValid(Step(r, t[0]), t[1..]);
    }
  }

  // ---------------------------------------------------------------------
  // Properties of single steps
  // ---------------------------------------------------------------------

  /** How a session treats one received chunk.  Text that does not start with
      the command prefix, the empty chunk included, is queued as
      `">> name: text"` and nothing else changes.  A command line is never
      queued as chat: an exit line queues the goodbye and moves the session
      on, and any other command line changes nothing at all. */
  lemma InputClassification(r: State, id: Id, chunk: string)
    requires Valid(r) && id in r.phase && r.phase[id] == Active
    ensures id in r.name
    ensures var r' := Step(r, InputStep(id, chunk));
      && r'.clients == r.clients && r'.outbox == r.outbox && r'.name == r.name
      && (!IsCommand(chunk) ==>
            r'.queue == r.queue + [">> " + r.name[id] + ": " + chunk] && r'.phase == r.phase)
      && (IsCommand(chunk) && !IsExit(chunk) ==> r' == r)
      && (IsCommand(chunk) && IsExit(chunk) ==>
            r'.queue == r.queue + [">> SERVER: Goodbye " + r.name[id] + "!"]
            && r'.phase == r.phase[id := Leaving])
  {
    var r' := Step(r, InputStep(id, chunk));
    assert r' == HandleInput(r, id, chunk);
    assert ReceiveMessage(chunk) == chunk;
    if !IsCommand(chunk) {
      assert r' == r.(queue := r.queue + [FormatChat(r.name[id], chunk)]);
    } else if IsExit(chunk) {
      assert r' == r.(queue := r.queue + [Goodbye(r.name[id])], phase := r.phase[id := Leaving]);
    }
  }

  /** An input step writes to no socket and leaves the list alone; at most
      it moves its own session on to leaving. */
  lemma InputFrame(r: State, id: Id, chunk: string)
    requires id in r.name
    ensures var r' := HandleInput(r, id, chunk);
      r'.clients == r.clients && r'.outbox == r.outbox
      && (r'.phase == r.phase || r'.phase == r.phase[id := Leaving])
  {
    var text := ReceiveMessage(chunk);
    if IsCommand(text) && IsExit(text) {
      assert HandleInput(r, id, chunk)
          == r.(queue := r.queue + [Goodbye(r.name[id])], phase := r.phase[id := Leaving]);
    }
  }

  /** An empty receive, which is what `recv` returns once the peer has gone,
      is not treated as a disconnect: it is queued as the chat line
      `">> name: "` and the session stays in its input loop, so it does the
      same again on the next iteration. */
  lemma EmptyInputIsChat(r: State, id: Id)
    requires Valid(r) && id in r.phase && r.phase[id] == Active
    ensures id in r.name
    ensures var r' := Step(r, InputStep(id, ""));
      && r'.queue == r.queue + [">> " + r.name[id] + ": "]
      && r'.phase[id] == Active && r'.clients == r.clients
  {
    assert !IsCommand("");
    InputClassification(r, id, "");
    assert ">> " + r.name[id] + ": " + "" == ">> " + r.name[id] + ": ";
  }

  /** The effects of exit, from the received line to the closed socket: the
      goodbye is queued before the socket leaves the list, only that socket
      leaves, the others keep their order, and afterwards the session takes no
      further step. */
  lemma ExitEffects(r: State, id: Id, line: string)
    requires Valid(r) && id in r.phase && r.phase[id] == Active
    requires IsCommand(line) && IsExit(line)
    ensures id in r.name
    ensures var r1 := Step(r, InputStep(id, line));
      && r1.queue == r.queue + [Goodbye(r.name[id])]
      && r1.clients == r.clients
      && var r2 := Step(r1, CloseStep(id));
      && r2.queue == r1.queue
      && r2.clients == RemoveFirst(r.clients, id)
      && id !in r2.clients
      && |r2.clients| == |r.clients| - 1
      && (forall c :: c != id ==> (c in r2.clients <==> c in r.clients))
      && (forall e :: StepOf(e, id) ==> Step(r2, e) == r2)
  {
    ExitStep(r, id, line);
    var r1 := Step(r, InputStep(id, line));
    LeaveValid(r, id, r1.queue);
    CloseEffect(r1, id);
  }

  /** The exit line itself: the goodbye is queued and the session starts
      leaving; nothing else changes. */
  lemma ExitStep(r: State, id: Id, line: string)
    requires Valid(r) && id in r.phase && r.phase[id] == Active
    requires IsCommand(line) && IsExit(line)
    ensures id in r.name
    ensures Step(r, InputStep(id, line))
         == r.(queue := r.queue + [Goodbye(r.name[id])], phase := r.phase[id := Leaving])
  {
    assert ReceiveMessage(line) == line;
  }

  /** Closing a leaving session: only its socket leaves the list, the queue is
      untouched, and the session then takes no further step. */
  lemma CloseEffect(r: State, id: Id)
    requires Valid(r) && id in r.phase && r.phase[id] == Leaving
    ensures var r' := Step(r, CloseStep(id));
      && r'.queue == r.queue
      && r'.clients == RemoveFirst(r.clients, id)
      && id !in r'.clients
      && |r'.clients| == |r.clients| - 1
      && (forall c :: c != id ==> (c in r'.clients <==> c in r.clients))
      && (forall e :: StepOf(e, id) ==> Step(r', e) == r')
  {
    var r' := Step(r, CloseStep(id));
    assert r' == CloseSession(r, id);
    RemoveFirstDistinct(r.clients, id);
    ExitedIsFinal(r', id);
  }

  /** A session whose thread has ended takes no further step. */
  lemma ExitedIsFinal(r: State, id: Id)
    requires id in r.phase && r.phase[id] == Exited
    ensures forall e :: StepOf(e, id) ==> Step(r, e) == r
  {
    forall e | StepOf(e, id)
      ensures Step(r, e) == r
    {
      assert !Enabled(r, e);
    }
  }

  /** One round of the distributor: with an empty queue nothing changes;
      otherwise the queue loses its head, that message is appended to the
      outbox of every listed socket, and no other outbox changes. */
  lemma DistributeEffect(r: State)
    requires Valid(r)
    ensures var r' := Step(r, DistributeStep);
      && (r.queue == [] ==> r' == r)
      && (r.queue != [] ==>
            && r'.queue == r.queue[1..]
            && r'.clients == r.clients && r'.phase == r.phase && r'.name == r.name
            && r'.outbox.Keys == r.outbox.Keys
            && forall id :: id in r.outbox ==>
                 r'.outbox[id] == if id in r.clients then r.outbox[id] + [r.queue[0]] else r.outbox[id])
  {
    if r.queue != [] {
      FanoutEffect(r.outbox, r.clients, r.queue[0]);
    }
  }

  /** The handshake of a new connection, run without interleaving: the socket
      is listed at the end, receives the prompt and nothing else, its username
      is the first chunk exactly, the welcome is queued last, and no other
      socket is written to. */
  lemma Handshake(r: State, chunk: string)
    requires Valid(r)
    ensures var id := r.nextId;
      var r' := Run(r, [AcceptStep, PromptStep(id), NameStep(id, chunk)]);
      && r'.clients == r.clients + [id]
      && id in r'.outbox && r'.outbox[id] == [Prompt]
      && id in r'.name && r'.name[id] == chunk
      && r'.queue == r.queue + [Welcome(chunk)]
      && forall c :: c in r.outbox ==> c in r'.outbox && r'.outbox[c] == r.outbox[c]
  {
    HandshakeRun(r, chunk);
    HandshakeState(r, chunk);
  }

  /** The three handshake events are, in turn, the accept, the prompt and
      the start of the session. */
  lemma HandshakeRun(r: State, chunk: string)
    ensures var id := r.nextId;
      Run(r, [AcceptStep, PromptStep(id), NameStep(id, chunk)])
        == StartSession(SendPrompt(Accept(r), id), id, chunk)
  {
    var id := r.nextId;
    var t2 := [NameStep(id, chunk)];
    var t1 := [PromptStep(id)] + t2;
    assert [AcceptStep, PromptStep(id), NameStep(id, chunk)] == [AcceptStep] + t1;
    AcceptRun(r, t1);
    PromptRun(Accept(r), id, t2);
    NameRun(SendPrompt(Accept(r), id), id, chunk);
  }

  /** An accept, then the rest of a trace. */
  lemma AcceptRun(r: State, t: seq<Event>)
    ensures Run(r, [AcceptStep] + t) == Run(Accept(r), t)
  {
    RunCons(r, AcceptStep, t);
  }

  /** A prompt to a connected socket, then the rest of a trace. */
  lemma PromptRun(r: State, id: Id, t: seq<Event>)
    requires id in r.phase && r.phase[id] == Connected
    ensures Run(r, [PromptStep(id)] + t) == Run(SendPrompt(r, id), t)
  {
    RunCons(r, PromptStep(id), t);
  }

  /** A name received by a socket waiting for it, as the last event. */
  lemma NameRun(r: State, id: Id, chunk: string)
    requires id in r.phase && r.phase[id] == AwaitingName
    ensures Run(r, [NameStep(id, chunk)]) == StartSession(r, id, chunk)
  {
    assert [NameStep(id, chunk)] == [NameStep(id, chunk)] + [];
    RunCons(r, NameStep(id, chunk), []);
  }

  /** What the handshake leaves behind, on the step functions alone. */
  lemma HandshakeState(r: State, chunk: string)
    requires Valid(r)
    ensures var id := r.nextId;
      var r' := StartSession(SendPrompt(Accept(r), id), id, chunk);
      && r'.clients == r.clients + [id]
      && id in r'.outbox && r'.outbox[id] == [Prompt]
      && id in r'.name && r'.name[id] == chunk
      && r'.queue == r.queue + [Welcome(chunk)]
      && forall c :: c in r.outbox ==> c in r'.outbox && r'.outbox[c] == r.outbox[c]
  {
    assert r.nextId !in r.outbox;
  }

  /** Running a trace is taking its first step and running the rest. */
  lemma RunCons(r: State, e: Event, t: seq<Event>)
    ensures Run(r, [e] + t) == Run(Step(r, e), t)
  {
    assert ([e] + t)[0] == e && ([e] + t)[1..] == t;
  }

  // ---------------------------------------------------------------------
  // Properties of interleavings
  // ---------------------------------------------------------------------

  /** Only the distributor takes from the queue, and only from the head;
      every other step can only append. */
  lemma StepQueue(r: State, e: Event)
    ensures r.queue + EnqueuedBy(r, e) == DequeuedBy(r, e) + Step(r, e).queue
  {
    var r' := Step(r, e);
    if e.DistributeStep? {
      if r.queue != [] {
        assert r.queue == [r.queue[0]] + r'.queue;
      }
    } else {
      assert r.queue <= r'.queue;
      assert r'.queue == r.queue + r'.queue[|r.queue|..];
    }
  }

  /** The queue is first in, first out: what was waiting plus what was added
      equals what was taken plus what is still waiting, in that order. */
  lemma {:induction false} QueueConservation(r: State, t: seq<Event>)
    ensures r.queue + Enqueued(r, t) == Dequeued(r, t) + Run(r, t).queue
    decreases |t|
  {
    if t != [] {
      var r1 := Step(r, t[0]);
      QueueConservation(r1, t[1..]);
      StepQueue(r, t[0]);
      Chain(r.queue, EnqueuedBy(r, t[0]), DequeuedBy(r, t[0]), r1.queue,
            Enqueued(r1, t[1..]), Dequeued(r1, t[1..]), Run(r1, t[1..]).queue);
    }
  }

  /** The inductive step of `QueueConservation`, on the sequences alone. */
  lemma Chain(q0: seq<string>, e0: seq<string>, d0: seq<string>, q1: seq<string>,
              e1: seq<string>, d1: seq<string>, q2: seq<string>)
    requires q0 + e0 == d0 + q1
    requires q1 + e1 == d1 + q2
    ensures q0 + (e0 + e1) == (d0 + d1) + q2
  {
    calc {
      q0 + (e0 + e1);
      (q0 + e0) + e1;
      (d0 + q1) + e1;
      d0 + (q1 + e1);
      d0 + (d1 + q2);
    }
  }

  /** One step seen from a closed session: it stays out of the list and
      nothing is written to it. */
  lemma StepKeepsRemoved(r: State, e: Event, id: Id)
    requires Valid(r) && id in r.phase && id !in r.clients
    ensures var r' := Step(r, e);
      id in r'.phase && id !in r'.clients && id in r'.outbox && r'.outbox[id] == r.outbox[id]
  {
    if Enabled(r, e) {
      match e
      case AcceptStep =>
        assert Step(r, e) == Accept(r);
        assert id != r.nextId;
      case PromptStep(x) =>
        assert Step(r, e) == SendPrompt(r, x);
        assert x != id;
      case NameStep(x, chunk) =>
        assert Step(r, e) == StartSession(r, x, chunk);
      case InputStep(x, chunk) =>
        assert Step(r, e) == HandleInput(r, x, chunk);
        InputFrame(r, x, chunk);
      case CloseStep(x) =>
        assert Step(r, e) == CloseSession(r, x);
        RemoveFirstDistinct(r.clients, x);
      case DistributeStep =>
        DistributeEffect(r);
    }
  }

  /** A closed session never comes back: its socket stays out of the list
      and nothing more is written to it. */
  lemma {:induction false} RemovedReceivesNothing(r: State, t: seq<Event>, id: Id)
    requires Valid(r) && id in r.phase && id !in r.clients
    ensures var r' := Run(r, t);
      id in r'.phase && id !in r'.clients && id in r'.outbox && r'.outbox[id] == r.outbox[id]
    decreases |t|
  {
    if t != [] {
      StepKeepsRemoved(r, t[0], id);
      StepValid(r, t[0]);
      RemovedReceivesNothing(Step(r, t[0]), t[1..], id);
    }
  }

  /** A username, once set, is never changed by any step: only the name
      step writes one, and only for a socket still waiting for its name. */
  lemma StepKeepsName(r: State, e: Event, id: Id)
    requires id in r.name && id in r.phase && Named(r.phase[id])
    ensures id in Step(r, e).name && Step(r, e).name[id] == r.name[id]
  {
    if e.NameStep? && Enabled(r, e) {
      assert e.id != id;
    }
  }

  /** Along any interleaving, a username keeps the value it was given. */
  lemma {:induction false} RunKeepsName(r: State, t: seq<Event>, id: Id)
    requires Valid(r) && id in r.name
    ensures id in Run(r, t).name && Run(r, t).name[id] == r.name[id]
    decreases |t|
  {
    if t != [] {
      assert id in r.phase && Named(r.phase[id]);
      StepKeepsName(r, t[0], id);
      StepValid(r, t[0]);
      RunKeepsName(Step(r, t[0]), t[1..], id);
    }
  }

  /** The name every later message of a session carries (its chat lines and
      its goodbye) is the first chunk it received, whatever runs after the
      handshake. */
  lemma NameIsFirstChunk(r: State, chunk: string, t: seq<Event>)
    requires Valid(r)
    ensures var id := r.nextId;
      var r1 := Run(r, [AcceptStep, PromptStep(id), NameStep(id, chunk)]);
      id in Run(r1, t).name && Run(r1, t).name[id] == chunk
  {
    var id := r.nextId;
    var h := [AcceptStep, PromptStep(id), NameStep(id, chunk)];
    Handshake(r, chunk);
    RunValid(r, h);
    RunKeepsName(Run(r, h), t, id);
  }

  /** One step seen from a listed socket that is past its prompt: it receives
      exactly what the step dequeues. */
  lemma StepDelivery(r: State, e: Event, id: Id)
    requires Valid(r) && id in r.clients && r.phase[id] != Connected
    ensures var r' := Step(r, e);
      && id in r'.phase && r'.phase[id] != Connected
      && id in r'.outbox && r'.outbox[id] == r.outbox[id] + DequeuedBy(r, e)
  {
    assert id in r.outbox;
    if e.DistributeStep? {
      DistributeEffect(r);
      if r.queue == [] {
        assert r.outbox[id] + [] == r.outbox[id];
      }
    } else {
      SessionStepFrame(r, e, id);
      assert r.outbox[id] + [] == r.outbox[id];
    }
  }

  /** A step other than the distributor's writes nothing to a listed socket
      past its prompt and does not send it back to the start. */
  lemma SessionStepFrame(r: State, e: Event, id: Id)
    requires Valid(r) && id in r.clients && r.phase[id] != Connected
    requires !e.DistributeStep?
    ensures var r' := Step(r, e);
      id in r'.phase && r'.phase[id] != Connected && id in r'.outbox && r'.outbox[id] == r.outbox[id]
  {
    if Enabled(r, e) {
      match e
      case AcceptStep =>
        assert Step(r, e) == Accept(r);
        assert id != r.nextId;
      case PromptStep(x) =>
        assert Step(r, e) == SendPrompt(r, x);
        assert x != id;
      case NameStep(x, chunk) =>
        assert Step(r, e) == StartSession(r, x, chunk);
      case InputStep(x, chunk) =>
        assert Step(r, e) == HandleInput(r, x, chunk);
        InputFrame(r, x, chunk);
      case CloseStep(x) =>
        assert Step(r, e) == CloseSession(r, x);
    }
  }

  /** A socket that is past its prompt at the start and still listed at the
      end receives exactly the messages the distributor took, in order. */
  lemma {:induction false} ListedReceivesDequeued(r: State, t: seq<Event>, id: Id)
    requires Valid(r) && id in r.clients && r.phase[id] != Connected
    requires id in Run(r, t).clients
    ensures id in Run(r, t).outbox
    ensures Run(r, t).outbox[id] == r.outbox[id] + Dequeued(r, t)
    decreases |t|, 1
  {
    if t != [] {
      StepDelivery(r, t[0], id);
      ListedAfterStep(r, t[0], t[1..], id);
      var r1 := Step(r, t[0]);
      Append(r.outbox[id], DequeuedBy(r, t[0]), r1.outbox[id], Dequeued(r1, t[1..]), Run(r1, t[1..]).outbox[id]);
    }
  }

  /** Appending twice is appending the concatenation. */
  lemma Append(o0: seq<string>, d0: seq<string>, o1: seq<string>, d1: seq<string>, o2: seq<string>)
    requires o1 == o0 + d0 && o2 == o1 + d1
    ensures o2 == o0 + (d0 + d1)
  {
  }

  /** The inductive step of `ListedReceivesDequeued`, after the first event. */
  lemma {:induction false} ListedAfterStep(r: State, e: Event, t: seq<Event>, id: Id)
    requires Valid(r) && id in Step(r, e).phase && Step(r, e).phase[id] != Connected
    requires id in Step(r, e).outbox && id in Run(Step(r, e), t).clients
    ensures id in Run(Step(r, e), t).outbox
    ensures Run(Step(r, e), t).outbox[id] == Step(r, e).outbox[id] + Dequeued(Step(r, e), t)
    decreases |t| + 1, 0
  {
    var r1 := Step(r, e);
    StepValid(r, e);
    if id !in r1.clients {
      RemovedReceivesNothing(r1, t, id);
      assert false;
    }
    ListedReceivesDequeued(r1, t, id);
  }

  /** FIFO delivery: over any interleaving, a socket that stays listed
      receives a prefix of (what was waiting, then what was enqueued), in
      exactly the order of enqueueing, with nothing lost, duplicated or
      reordered. */
  lemma FifoDelivery(r: State, t: seq<Event>, id: Id)
    requires Valid(r) && id in r.clients && r.phase[id] != Connected
    requires id in Run(r, t).clients
    ensures id in Run(r, t).outbox
    ensures var sent := r.queue + Enqueued(r, t);
      && |Dequeued(r, t)| <= |sent|
      && Run(r, t).outbox[id] == r.outbox[id] + sent[..|Dequeued(r, t)|]
  {
    ListedReceivesDequeued(r, t, id);
    QueueConservation(r, t);
    var sent := r.queue + Enqueued(r, t);
    assert sent[..|Dequeued(r, t)|] == Dequeued(r, t);
  }

  /** `n` rounds of the distributor alone hand the first `n` queued messages,
      in order, to every listed socket and to no other. */
  lemma {:induction false} DrainQueue(r: State, n: nat)
    requires Valid(r) && n <= |r.queue|
    ensures var r' := Run(r, Repeat(DistributeStep, n));
      && r'.queue == r.queue[n..] && r'.clients == r.clients
      && r'.outbox.Keys == r.outbox.Keys
      && forall c :: c in r.outbox ==>
           r'.outbox[c] == if c in r.clients then r.outbox[c] + r.queue[..n] else r.outbox[c]
    decreases n
  {
    if n > 0 {
      var r1 := Step(r, DistributeStep);
      DistributeEffect(r);
      DistributeValid(r);
      var t := Repeat(DistributeStep, n);
      assert t[0] == DistributeStep && t[1..] == Repeat(DistributeStep, n - 1);
      assert Run(r, t) == Run(r1, t[1..]);
      DrainQueue(r1, n - 1);
      var r' := Run(r1, t[1..]);
      assert r1.queue[n - 1..] == r.queue[n..];
      forall c | c in r.outbox
        ensures r'.outbox[c] == if c in r.clients then r.outbox[c] + r.queue[..n] else r.outbox[c]
      {
        DrainSocket(r.outbox[c], r1.outbox[c], r'.outbox[c], r.queue, n, c in r.clients);
      }
    }
  }

  /** The inductive step of `DrainQueue` for one socket: one message and
      then `n - 1` more add up to the first `n`. */
  lemma DrainSocket(o0: seq<string>, o1: seq<string>, o2: seq<string>, q: seq<string>, n: nat, listed: bool)
    requires 0 < n <= |q|
    requires o1 == if listed then o0 + [q[0]] else o0
    requires o2 == if listed then o1 + q[1..][..n - 1] else o1
    ensures o2 == if listed then o0 + q[..n] else o0
  {
    if listed {
      assert q[..n] == [q[0]] + q[1..][..n - 1];
    }
  }

  /** A chat line reaches everyone: after one session sends text and the
      distributor empties the queue, every listed socket, the sender
      included, has received the waiting messages and then `">> name: text"`. */
  lemma ChatReachesEveryListedSocket(r: State, id: Id, chunk: string)
    requires Valid(r) && id in r.phase && r.phase[id] == Active
    requires !IsCommand(chunk)
    ensures id in r.name && id in r.clients
    ensures var r' := Run(r, [InputStep(id, chunk)] + Repeat(DistributeStep, |r.queue| + 1));
      && r'.queue == []
      && forall c :: c in r.clients ==>
           c in r'.outbox && r'.outbox[c] == r.outbox[c] + (r.queue + [FormatChat(r.name[id], chunk)])
  {
    var q := r.queue + [FormatChat(r.name[id], chunk)];
    var r1 := r.(queue := q);
    ChatStep(r, id, chunk);
    var n := |r.queue| + 1;
    var rest := Repeat(DistributeStep, n);
    RunCons(r, InputStep(id, chunk), rest);
    DrainQueue(r1, n);
    assert q[..n] == q && q[n..] == [];
  }

  /** A chat line from an active session only appends to the queue. */
  lemma ChatStep(r: State, id: Id, chunk: string)
    requires Valid(r) && id in r.phase && r.phase[id] == Active
    requires !IsCommand(chunk)
    ensures id in r.name
    ensures Step(r, InputStep(id, chunk)) == r.(queue := r.queue + [FormatChat(r.name[id], chunk)])
    ensures Valid(r.(queue := r.queue + [FormatChat(r.name[id], chunk)]))
  {
    assert ReceiveMessage(chunk) == chunk;
  }

  // ---------------------------------------------------------------------
  // The registry's size
  // ---------------------------------------------------------------------

  /** The entries of a list, as a set. */
  function Elems(s: seq<Id>): (e: set<Id>)
    ensures forall x :: x in e <==> x in s
  {
    if s == [] then {} else {s[0]} + Elems(s[1..])
  }

  /** A list without duplicates has as many entries as distinct elements. */
  lemma {:induction false} DistinctCard(s: seq<Id>)
    requires Distinct(s)
    ensures |Elems(s)| == |s|
  {
    if s != [] {
      assert Distinct(s[1..]);
      DistinctCard(s[1..]);
      assert s[0] !in s[1..];
    }
  }

  /** The list holds one entry per session that has not closed, so after N
      accepts and M closes it has N - M entries. */
  lemma ClientCount(r: State)
    requires Valid(r)
    ensures |r.clients| == |set id | id in r.phase && !r.phase[id].Exited?|
  {
    DistinctCard(r.clients);
    assert Elems(r.clients) == (set id | id in r.phase && !r.phase[id].Exited?);
  }
}
