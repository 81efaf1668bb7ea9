/** The chat server's shared state as an object: the socket list, the message
    queue, and per socket what has been written to it, that session's username
    and how far its thread has got.  Each method is one atomic step of one
    thread, and its contract ties the new state to the step of the same name
    in module Relay, where the properties of the relay are proved. */
module ChatServer {
  import opened ChatText
  import Relay

  class Server {
    var clients: seq<Relay.Id>
    var queue: seq<string>
    var outbox: map<Relay.Id, seq<string>>
    var name: map<Relay.Id, string>
    var phase: map<Relay.Id, Relay.Phase>
    var nextId: Relay.Id

    /** The object's fields as a value. */
    function State(): Relay.State
      reads this
    {
      Relay.State(clients, queue, outbox, name, phase, nextId)
    }

    ghost predicate Valid()
      reads this
    {
      Relay.Valid(State())
    }

    /** Start-up: an empty socket list and an empty, unbounded queue. */
    constructor ()
      ensures Valid() && State() == Relay.Init()
    {
      clients, queue, outbox, name, phase, nextId := [], [], map[], map[], map[], 0;
    }

    /** The accept loop: the accepted socket is appended to the list
        (`Relay.AcceptValid` shows that it is new and goes at the end). */
    method Accept() returns (id: Relay.Id)
      requires Valid()
      modifies this
      ensures Valid()
      ensures id == old(nextId) && id !in old(clients)
      ensures clients == old(clients) + [id]
      ensures State() == Relay.Accept(old(State()))
    {
      ghost var r0 := State();
      id := nextId;
      clients := clients + [id];
      outbox := outbox[id := []];
      phase := phase[id := Relay.Connected];
      nextId := nextId + 1;
      assert State() == Relay.Accept(r0);
      Relay.AcceptValid(r0);
    }

    /** `sendall(m)` on socket `id`. */
    method Send(id: Relay.Id, m: string)
      modifies this`outbox
      ensures outbox == Relay.Send(old(outbox), id, m)
      ensures id in outbox && outbox[id] == Relay.Written(old(outbox), id) + [m]
    {
      outbox := outbox[id := Relay.Written(outbox, id) + [m]];
    }

    /** `queue_message`: the queue is unbounded, so `put` always succeeds and
        the message goes at the tail. */
    method QueueMessage(m: string)
      modifies this`queue
      ensures queue == old(queue) + [m]
    {
      queue := queue + [m];
    }

    /** `register_user`, up to the `recv`: the prompt goes straight to this
        socket. */
    method SendPrompt(id: Relay.Id)
      requires Valid() && id in phase && phase[id] == Relay.Connected
      modifies this`outbox, this`phase
      ensures Valid()
      ensures State() == Relay.SendPrompt(old(State()), id)
    {
      ghost var r0 := State();
      Send(id, Prompt);
      phase := phase[id := Relay.AwaitingName];
      assert State() == Relay.SendPrompt(r0, id);
      Relay.PromptValid(r0, id);
    }

    /** The rest of `register_user` and the start of `user_session`: the
        received chunk is the username, and the welcome is queued. */
    method RegisterUser(id: Relay.Id, chunk: string)
      requires Valid() && id in phase && phase[id] == Relay.AwaitingName
      modifies this`name, this`queue, this`phase
      ensures Valid()
      ensures name == old(name)[id := chunk]
      ensures queue == old(queue) + [Welcome(chunk)]
      ensures State() == Relay.StartSession(old(State()), id, chunk)
    {
      ghost var r0 := State();
      var username := ReceiveMessage(chunk);
      name := name[id := username];
      QueueMessage(Welcome(username));
      phase := phase[id := Relay.Active];
      assert State() == Relay.StartSession(r0, id, chunk);
      Relay.StartValid(r0, id, chunk);
    }

    /** `execute_command`, up to the removal from the list. */
    method ExecuteCommand(id: Relay.Id, line: string)
      requires Valid() && id in phase && phase[id] == Relay.Active
      modifies this`queue, this`phase
      ensures Valid()
      ensures State() == Relay.ExecuteCommand(old(State()), id, line)
    {
      ghost var r0 := State();
      assert id in name;
      var fields := Split(line, ' ');
      if |fields| == 2 {
        var command := Strip(fields[1]);
        if command == ExitWord {
          QueueMessage(Goodbye(name[id]));
          phase := phase[id := Relay.Leaving];
        }
      }
      assert State() == Relay.ExecuteCommand(r0, id, line);
      Relay.ExecuteValid(r0, id, line);
    }

    /** The end of the exit branch: the socket is removed from the list and
        closed, and the thread ends. */
    method CloseSession(id: Relay.Id)
      requires Valid() && id in phase && phase[id] == Relay.Leaving
      modifies this`clients, this`phase
      ensures Valid()
      ensures State() == Relay.CloseSession(old(State()), id)
    {
      ghost var r0 := State();
      clients := Relay.RemoveFirst(clients, id);
      phase := phase[id := Relay.Exited];
      assert State() == Relay.CloseSession(r0, id);
      Relay.CloseValid(r0, id);
    }

    /** One iteration of the input loop of `user_session`. */
    method HandleInput(id: Relay.Id, chunk: string)
      requires Valid() && id in phase && phase[id] == Relay.Active
      modifies this`queue, this`phase
      ensures Valid()
      ensures State() == Relay.HandleInput(old(State()), id, chunk)
    {
      var userInput := ReceiveMessage(chunk);
      if IsCommand(userInput) {
        ExecuteCommand(id, userInput);
      } else {
        Relay.InputValid(State(), id, chunk);
        QueueMessage(FormatChat(name[id], userInput));
      }
    }

    /** `for user in socket_list: user.sendall(message)`: the message is
        written to every listed socket, one after another in list order. */
    method Broadcast(message: string)
      modifies this`outbox
      ensures outbox == Relay.Fanout(old(outbox), clients, message)
    {
      var i := 0;
      while i < |clients|
        invariant 0 <= i <= |clients|
        invariant outbox == Relay.Fanout(old(outbox), clients[..i], message)
      {
        assert clients[..i + 1][..i] == clients[..i];
        Send(clients[i], message);
        i := i + 1;
      }
      assert clients[..|clients|] == clients;
    }

    /** One iteration of `distributer`.  An empty queue leaves it blocked in
        `get`, so nothing happens and `sent` is false.  Otherwise the head
        is taken off and written to every listed socket in list order
        (`Relay.DistributeEffect` spells out the new outboxes). */
    method DistributeOne() returns (sent: bool)
      requires Valid()
      modifies this`queue, this`outbox
      ensures Valid()
      ensures sent == (old(queue) != [])
      ensures sent ==> queue == old(queue)[1..]
      ensures State() == Relay.DistributeOne(old(State()))
    {
      ghost var r0 := State();
      Relay.DistributeValid(r0);
      if queue == [] {
        return false;
      }
      var message := queue[0];
      queue := queue[1..];
      Broadcast(message);
      assert State() == Relay.DistributeOne(r0);
      sent := true;
    }
  }
}
