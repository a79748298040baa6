/** The SSH manager's own data: semaphores are objects, and the manager maps server ids to them.
    `View` gives the token counts that the protocol of module SshProtocol works on. */
module SshManager {
  import opened SshProtocol

  /** A buffered channel used as a counting semaphore. */
  class Semaphore {
    const capacity: nat
    var tokens: nat

    constructor (capacity: nat)
      ensures this.capacity == capacity && tokens == 0
    {
      this.capacity := capacity;
      tokens := 0;
    }

    /** The moment at which a send goes through; until there is room the caller waits. */
    method Send()
      requires tokens < capacity
      modifies this
      ensures tokens == old(tokens) + 1
    {
      tokens := tokens + 1;
    }

    method Receive()
      requires tokens > 0
      modifies this
      ensures tokens == old(tokens) - 1
    {
      tokens := tokens - 1;
    }
  }

  /** What running one command of a batch came to. */
  datatype Session = NoSession | Output(text: string) | TimedOut

  datatype BatchError = KeyError | ConnectError

  datatype BatchResult = Results(values: map<string, string>) | Failed(error: BatchError)

  /** The results have exactly the labels of the batch; a label has the output of its own command
      if that ended in time, and the empty text otherwise. */
  ghost predicate Answers(values: map<string, string>, commands: map<string, string>, run: (string, string) -> Session) {
    && values.Keys == commands.Keys
    && forall l :: l in commands ==>
         match run(l, commands[l])
         case Output(text) => values[l] == text
         case _ => values[l] == ""
  }

  class SSHManager {
    const globalSem: Semaphore
    const maxPerServer: nat
    var serverSems: map<ServerId, Semaphore>

    ghost predicate Valid()
      reads this, globalSem, serverSems.Values
    {
      && globalSem !in serverSems.Values
      && globalSem.tokens <= globalSem.capacity
      && (forall id :: id in serverSems ==>
            serverSems[id].capacity == maxPerServer && serverSems[id].tokens <= maxPerServer)
      // distinct servers never share a semaphore
      && (forall a, b :: a in serverSems && b in serverSems && a != b ==> serverSems[a] != serverSems[b])
    }

    ghost function View(): Slots
      reads this, globalSem, serverSems.Values
    {
      Slots(globalSem.tokens, map id | id in serverSems :: serverSems[id].tokens)
    }

    constructor (maxGlobal: nat, maxPerServer: nat)
      ensures Valid() && View() == Slots(0, map[])
      ensures globalSem.capacity == maxGlobal && this.maxPerServer == maxPerServer && fresh(globalSem)
    {
      globalSem := new Semaphore(maxGlobal);
      this.maxPerServer := maxPerServer;
      serverSems := map[];
    }

    /** The semaphore of a server: the one already there, or else a new empty one that no other
        server has.  Entries are never replaced or removed. */
    method GetServerSem(id: ServerId) returns (sem: Semaphore)
      requires Valid()
      modifies this`serverSems
      ensures Valid() && View() == old(View()).Ensure(id)
      ensures id in serverSems && sem == serverSems[id]
      ensures id in old(serverSems) ==> serverSems == old(serverSems)
      ensures id !in old(serverSems) ==> fresh(sem) && serverSems == old(serverSems)[id := sem]
    {
      if id !in serverSems {
        var created := new Semaphore(maxPerServer);
        serverSems := serverSems[id := created];
      }
      sem := serverSems[id];
    }

    method SendServer(id: ServerId, sem: Semaphore)
      requires Valid() && id in serverSems && sem == serverSems[id] && sem.tokens < maxPerServer
      modifies sem
      ensures Valid() && View() == old(View()).TakeServer(id)
    {
      sem.Send();
    }

    /** The prologue that a command and a batch share, when neither semaphore makes it wait: the
        global token first, then the server's semaphore is found and its token taken. */
    method TakeSlots(id: ServerId) returns (sem: Semaphore)
      requires Valid() && globalSem.tokens < globalSem.capacity && View().TokensOf(id) < maxPerServer
      modifies this`serverSems, globalSem, serverSems.Values
      ensures Valid() && id in serverSems && sem == serverSems[id]
      ensures View() == old(View()).TakeGlobal().Ensure(id).TakeServer(id)
      ensures id in old(serverSems) ==> sem == old(serverSems)[id]
      ensures id !in old(serverSems) ==> fresh(sem)
    {
      globalSem.Send();
      ghost var entered := View();
      assert entered == old(View()).TakeGlobal();
      sem := GetServerSem(id);
      assert sem.tokens == entered.TokensOf(id) by { assert View().TokensOf(id) == sem.tokens; }
      SendServer(id, sem);
    }

    /** The two deferred receives, in the opposite order. */
    method ReturnSlots(id: ServerId, sem: Semaphore)
      requires Valid() && id in serverSems && sem == serverSems[id]
      requires globalSem.tokens > 0 && sem.tokens > 0
      modifies globalSem, sem
      ensures Valid() && View() == old(View()).GiveServer(id).GiveGlobal()
    {
      sem.Receive();
      globalSem.Receive();
    }

    /** The command loop of a batch, over an open connection. */
    static method RunCommands(commands: map<string, string>, run: (string, string) -> Session)
      returns (results: map<string, string>)
      ensures Answers(results, commands, run)
    {
      results := map[];
      var todo := commands.Keys;
      while todo != {}
        invariant todo <= commands.Keys
        invariant results.Keys == commands.Keys - todo
        invariant forall l :: l in results ==>
                    match run(l, commands[l])
                    case Output(text) => results[l] == text
                    case _ => results[l] == ""
        decreases todo
      {
        var name :| name in todo;
        var session := run(name, commands[name]);
        if session.NoSession? {
          results := results[name := ""];
        } else if session.Output? {
          results := results[name := session.text];
        } else {
          results := results[name := ""];
        }
        todo := todo - {name};
      }
    }

    /** What a batch does while it holds its slots. */
    static method BatchBody(keyOk: bool, connectOk: bool, commands: map<string, string>,
                            run: (string, string) -> Session)
      returns (r: BatchResult)
      ensures !keyOk ==> r == Failed(KeyError)
      ensures keyOk && !connectOk ==> r == Failed(ConnectError)
      ensures keyOk && connectOk ==> r.Results? && Answers(r.values, commands, run)
    {
      if !keyOk { return Failed(KeyError); }
      if !connectOk { return Failed(ConnectError); }
      var results := RunCommands(commands, run);
      r := Results(results);
    }

    /** A whole batch when neither semaphore makes it wait.  On every return path both tokens are
        back: the call leaves behind only the server's semaphore, if that was missing. */
    method ExecuteBatch(keyOk: bool, connectOk: bool, commands: map<string, string>,
                        run: (string, string) -> Session, id: ServerId)
      returns (r: BatchResult)
      requires Valid() && globalSem.tokens < globalSem.capacity && View().TokensOf(id) < maxPerServer
      modifies this`serverSems, globalSem, serverSems.Values
      ensures Valid() && View() == old(View()).Ensure(id)
      ensures !keyOk ==> r == Failed(KeyError)
      ensures keyOk && !connectOk ==> r == Failed(ConnectError)
      ensures keyOk && connectOk ==> r.Results? && Answers(r.values, commands, run)
    {
      var srvSem := TakeSlots(id);
      assert srvSem.tokens == View().TokensOf(id);
      r := BatchBody(keyOk, connectOk, commands, run);
      ReturnSlots(id, srvSem);
      GiveUndoesTake(old(View()), id);
    }
  }
}
