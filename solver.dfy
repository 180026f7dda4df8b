/**
 * The page side of the channel to the search worker (js/solver.js).
 *
 * Each request method creates a promise, pushes its resolve function onto the
 * queue of its kind and posts one message; each `*_DONE` reply shifts the oldest
 * resolve function of its kind and calls it.  A promise is modelled as a fresh
 * handle, the worker as the outbox of posted messages, and a call of `onload` or
 * of a resolve function as the Effect a reply returns.
 */
module WorkerChannel {
  import opened Wrappers

  /** A pending promise, standing for its resolve function. */
  type Handle = nat

  /** The five resolver queues of `this.resolves` (js/solver.js:2-8). */
  datatype Kind = Setup | Board | Solve | Add | Reset

  /** A message posted to the worker; absent fields are None. */
  datatype Message =
    | SetupMessage(seed: Option<int>)
    | BoardMessage(tiles: seq<int>)
    | AddMessage(position: int, value: int)
    | SolveMessage
    | ResetMessage(resetSeed: Option<int>)

  /** The queue a request message's promise waits in. */
  function KindOf(m: Message): Kind
  {
    match m
    case SetupMessage(_) => Setup
    case BoardMessage(_) => Board
    case AddMessage(_, _) => Add
    case SolveMessage => Solve
    case ResetMessage(_) => Reset
  }

  /** The type tag the worker uses to post a message. */
  function RequestTag(m: Message): string
  {
    match m
    case SetupMessage(_) => "SETUP"
    case BoardMessage(_) => "BOARD"
    case AddMessage(_, _) => "ADD"
    case SolveMessage => "SOLVE"
    case ResetMessage(_) => "RESET"
  }

  /** A message from the worker: its `type` and its `solution` field. */
  datatype Reply = Reply(tag: string, solution: Option<int>)

  /** The queue a reply tag completes, if it is one of the five `*_DONE` tags. */
  function DoneKind(tag: string): Option<Kind>
  {
    if tag == "SETUP_DONE" then Some(Setup)
    else if tag == "BOARD_DONE" then Some(Board)
    else if tag == "ADD_DONE" then Some(Add)
    else if tag == "SOLVE_DONE" then Some(Solve)
    else if tag == "RESET_DONE" then Some(Reset)
    else None
  }

  /** What handling one reply does. */
  datatype Effect =
    | Loaded                                                  // onload() was called
    | Resolved(kind: Kind, handle: Handle, value: Option<int>) // a resolve function was called
    | Ignored                                                 // nothing happened

  /** `this.resolves`: one queue of pending handles per kind, oldest first. */
  datatype Queues = Queues(setup: seq<Handle>, board: seq<Handle>, solve: seq<Handle>, add: seq<Handle>, reset: seq<Handle>)
  {
    function Get(k: Kind): seq<Handle>
    {
      match k
      case Setup => setup
      case Board => board
      case Solve => solve
      case Add => add
      case Reset => reset
    }

    function Set(k: Kind, queue: seq<Handle>): (r: Queues)
      ensures r.Get(k) == queue
      ensures forall j: Kind :: j != k ==> r.Get(j) == Get(j)
    {
      match k
      case Setup => this.(setup := queue)
      case Board => this.(board := queue)
      case Solve => this.(solve := queue)
      case Add => this.(add := queue)
      case Reset => this.(reset := queue)
    }
  }

  /** The state of a Solver as a value. */
  datatype Channel = Channel(resolves: Queues, outbox: seq<Message>, nextHandle: Handle)

  /** Every pending handle was issued before nextHandle. */
  predicate Valid(c: Channel)
  {
    forall k: Kind, i :: 0 <= i < |c.resolves.Get(k)| ==> c.resolves.Get(k)[i] < c.nextHandle
  }

  /** A new Solver: five empty queues and nothing posted (js/solver.js:1-31). */
  function Initial(): (c: Channel)
    ensures Valid(c)
    ensures forall k: Kind :: c.resolves.Get(k) == []
    ensures c.outbox == []
  {
    Channel(Queues([], [], [], [], []), [], 0)
  }

  /**
   * One request (js/solver.js:33-66): the promise's handle is pushed on the queue
   * of the message's kind and the message is posted.
   */
  function Send(c: Channel, m: Message): (r: (Channel, Handle))
    ensures r.0.resolves.Get(KindOf(m)) == c.resolves.Get(KindOf(m)) + [r.1]
    ensures forall k: Kind :: k != KindOf(m) ==> r.0.resolves.Get(k) == c.resolves.Get(k)
    ensures r.0.outbox == c.outbox + [m]
  {
    var k := KindOf(m);
    var h := c.nextHandle;
    (Channel(c.resolves.Set(k, c.resolves.Get(k) + [h]), c.outbox + [m], h + 1), h)
  }

  /** A reply the handler can take: a `*_DONE` reply finds a promise waiting in its queue. */
  predicate Receivable(c: Channel, reply: Reply)
  {
    DoneKind(reply.tag).Some? ==> c.resolves.Get(DoneKind(reply.tag).value) != []
  }

  /**
   * The onmessage handler (js/solver.js:11-30): READY calls onload; a `*_DONE`
   * reply shifts the oldest handle of its kind and resolves it, SOLVE_DONE with
   * the reply's solution and the others with no value; any other reply is ignored.
   */
  function Receive(c: Channel, reply: Reply): (r: (Channel, Effect))
    requires Receivable(c, reply)
    ensures r.0.outbox == c.outbox
    ensures reply.tag == "READY" ==> r == (c, Loaded)
    ensures reply.tag != "READY" && DoneKind(reply.tag).None? ==> r == (c, Ignored)
    ensures DoneKind(reply.tag).Some? ==>
      var k := DoneKind(reply.tag).value;
      && r.1 == Resolved(k, c.resolves.Get(k)[0], if k == Solve then reply.solution else None)
      && c.resolves.Get(k) == [r.1.handle] + r.0.resolves.Get(k)
      && (forall j: Kind :: j != k ==> r.0.resolves.Get(j) == c.resolves.Get(j))
  {
    if reply.tag == "READY" then (c, Loaded)
    else match DoneKind(reply.tag)
      case None => (c, Ignored)
      case Some(k) =>
        var queue := c.resolves.Get(k);
        var value := if k == Solve then reply.solution else None;
        (Channel(c.resolves.Set(k, queue[1..]), c.outbox, c.nextHandle), Resolved(k, queue[0], value))
  }

  /** A request's handle is fresh: it is in no queue yet, and the queues stay valid. */
  lemma SendFresh(c: Channel, m: Message)
    requires Valid(c)
    ensures Valid(Send(c, m).0)
    ensures forall k: Kind :: Send(c, m).1 !in c.resolves.Get(k)
  {
    var (c', h) := Send(c, m);
    forall k: Kind, i | 0 <= i < |c'.resolves.Get(k)| ensures c'.resolves.Get(k)[i] < c'.nextHandle {
      if k == KindOf(m) && i == |c.resolves.Get(k)| {
        assert c'.resolves.Get(k)[i] == h;
      } else {
        assert c'.resolves.Get(k)[i] == c.resolves.Get(k)[i];
      }
    }
  }

  /** Handling a reply keeps the queues valid. */
  lemma ReceiveKeepsValid(c: Channel, reply: Reply)
    requires Valid(c) && Receivable(c, reply)
    ensures Valid(Receive(c, reply).0)
  {
    var c' := Receive(c, reply).0;
    forall k: Kind, i | 0 <= i < |c'.resolves.Get(k)| ensures c'.resolves.Get(k)[i] < c'.nextHandle {
      if DoneKind(reply.tag) == Some(k) {
        assert c'.resolves.Get(k)[i] == c.resolves.Get(k)[i + 1];
      }
    }
  }

  // ---------------------------------------------------------------------------
  // The Solver object

  class Solver {
    var resolves: Queues
    var outbox: seq<Message>
    var nextHandle: Handle

    function State(): Channel
      reads this
    {
      Channel(resolves, outbox, nextHandle)
    }

    /** new Solver(onload) (js/solver.js:1-31). */
    constructor ()
      ensures State() == Initial()
    {
      resolves := Queues([], [], [], [], []);
      outbox := [];
      nextHandle := 0;
    }

    /** Pushes a fresh handle on one queue and posts the message. */
    method Post(m: Message) returns (h: Handle)
      requires Valid(State())
      modifies this
      ensures Valid(State())
      ensures (State(), h) == Send(old(State()), m)
    {
      SendFresh(State(), m);
      h := nextHandle;
      var k := KindOf(m);
      resolves := resolves.Set(k, resolves.Get(k) + [h]);
      outbox := outbox + [m];
      nextHandle := nextHandle + 1;
    }

    /** setup(seed) (js/solver.js:33-38). */
    method SetupRequest(seed: Option<int>) returns (h: Handle)
      requires Valid(State())
      modifies this
      ensures Valid(State())
      ensures (State(), h) == Send(old(State()), SetupMessage(seed))
    {
      h := Post(SetupMessage(seed));
    }

    /** setBoard(tiles) (js/solver.js:40-45). */
    method SetBoard(tiles: seq<int>) returns (h: Handle)
      requires Valid(State())
      modifies this
      ensures Valid(State())
      ensures (State(), h) == Send(old(State()), BoardMessage(tiles))
    {
      h := Post(BoardMessage(tiles));
    }

    /** addTile(position, value) (js/solver.js:47-52). */
    method AddTile(position: int, value: int) returns (h: Handle)
      requires Valid(State())
      modifies this
      ensures Valid(State())
      ensures (State(), h) == Send(old(State()), AddMessage(position, value))
    {
      h := Post(AddMessage(position, value));
    }

    /** getMove() (js/solver.js:54-59). */
    method GetMove() returns (h: Handle)
      requires Valid(State())
      modifies this
      ensures Valid(State())
      ensures (State(), h) == Send(old(State()), SolveMessage)
    {
      h := Post(SolveMessage);
    }

    /** reset(seed) (js/solver.js:61-66). */
    method ResetRequest(seed: Option<int>) returns (h: Handle)
      requires Valid(State())
      modifies this
      ensures Valid(State())
      ensures (State(), h) == Send(old(State()), ResetMessage(seed))
    {
      h := Post(ResetMessage(seed));
    }

    /** worker.onmessage (js/solver.js:11-30). */
    method OnMessage(reply: Reply) returns (effect: Effect)
      requires Valid(State()) && Receivable(State(), reply)
      modifies this
      ensures Valid(State())
      ensures (State(), effect) == Receive(old(State()), reply)
    {
      ReceiveKeepsValid(State(), reply);
      if reply.tag == "READY" {
        effect := Loaded;
      } else if reply.tag == "SETUP_DONE" {
        effect := Shift(Setup, None);
      } else if reply.tag == "BOARD_DONE" {
        effect := Shift(Board, None);
      } else if reply.tag == "ADD_DONE" {
        effect := Shift(Add, None);
      } else if reply.tag == "SOLVE_DONE" {
        effect := Shift(Solve, reply.solution);
      } else if reply.tag == "RESET_DONE" {
        effect := Shift(Reset, None);
      } else {
        effect := Ignored;
      }
    }

    /** Shifts the oldest handle of one queue and resolves it with the value. */
    method Shift(k: Kind, value: Option<int>) returns (effect: Effect)
      requires resolves.Get(k) != []
      modifies this
      ensures outbox == old(outbox) && nextHandle == old(nextHandle)
      ensures resolves == old(resolves).Set(k, old(resolves).Get(k)[1..])
      ensures effect == Resolved(k, old(resolves).Get(k)[0], value)
    {
      var queue := resolves.Get(k);
      resolves := resolves.Set(k, queue[1..]);
      effect := Resolved(k, queue[0], value);
    }
  }

  // ---------------------------------------------------------------------------
  // Runs: interleavings of requests and replies

  datatype Event = Request(message: Message) | Response(reply: Reply)

  /** Every reply in the run finds a promise of its kind waiting. */
  predicate Runnable(c: Channel, events: seq<Event>)
    decreases |events|
  {
    events == [] ||
    match events[0]
    case Request(m) => Runnable(Send(c, m).0, events[1..])
    case Response(reply) => Receivable(c, reply) && Runnable(Receive(c, reply).0, events[1..])
  }

  /** A run's outcome: the final channel, the handles issued and the effects, in order. */
  datatype Outcome = Outcome(channel: Channel, issued: seq<(Kind, Handle)>, effects: seq<Effect>)

  function Run(c: Channel, events: seq<Event>): (o: Outcome)
    requires Runnable(c, events)
    decreases |events|
  {
    if events == [] then Outcome(c, [], [])
    else match events[0]
      case Request(m) =>
        var (c', h) := Send(c, m);
        var rest := Run(c', events[1..]);
        Outcome(rest.channel, [(KindOf(m), h)] + rest.issued, rest.effects)
      case Response(reply) =>
        var (c', e) := Receive(c, reply);
        var rest := Run(c', events[1..]);
        Outcome(rest.channel, rest.issued, [e] + rest.effects)
  }

  /** The handles issued for kind k, in order. */
  function IssuedOf(issued: seq<(Kind, Handle)>, k: Kind): seq<Handle>
  {
    if issued == [] then []
    else (if issued[0].0 == k then [issued[0].1] else []) + IssuedOf(issued[1..], k)
  }

  /** The handles resolved for kind k, in order. */
  function ResolvedOf(effects: seq<Effect>, k: Kind): seq<Handle>
  {
    if effects == [] then []
    else (if effects[0].Resolved? && effects[0].kind == k then [effects[0].handle] else []) + ResolvedOf(effects[1..], k)
  }

  /**
   * FIFO per kind: over any interleaving of requests and replies, the promises of
   * kind k that were waiting, followed by those created in the run, are exactly
   * the ones resolved in the run, in the same order, followed by those still waiting.
   */
  lemma {:induction false} FifoPerKind(c: Channel, events: seq<Event>, k: Kind)
    requires Runnable(c, events)
    ensures var o := Run(c, events);
      c.resolves.Get(k) + IssuedOf(o.issued, k) == ResolvedOf(o.effects, k) + o.channel.resolves.Get(k)
    decreases |events|, 1
  {
    if events != [] {
      if events[0].Request? {
        FifoAfterRequest(c, events, k);
      } else {
        FifoAfterResponse(c, events, k);
      }
    }
  }

  lemma {:induction false} FifoAfterRequest(c: Channel, events: seq<Event>, k: Kind)
    requires Runnable(c, events) && events != [] && events[0].Request?
    ensures var o := Run(c, events);
      c.resolves.Get(k) + IssuedOf(o.issued, k) == ResolvedOf(o.effects, k) + o.channel.resolves.Get(k)
    decreases |events|, 0
  {
    var m := events[0].message;
    var (c', h) := Send(c, m);
    var rest := Run(c', events[1..]);
    FifoPerKind(c', events[1..], k);
    var pushed := if KindOf(m) == k then [h] else [];
    assert Run(c, events) == Outcome(rest.channel, [(KindOf(m), h)] + rest.issued, rest.effects);
    IssuedOfCons((KindOf(m), h), rest.issued, k);
    assert c'.resolves.Get(k) == c.resolves.Get(k) + pushed;
    Associative(c.resolves.Get(k), pushed, IssuedOf(rest.issued, k));
  }

  lemma {:induction false} FifoAfterResponse(c: Channel, events: seq<Event>, k: Kind)
    requires Runnable(c, events) && events != [] && events[0].Response?
    ensures var o := Run(c, events);
      c.resolves.Get(k) + IssuedOf(o.issued, k) == ResolvedOf(o.effects, k) + o.channel.resolves.Get(k)
    decreases |events|, 0
  {
    var reply := events[0].reply;
    var (c', e) := Receive(c, reply);
    var rest := Run(c', events[1..]);
    FifoPerKind(c', events[1..], k);
    ReceiveShifts(c, reply, k);
    var shifted := if e.Resolved? && e.kind == k then [e.handle] else [];
    assert Run(c, events) == Outcome(rest.channel, rest.issued, [e] + rest.effects);
    ResolvedOfCons(e, rest.effects, k);
    Regroup(shifted, c'.resolves.Get(k), IssuedOf(rest.issued, k), ResolvedOf(rest.effects, k), rest.channel.resolves.Get(k));
  }

  lemma IssuedOfCons(x: (Kind, Handle), issued: seq<(Kind, Handle)>, k: Kind)
    ensures IssuedOf([x] + issued, k) == (if x.0 == k then [x.1] else []) + IssuedOf(issued, k)
  {
    assert ([x] + issued)[1..] == issued;
  }

  lemma ResolvedOfCons(e: Effect, effects: seq<Effect>, k: Kind)
    ensures ResolvedOf([e] + effects, k) == (if e.Resolved? && e.kind == k then [e.handle] else []) + ResolvedOf(effects, k)
  {
    assert ([e] + effects)[1..] == effects;
  }

  lemma Associative(a: seq<Handle>, b: seq<Handle>, d: seq<Handle>)
    ensures (a + b) + d == a + (b + d)
  {
  }

  /** (q + p) + i == q + (p + i), and with p + i == r + f both sides regroup. */
  lemma Regroup(q: seq<Handle>, p: seq<Handle>, i: seq<Handle>, r: seq<Handle>, f: seq<Handle>)
    requires p + i == r + f
    ensures (q + p) + i == (q + r) + f
  {
    assert (q + p) + i == q + (p + i);
    assert q + (r + f) == (q + r) + f;
  }

  /** A reply takes off the front of queue k exactly the handle it resolves for k. */
  lemma ReceiveShifts(c: Channel, reply: Reply, k: Kind)
    requires Receivable(c, reply)
    ensures var (c', e) := Receive(c, reply);
      c.resolves.Get(k) == (if e.Resolved? && e.kind == k then [e.handle] else []) + c'.resolves.Get(k)
  {
  }

  /**
   * From a new Solver, the i-th promise of a kind to be resolved is the i-th
   * promise of that kind to have been created.
   */
  lemma ResolvedInRequestOrder(events: seq<Event>, k: Kind, i: int)
    requires Runnable(Initial(), events)
    requires 0 <= i < |ResolvedOf(Run(Initial(), events).effects, k)|
    ensures i < |IssuedOf(Run(Initial(), events).issued, k)|
    ensures ResolvedOf(Run(Initial(), events).effects, k)[i] == IssuedOf(Run(Initial(), events).issued, k)[i]
  {
    var o := Run(Initial(), events);
    FifoPerKind(Initial(), events, k);
    assert IssuedOf(o.issued, k) == ResolvedOf(o.effects, k) + o.channel.resolves.Get(k);
  }

  /**
   * The worker's own tags (the request tags echoed back, without `_DONE`) are not
   * recognised by the handler: such a reply resolves nothing and changes nothing.
   */
  lemma EchoedTagIgnored(c: Channel, m: Message, solution: Option<int>)
    requires Valid(c)
    ensures Receivable(c, Reply(RequestTag(m), solution))
    ensures Receive(c, Reply(RequestTag(m), solution)) == (c, Ignored)
  {
  }
}
