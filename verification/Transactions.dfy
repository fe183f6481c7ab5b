/**
 Dispatch with MULTI, EXEC, DISCARD and WATCH. Except for the transaction words and the subscribing commands,
 the command handlers are a table of arbitrary functions, so what is proved here holds for any set of commands.
 */
module Transactions {
  import opened Bytes
  import opened Options
  import Store
  import PubSub
  import Resp
  import Wire

  type Reply = Resp.Reply

  // ----- What commands see and change

  /** The store all connections share. `log` only observes: the writes and flushes there have been, in order. */
  datatype Shared = Shared(table: Store.Table<Bytes>, generations: Store.Generations, log: seq<Store.Mark>)

  /** The store once a command has left `table` and marked these writes and flushes. */
  function Marked(s: Shared, table: Store.Table<Bytes>, marks: seq<Store.Mark>): Shared {
    Shared(table, Store.AfterMarks(s.generations, marks), s.log + marks)
  }

  /** What one connection's commands work on: the store, and the names this connection subscribes to. */
  datatype World = World(shared: Shared, held: PubSub.Held)
  {
    function Generation(key: Bytes): nat { Store.Count(shared.generations, key) }

    predicate IsLive(key: Bytes, now: int) { key in shared.table && Store.Live(shared.table[key], now) }

    predicate Subscribed() { held.Any() }
  }

  /** What a call finds outside: the clock, and how many frames a message to a channel sends to other connections. */
  datatype Moment = Moment(now: int, elsewhere: Bytes -> nat)

  /**
   A handler's effect: the table after it, the writes and flushes it marks, its reply if it has one, and the
   frames it pushes to its own connection.
   */
  datatype Ran = Ran(table: Store.Table<Bytes>, marks: seq<Store.Mark>, reply: Option<Reply>, pushed: seq<Reply>)

  datatype Handler = Handler(minArgs: nat, maxArgs: Option<nat>, run: (World, seq<Bytes>, Moment) -> Ran)

  datatype ErrorKind =
    | Gate | ExecAbort | ExecWithoutMulti | DiscardWithoutMulti | Unknown | Arity | NestedMulti | WatchInMulti

  /** The server's command table; the wording of its errors is a parameter. */
  datatype Server = Server(handlers: map<string, Handler>, error: ErrorKind -> Reply)

  datatype Watch = Watch(generation: nat, live: bool)

  /** The connection's transaction state. */
  datatype Conn = Conn(inMulti: bool, queue: seq<seq<Bytes>>, watched: map<Bytes, Watch>)

  /** No subscription at all. */
  const NOTHING: PubSub.Held := PubSub.Held({}, {})

  /** No transaction, nothing queued, nothing watched. */
  const IDLE: Conn := Conn(false, [], map[])

  function UpperChar(b: byte): char {
    if 97 <= b <= 122 then (b - 32) as char else b as char
  }

  function Name(raw: Bytes): string {
    seq(|raw|, k requires 0 <= k < |raw| => UpperChar(raw[k]))
  }

  /** The commands that change what a connection subscribes to, and confirm it by pushed frames. */
  predicate Subscribing(name: string) {
    name in ["SUBSCRIBE", "UNSUBSCRIBE", "PSUBSCRIBE", "PUNSUBSCRIBE"]
  }

  predicate AllowedWhileSubscribed(name: string) { Subscribing(name) || name == "PING" }

  function SideOf(name: string): PubSub.Side {
    if name in ["SUBSCRIBE", "UNSUBSCRIBE"] then PubSub.Channels else PubSub.Patterns
  }

  ghost function NextHeld(held: PubSub.Held, name: string, args: seq<Bytes>): PubSub.Held {
    if !Subscribing(name) then held
    else if name in ["SUBSCRIBE", "PSUBSCRIBE"] then PubSub.Joined(SideOf(name), held, args)
    else PubSub.Left(SideOf(name), held, args)
  }

  ghost function Confirmations(held: PubSub.Held, name: string, args: seq<Bytes>): seq<Reply> {
    if name in ["SUBSCRIBE", "PSUBSCRIBE"] then PubSub.JoinFrames(SideOf(name), held, args)
    else PubSub.LeaveFrames(SideOf(name), held, args)
  }

  predicate WrongArity(handler: Handler, args: seq<Bytes>) {
    |args| < handler.minArgs || (handler.maxArgs.Some? && |args| > handler.maxArgs.value)
  }

  function WatchAll(watched: map<Bytes, Watch>, keys: seq<Bytes>, w: World, now: int): map<Bytes, Watch> {
    watched + map k | k in keys :: Watch(w.Generation(k), w.IsLive(k, now))
  }

  lemma WatchOneMore(watched: map<Bytes, Watch>, keys: seq<Bytes>, n: nat, w: World, now: int)
    requires n < |keys|
    ensures WatchAll(watched, keys[..n + 1], w, now) ==
            WatchAll(watched, keys[..n], w, now)[keys[n] := Watch(w.Generation(keys[n]), w.IsLive(keys[n], now))]
  {
    assert keys[..n + 1] == keys[..n] + [keys[n]];
  }

  // ----- One command outside a transaction

  datatype Out = Out(conn: Conn, world: World, reply: Option<Reply>, pushed: seq<Reply>)

  /** The normal path; EXEC replays queued commands through it with the subscribed-mode gate off. */
  ghost function Direct(server: Server, conn: Conn, w: World, request: seq<Bytes>, moment: Moment, bypass: bool): Out
    requires request != []
  {
    var name, args := Name(request[0]), request[1..];
    var fail := (kind: ErrorKind) => Out(conn, w, Some(server.error(kind)), []);
    if !bypass && w.Subscribed() && name in ["MULTI", "DISCARD"] then fail(Gate)
    else if name == "MULTI" then Out(conn.(inMulti := true, queue := []), w, Some(Resp.Ok), [])
    else if name == "EXEC" then fail(if w.Subscribed() then ExecAbort else ExecWithoutMulti)
    else if name == "DISCARD" then fail(DiscardWithoutMulti)
    else if name !in server.handlers then fail(Unknown)
    else if WrongArity(server.handlers[name], args) then fail(Arity)
    else if !bypass && w.Subscribed() && !AllowedWhileSubscribed(name) then fail(Gate)
    else if w.Subscribed() && name == "PING" then
      if |args| > 1 then fail(Arity)
      else Out(conn, w, Some(Resp.Array([Resp.Bulk(PONG), Resp.Bulk(if args == [] then [] else args[0])])), [])
    else if Subscribing(name) then
      Out(conn, w.(held := NextHeld(w.held, name, args)), None, Confirmations(w.held, name, args))
    else if name == "WATCH" then
      Out(conn.(watched := WatchAll(conn.watched, args, w, moment.now)), w, Some(Resp.Ok), [])
    else if name == "UNWATCH" then Out(conn.(watched := map[]), w, Some(Resp.Ok), [])
    else
      var ran := server.handlers[name].run(w, args, moment);
      Out(conn, w.(shared := Marked(w.shared, ran.table, ran.marks)), ran.reply, ran.pushed)
  }

  const PONG: Bytes := [112, 111, 110, 103]

  // ----- A transaction

  /** Some watched key was written since it was watched, or has appeared or gone. */
  predicate Dirty(conn: Conn, w: World, now: int) {
    exists k :: k in conn.watched && conn.watched[k] != Watch(w.Generation(k), w.IsLive(k, now))
  }

  predicate NonEmpty(queue: seq<seq<Bytes>>) {
    forall r :: r in queue ==> r != []
  }

  /** What becomes of a replayed command in the reply: its first pushed frame, or else its own reply. */
  function SlotOf(out: Out): Option<Reply> {
    if out.pushed != [] then Some(out.pushed[0]) else out.reply
  }

  datatype Replay = Replay(conn: Conn, world: World, parts: seq<Option<Reply>>, trailing: seq<Reply>)

  /** Runs the first `n` queued requests in order; the moment of the k-th is `clock(k)`. */
  ghost function ReplayQueue(server: Server, conn: Conn, w: World, queue: seq<seq<Bytes>>, clock: nat -> Moment, n: nat): (replay: Replay)
    requires n <= |queue| && NonEmpty(queue)
    ensures |replay.parts| == n
  {
    if n == 0 then Replay(conn, w, [], [])
    else
      var before := ReplayQueue(server, conn, w, queue, clock, n - 1);
      assert queue[n - 1] in queue;
      var out := Direct(server, before.conn, before.world, queue[n - 1], clock(n - 1), true);
      Replay(out.conn, out.world,
             before.parts + [SlotOf(out)],
             before.trailing + (if out.pushed != [] then out.pushed[1..] else []))
  }

  lemma {:induction false} ReplayStart(server: Server, conn: Conn, w: World, queue: seq<seq<Bytes>>, clock: nat -> Moment)
    requires NonEmpty(queue)
    ensures ReplayQueue(server, conn, w, queue, clock, 0) == Replay(conn, w, [], [])
  {
  }

  lemma ReplayNext(server: Server, conn: Conn, w: World, queue: seq<seq<Bytes>>, clock: nat -> Moment, k: nat)
    requires k < |queue| && NonEmpty(queue)
    ensures queue[k] in queue
    ensures var before := ReplayQueue(server, conn, w, queue, clock, k);
            var out := Direct(server, before.conn, before.world, queue[k], clock(k), true);
            var after := ReplayQueue(server, conn, w, queue, clock, k + 1);
            && after.conn == out.conn && after.world == out.world
            && (out.pushed == [] ==> after.parts == before.parts + [out.reply] && after.trailing == before.trailing)
            && (out.pushed != [] ==>
                  after.parts == before.parts + [Some(out.pushed[0])] && after.trailing == before.trailing + out.pushed[1..])
  {
    hide Direct;
    assert queue[k] in queue;
  }

  /** What the connection is sent: nothing, bytes, or an internal failure (a slot of EXEC with no frame). */
  datatype Answer = Silent | Wire(bytes: Bytes) | Raises

  function Unwrapped(parts: seq<Option<Reply>>): seq<Reply>
    requires forall p :: p in parts ==> p.Some?
  {
    seq(|parts|, k requires 0 <= k < |parts| => (assert parts[k] in parts; parts[k].value))
  }

  function ExecAnswer(count: nat, parts: seq<Option<Reply>>, trailing: seq<Reply>): Answer {
    if exists p :: p in parts && p.None? then Raises
    else Wire([Resp.STAR] + Resp.Decimal(count) + Resp.CRLF + Resp.EncodeAll(Unwrapped(parts) + trailing))
  }

  datatype Step = Step(conn: Conn, world: World, answer: Answer, pushed: seq<Reply>)

  function Answered(out: Out): Step {
    Step(out.conn, out.world, if out.reply.None? then Silent else Wire(Resp.Encode(out.reply.value)), out.pushed)
  }

  predicate Queueable(conn: Conn) {
    NonEmpty(conn.queue)
  }

  ghost function Queued(server: Server, conn: Conn, w: World, request: seq<Bytes>, clock: nat -> Moment, moment: Moment): Step
    requires request != [] && Queueable(conn)
  {
    var name, args := Name(request[0]), request[1..];
    var fail := (kind: ErrorKind) => Answered(Out(conn, w, Some(server.error(kind)), []));
    if name == "EXEC" then
      var ended := IDLE;
      if Dirty(conn, w, moment.now) then Answered(Out(ended, w, Some(Resp.NilArray), []))
      else if conn.queue == [] then Answered(Out(ended, w, Some(Resp.Array([])), []))
      else
        var r := ReplayQueue(server, ended, w, conn.queue, clock, |conn.queue|);
        Step(r.conn, r.world, ExecAnswer(|conn.queue|, r.parts, r.trailing), [])
    else if name == "DISCARD" then Answered(Out(IDLE, w, Some(Resp.Ok), []))
    else if name == "MULTI" then fail(NestedMulti)
    else if name == "WATCH" then fail(WatchInMulti)
    else if name !in server.handlers then fail(Unknown)
    else if WrongArity(server.handlers[name], args) then fail(Arity)
    else Answered(Out(conn.(queue := conn.queue + [request]), w, Some(Resp.Queued), []))
  }

  /** One request of one connection. `moment` is that of the dispatch, `clock(k)` that of the k-th replayed command. */
  ghost function Dispatched(server: Server, conn: Conn, w: World, request: seq<Bytes>, clock: nat -> Moment, moment: Moment): Step
    requires Queueable(conn)
  {
    if request == [] then Step(conn, w, Silent, [])
    else if conn.inMulti then Queued(server, conn, w, request, clock, moment)
    else Answered(Direct(server, conn, w, request, moment, false))
  }

  // ----- The dispatcher itself

  class Session {
    var inMulti: bool
    var queue: seq<seq<Bytes>>
    var watched: map<Bytes, Watch>
    /** The subscriptions, and where pushed frames go: the connection, or the collector of a replayed command. */
    const sub: PubSub.Session

    constructor ()
      ensures State() == IDLE && sub.Holds() == NOTHING && sub.outbox == [] && fresh(sub)
    {
      inMulti, queue, watched := false, [], map[];
      sub := new PubSub.Session();
    }

    function State(): Conn
      reads this
    {
      Conn(inMulti, queue, watched)
    }
  }

  class Commands {
    const server: Server
    const hub: PubSub.Hub
    var shared: Shared

    constructor (server: Server, shared: Shared)
      ensures this.server == server && this.shared == shared
      ensures fresh(hub) && PubSub.InStep(hub, {})
    {
      this.server, this.shared := server, shared;
      hub := new PubSub.Hub();
    }

    function View(state: Session): World
      reads this, state.sub
    {
      World(shared, state.sub.Holds())
    }

    ghost predicate InStep(state: Session, connected: set<PubSub.Session>)
      reads hub, connected`channels, connected`patterns
    {
      PubSub.InStep(hub, connected) && state.sub in connected
    }

    method DispatchDirect(state: Session, request: seq<Bytes>, moment: Moment, bypass: bool,
                          ghost connected: set<PubSub.Session>)
      returns (reply: Option<Reply>)
      requires request != [] && InStep(state, connected)
      modifies this, hub, state, state.sub
      ensures InStep(state, connected)
      ensures var out := Direct(server, old(state.State()), old(View(state)), request, moment, bypass);
              && state.State() == out.conn && View(state) == out.world && reply == out.reply
              && state.sub.outbox == old(state.sub.outbox) + out.pushed
    {
      hide PubSub.InStep, NextHeld, Confirmations, WatchAll, Name;
      var name, args := Name(request[0]), request[1..];
      var w := View(state);
      if !bypass && w.Subscribed() && name in ["MULTI", "DISCARD"] {
        return Some(server.error(Gate));
      }
      if name == "MULTI" {
        state.inMulti := true;
        state.queue := [];
        return Some(Resp.Ok);
      }
      if name == "EXEC" {
        return Some(server.error(if w.Subscribed() then ExecAbort else ExecWithoutMulti));
      }
      if name == "DISCARD" {
        return Some(server.error(DiscardWithoutMulti));
      }
      if name !in server.handlers {
        return Some(server.error(Unknown));
      }
      var handler := server.handlers[name];
      if WrongArity(handler, args) {
        return Some(server.error(Arity));
      }
      if !bypass && w.Subscribed() && !AllowedWhileSubscribed(name) {
        return Some(server.error(Gate));
      }
      if w.Subscribed() && name == "PING" {
        if |args| > 1 {
          return Some(server.error(Arity));
        }
        return Some(Resp.Array([Resp.Bulk(PONG), Resp.Bulk(if args == [] then [] else args[0])]));
      }
      if Subscribing(name) {
        ChangeSubscriptions(state, name, args, connected);
        return None;
      }
      if name == "WATCH" {
        WatchKeys(state, args, moment.now);
        return Some(Resp.Ok);
      }
      if name == "UNWATCH" {
        state.watched := map[];
        return Some(Resp.Ok);
      }
      var ran := handler.run(w, args, moment);
      shared := Marked(shared, ran.table, ran.marks);
      state.sub.outbox := state.sub.outbox + ran.pushed;
      reply := ran.reply;
    }

    method ChangeSubscriptions(state: Session, name: string, args: seq<Bytes>, ghost connected: set<PubSub.Session>)
      requires Subscribing(name) && InStep(state, connected)
      modifies hub, state.sub
      ensures InStep(state, connected)
      ensures state.sub.Holds() == NextHeld(old(state.sub.Holds()), name, args)
      ensures state.sub.outbox == old(state.sub.outbox) + Confirmations(old(state.sub.Holds()), name, args)
    {
      if name in ["SUBSCRIBE", "PSUBSCRIBE"] {
        PubSub.Join(hub, state.sub, SideOf(name), args, connected);
      } else {
        PubSub.Leave(hub, state.sub, SideOf(name), args, connected);
      }
    }

    /** WATCH: each key's generation and liveness as they are now. */
    method WatchKeys(state: Session, keys: seq<Bytes>, now: int)
      modifies state`watched
      ensures state.watched == WatchAll(old(state.watched), keys, View(state), now)
    {
      for k := 0 to |keys|
        invariant state.watched == WatchAll(old(state.watched), keys[..k], View(state), now)
      {
        WatchOneMore(old(state.watched), keys, k, View(state), now);
        state.watched := state.watched[keys[k] := Watch(View(state).Generation(keys[k]), View(state).IsLive(keys[k], now))];
      }
      assert keys[..|keys|] == keys;
    }

    method AnyDirty(state: Session, now: int) returns (dirty: bool)
      ensures dirty == Dirty(state.State(), View(state), now)
    {
      var todo := state.watched.Keys;
      while todo != {}
        invariant todo <= state.watched.Keys
        invariant forall k :: k in state.watched && k !in todo ==>
                    state.watched[k] == Watch(View(state).Generation(k), View(state).IsLive(k, now))
        decreases todo
      {
        var k :| k in todo;
        todo := todo - {k};
        var watch := state.watched[k];
        if View(state).Generation(k) != watch.generation || View(state).IsLive(k, now) != watch.live {
          return true;
        }
      }
      dirty := false;
    }

    /** Replays the queue, diverting what each command pushes into its slot of the reply. */
    method Exec(state: Session, queued: seq<seq<Bytes>>, clock: nat -> Moment, ghost connected: set<PubSub.Session>)
      returns (answer: Answer)
      requires NonEmpty(queued) && InStep(state, connected)
      modifies this, hub, state, state.sub
      ensures InStep(state, connected)
      ensures var r := ReplayQueue(server, old(state.State()), old(View(state)), queued, clock, |queued|);
              && state.State() == r.conn && View(state) == r.world && state.sub.outbox == old(state.sub.outbox)
              && answer == ExecAnswer(|queued|, r.parts, r.trailing)
    {
      hide Direct, ReplayQueue, PubSub.InStep;
      ReplayStart(server, state.State(), View(state), queued, clock);
      var parts: seq<Option<Reply>>, trailing: seq<Reply> := [], [];
      for k := 0 to |queued|
        invariant var r := ReplayQueue(server, old(state.State()), old(View(state)), queued, clock, k);
                  && state.State() == r.conn && View(state) == r.world
                  && parts == r.parts && trailing == r.trailing
        invariant state.sub.outbox == old(state.sub.outbox) && InStep(state, connected)
      {
        ReplayNext(server, old(state.State()), old(View(state)), queued, clock, k);
        var previous := state.sub.outbox;
        state.sub.outbox := [];
        var frame := DispatchDirect(state, queued[k], clock(k), true, connected);
        var collector := state.sub.outbox;
        state.sub.outbox := previous;
        if collector != [] {
          parts := parts + [Some(collector[0])];
          trailing := trailing + collector[1..];
        } else {
          parts := parts + [frame];
        }
      }
      answer := ExecAnswer(|queued|, parts, trailing);
    }

    method DispatchQueued(state: Session, request: seq<Bytes>, clock: nat -> Moment, moment: Moment,
                          ghost connected: set<PubSub.Session>)
      returns (answer: Answer)
      requires request != [] && Queueable(state.State()) && InStep(state, connected)
      modifies this, hub, state, state.sub
      ensures InStep(state, connected)
      ensures var step := Queued(server, old(state.State()), old(View(state)), request, clock, moment);
              && state.State() == step.conn && View(state) == step.world && answer == step.answer
              && state.sub.outbox == old(state.sub.outbox) + step.pushed
    {
      var name, args := Name(request[0]), request[1..];
      if name == "EXEC" {
        var queued := state.queue;
        state.queue := [];
        state.inMulti := false;
        var dirty := AnyDirty(state, moment.now);
        assert dirty == Dirty(old(state.State()), old(View(state)), moment.now);
        state.watched := map[];
        if dirty {
          return Wire(Resp.Encode(Resp.NilArray));
        }
        if queued == [] {
          return Wire(Resp.Encode(Resp.Array([])));
        }
        answer := Exec(state, queued, clock, connected);
        return;
      }
      if name == "DISCARD" {
        state.queue := [];
        state.inMulti := false;
        state.watched := map[];
        return Wire(Resp.Encode(Resp.Ok));
      }
      if name == "MULTI" {
        return Wire(Resp.Encode(server.error(NestedMulti)));
      }
      if name == "WATCH" {
        return Wire(Resp.Encode(server.error(WatchInMulti)));
      }
      if name !in server.handlers {
        return Wire(Resp.Encode(server.error(Unknown)));
      }
      if WrongArity(server.handlers[name], args) {
        return Wire(Resp.Encode(server.error(Arity)));
      }
      state.queue := state.queue + [request];
      answer := Wire(Resp.Encode(Resp.Queued));
    }

    method Dispatch(state: Session, request: seq<Bytes>, clock: nat -> Moment, moment: Moment,
                          ghost connected: set<PubSub.Session>)
      returns (answer: Answer)
      requires Queueable(state.State()) && InStep(state, connected)
      modifies this, hub, state, state.sub
      ensures InStep(state, connected)
      ensures Queueable(state.State())
      ensures var step := Dispatched(server, old(state.State()), old(View(state)), request, clock, moment);
              && state.State() == step.conn && View(state) == step.world && answer == step.answer
              && state.sub.outbox == old(state.sub.outbox) + step.pushed
    {
      QueueableKept(server, state.State(), View(state), request, clock, moment);
      if request == [] {
        return Silent;
      }
      if state.inMulti {
        answer := DispatchQueued(state, request, clock, moment, connected);
      } else {
        var reply := DispatchDirect(state, request, moment, false, connected);
        answer := if reply.None? then Silent else Wire(Resp.Encode(reply.value));
      }
    }
  }


  // ----- What a single request may do

  /** The request reaches a handler, or a subscribing command. */
  predicate Served(server: Server, w: World, request: seq<Bytes>, bypass: bool)
    requires request != []
  {
    var name, args := Name(request[0]), request[1..];
    && name !in ["MULTI", "EXEC", "DISCARD", "WATCH", "UNWATCH"]
    && name in server.handlers && !WrongArity(server.handlers[name], args)
    && (bypass || !w.Subscribed() || AllowedWhileSubscribed(name))
  }

  /**
   The order of the gates. Only a served request changes the store, the subscriptions, or pushes anything. A
   connection that holds a subscription is confined to the allowed names: whatever else it sends changes nothing
   at all, and the error tells MULTI and DISCARD from EXEC, and an unknown name or a wrong arity from a refusal.
   */
  lemma GateOrder(server: Server, conn: Conn, w: World, request: seq<Bytes>, moment: Moment, bypass: bool)
    requires request != []
    ensures var out := Direct(server, conn, w, request, moment, bypass);
            var name, args := Name(request[0]), request[1..];
            && (out.world != w || out.pushed != [] ==> Served(server, w, request, bypass))
            && (out.world.held != w.held ==> Subscribing(name))
            && (out.world.shared != w.shared ==> !Subscribing(name))
            && (!bypass && w.Subscribed() && !AllowedWhileSubscribed(name) ==>
                  var kind :=
                    if name == "EXEC" then ExecAbort
                    else if name in ["MULTI", "DISCARD"] then Gate
                    else if name !in server.handlers then Unknown
                    else if WrongArity(server.handlers[name], args) then Arity
                    else Gate;
                  out == Out(conn, w, Some(server.error(kind)), []))
  {
    hide PubSub.Joined, PubSub.Left, Confirmations, WatchAll;
  }

  /** The connection is in subscribed mode and the command is PING, which is then answered in its own way. */
  predicate PingsBack(w: World, request: seq<Bytes>)
    requires request != []
  {
    w.Subscribed() && Name(request[0]) == "PING"
  }

  /**
   A served request has its effect: a handler's table, marks, reply and frames are what is left, recorded and sent;
   a subscribing command changes the names held, each on its own side, and pushes its confirmations.
   */
  lemma ServedRuns(server: Server, conn: Conn, w: World, request: seq<Bytes>, moment: Moment, bypass: bool)
    requires request != [] && Served(server, w, request, bypass)
    ensures var out := Direct(server, conn, w, request, moment, bypass);
            var name, args := Name(request[0]), request[1..];
            var ran := server.handlers[name].run(w, args, moment);
            && out.conn == conn
            && (name !in ["SUBSCRIBE", "UNSUBSCRIBE", "PSUBSCRIBE", "PUNSUBSCRIBE"] && !PingsBack(w, request) ==>
                  && out.reply == ran.reply && out.pushed == ran.pushed && out.world.held == w.held
                  && out.world.shared.table == ran.table && out.world.shared.log == w.shared.log + ran.marks)
            && (PingsBack(w, request) && |args| <= 1 ==>
                  && out.world == w && out.pushed == []
                  && out.reply == Some(Resp.Array([Resp.Bulk(Ascii("pong")), Resp.Bulk(if args == [] then [] else args[0])])))
            && (name == "SUBSCRIBE" ==> out.world.held == PubSub.Held(w.held.channels + PubSub.NamesIn(args), w.held.patterns))
            && (name == "PSUBSCRIBE" ==> out.world.held == PubSub.Held(w.held.channels, w.held.patterns + PubSub.NamesIn(args)))
            && (name == "UNSUBSCRIBE" ==>
                  var left := if args == [] then {} else w.held.channels - PubSub.NamesIn(args);
                  out.world.held == PubSub.Held(left, w.held.patterns))
            && (name == "PUNSUBSCRIBE" ==>
                  var left := if args == [] then {} else w.held.patterns - PubSub.NamesIn(args);
                  out.world.held == PubSub.Held(w.held.channels, left))
            && (Subscribing(name) ==> out.world.shared == w.shared && out.reply == None)
  {
    assert Ascii("pong") == PONG;
    hide PubSub.Sorted, Confirmations;
  }

  /** The words a connection may use at any time, when nothing gates it: what each does, and what is refused. */
  lemma PlainWords(server: Server, conn: Conn, w: World, request: seq<Bytes>, moment: Moment)
    requires request != [] && !w.Subscribed()
    ensures var out := Direct(server, conn, w, request, moment, false);
            var name, args := Name(request[0]), request[1..];
            var accepted := name in server.handlers &&
                            server.handlers[name].minArgs <= |args| &&
                            (server.handlers[name].maxArgs.Some? ==> |args| <= server.handlers[name].maxArgs.value);
            && (name == "MULTI" ==> out == Out(Conn(true, [], conn.watched), w, Some(Resp.Ok), []))
            && (name == "EXEC" ==> out == Out(conn, w, Some(server.error(ExecWithoutMulti)), []))
            && (name == "DISCARD" ==> out == Out(conn, w, Some(server.error(DiscardWithoutMulti)), []))
            && (name !in ["MULTI", "EXEC", "DISCARD"] && name !in server.handlers ==>
                  out == Out(conn, w, Some(server.error(Unknown)), []))
            && (name !in ["MULTI", "EXEC", "DISCARD"] && name in server.handlers && !accepted ==>
                  out == Out(conn, w, Some(server.error(Arity)), []))
            && (name == "WATCH" && accepted ==>
                  && out.world == w && out.reply == Some(Resp.Ok) && out.pushed == []
                  && out.conn.watched.Keys == conn.watched.Keys + PubSub.NamesIn(args)
                  && forall k :: k in args ==> out.conn.watched[k] == Watch(w.Generation(k), w.IsLive(k, moment.now)))
            && (name == "UNWATCH" && accepted ==> out == Out(conn.(watched := map[]), w, Some(Resp.Ok), []))
  {
    hide NextHeld, Confirmations;
  }

  /** Command names are read without regard to case. */
  lemma NameIgnoresCase(raw: Bytes, other: Bytes)
    requires |raw| == |other|
    requires forall k :: 0 <= k < |raw| ==>
               raw[k] == other[k] || (97 <= raw[k] <= 122 && other[k] as int == raw[k] as int - 32)
    ensures Name(raw) == Name(other)
    ensures (forall k :: 0 <= k < |raw| ==> !(97 <= raw[k] <= 122)) ==> Ascii(Name(raw)) == raw
  {
    forall k | 0 <= k < |raw|
      ensures Name(raw)[k] == Name(other)[k]
    {
    }
  }

  /** What a command outside a transaction may do to the connection's transaction state. */
  lemma DirectConn(server: Server, conn: Conn, w: World, request: seq<Bytes>, moment: Moment, bypass: bool)
    requires request != []
    ensures var after := Direct(server, conn, w, request, moment, bypass).conn;
            var name, args := Name(request[0]), request[1..];
            || after == conn
            || (name == "MULTI" && after == conn.(inMulti := true, queue := []))
            || (name == "UNWATCH" && after == conn.(watched := map[]))
            || (&& name == "WATCH" && name in server.handlers && !WrongArity(server.handlers[name], args)
                && (bypass || !w.Subscribed())
                && after == conn.(watched := WatchAll(conn.watched, args, w, moment.now)))
    ensures var name, args := Name(request[0]), request[1..];
            !bypass && !w.Subscribed() && name == "WATCH" && name in server.handlers
            && !WrongArity(server.handlers[name], args) ==>
              Direct(server, conn, w, request, moment, bypass).conn ==
              conn.(watched := WatchAll(conn.watched, args, w, moment.now))
  {
  }

  lemma {:induction false} ReplayConn(server: Server, conn: Conn, w: World, queue: seq<seq<Bytes>>, clock: nat -> Moment, n: nat)
    requires n <= |queue| && NonEmpty(queue) && conn.queue == []
    ensures ReplayQueue(server, conn, w, queue, clock, n).conn.queue == []
    ensures |ReplayQueue(server, conn, w, queue, clock, n).parts| == n
  {
    hide Direct;
    if n > 0 {
      ReplayConn(server, conn, w, queue, clock, n - 1);
      assert queue[n - 1] in queue;
      var before := ReplayQueue(server, conn, w, queue, clock, n - 1);
      DirectConn(server, before.conn, before.world, queue[n - 1], clock(n - 1), true);
    }
  }

  lemma QueueableKept(server: Server, conn: Conn, w: World, request: seq<Bytes>, clock: nat -> Moment, moment: Moment)
    requires Queueable(conn)
    ensures Queueable(Dispatched(server, conn, w, request, clock, moment).conn)
  {
    hide Direct, ReplayQueue, ExecAnswer;
    if request != [] {
      DirectConn(server, conn, w, request, moment, false);
    }
    ReplayConn(server, IDLE, w, conn.queue, clock, |conn.queue|);
  }

  // ----- What queueing and EXEC do to the store

  /** While a transaction is open, nothing but EXEC touches the store. */
  lemma QueueingIsInert(server: Server, conn: Conn, w: World, request: seq<Bytes>, clock: nat -> Moment, moment: Moment)
    requires Queueable(conn) && conn.inMulti && request != [] && Name(request[0]) != "EXEC"
    ensures Dispatched(server, conn, w, request, clock, moment).world == w
    ensures Dispatched(server, conn, w, request, clock, moment).pushed == []
  {
  }

  /** A dirty EXEC answers a null array and leaves the store alone; either way the transaction is over. */
  lemma {:induction false} ExecOutcome(server: Server, conn: Conn, w: World, request: seq<Bytes>, clock: nat -> Moment, moment: Moment)
    requires Queueable(conn) && conn.inMulti && request != [] && Name(request[0]) == "EXEC"
    ensures var step := Dispatched(server, conn, w, request, clock, moment);
            && (Dirty(conn, w, moment.now) ==> step.world == w && step.answer == Wire(Resp.Encode(Resp.NilArray)))
            && (!Dirty(conn, w, moment.now) ==>
                  step.world == ReplayQueue(server, IDLE, w, conn.queue, clock, |conn.queue|).world)
            && step.conn.queue == [] && (Dirty(conn, w, moment.now) ==> step.conn == IDLE)
  {
    ReplayConn(server, IDLE, w, conn.queue, clock, |conn.queue|);
  }

  lemma LinesOnTheWire()
    ensures Resp.Encode(Resp.Ok) == Ascii("+OK\r\n") && Resp.Encode(Resp.Queued) == Ascii("+QUEUED\r\n")
    ensures Resp.Encode(Resp.NilArray) == Ascii("*-1\r\n") && Resp.Encode(Resp.Array([])) == Ascii("*0\r\n")
  {
    assert Ascii("*0\r\n") == [42, 48, 13, 10];
    Resp.EncodeArray([]);
    Wire.LiteralLines();
    hide Resp.Encode, Ascii;
    Resp.EncodeLine(Resp.Ok);
    Resp.EncodeLine(Resp.Queued);
    Resp.EncodeLine(Resp.NilArray);
  }

  /**
   In an open transaction: DISCARD and a dirty EXEC end it with nothing done; a clean EXEC of nothing answers an
   empty array; MULTI, WATCH and what could not run are refused and change nothing; all else is queued, and said so.
   */
  lemma InTransaction(server: Server, conn: Conn, w: World, request: seq<Bytes>, clock: nat -> Moment, moment: Moment)
    requires Queueable(conn) && AllRunnable(server, conn.queue) && conn.inMulti && request != []
    ensures var step := Dispatched(server, conn, w, request, clock, moment);
            var name := Name(request[0]);
            && (name == "DISCARD" ==> step == Step(Conn(false, [], map[]), w, Wire(Ascii("+OK\r\n")), []))
            && (name == "EXEC" ==> step.conn == Conn(false, [], map[]) && step.pushed == [])
            && (name == "EXEC" && Dirty(conn, w, moment.now) ==> step.world == w && step.answer == Wire(Ascii("*-1\r\n")))
            && (name == "EXEC" && !Dirty(conn, w, moment.now) && conn.queue == [] ==>
                  step.world == w && step.answer == Wire(Ascii("*0\r\n")))
            && (name !in ["EXEC", "DISCARD"] && Runnable(server, request) ==>
                  step == Step(conn.(queue := conn.queue + [request]), w, Wire(Ascii("+QUEUED\r\n")), []))
            && (name !in ["EXEC", "DISCARD"] && !Runnable(server, request) ==>
                  var kind :=
                    if name == "MULTI" then NestedMulti
                    else if name == "WATCH" then WatchInMulti
                    else if name !in server.handlers then Unknown
                    else Arity;
                  step == Step(conn, w, Wire(Resp.Encode(server.error(kind))), []))
  {
    hide Direct, ReplayQueue, Resp.Encode, Ascii, ExecAnswer;
    LinesOnTheWire();
    ReplayHeld(server, w, conn.queue, clock, |conn.queue|);
  }

  /** What may sit in a queue: commands that exist, with the right arity, and none of the transaction's own. */
  predicate Runnable(server: Server, request: seq<Bytes>) {
    && request != [] && Name(request[0]) in server.handlers
    && !WrongArity(server.handlers[Name(request[0])], request[1..])
    && Name(request[0]) !in ["EXEC", "MULTI", "DISCARD", "WATCH"]
  }

  predicate AllRunnable(server: Server, queue: seq<seq<Bytes>>) {
    forall r :: r in queue ==> Runnable(server, r)
  }

  lemma OnlyRunnableQueued(server: Server, conn: Conn, w: World, request: seq<Bytes>, clock: nat -> Moment, moment: Moment)
    requires Queueable(conn) && AllRunnable(server, conn.queue)
    ensures AllRunnable(server, Dispatched(server, conn, w, request, clock, moment).conn.queue)
  {
    hide Direct, ReplayQueue, ExecAnswer;
    if request != [] {
      DirectConn(server, conn, w, request, moment, false);
    }
    ReplayConn(server, IDLE, w, conn.queue, clock, |conn.queue|);
  }

  // ----- What a queue makes a connection subscribe to

  /** The name of the `k`-th queued command. */
  function WordAt(queue: seq<seq<Bytes>>, k: nat): string
    requires k < |queue| && NonEmpty(queue)
  {
    assert queue[k] in queue;
    Name(queue[k][0])
  }

  function ArgsAt(queue: seq<seq<Bytes>>, k: nat): seq<Bytes>
    requires k < |queue| && NonEmpty(queue)
  {
    assert queue[k] in queue;
    queue[k][1..]
  }

  /** The names held after the first `n` requests of a queue, from the requests alone. */
  ghost function HeldAfter(held: PubSub.Held, queue: seq<seq<Bytes>>, n: nat): PubSub.Held
    requires n <= |queue| && NonEmpty(queue)
  {
    if n == 0 then held
    else
      assert queue[n - 1] in queue;
      NextHeld(HeldAfter(held, queue, n - 1), Name(queue[n - 1][0]), queue[n - 1][1..])
  }

  lemma ReplayedHeld(server: Server, w: World, request: seq<Bytes>, moment: Moment)
    requires Runnable(server, request)
    ensures Direct(server, IDLE, w, request, moment, true).world.held ==
            NextHeld(w.held, Name(request[0]), request[1..])
    ensures Direct(server, IDLE, w, request, moment, true).conn == IDLE
    ensures Subscribing(Name(request[0])) ==>
              Direct(server, IDLE, w, request, moment, true).pushed == Confirmations(w.held, Name(request[0]), request[1..])
  {
    hide PubSub.Joined, PubSub.Left, Confirmations;
  }

  /** No handler has a say in what a connection holds, so the queue alone tells what each replayed request meets. */
  lemma {:induction false} ReplayHeld(server: Server, w: World, queue: seq<seq<Bytes>>, clock: nat -> Moment, n: nat)
    requires n <= |queue| && NonEmpty(queue) && AllRunnable(server, queue)
    ensures ReplayQueue(server, IDLE, w, queue, clock, n).world.held == HeldAfter(w.held, queue, n)
    ensures ReplayQueue(server, IDLE, w, queue, clock, n).conn == IDLE
  {
    hide Direct, Runnable, NextHeld;
    if n > 0 {
      ReplayHeld(server, w, queue, clock, n - 1);
      assert queue[n - 1] in queue;
      ReplayedHeld(server, ReplayQueue(server, IDLE, w, queue, clock, n - 1).world, queue[n - 1], clock(n - 1));
    }
  }

  // ----- EXEC against the sequence

  /** The same requests sent one by one by a connection with no transaction open. */
  ghost function Serial(server: Server, conn: Conn, w: World, queue: seq<seq<Bytes>>, clock: nat -> Moment, n: nat): Step
    requires n <= |queue| && Queueable(conn)
    ensures Queueable(Serial(server, conn, w, queue, clock, n).conn)
  {
    if n == 0 then Step(conn, w, Silent, [])
    else
      var before := Serial(server, conn, w, queue, clock, n - 1);
      QueueableKept(server, before.conn, before.world, queue[n - 1], clock, clock(n - 1));
      Dispatched(server, before.conn, before.world, queue[n - 1], clock, clock(n - 1))
  }

  /**
   Sent by a connection that holds these names, the subscribed-mode gate, which EXEC bypasses, would refuse this
   request. UNWATCH is left out: refused or not, it changes neither the store nor the subscriptions.
   */
  predicate Stopped(held: PubSub.Held, request: seq<Bytes>)
    requires request != []
  {
    held.Any() && !AllowedWhileSubscribed(Name(request[0])) && Name(request[0]) != "UNWATCH"
  }

  /** A runnable request does the same replayed as sent directly, unless the gate stops it; then only a replay does anything. */
  lemma ReplayIsDirect(server: Server, w: World, request: seq<Bytes>, moment: Moment)
    requires Runnable(server, request)
    ensures Direct(server, IDLE, w, request, moment, true).conn == IDLE
    ensures !Stopped(w.held, request) ==>
              Direct(server, IDLE, w, request, moment, true).world == Direct(server, IDLE, w, request, moment, false).world
    ensures !Stopped(w.held, request) && Name(request[0]) != "UNWATCH" ==>
              Direct(server, IDLE, w, request, moment, true) == Direct(server, IDLE, w, request, moment, false)
    ensures Direct(server, IDLE, w, request, moment, false).conn == IDLE
    ensures Stopped(w.held, request) ==>
              Direct(server, IDLE, w, request, moment, false) == Out(IDLE, w, Some(server.error(Gate)), [])
  {
    hide NextHeld, Confirmations;
  }

  /** After `j` requests, replaying and sending one by one have left the same store and subscriptions. */
  ghost predicate Agree(server: Server, w: World, queue: seq<seq<Bytes>>, clock: nat -> Moment, j: nat)
    requires j <= |queue| && NonEmpty(queue)
  {
    ReplayQueue(server, IDLE, w, queue, clock, j).world == Serial(server, IDLE, w, queue, clock, j).world
  }

  /** The `k`-th request of the queue meets an open gate. What it meets follows from the requests before it. */
  ghost predicate Open(held: PubSub.Held, queue: seq<seq<Bytes>>, k: nat)
    requires k < |queue| && NonEmpty(queue)
  {
    assert queue[k] in queue;
    !Stopped(HeldAfter(held, queue, k), queue[k])
  }

  ghost predicate NoStops(held: PubSub.Held, queue: seq<seq<Bytes>>)
    requires NonEmpty(queue)
  {
    forall k :: 0 <= k < |queue| ==> Open(held, queue, k)
  }

  lemma {:induction false} SerialStaysIdle(server: Server, w: World, queue: seq<seq<Bytes>>, clock: nat -> Moment, n: nat)
    requires n <= |queue| && NonEmpty(queue) && AllRunnable(server, queue)
    ensures Serial(server, IDLE, w, queue, clock, n).conn == IDLE
  {
    hide Direct, Runnable, Queued, Stopped;
    if n > 0 {
      SerialStaysIdle(server, w, queue, clock, n - 1);
      assert queue[n - 1] in queue;
      var before := Serial(server, IDLE, w, queue, clock, n - 1);
      ReplayIsDirect(server, before.world, queue[n - 1], clock(n - 1));
    }
  }

  /** One more request: an open gate keeps the agreement, a closed one keeps it exactly when the replay does nothing. */
  lemma AgreeStep(server: Server, w: World, queue: seq<seq<Bytes>>, clock: nat -> Moment, n: nat)
    requires n < |queue| && NonEmpty(queue) && AllRunnable(server, queue)
    requires Agree(server, w, queue, clock, n)
    ensures Open(w.held, queue, n) ==> Agree(server, w, queue, clock, n + 1)
    ensures !Open(w.held, queue, n) ==>
              (Agree(server, w, queue, clock, n + 1) <==>
               ReplayQueue(server, IDLE, w, queue, clock, n + 1).world == ReplayQueue(server, IDLE, w, queue, clock, n).world)
  {
    hide Direct, Runnable, Queued, Stopped, HeldAfter;
    ReplayHeld(server, w, queue, clock, n);
    SerialStaysIdle(server, w, queue, clock, n);
    assert queue[n] in queue;
    ReplayIsDirect(server, ReplayQueue(server, IDLE, w, queue, clock, n).world, queue[n], clock(n));
  }

  ghost predicate AlwaysAgree(server: Server, w: World, queue: seq<seq<Bytes>>, clock: nat -> Moment)
    requires NonEmpty(queue)
  {
    forall j :: 0 <= j <= |queue| ==> Agree(server, w, queue, clock, j)
  }

  lemma {:induction false} AgreeUpTo(server: Server, w: World, queue: seq<seq<Bytes>>, clock: nat -> Moment, n: nat)
    requires n <= |queue| && NonEmpty(queue) && AllRunnable(server, queue) && NoStops(w.held, queue)
    ensures Agree(server, w, queue, clock, n)
  {
    if n > 0 {
      hide ReplayQueue, Serial, Open, Runnable, Agree;
      AgreeUpTo(server, w, queue, clock, n - 1);
      AgreeStep(server, w, queue, clock, n - 1);
    }
  }

  /**
   EXEC is the sequence: when the gate would stop none of the queued requests, replaying the queue leaves, after
   every request, the store and the subscriptions that sending the requests one by one leaves.
   */
  lemma ExecIsSerial(server: Server, w: World, queue: seq<seq<Bytes>>, clock: nat -> Moment)
    requires NonEmpty(queue) && AllRunnable(server, queue) && NoStops(w.held, queue)
    ensures AlwaysAgree(server, w, queue, clock)
  {
    forall j | 0 <= j <= |queue|
      ensures Agree(server, w, queue, clock, j)
    {
      AgreeUpTo(server, w, queue, clock, j);
    }
  }

  /** The two tables know the same names, with the same arities. */
  ghost predicate SameArities(server: Server, server': Server) {
    && server.handlers.Keys == server'.handlers.Keys
    && forall name :: name in server.handlers ==>
         && server.handlers[name].minArgs == server'.handlers[name].minArgs
         && server.handlers[name].maxArgs == server'.handlers[name].maxArgs
  }

  /** A command that does nothing but mark a write. */
  function Writer(handler: Handler): Handler {
    handler.(run := (w: World, args, moment) => Ran(w.shared.table, [Store.Touched([])], Some(Resp.Ok), []))
  }

  lemma WriterWrites(server: Server, w: World, request: seq<Bytes>, moment: Moment, h: Handler)
    requires Runnable(server, request) && Stopped(w.held, request)
    requires server.handlers[Name(request[0])] == Writer(h)
    ensures Direct(server, IDLE, w, request, moment, true).world != w
  {
    hide NextHeld, Confirmations;
    assert |Marked(w.shared, w.shared.table, [Store.Touched([])]).log| == |w.shared.log| + 1;
  }

  /** A stopped request may be any write, and then EXEC and the sequence part. */
  lemma StopsPart(server: Server, w: World, queue: seq<seq<Bytes>>, clock: nat -> Moment, k: nat) returns (server': Server)
    requires k < |queue| && NonEmpty(queue) && AllRunnable(server, queue) && !Open(w.held, queue, k)
    ensures SameArities(server, server') && !AlwaysAgree(server', w, queue, clock)
  {
    assert queue[k] in queue;
    var name := Name(queue[k][0]);
    var h := server.handlers[name];
    server' := server.(handlers := server.handlers[name := Writer(h)]);
    if AlwaysAgree(server', w, queue, clock) {
      hide Direct, Runnable, HeldAfter, Stopped;
      assert Agree(server', w, queue, clock, k) && Agree(server', w, queue, clock, k + 1);
      AgreeStep(server', w, queue, clock, k);
      ReplayHeld(server', w, queue, clock, k);
      WriterWrites(server', ReplayQueue(server', IDLE, w, queue, clock, k).world, queue[k], clock(k), h);
      assert false;
    }
  }

  /**
   The condition is exact: over all command tables with these names and arities, EXEC is the sequence for this
   queue, if and only if the gate stops none of its requests.
   */
  lemma GateIsExact(server: Server, w: World, queue: seq<seq<Bytes>>, clock: nat -> Moment)
    requires NonEmpty(queue) && AllRunnable(server, queue)
    ensures NoStops(w.held, queue) <==>
            forall server' :: SameArities(server, server') ==> AlwaysAgree(server', w, queue, clock)
  {
    if NoStops(w.held, queue) {
      forall server' | SameArities(server, server')
        ensures AlwaysAgree(server', w, queue, clock)
      {
        ExecIsSerial(server', w, queue, clock);
      }
    } else {
      var k :| 0 <= k < |queue| && !Open(w.held, queue, k);
      var server' := StopsPart(server, w, queue, clock, k);
      assert SameArities(server, server');
    }
  }

  ghost function Replayed(server: Server, w: World, queue: seq<seq<Bytes>>, clock: nat -> Moment, k: nat): Out
    requires k < |queue| && NonEmpty(queue)
  {
    assert queue[k] in queue;
    var before := ReplayQueue(server, IDLE, w, queue, clock, k);
    Direct(server, before.conn, before.world, queue[k], clock(k), true)
  }

  /** What a replayed command pushes first is its element of the reply; its own reply is, when it pushes nothing. */
  lemma {:induction false} SlotIs(server: Server, w: World, queue: seq<seq<Bytes>>, clock: nat -> Moment, k: nat, n: nat)
    requires k < n <= |queue| && NonEmpty(queue)
    ensures var out := Replayed(server, w, queue, clock, k);
            ReplayQueue(server, IDLE, w, queue, clock, n).parts[k] == SlotOf(out)
    decreases n
  {
    hide Direct;
    if k < n - 1 {
      SlotIs(server, w, queue, clock, k, n - 1);
    }
  }

  /** Sending the `k`-th request after the ones before it, one by one. */
  ghost function SentAlone(server: Server, w: World, queue: seq<seq<Bytes>>, clock: nat -> Moment, k: nat): Out
    requires k < |queue| && NonEmpty(queue)
  {
    assert queue[k] in queue;
    var before := Serial(server, IDLE, w, queue, clock, k);
    Direct(server, before.conn, before.world, queue[k], clock(k), false)
  }

  /**
   EXEC answers as the sequence does: when the gate stops none of the queued requests, each element of the reply is
   the first frame pushed, or else the reply given, to that request sent in its turn. The one exception is an
   UNWATCH the gate refuses, which EXEC lets through to no effect.
   */
  lemma {:induction false} SlotsAreSerial(server: Server, w: World, queue: seq<seq<Bytes>>, clock: nat -> Moment, k: nat, n: nat)
    requires k < n <= |queue| && NonEmpty(queue) && AllRunnable(server, queue) && NoStops(w.held, queue)
    ensures var slot := ReplayQueue(server, IDLE, w, queue, clock, n).parts[k];
            var alone := SlotOf(SentAlone(server, w, queue, clock, k));
            if WordAt(queue, k) == "UNWATCH" && HeldAfter(w.held, queue, k).Any()
            then slot == Some(Resp.Ok) && alone == Some(server.error(Gate))
            else slot == alone
  {
    hide NextHeld, HeldAfter, Confirmations, ReplayQueue, Serial;
    assert queue[k] in queue;
    assert Open(w.held, queue, k);
    SlotIs(server, w, queue, clock, k, n);
    ReplayHeld(server, w, queue, clock, k);
    SerialStaysIdle(server, w, queue, clock, k);
    AgreeUpTo(server, w, queue, clock, k);
    ReplayIsDirect(server, Serial(server, IDLE, w, queue, clock, k).world, queue[k], clock(k));
  }

  /** A connection that holds nothing, and queues nothing that subscribes, meets no gate. */
  lemma {:induction false} NoSubscriptionNoStops(held: PubSub.Held, queue: seq<seq<Bytes>>, n: nat)
    requires n <= |queue| && NonEmpty(queue) && !held.Any()
    requires forall r :: r in queue ==> Name(r[0]) !in ["SUBSCRIBE", "PSUBSCRIBE"]
    ensures !HeldAfter(held, queue, n).Any()
    ensures n == |queue| ==> NoStops(held, queue)
  {
    forall k | 0 <= k < n
      ensures !HeldAfter(held, queue, k).Any()
    {
      NoSubscriptionNoStops(held, queue, k);
    }
    if n > 0 {
      assert queue[n - 1] in queue;
      NoSubscriptionNoStops(held, queue, n - 1);
    }
  }

  /** A one-letter name: c. */
  const NAME_C: Bytes := [99]
  const SUBSCRIBE_WORD: Bytes := [83, 85, 66, 83, 67, 82, 73, 66, 69]
  const SET_WORD: Bytes := [83, 69, 84]

  lemma Words()
    ensures Name(SUBSCRIBE_WORD) == "SUBSCRIBE" && Name(PUBLISH_WORD) == "PUBLISH" && Name(SET_WORD) == "SET"
    ensures Name(MULTI_WORD) == "MULTI" && Name(EXEC_WORD) == "EXEC"
  {
  }

  /**
   A connection that holds nothing and queues SUBSCRIBE c, SET c c: EXEC runs the SET, which the connection
   could not have sent after its SUBSCRIBE.
   */
  lemma QueuedSubscribeParts(clock: nat -> Moment) returns (server: Server, w: World, queue: seq<seq<Bytes>>)
    ensures !w.Subscribed() && NonEmpty(queue) && queue == [[SUBSCRIBE_WORD, NAME_C], [SET_WORD, NAME_C, NAME_C]]
    ensures AllRunnable(server, queue) && !NoStops(w.held, queue) && !AlwaysAgree(server, w, queue, clock)
  {
    Words();
    w := World(Shared(map[], map[], []), NOTHING);
    queue := [[SUBSCRIBE_WORD, NAME_C], [SET_WORD, NAME_C, NAME_C]];
    var any := Handler(1, None, (w: World, args, moment) => Ran(w.shared.table, [], None, []));
    var table := Server(map["SUBSCRIBE" := any, "SET" := any], kind => Resp.Nil);
    assert forall r :: r in queue ==> Runnable(table, r);
    assert HeldAfter(w.held, queue, 0) == w.held;
    var names := queue[0][1..];
    assert names == [NAME_C] && NAME_C in PubSub.NamesIn(names);
    assert HeldAfter(w.held, queue, 1) == PubSub.Joined(PubSub.Channels, w.held, names);
    assert !Open(w.held, queue, 1);
    server := StopsPart(table, w, queue, clock, 1);
  }

  // ----- The EXEC reply on the wire

  ghost predicate Answers(handler: Handler, w: World, args: seq<Bytes>, moment: Moment) {
    var ran := handler.run(w, args, moment);
    ran.reply.Some? || ran.pushed != []
  }

  ghost predicate AlwaysAnswers(handler: Handler) {
    forall w, args, moment :: !WrongArity(handler, args) ==> Answers(handler, w, args, moment)
  }

  /** SUBSCRIBE and PSUBSCRIBE are registered with at least one argument. */
  predicate NamesRequired(server: Server) {
    forall name :: name in ["SUBSCRIBE", "PSUBSCRIBE"] && name in server.handlers ==> server.handlers[name].minArgs > 0
  }

  /** Every other command, given a number of arguments it accepts, replies or pushes a frame. */
  ghost predicate Answering(server: Server) {
    && NamesRequired(server)
    && forall name :: name in server.handlers && !Subscribing(name) ==> AlwaysAnswers(server.handlers[name])
  }

  /** A subscribing command always has a confirmation to put in its slot, whatever the other commands do. */
  lemma {:induction false} SubscriptionSlot(server: Server, w: World, queue: seq<seq<Bytes>>, clock: nat -> Moment, k: nat, n: nat)
    requires k < n <= |queue| && NonEmpty(queue) && AllRunnable(server, queue) && NamesRequired(server)
    requires Subscribing(WordAt(queue, k))
    ensures var frames := Confirmations(HeldAfter(w.held, queue, k), WordAt(queue, k), ArgsAt(queue, k));
            frames != [] && ReplayQueue(server, IDLE, w, queue, clock, n).parts[k] == Some(frames[0])
  {
    hide NextHeld, Direct, ReplayQueue, HeldAfter, PubSub.JoinFrames, PubSub.LeaveFrames;
    var name, args, held := WordAt(queue, k), ArgsAt(queue, k), HeldAfter(w.held, queue, k);
    assert queue[k] in queue;
    ReplayedHeld(server, ReplayQueue(server, IDLE, w, queue, clock, k).world, queue[k], clock(k));
    SlotIs(server, w, queue, clock, k, n);
    ReplayHeld(server, w, queue, clock, k);
    PubSub.AlwaysConfirmed(SideOf(name), held, args);
    assert Runnable(server, queue[k]);
  }

  /** No slot of the EXEC array stays empty; for the subscribing commands nothing has to be assumed of any handler. */
  lemma {:induction false} EverySlotFilled(server: Server, w: World, queue: seq<seq<Bytes>>, clock: nat -> Moment, n: nat)
    requires n <= |queue| && NonEmpty(queue) && AllRunnable(server, queue) && Answering(server)
    ensures var parts := ReplayQueue(server, IDLE, w, queue, clock, n).parts;
            |parts| == n && forall k :: 0 <= k < n ==> parts[k].Some?
  {
    forall k | 0 <= k < n
      ensures ReplayQueue(server, IDLE, w, queue, clock, n).parts[k].Some?
    {
      if Subscribing(WordAt(queue, k)) {
        SubscriptionSlot(server, w, queue, clock, k, n);
      } else {
        HandlerSlot(server, w, queue, clock, k, n);
      }
    }
  }

  lemma {:induction false} HandlerSlot(server: Server, w: World, queue: seq<seq<Bytes>>, clock: nat -> Moment, k: nat, n: nat)
    requires k < n <= |queue| && NonEmpty(queue) && AllRunnable(server, queue) && Answering(server)
    requires !Subscribing(WordAt(queue, k))
    ensures ReplayQueue(server, IDLE, w, queue, clock, n).parts[k].Some?
  {
    SlotIs(server, w, queue, clock, k, n);
    var name, args := WordAt(queue, k), ArgsAt(queue, k);
    assert queue[k] in queue;
    var before := ReplayQueue(server, IDLE, w, queue, clock, k).world;
    assert Runnable(server, queue[k]) && AlwaysAnswers(server.handlers[name]);
    assert Answers(server.handlers[name], before, args, clock(k));
    hide Name, NextHeld, Confirmations, WatchAll;
  }

  lemma {:induction false} EncodeAllConcat(p: seq<Reply>, q: seq<Reply>)
    ensures Resp.EncodeAll(p + q) == Resp.EncodeAll(p) + Resp.EncodeAll(q)
  {
    hide Resp.Encode;
    if p == [] {
      assert p + q == q;
    } else {
      EncodeAllConcat(p[1..], q);
      assert (p + q)[1..] == p[1..] + q;
      assert Resp.EncodeAll(p + q) == Resp.Encode(p[0]) + Resp.EncodeAll(p[1..] + q);
    }
  }

  /**
   The reply of a clean EXEC parses as one array with exactly one element per queued command, in order,
   followed by every extra pushed frame as a message of its own, and nothing is left over.
   */
  lemma {:induction false} ExecReplyParses(server: Server, conn: Conn, w: World, request: seq<Bytes>, clock: nat -> Moment, moment: Moment)
    requires Queueable(conn) && conn.inMulti && conn.queue != [] && AllRunnable(server, conn.queue) && Answering(server)
    requires request != [] && Name(request[0]) == "EXEC" && !Dirty(conn, w, moment.now)
    ensures var step := Dispatched(server, conn, w, request, clock, moment);
            var r := ReplayQueue(server, IDLE, w, conn.queue, clock, |conn.queue|);
            && (forall p :: p in r.parts ==> p.Some?)
            && step.answer.Wire? && |r.parts| == |conn.queue|
            && (Resp.AllLineSafe(Unwrapped(r.parts)) && Resp.AllLineSafe(r.trailing) <==>
                  Resp.Drain(step.answer.bytes) ==
                  Resp.Drained([Resp.Arr(Resp.DecodedAll(Unwrapped(r.parts)))] + Resp.DecodedAll(r.trailing), []))
  {
    EverySlotFilled(server, w, conn.queue, clock, |conn.queue|);
    var r := ReplayQueue(server, IDLE, w, conn.queue, clock, |conn.queue|);
    ExecWire(|conn.queue|, Unwrapped(r.parts), r.trailing);
  }

  lemma {:induction false} ExecWire(count: nat, parts: seq<Reply>, trailing: seq<Reply>)
    requires count == |parts|
    ensures Resp.AllLineSafe(parts) && Resp.AllLineSafe(trailing) <==>
            Resp.Drain([Resp.STAR] + Resp.Decimal(count) + Resp.CRLF + Resp.EncodeAll(parts + trailing)) ==
            Resp.Drained([Resp.Arr(Resp.DecodedAll(parts))] + Resp.DecodedAll(trailing), [])
  {
    hide Resp.Drain, Resp.Encode, Resp.Decimal;
    var frames := [Resp.Array(parts)] + trailing;
    assert frames[1..] == trailing;
    EncodeAllConcat(parts, trailing);
    Resp.EncodeArray(parts);
    var header := [Resp.STAR] + Resp.Decimal(count) + Resp.CRLF;
    assert Resp.EncodeAll(frames) == (header + Resp.EncodeAll(parts)) + Resp.EncodeAll(trailing);
    assert header + Resp.EncodeAll(parts + trailing) == Resp.EncodeAll(frames);
    assert Resp.DecodedAll(frames) == [Resp.Decoded(Resp.Array(parts))] + Resp.DecodedAll(trailing);
    Resp.DrainUndoesEncode(frames);
  }

  // ----- Where a pushed frame takes a slot

  /**
   PUBLISH: the store stays as it is, the connection is pushed the frames due to it, if any, and the reply counts
   them together with those sent elsewhere.
   */
  ghost predicate Publishes(ran: Ran, w: World, moment: Moment, matches: (Bytes, Bytes) -> bool, channel: Bytes, payload: Bytes) {
    && ran.table == w.shared.table && ran.marks == []
    && ran.reply == Some(Resp.Integer(|ran.pushed| + moment.elsewhere(channel)))
    && forall frame :: frame in ran.pushed <==> PubSub.Due(w.held, matches, channel, payload, frame)
  }

  ghost predicate IsPublish(handler: Handler, matches: (Bytes, Bytes) -> bool) {
    forall w, args: seq<Bytes>, moment ::
      |args| == 2 ==> Publishes(handler.run(w, args, moment), w, moment, matches, args[0], args[1])
  }

  ghost predicate QueuedPublish(server: Server, queue: seq<seq<Bytes>>, k: nat, matches: (Bytes, Bytes) -> bool) {
    && k < |queue| && |queue[k]| == 3 && Name(queue[k][0]) == "PUBLISH"
    && "PUBLISH" in server.handlers && IsPublish(server.handlers["PUBLISH"], matches)
  }

  /**
   A queued PUBLISH answers with its count if and only if the connection, with what the requests queued before it
   subscribe to, does not itself hear the channel. Otherwise its element is one of the frames it was sent.
   */
  lemma {:induction false} PublishSlot(server: Server, w: World, queue: seq<seq<Bytes>>, clock: nat -> Moment, k: nat, n: nat,
                    matches: (Bytes, Bytes) -> bool)
    requires k < n <= |queue| && NonEmpty(queue) && AllRunnable(server, queue) && QueuedPublish(server, queue, k, matches)
    ensures var slot := ReplayQueue(server, IDLE, w, queue, clock, n).parts[k];
            var channel, payload, held := queue[k][1], queue[k][2], HeldAfter(w.held, queue, k);
            && slot.Some?
            && (slot.value.Integer? <==> !PubSub.Hears(held, matches, channel))
            && (slot.value.Integer? ==> slot.value == Resp.Integer(clock(k).elsewhere(channel)))
            && (!slot.value.Integer? ==> PubSub.Due(held, matches, channel, payload, slot.value))
  {
    assert queue[k] in queue;
    SlotIs(server, w, queue, clock, k, n);
    ReplayHeld(server, w, queue, clock, k);
    var out := Replayed(server, w, queue, clock, k);
    PublishedFrames(server, ReplayQueue(server, IDLE, w, queue, clock, k).world, queue[k], clock(k), matches);
    PubSub.SomethingDue(HeldAfter(w.held, queue, k), matches, queue[k][1], queue[k][2]);
    if out.pushed != [] {
      assert out.pushed[0] in out.pushed;
    }
  }

  lemma PublishedFrames(server: Server, w: World, request: seq<Bytes>, moment: Moment, matches: (Bytes, Bytes) -> bool)
    requires |request| == 3 && Runnable(server, request) && Name(request[0]) == "PUBLISH"
    requires IsPublish(server.handlers["PUBLISH"], matches)
    ensures var out := Direct(server, IDLE, w, request, moment, true);
            && (forall frame :: frame in out.pushed <==> PubSub.Due(w.held, matches, request[1], request[2], frame))
            && out.reply == Some(Resp.Integer(|out.pushed| + moment.elsewhere(request[1])))
  {
    var args := request[1..];
    assert args[0] == request[1] && args[1] == request[2];
    var ran := server.handlers["PUBLISH"].run(w, args, moment);
    assert Publishes(ran, w, moment, matches, args[0], args[1]);
  }

  /**
   That is what the hub does: whenever session and hub are in step, a delivery log that meets the promises of
   `PubSub.Publish` pushes the publisher its frames, and makes the count, as `Publishes` says.
   */
  lemma {:induction false} HubPublishes(hub: PubSub.Hub, connected: set<PubSub.Session>, matches: (Bytes, Bytes) -> bool, channel: Bytes,
                     payload: Bytes, log: seq<PubSub.Delivery>, session: PubSub.Session, shared: Shared, moment: Moment)
    requires PubSub.InStep(hub, connected) && session in connected
    requires forall d :: d in log <==> PubSub.Owed(hub, matches, channel, payload, d)
    requires moment.elsewhere(channel) == PubSub.SentElsewhere(log, session)
    ensures Publishes(Ran(shared.table, [], Some(Resp.Integer(|log|)), PubSub.SentTo(log, session)),
                      World(shared, session.Holds()), moment, matches, channel, payload)
  {
    PubSub.PublishReaches(hub, connected, matches, channel, payload, log, session);
    PubSub.LogSplits(log, session);
  }

  const PUBLISH_WORD: Bytes := [80, 85, 66, 76, 73, 83, 72]

  /** PUBLISH for a server without patterns. */
  function PlainPublish(): Handler {
    Handler(2, None, (w: World, args: seq<Bytes>, moment: Moment) =>
      if |args| < 2 then Ran(w.shared.table, [], None, [])
      else
        var own := if args[0] in w.held.channels then [PubSub.MessageFrame(args[0], args[1])] else [];
        Ran(w.shared.table, [], Some(Resp.Integer(|own| + moment.elsewhere(args[0]))), own))
  }

  const MULTI_WORD: Bytes := [77, 85, 76, 84, 73]
  const EXEC_WORD: Bytes := [69, 88, 69, 67]

  /** A server that knows SUBSCRIBE and PUBLISH. */
  ghost function PublishServer(): Server {
    var any := Handler(1, None, (w: World, args: seq<Bytes>, moment: Moment) => Ran(w.shared.table, [], None, []));
    Server(map["SUBSCRIBE" := any, "PUBLISH" := PlainPublish()], kind => Resp.Nil)
  }

  /** The confirmation of a first subscription to c. */
  ghost function Confirmed(): Reply { PubSub.Confirmation("subscribe", Resp.Bulk(NAME_C), 1) }

  lemma SubscribeOut(w: World, moment: Moment)
    requires w.held == NOTHING
    ensures Direct(PublishServer(), IDLE, w, [SUBSCRIBE_WORD, NAME_C], moment, true) ==
            Out(IDLE, w.(held := PubSub.Held({NAME_C}, {})), None, [Confirmed()])
  {
    Words();
    var names := [SUBSCRIBE_WORD, NAME_C][1..];
    assert names == [NAME_C] && names[..1] == names && PubSub.NamesIn(names) == {NAME_C};
    assert NOTHING.channels + PubSub.NamesIn(names[..1]) == {NAME_C};
    assert PubSub.JoinFrames(PubSub.Channels, NOTHING, names) == [Confirmed()];
    assert PubSub.Joined(PubSub.Channels, NOTHING, names) == PubSub.Held({NAME_C}, {});
    hide PubSub.Joined, PubSub.JoinFrames, Confirmed;
  }

  lemma PublishOut(w: World, moment: Moment)
    requires w.held == PubSub.Held({NAME_C}, {})
    ensures var out := Direct(PublishServer(), IDLE, w, [PUBLISH_WORD, NAME_C, NAME_C], moment, true);
            out.conn == IDLE && out.pushed == [PubSub.MessageFrame(NAME_C, NAME_C)]
  {
    hide PubSub.MessageFrame;
    Words();
    assert [PUBLISH_WORD, NAME_C, NAME_C][1..] == [NAME_C, NAME_C];
  }

  /** The elements of that EXEC: the confirmation, and then the message where the count belongs. */
  lemma {:induction false} PublishAfterSubscribe(w: World, clock: nat -> Moment)
    requires w.held == NOTHING
    ensures var queue := [[SUBSCRIBE_WORD, NAME_C], [PUBLISH_WORD, NAME_C, NAME_C]];
            && NonEmpty(queue)
            && var r := ReplayQueue(PublishServer(), IDLE, w, queue, clock, 2);
               && r.parts == [Some(Confirmed()), Some(PubSub.MessageFrame(NAME_C, NAME_C))]
               && r.trailing == []
  {
    hide ReplayQueue, Direct, PublishServer, Confirmed, PubSub.MessageFrame;
    var server, queue := PublishServer(), [[SUBSCRIBE_WORD, NAME_C], [PUBLISH_WORD, NAME_C, NAME_C]];
    ReplayStart(server, IDLE, w, queue, clock);
    ReplayNext(server, IDLE, w, queue, clock, 0);
    SubscribeOut(w, clock(0));
    ReplayNext(server, IDLE, w, queue, clock, 1);
    PublishOut(w.(held := PubSub.Held({NAME_C}, {})), clock(1));
  }

  /**
   A run that loses the count: a new connection sends MULTI, SUBSCRIBE c, PUBLISH c c and EXEC, and gets the
   message itself as the second element of the reply.
   */
  lemma PublishLosesReply(shared: Shared, clock: nat -> Moment, moment: Moment)
    returns (server: Server, begun: Step, first: Step, second: Step, done: Step)
    ensures begun == Dispatched(server, IDLE, World(shared, NOTHING), [MULTI_WORD], clock, moment)
    ensures Queueable(begun.conn) && begun.conn.inMulti && begun.answer == Wire(Resp.Encode(Resp.Ok))
    ensures first == Dispatched(server, begun.conn, begun.world, [SUBSCRIBE_WORD, NAME_C], clock, moment)
    ensures Queueable(first.conn) && first.answer == Wire(Resp.Encode(Resp.Queued))
    ensures second == Dispatched(server, first.conn, first.world, [PUBLISH_WORD, NAME_C, NAME_C], clock, moment)
    ensures Queueable(second.conn) && second.answer == Wire(Resp.Encode(Resp.Queued))
    ensures done == Dispatched(server, second.conn, second.world, [EXEC_WORD], clock, moment)
    ensures done.answer == ExecAnswer(2, [Some(Confirmed()), Some(PubSub.MessageFrame(NAME_C, NAME_C))], [])
  {
    hide Resp.Encode, ExecAnswer, ReplayQueue, Confirmed, PubSub.MessageFrame;
    var w := World(shared, NOTHING);
    server := PublishServer();
    Words();
    PublishAfterSubscribe(w, clock);
    begun := Dispatched(server, IDLE, w, [MULTI_WORD], clock, moment);
    first := Dispatched(server, begun.conn, w, [SUBSCRIBE_WORD, NAME_C], clock, moment);
    assert first.conn.queue == [[SUBSCRIBE_WORD, NAME_C]];
    second := Dispatched(server, first.conn, w, [PUBLISH_WORD, NAME_C, NAME_C], clock, moment);
    assert second.conn.queue == [[SUBSCRIBE_WORD, NAME_C], [PUBLISH_WORD, NAME_C, NAME_C]];
    done := Dispatched(server, second.conn, w, [EXEC_WORD], clock, moment);
  }
}
