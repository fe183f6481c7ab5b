/**
 WATCH over whole runs: what one connection sees of the store while any others write to it and flush it.
 Writes and flushes are events; generations are only what EXEC compares.
 */
module Watching {
  import opened Bytes
  import opened Options
  import opened Transactions
  import Store
  import PubSub
  import Resp

  // ----- Runs

  /**
   A step of the run as this connection sees it: one of its own requests, or what another connection's command
   leaves in the store together with the writes and flushes it marks.
   */
  datatype Event =
    | Mine(request: seq<Bytes>, clock: nat -> Moment, moment: Moment)
    | Others(table: Store.Table<Bytes>, marks: seq<Store.Mark>)

  datatype Trace = Trace(conns: seq<Conn>, worlds: seq<World>, events: seq<Event>)

  ghost predicate TraceStep(server: Server, trace: Trace, i: nat)
    requires i < |trace.events| && |trace.conns| == |trace.worlds| == |trace.events| + 1
  {
    match trace.events[i]
    case Mine(request, clock, moment) =>
      && Queueable(trace.conns[i])
      && var step := Dispatched(server, trace.conns[i], trace.worlds[i], request, clock, moment);
         trace.conns[i + 1] == step.conn && trace.worlds[i + 1] == step.world
    case Others(table, marks) =>
      && trace.conns[i + 1] == trace.conns[i]
      && trace.worlds[i + 1] == trace.worlds[i].(shared := Marked(trace.worlds[i].shared, table, marks))
  }

  ghost predicate IsTrace(server: Server, trace: Trace) {
    && |trace.conns| == |trace.worlds| == |trace.events| + 1
    && trace.conns[0] == IDLE
    && forall i :: 0 <= i < |trace.events| ==> TraceStep(server, trace, i)
  }

  // ----- An open transaction holds no subscription

  lemma MultiNeedsNoSubscription(server: Server, conn: Conn, w: World, request: seq<Bytes>, moment: Moment)
    requires request != [] && !conn.inMulti
    ensures var out := Direct(server, conn, w, request, moment, false);
            out.conn.inMulti ==> !w.Subscribed() && out.world == w
  {
    hide NextHeld, Confirmations, WatchAll;
  }

  /** Over every run: MULTI is refused to a subscriber, and within a transaction only EXEC subscribes. */
  lemma {:induction false} OpenHoldsNothing(server: Server, trace: Trace, n: nat)
    requires IsTrace(server, trace) && n <= |trace.events| && trace.conns[n].inMulti
    ensures trace.worlds[n].held == NOTHING
  {
    hide Direct, ReplayQueue, ExecAnswer, Marked;
    assert n > 0;
    assert TraceStep(server, trace, n - 1);
    var conn, w := trace.conns[n - 1], trace.worlds[n - 1];
    if conn.inMulti {
      OpenHoldsNothing(server, trace, n - 1);
    }
    match trace.events[n - 1]
    case Others(_, _) =>
    case Mine(request, clock, moment) =>
      QueueStaysRunnable(server, trace, n - 1);
      ReplayHeld(server, w, conn.queue, clock, |conn.queue|);
      if request != [] && !conn.inMulti {
        MultiNeedsNoSubscription(server, conn, w, request, moment);
      }
  }

  // ----- Transactions, by the requests of the run

  /** Step `i` is a request of this connection with this name. */
  ghost predicate Says(trace: Trace, i: nat, name: string)
    requires i < |trace.events|
  {
    trace.events[i].Mine? && trace.events[i].request != [] && Name(trace.events[i].request[0]) == name
  }

  /** Step `i` is a MULTI of an unsubscribed connection, and before step `n` neither EXEC nor DISCARD has followed. */
  ghost predicate MultiStands(trace: Trace, i: nat, n: nat)
    requires n <= |trace.events| && |trace.worlds| == |trace.events| + 1
  {
    && i < n && Says(trace, i, "MULTI") && !trace.worlds[i].Subscribed()
    && forall j :: i < j < n ==> !Says(trace, j, "EXEC") && !Says(trace, j, "DISCARD")
  }

  ghost predicate SomeMultiStands(trace: Trace, n: nat)
    requires n <= |trace.events| && |trace.worlds| == |trace.events| + 1
  {
    exists i :: MultiStands(trace, i, n)
  }

  /** The requests of steps `i` to `n` that a transaction takes into its queue. */
  ghost function Gathered(server: Server, trace: Trace, i: nat, n: nat): seq<seq<Bytes>>
    requires i <= n <= |trace.events|
    decreases n
  {
    if i == n then []
    else
      var event := trace.events[n - 1];
      Gathered(server, trace, i, n - 1) +
      (if event.Mine? && Runnable(server, event.request) then [event.request] else [])
  }

  /** Step `i` opened the transaction that is open before step `n`. */
  ghost predicate OpenedBy(server: Server, trace: Trace, i: nat, n: nat)
    requires n <= |trace.events| && |trace.worlds| == |trace.events| + 1
  {
    MultiStands(trace, i, n) && !SomeMultiStands(trace, i)
  }

  lemma StandsOn(trace: Trace, n: nat)
    requires n < |trace.events| && |trace.worlds| == |trace.events| + 1
    ensures SomeMultiStands(trace, n + 1) <==>
              (SomeMultiStands(trace, n) && !Says(trace, n, "EXEC") && !Says(trace, n, "DISCARD"))
              || (Says(trace, n, "MULTI") && !trace.worlds[n].Subscribed())
  {
    if SomeMultiStands(trace, n + 1) {
      var i :| MultiStands(trace, i, n + 1);
      assert i == n || MultiStands(trace, i, n);
    }
    if SomeMultiStands(trace, n) && !Says(trace, n, "EXEC") && !Says(trace, n, "DISCARD") {
      var i :| MultiStands(trace, i, n);
      assert MultiStands(trace, i, n + 1);
    }
    if Says(trace, n, "MULTI") && !trace.worlds[n].Subscribed() {
      assert MultiStands(trace, n, n + 1);
    }
  }

  /** One step of the connection outside a transaction. */
  lemma ClosedStep(server: Server, trace: Trace, n: nat)
    requires IsTrace(server, trace) && n < |trace.events| && !trace.conns[n].inMulti && trace.conns[n].queue == []
    ensures trace.conns[n + 1].queue == []
    ensures trace.conns[n + 1].inMulti <==> Says(trace, n, "MULTI") && !trace.worlds[n].Subscribed()
  {
    hide Direct, IsTrace;
    TraceHas(server, trace, n);
    var event, conn, w := trace.events[n], trace.conns[n], trace.worlds[n];
    if event.Mine? && event.request != [] {
      DirectConn(server, conn, w, event.request, event.moment, false);
      if w.Subscribed() {
        GateOrder(server, conn, w, event.request, event.moment, false);
      } else {
        PlainWords(server, conn, w, event.request, event.moment);
      }
    }
  }

  lemma TraceHas(server: Server, trace: Trace, n: nat)
    requires IsTrace(server, trace) && n < |trace.events|
    ensures |trace.conns| == |trace.worlds| == |trace.events| + 1 && TraceStep(server, trace, n)
  {
  }

  /** And inside one. */
  lemma OpenStep(server: Server, trace: Trace, n: nat)
    requires IsTrace(server, trace) && n < |trace.events| && trace.conns[n].inMulti
    ensures Says(trace, n, "EXEC") || Says(trace, n, "DISCARD") ==> trace.conns[n + 1] == Conn(false, [], map[])
    ensures !(Says(trace, n, "EXEC") || Says(trace, n, "DISCARD")) ==>
              && trace.conns[n + 1].inMulti
              && trace.conns[n + 1].queue == trace.conns[n].queue +
                 (if trace.events[n].Mine? && Runnable(server, trace.events[n].request) then [trace.events[n].request] else [])
  {
    hide Dispatched, IsTrace, Runnable;
    TraceHas(server, trace, n);
    QueueStaysRunnable(server, trace, n);
    var event, conn, w := trace.events[n], trace.conns[n], trace.worlds[n];
    if event.Mine? {
      if event.request == [] {
        NothingAsked(server, conn, w, event.clock, event.moment);
      } else {
        InTransaction(server, conn, w, event.request, event.clock, event.moment);
      }
    }
  }

  lemma NothingAsked(server: Server, conn: Conn, w: World, clock: nat -> Moment, moment: Moment)
    requires Queueable(conn)
    ensures Dispatched(server, conn, w, [], clock, moment) == Step(conn, w, Silent, [])
    ensures !Runnable(server, [])
  {
  }

  /**
   Transactions by their requests, over every run: one is open exactly while a MULTI, sent without a subscription,
   has been followed by neither EXEC nor DISCARD. Its queue is then the requests sent since it was opened that name
   a known command in its right arity and are none of the transaction's own words, in order; otherwise there is none.
   */
  lemma {:induction false} TransactionByRequests(server: Server, trace: Trace, n: nat) returns (i: nat)
    requires IsTrace(server, trace) && n <= |trace.events|
    ensures trace.conns[n].inMulti <==> SomeMultiStands(trace, n)
    ensures trace.conns[n].inMulti ==>
              OpenedBy(server, trace, i, n) && trace.conns[n].queue == Gathered(server, trace, i + 1, n)
    ensures !trace.conns[n].inMulti ==> trace.conns[n].queue == []
  {
    hide TraceStep, Says, Runnable, SomeMultiStands, MultiStands;
    i := 0;
    if n == 0 {
      NoneStands(trace, 0);
    } else {
      StandsOn(trace, n - 1);
      i := TransactionByRequests(server, trace, n - 1);
      if trace.conns[n - 1].inMulti {
        OpenHoldsNothing(server, trace, n - 1);
        OpenStep(server, trace, n - 1);
        NoneStands(trace, n - 1);
        if trace.conns[n].inMulti {
          StaysOpened(server, trace, i, n - 1);
        }
      } else {
        ClosedStep(server, trace, n - 1);
        if trace.conns[n].inMulti {
          i := n - 1;
          JustOpened(server, trace, i);
        }
      }
    }
  }

  lemma NoneStands(trace: Trace, n: nat)
    requires |trace.worlds| == |trace.events| + 1
    ensures !SomeMultiStands(trace, 0)
    ensures n < |trace.events| && Says(trace, n, "MULTI") ==> !Says(trace, n, "EXEC") && !Says(trace, n, "DISCARD")
  {
  }

  lemma StaysOpened(server: Server, trace: Trace, i: nat, n: nat)
    requires n < |trace.events| && |trace.worlds| == |trace.events| + 1 && OpenedBy(server, trace, i, n)
    requires !Says(trace, n, "EXEC") && !Says(trace, n, "DISCARD")
    ensures OpenedBy(server, trace, i, n + 1) && i + 1 <= n
  {
  }

  lemma JustOpened(server: Server, trace: Trace, i: nat)
    requires i < |trace.events| && |trace.worlds| == |trace.events| + 1
    requires Says(trace, i, "MULTI") && !trace.worlds[i].Subscribed() && !SomeMultiStands(trace, i)
    ensures OpenedBy(server, trace, i, i + 1) && Gathered(server, trace, i + 1, i + 1) == []
  {
  }

  /** Whatever it did, EXEC or DISCARD in a transaction leaves the connection as a new one. */
  lemma EndsIdle(server: Server, trace: Trace, n: nat)
    requires IsTrace(server, trace) && n < |trace.events| && SomeMultiStands(trace, n)
    requires Says(trace, n, "EXEC") || Says(trace, n, "DISCARD")
    ensures trace.conns[n + 1] == Conn(false, [], map[])
    ensures Says(trace, n, "DISCARD") ==> trace.worlds[n + 1] == trace.worlds[n]
  {
    hide SomeMultiStands, Dispatched;
    var _ := TransactionByRequests(server, trace, n);
    TraceHas(server, trace, n);
    OpenStep(server, trace, n);
    if Says(trace, n, "DISCARD") {
      QueueStaysRunnable(server, trace, n);
      var event := trace.events[n];
      InTransaction(server, trace.conns[n], trace.worlds[n], event.request, event.clock, event.moment);
    }
  }

  /**
   So, over every run, what EXEC does follows from the queue alone: it is the sequence, over all command tables
   with these names and arities, if and only if the queue, started with no subscription, meets no closed gate.
   */
  lemma QueueDecides(server: Server, trace: Trace, n: nat, clock: nat -> Moment)
    requires IsTrace(server, trace) && n <= |trace.events| && trace.conns[n].inMulti
    ensures var queue, w := trace.conns[n].queue, trace.worlds[n];
            && NonEmpty(queue) && AllRunnable(server, queue)
            && (NoStops(NOTHING, queue) <==>
                forall server' :: SameArities(server, server') ==> AlwaysAgree(server', w, queue, clock))
  {
    hide TraceStep, NoStops, AlwaysAgree, Runnable;
    OpenHoldsNothing(server, trace, n);
    QueueStaysRunnable(server, trace, n);
    GateIsExact(server, trace.worlds[n], trace.conns[n].queue, clock);
  }

  /** And a queued PUBLISH answers with its count exactly when the queue itself subscribes to nothing that hears it. */
  lemma {:induction false} QueueDecidesPublish(server: Server, trace: Trace, n: nat, clock: nat -> Moment, k: nat, matches: (Bytes, Bytes) -> bool)
    requires IsTrace(server, trace) && n <= |trace.events| && trace.conns[n].inMulti
    requires QueuedPublish(server, trace.conns[n].queue, k, matches)
    ensures var queue := trace.conns[n].queue;
            && NonEmpty(queue)
            && var slot := ReplayQueue(server, IDLE, trace.worlds[n], queue, clock, |queue|).parts[k];
               && slot.Some?
               && (slot.value.Integer? <==> !PubSub.Hears(HeldAfter(NOTHING, queue, k), matches, queue[k][1]))
  {
    hide TraceStep, Runnable, ReplayQueue, HeldAfter;
    OpenHoldsNothing(server, trace, n);
    QueueStaysRunnable(server, trace, n);
    PublishSlot(server, trace.worlds[n], trace.conns[n].queue, clock, k, |trace.conns[n].queue|, matches);
  }

  // ----- Writes and flushes are never lost

  /** `later` is `earlier` after the writes and flushes its log has gained. */
  ghost predicate Follows(earlier: Shared, later: Shared) {
    && |earlier.log| <= |later.log| && later.log[..|earlier.log|] == earlier.log
    && later.generations == Store.AfterMarks(earlier.generations, later.log[|earlier.log|..])
  }

  lemma FollowsItself(s: Shared)
    ensures Follows(s, s)
  {
  }

  lemma MarkedFollows(s: Shared, table: Store.Table<Bytes>, marks: seq<Store.Mark>)
    ensures Follows(s, Marked(s, table, marks))
  {
    assert (s.log + marks)[|s.log|..] == marks;
  }

  lemma FollowsOn(a: Shared, b: Shared, c: Shared)
    requires Follows(a, b) && Follows(b, c)
    ensures Follows(a, c)
  {
    var p, q := b.log[|a.log|..], c.log[|b.log|..];
    assert c.log == b.log + q && b.log == a.log + p;
    assert c.log[|a.log|..] == p + q;
    assert c.log[..|a.log|] == a.log;
    Store.MarksJoin(a.generations, p, q);
  }

  lemma DirectFollows(server: Server, conn: Conn, w: World, request: seq<Bytes>, moment: Moment, bypass: bool)
    requires request != []
    ensures Follows(w.shared, Direct(server, conn, w, request, moment, bypass).world.shared)
  {
    hide Follows, NextHeld, Confirmations, WatchAll, Marked;
    FollowsItself(w.shared);
    var name, args := Name(request[0]), request[1..];
    if name in server.handlers {
      var ran := server.handlers[name].run(w, args, moment);
      MarkedFollows(w.shared, ran.table, ran.marks);
    }
  }

  lemma {:induction false} ReplayFollows(server: Server, conn: Conn, w: World, queue: seq<seq<Bytes>>, clock: nat -> Moment, n: nat)
    requires n <= |queue| && NonEmpty(queue)
    ensures Follows(w.shared, ReplayQueue(server, conn, w, queue, clock, n).world.shared)
  {
    hide Follows, Direct;
    FollowsItself(w.shared);
    if n > 0 {
      ReplayFollows(server, conn, w, queue, clock, n - 1);
      assert queue[n - 1] in queue;
      var before := ReplayQueue(server, conn, w, queue, clock, n - 1);
      DirectFollows(server, before.conn, before.world, queue[n - 1], clock(n - 1), true);
      FollowsOn(w.shared, before.world.shared, ReplayQueue(server, conn, w, queue, clock, n).world.shared);
    }
  }

  lemma StepFollows(server: Server, trace: Trace, i: nat)
    requires IsTrace(server, trace) && i < |trace.events|
    ensures Follows(trace.worlds[i].shared, trace.worlds[i + 1].shared)
  {
    hide Follows, Direct, ReplayQueue, ExecAnswer, Marked;
    assert TraceStep(server, trace, i);
    var conn, w := trace.conns[i], trace.worlds[i];
    FollowsItself(w.shared);
    match trace.events[i]
    case Others(table, marks) => MarkedFollows(w.shared, table, marks);
    case Mine(request, clock, moment) =>
      if request != [] {
        DirectFollows(server, conn, w, request, moment, false);
      }
      ReplayFollows(server, IDLE, w, conn.queue, clock, |conn.queue|);
  }

  /** Over any stretch of a run, the log only grows, and the generations are the old ones after what it gained. */
  lemma {:induction false} RunFollows(server: Server, trace: Trace, i: nat, n: nat)
    requires IsTrace(server, trace) && i <= n < |trace.worlds|
    ensures Follows(trace.worlds[i].shared, trace.worlds[n].shared)
    decreases n - i
  {
    hide Follows, TraceStep;
    if i == n {
      FollowsItself(trace.worlds[i].shared);
    } else {
      RunFollows(server, trace, i, n - 1);
      StepFollows(server, trace, n - 1);
      FollowsOn(trace.worlds[i].shared, trace.worlds[n - 1].shared, trace.worlds[n].shared);
    }
  }

  // ----- What is watched

  /** This request makes the connection watch `k`. */
  predicate Watches(server: Server, conn: Conn, w: World, request: seq<Bytes>, k: Bytes) {
    && request != [] && !conn.inMulti && Name(request[0]) == "WATCH" && "WATCH" in server.handlers
    && !WrongArity(server.handlers["WATCH"], request[1..]) && !w.Subscribed() && k in request[1..]
  }

  /** A watch entry is only ever made by a WATCH; anything else keeps it or drops it. */
  lemma WatchStep(server: Server, conn: Conn, w: World, request: seq<Bytes>, clock: nat -> Moment, moment: Moment, k: Bytes)
    requires Queueable(conn) && AllRunnable(server, conn.queue)
    requires k in Dispatched(server, conn, w, request, clock, moment).conn.watched
    ensures var watched := Dispatched(server, conn, w, request, clock, moment).conn.watched;
            if Watches(server, conn, w, request, k)
            then watched[k] == Watch(w.Generation(k), w.IsLive(k, moment.now))
            else k in conn.watched && watched[k] == conn.watched[k]
  {
    hide Direct, ReplayQueue, ExecAnswer;
    if request != [] {
      DirectConn(server, conn, w, request, moment, false);
    }
    ReplayHeld(server, w, conn.queue, clock, |conn.queue|);
  }

  ghost predicate WatchedBy(server: Server, trace: Trace, i: nat, k: Bytes)
    requires i < |trace.events| && |trace.conns| == |trace.worlds| == |trace.events| + 1
  {
    trace.events[i].Mine? && Watches(server, trace.conns[i], trace.worlds[i], trace.events[i].request, k)
  }

  /** The last WATCH of `k` before step `n` is step `i`. */
  ghost predicate LastWatch(server: Server, trace: Trace, i: nat, n: nat, k: Bytes)
    requires IsTrace(server, trace) && n <= |trace.events|
  {
    i < n && WatchedBy(server, trace, i, k) && forall j :: i < j < n ==> !WatchedBy(server, trace, j, k)
  }

  lemma {:induction false} QueueStaysRunnable(server: Server, trace: Trace, n: nat)
    requires IsTrace(server, trace) && n <= |trace.events|
    ensures Queueable(trace.conns[n]) && AllRunnable(server, trace.conns[n].queue)
  {
    if n > 0 {
      hide Dispatched, Runnable;
      QueueStaysRunnable(server, trace, n - 1);
      assert TraceStep(server, trace, n - 1);
      var event := trace.events[n - 1];
      if event.Mine? {
        OnlyRunnableQueued(server, trace.conns[n - 1], trace.worlds[n - 1], event.request, event.clock, event.moment);
        QueueableKept(server, trace.conns[n - 1], trace.worlds[n - 1], event.request, event.clock, event.moment);
      }
    }
  }

  /** What is watched is what the last WATCH of that key saw. */
  lemma {:induction false} WatchedIsLast(server: Server, trace: Trace, n: nat, k: Bytes) returns (i: nat)
    requires IsTrace(server, trace) && n <= |trace.events| && k in trace.conns[n].watched
    ensures LastWatch(server, trace, i, n, k)
    ensures trace.conns[n].watched[k] ==
            Watch(trace.worlds[i].Generation(k), trace.worlds[i].IsLive(k, trace.events[i].moment.now))
  {
    hide Dispatched, Watches, Runnable;
    assert n > 0;
    QueueStaysRunnable(server, trace, n - 1);
    assert TraceStep(server, trace, n - 1);
    var event := trace.events[n - 1];
    if event.Mine? {
      WatchStep(server, trace.conns[n - 1], trace.worlds[n - 1], event.request, event.clock, event.moment, k);
    }
    if WatchedBy(server, trace, n - 1, k) {
      i := n - 1;
    } else {
      i := WatchedIsLast(server, trace, n - 1, k);
    }
  }

  // ----- When EXEC runs

  /** The writes and flushes from state `i` to state `n`. */
  ghost function Since(server: Server, trace: Trace, i: nat, n: nat): seq<Store.Mark>
    requires IsTrace(server, trace) && i <= n < |trace.worlds|
  {
    RunFollows(server, trace, i, n);
    trace.worlds[n].shared.log[|trace.worlds[i].shared.log|..]
  }

  /**
   To EXEC these writes and flushes look like nothing: the key was neither written nor flushed; or it was flushed,
   and has since been written as often as its generation says it had been when it was watched.
   */
  predicate Unnoticed(marks: seq<Store.Mark>, k: Bytes, generation: nat) {
    if Store.Flushed in marks then Store.SinceFlush(marks, k) == generation else Store.Touched(k) !in marks
  }

  ghost predicate QuietSince(server: Server, trace: Trace, i: nat, n: nat, now: int, k: Bytes)
    requires IsTrace(server, trace) && n <= |trace.events|
  {
    && LastWatch(server, trace, i, n, k)
    && Unnoticed(Since(server, trace, i, n), k, trace.worlds[i].Generation(k))
    && trace.worlds[n].IsLive(k, now) == trace.worlds[i].IsLive(k, trace.events[i].moment.now)
  }

  /** Since its last WATCH, nothing EXEC can notice has happened to `k`. */
  ghost predicate Quiet(server: Server, trace: Trace, n: nat, now: int, k: Bytes)
    requires IsTrace(server, trace) && n <= |trace.events|
  {
    exists i: nat :: QuietSince(server, trace, i, n, now, k)
  }

  /** Equal generations mean just that, whatever was written and flushed in between. */
  lemma GenerationKept(server: Server, trace: Trace, i: nat, n: nat, k: Bytes)
    requires IsTrace(server, trace) && i <= n < |trace.worlds|
    ensures trace.worlds[n].Generation(k) == trace.worlds[i].Generation(k) <==>
            Unnoticed(Since(server, trace, i, n), k, trace.worlds[i].Generation(k))
  {
    RunFollows(server, trace, i, n);
    var marks := Since(server, trace, i, n);
    Store.GenerationCounts(trace.worlds[i].shared.generations, marks, k);
  }

  lemma OneLastWatch(server: Server, trace: Trace, i: nat, j: nat, n: nat, k: Bytes)
    requires IsTrace(server, trace) && n <= |trace.events|
    requires LastWatch(server, trace, i, n, k) && LastWatch(server, trace, j, n, k)
    ensures i == j
  {
    hide WatchedBy;
  }

  lemma QuietIffSame(server: Server, trace: Trace, n: nat, now: int, k: Bytes)
    requires IsTrace(server, trace) && n <= |trace.events| && k in trace.conns[n].watched
    ensures Quiet(server, trace, n, now, k) <==>
            trace.conns[n].watched[k] == Watch(trace.worlds[n].Generation(k), trace.worlds[n].IsLive(k, now))
  {
    hide TraceStep, WatchedBy, Since, Unnoticed;
    var i := WatchedIsLast(server, trace, n, k);
    GenerationKept(server, trace, i, n, k);
    if Quiet(server, trace, n, now, k) {
      var j: nat :| QuietSince(server, trace, j, n, now, k);
      OneLastWatch(server, trace, i, j, n, k);
    } else {
      assert !QuietSince(server, trace, i, n, now, k);
    }
  }

  /**
   Optimistic locking, over every run, flushes included: EXEC runs its queue exactly when, for each key still
   watched, it is as live as at its last WATCH, and since then was neither written nor flushed, or was flushed and
   then written just as often as its generation counted at that WATCH.
   */
  lemma ExecRunsIffQuiet(server: Server, trace: Trace, n: nat, now: int)
    requires IsTrace(server, trace) && n <= |trace.events|
    ensures !Dirty(trace.conns[n], trace.worlds[n], now) <==>
            forall k :: k in trace.conns[n].watched ==> Quiet(server, trace, n, now, k)
  {
    hide TraceStep, Quiet;
    forall k | k in trace.conns[n].watched
      ensures Quiet(server, trace, n, now, k) <==>
              trace.conns[n].watched[k] == Watch(trace.worlds[n].Generation(k), trace.worlds[n].IsLive(k, now))
    {
      QuietIffSame(server, trace, n, now, k);
    }
  }

  /** `k` was not written since its last WATCH, step `i`, and is as live as it was. */
  ghost predicate Untouched(server: Server, trace: Trace, i: nat, n: nat, now: int, k: Bytes)
    requires IsTrace(server, trace) && n <= |trace.events|
  {
    && LastWatch(server, trace, i, n, k)
    && Store.Touched(k) !in Since(server, trace, i, n)
    && trace.worlds[n].IsLive(k, now) == trace.worlds[i].IsLive(k, trace.events[i].moment.now)
  }

  /** The part of a run after state `i` has no flush in it when the whole run has none. */
  lemma NoFlushSince(server: Server, trace: Trace, i: nat, n: nat)
    requires IsTrace(server, trace) && i <= n < |trace.worlds|
    requires Store.Flushed !in Since(server, trace, 0, n)
    ensures Store.Flushed !in Since(server, trace, i, n)
  {
    RunFollows(server, trace, 0, i);
    RunFollows(server, trace, i, n);
    RunFollows(server, trace, 0, n);
    var start, here, log := |trace.worlds[0].shared.log|, |trace.worlds[i].shared.log|, trace.worlds[n].shared.log;
    assert log[start..][here - start..] == log[here..];
  }

  /** In a run without a flush, EXEC runs exactly when no key still watched was written or changed liveness. */
  lemma ExecRunsIffUntouched(server: Server, trace: Trace, n: nat, now: int)
    requires IsTrace(server, trace) && n <= |trace.events| && Store.Flushed !in Since(server, trace, 0, n)
    ensures !Dirty(trace.conns[n], trace.worlds[n], now) <==>
            forall k :: k in trace.conns[n].watched ==> exists i: nat :: Untouched(server, trace, i, n, now, k)
  {
    hide TraceStep, Since, WatchedBy;
    ExecRunsIffQuiet(server, trace, n, now);
    forall k | k in trace.conns[n].watched
      ensures Quiet(server, trace, n, now, k) <==> exists i: nat :: Untouched(server, trace, i, n, now, k)
    {
      if i: nat :| QuietSince(server, trace, i, n, now, k) {
        NoFlushSince(server, trace, i, n);
        assert Untouched(server, trace, i, n, now, k);
      }
      if i: nat :| Untouched(server, trace, i, n, now, k) {
        NoFlushSince(server, trace, i, n);
        assert QuietSince(server, trace, i, n, now, k);
      }
    }
  }

  // ----- A flush that goes unnoticed

  const WATCH_WORD: Bytes := [87, 65, 84, 67, 72]

  /** A server that knows no command but WATCH. */
  ghost function WatchServer(): Server {
    Server(map["WATCH" := Handler(1, None, (w: World, args, m) => Ran(w.shared.table, [], None, []))], kind => Resp.Nil)
  }

  /** A store that holds c, written once since the last flush, with nobody subscribed to anything. */
  function OneKey(value: Bytes): World {
    World(Shared(map[NAME_C := Store.Entry(value, None)], map[NAME_C := 1], [Store.Touched(NAME_C)]), NOTHING)
  }

  lemma WatchC(w: World, clock: nat -> Moment, moment: Moment)
    requires !w.Subscribed()
    ensures var request, k := [WATCH_WORD, NAME_C], Watch(w.Generation(NAME_C), w.IsLive(NAME_C, moment.now));
            && Dispatched(WatchServer(), IDLE, w, request, clock, moment) ==
               Step(IDLE.(watched := map[NAME_C := k]), w, Wire(Resp.Encode(Resp.Ok)), [])
            && Watches(WatchServer(), IDLE, w, request, NAME_C)
  {
    hide Resp.Encode;
    assert Name(WATCH_WORD) == "WATCH";
    assert [WATCH_WORD, NAME_C][1..] == [NAME_C] && NAME_C in [NAME_C];
    assert WatchAll(map[], [NAME_C], w, moment.now) == map[NAME_C := Watch(w.Generation(NAME_C), w.IsLive(NAME_C, moment.now))];
  }

  lemma FlushAndRewrite(s: Shared, table: Store.Table<Bytes>)
    ensures Marked(s, table, [Store.Flushed, Store.Touched(NAME_C)]).generations == map[NAME_C := 1]
  {
    var marks := [Store.Flushed, Store.Touched(NAME_C)];
    assert marks[..1] == [Store.Flushed] && marks[..1][..0] == [];
    assert Store.AfterMarks(s.generations, marks[..1]) == map[];
  }

  /**
   Such a run: the connection watches c, written once so far; another connection flushes everything and writes c
   again, with another value. The watched key is not the one that was watched, and EXEC would run all the same.
   */
  lemma FlushGoesUnnoticed(clock: nat -> Moment, moment: Moment)
    returns (server: Server, trace: Trace)
    ensures IsTrace(server, trace) && |trace.events| == 2
    ensures NAME_C in trace.conns[2].watched && LastWatch(server, trace, 0, 2, NAME_C)
    ensures Since(server, trace, 0, 2) == [Store.Flushed, Store.Touched(NAME_C)]
    ensures NAME_C in trace.worlds[0].shared.table && NAME_C in trace.worlds[2].shared.table
    ensures trace.worlds[0].shared.table[NAME_C] != trace.worlds[2].shared.table[NAME_C]
    ensures !Dirty(trace.conns[2], trace.worlds[2], moment.now)
  {
    hide Dispatched, WatchServer, Watches, Store.AfterMarks;
    var w0, table, marks := OneKey([1]), OneKey([2]).shared.table, [Store.Flushed, Store.Touched(NAME_C)];
    var w2 := w0.(shared := Marked(w0.shared, table, marks));
    server := WatchServer();
    WatchC(w0, clock, moment);
    FlushAndRewrite(w0.shared, table);
    var watching := IDLE.(watched := map[NAME_C := Watch(1, true)]);
    trace := Trace([IDLE, watching, watching], [w0, w0, w2], [Mine([WATCH_WORD, NAME_C], clock, moment), Others(table, marks)]);
    assert TraceStep(server, trace, 0) && TraceStep(server, trace, 1);
    assert w2.shared.log[|w0.shared.log|..] == marks;
  }
}
