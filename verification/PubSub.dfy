/**
 Channels and patterns: every connection keeps its own subscriptions, and the hub keeps the inverted
 index from names to connections. The two must agree at all times.
 */
module PubSub {
  import opened Bytes
  import opened Options
  import Resp
  import Wire

  type Frame = Resp.Reply

  /** Channels and patterns are kept and served alike; only the words differ. */
  datatype Side = Channels | Patterns

  function Other(side: Side): Side { if side == Channels then Patterns else Channels }

  /** The names one connection subscribes to. */
  datatype Held = Held(channels: set<Bytes>, patterns: set<Bytes>)
  {
    function Of(side: Side): set<Bytes> { if side == Channels then channels else patterns }

    function With(side: Side, names: set<Bytes>): Held {
      if side == Channels then Held(names, patterns) else Held(channels, names)
    }

    function Total(): nat { |channels| + |patterns| }

    predicate Any() { channels != {} || patterns != {} }
  }

  class Session {
    var channels: set<Bytes>
    var patterns: set<Bytes>
    /** The frames pushed to this connection, in order. */
    var outbox: seq<Frame>

    constructor ()
      ensures Holds() == Held({}, {}) && outbox == []
    {
      channels, patterns, outbox := {}, {}, [];
    }

    function Holds(): Held
      reads this`channels, this`patterns
    {
      Held(channels, patterns)
    }

    method Hold(side: Side, names: set<Bytes>)
      modifies this`channels, this`patterns
      ensures Holds() == old(Holds()).With(side, names)
    {
      if side == Channels {
        channels := names;
      } else {
        patterns := names;
      }
    }

    method Deliver(frame: Frame)
      modifies this`outbox
      ensures outbox == old(outbox) + [frame]
    {
      outbox := outbox + [frame];
    }
  }

  /** The subscribers of each name; a name nobody subscribes to has no entry. */
  type Index = map<Bytes, set<Session>>

  function Subscribers(index: Index, name: Bytes): set<Session> {
    if name in index then index[name] else {}
  }

  predicate NoEmptyEntry(index: Index) {
    forall name :: name in index ==> index[name] != {}
  }

  /** `after` is `before` with only the subscribers of `name` changed. */
  ghost predicate OnlyAt(before: Index, after: Index, name: Bytes, subscribers: set<Session>) {
    && NoEmptyEntry(after)
    && forall n :: Subscribers(after, n) == if n == name then subscribers else Subscribers(before, n)
  }

  method AddTo(index: Index, name: Bytes, session: Session) returns (index': Index)
    requires NoEmptyEntry(index)
    ensures OnlyAt(index, index', name, Subscribers(index, name) + {session})
  {
    index' := index[name := Subscribers(index, name) + {session}];
    assert session in index'[name];
  }

  method DropFrom(index: Index, name: Bytes, session: Session) returns (index': Index)
    requires NoEmptyEntry(index)
    ensures OnlyAt(index, index', name, Subscribers(index, name) - {session})
  {
    if name !in index {
      return index;
    }
    var rest := index[name] - {session};
    if rest == {} {
      index' := index - {name};
    } else {
      index' := index[name := rest];
    }
  }

  class Hub {
    var channels: Index
    var patterns: Index

    constructor ()
      ensures channels == map[] && patterns == map[]
      ensures InStep(this, {})
    {
      channels, patterns := map[], map[];
    }

    function Of(side: Side): Index
      reads this
    {
      if side == Channels then channels else patterns
    }

    method Enter(side: Side, index: Index)
      modifies this
      ensures Of(side) == index && Of(Other(side)) == old(Of(Other(side)))
    {
      if side == Channels {
        channels := index;
      } else {
        patterns := index;
      }
    }
  }

  /** The names a connection holds are those whose entries hold the connection. */
  ghost predicate Mirrors(index: Index, session: Session, held: set<Bytes>) {
    forall n :: n in held <==> session in Subscribers(index, n)
  }

  ghost predicate SideInStep(hub: Hub, connected: set<Session>, side: Side)
    reads hub, connected`channels, connected`patterns
  {
    && NoEmptyEntry(hub.Of(side))
    && (forall n :: Subscribers(hub.Of(side), n) <= connected)
    && (forall s :: s in connected ==> Mirrors(hub.Of(side), s, s.Holds().Of(side)))
  }

  /** Every connection's own sets and the hub's tables say the same, and no entry is empty. */
  ghost predicate InStep(hub: Hub, connected: set<Session>)
    reads hub, connected`channels, connected`patterns
  {
    SideInStep(hub, connected, Channels) && SideInStep(hub, connected, Patterns)
  }

  // ----- Confirmations

  function Confirmation(verb: string, name: Frame, count: nat): Frame {
    Resp.Array([Resp.Bulk(Ascii(verb)), name, Resp.Integer(count)])
  }

  function NamesIn(names: seq<Bytes>): set<Bytes> { set n | n in names }

  /** The k-th confirmation carries the count once that name, and those before it, are added. */
  function AddedAt(verb: string, names: seq<Bytes>, k: nat, held: set<Bytes>, others: nat): Frame
    requires k < |names|
  {
    Confirmation(verb, Resp.Bulk(names[k]), |held + NamesIn(names[..k + 1])| + others)
  }

  function Added(verb: string, names: seq<Bytes>, held: set<Bytes>, others: nat): (frames: seq<Frame>)
    ensures |frames| == |names|
    ensures forall k :: 0 <= k < |names| ==> frames[k] == AddedAt(verb, names, k, held, others)
  {
    seq(|names|, k requires 0 <= k < |names| => AddedAt(verb, names, k, held, others))
  }

  /** The k-th confirmation carries the count once that name, and those before it, are dropped. */
  function DroppedAt(verb: string, names: seq<Bytes>, k: nat, held: set<Bytes>, others: nat): Frame
    requires k < |names|
  {
    Confirmation(verb, Resp.Bulk(names[k]), |held - NamesIn(names[..k + 1])| + others)
  }

  function Dropped(verb: string, names: seq<Bytes>, held: set<Bytes>, others: nat): (frames: seq<Frame>)
    ensures |frames| == |names|
    ensures forall k :: 0 <= k < |names| ==> frames[k] == DroppedAt(verb, names, k, held, others)
  {
    seq(|names|, k requires 0 <= k < |names| => DroppedAt(verb, names, k, held, others))
  }

  lemma PrefixGrows(names: seq<Bytes>, k: nat, held: set<Bytes>)
    requires k < |names|
    ensures held + NamesIn(names[..k]) + {names[k]} == held + NamesIn(names[..k + 1])
    ensures held - NamesIn(names[..k]) - {names[k]} == held - NamesIn(names[..k + 1])
  {
    assert names[..k + 1] == names[..k] + [names[k]];
    assert NamesIn(names[..k + 1]) == NamesIn(names[..k]) + {names[k]};
  }

  // ----- Sorted names

  ghost predicate Ascending(s: seq<Bytes>) {
    forall i, j :: 0 <= i < j < |s| ==> BytesLess(s[i], s[j])
  }

  /** A name put into its place in byte order. */
  function Insert(order: seq<Bytes>, name: Bytes): seq<Bytes> {
    if order == [] || BytesLess(name, order[0]) then [name] + order else [order[0]] + Insert(order[1..], name)
  }

  lemma {:induction false} InsertAscending(order: seq<Bytes>, name: Bytes)
    requires Ascending(order) && name !in order
    ensures Ascending(Insert(order, name)) && NamesIn(Insert(order, name)) == NamesIn(order) + {name}
  {
    if order == [] {
    } else if BytesLess(name, order[0]) {
      forall k | 0 < k < |order|
        ensures BytesLess(name, order[k])
      {
        BytesLessTransitive(name, order[0], order[k]);
      }
    } else {
      var rest := Insert(order[1..], name);
      InsertAscending(order[1..], name);
      BytesLessTotal(name, order[0]);
      assert order == [order[0]] + order[1..] && order[0] in order;
      forall k | 0 <= k < |rest|
        ensures BytesLess(order[0], rest[k])
      {
        assert rest[k] in NamesIn(rest);
      }
    }
  }

  /** The names of a set in byte order. */
  ghost function Sorted(names: set<Bytes>): (order: seq<Bytes>)
    ensures Ascending(order) && NamesIn(order) == names
  {
    if names == {} then []
    else
      var name :| name in names;
      var order := Sorted(names - {name});
      assert name !in order by { assert name !in NamesIn(order); }
      InsertAscending(order, name);
      Insert(order, name)
  }

  /** A set has one ascending order. */
  lemma {:induction false} AscendingUnique(s: seq<Bytes>, t: seq<Bytes>)
    requires Ascending(s) && Ascending(t) && NamesIn(s) == NamesIn(t)
    ensures s == t
  {
    if s != [] {
      assert s[0] in NamesIn(s);
    }
    if t != [] {
      assert t[0] in NamesIn(t);
    }
    if s != [] {
      var i :| 0 <= i < |t| && t[i] == s[0];
      var j :| 0 <= j < |s| && s[j] == t[0];
      BytesLessTotal(s[0], t[0]);
      assert s[0] == t[0];
      AscendingRest(s);
      AscendingRest(t);
      AscendingUnique(s[1..], t[1..]);
    }
  }

  lemma AscendingRest(s: seq<Bytes>)
    requires Ascending(s) && s != []
    ensures NamesIn(s[1..]) == NamesIn(s) - {s[0]}
  {
    BytesLessTotal(s[0], s[0]);
    assert s == [s[0]] + s[1..];
  }

  method SortedNames(names: set<Bytes>) returns (order: seq<Bytes>)
    ensures order == Sorted(names)
  {
    order := [];
    var todo := names;
    while todo != {}
      invariant todo <= names && Ascending(order) && NamesIn(order) == names - todo
      decreases todo
    {
      var name :| name in todo;
      todo := todo - {name};
      assert name !in NamesIn(order);
      InsertAscending(order, name);
      order := Insert(order, name);
    }
    AscendingUnique(order, Sorted(names));
  }

  // ----- What the commands do to a connection

  function JoinVerb(side: Side): string { if side == Channels then "subscribe" else "psubscribe" }

  function LeaveVerb(side: Side): string { if side == Channels then "unsubscribe" else "punsubscribe" }

  function Joined(side: Side, held: Held, names: seq<Bytes>): Held {
    held.With(side, held.Of(side) + NamesIn(names))
  }

  function JoinFrames(side: Side, held: Held, names: seq<Bytes>): seq<Frame> {
    Added(JoinVerb(side), names, held.Of(side), |held.Of(Other(side))|)
  }

  /** With no arguments, every name the connection holds, in byte order. */
  ghost function LeaveOrder(side: Side, held: Held, names: seq<Bytes>): seq<Bytes> {
    if names != [] then names else Sorted(held.Of(side))
  }

  function Parted(side: Side, held: Held, names: seq<Bytes>): Held {
    held.With(side, held.Of(side) - NamesIn(names))
  }

  ghost function Left(side: Side, held: Held, names: seq<Bytes>): Held {
    Parted(side, held, LeaveOrder(side, held, names))
  }

  /** One confirmation per name; a single one with a null name when there is nothing to leave. */
  ghost function LeaveFrames(side: Side, held: Held, names: seq<Bytes>): seq<Frame> {
    var order, others := LeaveOrder(side, held, names), |held.Of(Other(side))|;
    if order == [] then [Confirmation(LeaveVerb(side), Resp.Nil, others)]
    else Dropped(LeaveVerb(side), order, held.Of(side), others)
  }

  /** Subscribing confirms something exactly when it is given a name; unsubscribing always does. */
  lemma AlwaysConfirmed(side: Side, held: Held, names: seq<Bytes>)
    ensures JoinFrames(side, held, names) == [] <==> names == []
    ensures LeaveFrames(side, held, names) != []
  {
    assert |JoinFrames(side, held, names)| == |names|;
  }

  // ----- The commands

  /** Changing one name of one connection on both of its sides of the agreement keeps the agreement. */
  lemma OneNameKept(before: Index, after: Index, name: Bytes, session: Session, subscribers: set<Session>,
                    s: Session, held: set<Bytes>, held': set<Bytes>)
    requires OnlyAt(before, after, name, subscribers)
    requires Mirrors(before, s, held)
    requires forall n :: n in held' <==> if n == name then s in subscribers else n in held
    ensures Mirrors(after, s, held')
  {
  }

  method EnterName(hub: Hub, session: Session, side: Side, name: Bytes, ghost connected: set<Session>)
    requires InStep(hub, connected) && session in connected
    modifies hub, session`channels, session`patterns
    ensures InStep(hub, connected)
    ensures session.Holds() == Joined(side, old(session.Holds()), [name])
  {
    ghost var before := hub.Of(side);
    session.Hold(side, session.Holds().Of(side) + {name});
    var index := AddTo(hub.Of(side), name, session);
    hub.Enter(side, index);
    assert NamesIn([name]) == {name};
    forall s | s in connected
      ensures Mirrors(index, s, s.Holds().Of(side))
    {
      OneNameKept(before, index, name, session, Subscribers(before, name) + {session}, s, old(s.Holds()).Of(side), s.Holds().Of(side));
    }
  }

  method ExitName(hub: Hub, session: Session, side: Side, name: Bytes, ghost connected: set<Session>)
    requires InStep(hub, connected) && session in connected
    modifies hub, session`channels, session`patterns
    ensures InStep(hub, connected)
    ensures session.Holds() == Parted(side, old(session.Holds()), [name])
  {
    ghost var before := hub.Of(side);
    session.Hold(side, session.Holds().Of(side) - {name});
    var index := DropFrom(hub.Of(side), name, session);
    hub.Enter(side, index);
    assert NamesIn([name]) == {name};
    forall s | s in connected
      ensures Mirrors(index, s, s.Holds().Of(side))
    {
      OneNameKept(before, index, name, session, Subscribers(before, name) - {session}, s, old(s.Holds()).Of(side), s.Holds().Of(side));
    }
  }

  lemma NextFrame(sent: seq<Frame>, frames: seq<Frame>, k: nat)
    requires k < |frames|
    ensures sent + frames[..k] + [frames[k]] == sent + frames[..k + 1]
  {
  }

  lemma JoinStart(side: Side, held: Held)
    ensures Joined(side, held, []) == held && Parted(side, held, []) == held
  {
  }

  lemma JoinStep(side: Side, held: Held, names: seq<Bytes>, k: nat)
    requires k < |names|
    ensures Joined(side, Joined(side, held, names[..k]), [names[k]]) == Joined(side, held, names[..k + 1])
    ensures |JoinFrames(side, held, names)| == |names|
    ensures JoinFrames(side, held, names)[k] ==
            Confirmation(JoinVerb(side), Resp.Bulk(names[k]), Joined(side, held, names[..k + 1]).Total())
  {
    assert NamesIn([names[k]]) == {names[k]};
    hide NamesIn;
    PrefixGrows(names, k, held.Of(side));
  }

  lemma LeaveStep(side: Side, held: Held, names: seq<Bytes>, k: nat)
    requires k < |names|
    ensures Parted(side, Parted(side, held, names[..k]), [names[k]]) == Parted(side, held, names[..k + 1])
    ensures Dropped(LeaveVerb(side), names, held.Of(side), |held.Of(Other(side))|)[k] ==
            Confirmation(LeaveVerb(side), Resp.Bulk(names[k]), Parted(side, held, names[..k + 1]).Total())
  {
    var verb, others := LeaveVerb(side), |held.Of(Other(side))|;
    assert NamesIn([names[k]]) == {names[k]};
    hide NamesIn, Confirmation;
    PrefixGrows(names, k, held.Of(side));
    var frames := Dropped(verb, names, held.Of(side), others);
    assert frames[k] == DroppedAt(verb, names, k, held.Of(side), others);
    hide Dropped;
  }

  /** Each name is added to the connection and to the hub, and confirmed. */
  method Join(hub: Hub, session: Session, side: Side, names: seq<Bytes>, ghost connected: set<Session>)
    requires InStep(hub, connected) && session in connected
    modifies hub, session
    ensures InStep(hub, connected)
    ensures session.Holds() == Joined(side, old(session.Holds()), names)
    ensures session.outbox == old(session.outbox) + JoinFrames(side, old(session.Holds()), names)
  {
    hide InStep, Joined, Added;
    ghost var held, sent := session.Holds(), session.outbox;
    ghost var frames := JoinFrames(side, held, names);
    JoinStart(side, held);
    assert |frames| == |names|;
    for k := 0 to |names|
      invariant InStep(hub, connected)
      invariant session.Holds() == Joined(side, held, names[..k])
      invariant session.outbox == sent + frames[..k]
    {
      JoinStep(side, held, names, k);
      EnterName(hub, session, side, names[k], connected);
      session.Deliver(Confirmation(JoinVerb(side), Resp.Bulk(names[k]), session.Holds().Total()));
      NextFrame(sent, frames, k);
    }
    assert names[..|names|] == names && frames[..|names|] == frames;
  }

  method LeaveEach(hub: Hub, session: Session, side: Side, names: seq<Bytes>, ghost connected: set<Session>)
    requires InStep(hub, connected) && session in connected
    modifies hub, session
    ensures InStep(hub, connected)
    ensures session.Holds() == Parted(side, old(session.Holds()), names)
    ensures var held := old(session.Holds());
            session.outbox ==
            old(session.outbox) + Dropped(LeaveVerb(side), names, held.Of(side), |held.Of(Other(side))|)
  {
    hide InStep, Parted;
    ghost var held, sent := session.Holds(), session.outbox;
    ghost var frames := Dropped(LeaveVerb(side), names, held.Of(side), |held.Of(Other(side))|);
    hide Dropped;
    JoinStart(side, held);
    for k := 0 to |names|
      invariant InStep(hub, connected)
      invariant session.Holds() == Parted(side, held, names[..k])
      invariant session.outbox == sent + frames[..k]
    {
      LeaveStep(side, held, names, k);
      ExitName(hub, session, side, names[k], connected);
      session.Deliver(Confirmation(LeaveVerb(side), Resp.Bulk(names[k]), session.Holds().Total()));
      NextFrame(sent, frames, k);
    }
    assert names[..|names|] == names && frames[..|names|] == frames;
  }

  lemma NothingHeld(order: seq<Bytes>, held: set<Bytes>)
    requires NamesIn(order) == held
    ensures order == [] <==> held == {}
  {
    if order != [] {
      assert order[0] in NamesIn(order);
    }
  }

  /** Each name, or every name held, is dropped from the connection and from the hub, and confirmed. */
  method Leave(hub: Hub, session: Session, side: Side, names: seq<Bytes>, ghost connected: set<Session>)
    requires InStep(hub, connected) && session in connected
    modifies hub, session
    ensures InStep(hub, connected)
    ensures session.Holds() == Left(side, old(session.Holds()), names)
    ensures session.outbox == old(session.outbox) + LeaveFrames(side, old(session.Holds()), names)
  {
    hide InStep, DroppedAt, Sorted;
    var had := session.Holds().Of(side) != {};
    var todo := names;
    if names == [] {
      todo := SortedNames(session.Holds().Of(side));
      NothingHeld(todo, session.Holds().Of(side));
    }
    LeaveEach(hub, session, side, todo, connected);
    if names == [] && !had {
      session.Deliver(Confirmation(LeaveVerb(side), Resp.Nil, session.Holds().Total()));
    }
  }

  method Subscribe(hub: Hub, session: Session, names: seq<Bytes>, ghost connected: set<Session>)
    requires InStep(hub, connected) && session in connected
    modifies hub, session
    ensures InStep(hub, connected)
    ensures session.patterns == old(session.patterns) && session.channels == old(session.channels) + NamesIn(names)
    ensures session.outbox == old(session.outbox) + JoinFrames(Channels, old(session.Holds()), names)
  {
    Join(hub, session, Channels, names, connected);
    assert session.Holds() == Joined(Channels, old(session.Holds()), names);
  }

  method PSubscribe(hub: Hub, session: Session, names: seq<Bytes>, ghost connected: set<Session>)
    requires InStep(hub, connected) && session in connected
    modifies hub, session
    ensures InStep(hub, connected)
    ensures session.channels == old(session.channels) && session.patterns == old(session.patterns) + NamesIn(names)
    ensures session.outbox == old(session.outbox) + JoinFrames(Patterns, old(session.Holds()), names)
  {
    Join(hub, session, Patterns, names, connected);
    assert session.Holds() == Joined(Patterns, old(session.Holds()), names);
  }

  method Unsubscribe(hub: Hub, session: Session, names: seq<Bytes>, ghost connected: set<Session>)
    requires InStep(hub, connected) && session in connected
    modifies hub, session
    ensures InStep(hub, connected)
    ensures session.patterns == old(session.patterns)
    ensures session.channels == if names == [] then {} else old(session.channels) - NamesIn(names)
    ensures session.outbox == old(session.outbox) + LeaveFrames(Channels, old(session.Holds()), names)
    ensures |session.outbox| > |old(session.outbox)|
  {
    AlwaysConfirmed(Channels, session.Holds(), names);
    Leave(hub, session, Channels, names, connected);
    assert session.Holds() == Left(Channels, old(session.Holds()), names);
  }

  method PUnsubscribe(hub: Hub, session: Session, names: seq<Bytes>, ghost connected: set<Session>)
    requires InStep(hub, connected) && session in connected
    modifies hub, session
    ensures InStep(hub, connected)
    ensures session.channels == old(session.channels)
    ensures session.patterns == if names == [] then {} else old(session.patterns) - NamesIn(names)
    ensures session.outbox == old(session.outbox) + LeaveFrames(Patterns, old(session.Holds()), names)
    ensures |session.outbox| > |old(session.outbox)|
  {
    AlwaysConfirmed(Patterns, session.Holds(), names);
    Leave(hub, session, Patterns, names, connected);
    assert session.Holds() == Left(Patterns, old(session.Holds()), names);
  }

  // ----- Disconnecting

  /** `remove_session`: the connection leaves every entry of both tables, and empty entries go. */
  method RemoveSession(hub: Hub, session: Session, ghost connected: set<Session>)
    requires InStep(hub, connected)
    modifies hub
    ensures InStep(hub, connected - {session})
    ensures forall n :: Subscribers(hub.channels, n) == Subscribers(old(hub.channels), n) - {session}
    ensures forall n :: Subscribers(hub.patterns, n) == Subscribers(old(hub.patterns), n) - {session}
  {
    var channels := DropEverywhere(hub.channels, session);
    var patterns := DropEverywhere(hub.patterns, session);
    hub.channels := channels;
    hub.patterns := patterns;
  }

  method DropEverywhere(index: Index, session: Session) returns (rest: Index)
    requires NoEmptyEntry(index)
    ensures NoEmptyEntry(rest)
    ensures forall n :: Subscribers(rest, n) == Subscribers(index, n) - {session}
  {
    rest := index;
    var todo := index.Keys;
    while todo != {}
      invariant todo <= index.Keys && NoEmptyEntry(rest)
      invariant forall n :: Subscribers(rest, n) == if n in todo then Subscribers(index, n) else Subscribers(index, n) - {session}
      decreases todo
    {
      var name :| name in todo;
      todo := todo - {name};
      rest := DropFrom(rest, name, session);
    }
  }

  /** A new connection holds nothing, and the agreement extends to it. */
  method Connect(hub: Hub, ghost connected: set<Session>) returns (session: Session)
    requires InStep(hub, connected)
    ensures fresh(session) && InStep(hub, connected + {session})
    ensures session.Holds() == Held({}, {}) && session.outbox == []
  {
    session := new Session();
    assert session !in connected;
  }

  // ----- Publishing

  datatype Delivery = Delivery(session: Session, frame: Frame)

  function MessageFrame(channel: Bytes, payload: Bytes): Frame {
    Resp.Array([Resp.Bulk(Ascii("message")), Resp.Bulk(channel), Resp.Bulk(payload)])
  }

  function PatternFrame(pattern: Bytes, channel: Bytes, payload: Bytes): Frame {
    Resp.Array([Resp.Bulk(Ascii("pmessage")), Resp.Bulk(pattern), Resp.Bulk(channel), Resp.Bulk(payload)])
  }

  /** The frames of a log that went to one connection, in order. */
  ghost function SentTo(log: seq<Delivery>, session: Session): seq<Frame> {
    if log == [] then []
    else
      var last := log[|log| - 1];
      SentTo(log[..|log| - 1], session) + (if last.session == session then [last.frame] else [])
  }

  ghost predicate NoRepeats(log: seq<Delivery>) {
    forall i, j :: 0 <= i < j < |log| ==> log[i] != log[j]
  }

  /** What PUBLISH owes: one message per channel subscriber, one pmessage per matching pattern and subscriber of it. */
  ghost predicate Owed(hub: Hub, matches: (Bytes, Bytes) -> bool, channel: Bytes, payload: Bytes, d: Delivery)
    reads hub
  {
    || (d.session in Subscribers(hub.channels, channel) && d.frame == MessageFrame(channel, payload))
    || OwedByPattern(hub.patterns, matches, channel, payload, hub.patterns.Keys, d)
  }

  ghost predicate OwedByPattern(patterns: Index, matches: (Bytes, Bytes) -> bool, channel: Bytes, payload: Bytes,
                                among: set<Bytes>, d: Delivery) {
    exists p :: p in among && matches(p, channel) && d.session in Subscribers(patterns, p) &&
                d.frame == PatternFrame(p, channel, payload)
  }

  /** Every connection that could be sent something. */
  ghost predicate Reaches(sessions: set<Session>, index: Index) {
    forall n :: Subscribers(index, n) <= sessions
  }

  lemma {:induction false} LogOne(log: seq<Delivery>, d: Delivery)
    ensures NoRepeats(log) && d !in log ==> NoRepeats(log + [d])
    ensures forall s :: SentTo(log + [d], s) == SentTo(log, s) + (if d.session == s then [d.frame] else [])
  {
    assert (log + [d])[..|log|] == log;
  }

  /** Delivers one frame to each of a set of connections. */
  method Fan(subscribers: set<Session>, frame: Frame, ghost log: seq<Delivery>, ghost base: map<Session, seq<Frame>>,
             ghost sessions: set<Session>)
    returns (sent: nat, ghost log': seq<Delivery>)
    requires subscribers <= sessions == base.Keys
    requires NoRepeats(log) && forall s :: s in subscribers ==> Delivery(s, frame) !in log
    requires forall s :: s in sessions ==> s.outbox == base[s] + SentTo(log, s)
    modifies sessions`outbox
    ensures NoRepeats(log') && sent == |log'| - |log|
    ensures forall d :: d in log' <==> d in log || (d.session in subscribers && d.frame == frame)
    ensures forall s :: s in sessions ==> s.outbox == base[s] + SentTo(log', s)
  {
    hide NoRepeats, SentTo;
    sent := 0;
    log' := log;
    var todo := subscribers;
    while todo != {}
      invariant todo <= subscribers && NoRepeats(log') && sent == |log'| - |log|
      invariant forall d :: d in log' <==> d in log || (d.session in subscribers - todo && d.frame == frame)
      invariant forall s :: s in sessions ==> s.outbox == base[s] + SentTo(log', s)
      decreases todo
    {
      var session :| session in todo;
      todo := todo - {session};
      session.Deliver(frame);
      sent := sent + 1;
      LogOne(log', Delivery(session, frame));
      log' := log' + [Delivery(session, frame)];
    }
  }

  /**
   PUBLISH: the count is the number of frames delivered; each owed delivery is made once and no other is;
   each connection's outbox grows by just what was sent to it.
   */
  method Publish(hub: Hub, matches: (Bytes, Bytes) -> bool, channel: Bytes, payload: Bytes, ghost sessions: set<Session>)
    returns (receivers: nat, ghost log: seq<Delivery>)
    requires Reaches(sessions, hub.channels) && Reaches(sessions, hub.patterns)
    modifies sessions`outbox
    ensures receivers == |log| && NoRepeats(log)
    ensures forall d :: d in log <==> Owed(hub, matches, channel, payload, d)
    ensures forall s :: s in sessions ==> s.outbox == old(s.outbox) + SentTo(log, s)
  {
    ghost var base: map<Session, seq<Frame>> := map s: Session | s in sessions :: s.outbox;
    log := [];
    receivers, log := Fan(Subscribers(hub.channels, channel), MessageFrame(channel, payload), log, base, sessions);
    ghost var direct := log;
    var todo := hub.patterns.Keys;
    ghost var done: set<Bytes> := {};
    while todo != {}
      invariant todo <= hub.patterns.Keys && done == hub.patterns.Keys - todo
      invariant receivers == |log| && NoRepeats(log)
      invariant forall d :: d in log <==> d in direct || OwedByPattern(hub.patterns, matches, channel, payload, done, d)
      invariant forall s :: s in sessions ==> s.outbox == base[s] + SentTo(log, s)
      decreases todo
    {
      var pattern :| pattern in todo;
      todo := todo - {pattern};
      if matches(pattern, channel) {
        var frame := PatternFrame(pattern, channel, payload);
        NewFrame(hub.patterns, matches, channel, payload, done, pattern);
        assert Subscribers(hub.patterns, pattern) == hub.patterns[pattern];
        var sent;
        sent, log := Fan(hub.patterns[pattern], frame, log, base, sessions);
        receivers := receivers + sent;
      }
      done := done + {pattern};
    }
    assert done == hub.patterns.Keys;
  }

  /** A pattern's frame names the pattern, so no other pattern and no channel message can have sent it. */
  lemma NewFrame(patterns: Index, matches: (Bytes, Bytes) -> bool, channel: Bytes, payload: Bytes, done: set<Bytes>, pattern: Bytes)
    requires pattern !in done
    ensures PatternFrame(pattern, channel, payload) != MessageFrame(channel, payload)
    ensures forall d: Delivery :: d.frame == PatternFrame(pattern, channel, payload) ==>
                          !OwedByPattern(patterns, matches, channel, payload, done, d)
  {
  }

  // ----- What a publisher gets of its own message

  /** A connection that publishes to `channel` is itself among the receivers. */
  predicate Hears(held: Held, matches: (Bytes, Bytes) -> bool, channel: Bytes) {
    channel in held.channels || exists p :: p in held.patterns && matches(p, channel)
  }

  /** The frames of one message that are due to a connection holding these names. */
  ghost predicate Due(held: Held, matches: (Bytes, Bytes) -> bool, channel: Bytes, payload: Bytes, frame: Frame) {
    || (channel in held.channels && frame == MessageFrame(channel, payload))
    || (exists p :: p in held.patterns && matches(p, channel) && frame == PatternFrame(p, channel, payload))
  }

  lemma SomethingDue(held: Held, matches: (Bytes, Bytes) -> bool, channel: Bytes, payload: Bytes)
    ensures Hears(held, matches, channel) <==> exists frame :: Due(held, matches, channel, payload, frame)
  {
    if channel in held.channels {
      assert Due(held, matches, channel, payload, MessageFrame(channel, payload));
    }
    if p :| p in held.patterns && matches(p, channel) {
      assert Due(held, matches, channel, payload, PatternFrame(p, channel, payload));
    }
  }

  /** How many frames of a log went to other connections. */
  ghost function SentElsewhere(log: seq<Delivery>, session: Session): nat {
    if log == [] then 0
    else SentElsewhere(log[..|log| - 1], session) + (if log[|log| - 1].session == session then 0 else 1)
  }

  lemma {:induction false} LogSplits(log: seq<Delivery>, session: Session)
    ensures |log| == |SentTo(log, session)| + SentElsewhere(log, session)
  {
    if log != [] {
      LogSplits(log[..|log| - 1], session);
    }
  }

  lemma {:induction false} SentToMeans(log: seq<Delivery>, session: Session, frame: Frame)
    ensures frame in SentTo(log, session) <==> Delivery(session, frame) in log
  {
    if log != [] {
      SentToMeans(log[..|log| - 1], session, frame);
      assert log == log[..|log| - 1] + [log[|log| - 1]];
    }
  }

  /**
   With session and hub in step, a delivery log that meets what PUBLISH promises sends each connection exactly
   the frames due for the names it holds itself; it sends none exactly to those that do not hear the channel.
   */
  lemma {:induction false} PublishReaches(hub: Hub, connected: set<Session>, matches: (Bytes, Bytes) -> bool, channel: Bytes,
                       payload: Bytes, log: seq<Delivery>, session: Session)
    requires InStep(hub, connected) && session in connected
    requires forall d :: d in log <==> Owed(hub, matches, channel, payload, d)
    ensures forall f :: f in SentTo(log, session) <==> Due(session.Holds(), matches, channel, payload, f)
    ensures SentTo(log, session) == [] <==> !Hears(session.Holds(), matches, channel)
  {
    var held := session.Holds();
    assert Mirrors(hub.channels, session, held.channels) && Mirrors(hub.patterns, session, held.patterns);
    forall f
      ensures f in SentTo(log, session) <==> Due(held, matches, channel, payload, f)
    {
      SentToMeans(log, session, f);
      assert Delivery(session, f) in log <==> Owed(hub, matches, channel, payload, Delivery(session, f));
    }
    SomethingDue(held, matches, channel, payload);
    if SentTo(log, session) != [] {
      assert SentTo(log, session)[0] in SentTo(log, session);
    }
  }

  // ----- The frames on the wire

  /** A bulk string as it is sent. */
  function BulkText(bytes: Bytes): Bytes {
    Ascii("$") + Resp.Decimal(|bytes|) + Ascii("\r\n") + bytes + Ascii("\r\n")
  }

  lemma BulkOnWire(bytes: Bytes)
    ensures Resp.Encode(Resp.Bulk(bytes)) == BulkText(bytes)
  {
    hide Resp.Encode, Ascii, Resp.Decimal;
    Wire.Literals();
    Resp.EncodeBulk(bytes);
  }

  lemma WordOnWire(word: string, length: string)
    requires word in ["message", "pmessage", "subscribe", "psubscribe", "unsubscribe", "punsubscribe"]
    requires length == match |word| case 7 => "7" case 8 => "8" case 9 => "9" case 10 => "10" case 11 => "11" case _ => "12"
    ensures Resp.Encode(Resp.Bulk(Ascii(word))) ==
            Ascii("$") + Ascii(length) + Ascii("\r\n") + Ascii(word) + Ascii("\r\n")
  {
    BulkOnWire(Ascii(word));
    DecimalLengths();
    assert |Ascii(word)| == |word|;
    hide Ascii, Resp.Decimal, Resp.Encode;
  }

  lemma DecimalLengths()
    ensures Resp.Decimal(7) == Ascii("7") && Resp.Decimal(8) == Ascii("8") && Resp.Decimal(9) == Ascii("9")
    ensures Resp.Decimal(10) == Ascii("10") && Resp.Decimal(11) == Ascii("11") && Resp.Decimal(12) == Ascii("12")
    ensures Resp.Decimal(3) == Ascii("3") && Resp.Decimal(4) == Ascii("4")
  {
    assert Resp.Decimal(1) == [49];
  }

  lemma ThreeOnWire(a: Frame, b: Frame, c: Frame)
    ensures Resp.Encode(Resp.Array([a, b, c])) ==
            Ascii("*") + Ascii("3") + Ascii("\r\n") + Resp.Encode(a) + Resp.Encode(b) + Resp.Encode(c)
  {
    hide Resp.Encode, Ascii, Resp.Decimal;
    Wire.Literals();
    DecimalLengths();
    Resp.EncodeArray([a, b, c]);
    AllOfThree(a, b, c);
  }

  lemma {:induction false} AllAppend(frames: seq<Frame>, last: Frame)
    ensures Resp.EncodeAll(frames + [last]) == Resp.EncodeAll(frames) + Resp.Encode(last)
  {
    hide Resp.Encode;
    if frames == [] {
      assert [last][1..] == [];
      assert frames + [last] == [last];
    } else {
      AllAppend(frames[1..], last);
      assert (frames + [last])[1..] == frames[1..] + [last];
    }
  }

  lemma AllOfThree(a: Frame, b: Frame, c: Frame)
    ensures Resp.EncodeAll([a, b, c]) == Resp.Encode(a) + Resp.Encode(b) + Resp.Encode(c)
    ensures forall d :: Resp.EncodeAll([a, b, c, d]) == Resp.Encode(a) + Resp.Encode(b) + Resp.Encode(c) + Resp.Encode(d)
  {
    hide Resp.Encode;
    assert [a, b, c] == [a, b] + [c];
    AllAppend([a, b], c);
    assert [a, b] == [a] + [b];
    AllAppend([a], b);
    AllAppend([], a);
    assert [] + [a] == [a];
    forall d: Frame
      ensures Resp.EncodeAll([a, b, c, d]) == Resp.Encode(a) + Resp.Encode(b) + Resp.Encode(c) + Resp.Encode(d)
    {
      assert [a, b, c, d] == [a, b, c] + [d];
      AllAppend([a, b, c], d);
    }
  }

  /** A message is the word, the channel and the payload, in this order. */
  lemma MessageOnWire(channel: Bytes, payload: Bytes)
    ensures Resp.Encode(MessageFrame(channel, payload)) ==
            Ascii("*") + Ascii("3") + Ascii("\r\n")
            + (Ascii("$") + Ascii("7") + Ascii("\r\n") + Ascii("message") + Ascii("\r\n"))
            + BulkText(channel) + BulkText(payload)
  {
    hide Resp.Encode, Ascii, BulkText;
    WordOnWire("message", "7");
    BulkOnWire(channel);
    BulkOnWire(payload);
    ThreeOnWire(Resp.Bulk(Ascii("message")), Resp.Bulk(channel), Resp.Bulk(payload));
  }

  /** A message that matched a pattern names the pattern before the channel. */
  lemma PatternMessageOnWire(pattern: Bytes, channel: Bytes, payload: Bytes)
    ensures Resp.Encode(PatternFrame(pattern, channel, payload)) ==
            Ascii("*") + Ascii("4") + Ascii("\r\n")
            + (Ascii("$") + Ascii("8") + Ascii("\r\n") + Ascii("pmessage") + Ascii("\r\n"))
            + BulkText(pattern) + BulkText(channel) + BulkText(payload)
  {
    hide Resp.Encode, Ascii, BulkText, Resp.Decimal;
    var word := Resp.Bulk(Ascii("pmessage"));
    WordOnWire("pmessage", "8");
    BulkOnWire(pattern);
    BulkOnWire(channel);
    BulkOnWire(payload);
    Wire.Literals();
    DecimalLengths();
    Resp.EncodeArray([word, Resp.Bulk(pattern), Resp.Bulk(channel), Resp.Bulk(payload)]);
    AllOfThree(word, Resp.Bulk(pattern), Resp.Bulk(channel));
  }

  /** The words of the four commands. */
  lemma Verbs()
    ensures JoinVerb(Channels) == "subscribe" && JoinVerb(Patterns) == "psubscribe"
    ensures LeaveVerb(Channels) == "unsubscribe" && LeaveVerb(Patterns) == "punsubscribe"
  {
  }

  /** A confirmation is the command's word, the name or a null, and the number of names then held. */
  lemma {:induction false} ConfirmationOnWire(verb: string, length: string, name: Option<Bytes>, count: nat)
    requires (verb == "subscribe" && length == "9") || (verb == "psubscribe" && length == "10")
             || (verb == "unsubscribe" && length == "11") || (verb == "punsubscribe" && length == "12")
    ensures var frame := Confirmation(verb, if name.Some? then Resp.Bulk(name.value) else Resp.Nil, count);
            Resp.Encode(frame) ==
            Ascii("*") + Ascii("3") + Ascii("\r\n")
            + (Ascii("$") + Ascii(length) + Ascii("\r\n") + Ascii(verb) + Ascii("\r\n"))
            + (if name.Some? then BulkText(name.value) else Ascii("$-1\r\n"))
            + (Ascii(":") + Resp.Decimal(count) + Ascii("\r\n"))
  {
    hide Resp.Encode, Ascii, BulkText, Resp.Decimal;
    var second := if name.Some? then Resp.Bulk(name.value) else Resp.Nil;
    WordOnWire(verb, length);
    if name.Some? {
      BulkOnWire(name.value);
    }
    Wire.Literals();
    Wire.LiteralLines();
    Resp.EncodeLine(Resp.Nil);
    Resp.EncodeLine(Resp.Integer(count));
    ThreeOnWire(Resp.Bulk(Ascii(verb)), second, Resp.Integer(count));
  }

  lemma {:induction false} AscendingSize(order: seq<Bytes>)
    requires Ascending(order)
    ensures |NamesIn(order)| == |order|
  {
    if order != [] {
      AscendingRest(order);
      AscendingSize(order[1..]);
      assert order[0] in NamesIn(order);
      assert Ascending(order[1..]);
    }
  }

  lemma PrefixSize(order: seq<Bytes>, k: nat)
    requires Ascending(order) && k <= |order|
    ensures NamesIn(order[..k]) <= NamesIn(order) && |NamesIn(order) - NamesIn(order[..k])| == |order| - k
  {
    AscendingSize(order);
    AscendingSize(order[..k]);
    var all, some := NamesIn(order), NamesIn(order[..k]);
    assert some <= all;
    assert all == some + (all - some);
  }

  lemma LeaveCount(side: Side, held: Held, order: seq<Bytes>, k: nat)
    requires Ascending(order) && NamesIn(order) == held.Of(side) && k < |order|
    ensures |order| == |held.Of(side)|
    ensures DroppedAt(LeaveVerb(side), order, k, held.Of(side), |held.Of(Other(side))|) ==
            Confirmation(LeaveVerb(side), Resp.Bulk(order[k]), held.Total() - (k + 1))
  {
    hide Confirmation, Ascending, NamesIn;
    PrefixSize(order, k + 1);
    AscendingSize(order);
  }

  /**
   Leaving everything: the names held are confirmed in byte order, and the counts run down to what is held on the
   other side.
   */
  lemma LeavingEverything(side: Side, held: Held) returns (order: seq<Bytes>)
    requires held.Of(side) != {}
    ensures Ascending(order) && NamesIn(order) == held.Of(side)
    ensures var frames := LeaveFrames(side, held, []);
            && |frames| == |order| == |held.Of(side)|
            && forall k :: 0 <= k < |order| ==>
                 frames[k] == Confirmation(LeaveVerb(side), Resp.Bulk(order[k]), held.Total() - (k + 1))
  {
    order := Sorted(held.Of(side));
    NothingHeld(order, held.Of(side));
    hide Ascending, Confirmation, NamesIn, DroppedAt;
    assert LeaveOrder(side, held, []) == order;
    var frames := Dropped(LeaveVerb(side), order, held.Of(side), |held.Of(Other(side))|);
    assert LeaveFrames(side, held, []) == frames;
    hide Sorted, LeaveFrames, LeaveOrder;
    LeaveCount(side, held, order, 0);
    forall k | 0 <= k < |order|
      ensures frames[k] == Confirmation(LeaveVerb(side), Resp.Bulk(order[k]), held.Total() - (k + 1))
    {
      LeaveCount(side, held, order, k);
    }
  }

  /** The pattern is matched against the channel, and whoever holds a pattern that matches is owed the message under it. */
  lemma HolderIsOwed(hub: Hub, matches: (Bytes, Bytes) -> bool, name: Bytes, channel: Bytes, payload: Bytes, session: Session)
    ensures session in Subscribers(hub.channels, channel) ==>
              Owed(hub, matches, channel, payload, Delivery(session, MessageFrame(channel, payload)))
    ensures session in Subscribers(hub.patterns, name) && matches(name, channel) ==>
              Owed(hub, matches, channel, payload, Delivery(session, PatternFrame(name, channel, payload)))
  {
  }
}
