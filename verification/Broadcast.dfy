/**
 Total-order broadcast. A publication is begun, visits the entries of its list one by one, and ends; the
 broker's mutex keeps out other publications and subscriptions meanwhile, and nothing else. Direct
 deliveries, dequeues and the expiry of tasks may fall between any two visits.
 */
module Broadcast {
  import opened Messages
  import opened Sequences
  import opened StableQueue
  import opened Broker

  /** What waits in a queue; a publication's copies carry its place in the order of publications. */
  datatype Entry = Entry(stamp: Option<nat>, msg: Msg)

  /** One publication and the tasks whose queues it has reached so far. */
  datatype Send = Send(msg: Msg, recipients: set<TaskId>)

  /** fan: the position of the publication in progress, the last of the log, in its list. */
  datatype Net = Net(
    lists: map<nat, seq<TaskId>>,
    live: set<TaskId>,
    mail: map<TaskId, seq<Entry>>,
    handled: map<TaskId, seq<Entry>>,
    log: seq<Send>,
    fan: Option<nat>)

  datatype Action =
    | Create(task: TaskId)
    | Expire(task: TaskId)
    | Subscribe(task: TaskId, ty: nat)
    | Begin(msg: Msg)
    | Visit
    | End
    | Direct(task: TaskId, msg: Msg)
    | Handle(task: TaskId)

  function List(s: Net, ty: nat): seq<TaskId> {
    if ty in s.lists then s.lists[ty] else []
  }

  function Current(s: Net): Send
    requires s.log != []
  {
    s.log[|s.log| - 1]
  }

  /** The list that the publication in progress runs through. */
  function FanList(s: Net): seq<TaskId> {
    if s.log == [] then [] else List(s, Current(s).msg.Type())
  }

  function Unwrap(q: seq<Entry>): (r: seq<Msg>)
    ensures |r| == |q|
    ensures forall i :: 0 <= i < |q| ==> r[i] == q[i].msg
  {
    seq(|q|, i requires 0 <= i < |q| => q[i].msg)
  }

  const INITIAL := Net(map[], {}, map[], map[], [], None)

  predicate Enabled(s: Net, a: Action) {
    match a
    case Create(t) => forall ty :: ty in s.lists ==> t !in s.lists[ty]
    case Expire(_) => true
    case Subscribe(t, _) => t in s.live && s.fan == None
    case Begin(_) => s.fan == None
    case Visit => s.fan.Some? && s.fan.value < |FanList(s)|
    case End => s.fan.Some? && s.fan.value == |FanList(s)|
    case Direct(_, _) => true
    case Handle(t) => Box(s.mail, t) != []
  }

  /** Deliver to the entry and go on, or erase it. */
  function Visited(s: Net): Net
    requires Enabled(s, Visit)
  {
    var list, it, m := FanList(s), s.fan.value, Current(s).msg;
    if list[it] in s.live then
      s.(mail := Deliver(s.mail, list[it], Entry(Some(|s.log| - 1), m)),
         log := s.log[|s.log| - 1 := Send(m, Current(s).recipients + {list[it]})],
         fan := Some(it + 1))
    else
      s.(lists := s.lists[m.Type() := RemoveAt(list, it)])
  }

  /** t handles the k-th of its waiting entries. */
  function Served(s: Net, t: TaskId, k: nat): Net
    requires k < |Box(s.mail, t)|
  {
    s.(mail := s.mail[t := RemoveAt(Box(s.mail, t), k)],
       handled := s.handled[t := Box(s.handled, t) + [Box(s.mail, t)[k]]])
  }

  function Next(s: Net, a: Action): Net
    requires Enabled(s, a)
  {
    match a
    case Create(t) => s.(live := s.live + {t})
    case Expire(t) => s.(live := s.live - {t})
    case Subscribe(t, ty) =>
      if t in List(s, ty) then s else s.(lists := s.lists[ty := List(s, ty) + [t]])
    case Begin(m) => s.(log := s.log + [Send(m, {})], fan := Some(0))
    case Visit => Visited(s)
    case End => s.(fan := None)
    case Direct(t, m) => s.(mail := Deliver(s.mail, t, Entry(None, m)))
    case Handle(t) => Served(s, t, Pick(Unwrap(Box(s.mail, t))))
  }

  ghost predicate Run(states: seq<Net>, acts: seq<Action>) {
    && |states| == |acts| + 1
    && states[0] == INITIAL
    && forall i :: 0 <= i < |acts| ==> Enabled(states[i], acts[i]) && states[i + 1] == Next(states[i], acts[i])
  }

  lemma RunAppend(states: seq<Net>, acts: seq<Action>, a: Action)
    requires Run(states, acts) && Enabled(states[|acts|], a)
    ensures Run(states + [Next(states[|acts|], a)], acts + [a])
  {
    hide Enabled, Next;
  }

  lemma RunStep(states: seq<Net>, acts: seq<Action>, k: nat)
    requires Run(states, acts)
    ensures |states| == |acts| + 1 && states[0] == INITIAL
    ensures k < |acts| ==> Enabled(states[k], acts[k]) && states[k + 1] == Next(states[k], acts[k])
  {
  }

  // ---- the fan-out in progress ----

  /** Lists have no duplicates, and the publication in progress has reached the entries before its position. */
  ghost predicate FanInv(s: Net) {
    && (forall ty :: ty in s.lists ==> NoDuplicates(s.lists[ty]))
    && (s.fan.Some? ==>
          && s.log != [] && s.fan.value <= |FanList(s)|
          && forall t :: t in Current(s).recipients <==> t in FanList(s)[..s.fan.value])
  }

  lemma VisitKeeps(s: Net)
    requires FanInv(s) && Enabled(s, Visit)
    ensures FanInv(Visited(s))
  {
    var list, it := FanList(s), s.fan.value;
    Erased(list, it);
    RemoveAtNoDuplicates(list, it);
    assert list[..it + 1] == list[..it] + [list[it]];
  }

  lemma FanKept(s: Net, a: Action)
    requires FanInv(s) && Enabled(s, a)
    ensures FanInv(Next(s, a))
  {
    if a == Visit { VisitKeeps(s); }
    hide Visited;
  }

  lemma {:induction false} AlwaysFan(states: seq<Net>, acts: seq<Action>, i: nat)
    requires Run(states, acts) && i < |states|
    ensures FanInv(states[i])
  {
    if i > 0 {
      AlwaysFan(states, acts, i - 1);
      FanKept(states[i - 1], acts[i - 1]);
    }
  }

  /** The entry at the position of a publication has not been reached by it yet. */
  lemma NotYetReached(s: Net)
    requires FanInv(s) && Enabled(s, Visit)
    ensures FanList(s)[s.fan.value] !in Current(s).recipients
  {
  }

  // ---- one task's queue and history, priority by priority ----

  function Published(p: nat): Entry -> bool {
    (e: Entry) => e.stamp.Some? && e.msg.Priority() == p
  }

  /** The publications of priority p that have reached t, in the order of publication. */
  function Reached(log: seq<Send>, t: TaskId, p: nat): seq<Entry> {
    if log == [] then []
    else
      var n := |log| - 1;
      Reached(log[..n], t, p) +
      if t in log[n].recipients && log[n].msg.Priority() == p then [Entry(Some(n), log[n].msg)] else []
  }

  /** Of each priority, what t handled and then what waits in its queue is what has reached it, in order. */
  ghost predicate InOrder(s: Net, t: TaskId, p: nat) {
    Filter(Published(p), Box(s.handled, t)) + Filter(Published(p), Box(s.mail, t)) == Reached(s.log, t, p)
  }

  lemma DeliveredInOrder(log: seq<Send>, t: TaskId, p: nat, to: TaskId)
    requires log != [] && to !in log[|log| - 1].recipients
    ensures var n := |log| - 1;
            var more := log[n := Send(log[n].msg, log[n].recipients + {to})];
            var e := Entry(Some(n), log[n].msg);
            Reached(more, t, p) == Reached(log, t, p) + if t == to && Published(p)(e) then [e] else []
  {
    var n := |log| - 1;
    var more := log[n := Send(log[n].msg, log[n].recipients + {to})];
    assert more[..n] == log[..n];
  }

  lemma BegunInOrder(log: seq<Send>, t: TaskId, p: nat, m: Msg)
    ensures Reached(log + [Send(m, {})], t, p) == Reached(log, t, p)
  {
    assert (log + [Send(m, {})])[..|log|] == log;
  }

  lemma VisitInOrder(s: Net, t: TaskId, p: nat)
    requires FanInv(s) && Enabled(s, Visit) && InOrder(s, t, p)
    ensures InOrder(Visited(s), t, p)
  {
    hide Reached, Filter;
    NotYetReached(s);
    DeliveredInOrder(s.log, t, p, FanList(s)[s.fan.value]);
    FilterAppend(Published(p), Box(s.mail, t), Entry(Some(|s.log| - 1), Current(s).msg));
    hide FanInv, RemoveAt;
  }

  /** The queue serves the first of the highest priority, so no earlier entry has the priority of the one served. */
  lemma ServedFirst(f: Entry -> bool, p: nat, box: seq<Entry>)
    requires box != [] && forall e :: f(e) ==> e.msg.Priority() == p
    ensures var k := Pick(Unwrap(box));
            Filter(f, box) == (if f(box[k]) then [box[k]] else []) + Filter(f, RemoveAt(box, k))
  {
    var k := Pick(Unwrap(box));
    assert forall j :: 0 <= j < k ==> Unwrap(box)[j].Priority() < Unwrap(box)[k].Priority();
    FilterRemoveAt(f, box, k);
  }

  lemma HandleInOrder(s: Net, t: TaskId, p: nat)
    requires Enabled(s, Handle(t)) && InOrder(s, t, p)
    ensures InOrder(Next(s, Handle(t)), t, p)
  {
    assert forall e :: Published(p)(e) ==> e.msg.Priority() == p;
    hide Reached, Filter, Pick, RemoveAt, Published, Unwrap;
    var box, done := Box(s.mail, t), Box(s.handled, t);
    ServedFirst(Published(p), p, box);
    MovedAcross(Published(p), done, box, Pick(Unwrap(box)));
  }

  lemma InOrderKept(s: Net, a: Action, t: TaskId, p: nat)
    requires FanInv(s) && Enabled(s, a) && InOrder(s, t, p)
    ensures InOrder(Next(s, a), t, p)
  {
    hide Reached, Filter, FanInv;
    match a {
      case Begin(m) => BegunInOrder(s.log, t, p, m);
      case Visit => VisitInOrder(s, t, p);
      case Direct(u, m) => FilterAppend(Published(p), Box(s.mail, t), Entry(None, m));
      case Handle(u) => if u == t { HandleInOrder(s, t, p); }
      case _ =>
    }
  }

  lemma InitiallyInOrder(t: TaskId, p: nat)
    ensures InOrder(INITIAL, t, p)
  {
  }

  lemma {:induction false} Always(states: seq<Net>, acts: seq<Action>, i: nat, t: TaskId, p: nat)
    requires Run(states, acts) && i < |states|
    ensures InOrder(states[i], t, p)
  {
    hide Run, Enabled, Next, FanInv, InOrder;
    RunStep(states, acts, 0);
    InitiallyInOrder(t, p);
    if i > 0 {
      RunStep(states, acts, i - 1);
      Always(states, acts, i - 1, t, p);
      AlwaysFan(states, acts, i - 1);
      InOrderKept(states[i - 1], acts[i - 1], t, p);
    }
  }

  // ---- everything that arrives at a task, published or direct ----

  /** What a step puts into t's queue. */
  function Arrival(s: Net, a: Action, t: TaskId): seq<Entry> {
    match a
    case Direct(u, m) => if u == t then [Entry(None, m)] else []
    case Visit =>
      if Enabled(s, Visit) && FanList(s)[s.fan.value] == t && t in s.live
      then [Entry(Some(|s.log| - 1), Current(s).msg)] else []
    case _ => []
  }

  /** All that has arrived at t, in order of arrival. */
  function Arrivals(states: seq<Net>, acts: seq<Action>, i: nat, t: TaskId): seq<Entry>
    requires i <= |acts| && |states| == |acts| + 1
  {
    if i == 0 then [] else Arrivals(states, acts, i - 1, t) + Arrival(states[i - 1], acts[i - 1], t)
  }

  /** The messages delivered directly to t, read off the actions. */
  function DirectTo(acts: seq<Action>, i: nat, t: TaskId): seq<Msg>
    requires i <= |acts|
  {
    if i == 0 then []
    else DirectTo(acts, i - 1, t) + if acts[i - 1].Direct? && acts[i - 1].task == t then [acts[i - 1].msg] else []
  }

  function WithPriority(p: nat): Entry -> bool {
    (e: Entry) => e.msg.Priority() == p
  }

  /** The step leaves t's queue alone but for what arrives, or moves the one served from the queue to the history. */
  lemma StepMoves(s: Net, a: Action, t: TaskId)
    requires Enabled(s, a)
    ensures var done, box := Box(s.handled, t), Box(s.mail, t);
            var done', box' := Box(Next(s, a).handled, t), Box(Next(s, a).mail, t);
            if a == Handle(t) then
              && box != [] && Arrival(s, a, t) == []
              && var k := Pick(Unwrap(box)); done' == done + [box[k]] && box' == RemoveAt(box, k)
            else done' == done && box' == box + Arrival(s, a, t)
  {
    hide RemoveAt, Pick, Unwrap;
  }

  lemma ArrivalKept(s: Net, a: Action, t: TaskId, f: Entry -> bool, p: nat)
    requires Enabled(s, a) && forall e :: f(e) ==> e.msg.Priority() == p
    ensures Filter(f, Box(Next(s, a).handled, t)) + Filter(f, Box(Next(s, a).mail, t)) ==
            Filter(f, Box(s.handled, t)) + Filter(f, Box(s.mail, t)) + Filter(f, Arrival(s, a, t))
  {
    var done, box := Box(s.handled, t), Box(s.mail, t);
    StepMoves(s, a, t);
    hide Next, Enabled, Arrival, Filter, RemoveAt;
    if a == Handle(t) {
      ServedFirst(f, p, box);
      MovedAcross(f, done, box, Pick(Unwrap(box)));
      NoneMatch(f);
    } else {
      FilterConcat(f, box, Arrival(s, a, t));
      Regroup(Filter(f, done), Filter(f, box), Filter(f, Arrival(s, a, t)));
    }
  }

  /** Of each priority, what t handled and then what waits is all that has arrived at it, in order of arrival. */
  lemma {:induction false} HandledAsArrived(states: seq<Net>, acts: seq<Action>, i: nat, t: TaskId, p: nat)
    requires Run(states, acts) && i < |states|
    ensures Filter(WithPriority(p), Box(states[i].handled, t)) + Filter(WithPriority(p), Box(states[i].mail, t)) ==
            Filter(WithPriority(p), Arrivals(states, acts, i, t))
  {
    var f := WithPriority(p);
    assert forall e :: f(e) ==> e.msg.Priority() == p;
    hide Run, Enabled, Next, Filter, WithPriority;
    RunStep(states, acts, 0);
    NoneMatch(f);
    if i > 0 {
      RunStep(states, acts, i - 1);
      HandledAsArrived(states, acts, i - 1, t, p);
      ArrivalKept(states[i - 1], acts[i - 1], t, f, p);
      FilterConcat(f, Arrivals(states, acts, i - 1, t), Arrival(states[i - 1], acts[i - 1], t));
    }
  }

  lemma MoveKeepsAll<T>(done: seq<T>, box: seq<T>, k: nat)
    requires k < |box|
    ensures multiset(done + [box[k]] + RemoveAt(box, k)) == multiset(done + box)
  {
    RemoveAtMultiset(box, k);
  }

  lemma AllKept(s: Net, a: Action, t: TaskId)
    requires Enabled(s, a)
    ensures multiset(Box(Next(s, a).handled, t) + Box(Next(s, a).mail, t)) ==
            multiset(Box(s.handled, t) + Box(s.mail, t)) + multiset(Arrival(s, a, t))
  {
    StepMoves(s, a, t);
    hide Next, Enabled, Arrival, RemoveAt;
    if a == Handle(t) { MoveKeepsAll(Box(s.handled, t), Box(s.mail, t), Pick(Unwrap(Box(s.mail, t)))); }
  }

  lemma ArrivesDirectly(s: Net, a: Action, t: TaskId, m: Msg)
    ensures multiset(Arrival(s, a, t))[Entry(None, m)] == if a == Direct(t, m) then 1 else 0
  {
  }

  /** Direct deliveries are neither lost nor invented: a task has handled or holds each of them, as often as sent. */
  lemma {:induction false} DirectsKept(states: seq<Net>, acts: seq<Action>, i: nat, t: TaskId, m: Msg)
    requires Run(states, acts) && i < |states|
    ensures multiset(Box(states[i].handled, t) + Box(states[i].mail, t))[Entry(None, m)] ==
            multiset(DirectTo(acts, i, t))[m]
  {
    hide Run, Enabled, Next, Arrival;
    RunStep(states, acts, 0);
    if i > 0 {
      RunStep(states, acts, i - 1);
      DirectsKept(states, acts, i - 1, t, m);
      AllKept(states[i - 1], acts[i - 1], t);
      ArrivesDirectly(states[i - 1], acts[i - 1], t, m);
    }
  }

  // ---- the remaining fields, from the actions alone ----

  /** A task is alive if it was created and has not expired since. */
  lemma {:induction false} LiveIff(states: seq<Net>, acts: seq<Action>, i: nat, t: TaskId)
    requires Run(states, acts) && i < |states|
    ensures t in states[i].live <==>
            exists c :: 0 <= c < i && acts[c] == Create(t) && forall k :: c < k < i ==> acts[k] != Expire(t)
  {
    hide Run;
    RunStep(states, acts, 0);
    if i > 0 {
      RunStep(states, acts, i - 1);
      LiveIff(states, acts, i - 1, t);
      assert t in states[i].live <==>
             acts[i - 1] == Create(t) || (t in states[i - 1].live && acts[i - 1] != Expire(t));
      hide Next, Enabled;
    }
  }

  /** A publication is in progress if one was begun and none has ended since; otherwise another one may begin. */
  lemma {:induction false} FanIff(states: seq<Net>, acts: seq<Action>, i: nat)
    requires Run(states, acts) && i < |states|
    ensures states[i].fan.Some? <==>
            exists b :: 0 <= b < i && acts[b].Begin? && forall k :: b < k < i ==> acts[k] != End
  {
    hide Run;
    RunStep(states, acts, 0);
    if i > 0 {
      RunStep(states, acts, i - 1);
      FanIff(states, acts, i - 1);
      assert states[i].fan.Some? <==> acts[i - 1].Begin? || (states[i - 1].fan.Some? && acts[i - 1] != End);
      hide Next, Enabled;
    }
  }

  function BegunMsgs(acts: seq<Action>, i: nat): seq<Msg>
    requires i <= |acts|
  {
    if i == 0 then [] else BegunMsgs(acts, i - 1) + if acts[i - 1].Begin? then [acts[i - 1].msg] else []
  }

  function Logged(log: seq<Send>): (r: seq<Msg>)
    ensures |r| == |log|
    ensures forall n :: 0 <= n < |log| ==> r[n] == log[n].msg
  {
    seq(|log|, n requires 0 <= n < |log| => log[n].msg)
  }

  lemma LogStep(s: Net, a: Action)
    requires Enabled(s, a)
    ensures Logged(Next(s, a).log) == Logged(s.log) + if a.Begin? then [a.msg] else []
  {
  }

  /** The order of publication is the order in which publications were begun. */
  lemma {:induction false} LogIsBegun(states: seq<Net>, acts: seq<Action>, i: nat)
    requires Run(states, acts) && i < |states|
    ensures Logged(states[i].log) == BegunMsgs(acts, i)
  {
    hide Run;
    RunStep(states, acts, 0);
    if i > 0 {
      RunStep(states, acts, i - 1);
      LogIsBegun(states, acts, i - 1);
      LogStep(states[i - 1], acts[i - 1]);
      hide Next, Enabled, Logged;
    }
  }

  // ---- a publication that nothing interrupts ----

  function VisitAll(s: Net): Net
    decreases |FanList(s)| - if s.fan.Some? then s.fan.value else 0
  {
    if Enabled(s, Visit) then VisitAll(Visited(s)) else s
  }

  /** What the visits from position it on leave in the list and in the queues. */
  ghost predicate Finishes(s: Net, s': Net) {
    && s.fan.Some? && s.log != [] && s.fan.value <= |FanList(s)|
    && Enabled(s', End)
    && s'.log != [] && Current(s').msg == Current(s).msg
    && FanList(s') == FanList(s)[..s.fan.value] + Live(FanList(s)[s.fan.value..], s.live)
    && s'.mail ==
       FanOut(s.mail, Live(FanList(s)[s.fan.value..], s.live), Entry(Some(|s.log| - 1), Current(s).msg))
  }

  lemma VisitOne(s: Net)
    requires FanInv(s) && Enabled(s, Visit)
    ensures var list, it, s' := FanList(s), s.fan.value, Visited(s);
            && s'.live == s.live && |s'.log| == |s.log| && Current(s').msg == Current(s).msg
            && if list[it] in s.live then
                 && FanList(s') == list && s'.fan == Some(it + 1)
                 && s'.mail == Deliver(s.mail, list[it], Entry(Some(|s.log| - 1), Current(s).msg))
               else
                 FanList(s') == RemoveAt(list, it) && s'.fan == s.fan && s'.mail == s.mail
  {
  }

  lemma FanOutFirst<T>(mail: map<TaskId, seq<T>>, t: TaskId, to: seq<TaskId>, x: T)
    ensures FanOut(mail, [t] + to, x) == FanOut(Deliver(mail, t, x), to, x)
    ensures [] + to == to
  {
    assert ([t] + to)[1..] == to;
  }

  lemma FinishesFrom(s: Net, s': Net)
    requires FanInv(s) && Enabled(s, Visit) && Finishes(Visited(s), s')
    ensures Finishes(s, s')
  {
    hide FanInv, Visited, Live, Filter, Deliver, FanList, RemoveAt, FanOut, List;
    var list, it, live := FanList(s), s.fan.value, s.live;
    VisitOne(s);
    LiveFrom(list, it, live);
    Erased(list, it);
    FanOutFirst(s.mail, list[it], Live(list[it + 1..], live), Entry(Some(|s.log| - 1), Current(s).msg));
    assert list[..it + 1] == list[..it] + [list[it]];
  }

  lemma {:induction false} VisitAllFrom(s: Net)
    requires FanInv(s) && s.fan.Some?
    ensures Finishes(s, VisitAll(s))
    decreases |FanList(s)| - s.fan.value
  {
    var list, it := FanList(s), s.fan.value;
    if it == |list| {
      LiveNone(s.live);
      assert list[..it] == list && list[it..] == [];
    } else {
      VisitOne(s);
      VisitKeeps(s);
      hide Finishes, FanInv, Visited, RemoveAt;
      VisitAllFrom(Visited(s));
      FinishesFrom(s, VisitAll(s));
    }
  }

  lemma FanListIs(s: Net)
    requires s.log != []
    ensures FanList(s) == List(s, Current(s).msg.Type())
  {
  }

  lemma BeginStarts(s: Net, m: Msg)
    requires FanInv(s) && s.fan == None
    ensures var begun := Next(s, Begin(m));
            && FanList(begun) == List(s, m.Type()) && begun.live == s.live && begun.mail == s.mail
            && begun.fan == Some(0) && |begun.log| == |s.log| + 1 && Current(begun).msg == m
    ensures NoDuplicates(List(s, m.Type()))
  {
  }

  /** With nothing in between, the visits do what the broker's publish promises as one call. */
  lemma UninterruptedPublish(s: Net, m: Msg, t: TaskId)
    requires FanInv(s) && s.fan == None
    ensures var list, e := List(s, m.Type()), Entry(Some(|s.log|), m);
            var s' := VisitAll(Next(s, Begin(m)));
            && List(s', m.Type()) == Live(list, s.live)
            && Box(s'.mail, t) == if t in s.live && t in list then Box(s.mail, t) + [e] else Box(s.mail, t)
  {
    FanKept(s, Begin(m));
    var begun, list := Next(s, Begin(m)), List(s, m.Type());
    BeginStarts(s, m);
    hide List, FanList, Live, Filter, FanOut, Deliver, VisitAll, NoDuplicates, FanInv, Next, Enabled;
    VisitAllFrom(begun);
    assert list[0..] == list && list[..0] == [];
    LiveNoDuplicates(list, s.live);
    FanOutOnce(s.mail, Live(list, s.live), Entry(Some(|s.log|), m), t);
    assert FanList(VisitAll(begun)) == [] + Live(list, s.live) == Live(list, s.live);
    assert FanList(VisitAll(begun)) == List(VisitAll(begun), m.Type()) by { FanListIs(VisitAll(begun)); }
  }

  // ---- the order in which tasks handle publications ----

  /** What t has handled of one priority is a prefix of the publications that have reached it, in publication order. */
  lemma HandledIsPrefix(states: seq<Net>, acts: seq<Action>, i: nat, t: TaskId, p: nat)
    requires Run(states, acts) && i < |states|
    ensures Filter(Published(p), Box(states[i].handled, t)) <= Reached(states[i].log, t, p)
  {
    Always(states, acts, i, t, p);
  }

  /** The copy is of a publication that also reached t. */
  function AlsoReached(log: seq<Send>, t: TaskId): Entry -> bool {
    (e: Entry) => e.stamp.Some? && e.stamp.value < |log| && t in log[e.stamp.value].recipients
  }

  /** The publications of priority p that a has handled and that reached b too, in the order a handled them. */
  function CommonHandled(s: Net, a: TaskId, b: TaskId, p: nat): seq<Entry> {
    Filter(AlsoReached(s.log, b), Filter(Published(p), Box(s.handled, a)))
  }

  lemma ReachedNext(log: seq<Send>, n: nat, t: TaskId, p: nat)
    requires n < |log|
    ensures Reached(log[..n + 1], t, p) ==
            if t in log[n].recipients && log[n].msg.Priority() == p
            then Reached(log[..n], t, p) + [Entry(Some(n), log[n].msg)] else Reached(log[..n], t, p)
  {
    assert log[..n + 1][..n] == log[..n];
  }

  /** Whether it is a's or b's list that is narrowed to the other, what is left is the same. */
  lemma {:induction false} CommonReached(log: seq<Send>, n: nat, a: TaskId, b: TaskId, p: nat)
    requires n <= |log|
    ensures Filter(AlsoReached(log, b), Reached(log[..n], a, p)) == Filter(AlsoReached(log, a), Reached(log[..n], b, p))
  {
    if n > 0 {
      CommonReached(log, n - 1, a, b, p);
      assert log[..n][..n - 1] == log[..n - 1];
      ReachedNext(log, n - 1, a, p);
      ReachedNext(log, n - 1, b, p);
      hide Filter, Reached;
      var e := Entry(Some(n - 1), log[n - 1].msg);
      FilterAppend(AlsoReached(log, b), Reached(log[..n - 1], a, p), e);
      FilterAppend(AlsoReached(log, a), Reached(log[..n - 1], b, p), e);
    }
  }

  lemma PrefixFiltered<T>(f: T -> bool, x: seq<T>, whole: seq<T>)
    requires x <= whole
    ensures Filter(f, x) <= Filter(f, whole)
  {
    FilterConcat(f, x, whole[|x|..]);
    assert whole == x + whole[|x|..];
  }

  lemma PrefixesCompare<T>(x: seq<T>, y: seq<T>, whole: seq<T>)
    requires x <= whole && y <= whole
    ensures x <= y || y <= x
  {
  }

  /**
   Any two tasks agree on the order of the publications that reached both: of each priority, the one that has
   handled fewer of them has handled the first ones of the other, in the same order.
   */
  lemma TotalOrder(states: seq<Net>, acts: seq<Action>, i: nat, a: TaskId, b: TaskId, p: nat)
    requires Run(states, acts) && i < |states|
    ensures var x, y := CommonHandled(states[i], a, b, p), CommonHandled(states[i], b, a, p);
            x <= y || y <= x
  {
    var log := states[i].log;
    HandledIsPrefix(states, acts, i, a, p);
    HandledIsPrefix(states, acts, i, b, p);
    hide Filter, Reached, Run;
    PrefixFiltered(AlsoReached(log, b), Filter(Published(p), Box(states[i].handled, a)), Reached(log, a, p));
    PrefixFiltered(AlsoReached(log, a), Filter(Published(p), Box(states[i].handled, b)), Reached(log, b, p));
    CommonReached(log, |log|, a, b, p);
    assert log[..|log|] == log;
    PrefixesCompare(CommonHandled(states[i], a, b, p), CommonHandled(states[i], b, a, p),
                    Filter(AlsoReached(log, b), Reached(log, a, p)));
  }

  // ---- exactly once ----

  lemma {:induction false} FilterCounts<T>(f: T -> bool, q: seq<T>, x: T)
    requires f(x)
    ensures multiset(Filter(f, q))[x] == multiset(q)[x]
  {
    if q != [] {
      FilterCounts(f, q[1..], x);
      assert q == [q[0]] + q[1..];
    }
  }

  lemma {:induction false} ReachedCounts(log: seq<Send>, t: TaskId, p: nat, e: Entry)
    ensures multiset(Reached(log, t, p))[e] ==
            if && Published(p)(e) && e.stamp.value < |log|
               && log[e.stamp.value].msg == e.msg && t in log[e.stamp.value].recipients then 1 else 0
  {
    if log != [] { ReachedCounts(log[..|log| - 1], t, p, e); }
  }

  /**
   In every run a task's queue and history together hold a copy of a publication exactly once if it reached the
   task and never otherwise, and every copy they hold is of a publication in the log.
   */
  lemma ExactlyOnce(states: seq<Net>, acts: seq<Action>, i: nat, t: TaskId, e: Entry)
    requires Run(states, acts) && i < |states| && e.stamp.Some?
    ensures var log, n := states[i].log, e.stamp.value;
            multiset(Box(states[i].handled, t) + Box(states[i].mail, t))[e] ==
            if n < |log| && log[n].msg == e.msg && t in log[n].recipients then 1 else 0
  {
    var p, done, box := e.msg.Priority(), Box(states[i].handled, t), Box(states[i].mail, t);
    Always(states, acts, i, t, p);
    FilterCounts(Published(p), done + box, e);
    FilterConcat(Published(p), done, box);
    ReachedCounts(states[i].log, t, p, e);
  }

  // ---- whom a publication reaches ----

  lemma StepKeepsListed(s: Net, a: Action, t: TaskId, ty: nat)
    requires Enabled(s, a) && t in s.live && t in List(s, ty)
    ensures t in List(Next(s, a), ty)
  {
    if a == Visit {
      var list, it := FanList(s), s.fan.value;
      assert list == list[..it] + [list[it]] + list[it + 1..];
    }
  }

  /** A subscription lasts as long as its task lives. */
  lemma {:induction false} StaysListed(states: seq<Net>, acts: seq<Action>, j: nat, i: nat, t: TaskId, ty: nat)
    requires Run(states, acts) && j < i < |states| && acts[j] == Subscribe(t, ty)
    requires forall k :: j < k < i ==> t in states[k].live
    ensures t in List(states[i], ty)
  {
    if i > j + 1 {
      StaysListed(states, acts, j, i - 1, t, ty);
      StepKeepsListed(states[i - 1], acts[i - 1], t, ty);
    }
  }

  lemma OnlySubscribeLists(s: Net, a: Action, t: TaskId, ty: nat)
    requires Enabled(s, a) && a != Subscribe(t, ty) && t in List(Next(s, a), ty)
    ensures t in List(s, ty)
  {
  }

  lemma {:induction false} ListedSubscribed(states: seq<Net>, acts: seq<Action>, i: nat, t: TaskId, ty: nat)
    returns (j: nat)
    requires Run(states, acts) && i < |states| && t in List(states[i], ty)
    ensures j < i && acts[j] == Subscribe(t, ty)
  {
    hide Run, Next, Enabled;
    RunStep(states, acts, 0);
    RunStep(states, acts, i - 1);
    if acts[i - 1] == Subscribe(t, ty) {
      j := i - 1;
    } else {
      OnlySubscribeLists(states[i - 1], acts[i - 1], t, ty);
      j := ListedSubscribed(states, acts, i - 1, t, ty);
    }
  }

  /** From its Begin to its End the publication in progress is the last of the log. */
  lemma {:induction false} FanOf(states: seq<Net>, acts: seq<Action>, b: nat, i: nat, m: Msg)
    requires Run(states, acts) && b < i < |states| && acts[b] == Begin(m)
    requires forall k :: b < k < i ==> acts[k] != End
    ensures states[i].fan.Some? && |states[i].log| == |states[b].log| + 1 && Current(states[i]).msg == m
  {
    if i > b + 1 { FanOf(states, acts, b, i - 1, m); }
  }

  /** A publication that ends has reached every task that subscribed to its type before it and lived till then. */
  lemma SubscribersReached(states: seq<Net>, acts: seq<Action>, j: nat, b: nat, e: nat, t: TaskId, m: Msg)
    requires Run(states, acts) && j < b < e < |acts| && acts[j] == Subscribe(t, m.Type())
    requires acts[b] == Begin(m) && acts[e] == End && forall k :: b < k < e ==> acts[k] != End
    requires forall k :: j < k <= e ==> t in states[k].live
    ensures |states[b].log| < |states[e].log|
    ensures states[e].log[|states[b].log|].msg == m && t in states[e].log[|states[b].log|].recipients
  {
    FanOf(states, acts, b, e, m);
    StaysListed(states, acts, j, e, t, m.Type());
    AlwaysFan(states, acts, e);
    assert FanList(states[e])[..|FanList(states[e])|] == FanList(states[e]);
  }

  /** Publication n, of m, began at step b, visited the live task t at step v, and t had subscribed at step j. */
  ghost predicate Explained(states: seq<Net>, acts: seq<Action>, j: nat, b: nat, v: nat, t: TaskId, n: nat, m: Msg)
    requires |states| == |acts| + 1
  {
    && j < b < v < |acts| && acts[j] == Subscribe(t, m.Type())
    && acts[b] == Begin(m) && |states[b].log| == n
    && acts[v] == Visit && |states[v].log| == n + 1 && t in states[v].live
  }

  /** A step that adds a recipient is a visit to it; no step changes a logged message. */
  lemma StepReaches(s: Net, a: Action, t: TaskId, n: nat)
    requires Enabled(s, a) && n < |Next(s, a).log| && t in Next(s, a).log[n].recipients
    ensures n < |s.log| && Next(s, a).log[n].msg == s.log[n].msg
    ensures t !in s.log[n].recipients ==>
              a == Visit && s.fan.Some? && |s.log| == n + 1 && t in s.live && t in FanList(s)
  {
  }

  lemma FanStarts(s: Net, a: Action)
    requires Enabled(s, a) && a.Begin?
    ensures Next(s, a).log == s.log + [Send(a.msg, {})] && FanList(Next(s, a)) == List(s, a.msg.Type())
  {
  }

  lemma FanGoesOn(s: Net, a: Action)
    requires Enabled(s, a) && !a.Begin? && Next(s, a).fan.Some?
    ensures s.fan.Some? && |Next(s, a).log| == |s.log|
    ensures s.log != [] ==> Current(Next(s, a)).msg == Current(s).msg
    ensures forall t :: t in FanList(Next(s, a)) ==> t in FanList(s)
  {
    if a == Visit {
      var list, it := FanList(s), s.fan.value;
      assert list == list[..it] + [list[it]] + list[it + 1..];
    }
  }

  /** The publication in progress began at some step, and since then its list has only lost entries. */
  lemma {:induction false} BegunAt(states: seq<Net>, acts: seq<Action>, i: nat) returns (b: nat)
    requires Run(states, acts) && i < |states| && states[i].fan.Some?
    ensures b < i && states[i].log != [] && |states[b].log| == |states[i].log| - 1
    ensures acts[b] == Begin(Current(states[i]).msg)
    ensures forall t :: t in FanList(states[i]) ==> t in List(states[b], Current(states[i]).msg.Type())
  {
    hide Run;
    RunStep(states, acts, 0);
    RunStep(states, acts, i - 1);
    hide Next, List, Enabled;
    if acts[i - 1].Begin? {
      b := i - 1;
      FanStarts(states[b], acts[b]);
    } else {
      FanGoesOn(states[i - 1], acts[i - 1]);
      b := BegunAt(states, acts, i - 1);
    }
  }

  /**
   Whomever a publication has reached was visited by it while alive, and had subscribed to its type before
   it began.
   */
  lemma {:induction false} OnlySubscribersReached(states: seq<Net>, acts: seq<Action>, i: nat, t: TaskId, n: nat)
    returns (j: nat, b: nat, v: nat)
    requires Run(states, acts) && i < |states| && n < |states[i].log| && t in states[i].log[n].recipients
    ensures v < i && Explained(states, acts, j, b, v, t, n, states[i].log[n].msg)
  {
    hide Run, Enabled, Next;
    RunStep(states, acts, 0);
    RunStep(states, acts, i - 1);
    var s, a := states[i - 1], acts[i - 1];
    StepReaches(s, a, t, n);
    if t in s.log[n].recipients {
      j, b, v := OnlySubscribersReached(states, acts, i - 1, t, n);
    } else {
      v := i - 1;
      b := BegunAt(states, acts, v);
      j := ListedSubscribed(states, acts, b, t, Current(s).msg.Type());
    }
  }

  /** The subscription is to the type of some other kind of message than m. */
  ghost predicate ToOtherKind(ty: nat, m: Msg) {
    exists x: Msg :: x.Type() == ty && !SameKind(x, m)
  }

  /** A publication reaches no task that subscribed to other kinds of message only. */
  lemma OtherKindsMissed(states: seq<Net>, acts: seq<Action>, i: nat, t: TaskId, n: nat)
    requires Run(states, acts) && i < |states| && n < |states[i].log|
    requires forall j :: 0 <= j < i && acts[j].Subscribe? && acts[j].task == t ==>
               ToOtherKind(acts[j].ty, states[i].log[n].msg)
    ensures t !in states[i].log[n].recipients
  {
    var m := states[i].log[n].msg;
    if t in states[i].log[n].recipients {
      var j, b, v := OnlySubscribersReached(states, acts, i, t, n);
      assert ToOtherKind(acts[j].ty, m);
      var x: Msg :| x.Type() == acts[j].ty && !SameKind(x, m);
      TypeIsKind(x, m);
    }
  }
}
