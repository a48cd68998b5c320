/**
 The resync handshake between ingestion (src/ingestion.rs), the watchdog (src/watchdog.rs) and the
 order-book thread (src/main.rs), as atomic steps that interleave in any order: the shared flag,
 any number of snapshot tasks and pollers, the event channel and the book.
 */
module Resync {
  import opened Types
  import opened Exchange
  import opened OrderbookModel
  import opened BookSync

  datatype Message = UpdateMessage(e: DepthUpdate) | SnapshotMessage(s: DepthSnapshot) | TradeMessage | ReconnectMessage

  /** A background task: the one that fetches the first snapshot of a connection, or a resync poller. */
  datatype Task = InitSleeping | InitFetching | InitDone | PollerIdle | PollerFetching

  datatype System = System(connected: bool, flag: bool, tasks: seq<Task>, channel: seq<Message>, book: BookState)

  const START := System(false, false, [], [], EMPTY_BOOK)

  datatype Action =
    | Connect
    | ConnectFails
    | ConnectionLost
    | Receive(e: DepthUpdate)
    | ReceiveTrade
    | InitStart(i: nat)
    | InitOk(i: nat, s: DepthSnapshot)
    | InitFail(i: nat)
    | PollerTake(i: nat)
    | PollerOk(i: nat, s: DepthSnapshot)
    | PollerFail(i: nat)
    | WatchdogFires
    | Consume

  predicate Is(sys: System, i: nat, task: Task) {
    i < |sys.tasks| && sys.tasks[i] == task
  }

  predicate Enabled(sys: System, a: Action) {
    match a
    case Connect => !sys.connected
    case ConnectFails => !sys.connected
    case ConnectionLost => sys.connected
    case Receive(_) => sys.connected
    case ReceiveTrade => sys.connected
    case InitStart(i) => Is(sys, i, InitSleeping)
    case InitOk(i, _) => Is(sys, i, InitFetching)
    case InitFail(i) => Is(sys, i, InitFetching)
    case PollerTake(i) => Is(sys, i, PollerIdle) && sys.flag
    case PollerOk(i, _) => Is(sys, i, PollerFetching)
    case PollerFail(i) => Is(sys, i, PollerFetching)
    case WatchdogFires => true
    case Consume => sys.channel != []
  }

  /** What the order-book thread does with one message: the book and the flag after it. */
  function Dispatch(book: BookState, flag: bool, m: Message): (BookState, bool) {
    match m
    case UpdateMessage(e) => (OnUpdate(book, e).book, flag || OnUpdate(book, e).gap)
    case SnapshotMessage(s) => (OnSnapshot(book, s), flag)
    case TradeMessage => (book, flag)
    case ReconnectMessage => (EMPTY_BOOK, flag)
  }

  /** What a poll makes of the poller and the flag: a raised flag is claimed and lowered in one step. */
  function Claim(flag: bool): (Task, bool) {
    if flag then (PollerFetching, false) else (PollerIdle, flag)
  }

  /** What a finished fetch makes of the poller and the flag, and what it sends. */
  function Report(flag: bool, fetched: Option<DepthSnapshot>): (Task, bool, seq<Message>) {
    match fetched
    case Some(s) => (PollerIdle, flag, [SnapshotMessage(s)])
    case None => (PollerIdle, true, [])
  }

  /** A finished fetch of task i. */
  function Finished(sys: System, i: nat, fetched: Option<DepthSnapshot>): System
    requires i < |sys.tasks|
  {
    var (task, flag, sent) := Report(sys.flag, fetched);
    SetTask(sys, i, task).(flag := flag, channel := sys.channel + sent)
  }

  function Send(sys: System, m: Message): System {
    sys.(channel := sys.channel + [m])
  }

  function SetTask(sys: System, i: nat, task: Task): System
    requires i < |sys.tasks|
  {
    sys.(tasks := sys.tasks[i := task])
  }

  function Next(sys: System, a: Action): System
    requires Enabled(sys, a)
  {
    match a
    case Connect => sys.(connected := true, tasks := sys.tasks + [InitSleeping, PollerIdle])
    case ConnectFails => Send(sys, ReconnectMessage)
    case ConnectionLost => Send(sys, ReconnectMessage).(connected := false)
    case Receive(e) => Send(sys, UpdateMessage(e))
    case ReceiveTrade => Send(sys, TradeMessage)
    case InitStart(i) => SetTask(sys, i, InitFetching).(flag := false)
    case InitOk(i, s) => Send(SetTask(sys, i, InitDone), SnapshotMessage(s))
    case InitFail(i) => SetTask(sys, i, InitDone)
    case PollerTake(i) => SetTask(sys, i, Claim(sys.flag).0).(flag := Claim(sys.flag).1)
    case PollerOk(i, s) => Finished(sys, i, Some(s))
    case PollerFail(i) => Finished(sys, i, None)
    case WatchdogFires => Send(sys, ReconnectMessage)
    case Consume =>
      var (book, flag) := Dispatch(sys.book, sys.flag, sys.channel[0]);
      sys.(book := book, flag := flag, channel := sys.channel[1..])
  }

  /** Every action of the schedule is enabled when its turn comes. */
  predicate Possible(sys: System, schedule: seq<Action>)
    decreases |schedule|
  {
    schedule == [] || (Enabled(sys, schedule[0]) && Possible(Next(sys, schedule[0]), schedule[1..]))
  }

  function After(sys: System, schedule: seq<Action>): System
    requires Possible(sys, schedule)
    decreases |schedule|
  {
    if schedule == [] then sys else After(Next(sys, schedule[0]), schedule[1..])
  }

  // ---------- The steps in place ----------

  /** The order-book thread: one turn of its dispatch loop. */
  class BookThread {
    const book: Orderbook
    const resyncNeeded: AtomicFlag

    constructor (depthLevels: nat, resyncNeeded: AtomicFlag)
      ensures this.resyncNeeded == resyncNeeded && fresh(book) && book.Contents() == EMPTY_BOOK
    {
      book := new Orderbook(depthLevels);
      this.resyncNeeded := resyncNeeded;
    }

    method HandleMessage(m: Message)
      modifies book, resyncNeeded
      ensures (book.Contents(), resyncNeeded.value) == Dispatch(old(book.Contents()), old(resyncNeeded.value), m)
    {
      match m {
        case UpdateMessage(e) => var _ := book.HandleUpdate(e, resyncNeeded);
        case SnapshotMessage(s) => var _ := book.HandleSnapshot(s);
        case TradeMessage =>
        case ReconnectMessage => book.Reset();
      }
    }
  }

  /** A resync poller: it claims a request atomically, and later reports what the fetch gave. */
  class Poller {
    const resyncNeeded: AtomicFlag
    var task: Task

    constructor (resyncNeeded: AtomicFlag)
      ensures this.resyncNeeded == resyncNeeded && task == PollerIdle
    {
      this.resyncNeeded, task := resyncNeeded, PollerIdle;
    }

    method Poll()
      requires task.PollerIdle?
      modifies this, resyncNeeded
      ensures (task, resyncNeeded.value) == Claim(old(resyncNeeded.value))
    {
      var claimed := resyncNeeded.CompareExchange(true, false);
      if claimed {
        task := PollerFetching;
      }
    }

    method Finish(fetched: Option<DepthSnapshot>) returns (sent: seq<Message>)
      requires task.PollerFetching?
      modifies this, resyncNeeded
      ensures (task, resyncNeeded.value, sent) == Report(old(resyncNeeded.value), fetched)
    {
      task := PollerIdle;
      if fetched.Some? {
        return [SnapshotMessage(fetched.value)];
      }
      resyncNeeded.Store(true);
      return [];
    }
  }

  // ---------- Every interleaving is a run of the book ----------

  /** The messages that a step puts on the channel. */
  function Messages(a: Action): seq<Message> {
    match a
    case Receive(e) => [UpdateMessage(e)]
    case ReceiveTrade => [TradeMessage]
    case InitOk(_, s) => [SnapshotMessage(s)]
    case PollerOk(_, s) => [SnapshotMessage(s)]
    case ConnectFails => [ReconnectMessage]
    case ConnectionLost => [ReconnectMessage]
    case WatchdogFires => [ReconnectMessage]
    case _ => []
  }

  function Sent(schedule: seq<Action>): seq<Message> {
    if schedule == [] then [] else Messages(schedule[0]) + Sent(schedule[1..])
  }

  function Consumes(schedule: seq<Action>): nat {
    if schedule == [] then 0 else (if schedule[0].Consume? then 1 else 0) + Consumes(schedule[1..])
  }

  /** What the messages are to the book; a trade is nothing to it. */
  function InputsOf(messages: seq<Message>): seq<Input> {
    if messages == [] then
      []
    else
      (match messages[0]
       case UpdateMessage(e) => [Diff(e)]
       case SnapshotMessage(s) => [Snap(s)]
       case TradeMessage => []
       case ReconnectMessage => [Restart])
      + InputsOf(messages[1..])
  }

  /**
   Whatever the tasks do at the same time, the book receives exactly what was sent, in the order it was
   sent, each message once: every interleaving is a run of the book over the messages consumed so far.
   */
  lemma {:induction false} EveryScheduleIsARun(sys: System, schedule: seq<Action>)
    requires Possible(sys, schedule)
    ensures var all, k := sys.channel + Sent(schedule), Consumes(schedule);
      && k <= |all| && After(sys, schedule).channel == all[k..]
      && After(sys, schedule).book == ReceiveAll(sys.book, InputsOf(all[..k]))
    decreases |schedule|
  {
    hide InputsOf, ReceiveAll, Messages, Next;
    var all, k := sys.channel + Sent(schedule), Consumes(schedule);
    if schedule == [] {
      NothingReceived(sys.book);
    } else {
      var a, rest := schedule[0], schedule[1..];
      var next := Next(sys, a);
      EveryScheduleIsARun(next, rest);
      StepSends(sys, a);
      if a.Consume? {
        assert all[1..] == next.channel + Sent(rest) && all[..k][1..] == all[1..][..k - 1];
        FirstReceived(sys.book, sys.flag, all[..k]);
      } else {
        assert all == next.channel + Sent(rest);
      }
    }
  }

  lemma NothingReceived(b: BookState)
    ensures ReceiveAll(b, InputsOf([])) == b
  {
  }

  lemma StepSends(sys: System, a: Action)
    requires Enabled(sys, a)
    ensures var next := Next(sys, a);
      if a.Consume? then
        && Messages(a) == [] && next.channel == sys.channel[1..]
        && next.book == Dispatch(sys.book, sys.flag, sys.channel[0]).0
      else
        next.channel == sys.channel + Messages(a) && next.book == sys.book
  {
    hide Dispatch;
  }

  lemma FirstReceived(b: BookState, flag: bool, messages: seq<Message>)
    requires messages != []
    ensures ReceiveAll(b, InputsOf(messages))
      == ReceiveAll(Dispatch(b, flag, messages[0]).0, InputsOf(messages[1..]))
  {
    hide OnUpdate, OnSnapshot;
    var rest := InputsOf(messages[1..]);
    if messages[0].TradeMessage? {
      assert [] + rest == rest;
    } else {
      assert InputsOf(messages)[1..] == rest;
    }
  }

  // ---------- Every request is claimed once ----------

  /** The step raises the flag: a fetch has failed, or the message consumed is an update beyond the book's id. */
  predicate Requests(sys: System, a: Action) {
    !sys.flag &&
    match a
    case PollerFail(_) => true
    case Consume =>
      && sys.channel != [] && sys.channel[0].UpdateMessage? && sys.book.sync.Live?
      && var e, l := sys.channel[0].e, sys.book.sync.lastUpdateId;
        l < e.prevLastId && l < e.lastId
    case _ => false
  }

  predicate Claims(sys: System, a: Action) {
    a.PollerTake?
  }

  /** A connection's first fetch starts while a request is pending, and makes it unnecessary. */
  predicate Withdraws(sys: System, a: Action) {
    a.InitStart? && sys.flag
  }

  /** How often a schedule takes a step of one kind. */
  function Times(kind: (System, Action) -> bool, sys: System, schedule: seq<Action>): nat
    requires Possible(sys, schedule)
    decreases |schedule|
  {
    if schedule == [] then
      0
    else
      (if kind(sys, schedule[0]) then 1 else 0) + Times(kind, Next(sys, schedule[0]), schedule[1..])
  }

  function Pending(sys: System): nat {
    if sys.flag then 1 else 0
  }

  /**
   In every interleaving each request is claimed by exactly one poller, or withdrawn by a first fetch, or
   still pending at the end; and nothing is claimed that was not requested.
   */
  lemma {:induction false} RequestsAreClaimedOnce(sys: System, schedule: seq<Action>)
    requires Possible(sys, schedule)
    ensures Pending(sys) + Times(Requests, sys, schedule)
      == Times(Claims, sys, schedule) + Times(Withdraws, sys, schedule) + Pending(After(sys, schedule))
    decreases |schedule|
  {
    hide OnSnapshot, Requests, Claims, Withdraws, Next;
    if schedule != [] {
      StepMovesRequest(sys, schedule[0]);
      RequestsAreClaimedOnce(Next(sys, schedule[0]), schedule[1..]);
    }
  }

  lemma StepMovesRequest(sys: System, a: Action)
    requires Enabled(sys, a)
    ensures Pending(sys) + (if Requests(sys, a) then 1 else 0)
      == (if Claims(sys, a) then 1 else 0) + (if Withdraws(sys, a) then 1 else 0) + Pending(Next(sys, a))
  {
    hide OnSnapshot;
  }

  // ---------- When a resync is lost ----------

  predicate Active(t: Task) {
    t.InitSleeping? || t.InitFetching? || t.PollerFetching?
  }

  ghost predicate SomeActive(tasks: seq<Task>) {
    exists i :: 0 <= i < |tasks| && Active(tasks[i])
  }

  /** The book and the flag once everything queued is consumed. */
  function Drained(book: BookState, flag: bool, channel: seq<Message>): (BookState, bool)
    decreases |channel|
  {
    if channel == [] then
      (book, flag)
    else
      var (next, raised) := Dispatch(book, flag, channel[0]);
      Drained(next, raised, channel[1..])
  }

  function DrainedSystem(sys: System): (BookState, bool) {
    Drained(sys.book, sys.flag, sys.channel)
  }

  /** Nobody is fetching or about to, and nothing that is queued will raise the flag or leave the book live. */
  ghost predicate Doomed(sys: System) {
    var (book, flag) := DrainedSystem(sys);
    sys.connected && !SomeActive(sys.tasks) && !flag && book.sync.Buffering?
  }

  /** The two steps that doom a system, and exactly when they do. */
  ghost predicate Dooms(sys: System, a: Action)
    requires Enabled(sys, a)
  {
    var (book, flag) := DrainedSystem(sys);
    || (a.WatchdogFires? && sys.connected && !SomeActive(sys.tasks) && !flag)
    || (a.InitFail? && sys.connected && !flag && book.sync.Buffering?
      && forall j :: 0 <= j < |sys.tasks| && j != a.i ==> !Active(sys.tasks[j]))
  }

  lemma {:induction false} DrainedSend(book: BookState, flag: bool, channel: seq<Message>, m: Message)
    ensures var (last, raised) := Drained(book, flag, channel);
      Drained(book, flag, channel + [m]) == Dispatch(last, raised, m)
    decreases |channel|
  {
    hide Dispatch;
    if channel == [] {
      assert [] + [m] == [m] && [m][1..] == [];
      var (next, raised) := Dispatch(book, flag, m);
      assert Drained(next, raised, [m][1..]) == (next, raised);
    } else {
      var (next, raised) := Dispatch(book, flag, channel[0]);
      assert (channel + [m])[1..] == channel[1..] + [m];
      DrainedSend(next, raised, channel[1..], m);
    }
  }

  lemma {:induction false} ReplayStaysLive(b: BookState, first: bool, events: seq<DepthUpdate>)
    requires b.sync.Live?
    ensures Replay(b, first, events).sync.Live?
    decreases |events|
  {
    if !(events == [] || (!first && events[0].prevLastId != b.sync.lastUpdateId)) {
      ReplayStaysLive(ApplyEvent(b, events[0]), false, events[1..]);
    }
  }

  /** Every snapshot makes the book live, whatever it holds. */
  lemma SnapshotGoesLive(b: BookState, s: DepthSnapshot)
    ensures OnSnapshot(b, s).sync.Live?
  {
    var buffer := if b.sync.Buffering? then b.sync.buffer else [];
    ReplayStaysLive(BookState(LoadSide(s.bids), LoadSide(s.asks), Live(s.lastUpdateId)), true,
      ValidEvents(buffer, s.lastUpdateId));
  }

  /** An update loses a live book only by raising the flag, and never lowers the flag. */
  lemma UpdateKeepsLiveOrRaises(b: BookState, flag: bool, e: DepthUpdate)
    ensures var (book, raised) := Dispatch(b, flag, UpdateMessage(e));
      && (flag ==> raised)
      && (b.sync.Live? ==> book.sync.Live? || raised)
      && (b.sync.Buffering? ==> book.sync.Buffering? && raised == flag)
  {
  }

  lemma TaskChange(sys: System, i: nat, task: Task)
    requires i < |sys.tasks|
    ensures var tasks := sys.tasks[i := task];
      SomeActive(tasks) <==> Active(task) || exists j :: 0 <= j < |sys.tasks| && j != i && Active(sys.tasks[j])
  {
    var tasks := sys.tasks[i := task];
    assert tasks[i] == task;
    assert forall j :: 0 <= j < |tasks| && j != i ==> tasks[j] == sys.tasks[j];
  }

  /** A raised flag stays raised while the queue is consumed. */
  lemma {:induction false} DrainedKeepsFlag(book: BookState, channel: seq<Message>)
    ensures Drained(book, true, channel).1
    decreases |channel|
  {
    if channel != [] {
      DrainedKeepsFlag(Dispatch(book, true, channel[0]).0, channel[1..]);
    }
  }

  /** From a system that is not doomed, a step dooms it exactly when it is one of the two, in exactly those conditions. */
  lemma StepDoomsExactly(sys: System, a: Action)
    requires !Doomed(sys) && Enabled(sys, a)
    ensures Doomed(Next(sys, a)) <==> Dooms(sys, a)
  {
    hide Dispatch, Drained;
    var (book, flag) := DrainedSystem(sys);
    match a {
      case Connect => assert Next(sys, a).tasks[|sys.tasks|] == InitSleeping;
      case ConnectFails =>
      case ConnectionLost =>
      case Receive(e) =>
        DrainedSend(sys.book, sys.flag, sys.channel, UpdateMessage(e));
        UpdateKeepsLiveOrRaises(book, flag, e);
      case ReceiveTrade => QueueHarmless(sys);
      case InitStart(i) => TaskChange(sys, i, InitFetching);
      case InitOk(i, s) => QueueSnapshot(sys, s);
      case InitFail(i) => TaskChange(sys, i, InitDone);
      case PollerTake(i) => TaskChange(sys, i, PollerFetching);
      case PollerOk(i, s) => QueueSnapshot(sys, s);
      case PollerFail(i) =>
        assert sys.channel + [] == sys.channel;
        DrainedKeepsFlag(sys.book, sys.channel);
      case WatchdogFires => QueueReconnect(sys);
      case Consume => ConsumeKeepsDrained(sys);
    }
  }

  lemma QueueHarmless(sys: System)
    ensures Drained(sys.book, sys.flag, sys.channel + [TradeMessage]) == DrainedSystem(sys)
  {
    DrainedSend(sys.book, sys.flag, sys.channel, TradeMessage);
  }

  lemma QueueReconnect(sys: System)
    ensures Drained(sys.book, sys.flag, sys.channel + [ReconnectMessage]) == (EMPTY_BOOK, DrainedSystem(sys).1)
  {
    DrainedSend(sys.book, sys.flag, sys.channel, ReconnectMessage);
  }

  lemma QueueSnapshot(sys: System, s: DepthSnapshot)
    ensures Drained(sys.book, sys.flag, sys.channel + [SnapshotMessage(s)]).0.sync.Live?
  {
    DrainedSend(sys.book, sys.flag, sys.channel, SnapshotMessage(s));
    SnapshotGoesLive(DrainedSystem(sys).0, s);
  }

  lemma ConsumeKeepsDrained(sys: System)
    requires sys.channel != []
    ensures DrainedSystem(Next(sys, Consume)) == DrainedSystem(sys)
  {
  }

  /** No step of the schedule dooms the system. */
  ghost predicate NothingDooms(sys: System, schedule: seq<Action>)
    requires Possible(sys, schedule)
    decreases |schedule|
  {
    schedule == [] || (!Dooms(sys, schedule[0]) && NothingDooms(Next(sys, schedule[0]), schedule[1..]))
  }

  lemma {:induction false} NotDoomedAlongRun(sys: System, schedule: seq<Action>)
    requires !Doomed(sys) && Possible(sys, schedule) && NothingDooms(sys, schedule)
    ensures !Doomed(After(sys, schedule))
    decreases |schedule|
  {
    if schedule != [] {
      StepDoomsExactly(sys, schedule[0]);
      NotDoomedAlongRun(Next(sys, schedule[0]), schedule[1..]);
    }
  }

  predicate Harmless(schedule: seq<Action>) {
    forall i :: 0 <= i < |schedule| ==> !schedule[i].WatchdogFires? && !schedule[i].InitFail?
  }

  lemma {:induction false} HarmlessDoomsNothing(sys: System, schedule: seq<Action>)
    requires Possible(sys, schedule) && Harmless(schedule)
    ensures NothingDooms(sys, schedule)
    decreases |schedule|
  {
    if schedule != [] {
      HarmlessDoomsNothing(Next(sys, schedule[0]), schedule[1..]);
    }
  }

  /** Without a queued snapshot a buffering book stays buffering and raises no flag. */
  lemma {:induction false} OnlySnapshotsGoLive(book: BookState, flag: bool, channel: seq<Message>)
    requires book.sync.Buffering? && forall i :: 0 <= i < |channel| ==> !channel[i].SnapshotMessage?
    ensures Drained(book, flag, channel).0.sync.Buffering? && Drained(book, flag, channel).1 == flag
    decreases |channel|
  {
    if channel != [] {
      var (next, raised) := Dispatch(book, flag, channel[0]);
      assert channel[0] == channel[0] && !channel[0].SnapshotMessage?;
      OnlySnapshotsGoLive(next, raised, channel[1..]);
    }
  }

  /**
   From the start, under every interleaving of connections, pollers, failed resync fetches, gaps and
   deliveries in which the watchdog does not fire and no first fetch fails, a resync is never lost:
   the system is not doomed, and so at any time the book is live, or the flag is up, or somebody is
   fetching or connecting, or a snapshot is queued.
   */
  lemma ResyncIsNeverLost(schedule: seq<Action>)
    requires Possible(START, schedule) && Harmless(schedule)
    ensures var sys := After(START, schedule);
      && !Doomed(sys)
      && (sys.book.sync.Live? || sys.flag || SomeActive(sys.tasks) || !sys.connected
        || exists i :: 0 <= i < |sys.channel| && sys.channel[i].SnapshotMessage?)
  {
    HarmlessDoomsNothing(START, schedule);
    NotDoomedAlongRun(START, schedule);
    var sys := After(START, schedule);
    if sys.book.sync.Buffering? && forall i :: 0 <= i < |sys.channel| ==> !sys.channel[i].SnapshotMessage? {
      OnlySnapshotsGoLive(sys.book, sys.flag, sys.channel);
    }
  }

  // ---------- Doom is permanent ----------

  predicate KeepsConnection(schedule: seq<Action>) {
    forall i :: 0 <= i < |schedule| ==> !schedule[i].ConnectionLost?
  }

  lemma StepKeepsDoom(sys: System, a: Action)
    requires Doomed(sys) && Enabled(sys, a) && !a.ConnectionLost?
    ensures Doomed(Next(sys, a))
  {
    hide Dispatch, Drained;
    var (book, flag) := DrainedSystem(sys);
    assert forall i :: 0 <= i < |sys.tasks| ==> !Active(sys.tasks[i]);
    assert !sys.flag by {
      if sys.flag {
        DrainedKeepsFlag(sys.book, sys.channel);
      }
    }
    match a {
      case Receive(e) =>
        DrainedSend(sys.book, sys.flag, sys.channel, UpdateMessage(e));
        UpdateKeepsLiveOrRaises(book, flag, e);
      case ReceiveTrade => QueueHarmless(sys);
      case WatchdogFires => QueueReconnect(sys);
      case Consume => ConsumeKeepsDrained(sys);
      case _ =>
    }
  }

  lemma {:induction false} DoomIsPermanent(sys: System, schedule: seq<Action>)
    requires Doomed(sys) && Possible(sys, schedule) && KeepsConnection(schedule)
    ensures Doomed(After(sys, schedule))
    decreases |schedule|
  {
    if schedule != [] {
      StepKeepsDoom(sys, schedule[0]);
      DoomIsPermanent(Next(sys, schedule[0]), schedule[1..]);
    }
  }

  /** A doomed system whose book is already buffering, with no snapshot queued. */
  ghost predicate Lost(sys: System) {
    && sys.connected && !sys.flag && !SomeActive(sys.tasks)
    && sys.book.sync.Buffering?
    && forall i :: 0 <= i < |sys.channel| ==> !sys.channel[i].SnapshotMessage?
  }

  /** A lost system is doomed, and a doomed one is lost as soon as its queue is consumed. */
  lemma LostIsDoomed(sys: System)
    ensures Lost(sys) ==> Doomed(sys)
    ensures Doomed(sys) && sys.channel == [] ==> Lost(sys)
  {
    if Lost(sys) {
      OnlySnapshotsGoLive(sys.book, sys.flag, sys.channel);
    }
  }

  lemma StepKeepsLost(sys: System, a: Action)
    requires Lost(sys) && Enabled(sys, a) && !a.ConnectionLost?
    ensures Lost(Next(sys, a))
  {
  }

  lemma {:induction false} LossIsPermanent(sys: System, schedule: seq<Action>)
    requires Lost(sys) && Possible(sys, schedule) && KeepsConnection(schedule)
    ensures Lost(After(sys, schedule))
    decreases |schedule|
  {
    if schedule != [] {
      StepKeepsLost(sys, schedule[0]);
      LossIsPermanent(Next(sys, schedule[0]), schedule[1..]);
    }
  }

  /** Once a doomed system has consumed its queue, its book is never live again, not even for a moment. */
  lemma LostForever(sys: System, schedule: seq<Action>)
    requires Doomed(sys) && sys.channel == []
    requires Possible(sys, schedule) && KeepsConnection(schedule)
    ensures After(sys, schedule).book.sync.Buffering?
  {
    LostIsDoomed(sys);
    LossIsPermanent(sys, schedule);
  }

  // ---------- Everything else recovers ----------

  /** While connected there is a poller. */
  ghost predicate HasPoller(sys: System) {
    sys.connected ==> exists i :: 0 <= i < |sys.tasks| && (sys.tasks[i].PollerIdle? || sys.tasks[i].PollerFetching?)
  }

  lemma StepKeepsPoller(sys: System, a: Action)
    requires HasPoller(sys) && Enabled(sys, a)
    ensures HasPoller(Next(sys, a))
  {
    var next := Next(sys, a);
    if a.Connect? {
      assert next.tasks[|sys.tasks| + 1] == PollerIdle;
    } else if next.connected {
      var i :| 0 <= i < |sys.tasks| && (sys.tasks[i].PollerIdle? || sys.tasks[i].PollerFetching?);
      assert next.tasks[i].PollerIdle? || next.tasks[i].PollerFetching?;
    }
  }

  lemma {:induction false} PollerAlongRun(sys: System, schedule: seq<Action>)
    requires HasPoller(sys) && Possible(sys, schedule)
    ensures HasPoller(After(sys, schedule))
    decreases |schedule|
  {
    if schedule != [] {
      StepKeepsPoller(sys, schedule[0]);
      PollerAlongRun(Next(sys, schedule[0]), schedule[1..]);
    }
  }

  /** Everything queued is consumed and the book is live. */
  predicate Settled(sys: System) {
    sys.channel == [] && sys.book.sync.Live?
  }

  /** A schedule of at most n steps, none of them a failure, that settles the system. */
  predicate Settles(sys: System, schedule: seq<Action>, n: nat) {
    && |schedule| <= n && Possible(sys, schedule) && Settled(After(sys, schedule))
    && Harmless(schedule) && KeepsConnection(schedule)
  }

  lemma Prepend(sys: System, a: Action, rest: seq<Action>, n: nat) returns (schedule: seq<Action>)
    requires Enabled(sys, a) && !a.WatchdogFires? && !a.InitFail? && !a.ConnectionLost?
    requires Settles(Next(sys, a), rest, n)
    ensures Settles(sys, schedule, n + 1)
  {
    schedule := [a] + rest;
    assert schedule[1..] == rest;
  }

  /** Consuming the whole queue settles a system that drains to a live book. */
  lemma {:induction false} DrainSettles(sys: System) returns (schedule: seq<Action>)
    requires DrainedSystem(sys).0.sync.Live?
    ensures Settles(sys, schedule, |sys.channel|)
    decreases |sys.channel|
  {
    schedule := [];
    if sys.channel == [] {
      assert After(sys, []) == sys;
    } else {
      ConsumeKeepsDrained(sys);
      var rest := DrainSettles(Next(sys, Consume));
      schedule := Prepend(sys, Consume, rest, |sys.channel| - 1);
    }
  }

  /** A running fetch that succeeds settles the system. */
  lemma FetchSettles(sys: System, i: nat, s: DepthSnapshot) returns (schedule: seq<Action>)
    requires Is(sys, i, InitFetching) || Is(sys, i, PollerFetching)
    ensures Settles(sys, schedule, |sys.channel| + 2)
  {
    var a := if sys.tasks[i].InitFetching? then InitOk(i, s) else PollerOk(i, s);
    QueueSnapshot(sys, s);
    var rest := DrainSettles(Next(sys, a));
    schedule := Prepend(sys, a, rest, |sys.channel| + 1);
  }

  lemma ActiveSettles(sys: System, i: nat, s: DepthSnapshot) returns (schedule: seq<Action>)
    requires i < |sys.tasks| && Active(sys.tasks[i])
    ensures Settles(sys, schedule, |sys.channel| + 3)
  {
    if sys.tasks[i].InitSleeping? {
      var rest := FetchSettles(Next(sys, InitStart(i)), i, s);
      schedule := Prepend(sys, InitStart(i), rest, |sys.channel| + 2);
    } else {
      schedule := FetchSettles(sys, i, s);
    }
  }

  lemma ConnectSettles(sys: System, s: DepthSnapshot) returns (schedule: seq<Action>)
    requires !sys.connected
    ensures Settles(sys, schedule, |sys.channel| + 4)
  {
    var rest := ActiveSettles(Next(sys, Connect), |sys.tasks|, s);
    schedule := Prepend(sys, Connect, rest, |sys.channel| + 3);
  }

  /** A flag that is up, or that goes up while the queue is consumed, leads through an idle poller to a live book. */
  lemma {:induction false} FlagSettles(sys: System, s: DepthSnapshot) returns (schedule: seq<Action>)
    requires sys.connected && HasPoller(sys) && !SomeActive(sys.tasks) && DrainedSystem(sys).1
    ensures Settles(sys, schedule, |sys.channel| + 3)
    decreases |sys.channel|
  {
    hide Dispatch;
    var i :| 0 <= i < |sys.tasks| && (sys.tasks[i].PollerIdle? || sys.tasks[i].PollerFetching?);
    assert sys.tasks[i].PollerIdle? by {
      assert !Active(sys.tasks[i]);
    }
    if sys.flag {
      var rest := FetchSettles(Next(sys, PollerTake(i)), i, s);
      schedule := Prepend(sys, PollerTake(i), rest, |sys.channel| + 2);
    } else {
      assert sys.channel != [];
      var next := Next(sys, Consume);
      ConsumeKeepsDrained(sys);
      StepKeepsPoller(sys, Consume);
      var rest := FlagSettles(next, s);
      schedule := Prepend(sys, Consume, rest, |next.channel| + 3);
    }
  }

  /** A system that is not doomed settles within |channel| + 4 steps and one successful fetch of any snapshot. */
  lemma UndoomedSettles(sys: System, s: DepthSnapshot) returns (schedule: seq<Action>)
    requires !Doomed(sys) && HasPoller(sys)
    ensures Settles(sys, schedule, |sys.channel| + 4)
  {
    hide Next;
    if !sys.connected {
      schedule := ConnectSettles(sys, s);
    } else if SomeActive(sys.tasks) {
      var i :| 0 <= i < |sys.tasks| && Active(sys.tasks[i]);
      schedule := ActiveSettles(sys, i, s);
    } else if DrainedSystem(sys).1 {
      schedule := FlagSettles(sys, s);
    } else {
      schedule := DrainSettles(sys);
    }
  }

  /**
   Doom is exactly the loss of the resync. A system is doomed if and only if no schedule that keeps
   the connection ever settles it, whoever fetches, polls or delivers what.
   */
  lemma DoomedIffNeverSettles(sys: System, s: DepthSnapshot)
    requires HasPoller(sys)
    ensures Doomed(sys) <==>
      forall schedule :: Possible(sys, schedule) && KeepsConnection(schedule) ==> !Settled(After(sys, schedule))
  {
    if Doomed(sys) {
      forall schedule | Possible(sys, schedule) && KeepsConnection(schedule)
        ensures !Settled(After(sys, schedule))
      {
        DoomIsPermanent(sys, schedule);
      }
    } else {
      var schedule := UndoomedSettles(sys, s);
      assert Settles(sys, schedule, |sys.channel| + 4);
    }
  }

  /** So every state that the system can reach, and that no step has doomed, recovers. */
  lemma ReachableStateRecovers(schedule: seq<Action>, s: DepthSnapshot) returns (more: seq<Action>)
    requires Possible(START, schedule) && NothingDooms(START, schedule)
    ensures Settles(After(START, schedule), more, |After(START, schedule).channel| + 4)
  {
    NotDoomedAlongRun(START, schedule);
    PollerAlongRun(START, schedule);
    more := UndoomedSettles(After(START, schedule), s);
  }

  // ---------- Both steps do doom a real run ----------

  lemma TwoSteps(sys: System, a: Action, b: Action, schedule: seq<Action>)
    requires Enabled(sys, a) && Enabled(Next(sys, a), b) && Possible(Next(Next(sys, a), b), schedule)
    ensures Possible(sys, [a, b] + schedule)
    ensures After(sys, [a, b] + schedule) == After(Next(Next(sys, a), b), schedule)
  {
    var two := [a, b] + schedule;
    assert two[1..] == [b] + schedule && two[1..][1..] == schedule;
  }

  /** The ordinary start-up settles, with nobody left fetching. */
  lemma StartUpSettles(s: DepthSnapshot) returns (schedule: seq<Action>)
    ensures Possible(START, schedule) && Harmless(schedule)
    ensures var sys := After(START, schedule);
      Settled(sys) && sys.connected && !sys.flag && !SomeActive(sys.tasks)
  {
    hide OnSnapshot;
    var s1 := Next(Next(START, Connect), InitStart(0));
    assert s1.tasks == [InitFetching, PollerIdle] && s1.channel == [];
    var s2 := Next(Next(s1, InitOk(0, s)), Consume);
    SnapshotGoesLive(EMPTY_BOOK, s);
    TwoSteps(s1, InitOk(0, s), Consume, []);
    TwoSteps(START, Connect, InitStart(0), [InitOk(0, s), Consume] + []);
    schedule := [Connect, InitStart(0)] + ([InitOk(0, s), Consume] + []);
    assert After(START, schedule).tasks == [InitDone, PollerIdle];
  }

  /** From there the watchdog's reconnect dooms the system. */
  lemma WatchdogDoomsSettledSystem(s: DepthSnapshot) returns (schedule: seq<Action>)
    ensures Possible(START, schedule) && Harmless(schedule)
    ensures Settled(After(START, schedule)) && !Doomed(After(START, schedule))
    ensures Doomed(Next(After(START, schedule), WatchdogFires))
  {
    hide Possible;
    schedule := StartUpSettles(s);
    StepDoomsExactly(After(START, schedule), WatchdogFires);
  }

  /** A first fetch that fails is only logged, and dooms the system. */
  lemma FailedFirstFetchDooms() returns (schedule: seq<Action>)
    ensures Possible(START, schedule) && Doomed(After(START, schedule))
    ensures forall i :: 0 <= i < |schedule| ==> !schedule[i].WatchdogFires? && !schedule[i].ConnectionLost?
  {
    var s1 := Next(Next(START, Connect), InitStart(0));
    var s2 := Next(s1, InitFail(0));
    assert s1.tasks == [InitFetching, PollerIdle];
    assert s2 == System(true, false, [InitDone, PollerIdle], [], EMPTY_BOOK);
    assert [InitFail(0)][1..] == [] && After(s2, []) == s2;
    TwoSteps(START, Connect, InitStart(0), [InitFail(0)]);
    schedule := [Connect, InitStart(0)] + [InitFail(0)];
  }

  // ---------- The whole pipeline agrees with the exchange ----------

  ghost predicate GenuineMessage(h: History, m: Message) {
    match m
    case UpdateMessage(e) => GenuineUpdate(h, e)
    case SnapshotMessage(s) => GenuineSnapshot(h, s)
    case _ => true
  }

  ghost predicate GenuineAction(h: History, a: Action) {
    match a
    case Receive(e) => GenuineUpdate(h, e)
    case InitOk(_, s) => GenuineSnapshot(h, s)
    case PollerOk(_, s) => GenuineSnapshot(h, s)
    case _ => true
  }

  ghost predicate PipelineAgrees(h: History, sys: System) {
    Agrees(h, sys.book) && forall i :: 0 <= i < |sys.channel| ==> GenuineMessage(h, sys.channel[i])
  }

  lemma StepKeepsAgreement(h: History, sys: System, a: Action)
    requires PipelineAgrees(h, sys) && Enabled(sys, a) && GenuineAction(h, a)
    ensures PipelineAgrees(h, Next(sys, a))
  {
    hide GenuineUpdate, GenuineSnapshot, Agrees, OnUpdate, OnSnapshot;
    if a.Consume? {
      match sys.channel[0] {
        case UpdateMessage(e) => UpdateAgrees(h, sys.book, e);
        case SnapshotMessage(s) => SnapshotAgrees(h, sys.book, s);
        case TradeMessage =>
        case ReconnectMessage => EmptyBookAgrees(h);
      }
    }
  }

  lemma EmptyBookAgrees(h: History)
    ensures Agrees(h, EMPTY_BOOK)
  {
  }

  /** In every interleaving in which the exchange tells the truth, a live book is the true book at its id. */
  lemma {:induction false} PipelineAgreement(h: History, sys: System, schedule: seq<Action>)
    requires PipelineAgrees(h, sys) && Possible(sys, schedule)
    requires forall i :: 0 <= i < |schedule| ==> GenuineAction(h, schedule[i])
    ensures PipelineAgrees(h, After(sys, schedule))
    decreases |schedule|
  {
    if schedule != [] {
      StepKeepsAgreement(h, sys, schedule[0]);
      PipelineAgreement(h, Next(sys, schedule[0]), schedule[1..]);
    }
  }
}
