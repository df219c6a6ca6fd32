/**
 The data grid's store: it tells its listeners about changes, once per batch or once per microtask.

 Scripts run to completion: a microtask fires only when nothing else is under way. Everything else is a stack of
 calls. A frame is a batch whose function is running, or a notification that is going round the listeners; the
 function and the listeners may do anything, including changing the state, batching and throwing.
 */
module NotificationStore {
  import opened Options

  type Key = string
  datatype Value = Value(id: nat)
  type State = map<Key, Value>

  // ----- the operations -----

  datatype Store = Store(state: State, isBatching: bool, pendingNotification: bool)

  predicate Unchanged(state: State, key: Key, value: Value) {
    key in state && state[key] == value
  }

  function SetState(store: Store, key: Key, value: Value): Store {
    if Unchanged(store.state, key, value) then store
    else store.(state := store.state[key := value], pendingNotification := true)
  }

  /** Whether `setState` queues a microtask. */
  predicate Queues(store: Store, key: Key, value: Value) {
    !Unchanged(store.state, key, value) && !store.isBatching && !store.pendingNotification
  }

  function OpenBatch(store: Store): Store {
    if store.isBatching then store else store.(isBatching := true, pendingNotification := false)
  }

  /** The end of an outermost batch: whether it notifies, and the store before it does. */
  function CloseBatch(store: Store, wasPending: bool): (Store, bool) {
    (store.(isBatching := false, pendingNotification := false), store.pendingNotification || wasPending)
  }

  /** The store itself, with the microtasks it has queued. */
  class DataGridStore {
    var state: State
    var isBatching: bool
    var pendingNotification: bool
    var queued: nat

    constructor (state: State)
      ensures View() == Store(state, false, false) && queued == 0
    {
      this.state, isBatching, pendingNotification, queued := state, false, false, 0;
    }

    function View(): Store
      reads this
    {
      Store(state, isBatching, pendingNotification)
    }

    method Set(key: Key, value: Value)
      modifies this
      ensures View() == SetState(old(View()), key, value)
      ensures queued == old(queued) + if Queues(old(View()), key, value) then 1 else 0
    {
      if key in state && state[key] == value {
        return;
      }
      state := state[key := value];
      if isBatching {
        pendingNotification := true;
      } else if !pendingNotification {
        pendingNotification := true;
        queued := queued + 1;
      }
    }

    /** `batch` up to the call of its function; the result is kept until the function ends, however it ends. */
    method BeginBatch() returns (outermost: bool, wasPending: bool)
      modifies this
      ensures View() == OpenBatch(old(View())) && queued == old(queued)
      ensures outermost == !old(isBatching) && wasPending == (outermost && old(pendingNotification))
    {
      if isBatching {
        return false, false;
      }
      isBatching := true;
      outermost, wasPending := true, pendingNotification;
      pendingNotification := false;
    }

    /** The rest of `batch`. */
    method EndBatch(outermost: bool, wasPending: bool) returns (notifies: bool)
      modifies this
      ensures outermost ==> (View(), notifies) == CloseBatch(old(View()), wasPending)
      ensures !outermost ==> View() == old(View()) && !notifies
      ensures queued == old(queued)
    {
      notifies := false;
      if outermost {
        isBatching := false;
        if pendingNotification || wasPending {
          pendingNotification := false;
          notifies := true;
        }
      }
    }

    method FireMicrotask() returns (notifies: bool)
      requires queued > 0
      modifies this
      ensures View() == old(View()).(pendingNotification := false) && notifies
      ensures queued == old(queued) - 1
    {
      queued := queued - 1;
      pendingNotification := false;
      notifies := true;
    }
  }

  // ----- runs -----

  type Listener = nat

  /** A loop knows the listeners it has told; `current` is the one it told last, which may still be running. */
  datatype Frame = Batch(outermost: bool, wasPending: bool) | Notifying(told: set<Listener>, current: Option<Listener>)

  datatype Event =
    | Set(key: Key, value: Value)
    | BeginBatch
    | EndBatch // the function returned or threw
    | FireMicrotask
    | Tell(listener: Listener) // the call of a listener; what it does are the events that follow
    | AllTold
    | ListenerThrows(listener: Listener) // it is running; the loop over the listeners ends here
    | Subscribe(listener: Listener)
    | Unsubscribe(listener: Listener)

  /**
   `seen` is the state each listener last looked at. `changes` and `notices` count the changes of the state and the
   notifications begun; `noticed` is what `changes` was at the last of these.
   */
  datatype World = World(
    store: Store, queued: nat, stack: seq<Frame>,
    listeners: set<Listener>, seen: map<Listener, State>,
    changes: nat, noticed: nat, notices: nat)

  function Start(state: State): World {
    World(Store(state, false, false), 0, [], {}, map[], 0, 0, 0)
  }

  function Top(stack: seq<Frame>): Option<Frame> {
    if stack == [] then None else Some(stack[|stack| - 1])
  }

  function Pop(stack: seq<Frame>): seq<Frame>
    requires stack != []
  {
    stack[..|stack| - 1]
  }

  predicate InBatch(stack: seq<Frame>) {
    Top(stack).Some? && Top(stack).value.Batch?
  }

  predicate InLoop(stack: seq<Frame>) {
    Top(stack).Some? && Top(stack).value.Notifying?
  }

  predicate Enabled(w: World, event: Event) {
    match event
    case Set(_, _) => true
    case BeginBatch => true
    case EndBatch => InBatch(w.stack)
    case FireMicrotask => w.stack == [] && w.queued > 0
    case Tell(l) => InLoop(w.stack) && l in w.listeners && l !in Top(w.stack).value.told
    case AllTold => InLoop(w.stack) && w.listeners <= Top(w.stack).value.told
    case ListenerThrows(l) => InLoop(w.stack) && Top(w.stack).value.current == Some(l)
    case Subscribe(l) => l !in w.listeners
    case Unsubscribe(l) => l in w.listeners
  }

  function Notify(w: World): World {
    w.(stack := w.stack + [Notifying({}, None)], noticed := w.changes, notices := w.notices + 1)
  }

  /** Leaving a set means being called again by the loops under way after joining again. */
  function Forget(stack: seq<Frame>, l: Listener): (r: seq<Frame>) {
    seq(|stack|, i requires 0 <= i < |stack| =>
      if stack[i].Notifying? then stack[i].(told := stack[i].told - {l}) else stack[i])
  }

  function Step(w: World, event: Event): World
    requires Enabled(w, event)
  {
    match event
    case Set(key, value) =>
      if Unchanged(w.store.state, key, value) then w
      else
        w.(store := SetState(w.store, key, value), changes := w.changes + 1,
           queued := w.queued + if Queues(w.store, key, value) then 1 else 0)
    case BeginBatch =>
      var outermost := !w.store.isBatching;
      w.(store := OpenBatch(w.store),
         stack := w.stack + [Batch(outermost, outermost && w.store.pendingNotification)])
    case EndBatch =>
      var batch := Top(w.stack).value;
      if !batch.outermost then w.(stack := Pop(w.stack))
      else
        var (store, notifies) := CloseBatch(w.store, batch.wasPending);
        var ended := w.(stack := Pop(w.stack), store := store);
        if notifies then Notify(ended) else ended
    case FireMicrotask =>
      Notify(w.(queued := w.queued - 1, store := w.store.(pendingNotification := false)))
    case Tell(l) =>
      w.(stack := Pop(w.stack) + [Notifying(Top(w.stack).value.told + {l}, Some(l))],
         seen := w.seen[l := w.store.state])
    case AllTold => w.(stack := Pop(w.stack))
    case ListenerThrows(_) => w.(stack := Pop(w.stack))
    case Subscribe(l) =>
      w.(listeners := w.listeners + {l}, seen := w.seen[l := w.store.state])
    case Unsubscribe(l) => w.(listeners := w.listeners - {l}, stack := Forget(w.stack, l))
  }

  /** The world after the first `n` events, if each of them could happen. */
  function Run(w: World, events: seq<Event>, n: nat): Option<World>
    requires n <= |events|
  {
    if n == 0 then Some(w)
    else
      var before := Run(w, events, n - 1);
      if before.Some? && Enabled(before.value, events[n - 1])
      then Some(Step(before.value, events[n - 1])) else None
  }

  // ----- what every run keeps -----

  /** Within an outermost batch there are only inner batches; an inner batch lies in a batch. */
  predicate WellStacked(stack: seq<Frame>) {
    && (forall i, j :: 0 <= i < j < |stack| && stack[i].Batch? ==> stack[j].Batch? && !stack[j].outermost)
    && (forall i :: 0 <= i < |stack| && stack[i].Batch? && !stack[i].outermost ==> i > 0 && stack[i - 1].Batch?)
  }

  predicate WasPending(stack: seq<Frame>) {
    exists i :: 0 <= i < |stack| && stack[i].Batch? && stack[i].outermost && stack[i].wasPending
  }

  /** A loop that has not come to this listener yet. */
  predicate Omits(frame: Frame, l: Listener) {
    frame.Notifying? && l !in frame.told && frame.current != Some(l)
  }

  predicate WillBeTold(stack: seq<Frame>, l: Listener) {
    exists i :: 0 <= i < |stack| && Omits(stack[i], l)
  }

  predicate Flags(w: World) {
    && WellStacked(w.stack)
    && w.store.isBatching == InBatch(w.stack)
    && (w.store.pendingNotification && !w.store.isBatching ==> w.queued > 0)
    && (WasPending(w.stack) ==> w.queued > 0)
    && (w.changes != w.noticed ==> w.store.pendingNotification || WasPending(w.stack))
  }

  /** A listener knows the state, or is still going to be told. */
  predicate Informed(w: World, l: Listener) {
    || (l in w.seen && w.seen[l] == w.store.state)
    || WillBeTold(w.stack, l)
    || w.queued > 0
    || (w.store.isBatching && w.store.pendingNotification)
  }

  predicate Inv(w: World) {
    Flags(w) && forall l :: l in w.listeners ==> Informed(w, l)
  }

  lemma WasPendingPush(stack: seq<Frame>, frame: Frame)
    ensures WasPending(stack + [frame]) <==> WasPending(stack) || (frame.Batch? && frame.outermost && frame.wasPending)
  {
    var more := stack + [frame];
    if WasPending(stack) {
      var i :| 0 <= i < |stack| && stack[i].Batch? && stack[i].outermost && stack[i].wasPending;
      assert more[i] == stack[i];
    }
    assert more[|stack|] == frame;
  }

  lemma WillBeToldPush(stack: seq<Frame>, frame: Frame, l: Listener)
    ensures WillBeTold(stack + [frame], l) <==> WillBeTold(stack, l) || Omits(frame, l)
  {
    var more := stack + [frame];
    if WillBeTold(stack, l) {
      var i :| 0 <= i < |stack| && Omits(stack[i], l);
      assert more[i] == stack[i];
    }
    assert more[|stack|] == frame;
  }

  lemma PushPop(stack: seq<Frame>)
    requires stack != []
    ensures stack == Pop(stack) + [stack[|stack| - 1]]
  {
  }

  lemma WasPendingForget(stack: seq<Frame>, l: Listener)
    ensures WasPending(Forget(stack, l)) <==> WasPending(stack)
  {
    var less := Forget(stack, l);
    assert forall i :: 0 <= i < |stack| && stack[i].Batch? ==> less[i] == stack[i];
    assert forall i :: 0 <= i < |stack| && less[i].Batch? ==> less[i] == stack[i];
  }

  lemma WillBeToldForget(stack: seq<Frame>, l: Listener, other: Listener)
    requires WillBeTold(stack, other)
    ensures WillBeTold(Forget(stack, l), other)
  {
    var i :| 0 <= i < |stack| && Omits(stack[i], other);
    assert Omits(Forget(stack, l)[i], other);
  }

  lemma StepKeepsStack(w: World, event: Event)
    requires Flags(w) && Enabled(w, event)
    ensures WellStacked(Step(w, event).stack)
  {
  }

  lemma StepKeepsBatching(w: World, event: Event)
    requires Flags(w) && Enabled(w, event)
    ensures Step(w, event).store.isBatching == InBatch(Step(w, event).stack)
  {
  }

  /** What becomes of the batches that found a notification pending. */
  lemma StepWasPending(w: World, event: Event)
    requires Flags(w) && Enabled(w, event)
    ensures WasPending(Step(w, event).stack) <==>
      || (WasPending(w.stack) && !(event.EndBatch? && Top(w.stack).value.outermost))
      || (event.BeginBatch? && !w.store.isBatching && w.store.pendingNotification)
  {
    var w' := Step(w, event);
    match event
    case Set(_, _) =>
    case BeginBatch => WasPendingPush(w.stack, w'.stack[|w.stack|]);
    case EndBatch =>
      PushPop(w.stack);
      WasPendingPush(Pop(w.stack), Top(w.stack).value);
      WasPendingPush(Pop(w.stack), Notifying({}, None));
    case FireMicrotask => WasPendingPush(w.stack, Notifying({}, None));
    case Tell(_) =>
      PushPop(w.stack);
      WasPendingPush(Pop(w.stack), Top(w.stack).value);
      WasPendingPush(Pop(w.stack), Top(w'.stack).value);
    case AllTold =>
      PushPop(w.stack);
      WasPendingPush(Pop(w.stack), Top(w.stack).value);
    case ListenerThrows(_) =>
      PushPop(w.stack);
      WasPendingPush(Pop(w.stack), Top(w.stack).value);
    case Subscribe(_) =>
    case Unsubscribe(l) => WasPendingForget(w.stack, l);
  }

  lemma StepKeepsFlags(w: World, event: Event)
    requires Flags(w) && Enabled(w, event)
    ensures Flags(Step(w, event))
  {
    StepKeepsStack(w, event);
    StepKeepsBatching(w, event);
    StepWasPending(w, event);
  }

  /** Nobody throws while another listener is subscribed. */
  predicate Harmless(w: World, event: Event) {
    event.ListenerThrows? ==> w.listeners <= {event.listener}
  }

  predicate HarmlessRun(w: World, events: seq<Event>, n: nat)
    requires n <= |events|
  {
    n > 0 ==>
      HarmlessRun(w, events, n - 1)
      && (Run(w, events, n - 1).Some? ==> Harmless(Run(w, events, n - 1).value, events[n - 1]))
  }

  lemma StepKeepsInformed(w: World, event: Event, l: Listener)
    requires Inv(w) && Enabled(w, event) && Harmless(w, event) && l in Step(w, event).listeners
    ensures Informed(Step(w, event), l)
  {
    var w' := Step(w, event);
    match event
    case Set(_, _) =>
    case BeginBatch => WillBeToldPush(w.stack, w'.stack[|w.stack|], l);
    case EndBatch =>
      PushPop(w.stack);
      WillBeToldPush(Pop(w.stack), Top(w.stack).value, l);
      WillBeToldPush(Pop(w.stack), Notifying({}, None), l);
    case FireMicrotask => WillBeToldPush(w.stack, Notifying({}, None), l);
    case Tell(_) =>
      PushPop(w.stack);
      WillBeToldPush(Pop(w.stack), Top(w.stack).value, l);
      WillBeToldPush(Pop(w.stack), Top(w'.stack).value, l);
    case AllTold =>
      PushPop(w.stack);
      WillBeToldPush(Pop(w.stack), Top(w.stack).value, l);
    case ListenerThrows(_) =>
      PushPop(w.stack);
      WillBeToldPush(Pop(w.stack), Top(w.stack).value, l);
    case Subscribe(_) =>
    case Unsubscribe(other) =>
      if WillBeTold(w.stack, l) {
        WillBeToldForget(w.stack, other, l);
      }
  }

  lemma StepKeepsInv(w: World, event: Event)
    requires Inv(w) && Enabled(w, event) && Harmless(w, event)
    ensures Inv(Step(w, event))
  {
    StepKeepsFlags(w, event);
    var w' := Step(w, event);
    forall l | l in w'.listeners ensures Informed(w', l) {
      StepKeepsInformed(w, event, l);
    }
  }

  lemma {:induction false} RunKeepsInv(w: World, events: seq<Event>, n: nat, r: World)
    requires n <= |events| && Inv(w) && Run(w, events, n) == Some(r) && HarmlessRun(w, events, n)
    ensures Inv(r)
  {
    if n > 0 {
      var before := Run(w, events, n - 1).value;
      RunKeepsInv(w, events, n - 1, before);
      StepKeepsInv(before, events[n - 1]);
    }
  }

  lemma {:induction false} RunKeepsFlags(w: World, events: seq<Event>, n: nat)
    requires n <= |events| && Flags(w) && Run(w, events, n).Some?
    ensures Flags(Run(w, events, n).value)
  {
    if n > 0 {
      RunKeepsFlags(w, events, n - 1);
      StepKeepsFlags(Run(w, events, n - 1).value, events[n - 1]);
    }
  }

  /** Whenever no batch is open and the state has changed since the last notification began, a microtask is queued. */
  lemma NoNotificationIsLost(state: State, events: seq<Event>)
    requires Run(Start(state), events, |events|).Some?
    ensures var w := Run(Start(state), events, |events|).value;
      !w.store.isBatching && w.changes != w.noticed ==> w.store.pendingNotification && w.queued > 0
  {
    RunKeepsFlags(Start(state), events, |events|);
    var w := Run(Start(state), events, |events|).value;
    if !w.store.isBatching && WasPending(w.stack) {
      NoBatchNoneWaits(w.stack);
    }
  }

  lemma NoBatchNoneWaits(stack: seq<Frame>)
    requires WellStacked(stack) && !InBatch(stack)
    ensures !WasPending(stack)
  {
  }

  /** Nothing is under way and no microtask waits. */
  predicate AtRest(w: World) {
    w.stack == [] && w.queued == 0
  }

  predicate UpToDate(w: World) {
    forall l :: l in w.listeners ==> l in w.seen && w.seen[l] == w.store.state
  }

  /** If nobody throws while another is subscribed, all listeners know the state once the run is at rest. */
  lemma ListenersAreUpToDate(state: State, events: seq<Event>)
    requires HarmlessRun(Start(state), events, |events|) && Run(Start(state), events, |events|).Some?
    requires AtRest(Run(Start(state), events, |events|).value)
    ensures UpToDate(Run(Start(state), events, |events|).value)
  {
    RunKeepsInv(Start(state), events, |events|, Run(Start(state), events, |events|).value);
  }

  lemma RunOn(w: World, events: seq<Event>, n: nat, before: World)
    requires n < |events| && Run(w, events, n) == Some(before) && Enabled(before, events[n])
    ensures Run(w, events, n + 1) == Some(Step(before, events[n]))
  {
  }

  /** Two listeners are told of a change, and the first one throws. */
  function ThrowingRun(thrower: Listener, other: Listener): seq<Event> {
    [Subscribe(thrower), Subscribe(other), Set("rowHeight", Value(7)), FireMicrotask, Tell(thrower),
     ListenerThrows(thrower)]
  }

  lemma BothSubscribe(thrower: Listener, other: Listener, events: seq<Event>, two: World)
    requires thrower != other && events == ThrowingRun(thrower, other)
    requires two == Start(map[]).(listeners := {thrower, other}, seen := map[thrower := map[], other := map[]])
    ensures Run(Start(map[]), events, 2) == Some(two)
  {
    var start, empty: State := Start(map[]), map[];
    RunOn(start, events, 0, start);
    var one := start.(listeners := {thrower}, seen := map[thrower := empty]);
    assert Step(start, events[0]) == one;
    RunOn(start, events, 1, one);
    assert Step(one, events[1]) == two;
  }

  lemma ChangeNotifies(thrower: Listener, other: Listener, events: seq<Event>, two: World, recent: State)
    requires thrower != other && events == ThrowingRun(thrower, other) && recent == map["rowHeight" := Value(7)]
    requires two == Start(map[]).(listeners := {thrower, other}, seen := map[thrower := map[], other := map[]])
    requires Run(Start(map[]), events, 2) == Some(two)
    ensures Run(Start(map[]), events, 4) == Some(two.(
      store := Store(recent, false, false), changes := 1, noticed := 1, notices := 1,
      stack := [Notifying({}, None)]))
  {
    RunOn(Start(map[]), events, 2, two);
    var changed := two.(store := Store(recent, false, true), queued := 1, changes := 1);
    assert Step(two, events[2]) == changed;
    RunOn(Start(map[]), events, 3, changed);
    assert [] + [Notifying({}, None)] == [Notifying({}, None)];
  }

  lemma TellAndThrow(w: World, l: Listener, told: World)
    requires w.stack == [Notifying({}, None)] && l in w.listeners
    requires told == w.(stack := [Notifying({l}, Some(l))], seen := w.seen[l := w.store.state])
    ensures Enabled(w, Tell(l)) && Step(w, Tell(l)) == told
    ensures Enabled(told, ListenerThrows(l)) && Step(told, ListenerThrows(l)) == told.(stack := [])
  {
    assert {} + {l} == {l};
  }

  lemma FirstThrows(thrower: Listener, other: Listener, events: seq<Event>, notifying: World)
    requires thrower != other && events == ThrowingRun(thrower, other)
    requires Run(Start(map[]), events, 4) == Some(notifying) && notifying.stack == [Notifying({}, None)]
    requires thrower in notifying.listeners
    ensures Run(Start(map[]), events, 6)
      == Some(notifying.(stack := [], seen := notifying.seen[thrower := notifying.store.state]))
  {
    var told := notifying.(
      stack := [Notifying({thrower}, Some(thrower))], seen := notifying.seen[thrower := notifying.store.state]);
    TellAndThrow(notifying, thrower, told);
    RunOn(Start(map[]), events, 4, notifying);
    RunOn(Start(map[]), events, 5, told);
  }

  /** A listener that throws leaves the other one with an old state, and nothing under way to tell it. */
  lemma ThrowingStarves(thrower: Listener, other: Listener, events: seq<Event>)
    requires thrower != other && events == ThrowingRun(thrower, other)
    ensures Run(Start(map[]), events, |events|).Some?
    ensures var w := Run(Start(map[]), events, |events|).value; AtRest(w) && !UpToDate(w)
  {
    var empty: State, recent: State := map[], map["rowHeight" := Value(7)];
    var two := Start(empty).(listeners := {thrower, other}, seen := map[thrower := empty, other := empty]);
    BothSubscribe(thrower, other, events, two);
    ChangeNotifies(thrower, other, events, two, recent);
    assert "rowHeight" in recent && "rowHeight" !in empty;
    FirstThrows(thrower, other, events, Run(Start(empty), events, 4).value);
  }

  /** Only these listeners subscribe, and only these throw. */
  predicate Within(events: seq<Event>, members: set<Listener>, throwers: set<Listener>) {
    forall k :: 0 <= k < |events| ==>
      && (events[k].Subscribe? ==> events[k].listener in members)
      && (events[k].ListenerThrows? ==> events[k].listener in throwers)
  }

  predicate EndsUpToDate(state: State, events: seq<Event>) {
    var r := Run(Start(state), events, |events|);
    r.Some? && AtRest(r.value) ==> UpToDate(r.value)
  }

  ghost predicate AlwaysUpToDate(members: set<Listener>, throwers: set<Listener>) {
    forall state: State, events: seq<Event> :: Within(events, members, throwers) ==> EndsUpToDate(state, events)
  }

  /** A running listener has subscribed before. */
  predicate Known(w: World, members: set<Listener>) {
    && w.listeners <= members
    && forall i :: 0 <= i < |w.stack| && w.stack[i].Notifying? && w.stack[i].current.Some? ==>
      w.stack[i].current.value in members
  }

  lemma {:induction false} RunKeepsKnown(
    state: State, events: seq<Event>, members: set<Listener>, throwers: set<Listener>, n: nat)
    requires n <= |events| && Within(events, members, throwers) && Run(Start(state), events, n).Some?
    ensures Known(Run(Start(state), events, n).value, members)
  {
    if n > 0 {
      RunKeepsKnown(state, events, members, throwers, n - 1);
      StepKeepsKnown(Run(Start(state), events, n - 1).value, events[n - 1], members);
    }
  }

  lemma StepKeepsKnown(w: World, event: Event, members: set<Listener>)
    requires Known(w, members) && Enabled(w, event) && (event.Subscribe? ==> event.listener in members)
    ensures Known(Step(w, event), members)
  {
  }

  /** No member that may throw has another member beside it. */
  ghost predicate ThrowersAreAlone(members: set<Listener>, throwers: set<Listener>) {
    forall t, m :: t in members && t in throwers && m in members ==> t == m
  }

  lemma {:induction false} LonelyThrowsAreHarmless(
    state: State, events: seq<Event>, members: set<Listener>, throwers: set<Listener>, n: nat)
    requires ThrowersAreAlone(members, throwers)
    requires n <= |events| && Within(events, members, throwers) && Run(Start(state), events, n).Some?
    ensures HarmlessRun(Start(state), events, n)
  {
    if n > 0 {
      var before := Run(Start(state), events, n - 1).value;
      LonelyThrowsAreHarmless(state, events, members, throwers, n - 1);
      RunKeepsKnown(state, events, members, throwers, n - 1);
      LonelyThrowIsHarmless(before, events[n - 1], members, throwers);
    }
  }

  lemma LonelyThrowIsHarmless(w: World, event: Event, members: set<Listener>, throwers: set<Listener>)
    requires ThrowersAreAlone(members, throwers)
    requires Known(w, members) && Enabled(w, event) && (event.ListenerThrows? ==> event.listener in throwers)
    ensures Harmless(w, event)
  {
  }

  lemma AloneIsUpToDate(state: State, events: seq<Event>, members: set<Listener>, throwers: set<Listener>)
    requires ThrowersAreAlone(members, throwers) && Within(events, members, throwers)
    ensures EndsUpToDate(state, events)
  {
    var r := Run(Start(state), events, |events|);
    if r.Some? && AtRest(r.value) {
      LonelyThrowsAreHarmless(state, events, members, throwers, |events|);
      ListenersAreUpToDate(state, events);
    }
  }

  lemma NotAloneIsStarved(members: set<Listener>, throwers: set<Listener>, t: Listener, m: Listener)
    requires t in members && t in throwers && m in members && t != m
    ensures !AlwaysUpToDate(members, throwers)
  {
    var events := ThrowingRun(t, m);
    ThrowingStarves(t, m, events);
    assert Within(events, members, throwers) && !EndsUpToDate(map[], events);
  }

  /**
   Given who may subscribe and who may throw: every run leaves all listeners up to date once it is at rest if and only
   if no member that may throw has another member beside it.
   */
  lemma UpToDateIff(members: set<Listener>, throwers: set<Listener>)
    ensures AlwaysUpToDate(members, throwers) <==> ThrowersAreAlone(members, throwers)
  {
    if ThrowersAreAlone(members, throwers) {
      forall state: State, events: seq<Event> | Within(events, members, throwers) ensures EndsUpToDate(state, events) {
        AloneIsUpToDate(state, events, members, throwers);
      }
    } else {
      var t, m :| t in members && t in throwers && m in members && t != m;
      NotAloneIsStarved(members, throwers, t, m);
    }
  }

  // ----- one change -----

  /** Setting a value that is there already does nothing at all. */
  lemma UnchangedIsSilent(w: World, key: Key)
    requires key in w.store.state
    ensures Step(w, Set(key, w.store.state[key])) == w
  {
  }

  /**
   Any other value is set and nothing else; inside a batch the batch will see to it, and outside a microtask is queued
   unless a change has one waiting already.
   */
  lemma ChangeEffect(w: World, key: Key, value: Value)
    requires key !in w.store.state || w.store.state[key] != value
    ensures var w' := Step(w, Set(key, value));
      && w'.store.state == w.store.state[key := value]
      && w'.store.pendingNotification && w'.store.isBatching == w.store.isBatching
      && w'.queued == w.queued + (if w.store.isBatching || w.store.pendingNotification then 0 else 1)
      && w'.changes == w.changes + 1 && w'.notices == w.notices && w'.stack == w.stack && w'.seen == w.seen
  {
  }

  /** Opening an outermost batch puts a pending notification aside; opening an inner one changes nothing. */
  lemma BatchOpens(w: World)
    ensures var w' := Step(w, BeginBatch);
      && w'.store.isBatching && w'.store.state == w.store.state && w'.queued == w.queued && w'.notices == w.notices
      && (w.store.isBatching ==> w'.store == w.store && Top(w'.stack) == Some(Batch(false, false)))
      && (!w.store.isBatching ==>
        !w'.store.pendingNotification && Top(w'.stack) == Some(Batch(true, w.store.pendingNotification)))
  {
  }

  /** A listener that leaves and joins again while a loop is under way is told by that loop once more. */
  lemma RejoinedIsTold(w: World, l: Listener)
    requires l in w.listeners && InLoop(w.stack)
    ensures Enabled(w, Unsubscribe(l)) && Enabled(Step(w, Unsubscribe(l)), Subscribe(l))
    ensures Enabled(Step(Step(w, Unsubscribe(l)), Subscribe(l)), Tell(l))
  {
  }

  /** Changes in a row share one microtask. */
  lemma ChangesCoalesce(w: World, key: Key, value: Value, key': Key, value': Value)
    requires !w.store.isBatching
    ensures Step(Step(w, Set(key, value)), Set(key', value')).queued <= w.queued + 1
  {
  }

  // ----- batches -----

  predicate BatchAt(stack: seq<Frame>, depth: nat) {
    depth < |stack| && stack[depth].Batch? && stack[depth].outermost
  }

  /** The run stays inside the batch that lies on the first `depth` frames. */
  predicate StaysInside(w: World, body: seq<Event>, n: nat, depth: nat)
    requires n <= |body|
  {
    forall k :: 0 <= k <= n ==> Run(w, body, k).Some? && BatchAt(Run(w, body, k).value.stack, depth)
  }

  lemma StepInsideBatch(w: World, event: Event, depth: nat)
    requires Flags(w) && Enabled(w, event) && BatchAt(w.stack, depth) && BatchAt(Step(w, event).stack, depth)
    ensures Step(w, event).stack[depth] == w.stack[depth] && Step(w, event).notices == w.notices
    ensures var w' := Step(w, event);
      && w'.changes >= w.changes
      && w'.store.pendingNotification == (w.store.pendingNotification || w'.changes > w.changes)
  {
    assert w.store.isBatching;
  }

  lemma BatchEnds(w: World)
    requires Flags(w) && InBatch(w.stack) && Top(w.stack).value.outermost
    ensures var notifies, after := w.store.pendingNotification || Top(w.stack).value.wasPending, Step(w, EndBatch);
      && !after.store.isBatching && !after.store.pendingNotification && after.store.state == w.store.state
      && after.notices == w.notices + (if notifies then 1 else 0)
      && after.stack == Pop(w.stack) + (if notifies then [Notifying({}, None)] else [])
      && (notifies ==> after.noticed == after.changes)
  {
  }

  lemma {:induction false} InsideBatch(w: World, body: seq<Event>, n: nat, depth: nat)
    requires n <= |body| && Flags(w) && BatchAt(w.stack, depth) && StaysInside(w, body, n, depth)
    ensures var r := Run(w, body, n).value;
      && Flags(r) && r.stack[depth] == w.stack[depth] && r.notices == w.notices && r.changes >= w.changes
      && r.store.pendingNotification == (w.store.pendingNotification || r.changes > w.changes)
  {
    if n > 0 {
      InsideBatch(w, body, n - 1, depth);
      var before := Run(w, body, n - 1).value;
      assert Run(w, body, n).Some?;
      StepInsideBatch(before, body[n - 1], depth);
      StepKeepsFlags(before, body[n - 1]);
    }
  }

  /**
   Whatever an outermost batch does (set, batch again, throw, take listeners in or out), nobody is notified before it
   ends; then a single notification begins, synchronously, exactly if something changed or one was pending before.
   */
  lemma OuterBatchNotifiesOnce(w: World, body: seq<Event>)
    requires Flags(w) && !w.store.isBatching
    requires StaysInside(Step(w, BeginBatch), body, |body|, |w.stack|)
    requires |Run(Step(w, BeginBatch), body, |body|).value.stack| == |w.stack| + 1
    ensures var inside := Run(Step(w, BeginBatch), body, |body|).value;
      var notifies := w.store.pendingNotification || inside.changes > w.changes;
      && inside.notices == w.notices && Enabled(inside, EndBatch)
      && var after := Step(inside, EndBatch);
        && !after.store.isBatching && !after.store.pendingNotification && after.store.state == inside.store.state
        && after.notices == w.notices + (if notifies then 1 else 0)
        && |after.stack| == |w.stack| + (if notifies then 1 else 0)
        && (notifies ==> Top(after.stack) == Some(Notifying({}, None)) && after.noticed == after.changes)
  {
    var begun := Step(w, BeginBatch);
    assert begun.stack[|w.stack|] == Batch(true, w.store.pendingNotification);
    StepKeepsFlags(w, BeginBatch);
    InsideBatch(begun, body, |body|, |w.stack|);
    var inside := Run(begun, body, |body|).value;
    assert Top(inside.stack) == Some(Batch(true, w.store.pendingNotification));
    BatchEnds(inside);
  }

  /** An inner batch adds nothing of its own: neither its begin nor its end touches the store or notifies. */
  lemma InnerBatchIsTransparent(w: World)
    requires Flags(w) && w.store.isBatching
    ensures var begun := Step(w, BeginBatch); Enabled(begun, EndBatch) && Step(begun, EndBatch) == w
  {
  }
}
