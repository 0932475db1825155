/**
 * The delivery queue of iframe-history.js: the closure variables
 * `mostRecentState` (the pending slot) and `onStateCallback` (the sole
 * subscriber), `document.title`, the `setTimeout` deliveries not yet fired,
 * and the calls made to subscribers so far.
 *
 * `QueueState` and the step functions give the meaning of each operation;
 * the class `Queue` holds the same state in fields and its methods are proved
 * to perform those steps.  The scenario lemmas are stated on the step
 * functions.
 */
module DeliveryQueue {
  import opened Wrappers
  import opened Message

  /** Identity of a subscriber callback passed to `onStateChange`. */
  type CallbackId = nat

  /** One invocation of a subscriber with a state value. */
  datatype Delivery = Delivery(to: CallbackId, value: JsValue)

  /**
   * `pending` is `mostRecentState` itself (it starts as `null`); `scheduled`
   * holds, oldest first, the state captured by each timer not yet fired;
   * `delivered` is every subscriber call so far.
   */
  datatype QueueState = QueueState(
    pending: JsValue,
    callback: Option<CallbackId>,
    scheduled: seq<JsValue>,
    title: string,
    delivered: seq<Delivery>)

  /** The state at page load, with the document's initial title. */
  function Initial(title: string): QueueState {
    QueueState(Null, None, [], title, [])
  }

  /** `asyncCallback(state)` (iframe-history.js:38-46). */
  function Delivered(s: QueueState, v: JsValue): QueueState {
    if s.callback.Some? then s.(scheduled := s.scheduled + [v]) else s.(pending := v)
  }

  /** `onStateChange(cb)` (iframe-history.js:24-31); `None` is a null or otherwise falsy argument. */
  function Subscribed(s: QueueState, cb: Option<CallbackId>): QueueState {
    var t := s.(callback := cb);
    if Truthy(t.pending) then Delivered(t.(pending := Null), t.pending) else t
  }

  /** `receiveMessage` for a parsed message arriving at time `now` (iframe-history.js:68-82). */
  function Received(s: QueueState, msg: Inbound, now: int): QueueState {
    match Decide(msg, now)
    case Ignore => s
    case SetTitle(t) => s.(title := t)
    case SetTitleAndForward(t, v) => Delivered(s.(title := t), v)
  }

  /**
   * The oldest timer fires (iframe-history.js:40-42): its captured state goes
   * to the callback registered now.  With none registered the call throws
   * inside the timer and nobody is called.
   */
  function Fired(s: QueueState): QueueState {
    if s.scheduled == [] then s
    else
      var v := s.scheduled[0];
      var t := s.(scheduled := s.scheduled[1..]);
      if s.callback.Some? then t.(delivered := s.delivered + [Delivery(s.callback.value, v)]) else t
  }

  /** All pending timers fire, oldest first. */
  function FiredAll(s: QueueState): QueueState
    decreases |s.scheduled|
  {
    if s.scheduled == [] then s else FiredAll(Fired(s))
  }

  /** The deliveries a subscriber `c` receives for the values `vs`, in order. */
  function DeliveriesTo(c: CallbackId, vs: seq<JsValue>): (r: seq<Delivery>)
    ensures |r| == |vs|
    ensures forall i | 0 <= i < |vs| :: r[i].to == c && r[i].value == vs[i]
  {
    if vs == [] then [] else [Delivery(c, vs[0])] + DeliveriesTo(c, vs[1..])
  }

  /** One event the page sees. */
  datatype Event =
    | OnStateChange(cb: Option<CallbackId>)
    | PostMessage(msg: Inbound, now: int)
    | TimerFires

  function Step(s: QueueState, e: Event): QueueState {
    match e
    case OnStateChange(cb) => Subscribed(s, cb)
    case PostMessage(msg, now) => Received(s, msg, now)
    case TimerFires => Fired(s)
  }

  function Run(s: QueueState, es: seq<Event>): QueueState
    decreases |es|
  {
    if es == [] then s else Run(Step(s, es[0]), es[1..])
  }

  predicate NoSubscribe(es: seq<Event>) {
    forall i | 0 <= i < |es| :: !es[i].OnStateChange?
  }

  // ---------------------------------------------------------------------
  // Properties of single steps

  /**
   * With no callback, a delivery overwrites the pending slot and schedules
   * nothing; with one, it schedules exactly one timer and leaves the slot.
   * Either way nobody is called synchronously.
   */
  lemma DeliveredCases(s: QueueState, v: JsValue)
    ensures s.callback.None? ==>
      Delivered(s, v) == s.(pending := v)
    ensures s.callback.Some? ==>
      Delivered(s, v).scheduled == s.scheduled + [v] && Delivered(s, v).pending == s.pending
    ensures Delivered(s, v).delivered == s.delivered
    ensures Delivered(s, v).callback == s.callback && Delivered(s, v).title == s.title
  {
  }

  /** Last write wins: of two unsubscribed deliveries only the second is kept. */
  lemma LastWriteWins(s: QueueState, v1: JsValue, v2: JsValue)
    requires s.callback.None?
    ensures Delivered(Delivered(s, v1), v2) == s.(pending := v2)
  {
  }

  /**
   * `onStateChange` replaces the callback; a truthy pending value is cleared
   * and scheduled exactly once (or, when the new callback is null, stored
   * again); a falsy one stays in the slot and is not replayed.
   */
  lemma SubscribedCases(s: QueueState, cb: Option<CallbackId>)
    ensures Subscribed(s, cb).callback == cb
    ensures Subscribed(s, cb).delivered == s.delivered && Subscribed(s, cb).title == s.title
    ensures Truthy(s.pending) && cb.Some? ==>
      Subscribed(s, cb).pending == Null && Subscribed(s, cb).scheduled == s.scheduled + [s.pending]
    ensures cb.None? || !Truthy(s.pending) ==>
      Subscribed(s, cb).pending == s.pending && Subscribed(s, cb).scheduled == s.scheduled
  {
  }

  /** A foreign or malformed message changes nothing at all. */
  lemma ReceivedForeignUnchanged(s: QueueState, msg: Inbound, now: int)
    requires !Accepted(msg)
    ensures Received(s, msg, now) == s
  {
  }

  /**
   * An accepted message sets the title even when its object is suppressed,
   * and its object reaches `asyncCallback` iff forced or older than 200 ms.
   */
  lemma ReceivedAccepted(s: QueueState, msg: Inbound, now: int)
    requires Accepted(msg)
    ensures Received(s, msg, now).title == msg.title
    ensures Received(s, msg, now).delivered == s.delivered
    ensures PassesFilter(msg.force, msg.timestamp, now) ==>
      Received(s, msg, now) == Delivered(s.(title := msg.title), msg.obj)
    ensures !PassesFilter(msg.force, msg.timestamp, now) ==>
      Received(s, msg, now) == s.(title := msg.title)
  {
  }

  /** A fired timer calls the callback registered at fire time, not the one at scheduling time. */
  lemma FiredGoesToCurrentCallback(s: QueueState, c: CallbackId)
    requires s.scheduled != [] && s.callback == Some(c)
    ensures Fired(s).delivered == s.delivered + [Delivery(c, s.scheduled[0])]
    ensures Fired(s).scheduled == s.scheduled[1..]
  {
  }

  /** Only a firing timer calls a subscriber: every other event leaves the calls made so far untouched. */
  lemma NoSynchronousDelivery(s: QueueState, e: Event)
    requires !e.TimerFires?
    ensures Step(s, e).delivered == s.delivered
  {
    match e
    case OnStateChange(cb) => SubscribedCases(s, cb);
    case PostMessage(msg, now) =>
      if Accepted(msg) { ReceivedAccepted(s, msg, now); }
  }

  // ---------------------------------------------------------------------
  // Properties of runs

  /** Firing every timer empties the timer list and changes nothing but the calls made. */
  lemma {:induction false} FiredAllFrame(s: QueueState)
    ensures FiredAll(s).scheduled == []
    ensures FiredAll(s).pending == s.pending && FiredAll(s).callback == s.callback
    ensures FiredAll(s).title == s.title
    decreases |s.scheduled|
  {
    if s.scheduled != [] {
      FiredAllFrame(Fired(s));
    }
  }

  /** Firing every timer hands the current callback every scheduled value, in order. */
  lemma {:induction false} FiredAllDelivers(s: QueueState, c: CallbackId)
    requires s.callback == Some(c)
    ensures FiredAll(s).delivered == s.delivered + DeliveriesTo(c, s.scheduled)
    decreases |s.scheduled|
  {
    if s.scheduled == [] {
      assert DeliveriesTo(c, s.scheduled) == [];
      assert s.delivered + [] == s.delivered;
    } else {
      var t := Fired(s);
      var d := Delivery(c, s.scheduled[0]);
      assert t.callback == Some(c) && t.delivered == s.delivered + [d] && t.scheduled == s.scheduled[1..];
      FiredAllDelivers(t, c);
      assert DeliveriesTo(c, s.scheduled) == [d] + DeliveriesTo(c, t.scheduled);
      assert s.delivered + [d] + DeliveriesTo(c, t.scheduled) == s.delivered + ([d] + DeliveriesTo(c, t.scheduled));
    }
  }

  /** With no callback registered, firing every timer calls nobody. */
  lemma {:induction false} FiredAllUnsubscribed(s: QueueState)
    requires s.callback.None?
    ensures FiredAll(s).delivered == s.delivered
    decreases |s.scheduled|
  {
    if s.scheduled != [] {
      FiredAllUnsubscribed(Fired(s));
    }
  }

  /**
   * Late-subscriber replay: a truthy value delivered before any subscriber
   * reaches the subscriber registered later exactly once, and only when a
   * timer fires.
   */
  lemma SubscriberReplay(title: string, v: JsValue, cb: CallbackId)
    requires Truthy(v)
    ensures Subscribed(Delivered(Initial(title), v), Some(cb)).delivered == []
    ensures FiredAll(Subscribed(Delivered(Initial(title), v), Some(cb))).delivered == [Delivery(cb, v)]
  {
    var s := Subscribed(Delivered(Initial(title), v), Some(cb));
    assert s.scheduled == [v];
    FiredAllDelivers(s, cb);
    assert DeliveriesTo(cb, [v]) == [Delivery(cb, v)];
  }

  /** `asyncCallback` applied to each of `vs` in turn. */
  function DeliveredAll(s: QueueState, vs: seq<JsValue>): QueueState
    decreases |vs|
  {
    if vs == [] then s else DeliveredAll(Delivered(s, vs[0]), vs[1..])
  }

  /** With no subscriber, any number of deliveries leave only the last value pending, and nothing else changes. */
  lemma {:induction false} DeliveredAllKeepsLast(s: QueueState, vs: seq<JsValue>)
    requires s.callback.None? && vs != []
    ensures DeliveredAll(s, vs) == s.(pending := vs[|vs| - 1])
    decreases |vs|
  {
    var t := Delivered(s, vs[0]);
    assert t == s.(pending := vs[0]);
    if |vs| > 1 {
      DeliveredAllKeepsLast(t, vs[1..]);
      assert vs[1..][|vs[1..]| - 1] == vs[|vs| - 1];
    } else {
      assert vs[1..] == [];
    }
  }

  /**
   * Of any number of values delivered before anyone subscribed, the late
   * subscriber gets only the most recent, exactly once.
   */
  lemma ReplayOnlyMostRecent(title: string, vs: seq<JsValue>, cb: CallbackId)
    requires vs != [] && Truthy(vs[|vs| - 1])
    ensures FiredAll(Subscribed(DeliveredAll(Initial(title), vs), Some(cb))).delivered
      == [Delivery(cb, vs[|vs| - 1])]
  {
    var v := vs[|vs| - 1];
    DeliveredAllKeepsLast(Initial(title), vs);
    assert DeliveredAll(Initial(title), vs) == Delivered(Initial(title), v);
    SubscriberReplay(title, v, cb);
  }

  /** A falsy value delivered before anyone subscribed is buffered but never replayed. */
  lemma FalsyNeverReplayed(title: string, v: JsValue, cb: CallbackId)
    requires !Truthy(v)
    ensures Subscribed(Delivered(Initial(title), v), Some(cb)).pending == v
    ensures FiredAll(Subscribed(Delivered(Initial(title), v), Some(cb))).delivered == []
  {
    var s := Subscribed(Delivered(Initial(title), v), Some(cb));
    assert s.scheduled == [];
  }

  /** Unsubscribing with `onStateChange(null)` keeps a truthy pending value in the slot. */
  lemma UnsubscribeKeepsPending(s: QueueState)
    requires Truthy(s.pending)
    ensures Subscribed(s, None) == s.(callback := None)
  {
  }

  /**
   * Re-subscription: once `c` is the callback, as long as nobody subscribes
   * again, every subscriber call that follows goes to `c`; the earlier calls
   * are kept as they were.
   */
  lemma {:induction false} OnlyCurrentSubscriberCalled(s: QueueState, c: CallbackId, es: seq<Event>)
    requires s.callback == Some(c) && NoSubscribe(es)
    ensures Run(s, es).callback == Some(c)
    ensures |s.delivered| <= |Run(s, es).delivered|
    ensures Run(s, es).delivered[..|s.delivered|] == s.delivered
    ensures forall i | |s.delivered| <= i < |Run(s, es).delivered| :: Run(s, es).delivered[i].to == c
    decreases |es|
  {
    if es != [] {
      var t := Step(s, es[0]);
      assert !es[0].OnStateChange?;
      assert |t.delivered| >= |s.delivered| && t.delivered[..|s.delivered|] == s.delivered;
      assert forall i | |s.delivered| <= i < |t.delivered| :: t.delivered[i].to == c;
      assert NoSubscribe(es[1..]) by {
        forall i | 0 <= i < |es[1..]| ensures !es[1..][i].OnStateChange? {
          assert es[1..][i] == es[i + 1];
        }
      }
      OnlyCurrentSubscriberCalled(t, c, es[1..]);
      var r := Run(t, es[1..]);
      assert r == Run(s, es);
      assert r.delivered[..|t.delivered|] == t.delivered;
      assert r.delivered[..|s.delivered|] == t.delivered[..|s.delivered|];
    }
  }

  /** `onStateChange(cb1)` then `onStateChange(cb2)`: afterwards `cb1` receives nothing new. */
  lemma ReplacedSubscriberSilenced(s: QueueState, cb1: CallbackId, cb2: CallbackId, es: seq<Event>)
    requires cb1 != cb2 && NoSubscribe(es)
    ensures forall i | |s.delivered| <= i < |Run(Subscribed(Subscribed(s, Some(cb1)), Some(cb2)), es).delivered| ::
      Run(Subscribed(Subscribed(s, Some(cb1)), Some(cb2)), es).delivered[i].to != cb1
  {
    var t := Subscribed(Subscribed(s, Some(cb1)), Some(cb2));
    SubscribedCases(s, Some(cb1));
    SubscribedCases(Subscribed(s, Some(cb1)), Some(cb2));
    OnlyCurrentSubscriberCalled(t, cb2, es);
  }

  /**
   * End to end: a forced `pushState(obj, title, true)` whose document posts
   * back to a page with subscriber `cb` sets the page title and, once the
   * timer fires, calls `cb` with `obj`.
   */
  lemma PushThenReceive(s: QueueState, obj: JsValue, title: string, now: int, later: int, cb: CallbackId)
    requires s.callback == Some(cb) && s.scheduled == []
    ensures Received(s, Outgoing(obj, title, Bool(true), now), later).title == title
    ensures FiredAll(Received(s, Outgoing(obj, title, Bool(true), now), later)).delivered
      == s.delivered + [Delivery(cb, obj)]
  {
    var r := Received(s, Outgoing(obj, title, Bool(true), now), later);
    assert r.scheduled == [obj];
    FiredAllDelivers(r, cb);
    assert DeliveriesTo(cb, [obj]) == [Delivery(cb, obj)];
  }

  // ---------------------------------------------------------------------
  // The closure state as an object

  /** The closure's mutable variables, updated in place by its functions. */
  class Queue {
    var pending: JsValue
    var callback: Option<CallbackId>
    var scheduled: seq<JsValue>
    var title: string
    var delivered: seq<Delivery>

    /** The current state as a value. */
    function State(): QueueState
      reads this
    {
      QueueState(pending, callback, scheduled, title, delivered)
    }

    /** Page load: nothing pending, no subscriber, no timers. */
    constructor (initialTitle: string)
      ensures State() == Initial(initialTitle)
    {
      pending := Null;
      callback := None;
      scheduled := [];
      title := initialTitle;
      delivered := [];
    }

    /** `asyncCallback(state)`. */
    method Deliver(state: JsValue)
      modifies this
      ensures State() == Delivered(old(State()), state)
    {
      if callback.Some? {
        scheduled := scheduled + [state];
      } else {
        pending := state;
      }
    }

    /** `onStateChange(cb)`. */
    method Subscribe(cb: Option<CallbackId>)
      modifies this
      ensures State() == Subscribed(old(State()), cb)
    {
      callback := cb;
      if Truthy(pending) {
        var state := pending;
        pending := Null;
        Deliver(state);
      }
    }

    /** `receiveMessage`, for the parse outcome `msg` at time `now`. */
    method Receive(msg: Inbound, now: int)
      modifies this
      ensures State() == Received(old(State()), msg, now)
    {
      if msg.Decoded? && msg.reserved == ReservedIdentifier {
        title := msg.title;
        if Truthy(msg.force) || (msg.timestamp.Some? && now - msg.timestamp.value > IgnoreMillisecondsOld) {
          Deliver(msg.obj);
        }
      }
    }

    /** The oldest timer fires; returns the callback it called, if any. */
    method FireOne() returns (to: Option<CallbackId>)
      modifies this
      ensures State() == Fired(old(State()))
      ensures to == if old(scheduled) != [] then old(callback) else None
    {
      to := None;
      if scheduled != [] {
        var state := scheduled[0];
        scheduled := scheduled[1..];
        if callback.Some? {
          delivered := delivered + [Delivery(callback.value, state)];
          to := callback;
        }
      }
    }
  }
}
