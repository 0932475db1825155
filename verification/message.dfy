/**
 * The inbound side of the cross-document protocol: the values a parsed
 * message may carry, JavaScript truthiness, and the accept/forward decision
 * of `receiveMessage` (iframe-history.js:68-82).
 *
 * `JSON.parse` itself is not modelled: its outcome is the `Inbound` datatype,
 * and the current time is a parameter.
 */
module Message {
  import opened Wrappers

  /** The tag every message of this protocol carries (iframe-history.js:8). */
  const ReservedIdentifier: string := "IFRAME_HISTORY"

  /** Messages younger than this many milliseconds are not forwarded (iframe-history.js:9). */
  const IgnoreMillisecondsOld: int := 200

  /**
   * A value as the application state object or a message field may hold it.
   * Arrays and objects are opaque (`Obj`); numbers are integral.
   */
  datatype JsValue =
    | Undefined
    | Null
    | Bool(b: bool)
    | Num(n: int)
    | Str(s: string)
    | Obj(id: nat)

  /** JavaScript truthiness, as `if (v)` and `v || w` test it. */
  predicate Truthy(v: JsValue) {
    match v
    case Undefined => false
    case Null => false
    case Bool(b) => b
    case Num(n) => n != 0
    case Str(s) => s != []
    case Obj(_) => true
  }

  /**
   * The result of parsing `event.data`: either parsing failed or gave a value
   * without usable fields (`Malformed`), or it gave an object whose fields
   * are these.  `timestamp` is the field's numeric value, `None` when it
   * converts to NaN.
   */
  datatype Inbound =
    | Malformed
    | Decoded(reserved: string, force: JsValue, timestamp: Option<int>,
              title: string, obj: JsValue)

  /** What `receiveMessage` does with one message. */
  datatype Action =
    | Ignore
    | SetTitle(title: string)
    | SetTitleAndForward(title: string, obj: JsValue)

  /** The message belongs to this protocol (iframe-history.js:76). */
  predicate Accepted(msg: Inbound) {
    msg.Decoded? && msg.reserved == ReservedIdentifier
  }

  /** The staleness filter: forced, or older than the threshold (iframe-history.js:78). */
  predicate PassesFilter(force: JsValue, timestamp: Option<int>, now: int) {
    Truthy(force) || (timestamp.Some? && now - timestamp.value > IgnoreMillisecondsOld)
  }

  /** The decision of `receiveMessage` for a message arriving at time `now`. */
  function Decide(msg: Inbound, now: int): Action {
    if !Accepted(msg) then Ignore
    else if PassesFilter(msg.force, msg.timestamp, now) then SetTitleAndForward(msg.title, msg.obj)
    else SetTitle(msg.title)
  }

  /** A message that does not parse, or carries another tag, is ignored, and only such a message is. */
  lemma DecideIgnoresForeign(msg: Inbound, now: int)
    ensures Decide(msg, now) == Ignore <==> (msg.Malformed? || msg.reserved != ReservedIdentifier)
  {
  }

  /** An accepted message always sets the title from its own field, forwarded or not. */
  lemma DecideSetsTitle(msg: Inbound, now: int)
    requires Accepted(msg)
    ensures Decide(msg, now).SetTitle? || Decide(msg, now).SetTitleAndForward?
    ensures Decide(msg, now).title == msg.title
  {
  }

  /** An accepted message's object is forwarded iff it is forced or more than 200 ms old. */
  lemma DecideForwardsIff(msg: Inbound, now: int)
    requires Accepted(msg)
    ensures Decide(msg, now).SetTitleAndForward? <==>
      (Truthy(msg.force) || (msg.timestamp.Some? && now - msg.timestamp.value > 200))
    ensures Decide(msg, now).SetTitleAndForward? ==> Decide(msg, now).obj == msg.obj
  {
  }

  /** A forced message is forwarded whatever its timestamp. */
  lemma ForcedAlwaysForwarded(msg: Inbound, now: int)
    requires Accepted(msg) && Truthy(msg.force)
    ensures Decide(msg, now) == SetTitleAndForward(msg.title, msg.obj)
  {
  }

  /** Unforced, an age of exactly 200 ms is suppressed and an age of 201 ms is forwarded. */
  lemma ThresholdIsStrict(msg: Inbound, t: int)
    requires Accepted(msg) && !Truthy(msg.force) && msg.timestamp == Some(t)
    ensures Decide(msg, t + 200) == SetTitle(msg.title)
    ensures Decide(msg, t + 201) == SetTitleAndForward(msg.title, msg.obj)
  {
  }

  /** A timestamp that is not a number never passes the age test. */
  lemma NaNTimestampNeedsForce(msg: Inbound, now: int)
    requires Accepted(msg) && msg.timestamp.None?
    ensures Decide(msg, now).SetTitleAndForward? <==> Truthy(msg.force)
  {
  }

  /**
   * The envelope `pushState` posts (iframe-history.js:107-113), as the
   * receiving side sees it when `JSON.parse` undoes `JSON.stringify`.
   */
  function Outgoing(obj: JsValue, title: string, force: JsValue, now: int): Inbound {
    Decoded(ReservedIdentifier, Bool(Truthy(force)), Some(now), title, obj)
  }

  /** A pushed state, received at `later`, always sets the title; forced, or older than 200 ms, it is forwarded. */
  lemma PushedStateDecision(obj: JsValue, title: string, force: JsValue, now: int, later: int)
    ensures Decide(Outgoing(obj, title, force, now), later) ==
      if Truthy(force) || later - now > 200 then SetTitleAndForward(title, obj) else SetTitle(title)
  {
  }
}
