# iframe-history, modelled in Dafny

iframe-history keeps a page's application state in the browser history. It does this through a hidden iframe. `pushState(object, title, force)` builds a small HTML document. That document holds the escaped title and a script, and the script posts a JSON envelope back to the parent page. The parent's `receiveMessage` listener filters what arrives. The listener accepts only messages tagged `"IFRAME_HISTORY"`, always applies the title, and forwards the state object only when the message is forced or older than 200 ms. Forwarded objects go to a delivery queue. It buffers at most one state while nobody has subscribed, it never calls the subscriber synchronously, and each `setTimeout` delivery goes to whichever callback is registered when the timer fires.

This project models the following, from `iframe-history.js`:

- `html_escape.dfy` (module `HtmlEscape`) models `escapeHtml`. It is written as a per-character map. It is proved equal to the source's five chained `.replace` calls, it never emits raw markup characters, and its entities decode back to the input.
- `message.dfy` (module `Message`) holds the inbound side. JavaScript values and their truthiness are modelled, and a parse outcome is an abstract datatype (`Inbound`). The decision of `receiveMessage` is `Decide`, and the envelope that `pushState` sends is `Outgoing`.
- `html_document.dfy` (module `HtmlDocument`) models the document template of `pushState`. The text after the document's first `<title>` up to the next `</title>` is exactly the escaped title.
- `delivery_queue.dfy` (module `DeliveryQueue`) models the closure variables `mostRecentState` and `onStateCallback`, plus `document.title`, the timers not yet fired and the subscriber calls made so far. This state is a value, `QueueState`, with one step function per operation, and the scenario lemmas are stated on those step functions. The class `Queue` holds the same state in fields. Its methods `Subscribe`, `Deliver`, `Receive` and `FireOne` update those fields the way the source updates its closure variables, and each method is proved to perform its step function.
- `wrappers.dfy` holds the `Option` datatype.

Four behaviours of the code are easy to misread:

- Replay in `onStateChange` and dispatch in `asyncCallback` test JavaScript truthiness. A falsy state (`0`, `""`, `false`, `null`) is buffered but never replayed.
- `onStateChange(null)` with a truthy pending state clears the slot, and `asyncCallback` then stores the state again.
- A delivery made while subscribed goes to the callback registered when the timer fires. That is not always the one registered when the delivery was scheduled.
- `force` is tested for truthiness, not compared to `true`.

## Model

| member | source | states |
|---|---|---|
| HtmlEscape.EscapeHtml | iframe-history.js:88-95 | models `escapeHtml`; its contract is stated by the lemmas below: equal to the five chained replacements (`EscapeHtmlIsChainedReplace`), no raw markup (`EscapeHtmlNoMarkup`), identity on plain text (`EscapeHtmlIdentity`), per-character (`EscapeHtmlConcat`), decodable (`UnescapeEscapeHtml`) |
| HtmlEscape.EscapeHtmlIsChainedReplace | iframe-history.js:88-95 | the per-character escaper equals the five global replacements applied in the source's order, `&` first |
| HtmlEscape.ChainedReplaceChar | iframe-history.js:89-94 | on a single character the chain yields exactly that character's entity; the `&` introduced by an earlier replacement is not escaped again |
| HtmlEscape.EscapeHtmlNoMarkup | iframe-history.js:89-94 | the escaped text contains no raw `<`, `>`, `"` or `'` |
| HtmlEscape.EscapeHtmlIdentity | iframe-history.js:89-94 | a string without any of the five special characters is returned unchanged |
| HtmlEscape.EscapeHtmlConcat | iframe-history.js:88-95 | escaping a concatenation is the concatenation of the escapings: the escaper works character by character, in order |
| HtmlEscape.UnescapeEscapeHtml | iframe-history.js:88-95 | decoding the five entities in the escaped text recovers the original string exactly |
| HtmlEscape.EscapeHtmlInjective | iframe-history.js:88-95 | two different titles never escape to the same text |
| HtmlEscape.AmpLastDoubleEscapes | iframe-history.js:90-94 | if `&` were replaced last, `<` would come out as `&amp;lt;`, so the source's order matters |
| HtmlDocument.Document | iframe-history.js:115 | models the document template of `pushState`; its title element is stated by `TitleTextOfDocument` and `TitleRecoverable` |
| HtmlDocument.TitleTextOfDocument | iframe-history.js:115 | the text between the first `<title>` and the next `</title>` of the generated document is exactly the escaped title, for any title and script body; it contains no `<` or `>` |
| HtmlDocument.TitleRecoverable | iframe-history.js:115 | decoding the entities of the document's title element gives back the caller's title |
| Message.Decide | iframe-history.js:76-79 | models the accept and forward decision of `receiveMessage`; stated by `DecideIgnoresForeign`, `DecideSetsTitle`, `DecideForwardsIff`, `ForcedAlwaysForwarded`, `ThresholdIsStrict` and `NaNTimestampNeedsForce` |
| Message.DecideIgnoresForeign | iframe-history.js:70-76 | a message is ignored if and only if it failed to parse or its `reserved` field is not `"IFRAME_HISTORY"` |
| Message.DecideSetsTitle | iframe-history.js:76-77 | an accepted message always sets the title to its own `title` field, whether or not its object is forwarded |
| Message.DecideForwardsIff | iframe-history.js:78-79 | an accepted message's object is forwarded if and only if `force` is truthy or `now - timestamp > 200`, and the forwarded value is the message's own object |
| Message.ForcedAlwaysForwarded | iframe-history.js:78-79 | a forced accepted message is forwarded whatever its timestamp |
| Message.ThresholdIsStrict | iframe-history.js:78 | an unforced message exactly 200 ms old is suppressed (title only) and one 201 ms old is forwarded |
| Message.NaNTimestampNeedsForce | iframe-history.js:78 | a timestamp that converts to NaN never passes the age test, so such a message is forwarded only when forced |
| Message.PushedStateDecision | iframe-history.js:107-113 | a pushed envelope received at `later` sets the title, and its object is forwarded exactly when `force` is truthy or `later - now > 200` |
| DeliveryQueue.Delivered | iframe-history.js:38-46 | models `asyncCallback`; stated by `DeliveredCases`, `LastWriteWins` and `DeliveredAllKeepsLast` |
| DeliveryQueue.Subscribed | iframe-history.js:24-31 | models `onStateChange`; stated by `SubscribedCases`, `UnsubscribeKeepsPending`, `SubscriberReplay` and `FalsyNeverReplayed` |
| DeliveryQueue.Received | iframe-history.js:68-82 | models `receiveMessage`; stated by `ReceivedForeignUnchanged`, `ReceivedAccepted` and `PushThenReceive` |
| DeliveryQueue.Fired | iframe-history.js:40-42 | models one firing of the timer closure; stated by `FiredGoesToCurrentCallback`, `FiredAllDelivers`, `FiredAllUnsubscribed` and `FiredAllFrame` |
| DeliveryQueue.DeliveredCases | iframe-history.js:38-46 | with no callback, `asyncCallback` overwrites the pending slot and schedules nothing; with a callback, it schedules exactly one timer and leaves the slot alone; it never calls anyone |
| DeliveryQueue.LastWriteWins | iframe-history.js:43-45 | two deliveries made with no subscriber leave only the second value pending |
| DeliveryQueue.SubscribedCases | iframe-history.js:24-31 | `onStateChange` replaces the callback; a truthy pending value is cleared and scheduled exactly once when the new callback is set; otherwise (falsy value, or null callback) the slot and timers stay as they were; nobody is called synchronously |
| DeliveryQueue.UnsubscribeKeepsPending | iframe-history.js:24-31 | `onStateChange(null)` with a truthy pending value only clears the callback: the value is stored again |
| DeliveryQueue.ReceivedForeignUnchanged | iframe-history.js:70-76 | a malformed or foreign message changes nothing: title, pending slot, timers, callback and calls are all unchanged |
| DeliveryQueue.ReceivedAccepted | iframe-history.js:76-80 | an accepted message sets the title, passes its object to `asyncCallback` when the filter passes, changes only the title otherwise, and calls nobody synchronously |
| DeliveryQueue.FiredGoesToCurrentCallback | iframe-history.js:40-42 | a firing timer calls the callback registered at fire time with the oldest scheduled value |
| DeliveryQueue.NoSynchronousDelivery | iframe-history.js:38-45 | subscribing and receiving a message never call a subscriber; only a firing timer does |
| DeliveryQueue.FiredAllFrame | iframe-history.js:40-42 | firing every timer empties the timer list and changes neither the pending slot, the callback nor the title |
| DeliveryQueue.FiredAllDelivers | iframe-history.js:40-42 | firing every timer under callback `c` calls `c` once with each scheduled value, oldest first |
| DeliveryQueue.FiredAllUnsubscribed | iframe-history.js:40-42 | with no callback registered, firing every timer calls nobody |
| DeliveryQueue.SubscriberReplay | iframe-history.js:24-46 | a truthy value delivered before anyone subscribes is not delivered during `onStateChange(cb)`, and once the timers fire `cb` has been called exactly once, with that value |
| DeliveryQueue.DeliveredAllKeepsLast | iframe-history.js:43-45 | any non-empty run of deliveries made with no subscriber leaves only the last value pending and changes nothing else |
| DeliveryQueue.ReplayOnlyMostRecent | iframe-history.js:21-46 | of any non-empty sequence of values delivered before anyone subscribes, the late subscriber receives only the most recent, exactly once (when that value is truthy) |
| DeliveryQueue.FalsyNeverReplayed | iframe-history.js:26-30 | a falsy value delivered before anyone subscribes stays in the slot and is never passed to the late subscriber |
| DeliveryQueue.OnlyCurrentSubscriberCalled | iframe-history.js:24-42 | while nobody subscribes again, every later subscriber call goes to the current callback and the earlier calls are untouched, over any sequence of messages and timer firings |
| DeliveryQueue.ReplacedSubscriberSilenced | iframe-history.js:24-25 | after `onStateChange(cb1)` then `onStateChange(cb2)`, `cb1` receives nothing more |
| DeliveryQueue.PushThenReceive | iframe-history.js:68-82 | a forced pushed envelope received by a subscribed page sets the title to the pushed title, and once the timer fires the subscriber has received the pushed object |
| DeliveryQueue.Queue.constructor | iframe-history.js:10-11 | at page load nothing is pending, there is no subscriber and no timer |
| DeliveryQueue.Queue.Deliver | iframe-history.js:38-46 | updates the fields exactly as the `asyncCallback` step does |
| DeliveryQueue.Queue.Subscribe | iframe-history.js:24-31 | updates the fields exactly as the `onStateChange` step does |
| DeliveryQueue.Queue.Receive | iframe-history.js:68-82 | updates the fields exactly as the `receiveMessage` step does |
| DeliveryQueue.Queue.FireOne | iframe-history.js:40-42 | pops the oldest timer, calls the callback registered now, and returns that callback, or none when there was no timer or no callback |

## Left out

- `JSON.parse` and `JSON.stringify` are library calls. A parse outcome is the abstract `Inbound` datatype, and the script body of the document is an opaque string. So the JSON round trip `decode(encode(E)) == E` is not proved; `Outgoing` gives the envelope as it reads after that round trip.
- Because the script body is opaque, the model says nothing about whether it can close the `<script>` element early. `JSON.stringify` does not escape `<` or `/`.
- Field coercions are simplified. `title` is taken as a string, so `document.title = undefined` is not modelled. A timestamp is its numeric value, or `None` when it converts to NaN. Numbers are integers.
- A subscriber is an identity (`CallbackId`). A null or falsy argument to `onStateChange` is `None`. A truthy argument that is not a function would throw when its timer fires; this is not modelled.
- A timer that fires with no callback registered throws inside `setTimeout`. The model drops that delivery and calls nobody.
- Real timer and clock semantics are not modelled. The current time is a parameter. Timers are a FIFO list, since all of them use the same 1 ms delay. The `Event` runs in `DeliveryQueue` do not model any actual delay.
- Loading the document into the frame (`doc.open`/`write`/`close`, and `iframe.src` with a base64 `data:` URI through `window.btoa`) is left out. It is a DOM side effect, and base64 is a browser built-in (section 4 of RFC 4648).
- User-agent sniffing, origin computation and listener registration (iframe-history.js:49-59) are left out. They probe and wire up the environment.
- `setFrame` (iframe-history.js:14-16) is a bare field assignment and is not modelled.
