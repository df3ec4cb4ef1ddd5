/**
 * Messages to the extension's background script and `sendToBackground`
 * (src/inject-buttons.js:4-12, repeated in src/keyboard-shortcut.js:5-13):
 * a best-effort `ping` to wake the service worker, whose failure is ignored,
 * then the real message, whose failure is the caller's to handle. The
 * transport itself is not modelled; a send is an entry in the message log and
 * the two failure flags say how the background script answered.
 */
module Broker {
  import opened Wrappers

  datatype Action = Ping | OpenInVscode | OpenInCursor

  /** `{ action, url }`; the ping carries no URL. */
  datatype Message = Message(action: Action, url: Option<string>)

  const PingMessage := Message(Ping, None)

  /** Whether the background script rejects the ping and whether it rejects the real message. */
  datatype Behaviour = Behaviour(pingFails: bool, sendFails: bool)

  /** The messages sent, in order, and whether the promise returned to the caller resolved. */
  datatype Delivery = Delivery(sent: seq<Message>, resolved: bool)

  function SendToBackground(m: Message, b: Behaviour): (d: Delivery)
    ensures |d.sent| == 2 && d.sent[0] == PingMessage && d.sent[1] == m
    ensures d.resolved <==> !b.sendFails
  {
    Delivery([PingMessage, m], !b.sendFails)
  }

  /** The effects of one event handler run. */
  datatype Outcome = Outcome(
    prevented: bool,          // `preventDefault` was called
    stopped: bool,            // `stopPropagation` was called
    sent: seq<Message>,       // messages sent to the background script, in order
    logged: bool,             // an error was written to the console
    alerted: bool,            // an alert was shown
    hashNavigation: Option<string>)  // `window.location.hash` was set to this value

  /** A handler that returns before doing anything. */
  const Untouched := Outcome(false, false, [], false, false, None)
}
