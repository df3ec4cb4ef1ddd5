/**
 * The buttons the scripts create and what clicking them does: the diff-header
 * buttons of `createEditorButton` (src/inject-buttons.js:61-133) and the
 * blob-view buttons of `injectBlobViewButton` (src/inject-buttons.js:358-426).
 * Styles, icons, tooltips and hover handlers are not modelled.
 */
module Buttons {
  import opened Wrappers
  import opened Broker
  import opened Resolver

  datatype Editor = Vscode | Cursor

  function OpenAction(e: Editor): (a: Action)
    ensures a != Ping
    ensures a == OpenInVscode <==> e == Vscode
  {
    match e
    case Vscode => OpenInVscode
    case Cursor => OpenInCursor
  }

  /**
   * A child node of an element: one the page already had, a diff-header
   * button (class `open-in-vscode-btn` or `open-in-cursor-btn`, bound to a
   * file path), or a blob-view button (class `open-in-vscode-blob-btn` or
   * `open-in-cursor-blob-btn`).
   */
  datatype Node = Existing(id: nat) | EditorButton(editor: Editor, filePath: string) | BlobButton(editor: Editor)

  /**
   * A click on a diff-header button: default action and propagation are
   * always stopped; the file URL is resolved from the current page and sent
   * after a ping, and nothing is sent on pages that give no URL. A rejected
   * send is only logged.
   */
  function EditorButtonClick(editor: Editor, filePath: string, loc: Location, b: Behaviour): (o: Outcome)
    ensures o.prevented && o.stopped && !o.alerted && o.hashNavigation == None
    ensures ResolveEditorUrl(loc.origin, loc.pathname, filePath).None? ==> o.sent == [] && !o.logged
    ensures ResolveEditorUrl(loc.origin, loc.pathname, filePath).Some? ==>
              o.sent == [PingMessage, Message(OpenAction(editor), ResolveEditorUrl(loc.origin, loc.pathname, filePath))]
              && (o.logged <==> b.sendFails)
  {
    match ResolveEditorUrl(loc.origin, loc.pathname, filePath)
    case None => Outcome(true, true, [], false, false, None)
    case Some(url) =>
      var d := SendToBackground(Message(OpenAction(editor), Some(url)), b);
      Outcome(true, true, d.sent, !d.resolved, false, None)
  }

  /**
   * A click on a blob-view button: the current page's own URL is sent after a
   * ping; a rejected send is logged and shown in an alert.
   */
  function BlobButtonClick(editor: Editor, loc: Location, b: Behaviour): (o: Outcome)
    ensures o.prevented && o.stopped && o.hashNavigation == None
    ensures o.sent == [PingMessage, Message(OpenAction(editor), Some(loc.href))]
    ensures o.logged == b.sendFails && o.alerted == b.sendFails
  {
    var d := SendToBackground(Message(OpenAction(editor), Some(loc.href)), b);
    Outcome(true, true, d.sent, !d.resolved, !d.resolved, None)
  }
}
