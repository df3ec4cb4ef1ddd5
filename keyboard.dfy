/**
 * The keyboard shortcut (src/keyboard-shortcut.js:15-39): Cmd+. or Ctrl+.
 * on a file page sends the page's own URL to be opened in VSCode. Everything
 * the handler does is in the returned outcome; a rejected send is logged and
 * never escapes the handler.
 */
module Keyboard {
  import opened Wrappers
  import opened Text
  import opened Broker
  import opened Resolver

  datatype KeyEvent = KeyEvent(metaKey: bool, ctrlKey: bool, key: string)

  predicate IsShortcut(ev: KeyEvent) {
    (ev.metaKey || ev.ctrlKey) && ev.key == "."
  }

  predicate OnBlobPage(loc: Location) {
    Contains(loc.pathname, "/blob/")
  }

  function KeyDown(ev: KeyEvent, loc: Location, b: Behaviour): (o: Outcome)
    ensures o.prevented <==> IsShortcut(ev) && OnBlobPage(loc)
    ensures !o.prevented ==> o == Untouched
    ensures o.prevented ==> o.sent == [PingMessage, Message(OpenInVscode, Some(loc.href))]
    ensures o.logged <==> o.prevented && b.sendFails
    ensures !o.stopped && !o.alerted && o.hashNavigation == None
  {
    if IsShortcut(ev) then
      if !OnBlobPage(loc) then Untouched
      else
        var d := SendToBackground(Message(OpenInVscode, Some(loc.href)), b);
        Outcome(true, false, d.sent, !d.resolved, false, None)
    else Untouched
  }

  /** Whatever the ping does, the shortcut sends the same messages and handles the answer the same way. */
  lemma PingFailureIgnored(ev: KeyEvent, loc: Location, sendFails: bool)
    ensures KeyDown(ev, loc, Behaviour(true, sendFails)) == KeyDown(ev, loc, Behaviour(false, sendFails))
  {
  }

  /** Cmd+. on a file page sends exactly one open message, for the page's own URL. */
  lemma ShortcutOnFilePage(b: Behaviour)
    ensures var o := KeyDown(KeyEvent(true, false, "."),
                             Location("https://github.com", "/acme/widgets/blob/main/README.md",
                                      "https://github.com/acme/widgets/blob/main/README.md"), b);
      && o.prevented
      && o.sent == [PingMessage, Message(OpenInVscode, Some("https://github.com/acme/widgets/blob/main/README.md"))]
  {
    assert OccursAt("/acme/widgets/blob/main/README.md", "/blob/", 13);
    ContainsAt("/acme/widgets/blob/main/README.md", "/blob/");
  }

  /**
   * The pull-request example (`/acme/widgets/pull/42`) in a form that does
   * not unfold `includes` over a literal: a pathname without the letter b
   * cannot contain `/blob/`, so the shortcut leaves the event alone there.
   * For every other pathname without `/blob/` this follows from KeyDown's
   * own contract.
   */
  lemma ShortcutOffFilePages(ev: KeyEvent, loc: Location, b: Behaviour)
    requires 'b' !in loc.pathname
    ensures KeyDown(ev, loc, b) == Untouched
  {
    if Contains(loc.pathname, "/blob/") {
      ContainsChars(loc.pathname, "/blob/", 'b');
    }
  }
}
