/**
 * The link hijacker: `hijackFilePathLinks` (src/inject-buttons.js:227-297).
 * Each matched element resolves to its `<a>` (itself or `closest('a')`, given
 * here as a possibly-null reference); an unmarked link is marked with
 * `data-vscode-hijacked`, gets a `title`, and gets a click handler bound to
 * the file path read from its text and to its original `href`.
 */
module Links {
  import opened Wrappers
  import opened Text
  import opened Broker
  import opened Resolver
  import opened Headers

  /** What the click handler captures: the file path and the original `href`. */
  datatype Binding = Binding(filePath: string, originalHref: Option<string>)

  /** What the hijacker reads and writes of a link. */
  datatype LinkView = LinkView(href: Option<string>, text: string, hijacked: bool, title: Option<string>, binding: Option<Binding>)

  /** The file path taken from a link's text: trimmed, then with invisible characters removed. */
  function LinkFilePath(text: string): (p: string)
    ensures forall i :: 0 <= i < |p| ==> !IsInvisible(p[i])
    ensures StripInvisible(p) == p
  {
    StripIdempotent(Trim(text));
    StripInvisible(Trim(text))
  }

  function HijackTitle(filePath: string): string {
    "Open " + filePath + " in VSCode (Ctrl/Cmd+Click for original behavior)"
  }

  /** One link after the hijacker has seen it. */
  function HijackSpec(v: LinkView): LinkView {
    if v.hijacked then v
    else
      var p := LinkFilePath(v.text);
      v.(hijacked := true, title := Some(HijackTitle(p)), binding := Some(Binding(p, v.href)))
  }

  /**
   * What the hijacker guarantees for one link: it ends up marked; a marked
   * link is left alone; an unmarked one gets a handler bound to its cleaned
   * text and original `href`; its `href` and text never change.
   */
  lemma HijackGuarantees(v: LinkView)
    ensures var r := HijackSpec(v);
      && r.href == v.href && r.text == v.text && r.hijacked
      && (v.hijacked ==> r == v)
      && (!v.hijacked ==> r.binding == Some(Binding(LinkFilePath(v.text), v.href))
                          && r.title == Some(HijackTitle(LinkFilePath(v.text))))
  {
  }

  /** A link is hijacked at most once. */
  lemma HijackIdempotent(v: LinkView)
    ensures HijackSpec(HijackSpec(v)) == HijackSpec(v)
  {
  }

  class DiffLink {
    const href: Option<string>
    const text: string
    var hijacked: bool
    var title: Option<string>
    var binding: Option<Binding>

    function View(): LinkView
      reads this
    {
      LinkView(href, text, hijacked, title, binding)
    }

    constructor (href: Option<string>, text: string, hijacked: bool, title: Option<string>, binding: Option<Binding>)
      ensures View() == LinkView(href, text, hijacked, title, binding)
    {
      this.href := href;
      this.text := text;
      this.hijacked := hijacked;
      this.title := title;
      this.binding := binding;
    }

    /** The body of the hijacker's loop for one link: skip a marked link, else mark it, title it and bind its click handler. */
    method Hijack()
      modifies this
      ensures View() == HijackSpec(old(View()))
    {
      if hijacked {
        return;
      }
      hijacked := true;
      var filePath := StripInvisible(Trim(text));
      title := Some(HijackTitle(filePath));
      binding := Some(Binding(filePath, href));
    }
  }

  /**
   * `hijackFilePathLinks` over the links the matched elements resolve to, in
   * document order; `null` stands for an element with no enclosing `<a>`. A
   * link reached twice (an `<a>` and the `<code>` inside it both match) is
   * handled once. Afterwards every link carries the marker.
   */
  method HijackFilePathLinks(links: seq<DiffLink?>)
    modifies set l | l in links && l != null
    ensures forall l :: l in links && l != null ==> l.View() == HijackSpec(old(l.View()))
    ensures forall l :: l in links && l != null ==> l.hijacked
  {
    var i := 0;
    while i < |links|
      invariant 0 <= i <= |links|
      invariant forall l :: l in links[..i] && l != null ==> l.View() == HijackSpec(old(l.View()))
      invariant forall l :: l in links && l != null && l !in links[..i] ==> l.View() == old(l.View())
    {
      var link := links[i];
      if link != null {
        if link in links[..i] {
          HijackIdempotent(old(link.View()));
        }
        link.Hijack();
      }
      assert links[..i + 1] == links[..i] + [link];
      i := i + 1;
    }
    assert links[..i] == links;
    forall l | l in links && l != null
      ensures l.hijacked
    {
      HijackGuarantees(old(l.View()));
    }
  }

  /** Whether Ctrl or Meta was held during a click. */
  datatype Modifiers = Modifiers(metaKey: bool, ctrlKey: bool)

  /**
   * A click on a hijacked link (src/inject-buttons.js:258-295). With Meta or
   * Ctrl held the handler does nothing, so the browser follows the in-page
   * anchor. Otherwise it stops the event and sends the file URL after a ping;
   * if the send is rejected it logs and falls back to the original anchor.
   */
  function LinkClick(binding: Binding, mods: Modifiers, loc: Location, b: Behaviour): (o: Outcome)
    ensures mods.metaKey || mods.ctrlKey ==> o == Untouched
    ensures !(mods.metaKey || mods.ctrlKey) ==>
              && o.prevented && o.stopped && !o.alerted
              && o.sent == [PingMessage, Message(OpenInVscode, Some(LinkUrl(loc.origin, loc.pathname, binding.filePath)))]
              && (o.logged <==> b.sendFails)
              && (o.hashNavigation.Some? <==> b.sendFails && Truthy(binding.originalHref))
              && (o.hashNavigation.Some? ==> o.hashNavigation == binding.originalHref)
  {
    if mods.metaKey || mods.ctrlKey then Untouched
    else
      var url := LinkUrl(loc.origin, loc.pathname, binding.filePath);
      var d := SendToBackground(Message(OpenInVscode, Some(url)), b);
      var fallback := if !d.resolved && Truthy(binding.originalHref) then binding.originalHref else None;
      Outcome(true, true, d.sent, !d.resolved, false, fallback)
  }
}
