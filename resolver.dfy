/**
 * The two rules that turn the current page's pathname into a file-view URL
 * `<origin>/<owner>/<repo>/blob/<ref>/<filePath>`: the one behind the editor
 * buttons (src/inject-buttons.js:101-119) and the one behind hijacked
 * file-list links (src/inject-buttons.js:268-282). The pathname is split on
 * `/`, so piece 0 is the empty string before the leading slash, the owner is
 * piece 1, the repository piece 2 and the page type piece 3.
 */
module Resolver {
  import opened Wrappers
  import opened Text

  /** The parts of `window.location` the scripts read. */
  datatype Location = Location(origin: string, pathname: string, href: string)

  /** The ref used when the page does not name one. */
  const DefaultRef := "main"

  /** `parts[i]` inside a template literal: past the end it reads `undefined`. */
  function Interpolated(parts: seq<string>, i: nat): (r: string)
    ensures i < |parts| ==> r == parts[i]
    ensures i >= |parts| ==> r == "undefined"
  {
    if i < |parts| then parts[i] else "undefined"
  }

  function BlobUrl(origin: string, owner: string, repo: string, ref: string, filePath: string): string {
    origin + "/" + owner + "/" + repo + "/blob/" + ref + "/" + filePath
  }

  /** Page types whose piece 4 is the ref for the editor buttons. */
  predicate NamesRef(kind: string) {
    kind == "commit" || kind == "compare" || kind == "tree" || kind == "blob"
  }

  /** A pathname: pieces joined with `/`, none holding a `/`. */
  predicate IsPathname(pathname: string, pieces: seq<string>) {
    && |pieces| >= 1
    && (forall i :: 0 <= i < |pieces| ==> '/' !in pieces[i])
    && pathname == JoinWith(pieces, '/')
  }

  /** The editor-button rule as the code has it: on a ref page with no piece 4 the ref is the text `undefined`. */
  function EditorUrlAsWritten(origin: string, pathname: string, filePath: string): (url: Option<string>)
    ensures url.Some? <==> var parts := SplitOn(pathname, '/');
              |parts| > 3 && (parts[3] == "pull" || NamesRef(parts[3]))
  {
    var parts := SplitOn(pathname, '/');
    if |parts| > 3 && parts[3] == "pull" then
      Some(BlobUrl(origin, parts[1], parts[2], DefaultRef, filePath))
    else if |parts| > 3 && NamesRef(parts[3]) then
      Some(BlobUrl(origin, parts[1], parts[2], Interpolated(parts, 4), filePath))
    else None
  }

  /**
   * On a ref page whose pathname stops after the page type (the compare
   * landing page `/acme/widgets/compare`, say) the as-written rule produces a
   * URL whose ref is the text `undefined`.
   */
  lemma EditorUrlAsWrittenUndefinedRef(origin: string, pathname: string, pieces: seq<string>, filePath: string)
    requires IsPathname(pathname, pieces) && |pieces| == 4 && NamesRef(pieces[3])
    ensures EditorUrlAsWritten(origin, pathname, filePath)
         == Some(BlobUrl(origin, pieces[1], pieces[2], "undefined", filePath))
    ensures ResolveEditorUrl(origin, pathname, filePath) == None
  {
    SplitJoin(pieces, '/');
  }

  /**
   * The editor-button rule, with the missing ref corrected to "no URL":
   * `pull` pages use the default ref, `commit`, `compare`, `tree` and `blob`
   * pages use piece 4, every other page gets no URL.
   */
  function ResolveEditorUrl(origin: string, pathname: string, filePath: string): (url: Option<string>)
    ensures url.Some? <==> var parts := SplitOn(pathname, '/');
              |parts| > 3 && (parts[3] == "pull" || (NamesRef(parts[3]) && |parts| > 4))
    ensures url.Some? ==> url == EditorUrlAsWritten(origin, pathname, filePath)
  {
    var parts := SplitOn(pathname, '/');
    if |parts| > 3 && parts[3] == "pull" then
      Some(BlobUrl(origin, parts[1], parts[2], DefaultRef, filePath))
    else if |parts| > 4 && NamesRef(parts[3]) then
      Some(BlobUrl(origin, parts[1], parts[2], parts[4], filePath))
    else None
  }

  /** On `commit`, `compare`, `tree` and `blob` pages the editor URL points at the ref named in the page URL. */
  lemma EditorUrlOnRefPages(origin: string, pathname: string, pieces: seq<string>, filePath: string)
    requires IsPathname(pathname, pieces) && |pieces| > 4 && NamesRef(pieces[3])
    ensures ResolveEditorUrl(origin, pathname, filePath)
         == Some(BlobUrl(origin, pieces[1], pieces[2], pieces[4], filePath))
  {
    SplitJoin(pieces, '/');
  }

  /** On `pull` pages the editor URL uses the default ref, whatever follows `pull`. */
  lemma EditorUrlOnPullPages(origin: string, pathname: string, pieces: seq<string>, filePath: string)
    requires IsPathname(pathname, pieces) && |pieces| > 3 && pieces[3] == "pull"
    ensures ResolveEditorUrl(origin, pathname, filePath)
         == Some(BlobUrl(origin, pieces[1], pieces[2], DefaultRef, filePath))
  {
    SplitJoin(pieces, '/');
  }

  /** Any other page type, and a ref page without a ref piece, gives no editor URL. */
  lemma EditorUrlElsewhere(origin: string, pathname: string, pieces: seq<string>, filePath: string)
    requires IsPathname(pathname, pieces)
    requires |pieces| <= 3 || (pieces[3] != "pull" && (!NamesRef(pieces[3]) || |pieces| == 4))
    ensures ResolveEditorUrl(origin, pathname, filePath) == None
  {
    SplitJoin(pieces, '/');
  }

  /**
   * The hijacked-link rule: `pull` pages use the default ref, otherwise a
   * non-empty piece 4 is the ref, otherwise the default ref. It always gives a
   * URL; a pathname too short to hold an owner or repository reads `undefined`
   * for the missing pieces.
   */
  function LinkRef(parts: seq<string>): (ref: string)
    ensures ref != ""
    ensures |parts| > 3 && parts[3] == "pull" ==> ref == DefaultRef
    ensures !(|parts| > 3 && parts[3] == "pull") && |parts| > 4 && parts[4] != "" ==> ref == parts[4]
    ensures |parts| <= 4 || parts[4] == "" ==> ref == DefaultRef
  {
    if |parts| > 3 && parts[3] == "pull" then DefaultRef
    else if |parts| > 4 && parts[4] != "" then parts[4]
    else DefaultRef
  }

  function LinkUrl(origin: string, pathname: string, filePath: string): string {
    var parts := SplitOn(pathname, '/');
    BlobUrl(origin, Interpolated(parts, 1), Interpolated(parts, 2), LinkRef(parts), filePath)
  }

  /** Outside `pull` pages a non-empty piece 4 is taken as the ref, whatever the page type. */
  lemma LinkUrlWithRef(origin: string, pathname: string, pieces: seq<string>, filePath: string)
    requires IsPathname(pathname, pieces) && |pieces| > 4 && pieces[3] != "pull" && pieces[4] != ""
    ensures LinkUrl(origin, pathname, filePath) == BlobUrl(origin, pieces[1], pieces[2], pieces[4], filePath)
  {
    SplitJoin(pieces, '/');
  }

  /** On `pull` pages, and on pages with an empty or missing piece 4, the link URL uses the default ref. */
  lemma LinkUrlDefaultRef(origin: string, pathname: string, pieces: seq<string>, filePath: string)
    requires IsPathname(pathname, pieces) && |pieces| > 3
    requires pieces[3] == "pull" || |pieces| == 4 || pieces[4] == ""
    ensures LinkUrl(origin, pathname, filePath) == BlobUrl(origin, pieces[1], pieces[2], DefaultRef, filePath)
  {
    SplitJoin(pieces, '/');
  }

  /** Wherever the editor buttons produce a URL with a non-empty ref, a hijacked link on the same page produces the same URL. */
  lemma ResolversAgree(origin: string, pathname: string, filePath: string)
    requires ResolveEditorUrl(origin, pathname, filePath).Some?
    requires var parts := SplitOn(pathname, '/'); parts[3] == "pull" || parts[4] != ""
    ensures ResolveEditorUrl(origin, pathname, filePath) == Some(LinkUrl(origin, pathname, filePath))
  {
  }
}
