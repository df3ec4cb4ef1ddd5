/**
 * The diff-header scanner: `injectButton` (src/inject-buttons.js:143-189)
 * and `processFileHeaders` (src/inject-buttons.js:191-203). A header is an
 * object whose two candidate button containers have child lists that the
 * scanner changes in place; the attributes it reads are fixed. Which DOM
 * element a selector finds is given, not computed.
 */
module Headers {
  import opened Wrappers
  import opened Text
  import opened Buttons

  /** An attribute as `getAttribute` returns it counts only when it is a non-empty string (JavaScript `||`). */
  predicate Truthy(a: Option<string>) {
    a.Some? && a.value != ""
  }

  /** The first `a[title], a[href*="/blob/"], .link-gray-dark` of the file-info element: its `title` and its text. */
  datatype PathLink = PathLink(title: Option<string>, text: string)

  /** The first `.file-info, .file-header-title, [data-path]` of a header: its `data-path`, its `title` and its link. */
  datatype PathSource = PathSource(dataPath: Option<string>, title: Option<string>, link: Option<PathLink>)

  /** The link's `title`, else its trimmed text (src/inject-buttons.js:162). */
  function LinkPath(l: PathLink): Option<string> {
    if Truthy(l.title) then l.title
    else if Trim(l.text) != "" then Some(Trim(l.text))
    else None
  }

  /** The file-info element's `data-path`, else its `title`, else what its link gives (src/inject-buttons.js:154-164). */
  function SourcePath(src: PathSource): Option<string> {
    if Truthy(src.dataPath) then src.dataPath
    else if Truthy(src.title) then src.title
    else match src.link
      case None => None
      case Some(l) => LinkPath(l)
  }

  /** The file path of a header as the code looks for it (src/inject-buttons.js:150-166). */
  function ExtractFilePath(dataPath: Option<string>, source: Option<PathSource>): (path: Option<string>)
    ensures path.Some? ==> path.value != ""
  {
    if Truthy(dataPath) then dataPath
    else match source
      case None => None
      case Some(src) => SourcePath(src)
  }

  function LinkCandidates(l: PathLink): seq<Option<string>> {
    [l.title, Some(Trim(l.text))]
  }

  function LinkTail(link: Option<PathLink>): seq<Option<string>> {
    match link
    case None => []
    case Some(l) => LinkCandidates(l)
  }

  function SourceCandidates(src: PathSource): seq<Option<string>> {
    [src.dataPath, src.title] + LinkTail(src.link)
  }

  /** The ways to find a file path, in the order they are tried; an element that is missing contributes none. */
  function PathCandidates(dataPath: Option<string>, source: Option<PathSource>): seq<Option<string>> {
    [dataPath] + match source
      case None => []
      case Some(src) => SourceCandidates(src)
  }

  /** The first candidate that is present and non-empty. */
  function FirstTruthy(cs: seq<Option<string>>): (r: Option<string>)
    ensures r.None? <==> forall i :: 0 <= i < |cs| ==> !Truthy(cs[i])
    ensures r.Some? ==> exists i :: 0 <= i < |cs| && cs[i] == r && Truthy(r)
                                   && forall j :: 0 <= j < i ==> !Truthy(cs[j])
  {
    if cs == [] then None
    else if Truthy(cs[0]) then cs[0]
    else
      var r := FirstTruthy(cs[1..]);
      assert forall i :: 1 <= i < |cs| ==> cs[i] == cs[1..][i - 1];
      r
  }

  lemma FirstTruthyCons(c: Option<string>, rest: seq<Option<string>>)
    ensures FirstTruthy([c] + rest) == if Truthy(c) then c else FirstTruthy(rest)
  {
    assert ([c] + rest)[1..] == rest;
  }

  lemma LinkOrder(l: PathLink)
    ensures LinkPath(l) == FirstTruthy(LinkCandidates(l))
  {
    FirstTruthyCons(Some(Trim(l.text)), []);
    FirstTruthyCons(l.title, [Some(Trim(l.text))]);
  }

  lemma SourceOrder(src: PathSource)
    ensures SourcePath(src) == FirstTruthy(SourceCandidates(src))
  {
    var tail := LinkTail(src.link);
    if src.link.Some? {
      LinkOrder(src.link.value);
    } else {
      assert tail == [];
    }
    FirstTruthyCons(src.title, tail);
    FirstTruthyCons(src.dataPath, [src.title] + tail);
    assert SourceCandidates(src) == [src.dataPath] + ([src.title] + tail);
  }

  /** Extraction is exactly "the first usable candidate": the header's `data-path`, then the file-info element's `data-path` and `title`, then its link's `title` and trimmed text. */
  lemma ExtractionOrder(dataPath: Option<string>, source: Option<PathSource>)
    ensures ExtractFilePath(dataPath, source) == FirstTruthy(PathCandidates(dataPath, source))
  {
    match source
    case None =>
      FirstTruthyCons(dataPath, []);
    case Some(src) =>
      SourceOrder(src);
      FirstTruthyCons(dataPath, SourceCandidates(src));
  }

  /** What `injectButton` reads and writes of a header. */
  datatype HeaderView = HeaderView(
    dataPath: Option<string>,
    source: Option<PathSource>,
    markedElsewhere: bool,        // a `.open-in-vscode-btn` sits in the header outside the two containers
    actions: Option<seq<Node>>,   // children of the first `.file-actions, .file-header-actions`, if any
    info: Option<seq<Node>>)      // children of the first `.file-info, .file-header-title`, if any

  predicate HasVscodeButton(children: seq<Node>) {
    exists i :: 0 <= i < |children| && children[i].EditorButton? && children[i].editor == Vscode
  }

  /** `fileHeader.querySelector('.open-in-vscode-btn')` finds something. */
  predicate Annotated(v: HeaderView) {
    || v.markedElsewhere
    || (v.actions.Some? && HasVscodeButton(v.actions.value))
    || (v.info.Some? && HasVscodeButton(v.info.value))
  }

  /** The header after one `injectButton`. */
  function InjectSpec(v: HeaderView): HeaderView {
    if Annotated(v) then v
    else match ExtractFilePath(v.dataPath, v.source)
      case None => v
      case Some(p) =>
        var buttons := [EditorButton(Vscode, p), EditorButton(Cursor, p)];
        if v.actions.Some? then v.(actions := Some(buttons + v.actions.value))
        else if v.info.Some? then v.(info := Some(v.info.value + buttons))
        else v
  }

  /**
   * What one injection guarantees: attributes never change, an annotated
   * header, a header without a usable path and a header without a container
   * are left alone, the header ends up annotated exactly when a path
   * was found and a container exists, and the existing children stay, in
   * order, after (actions) or before (file info) the two new buttons.
   */
  lemma InjectGuarantees(v: HeaderView)
    ensures var r := InjectSpec(v);
      && r.dataPath == v.dataPath && r.source == v.source && r.markedElsewhere == v.markedElsewhere
      && (Annotated(v) ==> r == v)
      && (ExtractFilePath(v.dataPath, v.source).None? ==> r == v)
      && (v.actions.None? && v.info.None? ==> r == v)
      && (Annotated(r) <==>
            Annotated(v) || (ExtractFilePath(v.dataPath, v.source).Some? && (v.actions.Some? || v.info.Some?)))
      && r.actions.Some? == v.actions.Some? && r.info.Some? == v.info.Some?
      && (v.actions.Some? ==> |r.actions.value| - |v.actions.value| in {0, 2}
                              && r.actions.value[|r.actions.value| - |v.actions.value|..] == v.actions.value)
      && (v.info.Some? ==> |r.info.value| - |v.info.value| in {0, 2}
                           && r.info.value[..|v.info.value|] == v.info.value)
  {
    var r := InjectSpec(v);
    if !Annotated(v) && ExtractFilePath(v.dataPath, v.source).Some? {
      var p := ExtractFilePath(v.dataPath, v.source).value;
      if v.actions.Some? {
        assert r.actions.value[0] == EditorButton(Vscode, p);
      } else if v.info.Some? {
        assert r.info.value[|v.info.value|] == EditorButton(Vscode, p);
      }
    }
  }

  /** Where the buttons go: in front of the actions container's children, else after the file-info element's children. */
  lemma InjectPlacement(v: HeaderView, p: string)
    requires !Annotated(v) && ExtractFilePath(v.dataPath, v.source) == Some(p)
    ensures v.actions.Some? ==>
              InjectSpec(v).actions == Some([EditorButton(Vscode, p), EditorButton(Cursor, p)] + v.actions.value)
              && InjectSpec(v).info == v.info
    ensures v.actions.None? && v.info.Some? ==>
              InjectSpec(v).info == Some(v.info.value + [EditorButton(Vscode, p), EditorButton(Cursor, p)])
    ensures v.actions.None? && v.info.None? ==> InjectSpec(v) == v
  {
  }

  /** A header is processed at most once: injecting into the result changes nothing. */
  lemma InjectIdempotent(v: HeaderView)
    ensures InjectSpec(InjectSpec(v)) == InjectSpec(v)
  {
    InjectGuarantees(v);
    InjectGuarantees(InjectSpec(v));
  }

  class FileHeader {
    const dataPath: Option<string>
    const source: Option<PathSource>
    const markedElsewhere: bool
    var actions: Option<seq<Node>>
    var info: Option<seq<Node>>

    function View(): HeaderView
      reads this
    {
      HeaderView(dataPath, source, markedElsewhere, actions, info)
    }

    constructor (dataPath: Option<string>, source: Option<PathSource>, markedElsewhere: bool,
                 actions: Option<seq<Node>>, info: Option<seq<Node>>)
      ensures View() == HeaderView(dataPath, source, markedElsewhere, actions, info)
    {
      this.dataPath := dataPath;
      this.source := source;
      this.markedElsewhere := markedElsewhere;
      this.actions := actions;
      this.info := info;
    }

    /** `injectButton`: check the marker, find the path, then prepend to the actions container or append to the file-info element. */
    method InjectButton()
      modifies this
      ensures View() == InjectSpec(old(View()))
    {
      if Annotated(View()) {
        return;
      }
      var filePath := ExtractFilePath(dataPath, source);
      if filePath.None? {
        return;
      }
      var vscodeButton := EditorButton(Vscode, filePath.value);
      var cursorButton := EditorButton(Cursor, filePath.value);
      if actions.Some? {
        actions := Some([cursorButton] + actions.value);
        actions := Some([vscodeButton] + actions.value);
        assert actions.value == [vscodeButton, cursorButton] + old(actions.value);
      } else if info.Some? {
        info := Some(info.value + [vscodeButton]);
        info := Some(info.value + [cursorButton]);
        assert info.value == old(info.value) + [vscodeButton, cursorButton];
      }
    }
  }

  /**
   * `processFileHeaders`: `injectButton` on every header found, in document
   * order. A header listed twice is handled once, and afterwards a rescan
   * changes nothing.
   */
  method ProcessFileHeaders(headers: seq<FileHeader>)
    modifies set h | h in headers
    ensures forall h :: h in headers ==> h.View() == InjectSpec(old(h.View()))
    ensures forall h :: h in headers ==> InjectSpec(h.View()) == h.View()
  {
    var i := 0;
    while i < |headers|
      invariant 0 <= i <= |headers|
      invariant forall j :: 0 <= j < i ==> headers[j].View() == InjectSpec(old(headers[j].View()))
      invariant forall h :: h in headers && h !in headers[..i] ==> h.View() == old(h.View())
    {
      var h := headers[i];
      if h in headers[..i] {
        InjectIdempotent(old(h.View()));
      }
      h.InjectButton();
      assert headers[..i + 1] == headers[..i] + [h];
      i := i + 1;
    }
    forall h | h in headers
      ensures InjectSpec(h.View()) == h.View()
    {
      InjectIdempotent(old(h.View()));
    }
  }
}
