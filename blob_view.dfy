/**
 * The blob-view injector: `injectBlobViewButton`
 * (src/inject-buttons.js:310-431). On a file page without the blob button it
 * looks for the element that shows the line count and size, first among the
 * matches of a list of known selectors, then among all leaf elements, and
 * inserts the VSCode and Cursor buttons right after it. Selector matching is
 * not modelled: each selector's matches, and the document's elements, are
 * given in document order.
 */
module BlobView {
  import opened Wrappers
  import opened Text
  import opened Buttons

  /** An element's parent, whose child list an insertion changes. */
  class ParentNode {
    var children: seq<Node>

    constructor (children: seq<Node>)
      ensures this.children == children
    {
      this.children := children;
    }

    /**
     * `parent.insertBefore(cursorButton, el.nextSibling)` then
     * `parent.insertBefore(vscodeButton, el.nextSibling)` for the child `el`
     * at position `i`: after the first call the next sibling is the Cursor
     * button, so the VSCode button lands between the two.
     */
    method InsertButtonsAfter(i: nat)
      requires i < |children|
      modifies this
      ensures children == InsertAfter(old(children), i, [BlobButton(Vscode), BlobButton(Cursor)])
    {
      children := children[..i + 1] + [BlobButton(Cursor)] + children[i + 1..];
      children := children[..i + 1] + [BlobButton(Vscode)] + children[i + 1..];
      assert children == old(children)[..i + 1] + [BlobButton(Vscode), BlobButton(Cursor)] + old(children)[i + 1..];
    }
  }

  /** An element the search may pick: its `textContent`, its `children.length`, and its place among its parent's child nodes. */
  datatype Candidate = Candidate(text: string, childElementCount: nat, parent: ParentNode, index: nat)

  /** The test on the known selectors' matches (src/inject-buttons.js:335): non-empty text holding `lines`, `loc`, `KB` or `MB`, case-sensitively. */
  predicate MentionsSize(c: Candidate) {
    c.text != "" && (Contains(c.text, "lines") || Contains(c.text, "loc") || Contains(c.text, "KB") || Contains(c.text, "MB"))
  }

  /** `s` starts with `lines`, `loc`, `KB`, `MB` or `Bytes`, case ignored. */
  predicate StartsWithUnit(s: string) {
    || StartsWithIgnoringCase(s, "lines") || StartsWithIgnoringCase(s, "loc")
    || StartsWithIgnoringCase(s, "kb") || StartsWithIgnoringCase(s, "mb")
    || StartsWithIgnoringCase(s, "bytes")
  }

  /** Whitespace, possibly none, then a unit. */
  predicate UnitAfterSpaces(s: string)
    decreases |s|
  {
    StartsWithUnit(s) || (|s| > 0 && IsJsSpace(s[0]) && UnitAfterSpaces(s[1..]))
  }

  /** `/\d+\s*(lines|loc|KB|MB|Bytes)/i.test(s)`, matched from each digit of `s`. */
  predicate MatchesSizePattern(s: string) {
    exists i :: 0 <= i < |s| && IsDigit(s[i]) && UnitAfterSpaces(s[i + 1..])
  }

  /** The regular expression read literally: digits `s[i..j]`, whitespace `s[j..k]`, then a unit at `k`. */
  predicate SizeMatchAt(s: string, i: int, j: int, k: int) {
    && 0 <= i < j <= k <= |s|
    && (forall m :: i <= m < j ==> IsDigit(s[m]))
    && AllSpace(s[j..k])
    && StartsWithUnit(s[k..])
  }

  lemma {:induction false} UnitAfterSpacesWitness(s: string) returns (k: nat)
    requires UnitAfterSpaces(s)
    ensures k <= |s| && AllSpace(s[..k]) && StartsWithUnit(s[k..])
    decreases |s|
  {
    if StartsWithUnit(s) {
      k := 0;
    } else {
      var k' := UnitAfterSpacesWitness(s[1..]);
      k := k' + 1;
      assert s[..k] == [s[0]] + s[1..][..k'];
    }
  }

  lemma {:induction false} UnitAfterSpacesFrom(s: string, k: nat)
    requires k <= |s| && AllSpace(s[..k]) && StartsWithUnit(s[k..])
    ensures UnitAfterSpaces(s)
    decreases k
  {
    if k > 0 {
      assert s[1..][..k - 1] == s[..k][1..];
      assert s[1..][k - 1..] == s[k..];
      UnitAfterSpacesFrom(s[1..], k - 1);
    }
  }

  lemma MatchGivesSpan(s: string, i: nat) returns (k: nat)
    requires i < |s| && IsDigit(s[i]) && UnitAfterSpaces(s[i + 1..])
    ensures SizeMatchAt(s, i, i + 1, k)
  {
    var t := s[i + 1..];
    var k' := UnitAfterSpacesWitness(t);
    assert t[..k'] == s[i + 1..i + 1 + k'];
    assert t[k'..] == s[i + 1 + k'..];
    k := i + 1 + k';
  }

  lemma SpanGivesMatch(s: string, i: int, j: int, k: int)
    requires SizeMatchAt(s, i, j, k)
    ensures IsDigit(s[j - 1]) && UnitAfterSpaces(s[j..])
  {
    var t := s[j..];
    assert t[..k - j] == s[j..k];
    assert t[k - j..] == s[k..];
    UnitAfterSpacesFrom(t, k - j);
  }

  /** Matching from the last digit of a run is the same as matching the whole pattern. */
  lemma SizePatternMeaning(s: string)
    ensures MatchesSizePattern(s) <==> exists i, j, k :: SizeMatchAt(s, i, j, k)
  {
    if MatchesSizePattern(s) {
      var i :| 0 <= i < |s| && IsDigit(s[i]) && UnitAfterSpaces(s[i + 1..]);
      var k := MatchGivesSpan(s, i);
    }
    if exists i, j, k :: SizeMatchAt(s, i, j, k) {
      var i, j, k :| SizeMatchAt(s, i, j, k);
      SpanGivesMatch(s, i, j, k);
      assert s[j - 1 + 1..] == s[j..];
    }
  }

  /** The fallback test on every element (src/inject-buttons.js:347): a leaf whose non-empty text matches the size pattern. */
  predicate IsSizeLeaf(c: Candidate) {
    c.childElementCount == 0 && c.text != "" && MatchesSizePattern(c.text)
  }

  /** The known-selector test is case-sensitive and the leaf test is not: `12 kb` passes only the second. */
  lemma CaseSensitivity(parent: ParentNode)
    ensures !MentionsSize(Candidate("12 kb", 0, parent, 0))
    ensures IsSizeLeaf(Candidate("12 kb", 0, parent, 0))
  {
    var t := "12 kb";
    if Contains(t, "lines") { ContainsChars(t, "lines", 'l'); }
    if Contains(t, "loc") { ContainsChars(t, "loc", 'l'); }
    if Contains(t, "KB") { ContainsChars(t, "KB", 'K'); }
    if Contains(t, "MB") { ContainsChars(t, "MB", 'M'); }
    assert StartsWithUnit(t[3..]);
    assert UnitAfterSpaces(t[2..]);
    assert IsDigit(t[1]) && UnitAfterSpaces(t[1 + 1..]);
  }

  /** The first element of `s` satisfying `p`. */
  function FirstWhere<T>(s: seq<T>, p: T -> bool): (r: Option<T>)
    ensures r.None? <==> forall i :: 0 <= i < |s| ==> !p(s[i])
    ensures r.Some? ==> exists i :: 0 <= i < |s| && s[i] == r.value && p(s[i])
                                   && forall j :: 0 <= j < i ==> !p(s[j])
  {
    if s == [] then None
    else if p(s[0]) then Some(s[0])
    else
      var r := FirstWhere(s[1..], p);
      assert forall i :: 1 <= i < |s| ==> s[i] == s[1..][i - 1];
      r
  }

  /** The first match of the first selector that has one. */
  function FirstInGroups(groups: seq<seq<Candidate>>): (r: Option<Candidate>)
    ensures r.None? <==> forall g :: 0 <= g < |groups| ==> FirstWhere(groups[g], MentionsSize).None?
    ensures r.Some? ==> exists g :: 0 <= g < |groups| && FirstWhere(groups[g], MentionsSize) == r
                                   && forall h :: 0 <= h < g ==> FirstWhere(groups[h], MentionsSize).None?
  {
    if groups == [] then None
    else match FirstWhere(groups[0], MentionsSize)
      case Some(c) => Some(c)
      case None =>
        var r := FirstInGroups(groups[1..]);
        assert forall g :: 1 <= g < |groups| ==> groups[g] == groups[1..][g - 1];
        r
  }

  /** The element the injector settles on: the known selectors first, then the leaf scan. */
  function SelectMetadata(groups: seq<seq<Candidate>>, all: seq<Candidate>): (r: Option<Candidate>)
    ensures r.None? <==> (forall g, i :: 0 <= g < |groups| && 0 <= i < |groups[g]| ==> !MentionsSize(groups[g][i]))
                         && (forall i :: 0 <= i < |all| ==> !IsSizeLeaf(all[i]))
    ensures r.Some? ==> (exists g :: 0 <= g < |groups| && r.value in groups[g] && MentionsSize(r.value))
                        || (r.value in all && IsSizeLeaf(r.value))
    ensures FirstInGroups(groups).Some? ==> r == FirstInGroups(groups)
    ensures FirstInGroups(groups).None? ==> r == FirstWhere(all, IsSizeLeaf)
  {
    match FirstInGroups(groups)
    case Some(c) => Some(c)
    case None => FirstWhere(all, IsSizeLeaf)
  }

  /** The two nested searches with `break` (src/inject-buttons.js:331-352). */
  method FindMetadata(groups: seq<seq<Candidate>>, all: seq<Candidate>) returns (found: Option<Candidate>)
    ensures found == SelectMetadata(groups, all)
  {
    found := None;
    var g := 0;
    while g < |groups|
      invariant 0 <= g <= |groups|
      invariant found.None?
      invariant FirstInGroups(groups) == FirstInGroups(groups[g..])
    {
      var elements := groups[g];
      var e := 0;
      while e < |elements|
        invariant 0 <= e <= |elements|
        invariant found.None?
        invariant FirstWhere(elements, MentionsSize) == FirstWhere(elements[e..], MentionsSize)
      {
        if MentionsSize(elements[e]) {
          found := Some(elements[e]);
          break;
        }
        assert elements[e..][1..] == elements[e + 1..];
        e := e + 1;
      }
      assert groups[g..][0] == elements && groups[g..][1..] == groups[g + 1..];
      if found.Some? {
        break;
      }
      g := g + 1;
    }
    if found.None? {
      var k := 0;
      while k < |all|
        invariant 0 <= k <= |all|
        invariant found.None?
        invariant FirstWhere(all, IsSizeLeaf) == FirstWhere(all[k..], IsSizeLeaf)
      {
        if IsSizeLeaf(all[k]) {
          found := Some(all[k]);
          break;
        }
        assert all[k..][1..] == all[k + 1..];
        k := k + 1;
      }
    }
  }

  /** The page: its pathname, and whether a `.open-in-vscode-blob-btn` is already in the document. */
  class Page {
    const pathname: string
    var hasBlobButton: bool

    constructor (pathname: string, hasBlobButton: bool)
      ensures this.pathname == pathname && this.hasBlobButton == hasBlobButton
    {
      this.pathname := pathname;
      this.hasBlobButton := hasBlobButton;
    }
  }

  ghost function Parents(groups: seq<seq<Candidate>>, all: seq<Candidate>): set<ParentNode> {
    (set g, c | g in groups && c in g :: c.parent) + (set c | c in all :: c.parent)
  }

  /** Every candidate is a child of its parent. */
  ghost predicate InPlace(groups: seq<seq<Candidate>>, all: seq<Candidate>)
    reads Parents(groups, all)
  {
    && (forall g, c :: g in groups && c in g ==> c.index < |c.parent.children|)
    && (forall c :: c in all ==> c.index < |c.parent.children|)
  }

  /** The element settled on sits among the candidates, in its parent. */
  lemma SelectedInPlace(groups: seq<seq<Candidate>>, all: seq<Candidate>)
    requires InPlace(groups, all)
    requires SelectMetadata(groups, all).Some?
    ensures var c := SelectMetadata(groups, all).value;
      c.parent in Parents(groups, all) && c.index < |c.parent.children|
  {
  }

  /** `children` with `nodes` inserted right after position `i`. */
  function InsertAfter(children: seq<Node>, i: nat, nodes: seq<Node>): (r: seq<Node>)
    requires i < |children|
    ensures |r| == |children| + |nodes|
    ensures r[..i + 1] == children[..i + 1]
    ensures r[i + 1..i + 1 + |nodes|] == nodes
    ensures r[i + 1 + |nodes|..] == children[i + 1..]
  {
    children[..i + 1] + nodes + children[i + 1..]
  }

  /**
   * `injectBlobViewButton`: only on `/blob/` pages without the blob button;
   * when an element is found, its parent's children read element, VSCode
   * button, Cursor button, and no other parent changes. Once injected, a
   * second run does nothing.
   */
  method InjectBlobViewButton(page: Page, groups: seq<seq<Candidate>>, all: seq<Candidate>)
    requires InPlace(groups, all)
    modifies page, Parents(groups, all)
    ensures var target := SelectMetadata(groups, all);
      var acts := Contains(page.pathname, "/blob/") && !old(page.hasBlobButton) && target.Some?;
      && page.hasBlobButton == (old(page.hasBlobButton) || acts)
      && (acts ==> target.value.parent.children
                   == InsertAfter(old(target.value.parent.children), target.value.index, [BlobButton(Vscode), BlobButton(Cursor)]))
      && (forall p :: p in Parents(groups, all) && !(acts && p == target.value.parent) ==> p.children == old(p.children))
  {
    if !Contains(page.pathname, "/blob/") {
      return;
    }
    if page.hasBlobButton {
      return;
    }
    var fileInfoElement := FindMetadata(groups, all);
    if fileInfoElement.None? {
      return;
    }
    var el := fileInfoElement.value;
    SelectedInPlace(groups, all);
    el.parent.InsertButtonsAfter(el.index);
    page.hasBlobButton := true;
  }
}
