/**
 * The mutation observer's callback (src/inject-buttons.js:209-224): a batch
 * of mutations triggers a full rescan when some mutation added nodes.
 * Subscription and scheduling are not modelled.
 */
module Observer {
  import opened Headers
  import opened Links
  import opened BlobView
  import opened Text
  import opened Buttons

  /** A mutation record, reduced to the length of its `addedNodes`. */
  datatype Mutation = Mutation(addedNodes: nat)

  /** The `shouldProcess` loop: stop at the first mutation that added nodes. */
  method ShouldProcess(mutations: seq<Mutation>) returns (shouldProcess: bool)
    ensures shouldProcess <==> exists i :: 0 <= i < |mutations| && mutations[i].addedNodes > 0
  {
    shouldProcess := false;
    var i := 0;
    while i < |mutations|
      invariant 0 <= i <= |mutations|
      invariant !shouldProcess
      invariant forall j :: 0 <= j < i ==> mutations[j].addedNodes == 0
    {
      if mutations[i].addedNodes > 0 {
        shouldProcess := true;
        break;
      }
      i := i + 1;
    }
  }

  /**
   * The callback: on a batch that added nodes, the header scan, the link
   * hijack and the blob-view injection run in that order over the elements
   * the page then holds; on any other batch nothing changes. When the
   * injection acts, the selected element's parent gains the two buttons right
   * after it and every other parent keeps its children.
   */
  method OnMutations(mutations: seq<Mutation>, headers: seq<FileHeader>, links: seq<DiffLink?>,
                     page: Page, groups: seq<seq<Candidate>>, all: seq<Candidate>)
    requires InPlace(groups, all)
    modifies (set h | h in headers), (set l | l in links && l != null), page, Parents(groups, all)
    ensures (exists i :: 0 <= i < |mutations| && mutations[i].addedNodes > 0) ==>
              && (forall h :: h in headers ==> h.View() == InjectSpec(old(h.View())))
              && (forall l :: l in links && l != null ==> l.View() == HijackSpec(old(l.View())))
              && page.hasBlobButton == (old(page.hasBlobButton)
                                        || (Contains(page.pathname, "/blob/") && SelectMetadata(groups, all).Some?))
              && var target := SelectMetadata(groups, all);
                 var acts := Contains(page.pathname, "/blob/") && !old(page.hasBlobButton) && target.Some?;
                 && (acts ==> target.value.parent.children
                              == InsertAfter(old(target.value.parent.children), target.value.index,
                                             [BlobButton(Vscode), BlobButton(Cursor)]))
                 && (forall p :: p in Parents(groups, all) && !(acts && p == target.value.parent) ==>
                                 p.children == old(p.children))
    ensures !(exists i :: 0 <= i < |mutations| && mutations[i].addedNodes > 0) ==>
              && (forall h :: h in headers ==> h.View() == old(h.View()))
              && (forall l :: l in links && l != null ==> l.View() == old(l.View()))
              && page.hasBlobButton == old(page.hasBlobButton)
              && (forall p :: p in Parents(groups, all) ==> p.children == old(p.children))
  {
    var shouldProcess := ShouldProcess(mutations);
    if shouldProcess {
      ProcessFileHeaders(headers);
      HijackFilePathLinks(links);
      InjectBlobViewButton(page, groups, all);
    }
  }
}
