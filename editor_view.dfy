/**
  The editor view: the object that owns the current editor state and keeps
  the DOM in step with it. The collaborators it drives (the DOM observer,
  the doc view, the selection reader and `selectionToDOM`) are reduced to
  the fields they expose to the view; each collaborator method changes only
  those fields and appends one entry to a ghost call log. `Model()` gives
  the fields as a `Coordination.Fields` value. The collaborator methods,
  `SetState`, `Dispatch` and `Focus` are proved to have the effect the pure
  functions of `Coordination` describe, whose properties are proved there;
  `Root` and `HasFocus` are proved against `RootSearch.RootLookup`; the
  constructor states the fields it sets directly.
 */
module EditorViews {
  import opened EditorStates
  import C = Coordination
  import opened RootSearch

  class EditorView {
    var state: EditorState        // _state
    var dirtyRanges: nat          // docView.dirtyRanges.length
    var docViewDoc: DocId         // the document docView last reconciled against
    var observerActive: bool      // domObserver is started
    var ignoreUpdates: bool       // selectionReader.ignoreUpdates
    var rootCache: Option<DomNode> // _root
    const contentDOM: nat         // identity of the editable element
    ghost var log: seq<C.Entry>   // the collaborator calls made so far

    ghost function Model(): C.Fields
      reads this
    {
      C.Fields(state, dirtyRanges, docViewDoc, observerActive, ignoreUpdates, log)
    }

    /** Between calls the view is consistent in the sense of `Coordination`. */
    ghost predicate Valid()
      reads this
    {
      C.Consistent(Model())
    }

    /** A view over `initial`, whose editable element has identity
        `contentDOM`. The doc view is built from `initial.doc` and the
        observer is started last. */
    constructor (initial: EditorState, contentDOM: nat)
      ensures Valid()
      ensures state == initial && this.contentDOM == contentDOM && rootCache == None
      ensures dirtyRanges == 0 && docViewDoc == initial.doc
      ensures log == [C.Entry(C.Start, false, false)]
    {
      state := initial;
      this.contentDOM := contentDOM;
      rootCache := None;
      observerActive := false;
      ignoreUpdates := false;
      docViewDoc := initial.doc;
      dirtyRanges := 0;
      log := [];
      new;
      StartObserver();
      assert C.GuardedAt(log, 0);
    }

    // -------------------------------------------------------------------
    // Collaborators
    // -------------------------------------------------------------------

    /** domObserver.stop() */
    method StopObserver()
      modifies this`observerActive, this`log
      ensures Model() == C.AfterStop(old(Model()))
    {
      log := log + [C.Entry(C.Stop, ignoreUpdates, observerActive)];
      observerActive := false;
    }

    /** docView.update(doc): reconciles the DOM against `doc`, clearing the
        dirty ranges. */
    method UpdateDocView(doc: DocId)
      modifies this`docViewDoc, this`dirtyRanges, this`log
      ensures Model() == C.AfterUpdate(old(Model()), doc)
    {
      log := log + [C.Entry(C.Update(doc), ignoreUpdates, observerActive)];
      docViewDoc := doc;
      dirtyRanges := 0;
    }

    /** domObserver.start() */
    method StartObserver()
      modifies this`observerActive, this`log
      ensures Model() == C.AfterStart(old(Model()))
    {
      log := log + [C.Entry(C.Start, ignoreUpdates, observerActive)];
      observerActive := true;
    }

    /** selectionReader.clearDOMState() */
    method ClearSelectionState()
      modifies this`log
      ensures Model() == C.AfterClearDOMState(old(Model()))
    {
      log := log + [C.Entry(C.ClearDOMState, ignoreUpdates, observerActive)];
    }

    /** selectionToDOM(this, force): writes the selection of the current state. */
    method WriteSelection(force: bool)
      modifies this`log
      ensures Model() == C.AfterSelectionToDOM(old(Model()), force)
    {
      log := log + [C.Entry(C.SelectionToDOM(state.selection, force), ignoreUpdates, observerActive)];
    }

    // -------------------------------------------------------------------
    // The view's own operations
    // -------------------------------------------------------------------

    /** Replaces the state and brings the DOM in step with it: reconciles
        the doc view when the document changed or ranges are dirty, with
        the observer stopped, then writes the selection, all with selection
        updates ignored; does nothing else when neither is needed. */
    method SetState(newState: EditorState)
      requires Valid()
      modifies this`state, this`dirtyRanges, this`docViewDoc, this`observerActive,
               this`ignoreUpdates, this`log
      ensures Valid()
      ensures Model() == C.AfterSetState(old(Model()), newState)
    {
      ghost var before := Model();
      var prev := state;
      state := newState;
      var updateDOM := C.DOMUpdateNeeded(prev, newState, dirtyRanges);
      var updateSel := C.SelectionUpdateNeeded(prev, newState, updateDOM);
      if updateSel {
        ignoreUpdates := true;
        if updateDOM {
          StopObserver();
          UpdateDocView(newState.doc);
          StartObserver();
          ClearSelectionState();
        }
        WriteSelection(false);
        ignoreUpdates := false;
      }
      C.SetStateKeepsConsistent(before, newState);
    }

    /** The default `dispatch`: applies the transaction and sets the
        resulting state. */
    method Dispatch(tr: Transaction)
      requires Valid()
      modifies this`state, this`dirtyRanges, this`docViewDoc, this`observerActive,
               this`ignoreUpdates, this`log
      ensures Valid()
      ensures state == Apply(tr)
      ensures Model() == C.AfterSetState(old(Model()), Apply(tr))
    {
      SetState(Apply(tr));
    }

    /** Forces a selection write (and focus) without reconciling. */
    method Focus()
      requires Valid()
      modifies this`log
      ensures Valid()
      ensures Model() == C.AfterFocus(old(Model()))
    {
      ghost var before := Model();
      WriteSelection(true);
      C.FocusOnlyWritesSelection(before);
    }

    /** The `root` getter, as written: walks the ancestors, parent first,
        only while the cache is empty, stores and returns the first document
        or shadow root it meets; returns `document` otherwise, including
        whenever the cache was already set. */
    method Root(ancestors: seq<DomNode>, document: DomNode) returns (r: DomNode)
      modifies this`rootCache
      ensures (r, rootCache) == RootLookup(old(rootCache), ancestors, document)
    {
      var cached := rootCache;
      if cached.None? {
        var i := 0;
        while i < |ancestors|
          invariant 0 <= i <= |ancestors|
          invariant rootCache == None
          invariant forall j :: 0 <= j < i ==> !IsRoot(ancestors[j])
        {
          var search := ancestors[i];
          if IsRoot(search) {
            rootCache := Some(search);
            FirstLookup(ancestors, document);
            return search;
          }
          i := i + 1;
        }
        FirstLookup(ancestors, document);
      }
      r := document;
    }

    /** Whether the editable element is the active element of the root the
        getter returns. */
    method HasFocus(ancestors: seq<DomNode>, document: DomNode) returns (b: bool)
      modifies this`rootCache
      ensures rootCache == RootLookup(old(rootCache), ancestors, document).1
      ensures b == (RootLookup(old(rootCache), ancestors, document).0.activeElement == contentDOM)
    {
      var root := Root(ancestors, document);
      b := root.activeElement == contentDOM;
    }
  }
}
