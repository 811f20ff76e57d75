/**
  The rules by which `EditorView.setState` and `EditorView.focus` drive the
  view's collaborators (the DOM observer, the doc view and the selection
  reader), stated over a value that holds the abstract fields those
  collaborators expose. Each collaborator call changes those fields and
  appends one entry to a call log; the entry also records the two flags in
  force at the moment of the call, so that "the doc view is only updated
  while the observer is stopped" and "updates are ignored during every call"
  become statements about the log.
 */
module Coordination {
  import opened EditorStates

  /** The collaborator calls the view makes. */
  datatype Call =
    | Stop                        // domObserver.stop()
    | Update(doc: DocId)          // docView.update(doc)
    | Start                       // domObserver.start()
    | ClearDOMState               // selectionReader.clearDOMState()
    | SelectionToDOM(sel: Selection, force: bool) // selectionToDOM(view, force), writing view.state.selection

  /** A logged call with the values of `selectionReader.ignoreUpdates` and of
      "the observer is started" at the moment it was made. */
  datatype Entry = Entry(call: Call, ignoring: bool, observing: bool)

  /** The abstract fields of a view. */
  datatype Fields = Fields(
    state: EditorState,
    dirtyRanges: nat,      // docView.dirtyRanges.length
    docViewDoc: DocId,     // the document the doc view last reconciled against
    observerActive: bool,  // domObserver is started
    ignoreUpdates: bool,   // selectionReader.ignoreUpdates
    log: seq<Entry>)

  // ---------------------------------------------------------------------
  // Collaborator calls
  // ---------------------------------------------------------------------

  function Record(f: Fields, c: Call): Fields {
    f.(log := f.log + [Entry(c, f.ignoreUpdates, f.observerActive)])
  }

  function AfterStop(f: Fields): Fields {
    Record(f, Stop).(observerActive := false)
  }

  /** A successful reconciliation leaves the doc view mirroring `doc` with
      no stale regions. */
  function AfterUpdate(f: Fields, doc: DocId): Fields {
    Record(f, Update(doc)).(docViewDoc := doc, dirtyRanges := 0)
  }

  function AfterStart(f: Fields): Fields {
    Record(f, Start).(observerActive := true)
  }

  function AfterClearDOMState(f: Fields): Fields {
    Record(f, ClearDOMState)
  }

  /** `selectionToDOM` writes the selection of the state the view holds at
      the moment of the call. */
  function AfterSelectionToDOM(f: Fields, force: bool): Fields {
    Record(f, SelectionToDOM(f.state.selection, force))
  }

  // ---------------------------------------------------------------------
  // setState
  // ---------------------------------------------------------------------

  /** `updateDOM`: the document changed identity, or the doc view still has
      dirty ranges (a non-zero length is truthy). */
  predicate DOMUpdateNeeded(prev: EditorState, next: EditorState, dirtyRanges: nat) {
    next.doc != prev.doc || dirtyRanges != 0
  }

  /** `updateSel`: the DOM is updated, or the selection is not `eq` to the
      previous one. */
  predicate SelectionUpdateNeeded(prev: EditorState, next: EditorState, updateDOM: bool) {
    updateDOM || !prev.selection.Eq(next.selection)
  }

  /** The fields after `setState(next)`. */
  function AfterSetState(f: Fields, next: EditorState): (r: Fields)
    ensures r.state == next
    ensures f.log <= r.log
    ensures r.dirtyRanges == 0
    ensures |r.log| == |f.log| ==> r == f.(state := next)
    ensures |r.log| > |f.log| ==>
              !r.ignoreUpdates && r.log[|r.log| - 1] == Entry(SelectionToDOM(next.selection, false), true, r.observerActive)
  {
    var prev := f.state;
    var stored := f.(state := next);
    var updateDOM := DOMUpdateNeeded(prev, next, f.dirtyRanges);
    if !SelectionUpdateNeeded(prev, next, updateDOM) then
      stored
    else
      var guarded := stored.(ignoreUpdates := true);
      var synced :=
        if updateDOM then AfterClearDOMState(AfterStart(AfterUpdate(AfterStop(guarded), next.doc)))
        else guarded;
      AfterSelectionToDOM(synced, false).(ignoreUpdates := false)
  }

  /** The entries one `setState(next)` appends to the log. */
  function Appended(f: Fields, next: EditorState): seq<Entry> {
    AfterSetState(f, next).log[|f.log|..]
  }

  // ---------------------------------------------------------------------
  // focus
  // ---------------------------------------------------------------------

  /** The fields after `focus()`: a forced selection write and nothing else. */
  function AfterFocus(f: Fields): (r: Fields)
    ensures r.state == f.state && r.dirtyRanges == f.dirtyRanges && r.docViewDoc == f.docViewDoc
    ensures r.observerActive == f.observerActive && r.ignoreUpdates == f.ignoreUpdates
    ensures f.log <= r.log && |r.log| == |f.log| + 1 && r.log[|f.log|].call == SelectionToDOM(f.state.selection, true)
  {
    AfterSelectionToDOM(f, true)
  }

  // ---------------------------------------------------------------------
  // The state a view is in between calls
  // ---------------------------------------------------------------------

  /** Entry `i` of the log is guarded: a reconciliation ran with updates
      ignored and the observer stopped, immediately after a `Stop` and
      immediately before a `Start`; a selection write made by `setState` ran
      with updates ignored. */
  predicate GuardedAt(log: seq<Entry>, i: nat)
    requires i < |log|
  {
    (log[i].call.Update? ==>
       log[i].ignoring && !log[i].observing &&
       0 < i < |log| - 1 && log[i - 1].call == Stop && log[i + 1].call == Start) &&
    (log[i].call.SelectionToDOM? && !log[i].call.force ==> log[i].ignoring)
  }

  /** Every entry of the log is guarded. */
  predicate Guarded(log: seq<Entry>) {
    forall i :: 0 <= i < |log| ==> GuardedAt(log, i)
  }

  /** Between calls the observer is started, updates are not ignored, the doc
      view mirrors the current document and the history is guarded. */
  predicate Consistent(f: Fields) {
    f.observerActive && !f.ignoreUpdates && f.docViewDoc == f.state.doc && Guarded(f.log)
  }

  // ---------------------------------------------------------------------
  // Properties of setState
  // ---------------------------------------------------------------------

  /** `updateDOM` and `updateSel`, read off what the call does: the doc view
      is updated exactly when the document changed or ranges were dirty, and
      some collaborator is called exactly when, in addition, the selections
      may differ. */
  lemma DecisionsObservable(f: Fields, next: EditorState)
    ensures (exists i :: 0 <= i < |Appended(f, next)| && Appended(f, next)[i].call.Update?)
            <==> (next.doc != f.state.doc || f.dirtyRanges != 0)
    ensures Appended(f, next) != []
            <==> (next.doc != f.state.doc || f.dirtyRanges != 0 || !f.state.selection.Eq(next.selection))
  {
    var a := Appended(f, next);
    if next.doc != f.state.doc || f.dirtyRanges != 0 {
      ReconcileOrder(f, next);
      assert a[1].call.Update?;
    } else if !f.state.selection.Eq(next.selection) {
      SelectionOnly(f, next);
    } else {
      NoOpTransition(f, next);
    }
  }

  /** Same document, no dirty ranges and `eq` selections: no collaborator is
      called and only the stored state changes. */
  lemma NoOpTransition(f: Fields, next: EditorState)
    requires next.doc == f.state.doc && f.dirtyRanges == 0
    requires f.state.selection.Eq(next.selection)
    ensures AfterSetState(f, next) == f.(state := next)
    ensures Appended(f, next) == []
  {
  }

  /** A document change (or dirty ranges) runs the full sequence: stop the
      observer, update the doc view, restart the observer, clear the DOM
      selection state, write the selection; all with updates ignored. */
  lemma ReconcileOrder(f: Fields, next: EditorState)
    requires next.doc != f.state.doc || f.dirtyRanges != 0
    ensures Appended(f, next) == [
              Entry(Stop, true, f.observerActive),
              Entry(Update(next.doc), true, false),
              Entry(Start, true, false),
              Entry(ClearDOMState, true, true),
              Entry(SelectionToDOM(next.selection, false), true, true)]
    ensures var r := AfterSetState(f, next);
            r.observerActive && !r.ignoreUpdates && r.docViewDoc == next.doc && r.dirtyRanges == 0
  {
  }

  /** A selection-only change writes the selection once and touches neither
      the observer nor the doc view. */
  lemma SelectionOnly(f: Fields, next: EditorState)
    requires next.doc == f.state.doc && f.dirtyRanges == 0
    requires !f.state.selection.Eq(next.selection)
    ensures Appended(f, next) == [Entry(SelectionToDOM(next.selection, false), true, f.observerActive)]
    ensures var r := AfterSetState(f, next);
            r.observerActive == f.observerActive && r.docViewDoc == f.docViewDoc && !r.ignoreUpdates
  {
  }

  /** The state is stored before any collaborator is called, so every
      selection write `setState` makes carries the new selection; for a
      selection change that is not the previous selection. */
  lemma SelectionWriteSeesNewState(f: Fields, next: EditorState)
    ensures forall i :: 0 <= i < |Appended(f, next)| && Appended(f, next)[i].call.SelectionToDOM? ==>
              Appended(f, next)[i].call.sel == next.selection
    ensures !f.state.selection.Eq(next.selection) ==>
              exists i :: 0 <= i < |Appended(f, next)| &&
                Appended(f, next)[i].call == SelectionToDOM(next.selection, false) &&
                Appended(f, next)[i].call.sel != f.state.selection
  {
    if next.doc != f.state.doc || f.dirtyRanges != 0 {
      ReconcileOrder(f, next);
      assert Appended(f, next)[4].call == SelectionToDOM(next.selection, false);
    } else if !f.state.selection.Eq(next.selection) {
      SelectionOnly(f, next);
      assert Appended(f, next)[0].call == SelectionToDOM(next.selection, false);
    }
  }

  /** The flag discipline: every call `setState` makes is made with updates
      ignored, and the flag is cleared on return from a call that made any;
      a call that makes none leaves the flag alone. */
  lemma FlagDiscipline(f: Fields, next: EditorState)
    ensures forall i :: 0 <= i < |Appended(f, next)| ==> Appended(f, next)[i].ignoring
    ensures AfterSetState(f, next).ignoreUpdates == (Appended(f, next) == [] && f.ignoreUpdates)
  {
    if next.doc != f.state.doc || f.dirtyRanges != 0 {
      ReconcileOrder(f, next);
    } else if !f.state.selection.Eq(next.selection) {
      SelectionOnly(f, next);
    }
  }

  /** The doc view is only updated while the observer is stopped, the
      observer runs again on return, and the selection is written last,
      after any update. */
  lemma UpdateWhileStoppedSelectionLast(f: Fields, next: EditorState)
    requires f.observerActive
    ensures var a := Appended(f, next);
            (forall i :: 0 <= i < |a| && a[i].call.Update? ==> !a[i].observing) &&
            (a != [] ==> a[|a| - 1].call == SelectionToDOM(next.selection, false) &&
                         forall i :: 0 <= i < |a| - 1 ==> !a[i].call.SelectionToDOM?)
    ensures AfterSetState(f, next).observerActive
  {
    if next.doc != f.state.doc || f.dirtyRanges != 0 {
      ReconcileOrder(f, next);
    } else if !f.state.selection.Eq(next.selection) {
      SelectionOnly(f, next);
    }
  }

  /** Guarded histories compose: two guarded logs, one after the other, form
      a guarded log. */
  lemma GuardedConcat(a: seq<Entry>, b: seq<Entry>)
    requires Guarded(a) && Guarded(b)
    ensures Guarded(a + b)
  {
    var c := a + b;
    forall i | 0 <= i < |c|
      ensures GuardedAt(c, i)
    {
      if i < |a| {
        assert GuardedAt(a, i);
        assert c[i] == a[i];
        if a[i].call.Update? {
          assert c[i - 1] == a[i - 1] && c[i + 1] == a[i + 1];
        }
      } else {
        var j := i - |a|;
        assert GuardedAt(b, j);
        assert c[i] == b[j];
        if b[j].call.Update? {
          assert c[i - 1] == b[j - 1] && c[i + 1] == b[j + 1];
        }
      }
    }
  }

  /** `setState` keeps a consistent view consistent. */
  lemma SetStateKeepsConsistent(f: Fields, next: EditorState)
    requires Consistent(f)
    ensures Consistent(AfterSetState(f, next))
  {
    var r := AfterSetState(f, next);
    var a := Appended(f, next);
    assert r.log == f.log + a;
    if next.doc != f.state.doc || f.dirtyRanges != 0 {
      ReconcileOrder(f, next);
    } else if !f.state.selection.Eq(next.selection) {
      SelectionOnly(f, next);
    }
    assert Guarded(a);
    GuardedConcat(f.log, a);
  }

  /** Repeating a call changes nothing: the second `setState(s)` makes no
      collaborator call. */
  lemma SetStateIdempotent(f: Fields, s: EditorState)
    ensures AfterSetState(AfterSetState(f, s), s) == AfterSetState(f, s)
  {
  }

  /** No-op transitions: after `setState(s1)`, a `setState(s2)` with the same
      document and an `eq` selection makes no collaborator call. */
  lemma NoOpAfterSetState(f: Fields, s1: EditorState, s2: EditorState)
    requires s1.doc == s2.doc && s1.selection.Eq(s2.selection)
    ensures var g := AfterSetState(f, s1);
            AfterSetState(g, s2) == g.(state := s2)
  {
  }

  // ---------------------------------------------------------------------
  // Properties of focus
  // ---------------------------------------------------------------------

  /** `focus()` forces one selection write, never reconciles, and keeps a
      consistent view consistent. The write is made with updates not
      ignored: `focus` does not raise the flag. */
  lemma FocusOnlyWritesSelection(f: Fields)
    requires Consistent(f)
    ensures Consistent(AfterFocus(f))
    ensures AfterFocus(f).log[|f.log|..] == [Entry(SelectionToDOM(f.state.selection, true), false, true)]
  {
    var w := [Entry(SelectionToDOM(f.state.selection, true), false, true)];
    assert AfterFocus(f).log == f.log + w;
    assert Guarded(w);
    GuardedConcat(f.log, w);
  }
}
