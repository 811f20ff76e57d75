# Editor view coordinator: a Dafny model

This project models the top-level coordinator of an in-browser rich-text
editor view, `EditorView` in `view/src/view.ts`. The view holds the current
immutable editor state and keeps the DOM in step with it. It drives three
collaborators: the DOM observer (`domObserver`), the document view tree
(`docView`) and the selection reader (`selectionReader`, with `selectionToDOM`).

The model covers:

- `setState`. It stores the new state and decides whether the DOM must be
  reconciled (`updateDOM`) and whether the selection must be written
  (`updateSel`). It then calls the collaborators in a fixed order, with the
  `ignoreUpdates` flag raised around the calls.
- The `root` getter. It walks the ancestors of the view's outer element to
  find the nearest document or shadow root, and caches what it finds.
- `hasFocus`, `focus`, the default `dispatch` and the constructor, each
  reduced to the abstract fields it touches.

Layout:

- `editor_states.dfy` (module `EditorStates`): the editor state as the view
  sees it. A document is an opaque identity, compared the way the code
  compares references. A selection has an `Eq` test. A transaction is
  reduced to the state that applying it yields.
- `coordination.dfy` (module `Coordination`): a pure value `Fields` holding
  the view's abstract fields. It has one function per collaborator call and
  the functions `AfterSetState` and `AfterFocus`. The lemmas state the
  ordering and flag rules. Every collaborator call appends an `Entry` to a
  log. The entry records the call and the values of `ignoreUpdates` and
  "observer started" at the moment of the call.
- `root_search.dfy` (module `RootSearch`): the ancestor chain as a sequence
  of node records, the nearest-root search, and the getter as written. It
  also holds the corrected memoised getter (see Findings).
- `editor_view.dfy` (module `EditorViews`): the class `EditorView`. Its
  fields are the abstract collaborator fields plus a ghost call log. The
  collaborator methods, `SetState`, `Dispatch` and `Focus` are proved to
  have the effect that the matching `Coordination` function describes.
  `Root` and `HasFocus` are proved against `RootSearch.RootLookup`. The
  constructor states the fields it sets directly. `Valid()` is
  `Coordination.Consistent`, and it holds between calls.

Inputs from outside the view are parameters:

- the ancestor chain of the outer element;
- the global `document`;
- the identity of the editable element.

Two behaviours of the code are kept as written:

- `_root` is written and tested for null, but its value is never returned,
  so once it is set the getter skips the walk and returns the global
  `document` (see Findings).
- `focus()` calls `selectionToDOM(this, true)` without raising
  `ignoreUpdates`. The model records that write with the flag down
  (`Coordination.FocusOnlyWritesSelection`).

## Model

| member | source | states |
|---|---|---|
| `EditorViews.EditorView.constructor` | view/src/view.ts:27-46 | the view stores the initial state, the doc view mirrors its document with no dirty ranges, `_root` is empty, and the only call made is starting the observer; the view is consistent |
| `EditorViews.EditorView.StopObserver` | view/src/view.ts:56 | stopping the observer logs `Stop` with the current flags and leaves the observer stopped |
| `EditorViews.EditorView.UpdateDocView` | view/src/view.ts:57 | `docView.update(doc)` logs `Update(doc)`; the doc view then mirrors `doc` with no dirty ranges |
| `EditorViews.EditorView.StartObserver` | view/src/view.ts:58 | starting the observer logs `Start` and leaves the observer started |
| `EditorViews.EditorView.ClearSelectionState` | view/src/view.ts:59 | `clearDOMState()` logs `ClearDOMState` and changes nothing else |
| `EditorViews.EditorView.WriteSelection` | view/src/view.ts:61 | `selectionToDOM(view, force)` logs `SelectionToDOM` with the selection of the view's current state and `force`, and changes nothing else |
| `EditorViews.EditorView.SetState` | view/src/view.ts:48-64 | the new fields are exactly `Coordination.AfterSetState` of the old ones, and a consistent view stays consistent |
| `EditorViews.EditorView.Dispatch` | view/src/view.ts:30 | the default dispatch sets the state the transaction yields, with the effect of `setState` on it |
| `EditorViews.EditorView.Focus` | view/src/view.ts:83-85 | `focus()` has exactly the effect of `Coordination.AfterFocus` and keeps the view consistent |
| `EditorViews.EditorView.Root` | view/src/view.ts:68-77 | the loop over the ancestors returns, and leaves in `_root`, exactly what `RootSearch.RootLookup` gives for the old cache |
| `EditorViews.EditorView.HasFocus` | view/src/view.ts:79-81 | the result is whether the active element of the root the getter returns is the editable element; the cache changes as in the getter |
| `Coordination.AfterSetState` | view/src/view.ts:48-64 | the stored state is always the argument; the log only grows; no dirty ranges remain; a call that makes no collaborator call changes only the state; otherwise the last call is the unforced write of the new selection, made with updates ignored, and the flag is down on return |
| `Coordination.AfterFocus` | view/src/view.ts:83-85 | `focus()` appends one forced write of the current selection and changes no other field |
| `Coordination.DecisionsObservable` | view/src/view.ts:51-52 | the doc view is updated if and only if the document changed or dirty ranges remain; some collaborator is called if and only if, in addition, the selections are not `eq` |
| `Coordination.NoOpTransition` | view/src/view.ts:51-53 | same document, no dirty ranges and `eq` selections: no call is logged, and flags, observer and doc view are untouched |
| `Coordination.ReconcileOrder` | view/src/view.ts:55-61 | when the DOM is updated the log grows by exactly Stop, Update(new doc), Start, ClearDOMState, SelectionToDOM(new selection, false), with the flags each call saw; afterwards the observer is started, the flag is down and the doc view mirrors the new document |
| `Coordination.SelectionOnly` | view/src/view.ts:52-61 | a selection-only change appends exactly SelectionToDOM(new selection, false) and leaves the observer and the doc view as they were |
| `Coordination.SelectionWriteSeesNewState` | view/src/view.ts:49-61 | the state is stored before any call, so every selection write `setState` makes carries the new selection, which for a selection change is not the previous one |
| `Coordination.FlagDiscipline` | view/src/view.ts:53-63 | every call `setState` makes sees `ignoreUpdates` true; the flag is false on return after any call, and untouched when no call is made |
| `Coordination.UpdateWhileStoppedSelectionLast` | view/src/view.ts:55-61 | for a view whose observer is running on entry: `docView.update` only runs while the observer is stopped; the observer runs again on return; the selection write is the last call and the only one |
| `Coordination.SetStateKeepsConsistent` | view/src/view.ts:48-64 | between calls the observer is started, the flag is down, the doc view mirrors the current document, and every reconciliation in the history sat between a Stop and a Start with updates ignored; `setState` keeps all of this |
| `Coordination.SetStateIdempotent` | view/src/view.ts:48-64 | calling `setState` twice with the same state is the same as calling it once |
| `Coordination.NoOpAfterSetState` | view/src/view.ts:51-53 | after `setState(s1)`, a `setState(s2)` with the same document and an `eq` selection makes no call and only replaces the state |
| `Coordination.FocusOnlyWritesSelection` | view/src/view.ts:83-85 | `focus()` appends only a forced write of the current selection, made with the flag down and the observer running, never a reconciliation; it keeps a consistent view consistent |
| `RootSearch.FirstRootAt` | view/src/view.ts:71-74 | the position found holds a document (type 9) or a shadow root (type 11 with a host), and no earlier ancestor is one; there is no result exactly when no ancestor is one |
| `RootSearch.RootLookup` | view/src/view.ts:68-77 | a set cache is never changed; the result is the global `document` or the root just stored; a stored root is an ancestor and a document or shadow root |
| `RootSearch.FirstLookup` | view/src/view.ts:70-76 | with an empty cache the getter returns and stores the nearest document or shadow root; with none it returns `document` and the cache stays empty |
| `RootSearch.CachedLookup` | view/src/view.ts:69-76 | with the cache set the getter does not walk, keeps the cache and returns `document` |
| `RootSearch.CachedRootDiscarded` | view/src/view.ts:69-76 | for a view inside a shadow root, the first access returns the shadow root and the second returns the global document |
| `RootSearch.MemoisedRootLookup` | view/src/view.ts:68-77 | the corrected getter fills the cache as the written one does and returns the stored root whenever there is one |
| `RootSearch.MemoisedRootStable` | view/src/view.ts:68-77 | once the corrected getter has found a root, every later access returns that root, whatever the ancestors are then |

## Findings

| source | as written | input that shows it | evidently intended | confidence | as-written member | corrected member |
|---|---|---|---|---|---|---|
| view/src/view.ts:69-76 | when `_root` is set, control falls through to `return document`; the cached root is never returned | a view whose only root ancestor is a shadow root (type 11 with a host): the first access of `root` returns the shadow root, the second returns the global document | return the cached root when it is set | medium; not executed | `RootSearch.CachedRootDiscarded` | `RootSearch.MemoisedRootStable` |

The class `EditorViews.EditorView` keeps the getter as written, because that
is what the code does. `HasFocus` therefore consults the global document's
active element on every access after the first successful lookup.
`RootSearch.MemoisedRootLookup` is the corrected getter. Its stability is
proved in `RootSearch.MemoisedRootStable`.

## Left out

- DOM construction in the constructor (class names, `contenteditable`, building `pre` and `div`) is platform plumbing. The editable element is an opaque identity passed in.
- `attachEventHandlers` and `props.handleDOMEvents` decode input. Their source is not part of this model.
- The internals of `DOMObserver`, `DocViewDesc.update`, `SelectionReader` and `selectionToDOM` are not part of this model. Each is an abstract change of the fields it exposes, plus a log entry. A reconciliation is taken to succeed: the doc view then mirrors the new document and the dirty ranges are cleared.
- A freshly built `DocViewDesc` is taken to mirror its document with no dirty ranges, a freshly built `DOMObserver` to be stopped until the constructor starts it, and a freshly built `SelectionReader` to have `ignoreUpdates` false. `Valid()` after construction rests on these three starting values. The constructors of these collaborators are not part of this model.
- Dirty ranges are added by collaborators not shown here. The class never adds any. The `Coordination` lemmas hold for any number of dirty ranges.
- `EditorState`, `Transaction` and `tr.apply()` belong to the document model. A document is an opaque identity. `Selection.Eq` compares anchor and head. A transaction carries the state that applying it yields.
- A `dispatch` function supplied to the constructor is caller code. Only the default (`setState(tr.apply())`) is modelled.
- The `state` and `props` getters only return a field. `props` is not modelled.
- `hasFocus` compares `root.activeElement` with the editable element by opaque identity. Browser focus rules are not modelled.
- The ancestor chain is a parameter of the getter. Moving the view between calls gives a different chain, which is why the cache can go stale.
- Event-loop timing, mutation-record coalescing and concurrency are left out. The code is synchronous.
