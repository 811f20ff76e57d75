/**
  The immutable editor state the view displays, reduced to what the view's
  coordinator looks at. The document model itself lives outside the view:
  here a document is an opaque identity and a selection a value with an
  equality test.
 */
module EditorStates {

  /** Documents are compared by reference (`state.doc != prev.doc`), so an
      opaque identity stands for one. */
  type DocId = nat

  /** A logical selection over the document. `Eq` is the comparison the view
      uses to decide whether the native selection must be rewritten. */
  datatype Selection = Selection(anchor: nat, head: nat) {
    predicate Eq(other: Selection) {
      anchor == other.anchor && head == other.head
    }
  }

  /** An immutable snapshot: a document and a selection over it. */
  datatype EditorState = EditorState(doc: DocId, selection: Selection)

  /** A transaction, reduced to the state that applying it yields; how a
      transaction computes that state belongs to the document model. */
  datatype Transaction = Transaction(result: EditorState)

  function Apply(tr: Transaction): EditorState {
    tr.result
  }
}
