/**
  The `root` getter of the editor view: the nearest document or shadow root
  above the view's outer element, found by walking `parentNode` links and
  remembered in a cache field. The ancestor chain is given as a sequence,
  the element's parent first and the topmost node last.
 */
module RootSearch {

  datatype Option<T> = None | Some(value: T)

  /** An ancestor of the view's outer element: its identity, its `nodeType`,
      whether its `host` is set, and the identity of its `activeElement`
      (meaningful for documents and shadow roots only). */
  datatype DomNode = DomNode(id: nat, nodeType: int, hasHost: bool, activeElement: nat)

  const DocumentNode := 9
  const DocumentFragmentNode := 11

  /** A document, or a document fragment that has a host (a shadow root). */
  predicate IsRoot(n: DomNode) {
    n.nodeType == DocumentNode || (n.nodeType == DocumentFragmentNode && n.hasHost)
  }

  /** The position of the nearest root in the chain, if there is one. */
  function FirstRootAt(chain: seq<DomNode>): (r: Option<nat>)
    ensures r.Some? ==>
              r.value < |chain| && IsRoot(chain[r.value]) &&
              forall j :: 0 <= j < r.value ==> !IsRoot(chain[j])
    ensures r.None? <==> forall j :: 0 <= j < |chain| ==> !IsRoot(chain[j])
  {
    if chain == [] then None
    else if IsRoot(chain[0]) then Some(0)
    else
      match FirstRootAt(chain[1..])
      case None => None
      case Some(i) => Some(i + 1)
  }

  /** The getter as written: the value it returns and the cache afterwards.
      A walk happens only while the cache is empty; a found root is stored
      and returned; otherwise, and whenever the cache is already set, the
      global `document` is returned. */
  function RootLookup(cache: Option<DomNode>, chain: seq<DomNode>, document: DomNode): (r: (DomNode, Option<DomNode>))
    ensures cache.Some? ==> r.1 == cache
    ensures r.0 == document || (cache.None? && r.1 == Some(r.0))
    ensures r.1.Some? && cache.None? ==> r.1.value in chain && IsRoot(r.1.value)
  {
    if cache.Some? then (document, cache)
    else
      match FirstRootAt(chain)
      case Some(i) => (chain[i], Some(chain[i]))
      case None => (document, None)
  }

  /** With an empty cache the getter returns and stores the nearest root;
      with none in the chain it returns `document` and the cache stays
      empty. */
  lemma FirstLookup(chain: seq<DomNode>, document: DomNode)
    ensures forall k :: 0 <= k < |chain| && IsRoot(chain[k]) &&
                        (forall j :: 0 <= j < k ==> !IsRoot(chain[j])) ==>
                          RootLookup(None, chain, document) == (chain[k], Some(chain[k]))
    ensures (forall j :: 0 <= j < |chain| ==> !IsRoot(chain[j])) ==>
              RootLookup(None, chain, document) == (document, None)
  {
    forall k | 0 <= k < |chain| && IsRoot(chain[k]) && (forall j :: 0 <= j < k ==> !IsRoot(chain[j]))
      ensures FirstRootAt(chain) == Some(k)
    {
      var r := FirstRootAt(chain);
      assert r.Some?;
      assert !(r.value < k) && !(k < r.value);
    }
  }

  /** Once the cache is set the getter neither walks nor returns the cached
      root: it returns `document` whatever the chain. */
  lemma CachedLookup(cached: DomNode, chain: seq<DomNode>, document: DomNode)
    ensures RootLookup(Some(cached), chain, document) == (document, Some(cached))
  {
  }

  /** The cached root is discarded: a view inside a shadow root gets the
      shadow root from its first lookup and the global document from the
      second, although nothing moved. */
  lemma CachedRootDiscarded()
    ensures var shadow := DomNode(1, DocumentFragmentNode, true, 0);
            var document := DomNode(0, DocumentNode, false, 0);
            var first := RootLookup(None, [shadow], document);
            var second := RootLookup(first.1, [shadow], document);
            first.0 == shadow && second.0 == document && second.0 != first.0
  {
    var shadow := DomNode(1, DocumentFragmentNode, true, 0);
    assert FirstRootAt([shadow]) == Some(0);
  }

  /** The evidently intended getter: it fills the cache exactly as the
      written getter does, and returns the cached root whenever one is
      stored, `document` otherwise. */
  function MemoisedRootLookup(cache: Option<DomNode>, chain: seq<DomNode>, document: DomNode): (r: (DomNode, Option<DomNode>))
    ensures r.1 == RootLookup(cache, chain, document).1
    ensures r.1.Some? ==> r.0 == r.1.value
    ensures r.1.None? ==> r.0 == document
  {
    if cache.Some? then (cache.value, cache) else RootLookup(cache, chain, document)
  }

  /** The memoised getter is stable: every later lookup returns what the
      first one returned, whatever the chain then is, as long as the first
      one found a root. */
  lemma MemoisedRootStable(chain: seq<DomNode>, later: seq<DomNode>, document: DomNode)
    ensures var first := MemoisedRootLookup(None, chain, document);
            var second := MemoisedRootLookup(first.1, later, document);
            first.1.Some? ==> second.0 == first.0 && second.1 == first.1
  {
  }
}
