/**
 * The abstract document the preload script runs in: its elements, their shadow
 * roots and the focus inside them, and the `variables-suggestions` overlay
 * elements it holds.
 */
module Dom {
  import opened Wrappers
  import opened JsValues

  /** An element, identified by the document. */
  type ElementId = nat

  /** A shadow root and the element focused inside it (`shadowRoot.activeElement`). */
  datatype ShadowRoot = ShadowRoot(activeElement: Option<ElementId>)

  datatype Element = Element(localName: string, shadowRoot: Option<ShadowRoot>)

  /** The element focused inside `e`'s shadow root, when `e` has one and something in it is focused. */
  function ShadowActive(e: Element): Option<ElementId> {
    if e.shadowRoot.Some? then e.shadowRoot.value.activeElement else None
  }

  /**
   * A `variables-suggestions` element: the element it completes (`input`), its
   * `systemVariablesEnabled` property (any value can be stored there), its
   * `style.top` / `style.left` in pixels when set, and its `opened` property.
   */
  datatype Overlay = Overlay(
    input: Option<ElementId>,
    systemVariablesEnabled: Value,
    top: Option<int>,
    left: Option<int>,
    isOpened: bool)

  /** What `document.createElement('variables-suggestions')` yields before any property is set. */
  const FreshOverlay := Overlay(None, Undefined, None, None, false)

  /**
   * `rank` strictly decreases along every shadow-focus link, and every link
   * ends at an element of the document. This is what makes the shadow walk end.
   */
  ghost predicate Ranked(elements: map<ElementId, Element>, rank: map<ElementId, nat>) {
    forall id | id in elements ::
      id in rank &&
      (ShadowActive(elements[id]).Some? ==>
        var child := ShadowActive(elements[id]).value;
        child in elements && child in rank && rank[child] < rank[id])
  }

  /** Shadow trees are finite: no chain of shadow-focus links runs forever. */
  ghost predicate ShadowAcyclic(elements: map<ElementId, Element>) {
    exists rank: map<ElementId, nat> :: Ranked(elements, rank)
  }

  /** `p` follows shadow-focus links, one element to the next. */
  ghost predicate IsShadowChain(elements: map<ElementId, Element>, p: seq<ElementId>) {
    && |p| > 0
    && (forall i | 0 <= i < |p| :: p[i] in elements)
    && (forall i | 0 <= i < |p| - 1 :: ShadowActive(elements[p[i]]) == Some(p[i + 1]))
  }

  /** `to` is reached from `from` by following zero or more shadow-focus links. */
  ghost predicate Reaches(elements: map<ElementId, Element>, from: ElementId, to: ElementId) {
    exists p :: IsShadowChain(elements, p) && p[0] == from && p[|p| - 1] == to
  }

  /** The walk stops at `id`: it has no shadow root, or nothing is focused in it. */
  predicate IsDeepest(elements: map<ElementId, Element>, id: ElementId) {
    id in elements && ShadowActive(elements[id]).None?
  }

  lemma ReachesItself(elements: map<ElementId, Element>, id: ElementId)
    requires id in elements
    ensures Reaches(elements, id, id)
  {
    assert IsShadowChain(elements, [id]);
  }

  lemma ReachesThroughLink(elements: map<ElementId, Element>, from: ElementId, child: ElementId, to: ElementId)
    requires from in elements && ShadowActive(elements[from]) == Some(child)
    requires Reaches(elements, child, to)
    ensures Reaches(elements, from, to)
  {
    var p :| IsShadowChain(elements, p) && p[0] == child && p[|p| - 1] == to;
    var q := [from] + p;
    assert forall i | 1 <= i < |q| :: q[i] == p[i - 1];
    assert IsShadowChain(elements, q);
  }

  /** The element the shadow walk ends at when it starts at `id`. */
  ghost function DeepestFrom(elements: map<ElementId, Element>, rank: map<ElementId, nat>, id: ElementId): (r: ElementId)
    requires Ranked(elements, rank) && id in elements
    ensures IsDeepest(elements, r) && Reaches(elements, id, r)
    decreases rank[id]
  {
    match ShadowActive(elements[id])
    case None =>
      ReachesItself(elements, id);
      id
    case Some(child) =>
      var r := DeepestFrom(elements, rank, child);
      ReachesThroughLink(elements, id, child, r);
      r
  }

  /**
   * Shadow-focus links are functional, so two chains from one element that
   * both stop where the walk stops are the same chain.
   */
  lemma {:induction false} DeepestChainsAgree(elements: map<ElementId, Element>, p: seq<ElementId>, q: seq<ElementId>)
    requires IsShadowChain(elements, p) && IsShadowChain(elements, q) && p[0] == q[0]
    requires IsDeepest(elements, p[|p| - 1]) && IsDeepest(elements, q[|q| - 1])
    ensures p == q
    decreases |p|
  {
    // both chains leave their common first element exactly when it has a link to follow
    assert ShadowActive(elements[p[0]]) == if |p| > 1 then Some(p[1]) else None;
    assert ShadowActive(elements[q[0]]) == if |q| > 1 then Some(q[1]) else None;
    if |p| > 1 {
      assert IsShadowChain(elements, p[1..]);
      assert IsShadowChain(elements, q[1..]);
      DeepestChainsAgree(elements, p[1..], q[1..]);
      assert p == [p[0]] + p[1..];
      assert q == [q[0]] + q[1..];
    }
  }

  /** From any element, the walk has exactly one place to stop. */
  lemma DeepestIsUnique(elements: map<ElementId, Element>, from: ElementId, r1: ElementId, r2: ElementId)
    requires Reaches(elements, from, r1) && IsDeepest(elements, r1)
    requires Reaches(elements, from, r2) && IsDeepest(elements, r2)
    ensures r1 == r2
  {
    var p :| IsShadowChain(elements, p) && p[0] == from && p[|p| - 1] == r1;
    var q :| IsShadowChain(elements, q) && q[0] == from && q[|q| - 1] == r2;
    DeepestChainsAgree(elements, p, q);
  }

  /**
   * The element the shadow walk resolves for a document whose focused element
   * is `active`: `undefined` exactly when nothing is focused, otherwise the one
   * element reached by following shadow-focus links that has none to follow.
   */
  ghost function ResolveActive(active: Option<ElementId>, elements: map<ElementId, Element>): (r: Option<ElementId>)
    requires active.Some? ==> active.value in elements
    requires ShadowAcyclic(elements)
    ensures r.None? <==> active.None?
    ensures r.Some? ==> IsDeepest(elements, r.value) && Reaches(elements, active.value, r.value)
    ensures active.Some? ==> forall d: ElementId | Reaches(elements, active.value, d) && IsDeepest(elements, d) :: r == Some(d)
  {
    if active.None? then None
    else
      var rank :| Ranked(elements, rank);
      var r := DeepestFrom(elements, rank, active.value);
      assert forall d | Reaches(elements, active.value, d) && IsDeepest(elements, d) :: r == d by {
        forall d | Reaches(elements, active.value, d) && IsDeepest(elements, d) ensures r == d {
          DeepestIsUnique(elements, active.value, r, d);
        }
      }
      Some(r)
  }

  /** `!target || target.localName !== 'input'` fails: the walk found an `input` element. */
  predicate IsInputTarget(elements: map<ElementId, Element>, target: Option<ElementId>) {
    target.Some? && target.value in elements && elements[target.value].localName == "input"
  }

  /**
   * The shared document. `suggestions` lists its `variables-suggestions`
   * elements in document order, so `querySelector` finds the first one and
   * `body.appendChild` adds one at the end.
   */
  class Document {
    var activeElement: Option<ElementId>
    var elements: map<ElementId, Element>
    var suggestions: seq<Overlay>

    ghost predicate Valid()
      reads this
    {
      (activeElement.Some? ==> activeElement.value in elements) && ShadowAcyclic(elements)
    }

    constructor (activeElement: Option<ElementId>, elements: map<ElementId, Element>, suggestions: seq<Overlay>)
      ensures this.activeElement == activeElement && this.elements == elements && this.suggestions == suggestions
    {
      this.activeElement := activeElement;
      this.elements := elements;
      this.suggestions := suggestions;
    }
  }
}
