/**
 * The state the preload script keeps and touches, as a value: the cached flag
 * and the document's `variables-suggestions` elements. Each handler is a
 * transition of this value; traces are sequences of inbound events.
 */
module Suggestions {
  import opened Wrappers
  import opened JsValues
  import opened Dom
  import opened Preferences

  /** The cached `systemVariablesEnabled` and the `variables-suggestions` elements in document order. */
  datatype Session = Session(flag: Value, suggestions: seq<Overlay>)

  /**
   * Shows the overlay for `target` at (x, y): the first `variables-suggestions`
   * element is reused, or one is created carrying `flag` when there is none;
   * it is bound to `target`, placed at left x, top y, and opened.
   */
  function ShowAt(suggestions: seq<Overlay>, flag: Value, target: ElementId, x: int, y: int): (r: seq<Overlay>)
    ensures |r| == if |suggestions| == 0 then 1 else |suggestions|
    ensures r[0].input == Some(target) && r[0].left == Some(x) && r[0].top == Some(y) && r[0].isOpened
    ensures r[0].systemVariablesEnabled == if |suggestions| == 0 then flag else suggestions[0].systemVariablesEnabled
    ensures |suggestions| > 0 ==> r[1..] == suggestions[1..]
  {
    var list := if |suggestions| == 0 then FreshOverlay.(systemVariablesEnabled := flag) else suggestions[0];
    var shown := list.(input := Some(target), top := Some(y), left := Some(x), isOpened := true);
    if |suggestions| == 0 then [shown] else suggestions[0 := shown]
  }

  /**
   * `renderVariablesSuggestions` once the walk has resolved `resolved`: nothing
   * happens unless it is an `input` element; the cached flag never changes.
   */
  function Render(s: Session, elements: map<ElementId, Element>, resolved: Option<ElementId>, x: int, y: int): (r: Session)
    ensures r.flag == s.flag
    ensures !IsInputTarget(elements, resolved) ==> r == s
    ensures IsInputTarget(elements, resolved) ==> r.suggestions == ShowAt(s.suggestions, s.flag, resolved.value, x, y)
  {
    if IsInputTarget(elements, resolved) then
      Session(s.flag, ShowAt(s.suggestions, s.flag, resolved.value, x, y))
    else
      s
  }

  /** The closed set of context-menu actions: one known action, everything else unhandled. */
  datatype Action = InsertVariable | Unhandled(name: string)

  function ParseAction(name: string): (a: Action)
    ensures a == InsertVariable <==> name == "insert-variable"
  {
    if name == "insert-variable" then InsertVariable else Unhandled(name)
  }

  /** `runContextAction(name, x, y)`: `insert-variable` renders, anything else is only logged. */
  function Dispatch(s: Session, elements: map<ElementId, Element>, resolved: Option<ElementId>, name: string, x: int, y: int): (r: Session)
    ensures name == "insert-variable" ==> r == Render(s, elements, resolved, x, y)
    ensures name != "insert-variable" ==> r == s
  {
    match ParseAction(name)
    case InsertVariable => Render(s, elements, resolved, x, y)
    case Unhandled(_) => s
  }

  /**
   * `configStateChangeHandler`: for the cached key, the value is stored as it
   * is, in the cache and in the first overlay when there is one; other keys
   * change nothing. No overlay is ever created here.
   */
  function OnConfigChange(s: Session, key: string, value: Value): (r: Session)
    ensures key != UseSystemVariablesKey ==> r == s
    ensures key == UseSystemVariablesKey ==> r.flag == value
    ensures |r.suggestions| == |s.suggestions|
    ensures key == UseSystemVariablesKey && |s.suggestions| > 0 ==>
      r.suggestions[0] == s.suggestions[0].(systemVariablesEnabled := value) && r.suggestions[1..] == s.suggestions[1..]
  {
    if key != UseSystemVariablesKey then s
    else if |s.suggestions| == 0 then Session(value, [])
    else Session(value, s.suggestions[0 := s.suggestions[0].(systemVariablesEnabled := value)])
  }

  /** The first overlay, when there is one, carries the same flag as the cache. */
  ghost predicate InSync(s: Session) {
    |s.suggestions| > 0 ==> s.suggestions[0].systemVariablesEnabled == s.flag
  }

  /**
   * An event delivered to the live bridge: a context-menu action (with the
   * element the shadow walk resolves at that moment), or a configuration change.
   */
  datatype Event =
    | ContextAction(name: string, resolved: Option<ElementId>, x: int, y: int)
    | ConfigChange(key: string, value: Value)

  /** The event writes the cached flag. */
  predicate IsFlagWrite(e: Event) {
    e.ConfigChange? && e.key == UseSystemVariablesKey
  }

  /** The event shows the overlay on an input. */
  predicate Shows(elements: map<ElementId, Element>, e: Event) {
    e.ContextAction? && e.name == "insert-variable" && IsInputTarget(elements, e.resolved)
  }

  function Step(s: Session, elements: map<ElementId, Element>, e: Event): (r: Session)
    ensures IsFlagWrite(e) ==> r.flag == e.value
    ensures !IsFlagWrite(e) ==> r.flag == s.flag
    ensures |r.suggestions| == if Shows(elements, e) && |s.suggestions| == 0 then 1 else |s.suggestions|
    ensures InSync(s) ==> InSync(r)
  {
    match e
    case ContextAction(name, resolved, x, y) => Dispatch(s, elements, resolved, name, x, y)
    case ConfigChange(key, value) => OnConfigChange(s, key, value)
  }

  /** The session after the events, in arrival order. */
  function Trace(s: Session, elements: map<ElementId, Element>, events: seq<Event>): Session
    decreases |events|
  {
    if |events| == 0 then s
    else Step(Trace(s, elements, events[..|events| - 1]), elements, events[|events| - 1])
  }

  /** Event `i` is the last one that writes the cached flag. */
  ghost predicate IsLastFlagWrite(events: seq<Event>, i: int) {
    0 <= i < |events| && IsFlagWrite(events[i]) &&
    forall j | i < j < |events| :: !IsFlagWrite(events[j])
  }

  /** Last write wins: after any events the cached flag is the value of the last flag write. */
  lemma {:induction false} TraceFlagIsLastWrite(s: Session, elements: map<ElementId, Element>, events: seq<Event>, i: int)
    requires IsLastFlagWrite(events, i)
    ensures Trace(s, elements, events).flag == events[i].value
    decreases |events|
  {
    var n := |events| - 1;
    if i < n {
      assert IsLastFlagWrite(events[..n], i);
      TraceFlagIsLastWrite(s, elements, events[..n], i);
    }
  }

  /** Without a flag write, the cached flag keeps its value. */
  lemma {:induction false} TraceFlagWithoutWrite(s: Session, elements: map<ElementId, Element>, events: seq<Event>)
    requires forall j | 0 <= j < |events| :: !IsFlagWrite(events[j])
    ensures Trace(s, elements, events).flag == s.flag
    decreases |events|
  {
    if |events| > 0 {
      var n := |events| - 1;
      assert !IsFlagWrite(events[n]);
      TraceFlagWithoutWrite(s, elements, events[..n]);
    }
  }

  /**
   * Never a duplicate: an overlay is created only when none exists and some
   * `insert-variable` action finds an input; otherwise there are as many
   * overlays as before.
   */
  lemma {:induction false} TraceOverlayCount(s: Session, elements: map<ElementId, Element>, events: seq<Event>)
    ensures |Trace(s, elements, events).suggestions| ==
      if |s.suggestions| == 0 && exists i | 0 <= i < |events| :: Shows(elements, events[i]) then 1 else |s.suggestions|
    decreases |events|
  {
    if |events| > 0 {
      var n := |events| - 1;
      var prefix := events[..n];
      TraceOverlayCount(s, elements, prefix);
      if exists i | 0 <= i < n :: Shows(elements, prefix[i]) {
        var i :| 0 <= i < n && Shows(elements, prefix[i]);
        assert Shows(elements, events[i]);
      }
      if exists i | 0 <= i < |events| :: Shows(elements, events[i]) {
        var i :| 0 <= i < |events| && Shows(elements, events[i]);
        if i < n {
          assert Shows(elements, prefix[i]);
        }
      }
    }
  }

  /** Starting with at most one overlay, the live bridge never has two. */
  lemma {:induction false} TraceNeverDuplicates(s: Session, elements: map<ElementId, Element>, events: seq<Event>)
    requires |s.suggestions| <= 1
    ensures |Trace(s, elements, events).suggestions| <= 1
  {
    TraceOverlayCount(s, elements, events);
  }

  /** Actions and change events keep an open overlay's flag equal to the cache. */
  lemma {:induction false} TraceKeepsInSync(s: Session, elements: map<ElementId, Element>, events: seq<Event>)
    requires InSync(s)
    ensures InSync(Trace(s, elements, events))
    decreases |events|
  {
    if |events| > 0 {
      TraceKeepsInSync(s, elements, events[..|events| - 1]);
    }
  }

  /**
   * Seeding is the one transition that does not reach the overlay: when an
   * overlay exists (say, created while the first preference read was pending)
   * and its flag differs from the boolean being seeded, the two disagree after.
   */
  lemma SeedingLeavesOverlayBehind(s: Session, outcome: ReadOutcome, b: bool)
    requires |s.suggestions| > 0 && BooleanAt(outcome) == Some(b)
    requires s.suggestions[0].systemVariablesEnabled != Bool(b)
    ensures SeededFlag(s.flag, outcome) == Bool(b)
    ensures !InSync(Session(SeededFlag(s.flag, outcome), s.suggestions))
  {
  }
}
