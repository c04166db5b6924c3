/**
 * The preload script's bridge object: it caches one preference, answers
 * context-menu actions from the host, and follows configuration changes.
 */
module Preload {
  import opened Wrappers
  import opened JsValues
  import opened Dom
  import opened Preferences
  import opened Suggestions

  class WindowProxy {
    /** The cached `request.useSystemVariables`; whatever a change event carried, not only booleans. */
    var systemVariablesEnabled: Value
    /** The document the script runs in; shared with the page, not owned. */
    const document: Document

    constructor (document: Document)
      ensures systemVariablesEnabled == Bool(false) && this.document == document
    {
      systemVariablesEnabled := Bool(false);
      this.document := document;
    }

    /** The session value this object and its document hold. */
    ghost function State(): Session
      reads this, document
    {
      Session(systemVariablesEnabled, document.suggestions)
    }

    /**
     * `initConfig` once the preference read has settled: a boolean at
     * `request.useSystemVariables` is adopted, anything else leaves the flag
     * alone. `resolved` is false when the returned promise rejects.
     */
    method InitConfig(outcome: ReadOutcome) returns (resolved: bool)
      modifies this
      ensures BooleanAt(outcome).Some? ==> systemVariablesEnabled == Bool(BooleanAt(outcome).value)
      ensures BooleanAt(outcome).None? ==> systemVariablesEnabled == old(systemVariablesEnabled)
      ensures systemVariablesEnabled == SeededFlag(old(systemVariablesEnabled), outcome)
      ensures resolved == SeedResolves(outcome)
    {
      var cnf := Object(map[]);
      if outcome.Read? {
        cnf := outcome.snapshot;
      }
      var request := Get(cnf, "request");
      if request.None? {
        // `cnf.request` throws a TypeError
        resolved := false;
        return;
      }
      resolved := true;
      if Truthy(request.value) {
        var use := Get(request.value, "useSystemVariables");
        if use.Some? && IsBoolean(use.value) {
          systemVariablesEnabled := use.value;
        }
      }
    }

    /**
     * `runContextAction(action, x, y)`: only `insert-variable` does anything;
     * other actions are logged. `document.Valid()` is needed only for the
     * `insert-variable` branch, which walks the shadow-focus links.
     */
    method RunContextAction(action: string, x: int, y: int)
      requires document.Valid()
      modifies document
      ensures document.activeElement == old(document.activeElement) && document.elements == old(document.elements)
      ensures action != "insert-variable" ==> document.suggestions == old(document.suggestions)
      ensures State() == Dispatch(old(State()), document.elements, ResolveActive(document.activeElement, document.elements), action, x, y)
    {
      match ParseAction(action)
      case InsertVariable =>
        RenderVariablesSuggestions(x, y);
      case Unhandled(_) =>
    }

    /**
     * `getShadowActiveElement`: from the focused element, follow focused
     * elements into shadow roots until there is none to follow.
     */
    method GetShadowActiveElement() returns (r: Option<ElementId>)
      requires document.Valid()
      ensures r.None? <==> document.activeElement.None?
      ensures r.Some? ==> IsDeepest(document.elements, r.value) && Reaches(document.elements, document.activeElement.value, r.value)
      ensures r == ResolveActive(document.activeElement, document.elements)
    {
      var current := document.activeElement;
      if current.None? {
        return None;
      }
      ghost var rank :| Ranked(document.elements, rank);
      var node := current.value;
      ghost var chain := [node];
      while true
        invariant IsShadowChain(document.elements, chain)
        invariant chain[0] == current.value && chain[|chain| - 1] == node
        decreases rank[node]
      {
        var e := document.elements[node];
        if e.shadowRoot.Some? && e.shadowRoot.value.activeElement.Some? {
          node := e.shadowRoot.value.activeElement.value;
          chain := chain + [node];
        } else {
          break;
        }
      }
      assert Reaches(document.elements, current.value, node);
      r := Some(node);
    }

    /** The walk only reads the document, so two walks in a row agree. */
    method GetShadowActiveElementTwice() returns (first: Option<ElementId>, second: Option<ElementId>)
      requires document.Valid()
      ensures first == second
    {
      first := GetShadowActiveElement();
      second := GetShadowActiveElement();
    }

    /**
     * `renderVariablesSuggestions(x, y)`: when the walk finds an `input`, the
     * first `variables-suggestions` element (created with the cached flag if
     * there is none) is bound to it, placed at (x, y) and opened.
     */
    method RenderVariablesSuggestions(x: int, y: int)
      requires document.Valid()
      modifies document
      ensures document.activeElement == old(document.activeElement) && document.elements == old(document.elements)
      ensures State() == Render(old(State()), document.elements, ResolveActive(document.activeElement, document.elements), x, y)
    {
      var target := GetShadowActiveElement();
      if !IsInputTarget(document.elements, target) {
        return;
      }
      if |document.suggestions| == 0 {
        var created := FreshOverlay.(systemVariablesEnabled := systemVariablesEnabled);
        document.suggestions := document.suggestions + [created];
      }
      // the element `querySelector` finds, with its properties set one by one
      var list := document.suggestions[0];
      list := list.(input := target);
      list := list.(top := Some(y));
      list := list.(left := Some(x));
      list := list.(isOpened := true);
      document.suggestions := document.suggestions[0 := list];
    }

    /**
     * `configStateChangeHandler` for an event carrying `key` and `value`: the
     * cached key's value goes, unchecked, into the cache and into the overlay
     * when one exists.
     */
    method ConfigStateChangeHandler(key: string, value: Value)
      modifies this, document
      ensures document.activeElement == old(document.activeElement) && document.elements == old(document.elements)
      ensures State() == OnConfigChange(old(State()), key, value)
    {
      if key == UseSystemVariablesKey {
        systemVariablesEnabled := value;
        if |document.suggestions| > 0 {
          document.suggestions := document.suggestions[0 := document.suggestions[0].(systemVariablesEnabled := value)];
        }
      }
    }
  }

  /** A fresh proxy seeded once: the boolean at the path if there is one, otherwise `false`. */
  method SeededAtStartup(document: Document, outcome: ReadOutcome) returns (flag: Value)
    ensures BooleanAt(outcome).Some? ==> flag == Bool(BooleanAt(outcome).value)
    ensures BooleanAt(outcome).None? ==> flag == Bool(false)
  {
    var proxy := new WindowProxy(document);
    var _ := proxy.InitConfig(outcome);
    flag := proxy.systemVariablesEnabled;
  }
}
