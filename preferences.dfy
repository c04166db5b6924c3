/**
 * The preference snapshot the preload script reads once at start-up, and the
 * one preference it caches: `request.useSystemVariables`.
 */
module Preferences {
  import opened Wrappers
  import opened JsValues

  /** The key of the cached preference, in snapshots (as a path) and in change events (as a key). */
  const UseSystemVariablesKey := "request.useSystemVariables"

  /** How `PreferencesProxy.read()` settled: it resolved to a snapshot, or it rejected. */
  datatype ReadOutcome = Read(snapshot: Value) | ReadFailed

  /** The boolean stored at `request.useSystemVariables` in a snapshot that was read, if there is one. */
  function BooleanAt(outcome: ReadOutcome): Option<bool> {
    if outcome.Read? && outcome.snapshot.Object? && "request" in outcome.snapshot.fields then
      var request := outcome.snapshot.fields["request"];
      if request.Object? && "useSystemVariables" in request.fields && request.fields["useSystemVariables"].Bool? then
        Some(request.fields["useSystemVariables"].b)
      else
        None
    else
      None
  }

  /**
   * The cached flag after seeding from `outcome`: the boolean at the path when
   * there is one, otherwise the flag as it was.
   */
  function SeededFlag(flag: Value, outcome: ReadOutcome): (r: Value)
    ensures r == flag || r.Bool?
  {
    match BooleanAt(outcome)
    case Some(b) => Bool(b)
    case None => flag
  }

  /**
   * Whether seeding completes: a snapshot that is `undefined` or `null` makes
   * reading its `request` throw, and the seeding promise rejects.
   */
  predicate SeedResolves(outcome: ReadOutcome) {
    !(outcome.Read? && (outcome.snapshot.Undefined? || outcome.snapshot.Null?))
  }
}
