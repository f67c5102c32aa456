/** The already-parsed reply of a language-model route suggestion: an optional route name and
  * description and a list of suggested places. Every field may be missing from the reply. */
module Suggestions {
  import opened Wrappers

  /** One suggested place. Coordinates are in millionths of a degree. */
  datatype Suggestion = Suggestion(
    name: Option<string>,
    order: Option<int>,
    visitDuration: Option<int>,
    latitude: Option<int>,
    longitude: Option<int>,
    description: Option<string>,
    address: Option<string>)

  datatype RouteReply = RouteReply(name: Option<string>, description: Option<string>, attractions: Option<seq<Suggestion>>)

  /** `d.get(key, default)`. */
  function GetOr<T>(o: Option<T>, default: T): (r: T)
    ensures o.Some? ==> r == o.value
    ensures o.None? ==> r == default
  {
    if o.Some? then o.value else default
  }

  /** A coordinate field that is present and non-zero (a zero is falsy). */
  predicate Given(v: Option<int>)
  {
    v.Some? && v.value != 0
  }
}
