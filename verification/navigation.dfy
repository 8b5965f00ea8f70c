/** The back stack of a navigation controller, reduced to the routes of its
    entries, bottom first. This module states the documented behaviour of the
    Jetpack Navigation controller that the app relies on; the library itself
    is not part of this model:
    - `navigate(route)` pushes a new entry for a destination registered in the
      graph and throws for an unknown route;
    - `popBackStack(route, inclusive)` pops every entry above the topmost entry
      for `route` (and that entry too when `inclusive`), and does nothing when
      no entry has that route;
    - `navigateUp()` pops the top entry when another entry lies below it, and
      otherwise does nothing (the app is not launched from a deep link);
    - `currentBackStackEntry` is the top entry and `previousBackStackEntry` the
      one below it, each absent when the stack is too short. */
module Navigation {
  import opened Optional
  import opened Screens

  type BackStack = seq<Route>

  /** The route of `currentBackStackEntry`, absent on an empty stack. */
  function CurrentEntry(stack: BackStack): (r: Option<Route>)
    ensures r.Some? <==> |stack| > 0
    ensures r.Some? ==> r.value == stack[|stack| - 1]
  {
    if |stack| == 0 then None else Some(stack[|stack| - 1])
  }

  /** The route of `previousBackStackEntry`, absent unless two entries exist. */
  function PreviousEntry(stack: BackStack): (r: Option<Route>)
    ensures r.Some? <==> |stack| > 1
    ensures r.Some? ==> r.value == stack[|stack| - 2]
  {
    if |stack| < 2 then None else Some(stack[|stack| - 2])
  }

  /** `navigate(route)`: a new entry for `route` on top of the stack, or the
      exception (`None`) when no destination of the graph has that route. */
  function Navigate(graph: set<Route>, stack: BackStack, route: Route): (r: Option<BackStack>)
    ensures r.Some? <==> route in graph
    ensures r.Some? ==> |r.value| == |stack| + 1 && r.value[..|stack|] == stack
    ensures r.Some? ==> CurrentEntry(r.value) == Some(route)
  {
    if route in graph then Some(stack + [route]) else None
  }

  /** The index of the topmost entry whose route is `route`. */
  function LastIndexOf(stack: BackStack, route: Route): (r: Option<nat>)
    ensures r.None? <==> route !in stack
    ensures r.Some? ==> r.value < |stack| && stack[r.value] == route
    ensures r.Some? ==> forall j :: r.value < j < |stack| ==> stack[j] != route
  {
    if |stack| == 0 then None
    else if stack[|stack| - 1] == route then Some(|stack| - 1)
    else
      assert stack == stack[..|stack| - 1] + [stack[|stack| - 1]];
      LastIndexOf(stack[..|stack| - 1], route)
  }

  /** `popBackStack(route, inclusive)`: the stack cut back to the topmost entry
      for `route` (or to just below it when `inclusive`), and whether any entry
      was popped, which is what the controller reports. */
  function PopBackStack(stack: BackStack, route: Route, inclusive: bool): (r: (BackStack, bool))
    ensures r.0 <= stack
    ensures r.1 <==> |r.0| < |stack|
    ensures route !in stack ==> r.0 == stack
    ensures route in stack && !inclusive ==> CurrentEntry(r.0) == Some(route)
    ensures !inclusive ==> route !in stack[|r.0|..]
    ensures route in stack && inclusive ==>
      |r.0| < |stack| && stack[|r.0|] == route && route !in stack[|r.0| + 1..]
  {
    match LastIndexOf(stack, route)
    case None => (stack, false)
    case Some(i) =>
      var kept := if inclusive then stack[..i] else stack[..i + 1];
      (kept, |kept| < |stack|)
  }

  /** `navigateUp()`: the stack without its top entry when one lies below it,
      and whether it moved. */
  function NavigateUp(stack: BackStack): (r: (BackStack, bool))
    ensures r.1 <==> PreviousEntry(stack).Some?
    ensures r.1 ==> |r.0| + 1 == |stack| && r.0 <= stack
    ensures r.1 ==> CurrentEntry(r.0) == PreviousEntry(stack)
    ensures !r.1 ==> r.0 == stack
  {
    if |stack| > 1 then (stack[..|stack| - 1], true) else (stack, false)
  }
}
