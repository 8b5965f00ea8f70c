/** `LunchTrayApp`: the order flow that wires the five screens' buttons to the
    navigation back stack and to the order. Every button handler is one case
    of the pure step function `Step`. The navigation controller's behaviour is
    the abstract one stated in module `Navigation`. */
module LunchTray {
  import opened Optional
  import opened Screens
  import opened Navigation
  import opened Order

  datatype AppState = AppState(backStack: BackStack, order: OrderState)

  /** A user action: a button of the displayed screen, a menu selection, or
      the app bar's up arrow. */
  datatype Event =
    | StartOrderClicked
    | NextClicked
    | CancelClicked
    | EntreeSelected(entree: MenuItem)
    | SideDishSelected(sideDish: MenuItem)
    | AccompanimentSelected(accompaniment: MenuItem)
    | UpClicked

  /** The routes the `NavHost` builder registers, one `composable` per screen. */
  const Graph: set<Route> :=
    {Name(StartScreen), Name(EntreeMenu), Name(SideDishMenu), Name(AccompanimentMenu), Name(Checkout)}

  /** Every registered route is the name of a screen, and every screen is registered. */
  lemma GraphIsScreenNames(route: Route)
    ensures route in Graph <==> ValueOf(route).Some?
  {
  }

  /** The state after `NavHost` has pushed its start destination, with the
      view model's empty order. */
  const Init: AppState := AppState([Name(StartScreen)], EmptyOrder)

  /** The app bar's `currentScreen`: the current entry's route, or the start
      screen's name when there is no entry, looked up with `Screen.valueOf`
      (which throws, `None`, for a route that names no screen). */
  function CurrentScreen(stack: BackStack): (r: Option<Screen>)
    ensures |stack| == 0 ==> r == Some(StartScreen)
    ensures r.Some? <==> CurrentEntry(stack).OrElse(Name(StartScreen)) in Graph
    ensures r.Some? ==> Name(r.value) == CurrentEntry(stack).OrElse(Name(StartScreen))
  {
    ValueOf(CurrentEntry(stack).OrElse(Name(StartScreen)))
  }

  /** The app bar's `canNavigateBack`: an entry lies below the current one. */
  function CanNavigateBack(stack: BackStack): (b: bool)
    ensures b <==> |stack| > 1
  {
    PreviousEntry(stack).Some?
  }

  /** The screen whose composable the `NavHost` shows: the one registered for
      the current entry's route; none before the first entry exists. */
  function Displayed(stack: BackStack): (r: Option<Screen>)
    ensures r.Some? <==> |stack| > 0 && stack[|stack| - 1] in Graph
    ensures r.Some? ==> Name(r.value) == stack[|stack| - 1]
  {
    if |stack| == 0 then None else ValueOf(stack[|stack| - 1])
  }

  /** `navController.navigate(screen.name)` with the order unchanged. */
  function Forward(s: AppState, screen: Screen): (r: Option<AppState>)
    ensures r.Some?
    ensures r.value.order == s.order
    ensures |r.value.backStack| == |s.backStack| + 1 && r.value.backStack[..|s.backStack|] == s.backStack
    ensures CurrentScreen(r.value.backStack) == Some(screen)
  {
    match Navigate(Graph, s.backStack, Name(screen))
    case None => None
    case Some(stack) => Some(AppState(stack, s.order))
  }

  /** The cancel handler (and the checkout's confirm handler): `resetOrder()`
      followed by `popBackStack(StartScreen.name, inclusive = false)`. */
  function CancelOrder(s: AppState): (r: AppState)
    ensures IsEmpty(r.order)
    ensures r.backStack <= s.backStack
    ensures Name(StartScreen) in s.backStack ==> CurrentEntry(r.backStack) == Some(Name(StartScreen))
    ensures Name(StartScreen) !in s.backStack ==> r.backStack == s.backStack
  {
    AppState(PopBackStack(s.backStack, Name(StartScreen), false).0, ResetOrder(s.order))
  }

  /** One user action. `None` when the displayed screen offers no such
      callback: the start screen has only its start button, the checkout only
      next and cancel, the up arrow is shown only when `canNavigateBack`. */
  function Step(s: AppState, e: Event): (r: Option<AppState>)
    ensures r.Some? ==> Displayed(s.backStack).Some?
    ensures r.Some? && e.UpClicked? ==> r.value.order == s.order && |r.value.backStack| + 1 == |s.backStack|
    ensures r.Some? && r.value.order != s.order ==> r.value.backStack == s.backStack || IsEmpty(r.value.order)
  {
    match Displayed(s.backStack)
    case None => None
    case Some(screen) =>
      match e
      case UpClicked =>
        if CanNavigateBack(s.backStack) then Some(AppState(NavigateUp(s.backStack).0, s.order)) else None
      case StartOrderClicked =>
        if screen == StartScreen then Forward(s, EntreeMenu) else None
      case NextClicked =>
        (match screen
         case StartScreen => None
         case EntreeMenu => Forward(s, SideDishMenu)
         case SideDishMenu => Forward(s, AccompanimentMenu)
         case AccompanimentMenu => Forward(s, Checkout)
         case Checkout => Some(CancelOrder(s)))
      case CancelClicked =>
        if screen == StartScreen then None else Some(CancelOrder(s))
      case EntreeSelected(item) =>
        if screen == EntreeMenu then Some(AppState(s.backStack, UpdateEntree(s.order, item))) else None
      case SideDishSelected(item) =>
        if screen == SideDishMenu then Some(AppState(s.backStack, UpdateSideDish(s.order, item))) else None
      case AccompanimentSelected(item) =>
        if screen == AccompanimentMenu then Some(AppState(s.backStack, UpdateAccompaniment(s.order, item))) else None
  }

  /** A sequence of user actions from `s`; `None` as soon as one of them is
      not offered. */
  function Run(s: AppState, events: seq<Event>): Option<AppState>
    decreases |events|
  {
    if |events| == 0 then Some(s)
    else
      match Step(s, events[0])
      case None => None
      case Some(t) => Run(t, events[1..])
  }

  /** The back stack is a non-empty prefix of the forward path, route by route. */
  predicate OnForwardPath(stack: BackStack)
  {
    && 1 <= |stack| <= |Entries|
    && forall i :: 0 <= i < |stack| ==> stack[i] == Name(Entries[i])
  }

  ghost predicate Reachable(s: AppState)
  {
    exists events :: Run(Init, events) == Some(s)
  }
}
