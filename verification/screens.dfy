/** The `Screen` enum of the Lunch Tray app: five destinations in a fixed
    declaration order, each identified in the navigation graph by its `name`. */
module Screens {
  import opened Optional

  /** A navigation route: the string a destination is registered under. */
  type Route = string

  datatype Screen = StartScreen | EntreeMenu | SideDishMenu | AccompanimentMenu | Checkout

  /** The enum's entries in declaration order; this is also the forward path
      of an order, from the start screen to the checkout. */
  const Entries: seq<Screen> := [StartScreen, EntreeMenu, SideDishMenu, AccompanimentMenu, Checkout]

  /** Kotlin's `Screen.name`: the identifier of the entry, used as its route. */
  function Name(s: Screen): Route
  {
    match s
    case StartScreen => "StartScreen"
    case EntreeMenu => "EntreeMenu"
    case SideDishMenu => "SideDishMenu"
    case AccompanimentMenu => "AccompanimentMenu"
    case Checkout => "Checkout"
  }

  /** Kotlin's `Screen.ordinal`: the position of the entry in declaration order. */
  function Ordinal(s: Screen): (n: nat)
    ensures n < |Entries| && Entries[n] == s
  {
    match s
    case StartScreen => 0
    case EntreeMenu => 1
    case SideDishMenu => 2
    case AccompanimentMenu => 3
    case Checkout => 4
  }

  /** Kotlin's `Screen.valueOf(route)`, which throws `IllegalArgumentException`
      for a string that is not the name of an entry; the throw is `None`. */
  function ValueOf(route: Route): (r: Option<Screen>)
    ensures r.Some? ==> Name(r.value) == route
    ensures r.None? ==> forall s: Screen :: Name(s) != route
  {
    if route == "StartScreen" then Some(StartScreen)
    else if route == "EntreeMenu" then Some(EntreeMenu)
    else if route == "SideDishMenu" then Some(SideDishMenu)
    else if route == "AccompanimentMenu" then Some(AccompanimentMenu)
    else if route == "Checkout" then Some(Checkout)
    else None
  }

  /** Distinct entries have distinct names, so a route identifies one screen. */
  lemma NameInjective(s: Screen, t: Screen)
    ensures Name(s) == Name(t) <==> s == t
  {
  }

  /** `valueOf` inverts `name`: looking a screen up by its own route finds it. */
  lemma ValueOfName(s: Screen)
    ensures ValueOf(Name(s)) == Some(s)
  {
  }

  /** The screen that a screen's forward button ("start order" / "next")
      navigates to: the following entry in declaration order. The checkout
      has none; its forward button confirms and returns to the start. */
  function Successor(s: Screen): (r: Option<Screen>)
    ensures r.Some? <==> Ordinal(s) + 1 < |Entries|
    ensures r.Some? ==> r.value == Entries[Ordinal(s) + 1]
  {
    match s
    case StartScreen => Some(EntreeMenu)
    case EntreeMenu => Some(SideDishMenu)
    case SideDishMenu => Some(AccompanimentMenu)
    case AccompanimentMenu => Some(Checkout)
    case Checkout => None
  }
}
