# Lunch Tray order flow in Dafny

This project models the order flow of the Lunch Tray app (`LunchTrayApp` in
`LunchTrayScreen.kt`): five screens visited in a fixed order (start, entree
menu, side-dish menu, accompaniment menu, checkout), a navigation back stack
driven by the screens' buttons and the app bar's up arrow, and an order with
three selection slots that the menus fill and that cancel and confirm clear.

Every button handler is one case of the pure function `LunchTray.Step`,
mapping a state (back stack, order) and a user action to the next state, or
to `None` when the displayed screen offers no such action.

The navigation controller is the Jetpack Navigation library, which is not
part of this model. Its documented behaviour is assumed and written out in
module `Navigation`:
- `navigate(route)` pushes an entry, and throws for a route the graph does not register.
- `popBackStack(route, inclusive)` pops every entry above the topmost entry for `route`.
- `navigateUp()` pops the top entry when another lies below it.
- `previousBackStackEntry` is the entry below the top.

The back stack holds route strings, not screens. As a result,
`Screen.valueOf` on the current route can fail in the model just as it can
throw in Kotlin. That it never fails is then proved from the invariant.

Files:
- `optional.dfy`: the `Option` type for nullable values and throwing calls.
- `screens.dfy`: the `Screen` enum, its names, ordinals, `valueOf` and the successor order.
- `navigation.dfy`: the abstract back stack.
- `order.dfy`: the order's three slots, their updates and the reset.
- `lunch_tray.dfy`: the app state, the step function, runs of actions and reachability.
- `lunch_tray_properties.dfy`: the flow's guarantees.

The main result is `LunchTrayProperties.ReachableInvariant`. In every
reachable state, the back stack is a non-empty prefix of the forward path
StartScreen → EntreeMenu → SideDishMenu → AccompanimentMenu → Checkout. Its
top is the current screen. `canNavigateBack` holds exactly when that screen
is not the start screen. `LunchTrayProperties.ForwardPathReachable` shows
that the invariant is tight.

Cancel and confirm call `resetOrder()` before popping to the start screen.
`navigateUp()` (LunchTrayScreen.kt:101) does not, so the up arrow keeps the
order. The start screen is therefore NOT always shown with an empty order;
`StartScreenMayHoldSelection` exhibits the three actions that show this. The
converse does hold: an action that empties the order always returns to the
start screen (`ResetOnlyWithReturnToStart`).

## Model

| member | source | states |
|---|---|---|
| Screens.Ordinal | app/src/main/java/com/example/lunchtray/LunchTrayScreen.kt:49-55 | each screen's ordinal is its position in the declaration order of the enum |
| Screens.ValueOf | app/src/main/java/com/example/lunchtray/LunchTrayScreen.kt:88-90 | `Screen.valueOf` returns a screen whose name is the route, and fails exactly when no screen has that name |
| Screens.ValueOfName | app/src/main/java/com/example/lunchtray/LunchTrayScreen.kt:88-90 | looking up a screen by its own name finds that screen (round trip name then valueOf) |
| Screens.NameInjective | app/src/main/java/com/example/lunchtray/LunchTrayScreen.kt:49-55 | distinct screens have distinct names, so each route identifies one destination |
| Screens.Successor | app/src/main/java/com/example/lunchtray/LunchTrayScreen.kt:116-161 | the screen a forward button navigates to is the next entry in declaration order; the checkout has none |
| Navigation.CurrentEntry | app/src/main/java/com/example/lunchtray/LunchTrayScreen.kt:87-89 | the current entry exists exactly when the stack is non-empty, and is its top |
| Navigation.PreviousEntry | app/src/main/java/com/example/lunchtray/LunchTrayScreen.kt:100 | the previous entry exists exactly when the stack holds two entries or more, and is the one below the top |
| Navigation.Navigate | app/src/main/java/com/example/lunchtray/LunchTrayScreen.kt:118-119 | `navigate` succeeds exactly for a registered route, keeps the old stack below and makes the route the current entry |
| Navigation.LastIndexOf | app/src/main/java/com/example/lunchtray/LunchTrayScreen.kt:128 | finds the topmost entry for a route, absent exactly when no entry has it |
| Navigation.PopBackStack | app/src/main/java/com/example/lunchtray/LunchTrayScreen.kt:126-128 | `popBackStack(route, false)` keeps a prefix whose top is the topmost entry for the route, pops no entry for the route, leaves the stack alone when the route is missing, and reports whether anything was popped |
| Navigation.NavigateUp | app/src/main/java/com/example/lunchtray/LunchTrayScreen.kt:100-101 | `navigateUp` moves exactly when there is a previous entry, drops only the top entry and makes the previous entry current |
| Order.UpdateEntree | app/src/main/java/com/example/lunchtray/LunchTrayScreen.kt:133-134 | the entree slot holds the selection and the other two slots are unchanged |
| Order.UpdateSideDish | app/src/main/java/com/example/lunchtray/LunchTrayScreen.kt:148-149 | the side-dish slot holds the selection and the other two slots are unchanged |
| Order.UpdateAccompaniment | app/src/main/java/com/example/lunchtray/LunchTrayScreen.kt:163-164 | the accompaniment slot holds the selection and the other two slots are unchanged |
| Order.ResetOrder | app/src/main/java/com/example/lunchtray/LunchTrayScreen.kt:126-127 | after `resetOrder` no slot holds a selection, whatever the order held |
| Order.ResetIdempotent | app/src/main/java/com/example/lunchtray/LunchTrayScreen.kt:126-127 | resetting twice is the same as resetting once |
| Order.UpdatesCommute | app/src/main/java/com/example/lunchtray/LunchTrayScreen.kt:133-164 | the three slots are independent: filling them in any order gives exactly the three selections |
| LunchTray.GraphIsScreenNames | app/src/main/java/com/example/lunchtray/LunchTrayScreen.kt:116-168 | the routes registered in the `NavHost` are exactly the names of the screens |
| LunchTray.CurrentScreen | app/src/main/java/com/example/lunchtray/LunchTrayScreen.kt:86-90 | the app bar's screen is read from the current route, `valueOf` succeeds exactly when that route is registered, and an empty stack reads as the start screen |
| LunchTray.CanNavigateBack | app/src/main/java/com/example/lunchtray/LunchTrayScreen.kt:100 | the up arrow is available exactly when the stack holds more than one entry |
| LunchTray.Forward | app/src/main/java/com/example/lunchtray/LunchTrayScreen.kt:118-161 | a forward handler's `navigate` to a screen's name always succeeds, keeps the order and the stack below, and makes that screen current |
| LunchTray.CancelOrder | app/src/main/java/com/example/lunchtray/LunchTrayScreen.kt:126-177 | the cancel and confirm handlers empty the order and cut the stack back to a prefix whose top is the start entry (left unchanged if no start entry exists) |
| LunchTray.Displayed | app/src/main/java/com/example/lunchtray/LunchTrayScreen.kt:108-116 | a composable is shown exactly when the top entry's route is registered, and it is the screen of that name |
| LunchTray.Step | app/src/main/java/com/example/lunchtray/LunchTrayScreen.kt:116-180 | actions are handled only while a screen is shown; the up arrow keeps the order and drops one entry; an action that changes the order either keeps the stack (a selection) or clears the order (a reset) |
| LunchTrayProperties.ForwardPathTop | app/src/main/java/com/example/lunchtray/LunchTrayScreen.kt:88-90 | on the forward path the shown and the app bar's screen agree, `valueOf` succeeds, and the screen's ordinal is the stack depth minus one |
| LunchTrayProperties.PopToStartOnForwardPath | app/src/main/java/com/example/lunchtray/LunchTrayScreen.kt:128 | popping to the start screen from the forward path leaves exactly the start entry |
| LunchTrayProperties.InitialState | app/src/main/java/com/example/lunchtray/LunchTrayScreen.kt:86-110 | initially the start screen is current and shown, there is no way back, the order is empty; an absent entry also reads as the start screen |
| LunchTrayProperties.ForwardButtonPushesSuccessor | app/src/main/java/com/example/lunchtray/LunchTrayScreen.kt:116-161 | the start button (on the start screen) and next (on the menus) push exactly the successor screen and keep the order; the other forward event is not offered |
| LunchTrayProperties.CancelResetsAndReturnsToStart | app/src/main/java/com/example/lunchtray/LunchTrayScreen.kt:126-177 | cancel on any screen but the start screen clears all three slots and leaves the stack as exactly the start entry |
| LunchTrayProperties.ConfirmIsCancel | app/src/main/java/com/example/lunchtray/LunchTrayScreen.kt:171-177 | on the checkout, confirm has exactly the effect of cancel, which empties the order |
| LunchTrayProperties.UpPopsWithoutReset | app/src/main/java/com/example/lunchtray/LunchTrayScreen.kt:69-101 | the up arrow is offered exactly when `canNavigateBack`, removes only the top entry and leaves every slot unchanged |
| LunchTrayProperties.SelectionTouchesOnlyItsSlot | app/src/main/java/com/example/lunchtray/LunchTrayScreen.kt:133-164 | each selection is offered exactly on its own menu, sets only its own slot and leaves the stack alone |
| LunchTrayProperties.PushKeepsForwardPath | app/src/main/java/com/example/lunchtray/LunchTrayScreen.kt:118-161 | pushing the successor of the shown screen keeps the stack on the forward path |
| LunchTrayProperties.StepKeepsForwardPath | app/src/main/java/com/example/lunchtray/LunchTrayScreen.kt:116-180 | every handled action keeps the stack a non-empty prefix of the forward path |
| LunchTrayProperties.RunKeepsForwardPath | app/src/main/java/com/example/lunchtray/LunchTrayScreen.kt:101-180 | any sequence of handled actions, up arrow included, keeps the stack on the forward path |
| LunchTrayProperties.ReachableInvariant | app/src/main/java/com/example/lunchtray/LunchTrayScreen.kt:88-101 | in every reachable state the stack starts with the start screen, follows the forward path, its top is the current screen, `valueOf` never fails, and `canNavigateBack` holds exactly off the start screen |
| LunchTrayProperties.ResetOnlyWithReturnToStart | app/src/main/java/com/example/lunchtray/LunchTrayScreen.kt:126-177 | an action that empties a non-empty order always leaves the stack as exactly the start entry |
| LunchTrayProperties.StartScreenMayHoldSelection | app/src/main/java/com/example/lunchtray/LunchTrayScreen.kt:100-134 | start, select an entree, up: the start screen is shown while the order still holds the entree |
| LunchTrayProperties.StaleNextLeavesForwardPath | app/src/main/java/com/example/lunchtray/LunchTrayScreen.kt:130-131 | an unguarded second "next" from the entree menu after the side-dish menu was pushed would leave the forward path, so the invariant depends on clicks coming from the top screen |
| LunchTrayProperties.ForwardPathReachable | app/src/main/java/com/example/lunchtray/LunchTrayScreen.kt:116-161 | every non-empty prefix of the forward path is the stack of a reachable state with an empty order |

## Left out

- Prices, subtotal, tax and total: the order view model that computes them is not part of this model, and its money values are decimal. Menu items are reduced to their names.
- The menu catalogue (`DataSource`): static data that is not part of this model.
- Rendering: the app bar, scaffold, icons, padding, and the titles' string resources.
- The view model's observable state, its collection by the UI, and lifecycle or configuration-change behaviour: platform plumbing.
- The system back button: `NavHost` handles it, not this file. Its effect on this stack would be the up arrow's pop.
- Jetpack Navigation internals: the graph's own entry, deep links, saved state, launch options and destination-change listeners. Only the abstract push, pop-to and pop-one semantics above are modelled.
- Whether a menu's next button is enabled before a selection is made: that is decided in the menu screens, which are not part of this model. `Step` accepts next without a selection.
- LunchTray.Step: assumes one action at a time, always delivered by the screen of the top entry. The forward handlers call `navigate` without a lifecycle guard, so a stale callback (a double tap on "next", or a "next" after a cancel, delivered to a screen that is leaving) would push a screen from the wrong depth and leave the forward path (`StaleNextLeavesForwardPath`). Such races between taps and recomposition are not modelled. Actions the top screen does not offer give `None`.
