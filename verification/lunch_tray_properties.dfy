/** What the order flow of `LunchTrayApp` guarantees: the back stack never
    leaves the forward path, the buttons move along it as the screens promise,
    cancel and confirm reset the order together with the return to the start,
    and the up arrow moves back without touching the order. */
module LunchTrayProperties {
  import opened Optional
  import opened Screens
  import opened Navigation
  import opened Order
  import opened LunchTray

  /** On the forward path the top entry is the screen at the stack's depth,
      and both the `NavHost` and the app bar read it without a failing
      `valueOf`. */
  lemma ForwardPathTop(stack: BackStack)
    requires OnForwardPath(stack)
    ensures Displayed(stack) == Some(Entries[|stack| - 1])
    ensures CurrentScreen(stack) == Displayed(stack)
    ensures Ordinal(CurrentScreen(stack).value) == |stack| - 1
  {
    ValueOfName(Entries[|stack| - 1]);
  }

  /** The start screen's route occurs only at the bottom of a stack on the
      forward path. */
  lemma StartOnlyAtBottom(stack: BackStack, i: nat)
    requires OnForwardPath(stack)
    requires i < |stack| && stack[i] == Name(StartScreen)
    ensures i == 0
  {
    NameInjective(Entries[i], StartScreen);
  }

  /** `popBackStack(StartScreen.name, inclusive = false)` on the forward path
      leaves exactly the start entry. */
  lemma PopToStartOnForwardPath(stack: BackStack)
    requires OnForwardPath(stack)
    ensures PopBackStack(stack, Name(StartScreen), false).0 == [Name(StartScreen)]
  {
    var found := LastIndexOf(stack, Name(StartScreen));
    assert stack[0] == Name(StartScreen);
    StartOnlyAtBottom(stack, found.value);
  }

  /** The initial state shows the start screen with no way back and an empty
      order; before the first entry exists the app bar reads the start screen
      too. */
  lemma InitialState()
    ensures CurrentScreen(Init.backStack) == Some(StartScreen)
    ensures CurrentScreen([]) == Some(StartScreen)
    ensures Displayed(Init.backStack) == Some(StartScreen)
    ensures !CanNavigateBack(Init.backStack)
    ensures OnForwardPath(Init.backStack)
    ensures IsEmpty(Init.order)
  {
    ValueOfName(StartScreen);
  }

  /** Each screen's forward button ("start order" on the start screen, "next"
      on the three menus) pushes exactly the following screen of the forward
      path and leaves the order alone; the other forward event is not offered. */
  lemma ForwardButtonPushesSuccessor(s: AppState)
    requires OnForwardPath(s.backStack)
    requires Successor(Displayed(s.backStack).value).Some?
    ensures var screen := Displayed(s.backStack).value;
      var next := Successor(screen).value;
      && Ordinal(next) == Ordinal(screen) + 1
      && (screen == StartScreen ==>
            Step(s, StartOrderClicked) == Some(AppState(s.backStack + [Name(next)], s.order))
            && Step(s, NextClicked) == None)
      && (screen != StartScreen ==>
            Step(s, NextClicked) == Some(AppState(s.backStack + [Name(next)], s.order))
            && Step(s, StartOrderClicked) == None)
  {
    ForwardPathTop(s.backStack);
    var screen := Displayed(s.backStack).value;
    var next := Successor(screen).value;
    assert Ordinal(next) == Ordinal(screen) + 1 by {
      assert Entries[Ordinal(next)] == Entries[Ordinal(screen) + 1];
    }
  }

  /** Cancel on any screen but the start screen clears every slot and leaves
      the back stack as exactly the start entry. */
  lemma CancelResetsAndReturnsToStart(s: AppState)
    requires OnForwardPath(s.backStack)
    requires CurrentScreen(s.backStack) != Some(StartScreen)
    ensures Step(s, CancelClicked) == Some(AppState([Name(StartScreen)], EmptyOrder))
    ensures IsEmpty(Step(s, CancelClicked).value.order)
    ensures CurrentScreen(Step(s, CancelClicked).value.backStack) == Some(StartScreen)
  {
    ForwardPathTop(s.backStack);
    PopToStartOnForwardPath(s.backStack);
    ValueOfName(StartScreen);
  }

  /** On the checkout, confirming the order has exactly the effect of
      cancelling it. */
  lemma ConfirmIsCancel(s: AppState)
    requires Displayed(s.backStack) == Some(Checkout)
    ensures Step(s, NextClicked) == Step(s, CancelClicked)
    ensures Step(s, NextClicked).Some? && IsEmpty(Step(s, NextClicked).value.order)
  {
  }

  /** The up arrow is offered exactly when an entry lies below the current
      one; it removes the top entry only and keeps every order slot. */
  lemma UpPopsWithoutReset(s: AppState)
    requires Displayed(s.backStack).Some?
    ensures Step(s, UpClicked).Some? <==> CanNavigateBack(s.backStack)
    ensures Step(s, UpClicked).Some? ==>
      && Step(s, UpClicked).value.backStack == s.backStack[..|s.backStack| - 1]
      && Step(s, UpClicked).value.order == s.order
  {
  }

  /** A selection is offered only on its own menu screen, sets only its own
      slot and never moves the back stack. */
  lemma SelectionTouchesOnlyItsSlot(s: AppState, item: MenuItem)
    ensures var t := Step(s, EntreeSelected(item));
      && (t.Some? <==> Displayed(s.backStack) == Some(EntreeMenu))
      && (t.Some? ==> t.value == AppState(s.backStack, s.order.(entree := Some(item))))
    ensures var t := Step(s, SideDishSelected(item));
      && (t.Some? <==> Displayed(s.backStack) == Some(SideDishMenu))
      && (t.Some? ==> t.value == AppState(s.backStack, s.order.(sideDish := Some(item))))
    ensures var t := Step(s, AccompanimentSelected(item));
      && (t.Some? <==> Displayed(s.backStack) == Some(AccompanimentMenu))
      && (t.Some? ==> t.value == AppState(s.backStack, s.order.(accompaniment := Some(item))))
  {
  }

  /** Pushing the next screen of the forward path keeps the stack on it. */
  lemma PushKeepsForwardPath(s: AppState, t: AppState)
    requires OnForwardPath(s.backStack)
    requires Successor(Displayed(s.backStack).value).Some?
    requires t.backStack == s.backStack + [Name(Successor(Displayed(s.backStack).value).value)]
    ensures OnForwardPath(t.backStack)
  {
    ForwardPathTop(s.backStack);
    var next := Successor(Displayed(s.backStack).value).value;
    assert Entries[Ordinal(next)] == next;
  }

  /** Every action keeps the back stack a non-empty prefix of the forward path. */
  lemma StepKeepsForwardPath(s: AppState, e: Event)
    requires OnForwardPath(s.backStack)
    requires Step(s, e).Some?
    ensures OnForwardPath(Step(s, e).value.backStack)
  {
    ForwardPathTop(s.backStack);
    var screen := Displayed(s.backStack).value;
    var t := Step(s, e).value;
    match e
    case UpClicked =>
      UpPopsWithoutReset(s);
    case CancelClicked =>
      CancelResetsAndReturnsToStart(s);
    case StartOrderClicked =>
      PushKeepsForwardPath(s, t);
    case NextClicked =>
      if screen == Checkout {
        ConfirmIsCancel(s);
        CancelResetsAndReturnsToStart(s);
      } else {
        PushKeepsForwardPath(s, t);
      }
    case EntreeSelected(item) =>
      SelectionTouchesOnlyItsSlot(s, item);
    case SideDishSelected(item) =>
      SelectionTouchesOnlyItsSlot(s, item);
    case AccompanimentSelected(item) =>
      SelectionTouchesOnlyItsSlot(s, item);
  }

  /** Any sequence of actions that is offered keeps the back stack on the
      forward path. */
  lemma {:induction false} RunKeepsForwardPath(s: AppState, events: seq<Event>)
    requires OnForwardPath(s.backStack)
    requires Run(s, events).Some?
    ensures OnForwardPath(Run(s, events).value.backStack)
    decreases |events|
  {
    if |events| > 0 {
      var t := Step(s, events[0]).value;
      StepKeepsForwardPath(s, events[0]);
      RunKeepsForwardPath(t, events[1..]);
    }
  }

  /** In every reachable state the back stack starts with the start screen and
      follows the forward path, its top is the current screen, `valueOf` on
      the current route succeeds, and `canNavigateBack` holds exactly when the
      current screen is not the start screen. */
  lemma ReachableInvariant(s: AppState)
    requires Reachable(s)
    ensures OnForwardPath(s.backStack)
    ensures s.backStack[0] == Name(StartScreen)
    ensures CurrentScreen(s.backStack) == Some(Entries[|s.backStack| - 1])
    ensures CurrentScreen(s.backStack) == Displayed(s.backStack)
    ensures CanNavigateBack(s.backStack) <==> CurrentScreen(s.backStack) != Some(StartScreen)
  {
    var events :| Run(Init, events) == Some(s);
    InitialState();
    RunKeepsForwardPath(Init, events);
    ForwardPathTop(s.backStack);
  }

  /** An order is cleared only together with the return to the start screen:
      no action empties a non-empty order and leaves the user elsewhere. */
  lemma ResetOnlyWithReturnToStart(s: AppState, e: Event)
    requires OnForwardPath(s.backStack)
    requires Step(s, e).Some?
    requires !IsEmpty(s.order) && IsEmpty(Step(s, e).value.order)
    ensures Step(s, e).value.backStack == [Name(StartScreen)]
  {
    PopToStartOnForwardPath(s.backStack);
  }

  /** The converse fails: the up arrow returns to the start screen without a
      reset, so the start screen can be reached with a selection still held. */
  lemma StartScreenMayHoldSelection(item: MenuItem)
    ensures var t := Run(Init, [StartOrderClicked, EntreeSelected(item), UpClicked]);
      && t.Some?
      && CurrentScreen(t.value.backStack) == Some(StartScreen)
      && t.value.order.entree == Some(item)
      && !IsEmpty(t.value.order)
  {
    var events := [StartOrderClicked, EntreeSelected(item), UpClicked];
    InitialState();
    var s1 := AppState([Name(StartScreen), Name(EntreeMenu)], EmptyOrder);
    assert Name(EntreeMenu) in Graph;
    assert Init.backStack == [Name(StartScreen)];
    assert Init.backStack + [Name(EntreeMenu)] == s1.backStack;
    assert Navigate(Graph, Init.backStack, Name(EntreeMenu)) == Some(s1.backStack);
    assert Step(Init, StartOrderClicked) == Some(s1);
    ForwardPathTop(s1.backStack);
    var s2 := AppState(s1.backStack, UpdateEntree(EmptyOrder, item));
    assert Step(s1, EntreeSelected(item)) == Some(s2);
    var s3 := AppState([Name(StartScreen)], s2.order);
    assert Step(s2, UpClicked) == Some(s3);
    assert events[1..] == [EntreeSelected(item), UpClicked];
    assert events[1..][1..] == [UpClicked];
    assert Run(s2, [UpClicked]) == Run(s3, []);
  }

  /** Running two sequences of actions one after the other is running their
      concatenation. */
  lemma {:induction false} RunAppend(s: AppState, first: seq<Event>, rest: seq<Event>)
    ensures Run(s, first + rest) == (match Run(s, first) case None => None case Some(t) => Run(t, rest))
    decreases |first|
  {
    if |first| == 0 {
      assert first + rest == rest;
    } else {
      assert (first + rest)[0] == first[0];
      assert (first + rest)[1..] == first[1..] + rest;
      match Step(s, first[0])
      case None =>
      case Some(t) => RunAppend(t, first[1..], rest);
    }
  }

  /** The back stack holding the first `n` screens of the forward path. */
  function ForwardStack(n: nat): (stack: BackStack)
    requires 1 <= n <= |Entries|
    ensures OnForwardPath(stack) && |stack| == n
  {
    seq(n, i requires 0 <= i < n => Name(Entries[i]))
  }

  /** One forward button press extends the forward stack by one screen. */
  lemma ForwardStackStep(n: nat)
    requires 2 <= n <= |Entries|
    ensures Step(AppState(ForwardStack(n - 1), EmptyOrder), if n == 2 then StartOrderClicked else NextClicked)
         == Some(AppState(ForwardStack(n), EmptyOrder))
  {
    var s := AppState(ForwardStack(n - 1), EmptyOrder);
    ForwardPathTop(s.backStack);
    ForwardButtonPushesSuccessor(s);
    assert Successor(Entries[n - 2]) == Some(Entries[n - 1]);
    assert s.backStack + [Name(Entries[n - 1])] == ForwardStack(n);
  }

  /** Extending an offered run by one offered action. */
  lemma RunSnoc(s: AppState, events: seq<Event>, u: AppState, e: Event, t: AppState)
    requires Run(s, events) == Some(u)
    requires Step(u, e) == Some(t)
    ensures Run(s, events + [e]) == Some(t)
  {
    assert [e][1..] == [];
    assert Run(u, [e]) == Run(t, []);
    RunAppend(s, events, [e]);
  }

  /** The invariant is tight: every non-empty prefix of the forward path is
      the back stack of a reachable state, reached with the order empty. */
  lemma {:induction false} ForwardPathReachable(n: nat)
    requires 1 <= n <= |Entries|
    ensures Reachable(AppState(ForwardStack(n), EmptyOrder))
  {
    var t := AppState(ForwardStack(n), EmptyOrder);
    if n == 1 {
      assert ForwardStack(1) == Init.backStack;
      assert Run(Init, []) == Some(t);
    } else {
      ForwardPathReachable(n - 1);
      var s := AppState(ForwardStack(n - 1), EmptyOrder);
      var events :| Run(Init, events) == Some(s);
      ForwardStackStep(n);
      RunSnoc(Init, events, s, if n == 2 then StartOrderClicked else NextClicked, t);
    }
  }

  /** The invariant rests on every click coming from the top entry's screen.
      The entree menu's "next" handler navigates without any guard, so a
      second tap delivered to it after the side-dish menu was pushed would
      push that menu twice and leave the forward path. */
  lemma StaleNextLeavesForwardPath()
    ensures var pushed := Navigate(Graph, [Name(StartScreen), Name(EntreeMenu), Name(SideDishMenu)], Name(SideDishMenu));
      && pushed.Some?
      && !OnForwardPath(pushed.value)
  {
    var pushed := Navigate(Graph, [Name(StartScreen), Name(EntreeMenu), Name(SideDishMenu)], Name(SideDishMenu)).value;
    assert pushed[3] == Name(SideDishMenu) != Name(Entries[3]);
  }
}
