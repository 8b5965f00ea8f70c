/** The order held by the app's order view model, reduced to its three
    selection slots. Items are opaque: prices, subtotal and tax are not part
    of this model. */
module Order {
  import opened Optional

  /** A menu item, identified by its name. */
  datatype MenuItem = MenuItem(name: string)

  datatype OrderState = OrderState(
    entree: Option<MenuItem>,
    sideDish: Option<MenuItem>,
    accompaniment: Option<MenuItem>)

  /** No slot holds a selection. */
  predicate IsEmpty(o: OrderState)
  {
    o.entree.None? && o.sideDish.None? && o.accompaniment.None?
  }

  /** The order a fresh view model starts with. */
  const EmptyOrder: OrderState := OrderState(None, None, None)

  /** `updateEntree(item)`: the entree slot holds `item`, the others are kept. */
  function UpdateEntree(o: OrderState, item: MenuItem): (r: OrderState)
    ensures r.entree == Some(item)
    ensures r.sideDish == o.sideDish && r.accompaniment == o.accompaniment
  {
    o.(entree := Some(item))
  }

  /** `updateSideDish(item)`: the side-dish slot holds `item`, the others are kept. */
  function UpdateSideDish(o: OrderState, item: MenuItem): (r: OrderState)
    ensures r.sideDish == Some(item)
    ensures r.entree == o.entree && r.accompaniment == o.accompaniment
  {
    o.(sideDish := Some(item))
  }

  /** `updateAccompaniment(item)`: the accompaniment slot holds `item`, the others are kept. */
  function UpdateAccompaniment(o: OrderState, item: MenuItem): (r: OrderState)
    ensures r.accompaniment == Some(item)
    ensures r.entree == o.entree && r.sideDish == o.sideDish
  {
    o.(accompaniment := Some(item))
  }

  /** `resetOrder()`: every slot cleared, whatever the order held. */
  function ResetOrder(o: OrderState): (r: OrderState)
    ensures IsEmpty(r)
  {
    EmptyOrder
  }

  /** Resetting twice is resetting once. */
  lemma ResetIdempotent(o: OrderState)
    ensures ResetOrder(ResetOrder(o)) == ResetOrder(o)
  {
  }

  /** The slots are independent: updating them in either order gives the
      same order, holding exactly the three selections. */
  lemma UpdatesCommute(o: OrderState, e: MenuItem, d: MenuItem, a: MenuItem)
    ensures UpdateAccompaniment(UpdateSideDish(UpdateEntree(o, e), d), a)
         == UpdateEntree(UpdateSideDish(UpdateAccompaniment(o, a), d), e)
    ensures UpdateAccompaniment(UpdateSideDish(UpdateEntree(o, e), d), a) == OrderState(Some(e), Some(d), Some(a))
  {
  }
}
