/** The shopping cart of the mobile app: a map from event id to ticket count,
    the two totals derived from it, the +/- stepper, the cart listing and
    the reset after payment. Every update builds a new map: nothing is
    changed in place. */
module Cart {

  import opened Options

  /** The part of an event the cart needs: its id and its price in rand. */
  datatype EventInfo = EventInfo(id: int, price: int)

  /** Event id to ticket count. */
  type Cart = map<int, int>

  /** The events the app starts with (id and price of each mock event). */
  const MockEvents: seq<EventInfo> := [EventInfo(1, 350), EventInfo(2, 450), EventInfo(3, 550)]

  /** `events.find(e => e.id === id)`: the first event with that id, if any. */
  function FindEvent(events: seq<EventInfo>, id: int): (r: Option<EventInfo>)
    ensures r.None? <==> forall i | 0 <= i < |events| :: events[i].id != id
    ensures r.Some? ==> r.value.id == id && r.value in events
  {
    if events == [] then None
    else if events[0].id == id then Some(events[0])
    else
      var r := FindEvent(events[1..], id);
      assert forall i | 1 <= i < |events| :: events[i] == events[1..][i - 1];
      r
  }

  /** `find` returns the FIRST event with the id. */
  lemma {:induction false} FindEventFirst(events: seq<EventInfo>, id: int, i: nat)
    requires i < |events| && events[i].id == id
    requires forall j | 0 <= j < i :: events[j].id != id
    ensures FindEvent(events, id) == Some(events[i])
  {
    if i > 0 {
      assert events[1..][i - 1] == events[i];
      forall j | 0 <= j < i - 1 ensures events[1..][j].id != id {
        assert events[1..][j] == events[j + 1];
      }
      FindEventFirst(events[1..], id, i - 1);
    }
  }

  /** Every event that no earlier event shares its id with is the one `find` returns. */
  lemma FindEventFirstAll(events: seq<EventInfo>, id: int)
    ensures forall i | 0 <= i < |events| && events[i].id == id && (forall j | 0 <= j < i :: events[j].id != id) ::
              FindEvent(events, id) == Some(events[i])
  {
    forall i | 0 <= i < |events| && events[i].id == id && (forall j | 0 <= j < i :: events[j].id != id)
      ensures FindEvent(events, id) == Some(events[i])
    {
      FindEventFirst(events, id, i);
    }
  }

  /** `event?.price || 0`: the price of a known event, 0 for an unknown one. */
  function PriceOf(events: seq<EventInfo>, id: int): (p: int)
    ensures (forall i | 0 <= i < |events| :: events[i].id != id) ==> p == 0
    ensures forall i | 0 <= i < |events| && events[i].id == id && (forall j | 0 <= j < i :: events[j].id != id) ::
              p == events[i].price
  {
    FindEventFirstAll(events, id);
    match FindEvent(events, id)
    case Some(e) => e.price
    case None => 0
  }

  /** `cart[id] || 0`: the count shown by the stepper. */
  function Count(cart: Cart, id: int): int
  {
    if id in cart then cart[id] else 0
  }

  /** No id has an entry. */
  predicate Empty(m: map<int, int>)
  {
    forall k :: k !in m
  }

  /** `k` is the smallest key of `m`. */
  predicate IsMin(m: map<int, int>, k: int)
  {
    k in m && forall j | j in m :: k <= j
  }

  /** The smallest key of a map with at least one entry. */
  function MinKey(m: map<int, int>): (k: int)
    requires !Empty(m)
    ensures k in m && forall j | j in m :: k <= j
  {
    HasMin(m);
    var k :| IsMin(m, k);
    k
  }

  lemma {:induction false} HasMin(m: map<int, int>)
    requires !Empty(m)
    ensures exists k :: IsMin(m, k)
    decreases |m|
  {
    var x :| x in m;
    var t := m - {x};
    if Empty(t) {
      forall j | j in m ensures x <= j {
        assert j == x || j in t;
      }
      assert IsMin(m, x);
    } else {
      assert t.Keys == m.Keys - {x};
      HasMin(t);
      var y :| IsMin(t, y);
      var k := if x < y then x else y;
      forall j | j in m ensures k <= j {
        assert j == x || j in t;
      }
      assert IsMin(m, k);
    }
  }

  /** Sum of the values of a map, added up in ascending key order (the order
      in which `Object.values` lists integer-like keys). */
  function SumValues(m: map<int, int>): int
    decreases |m|
  {
    if Empty(m) then 0
    else
      var k := MinKey(m);
      assert |m - {k}| < |m| by {
        assert (m - {k}).Keys == m.Keys - {k};
      }
      m[k] + SumValues(m - {k})
  }

  /** `cartTickets`: the number of tickets in the cart. */
  function Tickets(cart: Cart): int
  {
    SumValues(cart)
  }

  /** The amount of each cart entry: price times count, 0 for an unknown event. */
  function LineAmounts(events: seq<EventInfo>, cart: Cart): map<int, int>
  {
    map k | k in cart :: PriceOf(events, k) * cart[k]
  }

  /** `cartTotal`: the money total of the cart. */
  function Total(events: seq<EventInfo>, cart: Cart): int
  {
    SumValues(LineAmounts(events, cart))
  }

  /** Whatever entry is taken out first, the sum is that entry plus the sum of the rest. */
  lemma {:induction false} SumValuesRemove(m: map<int, int>, k: int)
    requires k in m
    ensures SumValues(m) == m[k] + SumValues(m - {k})
    decreases |m|
  {
    var j := MinKey(m);
    if j != k {
      assert (m - {j}).Keys == m.Keys - {j};
      assert (m - {k}).Keys == m.Keys - {k};
      SumValuesRemove(m - {j}, k);
      SumValuesRemove(m - {k}, j);
      assert m - {j} - {k} == m - {k} - {j};
    }
  }

  /** Overwriting one entry changes the sum by the difference. */
  lemma SumValuesUpdate(m: map<int, int>, k: int, v: int)
    ensures SumValues(m[k := v]) == SumValues(m) - (if k in m then m[k] else 0) + v
  {
    SumValuesRemove(m[k := v], k);
    if k in m {
      SumValuesRemove(m, k);
      assert m[k := v] - {k} == m - {k};
    } else {
      assert m[k := v] - {k} == m;
    }
  }

  ghost predicate NonNegative(m: map<int, int>)
  {
    forall k | k in m :: m[k] >= 0
  }

  ghost predicate PricesNonNegative(events: seq<EventInfo>)
  {
    forall i | 0 <= i < |events| :: events[i].price >= 0
  }

  lemma {:induction false} SumValuesNonNegative(m: map<int, int>)
    requires NonNegative(m)
    ensures SumValues(m) >= 0
    decreases |m|
  {
    if !Empty(m) {
      var k := MinKey(m);
      assert (m - {k}).Keys == m.Keys - {k};
      SumValuesNonNegative(m - {k});
    }
  }

  /** A map with no negative value sums to 0 exactly when every value is 0. */
  lemma {:induction false} SumValuesZero(m: map<int, int>)
    requires NonNegative(m)
    ensures SumValues(m) == 0 <==> forall k | k in m :: m[k] == 0
    decreases |m|
  {
    if !Empty(m) {
      var k := MinKey(m);
      assert (m - {k}).Keys == m.Keys - {k};
      SumValuesZero(m - {k});
      SumValuesNonNegative(m - {k});
      forall j | j in m && j != k ensures j in m - {k} {
      }
    }
  }

  /** `cartTickets === 0`, the "cart is empty" case, holds for a cart without
      negative counts exactly when every count is 0. */
  lemma TicketsZero(cart: Cart)
    requires NonNegative(cart)
    ensures Tickets(cart) == 0 <==> forall k | k in cart :: cart[k] == 0
  {
    SumValuesZero(cart);
  }

  /** Taking one entry out of the cart takes its line amount out of the total. */
  lemma TotalRemove(events: seq<EventInfo>, cart: Cart, k: int)
    requires k in cart
    ensures Total(events, cart) == PriceOf(events, k) * cart[k] + Total(events, cart - {k})
  {
    var amounts := LineAmounts(events, cart);
    SumValuesRemove(amounts, k);
    var rest := LineAmounts(events, cart - {k});
    assert (amounts - {k}).Keys == rest.Keys;
    forall j | j in rest ensures (amounts - {k})[j] == rest[j] {
    }
    assert amounts - {k} == rest;
  }

  /** An entry whose event is not in the list adds nothing to the total. */
  lemma TotalUnknownEvent(events: seq<EventInfo>, cart: Cart, k: int)
    requires FindEvent(events, k).None?
    ensures Total(events, cart) == Total(events, cart - {k})
  {
    if k in cart {
      TotalRemove(events, cart, k);
      assert PriceOf(events, k) == 0;
    } else {
      assert cart - {k} == cart;
    }
  }

  /** The empty cart holds no tickets and costs nothing. */
  lemma EmptyCartTotals(events: seq<EventInfo>)
    ensures Tickets(map[]) == 0 && Total(events, map[]) == 0
  {
    assert LineAmounts(events, map[]) == map[];
  }

  /** The + button: `{...cart, [id]: (cart[id] || 0) + 1}`. */
  function Increment(cart: Cart, id: int): (r: Cart)
    ensures r.Keys == cart.Keys + {id}
    ensures r[id] == Count(cart, id) + 1
    ensures forall k | k in cart && k != id :: r[k] == cart[k]
  {
    cart[id := Count(cart, id) + 1]
  }

  /** The - button: `{...cart, [id]: Math.max(0, (cart[id] || 0) - 1)}`. */
  function Decrement(cart: Cart, id: int): (r: Cart)
    ensures r.Keys == cart.Keys + {id}
    ensures r[id] >= 0
    ensures Count(cart, id) >= 1 ==> r[id] == Count(cart, id) - 1
    ensures Count(cart, id) <= 0 ==> r[id] == 0
    ensures forall k | k in cart && k != id :: r[k] == cart[k]
  {
    cart[id := if Count(cart, id) - 1 > 0 then Count(cart, id) - 1 else 0]
  }

  /** "Back to Home" after payment: `setCart({})`. */
  function Reset(cart: Cart): Cart
  {
    map[]
  }

  /** The + button adds exactly one ticket. */
  lemma IncrementTickets(cart: Cart, id: int)
    ensures Tickets(Increment(cart, id)) == Tickets(cart) + 1
  {
    SumValuesUpdate(cart, id, Count(cart, id) + 1);
  }

  /** The - button removes one ticket when there is one, and none at 0. */
  lemma DecrementTickets(cart: Cart, id: int)
    requires Count(cart, id) >= 0
    ensures Tickets(Decrement(cart, id)) == Tickets(cart) - (if Count(cart, id) >= 1 then 1 else 0)
  {
    SumValuesUpdate(cart, id, Decrement(cart, id)[id]);
  }

  /** The + button raises the total by exactly the event's price (0 for an unknown event). */
  lemma IncrementTotal(events: seq<EventInfo>, cart: Cart, id: int)
    ensures Total(events, Increment(cart, id)) == Total(events, cart) + PriceOf(events, id)
  {
    var p, c := PriceOf(events, id), Count(cart, id);
    LineAmountsUpdate(events, cart, id, c + 1);
    SumValuesUpdate(LineAmounts(events, cart), id, p * (c + 1));
    Distribute(p, c);
  }

  /** Kept apart so that the nonlinear step is proved without the cart in context. */
  lemma Distribute(p: int, c: int)
    ensures p * (c + 1) == p * c + p
  {
  }

  /** Changing one count changes only that entry's amount. */
  lemma LineAmountsUpdate(events: seq<EventInfo>, cart: Cart, id: int, v: int)
    ensures LineAmounts(events, cart[id := v]) == LineAmounts(events, cart)[id := PriceOf(events, id) * v]
    ensures id in cart ==> LineAmounts(events, cart)[id] == PriceOf(events, id) * cart[id]
  {
    var after := LineAmounts(events, cart[id := v]);
    var upd := LineAmounts(events, cart)[id := PriceOf(events, id) * v];
    assert after.Keys == upd.Keys;
    forall k | k in after ensures after[k] == upd[k] {
    }
  }

  /** For a known event, that price is the event's own price. */
  lemma IncrementKnownTotal(events: seq<EventInfo>, cart: Cart, i: nat)
    requires i < |events|
    requires forall j | 0 <= j < i :: events[j].id != events[i].id
    ensures Total(events, Increment(cart, events[i].id)) == Total(events, cart) + events[i].price
  {
    FindEventFirst(events, events[i].id, i);
    IncrementTotal(events, cart, events[i].id);
  }

  /** + then - gives back every count the cart had (a count that was never
      set reads 0 both before and after). */
  lemma IncrementThenDecrement(cart: Cart, id: int)
    requires Count(cart, id) >= 0
    ensures forall k :: Count(Decrement(Increment(cart, id), id), k) == Count(cart, k)
    ensures id in cart ==> Decrement(Increment(cart, id), id) == cart
  {
    var r := Decrement(Increment(cart, id), id);
    if id in cart {
      assert r == cart;
    }
  }

  /** A session's cart actions on the mobile app. */
  datatype Action = Plus(id: int) | Minus(id: int) | Pay

  function Apply(cart: Cart, a: Action): Cart
  {
    match a
    case Plus(id) => Increment(cart, id)
    case Minus(id) => Decrement(cart, id)
    case Pay => Reset(cart)
  }

  /** The cart after a sequence of actions, starting from `useState({})`. */
  function Replay(actions: seq<Action>): Cart
  {
    if actions == [] then map[] else Apply(Replay(actions[..|actions| - 1]), actions[|actions| - 1])
  }

  /** Every cart the app can reach holds no negative count, so neither total is negative. */
  lemma {:induction false} ReplayNonNegative(events: seq<EventInfo>, actions: seq<Action>)
    requires PricesNonNegative(events)
    ensures NonNegative(Replay(actions))
    ensures Tickets(Replay(actions)) >= 0 && Total(events, Replay(actions)) >= 0
  {
    if actions != [] {
      ReplayNonNegative(events, actions[..|actions| - 1]);
    }
    var cart := Replay(actions);
    SumValuesNonNegative(cart);
    var amounts := LineAmounts(events, cart);
    forall k | k in amounts ensures amounts[k] >= 0 {
      PriceNonNegative(events, k);
      MulNonNegative(PriceOf(events, k), cart[k]);
    }
    SumValuesNonNegative(amounts);
  }

  lemma PriceNonNegative(events: seq<EventInfo>, id: int)
    requires PricesNonNegative(events)
    ensures PriceOf(events, id) >= 0
  {
  }

  /** Kept apart for the same reason as `Distribute`. */
  lemma MulNonNegative(a: int, b: int)
    requires a >= 0 && b >= 0
    ensures a * b >= 0
  {
  }

  /** The mock events have non-negative prices. */
  lemma MockPricesNonNegative()
    ensures PricesNonNegative(MockEvents)
  {
  }

  /** One card of the cart screen: the event and its count. */
  datatype Line = Line(event: EventInfo, count: int)

  /** The cart screen: the entries whose event is known and whose count is not
      0, in ascending id order (the `Object.entries` order for integer keys). */
  function CartLines(events: seq<EventInfo>, cart: Cart): seq<Line>
    decreases |cart|
  {
    if Empty(cart) then []
    else
      var k := MinKey(cart);
      assert (cart - {k}).Keys == cart.Keys - {k};
      var rest := CartLines(events, cart - {k});
      match FindEvent(events, k)
      case Some(e) => if cart[k] != 0 then [Line(e, cart[k])] + rest else rest
      case None => rest
  }

  /** An entry the cart screen must show: a known event with a non-zero count. */
  predicate Listed(events: seq<EventInfo>, cart: Cart, id: int)
  {
    id in cart && FindEvent(events, id).Some? && cart[id] != 0
  }

  /** One step of CartLines: the smallest id's card, if any, then the rest. */
  lemma CartLinesStep(events: seq<EventInfo>, cart: Cart)
    requires !Empty(cart)
    ensures var k := MinKey(cart);
      && (cart - {k}).Keys == cart.Keys - {k}
      && CartLines(events, cart)
         == (if Listed(events, cart, k) then [Line(FindEvent(events, k).value, cart[k])] else [])
            + CartLines(events, cart - {k})
  {
    var k := MinKey(cart);
    assert (cart - {k}).Keys == cart.Keys - {k};
  }

  /** Every card shows a listed entry: its event and its count. */
  lemma {:induction false} CartLinesSound(events: seq<EventInfo>, cart: Cart)
    ensures var r := CartLines(events, cart);
      forall i | 0 <= i < |r| ::
        Listed(events, cart, r[i].event.id) && r[i].count == cart[r[i].event.id]
        && FindEvent(events, r[i].event.id) == Some(r[i].event)
    decreases |cart|
  {
    if !Empty(cart) {
      var k := MinKey(cart);
      CartLinesStep(events, cart);
      CartLinesSound(events, cart - {k});
    }
  }

  /** Cards come in strictly ascending id order, so no entry is shown twice. */
  lemma {:induction false} CartLinesAscending(events: seq<EventInfo>, cart: Cart)
    ensures var r := CartLines(events, cart);
      forall i, j | 0 <= i < j < |r| :: r[i].event.id < r[j].event.id
    decreases |cart|
  {
    if !Empty(cart) {
      var k := MinKey(cart);
      CartLinesStep(events, cart);
      CartLinesAscending(events, cart - {k});
      CartLinesSound(events, cart - {k});
    }
  }

  /** Every listed entry has a card. */
  lemma {:induction false} CartLinesComplete(events: seq<EventInfo>, cart: Cart, id: int)
    requires Listed(events, cart, id)
    ensures var r := CartLines(events, cart);
      exists i | 0 <= i < |r| :: r[i].event.id == id
    decreases |cart|
  {
    var k := MinKey(cart);
    CartLinesStep(events, cart);
    var rest := CartLines(events, cart - {k});
    var r := CartLines(events, cart);
    if id == k {
      assert r[0].event.id == id;
    } else {
      assert Listed(events, cart - {k}, id);
      CartLinesComplete(events, cart - {k}, id);
      var i :| 0 <= i < |rest| && rest[i].event.id == id;
      if Listed(events, cart, k) {
        assert r[i + 1] == rest[i];
      } else {
        assert r[i] == rest[i];
      }
    }
  }

  /** With no negative count, the "cart is empty" message and a card never show together. */
  lemma EmptyMessageNoCards(events: seq<EventInfo>, cart: Cart)
    requires NonNegative(cart) && Tickets(cart) == 0
    ensures CartLines(events, cart) == []
  {
    TicketsZero(cart);
    CartLinesSound(events, cart);
  }

  /** The stepper's count after + and after -: one more, one fewer but not
      below 0, and every other event's count as it was. */
  lemma CountSteps(cart: Cart, id: int, k: int)
    ensures Count(Increment(cart, id), k) == Count(cart, k) + (if k == id then 1 else 0)
    ensures k != id ==> Count(Decrement(cart, id), k) == Count(cart, k)
    ensures Count(Decrement(cart, id), id) == (if Count(cart, id) >= 1 then Count(cart, id) - 1 else 0)
  {
  }

  /** After payment the cart screen is empty and the badge shows 0. */
  lemma PaymentEmptiesCart(events: seq<EventInfo>, cart: Cart)
    ensures forall k :: Count(Apply(cart, Pay), k) == 0
    ensures CartLines(events, Apply(cart, Pay)) == []
    ensures Tickets(Apply(cart, Pay)) == 0 && Total(events, Apply(cart, Pay)) == 0
  {
    EmptyCartTotals(events);
  }
}
