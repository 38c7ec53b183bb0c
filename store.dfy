/** The server's in-memory drink store and the three code paths that change it:
    loading at start-up, the periodic decay pass and the purchase route. */
module Drinks {
  import opened History
  import opened Pricing

  class Store {
    /** Drink name to its current state, updated in place by every price change. */
    var drinks: map<string, Item>

    ghost predicate Valid()
      reads this
    {
      StoreWellFormed(drinks)
    }

    /** Load the drinks listed in `records`; `times[i]` is the clock reading taken while
        loading `records[i]`. A repeated name overwrites the earlier entry. */
    constructor Load(records: seq<DrinkRecord>, times: seq<int>)
      requires |times| == |records|
      ensures Valid()
      ensures drinks == Seeded(records, times)
    {
      drinks := map[];
      new;
      var i := 0;
      while i < |records|
        invariant 0 <= i <= |records|
        invariant drinks == Seeded(records[..i], times[..i])
      {
        var now := times[i];
        drinks := drinks[records[i].name := Item(records[i].price, now, [Point(now, records[i].price)])];
        assert records[..i + 1][..i] == records[..i] && times[..i + 1][..i] == times[..i];
        i := i + 1;
      }
      assert records[..i] == records && times[..i] == times;
      SeededWellFormed(records, times);
    }

    /** Record the drink's current price at clock reading `t`: push the point, then drop the
        oldest one when the history has grown past Capacity. */
    method AddToHistory(name: string, t: int)
      requires Valid() && name in drinks
      modifies this
      ensures Valid()
      ensures drinks == old(drinks)[name := Recorded(old(drinks)[name], t)]
    {
      var drink := drinks[name];
      var history := drink.history + [Point(t, drink.price)];
      if |history| > Capacity {
        history := history[1..];
      }
      PushShape(drink.history, Point(t, drink.price));
      drinks := drinks[name := drink.(history := history)];
    }

    /** The body of the decay loop for one drink (`now` is the tick's reading, `t` the
        reading addToHistory takes): an idle drink loses 10%, has its idle clock reset and
        records a point; the result tells whether it decayed. */
    method DecayDrink(name: string, now: int, t: int) returns (decayed: bool)
      requires Valid() && name in drinks
      modifies this
      ensures Valid()
      ensures decayed <==> Idle(old(drinks)[name], now)
      ensures drinks == old(drinks)[name := Visit(old(drinks)[name], now, t, true)]
    {
      var drink := drinks[name];
      decayed := now - drink.lastPurchased > IdleThreshold;
      if decayed {
        var lowered := drink.(price := drink.price * DecayFactor, lastPurchased := now);
        UpdateWellFormed(drinks, name, lowered);
        drinks := drinks[name := lowered];
        AddToHistory(name, t);
      }
    }

    /** One tick of the decay timer at clock reading `now`: every drink idle strictly longer
        than IdleThreshold loses 10%, has its idle clock reset to `now` and records a point
        stamped `clock(name)`. The result is the changed flag that gates the broadcast. */
    method DecayPass(now: int, clock: string -> int) returns (changed: bool)
      requires Valid()
      modifies this
      ensures Valid()
      ensures drinks == DecayAll(old(drinks), now, clock)
      ensures changed <==> AnyIdle(old(drinks), now)
    {
      ghost var start := drinks;
      ghost var done: set<string> := {};
      var todo := drinks.Keys;
      changed := false;
      while todo != {}
        invariant todo == start.Keys - done
        invariant drinks == DecayVisited(start, now, clock, done)
        invariant changed <==> AnyIdleIn(start, now, done)
        decreases |todo|
      {
        var name :| name in todo;
        DecayVisitedWellFormed(start, now, clock, done);
        DecayVisitStep(start, now, clock, done, name);
        var decayed := DecayDrink(name, now, clock(name));
        if decayed {
          changed := true;
        }
        todo := todo - {name};
        done := done + {name};
      }
      DecayVisitedWellFormed(start, now, clock, done);
    }

    /** The purchase route for `name` at clock reading `now`, whose history point is stamped
        `t`. A known drink gets 10% dearer, its idle clock reset and one point; the result is
        true, and the caller broadcasts. An unknown name changes nothing and yields false,
        the not-found answer. */
    method Purchase(name: string, now: int, t: int) returns (found: bool)
      requires Valid()
      modifies this
      ensures Valid()
      ensures found <==> name in old(drinks)
      ensures found ==> drinks == old(drinks)[name := Bought(old(drinks)[name], now, t)]
      ensures !found ==> drinks == old(drinks)
    {
      if name in drinks {
        var drink := drinks[name];
        drinks := drinks[name := drink.(price := drink.price * PurchaseFactor, lastPurchased := now)];
        AddToHistory(name, t);
        found := true;
      } else {
        found := false;
      }
    }
  }
}
