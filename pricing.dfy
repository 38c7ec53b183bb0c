/** The pricing rules of the bar's drink store, on values: what one purchase, one decay
    pass and the start-up seeding do to the drinks. */
module Pricing {
  import opened History

  /** A drink's state: current price, the clock reading of the last price change
      (purchase or decay) and its bounded price history. */
  datatype Item = Item(price: real, lastPurchased: int, history: seq<Point>)

  /** One entry of the start-up list of drinks. */
  datatype DrinkRecord = DrinkRecord(name: string, price: real)

  /** A drink idle strictly longer than this many milliseconds decays. */
  const IdleThreshold: int := 20000
  /** A purchase raises the price by 10%. */
  const PurchaseFactor: real := 1.10
  /** A decay step lowers the price by 10%. */
  const DecayFactor: real := 0.90

  /** Every drink's history holds between 1 and Capacity points. */
  predicate WellFormed(it: Item)
  {
    1 <= |it.history| <= Capacity
  }

  predicate StoreWellFormed(d: map<string, Item>)
  {
    forall n :: n in d ==> WellFormed(d[n])
  }

  predicate AllPositive(d: map<string, Item>)
  {
    forall n :: n in d ==> d[n].price > 0.0
  }

  /** A freshly loaded drink: its price, the load time, and one history point. */
  function NewItem(price: real, now: int): (r: Item)
    ensures WellFormed(r) && r.price == price
    ensures !Idle(r, now)
  {
    Item(price, now, [Point(now, price)])
  }

  /** addToHistory on one drink: record the current price at clock reading `t`. */
  function Recorded(it: Item, t: int): (r: Item)
    ensures r.price == it.price && r.lastPurchased == it.lastPurchased
    ensures |r.history| >= 1 && r.history[|r.history| - 1] == Point(t, it.price)
    ensures WellFormed(it) ==> WellFormed(r)
  {
    it.(history := Push(it.history, Point(t, it.price)))
  }

  /** The decay gate: idle strictly longer than the threshold. */
  predicate Idle(it: Item, now: int)
  {
    now - it.lastPurchased > IdleThreshold
  }

  /** A purchase at `now`, whose history point is stamped `t`. */
  function Bought(it: Item, now: int, t: int): (r: Item)
    ensures r.price == it.price * 1.10 && r.lastPurchased == now
    ensures |r.history| >= 1 && r.history[|r.history| - 1] == Point(t, r.price)
    ensures WellFormed(it) ==> WellFormed(r)
    ensures it.price > 0.0 ==> r.price > it.price
  {
    Recorded(it.(price := it.price * PurchaseFactor, lastPurchased := now), t)
  }

  /** One decay step at `now`, whose history point is stamped `t`. */
  function Decayed(it: Item, now: int, t: int): (r: Item)
    ensures r.price == it.price * 0.90 && r.lastPurchased == now
    ensures |r.history| >= 1 && r.history[|r.history| - 1] == Point(t, r.price)
    ensures WellFormed(it) ==> WellFormed(r)
    ensures it.price > 0.0 ==> 0.0 < r.price < it.price
  {
    Recorded(it.(price := it.price * DecayFactor, lastPurchased := now), t)
  }

  /** The store part-way through a decay pass at `now` that has visited the drinks in `done`;
      `clock(n)` is the reading addToHistory takes when the pass records drink `n`. */
  function DecayVisited(d: map<string, Item>, now: int, clock: string -> int, done: set<string>): (r: map<string, Item>)
    ensures r.Keys == d.Keys
  {
    map n | n in d :: Visit(d[n], now, clock(n), n in done)
  }

  /** What a decay pass does to one drink: decay it if the pass has reached it and it is idle. */
  function Visit(it: Item, now: int, t: int, reached: bool): (r: Item)
    ensures r != it <==> reached && Idle(it, now)
    ensures reached ==> !Idle(r, now)
  {
    if reached && Idle(it, now) then Decayed(it, now, t) else it
  }

  /** The store after a whole decay pass at `now`. */
  function DecayAll(d: map<string, Item>, now: int, clock: string -> int): (r: map<string, Item>)
    ensures r.Keys == d.Keys
    ensures forall n :: n in r ==> !Idle(r[n], now)
  {
    DecayVisited(d, now, clock, d.Keys)
  }

  /** Some drink among those in `done` is idle at `now`. */
  predicate AnyIdleIn(d: map<string, Item>, now: int, done: set<string>)
  {
    exists n :: n in done && n in d && Idle(d[n], now)
  }

  /** Some drink is idle at `now`: the pass raises its changed flag and broadcasts. */
  predicate AnyIdle(d: map<string, Item>, now: int)
  {
    AnyIdleIn(d, now, d.Keys)
  }

  /** Visiting one more drink changes that drink alone, and raises the flag when it is idle. */
  lemma DecayVisitStep(d: map<string, Item>, now: int, clock: string -> int, done: set<string>, n: string)
    requires n in d && n !in done
    ensures DecayVisited(d, now, clock, done + {n}) ==
      DecayVisited(d, now, clock, done)[n := if Idle(d[n], now) then Decayed(d[n], now, clock(n)) else d[n]]
    ensures AnyIdleIn(d, now, done + {n}) <==> AnyIdleIn(d, now, done) || Idle(d[n], now)
  {
    var after := DecayVisited(d, now, clock, done + {n});
    var before := DecayVisited(d, now, clock, done);
    forall m | m in d ensures after[m] == before[n := Visit(d[n], now, clock(n), true)][m] {
      if m != n {
        assert after[m] == Visit(d[m], now, clock(m), m in done) == before[m];
      }
    }
  }

  /** Replacing one drink by a well-formed one keeps the store well formed. */
  lemma UpdateWellFormed(d: map<string, Item>, n: string, it: Item)
    requires StoreWellFormed(d) && WellFormed(it)
    ensures StoreWellFormed(d[n := it])
  {
  }

  /** A partial pass keeps every history well formed. */
  lemma DecayVisitedWellFormed(d: map<string, Item>, now: int, clock: string -> int, done: set<string>)
    requires StoreWellFormed(d)
    ensures StoreWellFormed(DecayVisited(d, now, clock, done))
  {
    forall n | n in d ensures WellFormed(DecayVisited(d, now, clock, done)[n]) {
      RecordAppendsOnePoint(d[n].(price := d[n].price * DecayFactor, lastPurchased := now), clock(n));
    }
  }

  /** The store loaded from `rs`, where `ts[i]` is the clock reading taken for `rs[i]`;
      a later record with the same name overwrites an earlier one. */
  function Seeded(rs: seq<DrinkRecord>, ts: seq<int>): (r: map<string, Item>)
    requires |ts| == |rs|
    ensures forall n :: n in r ==> r[n].history == [Point(r[n].lastPurchased, r[n].price)]
    decreases |rs|
  {
    if rs == [] then map[]
    else Seeded(rs[..|rs| - 1], ts[..|ts| - 1])[rs[|rs| - 1].name := NewItem(rs[|rs| - 1].price, ts[|ts| - 1])]
  }

  /** The names listed in `rs`. */
  function Names(rs: seq<DrinkRecord>): (names: set<string>)
  {
    set i | 0 <= i < |rs| :: rs[i].name
  }

  /** The names of the seeded store are exactly the names listed. */
  lemma {:induction false} SeededNames(rs: seq<DrinkRecord>, ts: seq<int>)
    requires |ts| == |rs|
    ensures Seeded(rs, ts).Keys == Names(rs)
    decreases |rs|
  {
    if rs != [] {
      var k := |rs| - 1;
      SeededNames(rs[..k], ts[..k]);
      assert Names(rs) == Names(rs[..k]) + {rs[k].name} by {
        forall x | x in Names(rs) ensures x in Names(rs[..k]) + {rs[k].name} {
          var i :| 0 <= i < |rs| && rs[i].name == x;
          if i < k { assert rs[..k][i].name == x; }
        }
      }
    }
  }

  /** For a listed name, the last record with that name wins: its price, its load time and
      a one-point history. */
  lemma {:induction false} SeededLastWins(rs: seq<DrinkRecord>, ts: seq<int>, i: nat)
    requires |ts| == |rs|
    requires i < |rs|
    requires forall j :: i < j < |rs| ==> rs[j].name != rs[i].name
    ensures rs[i].name in Seeded(rs, ts)
    ensures Seeded(rs, ts)[rs[i].name] == Item(rs[i].price, ts[i], [Point(ts[i], rs[i].price)])
    decreases |rs|
  {
    var k := |rs| - 1;
    if i < k {
      forall j | i < j < k ensures rs[..k][j].name != rs[..k][i].name {
        assert rs[j].name != rs[i].name;
      }
      SeededLastWins(rs[..k], ts[..k], i);
      assert rs[..k][i] == rs[i] && ts[..k][i] == ts[i];
      assert rs[k].name != rs[i].name;
    }
  }

  /** Every seeded drink is well formed. */
  lemma {:induction false} SeededWellFormed(rs: seq<DrinkRecord>, ts: seq<int>)
    requires |ts| == |rs|
    ensures StoreWellFormed(Seeded(rs, ts))
    decreases |rs|
  {
    if rs != [] {
      SeededWellFormed(rs[..|rs| - 1], ts[..|ts| - 1]);
    }
  }

  /** Recording a point keeps the price and the idle clock, appends exactly one point that
      carries the current price, and evicts the oldest point only when the history was full. */
  lemma RecordAppendsOnePoint(it: Item, t: int)
    requires WellFormed(it)
    ensures WellFormed(Recorded(it, t))
    ensures Recorded(it, t).price == it.price
    ensures Recorded(it, t).lastPurchased == it.lastPurchased
    ensures Recorded(it, t).history == LastN(it.history + [Point(t, it.price)], Capacity)
    ensures |it.history| < Capacity ==> Recorded(it, t).history == it.history + [Point(t, it.price)]
    ensures |it.history| == Capacity ==> Recorded(it, t).history == it.history[1..] + [Point(t, it.price)]
  {
    PushShape(it.history, Point(t, it.price));
  }

  /** A purchase raises the price by 10%, resets the idle clock to `now` and records one
      point carrying the raised price. */
  lemma PurchaseStep(it: Item, now: int, t: int)
    requires WellFormed(it)
    ensures WellFormed(Bought(it, now, t))
    ensures Bought(it, now, t).price == it.price * 1.10
    ensures Bought(it, now, t).lastPurchased == now
    ensures Bought(it, now, t).history == LastN(it.history + [Point(t, it.price * 1.10)], Capacity)
  {
    RecordAppendsOnePoint(it.(price := it.price * PurchaseFactor, lastPurchased := now), t);
  }

  /** A decay pass touches each drink on its own: a drink idle strictly longer than the
      threshold loses 10%, has its idle clock reset to `now` and gains one point; any other
      drink is left exactly as it was. */
  lemma DecayGate(d: map<string, Item>, now: int, clock: string -> int, n: string)
    requires n in d
    ensures n in DecayAll(d, now, clock)
    ensures now - d[n].lastPurchased > 20000 ==>
      DecayAll(d, now, clock)[n].price == d[n].price * 0.90 &&
      DecayAll(d, now, clock)[n].lastPurchased == now &&
      DecayAll(d, now, clock)[n].history == LastN(d[n].history + [Point(clock(n), d[n].price * 0.90)], Capacity)
    ensures now - d[n].lastPurchased <= 20000 ==> DecayAll(d, now, clock)[n] == d[n]
  {
  }

  /** The boundary case of DecayGate, kept as its own statement: a drink idle exactly the
      threshold does not decay, because the gate is strict. */
  lemma GateIsStrict(d: map<string, Item>, now: int, clock: string -> int, n: string)
    requires n in d && now == d[n].lastPurchased + 20000
    ensures DecayAll(d, now, clock)[n] == d[n]
  {
  }

  /** A decay pass keeps every history well formed. */
  lemma DecayWellFormed(d: map<string, Item>, now: int, clock: string -> int)
    requires StoreWellFormed(d)
    ensures StoreWellFormed(DecayAll(d, now, clock))
  {
    DecayVisitedWellFormed(d, now, clock, d.Keys);
  }

  /** The changed flag, and so the broadcast, is raised exactly when the pass changes the store. */
  lemma ChangedIffStoreChanged(d: map<string, Item>, now: int, clock: string -> int)
    ensures AnyIdle(d, now) <==> DecayAll(d, now, clock) != d
  {
    var r := DecayAll(d, now, clock);
    if AnyIdle(d, now) {
      var n :| n in d && Idle(d[n], now);
      assert r[n].lastPurchased == now != d[n].lastPurchased;
    } else {
      forall n | n in d ensures r[n] == d[n] {
        assert !Idle(d[n], now);
      }
    }
  }

  /** A drink that decayed at `now` does not decay again in a pass at most the threshold later. */
  lemma DecayedDrinkRests(d: map<string, Item>, now: int, clock: string -> int, n: string, later: int)
    requires n in d && Idle(d[n], now)
    requires later - now <= 20000
    ensures !Idle(DecayAll(d, now, clock)[n], later)
  {
  }

  /** A later pass within the threshold can still decay a drink the first pass left alone:
      a drink idle 15000 ms at one tick is idle 25000 ms at a tick 10000 ms later. */
  lemma LaterPassMayDecay(clock: string -> int)
    ensures var d := map["cola" := NewItem(1.00, 0)];
            var first := DecayAll(d, 15000, clock);
            first == d && DecayAll(first, 25000, clock) != first
  {
    var d := map["cola" := NewItem(1.00, 0)];
    assert !AnyIdle(d, 15000);
    QuietPassIsNoop(d, 15000, clock);
    assert Idle(d["cola"], 25000);
    ChangedIffStoreChanged(d, 25000, clock);
  }

  /** After a pass at `now`, no drink is idle at `now` or at any earlier reading, so a pass
      at such a reading raises no flag. */
  lemma PassLeavesNoneIdle(d: map<string, Item>, now: int, clock: string -> int, later: int)
    requires later <= now
    ensures !AnyIdle(DecayAll(d, now, clock), later)
  {
    var r := DecayAll(d, now, clock);
    forall n | n in r ensures !Idle(r[n], later) {
      if Idle(d[n], now) {
        assert r[n].lastPurchased == now;
      } else {
        assert r[n] == d[n];
      }
    }
  }

  /** A pass in which no drink is idle changes nothing. */
  lemma QuietPassIsNoop(d: map<string, Item>, now: int, clock: string -> int)
    requires !AnyIdle(d, now)
    ensures DecayAll(d, now, clock) == d
  {
    ChangedIffStoreChanged(d, now, clock);
  }

  /** Repeating a pass at the same reading changes nothing and broadcasts nothing. */
  lemma SecondPassIsNoop(d: map<string, Item>, now: int, clock: string -> int, clock': string -> int)
    ensures !AnyIdle(DecayAll(d, now, clock), now)
    ensures DecayAll(DecayAll(d, now, clock), now, clock') == DecayAll(d, now, clock)
  {
    PassLeavesNoneIdle(d, now, clock, now);
    QuietPassIsNoop(DecayAll(d, now, clock), now, clock');
  }

  /** Positive prices stay positive under a decay pass and under a purchase. */
  lemma PricesStayPositive(d: map<string, Item>, now: int, clock: string -> int, name: string, t: int)
    requires AllPositive(d)
    ensures AllPositive(DecayAll(d, now, clock))
    ensures name in d ==> AllPositive(d[name := Bought(d[name], now, t)])
  {
  }

  /** The cola scenario: seeded at 1.00, bought at 0 and 1000 (1.10, then 1.21), decayed at
      25000 (1.089, idle clock 25000), then left alone by a pass at 30000. */
  lemma ColaScenario(clock: string -> int)
    ensures var d0 := Seeded([DrinkRecord("cola", 1.00)], [0]);
            var d1 := d0["cola" := Bought(d0["cola"], 0, 0)];
            var d2 := d1["cola" := Bought(d1["cola"], 1000, 1000)];
            var d3 := DecayAll(d2, 25000, clock);
            d1["cola"].price == 1.10 && d2["cola"].price == 1.21 &&
            d3["cola"].price == 1.089 && d3["cola"].lastPurchased == 25000 &&
            DecayAll(d3, 30000, clock) == d3
  {
    var d0 := Seeded([DrinkRecord("cola", 1.00)], [0]);
    assert d0 == map["cola" := NewItem(1.00, 0)];
    var d1 := d0["cola" := Bought(d0["cola"], 0, 0)];
    var d2 := d1["cola" := Bought(d1["cola"], 1000, 1000)];
    assert d2.Keys == {"cola"};
    var d3 := DecayAll(d2, 25000, clock);
    assert Idle(d2["cola"], 25000);
    assert !AnyIdle(d3, 30000);
    QuietPassIsNoop(d3, 30000, clock);
  }
}
