/** The in-memory state of a reindex and its two ways to the database: the flush
    of finished auctions after each batch, and the final save of what is left.
    Both translate an order's in-memory auction id into the stored auction. */
module ReindexState {
  import opened Sequences

  datatype AuctionStatus = NoStatus | Running | Closed | Claimable | Ended

  /** `id` is absent between `delete` and the save that assigns the stored id.
      `serial` numbers the auctions of a run in the order of their creation; it
      stands for the identity of the entity object, which the source compares
      nowhere. */
  datatype Auction = Auction(id: Option<int>, serial: nat, status: AuctionStatus)

  /** `about` is the serial of the auction the order was created for. The source
      keeps no such field; it says here what `auctionId` is meant to denote. */
  datatype Order = Order(auctionId: int, auction: Option<Auction>, about: nat)

  /** `created` counts the auctions created so far. */
  datatype State = State(auctions: seq<Auction>, orders: seq<Order>, created: nat)

  const EMPTY := State([], [], 0)

  function Inactive(): Auction -> bool {
    (a: Auction) => a.status == Closed || a.status == Ended
  }

  function StillActive(): Auction -> bool {
    (a: Auction) => a.status != Closed && a.status != Ended
  }

  function HasId(id: int): Auction -> bool {
    (a: Auction) => a.id == Some(id)
  }

  /** `Array.prototype.findIndex`. */
  function FindIndex(auctions: seq<Auction>, p: Auction -> bool): (i: int)
    ensures -1 <= i < |auctions|
    ensures i >= 0 ==> p(auctions[i]) && forall j :: 0 <= j < i ==> !p(auctions[j])
    ensures i == -1 ==> forall a :: a in auctions ==> !p(a)
  {
    if auctions == [] then -1
    else if p(auctions[0]) then 0
    else
      var i := FindIndex(auctions[1..], p);
      if i == -1 then -1 else i + 1
  }

  function OrderOf(auctions: seq<Auction>): Order -> bool {
    (o: Order) => FindIndex(auctions, HasId(o.auctionId)) != -1
  }

  function OrderOfNone(auctions: seq<Auction>): Order -> bool {
    (o: Order) => FindIndex(auctions, HasId(o.auctionId)) == -1
  }

  // ----- What the event handlers do to the state -----

  /** The handlers look an auction up, by marketplace number or by identifier, and
      then work on its position in the list; -1 means not found. */
  datatype Step = Start | AddOrder(auctionIndex: int) | SetStatus(auctionIndex: int, status: AuctionStatus) | Flush

  function Started(s: State): State {
    s.(auctions := s.auctions + [Auction(Some(|s.auctions|), s.created, Running)], created := s.created + 1)
  }

  function WithOrder(s: State, auctionIndex: int): State {
    if !(0 <= auctionIndex < |s.auctions|) || s.auctions[auctionIndex].id == None then s
    else
      var a := s.auctions[auctionIndex];
      s.(orders := s.orders + [Order(a.id.value, None, a.serial)])
  }

  function WithStatus(s: State, auctionIndex: int, status: AuctionStatus): State {
    if !(0 <= auctionIndex < |s.auctions|) then s
    else s.(auctions := s.auctions[auctionIndex := s.auctions[auctionIndex].(status := status)])
  }

  function Popped(s: State): seq<Auction> {
    Filter(s.auctions, Inactive())
  }

  function PoppedOrders(s: State): seq<Order> {
    Filter(s.orders, OrderOf(Popped(s)))
  }

  /** What stays in memory when the finished auctions are popped. */
  function Remaining(s: State): State {
    State(Filter(s.auctions, StillActive()), Filter(s.orders, OrderOfNone(Popped(s))), s.created)
  }

  function Apply(s: State, step: Step): State {
    match step
    case Start => Started(s)
    case AddOrder(auctionIndex) => WithOrder(s, auctionIndex)
    case SetStatus(auctionIndex, status) => WithStatus(s, auctionIndex, status)
    case Flush => Remaining(s)
  }

  function Run(s: State, steps: seq<Step>): State
    decreases steps
  {
    if steps == [] then s else Run(Apply(s, steps[0]), steps[1..])
  }

  // ----- Saving -----

  /** `save` writes the generated ids back into the saved entities. */
  function Saved(auctions: seq<Auction>, nextId: int): seq<Auction> {
    seq(|auctions|, i requires 0 <= i < |auctions| => auctions[i].(id := Some(nextId + i)))
  }

  /** An order that points at position `i` of the saved auctions. */
  function Linked(o: Order, saved: seq<Auction>, i: int): Order
    requires 0 <= i < |saved| && saved[i].id.Some?
  {
    o.(auction := Some(saved[i]), auctionId := saved[i].id.value)
  }

  /** The stored order names, twice, the auction it was made for. */
  ghost predicate LinkedRight(o: Order) {
    o.auction.Some? && o.auction.value.serial == o.about && o.auction.value.id == Some(o.auctionId)
  }

  predicate AllOrdersOf(auctions: seq<Auction>, orders: seq<Order>) {
    forall i :: 0 <= i < |orders| ==> OrderOf(auctions)(orders[i])
  }

  predicate IdsInRange(auctions: seq<Auction>, orders: seq<Order>) {
    forall i :: 0 <= i < |orders| ==> 0 <= orders[i].auctionId < |auctions|
  }

  /** The flush goes through the first popped auction with the order's id. */
  function Flushed(auctions: seq<Auction>, orders: seq<Order>, nextId: int): (r: seq<Order>)
    requires AllOrdersOf(auctions, orders)
    ensures |r| == |orders|
  {
    seq(|orders|, i requires 0 <= i < |orders| =>
      assert OrderOf(auctions)(orders[i]);
      Linked(orders[i], Saved(auctions, nextId), FindIndex(auctions, HasId(orders[i].auctionId))))
  }

  /** The final save uses the order's id as a position in the list of auctions. */
  function FinallySaved(auctions: seq<Auction>, orders: seq<Order>, nextId: int): (r: seq<Order>)
    requires IdsInRange(auctions, orders)
    ensures |r| == |orders|
  {
    seq(|orders|, i requires 0 <= i < |orders| => Linked(orders[i], Saved(auctions, nextId), orders[i].auctionId))
  }

  ghost predicate DistinctIds(auctions: seq<Auction>) {
    forall i, j :: 0 <= i < j < |auctions| && auctions[i].id.Some? ==> auctions[i].id != auctions[j].id
  }

  ghost predicate AllLinkedRight(orders: seq<Order>) {
    forall i :: 0 <= i < |orders| ==> LinkedRight(orders[i])
  }

  lemma PoppedOrdersFound(s: State)
    ensures AllOrdersOf(Popped(s), PoppedOrders(s))
  {
    var popped := PoppedOrders(s);
    assert forall i :: 0 <= i < |popped| ==> popped[i] in popped;
  }

  /** The orders a flush stores. */
  ghost function FlushedOrders(s: State, nextId: int): (r: seq<Order>)
    ensures |r| == |PoppedOrders(s)|
  {
    PoppedOrdersFound(s);
    Flushed(Popped(s), PoppedOrders(s), nextId)
  }

  /** A flush is right when every popped order is stored with its own auction. */
  ghost predicate FlushRight(s: State, nextId: int) {
    AllLinkedRight(FlushedOrders(s, nextId))
  }

  /** The final save is right when it does not fail and stores every order with
      its own auction. */
  ghost predicate FinalSaveRight(s: State, nextId: int) {
    IdsInRange(s.auctions, s.orders) && AllLinkedRight(FinallySaved(s.auctions, s.orders, nextId))
  }

  // ----- What every step keeps -----

  /** Serials grow along the list, and no id is below its position: an id starts
      as the position and positions only shrink. */
  ghost predicate Listed(auctions: seq<Auction>, offset: int, created: nat) {
    && (forall i :: 0 <= i < |auctions| ==>
          auctions[i].id.Some? && auctions[i].id.value >= offset + i && auctions[i].serial < created)
    && (forall i, j :: 0 <= i < j < |auctions| ==> auctions[i].serial < auctions[j].serial)
  }

  ghost predicate IsOwn(a: Auction, o: Order) {
    a.serial == o.about && a.id == Some(o.auctionId)
  }

  ghost predicate HasOwn(auctions: seq<Auction>, o: Order) {
    exists a :: a in auctions && IsOwn(a, o)
  }

  /** Every order's own auction is in the list and carries the order's id. */
  ghost predicate Owned(s: State) {
    && Listed(s.auctions, 0, s.created)
    && forall o :: o in s.orders ==> HasOwn(s.auctions, o)
  }

  lemma ListedCons(a: Auction, rest: seq<Auction>, offset: int, created: nat)
    requires a.id.Some? && a.id.value >= offset && a.serial < created
    requires Listed(rest, offset + 1, created) && forall b :: b in rest ==> a.serial < b.serial
    ensures Listed([a] + rest, offset, created)
  {
  }

  lemma ListedTail(auctions: seq<Auction>, offset: int, created: nat)
    requires auctions != [] && Listed(auctions, offset, created)
    ensures Listed(auctions[1..], offset + 1, created)
    ensures forall b :: b in auctions[1..] ==> auctions[0].serial < b.serial
  {
  }

  lemma ListedLower(auctions: seq<Auction>, offset: int, created: nat)
    requires Listed(auctions, offset + 1, created)
    ensures Listed(auctions, offset, created)
  {
  }

  lemma {:induction false} FilterListed(auctions: seq<Auction>, offset: int, created: nat, p: Auction -> bool)
    requires Listed(auctions, offset, created)
    ensures Listed(Filter(auctions, p), offset, created)
  {
    if auctions != [] {
      var a, kept := auctions[0], Filter(auctions[1..], p);
      assert a.id.Some? && a.id.value >= offset && a.serial < created;
      ListedTail(auctions, offset, created);
      FilterListed(auctions[1..], offset + 1, created, p);
      hide Listed;
      if p(a) {
        ListedCons(a, kept, offset, created);
      } else {
        ListedLower(kept, offset, created);
      }
    }
  }

  lemma StepKeepsOwned(s: State, step: Step)
    requires Owned(s)
    ensures Owned(Apply(s, step))
  {
    match step
    case Start => StartKeepsOwned(s);
    case AddOrder(i) => OrderKeepsOwned(s, i);
    case SetStatus(i, status) => StatusKeepsOwned(s, i, status);
    case Flush => FlushKeepsOwned(s);
  }

  lemma StartKeepsOwned(s: State)
    requires Owned(s)
    ensures Owned(Started(s))
  {
    forall o | o in s.orders
      ensures HasOwn(Started(s).auctions, o)
    {
      var a :| a in s.auctions && IsOwn(a, o);
      assert a in Started(s).auctions;
    }
  }

  lemma OrderKeepsOwned(s: State, i: int)
    requires Owned(s)
    ensures Owned(WithOrder(s, i))
  {
    if 0 <= i < |s.auctions| {
      var o := Order(s.auctions[i].id.value, None, s.auctions[i].serial);
      assert s.auctions[i] in s.auctions && IsOwn(s.auctions[i], o);
    }
  }

  lemma StatusKeepsOwned(s: State, i: int, status: AuctionStatus)
    requires Owned(s)
    ensures Owned(WithStatus(s, i, status))
  {
    if 0 <= i < |s.auctions| {
      var changed := WithStatus(s, i, status).auctions;
      forall o | o in s.orders
        ensures HasOwn(changed, o)
      {
        var a :| a in s.auctions && IsOwn(a, o);
        var p :| 0 <= p < |s.auctions| && s.auctions[p] == a;
        assert changed[p] in changed && IsOwn(changed[p], o);
      }
    }
  }

  /** An order that stays has no popped auction with its id, so its own stays. */
  lemma FlushKeepsOwned(s: State)
    requires Owned(s)
    ensures Owned(Remaining(s))
  {
    FilterListed(s.auctions, 0, s.created, StillActive());
    forall o | o in Remaining(s).orders
      ensures HasOwn(Remaining(s).auctions, o)
    {
      var a :| a in s.auctions && IsOwn(a, o);
      assert HasId(o.auctionId)(a) && a !in Popped(s);
      assert a in Remaining(s).auctions;
    }
  }

  /** Over any run, whatever is flushed when. */
  lemma {:induction false} RunKeepsOwned(s: State, steps: seq<Step>)
    requires Owned(s)
    ensures Owned(Run(s, steps))
    decreases steps
  {
    if steps != [] {
      StepKeepsOwned(s, steps[0]);
      RunKeepsOwned(Apply(s, steps[0]), steps[1..]);
    }
  }

  // ----- When a save is right, in terms of ids and positions -----

  ghost predicate HasOrders(s: State, p: nat)
    requires p < |s.auctions|
  {
    exists o :: o in s.orders && o.about == s.auctions[p].serial
  }

  /** Every auction with orders stands at the position that is its id. */
  ghost predicate OrderedStandAtIds(s: State) {
    forall p: nat :: p < |s.auctions| && HasOrders(s, p) ==> s.auctions[p].id == Some(p)
  }

  /** An auction with orders whose id a finished auction carries is finished
      itself, and is the first finished one with that id. */
  ghost predicate OrderedFinishFirst(s: State) {
    forall p: nat, q: nat :: p < |s.auctions| && q < |s.auctions| && HasOrders(s, p) && Collides(s.auctions, p, q) ==>
      Inactive()(s.auctions[p]) && p <= q
  }

  ghost predicate Collides(auctions: seq<Auction>, p: nat, q: nat)
    requires p < |auctions| && q < |auctions|
  {
    Inactive()(auctions[q]) && auctions[q].id == auctions[p].id
  }

  lemma OwnPosition(s: State, o: Order) returns (p: nat)
    requires Owned(s) && o in s.orders
    ensures p < |s.auctions| && IsOwn(s.auctions[p], o) && HasOrders(s, p)
    ensures forall q: nat :: q < |s.auctions| && s.auctions[q].serial == o.about ==> q == p
  {
    var a :| a in s.auctions && IsOwn(a, o);
    p :| p < |s.auctions| && s.auctions[p] == a;
  }

  lemma FinalSaveRightIff(s: State, nextId: int)
    requires Owned(s)
    ensures FinalSaveRight(s, nextId) <==> OrderedStandAtIds(s)
  {
    if OrderedStandAtIds(s) {
      forall i | 0 <= i < |s.orders|
        ensures 0 <= s.orders[i].auctionId < |s.auctions|
        ensures s.auctions[s.orders[i].auctionId].serial == s.orders[i].about
      {
        var p := OwnPosition(s, s.orders[i]);
      }
    }
    if FinalSaveRight(s, nextId) {
      forall p: nat | p < |s.auctions| && HasOrders(s, p)
        ensures s.auctions[p].id == Some(p)
      {
        var i :| 0 <= i < |s.orders| && s.orders[i].about == s.auctions[p].serial;
        var q := OwnPosition(s, s.orders[i]);
        assert LinkedRight(FinallySaved(s.auctions, s.orders, nextId)[i]);
      }
    }
  }

  function Both(p: Auction -> bool, q: Auction -> bool): Auction -> bool {
    (a: Auction) => p(a) && q(a)
  }

  lemma FindCons(a: Auction, rest: seq<Auction>, q: Auction -> bool)
    ensures FindIndex([a] + rest, q) ==
      if q(a) then 0 else if FindIndex(rest, q) == -1 then -1 else FindIndex(rest, q) + 1
  {
    assert ([a] + rest)[1..] == rest;
  }

  lemma FindBehind(a: Auction, rest: seq<Auction>, p: Auction -> bool, q: Auction -> bool)
    requires FoundInFilter(rest, p, q)
    ensures FoundInFilter([a] + rest, p, q)
  {
    hide Filter, FindIndex;
    FilterCons(a, rest, p);
    assert [] + Filter(rest, p) == Filter(rest, p);
    FindCons(a, Filter(rest, p), q);
    FindCons(a, rest, Both(p, q));
  }

  ghost predicate FoundInFilter(auctions: seq<Auction>, p: Auction -> bool, q: Auction -> bool) {
    var k, j := FindIndex(Filter(auctions, p), q), FindIndex(auctions, Both(p, q));
    (k == -1 <==> j == -1) && (k != -1 ==> Filter(auctions, p)[k] == auctions[j])
  }

  lemma {:induction false} FindInFilter(auctions: seq<Auction>, p: Auction -> bool, q: Auction -> bool)
    ensures FoundInFilter(auctions, p, q)
  {
    if auctions != [] {
      FindInFilter(auctions[1..], p, q);
      FindBehind(auctions[0], auctions[1..], p, q);
      assert auctions == [auctions[0]] + auctions[1..];
    }
  }

  /** A popped order goes through the first finished auction with its id. */
  lemma FlushedThrough(s: State, nextId: int, i: nat)
    requires i < |PoppedOrders(s)|
    ensures var j := FindIndex(s.auctions, Both(Inactive(), HasId(PoppedOrders(s)[i].auctionId)));
      0 <= j && (LinkedRight(FlushedOrders(s, nextId)[i]) <==> s.auctions[j].serial == PoppedOrders(s)[i].about)
  {
    PoppedOrdersFound(s);
    var o := PoppedOrders(s)[i];
    assert OrderOf(Popped(s))(o);
    FindInFilter(s.auctions, Inactive(), HasId(o.auctionId));
  }

  lemma FinishFirstFlushRight(s: State, nextId: int)
    requires Owned(s) && OrderedFinishFirst(s)
    ensures FlushRight(s, nextId)
  {
    hide Owned, FlushedOrders, PoppedOrders;
    var orders := PoppedOrders(s);
    forall i | 0 <= i < |orders|
      ensures LinkedRight(FlushedOrders(s, nextId)[i])
    {
      var finished := Both(Inactive(), HasId(orders[i].auctionId));
      FlushedThrough(s, nextId, i);
      PoppedOrderListed(s, orders[i]);
      var p := OwnPosition(s, orders[i]);
      var j: nat := FindIndex(s.auctions, finished);
      assert finished(s.auctions[j]) && Collides(s.auctions, p, j);
      assert finished(s.auctions[p]);
    }
  }

  lemma PoppedOrderListed(s: State, o: Order)
    ensures o in PoppedOrders(s) <==> o in s.orders && OrderOf(Popped(s))(o)
  {
  }

  lemma FlushRightFinishFirst(s: State, nextId: int)
    requires Owned(s) && FlushRight(s, nextId)
    ensures OrderedFinishFirst(s)
  {
    hide Owned, FlushedOrders, PoppedOrders;
    var orders := PoppedOrders(s);
    forall p: nat, q: nat | p < |s.auctions| && q < |s.auctions| && HasOrders(s, p) && Collides(s.auctions, p, q)
      ensures Inactive()(s.auctions[p]) && p <= q
    {
      var o :| o in s.orders && o.about == s.auctions[p].serial;
      var own := OwnPosition(s, o);
      assert HasId(o.auctionId)(s.auctions[q]) && s.auctions[q] in Popped(s);
      PoppedOrderListed(s, o);
      var i :| 0 <= i < |orders| && orders[i] == o;
      FlushedThrough(s, nextId, i);
      var finished := Both(Inactive(), HasId(o.auctionId));
      var j: nat := FindIndex(s.auctions, finished);
      assert LinkedRight(FlushedOrders(s, nextId)[i]);
      assert finished(s.auctions[j]) && finished(s.auctions[q]);
    }
  }

  lemma FlushRightIff(s: State, nextId: int)
    requires Owned(s)
    ensures FlushRight(s, nextId) <==> OrderedFinishFirst(s)
  {
    hide Owned, FlushRight, OrderedFinishFirst;
    if OrderedFinishFirst(s) {
      FinishFirstFlushRight(s, nextId);
    }
    if FlushRight(s, nextId) {
      FlushRightFinishFirst(s, nextId);
    }
  }

  // ----- Over whole runs -----

  /** Every flush of the run, and the final save behind it, are right. */
  ghost predicate RunRight(s: State, steps: seq<Step>, nextId: int)
    decreases steps
  {
    if steps == [] then FinalSaveRight(s, nextId)
    else (steps[0].Flush? ==> FlushRight(s, nextId)) && RunRight(Apply(s, steps[0]), steps[1..], nextId)
  }

  ghost predicate RunClear(s: State, steps: seq<Step>)
    decreases steps
  {
    if steps == [] then OrderedStandAtIds(s)
    else (steps[0].Flush? ==> OrderedFinishFirst(s)) && RunClear(Apply(s, steps[0]), steps[1..])
  }

  /** Over any run, every save links right exactly when at every flush the
      auctions with orders finish first among those with their id, and at the end
      they stand at their ids. */
  lemma {:induction false} RunRightIff(s: State, steps: seq<Step>, nextId: int)
    requires Owned(s)
    ensures RunRight(s, steps, nextId) <==> RunClear(s, steps)
    decreases steps
  {
    if steps == [] {
      FinalSaveRightIff(s, nextId);
    } else {
      FlushRightIff(s, nextId);
      StepKeepsOwned(s, steps[0]);
      RunRightIff(Apply(s, steps[0]), steps[1..], nextId);
    }
  }

  // ----- Which lists are safe whatever orders come -----

  ghost predicate IdsArePositions(auctions: seq<Auction>) {
    forall i :: 0 <= i < |auctions| ==> auctions[i].id == Some(i)
  }

  lemma NewOrder(s: State, p: nat)
    requires Owned(s) && p < |s.auctions|
    ensures var t := WithOrder(s, p);
      t.auctions == s.auctions && Owned(t) && HasOrders(t, p)
  {
    OrderKeepsOwned(s, p);
    var t := WithOrder(s, p);
    assert t.orders[|t.orders| - 1] in t.orders;
  }

  /** Whichever listed auction gets an order next, the final save is right,
      exactly when all ids are positions. */
  lemma FinalSaveRightForAnyOrderIff(s: State, nextId: int)
    requires Owned(s)
    ensures (forall p: nat :: p < |s.auctions| ==>
      FinalSaveRight(WithOrder(s, p), nextId)) <==> IdsArePositions(s.auctions)
  {
    forall p: nat | p < |s.auctions|
      ensures FinalSaveRight(WithOrder(s, p), nextId) ==> s.auctions[p].id == Some(p)
      ensures IdsArePositions(s.auctions) ==> FinalSaveRight(WithOrder(s, p), nextId)
    {
      NewOrder(s, p);
      FinalSaveRightIff(WithOrder(s, p), nextId);
    }
  }

  /** No listed auction shares the id of a finished one. */
  ghost predicate FinishedIdsUnique(auctions: seq<Auction>) {
    forall p: nat, q: nat :: p < |auctions| && q < |auctions| && Collides(auctions, p, q) ==> p == q
  }

  /** Whichever listed auction gets an order next, a flush is right, exactly when
      no listed auction shares the id of a finished one. */
  lemma FlushRightForAnyOrderIff(s: State, nextId: int)
    requires Owned(s)
    ensures (forall p: nat :: p < |s.auctions| ==>
      FlushRight(WithOrder(s, p), nextId)) <==> FinishedIdsUnique(s.auctions)
  {
    hide Owned, FlushRight, HasOrders, WithOrder;
    forall p: nat | p < |s.auctions|
      ensures FlushRight(WithOrder(s, p), nextId) <==> OrderedFinishFirst(WithOrder(s, p))
      ensures WithOrder(s, p).auctions == s.auctions && HasOrders(WithOrder(s, p), p)
    {
      NewOrder(s, p);
      FlushRightIff(WithOrder(s, p), nextId);
    }
    if forall p: nat :: p < |s.auctions| ==> FlushRight(WithOrder(s, p), nextId) {
      forall p: nat, q: nat | p < |s.auctions| && q < |s.auctions| && Collides(s.auctions, p, q)
        ensures p == q
      {
        BothOrdered(s, p, q);
      }
    }
  }

  lemma BothOrdered(s: State, p: nat, q: nat)
    requires Owned(s) && p < |s.auctions| && q < |s.auctions| && Collides(s.auctions, p, q)
    requires OrderedFinishFirst(WithOrder(s, p)) && OrderedFinishFirst(WithOrder(s, q))
    ensures p == q
  {
    hide Owned, HasOrders, WithOrder;
    NewOrder(s, p);
    NewOrder(s, q);
    assert Inactive()(s.auctions[p]) && p <= q;
    assert Collides(s.auctions, q, p);
  }

  /** A starting auction takes an id that is in use exactly when some listed
      auction has the length of the list as its id. */
  lemma StartKeepsIdsDistinctIff(s: State)
    ensures DistinctIds(Started(s).auctions)
       <==> DistinctIds(s.auctions) && forall a :: a in s.auctions ==> a.id != Some(|s.auctions|)
  {
    var longer := Started(s).auctions;
    assert forall i :: 0 <= i < |s.auctions| ==> longer[i] == s.auctions[i];
    if DistinctIds(longer) {
      forall a | a in s.auctions
        ensures a.id != Some(|s.auctions|)
      {
        var i :| 0 <= i < |s.auctions| && s.auctions[i] == a;
        assert longer[i].id.Some? ==> longer[i].id != longer[|s.auctions|].id;
      }
    }
  }

  /** With distinct ids a flush is right. */
  lemma DistinctIdsFlushRight(s: State, nextId: int)
    requires Owned(s) && DistinctIds(s.auctions)
    ensures FlushRight(s, nextId)
  {
    FlushRightIff(s, nextId);
    forall p: nat, q: nat | p < |s.auctions| && q < |s.auctions| && Collides(s.auctions, p, q)
      ensures p == q
    {
      assert s.auctions[p].id.Some? && s.auctions[q].id.Some?;
    }
  }

  /** No active auction is listed after a finished one. */
  ghost predicate FinishedLast(auctions: seq<Auction>) {
    forall i, j :: 0 <= i < j < |auctions| && Inactive()(auctions[i]) ==> Inactive()(auctions[j])
  }

  ghost predicate IdsCountFrom(auctions: seq<Auction>, offset: int) {
    forall i :: 0 <= i < |auctions| ==> auctions[i].id == Some(offset + i)
  }

  /** Popping compacts the list but not the ids, so ids stay positions exactly
      when the popped auctions are the last ones. */
  lemma {:induction false} PopKeepsPositionsIff(auctions: seq<Auction>, offset: int)
    requires IdsCountFrom(auctions, offset)
    ensures IdsCountFrom(Filter(auctions, StillActive()), offset) <==> FinishedLast(auctions)
    ensures FinishedLast(auctions) ==> Filter(auctions, StillActive()) <= auctions
  {
    if auctions != [] {
      var a, rest := auctions[0], auctions[1..];
      assert forall i :: 0 <= i < |rest| ==> rest[i] == auctions[i + 1];
      if StillActive()(a) {
        PopKeepsPositionsIff(rest, offset + 1);
        FinishedLastCons(auctions);
        IdsCountCons(a, Filter(rest, StillActive()), offset);
        assert auctions == [a] + rest;
      } else if FinishedLast(auctions) {
        assert forall b :: b in auctions ==> !StillActive()(b);
        FilterNone(auctions, StillActive());
      } else {
        GapAfterPop(auctions, offset);
      }
    }
  }

  lemma IdsCountCons(a: Auction, rest: seq<Auction>, offset: int)
    requires a.id == Some(offset)
    ensures IdsCountFrom([a] + rest, offset) <==> IdsCountFrom(rest, offset + 1)
  {
    assert forall i :: 0 <= i < |rest| ==> ([a] + rest)[i + 1] == rest[i];
  }

  lemma GapAfterPop(auctions: seq<Auction>, offset: int)
    requires IdsCountFrom(auctions, offset) && !FinishedLast(auctions) && !StillActive()(auctions[0])
    ensures !IdsCountFrom(Filter(auctions, StillActive()), offset)
  {
    var kept := Filter(auctions, StillActive());
    var i :| 0 < i < |auctions| && !Inactive()(auctions[i]);
    assert auctions[i] in auctions && auctions[i] in kept;
    assert kept[0] in kept && kept[0] in auctions;
    var j :| 0 <= j < |auctions| && auctions[j] == kept[0];
    assert j != 0;
  }

  lemma FinishedLastCons(auctions: seq<Auction>)
    requires auctions != [] && StillActive()(auctions[0])
    ensures FinishedLast(auctions) <==> FinishedLast(auctions[1..])
  {
    var rest := auctions[1..];
    assert forall i :: 0 <= i < |rest| ==> rest[i] == auctions[i + 1];
    if FinishedLast(rest) {
      forall i, j | 0 <= i < j < |auctions| && Inactive()(auctions[i])
        ensures Inactive()(auctions[j])
      {
        assert rest[i - 1] == auctions[i] && rest[j - 1] == auctions[j];
      }
    }
  }

  lemma StepKeepsPositions(s: State, step: Step)
    requires IdsArePositions(s.auctions) && (step.Flush? ==> FinishedLast(s.auctions))
    ensures IdsArePositions(Apply(s, step).auctions)
  {
    if step.Flush? {
      PopKeepsPositionsIff(s.auctions, 0);
    }
  }

  /** Every flush of the run pops the tail of the list. */
  ghost predicate FlushesTails(s: State, steps: seq<Step>)
    decreases steps
  {
    steps == [] ||
    ((steps[0].Flush? ==> FinishedLast(s.auctions)) && FlushesTails(Apply(s, steps[0]), steps[1..]))
  }

  /** A run whose flushes pop only the tail of the list saves everything right. */
  lemma {:induction false} TailFlushesRunRight(s: State, steps: seq<Step>, nextId: int)
    requires Owned(s) && IdsArePositions(s.auctions) && FlushesTails(s, steps)
    ensures RunRight(s, steps, nextId)
    ensures IdsArePositions(Run(s, steps).auctions)
    decreases steps
  {
    if steps == [] {
      FinalSaveRightIff(s, nextId);
    } else {
      DistinctIdsFlushRight(s, nextId);
      StepKeepsOwned(s, steps[0]);
      StepKeepsPositions(s, steps[0]);
      TailFlushesRunRight(Apply(s, steps[0]), steps[1..], nextId);
    }
  }

  lemma RunNothing(s: State)
    ensures Run(s, []) == s
  {
  }

  lemma RunStep(s: State, step: Step, rest: seq<Step>)
    ensures Run(s, [step] + rest) == Run(Apply(s, step), rest)
  {
    assert ([step] + rest)[1..] == rest;
  }

  /** Two auctions start, the first one ends and is flushed, a third one starts
      and takes the second one's id, and the second one gets a bid. */
  const COLLISION: seq<Step> := [Start, Start, SetStatus(0, Ended), Flush, Start, AddOrder(0)]

  const COLLIDED := State([Auction(Some(1), 1, Running), Auction(Some(1), 2, Running)], [Order(1, None, 1)], 3)

  lemma FirstSteps()
    ensures Run(EMPTY, [Start, Start, SetStatus(0, Ended)])
      == State([Auction(Some(0), 0, Ended), Auction(Some(1), 1, Running)], [], 2)
  {
    var s1 := State([Auction(Some(0), 0, Running)], [], 1);
    var s2 := State([Auction(Some(0), 0, Running), Auction(Some(1), 1, Running)], [], 2);
    var s3 := State([Auction(Some(0), 0, Ended), Auction(Some(1), 1, Running)], [], 2);
    assert Apply(EMPTY, Start) == s1 && Apply(s1, Start) == s2 && Apply(s2, SetStatus(0, Ended)) == s3;
    RunStep(s2, SetStatus(0, Ended), []);
    RunStep(s1, Start, [SetStatus(0, Ended)]);
    RunStep(EMPTY, Start, [Start, SetStatus(0, Ended)]);
  }

  lemma LastSteps()
    ensures Run(State([Auction(Some(0), 0, Ended), Auction(Some(1), 1, Running)], [], 2), [Flush, Start, AddOrder(0)])
      == COLLIDED
  {
    var s3 := State([Auction(Some(0), 0, Ended), Auction(Some(1), 1, Running)], [], 2);
    var s4 := State([Auction(Some(1), 1, Running)], [], 2);
    var s5 := State([Auction(Some(1), 1, Running), Auction(Some(1), 2, Running)], [], 3);
    assert s3.auctions[1..] == s4.auctions && s4.auctions[1..] == [];
    assert Apply(s3, Flush) == s4 && Apply(s4, Start) == s5 && Apply(s5, AddOrder(0)) == COLLIDED;
    RunStep(s5, AddOrder(0), []);
    RunStep(s4, Start, [AddOrder(0)]);
    RunStep(s3, Flush, [Start, AddOrder(0)]);
  }

  lemma CollisionRuns()
    ensures Run(EMPTY, COLLISION) == COLLIDED && Owned(COLLIDED)
  {
    hide Run, Owned;
    FirstSteps();
    LastSteps();
    RunConcat(EMPTY, [Start, Start, SetStatus(0, Ended)], [Flush, Start, AddOrder(0)]);
    assert COLLISION == [Start, Start, SetStatus(0, Ended)] + [Flush, Start, AddOrder(0)];
    EmptyOwned();
    RunKeepsOwned(EMPTY, COLLISION);
  }

  lemma EmptyOwned()
    ensures Owned(EMPTY)
  {
  }

  /** The final save then stores the second auction's bid with the third. */
  lemma FlushThenStartMislinks()
    ensures var s := Run(EMPTY, COLLISION);
      && IdsInRange(s.auctions, s.orders)
      && FinallySaved(s.auctions, s.orders, 100) == [Order(101, Some(Auction(Some(101), 2, Running)), 1)]
      && !FinalSaveRight(s, 100)
  {
    CollisionRuns();
    var r := FinallySaved(COLLIDED.auctions, COLLIDED.orders, 100);
    assert r[0] == Order(101, Some(Auction(Some(101), 2, Running)), 1);
    assert !LinkedRight(r[0]);
  }

  const MISFLUSHED := State([Auction(Some(1), 1, Running), Auction(Some(1), 2, Ended)], [Order(1, None, 1)], 3)

  lemma MisflushedRuns()
    ensures Run(EMPTY, COLLISION + [SetStatus(1, Ended)]) == MISFLUSHED && Owned(MISFLUSHED)
  {
    hide Run, Owned;
    CollisionRuns();
    RunConcat(EMPTY, COLLISION, [SetStatus(1, Ended)]);
    RunStep(COLLIDED, SetStatus(1, Ended), []);
    RunNothing(MISFLUSHED);
    assert [SetStatus(1, Ended)] + [] == [SetStatus(1, Ended)];
    assert Apply(COLLIDED, SetStatus(1, Ended)) == MISFLUSHED;
    StepKeepsOwned(COLLIDED, SetStatus(1, Ended));
  }

  lemma MisflushedPops()
    ensures Popped(MISFLUSHED) == [Auction(Some(1), 2, Ended)] && PoppedOrders(MISFLUSHED) == [Order(1, None, 1)]
  {
    var s := MISFLUSHED;
    assert s.auctions[1..] == [s.auctions[1]] && s.auctions[1..][1..] == [] && s.orders[1..] == [];
  }

  /** When the third auction ends instead, the next flush takes the bid of the
      second, still running auction along and stores it with the third. */
  lemma FlushThenEndMislinks()
    ensures var s := Run(EMPTY, COLLISION + [SetStatus(1, Ended)]);
      && Popped(s) == [Auction(Some(1), 2, Ended)] && DistinctIds(Popped(s))
      && PoppedOrders(s) == [Order(1, None, 1)]
      && !FlushRight(s, 100)
  {
    hide Run, Owned, OrderedFinishFirst, FlushRight;
    MisflushedRuns();
    MisflushedPops();
    var s := MISFLUSHED;
    FlushRightIff(s, 100);
    assert DistinctIds(Popped(s));
    assert s.orders[0] in s.orders && HasOrders(s, 0) && Collides(s.auctions, 0, 1);
    StillRunning(s);
  }

  lemma StillRunning(s: State)
    requires |s.auctions| == 2 && HasOrders(s, 0) && Collides(s.auctions, 0, 1) && !Inactive()(s.auctions[0])
    ensures !OrderedFinishFirst(s)
  {
  }

  lemma {:induction false} RunConcat(s: State, a: seq<Step>, b: seq<Step>)
    ensures Run(s, a + b) == Run(Run(s, a), b)
    decreases a
  {
    if a == [] {
      assert a + b == b;
    } else {
      assert (a + b)[1..] == a[1..] + b;
      RunConcat(Apply(s, a[0]), a[1..], b);
    }
  }

  /** A finished auction with the order's auction id is listed. */
  ghost predicate OfFinished(auctions: seq<Auction>, o: Order) {
    exists a :: a in auctions && (a.status == Closed || a.status == Ended) && a.id == Some(o.auctionId)
  }

  /** Closed and ended auctions are popped, all others stay, and the orders go with
      a popped auction of their id; nothing is lost or kept twice. */
  lemma PopsFinished(s: State)
    ensures var rest := Remaining(s);
      && (forall a :: a in Popped(s) <==> a in s.auctions && (a.status == Closed || a.status == Ended))
      && (forall a :: a in rest.auctions <==>
            a in s.auctions && (a.status == NoStatus || a.status == Running || a.status == Claimable))
      && multiset(Popped(s)) + multiset(rest.auctions) == multiset(s.auctions)
      && (forall o :: o in PoppedOrders(s) <==> o in s.orders && OfFinished(s.auctions, o))
      && (forall o :: o in rest.orders <==> o in s.orders && !OfFinished(s.auctions, o))
      && multiset(PoppedOrders(s)) + multiset(rest.orders) == multiset(s.orders)
  {
    FilterPartition(s.auctions, Inactive(), StillActive());
    FilterPartition(s.orders, OrderOf(Popped(s)), OrderOfNone(Popped(s)));
    forall o: Order
      ensures OrderOf(Popped(s))(o) <==> OfFinished(s.auctions, o)
    {
      OrderOfFinished(s, o);
    }
  }

  lemma OrderOfFinished(s: State, o: Order)
    ensures OrderOf(Popped(s))(o) <==> OfFinished(s.auctions, o)
  {
    var i := FindIndex(Popped(s), HasId(o.auctionId));
    if i != -1 {
      assert Popped(s)[i] in Popped(s);
    } else {
      assert forall a :: a in Popped(s) ==> !HasId(o.auctionId)(a);
    }
  }

  // ----- The state object -----

  class MarketplaceReindexState {
    var auctions: seq<Auction>
    var orders: seq<Order>
    /** The model's own count, for the serials. */
    var created: nat

    constructor ()
      ensures Value() == EMPTY && Owned(Value())
    {
      auctions, orders, created := [], [], 0;
    }

    ghost function Value(): State
      reads this
    {
      State(auctions, orders, created)
    }

    /** The new auction is listed last, under the length of the list as its id;
        that id is new exactly when no listed auction has it. */
    method HandleAuctionStarted()
      modifies this
      ensures Value() == Started(old(Value()))
      ensures |auctions| == |old(auctions)| + 1 && old(auctions) <= auctions && orders == old(orders)
      ensures var a := auctions[|old(auctions)|];
        && a.id == Some(|old(auctions)|) && a.status == Running
        && (old(Owned(Value())) ==> forall b :: b in old(auctions) ==> b.serial != a.serial)
      ensures DistinctIds(auctions) <==>
        old(DistinctIds(auctions)) && forall a :: a in old(auctions) ==> a.id != Some(|old(auctions)|)
      ensures old(Owned(Value())) ==> Owned(Value())
    {
      StartKeepsIdsDistinctIff(Value());
      if Owned(Value()) {
        StartKeepsOwned(Value());
      }
      auctions := auctions + [Auction(Some(|auctions|), created, Running)];
      created := created + 1;
    }

    /** The new order takes over the id of the auction it is made for, which is
        then its own; a position that is none adds nothing. */
    method CreateOrder(auctionIndex: int)
      modifies this
      ensures Value() == WithOrder(old(Value()), auctionIndex)
      ensures auctions == old(auctions) && old(orders) <= orders
      ensures old(Owned(Value())) && 0 <= auctionIndex < |auctions| ==>
        |orders| == |old(orders)| + 1 && IsOwn(auctions[auctionIndex], orders[|old(orders)|])
      ensures !(0 <= auctionIndex < |auctions|) ==> orders == old(orders)
      ensures old(Owned(Value())) ==> Owned(Value())
    {
      if Owned(Value()) {
        OrderKeepsOwned(Value(), auctionIndex);
      }
      if !(0 <= auctionIndex < |auctions|) || auctions[auctionIndex].id == None {
        return;
      }
      orders := orders + [Order(auctions[auctionIndex].id.value, None, auctions[auctionIndex].serial)];
    }

    method SetAuctionStatus(auctionIndex: int, status: AuctionStatus)
      modifies this
      ensures Value() == WithStatus(old(Value()), auctionIndex, status)
      ensures |auctions| == |old(auctions)| && orders == old(orders)
      ensures forall i :: 0 <= i < |auctions| ==>
        auctions[i] == if i == auctionIndex then Auction(old(auctions)[i].id, old(auctions)[i].serial, status)
                       else old(auctions)[i]
    {
      if 0 <= auctionIndex < |auctions| {
        auctions := auctions[auctionIndex := auctions[auctionIndex].(status := status)];
      }
    }

    method PopInactiveItems() returns (inactiveAuctions: seq<Auction>, inactiveOrders: seq<Order>)
      modifies this
      ensures Value() == Remaining(old(Value()))
      ensures inactiveAuctions == Popped(old(Value())) && inactiveOrders == PoppedOrders(old(Value()))
      ensures forall a :: a in inactiveAuctions <==> a in old(auctions) && (a.status == Closed || a.status == Ended)
      ensures forall a :: a in auctions <==>
        a in old(auctions) && (a.status == NoStatus || a.status == Running || a.status == Claimable)
      ensures multiset(inactiveAuctions) + multiset(auctions) == multiset(old(auctions))
      ensures forall o :: o in inactiveOrders <==> o in old(orders) && OfFinished(old(auctions), o)
      ensures forall o :: o in orders <==> o in old(orders) && !OfFinished(old(auctions), o)
      ensures multiset(inactiveOrders) + multiset(orders) == multiset(old(orders))
      ensures old(Owned(Value())) ==> Owned(Value())
    {
      PopsFinished(Value());
      hide OfFinished, Filter, Owned, Inactive, StillActive, OrderOf, OrderOfNone;
      if Owned(Value()) {
        FlushKeepsOwned(Value());
      }
      inactiveAuctions, auctions := PopAuctions(auctions);
      inactiveOrders, orders := PopOrders(orders, inactiveAuctions);
    }

    static method PopAuctions(auctions: seq<Auction>) returns (popped: seq<Auction>, kept: seq<Auction>)
      ensures popped == Filter(auctions, Inactive()) && kept == Filter(auctions, StillActive())
    {
      popped, kept := [], [];
      assert Filter(auctions[..0], Inactive()) == Filter(auctions[..0], StillActive()) == [];
      hide Filter;
      for i := 0 to |auctions|
        invariant popped == Filter(auctions[..i], Inactive()) && kept == Filter(auctions[..i], StillActive())
      {
        FilterUpTo(auctions, i, Inactive());
        FilterUpTo(auctions, i, StillActive());
        if auctions[i].status == Closed || auctions[i].status == Ended {
          popped := popped + [auctions[i]];
        } else {
          kept := kept + [auctions[i]];
        }
      }
      assert auctions[..|auctions|] == auctions;
    }

    static method PopOrders(orders: seq<Order>, inactive: seq<Auction>) returns (popped: seq<Order>, kept: seq<Order>)
      ensures popped == Filter(orders, OrderOf(inactive)) && kept == Filter(orders, OrderOfNone(inactive))
    {
      popped, kept := [], [];
      assert Filter(orders[..0], OrderOf(inactive)) == Filter(orders[..0], OrderOfNone(inactive)) == [];
      hide Filter, FindIndex;
      for i := 0 to |orders|
        invariant popped == Filter(orders[..i], OrderOf(inactive)) && kept == Filter(orders[..i], OrderOfNone(inactive))
      {
        FilterUpTo(orders, i, OrderOf(inactive));
        FilterUpTo(orders, i, OrderOfNone(inactive));
        if FindIndex(inactive, HasId(orders[i].auctionId)) != -1 {
          popped := popped + [orders[i]];
        } else {
          kept := kept + [orders[i]];
        }
      }
      assert orders[..|orders|] == orders;
    }
  }

  // ----- The two saves of the reindex service -----

  method SaveBulkAuctions(auctions: seq<Auction>, nextId: int) returns (saved: seq<Auction>)
    ensures saved == Saved(auctions, nextId)
    ensures |saved| == |auctions| && forall k :: 0 <= k < |auctions| ==>
      saved[k] == Auction(Some(nextId + k), auctions[k].serial, auctions[k].status)
  {
    saved := auctions;
    for i := 0 to |auctions|
      invariant |saved| == |auctions|
      invariant forall k :: 0 <= k < i ==> saved[k] == auctions[k].(id := Some(nextId + k))
      invariant forall k :: i <= k < |auctions| ==> saved[k] == auctions[k]
    {
      saved := saved[i := saved[i].(id := Some(nextId + i))];
    }
  }

  method IdsToPositions(auctions: seq<Auction>, orders: seq<Order>) returns (r: seq<Order>)
    ensures |r| == |orders|
    ensures forall k :: 0 <= k < |orders| ==>
      r[k] == orders[k].(auctionId := FindIndex(auctions, HasId(orders[k].auctionId)))
  {
    r := orders;
    for i := 0 to |orders|
      invariant |r| == |orders|
      invariant forall k :: 0 <= k < i ==>
        r[k] == orders[k].(auctionId := FindIndex(auctions, HasId(orders[k].auctionId)))
      invariant forall k :: i <= k < |orders| ==> r[k] == orders[k]
    {
      r := r[i := r[i].(auctionId := FindIndex(auctions, HasId(r[i].auctionId)))];
    }
  }

  method DropIds(auctions: seq<Auction>) returns (r: seq<Auction>)
    ensures |r| == |auctions| && forall k :: 0 <= k < |auctions| ==> r[k] == auctions[k].(id := None)
  {
    r := auctions;
    for i := 0 to |auctions|
      invariant |r| == |auctions|
      invariant forall k :: 0 <= k < i ==> r[k] == auctions[k].(id := None)
      invariant forall k :: i <= k < |auctions| ==> r[k] == auctions[k]
    {
      r := r[i := r[i].(id := None)];
    }
  }

  /** Positions become saved auctions, and stored ids, up to the first order whose
      number is no position. */
  method LinkOrders(orders: seq<Order>, saved: seq<Auction>) returns (ok: bool, r: seq<Order>)
    requires forall k :: 0 <= k < |saved| ==> saved[k].id.Some?
    ensures |r| == |orders| && (ok <==> IdsInRange(saved, orders))
    ensures ok ==> forall k :: 0 <= k < |orders| ==> r[k] == Linked(orders[k], saved, orders[k].auctionId)
  {
    r := orders;
    for i := 0 to |orders|
      invariant |r| == |orders|
      invariant forall k :: 0 <= k < i ==> 0 <= orders[k].auctionId < |saved|
      invariant forall k :: 0 <= k < i ==> r[k] == Linked(orders[k], saved, orders[k].auctionId)
      invariant forall k :: i <= k < |orders| ==> r[k] == orders[k]
    {
      var o := r[i];
      if !(0 <= o.auctionId < |saved|) {
        return false, r;
      }
      r := r[i := o.(auction := Some(saved[o.auctionId]), auctionId := saved[o.auctionId].id.value)];
    }
    ok := true;
  }

  lemma LinkedIsFlushed(auctions: seq<Auction>, orders: seq<Order>, nextId: int, positioned: seq<Order>,
      linked: seq<Order>)
    requires AllOrdersOf(auctions, orders)
    requires |linked| == |positioned| == |orders|
    requires forall k :: 0 <= k < |orders| ==>
      positioned[k] == orders[k].(auctionId := FindIndex(auctions, HasId(orders[k].auctionId)))
    ensures IdsInRange(Saved(auctions, nextId), positioned)
    ensures (forall k :: 0 <= k < |orders| ==>
        linked[k] == Linked(positioned[k], Saved(auctions, nextId), positioned[k].auctionId)) ==>
      linked == Flushed(auctions, orders, nextId)
  {
    forall k | 0 <= k < |orders|
      ensures 0 <= positioned[k].auctionId < |Saved(auctions, nextId)|
    {
      assert OrderOf(auctions)(orders[k]);
    }
  }

  /** The flush: ids become positions, are dropped, and become stored ids. */
  method AddInactiveStateItemsToDb(state: MarketplaceReindexState, nextId: int)
    returns (savedAuctions: seq<Auction>, savedOrders: seq<Order>)
    modifies state
    ensures state.Value() == Remaining(old(state.Value()))
    ensures var popped, poppedOrders := Popped(old(state.Value())), PoppedOrders(old(state.Value()));
      && AllOrdersOf(popped, poppedOrders)
      && savedAuctions == Saved(popped, nextId)
      && savedOrders == Flushed(popped, poppedOrders, nextId)
    ensures AllLinkedRight(savedOrders) <==> FlushRight(old(state.Value()), nextId)
  {
    PoppedOrdersFound(state.Value());
    var inactiveAuctions, inactiveOrders := state.PopInactiveItems();
    hide Filter, FindIndex, Linked, Flushed, AllOrdersOf;
    var positioned := IdsToPositions(inactiveAuctions, inactiveOrders);
    var withoutIds := DropIds(inactiveAuctions);
    savedAuctions := SaveBulkAuctions(withoutIds, nextId);
    assert savedAuctions == Saved(inactiveAuctions, nextId);
    var ok;
    ok, savedOrders := LinkOrders(positioned, savedAuctions);
    LinkedIsFlushed(inactiveAuctions, inactiveOrders, nextId, positioned, savedOrders);
  }

  /** The final save. An id that is no position makes it fail with an error. */
  method AddMarketplaceStateToDb(state: MarketplaceReindexState, nextId: int)
    returns (ok: bool, savedAuctions: seq<Auction>, savedOrders: seq<Order>)
    ensures savedAuctions == Saved(state.auctions, nextId)
    ensures ok <==> IdsInRange(state.auctions, state.orders)
    ensures ok ==> savedOrders == FinallySaved(state.auctions, state.orders, nextId)
    ensures ok && AllLinkedRight(savedOrders) <==> FinalSaveRight(state.Value(), nextId)
  {
    var withoutIds := DropIds(state.auctions);
    savedAuctions := SaveBulkAuctions(withoutIds, nextId);
    assert savedAuctions == Saved(state.auctions, nextId);
    ok, savedOrders := LinkOrders(state.orders, savedAuctions);
  }
}
