/** Rolling back the orders of a reverted block: a loop that deletes each of
    them, re-reads the auction's orders every time, and reactivates the order
    before a deleted last one. */
module Orders {
  import opened Sequences

  datatype Status = Active | Inactive | Bought

  datatype Order = Order(id: int, auctionId: int, blockHash: string, status: Status, modifiedDate: int)

  function OfBlock(blockHash: string): Order -> bool {
    (o: Order) => o.blockHash == blockHash
  }

  function OfAuction(auctionId: int): Order -> bool {
    (o: Order) => o.auctionId == auctionId
  }

  function NotOfAuction(auctionId: int): Order -> bool {
    (o: Order) => o.auctionId != auctionId
  }

  function OtherThan(id: int): Order -> bool {
    (o: Order) => o.id != id
  }

  ghost function Ids(orders: seq<Order>): set<int> {
    set o | o in orders :: o.id
  }

  ghost predicate DistinctIds(orders: seq<Order>) {
    forall i, j :: 0 <= i < j < |orders| ==> orders[i].id != orders[j].id
  }

  function Delete(rows: seq<Order>, id: int): seq<Order> {
    Filter(rows, OtherThan(id))
  }

  function Save(rows: seq<Order>, o: Order): seq<Order> {
    if rows == [] then []
    else [if rows[0].id == o.id then o else rows[0]] + Save(rows[1..], o)
  }

  function Activated(o: Order, now: int): Order {
    o.(status := Active, modifiedDate := now)
  }

  /** The auction has rows in `later`, and all of them are gone. */
  ghost predicate TailGone(later: seq<Order>, auctionId: int, gone: set<int>) {
    && (exists o :: o in later && o.auctionId == auctionId)
    && (forall o :: o in later && o.auctionId == auctionId ==> o.id in gone)
  }

  /** What a rollback is for, in one pass: the orders in `gone` are dropped, the
      last survivor of an auction that lost its last order is reactivated, and no
      other row is touched. */
  ghost function Rolled(rows: seq<Order>, gone: set<int>, now: int): seq<Order> {
    if rows == [] then []
    else if rows[0].id in gone then Rolled(rows[1..], gone, now)
    else
      [Kept(rows, gone, now)] + Rolled(rows[1..], gone, now)
  }

  /** The first row as the rollback leaves it, if it survives. */
  ghost function Kept(rows: seq<Order>, gone: set<int>, now: int): Order
    requires rows != []
  {
    if TailGone(rows[1..], rows[0].auctionId, gone) then Activated(rows[0], now) else rows[0]
  }

  lemma DistinctTail(rows: seq<Order>)
    requires rows != [] && DistinctIds(rows)
    ensures DistinctIds(rows[1..]) && rows[0].id !in Ids(rows[1..])
  {
    forall o | o in rows[1..]
      ensures o.id != rows[0].id
    {
      var j :| 0 <= j < |rows[1..]| && rows[1..][j] == o;
      assert rows[j + 1] == o;
    }
  }

  /** The rows of the result are those of the survivors. */
  lemma {:induction false} RolledRows(rows: seq<Order>, gone: set<int>, now: int)
    ensures forall o :: o in rows && o.id !in gone ==>
      o in Rolled(rows, gone, now) || Activated(o, now) in Rolled(rows, gone, now)
    ensures forall r :: r in Rolled(rows, gone, now) ==>
      r.id !in gone && exists o :: o in rows && (r == o || r == Activated(o, now))
  {
    if rows != [] {
      RolledRows(rows[1..], gone, now);
      forall r | r in Rolled(rows, gone, now)
        ensures r.id !in gone && exists o :: o in rows && (r == o || r == Activated(o, now))
      {
        if r in Rolled(rows[1..], gone, now) {
          var o :| o in rows[1..] && (r == o || r == Activated(o, now));
          assert o in rows;
        } else {
          assert rows[0] in rows;
        }
      }
    }
  }

  lemma {:induction false} RolledIrrelevant(rows: seq<Order>, gone: set<int>, id: int, now: int)
    requires id !in Ids(rows)
    ensures Rolled(rows, gone + {id}, now) == Rolled(rows, gone, now)
  {
    if rows != [] {
      assert rows[0] in rows;
      assert Ids(rows[1..]) <= Ids(rows);
      RolledIrrelevant(rows[1..], gone, id, now);
      forall o | o in rows[1..]
        ensures o.id in gone + {id} <==> o.id in gone
      {
        assert o in rows;
      }
    }
  }

  lemma {:induction false} SaveIrrelevant(rows: seq<Order>, o: Order)
    requires forall r :: r in rows ==> r.id != o.id
    ensures Save(rows, o) == rows
  {
    if rows != [] {
      SaveIrrelevant(rows[1..], o);
    }
  }

  /** The rows stored after the one with this id. */
  function Later(rows: seq<Order>, id: int): seq<Order> {
    if rows == [] then []
    else if rows[0].id == id then rows[1..]
    else Later(rows[1..], id)
  }

  ghost predicate LastAlive(rows: seq<Order>, b: Order, gone: set<int>) {
    forall o :: o in Later(rows, b.id) && o.auctionId == b.auctionId ==> o.id in gone
  }

  lemma {:induction false} LaterRows(rows: seq<Order>, b: Order)
    requires DistinctIds(rows)
    ensures forall o :: o in Later(rows, b.id) ==> o in rows && o.id != b.id
  {
    if rows != [] {
      DistinctTail(rows);
      LaterRows(rows[1..], b);
    }
  }

  /** The auction's orders as the loop re-reads them. */
  ghost function Reread(rows: seq<Order>, gone: set<int>, now: int, auctionId: int): seq<Order> {
    Filter(Rolled(rows, gone, now), OfAuction(auctionId))
  }

  lemma RereadCons(rows: seq<Order>, gone: set<int>, now: int, a: int)
    requires rows != []
    ensures Reread(rows, gone, now, a) ==
      (if rows[0].id !in gone && rows[0].auctionId == a then [Kept(rows, gone, now)] else [])
      + Reread(rows[1..], gone, now, a)
  {
    if rows[0].id !in gone {
      assert Rolled(rows, gone, now)[1..] == Rolled(rows[1..], gone, now);
    }
  }

  /** The re-read list holds the auction's survivors and nothing else. */
  lemma RereadRows(rows: seq<Order>, gone: set<int>, now: int, a: int)
    ensures forall o :: o in rows && o.auctionId == a && o.id !in gone ==>
      o in Reread(rows, gone, now, a) || Activated(o, now) in Reread(rows, gone, now, a)
    ensures forall r :: r in Reread(rows, gone, now, a) ==>
      r.id !in gone && exists o :: o in rows && o.auctionId == a && (r == o || r == Activated(o, now))
  {
    RolledRows(rows, gone, now);
  }

  /** In the re-read list the order is last exactly when nothing alive of its
      auction was stored after it. */
  lemma {:induction false} LastInReread(rows: seq<Order>, b: Order, gone: set<int>, now: int)
    requires DistinctIds(rows) && b in rows && b.id !in gone
    ensures var os := Reread(rows, gone, now, b.auctionId);
      os != [] && (os[|os| - 1].id == b.id <==> LastAlive(rows, b, gone))
  {
    hide Reread;
    var os, os' := Reread(rows, gone, now, b.auctionId), Reread(rows[1..], gone, now, b.auctionId);
    DistinctTail(rows);
    RereadCons(rows, gone, now, b.auctionId);
    if rows[0] == b {
      LastHere(rows, gone, now);
    } else {
      assert b in rows[1..];
      LastInReread(rows[1..], b, gone, now);
      assert os[|os| - 1] == os'[|os'| - 1];
    }
  }

  lemma LastHere(rows: seq<Order>, gone: set<int>, now: int)
    requires rows != [] && DistinctIds(rows) && rows[0].id !in gone
    ensures var os := [Kept(rows, gone, now)] + Reread(rows[1..], gone, now, rows[0].auctionId);
      os[|os| - 1].id == rows[0].id <==> LastAlive(rows, rows[0], gone)
  {
    hide Reread;
    var os' := Reread(rows[1..], gone, now, rows[0].auctionId);
    assert os' == [] || os'[|os'| - 1] in os';
    DistinctTail(rows);
    RereadRows(rows[1..], gone, now, rows[0].auctionId);
  }

  /** Adding `b` to the deleted rows reactivates nothing further up while its
      auction still has a survivor stored after `b`. */
  lemma {:induction false} DeleteInside(rows: seq<Order>, b: Order, gone: set<int>, now: int)
    requires DistinctIds(rows) && b in rows && b.id !in gone
    requires !LastAlive(rows, b, gone)
    ensures Delete(Rolled(rows, gone, now), b.id) == Rolled(rows, gone + {b.id}, now)
  {
    var tail := Rolled(rows[1..], gone, now);
    DistinctTail(rows);
    if rows[0] == b {
      RolledIrrelevant(rows[1..], gone, b.id, now);
      RolledRows(rows[1..], gone, now);
      FilterAll(tail, OtherThan(b.id));
      assert Rolled(rows, gone, now)[1..] == tail;
    } else {
      assert b in rows[1..];
      DeleteInside(rows[1..], b, gone, now);
      LaterRows(rows[1..], b);
      assert rows[0].id != b.id;
      KeptAfterDelete(rows, b, gone, now);
      if rows[0].id !in gone {
        assert Rolled(rows, gone, now)[1..] == tail;
      }
    }
  }

  /** Deleting `b` changes what happens to an earlier row only if that row is of
      the same auction and `b` was its last survivor below. */
  lemma KeptAfterDelete(rows: seq<Order>, b: Order, gone: set<int>, now: int)
    requires rows != [] && DistinctIds(rows) && b in rows[1..] && b.id !in gone
    requires rows[0].auctionId == b.auctionId ==>
      exists o :: o in rows[1..] && o.auctionId == b.auctionId && o.id != b.id && o.id !in gone
    ensures Kept(rows, gone + {b.id}, now) == Kept(rows, gone, now)
  {
    forall o | o in rows[1..] && o.auctionId != b.auctionId
      ensures o.id != b.id
    {
      var i, j :| 0 <= i < |rows[1..]| && 0 <= j < |rows[1..]| && rows[1..][i] == o && rows[1..][j] == b;
      assert rows[i + 1] == o && rows[j + 1] == b;
    }
  }

  /** The statements of one loop pass on the table `t`, given the re-read orders. */
  function Pass(t: seq<Order>, os: seq<Order>, id: int, now: int): seq<Order>
    requires os != []
  {
    if |os| > 1 && os[|os| - 1].id == id then Save(Delete(t, id), Activated(os[|os| - 2], now))
    else Delete(t, id)
  }

  lemma SaveCons(head: Order, tail: seq<Order>, o: Order)
    ensures Save([head] + tail, o) == [if head.id == o.id then o else head] + Save(tail, o)
  {
    assert ([head] + tail)[1..] == tail;
  }

  lemma DeleteCons(head: Order, tail: seq<Order>, id: int)
    ensures Delete([head] + tail, id) == (if head.id == id then [] else [head]) + Delete(tail, id)
  {
    assert ([head] + tail)[1..] == tail;
  }

  /** A row that is neither deleted nor reactivated stays where it is. */
  lemma PassSkips(head: Order, tail: seq<Order>, os: seq<Order>, os': seq<Order>, id: int, now: int)
    requires os' != [] && (os == os' || os == [head] + os') && os'[|os'| - 1].id == id && head.id != id
    requires |os'| > 1 ==> os'[|os'| - 2].id != head.id
    requires os != os' ==> |os'| > 1
    ensures Pass([head] + tail, os, id, now) == [head] + Pass(tail, os', id, now)
  {
    DeleteCons(head, tail, id);
    if |os'| > 1 {
      assert os[|os| - 2] == os'[|os'| - 2];
      SaveCons(head, Delete(tail, id), Activated(os'[|os'| - 2], now));
    }
  }

  /** The row before a deleted only survivor is reactivated. */
  lemma PassActivates(head: Order, tail: seq<Order>, os': seq<Order>, id: int, now: int)
    requires |os'| == 1 && os'[0].id == id && head.id != id
    requires forall r :: r in tail ==> r.id != head.id
    ensures Pass([head] + tail, [head] + os', id, now) == [Activated(head, now)] + Pass(tail, os', id, now)
  {
    DeleteCons(head, tail, id);
    SaveCons(head, Delete(tail, id), Activated(head, now));
    SaveIrrelevant(Delete(tail, id), Activated(head, now));
  }

  lemma {:induction false} RereadDistinct(rows: seq<Order>, gone: set<int>, now: int, a: int)
    requires DistinctIds(rows)
    ensures DistinctIds(Reread(rows, gone, now, a))
  {
    if rows != [] {
      hide Reread;
      DistinctTail(rows);
      RereadCons(rows, gone, now, a);
      RereadDistinct(rows[1..], gone, now, a);
      RereadRows(rows[1..], gone, now, a);
    }
  }

  /** A re-read list of one order names the only survivor. */
  lemma OnlySurvivor(rows: seq<Order>, b: Order, gone: set<int>, now: int)
    requires b in rows && b.id !in gone
    requires var os := Reread(rows, gone, now, b.auctionId); |os| == 1 && os[0].id == b.id
    ensures TailGone(rows, b.auctionId, gone + {b.id}) && !TailGone(rows, b.auctionId, gone)
  {
    var os := Reread(rows, gone, now, b.auctionId);
    RereadRows(rows, gone, now, b.auctionId);
    hide Reread;
    forall o | o in rows && o.auctionId == b.auctionId
      ensures o.id in gone + {b.id}
    {
      assert o.id !in gone ==> o in os || Activated(o, now) in os;
      assert forall r :: r in os ==> r == os[0];
    }
  }

  /** The step of `DeleteLast` for a surviving first row other than `b`. */
  lemma DeleteLastBelow(rows: seq<Order>, b: Order, gone: set<int>, now: int, os': seq<Order>)
    requires rows != [] && DistinctIds(rows) && b in rows[1..] && b.id !in gone && rows[0].id !in gone
    requires os' == Reread(rows[1..], gone, now, b.auctionId) && os' != [] && os'[|os'| - 1].id == b.id
    ensures Pass(Rolled(rows, gone, now), Reread(rows, gone, now, b.auctionId), b.id, now)
         == [Kept(rows, gone + {b.id}, now)] + Pass(Rolled(rows[1..], gone, now), os', b.id, now)
  {
    hide Reread, Pass;
    var head, tail := Kept(rows, gone, now), Rolled(rows[1..], gone, now);
    DistinctTail(rows);
    RereadCons(rows, gone, now, b.auctionId);
    if rows[0].auctionId == b.auctionId && |os'| == 1 {
      OnlySurvivor(rows[1..], b, gone, now);
      RolledRows(rows[1..], gone, now);
      PassActivates(head, tail, os', b.id, now);
    } else {
      if |os'| > 1 {
        BeforeLast(rows, b, gone, now, os');
      }
      KeptAfterDelete(rows, b, gone, now);
      PassSkips(head, tail, Reread(rows, gone, now, b.auctionId), os', b.id, now);
    }
  }

  lemma BeforeLast(rows: seq<Order>, b: Order, gone: set<int>, now: int, os': seq<Order>)
    requires rows != [] && DistinctIds(rows)
    requires os' == Reread(rows[1..], gone, now, b.auctionId) && |os'| > 1 && os'[|os'| - 1].id == b.id
    ensures os'[|os'| - 2].id != rows[0].id
    ensures exists o :: o in rows[1..] && o.auctionId == b.auctionId && o.id != b.id && o.id !in gone
  {
    DistinctTail(rows);
    RereadRows(rows[1..], gone, now, b.auctionId);
    RereadDistinct(rows[1..], gone, now, b.auctionId);
    assert os'[|os'| - 2] in os';
  }

  /** Deleting an auction's last survivor reactivates the one before it, which is
      the last but one of the re-read list. */
  lemma {:induction false} DeleteLast(rows: seq<Order>, b: Order, gone: set<int>, now: int)
    requires DistinctIds(rows) && b in rows && b.id !in gone
    requires LastAlive(rows, b, gone)
    ensures Reread(rows, gone, now, b.auctionId) != []
    ensures Pass(Rolled(rows, gone, now), Reread(rows, gone, now, b.auctionId), b.id, now) ==
      Rolled(rows, gone + {b.id}, now)
  {
    var os' := Reread(rows[1..], gone, now, b.auctionId);
    DistinctTail(rows);
    if rows[0] == b {
      DeleteOnly(rows, gone, now);
    } else {
      hide Reread, Pass;
      assert b in rows[1..];
      LastInReread(rows[1..], b, gone, now);
      DeleteLast(rows[1..], b, gone, now);
      assert rows[0].id != b.id;
      if rows[0].id in gone {
        RereadCons(rows, gone, now, b.auctionId);
        assert Reread(rows, gone, now, b.auctionId) == os';
      } else {
        RereadCons(rows, gone, now, b.auctionId);
        DeleteLastBelow(rows, b, gone, now, os');
      }
    }
  }

  lemma DeleteOnly(rows: seq<Order>, gone: set<int>, now: int)
    requires rows != [] && DistinctIds(rows) && rows[0].id !in gone && LastAlive(rows, rows[0], gone)
    ensures Reread(rows, gone, now, rows[0].auctionId) == [Kept(rows, gone, now)]
    ensures Delete(Rolled(rows, gone, now), rows[0].id) == Rolled(rows, gone + {rows[0].id}, now)
  {
    var b, tail := rows[0], Rolled(rows[1..], gone, now);
    var os' := Reread(rows[1..], gone, now, b.auctionId);
    assert os' == [] || os'[0] in os';
    DistinctTail(rows);
    RereadCons(rows, gone, now, b.auctionId);
    RereadRows(rows[1..], gone, now, b.auctionId);
    RolledRows(rows[1..], gone, now);
    RolledIrrelevant(rows[1..], gone, b.id, now);
    FilterAll(tail, OtherThan(b.id));
    DeleteCons(Kept(rows, gone, now), tail, b.id);
  }

  /** One loop pass is one more deleted order, whatever was deleted before. */
  lemma PassIsRolled(rows: seq<Order>, b: Order, gone: set<int>, now: int)
    requires DistinctIds(rows) && b in rows && b.id !in gone
    ensures var os := Reread(rows, gone, now, b.auctionId);
      os != [] && Pass(Rolled(rows, gone, now), os, b.id, now) == Rolled(rows, gone + {b.id}, now)
  {
    LastInReread(rows, b, gone, now);
    if LastAlive(rows, b, gone) {
      DeleteLast(rows, b, gone, now);
    } else {
      DeleteInside(rows, b, gone, now);
    }
  }

  // ----- What the rollback achieves, and when -----

  /** Deleting the orders of `s` leaves nothing of the auction of its last one. */
  ghost predicate Exhausts(rows: seq<Order>, s: seq<Order>) {
    s != [] && forall o :: o in rows && o.auctionId == s[|s| - 1].auctionId ==> o.id in Ids(s)
  }

  /** `order` is some order in which the database may list the block's orders. */
  ghost predicate Lists(rows: seq<Order>, blockHash: string, order: seq<Order>) {
    multiset(order) == multiset(Filter(rows, OfBlock(blockHash)))
  }

  /** No proper part of the listing empties the auction it stops at. */
  ghost predicate NeverCutShort(rows: seq<Order>, order: seq<Order>) {
    forall k :: 0 < k < |order| ==> !Exhausts(rows, order[..k])
  }

  /** The loop worked through the first `done` orders of the listing: all of it, or
      up to the first order that emptied its auction. */
  ghost predicate Executed(rows: seq<Order>, blockHash: string, order: seq<Order>, done: nat) {
    && Lists(rows, blockHash, order) && done <= |order|
    && (forall k :: 0 < k < done ==> !Exhausts(rows, order[..k]))
    && (done < |order| ==> done > 0 && Exhausts(rows, order[..done]))
  }

  /** The loop is still running behind the first `i` orders of the listing. */
  ghost predicate Running(rows: seq<Order>, blockHash: string, order: seq<Order>, i: nat) {
    && Lists(rows, blockHash, order) && i <= |order|
    && forall k :: 0 < k <= i && k < |order| ==> !Exhausts(rows, order[..k])
  }

  /** The table such an execution leaves. */
  ghost function Outcome(rows: seq<Order>, order: seq<Order>, done: nat, now: int): seq<Order>
    requires done <= |order|
  {
    Rolled(rows, Ids(order[..done]), now)
  }

  /** Only one auction is touched, or every touched one keeps an order of another
      block. */
  ghost predicate SafeBlock(rows: seq<Order>, blockHash: string) {
    || (forall o, o' :: o in rows && o' in rows && o.blockHash == o'.blockHash == blockHash ==>
      o.auctionId == o'.auctionId)
    || (forall o :: o in rows && o.blockHash == blockHash ==>
          exists kept :: kept in rows && kept.auctionId == o.auctionId && kept.blockHash != blockHash)
  }

  lemma {:induction false} OneCopy(rows: seq<Order>, o: Order)
    requires DistinctIds(rows)
    ensures multiset(rows)[o] <= 1
  {
    if rows != [] {
      DistinctTail(rows);
      OneCopy(rows[1..], o);
      assert rows == [rows[0]] + rows[1..];
      assert rows[0] !in rows[1..];
    }
  }

  lemma SameId(rows: seq<Order>, a: Order, b: Order)
    requires DistinctIds(rows) && a in rows && b in rows && a.id == b.id
    ensures a == b
  {
    var i :| 0 <= i < |rows| && rows[i] == a;
    var j :| 0 <= j < |rows| && rows[j] == b;
  }

  lemma ListedTwice(order: seq<Order>, i: nat, j: nat)
    requires i < j < |order| && order[i] == order[j]
    ensures multiset(order)[order[i]] >= 2
  {
    assert order == order[..i] + [order[i]] + order[i + 1..j] + [order[i]] + order[j + 1..];
  }

  lemma ListsRows(rows: seq<Order>, blockHash: string, order: seq<Order>)
    requires DistinctIds(rows) && Lists(rows, blockHash, order)
    ensures DistinctIds(order)
    ensures forall o :: o in order <==> o in rows && o.blockHash == blockHash
  {
    forall o: Order
      ensures o in order <==> o in rows && o.blockHash == blockHash
      ensures multiset(order)[o] <= 1
    {
      FilterCount(rows, OfBlock(blockHash), o);
      OneCopy(rows, o);
      assert o in order <==> o in multiset(order);
      assert o in rows <==> o in multiset(rows);
    }
    forall i, j | 0 <= i < j < |order|
      ensures order[i].id != order[j].id
    {
      assert order[i] in order && order[j] in order;
      if order[i].id == order[j].id {
        SameId(rows, order[i], order[j]);
        ListedTwice(order, i, j);
        assert false;
      }
    }
  }

  /** The re-read list has one element exactly when this pass empties the auction. */
  lemma OneLeftIff(rows: seq<Order>, b: Order, gone: set<int>, now: int)
    requires DistinctIds(rows) && b in rows && b.id !in gone
    ensures |Reread(rows, gone, now, b.auctionId)| == 1
       <==> forall o :: o in rows && o.auctionId == b.auctionId ==> o.id in gone + {b.id}
  {
    hide Reread;
    var os := Reread(rows, gone, now, b.auctionId);
    RereadRows(rows, gone, now, b.auctionId);
    RereadDistinct(rows, gone, now, b.auctionId);
    assert |os| >= 2 ==> os[0].id != os[1].id && os[0] in os && os[1] in os;
  }

  /** Everything the block added is gone exactly when no auction is emptied before
      the last listed order: the loop returns from inside as soon as one is. */
  lemma RollbackCompleteIff(rows: seq<Order>, blockHash: string, order: seq<Order>, done: nat, now: int)
    requires DistinctIds(rows) && Executed(rows, blockHash, order, done)
    ensures (forall o :: o in Outcome(rows, order, done, now) ==>
      o.blockHash != blockHash) <==> NeverCutShort(rows, order)
  {
    ListsRows(rows, blockHash, order);
    RolledRows(rows, Ids(order[..done]), now);
    if done < |order| {
      var missed := order[done];
      assert missed in order;
      assert missed.id !in Ids(order[..done]);
      assert missed in Rolled(rows, Ids(order[..done]), now) ||
        Activated(missed, now) in Rolled(rows, Ids(order[..done]), now);
    } else {
      assert order[..done] == order;
      forall r | r in Rolled(rows, Ids(order), now)
        ensures r.blockHash != blockHash
      {
        var o :| o in rows && (r == o || r == Activated(o, now));
        assert o in order ==> o.id in Ids(order);
      }
    }
  }

  /** The caller's condition: whatever order the database lists the block's orders
      in, the rollback is complete exactly when only one auction is touched or
      every touched auction keeps an order of another block. */
  lemma CompleteForEveryListingIff(rows: seq<Order>, blockHash: string)
    requires DistinctIds(rows)
    ensures (forall order: seq<Order> :: Lists(rows, blockHash, order) ==> NeverCutShort(rows, order)) <==>
      SafeBlock(rows, blockHash)
  {
    if forall o, o' :: o in rows && o' in rows && o.blockHash == o'.blockHash == blockHash ==>
      o.auctionId == o'.auctionId {
      forall order: seq<Order>, k | Lists(rows, blockHash, order) && 0 < k < |order|
        ensures !Exhausts(rows, order[..k])
      {
        ListsRows(rows, blockHash, order);
        assert order[k - 1] in order && order[k] in order;
        assert order[..k][k - 1] == order[k - 1];
        assert order[k].id !in Ids(order[..k]);
      }
    } else if forall o :: o in rows && o.blockHash == blockHash ==>
        exists kept :: kept in rows && kept.auctionId == o.auctionId && kept.blockHash != blockHash {
      forall order: seq<Order>, k | Lists(rows, blockHash, order) && 0 < k < |order|
        ensures !Exhausts(rows, order[..k])
      {
        ListsRows(rows, blockHash, order);
        var o := order[..k][k - 1];
        assert o in order;
        var kept :| kept in rows && kept.auctionId == o.auctionId && kept.blockHash != blockHash;
        forall b | b in order[..k]
          ensures b.id != kept.id
        {
          assert b in order;
          if b.id == kept.id { SameId(rows, b, kept); assert false; }
        }
      }
    } else {
      var b, other := UnsafePair(rows, blockHash);
      EmptiedFirst(rows, blockHash, b, other);
    }
  }

  /** The block's orders, those of an auction that keeps none put first. */
  lemma EmptiedSplit(rows: seq<Order>, blockHash: string, b: Order, other: Order)
      returns (head: seq<Order>, tail: seq<Order>)
    requires DistinctIds(rows) && b in rows && other in rows
    requires b.blockHash == other.blockHash == blockHash && b.auctionId != other.auctionId
    requires forall o :: o in rows && o.auctionId == b.auctionId ==> o.blockHash == blockHash
    ensures Lists(rows, blockHash, head + tail) && Exhausts(rows, head) && tail != []
    ensures forall o :: o in tail ==> o in rows
  {
    var block := Filter(rows, OfBlock(blockHash));
    head, tail := Filter(block, OfAuction(b.auctionId)), Filter(block, NotOfAuction(b.auctionId));
    FilterPartition(block, OfAuction(b.auctionId), NotOfAuction(b.auctionId));
    hide Filter;
    assert b in head && other in tail;
    assert head[|head| - 1] in head;
    assert multiset(head + tail) == multiset(block);
  }

  /** A listing that starts with all orders of an auction that keeps none. */
  lemma EmptiedFirst(rows: seq<Order>, blockHash: string, b: Order, other: Order)
    requires DistinctIds(rows) && b in rows && other in rows
    requires b.blockHash == other.blockHash == blockHash && b.auctionId != other.auctionId
    requires forall o :: o in rows && o.auctionId == b.auctionId ==> o.blockHash == blockHash
    ensures exists order: seq<Order> :: Lists(rows, blockHash, order) && !NeverCutShort(rows, order)
  {
    hide Lists, Exhausts, DistinctIds;
    var head, tail := EmptiedSplit(rows, blockHash, b, other);
    CutShort(rows, head, tail);
  }

  lemma CutShort(rows: seq<Order>, head: seq<Order>, tail: seq<Order>)
    requires Exhausts(rows, head) && tail != []
    ensures !NeverCutShort(rows, head + tail)
  {
    assert (head + tail)[..|head|] == head;
  }

  /** Every listing has an execution. */
  lemma {:induction false} SomeExecution(rows: seq<Order>, blockHash: string, order: seq<Order>, i: nat)
      returns (done: nat)
    requires Running(rows, blockHash, order, i)
    ensures Executed(rows, blockHash, order, done)
    decreases |order| - i
  {
    if i == |order| {
      done := i;
    } else if Exhausts(rows, order[..i + 1]) {
      done := i + 1;
    } else {
      done := SomeExecution(rows, blockHash, order, i + 1);
    }
  }

  /** In a safe block every execution works through the whole listing. */
  lemma SafeOutcome(rows: seq<Order>, blockHash: string, order: seq<Order>, done: nat, now: int)
    requires DistinctIds(rows) && SafeBlock(rows, blockHash) && Executed(rows, blockHash, order, done)
    ensures done == |order| && forall o :: o in Outcome(rows, order, done, now) ==> o.blockHash != blockHash
  {
    hide SafeBlock, DistinctIds, Lists, Exhausts, Ids, Rolled;
    CompleteForEveryListingIff(rows, blockHash);
    RollbackCompleteIff(rows, blockHash, order, done, now);
  }

  /** Two executions over two listings leave the same table. */
  lemma SafeConfluent(rows: seq<Order>, blockHash: string, order1: seq<Order>, done1: nat, order2: seq<Order>,
      done2: nat, now: int)
    requires DistinctIds(rows) && SafeBlock(rows, blockHash)
    requires Executed(rows, blockHash, order1, done1) && Executed(rows, blockHash, order2, done2)
    ensures Outcome(rows, order1, done1, now) == Outcome(rows, order2, done2, now)
  {
    SafeOutcome(rows, blockHash, order1, done1, now);
    SafeOutcome(rows, blockHash, order2, done2, now);
    hide SafeBlock, Exhausts, Rolled;
    ListsRows(rows, blockHash, order1);
    ListsRows(rows, blockHash, order2);
    assert order1[..done1] == order1 && order2[..done2] == order2;
    assert Ids(order1) == Ids(order2);
  }

  /** In any other block two executions leave different tables: one that starts
      with an auction it empties, and one that starts elsewhere. */
  lemma UnsafeDiverges(rows: seq<Order>, blockHash: string, now: int)
    returns (order1: seq<Order>, done1: nat, order2: seq<Order>, done2: nat)
    requires DistinctIds(rows) && !SafeBlock(rows, blockHash)
    ensures Executed(rows, blockHash, order1, done1) && Executed(rows, blockHash, order2, done2)
    ensures Outcome(rows, order1, done1, now) != Outcome(rows, order2, done2, now)
  {
    hide SafeBlock, Lists, Rolled, Ids, Exhausts, DistinctIds, Executed, Outcome;
    var b, other := UnsafePair(rows, blockHash);
    var head, tail := EmptiedSplit(rows, blockHash, b, other);
    order1, order2 := head + tail, tail + head;
    ListsSwapped(rows, blockHash, head, tail);
    ListsRows(rows, blockHash, order1);
    NothingDone(rows, blockHash, order1, now);
    NothingDone(rows, blockHash, order2, now);
    done1 := SomeExecution(rows, blockHash, order1, 0);
    done2 := SomeExecution(rows, blockHash, order2, 0);
    StopsAfterHead(rows, blockHash, head, tail, done1);
    SurvivesFirst(rows, order1, done1, tail[0], now);
    GoneFirst(rows, blockHash, order2, done2, now);
    assert order2[0] == tail[0];
  }

  lemma ListsSwapped(rows: seq<Order>, blockHash: string, a: seq<Order>, b: seq<Order>)
    requires Lists(rows, blockHash, a + b)
    ensures Lists(rows, blockHash, b + a)
  {
    hide Filter;
    assert multiset(b + a) == multiset(a + b);
  }

  lemma UnsafePair(rows: seq<Order>, blockHash: string) returns (b: Order, other: Order)
    requires !SafeBlock(rows, blockHash)
    ensures b in rows && other in rows && b.blockHash == other.blockHash == blockHash && b.auctionId != other.auctionId
    ensures forall o :: o in rows && o.auctionId == b.auctionId ==> o.blockHash == blockHash
  {
    var o, o' :| o in rows && o' in rows && o.blockHash == o'.blockHash == blockHash && o.auctionId != o'.auctionId;
    b :| b in rows && b.blockHash == blockHash &&
      !exists kept :: kept in rows && kept.auctionId == b.auctionId && kept.blockHash != blockHash;
    other := if b.auctionId == o.auctionId then o' else o;
  }

  lemma StopsAfterHead(rows: seq<Order>, blockHash: string, head: seq<Order>, tail: seq<Order>, done: nat)
    requires Executed(rows, blockHash, head + tail, done) && Exhausts(rows, head) && tail != []
    ensures done <= |head| && tail[0] in (head + tail)[done..]
  {
    hide Lists;
    var order := head + tail;
    assert order[..|head|] == head;
    assert order[done..][|head| - done] == tail[0];
  }

  lemma SurvivesFirst(rows: seq<Order>, order: seq<Order>, done: nat, o: Order, now: int)
    requires DistinctIds(order) && done <= |order| && o in order[done..] && o in rows
    ensures exists r :: r in Outcome(rows, order, done, now) && r.id == o.id
  {
    hide Rolled;
    var j :| 0 <= j < |order[done..]| && order[done..][j] == o;
    assert order[done + j] == o;
    assert o.id !in Ids(order[..done]);
    RolledRows(rows, Ids(order[..done]), now);
    assert o in Outcome(rows, order, done, now) || Activated(o, now) in Outcome(rows, order, done, now);
  }

  lemma GoneFirst(rows: seq<Order>, blockHash: string, order: seq<Order>, done: nat, now: int)
    requires order != [] && Executed(rows, blockHash, order, done)
    ensures forall r :: r in Outcome(rows, order, done, now) ==> r.id != order[0].id
  {
    hide Rolled, Lists;
    RolledRows(rows, Ids(order[..done]), now);
    assert order[..done][0] == order[0] && order[0] in order[..done];
  }

  /** The rollback is confluent exactly in safe blocks, and complete there: over
      any two listings, any two executions leave the same table. */
  lemma RollbackConfluentIff(rows: seq<Order>, blockHash: string, now: int)
    requires DistinctIds(rows)
    ensures SafeBlock(rows, blockHash) <==>
      forall order1, done1: nat, order2, done2: nat ::
        Executed(rows, blockHash, order1, done1) && Executed(rows, blockHash, order2, done2) ==>
          Outcome(rows, order1, done1, now) == Outcome(rows, order2, done2, now)
    ensures SafeBlock(rows, blockHash) ==>
      forall order, done: nat :: Executed(rows, blockHash, order, done) ==>
        forall o :: o in Outcome(rows, order, done, now) ==> o.blockHash != blockHash
  {
    hide SafeBlock, DistinctIds, Outcome;
    if SafeBlock(rows, blockHash) {
      forall order1, done1: nat, order2, done2: nat
          | Executed(rows, blockHash, order1, done1) && Executed(rows, blockHash, order2, done2)
        ensures Outcome(rows, order1, done1, now) == Outcome(rows, order2, done2, now)
        ensures forall o :: o in Outcome(rows, order1, done1, now) ==> o.blockHash != blockHash
      {
        SafeConfluent(rows, blockHash, order1, done1, order2, done2, now);
        SafeOutcome(rows, blockHash, order1, done1, now);
      }
    } else {
      var order1, done1, order2, done2 := UnsafeDiverges(rows, blockHash, now);
    }
  }

  /** Row by row: a survivor is reactivated exactly when rows of its auction were
      stored after it and all of them are deleted, and is untouched otherwise. */
  lemma {:induction false} RolledRow(rows: seq<Order>, gone: set<int>, now: int, i: nat)
    requires DistinctIds(rows) && i < |rows| && rows[i].id !in gone
    ensures var o := rows[i];
      (if TailGone(rows[i + 1..], o.auctionId, gone) then Order(o.id, o.auctionId, o.blockHash, Active, now) else o)
        in Rolled(rows, gone, now)
  {
    if i > 0 {
      DistinctTail(rows);
      RolledRow(rows[1..], gone, now, i - 1);
      assert rows[1..][i - 1..][1..] == rows[i + 1..];
      assert rows[1..][i..] == rows[i + 1..];
    }
  }

  lemma RolledCons(rows: seq<Order>, gone: set<int>, now: int)
    requires rows != []
    ensures Rolled(rows, gone, now) ==
      (if rows[0].id in gone then [] else [Kept(rows, gone, now)]) + Rolled(rows[1..], gone, now)
    ensures Filter(rows, Survives(gone)) ==
      (if rows[0].id in gone then [] else [rows[0]]) + Filter(rows[1..], Survives(gone))
    ensures Kept(rows, gone, now).id == rows[0].id
  {
  }

  ghost predicate SameIds(a: seq<Order>, b: seq<Order>) {
    |a| == |b| && forall i :: 0 <= i < |a| ==> a[i].id == b[i].id
  }

  /** The survivors keep their storage order. */
  lemma {:induction false} RolledKeepsOrder(rows: seq<Order>, gone: set<int>, now: int)
    ensures SameIds(Rolled(rows, gone, now), Filter(rows, Survives(gone)))
  {
    if rows != [] {
      RolledKeepsOrder(rows[1..], gone, now);
      SameIdsCons(rows, gone, now);
    }
  }

  lemma SameIdsCons(rows: seq<Order>, gone: set<int>, now: int)
    requires rows != [] && SameIds(Rolled(rows[1..], gone, now), Filter(rows[1..], Survives(gone)))
    ensures SameIds(Rolled(rows, gone, now), Filter(rows, Survives(gone)))
  {
    hide Rolled, Filter, Kept;
    RolledCons(rows, gone, now);
  }

  ghost function Survives(gone: set<int>): Order -> bool {
    (o: Order) => o.id !in gone
  }

  /** `a` is stored before `b`. */
  ghost predicate Before(rows: seq<Order>, a: Order, b: Order) {
    exists i, j :: 0 <= i < j < |rows| && rows[i] == a && rows[j] == b
  }

  /** Orders of the auction of `o` were stored behind it, and all of them are gone. */
  ghost predicate LastLeft(rows: seq<Order>, o: Order, gone: set<int>) {
    && (exists r :: Before(rows, o, r) && r.auctionId == o.auctionId)
    && (forall r :: Before(rows, o, r) && r.auctionId == o.auctionId ==> r.id in gone)
  }

  /** `after` holds the rows of `kept` in their order: the ones that became the last
      of their auction active and dated `now`, all others as they were. */
  ghost predicate RolledBack(rows: seq<Order>, kept: seq<Order>, gone: set<int>, after: seq<Order>, now: int) {
    |after| == |kept| && forall k :: 0 <= k < |kept| ==>
      if LastLeft(rows, kept[k], gone)
      then after[k] == Order(kept[k].id, kept[k].auctionId, kept[k].blockHash, Active, now)
      else after[k] == kept[k]
  }

  lemma BeforeTail(rows: seq<Order>, a: Order, b: Order)
    requires rows != [] && (Before(rows[1..], a, b) || (a == rows[0] && b in rows[1..]))
    ensures Before(rows, a, b)
  {
    if Before(rows[1..], a, b) {
      var i, j :| 0 <= i < j < |rows[1..]| && rows[1..][i] == a && rows[1..][j] == b;
      assert rows[i + 1] == a && rows[j + 1] == b;
    } else {
      var j :| 0 <= j < |rows[1..]| && rows[1..][j] == b;
      assert rows[j + 1] == b;
    }
  }

  /** Behind the first row stands the rest. */
  lemma BeforeHead(rows: seq<Order>, r: Order)
    requires rows != [] && DistinctIds(rows)
    ensures Before(rows, rows[0], r) <==> r in rows[1..]
  {
    if r in rows[1..] {
      BeforeTail(rows, rows[0], r);
    }
    if Before(rows, rows[0], r) {
      var i, j :| 0 <= i < j < |rows| && rows[i] == rows[0] && rows[j] == r;
      assert rows[1..][j - 1] == r;
    }
  }

  lemma BeforeRest(rows: seq<Order>, o: Order, r: Order)
    requires rows != [] && o.id != rows[0].id
    ensures Before(rows, o, r) <==> Before(rows[1..], o, r)
  {
    if Before(rows[1..], o, r) {
      BeforeTail(rows, o, r);
    }
    if Before(rows, o, r) {
      var i, j :| 0 <= i < j < |rows| && rows[i] == o && rows[j] == r;
      assert rows[1..][i - 1] == o && rows[1..][j - 1] == r;
    }
  }

  lemma LastLeftHead(rows: seq<Order>, gone: set<int>)
    requires rows != [] && DistinctIds(rows)
    ensures LastLeft(rows, rows[0], gone) <==> TailGone(rows[1..], rows[0].auctionId, gone)
  {
    hide Before, DistinctIds;
    forall r: Order {
      BeforeHead(rows, r);
    }
  }

  lemma LastLeftTail(rows: seq<Order>, o: Order, gone: set<int>)
    requires rows != [] && o.id != rows[0].id
    ensures LastLeft(rows, o, gone) <==> LastLeft(rows[1..], o, gone)
  {
    hide Before;
    forall r: Order {
      BeforeRest(rows, o, r);
    }
  }

  /** The whole result, row by row and field by field. */
  lemma {:induction false} RolledFields(rows: seq<Order>, gone: set<int>, now: int)
    requires DistinctIds(rows)
    ensures RolledBack(rows, Filter(rows, Survives(gone)), gone, Rolled(rows, gone, now), now)
  {
    if rows != [] {
      DistinctTail(rows);
      RolledFields(rows[1..], gone, now);
      RolledBackCons(rows, gone, now);
    }
  }

  lemma RolledBackCons(rows: seq<Order>, gone: set<int>, now: int)
    requires rows != [] && DistinctIds(rows)
    requires RolledBack(rows[1..], Filter(rows[1..], Survives(gone)), gone, Rolled(rows[1..], gone, now), now)
    ensures RolledBack(rows, Filter(rows, Survives(gone)), gone, Rolled(rows, gone, now), now)
  {
    hide Rolled, LastLeft, TailGone, DistinctIds, Filter, RolledBack;
    var kept', after' := Filter(rows[1..], Survives(gone)), Rolled(rows[1..], gone, now);
    RolledCons(rows, gone, now);
    DistinctTail(rows);
    LastLeftHead(rows, gone);
    forall o | o in kept'
      ensures LastLeft(rows, o, gone) <==> LastLeft(rows[1..], o, gone)
    {
      assert o in rows[1..];
      LastLeftTail(rows, o, gone);
    }
    RolledBackMore(rows, rows[1..], rows[0], kept', gone, Kept(rows, gone, now), after', now);
    if rows[0].id in gone {
      assert Filter(rows, Survives(gone)) == kept' && Rolled(rows, gone, now) == after';
    }
  }

  /** One row more in front. */
  lemma RolledBackMore(rows: seq<Order>, tail: seq<Order>, head: Order, kept: seq<Order>, gone: set<int>, first: Order,
      after: seq<Order>, now: int)
    requires RolledBack(tail, kept, gone, after, now)
    requires forall o :: o in kept ==> (LastLeft(rows, o, gone) <==> LastLeft(tail, o, gone))
    ensures RolledBack(rows, kept, gone, after, now)
    ensures first == (if LastLeft(rows, head, gone) then Order(head.id, head.auctionId, head.blockHash, Active, now)
                      else head) ==>
      RolledBack(rows, [head] + kept, gone, [first] + after, now)
  {
    hide LastLeft;
    assert forall k :: 0 <= k < |kept| ==> kept[k] in kept;
  }

  function IndexOfId(os: seq<Order>, id: int): (i: nat)
    requires exists o :: o in os && o.id == id
    ensures i < |os| && os[i].id == id
  {
    if os[0].id == id then 0
    else
      assert os == [os[0]] + os[1..];
      1 + IndexOfId(os[1..], id)
  }

  /** With distinct ids the found position is the last one exactly when the last id is it. */
  lemma IndexIsLast(os: seq<Order>, id: int)
    requires DistinctIds(os) && exists o :: o in os && o.id == id
    ensures IndexOfId(os, id) == |os| - 1 <==> os[|os| - 1].id == id
  {
  }

  lemma {:induction false} SaveRows(rows: seq<Order>, o: Order)
    ensures |Save(rows, o)| == |rows|
    ensures forall i :: 0 <= i < |rows| ==> Save(rows, o)[i] == if rows[i].id == o.id then o else rows[i]
  {
    if rows != [] {
      SaveRows(rows[1..], o);
    }
  }

  /** `o` is stored, and no order of the auction behind it. */
  ghost predicate LastOfAuction(rows: seq<Order>, o: Order, auctionId: int) {
    exists i :: 0 <= i < |rows| && rows[i] == o && forall j :: i < j < |rows| ==> rows[j].auctionId != auctionId
  }

  lemma AuctionCons(rows: seq<Order>, auctionId: int)
    requires rows != []
    ensures Filter(rows, OfAuction(auctionId)) ==
      (if rows[0].auctionId == auctionId then [rows[0]] else []) + Filter(rows[1..], OfAuction(auctionId))
    ensures forall o :: o in Filter(rows[1..], OfAuction(auctionId)) <==> o in rows[1..] && o.auctionId == auctionId
  {
  }

  ghost predicate InOrder(rows: seq<Order>, orders: seq<Order>) {
    forall i, j :: 0 <= i < j < |orders| ==> Before(rows, orders[i], orders[j])
  }

  lemma {:induction false} FilteredOrder(rows: seq<Order>, auctionId: int)
    ensures InOrder(rows, Filter(rows, OfAuction(auctionId)))
  {
    if rows != [] {
      FilteredOrder(rows[1..], auctionId);
      FilteredOrderCons(rows, auctionId);
    }
  }

  lemma FilteredOrderCons(rows: seq<Order>, auctionId: int)
    requires rows != [] && InOrder(rows[1..], Filter(rows[1..], OfAuction(auctionId)))
    ensures InOrder(rows, Filter(rows, OfAuction(auctionId)))
  {
    hide Filter, Before;
    var orders, tail := Filter(rows, OfAuction(auctionId)), Filter(rows[1..], OfAuction(auctionId));
    AuctionCons(rows, auctionId);
    var n := |orders| - |tail|;
    forall i, j | 0 <= i < j < |orders|
      ensures Before(rows, orders[i], orders[j])
    {
      assert orders[j] == tail[j - n] && tail[j - n] in tail;
      if i >= n {
        assert orders[i] == tail[i - n];
      } else {
        assert orders[i] == rows[0];
      }
      BeforeTail(rows, orders[i], orders[j]);
    }
  }

  lemma LastTail(rows: seq<Order>, o: Order, auctionId: int)
    requires rows != []
    requires LastOfAuction(rows[1..], o, auctionId) || (o == rows[0] && forall r :: r in rows[1..] ==>
      r.auctionId != auctionId)
    ensures LastOfAuction(rows, o, auctionId)
  {
    if LastOfAuction(rows[1..], o, auctionId) {
      var i :| 0 <= i < |rows[1..]| && rows[1..][i] == o &&
        forall j :: i < j < |rows[1..]| ==> rows[1..][j].auctionId != auctionId;
      assert forall j :: i + 1 < j < |rows| ==> rows[j] == rows[1..][j - 1];
      assert rows[i + 1] == o;
    } else {
      assert forall j :: 0 < j < |rows| ==> rows[j] == rows[1..][j - 1] && rows[1..][j - 1] in rows[1..];
    }
  }

  lemma {:induction false} FilteredLast(rows: seq<Order>, auctionId: int)
    requires Filter(rows, OfAuction(auctionId)) != []
    ensures var orders := Filter(rows, OfAuction(auctionId));
      LastOfAuction(rows, orders[|orders| - 1], auctionId)
  {
    hide Filter, LastOfAuction;
    var orders := Filter(rows, OfAuction(auctionId));
    AuctionCons(rows, auctionId);
    if Filter(rows[1..], OfAuction(auctionId)) != [] {
      FilteredLast(rows[1..], auctionId);
    } else {
      NoneIn(rows[1..], auctionId);
    }
    LastTail(rows, orders[|orders| - 1], auctionId);
  }

  lemma NoneIn(rows: seq<Order>, auctionId: int)
    requires Filter(rows, OfAuction(auctionId)) == []
    ensures forall r :: r in rows ==> r.auctionId != auctionId
  {
    assert forall r :: r in rows && OfAuction(auctionId)(r) ==> r in Filter(rows, OfAuction(auctionId));
  }

  class OrdersRepository {
    var rows: seq<Order>

    constructor (rows: seq<Order>)
      ensures this.rows == rows
    {
      this.rows := rows;
    }

    /** Any listing of the block's orders; the query has no ORDER BY. */
    method GetOrdersByBlockHash(blockHash: string) returns (orders: seq<Order>)
      ensures Lists(rows, blockHash, orders)
    {
      orders := Filter(rows, OfBlock(blockHash));
    }

    /** Exactly the auction's orders, each as often as it is stored and in storage
        order, so that the last one listed is the last one stored. */
    method GetOrdersForAuction(auctionId: int) returns (orders: seq<Order>)
      ensures orders == Filter(rows, OfAuction(auctionId))
      ensures forall o :: o in orders <==> o in rows && o.auctionId == auctionId
      ensures forall o: Order :: o.auctionId == auctionId ==> multiset(orders)[o] == multiset(rows)[o]
      ensures orders != [] ==> LastOfAuction(rows, orders[|orders| - 1], auctionId)
      ensures InOrder(rows, orders)
    {
      orders := Filter(rows, OfAuction(auctionId));
      forall o: Order | o.auctionId == auctionId
        ensures multiset(orders)[o] == multiset(rows)[o]
      {
        FilterCount(rows, OfAuction(auctionId), o);
      }
      FilteredOrder(rows, auctionId);
      if orders != [] {
        FilteredLast(rows, auctionId);
      }
    }

    /** Removes every row with this id and nothing else, and keeps the order. */
    method DeleteOrder(id: int)
      modifies this
      ensures rows == Delete(old(rows), id)
      ensures forall o :: o in rows <==> o in old(rows) && o.id != id
    {
      rows := Delete(rows, id);
    }

    /** Writes status and date of the row with the order's id; all other rows stay
        as and where they are. */
    method UpdateOrderWithStatus(order: Order, status: Status, now: int)
      modifies this
      ensures rows == Save(old(rows), order.(status := status, modifiedDate := now))
      ensures |rows| == |old(rows)|
      ensures forall i :: 0 <= i < |rows| ==>
        rows[i] == if old(rows)[i].id == order.id then order.(status := status, modifiedDate := now) else old(rows)[i]
    {
      SaveRows(rows, order.(status := status, modifiedDate := now));
      rows := Save(rows, order.(status := status, modifiedDate := now));
    }

    /** The statements for one listed order, given the re-read orders of its auction. */
    method RollbackOrder(orders: seq<Order>, id: int, now: int) returns (emptied: bool)
      requires DistinctIds(orders) && exists o :: o in orders && o.id == id
      modifies this
      ensures orders != [] && rows == Pass(old(rows), orders, id, now)
      ensures emptied <==> |orders| == 1
      ensures |orders| == 1 || orders[|orders| - 1].id != id ==>
        forall o :: o in rows <==> o in old(rows) && o.id != id
      ensures |orders| > 1 && orders[|orders| - 1].id == id ==>
        var p := orders[|orders| - 2];
        forall o :: o in rows <==>
          || (o in old(rows) && o.id != id && o.id != p.id)
          || (o == Order(p.id, p.auctionId, p.blockHash, Active, now) && exists q :: q in old(rows) && q.id == p.id)
    {
      hide Save, Delete;
      if |orders| == 1 {
        DeleteOrder(orders[0].id);
        return true;
      }
      var indexOf := IndexOfId(orders, id);
      IndexIsLast(orders, id);
      if indexOf == |orders| - 1 {
        DeleteOrder(orders[indexOf].id);
        UpdateOrderWithStatus(orders[indexOf - 1], Active, now);
      } else {
        DeleteOrder(orders[indexOf].id);
      }
      emptied := false;
    }

    /** `order` is the listing the database returned and `done` how much of it
        was worked through: all of it, or up to the first order that emptied its
        auction. The table is the one-pass rollback of exactly those orders. */
    method RollbackOrdersByHash(blockHash: string, now: int) returns (ghost order: seq<Order>, ghost done: nat)
      requires DistinctIds(rows)
      modifies this
      ensures Executed(old(rows), blockHash, order, done)
      ensures rows == Outcome(old(rows), order, done, now)
      ensures var gone := Ids(order[..done]);
        RolledBack(old(rows), Filter(old(rows), Survives(gone)), gone, rows, now)
    {
      hide Filter, DistinctIds, Lists, Outcome, Running, Executed, Pass, RolledBack, LastLeft, Ids, Survives;
      var ordersByHash := GetOrdersByBlockHash(blockHash);
      ghost var before := rows;
      order, done := ordersByHash, 0;
      NothingDone(before, blockHash, order, now);
      for i := 0 to |ordersByHash|
        invariant done == i && order == ordersByHash
        invariant Running(before, blockHash, order, i) && rows == Outcome(before, order, i, now)
      {
        var b := ordersByHash[i];
        var orders := GetOrdersForAuction(b.auctionId);
        NextListed(before, blockHash, order, i, now, orders);
        var emptied := RollbackOrder(orders, b.id, now);
        done := i + 1;
        if emptied {
          OutcomeFields(before, order, done, now);
          return;
        }
      }
      OutcomeFields(before, order, done, now);
      AllDone(before, blockHash, order);
    }
  }

  lemma OutcomeFields(rows: seq<Order>, order: seq<Order>, done: nat, now: int)
    requires DistinctIds(rows) && done <= |order|
    ensures var gone := Ids(order[..done]);
      RolledBack(rows, Filter(rows, Survives(gone)), gone, Outcome(rows, order, done, now), now)
  {
    hide RolledBack, Rolled;
    RolledFields(rows, Ids(order[..done]), now);
  }

  lemma NothingDone(rows: seq<Order>, blockHash: string, order: seq<Order>, now: int)
    requires Lists(rows, blockHash, order)
    ensures Running(rows, blockHash, order, 0) && Outcome(rows, order, 0, now) == rows
  {
    NothingRolled(rows, now);
    assert Ids(order[..0]) == {};
  }

  lemma AllDone(rows: seq<Order>, blockHash: string, order: seq<Order>)
    requires Running(rows, blockHash, order, |order|)
    ensures Executed(rows, blockHash, order, |order|)
  {
  }

  lemma {:induction false} NothingRolled(rows: seq<Order>, now: int)
    ensures Rolled(rows, {}, now) == rows
  {
    if rows != [] {
      NothingRolled(rows[1..], now);
    }
  }

  /** What a pass finds when it reaches the listed order `i`, and what it leaves. */
  lemma NextListed(rows: seq<Order>, blockHash: string, order: seq<Order>, i: nat, now: int, os: seq<Order>)
    requires DistinctIds(rows) && Running(rows, blockHash, order, i) && i < |order|
    requires os == Filter(Outcome(rows, order, i, now), OfAuction(order[i].auctionId))
    ensures DistinctIds(os) && exists o :: o in os && o.id == order[i].id
    ensures os != [] && Pass(Outcome(rows, order, i, now), os, order[i].id, now) == Outcome(rows, order, i + 1, now)
    ensures if |os| == 1 then Executed(rows, blockHash, order, i + 1) else Running(rows, blockHash, order, i + 1)
  {
    hide DistinctIds, Filter, Rolled, Pass, Lists;
    var b, gone := order[i], Ids(order[..i]);
    NextIds(rows, blockHash, order, i);
    PassIsRolled(rows, b, gone, now);
    OneLeftIff(rows, b, gone, now);
    RereadDistinct(rows, gone, now, b.auctionId);
    RereadRows(rows, gone, now, b.auctionId);
    assert os == Reread(rows, gone, now, b.auctionId);
    NextExhausts(rows, order, i);
  }

  lemma NextIds(rows: seq<Order>, blockHash: string, order: seq<Order>, i: nat)
    requires DistinctIds(rows) && Lists(rows, blockHash, order) && i < |order|
    ensures order[i] in rows && order[i].id !in Ids(order[..i])
    ensures Ids(order[..i + 1]) == Ids(order[..i]) + {order[i].id}
  {
    ListsRows(rows, blockHash, order);
    hide Lists;
    assert order[i] in order;
    assert order[..i + 1] == order[..i] + [order[i]];
  }

  lemma NextExhausts(rows: seq<Order>, order: seq<Order>, i: nat)
    requires i < |order|
    ensures Exhausts(rows, order[..i + 1]) <==>
      forall o :: o in rows && o.auctionId == order[i].auctionId ==> o.id in Ids(order[..i + 1])
  {
    hide Ids;
    assert order[..i + 1][i] == order[i];
  }
}
