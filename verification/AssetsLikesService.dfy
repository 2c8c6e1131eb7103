/** The likes of an asset: rows in the database, and a count per asset kept in a
    cache whose entries may expire at any time between two service calls. */
module AssetsLikes {
  import opened Sequences

  /** One asset: the number of like rows, and the cached count if there is one. */
  datatype Slot = Slot(rows: nat, cached: Option<int>)

  /** `getOrSet`: a missing count is read from the database. */
  function Loaded(s: Slot): Slot {
    if s.cached.Some? then s else s.(cached := Some(s.rows))
  }

  function Incremented(s: Slot): Slot {
    Loaded(s).(cached := Some(Loaded(s).cached.value + 1))
  }

  function Decremented(s: Slot): Slot {
    if Loaded(s).cached.value > 0 then Loaded(s).(cached := Some(Loaded(s).cached.value - 1)) else Loaded(s)
  }

  function Expired(s: Slot): Slot {
    s.(cached := None)
  }

  /** A like by somebody who had not liked the asset: the count goes up first, then
      the row is saved; a failing save takes the count back. The entry may expire
      between the two. */
  function AfterNewLike(s: Slot, saveFails: bool, expiresBeforeSave: bool): Slot {
    var counted := if expiresBeforeSave then Expired(Incremented(s)) else Incremented(s);
    if saveFails then Decremented(counted) else counted.(rows := s.rows + 1)
  }

  /** Removing an existing like: first the row, then the count. */
  function AfterUnlike(s: Slot): Slot
    requires s.rows > 0
  {
    Decremented(s.(rows := s.rows - 1))
  }

  datatype Op = NewLike(saveFails: bool, expiresBeforeSave: bool) | Unlike | Expiry

  /** An unlike without a row to delete does nothing. */
  function Apply(s: Slot, op: Op): Slot {
    match op
    case NewLike(saveFails, expiresBeforeSave) => AfterNewLike(s, saveFails, expiresBeforeSave)
    case Unlike => if s.rows > 0 then AfterUnlike(s) else s
    case Expiry => Expired(s)
  }

  function Run(s: Slot, ops: seq<Op>): Slot
    decreases ops
  {
    if ops == [] then s else Run(Apply(s, ops[0]), ops[1..])
  }

  predicate WithinOne(s: Slot) {
    s.cached.Some? ==> 0 <= s.cached.value && s.rows - 1 <= s.cached.value <= s.rows
  }

  predicate Exact(s: Slot) {
    s.cached.Some? ==> s.cached.value == s.rows
  }

  /** Over every run a cached count is never negative, never too high, and too low
      by one at most. */
  lemma {:induction false} CountWithinOne(s: Slot, ops: seq<Op>)
    requires WithinOne(s)
    ensures WithinOne(Run(s, ops))
    decreases ops
  {
    if ops != [] {
      CountWithinOne(Apply(s, ops[0]), ops[1..]);
    }
  }

  /** The operations that make an exact count wrong: an unlike that reloads a
      missing count after the row is gone and then still subtracts one, and a
      failed like whose count expired before it was taken back. */
  predicate Drifts(s: Slot, op: Op) {
    match op
    case NewLike(saveFails, expiresBeforeSave) => saveFails && expiresBeforeSave && s.rows >= 1
    case Unlike => s.cached.None? && s.rows >= 2
    case Expiry => false
  }

  ghost predicate ExactThroughout(s: Slot, ops: seq<Op>)
    decreases ops
  {
    Exact(s) && (ops == [] || ExactThroughout(Apply(s, ops[0]), ops[1..]))
  }

  ghost predicate NeverDrifts(s: Slot, ops: seq<Op>)
    decreases ops
  {
    ops == [] || (!Drifts(s, ops[0]) && NeverDrifts(Apply(s, ops[0]), ops[1..]))
  }

  /** Along a run that starts exact, the count stays exact exactly when no drifting
      operation happens. */
  lemma {:induction false} ExactThroughoutIff(s: Slot, ops: seq<Op>)
    requires Exact(s)
    ensures ExactThroughout(s, ops) <==> NeverDrifts(s, ops)
    decreases ops
  {
    if ops != [] {
      var next := Apply(s, ops[0]);
      assert Exact(next) <==> !Drifts(s, ops[0]);
      if Exact(next) {
        ExactThroughoutIff(next, ops[1..]);
      }
    }
  }

  /** Without expiry, a count that is in the cache to begin with stays exact. */
  lemma {:induction false} WarmCountStaysExact(s: Slot, ops: seq<Op>)
    requires s.cached == Some(s.rows)
    requires forall op :: op in ops ==> op.Unlike? || (op.NewLike? && !op.expiresBeforeSave)
    ensures Run(s, ops).cached == Some(Run(s, ops).rows)
    decreases ops
  {
    if ops != [] {
      assert ops[0] in ops;
      WarmCountStaysExact(Apply(s, ops[0]), ops[1..]);
    }
  }

  /** A wrong count heals with the next expiry, unless an unlike reloads it. */
  lemma ReloadHeals(s: Slot, saveFails: bool)
    ensures Exact(Loaded(Expired(s))) && Exact(AfterNewLike(Expired(s), saveFails, false))
    ensures s.rows > 0 ==> (Exact(AfterUnlike(Expired(s))) <==> s.rows == 1)
  {
  }

  // ----- The service -----

  datatype Like = Like(identifier: string, address: string)

  class AssetsLikesService {
    var likes: set<Like>
    var counts: map<string, int>

    constructor ()
      ensures likes == {} && counts == map[]
    {
      likes, counts := {}, map[];
    }

    function Rows(identifier: string): set<Like>
      reads this
    {
      set like | like in likes && like.identifier == identifier
    }

    function SlotOf(identifier: string): Slot
      reads this
    {
      Slot(|Rows(identifier)|, if identifier in counts then Some(counts[identifier]) else None)
    }

    method LoadLikesCount(identifier: string) returns (count: int)
      modifies this`counts
      ensures SlotOf(identifier) == Loaded(old(SlotOf(identifier))) && SlotOf(identifier).cached == Some(count)
      ensures forall other :: other != identifier ==> SlotOf(other) == old(SlotOf(other))
    {
      if identifier !in counts {
        counts := counts[identifier := |Rows(identifier)|];
      }
      count := counts[identifier];
      assert forall other :: Rows(other) == old(Rows(other));
    }

    method IncrementLikesCount(identifier: string)
      modifies this`counts
      ensures SlotOf(identifier) == Incremented(old(SlotOf(identifier)))
      ensures forall other :: other != identifier ==> SlotOf(other) == old(SlotOf(other))
    {
      var likes' := LoadLikesCount(identifier);
      counts := counts[identifier := counts[identifier] + 1];
      assert forall other :: Rows(other) == old(Rows(other));
    }

    method DecrementLikesCount(identifier: string)
      modifies this`counts
      ensures SlotOf(identifier) == Decremented(old(SlotOf(identifier)))
      ensures forall other :: other != identifier ==> SlotOf(other) == old(SlotOf(other))
    {
      var followersCount := LoadLikesCount(identifier);
      if followersCount > 0 {
        counts := counts[identifier := counts[identifier] - 1];
      }
      assert forall other :: Rows(other) == old(Rows(other));
    }

    method Expire(identifier: string)
      modifies this`counts
      ensures SlotOf(identifier) == Expired(old(SlotOf(identifier)))
      ensures forall other :: other != identifier ==> SlotOf(other) == old(SlotOf(other))
    {
      counts := counts - {identifier};
      assert forall other :: Rows(other) == old(Rows(other));
    }

    /** `saveFails` and `expiresBeforeSave` are what the environment does. */
    method AddLike(identifier: string, address: string, saveFails: bool, expiresBeforeSave: bool) returns (liked: bool)
      modifies this
      ensures var like := Like(identifier, address);
        if like in old(likes) then liked && likes == old(likes) && SlotOf(identifier) == old(SlotOf(identifier))
        else
          && liked == !saveFails
          && likes == (if saveFails then old(likes) else old(likes) + {like})
          && SlotOf(identifier) == AfterNewLike(old(SlotOf(identifier)), saveFails, expiresBeforeSave)
      ensures forall other :: other != identifier ==> SlotOf(other) == old(SlotOf(other))
    {
      var like := Like(identifier, address);
      if like in likes {
        return true;
      }
      IncrementLikesCount(identifier);
      if expiresBeforeSave {
        Expire(identifier);
      }
      if saveFails {
        DecrementLikesCount(identifier);
        return like in likes;
      }
      likes := likes + {like};
      assert Rows(identifier) == old(Rows(identifier)) + {like};
      assert forall other :: other != identifier ==> Rows(other) == old(Rows(other));
      return true;
    }

    method RemoveLike(identifier: string, address: string)
      modifies this
      ensures likes == old(likes) - {Like(identifier, address)}
      ensures SlotOf(identifier) ==
        if Like(identifier, address) in old(likes) then Apply(old(SlotOf(identifier)),
          Unlike) else old(SlotOf(identifier))
      ensures forall other :: other != identifier ==> SlotOf(other) == old(SlotOf(other))
    {
      var like := Like(identifier, address);
      var affected := if like in likes then 1 else 0;
      likes := likes - {like};
      assert forall other :: other != identifier ==> Rows(other) == old(Rows(other));
      if affected > 0 {
        assert Rows(identifier) == old(Rows(identifier)) - {like} && like in old(Rows(identifier));
        DecrementLikesCount(identifier);
      } else {
        assert likes == old(likes);
      }
    }
  }
}
