/** Votes heard in one round, and the block that has a quorum of them. */
module BftVotes {
  import opened Options
  import opened Bft

  /** The votes of one kind in one round, one for each voter; a vote for no block is `None`. */
  type VoteMap = map<Id, Option<Value>>

  function Count(votes: VoteMap, v: Value): set<Id> { set id | id in votes && votes[id] == Some(v) }

  /** A known block with a quorum. */
  predicate Wins(votes: VoteMap, known: set<Value>, active: set<Id>, v: Value) {
    v in known && |Count(votes, v)| >= Quorum(|active|)
  }

  /** The known block with a quorum, if there is one. */
  ghost function Winner(votes: VoteMap, known: set<Value>, active: set<Id>): (r: Option<Value>)
    ensures r.Some? ==> Wins(votes, known, active, r.value)
    ensures r.None? ==> forall v :: !Wins(votes, known, active, v)
  {
    if v :| Wins(votes, known, active, v) then Some(v) else None
  }

  /** There is only one. */
  lemma OneWinner(votes: VoteMap, known: set<Value>, active: set<Id>, u: Value, v: Value)
    requires votes.Keys <= active && Wins(votes, known, active, u) && Wins(votes, known, active, v)
    ensures u == v
  {
    if u != v {
      var a, b := Count(votes, u), Count(votes, v);
      assert a * b == {};
      SetSizes(a, b);
      SubsetSize(a + b, active);
    }
  }

  lemma WinnerIs(votes: VoteMap, known: set<Value>, active: set<Id>, v: Value)
    requires votes.Keys <= active && Wins(votes, known, active, v)
    ensures Winner(votes, known, active) == Some(v)
  {
    OneWinner(votes, known, active, v, Winner(votes, known, active).value);
  }

  /** The counts of the blocks that are known. */
  predicate Counted(votes: VoteMap, seen: set<Id>, known: set<Value>, counts: map<Value, nat>) {
    && seen <= votes.Keys
    && (forall v :: v in counts ==> v in known && counts[v] == |Count(votes, v) * seen|)
    && (forall id :: id in seen && votes[id].Some? && votes[id].value in known ==> votes[id].value in counts)
  }

  /** Counts the votes for known blocks and looks for a quorum. */
  method QuorumValueIn(votes: VoteMap, known: set<Value>, active: set<Id>) returns (r: Option<Value>)
    requires votes.Keys <= active
    ensures r == Winner(votes, known, active)
  {
    var counts: map<Value, nat> := map[];
    var left := votes.Keys;
    while left != {}
      invariant left <= votes.Keys && Counted(votes, votes.Keys - left, known, counts)
      decreases |left|
    {
      var id :| id in left;
      CountOne(votes, votes.Keys - left, known, counts, id);
      assert votes.Keys - (left - {id}) == votes.Keys - left + {id};
      left := left - {id};
      if votes[id].Some? && votes[id].value in known {
        var v := votes[id].value;
        counts := counts[v := (if v in counts then counts[v] else 0) + 1];
      }
    }
    assert votes.Keys - {} == votes.Keys;
    CountedAll(votes, known, counts);
    r := PickQuorum(votes, known, counts, active);
  }

  function CountedOne(votes: VoteMap, known: set<Value>, counts: map<Value, nat>, id: Id): map<Value, nat>
    requires id in votes
  {
    if votes[id].Some? && votes[id].value in known then
      var v := votes[id].value; counts[v := (if v in counts then counts[v] else 0) + 1]
    else counts
  }

  lemma CountOne(votes: VoteMap, seen: set<Id>, known: set<Value>, counts: map<Value, nat>, id: Id)
    requires Counted(votes, seen, known, counts) && id in votes && id !in seen
    ensures Counted(votes, seen + {id}, known, CountedOne(votes, known, counts, id))
  {
    var more := CountedOne(votes, known, counts, id);
    forall v | v in more ensures v in known && more[v] == |Count(votes, v) * (seen + {id})| {
      if votes[id] == Some(v) {
        assert Count(votes, v) * (seen + {id}) == Count(votes, v) * seen + {id};
        if v !in counts { assert Count(votes, v) * seen == {}; }
      } else {
        assert Count(votes, v) * (seen + {id}) == Count(votes, v) * seen;
      }
    }
  }

  lemma CountedAll(votes: VoteMap, known: set<Value>, counts: map<Value, nat>)
    requires Counted(votes, votes.Keys, known, counts)
    ensures forall v :: v in known ==> |Count(votes, v)| == if v in counts then counts[v] else 0
    ensures counts.Keys <= known
  {
    forall v | v in known ensures |Count(votes, v)| == if v in counts then counts[v] else 0 {
      assert Count(votes, v) * votes.Keys == Count(votes, v);
      if v !in counts { assert Count(votes, v) == {}; }
    }
  }

  method PickQuorum(votes: VoteMap, known: set<Value>, counts: map<Value, nat>, active: set<Id>) returns (r: Option<Value>)
    requires counts.Keys <= known && votes.Keys <= active
    requires forall v :: v in known ==> |Count(votes, v)| == if v in counts then counts[v] else 0
    ensures r == Winner(votes, known, active)
  {
    var left := counts.Keys;
    while left != {}
      invariant left <= counts.Keys && forall v :: v in counts && v !in left ==> counts[v] < Quorum(|active|)
      decreases |left|
    {
      var v :| v in left;
      if counts[v] >= Quorum(|active|) {
        WinnerIs(votes, known, active, v);
        return Some(v);
      }
      left := left - {v};
    }
    r := None;
  }

  /** Votes of `me` alone. */
  predicate OwnOnly(votes: VoteMap, me: Id) { votes.Keys <= {me} }

  /** Votes of others are for known blocks. */
  predicate OthersKnown(votes: VoteMap, me: Id, known: set<Value>) {
    forall id :: id in votes && id != me && votes[id].Some? ==> votes[id].value in known
  }

  /** Among two or more one voter is no quorum. */
  lemma NoLoneWinner(votes: VoteMap, known: set<Value>, active: set<Id>, me: Id, v: Value)
    requires |active| >= 2 && Count(votes, v) <= {me}
    ensures !Wins(votes, known, active, v)
  {
    SubsetSize(Count(votes, v), {me});
  }

  lemma NoOwnWinner(votes: VoteMap, known: set<Value>, active: set<Id>, me: Id)
    requires |active| >= 2 && OwnOnly(votes, me)
    ensures Winner(votes, known, active) == None
  {
    forall v ensures !Wins(votes, known, active, v) {
      assert Count(votes, v) <= votes.Keys;
      NoLoneWinner(votes, known, active, me, v);
    }
  }

  /** A block that was not known has no quorum at once. */
  lemma NoNewWinner(votes: VoteMap, known: set<Value>, active: set<Id>, me: Id, v: Value)
    requires |active| >= 2 && OthersKnown(votes, me, known) && Winner(votes, known, active) == None
    ensures Winner(votes, known + {v}, active) == None
  {
    forall u ensures !Wins(votes, known + {v}, active, u) {
      assert !Wins(votes, known, active, u);
      if u !in known {
        assert Count(votes, u) <= {me};
        NoLoneWinner(votes, known + {v}, active, me, u);
      }
    }
  }
}
