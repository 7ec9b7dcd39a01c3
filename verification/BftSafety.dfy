/** What every step of the consensus keeps, and agreement. */
module BftSafety {
  import opened Options
  import opened Bft

  // ---------- the invariant of a validator ----------

  /** The block of the mark had a prevote quorum in its round. */
  predicate Polka(w: World, m: Mark) { HasQuorum(w, Prevote, m.round, m.value) }

  /** Votes are for rounds entered, and the current one is voted in before it is locked on. */
  predicate VotesOk(x: Validator) {
    && (forall r :: r in x.prevotes ==> r <= x.round)
    && (forall r :: r in x.precommits ==> r <= x.round)
    && (!x.phase.Proposing? ==> x.round in x.prevotes)
  }

  /** Lock and valid block had quorums, and the valid one is the newer. */
  predicate MarksOk(w: World, x: Validator) {
    && (x.valid.Some? ==> x.valid.value.round in x.prevotes && Polka(w, x.valid.value))
    && (x.lock.Some? ==> x.lock.value.round in x.prevotes && Polka(w, x.lock.value))
    && (x.lock.Some? ==> x.valid.Some? && x.lock.value.round <= x.valid.value.round)
    && (x.lock.Some? && x.lock.value.round == x.valid.value.round ==> x.lock == x.valid)
  }

  /** What was prevoted in this round is what is valid, unless that is from this round, or from a restart. */
  predicate PrevoteFresh(x: Validator) {
    x.round in x.prevotes && x.valid.Some? ==>
      || x.prevotes[x.round] == Some(x.valid.value.value)
      || x.valid.value.round == x.round
      || x.valid == x.lock
  }

  /** A mark is for the block precommitted in round `s`, or is not older. */
  predicate Follows(m: Option<Mark>, s: nat, v: Value) { m.Some? && (m.value.value == v || m.value.round >= s) }

  /** A precommit binds lock and valid block, and had a prevote of its own or a quorum. */
  predicate Binding(w: World, x: Validator, s: nat)
    requires s in x.precommits
  {
    x.precommits[s].Some? ==>
      var v := x.precommits[s].value;
      && Follows(x.lock, s, v) && Follows(x.valid, s, v)
      && (Voted(x, Prevote, s, v) || HasQuorum(w, Prevote, s, v))
  }

  /** Another block than `v` had a prevote quorum from round `s` on and before round `p`. */
  ghost predicate Overruled(w: World, v: Value, s: nat, p: nat) {
    exists m: Mark :: s <= m.round < p && m.value != v && Polka(w, m)
  }

  /** A validator prevotes another block than it precommitted only after that one was overruled. */
  ghost predicate Steady(w: World, x: Validator, s: nat, p: nat)
    requires s in x.precommits && p in x.prevotes
  {
    s < p && x.precommits[s].Some? && x.prevotes[p].Some? && x.prevotes[p] != x.precommits[s] ==>
      Overruled(w, x.precommits[s].value, s, p)
  }

  ghost predicate NodeOk(w: World, x: Validator) {
    && VotesOk(x) && MarksOk(w, x) && PrevoteFresh(x)
    && (forall s :: s in x.precommits ==> Binding(w, x, s))
    && (forall s, p :: s in x.precommits && p in x.prevotes ==> Steady(w, x, s, p))
  }

  ghost predicate Inv(w: World) { WorldOk(w) && forall id :: id in w.nodes ==> NodeOk(w, w.nodes[id]) }

  // ---------- votes only grow ----------

  /** Every vote of `w` is one of `u`. */
  ghost predicate Grows(w: World, u: World) {
    && u.active == w.active
    && forall kind: Kind, round: nat, v: Value :: Voters(w, kind, round, v) <= Voters(u, kind, round, v)
  }

  lemma QuorumStays(w: World, u: World, round: nat, v: Value)
    requires Grows(w, u) && HasQuorum(w, Prevote, round, v)
    ensures HasQuorum(u, Prevote, round, v)
  {
    SubsetSize(Voters(w, Prevote, round, v), Voters(u, Prevote, round, v));
  }

  lemma OverruledStays(w: World, u: World, v: Value, s: nat, p: nat)
    requires Grows(w, u) && Overruled(w, v, s, p)
    ensures Overruled(u, v, s, p)
  {
    var m: Mark :| s <= m.round < p && m.value != v && Polka(w, m);
    QuorumStays(w, u, m.round, m.value);
    assert Polka(u, m);
  }

  /** A validator that does not move stays in order. */
  lemma NodeStays(w: World, u: World, x: Validator)
    requires Grows(w, u) && NodeOk(w, x)
    ensures NodeOk(u, x)
  {
    if x.valid.Some? { QuorumStays(w, u, x.valid.value.round, x.valid.value.value); }
    if x.lock.Some? { QuorumStays(w, u, x.lock.value.round, x.lock.value.value); }
    forall s | s in x.precommits ensures Binding(u, x, s) {
      assert Binding(w, x, s);
      if x.precommits[s].Some? && HasQuorum(w, Prevote, s, x.precommits[s].value) {
        QuorumStays(w, u, s, x.precommits[s].value);
      }
    }
    forall s, p | s in x.precommits && p in x.prevotes ensures Steady(u, x, s, p) {
      assert Steady(w, x, s, p);
      if s < p && x.precommits[s].Some? && x.prevotes[p].Some? && x.prevotes[p] != x.precommits[s] {
        OverruledStays(w, u, x.precommits[s].value, s, p);
      }
    }
  }

  predicate KeepsVotes(x: Validator, y: Validator) {
    && (forall r :: r in x.prevotes ==> r in y.prevotes && y.prevotes[r] == x.prevotes[r])
    && (forall r :: r in x.precommits ==> r in y.precommits && y.precommits[r] == x.precommits[r])
  }

  lemma MovedKeepsVotes(x: Validator, a: Action)
    requires !a.Forge?
    ensures KeepsVotes(x, Moved(x, a))
  {
  }

  lemma NextGrows(w: World, a: Action)
    requires WorldOk(w) && Enabled(w, a)
    ensures WorldOk(Next(w, a)) && Grows(w, Next(w, a))
  {
    var u := Next(w, a);
    if !a.Forge? {
      MovedKeepsVotes(w.nodes[a.id], a);
      assert u.nodes.Keys == w.nodes.Keys;
    }
    forall kind: Kind, round: nat, v: Value ensures Voters(w, kind, round, v) <= Voters(u, kind, round, v) {
      forall id | id in Voters(w, kind, round, v) ensures id in Voters(u, kind, round, v) { }
    }
  }

  // ---------- every step keeps it ----------

  lemma RoundKeeps(w: World, x: Validator, round: nat)
    requires NodeOk(w, x) && round > x.round
    ensures NodeOk(w, EnterRound(x, round))
  {
    var y := EnterRound(x, round);
    forall s | s in y.precommits ensures Binding(w, y, s) { assert Binding(w, x, s); }
    forall s, p | s in y.precommits && p in y.prevotes ensures Steady(w, y, s, p) { assert Steady(w, x, s, p); }
  }

  /** The block preferred is the valid one, as long as there is one. */
  lemma PreferredIsValid(w: World, x: Validator, proposal: Option<Value>)
    requires MarksOk(w, x) && x.valid.Some?
    ensures Preferred(x, proposal) == Some(x.valid.value.value)
  {
  }

  lemma PrevoteKeeps(w: World, x: Validator, proposal: Option<Value>)
    requires NodeOk(w, x) && x.phase.Proposing?
    ensures NodeOk(w, EnterPrevote(x, proposal))
  {
    var y := EnterPrevote(x, proposal);
    if x.valid.Some? { PreferredIsValid(w, x, proposal); }
    forall s | s in y.precommits ensures Binding(w, y, s) { assert Binding(w, x, s); }
    forall s, p | s in y.precommits && p in y.prevotes ensures Steady(w, y, s, p) {
      assert Binding(w, x, s);
      if p in x.prevotes {
        assert Steady(w, x, s, p);
      } else if s < p && y.precommits[s].Some? && y.prevotes[p].Some? && y.prevotes[p] != y.precommits[s] {
        assert x.valid.value.round in x.prevotes;
        assert s <= x.valid.value.round < p && Polka(w, x.valid.value);
      }
    }
  }

  lemma LockKeeps(w: World, x: Validator, v: Value)
    requires NodeOk(w, x) && x.phase.Prevoting? && HasQuorum(w, Prevote, x.round, v)
    ensures NodeOk(w, EnterPrecommitOn(x, v))
  {
    var y := EnterPrecommitOn(x, v);
    forall s | s in y.precommits ensures Binding(w, y, s) {
      if s in x.precommits { assert Binding(w, x, s); }
    }
    forall s, p | s in y.precommits && p in y.prevotes ensures Steady(w, y, s, p) {
      if s in x.precommits { assert Steady(w, x, s, p); }
    }
  }

  lemma PrecommitKeeps(w: World, x: Validator)
    requires NodeOk(w, x) && x.phase.Prevoting?
    requires x.round !in x.precommits && x.lock.Some? && x.lock.value.round < x.round ==>
      x.prevotes[x.round] == Some(x.lock.value.value)
    ensures NodeOk(w, EnterPrecommit(x))
  {
    var y := EnterPrecommit(x);
    forall s | s in y.precommits ensures Binding(w, y, s) {
      if s in x.precommits { assert Binding(w, x, s); }
    }
    forall s, p | s in y.precommits && p in y.prevotes ensures Steady(w, y, s, p) {
      if s in x.precommits { assert Steady(w, x, s, p); }
    }
  }

  lemma NilKeeps(w: World, x: Validator)
    requires NodeOk(w, x) && x.phase.Prevoting?
    ensures NodeOk(w, EnterPrecommitNil(x))
  {
    var y := EnterPrecommitNil(x);
    forall s | s in y.precommits ensures Binding(w, y, s) {
      if s in x.precommits { assert Binding(w, x, s); }
    }
    forall s, p | s in y.precommits && p in y.prevotes ensures Steady(w, y, s, p) {
      if s in x.precommits { assert Steady(w, x, s, p); }
    }
  }

  lemma LateKeeps(w: World, x: Validator, v: Value)
    requires NodeOk(w, x) && x.phase.Precommitting? && HasQuorum(w, Prevote, x.round, v)
    ensures NodeOk(w, SeeQuorum(x, v))
  {
    var y := SeeQuorum(x, v);
    forall s | s in y.precommits ensures Binding(w, y, s) { assert Binding(w, x, s); }
    forall s, p | s in y.precommits && p in y.prevotes ensures Steady(w, y, s, p) { assert Steady(w, x, s, p); }
  }

  lemma RestartKeeps(w: World, x: Validator, round: nat)
    requires NodeOk(w, x) && Resumes(x, round)
    ensures NodeOk(w, Restarted(x, round))
  {
    var y := Restarted(x, round);
    forall s | s in y.precommits ensures Binding(w, y, s) { assert Binding(w, x, s); }
    forall s, p | s in y.precommits && p in y.prevotes ensures Steady(w, y, s, p) { assert Steady(w, x, s, p); }
  }

  /** Up to the lock a restart in the middle of precommitting is like precommitting. */
  lemma LockRestartKeeps(w: World, x: Validator, v: Value, round: nat)
    requires NodeOk(w, x) && x.phase.Prevoting? && HasQuorum(w, Prevote, x.round, v)
    requires Resumes(x.(lock := Some(Mark(v, x.round))), round)
    ensures NodeOk(w, Restarted(x.(lock := Some(Mark(v, x.round))), round))
  {
    var y := Restarted(x.(lock := Some(Mark(v, x.round))), round);
    forall s | s in y.precommits ensures Binding(w, y, s) { assert Binding(w, x, s); }
    forall s, p | s in y.precommits && p in y.prevotes ensures Steady(w, y, s, p) { assert Steady(w, x, s, p); }
  }

  lemma MovedOk(w: World, a: Action)
    requires Inv(w) && Enabled(w, a) && !a.Forge? && !Torn(w, a)
    ensures NodeOk(w, Moved(w.nodes[a.id], a))
  {
    var x := w.nodes[a.id];
    match a
    case NewRound(_, round) => RoundKeeps(w, x, round);
    case CastPrevote(_, proposal) => PrevoteKeeps(w, x, proposal);
    case LockAndPrecommit(_, v) => LockKeeps(w, x, v);
    case PrecommitAnyway(_) => PrecommitKeeps(w, x);
    case PrecommitSafely(_) => if Tears(x) { NilKeeps(w, x); } else { PrecommitKeeps(w, x); }
    case PrecommitNil(_) => NilKeeps(w, x);
    case LateQuorum(_, v) => LateKeeps(w, x, v);
    case Restart(_, round) => RestartKeeps(w, x, round);
    case LockAndRestart(_, v, round) => LockRestartKeeps(w, x, v, round);
  }

  lemma NextKeeps(w: World, a: Action)
    requires Inv(w) && Enabled(w, a) && !Torn(w, a)
    ensures Inv(Next(w, a))
  {
    var u := Next(w, a);
    NextGrows(w, a);
    forall id | id in u.nodes ensures NodeOk(u, u.nodes[id]) {
      if !a.Forge? && id == a.id {
        MovedOk(w, a);
        NodeStays(w, u, u.nodes[id]);
      } else {
        NodeStays(w, u, w.nodes[id]);
      }
    }
  }

  // ---------- agreement ----------

  /** After a precommit quorum no other block has a prevote quorum any more. */
  lemma {:induction false} NoOtherPolka(w: World, s: nat, v: Value, m: Mark)
    requires Inv(w) && HasQuorum(w, Precommit, s, v) && m.round >= s && Polka(w, m)
    ensures m.value == v
    decreases m.round
  {
    if m.value != v {
      var id := QuorumsMeet(w, Voters(w, Precommit, s, v), Voters(w, Prevote, m.round, m.value));
      var x := w.nodes[id];
      HonestVoted(w, id, Precommit, s, v);
      HonestVoted(w, id, Prevote, m.round, m.value);
      assert Binding(w, x, s);
      if m.round == s {
        OnePerRound(w, Prevote, s, v, m.value);
      } else {
        assert Steady(w, x, s, m.round);
        var k: Mark :| s <= k.round < m.round && k.value != v && Polka(w, k);
        NoOtherPolka(w, s, v, k);
      }
    }
  }

  lemma OrderedAgreement(w: World, s: nat, v: Value, r: nat, u: Value)
    requires Inv(w) && s <= r && HasQuorum(w, Precommit, s, v) && HasQuorum(w, Precommit, r, u)
    ensures u == v
  {
    if s == r {
      OnePerRound(w, Precommit, s, u, v);
    } else {
      var id := QuorumsMeet(w, Voters(w, Precommit, s, v), Voters(w, Precommit, r, u));
      var x := w.nodes[id];
      HonestVoted(w, id, Precommit, s, v);
      HonestVoted(w, id, Precommit, r, u);
      assert Binding(w, x, r);
      if HasQuorum(w, Prevote, r, u) {
        NoOtherPolka(w, s, v, Mark(u, r));
      } else if u != v {
        assert Steady(w, x, s, r);
        var k: Mark :| s <= k.round < r && k.value != v && Polka(w, k);
        NoOtherPolka(w, s, v, k);
      }
    }
  }

  // ---------- runs ----------

  predicate IsStart(w: World) { WorldOk(w) && w.forged == {} && forall id :: id in w.nodes ==> w.nodes[id] == Fresh() }

  /** The actions can be taken one after another. */
  predicate CanRun(w: World, run: seq<Action>)
    decreases |run|
  {
    run == [] || (Enabled(w, run[0]) && CanRun(Next(w, run[0]), run[1..]))
  }

  function After(w: World, run: seq<Action>): World
    requires CanRun(w, run)
    decreases |run|
  {
    if run == [] then w else After(Next(w, run[0]), run[1..])
  }

  /** No honest validator precommits its lock again in a round in which it prevoted something else. */
  predicate NeverTorn(w: World, run: seq<Action>)
    requires CanRun(w, run)
    decreases |run|
  {
    run == [] || (!Torn(w, run[0]) && NeverTorn(Next(w, run[0]), run[1..]))
  }

  lemma StartOk(w: World)
    requires IsStart(w)
    ensures Inv(w)
  {
  }

  lemma {:induction false} RunKeeps(w: World, run: seq<Action>)
    requires Inv(w) && CanRun(w, run) && NeverTorn(w, run)
    ensures Inv(After(w, run))
    decreases |run|
  {
    if run != [] {
      NextKeeps(w, run[0]);
      RunKeeps(Next(w, run[0]), run[1..]);
    }
  }

  /** Two blocks that both had a precommit quorum at some time are the same. */
  lemma Agreement(w: World, run: seq<Action>, s: nat, v: Value, r: nat, u: Value)
    requires IsStart(w) && CanRun(w, run) && NeverTorn(w, run)
    requires HasQuorum(After(w, run), Precommit, s, v) && HasQuorum(After(w, run), Precommit, r, u)
    ensures u == v
  {
    StartOk(w);
    RunKeeps(w, run);
    if s <= r { OrderedAgreement(After(w, run), s, v, r, u); } else { OrderedAgreement(After(w, run), r, u, s, v); }
  }

  // ---------- the corrected rule ----------

  /** Without a quorum every validator precommits by the corrected rule, or nothing. */
  predicate Corrected(run: seq<Action>) { forall i :: 0 <= i < |run| ==> !run[i].PrecommitAnyway? }

  lemma {:induction false} CorrectedNeverTorn(w: World, run: seq<Action>)
    requires CanRun(w, run) && Corrected(run)
    ensures NeverTorn(w, run)
    decreases |run|
  {
    if run != [] {
      assert !run[0].PrecommitAnyway?;
      CorrectedNeverTorn(Next(w, run[0]), run[1..]);
    }
  }

  /** With the corrected rule there is agreement in every run. */
  lemma CorrectedAgreement(w: World, run: seq<Action>, s: nat, v: Value, r: nat, u: Value)
    requires IsStart(w) && CanRun(w, run) && Corrected(run)
    requires HasQuorum(After(w, run), Precommit, s, v) && HasQuorum(After(w, run), Precommit, r, u)
    ensures u == v
  {
    CorrectedNeverTorn(w, run);
    Agreement(w, run, s, v, r, u);
  }

  /** The corrected rule is the old one wherever that is not torn. */
  lemma CorrectionOnlyWhereTorn(w: World, id: Id)
    requires Enabled(w, PrecommitAnyway(id))
    ensures Next(w, PrecommitSafely(id)) == Next(w, PrecommitAnyway(id)) <==> !Torn(w, PrecommitAnyway(id))
  {
    var x := w.nodes[id];
    var y, z := EnterPrecommit(x), EnterPrecommitSafely(x);
    if Torn(w, PrecommitAnyway(id)) {
      assert y.precommits[x.round] != z.precommits[x.round];
      assert Next(w, PrecommitSafely(id)).nodes[id] != Next(w, PrecommitAnyway(id)).nodes[id];
    } else {
      assert y == z;
    }
  }
}
