/** A run of four validators, one of them faulty, in which a torn precommit ends in two committed blocks. */
module BftDivergence {
  import opened Options
  import opened Bft
  import opened BftSafety
  import opened BftProposals
  import opened Numeral
  import Rotation

  const X: Value := 1
  const Y: Value := 2

  /** The order in which the validators propose; 3 is faulty. */
  const ROTA: seq<Id> := [1, 2, 3, 4]

  function Active(): set<Id> { {1, 2, 3, 4} }

  /** The first, the second and the third honest validator are 4, 1 and 2. */
  function Of(a: Validator, c: Validator, d: Validator, forged: set<Ballot>): World {
    World(Active(), {3}, map[4 := a, 1 := c, 2 := d], forged)
  }

  function Begin(): World { Of(Fresh(), Fresh(), Fresh(), {}) }

  lemma BeginIsStart()
    ensures IsStart(Begin())
  {
    assert |{1, 2, 3, 4}| == 4 && |{3}| == 1;
  }

  /** The turns come round with the heights. */
  predicate FourthHeight(height: nat) { height % 4 == 0 && height + 4 <= Rotation.TWO64 }

  lemma TurnIs(height: nat, round: nat)
    requires FourthHeight(height) && round < 4
    ensures Rotation.ProposerFor(height, round, ROTA) == round + 1
  {
    Divided(height, 4);
    Quotient(height + round, 4, height / 4, round);
  }

  // ---------- the validators ----------

  function Prevoted(x: Validator, v: Value): Validator {
    x.(phase := Prevoting, prevotes := x.prevotes[x.round := Some(v)])
  }

  function Precommitted(x: Validator, v: Option<Value>): Validator {
    x.(phase := Precommitting, precommits := x.precommits[x.round := v])
  }

  function Locked(x: Validator, v: Value): Validator {
    Precommitted(x.(lock := Some(Mark(v, x.round)), valid := Some(Mark(v, x.round))), Some(v))
  }

  // The first one locks on Y, sees a quorum for X too late, and keeps precommitting Y.
  function A0(): Validator { Locked(Prevoted(Fresh(), Y), Y) }
  function A1(): Validator { Precommitted(Prevoted(EnterRound(A0(), 1), Y), Some(Y)).(valid := Some(Mark(X, 1))) }
  function A2(): Validator { Precommitted(Prevoted(EnterRound(A1(), 2), X), Some(Y)) }
  function A3(): Validator { Locked(Prevoted(EnterRound(A2(), 3), X), X) }

  // The second one sees no quorum before round 2, and then locks on Y.
  function C0(): Validator { Precommitted(Prevoted(Fresh(), Y), None) }
  function C1(): Validator { Precommitted(Prevoted(EnterRound(C0(), 1), X), None) }
  function C2(): Validator { Locked(Prevoted(EnterRound(C1(), 2), Y), Y) }

  // The third one sees no quorum before round 3, and then locks on X.
  function D2(): Validator { Precommitted(Prevoted(EnterRound(C1(), 2), Y), None) }
  function D3(): Validator { Locked(Prevoted(EnterRound(D2(), 3), X), X) }

  // ---------- steps of a run ----------

  /** A run with lawful proposals leads from `w` to `u`. */
  ghost predicate Leads(height: nat, w: World, u: World) {
    exists run: seq<Action> :: CanRun(w, run) && Proposed(height, ROTA, w, run) && After(w, run) == u
  }

  lemma LeadsRefl(height: nat, w: World)
    ensures Leads(height, w, w)
  {
    assert CanRun(w, []) && Proposed(height, ROTA, w, []) && After(w, []) == w;
  }

  lemma {:induction false} RunMore(height: nat, w: World, run: seq<Action>, a: Action)
    requires CanRun(w, run) && Proposed(height, ROTA, w, run)
    requires Enabled(After(w, run), a) && FromProposer(height, ROTA, After(w, run), a)
    ensures CanRun(w, run + [a]) && After(w, run + [a]) == Next(After(w, run), a) && Proposed(height, ROTA, w, run + [a])
    decreases |run|
  {
    if run == [] {
      assert (run + [a])[1..] == [];
      assert CanRun(Next(w, a), []) && After(Next(w, a), []) == Next(w, a) && Proposed(height, ROTA, Next(w, a), []);
    } else {
      RunMore(height, Next(w, run[0]), run[1..], a);
      assert (run + [a])[1..] == run[1..] + [a];
    }
  }

  lemma LeadsNext(height: nat, w: World, u: World, a: Action)
    requires Leads(height, w, u) && Enabled(u, a) && FromProposer(height, ROTA, u, a)
    ensures Leads(height, w, Next(u, a))
  {
    var run: seq<Action> :| CanRun(w, run) && Proposed(height, ROTA, w, run) && After(w, run) == u;
    RunMore(height, w, run, a);
  }

  /** The world with validator `id` replaced. */
  function With(w: World, id: Id, x: Validator): World { w.(nodes := w.nodes[id := x]) }

  lemma Move(height: nat, w: World, u: World, a: Action, y: Validator)
    requires Leads(height, w, u) && Enabled(u, a) && FromProposer(height, ROTA, u, a)
    requires !a.Forge? && Moved(u.nodes[a.id], a) == y
    ensures Leads(height, w, With(u, a.id, y))
  {
    LeadsNext(height, w, u, a);
  }

  /** A validator can be offered `offer` in its round and then prevotes `v`. */
  ghost predicate CanPrevote(height: nat, u: World, id: Id, offer: Value, v: Value) {
    && id in u.nodes && u.nodes[id].phase.Proposing? && u.nodes[id].round !in u.nodes[id].prevotes
    && Preferred(u.nodes[id], Some(offer)) == Some(v) && FromProposer(height, ROTA, u, CastPrevote(id, Some(offer)))
  }

  lemma Prevotes(height: nat, w: World, u: World, id: Id, offer: Value, v: Value)
    requires Leads(height, w, u) && CanPrevote(height, u, id, offer, v)
    ensures Leads(height, w, With(u, id, Prevoted(u.nodes[id], v)))
  {
    Move(height, w, u, CastPrevote(id, Some(offer)), Prevoted(u.nodes[id], v));
  }

  function LockOf(x: Validator): Option<Value> { if x.lock.Some? then Some(x.lock.value.value) else None }

  /** A full turn of a validator that sees no quorum. */
  lemma QuietTurn(height: nat, w: World, u: World, id: Id, offer: Value, v: Value)
    requires Leads(height, w, u) && CanPrevote(height, u, id, offer, v) && u.nodes[id].round !in u.nodes[id].precommits
    ensures Leads(height, w, With(u, id, Precommitted(Prevoted(u.nodes[id], v), LockOf(u.nodes[id]))))
  {
    var x := u.nodes[id];
    Prevotes(height, w, u, id, offer, v);
    var m, y := With(u, id, Prevoted(x, v)), Precommitted(Prevoted(x, v), LockOf(x));
    Move(height, w, m, PrecommitAnyway(id), y);
    assert With(m, id, y) == With(u, id, y);
  }

  lemma ThreeVote(w: World, kind: Kind, round: nat, v: Value, i: Id, j: Id, k: Id)
    requires w.active == Active() && i < j < k
    requires i in Voters(w, kind, round, v) && j in Voters(w, kind, round, v) && k in Voters(w, kind, round, v)
    ensures HasQuorum(w, kind, round, v)
  {
    assert |{1, 2, 3, 4}| == 4 && |{i, j, k}| == 3;
    SubsetSize({i, j, k}, Voters(w, kind, round, v));
  }

  lemma Enter(height: nat, w: World, u: World, id: Id, round: nat)
    requires Leads(height, w, u) && id in u.nodes && u.nodes[id].round < round
    ensures Leads(height, w, With(u, id, EnterRound(u.nodes[id], round)))
  {
    Move(height, w, u, NewRound(id, round), EnterRound(u.nodes[id], round));
  }

  /** A full turn of a validator that sees a quorum and locks. */
  lemma LockingTurn(height: nat, w: World, u: World, id: Id, offer: Value, v: Value, i: Id, j: Id, k: Id)
    requires Leads(height, w, u) && CanPrevote(height, u, id, offer, v) && u.nodes[id].round !in u.nodes[id].precommits
    requires var m := With(u, id, Prevoted(u.nodes[id], v)); var r := u.nodes[id].round;
      && u.active == Active() && i < j < k
      && i in Voters(m, Prevote, r, v) && j in Voters(m, Prevote, r, v) && k in Voters(m, Prevote, r, v)
    ensures Leads(height, w, With(u, id, Locked(Prevoted(u.nodes[id], v), v)))
  {
    var x := u.nodes[id];
    Prevotes(height, w, u, id, offer, v);
    var m, y := With(u, id, Prevoted(x, v)), Locked(Prevoted(x, v), v);
    ThreeVote(m, Prevote, x.round, v, i, j, k);
    Move(height, w, m, LockAndPrecommit(id, v), y);
    assert With(m, id, y) == With(u, id, y);
  }

  lemma Cheat(height: nat, w: World, u: World, b: Ballot)
    requires Leads(height, w, u) && b.voter in u.faulty
    ensures Leads(height, w, u.(forged := u.forged + {b}))
  {
    LeadsNext(height, w, u, Forge(b));
  }

  lemma PlaceFirst(a: Validator, c: Validator, d: Validator, f: set<Ballot>, x: Validator)
    ensures With(Of(a, c, d, f), 4, x) == Of(x, c, d, f)
  {
  }

  lemma PlaceSecond(a: Validator, c: Validator, d: Validator, f: set<Ballot>, x: Validator)
    ensures With(Of(a, c, d, f), 1, x) == Of(a, x, d, f)
  {
  }

  lemma PlaceThird(a: Validator, c: Validator, d: Validator, f: set<Ballot>, x: Validator)
    ensures With(Of(a, c, d, f), 2, x) == Of(a, c, x, f)
  {
  }

  // ---------- the run ----------

  /** The second validator proposes Y. */
  lemma SecondProposes(height: nat)
    requires FourthHeight(height)
    ensures Leads(height, Begin(), Of(Fresh(), C0(), Fresh(), {}))
  {
    var w, f := Begin(), Fresh();
    LeadsRefl(height, w);
    TurnIs(height, 0);
    assert Unheard(w, Y);
    QuietTurn(height, w, w, 1, Y, Y);
    PlaceSecond(f, f, f, {}, C0());
  }

  /** Round 0: Y gets a prevote quorum, which only the first validator sees. */
  lemma RoundZero(height: nat)
    requires FourthHeight(height)
    ensures Leads(height, Begin(), Of(A0(), C0(), C0(), {}))
  {
    SecondProposes(height);
    TurnIs(height, 0);
    var w, f := Begin(), Fresh();
    QuietTurn(height, w, Of(f, C0(), f, {}), 2, Y, Y);
    PlaceThird(f, C0(), f, {}, C0());
    LockingTurn(height, w, Of(f, C0(), C0(), {}), 4, Y, Y, 1, 2, 4);
    PlaceFirst(f, C0(), C0(), {}, A0());
  }

  /** The third validator, which has not locked, proposes X. */
  lemma ThirdProposes(height: nat)
    requires FourthHeight(height)
    ensures Leads(height, Begin(), Of(A0(), C0(), C1(), {}))
  {
    RoundZero(height);
    TurnIs(height, 1);
    var w, e := Begin(), EnterRound(C0(), 1);
    Enter(height, w, Of(A0(), C0(), C0(), {}), 2, 1);
    PlaceThird(A0(), C0(), C0(), {}, e);
    NewBlock(e);
    QuietTurn(height, w, Of(A0(), C0(), e, {}), 2, X, X);
    PlaceThird(A0(), C0(), e, {}, C1());
  }

  lemma NewBlock(e: Validator)
    requires e == EnterRound(C0(), 1)
    ensures Unheard(Of(A0(), C0(), e, {}), X)
  {
  }

  function Forged1(): set<Ballot> { {Ballot(3, Prevote, 1, X)} }

  lemma OthersInRoundOne(height: nat)
    requires FourthHeight(height)
    ensures Leads(height, Begin(), Of(A0(), C1(), C1(), Forged1()))
  {
    ThirdProposes(height);
    TurnIs(height, 1);
    var w, e := Begin(), EnterRound(C0(), 1);
    Enter(height, w, Of(A0(), C0(), C1(), {}), 1, 1);
    PlaceSecond(A0(), C0(), C1(), {}, e);
    QuietTurn(height, w, Of(A0(), e, C1(), {}), 1, X, X);
    PlaceSecond(A0(), e, C1(), {}, C1());
    Cheat(height, w, Of(A0(), C1(), C1(), {}), Ballot(3, Prevote, 1, X));
    assert {} + {Ballot(3, Prevote, 1, X)} == Forged1();
  }

  /** Round 1: X gets a prevote quorum, which only the first validator sees, after precommitting Y. */
  lemma RoundOne(height: nat)
    requires FourthHeight(height)
    ensures Leads(height, Begin(), Of(A1(), C1(), C1(), Forged1()))
  {
    OthersInRoundOne(height);
    TurnIs(height, 1);
    var w, g := Begin(), EnterRound(A0(), 1);
    var h := Precommitted(Prevoted(g, Y), Some(Y));
    Enter(height, w, Of(A0(), C1(), C1(), Forged1()), 4, 1);
    PlaceFirst(A0(), C1(), C1(), Forged1(), g);
    QuietTurn(height, w, Of(g, C1(), C1(), Forged1()), 4, X, Y);
    PlaceFirst(g, C1(), C1(), Forged1(), h);
    SeesXLate(height, w, h);
  }

  lemma SeesXLate(height: nat, w: World, h: Validator)
    requires h == Precommitted(Prevoted(EnterRound(A0(), 1), Y), Some(Y)) && Leads(height, w, Of(h, C1(), C1(), Forged1()))
    ensures Leads(height, w, Of(A1(), C1(), C1(), Forged1()))
  {
    var u := Of(h, C1(), C1(), Forged1());
    ThreeVote(u, Prevote, 1, X, 1, 2, 3);
    Move(height, w, u, LateQuorum(4, X), A1());
    PlaceFirst(h, C1(), C1(), Forged1(), A1());
  }

  function Forged2(): set<Ballot> { Forged1() + {Ballot(3, Prevote, 2, Y)} }

  function Forged3(): set<Ballot> { Forged2() + {Ballot(3, Precommit, 2, Y)} }

  /** The faulty validator proposes Y. */
  lemma ThirdInRoundTwo(height: nat)
    requires FourthHeight(height)
    ensures Leads(height, Begin(), Of(A1(), C1(), D2(), Forged2()))
  {
    RoundOne(height);
    TurnIs(height, 2);
    var w, e := Begin(), EnterRound(C1(), 2);
    Enter(height, w, Of(A1(), C1(), C1(), Forged1()), 2, 2);
    PlaceThird(A1(), C1(), C1(), Forged1(), e);
    QuietTurn(height, w, Of(A1(), C1(), e, Forged1()), 2, Y, Y);
    PlaceThird(A1(), C1(), e, Forged1(), D2());
    Cheat(height, w, Of(A1(), C1(), D2(), Forged1()), Ballot(3, Prevote, 2, Y));
  }

  lemma SecondInRoundTwo(height: nat)
    requires FourthHeight(height)
    ensures Leads(height, Begin(), Of(A1(), C2(), D2(), Forged2()))
  {
    ThirdInRoundTwo(height);
    TurnIs(height, 2);
    var w, e := Begin(), EnterRound(C1(), 2);
    Enter(height, w, Of(A1(), C1(), D2(), Forged2()), 1, 2);
    PlaceSecond(A1(), C1(), D2(), Forged2(), e);
    LockingTurn(height, w, Of(A1(), e, D2(), Forged2()), 1, Y, Y, 1, 2, 3);
    PlaceSecond(A1(), e, D2(), Forged2(), C2());
  }

  /** Round 2: Y gets a prevote quorum, which only the second validator sees; the first one precommits Y though it prevoted X. */
  lemma RoundTwo(height: nat)
    requires FourthHeight(height)
    ensures Leads(height, Begin(), Of(A2(), C2(), D2(), Forged3()))
  {
    SecondInRoundTwo(height);
    TurnIs(height, 2);
    var w, g := Begin(), EnterRound(A1(), 2);
    Enter(height, w, Of(A1(), C2(), D2(), Forged2()), 4, 2);
    PlaceFirst(A1(), C2(), D2(), Forged2(), g);
    QuietTurn(height, w, Of(g, C2(), D2(), Forged2()), 4, Y, X);
    PlaceFirst(g, C2(), D2(), Forged2(), A2());
    Cheat(height, w, Of(A2(), C2(), D2(), Forged2()), Ballot(3, Precommit, 2, Y));
  }

  function Forged4(): set<Ballot> { Forged3() + {Ballot(3, Prevote, 3, X)} }

  function Forged5(): set<Ballot> { Forged4() + {Ballot(3, Precommit, 3, X)} }

  function End(): World { Of(A3(), C2(), D3(), Forged5()) }

  /** The first validator proposes X, its valid block. */
  lemma FirstProposes(height: nat)
    requires FourthHeight(height)
    ensures Leads(height, Begin(), Of(Prevoted(EnterRound(A2(), 3), X), C2(), D2(), Forged4()))
  {
    RoundTwo(height);
    TurnIs(height, 3);
    var w, g := Begin(), EnterRound(A2(), 3);
    Enter(height, w, Of(A2(), C2(), D2(), Forged3()), 4, 3);
    PlaceFirst(A2(), C2(), D2(), Forged3(), g);
    Cheat(height, w, Of(g, C2(), D2(), Forged3()), Ballot(3, Prevote, 3, X));
    Prevotes(height, w, Of(g, C2(), D2(), Forged4()), 4, X, X);
    PlaceFirst(g, C2(), D2(), Forged4(), Prevoted(g, X));
  }

  lemma ThirdLocksX(height: nat)
    requires FourthHeight(height)
    ensures Leads(height, Begin(), Of(Prevoted(EnterRound(A2(), 3), X), C2(), D3(), Forged4()))
  {
    FirstProposes(height);
    TurnIs(height, 3);
    var w, h, e := Begin(), Prevoted(EnterRound(A2(), 3), X), EnterRound(D2(), 3);
    Enter(height, w, Of(h, C2(), D2(), Forged4()), 2, 3);
    PlaceThird(h, C2(), D2(), Forged4(), e);
    LockingTurn(height, w, Of(h, C2(), e, Forged4()), 2, X, X, 2, 3, 4);
    PlaceThird(h, C2(), e, Forged4(), D3());
  }

  /** Round 3: X gets a prevote quorum, and the first and the third validator lock on it. */
  lemma RoundThree(height: nat)
    requires FourthHeight(height)
    ensures Leads(height, Begin(), End())
  {
    ThirdLocksX(height);
    var w, h := Begin(), Prevoted(EnterRound(A2(), 3), X);
    var u := Of(h, C2(), D3(), Forged4());
    ThreeVote(u, Prevote, 3, X, 2, 3, 4);
    Move(height, w, u, LockAndPrecommit(4, X), A3());
    PlaceFirst(h, C2(), D3(), Forged4(), A3());
    Cheat(height, w, Of(A3(), C2(), D3(), Forged4()), Ballot(3, Precommit, 3, X));
  }

  lemma CommitsY()
    ensures HasQuorum(End(), Precommit, 2, Y)
  {
    ThreeVote(End(), Precommit, 2, Y, 1, 3, 4);
  }

  lemma CommitsX()
    ensures HasQuorum(End(), Precommit, 3, X)
  {
    ThreeVote(End(), Precommit, 3, X, 2, 3, 4);
  }

  /** Without the restriction on precommits agreement fails: with lawful proposals two blocks get precommit quorums. */
  lemma Disagreement(height: nat)
    requires FourthHeight(height)
    ensures exists w: World, run: seq<Action> ::
      && IsStart(w) && CanRun(w, run) && Proposed(height, ROTA, w, run)
      && HasQuorum(After(w, run), Precommit, 2, Y) && HasQuorum(After(w, run), Precommit, 3, X)
  {
    BeginIsStart();
    RoundThree(height);
    CommitsX();
    CommitsY();
    var run: seq<Action> :| CanRun(Begin(), run) && Proposed(height, ROTA, Begin(), run) && After(Begin(), run) == End();
  }
}
