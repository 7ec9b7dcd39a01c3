/** One height of the consensus: rounds of proposing, prevoting and precommitting among validators of which some may be faulty. */
module Bft {
  import opened Options

  type Id = nat
  type Value = nat

  // ---------- a validator ----------

  /** A block that had a prevote quorum in a round. */
  datatype Mark = Mark(value: Value, round: nat)

  datatype Phase = Proposing | Prevoting | Precommitting

  /** What a validator keeps at one height; a vote for no block is `None`. */
  datatype Validator = Validator(
    round: nat,
    phase: Phase,
    lock: Option<Mark>,
    valid: Option<Mark>,
    prevotes: map<nat, Option<Value>>,
    precommits: map<nat, Option<Value>>)

  function Fresh(): Validator { Validator(0, Proposing, None, None, map[], map[]) }

  /** A vote is signed only once for a round. */
  function Signed(votes: map<nat, Option<Value>>, round: nat, v: Option<Value>): map<nat, Option<Value>> {
    if round in votes then votes else votes[round := v]
  }

  /** The block to prevote: the lock unless a newer one is valid, else what is proposed. */
  function Preferred(x: Validator, proposal: Option<Value>): Option<Value> {
    if x.lock.Some? then
      if x.valid.Some? && x.valid.value.round > x.lock.value.round then Some(x.valid.value.value)
      else Some(x.lock.value.value)
    else if x.valid.Some? then Some(x.valid.value.value)
    else proposal
  }

  function EnterRound(x: Validator, round: nat): Validator { x.(round := round, phase := Proposing) }

  function EnterPrevote(x: Validator, proposal: Option<Value>): Validator {
    x.(phase := Prevoting, prevotes := Signed(x.prevotes, x.round, Preferred(x, proposal)))
  }

  /** With a prevote quorum the validator locks on its block and precommits it. */
  function EnterPrecommitOn(x: Validator, v: Value): Validator {
    var mark := Mark(v, x.round);
    x.(phase := Precommitting, valid := Some(mark), lock := Some(mark), precommits := Signed(x.precommits, x.round, Some(v)))
  }

  /** Without one it precommits its lock again, if it has one. */
  function EnterPrecommit(x: Validator): Validator {
    var v := if x.lock.Some? then Some(x.lock.value.value) else None;
    x.(phase := Precommitting, precommits := Signed(x.precommits, x.round, v))
  }

  /** The lock is not what was prevoted in this round, nor from this round. */
  predicate Tears(x: Validator) {
    && x.lock.Some? && x.lock.value.round < x.round
    && !(x.round in x.prevotes && x.prevotes[x.round] == Some(x.lock.value.value))
  }

  function EnterPrecommitNil(x: Validator): Validator {
    x.(phase := Precommitting, precommits := Signed(x.precommits, x.round, None))
  }

  /** The corrected rule: a lock that was not prevoted is not precommitted again. */
  function EnterPrecommitSafely(x: Validator): Validator {
    if Tears(x) then EnterPrecommitNil(x) else EnterPrecommit(x)
  }

  /** A prevote quorum seen after precommitting is only remembered. */
  function SeeQuorum(x: Validator, v: Value): Validator {
    if x.valid.None? || x.valid.value.round < x.round then x.(valid := Some(Mark(v, x.round))) else x
  }

  /** The round to resume at: the last one with a vote or a lock. */
  predicate Resumes(x: Validator, round: nat) {
    && (forall r :: r in x.prevotes ==> r <= round)
    && (forall r :: r in x.precommits ==> r <= round)
    && (x.lock.Some? ==> x.lock.value.round <= round)
    && (round == 0 || round in x.prevotes || round in x.precommits || (x.lock.Some? && x.lock.value.round == round))
  }

  /** After a restart votes and lock are read back, and the lock is all that is valid. */
  function Restarted(x: Validator, round: nat): Validator {
    x.(round := round, phase := Proposing, valid := x.lock)
  }

  // ---------- all validators ----------

  datatype Kind = Prevote | Precommit

  /** A vote of a faulty validator, which may cast any. */
  datatype Ballot = Ballot(voter: Id, kind: Kind, round: nat, value: Value)

  datatype World = World(active: set<Id>, faulty: set<Id>, nodes: map<Id, Validator>, forged: set<Ballot>)

  function Quorum(n: nat): nat { n * 2 / 3 + 1 }

  function Tolerated(n: nat): nat { if n == 0 then 0 else (n - 1) / 3 }

  predicate WorldOk(w: World) {
    && w.faulty <= w.active && |w.faulty| <= Tolerated(|w.active|)
    && w.nodes.Keys == w.active - w.faulty
    && forall b :: b in w.forged ==> b.voter in w.faulty
  }

  predicate Voted(x: Validator, kind: Kind, round: nat, v: Value) {
    if kind.Prevote? then round in x.prevotes && x.prevotes[round] == Some(v)
    else round in x.precommits && x.precommits[round] == Some(v)
  }

  function Voters(w: World, kind: Kind, round: nat, v: Value): set<Id> {
    set id | id in w.active && ((id in w.nodes && Voted(w.nodes[id], kind, round, v)) || Ballot(id, kind, round, v) in w.forged)
  }

  predicate HasQuorum(w: World, kind: Kind, round: nat, v: Value) {
    |Voters(w, kind, round, v)| >= Quorum(|w.active|)
  }

  // ---------- steps ----------

  datatype Action =
    | NewRound(id: Id, round: nat)
    | CastPrevote(id: Id, proposal: Option<Value>)
    | LockAndPrecommit(id: Id, value: Value)
    | PrecommitAnyway(id: Id)
    | PrecommitSafely(id: Id)
    | PrecommitNil(id: Id)
    | LateQuorum(id: Id, value: Value)
    | Restart(id: Id, round: nat)
    | LockAndRestart(id: Id, value: Value, round: nat)
    | Forge(ballot: Ballot)

  predicate Enabled(w: World, a: Action) {
    if a.Forge? then a.ballot.voter in w.faulty
    else
      a.id in w.nodes &&
      var x := w.nodes[a.id];
      match a
      case NewRound(_, round) => round > x.round
      case CastPrevote(_, _) => x.phase.Proposing?
      case LockAndPrecommit(_, v) => x.phase.Prevoting? && HasQuorum(w, Prevote, x.round, v)
      case PrecommitAnyway(_) => x.phase.Prevoting?
      case PrecommitSafely(_) => x.phase.Prevoting?
      case PrecommitNil(_) => x.phase.Prevoting?
      case LateQuorum(_, v) => x.phase.Precommitting? && HasQuorum(w, Prevote, x.round, v)
      case Restart(_, round) => Resumes(x, round)
      case LockAndRestart(_, v, round) =>
        && x.phase.Prevoting? && HasQuorum(w, Prevote, x.round, v)
        && Resumes(x.(lock := Some(Mark(v, x.round))), round)
  }

  function Moved(x: Validator, a: Action): Validator
    requires !a.Forge?
  {
    match a
    case NewRound(_, round) => EnterRound(x, round)
    case CastPrevote(_, proposal) => EnterPrevote(x, proposal)
    case LockAndPrecommit(_, v) => EnterPrecommitOn(x, v)
    case PrecommitAnyway(_) => EnterPrecommit(x)
    case PrecommitSafely(_) => EnterPrecommitSafely(x)
    case PrecommitNil(_) => EnterPrecommitNil(x)
    case LateQuorum(_, v) => SeeQuorum(x, v)
    case Restart(_, round) => Restarted(x, round)
    case LockAndRestart(_, v, round) => Restarted(x.(lock := Some(Mark(v, x.round))), round)
  }

  function Next(w: World, a: Action): World
    requires Enabled(w, a)
  {
    if a.Forge? then w.(forged := w.forged + {a.ballot})
    else w.(nodes := w.nodes[a.id := Moved(w.nodes[a.id], a)])
  }

  /** A validator precommits its lock again although it prevoted something else in this round. */
  predicate Torn(w: World, a: Action)
    requires Enabled(w, a)
  {
    a.PrecommitAnyway? && w.nodes[a.id].round !in w.nodes[a.id].precommits && Tears(w.nodes[a.id])
  }

  // ---------- quorums meet ----------

  lemma SetSizes(a: set<Id>, b: set<Id>)
    ensures |a| + |b| == |a + b| + |a * b|
  {
    assert a + b == a + (b - a) && b == (b - a) + (a * b);
    assert |a + (b - a)| == |a| + |b - a|;
    assert |(b - a) + (a * b)| == |b - a| + |a * b|;
  }

  lemma SubsetSize(a: set<Id>, b: set<Id>)
    requires a <= b
    ensures |a| <= |b|
  {
    assert b == a + (b - a);
    assert |a + (b - a)| == |a| + |b - a|;
  }

  /** Two quorums share an honest validator. */
  lemma QuorumsMeet(w: World, a: set<Id>, b: set<Id>) returns (id: Id)
    requires WorldOk(w) && a <= w.active && b <= w.active && |a| >= Quorum(|w.active|) && |b| >= Quorum(|w.active|)
    ensures id in a && id in b && id in w.nodes
  {
    var n := |w.active|;
    SetSizes(a, b);
    SubsetSize(a + b, w.active);
    assert |a * b| >= 2 * Quorum(n) - n > Tolerated(n);
    if a * b <= w.faulty { SubsetSize(a * b, w.faulty); }
    id :| id in a * b && id !in w.faulty;
  }

  lemma HonestVoted(w: World, id: Id, kind: Kind, round: nat, v: Value)
    requires WorldOk(w) && id in w.nodes && id in Voters(w, kind, round, v)
    ensures Voted(w.nodes[id], kind, round, v)
  {
    var b := Ballot(id, kind, round, v);
    assert b in w.forged ==> b.voter in w.faulty;
  }

  /** In one round only one block can have a quorum. */
  lemma OnePerRound(w: World, kind: Kind, round: nat, u: Value, v: Value)
    requires WorldOk(w) && HasQuorum(w, kind, round, u) && HasQuorum(w, kind, round, v)
    ensures u == v
  {
    var id := QuorumsMeet(w, Voters(w, kind, round, u), Voters(w, kind, round, v));
    HonestVoted(w, id, kind, round, u);
    HonestVoted(w, id, kind, round, v);
  }
}
