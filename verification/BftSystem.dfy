/** A system of engines that exchange votes: all its runs are runs of the protocol, and engines that commit agree. */
module BftSystem {
  import opened Options
  import opened Bft
  import opened BftSafety
  import opened BftVotes
  import opened BftEngine

  // ---------- runs of one validator ----------

  /** All actions are those of validator `me`. */
  predicate Own(me: Id, run: seq<Action>) { forall i :: 0 <= i < |run| ==> !run[i].Forge? && run[i].id == me }

  /** The run leads from `w` to `u`, without torn precommits unless `torn`. */
  predicate Leads(w: World, u: World, torn: bool, run: seq<Action>) {
    CanRun(w, run) && After(w, run) == u && (torn || NeverTorn(w, run))
  }

  /** Validator `me` can take the world from `w` to `u` by itself. */
  ghost predicate Acts(me: Id, w: World, u: World, torn: bool) {
    exists run: seq<Action> :: Own(me, run) && Leads(w, u, torn, run)
  }

  lemma ActsNone(me: Id, w: World, torn: bool)
    ensures Acts(me, w, w, torn)
  {
    assert Own(me, []) && Leads(w, w, torn, []);
  }

  lemma ActsOne(me: Id, w: World, a: Action, torn: bool)
    requires Enabled(w, a) && !a.Forge? && a.id == me && (torn || !Torn(w, a))
    ensures Acts(me, w, Next(w, a), torn)
  {
    var run, u := [a], Next(w, a);
    assert run[1..] == [];
    assert CanRun(u, []);
    assert After(u, []) == u;
    assert NeverTorn(u, []);
    assert CanRun(w, run);
    assert After(w, run) == After(u, []);
    assert Own(me, run) && Leads(w, u, torn, run);
  }

  lemma {:induction false} RunBoth(w: World, a: seq<Action>, b: seq<Action>, torn: bool)
    requires CanRun(w, a) && CanRun(After(w, a), b) && (torn || (NeverTorn(w, a) && NeverTorn(After(w, a), b)))
    ensures CanRun(w, a + b) && After(w, a + b) == After(After(w, a), b) && (torn || NeverTorn(w, a + b))
    decreases |a|
  {
    if a == [] {
      assert a + b == b;
    } else {
      RunBoth(Next(w, a[0]), a[1..], b, torn);
      assert (a + b)[1..] == a[1..] + b;
    }
  }

  lemma ActsBoth(me: Id, w: World, u: World, t: World, torn: bool)
    requires Acts(me, w, u, torn) && Acts(me, u, t, torn)
    ensures Acts(me, w, t, torn)
  {
    var a: seq<Action> :| Own(me, a) && Leads(w, u, torn, a);
    var b: seq<Action> :| Own(me, b) && Leads(u, t, torn, b);
    RunBoth(w, a, b, torn);
    assert Own(me, a + b) && Leads(w, t, torn, a + b);
  }

  // ---------- an engine in the world ----------

  /** The votes are real ones of validators in the set. */
  ghost predicate Heard(w: World, kind: Kind, round: nat, votes: VoteMap) {
    forall id :: id in votes ==> id in w.active && (votes[id].Some? ==> id in Voters(w, kind, round, votes[id].value))
  }

  lemma HeardQuorum(w: World, kind: Kind, round: nat, votes: VoteMap, known: set<Value>, v: Value)
    requires Heard(w, kind, round, votes) && Wins(votes, known, w.active, v)
    ensures HasQuorum(w, kind, round, v)
  {
    SubsetSize(Count(votes, v), Voters(w, kind, round, v));
  }

  lemma HeardStays(w: World, u: World, kind: Kind, round: nat, votes: VoteMap)
    requires Grows(w, u) && Heard(w, kind, round, votes)
    ensures Heard(u, kind, round, votes)
  {
    forall id | id in votes ensures id in u.active && (votes[id].Some? ==> id in Voters(u, kind, round, votes[id].value)) {
      if votes[id].Some? {
        assert Voters(w, kind, round, votes[id].value) <= Voters(u, kind, round, votes[id].value);
      }
    }
  }

  lemma HeardMore(w: World, kind: Kind, round: nat, votes: VoteMap, id: Id, v: Option<Value>)
    requires Heard(w, kind, round, votes) && id in w.active && (v.Some? ==> id in Voters(w, kind, round, v.value))
    ensures Heard(w, kind, round, votes[id := v])
  {
  }

  /** What an engine has heard is real, and what it committed has a quorum. */
  ghost predicate Hears(w: World, s: State) {
    && Heard(w, Prevote, s.self.round, s.prevotes) && Heard(w, Precommit, s.self.round, s.precommits)
    && (forall r :: r in s.past ==> Heard(w, Precommit, r, s.past[r]))
    && (s.committed.Some? ==> HasQuorum(w, Precommit, s.committed.value.round, s.committed.value.value))
  }

  lemma HearsStill(w: World, u: World, s: State)
    requires Grows(w, u) && Hears(w, s)
    ensures Hears(u, s)
  {
    HeardStays(w, u, Prevote, s.self.round, s.prevotes);
    HeardStays(w, u, Precommit, s.self.round, s.precommits);
    forall r | r in s.past ensures Heard(u, Precommit, r, s.past[r]) { HeardStays(w, u, Precommit, r, s.past[r]); }
    if s.committed.Some? {
      var m := s.committed.value;
      assert Voters(w, Precommit, m.round, m.value) <= Voters(u, Precommit, m.round, m.value);
      SubsetSize(Voters(w, Precommit, m.round, m.value), Voters(u, Precommit, m.round, m.value));
    }
  }

  /** The engine speaks for its validator in the world. */
  ghost predicate Fits(w: World, s: State) {
    WorldOk(w) && s.active == w.active && s.me in w.nodes && w.nodes[s.me] == s.self && Hears(w, s)
  }

  /** A step of the validator within its round. */
  lemma FitsNext(w: World, s: State, a: Action, torn: bool)
    requires Fits(w, s) && Enabled(w, a) && !a.Forge? && a.id == s.me && Moved(s.self, a).round == s.self.round
    requires torn || !Torn(w, a)
    ensures Fits(Next(w, a), s.(self := Moved(s.self, a))) && Acts(s.me, w, Next(w, a), torn)
  {
    NextGrows(w, a);
    HearsStill(w, Next(w, a), s);
    ActsOne(s.me, w, a, torn);
  }

  // ---------- precommits ----------

  lemma FitsCheck(w: World, s: State)
    requires Fits(w, s)
    ensures Fits(w, AfterPrecommitCheck(s))
  {
    var q := Winner(s.precommits, s.known, s.active);
    if q.Some? { HeardQuorum(w, Precommit, s.self.round, s.precommits, s.known, q.value); }
  }

  lemma FitsPrecommit(w: World, s: State, voter: Id, v: Option<Value>)
    requires Fits(w, s) && voter in w.active && (v.Some? ==> voter in Voters(w, Precommit, s.self.round, v.value))
    ensures Fits(w, AfterPrecommitFrom(s, voter, v))
  {
    if voter !in s.precommits {
      HeardMore(w, Precommit, s.self.round, s.precommits, voter, v);
      FitsCheck(w, s.(precommits := s.precommits[voter := v]));
    }
  }

  /** Without a prevote quorum the engine is about to precommit a lock that it did not prevote. */
  ghost predicate TearsNow(s: State) {
    Winner(s.prevotes, s.known, s.active).None? && s.self.round !in s.self.precommits && Tears(s.self)
  }

  lemma FitsPrecommitted(w: World, s: State, torn: bool) returns (u: World)
    requires Fits(w, s) && s.self.phase.Prevoting? && (torn || !TearsNow(s))
    ensures Fits(u, s.(self := Precommitted(s))) && Acts(s.me, w, u, torn)
  {
    var polka := Winner(s.prevotes, s.known, s.active);
    if polka.Some? {
      HeardQuorum(w, Prevote, s.self.round, s.prevotes, s.known, polka.value);
      u := Next(w, LockAndPrecommit(s.me, polka.value));
      FitsNext(w, s, LockAndPrecommit(s.me, polka.value), torn);
    } else {
      u := Next(w, PrecommitAnyway(s.me));
      FitsNext(w, s, PrecommitAnyway(s.me), torn);
    }
  }

  lemma OwnVoteReal(w: World, s: State, kind: Kind, v: Option<Value>)
    requires Fits(w, s) && s.self.round in (if kind.Prevote? then s.self.prevotes else s.self.precommits)
    requires v == (if kind.Prevote? then s.self.prevotes else s.self.precommits)[s.self.round]
    ensures s.me in w.active && (v.Some? ==> s.me in Voters(w, kind, s.self.round, v.value))
  {
    assert s.me in w.active;
    if v.Some? { assert Voted(w.nodes[s.me], kind, s.self.round, v.value); }
  }

  lemma FitsEnterPrecommit(w: World, s: State, torn: bool) returns (u: World)
    requires Fits(w, s) && s.self.phase.Prevoting? && (torn || !TearsNow(s))
    ensures Fits(u, AfterEnterPrecommit(s)) && Acts(s.me, w, u, torn)
  {
    var x := Precommitted(s);
    var t := s.(self := x);
    u := FitsPrecommitted(w, s, torn);
    OwnVoteReal(u, t, Precommit, x.precommits[x.round]);
    FitsPrecommit(u, t, s.me, x.precommits[x.round]);
    FitsCheck(u, AfterPrecommitFrom(t, s.me, x.precommits[x.round]));
  }

  // ---------- prevotes ----------

  lemma FitsPrevoteCheck(w: World, s: State, torn: bool) returns (u: World)
    requires Fits(w, s)
    ensures Fits(u, AfterPrevoteCheck(s)) && Acts(s.me, w, u, torn)
  {
    u := w;
    ActsNone(s.me, w, torn);
    var polka := Winner(s.prevotes, s.known, s.active);
    if s.committed.None? && polka.Some? {
      if s.self.phase.Prevoting? {
        u := FitsEnterPrecommit(w, s, torn);
      } else if s.self.phase.Precommitting? {
        HeardQuorum(w, Prevote, s.self.round, s.prevotes, s.known, polka.value);
        u := Next(w, LateQuorum(s.me, polka.value));
        FitsNext(w, s, LateQuorum(s.me, polka.value), torn);
      }
    }
  }

  lemma FitsPrevote(w: World, s: State, voter: Id, v: Option<Value>, torn: bool) returns (u: World)
    requires Fits(w, s) && voter in w.active && (v.Some? ==> voter in Voters(w, Prevote, s.self.round, v.value))
    ensures Fits(u, AfterPrevoteFrom(s, voter, v)) && Acts(s.me, w, u, torn)
  {
    if voter in s.prevotes {
      u := w;
      ActsNone(s.me, w, torn);
    } else {
      HeardMore(w, Prevote, s.self.round, s.prevotes, voter, v);
      u := FitsPrevoteCheck(w, s.(prevotes := s.prevotes[voter := v]), torn);
    }
  }

  lemma FitsEnterPrevote(w: World, s: State, torn: bool) returns (u: World)
    requires Fits(w, s) && s.self.phase.Proposing?
    ensures Fits(u, AfterEnterPrevote(s)) && Acts(s.me, w, u, torn)
  {
    var x := EnterPrevote(s.self, s.proposal);
    var t, m := s.(self := x), Next(w, CastPrevote(s.me, s.proposal));
    FitsNext(w, s, CastPrevote(s.me, s.proposal), torn);
    OwnVoteReal(m, t, Prevote, x.prevotes[x.round]);
    var k := FitsPrevote(m, t, s.me, x.prevotes[x.round], torn);
    ActsBoth(s.me, w, m, k, torn);
    u := k;
    if AfterPrevoteFrom(t, s.me, x.prevotes[x.round]).self.phase.Prevoting? {
      u := FitsPrevoteCheck(k, AfterPrevoteFrom(t, s.me, x.prevotes[x.round]), torn);
      ActsBoth(s.me, w, k, u, torn);
    }
  }

  // ---------- messages ----------

  lemma FitsProposal(w: World, s: State, v: Value, torn: bool) returns (u: World)
    requires Fits(w, s)
    ensures Fits(u, AfterProposal(s, v)) && Acts(s.me, w, u, torn)
  {
    u := w;
    ActsNone(s.me, w, torn);
    if s.proposal.None? {
      var t := s.(proposal := Some(v), known := s.known + {v});
      if t.committed.None? && t.self.phase.Proposing? { u := FitsEnterPrevote(w, t, torn); }
    }
  }

  lemma FitsPast(w: World, s: State, r: nat, voter: Id, v: Option<Value>)
    requires Fits(w, s) && voter in w.active && (v.Some? ==> voter in Voters(w, Precommit, r, v.value))
    ensures Fits(w, AfterPastPrecommit(s, r, voter, v))
  {
    var bucket := Bucket(s.past, r);
    HeardMore(w, Precommit, r, bucket, voter, v);
    var more := bucket[voter := v];
    var past := Trimmed(s.past[r := more]);
    forall k | k in past ensures Heard(w, Precommit, k, past[k]) {
      if k != r { assert past[k] == s.past[k]; }
    }
    var q := Winner(more, s.known, s.active);
    if q.Some? { HeardQuorum(w, Precommit, r, more, s.known, q.value); }
  }

  /** A vote delivered to an engine is one that was cast. */
  ghost predicate IsReal(w: World, kind: Kind, r: nat, voter: Id, v: Option<Value>) {
    v.Some? ==> voter in Voters(w, kind, r, v.value)
  }

  lemma FitsVote(w: World, s: State, kind: Kind, r: nat, voter: Id, v: Option<Value>, torn: bool) returns (u: World)
    requires Fits(w, s) && IsReal(w, kind, r, voter, v)
    ensures Fits(u, AfterVote(s, kind, r, voter, v)) && Acts(s.me, w, u, torn)
  {
    u := w;
    ActsNone(s.me, w, torn);
    if voter in s.active && r < s.self.round && kind.Precommit? {
      FitsPast(w, s, r, voter, v);
    } else if voter in s.active && r == s.self.round && (v.None? || v.value in s.known) {
      if kind.Precommit? {
        FitsPrecommit(w, s, voter, v);
      } else {
        u := FitsPrevote(w, s, voter, v, torn);
      }
    }
  }

  // ---------- rounds ----------

  lemma OwnHeard(w: World, me: Id, kind: Kind, r: nat, x: Validator)
    requires WorldOk(w) && me in w.nodes && w.nodes[me].prevotes == x.prevotes && w.nodes[me].precommits == x.precommits
    ensures Heard(w, kind, r, OwnVote(if kind.Prevote? then x.prevotes else x.precommits, r, me))
  {
    assert me in w.active;
  }

  lemma FitsRound(w: World, s: State, r: nat, torn: bool) returns (u: World)
    requires Fits(w, s) && r > s.self.round
    ensures Fits(u, AfterRound(s, r)) && Acts(s.me, w, u, torn)
  {
    var a := NewRound(s.me, r);
    u := Next(w, a);
    NextGrows(w, a);
    HearsStill(w, u, s);
    KeptHeard(u, s);
    OwnHeard(u, s.me, Prevote, r, s.self);
    OwnHeard(u, s.me, Precommit, r, s.self);
    ActsOne(s.me, w, a, torn);
  }

  lemma KeptHeard(w: World, s: State)
    requires Hears(w, s)
    ensures forall k :: k in Kept(s) ==> Heard(w, Precommit, k, Kept(s)[k])
  {
    forall k | k in Kept(s) ensures Heard(w, Precommit, k, Kept(s)[k]) {
      if k in s.past { assert Heard(w, Precommit, k, s.past[k]); }
    }
  }

  lemma FitsTimeout(w: World, s: State, torn: bool) returns (u: World)
    requires Fits(w, s) && (torn || !(s.committed.None? && s.self.phase.Prevoting? && TearsNow(s)))
    ensures Fits(u, AfterTimeout(s)) && Acts(s.me, w, u, torn)
  {
    u := w;
    ActsNone(s.me, w, torn);
    if s.committed.None? {
      match s.self.phase
      case Proposing => u := FitsEnterPrevote(w, s, torn);
      case Prevoting => u := FitsEnterPrecommit(w, s, torn);
      case Precommitting =>
        FitsCheck(w, s);
        if AfterPrecommitCheck(s).committed.None? { u := FitsRound(w, s, s.self.round + 1, torn); }
    }
  }

  lemma CrashHears(w: World, s: State, resume: nat, stored: bool)
    requires WorldOk(w) && s.me in w.nodes && w.nodes[s.me] == Restarted(s.self, resume)
    ensures Hears(w, AfterCrash(s, resume, stored))
  {
    OwnHeard(w, s.me, Prevote, resume, s.self);
    OwnHeard(w, s.me, Precommit, resume, s.self);
  }

  lemma FitsCrash(w: World, s: State, resume: nat, stored: bool, torn: bool) returns (u: World)
    requires Fits(w, s) && Resumes(s.self, resume)
    ensures Fits(u, AfterCrash(s, resume, stored)) && Acts(s.me, w, u, torn)
  {
    var a := Restart(s.me, resume);
    u := Next(w, a);
    NextGrows(w, a);
    CrashHears(u, s, resume, stored);
    ActsOne(s.me, w, a, torn);
  }

  lemma FitsCrashLocking(w: World, s: State, voter: Id, v: Option<Value>, resume: nat, stored: bool, torn: bool) returns (u: World)
    requires Fits(w, s) && CanHappen(s, CrashLocking(voter, v, resume, stored)) && IsReal(w, Prevote, s.self.round, voter, v)
    ensures Fits(u, AfterEvent(s, CrashLocking(voter, v, resume, stored))) && Acts(s.me, w, u, torn)
  {
    var value := Completed(s, voter, v).value;
    HeardMore(w, Prevote, s.self.round, s.prevotes, voter, v);
    HeardQuorum(w, Prevote, s.self.round, s.prevotes[voter := v], s.known, value);
    var a := LockAndRestart(s.me, value, resume);
    u := Next(w, a);
    NextGrows(w, a);
    CrashHears(u, LockWritten(s, voter, v), resume, stored);
    ActsOne(s.me, w, a, torn);
  }

  // ---------- events ----------

  /** Votes that arrive were cast. */
  ghost predicate Lawful(w: World, s: State, ev: Event) {
    && (ev.Vote? ==> IsReal(w, ev.kind, ev.round, ev.voter, ev.vote))
    && (ev.CrashLocking? ==> IsReal(w, Prevote, s.self.round, ev.voter, ev.vote))
  }

  /** The timer runs out and the engine precommits a lock that it did not prevote. */
  ghost predicate TornEvent(s: State, ev: Event) {
    ev.Timeout? && s.committed.None? && s.self.phase.Prevoting? && TearsNow(s)
  }

  /** Whatever an engine does is a run of its validator's own actions. */
  lemma FitsEvent(w: World, s: State, ev: Event, torn: bool) returns (u: World)
    requires Fits(w, s) && CanHappen(s, ev) && Lawful(w, s, ev) && (torn || !TornEvent(s, ev))
    ensures Fits(u, AfterEvent(s, ev)) && Acts(s.me, w, u, torn)
  {
    match ev
    case Proposed(v) => u := FitsProposal(w, s, v, torn);
    case Vote(kind, r, voter, v) => u := FitsVote(w, s, kind, r, voter, v, torn);
    case Timeout => u := FitsTimeout(w, s, torn);
    case Skip(target) =>
      if s.committed.None? && target > s.self.round {
        u := FitsRound(w, s, target, torn);
      } else {
        u := w;
        ActsNone(s.me, w, torn);
      }
    case Crash(resume, stored) => u := FitsCrash(w, s, resume, stored, torn);
    case CrashLocking(voter, v, resume, stored) => u := FitsCrashLocking(w, s, voter, v, resume, stored, torn);
  }

  // ---------- the system ----------

  /** The engines of the honest validators, and the votes of the faulty ones. */
  datatype System = System(active: set<Id>, faulty: set<Id>, engines: map<Id, State>, forged: set<Ballot>)

  function WorldOf(sys: System): World {
    World(sys.active, sys.faulty, map id | id in sys.engines :: sys.engines[id].self, sys.forged)
  }

  ghost predicate SystemOk(sys: System) {
    WorldOk(WorldOf(sys)) && forall id :: id in sys.engines ==> sys.engines[id].me == id && Fits(WorldOf(sys), sys.engines[id])
  }

  datatype Step = Handle(id: Id, event: Event) | Cheat(ballot: Ballot)

  ghost predicate CanStep(sys: System, step: Step) {
    match step
    case Handle(id, ev) => id in sys.engines && CanHappen(sys.engines[id], ev) && Lawful(WorldOf(sys), sys.engines[id], ev)
    case Cheat(b) => b.voter in sys.faulty
  }

  ghost function AfterStep(sys: System, step: Step): System
    requires CanStep(sys, step)
  {
    match step
    case Handle(id, ev) => sys.(engines := sys.engines[id := AfterEvent(sys.engines[id], ev)])
    case Cheat(b) => sys.(forged := sys.forged + {b})
  }

  ghost predicate TornStep(sys: System, step: Step) {
    step.Handle? && step.id in sys.engines && TornEvent(sys.engines[step.id], step.event)
  }

  // ---------- own actions leave the others alone ----------

  /** Only validator `me` differs. */
  predicate OnlyMoved(me: Id, w: World, u: World) {
    && u.active == w.active && u.faulty == w.faulty && u.forged == w.forged && u.nodes.Keys == w.nodes.Keys
    && forall id :: id in w.nodes && id != me ==> u.nodes[id] == w.nodes[id]
  }

  lemma {:induction false} OwnMoves(me: Id, w: World, run: seq<Action>)
    requires WorldOk(w) && Own(me, run) && CanRun(w, run)
    ensures OnlyMoved(me, w, After(w, run)) && WorldOk(After(w, run)) && Grows(w, After(w, run))
    decreases |run|
  {
    if run != [] {
      var u := Next(w, run[0]);
      assert !run[0].Forge? && run[0].id == me;
      assert Own(me, run[1..]);
      NextGrows(w, run[0]);
      OwnMoves(me, u, run[1..]);
      GrowsBoth(w, u, After(u, run[1..]));
    }
  }

  lemma GrowsBoth(w: World, u: World, t: World)
    requires Grows(w, u) && Grows(u, t)
    ensures Grows(w, t)
  {
    forall kind: Kind, round: nat, v: Value ensures Voters(w, kind, round, v) <= Voters(t, kind, round, v) {
      assert Voters(w, kind, round, v) <= Voters(u, kind, round, v) <= Voters(t, kind, round, v);
    }
  }

  lemma ActsMoves(me: Id, w: World, u: World, torn: bool)
    requires WorldOk(w) && Acts(me, w, u, torn)
    ensures OnlyMoved(me, w, u) && WorldOk(u) && Grows(w, u)
  {
    var run: seq<Action> :| Own(me, run) && Leads(w, u, torn, run);
    OwnMoves(me, w, run);
  }

  lemma FitsStill(w: World, u: World, s: State)
    requires Fits(w, s) && WorldOk(u) && Grows(w, u) && s.me in u.nodes && u.nodes[s.me] == s.self
    ensures Fits(u, s)
  {
    HearsStill(w, u, s);
  }

  // ---------- a step of the system ----------

  /** The world that an engine's step leads to is the one of the system after it. */
  lemma HandleWorld(sys: System, id: Id, t: State, u: World)
    requires id in sys.engines && t.me == id && OnlyMoved(id, WorldOf(sys), u) && id in u.nodes && u.nodes[id] == t.self
    ensures WorldOf(sys.(engines := sys.engines[id := t])) == u
  {
    var next := sys.(engines := sys.engines[id := t]);
    assert WorldOf(sys).nodes.Keys == sys.engines.Keys;
    assert WorldOf(next).nodes.Keys == next.engines.Keys == sys.engines.Keys;
    assert WorldOf(next).nodes == u.nodes;
  }

  lemma HandleOk(sys: System, id: Id, ev: Event, torn: bool) returns (u: World)
    requires SystemOk(sys) && CanStep(sys, Handle(id, ev)) && (torn || !TornEvent(sys.engines[id], ev))
    ensures u == WorldOf(AfterStep(sys, Handle(id, ev))) && Acts(id, WorldOf(sys), u, torn)
    ensures SystemOk(AfterStep(sys, Handle(id, ev)))
  {
    var w, s := WorldOf(sys), sys.engines[id];
    var t, next := AfterEvent(s, ev), AfterStep(sys, Handle(id, ev));
    u := FitsEvent(w, s, ev, torn);
    ActsMoves(id, w, u, torn);
    HandleWorld(sys, id, t, u);
    forall k | k in next.engines ensures next.engines[k].me == k && Fits(u, next.engines[k]) {
      if k != id {
        assert u.nodes[k] == w.nodes[k];
        FitsStill(w, u, sys.engines[k]);
      }
    }
  }

  lemma CheatOk(sys: System, b: Ballot)
    requires SystemOk(sys) && CanStep(sys, Cheat(b))
    ensures var next := AfterStep(sys, Cheat(b));
      SystemOk(next) && WorldOf(next) == Next(WorldOf(sys), Forge(b)) && Grows(WorldOf(sys), WorldOf(next))
  {
    var w, next := WorldOf(sys), AfterStep(sys, Cheat(b));
    NextGrows(w, Forge(b));
    forall k | k in next.engines ensures next.engines[k].me == k && Fits(WorldOf(next), next.engines[k]) {
      FitsStill(w, WorldOf(next), sys.engines[k]);
    }
  }

  /** A run of the protocol between the worlds of two systems. */
  ghost predicate Reaches(w: World, u: World, torn: bool) { exists run: seq<Action> :: Leads(w, u, torn, run) }

  lemma ReachesBoth(w: World, u: World, t: World, torn: bool)
    requires Reaches(w, u, torn) && Reaches(u, t, torn)
    ensures Reaches(w, t, torn)
  {
    var a: seq<Action> :| Leads(w, u, torn, a);
    var b: seq<Action> :| Leads(u, t, torn, b);
    RunBoth(w, a, b, torn);
    assert Leads(w, t, torn, a + b);
  }

  lemma ReachesOne(w: World, a: Action, torn: bool)
    requires Enabled(w, a) && (torn || !Torn(w, a))
    ensures Reaches(w, Next(w, a), torn)
  {
    var run, u := [a], Next(w, a);
    assert run[1..] == [];
    assert CanRun(u, []);
    assert After(u, []) == u;
    assert NeverTorn(u, []);
    assert CanRun(w, run);
    assert After(w, run) == After(u, []);
    assert Leads(w, u, torn, run);
  }

  lemma ReachesSelf(w: World, torn: bool)
    ensures Reaches(w, w, torn)
  {
    assert Leads(w, w, torn, []);
  }

  lemma StepOk(sys: System, step: Step, torn: bool)
    requires SystemOk(sys) && CanStep(sys, step) && (torn || !TornStep(sys, step))
    ensures SystemOk(AfterStep(sys, step)) && Reaches(WorldOf(sys), WorldOf(AfterStep(sys, step)), torn)
    ensures Grows(WorldOf(sys), WorldOf(AfterStep(sys, step)))
  {
    match step
    case Handle(id, ev) =>
      var u := HandleOk(sys, id, ev, torn);
      ActsMoves(id, WorldOf(sys), u, torn);
      var run: seq<Action> :| Own(id, run) && Leads(WorldOf(sys), u, torn, run);
    case Cheat(b) =>
      CheatOk(sys, b);
      ReachesOne(WorldOf(sys), Forge(b), torn);
  }

  // ---------- runs of the system ----------

  ghost predicate CanGo(sys: System, steps: seq<Step>)
    decreases |steps|
  {
    steps == [] || (CanStep(sys, steps[0]) && CanGo(AfterStep(sys, steps[0]), steps[1..]))
  }

  ghost function AfterSteps(sys: System, steps: seq<Step>): System
    requires CanGo(sys, steps)
    decreases |steps|
  {
    if steps == [] then sys else AfterSteps(AfterStep(sys, steps[0]), steps[1..])
  }

  ghost predicate NeverTears(sys: System, steps: seq<Step>)
    requires CanGo(sys, steps)
    decreases |steps|
  {
    steps == [] || (!TornStep(sys, steps[0]) && NeverTears(AfterStep(sys, steps[0]), steps[1..]))
  }

  /** Every engine has just started. */
  ghost predicate IsStartedSystem(sys: System) {
    WorldOk(WorldOf(sys)) && sys.forged == {} && forall id :: id in sys.engines ==> sys.engines[id] == Started(id, sys.active)
  }

  lemma StartedOk(sys: System)
    requires IsStartedSystem(sys)
    ensures SystemOk(sys) && IsStart(WorldOf(sys))
  {
  }

  /** Every run of the system is a run of the protocol. */
  lemma {:induction false} SystemRuns(sys: System, steps: seq<Step>, torn: bool)
    requires SystemOk(sys) && CanGo(sys, steps) && (torn || NeverTears(sys, steps))
    ensures SystemOk(AfterSteps(sys, steps)) && Reaches(WorldOf(sys), WorldOf(AfterSteps(sys, steps)), torn)
    ensures Grows(WorldOf(sys), WorldOf(AfterSteps(sys, steps)))
    decreases |steps|
  {
    if steps == [] {
      ReachesSelf(WorldOf(sys), torn);
    } else {
      var next := AfterStep(sys, steps[0]);
      StepOk(sys, steps[0], torn);
      SystemRuns(next, steps[1..], torn);
      ReachesBoth(WorldOf(sys), WorldOf(next), WorldOf(AfterSteps(next, steps[1..])), torn);
      GrowsBoth(WorldOf(sys), WorldOf(next), WorldOf(AfterSteps(next, steps[1..])));
    }
  }

  /** Blocks that engines commit at different times are the same, whoever commits, and whatever crashes come between. */
  lemma CommitsAgree(start: System, first: seq<Step>, later: seq<Step>, a: Id, b: Id)
    requires IsStartedSystem(start) && CanGo(start, first) && NeverTears(start, first)
    requires CanGo(AfterSteps(start, first), later) && NeverTears(AfterSteps(start, first), later)
    requires var mid := AfterSteps(start, first); var end := AfterSteps(mid, later);
      && a in mid.engines && mid.engines[a].committed.Some?
      && b in end.engines && end.engines[b].committed.Some?
    ensures var mid := AfterSteps(start, first); var end := AfterSteps(mid, later);
      mid.engines[a].committed.value.value == end.engines[b].committed.value.value
  {
    var mid := AfterSteps(start, first);
    var end := AfterSteps(mid, later);
    StartedOk(start);
    SystemRuns(start, first, false);
    SystemRuns(mid, later, false);
    ReachesBoth(WorldOf(start), WorldOf(mid), WorldOf(end), false);
    HearsStill(WorldOf(mid), WorldOf(end), mid.engines[a]);
    assert Fits(WorldOf(end), end.engines[b]);
    SameBlock(WorldOf(start), WorldOf(end), mid.engines[a].committed.value, end.engines[b].committed.value);
  }

  lemma SameBlock(w: World, u: World, m: Mark, k: Mark)
    requires IsStart(w) && Reaches(w, u, false) && HasQuorum(u, Precommit, m.round, m.value) && HasQuorum(u, Precommit, k.round, k.value)
    ensures m.value == k.value
  {
    var run: seq<Action> :| Leads(w, u, false, run);
    Agreement(w, run, m.round, m.value, k.round, k.value);
  }
}
