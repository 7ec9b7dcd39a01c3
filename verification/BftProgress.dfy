/** An engine moves on: proposals are learned and prevoted, timeouts lead to the next round, and every phase left behind has its signed vote. */
module BftProgress {
  import opened Options
  import opened Bft
  import opened BftVotes
  import opened BftEngine
  import opened BftAlert
  import opened BftDelivery

  // ---------- proposals ----------

  /** The blocks proposed over a run, the first ones of their rounds; `heard` if the current round had one before. */
  ghost function FirstProposals(s: State, evs: seq<Event>, heard: bool): set<Value>
    requires CanHandle(s, evs)
    decreases |evs|
  {
    if evs == [] then {}
    else
      var t := AfterEvent(s, evs[0]);
      (if evs[0].Proposed? && !heard then {evs[0].value} else {}) +
      FirstProposals(t, evs[1..], (heard || evs[0].Proposed?) && t.self.round == s.self.round)
  }

  /** An engine has a proposal only if it heard one in this round, and learns the first. */
  lemma EventLearns(s: State, ev: Event, t: State)
    requires true == Sane(s) && CanHappen(s, ev) && !IsCrash(ev) && t == AfterEvent(s, ev)
    ensures s.known <= t.known && (ev.Proposed? && s.proposal.None? ==> ev.value in t.known)
    ensures t.proposal.Some? ==> t.self.round == s.self.round && (s.proposal.Some? || ev.Proposed?)
  {
    EventFollows(s, ev, Prevote, 0);
    match ev
    case Proposed(v) => EnterPrevoteByItself(s.(proposal := Some(v), known := s.known + {v}));
    case Vote(vk, vr, voter, v) => VoteLeavesProposal(s, vk, vr, voter, v);
    case Timeout => EnterPrevoteByItself(s); EnterPrecommitByItself(s);
    case Skip(target) =>
  }

  lemma VoteLeavesProposal(s: State, vk: Kind, vr: nat, voter: Id, v: Option<Value>)
    ensures var t := AfterVote(s, vk, vr, voter, v); t.proposal == s.proposal && t.self.round == s.self.round
  {
    PrevoteCheckByItself(s.(prevotes := s.prevotes[voter := v]));
  }

  /** The first proposal of every round of a run is known at its end. */
  lemma {:induction false} ProposalsKnown(s: State, evs: seq<Event>, heard: bool, u: State)
    requires true == Sane(s) && CanHandle(s, evs) && NoCrash(evs) && (s.proposal.Some? ==> heard) && u == AfterAll(s, evs)
    ensures s.known + FirstProposals(s, evs, heard) <= u.known
    decreases |evs|
  {
    if evs != [] {
      var t := AfterEvent(s, evs[0]);
      EventLearns(s, evs[0], t);
      EventSane(s, evs[0]);
      ProposalsKnown(t, evs[1..], (heard || evs[0].Proposed?) && t.self.round == s.self.round, u);
    }
  }

  /** The same for an engine that has just come up. */
  lemma UpLearns(me: Id, active: set<Id>, before: seq<Event>, s: State, after: seq<Event>)
    requires ComesUp(me, active, before, s) && CanHandle(s, after) && NoCrash(after)
    ensures FirstProposals(s, after, false) <= AfterAll(s, after).known
  {
    StartedSane(me, active);
    RunSane(Started(me, active), before, s);
    JustUpBlank(Started(me, active), before, s);
    ProposalsKnown(s, after, false, AfterAll(s, after));
  }

  /** After a crash a locked block that was stored is known without a proposal. */
  lemma LockIsKnown(s: State, resume: nat, stored: bool, t: State)
    requires CanHappen(s, Crash(resume, stored)) && t == AfterEvent(s, Crash(resume, stored))
    ensures t.self.lock == t.self.valid == s.self.lock && (stored && t.self.lock.Some? ==> t.self.lock.value.value in t.known)
  {
  }

  // ---------- phases ----------

  function Rank(p: Phase): nat {
    match p
    case Proposing => 0
    case Prevoting => 1
    case Precommitting => 2
  }

  /** Every phase left behind in the round has its signed vote. */
  predicate SignedUp(x: Validator) {
    && (Rank(x.phase) >= 1 ==> x.round in x.prevotes)
    && (Rank(x.phase) >= 2 ==> x.round in x.precommits)
  }

  /** What an engine does by itself in a round does not go back to an earlier phase. */
  ghost predicate Forward(s: State, t: State) {
    && t.self.round == s.self.round && Rank(t.self.phase) >= Rank(s.self.phase)
    && (SignedUp(s.self) ==> SignedUp(t.self))
  }

  lemma PrecommitForward(s: State)
    ensures var t := AfterEnterPrecommit(s); t.self.round == s.self.round && t.self.phase.Precommitting?
    ensures s.self.round in AfterEnterPrecommit(s).self.precommits && AfterEnterPrecommit(s).self.prevotes == s.self.prevotes
  {
  }

  lemma PrevoteCheckForward(s: State)
    ensures Forward(s, AfterPrevoteCheck(s))
  {
    PrecommitForward(s);
  }

  lemma EnterPrevoteForward(s: State)
    requires s.self.phase.Proposing?
    ensures var t := AfterEnterPrevote(s); Forward(s, t) && Rank(t.self.phase) >= 1 && SignedUp(t.self)
  {
    var x := EnterPrevote(s.self, s.proposal);
    var w := x.prevotes[x.round];
    var t := s.(self := x, prevotes := if s.me in s.prevotes then s.prevotes else s.prevotes[s.me := w]);
    PrevoteCheckForward(t);
    var u := AfterPrevoteFrom(s.(self := x), s.me, w);
    assert u == t || u == AfterPrevoteCheck(t);
    PrevoteCheckForward(u);
  }

  lemma VoteForward(s: State, vk: Kind, vr: nat, voter: Id, v: Option<Value>)
    ensures Forward(s, AfterVote(s, vk, vr, voter, v))
  {
    if vk.Precommit? {
      assert AfterVote(s, vk, vr, voter, v).self == s.self;
    } else {
      PrevoteCheckForward(s.(prevotes := s.prevotes[voter := v]));
    }
  }

  /** Over every run an engine has signed the votes of the phases that it has left behind. */
  lemma EventSigned(s: State, ev: Event)
    requires CanHappen(s, ev) && SignedUp(s.self)
    ensures SignedUp(AfterEvent(s, ev).self)
  {
    match ev
    case Proposed(v) =>
      if s.proposal.None? && s.committed.None? && s.self.phase.Proposing? { EnterPrevoteForward(s.(proposal := Some(v), known := s.known + {v})); }
    case Vote(vk, vr, voter, v) => VoteForward(s, vk, vr, voter, v);
    case Timeout => TimeoutForward(s);
    case Skip(target) =>
    case Crash(_, _) =>
    case CrashLocking(_, _, _, _) =>
  }

  lemma {:induction false} RunSigned(s: State, evs: seq<Event>)
    requires CanHandle(s, evs) && SignedUp(s.self)
    ensures SignedUp(AfterAll(s, evs).self)
    decreases |evs|
  {
    if evs != [] {
      EventSigned(s, evs[0]);
      RunSigned(AfterEvent(s, evs[0]), evs[1..]);
    }
  }

  /** A later phase of the round, the next round, or a commit. */
  predicate Advances(s: State, t: State) {
    && SignedUp(t.self)
    && (s.committed.Some? ==> t == s)
    && (t.committed.None? ==>
          if s.self.phase.Precommitting? then t.self.round == s.self.round + 1 && t.self.phase.Proposing?
          else t.self.round == s.self.round && Rank(t.self.phase) > Rank(s.self.phase))
  }

  /** A timeout does not leave an engine where it is. */
  lemma TimeoutForward(s: State)
    requires SignedUp(s.self)
    ensures true == Advances(s, AfterTimeout(s))
  {
    if s.committed.None? {
      match s.self.phase
      case Proposing => EnterPrevoteForward(s);
      case Prevoting => PrecommitForward(s);
      case Precommitting =>
    }
  }

  lemma ThreeAdvance(s: State, a: State, b: State, c: State)
    requires true == Advances(s, a) && true == Advances(a, b) && true == Advances(b, c)
    ensures c.committed.None? ==> s.self.round < c.self.round <= s.self.round + 2
  {
  }

  /** Three timeouts are enough for a new round, and lead no further than the one after it. */
  lemma ThreeTimeouts(s: State, t: State)
    requires SignedUp(s.self) && CanHandle(s, [Timeout, Timeout, Timeout]) && t == AfterAll(s, [Timeout, Timeout, Timeout])
    ensures t.committed.None? ==> s.self.round < t.self.round <= s.self.round + 2
  {
    var a := AfterTimeout(s);
    TimeoutForward(s);
    var b := AfterTimeout(a);
    TimeoutForward(a);
    TimeoutForward(b);
    ThreeRun(s, a, b, t);
    ThreeAdvance(s, a, b, t);
  }

  lemma ThreeRun(s: State, a: State, b: State, c: State)
    requires a == AfterTimeout(s) && b == AfterTimeout(a)
    requires CanHandle(s, [Timeout, Timeout, Timeout]) && c == AfterAll(s, [Timeout, Timeout, Timeout])
    ensures c == AfterTimeout(b)
  {
    assert [Timeout, Timeout, Timeout][1..] == [Timeout, Timeout] && [Timeout, Timeout][1..] == [Timeout] && [Timeout][1..] == [];
    assert c == AfterAll(a, [Timeout, Timeout]) == AfterAll(b, [Timeout]);
  }

  /** The first proposal of a round makes a proposing engine prevote what it prefers. */
  lemma ProposalPrevoted(s: State, v: Value, t: State)
    requires s.proposal.None? && s.committed.None? && s.self.phase.Proposing? && t == AfterProposal(s, v)
    ensures !t.self.phase.Proposing? && s.self.round in t.self.prevotes
    ensures s.self.round !in s.self.prevotes ==> t.self.prevotes[s.self.round] == Preferred(s.self, Some(v))
  {
    var m := s.(proposal := Some(v), known := s.known + {v});
    EnterPrevoteForward(m);
    SignsPreferred(m);
  }

  lemma SignsPreferred(s: State)
    requires s.self.phase.Proposing?
    ensures AfterEnterPrevote(s).self.prevotes == Signed(s.self.prevotes, s.self.round, Preferred(s.self, s.proposal))
  {
    var x := EnterPrevote(s.self, s.proposal);
    var w := x.prevotes[x.round];
    var t := s.(self := x, prevotes := if s.me in s.prevotes then s.prevotes else s.prevotes[s.me := w]);
    CheckSignsNoPrevote(t);
    var u := AfterPrevoteFrom(s.(self := x), s.me, w);
    assert u == t || u == AfterPrevoteCheck(t);
    CheckSignsNoPrevote(u);
  }

  lemma CheckSignsNoPrevote(s: State)
    ensures AfterPrevoteCheck(s).self.prevotes == s.self.prevotes
  {
    PrecommitForward(s);
  }

  /** A skip leads to its round, if that is a later one. */
  lemma SkipMoves(s: State, target: nat, t: State)
    requires s.committed.None? && t == AfterEvent(s, Skip(target))
    ensures if target > s.self.round then t.self.round == target && t.self.phase.Proposing? && t.proposal.None? else t == s
  {
  }

  /** A prevote quorum delivered after precommitting makes its block valid and leaves the lock. */
  lemma LatePolka(s: State, voter: Id, v: Option<Value>, b: Value, t: State)
    requires Sane(s) && s.committed.None? && s.self.phase.Precommitting? && Accepts(s, Prevote, s.self.round, voter, v)
    requires s.self.valid.Some? ==> s.self.valid.value.round < s.self.round
    requires voter !in s.prevotes && Wins(s.prevotes[voter := v], s.known, s.active, b)
    requires t == AfterVote(s, Prevote, s.self.round, voter, v)
    ensures t.self.valid == Some(Mark(b, s.self.round)) && t.self.lock == s.self.lock && t.self.precommits == s.self.precommits
  {
    WinnerIs(s.prevotes[voter := v], s.known, s.active, b);
  }
}
