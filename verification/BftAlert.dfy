/** An engine misses no quorum: over every run of events a known block with a precommit quorum heard is committed. */
module BftAlert {
  import opened Options
  import opened Bft
  import opened BftVotes
  import opened BftEngine

  predicate NoneWins(s: State, votes: VoteMap)
    ensures NoneWins(s, votes) <==> Winner(votes, s.known, s.active) == None
  {
    forall v :: v in s.known ==> !Wins(votes, s.known, s.active, v)
  }

  /** Votes of others are recorded only for known blocks. */
  predicate VotesKnown(s: State) {
    && OthersKnown(s.prevotes, s.me, s.known) && OthersKnown(s.precommits, s.me, s.known)
    && forall r :: r in s.past ==> OthersKnown(s.past[r], s.me, s.known)
  }

  /** Unless it has committed, the engine has heard no precommit quorum for a known block. */
  predicate Settled(s: State) {
    s.committed.None? ==> NoneWins(s, s.precommits) && forall r :: r in s.past ==> NoneWins(s, s.past[r])
  }

  /** While prevoting it has heard no prevote quorum for a known block; later one has made its block valid. */
  predicate Watchful(s: State) {
    && (s.committed.None? && s.self.phase.Prevoting? ==> NoneWins(s, s.prevotes))
    && (s.committed.None? && s.self.phase.Precommitting? && !NoneWins(s, s.prevotes) ==>
          s.self.valid.Some? && s.self.valid.value.round == s.self.round)
  }

  ghost predicate Alert(s: State) { StateOk(s) && |s.active| >= 2 && VotesKnown(s) && Settled(s) && Watchful(s) }

  /** All but what a step is about. */
  ghost predicate Ready(s: State) { StateOk(s) && |s.active| >= 2 && VotesKnown(s) }

  // ---------- precommits ----------

  /** Nothing but the current precommits may hold a quorum that is not committed. */
  predicate PastSettled(s: State) {
    s.committed.None? ==> forall r :: r in s.past ==> NoneWins(s, s.past[r])
  }

  lemma CheckSettles(s: State)
    requires Ready(s) && PastSettled(s)
    ensures var t := AfterPrecommitCheck(s); Ready(t) && Settled(t) && t == s.(committed := t.committed)
  {
  }

  lemma PrecommitSettles(s: State, voter: Id, v: Option<Value>)
    requires Ready(s) && PastSettled(s) && voter in s.active && (voter == s.me || v.None? || v.value in s.known)
    requires voter in s.precommits ==> Settled(s)
    ensures var t := AfterPrecommitFrom(s, voter, v);
      Ready(t) && Settled(t) && t == s.(committed := t.committed, precommits := t.precommits)
  {
    if voter !in s.precommits {
      var t := s.(precommits := s.precommits[voter := v]);
      assert OthersKnown(t.precommits, s.me, s.known);
      CheckSettles(t);
    }
  }

  lemma EnterPrecommitAlert(s: State)
    requires Ready(s) && Settled(s)
    ensures Alert(AfterEnterPrecommit(s)) && AfterEnterPrecommit(s).self == Precommitted(s)
  {
    var x := Precommitted(s);
    var t := s.(self := x);
    PrecommitSettles(t, s.me, x.precommits[x.round]);
    CheckSettles(AfterPrecommitFrom(t, s.me, x.precommits[x.round]));
  }

  // ---------- prevotes ----------

  lemma PrevoteCheckAlert(s: State)
    requires Ready(s) && Settled(s)
    ensures Alert(AfterPrevoteCheck(s))
  {
    if s.committed.None? && s.self.phase.Prevoting? && !NoneWins(s, s.prevotes) { EnterPrecommitAlert(s); }
  }

  lemma PrevoteAlert(s: State, voter: Id, v: Option<Value>)
    requires Ready(s) && Settled(s) && voter in s.active && (voter == s.me || v.None? || v.value in s.known)
    requires voter in s.prevotes ==> Watchful(s)
    ensures Alert(AfterPrevoteFrom(s, voter, v))
  {
    if voter !in s.prevotes {
      var t := s.(prevotes := s.prevotes[voter := v]);
      assert OthersKnown(t.prevotes, s.me, s.known);
      PrevoteCheckAlert(t);
    }
  }

  lemma EnterPrevoteAlert(s: State)
    requires Ready(s) && Settled(s)
    ensures Alert(AfterEnterPrevote(s))
  {
    var x := EnterPrevote(s.self, s.proposal);
    var t := s.(self := x);
    if s.me in s.prevotes {
      PrevoteCheckAlert(t);
    } else {
      PrevoteAlert(t, s.me, x.prevotes[x.round]);
      PrevoteCheckAlert(AfterPrevoteFrom(t, s.me, x.prevotes[x.round]));
    }
  }

  // ---------- messages ----------

  lemma LearnAlert(s: State, v: Value, t: State)
    requires Alert(s) && t == s.(proposal := Some(v), known := s.known + {v})
    ensures Alert(t)
  {
    if s.committed.None? {
      NoNewWinner(s.precommits, s.known, s.active, s.me, v);
      forall r | r in s.past ensures NoneWins(t, s.past[r]) {
        assert NoneWins(s, s.past[r]);
        NoNewWinner(s.past[r], s.known, s.active, s.me, v);
      }
      if NoneWins(s, s.prevotes) { NoNewWinner(s.prevotes, s.known, s.active, s.me, v); }
    }
  }

  lemma ProposalAlert(s: State, v: Value)
    requires Alert(s)
    ensures Alert(AfterProposal(s, v))
  {
    if s.proposal.None? {
      var t := s.(proposal := Some(v), known := s.known + {v});
      LearnAlert(s, v, t);
      if t.committed.None? && t.self.phase.Proposing? { EnterPrevoteAlert(t); }
    }
  }

  /** One bucket replaced, and perhaps some dropped. */
  lemma BucketAlert(s: State, r: nat, more: VoteMap, past: map<nat, VoteMap>)
    requires Alert(s) && OthersKnown(more, s.me, s.known) && past == Trimmed(s.past[r := more])
    ensures forall k :: k in past ==> OthersKnown(past[k], s.me, s.known)
    ensures s.committed.None? && NoneWins(s, more) ==> forall k :: k in past ==> NoneWins(s, past[k])
  {
    forall k | k in past ensures past[k] == more || (k in s.past && past[k] == s.past[k]) { }
  }

  lemma PastAlert(s: State, r: nat, voter: Id, v: Option<Value>)
    requires Alert(s) && r < s.self.round && voter in s.active
    ensures Alert(AfterPastPrecommit(s, r, voter, v))
  {
    PastOk(s, r, voter, v);
    var bucket := Bucket(s.past, r);
    if r + MAX_PAST_ROUNDS >= s.self.round && (v.None? || v.value in s.known) && voter !in bucket {
      var more := bucket[voter := v];
      var past := Trimmed(s.past[r := more]);
      assert OthersKnown(more, s.me, s.known);
      BucketAlert(s, r, more, past);
      BucketStored(s, past, AfterPastPrecommit(s, r, voter, v), NoneWins(s, more));
    }
  }

  lemma BucketStored(s: State, past: map<nat, VoteMap>, t: State, none: bool)
    requires Alert(s) && StateOk(t) && t == s.(past := past, committed := t.committed)
    requires s.committed.Some? || !none ==> t.committed.Some?
    requires forall k :: k in past ==> OthersKnown(past[k], s.me, s.known)
    requires s.committed.None? && none ==> forall k :: k in past ==> NoneWins(s, past[k])
    ensures Alert(t)
  {
    if t.committed.None? {
      assert NoneWins(t, t.precommits);
      forall k | k in t.past ensures NoneWins(t, t.past[k]) { assert NoneWins(s, past[k]); }
    }
  }

  lemma VoteAlert(s: State, kind: Kind, r: nat, voter: Id, v: Option<Value>)
    requires Alert(s)
    ensures Alert(AfterVote(s, kind, r, voter, v))
  {
    if voter in s.active && r < s.self.round && kind.Precommit? {
      PastAlert(s, r, voter, v);
    } else if voter in s.active && r == s.self.round && (v.None? || v.value in s.known) {
      if kind.Precommit? {
        PrecommitSettles(s, voter, v);
      } else {
        PrevoteAlert(s, voter, v);
      }
    }
  }

  // ---------- rounds ----------

  lemma KeptAlert(s: State)
    requires Alert(s)
    ensures forall r :: r in Kept(s) ==> OthersKnown(Kept(s)[r], s.me, s.known)
    ensures s.committed.None? ==> forall r :: r in Kept(s) ==> NoneWins(s, Kept(s)[r])
  {
    assert Bucket(s.past, s.self.round) == map[];
    assert s.precommits + map[] == s.precommits;
    forall r | r in Kept(s) ensures OthersKnown(Kept(s)[r], s.me, s.known) && (s.committed.None? ==> NoneWins(s, Kept(s)[r])) {
      if r != s.self.round { assert Kept(s)[r] == s.past[r]; }
    }
  }

  lemma RoundAlert(s: State, r: nat)
    requires Alert(s) && r > s.self.round
    ensures Alert(AfterRound(s, r))
  {
    var t := AfterRound(s, r);
    RoundOk(s, r);
    KeptAlert(s);
    NoOwnWinner(t.precommits, t.known, t.active, t.me);
    forall k | k in t.past ensures OthersKnown(t.past[k], t.me, t.known) && (t.committed.None? ==> NoneWins(t, t.past[k])) {
      assert OthersKnown(Kept(s)[k], s.me, s.known);
      if s.committed.None? { assert NoneWins(s, Kept(s)[k]); }
    }
  }

  lemma TimeoutAlert(s: State)
    requires Alert(s)
    ensures Alert(AfterTimeout(s))
  {
    if s.committed.None? {
      match s.self.phase
      case Proposing => EnterPrevoteAlert(s);
      case Prevoting => EnterPrecommitAlert(s);
      case Precommitting => RoundAlert(s, s.self.round + 1);
    }
  }

  lemma CrashAlert(s: State, resume: nat, stored: bool)
    requires StateOk(s) && |s.active| >= 2 && Resumes(s.self, resume)
    ensures Alert(AfterCrash(s, resume, stored))
  {
    var t := AfterCrash(s, resume, stored);
    CrashOk(s, resume, stored);
    NoOwnWinner(t.precommits, t.known, t.active, t.me);
  }

  // ---------- runs ----------

  lemma EventAlert(s: State, ev: Event)
    requires Alert(s) && CanHappen(s, ev)
    ensures Alert(AfterEvent(s, ev))
  {
    match ev
    case Proposed(v) => ProposalAlert(s, v);
    case Vote(kind, r, voter, v) => VoteAlert(s, kind, r, voter, v);
    case Timeout => TimeoutAlert(s);
    case Skip(target) => if s.committed.None? && target > s.self.round { RoundAlert(s, target); }
    case Crash(resume, stored) => CrashAlert(s, resume, stored);
    case CrashLocking(voter, v, resume, stored) => CrashAlert(LockWritten(s, voter, v), resume, stored);
  }

  ghost predicate CanHandle(s: State, evs: seq<Event>)
    decreases |evs|
  {
    evs == [] || (CanHappen(s, evs[0]) && CanHandle(AfterEvent(s, evs[0]), evs[1..]))
  }

  ghost function AfterAll(s: State, evs: seq<Event>): State
    requires CanHandle(s, evs)
    decreases |evs|
  {
    if evs == [] then s else AfterAll(AfterEvent(s, evs[0]), evs[1..])
  }

  lemma {:induction false} RunAlert(s: State, evs: seq<Event>)
    requires Alert(s) && CanHandle(s, evs)
    ensures Alert(AfterAll(s, evs))
    decreases |evs|
  {
    if evs != [] {
      EventAlert(s, evs[0]);
      RunAlert(AfterEvent(s, evs[0]), evs[1..]);
    }
  }

  /** Over every run a known block with a precommit quorum among the votes held, of this or an earlier round, makes the engine commit. */
  lemma QuorumCommits(me: Id, active: set<Id>, evs: seq<Event>, votes: VoteMap, v: Value)
    requires me in active && |active| >= 2 && CanHandle(Started(me, active), evs)
    requires var s := AfterAll(Started(me, active), evs);
      && Wins(votes, s.known, active, v)
      && (votes == s.precommits || exists r :: r in s.past && s.past[r] == votes)
    ensures AfterAll(Started(me, active), evs).committed.Some?
  {
    var start := Started(me, active);
    NoOwnWinner(map[], {}, active, me);
    RunAlert(start, evs);
    KeepsSet(start, evs);
    var s := AfterAll(start, evs);
    assert Alert(s);
    assert s.committed.None? ==> NoneWins(s, votes);
  }

  lemma {:induction false} KeepsSet(s: State, evs: seq<Event>)
    requires CanHandle(s, evs)
    ensures AfterAll(s, evs).active == s.active && AfterAll(s, evs).me == s.me
    decreases |evs|
  {
    if evs != [] { KeepsSet(AfterEvent(s, evs[0]), evs[1..]); }
  }
}
