/** The consensus engine of one validator: what each event makes of its state. */
module BftEngine {
  import opened Options
  import opened Bft
  import opened BftVotes

  /** What an engine holds at one height; `self` is the validator it speaks for. */
  datatype State = State(
    me: Id,
    active: set<Id>,
    self: Validator,
    known: set<Value>,
    proposal: Option<Value>,
    prevotes: VoteMap,
    precommits: VoteMap,
    past: map<nat, VoteMap>,
    committed: Option<Mark>)

  function Started(me: Id, active: set<Id>): State {
    State(me, active, Fresh(), {}, None, map[], map[], map[], None)
  }

  /** Votes are of validators in the set; kept precommits are of earlier rounds, and marks of no later ones. */
  predicate StateOk(s: State) {
    && s.me in s.active && s.prevotes.Keys <= s.active && s.precommits.Keys <= s.active
    && (forall r :: r in s.past ==> r < s.self.round && s.past[r].Keys <= s.active)
    && (s.self.valid.Some? ==> s.self.valid.value.round <= s.self.round)
    && (s.self.lock.Some? ==> s.self.lock.value.round <= s.self.round)
  }

  // ---------- precommits ----------

  /** The first block with a precommit quorum is committed. */
  function AfterCommit(s: State, r: nat, v: Value): (next: State)
    ensures next.me == s.me && next.active == s.active
  {
    if s.committed.Some? then s else s.(committed := Some(Mark(v, r)))
  }

  ghost function AfterPrecommitCheck(s: State): (next: State)
    ensures next.me == s.me && next.active == s.active
  {
    var q := Winner(s.precommits, s.known, s.active);
    if q.Some? then AfterCommit(s, s.self.round, q.value) else s
  }

  /** The vote is counted unless the voter already has one. */
  ghost function AfterPrecommitFrom(s: State, voter: Id, v: Option<Value>): (next: State)
    ensures next.me == s.me && next.active == s.active
  {
    if voter in s.precommits then s else AfterPrecommitCheck(s.(precommits := s.precommits[voter := v]))
  }

  /** What the validator does when it precommits. */
  ghost function Precommitted(s: State): Validator {
    var polka := Winner(s.prevotes, s.known, s.active);
    if polka.Some? then EnterPrecommitOn(s.self, polka.value) else EnterPrecommit(s.self)
  }

  /** The precommit of this round is signed and counted. */
  ghost function AfterEnterPrecommit(s: State): (next: State)
    ensures next.me == s.me && next.active == s.active
  {
    var x := Precommitted(s);
    AfterPrecommitCheck(AfterPrecommitFrom(s.(self := x), s.me, x.precommits[x.round]))
  }

  // ---------- prevotes ----------

  /** A prevote quorum makes a prevoting engine precommit; after that it is only remembered. */
  ghost function AfterPrevoteCheck(s: State): (next: State)
    ensures next.me == s.me && next.active == s.active
  {
    var polka := Winner(s.prevotes, s.known, s.active);
    if s.committed.Some? || polka.None? || s.self.phase.Proposing? then s
    else if s.self.phase.Prevoting? then AfterEnterPrecommit(s)
    else s.(self := SeeQuorum(s.self, polka.value))
  }

  ghost function AfterPrevoteFrom(s: State, voter: Id, v: Option<Value>): (next: State)
    ensures next.me == s.me && next.active == s.active
  {
    if voter in s.prevotes then s else AfterPrevoteCheck(s.(prevotes := s.prevotes[voter := v]))
  }

  /** The prevote of this round is signed and counted; votes that came before may complete a quorum. */
  ghost function AfterEnterPrevote(s: State): (next: State)
    ensures next.me == s.me && next.active == s.active
  {
    var x := EnterPrevote(s.self, s.proposal);
    var t := AfterPrevoteFrom(s.(self := x), s.me, x.prevotes[x.round]);
    if t.self.phase.Prevoting? then AfterPrevoteCheck(t) else t
  }

  // ---------- messages ----------

  /** The first proposal of a round; its block is known from now on. */
  ghost function AfterProposal(s: State, v: Value): (next: State)
    ensures next.me == s.me && next.active == s.active
  {
    if s.proposal.Some? then s
    else
      var t := s.(proposal := Some(v), known := s.known + {v});
      if t.committed.None? && t.self.phase.Proposing? then AfterEnterPrevote(t) else t
  }

  /** How many earlier rounds an engine keeps the precommits of. */
  const MAX_PAST_ROUNDS: nat := 64

  predicate IsOldest(rounds: set<nat>, r: nat) { r in rounds && forall q :: q in rounds ==> r <= q }

  ghost function Oldest(rounds: set<nat>): (r: nat)
    requires rounds != {}
    ensures IsOldest(rounds, r)
  {
    assert exists r :: IsOldest(rounds, r) by { var r := HasOldest(rounds); }
    var r :| IsOldest(rounds, r);
    r
  }

  lemma {:induction false} HasOldest(rounds: set<nat>) returns (r: nat)
    requires rounds != {}
    ensures IsOldest(rounds, r)
    decreases |rounds|
  {
    var x :| x in rounds;
    r := x;
    if rounds != {x} {
      var q := HasOldest(rounds - {x});
      if q < x { r := q; }
      forall k | k in rounds ensures r <= k {
        if k != x { assert k in rounds - {x}; }
      }
    }
  }

  /** The oldest rounds go when there are too many. */
  ghost function Trimmed(past: map<nat, VoteMap>): (r: map<nat, VoteMap>)
    ensures |r| <= MAX_PAST_ROUNDS && r.Keys <= past.Keys && forall k :: k in r ==> r[k] == past[k]
    decreases |past|
  {
    if |past| <= MAX_PAST_ROUNDS then past
    else
      var r := Oldest(past.Keys);
      var rest := past - {r};
      assert rest.Keys == past.Keys - {r} && |rest| == |rest.Keys|;
      Trimmed(rest)
  }

  /** The precommits kept of a round. */
  function Bucket(past: map<nat, VoteMap>, r: nat): VoteMap { if r in past then past[r] else map[] }

  /** A precommit of an earlier round can still complete a quorum. */
  ghost function AfterPastPrecommit(s: State, r: nat, voter: Id, v: Option<Value>): (next: State)
    ensures next.me == s.me && next.active == s.active
  {
    var bucket := Bucket(s.past, r);
    if r + MAX_PAST_ROUNDS < s.self.round || (v.Some? && v.value !in s.known) || voter in bucket then s
    else
      var more := bucket[voter := v];
      var t := s.(past := Trimmed(s.past[r := more]));
      var q := Winner(more, s.known, s.active);
      if q.Some? then AfterCommit(t, r, q.value) else t
  }

  /** A vote of this height; those of later rounds and of unknown blocks have to come again. */
  ghost function AfterVote(s: State, kind: Kind, r: nat, voter: Id, v: Option<Value>): (next: State)
    ensures next.me == s.me && next.active == s.active
  {
    if voter !in s.active || r > s.self.round then s
    else if r < s.self.round then if kind.Precommit? then AfterPastPrecommit(s, r, voter, v) else s
    else if v.Some? && v.value !in s.known then s
    else if kind.Precommit? then AfterPrecommitFrom(s, voter, v)
    else AfterPrevoteFrom(s, voter, v)
  }

  // ---------- rounds ----------

  /** The engine's own vote of a round, if it has signed one. */
  function OwnVote(votes: map<nat, Option<Value>>, r: nat, me: Id): VoteMap {
    if r in votes then map[me := votes[r]] else map[]
  }

  /** The precommits of the round are kept when it ends. */
  ghost function Kept(s: State): map<nat, VoteMap> {
    if |s.precommits| > 0 then Trimmed(s.past[s.self.round := s.precommits + Bucket(s.past, s.self.round)]) else s.past
  }

  /** What belongs to the round goes, but for its precommits; own votes of the new round come back. */
  ghost function AfterRound(s: State, r: nat): (next: State)
    ensures next.me == s.me && next.active == s.active
  {
    var x := EnterRound(s.self, r);
    s.(self := x, proposal := None, past := Kept(s),
       prevotes := OwnVote(x.prevotes, r, s.me), precommits := OwnVote(x.precommits, r, s.me))
  }

  /** The timer of the phase has run out; a precommit quorum still commits. */
  ghost function AfterTimeout(s: State): (next: State)
    ensures next.me == s.me && next.active == s.active
  {
    if s.committed.Some? then s
    else
      match s.self.phase
      case Proposing => AfterEnterPrevote(s)
      case Prevoting => AfterEnterPrecommit(s)
      case Precommitting =>
        var t := AfterPrecommitCheck(s);
        if t.committed.Some? then t else AfterRound(s, s.self.round + 1)
  }

  /** Others are ahead: rounds are skipped. */
  ghost function AfterSkip(s: State, target: nat): (next: State)
    ensures next.me == s.me && next.active == s.active
  {
    if s.committed.Some? || target <= s.self.round then s else AfterRound(s, target)
  }

  /** After a crash signed votes, the lock and, if it was stored, the locked block come back. */
  function AfterCrash(s: State, resume: nat, stored: bool): (next: State)
    ensures next.me == s.me && next.active == s.active
  {
    var x := Restarted(s.self, resume);
    State(s.me, s.active, x, if stored && x.lock.Some? then {x.lock.value.value} else {}, None,
      OwnVote(x.prevotes, resume, s.me), OwnVote(x.precommits, resume, s.me), map[], None)
  }

  /** The votes of a round recent enough are not among those that go. */
  lemma {:induction false} TrimKeeps(past: map<nat, VoteMap>, r: nat, round: nat)
    requires r in past && r < round <= r + MAX_PAST_ROUNDS && forall k :: k in past ==> k < round
    ensures r in Trimmed(past)
    decreases |past|
  {
    if |past| > MAX_PAST_ROUNDS {
      var k := Oldest(past.Keys);
      assert |past.Keys| == |past|;
      if k == r { FewBetween(past.Keys, r, round); }
      var rest := past - {k};
      assert rest.Keys == past.Keys - {k} && |rest| == |rest.Keys|;
      TrimKeeps(rest, r, round);
    }
  }

  lemma {:induction false} FewBetween(ks: set<nat>, a: nat, b: nat)
    requires a <= b && forall k :: k in ks ==> a <= k < b
    ensures |ks| <= b - a
    decreases b
  {
    if a < b { FewBetween(ks - {b - 1}, a, b - 1); } else { assert ks == {}; }
  }

  lemma PastOk(s: State, r: nat, voter: Id, v: Option<Value>)
    requires StateOk(s) && r < s.self.round && voter in s.active
    ensures StateOk(AfterPastPrecommit(s, r, voter, v)) && Bucket(s.past, r).Keys <= s.active
  {
  }

  lemma RoundOk(s: State, r: nat)
    requires StateOk(s) && r > s.self.round
    ensures StateOk(AfterRound(s, r))
  {
    var bucket := Bucket(s.past, s.self.round);
    assert (s.precommits + bucket).Keys == s.precommits.Keys + bucket.Keys;
  }

  lemma CrashOk(s: State, resume: nat, stored: bool)
    requires StateOk(s) && Resumes(s.self, resume)
    ensures StateOk(AfterCrash(s, resume, stored))
  {
  }

  // ---------- events ----------

  datatype Event =
    | Proposed(value: Value)
    | Vote(kind: Kind, round: nat, voter: Id, vote: Option<Value>)
    | Timeout
    | Skip(target: nat)
    | Crash(resume: nat, stored: bool)
    | CrashLocking(voter: Id, vote: Option<Value>, resume: nat, stored: bool)

  /** The block that a further prevote gives a quorum. */
  ghost function Completed(s: State, voter: Id, v: Option<Value>): Option<Value> {
    Winner(s.prevotes[voter := v], s.known, s.active)
  }

  /** The state when a further prevote has led to a lock that was written down, and to nothing else yet. */
  ghost function LockWritten(s: State, voter: Id, v: Option<Value>): State
    requires Completed(s, voter, v).Some?
  {
    s.(self := s.self.(lock := Some(Mark(Completed(s, voter, v).value, s.self.round))))
  }

  /** A crash resumes in the last round voted or locked in. */
  ghost predicate CanHappen(s: State, ev: Event) {
    match ev
    case Crash(resume, _) => Resumes(s.self, resume)
    case CrashLocking(voter, v, resume, _) =>
      && s.committed.None? && s.self.phase.Prevoting? && voter in s.active && voter !in s.prevotes
      && Completed(s, voter, v).Some? && Resumes(LockWritten(s, voter, v).self, resume)
    case _ => true
  }

  ghost function AfterEvent(s: State, ev: Event): (next: State)
    requires CanHappen(s, ev)
    ensures next.me == s.me && next.active == s.active
  {
    match ev
    case Proposed(v) => AfterProposal(s, v)
    case Vote(kind, r, voter, v) => AfterVote(s, kind, r, voter, v)
    case Timeout => AfterTimeout(s)
    case Skip(target) => AfterSkip(s, target)
    case Crash(resume, stored) => AfterCrash(s, resume, stored)
    case CrashLocking(voter, v, resume, stored) => AfterCrash(LockWritten(s, voter, v), resume, stored)
  }

  // ---------- the engine ----------

  class Engine {
    const me: Id
    const active: set<Id>
    var round: nat
    var phase: Phase
    var lock: Option<Mark>
    var valid: Option<Mark>
    var signedPrevotes: map<nat, Option<Value>>
    var signedPrecommits: map<nat, Option<Value>>
    var known: set<Value>
    var proposal: Option<Value>
    var prevotes: VoteMap
    var precommits: VoteMap
    var past: map<nat, VoteMap>
    var committed: Option<Mark>

    ghost function View(): Validator
      reads this
    {
      Validator(round, phase, lock, valid, signedPrevotes, signedPrecommits)
    }

    ghost function Now(): State
      reads this
    {
      State(me, active, View(), known, proposal, prevotes, precommits, past, committed)
    }

    ghost predicate Valid()
      reads this
    {
      StateOk(Now())
    }

    constructor (me: Id, active: set<Id>)
      requires me in active
      ensures Valid() && Now() == Started(me, active)
    {
      this.me, this.active := me, active;
      round, phase, lock, valid := 0, Proposing, None, None;
      signedPrevotes, signedPrecommits, known, proposal := map[], map[], {}, None;
      prevotes, precommits, past, committed := map[], map[], map[], None;
    }

    // ---------- precommits ----------

    method EnterCommit(r: nat, v: Value)
      modifies `committed
      ensures Now() == AfterCommit(old(Now()), r, v)
    {
      if committed.Some? { return; }
      committed := Some(Mark(v, r));
    }

    method CheckPrecommitQuorum()
      requires Valid()
      modifies `committed
      ensures Valid() && Now() == AfterPrecommitCheck(old(Now()))
    {
      var q := QuorumValueIn(precommits, known, active);
      if q.Some? { EnterCommit(round, q.value); }
    }

    method RecordPrecommit(voter: Id, v: Option<Value>)
      requires Valid() && voter in active
      modifies `committed, `precommits
      ensures Valid() && Now() == AfterPrecommitFrom(old(Now()), voter, v)
    {
      if voter in precommits { return; }
      precommits := precommits[voter := v];
      CheckPrecommitQuorum();
    }

    /** Locks on the block with a prevote quorum, if there is one, and signs the precommit. */
    method SignPrecommit()
      requires Valid()
      modifies `phase, `valid, `lock, `signedPrecommits
      ensures Valid() && Now() == old(Now()).(self := Precommitted(old(Now()))) && round in signedPrecommits
    {
      var polka := QuorumValueIn(prevotes, known, active);
      phase := Precommitting;
      if polka.Some? { valid, lock := Some(Mark(polka.value, round)), Some(Mark(polka.value, round)); }
      var v := if polka.Some? then polka else if lock.Some? then Some(lock.value.value) else None;
      if round !in signedPrecommits { signedPrecommits := signedPrecommits[round := v]; }
    }

    method EnterPrecommit()
      requires Valid()
      modifies this
      ensures Valid() && Now() == AfterEnterPrecommit(old(Now()))
    {
      SignPrecommit();
      RecordPrecommit(me, signedPrecommits[round]);
      CheckPrecommitQuorum();
    }

    // ---------- prevotes ----------

    method CheckPrevoteQuorum()
      requires Valid()
      modifies this
      ensures Valid() && Now() == AfterPrevoteCheck(old(Now()))
    {
      if committed.Some? { return; }
      var polka := QuorumValueIn(prevotes, known, active);
      if polka.None? { return; }
      if phase.Prevoting? {
        EnterPrecommit();
      } else if phase.Precommitting? && (valid.None? || valid.value.round < round) {
        valid := Some(Mark(polka.value, round));
      }
    }

    method RecordPrevote(voter: Id, v: Option<Value>)
      requires Valid() && voter in active
      modifies this
      ensures Valid() && Now() == AfterPrevoteFrom(old(Now()), voter, v)
    {
      if voter in prevotes { return; }
      prevotes := prevotes[voter := v];
      CheckPrevoteQuorum();
    }

    /** The block to prevote. */
    method SelectPrevote() returns (v: Option<Value>)
      ensures v == Preferred(View(), proposal)
    {
      if lock.Some? {
        if valid.Some? && valid.value.round > lock.value.round { return Some(valid.value.value); }
        return Some(lock.value.value);
      }
      if valid.Some? { return Some(valid.value.value); }
      return proposal;
    }

    method SignPrevote()
      requires Valid()
      modifies `phase, `signedPrevotes
      ensures Valid() && Now() == old(Now()).(self := Bft.EnterPrevote(old(View()), proposal)) && round in signedPrevotes
    {
      var v := SelectPrevote();
      phase := Prevoting;
      if round !in signedPrevotes { signedPrevotes := signedPrevotes[round := v]; }
    }

    method EnterPrevote()
      requires Valid()
      modifies this
      ensures Valid() && Now() == AfterEnterPrevote(old(Now()))
    {
      SignPrevote();
      RecordPrevote(me, signedPrevotes[round]);
      if phase.Prevoting? { CheckPrevoteQuorum(); }
    }

    // ---------- messages ----------

    method OnProposal(v: Value)
      requires Valid()
      modifies this
      ensures Valid() && Now() == AfterProposal(old(Now()), v)
    {
      if proposal.Some? { return; }
      proposal, known := Some(v), known + {v};
      if committed.None? && phase.Proposing? { EnterPrevote(); }
    }

    method RecordPastPrecommit(r: nat, voter: Id, v: Option<Value>)
      requires Valid() && r < round && voter in active
      modifies `committed, `past
      ensures Valid() && Now() == AfterPastPrecommit(old(Now()), r, voter, v)
    {
      PastOk(Now(), r, voter, v);
      if r + MAX_PAST_ROUNDS < round { return; }
      if v.Some? && v.value !in known { return; }
      var bucket := Bucket(past, r);
      if voter in bucket { return; }
      bucket := bucket[voter := v];
      past := Trim(past[r := bucket]);
      var q := QuorumValueIn(bucket, known, active);
      if q.Some? { EnterCommit(r, q.value); }
    }

    method OnVote(kind: Kind, r: nat, voter: Id, v: Option<Value>)
      requires Valid()
      modifies this
      ensures Valid() && Now() == AfterVote(old(Now()), kind, r, voter, v)
    {
      if voter !in active || r > round { return; }
      if r < round {
        if kind.Precommit? { RecordPastPrecommit(r, voter, v); }
        return;
      }
      if v.Some? && v.value !in known { return; }
      if kind.Precommit? {
        RecordPrecommit(voter, v);
      } else {
        RecordPrevote(voter, v);
      }
    }

    // ---------- rounds ----------

    method KeepPrecommits()
      modifies `past
      ensures Now() == old(Now()).(past := Kept(old(Now())))
    {
      if |precommits| > 0 { past := Trim(past[round := precommits + Bucket(past, round)]); }
    }

    method EnterRound(r: nat)
      requires Valid() && r > round
      modifies this
      ensures Valid() && Now() == AfterRound(old(Now()), r)
    {
      RoundOk(Now(), r);
      ResetForRound(r);
    }

    method ResetForRound(r: nat)
      modifies this
      ensures Now() == AfterRound(old(Now()), r)
    {
      KeepPrecommits();
      Renew(r);
    }

    /** Only own votes of the round are left. */
    method Renew(r: nat)
      modifies `round, `phase, `proposal, `prevotes, `precommits
      ensures Now() == old(Now()).(self := Bft.EnterRound(old(View()), r), proposal := None,
        prevotes := OwnVote(signedPrevotes, r, me), precommits := OwnVote(signedPrecommits, r, me))
    {
      round, phase, proposal := r, Proposing, None;
      prevotes, precommits := OwnVote(signedPrevotes, r, me), OwnVote(signedPrecommits, r, me);
    }

    method OnTimeout()
      requires Valid()
      modifies this
      ensures Valid() && Now() == AfterTimeout(old(Now()))
    {
      if committed.Some? { return; }
      match phase
      case Proposing => EnterPrevote();
      case Prevoting => EnterPrecommit();
      case Precommitting =>
        CheckPrecommitQuorum();
        if committed.Some? { return; }
        EnterRound(round + 1);
    }

    method SkipTo(target: nat)
      requires Valid()
      modifies this
      ensures Valid() && Now() == AfterSkip(old(Now()), target)
    {
      if committed.Some? || target <= round { return; }
      EnterRound(target);
    }

    method Restart(resume: nat, stored: bool)
      requires Valid() && Resumes(View(), resume)
      modifies this
      ensures Valid() && Now() == AfterCrash(old(Now()), resume, stored)
    {
      CrashOk(Now(), resume, stored);
      ReplayLog(resume, stored);
    }

    /** Reads back the signed votes and the lock. */
    method ReplayLog(resume: nat, stored: bool)
      modifies this
      ensures Now() == AfterCrash(old(Now()), resume, stored)
    {
      valid, committed, past := lock, None, map[];
      known := if stored && lock.Some? then {lock.value.value} else {};
      Renew(resume);
    }
  }

  /** Drops the oldest rounds while there are too many. */
  method Trim(past: map<nat, VoteMap>) returns (r: map<nat, VoteMap>)
    ensures r == Trimmed(past)
  {
    r := past;
    while |r| > MAX_PAST_ROUNDS
      invariant Trimmed(r) == Trimmed(past)
      decreases |r|
    {
      assert |r.Keys| == |r|;
      var first := FindOldest(r.Keys);
      assert (r - {first}).Keys == r.Keys - {first} && |(r - {first}).Keys| == |r - {first}|;
      r := r - {first};
    }
  }

  lemma OneOldest(rounds: set<nat>, a: nat, b: nat)
    requires IsOldest(rounds, a) && IsOldest(rounds, b)
    ensures a == b
  {
  }

  method FindOldest(rounds: set<nat>) returns (r: nat)
    requires rounds != {}
    ensures r == Oldest(rounds)
  {
    r :| r in rounds;
    var left := rounds - {r};
    while left != {}
      invariant left <= rounds && r in rounds && forall q :: q in rounds && q !in left ==> r <= q
      decreases |left|
    {
      var q :| q in left;
      if q < r { r := q; }
      left := left - {q};
    }
    OneOldest(rounds, r, Oldest(rounds));
  }
}
