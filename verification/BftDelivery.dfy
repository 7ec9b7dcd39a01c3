/** What is delivered to an engine counts: a quorum of votes that came in time is acted on. */
module BftDelivery {
  import opened Options
  import opened Bft
  import opened BftVotes
  import opened BftEngine
  import opened BftAlert

  // ---------- votes of a round ----------

  /** The votes of a kind that an engine holds of a round. */
  function Votes(s: State, kind: Kind, r: nat): VoteMap {
    if kind.Prevote? then if r == s.self.round then s.prevotes else map[]
    else if r == s.self.round then s.precommits else Bucket(s.past, r)
  }

  /** The votes of a kind that it has signed. */
  function SignedVotes(x: Validator, kind: Kind): map<nat, Option<Value>> {
    if kind.Prevote? then x.prevotes else x.precommits
  }

  /** Prevotes are of use in their round, precommits for some rounds more. */
  predicate InTime(round: nat, kind: Kind, r: nat) {
    if kind.Prevote? then r == round else r <= round <= r + MAX_PAST_ROUNDS
  }

  /** A vote of a validator in the set, in time, for no block or a known one. */
  predicate Accepts(s: State, kind: Kind, r: nat, voter: Id, v: Option<Value>) {
    voter in s.active && InTime(s.self.round, kind, r) && (v.None? || v.value in s.known)
  }

  predicate IsCrash(ev: Event) { ev.Crash? || ev.CrashLocking? }

  /** Nothing is signed for a round that is still to come. */
  ghost predicate Sane(s: State) {
    Alert(s) && forall kind: Kind, r: nat :: r in SignedVotes(s.self, kind) ==> r <= s.self.round
  }

  /** One more vote of `id`, unless there is one. */
  predicate Adds(votes: VoteMap, more: VoteMap, id: Id, v: Option<Value>) {
    more == if id in votes then votes else votes[id := v]
  }

  /** The engine signs at most one vote of the round, and its vote is held from then on. */
  predicate OwnStep(votes: VoteMap, more: VoteMap, signed: map<nat, Option<Value>>, now: map<nat, Option<Value>>, r: nat, me: Id) {
    && (now == signed || (r !in signed && r in now && now == signed[r := now[r]] && me in more))
    && (more == votes || (r in now && Adds(votes, more, me, now[r])))
  }

  lemma OwnTwice(a: VoteMap, b: VoteMap, c: VoteMap, x: map<nat, Option<Value>>, y: map<nat, Option<Value>>, z: map<nat, Option<Value>>,
                 r: nat, me: Id)
    requires OwnStep(a, b, x, y, r, me) && OwnStep(b, c, y, z, r, me)
    ensures OwnStep(a, c, x, z, r, me)
  {
  }

  /** What an engine does by itself within a round. */
  ghost predicate ByItself(s: State, t: State) {
    && t == s.(self := t.self, prevotes := t.prevotes, precommits := t.precommits, committed := t.committed)
    && t.self.round == s.self.round
    && OwnStep(s.prevotes, t.prevotes, s.self.prevotes, t.self.prevotes, s.self.round, s.me)
    && OwnStep(s.precommits, t.precommits, s.self.precommits, t.self.precommits, s.self.round, s.me)
    && (s.committed.Some? ==> t.committed == s.committed)
  }

  lemma ByItselfTwice(s: State, t: State, u: State)
    requires ByItself(s, t) && ByItself(t, u)
    ensures ByItself(s, u)
  {
    OwnTwice(s.prevotes, t.prevotes, u.prevotes, s.self.prevotes, t.self.prevotes, u.self.prevotes, s.self.round, s.me);
    OwnTwice(s.precommits, t.precommits, u.precommits, s.self.precommits, t.self.precommits, u.self.precommits, s.self.round, s.me);
  }

  lemma EnterPrecommitByItself(s: State)
    ensures ByItself(s, AfterEnterPrecommit(s))
  {
    var x := Precommitted(s);
    var t := s.(self := x);
    var u := AfterPrecommitFrom(t, s.me, x.precommits[x.round]);
    assert Adds(s.precommits, u.precommits, s.me, x.precommits[x.round]);
  }

  lemma PrevoteCheckByItself(s: State)
    ensures ByItself(s, AfterPrevoteCheck(s))
  {
    EnterPrecommitByItself(s);
  }

  lemma EnterPrevoteByItself(s: State)
    ensures ByItself(s, AfterEnterPrevote(s))
  {
    var x := EnterPrevote(s.self, s.proposal);
    var w := x.prevotes[x.round];
    var t := s.(self := x, prevotes := if s.me in s.prevotes then s.prevotes else s.prevotes[s.me := w]);
    assert ByItself(s, t) by { assert Adds(s.prevotes, t.prevotes, s.me, w); }
    var u := AfterPrevoteFrom(s.(self := x), s.me, w);
    if s.me in s.prevotes {
      assert u == t;
    } else {
      assert u == AfterPrevoteCheck(t);
      PrevoteCheckByItself(t);
      ByItselfTwice(s, t, u);
    }
    PrevoteCheckByItself(u);
    ByItselfTwice(s, u, AfterPrevoteCheck(u));
  }

  // ---------- one event ----------

  /** The vote that an event brings, if it is of that kind and round and is accepted. */
  function Brought(s: State, ev: Event, kind: Kind, r: nat): VoteMap {
    if ev.Vote? && ev.kind == kind && ev.round == r && Accepts(s, kind, r, ev.voter, ev.vote) then map[ev.voter := ev.vote] else map[]
  }

  /** The votes `b` are the votes `a`, what was brought, and perhaps the engine's own. */
  predicate Grown(a: VoteMap, b: VoteMap, x: VoteMap, me: Id, r: nat, signed: map<nat, Option<Value>>) {
    && (forall id :: id in a ==> id in b && b[id] == a[id])
    && (forall id :: id in x && id !in a ==> id in b && b[id] == x[id])
    && (forall id :: id in b && id !in a && id !in x ==> id == me && r in signed && b[id] == signed[r])
  }

  /** Votes of a round stay while they are in time, and grow by `x` and the engine's own vote. */
  ghost predicate Follows(s: State, t: State, kind: Kind, r: nat, x: VoteMap) {
    var y, z := SignedVotes(s.self, kind), SignedVotes(t.self, kind);
    && s.self.round <= t.self.round && (x != map[] ==> t.self.round == s.self.round)
    && (InTime(t.self.round, kind, r) ==> Grown(Votes(s, kind, r), Votes(t, kind, r), x, s.me, r, z))
    && (r in y ==> r in z && z[r] == y[r])
    && (r in z && r !in y ==> r == s.self.round == t.self.round && s.me in Votes(t, kind, r))
  }

  /** Nothing that counts is lost: known blocks stay known, and what is committed stays committed. */
  predicate Keeps(s: State, t: State) { s.known <= t.known && (s.committed.Some? ==> t.committed == s.committed) }

  /** `m` is `a` and what was brought. */
  predicate Includes(a: VoteMap, m: VoteMap, x: VoteMap) {
    && (forall id :: id in a ==> id in m && m[id] == a[id])
    && (forall id :: id in x && id !in a ==> id in m && m[id] == x[id])
    && (forall id :: id in m ==> id in a || id in x)
  }

  lemma OwnGrown(a: VoteMap, m: VoteMap, b: VoteMap, x: VoteMap, signed: map<nat, Option<Value>>, now: map<nat, Option<Value>>, r: nat, me: Id)
    requires Includes(a, m, x) && OwnStep(m, b, signed, now, r, me)
    ensures Grown(a, b, x, me, r, now)
  {
  }

  lemma ItselfFollows(s: State, m: State, t: State, kind: Kind, r: nat, x: VoteMap)
    requires ByItself(m, t) && m.self == s.self && m.me == s.me && m.past == s.past
    requires Includes(Votes(s, kind, r), Votes(m, kind, r), x)
    ensures Follows(s, t, kind, r, x)
  {
    var a, b, c := Votes(s, kind, r), Votes(m, kind, r), Votes(t, kind, r);
    if r == s.self.round {
      OwnGrown(a, b, c, x, SignedVotes(s.self, kind), SignedVotes(t.self, kind), r, s.me);
    } else {
      assert c == b;
      assert Grown(a, c, x, s.me, r, SignedVotes(t.self, kind));
    }
  }

  lemma IncludesSelf(a: VoteMap)
    ensures Includes(a, a, map[])
  {
  }

  lemma IncludesOne(a: VoteMap, id: Id, v: Option<Value>)
    ensures Includes(a, if id in a then a else a[id := v], map[id := v])
  {
  }

  lemma PrevoteFollows(s: State, voter: Id, v: Option<Value>, kind: Kind, r: nat)
    ensures Keeps(s, AfterPrevoteFrom(s, voter, v))
    ensures Follows(s, AfterPrevoteFrom(s, voter, v), kind, r, if kind.Prevote? && r == s.self.round then map[voter := v] else map[])
  {
    var m := if voter in s.prevotes then s else s.(prevotes := s.prevotes[voter := v]);
    if voter !in s.prevotes { PrevoteCheckByItself(m); }
    IncludesSelf(Votes(s, kind, r));
    IncludesOne(s.prevotes, voter, v);
    ItselfFollows(s, m, AfterPrevoteFrom(s, voter, v), kind, r, if kind.Prevote? && r == s.self.round then map[voter := v] else map[]);
  }

  lemma PrecommitFollows(s: State, voter: Id, v: Option<Value>, kind: Kind, r: nat)
    ensures Keeps(s, AfterPrecommitFrom(s, voter, v))
    ensures Follows(s, AfterPrecommitFrom(s, voter, v), kind, r, if kind.Precommit? && r == s.self.round then map[voter := v] else map[])
  {
    var m := if voter in s.precommits then s else s.(precommits := s.precommits[voter := v]);
    IncludesSelf(Votes(s, kind, r));
    IncludesOne(s.precommits, voter, v);
    ItselfFollows(s, m, AfterPrecommitFrom(s, voter, v), kind, r, if kind.Precommit? && r == s.self.round then map[voter := v] else map[]);
  }

  lemma PastBucket(past: map<nat, VoteMap>, pr: nat, more: VoteMap, round: nat, r: nat)
    requires (forall k :: k in past ==> k < round) && pr < round && r < round <= r + MAX_PAST_ROUNDS
    ensures Bucket(Trimmed(past[pr := more]), r) == if r == pr then more else Bucket(past, r)
  {
    if r in past[pr := more] { TrimKeeps(past[pr := more], r, round); }
  }

  lemma PastVotes(s: State, pr: nat, voter: Id, v: Option<Value>, kind: Kind, r: nat)
    requires StateOk(s) && Accepts(s, Precommit, pr, voter, v) && pr < s.self.round && InTime(s.self.round, kind, r)
    ensures Votes(AfterPastPrecommit(s, pr, voter, v), kind, r) ==
      if kind.Precommit? && r == pr && voter !in Bucket(s.past, pr) then Bucket(s.past, pr)[voter := v] else Votes(s, kind, r)
  {
    var bucket := Bucket(s.past, pr);
    if voter !in bucket && kind.Precommit? && r < s.self.round {
      PastBucket(s.past, pr, bucket[voter := v], s.self.round, r);
    }
  }

  lemma GrownIncludes(a: VoteMap, b: VoteMap, x: VoteMap, me: Id, r: nat, signed: map<nat, Option<Value>>)
    requires Includes(a, b, x)
    ensures Grown(a, b, x, me, r, signed)
  {
  }

  lemma PastFollows(s: State, pr: nat, voter: Id, v: Option<Value>, kind: Kind, r: nat, t: State)
    requires StateOk(s) && Accepts(s, Precommit, pr, voter, v) && pr < s.self.round && t == AfterPastPrecommit(s, pr, voter, v)
    ensures Keeps(s, t)
    ensures Follows(s, t, kind, r, if kind.Precommit? && r == pr then map[voter := v] else map[])
  {
    assert t == s.(past := t.past, committed := t.committed);
    if InTime(s.self.round, kind, r) {
      var a := Votes(s, kind, r);
      var x: VoteMap := if kind.Precommit? && r == pr then map[voter := v] else map[];
      PastVotes(s, pr, voter, v, kind, r);
      IncludesSelf(a);
      IncludesOne(a, voter, v);
      GrownIncludes(a, Votes(t, kind, r), x, s.me, r, SignedVotes(s.self, kind));
    }
  }

  lemma RoundFollows(s: State, q: nat, kind: Kind, r: nat)
    requires Sane(s) && q > s.self.round
    ensures Keeps(s, AfterRound(s, q)) && Follows(s, AfterRound(s, q), kind, r, map[])
  {
    var t := AfterRound(s, q);
    assert q !in s.self.prevotes && q !in s.self.precommits by {
      assert forall k :: k in SignedVotes(s.self, Prevote) ==> k <= s.self.round;
      assert forall k :: k in SignedVotes(s.self, Precommit) ==> k <= s.self.round;
    }
    if kind.Precommit? && r < q <= r + MAX_PAST_ROUNDS { KeptFollows(s, q, r); }
  }

  /** The precommits of earlier rounds, the one that ends among them. */
  lemma KeptFollows(s: State, q: nat, r: nat)
    requires StateOk(s) && s.self.round < q && r < q <= r + MAX_PAST_ROUNDS
    ensures Bucket(Kept(s), r) == Votes(s, Precommit, r)
  {
    assert Bucket(s.past, s.self.round) == map[] && s.precommits + map[] == s.precommits;
    var past := s.past[s.self.round := s.precommits];
    if |s.precommits| > 0 {
      assert Kept(s) == Trimmed(past);
      if r in past { TrimKeeps(past, r, q); }
    } else {
      assert s.precommits == map[];
    }
  }

  lemma EventFollows(s: State, ev: Event, kind: Kind, r: nat)
    requires Sane(s) && CanHappen(s, ev) && !IsCrash(ev)
    ensures Keeps(s, AfterEvent(s, ev)) && Follows(s, AfterEvent(s, ev), kind, r, Brought(s, ev, kind, r))
  {
    match ev
    case Proposed(v) => ProposalFollows(s, v, kind, r);
    case Vote(vk, vr, voter, v) => AnyVoteFollows(s, vk, vr, voter, v, kind, r);
    case Timeout => TimeoutFollows(s, kind, r);
    case Skip(target) => if s.committed.None? && target > s.self.round { RoundFollows(s, target, kind, r); } else { NothingFollows(s, kind, r); }
  }

  lemma NothingFollows(s: State, kind: Kind, r: nat)
    ensures Keeps(s, s) && Follows(s, s, kind, r, map[])
  {
  }

  lemma ProposalFollows(s: State, v: Value, kind: Kind, r: nat)
    ensures Keeps(s, AfterProposal(s, v)) && Follows(s, AfterProposal(s, v), kind, r, map[])
  {
    if s.proposal.Some? {
      NothingFollows(s, kind, r);
    } else {
      var m := s.(proposal := Some(v), known := s.known + {v});
      EnterPrevoteByItself(m);
      IncludesSelf(Votes(s, kind, r));
      ItselfFollows(s, m, AfterProposal(s, v), kind, r, map[]);
    }
  }

  lemma AnyVoteFollows(s: State, vk: Kind, vr: nat, voter: Id, v: Option<Value>, kind: Kind, r: nat)
    requires StateOk(s)
    ensures var t := AfterVote(s, vk, vr, voter, v);
      Keeps(s, t) && Follows(s, t, kind, r, Brought(s, Vote(vk, vr, voter, v), kind, r))
  {
    if !Accepts(s, vk, vr, voter, v) {
      NothingFollows(s, kind, r);
    } else if vr < s.self.round {
      PastFollows(s, vr, voter, v, kind, r, AfterPastPrecommit(s, vr, voter, v));
    } else if vk.Precommit? {
      PrecommitFollows(s, voter, v, kind, r);
    } else {
      PrevoteFollows(s, voter, v, kind, r);
    }
  }

  lemma TimeoutFollows(s: State, kind: Kind, r: nat)
    requires Sane(s)
    ensures Keeps(s, AfterTimeout(s)) && Follows(s, AfterTimeout(s), kind, r, map[])
  {
    IncludesSelf(Votes(s, kind, r));
    if s.committed.Some? {
      NothingFollows(s, kind, r);
    } else {
      match s.self.phase
      case Proposing =>
        EnterPrevoteByItself(s);
        ItselfFollows(s, s, AfterTimeout(s), kind, r, map[]);
      case Prevoting =>
        EnterPrecommitByItself(s);
        ItselfFollows(s, s, AfterTimeout(s), kind, r, map[]);
      case Precommitting =>
        RoundFollows(s, s.self.round + 1, kind, r);
    }
  }

  lemma EventSane(s: State, ev: Event)
    requires Sane(s) && CanHappen(s, ev)
    ensures Sane(AfterEvent(s, ev))
  {
    EventAlert(s, ev);
    var t := AfterEvent(s, ev);
    forall kind: Kind, r: nat | r in SignedVotes(t.self, kind) ensures r <= t.self.round {
      if !IsCrash(ev) { EventFollows(s, ev, kind, r); }
    }
  }

  // ---------- votes delivered over a run ----------

  ghost predicate SignsNow(s: State, ev: Event, kind: Kind, r: nat)
    requires CanHappen(s, ev)
  {
    r in SignedVotes(AfterEvent(s, ev).self, kind) && r !in SignedVotes(s.self, kind)
  }

  /** Who has voted in round `r`: validators whose vote was accepted, and the engine once it signs. */
  ghost function SeenAfter(s: State, ev: Event, kind: Kind, r: nat, seen: set<Id>): set<Id>
    requires CanHappen(s, ev)
  {
    seen + Brought(s, ev, kind, r).Keys + if SignsNow(s, ev, kind, r) then {s.me} else {}
  }

  /** Whose first vote in round `r` this event is, for block `v`. */
  ghost function FirstFor(s: State, ev: Event, kind: Kind, r: nat, v: Value, seen: set<Id>): set<Id>
    requires CanHappen(s, ev)
  {
    var x, t := Brought(s, ev, kind, r), AfterEvent(s, ev);
    (set id | id in x && id !in seen && x[id] == Some(v)) +
    if SignsNow(s, ev, kind, r) && SignedVotes(t.self, kind)[r] == Some(v) && v in t.known && s.me !in seen && s.me !in x then {s.me} else {}
  }

  /** The validators whose first accepted vote in round `r`, over a run, is for block `v`. */
  ghost function Delivered(s: State, evs: seq<Event>, kind: Kind, r: nat, v: Value, seen: set<Id>): set<Id>
    requires CanHandle(s, evs)
    decreases |evs|
  {
    if evs == [] then {}
    else FirstFor(s, evs[0], kind, r, v, seen) + Delivered(AfterEvent(s, evs[0]), evs[1..], kind, r, v, SeenAfter(s, evs[0], kind, r, seen))
  }

  ghost predicate NoCrash(evs: seq<Event>) { forall i :: 0 <= i < |evs| ==> !IsCrash(evs[i]) }

  /** While it is in time, the engine holds the votes of `got` for `v`, and no votes but of `seen`. */
  ghost predicate Tracks(s: State, kind: Kind, r: nat, v: Value, seen: set<Id>, got: set<Id>) {
    && got <= seen && (got != {} ==> v in s.known) && (r in SignedVotes(s.self, kind) ==> s.me in seen)
    && (s.self.round < r ==> seen == {})
    && (InTime(s.self.round, kind, r) ==>
          && Votes(s, kind, r).Keys <= seen
          && forall id :: id in got ==> id in Votes(s, kind, r) && Votes(s, kind, r)[id] == Some(v))
  }

  /** What an engine holds after a step whose votes follow. */
  lemma TrackFollows(s: State, t: State, kind: Kind, r: nat, v: Value, seen: set<Id>, got: set<Id>, x: VoteMap, now: set<Id>, more: set<Id>)
    requires StateOk(s) && t.me == s.me && s.known <= t.known && Follows(s, t, kind, r, x) && Tracks(s, kind, r, v, seen, got)
    requires x != map[] ==> InTime(s.self.round, kind, r)
    requires now == seen + x.Keys + if r in SignedVotes(t.self, kind) && r !in SignedVotes(s.self, kind) then {s.me} else {}
    requires forall id :: id in more ==> id in now && id !in seen && v in t.known
    requires forall id :: id in more && id in x ==> x[id] == Some(v)
    requires forall id :: id in more && id !in x ==> id == s.me && r in SignedVotes(t.self, kind) && SignedVotes(t.self, kind)[r] == Some(v)
    ensures true == Tracks(t, kind, r, v, now, got + more)
  {
    var a, b := Votes(s, kind, r), Votes(t, kind, r);
    if InTime(t.self.round, kind, r) {
      assert s.self.round < r ==> a == map[];
      forall id | id in got + more ensures id in b && b[id] == Some(v) {
        if id in got { assert id in a && a[id] == Some(v); }
      }
    }
  }

  lemma TrackStep(s: State, ev: Event, kind: Kind, r: nat, v: Value, seen: set<Id>, got: set<Id>)
    requires Sane(s) && CanHappen(s, ev) && !IsCrash(ev) && Tracks(s, kind, r, v, seen, got)
    ensures true == Tracks(AfterEvent(s, ev), kind, r, v, SeenAfter(s, ev, kind, r, seen), got + FirstFor(s, ev, kind, r, v, seen))
  {
    EventFollows(s, ev, kind, r);
    TrackFollows(s, AfterEvent(s, ev), kind, r, v, seen, got, Brought(s, ev, kind, r), SeenAfter(s, ev, kind, r, seen),
                 FirstFor(s, ev, kind, r, v, seen));
  }

  /** A quorum that a step completes is held. */
  lemma TrackedQuorum(s: State, kind: Kind, r: nat, v: Value, seen: set<Id>, got: set<Id>)
    requires Tracks(s, kind, r, v, seen, got) && InTime(s.self.round, kind, r) && |got| >= Quorum(|s.active|)
    ensures Wins(Votes(s, kind, r), s.known, s.active, v)
  {
    assert got <= Count(Votes(s, kind, r), v);
    SubsetSize(got, Count(Votes(s, kind, r), v));
  }

  // ---------- a quorum of precommits ----------

  lemma HeldCommits(s: State, r: nat, v: Value)
    requires Alert(s) && Wins(Votes(s, Precommit, r), s.known, s.active, v)
    ensures s.committed.Some?
  {
    if r != s.self.round && r !in s.past { assert Count(map[], v) == {}; }
    assert s.committed.None? ==> NoneWins(s, Votes(s, Precommit, r));
  }

  /** A quorum delivered so far is committed. */
  ghost predicate OnTrack(s: State, r: nat, v: Value, seen: set<Id>, got: set<Id>) {
    Sane(s) && Tracks(s, Precommit, r, v, seen, got) && (|got| >= Quorum(|s.active|) ==> s.committed.Some?)
  }

  lemma OnTrackStep(s: State, ev: Event, r: nat, v: Value, seen: set<Id>, got: set<Id>, t: State)
    requires true == OnTrack(s, r, v, seen, got) && CanHappen(s, ev) && !IsCrash(ev) && t == AfterEvent(s, ev)
    ensures true == OnTrack(t, r, v, SeenAfter(s, ev, Precommit, r, seen), got + FirstFor(s, ev, Precommit, r, v, seen))
    ensures t.active == s.active
  {
    EventSane(s, ev);
    TrackStep(s, ev, Precommit, r, v, seen, got);
    if |got + FirstFor(s, ev, Precommit, r, v, seen)| >= Quorum(|s.active|) { StepCommits(s, ev, r, v, seen, got); }
  }

  lemma {:induction false} DeliveredOnTrack(s: State, evs: seq<Event>, r: nat, v: Value, seen: set<Id>, got: set<Id>,
                                            u: State, d: set<Id>, all: set<Id>)
    requires true == OnTrack(s, r, v, seen, got) && CanHandle(s, evs) && NoCrash(evs)
    requires u == AfterAll(s, evs) && d == Delivered(s, evs, Precommit, r, v, seen) && all == got + d
    ensures |all| >= Quorum(|s.active|) ==> u.committed.Some?
    decreases |evs|
  {
    if evs == [] {
      assert all == got;
    } else {
      var ev, rest := evs[0], evs[1..];
      var t, more, now := AfterEvent(s, ev), FirstFor(s, ev, Precommit, r, v, seen), SeenAfter(s, ev, Precommit, r, seen);
      OnTrackStep(s, ev, r, v, seen, got, t);
      var later := Delivered(t, rest, Precommit, r, v, now);
      Regroup(got, more, later);
      DeliveredOnTrack(t, rest, r, v, now, got + more, u, later, all);
    }
  }

  lemma Regroup(a: set<Id>, b: set<Id>, c: set<Id>)
    ensures (a + b) + c == a + (b + c)
  {
  }

  lemma StepCommits(s: State, ev: Event, r: nat, v: Value, seen: set<Id>, got: set<Id>)
    requires Sane(s) && CanHappen(s, ev) && !IsCrash(ev) && Tracks(s, Precommit, r, v, seen, got)
    requires |got| >= Quorum(|s.active|) ==> s.committed.Some?
    requires |got + FirstFor(s, ev, Precommit, r, v, seen)| >= Quorum(|s.active|)
    ensures AfterEvent(s, ev).committed.Some?
  {
    var t, more := AfterEvent(s, ev), FirstFor(s, ev, Precommit, r, v, seen);
    EventFollows(s, ev, Precommit, r);
    if more <= {} {
      assert got + more == got;
    } else {
      EventSane(s, ev);
      TrackStep(s, ev, Precommit, r, v, seen, got);
      TrackedQuorum(t, Precommit, r, v, SeenAfter(s, ev, Precommit, r, seen), got + more);
      HeldCommits(t, r, v);
    }
  }

  /** What an event commits has a quorum among the votes held of its round, which is the round of the
  precommit delivered, or else the current one. */
  lemma NewCommit(s: State, ev: Event)
    requires Sane(s) && CanHappen(s, ev) && !IsCrash(ev) && s.committed.None? && AfterEvent(s, ev).committed.Some?
    ensures var t := AfterEvent(s, ev); var m := t.committed.value;
      && Wins(Votes(t, Precommit, m.round), t.known, t.active, m.value)
      && m.round == (if ev.Vote? && ev.kind.Precommit? then ev.round else s.self.round)
  {
    match ev
    case Proposed(v) => if s.proposal.None? && s.self.phase.Proposing? { EnterPrevoteWins(s.(proposal := Some(v), known := s.known + {v})); }
    case Vote(vk, vr, voter, v) => VoteWins(s, vk, vr, voter, v);
    case Timeout => if s.self.phase.Proposing? { EnterPrevoteWins(s); } else { PrecommitWins(s); }
    case Skip(target) =>
  }

  /** A commit of the current round. */
  ghost predicate WinsNow(s: State, t: State) {
    s.committed.None? && t.committed.Some? ==>
      && t.committed.value.round == s.self.round == t.self.round && t.self.phase.Precommitting?
      && Wins(t.precommits, t.known, t.active, t.committed.value.value)
  }

  lemma PrecommitWins(s: State)
    ensures WinsNow(s, AfterEnterPrecommit(s))
  {
  }

  lemma PrevoteCheckWins(s: State)
    ensures WinsNow(s, AfterPrevoteCheck(s)) && AfterPrevoteCheck(s).self.round == s.self.round
  {
    PrecommitWins(s);
  }

  lemma EnterPrevoteWins(s: State)
    ensures WinsNow(s, AfterEnterPrevote(s))
  {
    var x := EnterPrevote(s.self, s.proposal);
    var w := x.prevotes[x.round];
    var t := s.(self := x, prevotes := if s.me in s.prevotes then s.prevotes else s.prevotes[s.me := w]);
    PrevoteCheckWins(t);
    var u := AfterPrevoteFrom(s.(self := x), s.me, w);
    assert u == t || u == AfterPrevoteCheck(t);
    PrevoteCheckWins(u);
  }

  lemma VoteWins(s: State, vk: Kind, vr: nat, voter: Id, v: Option<Value>)
    requires StateOk(s) && s.committed.None? && AfterVote(s, vk, vr, voter, v).committed.Some?
    ensures var t := AfterVote(s, vk, vr, voter, v); var m := t.committed.value;
      && Wins(Votes(t, Precommit, m.round), t.known, t.active, m.value)
      && m.round == (if vk.Precommit? then vr else s.self.round)
  {
    if vr < s.self.round {
      PastVotes(s, vr, voter, v, Precommit, vr);
    } else if vk.Prevote? {
      PrevoteCheckWins(s.(prevotes := s.prevotes[voter := v]));
    }
  }

  /** The vote that completes a quorum commits that block, in that round. */
  lemma CompletingCommits(s: State, ev: Event, r: nat, v: Value, seen: set<Id>, got: set<Id>, t: State)
    requires true == Tracked(s, Precommit, r, v, seen, got) && CanHappen(s, ev) && !IsCrash(ev) && t == AfterEvent(s, ev)
    requires s.committed.None? && |got| < Quorum(|s.active|) <= |got + FirstFor(s, ev, Precommit, r, v, seen)|
    ensures t.committed == Some(Mark(v, r))
  {
    assert got + {} == got;
    StepCommits(s, ev, r, v, seen, got);
    NewCommit(s, ev);
    CompletingHeld(s, ev, r, v, seen, got, t);
    OneWinner(Votes(t, Precommit, r), t.known, t.active, v, t.committed.value.value);
  }

  lemma CompletingHeld(s: State, ev: Event, r: nat, v: Value, seen: set<Id>, got: set<Id>, t: State)
    requires Sane(s) && CanHappen(s, ev) && !IsCrash(ev) && Tracks(s, Precommit, r, v, seen, got) && t == AfterEvent(s, ev)
    requires FirstFor(s, ev, Precommit, r, v, seen) != {} && Quorum(|s.active|) <= |got + FirstFor(s, ev, Precommit, r, v, seen)|
    ensures Wins(Votes(t, Precommit, r), t.known, t.active, v) && Votes(t, Precommit, r).Keys <= t.active
    ensures r == if ev.Vote? && ev.kind.Precommit? then ev.round else s.self.round
  {
    FirstRound(s, ev, r, v, seen);
    EventAlert(s, ev);
    TrackStep(s, ev, Precommit, r, v, seen, got);
    TrackedQuorum(t, Precommit, r, v, SeenAfter(s, ev, Precommit, r, seen), got + FirstFor(s, ev, Precommit, r, v, seen));
  }

  /** A first precommit is of the round of the vote delivered, or of the current round, and in time. */
  lemma FirstRound(s: State, ev: Event, r: nat, v: Value, seen: set<Id>)
    requires Sane(s) && CanHappen(s, ev) && !IsCrash(ev) && FirstFor(s, ev, Precommit, r, v, seen) != {}
    ensures r == if ev.Vote? && ev.kind.Precommit? then ev.round else s.self.round
    ensures InTime(AfterEvent(s, ev).self.round, Precommit, r)
  {
    EventFollows(s, ev, Precommit, r);
    if ev.Vote? && ev.kind.Precommit? { PrecommitSignsNothing(s, ev, r); }
  }

  lemma PrecommitSignsNothing(s: State, ev: Event, r: nat)
    requires CanHappen(s, ev) && ev.Vote? && ev.kind.Precommit?
    ensures AfterEvent(s, ev).self == s.self && !SignsNow(s, ev, Precommit, r)
  {
  }

  // ---------- a quorum of prevotes ----------

  /** An engine that has entered the precommit phase in this round has locked on the block with a prevote
  quorum, if there is one, and precommitted it unless it had `signed` a precommit before. */
  ghost predicate LocksWinner(round: nat, signed: map<nat, Option<Value>>, t: State) {
    t.self.phase.Precommitting? && t.self.round == round ==>
      var q := Winner(t.prevotes, t.known, t.active);
      q.Some? ==>
        && t.self.lock == t.self.valid == Some(Mark(q.value, round))
        && (round !in signed ==> round in t.self.precommits && t.self.precommits[round] == q)
  }

  lemma PrecommitLocks(s: State)
    ensures true == LocksWinner(s.self.round, s.self.precommits, AfterEnterPrecommit(s))
  {
  }

  lemma PrevoteCheckLocks(s: State)
    requires !s.self.phase.Precommitting?
    ensures true == LocksWinner(s.self.round, s.self.precommits, AfterPrevoteCheck(s))
  {
    PrecommitLocks(s);
  }

  lemma EnterPrevoteLocks(s: State)
    ensures true == LocksWinner(s.self.round, s.self.precommits, AfterEnterPrevote(s))
  {
    var x := EnterPrevote(s.self, s.proposal);
    var w := x.prevotes[x.round];
    var t := s.(self := x, prevotes := if s.me in s.prevotes then s.prevotes else s.prevotes[s.me := w]);
    PrevoteCheckLocks(t);
    var u := AfterPrevoteFrom(s.(self := x), s.me, w);
    assert u == t || u == AfterPrevoteCheck(t);
    if u.self.phase.Prevoting? { PrevoteCheckLocks(u); PrevotingSigns(t, u); }
  }

  lemma PrevotingSigns(t: State, u: State)
    requires (u == t || u == AfterPrevoteCheck(t)) && u.self.phase.Prevoting?
    ensures u.self.round == t.self.round && u.self.precommits == t.self.precommits
  {
  }

  lemma EventLocks(s: State, ev: Event, t: State)
    requires Sane(s) && CanHappen(s, ev) && !IsCrash(ev) && !s.self.phase.Precommitting? && t == AfterEvent(s, ev)
    ensures true == LocksWinner(s.self.round, s.self.precommits, t)
  {
    match ev
    case Proposed(v) => EnterPrevoteLocks(s.(proposal := Some(v), known := s.known + {v}));
    case Vote(vk, vr, voter, v) => VoteLocks(s, vk, vr, voter, v);
    case Timeout => TimeoutLocks(s);
    case Skip(target) =>
  }

  lemma VoteLocks(s: State, vk: Kind, vr: nat, voter: Id, v: Option<Value>)
    requires !s.self.phase.Precommitting?
    ensures true == LocksWinner(s.self.round, s.self.precommits, AfterVote(s, vk, vr, voter, v))
  {
    if vk.Precommit? {
      assert AfterVote(s, vk, vr, voter, v).self == s.self;
    } else {
      PrevoteCheckLocks(s.(prevotes := s.prevotes[voter := v]));
    }
  }

  lemma TimeoutLocks(s: State)
    requires !s.self.phase.Precommitting?
    ensures true == LocksWinner(s.self.round, s.self.precommits, AfterTimeout(s))
  {
    if s.self.phase.Proposing? { EnterPrevoteLocks(s); } else { PrecommitLocks(s); }
  }

  /** An engine does not go on prevoting with a prevote quorum for a known block. */
  lemma PrevotingNone(s: State, ev: Event, t: State)
    requires Sane(s) && CanHappen(s, ev) && !IsCrash(ev) && s.committed.None? && t == AfterEvent(s, ev) && t.self.phase.Prevoting?
    ensures NoneWins(t, t.prevotes)
  {
    EventAlert(s, ev);
    if t.committed.Some? {
      if ev.Vote? && ev.kind.Precommit? {
        PrecommitSignsNothing(s, ev, s.self.round);
        PrecommitLeavesPrevotes(s, ev);
      } else {
        OtherCommits(s, ev);
      }
    }
  }

  lemma PrecommitLeavesPrevotes(s: State, ev: Event)
    requires CanHappen(s, ev) && ev.Vote? && ev.kind.Precommit?
    ensures var t := AfterEvent(s, ev); t.prevotes == s.prevotes && t.known == s.known && t.active == s.active
  {
  }

  /** But for a precommit delivered, an engine commits only while precommitting. */
  lemma OtherCommits(s: State, ev: Event)
    requires CanHappen(s, ev) && !IsCrash(ev) && s.committed.None? && AfterEvent(s, ev).committed.Some?
    requires !(ev.Vote? && ev.kind.Precommit?)
    ensures AfterEvent(s, ev).self.phase.Precommitting?
  {
    match ev
    case Proposed(v) => if s.proposal.None? && s.self.phase.Proposing? { EnterPrevoteWins(s.(proposal := Some(v), known := s.known + {v})); }
    case Vote(_, _, voter, v) => PrevoteCheckWins(s.(prevotes := s.prevotes[voter := v]));
    case Timeout =>
      match s.self.phase {
        case Proposing => EnterPrevoteWins(s);
        case Prevoting => PrecommitWins(s);
        case Precommitting =>
      }
    case Skip(target) =>
  }

  /** A prevote quorum delivered to an engine that has not precommitted makes it lock on that block and precommit it. */
  lemma CompletingLocks(s: State, ev: Event, r: nat, v: Value, seen: set<Id>, got: set<Id>, t: State)
    requires true == Tracked(s, Prevote, r, v, seen, got) && CanHappen(s, ev) && !IsCrash(ev) && t == AfterEvent(s, ev)
    requires s.committed.None? && !s.self.phase.Precommitting? && s.self.round == t.self.round == r && !t.self.phase.Proposing?
    requires |got + FirstFor(s, ev, Prevote, r, v, seen)| >= Quorum(|s.active|)
    ensures t.self.phase.Precommitting? && t.self.lock == t.self.valid == Some(Mark(v, r))
    ensures r !in s.self.precommits ==> r in t.self.precommits && t.self.precommits[r] == Some(v)
  {
    TrackStep(s, ev, Prevote, r, v, seen, got);
    TrackedQuorum(t, Prevote, r, v, SeenAfter(s, ev, Prevote, r, seen), got + FirstFor(s, ev, Prevote, r, v, seen));
    EventAlert(s, ev);
    WinnerIs(t.prevotes, t.known, t.active, v);
    if t.self.phase.Prevoting? { PrevotingNone(s, ev, t); }
    EventLocks(s, ev, t);
  }

  // ---------- over whole runs ----------

  lemma {:induction false} RunSane(s: State, evs: seq<Event>, u: State)
    requires true == Sane(s) && CanHandle(s, evs) && u == AfterAll(s, evs)
    ensures true == Sane(u) && u.active == s.active && u.me == s.me
    decreases |evs|
  {
    if evs != [] {
      EventSane(s, evs[0]);
      RunSane(AfterEvent(s, evs[0]), evs[1..], u);
    }
  }

  lemma StartedSane(me: Id, active: set<Id>)
    requires me in active && |active| >= 2
    ensures true == Sane(Started(me, active))
  {
    NoOwnWinner(map[], {}, active, me);
  }

  ghost function SeenAll(s: State, evs: seq<Event>, kind: Kind, r: nat, seen: set<Id>): set<Id>
    requires CanHandle(s, evs)
    decreases |evs|
  {
    if evs == [] then seen else SeenAll(AfterEvent(s, evs[0]), evs[1..], kind, r, SeenAfter(s, evs[0], kind, r, seen))
  }

  ghost predicate Tracked(s: State, kind: Kind, r: nat, v: Value, seen: set<Id>, got: set<Id>) {
    Sane(s) && Tracks(s, kind, r, v, seen, got)
  }

  lemma TrackedStep(s: State, ev: Event, kind: Kind, r: nat, v: Value, seen: set<Id>, got: set<Id>, t: State)
    requires true == Tracked(s, kind, r, v, seen, got) && CanHappen(s, ev) && !IsCrash(ev) && t == AfterEvent(s, ev)
    ensures true == Tracked(t, kind, r, v, SeenAfter(s, ev, kind, r, seen), got + FirstFor(s, ev, kind, r, v, seen))
  {
    EventSane(s, ev);
    TrackStep(s, ev, kind, r, v, seen, got);
  }

  lemma {:induction false} RunTracks(s: State, evs: seq<Event>, kind: Kind, r: nat, v: Value, seen: set<Id>, got: set<Id>,
                                     u: State, seen': set<Id>, d: set<Id>, all: set<Id>)
    requires true == Tracked(s, kind, r, v, seen, got) && CanHandle(s, evs) && NoCrash(evs)
    requires u == AfterAll(s, evs) && seen' == SeenAll(s, evs, kind, r, seen) && d == Delivered(s, evs, kind, r, v, seen) && all == got + d
    ensures true == Tracked(u, kind, r, v, seen', all)
    decreases |evs|
  {
    if evs == [] {
      assert all == got;
    } else {
      var ev, rest := evs[0], evs[1..];
      var t, more, now := AfterEvent(s, ev), FirstFor(s, ev, kind, r, v, seen), SeenAfter(s, ev, kind, r, seen);
      TrackedStep(s, ev, kind, r, v, seen, got, t);
      var later := Delivered(t, rest, kind, r, v, now);
      Regroup(got, more, later);
      RunTracks(t, rest, kind, r, v, now, got + more, u, seen', later, all);
    }
  }

  /** The engine's own vote of the round, signed before. */
  function OwnSeen(s: State, kind: Kind, r: nat): set<Id> { if r in SignedVotes(s.self, kind) then {s.me} else {} }

  /** A run up to its last crash, or one that has just begun. */
  ghost predicate JustUp(evs: seq<Event>) { evs == [] || IsCrash(evs[|evs| - 1]) }

  /** After a start an engine holds no votes but its own. */
  predicate Blank(s: State) {
    && s.past == map[] && s.proposal.None? && s.committed.None?
    && s.prevotes == OwnVote(s.self.prevotes, s.self.round, s.me) && s.precommits == OwnVote(s.self.precommits, s.self.round, s.me)
  }

  lemma {:induction false} JustUpBlank(s: State, evs: seq<Event>, u: State)
    requires CanHandle(s, evs) && u == AfterAll(s, evs) && JustUp(evs) && (evs == [] ==> Blank(s))
    ensures Blank(u)
    decreases |evs|
  {
    if |evs| > 1 { JustUpBlank(AfterEvent(s, evs[0]), evs[1..], u); }
  }

  lemma BlankTracks(s: State, kind: Kind, r: nat, v: Value)
    requires true == Sane(s) && Blank(s)
    ensures true == Tracked(s, kind, r, v, OwnSeen(s, kind, r), {})
  {
  }

  /** The state when an engine has just come up, after any run and its last crash. */
  ghost predicate ComesUp(me: Id, active: set<Id>, before: seq<Event>, s: State) {
    && me in active && |active| >= 2
    && CanHandle(Started(me, active), before) && JustUp(before) && s == AfterAll(Started(me, active), before)
  }

  lemma UpIsTracked(me: Id, active: set<Id>, before: seq<Event>, s: State, kind: Kind, r: nat, v: Value)
    requires ComesUp(me, active, before, s)
    ensures s.active == active && s.me == me && true == Tracked(s, kind, r, v, OwnSeen(s, kind, r), {})
  {
    var start := Started(me, active);
    StartedSane(me, active);
    RunSane(start, before, s);
    JustUpBlank(start, before, s);
    BlankTracks(s, kind, r, v);
  }

  lemma StartsOnTrack(s: State, r: nat, v: Value, seen: set<Id>)
    requires true == Tracked(s, Precommit, r, v, seen, {})
    ensures true == OnTrack(s, r, v, seen, {})
  {
  }

  /** Precommits that make up a quorum for a known block, each the first of its validator in that round and
  delivered at most 64 rounds later, with no crash after, make the engine commit. */
  lemma QuorumDelivered(me: Id, active: set<Id>, before: seq<Event>, s: State, after: seq<Event>, r: nat, v: Value)
    requires ComesUp(me, active, before, s) && CanHandle(s, after) && NoCrash(after)
    requires |Delivered(s, after, Precommit, r, v, OwnSeen(s, Precommit, r))| >= Quorum(|active|)
    ensures AfterAll(s, after).committed.Some?
  {
    UpIsTracked(me, active, before, s, Precommit, r, v);
    var d := Delivered(s, after, Precommit, r, v, OwnSeen(s, Precommit, r));
    assert {} + d == d;
    StartsOnTrack(s, r, v, OwnSeen(s, Precommit, r));
    DeliveredOnTrack(s, after, r, v, OwnSeen(s, Precommit, r), {}, AfterAll(s, after), d, d);
  }

  /** A run and one more event. */
  lemma {:induction false} OneMore(s: State, evs: seq<Event>, ev: Event, kind: Kind, r: nat, v: Value, seen: set<Id>, u: State)
    requires CanHandle(s, evs) && u == AfterAll(s, evs) && CanHappen(u, ev)
    ensures CanHandle(s, evs + [ev]) && AfterAll(s, evs + [ev]) == AfterEvent(u, ev)
    ensures Delivered(s, evs + [ev], kind, r, v, seen)
      == Delivered(s, evs, kind, r, v, seen) + FirstFor(u, ev, kind, r, v, SeenAll(s, evs, kind, r, seen))
    decreases |evs|
  {
    var more := evs + [ev];
    if evs == [] {
      assert more[1..] == [] && more[0] == ev;
    } else {
      assert more[0] == evs[0] && more[1..] == evs[1..] + [ev];
      OneMore(AfterEvent(s, evs[0]), evs[1..], ev, kind, r, v, SeenAfter(s, evs[0], kind, r, seen), u);
    }
  }

  /** What a run after coming up has delivered is held. */
  lemma RunUp(me: Id, active: set<Id>, before: seq<Event>, s: State, after: seq<Event>, kind: Kind, r: nat, v: Value, u: State,
              seen: set<Id>, d: set<Id>)
    requires ComesUp(me, active, before, s) && CanHandle(s, after) && NoCrash(after) && u == AfterAll(s, after)
    requires seen == SeenAll(s, after, kind, r, OwnSeen(s, kind, r)) && d == Delivered(s, after, kind, r, v, OwnSeen(s, kind, r))
    ensures true == Tracked(u, kind, r, v, seen, d) && u.active == active
    ensures kind.Precommit? && u.committed.None? ==> |d| < Quorum(|active|)
  {
    UpIsTracked(me, active, before, s, kind, r, v);
    assert {} + d == d;
    RunTracks(s, after, kind, r, v, OwnSeen(s, kind, r), {}, u, seen, d, d);
    KeepsSet(s, after);
    if kind.Precommit? {
      StartsOnTrack(s, r, v, OwnSeen(s, kind, r));
      DeliveredOnTrack(s, after, r, v, OwnSeen(s, kind, r), {}, u, d, d);
    }
  }

  lemma PolkaHeld(me: Id, active: set<Id>, before: seq<Event>, s: State, after: seq<Event>, ev: Event, r: nat, v: Value,
                  u: State, t: State, seen: set<Id>, d: set<Id>)
    requires ComesUp(me, active, before, s) && CanHandle(s, after) && NoCrash(after) && u == AfterAll(s, after)
    requires CanHappen(u, ev) && !IsCrash(ev) && t == AfterEvent(u, ev)
    requires u.committed.None? && !u.self.phase.Precommitting? && u.self.round == t.self.round == r && !t.self.phase.Proposing?
    requires seen == SeenAll(s, after, Prevote, r, OwnSeen(s, Prevote, r)) && d == Delivered(s, after, Prevote, r, v, OwnSeen(s, Prevote, r))
    requires |d + FirstFor(u, ev, Prevote, r, v, seen)| >= Quorum(|active|)
    ensures t.self.phase.Precommitting? && t.self.lock == t.self.valid == Some(Mark(v, r))
    ensures r !in u.self.precommits ==> r in t.self.precommits && t.self.precommits[r] == Some(v)
  {
    RunUp(me, active, before, s, after, Prevote, r, v, u, seen, d);
    CompletingLocks(u, ev, r, v, seen, d, t);
  }

  lemma LastHeld(me: Id, active: set<Id>, before: seq<Event>, s: State, after: seq<Event>, ev: Event, r: nat, v: Value,
                 u: State, t: State, seen: set<Id>, d: set<Id>)
    requires ComesUp(me, active, before, s) && CanHandle(s, after) && NoCrash(after) && u == AfterAll(s, after)
    requires CanHappen(u, ev) && !IsCrash(ev) && t == AfterEvent(u, ev) && u.committed.None?
    requires seen == SeenAll(s, after, Precommit, r, OwnSeen(s, Precommit, r)) && d == Delivered(s, after, Precommit, r, v, OwnSeen(s, Precommit, r))
    requires |d + FirstFor(u, ev, Precommit, r, v, seen)| >= Quorum(|active|)
    ensures t.committed == Some(Mark(v, r))
  {
    RunUp(me, active, before, s, after, Precommit, r, v, u, seen, d);
    CompletingCommits(u, ev, r, v, seen, d, t);
  }

  /** Prevotes that make up a quorum for a known block, each the first of its validator in that round and
  delivered in that round, make an engine that has prevoted and not precommitted lock on the block and
  precommit it, unless it signed a precommit of the round before a crash. */
  lemma PolkaDelivered(me: Id, active: set<Id>, before: seq<Event>, s: State, after: seq<Event>, ev: Event, r: nat, v: Value, u: State, t: State)
    requires ComesUp(me, active, before, s) && CanHandle(s, after) && NoCrash(after) && u == AfterAll(s, after)
    requires CanHappen(u, ev) && !IsCrash(ev) && CanHandle(s, after + [ev]) && t == AfterEvent(u, ev)
    requires u.committed.None? && !u.self.phase.Precommitting? && u.self.round == t.self.round == r && !t.self.phase.Proposing?
    requires |Delivered(s, after + [ev], Prevote, r, v, OwnSeen(s, Prevote, r))| >= Quorum(|active|)
    ensures t.self.phase.Precommitting? && t.self.lock == t.self.valid == Some(Mark(v, r))
    ensures r !in u.self.precommits ==> r in t.self.precommits && t.self.precommits[r] == Some(v)
  {
    var own := OwnSeen(s, Prevote, r);
    var d, seen := Delivered(s, after, Prevote, r, v, own), SeenAll(s, after, Prevote, r, own);
    OneMore(s, after, ev, Prevote, r, v, own, u);
    PolkaHeld(me, active, before, s, after, ev, r, v, u, t, seen, d);
  }

  /** Likewise the precommit that completes a quorum commits just that block in that round. */
  lemma LastDelivered(me: Id, active: set<Id>, before: seq<Event>, s: State, after: seq<Event>, ev: Event, r: nat, v: Value, u: State, t: State)
    requires ComesUp(me, active, before, s) && CanHandle(s, after) && NoCrash(after) && u == AfterAll(s, after)
    requires CanHappen(u, ev) && !IsCrash(ev) && CanHandle(s, after + [ev]) && t == AfterEvent(u, ev) && u.committed.None?
    requires |Delivered(s, after + [ev], Precommit, r, v, OwnSeen(s, Precommit, r))| >= Quorum(|active|)
    ensures t.committed == Some(Mark(v, r))
  {
    var own := OwnSeen(s, Precommit, r);
    var d, seen := Delivered(s, after, Precommit, r, v, own), SeenAll(s, after, Precommit, r, own);
    OneMore(s, after, ev, Precommit, r, v, own, u);
    LastHeld(me, active, before, s, after, ev, r, v, u, t, seen, d);
  }
}
