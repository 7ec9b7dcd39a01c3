/** Proposals come from the proposer of the round. */
module BftProposals {
  import opened Options
  import opened Bft
  import opened BftSafety
  import Rotation

  /** Nobody has voted for the block yet. */
  ghost predicate Unheard(w: World, v: Value) { forall kind: Kind, round: nat :: Voters(w, kind, round, v) == {} }

  /** An honest proposer that has not voted yet proposes the block it prefers, or else a new one. */
  ghost predicate Offers(w: World, x: Validator, v: Value) {
    && x.round !in x.prevotes
    && if x.lock.Some? || x.valid.Some? then Preferred(x, None) == Some(v) else Unheard(w, v)
  }

  /** A proposal that is prevoted on is one of the round's proposer: any if that is faulty, else the one it prevoted itself. */
  ghost predicate FromProposer(height: nat, rota: seq<Id>, w: World, a: Action)
    requires Enabled(w, a)
  {
    a.CastPrevote? && a.proposal.Some? ==>
      var x, v := w.nodes[a.id], a.proposal.value;
      var p := Rotation.ProposerFor(height, x.round, rota);
      || p in w.faulty
      || (p == a.id && Offers(w, x, v))
      || (p != a.id && p in w.nodes && Voted(w.nodes[p], Prevote, x.round, v))
  }

  /** All proposals of a run come from the proposers of their rounds. */
  ghost predicate Proposed(height: nat, rota: seq<Id>, w: World, run: seq<Action>)
    requires CanRun(w, run)
    decreases |run|
  {
    run == [] || (FromProposer(height, rota, w, run[0]) && Proposed(height, rota, Next(w, run[0]), run[1..]))
  }
}
