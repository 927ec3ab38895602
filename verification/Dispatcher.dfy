/** Collecting votes: a proposal is confirmed once more than two thirds of the
    arbiters accept it, and any two confirmed proposals share signers. */
module Dispatchers {
  import opened Basics
  import opened ViewClocks
  import opened ConsensusViews

  type Hash = nat

  datatype Proposal = Proposal(hash: Hash, sponsor: Key, viewOffset: Uint32)

  datatype Vote = Vote(proposal: Hash, signer: Key, accept: bool, signature: nat)

  /** What the hash of a vote is taken over. */
  datatype VoteId = VoteId(proposal: Hash, signer: Key, accept: bool)

  function IdOf(v: Vote): VoteId { VoteId(v.proposal, v.signer, v.accept) }

  datatype Confirm = Confirm(proposal: Proposal, votes: seq<Vote>)

  /** More than this many of `total` arbiters are a majority. */
  function MajorityCount(total: nat): nat { total * 2 / 3 }

  /** That is, more than two thirds. */
  lemma MajorityExactly(total: nat, n: nat)
    ensures n > MajorityCount(total) <==> 3 * n > 2 * total
  {
  }

  /** Valid votes stored under their own hash, all from `producers`, all accepting or all
      rejecting. */
  ghost predicate Filed(votes: map<VoteId, Vote>, producers: seq<Key>, accept: bool, voteOk: Vote -> bool) {
    forall k :: k in votes ==>
      IdOf(votes[k]) == k && votes[k].signer in producers && votes[k].accept == accept && voteOk(votes[k])
  }

  ghost predicate ByHash(votes: map<VoteId, Vote>) {
    forall k :: k in votes ==> IdOf(votes[k]) == k
  }

  /** All of `votes` are for one proposal. */
  ghost predicate AllFor(votes: map<VoteId, Vote>, p: Proposal) {
    forall k :: k in votes ==> votes[k].proposal == p.hash
  }

  /** With enough votes and a valid proposal the confirm passes the check if and only if
      `pure` holds. */
  ghost predicate PassesIff(c: Confirm, pure: bool, voteOk: Vote -> bool) {
    forall min: int, ok: bool :: Checked(c, min, ok, voteOk) <==> ok && min <= |c.votes| && pure
  }

  /** A confirm as the dispatcher builds it: a majority of different votes, all
      cast by producers. */
  ghost predicate Built(c: Confirm, producers: seq<Key>, total: nat) {
    && |c.votes| > MajorityCount(total)
    && (forall i, j :: 0 <= i < j < |c.votes| ==> IdOf(c.votes[i]) != IdOf(c.votes[j]))
    && (forall i :: 0 <= i < |c.votes| ==> c.votes[i].signer in producers)
  }

  /** CheckConfirm. */
  method CheckConfirm(c: Confirm, minSignCount: int, proposalOk: bool, voteOk: Vote -> bool) returns (ok: bool)
    ensures ok <==> Checked(c, minSignCount, proposalOk, voteOk)
    ensures ok <==>
      && proposalOk && |c.votes| >= minSignCount
      && forall v :: v in c.votes ==> v.accept && v.proposal == c.proposal.hash && voteOk(v)
  {
    if !proposalOk {
      return false;
    }
    if |c.votes| < minSignCount {
      return false;
    }
    for i := 0 to |c.votes|
      invariant forall k :: 0 <= k < i ==>
        c.votes[k].accept && c.votes[k].proposal == c.proposal.hash && voteOk(c.votes[k])
    {
      if !c.votes[i].accept || c.votes[i].proposal != c.proposal.hash || !voteOk(c.votes[i]) {
        return false;
      }
    }
    return true;
  }

  ghost predicate Checked(c: Confirm, minSignCount: int, proposalOk: bool, voteOk: Vote -> bool) {
    && proposalOk && |c.votes| >= minSignCount
    && forall k :: 0 <= k < |c.votes| ==>
         c.votes[k].accept && c.votes[k].proposal == c.proposal.hash && voteOk(c.votes[k])
  }

  /* ---------- quorum intersection ---------- */

  function Signers(c: Confirm): set<Key> {
    set i | 0 <= i < |c.votes| :: c.votes[i].signer
  }

  function Members(producers: seq<Key>): set<Key> {
    set k | k in producers
  }

  /** Votes for one proposal with different hashes come from different signers. */
  lemma DifferentSigners(c: Confirm, producers: seq<Key>, total: nat, minSignCount: int, proposalOk: bool,
                         voteOk: Vote -> bool)
    requires Built(c, producers, total) && Checked(c, minSignCount, proposalOk, voteOk)
    ensures |Signers(c)| == |c.votes| && Signers(c) <= Members(producers)
  {
    forall i, j | 0 <= i < j < |c.votes| ensures c.votes[i].signer != c.votes[j].signer {
      assert IdOf(c.votes[i]) != IdOf(c.votes[j]);
    }
    CountSigners(c.votes, |c.votes|);
    assert Signers(c) == SignersOf(c.votes, |c.votes|);
  }

  ghost function SignersOf(votes: seq<Vote>, n: nat): set<Key>
    requires n <= |votes|
  {
    set i | 0 <= i < n :: votes[i].signer
  }

  lemma {:induction false} CountSigners(votes: seq<Vote>, n: nat)
    requires n <= |votes| && forall i, j :: 0 <= i < j < |votes| ==> votes[i].signer != votes[j].signer
    ensures |SignersOf(votes, n)| == n
    decreases n
  {
    if n > 0 {
      CountSigners(votes, n - 1);
      assert SignersOf(votes, n) == SignersOf(votes, n - 1) + {votes[n - 1].signer};
      assert votes[n - 1].signer !in SignersOf(votes, n - 1);
    }
  }

  lemma Overlap(a: set<Key>, b: set<Key>, all: set<Key>)
    requires a <= all && b <= all
    ensures |a * b| >= |a| + |b| - |all|
  {
    assert |a + b| == |a| + |b| - |a * b|;
    SubsetSize(a + b, all);
  }

  /** Two confirms that dispatchers built under one producer set, and that both
      pass the check, share more than a third of the arbiters as signers. */
  lemma QuorumIntersection(c1: Confirm, c2: Confirm, producers: seq<Key>, total: nat, min1: int, min2: int,
                           ok1: bool, ok2: bool, voteOk: Vote -> bool)
    requires Built(c1, producers, total) && Checked(c1, min1, ok1, voteOk)
    requires Built(c2, producers, total) && Checked(c2, min2, ok2, voteOk)
    requires |Members(producers)| <= total
    ensures |Signers(c1) * Signers(c2)| >= 2 * (MajorityCount(total) + 1) - total
    ensures 3 * |Signers(c1) * Signers(c2)| > total
    ensures forall s :: s in Signers(c1) && s in Signers(c2) ==>
      && (exists v :: v in c1.votes && v.signer == s && v.accept && v.proposal == c1.proposal.hash && voteOk(v))
      && (exists v :: v in c2.votes && v.signer == s && v.accept && v.proposal == c2.proposal.hash && voteOk(v))
  {
    MajorityExactly(total, |c1.votes|);
    MajorityExactly(total, |c2.votes|);
    hide MajorityCount;
    forall s | s in Signers(c1) && s in Signers(c2)
      ensures exists v :: v in c1.votes && v.signer == s && v.accept && v.proposal == c1.proposal.hash && voteOk(v)
      ensures exists v :: v in c2.votes && v.signer == s && v.accept && v.proposal == c2.proposal.hash && voteOk(v)
    {
      var i :| 0 <= i < |c1.votes| && c1.votes[i].signer == s;
      var j :| 0 <= j < |c2.votes| && c2.votes[j].signer == s;
      assert c1.votes[i] in c1.votes && c2.votes[j] in c2.votes;
    }
    DifferentSigners(c1, producers, total, min1, ok1, voteOk);
    DifferentSigners(c2, producers, total, min2, ok2, voteOk);
    Overlap(Signers(c1), Signers(c2), Members(producers));
  }

  /* ---------- the dispatcher ---------- */

  lemma Passes(c: Confirm, votes: map<VoteId, Vote>, p: Proposal, voteOk: Vote -> bool)
    requires c.proposal == p && forall k :: k in votes ==> IdOf(votes[k]) == k && votes[k].accept && voteOk(votes[k])
    requires forall v :: v in c.votes <==> IdOf(v) in votes && votes[IdOf(v)] == v
    ensures PassesIff(c, AllFor(votes, p), voteOk)
  {
    if AllFor(votes, p) {
      forall i | 0 <= i < |c.votes| ensures c.votes[i].accept && c.votes[i].proposal == p.hash && voteOk(c.votes[i]) {
        assert c.votes[i] in c.votes;
      }
    } else {
      var k :| k in votes && votes[k].proposal != p.hash;
      assert votes[k] in c.votes;
    }
  }

  lemma OneMoreFor(votes: map<VoteId, Vote>, p: Proposal, v: Vote)
    requires v.proposal == p.hash && IdOf(v) !in votes
    ensures AllFor(votes[IdOf(v) := v], p) <==> AllFor(votes, p)
  {
    var more := votes[IdOf(v) := v];
    if AllFor(more, p) {
      forall k | k in votes ensures votes[k].proposal == p.hash {
        assert more[k] == votes[k];
      }
    }
  }

  /** A vote counts if it is for the proposal at hand, new, from a producer and
      properly signed. */
  predicate Counts(p: Proposal, accepted: map<VoteId, Vote>, rejected: map<VoteId, Vote>, producers: seq<Key>,
                   voteOk: Vote -> bool, v: Vote)
  {
    && v.proposal == p.hash && IdOf(v) !in accepted && IdOf(v) !in rejected
    && v.signer in producers && voteOk(v)
  }

  lemma StillCounts(p: Proposal, accepted: map<VoteId, Vote>, rejected: map<VoteId, Vote>, accepted': map<VoteId, Vote>,
                    rejected': map<VoteId, Vote>, producers: seq<Key>, voteOk: Vote -> bool, v: Vote)
    requires (IdOf(v) in accepted' <==> IdOf(v) in accepted) && (IdOf(v) in rejected' <==> IdOf(v) in rejected)
    ensures Counts(p, accepted, rejected, producers, voteOk, v) <==>
      Counts(p, accepted', rejected', producers, voteOk, v)
  {
  }

  /** `votes` and the early ones among `keys` that count, accepting or rejecting. */
  function WithEarly(votes: map<VoteId, Vote>, pending: map<VoteId, Vote>, keys: set<VoteId>, accept: bool,
                     counts: Vote -> bool)
    : map<VoteId, Vote>
  {
    votes + map k | k in pending && k in keys && pending[k].accept == accept && counts(pending[k]) :: pending[k]
  }

  lemma NonePending()
    ensures ByHash(map[])
  {
  }

  lemma NoneEarly(votes: map<VoteId, Vote>, pending: map<VoteId, Vote>, accept: bool, counts: Vote -> bool)
    ensures WithEarly(votes, pending, {}, accept, counts) == votes
  {
  }

  lemma NonePendingEarly(votes: map<VoteId, Vote>, keys: set<VoteId>, accept: bool, counts: Vote -> bool)
    ensures WithEarly(votes, map[], keys, accept, counts) == votes
  {
  }

  /** One more early vote. */
  lemma EarlyStep(votes: map<VoteId, Vote>, pending: map<VoteId, Vote>, keys: set<VoteId>, accept: bool,
                  counts: Vote -> bool, k: VoteId)
    requires k in pending && k !in keys
    ensures
      WithEarly(votes, pending, keys + {k}, accept, counts)
      == if pending[k].accept == accept && counts(pending[k]) then
           WithEarly(votes, pending, keys, accept, counts)[k := pending[k]]
         else WithEarly(votes, pending, keys, accept, counts)
    ensures k in WithEarly(votes, pending, keys, accept, counts) <==> k in votes
  {
  }

  datatype VoteResult = VoteResult(succeed: bool, finished: bool, confirm: Option<Confirm>)

  class Dispatcher {
    const view: ConsensusView
    const total: nat // number of arbiters
    const proposalOk: Proposal -> bool // signature checks
    const voteOk: Vote -> bool
    var acceptVotes: map<VoteId, Vote>
    var rejectedVotes: map<VoteId, Vote>
    var pendingVotes: map<VoteId, Vote>
    var precocious: map<Hash, Proposal>
    var processing: Option<Proposal>
    var finishedHeight: nat
    var finishedProposal: Hash
    var proposalProcessFinished: bool

    ghost predicate Valid()
      reads this, view
    {
      && view.Valid() && Filed(acceptVotes, view.producers, true, voteOk)
      && Filed(rejectedVotes, view.producers, false, voteOk) && ByHash(pendingVotes)
    }

    constructor (view: ConsensusView, total: nat, proposalOk: Proposal -> bool, voteOk: Vote -> bool)
      requires view.Valid()
      ensures Valid() && this.view == view && this.total == total
      ensures this.proposalOk == proposalOk && this.voteOk == voteOk
      ensures acceptVotes == rejectedVotes == pendingVotes == map[] && processing == None
    {
      this.view, this.total, this.proposalOk, this.voteOk := view, total, proposalOk, voteOk;
      acceptVotes, rejectedVotes, pendingVotes, precocious := map[], map[], map[], map[];
      processing, finishedHeight, finishedProposal, proposalProcessFinished := None, 0, 0, false;
    }

    /** Lists the accepting votes, in whatever order the map gives. */
    method CreateConfirm() returns (c: Option<Confirm>)
      requires Valid()
      ensures c.None? <==> processing.None?
      ensures c.Some? ==> c.value.proposal == processing.value && |c.value.votes| == |acceptVotes|
      ensures c.Some? && |acceptVotes| > MajorityCount(total) ==> Built(c.value, view.producers, total)
      ensures c.Some? ==> forall v :: v in c.value.votes <==> IdOf(v) in acceptVotes && acceptVotes[IdOf(v)] == v
      ensures c.Some? ==> PassesIff(c.value, AllFor(acceptVotes, processing.value), voteOk)
    {
      if processing.None? {
        return None;
      }
      var votes: seq<Vote>, todo := [], acceptVotes.Keys;
      while todo != {}
        invariant todo <= acceptVotes.Keys && |votes| + |todo| == |acceptVotes|
        invariant forall i :: 0 <= i < |votes| ==>
          IdOf(votes[i]) in acceptVotes.Keys - todo && acceptVotes[IdOf(votes[i])] == votes[i]
        invariant forall k :: k in acceptVotes.Keys - todo ==> acceptVotes[k] in votes
        invariant forall i, j :: 0 <= i < j < |votes| ==> IdOf(votes[i]) != IdOf(votes[j])
      {
        var k :| k in todo;
        votes, todo := votes + [acceptVotes[k]], todo - {k};
      }
      c := Some(Confirm(processing.value, votes));
      Passes(c.value, acceptVotes, processing.value, voteOk);
    }

    /** Counts one vote. A confirm is built only from a majority of different votes
        cast by producers. */
    method ProcessVote(v: Vote) returns (r: VoteResult)
      requires Valid()
      modifies this`acceptVotes, this`rejectedVotes
      ensures Valid()
      ensures r.succeed <==>
        && old(processing).Some? && v.proposal == old(processing).value.hash && v.signer in view.producers && voteOk(v)
        && IdOf(v) !in old(acceptVotes) && IdOf(v) !in old(rejectedVotes)
      ensures r.succeed <==> old(Countable(v))
      ensures acceptVotes == if r.succeed && v.accept then old(acceptVotes)[IdOf(v) := v] else old(acceptVotes)
      ensures rejectedVotes == if r.succeed && !v.accept then old(rejectedVotes)[IdOf(v) := v] else old(rejectedVotes)
      ensures r.finished <==> r.succeed && v.accept && |acceptVotes| > MajorityCount(total)
      ensures r.finished <==> r.succeed && v.accept && 3 * |acceptVotes| > 2 * total
      ensures r.confirm.Some? <==> r.finished
      ensures r.confirm.Some? ==>
        Built(r.confirm.value, view.producers, total) && r.confirm.value.proposal == processing.value
      ensures r.confirm.Some? ==> PassesIff(r.confirm.value, AllFor(old(acceptVotes), processing.value), voteOk)
      ensures processing.Some? ==>
        (AllFor(acceptVotes, processing.value) <==> AllFor(old(acceptVotes), processing.value))
    {
      MajorityExactly(total, |acceptVotes|);
      if !Countable(v) {
        return VoteResult(false, false, None);
      }
      if v.accept {
        OneMoreFor(acceptVotes, processing.value, v);
        acceptVotes := acceptVotes[IdOf(v) := v];
        MajorityExactly(total, |acceptVotes|);
        if |acceptVotes| > MajorityCount(total) {
          var c := CreateConfirm();
          return VoteResult(true, true, c);
        }
      } else {
        rejectedVotes := rejectedVotes[IdOf(v) := v];
      }
      return VoteResult(true, false, None);
    }

    predicate Countable(v: Vote)
      reads this, view
    {
      processing.Some? && Counts(processing.value, acceptVotes, rejectedVotes, view.producers, voteOk, v)
    }

    method AddPendingVote(v: Vote)
      requires Valid()
      modifies this`pendingVotes
      ensures Valid() && pendingVotes == old(pendingVotes)[IdOf(v) := v]
    {
      pendingVotes := pendingVotes[IdOf(v) := v];
    }

    /** Turns to a proposal and counts the votes that came early, all of them unless
        they make a majority before. */
    method SetProcessingProposal(p: Proposal)
      returns (finished: bool, confirm: Option<Confirm>, ghost counted: set<VoteId>)
      requires Valid()
      modifies this`processing, this`acceptVotes, this`rejectedVotes, this`pendingVotes
      ensures Valid() && processing == Some(p)
      ensures acceptVotes == WithEarly(old(acceptVotes), old(pendingVotes), counted, true, old(CountsFor(p)))
      ensures rejectedVotes == WithEarly(old(rejectedVotes), old(pendingVotes), counted, false, old(CountsFor(p)))
      ensures counted <= old(pendingVotes).Keys && (!finished ==> counted == old(pendingVotes).Keys)
      ensures finished ==> |acceptVotes| > MajorityCount(total)
      ensures !finished ==> |acceptVotes| <= Max(|old(acceptVotes)|, MajorityCount(total))
      ensures pendingVotes == if finished then old(pendingVotes) else map[]
      ensures confirm.Some? <==> finished
      ensures confirm.Some? ==> Built(confirm.value, view.producers, total) && confirm.value.proposal == p
      ensures confirm.Some? ==> PassesIff(confirm.value, AllFor(old(acceptVotes), p), voteOk)
    {
      hide WithEarly, Counts, Filed, ByHash, Built, MajorityCount, AllFor, PassesIff;
      ghost var counts := CountsFor(p);
      processing := Some(p);
      var todo := pendingVotes.Keys;
      counted := {};
      NoneEarly(acceptVotes, pendingVotes, true, counts);
      NoneEarly(rejectedVotes, pendingVotes, false, counts);
      while todo != {}
        invariant Valid() && processing == Some(p) && todo <= pendingVotes.Keys && pendingVotes == old(pendingVotes)
        invariant counted == pendingVotes.Keys - todo
        invariant acceptVotes == WithEarly(old(acceptVotes), pendingVotes, counted, true, counts)
        invariant rejectedVotes == WithEarly(old(rejectedVotes), pendingVotes, counted, false, counts)
        invariant |acceptVotes| <= Max(|old(acceptVotes)|, MajorityCount(total))
        invariant AllFor(acceptVotes, p) <==> AllFor(old(acceptVotes), p)
        decreases todo
      {
        var k :| k in todo;
        var r := CountEarly(p, k, old(acceptVotes), old(rejectedVotes), counted, counts);
        todo, counted := todo - {k}, counted + {k};
        if r.finished {
          return true, r.confirm, counted;
        }
      }
      assert ByHash(map[]) by { NonePending(); }
      pendingVotes := map[];
      return false, None, counted;
    }

    /** Counts one early vote if it is for the proposal at hand. */
    method CountEarly(p: Proposal, k: VoteId, ghost accepted: map<VoteId, Vote>, ghost rejected: map<VoteId, Vote>,
                      ghost counted: set<VoteId>, ghost counts: Vote -> bool)
      returns (r: VoteResult)
      requires Valid() && processing == Some(p) && k in pendingVotes && k !in counted
      requires forall v :: counts(v) == Counts(p, accepted, rejected, view.producers, voteOk, v)
      requires acceptVotes == WithEarly(accepted, pendingVotes, counted, true, counts)
      requires rejectedVotes == WithEarly(rejected, pendingVotes, counted, false, counts)
      modifies this`acceptVotes, this`rejectedVotes
      ensures Valid()
      ensures acceptVotes == WithEarly(accepted, pendingVotes, counted + {k}, true, counts)
      ensures rejectedVotes == WithEarly(rejected, pendingVotes, counted + {k}, false, counts)
      ensures r.finished ==> |acceptVotes| > MajorityCount(total)
      ensures !r.finished ==> |acceptVotes| <= Max(|old(acceptVotes)|, MajorityCount(total))
      ensures r.confirm.Some? <==> r.finished
      ensures r.confirm.Some? ==> Built(r.confirm.value, view.producers, total) && r.confirm.value.proposal == p
      ensures r.confirm.Some? ==> PassesIff(r.confirm.value, AllFor(old(acceptVotes), p), voteOk)
      ensures AllFor(acceptVotes, p) <==> AllFor(old(acceptVotes), p)
    {
      hide WithEarly, Filed, Built, MajorityCount, AllFor, PassesIff;
      var v := pendingVotes[k];
      EarlyStep(accepted, pendingVotes, counted, true, counts, k);
      EarlyStep(rejected, pendingVotes, counted, false, counts, k);
      StillCounts(p, accepted, rejected, acceptVotes, rejectedVotes, view.producers, voteOk, v);
      r := VoteResult(false, false, None);
      if v.proposal == p.hash {
        r := ProcessVote(v);
      }
    }

    /** Which votes count for `p` as things stand. */
    ghost function CountsFor(p: Proposal): Vote -> bool
      reads this, view
    {
      var a, r, producers, ok := acceptVotes, rejectedVotes, view.producers, voteOk;
      (v: Vote) => Counts(p, a, r, producers, ok, v)
    }

    /** Takes up a proposal of the producer on duty. */
    method ProcessProposal(p: Proposal)
      returns (accepted: bool, confirm: Option<Confirm>, ghost counted: set<VoteId>)
      requires Valid()
      modifies this`processing, this`acceptVotes, this`rejectedVotes, this`pendingVotes, this`precocious
      ensures Valid()
      ensures accepted <==>
        && p.viewOffset == view.clock.offset && view.IsOnDuty(p.sponsor) && proposalOk(p)
        && !(old(processing).Some? && old(processing).value.hash == p.hash)
      ensures accepted ==>
        && view.producers != []
        && p.sponsor == view.producers[(view.dutyIndex + p.viewOffset) % 0x1_0000_0000 % |view.producers|]
      ensures processing == if accepted then Some(p) else old(processing)
      ensures confirm.Some? ==> accepted && Built(confirm.value, view.producers, total) && confirm.value.proposal == p
      ensures confirm.Some? ==> PassesIff(confirm.value, AllFor(old(acceptVotes), p), voteOk)
      ensures
        acceptVotes
        == if accepted then WithEarly(old(acceptVotes), old(pendingVotes), counted, true, old(CountsFor(p)))
           else old(acceptVotes)
      ensures
        rejectedVotes
        == if accepted then WithEarly(old(rejectedVotes), old(pendingVotes), counted, false, old(CountsFor(p)))
           else old(rejectedVotes)
      ensures counted <= old(pendingVotes).Keys
      ensures pendingVotes == if accepted && confirm.None? then map[] else old(pendingVotes)
      ensures precocious == if p.viewOffset > view.clock.offset then old(precocious)[p.hash := p] else old(precocious)
    {
      hide WithEarly, Counts, Filed, ByHash, Built, MajorityCount, AllFor, PassesIff;
      confirm, counted := None, {};
      if view.clock.offset != p.viewOffset {
        if p.viewOffset > view.clock.offset {
          precocious := precocious[p.hash := p];
        }
        return false, None, counted;
      }
      if !view.IsOnDuty(p.sponsor) {
        return false, None, counted;
      }
      if processing.Some? && processing.value.hash == p.hash {
        return false, None, counted;
      }
      if p.sponsor !in view.producers || !proposalOk(p) {
        return false, None, counted;
      }
      var finished;
      finished, confirm, counted := SetProcessingProposal(p);
      accepted := true;
    }

    /** Forgets the votes; proposals for later views survive a change of view. */
    method CleanProposals(changeView: bool)
      requires Valid()
      modifies this`processing, this`acceptVotes, this`rejectedVotes, this`pendingVotes, this`precocious,
        this`proposalProcessFinished
      ensures Valid() && processing == None && acceptVotes == rejectedVotes == pendingVotes == map[]
      ensures !proposalProcessFinished
      ensures forall h :: h in precocious <==>
        changeView && h in old(precocious) && old(precocious)[h].viewOffset >= view.clock.offset
      ensures forall h :: h in precocious ==> precocious[h] == old(precocious)[h]
    {
      processing, acceptVotes, rejectedVotes, pendingVotes := None, map[], map[], map[];
      proposalProcessFinished := false;
      if !changeView {
        precocious := map[];
      } else {
        precocious := map h | h in precocious && precocious[h].viewOffset >= view.clock.offset :: precocious[h];
      }
    }

    /** A block has been finished: votes are forgotten, the duty index follows the
        height and the views start over from the time of the block. */
    method FinishedProposal(height: Uint64, headerTime: int, now: int)
      requires Valid()
      modifies this, view
      ensures Valid() && view.producers == old(view.producers)
      ensures height <= old(finishedHeight) ==> unchanged(this) && unchanged(view)
      ensures height > old(finishedHeight) ==>
        && finishedHeight == height && processing == None
        && acceptVotes == rejectedVotes == pendingVotes == map[] && precocious == map[]
        && view.clock == Clock(0, headerTime * SECOND) && !view.running
        && (view.producers != [] ==> view.dutyIndex == DutyOf(height, old(view.workingHeight), |view.producers|))
        && finishedProposal == if old(processing).Some? then old(processing).value.hash else old(finishedProposal)
    {
      if height <= finishedHeight {
        return;
      }
      finishedHeight := height;
      if processing.Some? {
        finishedProposal := processing.value.hash;
      }
      view.running := false;
      CleanProposals(false);
      view.UpdateDutyIndex(height);
      view.ChangeView(now, true, headerTime, true);
    }
  }
  const ANY_VOTE: Vote -> bool := (v: Vote) => true

  /** Two arbiters, one of which has voted for the first of two proposals. */
  method OneVote(a: Key, b: Key) returns (d: Dispatcher)
    requires a != b
    ensures fresh(d) && fresh(d.view) && d.Valid() && d.total == 2 && d.voteOk == ANY_VOTE
    ensures d.proposalOk(Proposal(2, a, 0))
    ensures d.view.producers == [a, b] && d.view.clock.offset == 0 && d.view.IsOnDuty(a)
    ensures d.acceptVotes == map[VoteId(1, a, true) := Vote(1, a, true, 0)]
    ensures d.rejectedVotes == d.pendingVotes == map[] && d.processing == Some(Proposal(1, a, 0))
  {
    hide Filed, ByHash, Built, WithEarly, PassesIff, AllFor;
    var view := new ConsensusView(1, a, [a, b], 0);
    d := new Dispatcher(view, 2, (p: Proposal) => true, ANY_VOTE);
    var p := Proposal(1, a, 0);
    ghost var counts := d.CountsFor(p);
    ghost var counted;
    var accepted, confirm;
    accepted, confirm, counted := d.ProcessProposal(p);
    NonePendingEarly(map[], counted, true, counts);
    NonePendingEarly(map[], counted, false, counts);
    assert ANY_VOTE(Vote(1, a, true, 0)) && a in [a, b];
    var r := d.ProcessVote(Vote(1, a, true, 0));
  }

  /** Taking up a second proposal keeps the votes for the first: with two arbiters, one
      vote for each proposal makes a majority, and a confirm that fails its check. */
  method MixedConfirm(a: Key, b: Key) returns (c: Confirm)
    requires a != b
    ensures Built(c, [a, b], 2) && forall min: int, ok: bool :: !Checked(c, min, ok, ANY_VOTE)
  {
    hide Filed, ByHash, Built, WithEarly, Checked;
    var d := OneVote(a, b);
    var p := Proposal(2, a, 0);
    ghost var counts := d.CountsFor(p);
    ghost var votes := d.acceptVotes;
    ghost var counted;
    var accepted, confirm;
    accepted, confirm, counted := d.ProcessProposal(p);
    NonePendingEarly(votes, counted, true, counts);
    NonePendingEarly(map[], counted, false, counts);
    assert VoteId(1, a, true) in votes && ANY_VOTE(Vote(2, b, true, 0)) && b in [a, b];
    var r := d.ProcessVote(Vote(2, b, true, 0));
    c := r.confirm.value;
  }
}
