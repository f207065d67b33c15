/** Majority resolution over received votes (dxrk/a2a.py). */
module Consensus {
  import opened Wrappers
  import opened Ordering

  datatype Choice = Choice(text: string)

  const UNDECIDED := Choice("")

  datatype Vote = Vote(agent: string, choice: Choice)

  function Count(votes: seq<Vote>, c: Choice): nat {
    if votes == [] then 0
    else Count(votes[..|votes| - 1], c) + if votes[|votes| - 1].choice == c then 1 else 0
  }

  /** More than half of the received votes. */
  predicate HasMajority(votes: seq<Vote>, c: Choice) {
    2 * Count(votes, c) > |votes|
  }

  /** The listed option with a strict majority, or the empty choice when there is none. */
  ghost predicate IsOutcome(options: seq<Choice>, votes: seq<Vote>, outcome: Choice) {
    && (forall c :: c in options && HasMajority(votes, c) ==> outcome == c)
    && (outcome != UNDECIDED ==> outcome in options && HasMajority(votes, outcome))
  }

  lemma {:induction false} CountsAddUp(votes: seq<Vote>, a: Choice, b: Choice)
    requires a != b
    ensures Count(votes, a) + Count(votes, b) <= |votes|
  {
    if votes != [] {
      CountsAddUp(votes[..|votes| - 1], a, b);
    }
  }

  lemma OneMajority(votes: seq<Vote>, a: Choice, b: Choice)
    requires HasMajority(votes, a) && HasMajority(votes, b)
    ensures a == b
  {
    if a != b {
      CountsAddUp(votes, a, b);
    }
  }

  lemma {:induction false} CountIsMultiplicity(votes: seq<Vote>, c: Choice)
    ensures Count(votes, c) == multiset(seq(|votes|, i requires 0 <= i < |votes| => votes[i].choice))[c]
  {
    var choices := seq(|votes|, i requires 0 <= i < |votes| => votes[i].choice);
    if votes != [] {
      var init := votes[..|votes| - 1];
      CountIsMultiplicity(init, c);
      assert choices == seq(|init|, i requires 0 <= i < |init| => init[i].choice) + [votes[|votes| - 1].choice];
    }
  }

  /** Two lists of votes with the same choices, in any order. */
  ghost predicate SameChoices(v: seq<Vote>, w: seq<Vote>) {
    multiset(seq(|v|, i requires 0 <= i < |v| => v[i].choice))
      == multiset(seq(|w|, i requires 0 <= i < |w| => w[i].choice))
  }

  /** Reordering or repeating options and reordering votes cannot change the outcome. */
  lemma OutcomeIsDetermined(options: seq<Choice>, votes: seq<Vote>, r: Choice,
                            options': seq<Choice>, votes': seq<Vote>, r': Choice)
    requires Elems(options) == Elems(options') && SameChoices(votes, votes')
    requires IsOutcome(options, votes, r) && IsOutcome(options', votes', r')
    ensures r == r'
  {
    var choices := seq(|votes|, i requires 0 <= i < |votes| => votes[i].choice);
    var choices' := seq(|votes'|, i requires 0 <= i < |votes'| => votes'[i].choice);
    assert |votes| == |multiset(choices)| == |multiset(choices')| == |votes'|;
    forall c
      ensures HasMajority(votes, c) <==> HasMajority(votes', c)
      ensures c in options <==> c in options'
    {
      CountIsMultiplicity(votes, c);
      CountIsMultiplicity(votes', c);
      assert c in Elems(options) <==> c in Elems(options');
    }
  }

  method CountVotes(votes: seq<Vote>) returns (counts: map<Choice, nat>)
    ensures forall c :: (if c in counts then counts[c] else 0) == Count(votes, c)
  {
    counts := map[];
    for i := 0 to |votes|
      invariant forall c :: (if c in counts then counts[c] else 0) == Count(votes[..i], c)
    {
      var c := votes[i].choice;
      assert votes[..i + 1][..i] == votes[..i];
      counts := counts[c := (if c in counts then counts[c] else 0) + 1];
    }
    assert votes[..|votes|] == votes;
  }

  method ResolveConsensus(options: seq<Choice>, votes: seq<Vote>) returns (outcome: Choice)
    ensures IsOutcome(options, votes, outcome)
  {
    if votes == [] {
      return UNDECIDED;
    }
    var counts := CountVotes(votes);
    var majority := |votes| / 2 + 1;
    for i := 0 to |options|
      invariant forall j :: 0 <= j < i ==> !HasMajority(votes, options[j])
    {
      var opt := options[i];
      if (if opt in counts then counts[opt] else 0) >= majority {
        forall c | HasMajority(votes, c)
          ensures c == opt
        {
          OneMajority(votes, c, opt);
        }
        return opt;
      }
    }
    return UNDECIDED;
  }

  // ----- Proposals -----

  /** What sending the request to one peer came to. */
  datatype Reply = NoReply | ErrorReply | Unreadable | Ballot(vote: Vote)

  datatype ConsensusResult = ConsensusResult(decided: bool, outcome: Choice, votes: seq<Vote>)

  datatype ProposeError = NoTargetPeers

  function Ballots(replies: seq<Reply>): (votes: seq<Vote>)
    ensures |votes| <= |replies|
  {
    if replies == [] then []
    else
      var last := replies[|replies| - 1];
      Ballots(replies[..|replies| - 1]) + if last.Ballot? then [last.vote] else []
  }

  function Resolved(targets: seq<string>, peers: set<string>): (r: seq<string>)
    ensures |r| <= |targets| && forall t :: t in r <==> t in targets && t in peers
  {
    if targets == [] then []
    else
      var last := targets[|targets| - 1];
      Resolved(targets[..|targets| - 1], peers) + if last in peers then [last] else []
  }

  /** replies[k] is what the k-th resolved peer came to. */
  method ProposeConsensus(targets: seq<string>, peers: set<string>, options: seq<Choice>, replies: seq<Reply>)
    returns (r: Result<ConsensusResult, ProposeError>)
    requires |replies| == |Resolved(targets, peers)|
    ensures r.Failure? <==> forall t :: t in targets ==> t !in peers
    ensures r.Success? ==>
      && r.value.votes == Ballots(replies)
      && |r.value.votes| <= |Resolved(targets, peers)|
      && IsOutcome(options, r.value.votes, r.value.outcome)
      && (r.value.decided <==> exists c :: c in options && c != UNDECIDED && HasMajority(r.value.votes, c))
  {
    var resolved := Resolved(targets, peers);
    if resolved == [] {
      assert forall t :: t in targets && t in peers ==> t in resolved;
      return Failure(NoTargetPeers);
    }
    assert resolved[0] in resolved;
    var votes: seq<Vote> := [];
    for k := 0 to |resolved|
      invariant votes == Ballots(replies[..k])
    {
      assert replies[..k + 1][..k] == replies[..k];
      match replies[k] {
        case Ballot(v) => votes := votes + [v];
        case _ =>
      }
    }
    assert replies[..|resolved|] == replies;
    var outcome := ResolveConsensus(options, votes);
    return Success(ConsensusResult(outcome != UNDECIDED, outcome, votes));
  }

  /** A strict majority is more votes than all others together. */
  lemma MajorityOutweighs(votes: seq<Vote>, c: Choice)
    ensures HasMajority(votes, c) <==> Count(votes, c) > |votes| - Count(votes, c)
  {
  }

  /** The readable ballots, one by one and in order; nothing else is a vote. */
  lemma {:induction false} BallotsAreReplies(a: seq<Reply>, b: seq<Reply>, v: Vote)
    ensures Ballots(a + b) == Ballots(a) + Ballots(b)
    ensures Ballots([Ballot(v)]) == [v] && Ballots([NoReply]) == Ballots([ErrorReply]) == Ballots([Unreadable]) == []
  {
    assert [Ballot(v)][..0] == [] && [NoReply][..0] == [] && [ErrorReply][..0] == [] && [Unreadable][..0] == [];
    if b == [] {
      assert a + b == a;
    } else {
      var init := b[..|b| - 1];
      BallotsAreReplies(a, init, v);
      assert (a + b)[..|a + b| - 1] == a + init;
      var last := b[|b| - 1];
      var vote := if last.Ballot? then [last.vote] else [];
      assert (Ballots(a) + Ballots(init)) + vote == Ballots(a) + (Ballots(init) + vote);
    }
  }

  lemma ResolvedSnoc(init: seq<string>, t: string, peers: set<string>)
    ensures Resolved(init + [t], peers) == Resolved(init, peers) + if t in peers then [t] else []
  {
    assert (init + [t])[..|init|] == init;
  }

  lemma ResolvedOne(t: string, peers: set<string>)
    ensures Resolved([t], peers) == if t in peers then [t] else []
  {
    assert [] + [t] == [t];
    ResolvedSnoc([], t, peers);
  }

  lemma Regroup(a: seq<string>, b: seq<string>, c: seq<string>)
    ensures a + (b + c) == (a + b) + c
  {
  }

  /** The targets that are peers, as often and in the order they were given. */
  lemma {:induction false} ResolvedInOrder(a: seq<string>, b: seq<string>, peers: set<string>)
    ensures Resolved(a + b, peers) == Resolved(a, peers) + Resolved(b, peers)
  {
    if b == [] {
      assert a + b == a;
    } else {
      var init, t := b[..|b| - 1], b[|b| - 1];
      assert b == init + [t];
      ResolvedInOrder(a, init, peers);
      Regroup(a, init, [t]);
      ResolvedSnoc(init, t, peers);
      ResolvedSnoc(a + init, t, peers);
      Regroup(Resolved(a, peers), Resolved(init, peers), if t in peers then [t] else []);
    }
  }
}
