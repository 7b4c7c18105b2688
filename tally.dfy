/**
 * The vote-generation helper of the workflow test: it looks up the board's
 * decree for an action and casts votes, one board member after another,
 * until the decree's tally method says enough votes exist.  A percent decree
 * needs `votes / members * 100` to reach its trigger, a count decree needs
 * the number of votes to reach it.
 */
module Tally {
  import opened Common

  datatype TallyMethod = Percent | Count | OtherMethod

  datatype Decree = Decree(action: string, tallyMethod: TallyMethod, trigger: real, choices: seq<string>)

  /** A vote as the helper creates it: its voter (nil past the end of the member list) and its choice. */
  datatype Vote = Vote(user: Option<nat>, choice: Option<string>, identifierId: nat)

  /** The first decree of the board for `action` (`find` over the board's decrees). */
  function DecreeFor(decrees: seq<Decree>, action: string): (r: Option<Decree>)
    ensures r.Some? ==> r.value in decrees && r.value.action == action
    ensures r.None? <==> forall d :: d in decrees ==> d.action != action
    ensures r.Some? ==> exists i :: 0 <= i < |decrees| && decrees[i] == r.value &&
                                    forall j :: 0 <= j < i ==> decrees[j].action != action
  {
    if decrees == [] then None
    else if decrees[0].action == action then Some(decrees[0])
    else DecreeFor(decrees[1..], action)
  }

  /** The loop test, in exact arithmetic: `n` votes among `members` are enough for the decree. */
  predicate Reached(d: Decree, members: nat, n: nat) {
    match d.tallyMethod
    case Percent => (n * 100) as real >= d.trigger * members as real
    case Count => n as real >= d.trigger
    case OtherMethod => true
  }

  /** The least natural number at or above `x`. */
  function CeilingNat(x: real): (n: nat)
    ensures n as real >= x
    ensures n > 0 ==> ((n - 1) as real) < x
  {
    if x <= 0.0 then 0
    else if x.Floor as real == x then x.Floor
    else x.Floor + 1
  }

  /** The number of votes the helper casts: the least count the decree accepts. */
  function VotesNeeded(d: Decree, members: nat): (n: nat)
    ensures Reached(d, members, n)
    ensures forall m: nat :: m < n ==> !Reached(d, members, m)
  {
    match d.tallyMethod
    case Percent =>
      CeilingNat(d.trigger * members as real / 100.0)
    case Count => CeilingNat(d.trigger)
    case OtherMethod => 0
  }

  /** The choice a vote takes: the entry `rand` picks from the choice array; nil when the array is empty. */
  function Choice(choices: seq<string>, draw: nat): (r: Option<string>)
    ensures r.None? <==> choices == []
    ensures r.Some? ==> r.value in choices
  {
    if choices == [] then None else Some(choices[draw % |choices|])
  }

  /** The `i`-th vote: cast by the `i`-th member, with the `i`-th draw of `rand`. */
  function NthVote(users: seq<nat>, d: Decree, identifierId: nat, rand: nat -> nat, i: nat): Vote {
    Vote(if i < |users| then Some(users[i]) else None, Choice(d.choices, rand(i)), identifierId)
  }

  /**
   * `generate_board_votes_for_action`: `None` when the board has no decree
   * for the action (the helper then raises); otherwise the votes cast, the
   * `i`-th by the board's `i`-th member, as many as the decree needs.
   */
  method GenerateBoardVotesForAction(decrees: seq<Decree>, users: seq<nat>, action: string, identifierId: nat,
                                     rand: nat -> nat)
    returns (votes: Option<seq<Vote>>)
    ensures votes.None? <==> DecreeFor(decrees, action).None?
    ensures votes.Some? ==> |votes.value| == VotesNeeded(DecreeFor(decrees, action).value, |users|)
    ensures votes.Some? ==> forall i :: 0 <= i < |votes.value| ==>
              votes.value[i] == NthVote(users, DecreeFor(decrees, action).value, identifierId, rand, i)
  {
    var decree := DecreeFor(decrees, action);
    if decree.None? {
      return None;
    }
    var d := decree.value;
    var members := |users|;
    var cast: seq<Vote> := [];
    var n := 0;
    if d.tallyMethod == Percent {
      while ((n * 100) as real) < d.trigger * members as real
        invariant |cast| == n
        invariant forall i :: 0 <= i < n ==> cast[i] == NthVote(users, d, identifierId, rand, i)
        invariant forall m: nat :: m < n ==> !Reached(d, members, m)
        decreases (d.trigger * members as real).Floor - n * 100
      {
        var v := GenerateVote(users, d, identifierId, rand, n);
        cast := cast + [v];
        n := n + 1;
      }
    } else if d.tallyMethod == Count {
      while (n as real) < d.trigger
        invariant |cast| == n
        invariant forall i :: 0 <= i < n ==> cast[i] == NthVote(users, d, identifierId, rand, i)
        invariant forall m: nat :: m < n ==> !Reached(d, members, m)
        decreases d.trigger.Floor - n
      {
        var v := GenerateVote(users, d, identifierId, rand, n);
        cast := cast + [v];
        n := n + 1;
      }
    }
    assert Reached(d, members, n);
    LeastIsUnique(d, members, n);
    return Some(cast);
  }

  /** `generate_board_vote_for_decree`: one vote by `users[n]` with a random choice. */
  method GenerateVote(users: seq<nat>, d: Decree, identifierId: nat, rand: nat -> nat, n: nat) returns (v: Vote)
    ensures v == NthVote(users, d, identifierId, rand, n)
    ensures n < |users| ==> v.user == Some(users[n])
    ensures v.choice.Some? ==> v.choice.value in d.choices
  {
    var user := if n < |users| then Some(users[n]) else None;
    var choice := if |d.choices| == 0 then None else Some(d.choices[rand(n) % |d.choices|]);
    v := Vote(user, choice, identifierId);
  }

  /** The first count the decree accepts is `VotesNeeded`. */
  lemma LeastIsUnique(d: Decree, members: nat, n: nat)
    requires Reached(d, members, n)
    requires forall m: nat :: m < n ==> !Reached(d, members, m)
    ensures n == VotesNeeded(d, members)
  {
    var k := VotesNeeded(d, members);
    assert n >= k;
    assert k >= n;
  }

  /** With three members, a 50% decree is reached by two votes. */
  lemma {:induction false} ThreeMembersAtHalfNeedTwo(d: Decree)
    requires d.tallyMethod == Percent && d.trigger == 50.0
    ensures VotesNeeded(d, 3) == 2
  {
    assert !Reached(d, 3, 1);
    assert Reached(d, 3, 2);
    LeastIsUnique(d, 3, 2);
  }

  /** A count decree with trigger 1.0 is reached by one vote. */
  lemma {:induction false} CountTriggerOneNeedsOne(d: Decree)
    requires d.tallyMethod == Count && d.trigger == 1.0
    ensures VotesNeeded(d, 3) == 1
  {
    assert !Reached(d, 3, 0);
    LeastIsUnique(d, 3, 1);
  }

  /** A percent trigger of at most 100 never asks for more votes than the board has members. */
  lemma {:induction false} PercentWithinMembers(d: Decree, members: nat)
    requires d.tallyMethod == Percent && d.trigger <= 100.0 && members >= 1
    ensures VotesNeeded(d, members) <= members
  {
    assert d.trigger * members as real <= 100.0 * members as real;
    assert Reached(d, members, members);
  }

  /** Votes within the member list are cast by different members when the members are distinct. */
  lemma DistinctVoters(users: seq<nat>, d: Decree, identifierId: nat, rand: nat -> nat, i: nat, j: nat)
    requires forall a, b :: 0 <= a < b < |users| ==> users[a] != users[b]
    requires i < j < |users|
    ensures NthVote(users, d, identifierId, rand, i).user != NthVote(users, d, identifierId, rand, j).user
  {
  }
}
