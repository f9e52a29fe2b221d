/** Invariants every ledger transition is checked against.

    - `InSync`: the active index holds exactly the log records that are not
      reversed, each under its own vote ID.
    - `VotersWellFormed`: in every token tally no voter is listed twice in
      one stance and no voter is listed in both stances.
    - `LogAdvances`: between two states the log only grows, old records keep
      every field but `reversed`, and `reversed` never returns to false.

    Non-negativity of the counts is NOT an invariant of the source (see
    `Scenarios.NegativeCountTrace`); `NonNegative` is stated for the transitions
    that do preserve it.
 */
module Ledger {
  import opened Voters
  import opened Model

  predicate InSync(s: State) {
    && (forall id | id in s.current :: id in s.log && !s.log[id].reversed && s.current[id] == s.log[id])
    && (forall id | id in s.log && !s.log[id].reversed :: id in s.current)
    && (forall id | id in s.log :: s.log[id].voteId == id)
  }

  predicate TallyWellFormed(t: TokenTally) {
    && NoDup(t.goodVoters)
    && NoDup(t.badVoters)
    && (forall v | v in t.goodVoters :: v !in t.badVoters)
  }

  predicate VotersWellFormed(s: State) {
    forall u, a | u in s.reputation && a in s.reputation[u].tokens ::
      TallyWellFormed(s.reputation[u].tokens[a])
  }

  predicate Valid(s: State) {
    InSync(s) && VotersWellFormed(s)
  }

  predicate TallyNonNegative(t: TokenTally) {
    t.good >= 0 && t.bad >= 0
  }

  predicate NonNegative(s: State) {
    forall u | u in s.reputation ::
      && s.reputation[u].good >= 0
      && s.reputation[u].bad >= 0
      && forall a | a in s.reputation[u].tokens :: TallyNonNegative(s.reputation[u].tokens[a])
  }

  ghost predicate LogAdvances(log: map<VoteId, VoteRecord>, log': map<VoteId, VoteRecord>) {
    forall id | id in log ::
      && id in log'
      && log'[id] == log[id].(reversed := log'[id].reversed)
      && (log[id].reversed ==> log'[id].reversed)
  }

  /** The floored retraction used by both removal paths: `voter` leaves the
      stance's list if listed, and the count drops by one but not below zero. */
  function RetractTally(t: TokenTally, voter: UserId, vt: VoteType): (r: TokenTally)
    ensures r.Count(vt) >= 0
    ensures t.Count(vt) >= 1 ==> r.Count(vt) == t.Count(vt) - 1
    ensures t.Count(vt) <= 1 ==> r.Count(vt) == 0
    ensures multiset(r.Voters(vt)) == multiset(t.Voters(vt)) - multiset{voter}
    ensures TallyWellFormed(t) ==> TallyWellFormed(r) && voter !in r.Voters(vt)
    ensures r.Voters(vt.Other()) == t.Voters(vt.Other()) && r.Count(vt.Other()) == t.Count(vt.Other())
    ensures r.symbol == t.symbol
  {
    var r := t.With(vt, FlooredDec(t.Count(vt)), RemoveFirst(t.Voters(vt), voter));
    if TallyWellFormed(t) then
      DropKeepsWellFormed(t, voter, vt, FlooredDec(t.Count(vt)));
      r
    else r
  }

  /** A tally in which a stance was just cast on top of a clean slate. */
  lemma CastKeepsWellFormed(t: TokenTally, voter: UserId, vt: VoteType)
    requires TallyWellFormed(t)
    requires voter !in t.goodVoters && voter !in t.badVoters
    ensures TallyWellFormed(t.With(vt, t.Count(vt) + 1, t.Voters(vt) + [voter]))
  {
    var t' := t.With(vt, t.Count(vt) + 1, t.Voters(vt) + [voter]);
    var vs := t.Voters(vt);
    assert NoDup(vs + [voter]) by {
      forall i, j | 0 <= i < j < |vs + [voter]| ensures (vs + [voter])[i] != (vs + [voter])[j] {
        if j == |vs| {
          assert (vs + [voter])[i] == vs[i];
        } else {
          assert (vs + [voter])[i] == vs[i] && (vs + [voter])[j] == vs[j];
        }
      }
    }
  }

  /** Removing a voter from one stance keeps a tally well formed. */
  lemma DropKeepsWellFormed(t: TokenTally, voter: UserId, vt: VoteType, n: int)
    requires TallyWellFormed(t)
    ensures TallyWellFormed(t.With(vt, n, RemoveFirst(t.Voters(vt), voter)))
    ensures voter !in t.With(vt, n, RemoveFirst(t.Voters(vt), voter)).Voters(vt)
  {
    var vs := t.Voters(vt);
    RemoveFirstNoDup(vs, voter);
    var r := RemoveFirst(vs, voter);
    forall y | y in r ensures y in vs {
      if y != voter {
        RemoveFirstKeepsOthers(vs, voter, y);
      }
    }
  }
}
