/** Administrator commands that edit the ledger directly: adding synthetic
    votes (`repadd`), reversing votes by ID (`repremove`) and toggling a
    user's right to vote (`repdisable`). Permission checks, argument parsing
    by Discord, replies and audit-channel posts are not modelled.
 */
module Admin {
  import opened Voters
  import opened Model
  import opened Ledger

  // ----- repadd -----

  datatype AdminError = AmountNotPositive

  datatype AddResult = Added(state: State) | Rejected(error: AdminError)

  /** The log entry of one admin-added vote: not bound to any token or message. */
  function AdminRecord(stamp: Stamp, admin: UserId, target: UserId, vt: VoteType): VoteRecord {
    VoteRecord(stamp.id, admin, target, ADMIN_ADDED, vt, 0, stamp.time, false)
  }

  /** Records one admin-added vote and raises the target's overall count. */
  function AppendAdminVote(s: State, target: UserId, admin: UserId, vt: VoteType, stamp: Stamp): (r: State)
    requires target in s.reputation
    ensures r.reputation.Keys == s.reputation.Keys
    ensures r.reputation[target].Count(vt) == s.reputation[target].Count(vt) + 1
    ensures r.reputation[target].Count(vt.Other()) == s.reputation[target].Count(vt.Other())
    ensures r.reputation[target].tokens == s.reputation[target].tokens
    ensures forall u | u in s.reputation && u != target :: r.reputation[u] == s.reputation[u]
    ensures r.log == s.log[stamp.id := AdminRecord(stamp, admin, target, vt)]
    ensures r.current == s.current[stamp.id := AdminRecord(stamp, admin, target, vt)]
    ensures r.disabled == s.disabled && r.tracked == s.tracked
  {
    var rec := AdminRecord(stamp, admin, target, vt);
    var u := s.reputation[target];
    s.(reputation := s.reputation[target := u.WithCount(vt, u.Count(vt) + 1)],
       log := s.log[stamp.id := rec],
       current := s.current[stamp.id := rec])
  }

  /** The state with an empty aggregate created for `target` if it had none;
      an existing aggregate is kept as it is. */
  function Enrol(s: State, target: UserId): (r: State)
    ensures r.reputation.Keys == s.reputation.Keys + {target}
    ensures r.reputation[target] == UserOf(s, target)
    ensures forall u | u in s.reputation :: r.reputation[u] == s.reputation[u]
    ensures r.log == s.log && r.current == s.current
    ensures r.disabled == s.disabled && r.tracked == s.tracked
  {
    if target in s.reputation then s else s.(reputation := s.reputation[target := EMPTY_USER])
  }

  /** One admin-added vote per stamp, each raising the target's overall count
      of `vt` by one and entering both the log and the active index. */
  function AddAdminVotes(s: State, target: UserId, admin: UserId, vt: VoteType, stamps: seq<Stamp>): (r: State)
    requires target in s.reputation
    requires FreshStamps(s.log, stamps)
    ensures r.reputation.Keys == s.reputation.Keys
    ensures r.reputation[target].Count(vt) == s.reputation[target].Count(vt) + |stamps|
    ensures r.reputation[target].Count(vt.Other()) == s.reputation[target].Count(vt.Other())
    ensures r.reputation[target].tokens == s.reputation[target].tokens
    ensures forall u | u in s.reputation && u != target :: r.reputation[u] == s.reputation[u]
    ensures |r.log| == |s.log| + |stamps|
    ensures r.disabled == s.disabled && r.tracked == s.tracked
    decreases |stamps|
  {
    if |stamps| == 0 then s
    else
      var s1 := AppendAdminVote(s, target, admin, vt, stamps[0]);
      FreshStampsTail(s, target, admin, vt, stamps);
      AddAdminVotes(s1, target, admin, vt, stamps[1..])
  }

  /** Recording the first stamp leaves the rest fresh. */
  lemma FreshStampsTail(s: State, target: UserId, admin: UserId, vt: VoteType, stamps: seq<Stamp>)
    requires target in s.reputation && |stamps| > 0
    requires FreshStamps(s.log, stamps)
    ensures FreshStamps(AppendAdminVote(s, target, admin, vt, stamps[0]).log, stamps[1..])
  {
    var s1 := AppendAdminVote(s, target, admin, vt, stamps[0]);
    forall i | 0 <= i < |stamps[1..]| ensures stamps[1..][i].id !in s1.log {
      assert stamps[1..][i] == stamps[i + 1];
    }
  }

  /** The log gains exactly the admin records, one per stamp, and keeps
      every earlier entry. */
  lemma {:induction false} AddAdminVotesLogged(s: State, target: UserId, admin: UserId, vt: VoteType, stamps: seq<Stamp>)
    requires target in s.reputation
    requires FreshStamps(s.log, stamps)
    ensures var r := AddAdminVotes(s, target, admin, vt, stamps);
      && (forall id :: id in r.log <==> id in s.log || id in StampIds(stamps))
      && (forall id | id in s.log :: r.log[id] == s.log[id])
      && (forall i | 0 <= i < |stamps| ::
            stamps[i].id in r.log && r.log[stamps[i].id] == AdminRecord(stamps[i], admin, target, vt))
    decreases |stamps|
  {
    if |stamps| > 0 {
      var s1 := AppendAdminVote(s, target, admin, vt, stamps[0]);
      var r := AddAdminVotes(s, target, admin, vt, stamps);
      FreshStampsTail(s, target, admin, vt, stamps);
      AddAdminVotesLogged(s1, target, admin, vt, stamps[1..]);
      assert r == AddAdminVotes(s1, target, admin, vt, stamps[1..]);
      assert StampIds(stamps) == [stamps[0].id] + StampIds(stamps[1..]);
      forall i | 0 <= i < |stamps|
        ensures stamps[i].id in r.log && r.log[stamps[i].id] == AdminRecord(stamps[i], admin, target, vt)
      {
        if i > 0 {
          assert stamps[i] == stamps[1..][i - 1];
        }
      }
    }
  }

  /** The active index gains exactly the stamps' IDs and keeps every earlier
      entry whose ID the log already held. */
  lemma {:induction false} AddAdminVotesIndexKeys(s: State, target: UserId, admin: UserId, vt: VoteType, stamps: seq<Stamp>)
    requires target in s.reputation
    requires FreshStamps(s.log, stamps)
    ensures var r := AddAdminVotes(s, target, admin, vt, stamps);
      && (forall id :: id in r.current <==> id in s.current || id in StampIds(stamps))
      && (forall id | id in s.current && id in s.log :: r.current[id] == s.current[id])
    decreases |stamps|
  {
    if |stamps| > 0 {
      var s1 := AppendAdminVote(s, target, admin, vt, stamps[0]);
      FreshStampsTail(s, target, admin, vt, stamps);
      AddAdminVotesIndexKeys(s1, target, admin, vt, stamps[1..]);
      assert AddAdminVotes(s, target, admin, vt, stamps) == AddAdminVotes(s1, target, admin, vt, stamps[1..]);
      assert StampIds(stamps) == [stamps[0].id] + StampIds(stamps[1..]);
    }
  }

  /** Each stamp's ID ends up indexed with its own admin record. */
  lemma {:induction false} AddAdminVotesIndexed(s: State, target: UserId, admin: UserId, vt: VoteType, stamps: seq<Stamp>)
    requires target in s.reputation
    requires FreshStamps(s.log, stamps)
    ensures var r := AddAdminVotes(s, target, admin, vt, stamps);
      forall i | 0 <= i < |stamps| ::
        stamps[i].id in r.current && r.current[stamps[i].id] == AdminRecord(stamps[i], admin, target, vt)
    decreases |stamps|
  {
    if |stamps| > 0 {
      var s1 := AppendAdminVote(s, target, admin, vt, stamps[0]);
      var r := AddAdminVotes(s, target, admin, vt, stamps);
      FreshStampsTail(s, target, admin, vt, stamps);
      AddAdminVotesIndexed(s1, target, admin, vt, stamps[1..]);
      AddAdminVotesIndexKeys(s1, target, admin, vt, stamps[1..]);
      assert r == AddAdminVotes(s1, target, admin, vt, stamps[1..]);
      assert stamps[0].id in s1.current && stamps[0].id in s1.log;
      forall i | 0 <= i < |stamps|
        ensures stamps[i].id in r.current && r.current[stamps[i].id] == AdminRecord(stamps[i], admin, target, vt)
      {
        if i > 0 {
          assert stamps[i] == stamps[1..][i - 1];
        }
      }
    }
  }

  /** `repadd`: a non-positive amount is rejected and nothing changes;
      otherwise the target user's aggregate is created if needed and
      `amount` admin votes are added. */
  function AdminAdd(s: State, target: UserId, admin: UserId, amount: int, vt: VoteType, stamps: seq<Stamp>): (r: AddResult)
    requires amount > 0 ==> |stamps| == amount
    requires FreshStamps(s.log, stamps)
    ensures r.Rejected? <==> amount <= 0
    ensures r.Added? ==>
      && target in r.state.reputation
      && r.state.reputation[target].Count(vt) == UserOf(s, target).Count(vt) + amount
      && r.state.reputation[target].Count(vt.Other()) == UserOf(s, target).Count(vt.Other())
      && r.state.reputation[target].tokens == UserOf(s, target).tokens
      && r.state.reputation.Keys == s.reputation.Keys + {target}
      && (forall u | u in s.reputation && u != target :: r.state.reputation[u] == s.reputation[u])
      && |r.state.log| == |s.log| + amount
      && (forall id | id in s.log :: id in r.state.log && r.state.log[id] == s.log[id])
      && (forall i | 0 <= i < |stamps| ::
            && stamps[i].id in r.state.log
            && r.state.log[stamps[i].id].token == ADMIN_ADDED
            && r.state.log[stamps[i].id].messageId == 0
            && r.state.log[stamps[i].id].voteType == vt
            && r.state.log[stamps[i].id].author == target
            && !r.state.log[stamps[i].id].reversed
            && stamps[i].id in r.state.current)
      && r.state.disabled == s.disabled && r.state.tracked == s.tracked
  {
    if amount <= 0 then Rejected(AmountNotPositive)
    else
      var s1 := Enrol(s, target);
      AddAdminVotesLogged(s1, target, admin, vt, stamps);
      AddAdminVotesIndexed(s1, target, admin, vt, stamps);
      Added(AddAdminVotes(s1, target, admin, vt, stamps))
  }

  /** `repadd` only adds to the active index: it gains exactly the new IDs,
      and every earlier entry whose ID the log holds is kept as it was. */
  lemma AdminAddIndex(s: State, target: UserId, admin: UserId, amount: int, vt: VoteType, stamps: seq<Stamp>)
    requires amount > 0 ==> |stamps| == amount
    requires FreshStamps(s.log, stamps)
    ensures var r := AdminAdd(s, target, admin, amount, vt, stamps);
      r.Added? ==>
        && (forall id :: id in r.state.current <==> id in s.current || id in StampIds(stamps))
        && (forall id | id in s.current && id in s.log :: r.state.current[id] == s.current[id])
  {
    if amount > 0 {
      var s1 := Enrol(s, target);
      AddAdminVotesIndexKeys(s1, target, admin, vt, stamps);
    }
  }

  /** Every entry of the active index after admin votes is a live log record. */
  lemma AddAdminVotesIndexLive(s: State, target: UserId, admin: UserId, vt: VoteType, stamps: seq<Stamp>)
    requires target in s.reputation
    requires FreshStamps(s.log, stamps)
    requires InSync(s)
    ensures var r := AddAdminVotes(s, target, admin, vt, stamps);
      forall id | id in r.current :: id in r.log && !r.log[id].reversed && r.current[id] == r.log[id]
  {
    var r := AddAdminVotes(s, target, admin, vt, stamps);
    AddAdminVotesLogged(s, target, admin, vt, stamps);
    AddAdminVotesIndexKeys(s, target, admin, vt, stamps);
    AddAdminVotesIndexed(s, target, admin, vt, stamps);
    forall id | id in r.current
      ensures id in r.log && !r.log[id].reversed && r.current[id] == r.log[id]
    {
      if id !in s.current {
        var i :| 0 <= i < |stamps| && StampIds(stamps)[i] == id;
        assert stamps[i].id == id;
      }
    }
  }

  /** Every live log record after admin votes is indexed under its own ID. */
  lemma AddAdminVotesLogIndexed(s: State, target: UserId, admin: UserId, vt: VoteType, stamps: seq<Stamp>)
    requires target in s.reputation
    requires FreshStamps(s.log, stamps)
    requires InSync(s)
    ensures var r := AddAdminVotes(s, target, admin, vt, stamps);
      forall id | id in r.log :: r.log[id].voteId == id && (!r.log[id].reversed ==> id in r.current)
  {
    var r := AddAdminVotes(s, target, admin, vt, stamps);
    AddAdminVotesLogged(s, target, admin, vt, stamps);
    AddAdminVotesIndexKeys(s, target, admin, vt, stamps);
    forall id | id in r.log
      ensures r.log[id].voteId == id
      ensures !r.log[id].reversed ==> id in r.current
    {
      if id !in s.log {
        var i :| 0 <= i < |stamps| && StampIds(stamps)[i] == id;
        assert stamps[i].id == id;
      }
    }
  }

  /** Admin votes enter the log and the active index together. */
  lemma AddAdminVotesInSync(s: State, target: UserId, admin: UserId, vt: VoteType, stamps: seq<Stamp>)
    requires target in s.reputation
    requires FreshStamps(s.log, stamps)
    requires InSync(s)
    ensures InSync(AddAdminVotes(s, target, admin, vt, stamps))
  {
    AddAdminVotesIndexLive(s, target, admin, vt, stamps);
    AddAdminVotesLogIndexed(s, target, admin, vt, stamps);
  }

  /** Admin votes leave every token tally as it was, so well-formed voter
      lists and non-negative counts survive them. */
  lemma AddAdminVotesKeepsTallies(s: State, target: UserId, admin: UserId, vt: VoteType, stamps: seq<Stamp>)
    requires target in s.reputation
    requires FreshStamps(s.log, stamps)
    ensures VotersWellFormed(s) ==> VotersWellFormed(AddAdminVotes(s, target, admin, vt, stamps))
    ensures NonNegative(s) ==> NonNegative(AddAdminVotes(s, target, admin, vt, stamps))
  {
    var r := AddAdminVotes(s, target, admin, vt, stamps);
    forall u | u in r.reputation ensures r.reputation[u].tokens == s.reputation[u].tokens {
    }
    if NonNegative(s) {
      forall u | u in r.reputation
        ensures r.reputation[u].good >= 0 && r.reputation[u].bad >= 0
      {
        assert s.reputation[u].good >= 0 && s.reputation[u].bad >= 0;
      }
    }
  }

  /** Adding admin votes keeps the ledger valid, never makes a count
      negative, and only adds to the log. */
  lemma AdminAddPreserves(s: State, target: UserId, admin: UserId, amount: int, vt: VoteType, stamps: seq<Stamp>)
    requires amount > 0 ==> |stamps| == amount
    requires FreshStamps(s.log, stamps)
    ensures var r := AdminAdd(s, target, admin, amount, vt, stamps);
      r.Added? ==>
        && (Valid(s) ==> Valid(r.state))
        && (NonNegative(s) ==> NonNegative(r.state))
        && LogAdvances(s.log, r.state.log)
  {
    if amount > 0 {
      var s1 := Enrol(s, target);
      EnrolPreserves(s, target);
      AddAdminVotesKeepsTallies(s1, target, admin, vt, stamps);
      if Valid(s) {
        AddAdminVotesInSync(s1, target, admin, vt, stamps);
      }
    }
  }

  /** Creating an empty aggregate keeps the ledger valid and non-negative. */
  lemma EnrolPreserves(s: State, target: UserId)
    ensures Valid(s) ==> Valid(Enrol(s, target))
    ensures NonNegative(s) ==> NonNegative(Enrol(s, target))
  {
  }

  // ----- repremove -----

  datatype RemoveKind = Removed | AlreadyReversed | Invalid

  /** The result of a batch removal, one list per kind, in input order. */
  datatype Report = Report(success: seq<VoteId>, reversed: seq<VoteId>, invalid: seq<VoteId>)

  /** Undoes one active vote on the author's aggregate: the overall count
      drops with a floor at zero and, for a token vote whose tally exists,
      so does the token count, with the voter leaving the list if listed. */
  function RetractUser(u: UserTally, rec: VoteRecord): UserTally {
    var u1 := u.WithCount(rec.voteType, FlooredDec(u.Count(rec.voteType)));
    if rec.token != ADMIN_ADDED && rec.token in u.tokens
    then u1.(tokens := u.tokens[rec.token := RetractTally(u.tokens[rec.token], rec.voter, rec.voteType)])
    else u1
  }

  /** Reverses the vote with ID `vid`, whatever path created it. */
  function RemoveOne(s: State, vid: VoteId): (r: (State, RemoveKind))
    ensures r.1 == Invalid <==> vid !in s.log
    ensures r.1 == AlreadyReversed <==> vid in s.log && s.log[vid].reversed
    ensures r.1 != Removed ==> r.0 == s
    ensures r.1 == Removed ==>
      && r.0.log.Keys == s.log.Keys
      && r.0.log[vid] == s.log[vid].(reversed := true)
      && (forall id | id in s.log && id != vid :: r.0.log[id] == s.log[id])
      && vid !in r.0.current
      && (forall id | id in s.current && id != vid :: id in r.0.current && r.0.current[id] == s.current[id])
      && (forall id | id in r.0.current :: id in s.current)
    ensures r.0.reputation.Keys == s.reputation.Keys
    ensures r.1 == Removed ==>
      forall w | w in s.reputation && w != s.log[vid].author :: r.0.reputation[w] == s.reputation[w]
    ensures r.1 == Removed && s.log[vid].author !in s.reputation ==> r.0.reputation == s.reputation
    ensures r.0.disabled == s.disabled && r.0.tracked == s.tracked
  {
    if vid !in s.log then (s, Invalid)
    else
      var v := s.log[vid];
      if v.reversed then (s, AlreadyReversed)
      else
        var rep := if v.author in s.reputation then s.reputation[v.author := RetractUser(s.reputation[v.author], v)]
                   else s.reputation;
        (s.(reputation := rep, log := s.log[vid := v.(reversed := true)], current := s.current - {vid}), Removed)
  }

  /** Files `vid` under the list of its kind. */
  function File(k: RemoveKind, vid: VoteId, rep: Report): Report {
    match k
    case Removed => rep.(success := [vid] + rep.success)
    case AlreadyReversed => rep.(reversed := [vid] + rep.reversed)
    case Invalid => rep.(invalid := [vid] + rep.invalid)
  }

  /** `repremove` on an already split list of IDs, processed left to right:
      every named record that is still active ends up reversed, and no
      other record changes. */
  function RemoveVotes(s: State, ids: seq<VoteId>): (r: (State, Report))
    ensures r.0.log.Keys == s.log.Keys
    ensures forall id | id in ids && id in s.log :: r.0.log[id].reversed
    ensures forall id | id in s.log && id !in ids :: r.0.log[id] == s.log[id]
    ensures LogAdvances(s.log, r.0.log)
    ensures r.0.reputation.Keys == s.reputation.Keys
    ensures r.0.disabled == s.disabled && r.0.tracked == s.tracked
    decreases |ids|
  {
    if |ids| == 0 then (s, Report([], [], []))
    else
      var (s1, k) := RemoveOne(s, ids[0]);
      var (s2, rep) := RemoveVotes(s1, ids[1..]);
      assert forall id | id in ids[1..] :: id in ids;
      (s2, File(k, ids[0], rep))
  }

  /** Each ID lands in exactly one of the three lists. */
  lemma {:induction false} RemoveVotesPartition(s: State, ids: seq<VoteId>)
    ensures var rep := RemoveVotes(s, ids).1;
      multiset(ids) == multiset(rep.success) + multiset(rep.reversed) + multiset(rep.invalid)
    decreases |ids|
  {
    if |ids| > 0 {
      var (s1, k) := RemoveOne(s, ids[0]);
      RemoveVotesPartition(s1, ids[1..]);
      assert ids == [ids[0]] + ids[1..];
      assert multiset(ids) == multiset{ids[0]} + multiset(ids[1..]);
    }
  }

  /** An ID is reported invalid exactly when the log has no such vote, and
      every ID reported already reversed names a logged vote. */
  lemma {:induction false} RemoveVotesInvalid(s: State, ids: seq<VoteId>)
    ensures var rep := RemoveVotes(s, ids).1;
      && (forall id :: id in rep.invalid <==> id in ids && id !in s.log)
      && (forall id | id in rep.reversed :: id in ids && id in s.log)
    decreases |ids|
  {
    if |ids| > 0 {
      var (s1, k) := RemoveOne(s, ids[0]);
      RemoveVotesInvalid(s1, ids[1..]);
      assert forall id :: id in ids <==> id == ids[0] || id in ids[1..];
    }
  }

  /** An ID is reported removed exactly when it named an active vote at the
      start of the batch. */
  lemma {:induction false} RemoveVotesSuccess(s: State, ids: seq<VoteId>)
    ensures var rep := RemoveVotes(s, ids).1;
      forall id :: id in rep.success <==> id in ids && id in s.log && !s.log[id].reversed
    decreases |ids|
  {
    if |ids| > 0 {
      var (s1, k) := RemoveOne(s, ids[0]);
      RemoveVotesSuccess(s1, ids[1..]);
      var rest := RemoveVotes(s1, ids[1..]).1;
      var rep := RemoveVotes(s, ids).1;
      assert rep == File(k, ids[0], rest);
      forall id ensures id in rep.success <==> id in ids && id in s.log && !s.log[id].reversed {
        assert id in ids <==> id == ids[0] || id in ids[1..];
        if id == ids[0] {
          assert id in s.log ==> s1.log[id].reversed;
        } else {
          assert id in s1.log <==> id in s.log;
          assert id in s.log ==> s1.log[id] == s.log[id];
        }
      }
    }
  }

  /** No ID is reported removed twice, even when the input repeats it. */
  lemma {:induction false} RemoveVotesSuccessOnce(s: State, ids: seq<VoteId>)
    ensures NoDup(RemoveVotes(s, ids).1.success)
    decreases |ids|
  {
    if |ids| > 0 {
      var (s1, k) := RemoveOne(s, ids[0]);
      RemoveVotesSuccessOnce(s1, ids[1..]);
      var rest := RemoveVotes(s1, ids[1..]).1;
      var rep := RemoveVotes(s, ids).1;
      assert rep == File(k, ids[0], rest);
      if k == Removed {
        RemoveVotesSuccess(s1, ids[1..]);
        assert s1.log[ids[0]].reversed;
        NoDupCons(ids[0], rest.success);
      }
    }
  }

  /** A batch naming no active vote changes nothing and removes nothing. */
  lemma {:induction false} RemoveVotesNoActive(s: State, ids: seq<VoteId>)
    requires forall id | id in ids && id in s.log :: s.log[id].reversed
    ensures RemoveVotes(s, ids).0 == s
    ensures RemoveVotes(s, ids).1.success == []
    decreases |ids|
  {
    if |ids| > 0 {
      assert RemoveOne(s, ids[0]).0 == s;
      assert forall id | id in ids[1..] :: id in ids;
      RemoveVotesNoActive(s, ids[1..]);
    }
  }

  /** Removing the same active ID twice in one batch: removed, then already
      reversed, and the state is that of removing it once. */
  lemma RemoveSameIdTwice(s: State, vid: VoteId)
    requires vid in s.log && !s.log[vid].reversed
    ensures var once := RemoveVotes(s, [vid]);
      var twice := RemoveVotes(s, [vid, vid]);
      && once.1 == Report([vid], [], [])
      && twice.1 == Report([vid], [vid], [])
      && twice.0 == once.0
  {
    var s1 := RemoveOne(s, vid).0;
    assert RemoveOne(s, vid).1 == Removed;
    assert [vid][1..] == [];
    assert [vid, vid][1..] == [vid];
    assert [vid][0] == vid && [vid, vid][0] == vid;
    assert RemoveOne(s1, vid) == (s1, AlreadyReversed);
    assert RemoveVotes(s1, []) == (s1, Report([], [], []));
    assert [vid] + [] == [vid];
    assert RemoveVotes(s1, [vid]) == (s1, Report([], [vid], []));
  }

  /** Running the same batch again changes nothing and removes nothing. */
  lemma RemoveVotesIdempotent(s: State, ids: seq<VoteId>)
    ensures var first := RemoveVotes(s, ids);
      var again := RemoveVotes(first.0, ids);
      again.0 == first.0 && again.1.success == []
  {
    RemoveVotesNoActive(RemoveVotes(s, ids).0, ids);
  }

  /** A successful removal decrements the vote's counts with a floor at
      zero, and a token vote's voter, and no other voter, leaves that
      stance's list. */
  lemma RemoveOneCounts(s: State, vid: VoteId)
    requires VotersWellFormed(s)
    requires RemoveOne(s, vid).1 == Removed
    requires s.log[vid].author in s.reputation
    ensures var v := s.log[vid];
      var u := s.reputation[v.author];
      var u' := RemoveOne(s, vid).0.reputation[v.author];
      && u'.Count(v.voteType) == FlooredDec(u.Count(v.voteType))
      && u'.Count(v.voteType.Other()) == u.Count(v.voteType.Other())
      && (v.token != ADMIN_ADDED && v.token in u.tokens ==>
            && v.token in u'.tokens
            && u'.tokens[v.token].Count(v.voteType) == FlooredDec(u.tokens[v.token].Count(v.voteType))
            && v.voter !in u'.tokens[v.token].Voters(v.voteType)
            && multiset(u'.tokens[v.token].Voters(v.voteType))
                 == multiset(u.tokens[v.token].Voters(v.voteType)) - multiset{v.voter}
            && u'.tokens[v.token].Voters(v.voteType.Other()) == u.tokens[v.token].Voters(v.voteType.Other())
            && u'.tokens[v.token].Count(v.voteType.Other()) == u.tokens[v.token].Count(v.voteType.Other())
            && u'.tokens[v.token].symbol == u.tokens[v.token].symbol)
      && u'.tokens.Keys == u.tokens.Keys
      && (forall a | a in u.tokens && a != v.token :: u'.tokens[a] == u.tokens[a])
      && (v.token == ADMIN_ADDED || v.token !in u.tokens ==> u'.tokens == u.tokens)
  {
    var v := s.log[vid];
    var u := s.reputation[v.author];
    if v.token != ADMIN_ADDED && v.token in u.tokens {
      assert TallyWellFormed(u.tokens[v.token]);
      RemoveFirstNoDup(u.tokens[v.token].Voters(v.voteType), v.voter);
    }
  }

  /** A single reversal keeps the active index in sync and the voter lists well formed. */
  lemma RemoveOnePreservesValid(s: State, vid: VoteId)
    requires Valid(s)
    ensures Valid(RemoveOne(s, vid).0)
  {
    var r := RemoveOne(s, vid);
    if r.1 == Removed {
      var v := s.log[vid];
      var s' := r.0;
      if v.author in s.reputation {
        var u := s.reputation[v.author];
        forall a | a in s'.reputation[v.author].tokens
          ensures TallyWellFormed(s'.reputation[v.author].tokens[a])
        {
          assert TallyWellFormed(u.tokens[a]);
          if a == v.token && v.token != ADMIN_ADDED {
            DropKeepsWellFormed(u.tokens[a], v.voter, v.voteType, FlooredDec(u.tokens[a].Count(v.voteType)));
          }
        }
        assert VotersWellFormed(s') by {
          forall w, a | w in s'.reputation && a in s'.reputation[w].tokens
            ensures TallyWellFormed(s'.reputation[w].tokens[a])
          {
            if w != v.author {
              assert s'.reputation[w] == s.reputation[w];
            }
          }
        }
      }
    }
  }

  /** A single reversal never makes a count negative: every decrement is floored at zero. */
  lemma RemoveOnePreservesNonNegative(s: State, vid: VoteId)
    requires NonNegative(s)
    ensures NonNegative(RemoveOne(s, vid).0)
  {
    var r := RemoveOne(s, vid);
    if r.1 == Removed {
      var v := s.log[vid];
      var s' := r.0;
      forall w | w in s'.reputation
        ensures s'.reputation[w].good >= 0 && s'.reputation[w].bad >= 0
        ensures forall a | a in s'.reputation[w].tokens :: TallyNonNegative(s'.reputation[w].tokens[a])
      {
        if w == v.author {
          var u := s.reputation[w];
          forall a | a in s'.reputation[w].tokens
            ensures TallyNonNegative(s'.reputation[w].tokens[a])
          {
            assert TallyNonNegative(u.tokens[a]);
          }
        } else {
          assert s'.reputation[w] == s.reputation[w];
        }
      }
    }
  }

  /** A batch removal keeps the ledger valid and never makes a count negative. */
  lemma {:induction false} RemoveVotesPreserves(s: State, ids: seq<VoteId>)
    ensures Valid(s) ==> Valid(RemoveVotes(s, ids).0)
    ensures NonNegative(s) ==> NonNegative(RemoveVotes(s, ids).0)
    decreases |ids|
  {
    if |ids| > 0 {
      var s1 := RemoveOne(s, ids[0]).0;
      if Valid(s) {
        RemoveOnePreservesValid(s, ids[0]);
      }
      if NonNegative(s) {
        RemoveOnePreservesNonNegative(s, ids[0]);
      }
      RemoveVotesPreserves(s1, ids[1..]);
    }
  }

  // ----- repdisable -----

  /** Toggles whether `user` may vote; the flag says whether the user is now disabled. */
  function ToggleDisabled(s: State, user: UserId): (r: (State, bool))
    ensures r.1 <==> user !in s.disabled
    ensures user in r.0.disabled <==> user !in s.disabled
    ensures forall v | v != user :: v in r.0.disabled <==> v in s.disabled
    ensures r.0.(disabled := s.disabled) == s
  {
    if user in s.disabled then (s.(disabled := s.disabled - {user}), false)
    else (s.(disabled := s.disabled + {user}), true)
  }

  /** Toggling twice restores the state. */
  lemma ToggleTwice(s: State, user: UserId)
    ensures ToggleDisabled(ToggleDisabled(s, user).0, user).0 == s
  {
    var s1 := ToggleDisabled(s, user).0;
    var s2 := ToggleDisabled(s1, user).0;
    assert s2.disabled == s.disabled;
  }

  /** Toggling keeps the ledger valid. */
  lemma TogglePreservesValid(s: State, user: UserId)
    requires Valid(s)
    ensures Valid(ToggleDisabled(s, user).0)
    ensures NonNegative(s) ==> NonNegative(ToggleDisabled(s, user).0)
  {
    var s' := ToggleDisabled(s, user).0;
    assert s' == s.(disabled := s'.disabled);
  }
}
