/** Whole-ledger behaviour across several events: concrete runs that show
    what the transitions do together, and the interplay of the disabled
    list with the reaction handlers.
 */
module Scenarios {
  import opened Voters
  import opened Model
  import opened Ledger
  import opened Reactions
  import opened Admin
  import opened Symbols

  const AUTHOR: UserId := 1
  const VOTER: UserId := 2
  const OTHER: UserId := 3
  const MSG: MessageId := 10
  const TOKEN: Address := "So11111111111111111111111111111111111111112"

  /** The state right after the bot posts a voting message for AUTHOR. */
  function Posted(): (s: State)
    ensures Valid(s) && NonNegative(s)
    ensures s.log == map[] && s.reputation == map[] && s.disabled == {}
    ensures MSG in s.tracked && s.tracked[MSG] == INFO
  {
    TrackMessagePreservesValid(EMPTY_STATE, MSG, AUTHOR, TOKEN, "SOL");
    TrackMessage(EMPTY_STATE, MSG, AUTHOR, TOKEN, "SOL")
  }

  /** A user disabled by `repdisable` can neither add nor remove a vote. */
  lemma DisabledVoterIgnored(s: State, user: UserId, isBot: bool, msg: MessageId, emoji: string, stamp: Stamp)
    requires user !in s.disabled
    ensures var s' := ToggleDisabled(s, user).0;
      && AddReaction(s', user, isBot, msg, emoji, stamp) == (s', AddIgnored(BotOrDisabled))
      && RemoveReaction(s', user, isBot, msg, emoji) == (s', RemoveIgnored(BotOrDisabled))
  {
  }

  const INFO: TrackedMessage := TrackedMessage(AUTHOR, TOKEN, "SOL")

  function Glyph(vt: VoteType): string {
    if vt == Good then GOOD_GLYPH else BAD_GLYPH
  }

  /** A vote on the posted message would land on tally `t`, and the author's
      overall counts are `good` and `bad`. */
  predicate At(s: State, t: TokenTally, good: int, bad: int) {
    && MSG in s.tracked && s.tracked[MSG] == INFO && s.disabled == {}
    && TargetTally(s, INFO) == t
    && UserOf(s, AUTHOR).good == good && UserOf(s, AUTHOR).bad == bad
  }

  /** One reaction added to the posted message. */
  lemma CastStep(s: State, voter: UserId, vt: VoteType, stamp: Stamp, t: TokenTally, good: int, bad: int)
    requires At(s, t, good, bad) && voter != AUTHOR && stamp.id !in s.log
    ensures var s' := AddReaction(s, voter, false, MSG, Glyph(vt), stamp).0;
      && TokenOf(s', AUTHOR, TOKEN) == Some(CastTally(t, voter, vt))
      && At(s', CastTally(t, voter, vt),
            good - Held(t, voter, Good) + (if vt == Good then 1 else 0),
            bad - Held(t, voter, Bad) + (if vt == Bad then 1 else 0))
      && s'.log.Keys == s.log.Keys + {stamp.id}
      && (forall id | id in s.log :: s'.log[id] == s.log[id])
      && s'.log[stamp.id] == VoteRecord(stamp.id, voter, AUTHOR, TOKEN, vt, MSG, stamp.time, false)
  {
    AddReactionRecords(s, voter, MSG, Glyph(vt), stamp);
    var s' := AddReaction(s, voter, false, MSG, Glyph(vt), stamp).0;
    assert TokenOf(s', AUTHOR, TOKEN) == Some(CastTally(t, voter, vt));
    assert TargetTally(s', INFO) == CastTally(t, voter, vt);
  }

  /** One reaction taken back from the posted message. */
  lemma RetractStep(s: State, voter: UserId, vt: VoteType, t: TokenTally, good: int, bad: int)
    requires At(s, t, good, bad) && TokenOf(s, AUTHOR, TOKEN) == Some(t)
    requires voter != AUTHOR && voter in t.Voters(vt)
    ensures var r := RemoveReaction(s, voter, false, MSG, Glyph(vt));
      && r.1.Retracted?
      && TokenOf(r.0, AUTHOR, TOKEN) == Some(RetractTally(t, voter, vt))
      && At(r.0, RetractTally(t, voter, vt),
            if vt == Good then FlooredDec(good) else good,
            if vt == Bad then FlooredDec(bad) else bad)
  {
    var r := RemoveReaction(s, voter, false, MSG, Glyph(vt));
    assert TokenOf(r.0, AUTHOR, TOKEN) == Some(RetractTally(t, voter, vt));
    assert TargetTally(r.0, INFO) == RetractTally(t, voter, vt);
  }

  /** One active reaction vote on the posted message reversed by ID. */
  lemma RemoveStep(s: State, vid: VoteId, t: TokenTally, good: int, bad: int)
    requires At(s, t, good, bad) && TokenOf(s, AUTHOR, TOKEN) == Some(t)
    requires vid in s.log && !s.log[vid].reversed
    requires s.log[vid].author == AUTHOR && s.log[vid].token == TOKEN
    ensures var v := s.log[vid];
      var s' := RemoveOne(s, vid).0;
      && TokenOf(s', AUTHOR, TOKEN) == Some(RetractTally(t, v.voter, v.voteType))
      && At(s', RetractTally(t, v.voter, v.voteType),
            if v.voteType == Good then FlooredDec(good) else good,
            if v.voteType == Bad then FlooredDec(bad) else bad)
  {
    assert TOKEN != ADMIN_ADDED;
    var v := s.log[vid];
    var s' := RemoveOne(s, vid).0;
    assert TokenOf(s', AUTHOR, TOKEN) == Some(RetractTally(t, v.voter, v.voteType));
    assert TargetTally(s', INFO) == RetractTally(t, v.voter, v.voteType);
  }

  const SYM: Option<string> := Some("SOL")

  /** The record a reaction leaves for the trace runs. */
  function Rec(id: VoteId, voter: UserId, vt: VoteType, time: string): VoteRecord {
    VoteRecord(id, voter, AUTHOR, TOKEN, vt, MSG, time, false)
  }

  /** The posted message, before any vote. */
  lemma PostedAt()
    ensures At(Posted(), TokenTally(0, 0, [], [], SYM), 0, 0)
  {
    assert TOKEN != UNKNOWN;
  }

  /** A state in which the posted message has no votes on its token yet. */
  predicate Untouched(s: State) {
    At(s, TokenTally(0, 0, [], [], SYM), 0, 0) && s.log == map[] && Valid(s) && NonNegative(s)
  }

  /** The freshly posted message is untouched. */
  lemma PostedUntouched()
    ensures Untouched(Posted())
  {
    PostedAt();
  }

  /** Trace steps 1 and 2: a voter votes good, then switches to bad. */
  lemma SwitchRun(s0: State, s1: State, s2: State)
    requires Untouched(s0)
    requires s1 == AddReaction(s0, VOTER, false, MSG, GOOD_GLYPH, Stamp("v1", "t1")).0
    requires s2 == AddReaction(s1, VOTER, false, MSG, BAD_GLYPH, Stamp("v2", "t2")).0
    ensures At(s2, TokenTally(0, 1, [], [VOTER], SYM), 0, 1)
    ensures s2.log.Keys == {"v1", "v2"} && s2.log["v1"] == Rec("v1", VOTER, Good, "t1")
    ensures Valid(s2)
  {
    var t0 := TokenTally(0, 0, [], [], SYM);
    CastStep(s0, VOTER, Good, Stamp("v1", "t1"), t0, 0, 0);
    AddReactionPreservesValid(s0, VOTER, false, MSG, GOOD_GLYPH, Stamp("v1", "t1"));
    var t1 := TokenTally(1, 0, [VOTER], [], SYM);
    assert CastTally(t0, VOTER, Good) == t1;
    CastStep(s1, VOTER, Bad, Stamp("v2", "t2"), t1, 1, 0);
    AddReactionPreservesValid(s1, VOTER, false, MSG, BAD_GLYPH, Stamp("v2", "t2"));
    assert RemoveFirst([VOTER], VOTER) == [];
    assert CastTally(t1, VOTER, Bad) == TokenTally(0, 1, [], [VOTER], SYM);
  }

  /** Trace step 3: a second voter votes good. */
  lemma SecondGoodRun(s2: State, s3: State)
    requires At(s2, TokenTally(0, 1, [], [VOTER], SYM), 0, 1)
    requires s2.log.Keys == {"v1", "v2"} && s2.log["v1"] == Rec("v1", VOTER, Good, "t1")
    requires Valid(s2)
    requires s3 == AddReaction(s2, OTHER, false, MSG, GOOD_GLYPH, Stamp("v3", "t3")).0
    ensures At(s3, TokenTally(1, 1, [OTHER], [VOTER], SYM), 1, 1)
    ensures TokenOf(s3, AUTHOR, TOKEN) == Some(TokenTally(1, 1, [OTHER], [VOTER], SYM))
    ensures s3.log.Keys == {"v1", "v2", "v3"} && s3.log["v1"] == Rec("v1", VOTER, Good, "t1")
    ensures Valid(s3)
  {
    var t2 := TokenTally(0, 1, [], [VOTER], SYM);
    CastStep(s2, OTHER, Good, Stamp("v3", "t3"), t2, 0, 1);
    AddReactionPreservesValid(s2, OTHER, false, MSG, GOOD_GLYPH, Stamp("v3", "t3"));
    assert OTHER !in [VOTER];
    assert CastTally(t2, OTHER, Good) == TokenTally(1, 1, [OTHER], [VOTER], SYM);
  }

  /** Trace step 4: the first voter's stale good record is reversed by ID. */
  lemma StaleRemovalRun(s3: State, s4: State)
    requires At(s3, TokenTally(1, 1, [OTHER], [VOTER], SYM), 1, 1)
    requires TokenOf(s3, AUTHOR, TOKEN) == Some(TokenTally(1, 1, [OTHER], [VOTER], SYM))
    requires s3.log.Keys == {"v1", "v2", "v3"} && s3.log["v1"] == Rec("v1", VOTER, Good, "t1")
    requires Valid(s3)
    requires s4 == RemoveVotes(s3, ["v1"]).0
    ensures At(s4, TokenTally(0, 1, [OTHER], [VOTER], SYM), 0, 1)
    ensures s4.log.Keys == {"v1", "v2", "v3"}
    ensures Valid(s4)
  {
    var t3 := TokenTally(1, 1, [OTHER], [VOTER], SYM);
    assert s4 == RemoveVotes(RemoveOne(s3, "v1").0, []).0;
    RemoveStep(s3, "v1", t3, 1, 1);
    RemoveOnePreservesValid(s3, "v1");
    assert RemoveFirst([OTHER], VOTER) == [OTHER];
    assert RetractTally(t3, VOTER, Good) == TokenTally(0, 1, [OTHER], [VOTER], SYM);
  }

  /** Trace step 5: the second voter switches to bad. */
  lemma NegativeSwitch(s4: State, s5: State)
    requires At(s4, TokenTally(0, 1, [OTHER], [VOTER], SYM), 0, 1)
    requires s4.log.Keys == {"v1", "v2", "v3"} && Valid(s4)
    requires s5 == AddReaction(s4, OTHER, false, MSG, BAD_GLYPH, Stamp("v4", "t4")).0
    ensures TokenOf(s5, AUTHOR, TOKEN) == Some(TokenTally(-1, 2, [], [VOTER, OTHER], SYM))
    ensures UserOf(s5, AUTHOR).good == -1
    ensures Valid(s5) && !NonNegative(s5)
  {
    var t4 := TokenTally(0, 1, [OTHER], [VOTER], SYM);
    CastStep(s4, OTHER, Bad, Stamp("v4", "t4"), t4, 0, 1);
    AddReactionPreservesValid(s4, OTHER, false, MSG, BAD_GLYPH, Stamp("v4", "t4"));
    assert RemoveFirst([OTHER], OTHER) == [];
    assert [VOTER] + [OTHER] == [VOTER, OTHER];
    assert CastTally(t4, OTHER, Bad) == TokenTally(-1, 2, [], [VOTER, OTHER], SYM);
    assert AUTHOR in s5.reputation && s5.reputation[AUTHOR].good == -1;
  }

  /** Counts can go negative. From a valid, non-negative state in which the
      posted message has no votes yet (the freshly posted message is one):
      a voter votes good (v1) and switches to bad (v2), leaving v1 active;
      a second voter votes good (v3); the administrator reverses v1 by ID,
      which floors the good count at zero without touching the good-voter
      list; the second voter's switch to bad (v4) then takes the good count
      below zero, on the token tally and on the author's aggregate alike, in
      a state that is still valid. */
  lemma NegativeCountTrace(s0: State)
    requires Untouched(s0)
    ensures var s1 := AddReaction(s0, VOTER, false, MSG, GOOD_GLYPH, Stamp("v1", "t1")).0;
      var s2 := AddReaction(s1, VOTER, false, MSG, BAD_GLYPH, Stamp("v2", "t2")).0;
      var s3 := AddReaction(s2, OTHER, false, MSG, GOOD_GLYPH, Stamp("v3", "t3")).0;
      var s4 := RemoveVotes(s3, ["v1"]).0;
      var s5 := AddReaction(s4, OTHER, false, MSG, BAD_GLYPH, Stamp("v4", "t4")).0;
      && TokenOf(s5, AUTHOR, TOKEN).Some?
      && TokenOf(s5, AUTHOR, TOKEN).value.good == -1
      && UserOf(s5, AUTHOR).good == -1
      && Valid(s5) && !NonNegative(s5)
  {
    var s1 := AddReaction(s0, VOTER, false, MSG, GOOD_GLYPH, Stamp("v1", "t1")).0;
    var s2 := AddReaction(s1, VOTER, false, MSG, BAD_GLYPH, Stamp("v2", "t2")).0;
    var s3 := AddReaction(s2, OTHER, false, MSG, GOOD_GLYPH, Stamp("v3", "t3")).0;
    var s4 := RemoveVotes(s3, ["v1"]).0;
    var s5 := AddReaction(s4, OTHER, false, MSG, BAD_GLYPH, Stamp("v4", "t4")).0;
    SwitchRun(s0, s1, s2);
    SecondGoodRun(s2, s3);
    StaleRemovalRun(s3, s4);
    NegativeSwitch(s4, s5);
  }

  /** Run steps 1 and 2: two voters vote good. */
  lemma TwoGoodRun(s0: State, s1: State, s2: State)
    requires Untouched(s0)
    requires s1 == AddReaction(s0, VOTER, false, MSG, GOOD_GLYPH, Stamp("v1", "t1")).0
    requires s2 == AddReaction(s1, OTHER, false, MSG, GOOD_GLYPH, Stamp("v2", "t2")).0
    ensures At(s2, TokenTally(2, 0, [VOTER, OTHER], [], SYM), 2, 0)
    ensures TokenOf(s2, AUTHOR, TOKEN) == Some(TokenTally(2, 0, [VOTER, OTHER], [], SYM))
    ensures s2.log.Keys == {"v1", "v2"}
    ensures s2.log["v1"] == Rec("v1", VOTER, Good, "t1") && s2.log["v2"] == Rec("v2", OTHER, Good, "t2")
    ensures Valid(s2)
  {
    var t0 := TokenTally(0, 0, [], [], SYM);
    CastStep(s0, VOTER, Good, Stamp("v1", "t1"), t0, 0, 0);
    AddReactionPreservesValid(s0, VOTER, false, MSG, GOOD_GLYPH, Stamp("v1", "t1"));
    var t1 := TokenTally(1, 0, [VOTER], [], SYM);
    assert CastTally(t0, VOTER, Good) == t1;
    CastStep(s1, OTHER, Good, Stamp("v2", "t2"), t1, 1, 0);
    AddReactionPreservesValid(s1, OTHER, false, MSG, GOOD_GLYPH, Stamp("v2", "t2"));
    assert OTHER !in [VOTER];
    assert [VOTER] + [OTHER] == [VOTER, OTHER];
    assert CastTally(t1, OTHER, Good) == TokenTally(2, 0, [VOTER, OTHER], [], SYM);
  }

  /** Run step 3: the first voter takes the reaction back, which reverses
      that voter's record only. */
  lemma TakeBackRun(s2: State, s3: State)
    requires At(s2, TokenTally(2, 0, [VOTER, OTHER], [], SYM), 2, 0)
    requires TokenOf(s2, AUTHOR, TOKEN) == Some(TokenTally(2, 0, [VOTER, OTHER], [], SYM))
    requires s2.log.Keys == {"v1", "v2"}
    requires s2.log["v1"] == Rec("v1", VOTER, Good, "t1") && s2.log["v2"] == Rec("v2", OTHER, Good, "t2")
    requires Valid(s2)
    requires s3 == RemoveReaction(s2, VOTER, false, MSG, GOOD_GLYPH).0
    ensures At(s3, TokenTally(1, 0, [OTHER], [], SYM), 1, 0)
    ensures TokenOf(s3, AUTHOR, TOKEN) == Some(TokenTally(1, 0, [OTHER], [], SYM))
    ensures s3.log.Keys == {"v1", "v2"}
    ensures s3.log["v1"].reversed && "v1" !in s3.current
    ensures s3.log["v2"] == Rec("v2", OTHER, Good, "t2")
    ensures Valid(s3)
  {
    var t2 := TokenTally(2, 0, [VOTER, OTHER], [], SYM);
    RetractStep(s2, VOTER, Good, t2, 2, 0);
    RemoveReactionEffect(s2, VOTER, MSG, GOOD_GLYPH);
    RemoveReactionLog(s2, VOTER, MSG, GOOD_GLYPH);
    RemoveReactionUserCounts(s2, VOTER, MSG, GOOD_GLYPH);
    RemoveReactionPreservesValid(s2, VOTER, false, MSG, GOOD_GLYPH);
    assert ActiveMatch(s2.log["v1"], VOTER, INFO, Good, MSG);
    assert !ActiveMatch(s2.log["v2"], VOTER, INFO, Good, MSG);
    assert RemoveFirst([VOTER, OTHER], VOTER) == [OTHER];
    assert RetractTally(t2, VOTER, Good) == TokenTally(1, 0, [OTHER], [], SYM);
  }

  /** Run steps 4 and 5: the administrator reverses the other vote by ID,
      then asks again. */
  lemma RemoveTwiceRun(s3: State)
    requires At(s3, TokenTally(1, 0, [OTHER], [], SYM), 1, 0)
    requires TokenOf(s3, AUTHOR, TOKEN) == Some(TokenTally(1, 0, [OTHER], [], SYM))
    requires s3.log.Keys == {"v1", "v2"}
    requires s3.log["v1"].reversed && s3.log["v2"] == Rec("v2", OTHER, Good, "t2")
    requires Valid(s3)
    ensures var (s4, first) := RemoveVotes(s3, ["v2"]);
      var (s5, second) := RemoveVotes(s4, ["v2"]);
      && UserOf(s4, AUTHOR).good == 0 && first == Report(["v2"], [], [])
      && s5 == s4 && second == Report([], ["v2"], [])
      && s4.current == map[]
  {
    var s4 := RemoveVotes(s3, ["v2"]).0;
    assert s4 == RemoveVotes(RemoveOne(s3, "v2").0, []).0;
    RemoveStep(s3, "v2", TokenTally(1, 0, [OTHER], [], SYM), 1, 0);
    RemoveSameIdTwice(s3, "v2");
    RemoveVotesPreserves(s3, ["v2"]);
    assert s4.log.Keys == {"v1", "v2"} && s4.log["v1"].reversed && s4.log["v2"].reversed;
    assert s4.current.Keys == {};
  }

  /** Two good votes give a score of two; one voter takes the reaction back
      and the administrator reverses the other vote by ID, which brings the
      author back to zero and leaves no vote active; a second request for
      the same ID reports it as already reversed and changes nothing. */
  lemma VoteRetractRemoveRun(s0: State)
    requires Untouched(s0)
    ensures var s1 := AddReaction(s0, VOTER, false, MSG, GOOD_GLYPH, Stamp("v1", "t1")).0;
      var s2 := AddReaction(s1, OTHER, false, MSG, GOOD_GLYPH, Stamp("v2", "t2")).0;
      var s3 := RemoveReaction(s2, VOTER, false, MSG, GOOD_GLYPH).0;
      var (s4, first) := RemoveVotes(s3, ["v2"]);
      var (s5, second) := RemoveVotes(s4, ["v2"]);
      && UserOf(s2, AUTHOR).good - UserOf(s2, AUTHOR).bad == 2
      && UserOf(s3, AUTHOR).good == 1 && s3.log["v1"].reversed && "v1" !in s3.current
      && UserOf(s4, AUTHOR).good == 0 && first == Report(["v2"], [], [])
      && s5 == s4 && second == Report([], ["v2"], [])
      && s4.current == map[]
  {
    var s1 := AddReaction(s0, VOTER, false, MSG, GOOD_GLYPH, Stamp("v1", "t1")).0;
    var s2 := AddReaction(s1, OTHER, false, MSG, GOOD_GLYPH, Stamp("v2", "t2")).0;
    var s3 := RemoveReaction(s2, VOTER, false, MSG, GOOD_GLYPH).0;
    TwoGoodRun(s0, s1, s2);
    TakeBackRun(s2, s3);
    RemoveTwiceRun(s3);
  }
}
