/** Reaction events on tracked voting messages.

    Adding a green or red circle to a tracked message casts a good or bad vote
    on the message's author for the message's token; removing it retracts the
    vote. Guards come first and leave the state untouched: bot or disabled
    users, untracked messages, the author reacting to their own message, and
    any other glyph. Discord side effects (removing the author's own reaction,
    private notices, audit-channel posts, saving to disk) are not modelled.
 */
module Reactions {
  import opened Voters
  import opened Model
  import opened Ledger

  const GOOD_GLYPH: string := "\U{1F7E2}"
  const BAD_GLYPH: string := "\U{1F534}"

  /** The vote a reaction glyph stands for, if any. */
  function GlyphVote(emoji: string): (r: Option<VoteType>)
    ensures r == Some(Good) <==> emoji == GOOD_GLYPH
    ensures r == Some(Bad) <==> emoji == BAD_GLYPH
    ensures r.None? <==> emoji != GOOD_GLYPH && emoji != BAD_GLYPH
  {
    if emoji == GOOD_GLYPH then Some(Good)
    else if emoji == BAD_GLYPH then Some(Bad)
    else None
  }

  datatype Ignored = BotOrDisabled | Untracked | OwnMessage | NotAVoteGlyph | NoStance

  datatype AddOutcome = AddIgnored(reason: Ignored) | Recorded(voteId: VoteId, switched: bool)

  datatype RemoveOutcome = RemoveIgnored(reason: Ignored) | Retracted

  /** A reaction event that gets past every guard, stated without regard to
      the order in which the handlers test the guards. */
  predicate Admissible(s: State, user: UserId, isBot: bool, msg: MessageId, emoji: string) {
    && !isBot
    && user !in s.disabled
    && msg in s.tracked
    && user != s.tracked[msg].author
    && GlyphVote(emoji).Some?
  }

  /** 1 when `voter` is listed under stance `vt`, else 0. */
  function Held(t: TokenTally, voter: UserId, vt: VoteType): int {
    if voter in t.Voters(vt) then 1 else 0
  }

  /** Drops a held stance when a voter votes again: the voter leaves the list
      and the count goes down by one, with no floor. */
  function Unvote(t: TokenTally, voter: UserId, vt: VoteType): TokenTally {
    if voter in t.Voters(vt) then t.With(vt, t.Count(vt) - 1, RemoveFirst(t.Voters(vt), voter))
    else t
  }

  /** The token tally after `voter` casts `vt`: both stances dropped (good
      first, then bad), then the new stance appended. */
  function CastTally(t: TokenTally, voter: UserId, vt: VoteType): TokenTally {
    var dropped := Unvote(Unvote(t, voter, Good), voter, Bad);
    dropped.With(vt, dropped.Count(vt) + 1, dropped.Voters(vt) + [voter])
  }

  /** The tally a vote lands on: the existing one with its symbol overwritten
      by the message's symbol, or a fresh one. */
  function TargetTally(s: State, info: TrackedMessage): TokenTally {
    match TokenOf(s, info.author, info.token)
    case Some(t) => t.(symbol := Some(info.symbol))
    case None => TokenTally(0, 0, [], [], Some(info.symbol))
  }

  /** The state after an admissible vote, and whether the voter held a stance. */
  function CastVote(s: State, info: TrackedMessage, voter: UserId, vt: VoteType, msg: MessageId, stamp: Stamp): (State, bool)
  {
    var user := UserOf(s, info.author);
    var tok := TargetTally(s, info);
    var good := user.good - Held(tok, voter, Good) + (if vt == Good then 1 else 0);
    var bad := user.bad - Held(tok, voter, Bad) + (if vt == Bad then 1 else 0);
    var user' := UserTally(good, bad, user.tokens[info.token := CastTally(tok, voter, vt)]);
    var rec := VoteRecord(stamp.id, voter, info.author, info.token, vt, msg, stamp.time, false);
    var s' := s.(reputation := s.reputation[info.author := user'],
                 log := s.log[stamp.id := rec],
                 current := s.current[stamp.id := rec]);
    (s', Held(tok, voter, Good) + Held(tok, voter, Bad) > 0)
  }

  /** A reaction added by `user` to message `msg`. The new record is stored
      under the stamp's ID; as with the dictionary store it models, an ID
      already in the log would be overwritten, so the lemmas about the log
      take the ID to be fresh. */
  function AddReaction(s: State, user: UserId, isBot: bool, msg: MessageId, emoji: string, stamp: Stamp): (r: (State, AddOutcome))
    ensures r.1.AddIgnored? <==> !Admissible(s, user, isBot, msg, emoji)
    ensures r.1.AddIgnored? ==> r.0 == s
    ensures r.1.Recorded? ==> r.1.voteId == stamp.id && stamp.id in r.0.log
    ensures r.0.log.Keys <= s.log.Keys + {stamp.id}
  {
    if isBot || user in s.disabled then (s, AddIgnored(BotOrDisabled))
    else if msg !in s.tracked then (s, AddIgnored(Untracked))
    else if user == s.tracked[msg].author then (s, AddIgnored(OwnMessage))
    else match GlyphVote(emoji)
      case None => (s, AddIgnored(NotAVoteGlyph))
      case Some(vt) =>
        var (s', switched) := CastVote(s, s.tracked[msg], user, vt, msg, stamp);
        (s', Recorded(stamp.id, switched))
  }

  /** An active log record left by `voter` on this author, token, stance and message. */
  predicate ActiveMatch(rec: VoteRecord, voter: UserId, info: TrackedMessage, vt: VoteType, msg: MessageId) {
    && rec.voter == voter
    && rec.author == info.author
    && rec.token == info.token
    && rec.voteType == vt
    && rec.messageId == msg
    && !rec.reversed
  }

  /** A reaction removed by `user` from message `msg`. */
  function RemoveReaction(s: State, user: UserId, isBot: bool, msg: MessageId, emoji: string): (r: (State, RemoveOutcome))
    ensures r.1.Retracted? <==>
      && Admissible(s, user, isBot, msg, emoji)
      && TokenOf(s, s.tracked[msg].author, s.tracked[msg].token).Some?
      && user in TokenOf(s, s.tracked[msg].author, s.tracked[msg].token).value.Voters(GlyphVote(emoji).value)
    ensures r.1.RemoveIgnored? ==> r.0 == s
    ensures r.0.log.Keys == s.log.Keys
  {
    if user in s.disabled || isBot then (s, RemoveIgnored(BotOrDisabled))
    else if msg !in s.tracked then (s, RemoveIgnored(Untracked))
    else if user == s.tracked[msg].author then (s, RemoveIgnored(OwnMessage))
    else match GlyphVote(emoji)
      case None => (s, RemoveIgnored(NotAVoteGlyph))
      case Some(vt) =>
        var info := s.tracked[msg];
        if info.author !in s.reputation then (s, RemoveIgnored(NoStance))
        else
          var u := s.reputation[info.author];
          if info.token !in u.tokens || user !in u.tokens[info.token].Voters(vt) then (s, RemoveIgnored(NoStance))
          else (Retract(s, info, user, vt, msg), Retracted)
  }

  /** The state after `user` takes back stance `vt` on the message's token:
      floored decrements on the token tally and the author's aggregate, and
      every matching active record reversed and dropped from the index. */
  function Retract(s: State, info: TrackedMessage, user: UserId, vt: VoteType, msg: MessageId): (r: State)
    requires info.author in s.reputation && info.token in s.reputation[info.author].tokens
    ensures r.log.Keys == s.log.Keys
    ensures r.reputation.Keys == s.reputation.Keys
    ensures r.disabled == s.disabled && r.tracked == s.tracked
  {
    var u := s.reputation[info.author];
    var t' := RetractTally(u.tokens[info.token], user, vt);
    var u' := u.WithCount(vt, FlooredDec(u.Count(vt))).(tokens := u.tokens[info.token := t']);
    var log' := map id | id in s.log ::
      if ActiveMatch(s.log[id], user, info, vt, msg) then s.log[id].(reversed := true) else s.log[id];
    var current' := map id | id in s.current && !(id in s.log && ActiveMatch(s.log[id], user, info, vt, msg)) ::
      s.current[id];
    s.(reputation := s.reputation[info.author := u'], log := log', current := current')
  }

  // ----- Properties of adding a reaction -----

  /** Casting on a well-formed tally: the voter ends up in exactly the new
      stance, each count moves by what the voter held before, and every other
      voter keeps the stance it had. */
  lemma CastTallyEffect(t: TokenTally, voter: UserId, vt: VoteType)
    requires TallyWellFormed(t)
    ensures TallyWellFormed(CastTally(t, voter, vt))
    ensures voter in CastTally(t, voter, vt).Voters(vt)
    ensures voter !in CastTally(t, voter, vt).Voters(vt.Other())
    ensures CastTally(t, voter, vt).Count(vt) == t.Count(vt) - Held(t, voter, vt) + 1
    ensures CastTally(t, voter, vt).Count(vt.Other()) == t.Count(vt.Other()) - Held(t, voter, vt.Other())
    ensures CastTally(t, voter, vt).symbol == t.symbol
    ensures forall w | w != voter ::
      && (w in CastTally(t, voter, vt).goodVoters <==> w in t.goodVoters)
      && (w in CastTally(t, voter, vt).badVoters <==> w in t.badVoters)
  {
    var t1 := Unvote(t, voter, Good);
    if voter in t.goodVoters {
      DropKeepsWellFormed(t, voter, Good, t.good - 1);
    }
    assert TallyWellFormed(t1) && voter !in t1.goodVoters && t1.badVoters == t.badVoters;
    var t2 := Unvote(t1, voter, Bad);
    if voter in t1.badVoters {
      DropKeepsWellFormed(t1, voter, Bad, t1.bad - 1);
      assert t2.goodVoters == t1.goodVoters;
    }
    assert TallyWellFormed(t2) && voter !in t2.goodVoters && voter !in t2.badVoters;
    CastKeepsWellFormed(t2, voter, vt);
    forall w | w != voter
      ensures w in CastTally(t, voter, vt).goodVoters <==> w in t.goodVoters
      ensures w in CastTally(t, voter, vt).badVoters <==> w in t.badVoters
    {
      RemoveFirstKeepsOthers(t.goodVoters, voter, w);
      RemoveFirstKeepsOthers(t1.badVoters, voter, w);
    }
  }

  /** Held stances are 0 or 1 and never both 1 on a well-formed tally. */
  lemma HeldExclusive(t: TokenTally, voter: UserId)
    requires TallyWellFormed(t)
    ensures Held(t, voter, Good) + Held(t, voter, Bad) <= 1
  {
  }

  /** After an admissible reaction the voter holds exactly the new stance on
      the message's token, every other voter keeps the stance it had on the
      tally the vote lands on, and the token's symbol is the message's symbol. */
  lemma AddReactionStance(s: State, user: UserId, msg: MessageId, emoji: string, stamp: Stamp)
    requires VotersWellFormed(s)
    requires Admissible(s, user, false, msg, emoji)
    ensures var info := s.tracked[msg];
      var vt := GlyphVote(emoji).value;
      var after := TokenOf(AddReaction(s, user, false, msg, emoji, stamp).0, info.author, info.token);
      && after.Some?
      && user in after.value.Voters(vt)
      && user !in after.value.Voters(vt.Other())
      && after.value.symbol == Some(info.symbol)
      && (forall w | w != user ::
            && (w in after.value.goodVoters <==> w in TargetTally(s, info).goodVoters)
            && (w in after.value.badVoters <==> w in TargetTally(s, info).badVoters))
  {
    var info := s.tracked[msg];
    var vt := GlyphVote(emoji).value;
    var tok := TargetTally(s, info);
    assert TallyWellFormed(tok);
    CastTallyEffect(tok, user, vt);
    assert TokenOf(AddReaction(s, user, false, msg, emoji, stamp).0, info.author, info.token) == Some(CastTally(tok, user, vt));
  }

  /** The count bookkeeping of an admissible reaction, at token and user
      level: re-casting the held stance changes nothing, switching moves one
      vote from the old stance to the new, and a first vote adds one. The
      outcome reports a switch exactly when a stance was held before. */
  lemma AddReactionCounts(s: State, user: UserId, msg: MessageId, emoji: string, stamp: Stamp)
    requires VotersWellFormed(s)
    requires Admissible(s, user, false, msg, emoji)
    ensures var info := s.tracked[msg];
      var vt := GlyphVote(emoji).value;
      var r := AddReaction(s, user, false, msg, emoji, stamp);
      var before := TargetTally(s, info);
      var after := TokenOf(r.0, info.author, info.token).value;
      var u := UserOf(s, info.author);
      var u' := UserOf(r.0, info.author);
      && (r.1.Recorded? && (r.1.switched <==> user in before.goodVoters || user in before.badVoters))
      && (user in before.Voters(vt) ==>
            && after.good == before.good && after.bad == before.bad
            && u'.good == u.good && u'.bad == u.bad)
      && (user in before.Voters(vt.Other()) ==>
            && after.Count(vt) == before.Count(vt) + 1 && after.Count(vt.Other()) == before.Count(vt.Other()) - 1
            && u'.Count(vt) == u.Count(vt) + 1 && u'.Count(vt.Other()) == u.Count(vt.Other()) - 1)
      && (user !in before.goodVoters && user !in before.badVoters ==>
            && after.Count(vt) == before.Count(vt) + 1 && after.Count(vt.Other()) == before.Count(vt.Other())
            && u'.Count(vt) == u.Count(vt) + 1 && u'.Count(vt.Other()) == u.Count(vt.Other()))
  {
    var info := s.tracked[msg];
    var vt := GlyphVote(emoji).value;
    var tok := TargetTally(s, info);
    assert TallyWellFormed(tok);
    CastTallyEffect(tok, user, vt);
    HeldExclusive(tok, user);
    var u := UserOf(s, info.author);
    var r := AddReaction(s, user, false, msg, emoji, stamp);
    assert r == (CastVote(s, info, user, vt, msg, stamp).0, Recorded(stamp.id, Held(tok, user, Good) + Held(tok, user, Bad) > 0));
    assert TokenOf(r.0, info.author, info.token) == Some(CastTally(tok, user, vt));
    assert UserOf(r.0, info.author).good == u.good - Held(tok, user, Good) + (if vt == Good then 1 else 0);
    assert UserOf(r.0, info.author).bad == u.bad - Held(tok, user, Bad) + (if vt == Bad then 1 else 0);
  }

  /** An admissible reaction appends one active record describing the vote,
      leaves every earlier record as it was (a switched stance's old record
      stays active), and touches no other user, token, disabled voter or
      tracked message. */
  lemma AddReactionRecords(s: State, user: UserId, msg: MessageId, emoji: string, stamp: Stamp)
    requires stamp.id !in s.log
    requires Admissible(s, user, false, msg, emoji)
    ensures var info := s.tracked[msg];
      var s' := AddReaction(s, user, false, msg, emoji, stamp).0;
      && s'.log.Keys == s.log.Keys + {stamp.id}
      && (forall id | id in s.log :: s'.log[id] == s.log[id])
      && stamp.id in s'.current && s'.current[stamp.id] == s'.log[stamp.id]
      && s'.log[stamp.id] == VoteRecord(stamp.id, user, info.author, info.token,
                                        GlyphVote(emoji).value, msg, stamp.time, false)
      && s'.current.Keys == s.current.Keys + {stamp.id}
      && (forall id | id in s.current && id != stamp.id :: s'.current[id] == s.current[id])
      && s'.reputation.Keys == s.reputation.Keys + {info.author}
      && (forall u | u in s.reputation && u != info.author :: s'.reputation[u] == s.reputation[u])
      && UserOf(s', info.author).tokens.Keys == UserOf(s, info.author).tokens.Keys + {info.token}
      && (forall a | a != info.token && a in UserOf(s, info.author).tokens ::
            TokenOf(s', info.author, a) == TokenOf(s, info.author, a))
      && s'.disabled == s.disabled && s'.tracked == s.tracked
  {
  }

  /** Casting a vote keeps every voter list well formed. */
  lemma CastVoteWellFormed(s: State, info: TrackedMessage, voter: UserId, vt: VoteType, msg: MessageId, stamp: Stamp)
    requires VotersWellFormed(s)
    ensures VotersWellFormed(CastVote(s, info, voter, vt, msg, stamp).0)
  {
    var tok := TargetTally(s, info);
    assert TallyWellFormed(tok);
    CastTallyEffect(tok, voter, vt);
    var s' := CastVote(s, info, voter, vt, msg, stamp).0;
    forall u, a | u in s'.reputation && a in s'.reputation[u].tokens
      ensures TallyWellFormed(s'.reputation[u].tokens[a])
    {
      if u == info.author && a == info.token {
        assert s'.reputation[u].tokens[a] == CastTally(tok, voter, vt);
      } else if u == info.author {
        assert s'.reputation[u].tokens[a] == s.reputation[u].tokens[a];
      }
    }
  }

  /** Casting a vote under a fresh ID adds one live record to both the log
      and the active index, and only adds to the log. */
  lemma CastVoteInSync(s: State, info: TrackedMessage, voter: UserId, vt: VoteType, msg: MessageId, stamp: Stamp)
    requires stamp.id !in s.log && InSync(s)
    ensures InSync(CastVote(s, info, voter, vt, msg, stamp).0)
    ensures LogAdvances(s.log, CastVote(s, info, voter, vt, msg, stamp).0.log)
  {
  }

  /** Adding a reaction keeps the active index in sync and the voter lists well formed. */
  lemma AddReactionPreservesValid(s: State, user: UserId, isBot: bool, msg: MessageId, emoji: string, stamp: Stamp)
    requires stamp.id !in s.log && Valid(s)
    ensures Valid(AddReaction(s, user, isBot, msg, emoji, stamp).0)
    ensures LogAdvances(s.log, AddReaction(s, user, isBot, msg, emoji, stamp).0.log)
  {
    if Admissible(s, user, isBot, msg, emoji) {
      var info := s.tracked[msg];
      var vt := GlyphVote(emoji).value;
      CastVoteWellFormed(s, info, user, vt, msg, stamp);
      CastVoteInSync(s, info, user, vt, msg, stamp);
      assert AddReaction(s, user, isBot, msg, emoji, stamp).0 == CastVote(s, info, user, vt, msg, stamp).0;
    }
  }

  // ----- Properties of removing a reaction -----

  /** A retraction removes the voter, and only the voter, from the stance's
      list on the message's token and decrements that count with a floor at
      zero, leaving the other stance and the symbol alone. */
  lemma RemoveReactionEffect(s: State, user: UserId, msg: MessageId, emoji: string)
    requires VotersWellFormed(s)
    requires Admissible(s, user, false, msg, emoji)
    requires TokenOf(s, s.tracked[msg].author, s.tracked[msg].token).Some?
    requires user in TokenOf(s, s.tracked[msg].author, s.tracked[msg].token).value.Voters(GlyphVote(emoji).value)
    ensures var info := s.tracked[msg];
      var vt := GlyphVote(emoji).value;
      var before := TokenOf(s, info.author, info.token).value;
      var after := TokenOf(RemoveReaction(s, user, false, msg, emoji).0, info.author, info.token);
      && after.Some?
      && user !in after.value.Voters(vt)
      && multiset(after.value.Voters(vt)) == multiset(before.Voters(vt)) - multiset{user}
      && after.value.Voters(vt.Other()) == before.Voters(vt.Other())
      && after.value.Count(vt) == FlooredDec(before.Count(vt))
      && after.value.Count(vt.Other()) == before.Count(vt.Other())
      && after.value.symbol == before.symbol
  {
    var info := s.tracked[msg];
    assert RemoveReaction(s, user, false, msg, emoji).1.Retracted?;
    assert TallyWellFormed(s.reputation[info.author].tokens[info.token]);
  }

  /** A retraction decrements the author's overall count of the stance with
      a floor at zero and leaves the other overall count alone. */
  lemma RemoveReactionUserCounts(s: State, user: UserId, msg: MessageId, emoji: string)
    requires Admissible(s, user, false, msg, emoji)
    requires TokenOf(s, s.tracked[msg].author, s.tracked[msg].token).Some?
    requires user in TokenOf(s, s.tracked[msg].author, s.tracked[msg].token).value.Voters(GlyphVote(emoji).value)
    ensures var info := s.tracked[msg];
      var vt := GlyphVote(emoji).value;
      var s' := RemoveReaction(s, user, false, msg, emoji).0;
      && UserOf(s', info.author).Count(vt) == FlooredDec(UserOf(s, info.author).Count(vt))
      && UserOf(s', info.author).Count(vt.Other()) == UserOf(s, info.author).Count(vt.Other())
  {
    assert RemoveReaction(s, user, false, msg, emoji).1.Retracted?;
  }

  /** A retraction reverses every active record of this voter, author,
      token, stance and message, and those records leave the active index,
      so no such active record remains. */
  lemma RemoveReactionLog(s: State, user: UserId, msg: MessageId, emoji: string)
    requires Admissible(s, user, false, msg, emoji)
    requires TokenOf(s, s.tracked[msg].author, s.tracked[msg].token).Some?
    requires user in TokenOf(s, s.tracked[msg].author, s.tracked[msg].token).value.Voters(GlyphVote(emoji).value)
    ensures var info := s.tracked[msg];
      var vt := GlyphVote(emoji).value;
      var s' := RemoveReaction(s, user, false, msg, emoji).0;
      && (forall id | id in s'.log :: !ActiveMatch(s'.log[id], user, info, vt, msg))
      && (forall id | id in s.log && ActiveMatch(s.log[id], user, info, vt, msg) ::
            s'.log[id].reversed && id !in s'.current)
  {
    assert RemoveReaction(s, user, false, msg, emoji).1.Retracted?;
  }

  /** A retraction adds no record and changes no record other than the ones
      it reverses. */
  lemma RemoveReactionKeepsOthers(s: State, user: UserId, msg: MessageId, emoji: string)
    requires Admissible(s, user, false, msg, emoji)
    requires TokenOf(s, s.tracked[msg].author, s.tracked[msg].token).Some?
    requires user in TokenOf(s, s.tracked[msg].author, s.tracked[msg].token).value.Voters(GlyphVote(emoji).value)
    ensures var info := s.tracked[msg];
      var vt := GlyphVote(emoji).value;
      var s' := RemoveReaction(s, user, false, msg, emoji).0;
      && s'.log.Keys == s.log.Keys
      && (forall id | id in s.log && !ActiveMatch(s.log[id], user, info, vt, msg) :: s'.log[id] == s.log[id])
      && LogAdvances(s.log, s'.log)
  {
    assert RemoveReaction(s, user, false, msg, emoji).1.Retracted?;
  }

  /** A reaction removal touches only the message's author: other users,
      the disabled set and the tracked messages stay as they were. */
  lemma RemoveReactionFrame(s: State, user: UserId, isBot: bool, msg: MessageId, emoji: string)
    requires msg in s.tracked
    ensures var info := s.tracked[msg];
      var s' := RemoveReaction(s, user, isBot, msg, emoji).0;
      && s'.reputation.Keys == s.reputation.Keys
      && (forall w | w in s.reputation && w != info.author :: s'.reputation[w] == s.reputation[w])
      && s'.disabled == s.disabled && s'.tracked == s.tracked
  {
  }

  /** Removing a reaction touches only the one token tally of the message's author. */
  lemma RemoveReactionAuthorFrame(s: State, user: UserId, isBot: bool, msg: MessageId, emoji: string)
    requires msg in s.tracked
    ensures var info := s.tracked[msg];
      var s' := RemoveReaction(s, user, isBot, msg, emoji).0;
      && UserOf(s', info.author).tokens.Keys == UserOf(s, info.author).tokens.Keys
      && (forall a | a in UserOf(s, info.author).tokens && a != info.token ::
            TokenOf(s', info.author, a) == TokenOf(s, info.author, a))
  {
  }

  /** Removing a reaction keeps the active index in sync and the voter lists well formed. */
  lemma RemoveReactionPreservesValid(s: State, user: UserId, isBot: bool, msg: MessageId, emoji: string)
    requires Valid(s)
    ensures Valid(RemoveReaction(s, user, isBot, msg, emoji).0)
    ensures LogAdvances(s.log, RemoveReaction(s, user, isBot, msg, emoji).0.log)
  {
    RemoveReactionInSync(s, user, isBot, msg, emoji);
    RemoveReactionWellFormed(s, user, isBot, msg, emoji);
  }

  /** Reversing the matching records and dropping them from the index keeps the two in sync. */
  lemma RemoveReactionInSync(s: State, user: UserId, isBot: bool, msg: MessageId, emoji: string)
    requires InSync(s)
    ensures InSync(RemoveReaction(s, user, isBot, msg, emoji).0)
    ensures LogAdvances(s.log, RemoveReaction(s, user, isBot, msg, emoji).0.log)
  {
  }

  /** Taking a voter out of one list keeps every voter list free of repeats
      and keeps the two stances of every tally disjoint. */
  lemma RemoveReactionWellFormed(s: State, user: UserId, isBot: bool, msg: MessageId, emoji: string)
    requires VotersWellFormed(s)
    ensures VotersWellFormed(RemoveReaction(s, user, isBot, msg, emoji).0)
  {
    var r := RemoveReaction(s, user, isBot, msg, emoji);
    if r.1.Retracted? {
      var info := s.tracked[msg];
      var vt := GlyphVote(emoji).value;
      var t := s.reputation[info.author].tokens[info.token];
      assert TallyWellFormed(t);
      DropKeepsWellFormed(t, user, vt, FlooredDec(t.Count(vt)));
      var s' := r.0;
      forall u, a | u in s'.reputation && a in s'.reputation[u].tokens
        ensures TallyWellFormed(s'.reputation[u].tokens[a])
      {
        if u == info.author && a == info.token {
          assert s'.reputation[u].tokens[a] == RetractTally(t, user, vt);
        } else if u == info.author {
          assert s'.reputation[u].tokens[a] == s.reputation[u].tokens[a];
        }
      }
    }
  }

  /** Removing a reaction never makes a count negative. */
  lemma RemoveReactionPreservesNonNegative(s: State, user: UserId, isBot: bool, msg: MessageId, emoji: string)
    requires NonNegative(s)
    ensures NonNegative(RemoveReaction(s, user, isBot, msg, emoji).0)
  {
    var r := RemoveReaction(s, user, isBot, msg, emoji);
    if r.1.Retracted? {
      var info := s.tracked[msg];
      var s' := r.0;
      forall u | u in s'.reputation
        ensures s'.reputation[u].good >= 0 && s'.reputation[u].bad >= 0
        ensures forall a | a in s'.reputation[u].tokens :: TallyNonNegative(s'.reputation[u].tokens[a])
      {
        if u == info.author {
          forall a | a in s'.reputation[u].tokens
            ensures TallyNonNegative(s'.reputation[u].tokens[a])
          {
            if a != info.token {
              assert s'.reputation[u].tokens[a] == s.reputation[u].tokens[a];
            }
          }
        }
      }
    }
  }
}
