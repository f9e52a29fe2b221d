/** Token symbols: the placeholder used when no symbol is known, the symbol
    stored with a newly tracked voting message, and the backfill applied to
    token tallies saved without a symbol when the state is loaded.
 */
module Symbols {
  import opened Model
  import opened Ledger

  /** Python's `a[:6]`: at most the first six characters. */
  function Prefix6(a: Address): (p: string)
    ensures |p| <= 6 && p <= a
    ensures |a| >= 6 ==> |p| == 6
    ensures |a| < 6 ==> p == a
  {
    if |a| < 6 then a else a[..6]
  }

  /** The placeholder symbol: the first six characters of the address
      followed by "...", or "unknown" for the unknown-address sentinel. */
  function DefaultSymbol(a: Address): (r: string)
    ensures |r| > 0
    ensures a == UNKNOWN ==> r == UNKNOWN
    ensures a != UNKNOWN ==> r == Prefix6(a) + "..."
  {
    if a != UNKNOWN then Prefix6(a) + "..." else UNKNOWN
  }

  /** The symbol stored with a new voting message: the extracted symbol,
      unless the address is unknown or nothing was extracted. */
  function TrackedSymbol(a: Address, extracted: string): (r: string)
    ensures |r| > 0
    ensures a != UNKNOWN && extracted != "" ==> r == extracted
    ensures a == UNKNOWN || extracted == "" ==> r == DefaultSymbol(a)
  {
    if a == UNKNOWN || extracted == "" then DefaultSymbol(a) else extracted
  }

  /** Remembers a voting message the bot just posted for `author`. */
  function TrackMessage(s: State, msg: MessageId, author: UserId, a: Address, extracted: string): (r: State)
    ensures msg in r.tracked
    ensures r.tracked[msg] == TrackedMessage(author, a, TrackedSymbol(a, extracted))
    ensures forall m | m in s.tracked && m != msg :: m in r.tracked && r.tracked[m] == s.tracked[m]
    ensures r.(tracked := s.tracked) == s
  {
    s.(tracked := s.tracked[msg := TrackedMessage(author, a, TrackedSymbol(a, extracted))])
  }

  /** Tracking a message touches neither the tallies nor the log. */
  lemma TrackMessagePreservesValid(s: State, msg: MessageId, author: UserId, a: Address, extracted: string)
    requires Valid(s)
    ensures Valid(TrackMessage(s, msg, author, a, extracted))
  {
    var r := TrackMessage(s, msg, author, a, extracted);
    assert r == s.(tracked := r.tracked);
  }

  /** A tally loaded without a symbol gets the placeholder; others are kept. */
  function FillSymbol(a: Address, t: TokenTally): TokenTally {
    if t.symbol.None? then t.(symbol := Some(DefaultSymbol(a))) else t
  }

  /** The load-time backfill over every user's token tallies. */
  function Backfill(rep: map<UserId, UserTally>): (r: map<UserId, UserTally>)
    ensures r.Keys == rep.Keys
    ensures forall u | u in rep ::
      && r[u].good == rep[u].good && r[u].bad == rep[u].bad
      && r[u].tokens.Keys == rep[u].tokens.Keys
    ensures forall u, a | u in rep && a in rep[u].tokens ::
      var t := rep[u].tokens[a];
      && r[u].tokens[a].symbol.Some?
      && (t.symbol.Some? ==> r[u].tokens[a] == t)
      && (t.symbol.None? ==> r[u].tokens[a] == t.(symbol := Some(DefaultSymbol(a))))
  {
    map u | u in rep :: rep[u].(tokens := map a | a in rep[u].tokens :: FillSymbol(a, rep[u].tokens[a]))
  }

  /** Backfilling twice is backfilling once. */
  lemma BackfillIdempotent(rep: map<UserId, UserTally>)
    ensures Backfill(Backfill(rep)) == Backfill(rep)
  {
    var once := Backfill(rep);
    var twice := Backfill(once);
    forall u | u in rep ensures twice[u] == once[u] {
      assert twice[u].tokens == once[u].tokens;
    }
  }

  /** What loading the saved files does to the running state: the
      aggregates, log, active index and disabled set are replaced by the
      saved ones, with legacy symbols backfilled. The tracked voting messages
      are never saved, so loading leaves the in-memory ones alone. */
  function Load(running: State, saved: State): (r: State)
    ensures r.reputation == Backfill(saved.reputation)
    ensures r.log == saved.log && r.current == saved.current && r.disabled == saved.disabled
    ensures r.tracked == running.tracked
  {
    saved.(reputation := Backfill(saved.reputation), tracked := running.tracked)
  }

  /** A process start: the state begins empty, with no tracked voting
      message, and the saved files are then loaded. */
  function Start(saved: State): (r: State)
    ensures r.tracked == map[]
    ensures r.reputation == Backfill(saved.reputation) && r.disabled == saved.disabled
    ensures r.reputation.Keys == saved.reputation.Keys && r.log == saved.log && r.current == saved.current
  {
    Load(EMPTY_STATE, saved)
  }

  /** Loading changes no count, voter list or log entry, so a valid,
      non-negative saved state gives a valid, non-negative running state. */
  lemma LoadPreserves(running: State, saved: State)
    ensures Valid(saved) ==> Valid(Load(running, saved))
    ensures NonNegative(saved) ==> NonNegative(Load(running, saved))
  {
    var r := Load(running, saved);
    forall u, a | u in r.reputation && a in r.reputation[u].tokens
      ensures var t := saved.reputation[u].tokens[a];
        var t' := r.reputation[u].tokens[a];
        t'.goodVoters == t.goodVoters && t'.badVoters == t.badVoters && t'.good == t.good && t'.bad == t.bad
    {
    }
  }

  /** The first vote on a freshly tracked message stores the message's
      symbol, which is never empty: a known address with nothing extracted
      shows the same placeholder the load-time backfill would give. */
  lemma TrackedSymbolMatchesBackfill(a: Address, extracted: string, t: TokenTally)
    requires t.symbol.None?
    ensures extracted == "" ==> FillSymbol(a, t).symbol == Some(TrackedSymbol(a, extracted))
    ensures a == UNKNOWN ==> FillSymbol(a, t).symbol == Some(TrackedSymbol(a, extracted))
  {
  }
}
