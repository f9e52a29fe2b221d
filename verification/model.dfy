/** The in-memory state of the reputation ledger.

    Five pieces of state are kept side by side: the per-user aggregates with
    their per-token tallies, the full vote log, the active subset of that log,
    the set of users barred from voting, and the voting messages the bot has
    posted. Discord IDs are integers; the source keys the aggregates by the
    decimal string of the author's ID, a conversion this model leaves out.
 */
module Model {
  datatype Option<T> = None | Some(value: T)

  type UserId = int
  type MessageId = int
  type VoteId = string
  type Address = string

  /** Address recorded when no token address could be found in a message. */
  const UNKNOWN: Address := "unknown"
  /** Pseudo-address of votes an administrator adds by hand. */
  const ADMIN_ADDED: Address := "admin_added"

  datatype VoteType = Good | Bad {
    function Other(): (o: VoteType)
      ensures o != this
    {
      if Good? then Bad else Good
    }
  }

  /** One token's tally under one author. The symbol is optional because
      entries saved by older versions have none until they are loaded. */
  datatype TokenTally = TokenTally(
    good: int,
    bad: int,
    goodVoters: seq<UserId>,
    badVoters: seq<UserId>,
    symbol: Option<string>)
  {
    function Count(t: VoteType): int {
      if t.Good? then good else bad
    }

    function Voters(t: VoteType): seq<UserId> {
      if t.Good? then goodVoters else badVoters
    }

    /** This tally with the count and voter list of stance `t` replaced. */
    function With(t: VoteType, count: int, voters: seq<UserId>): (r: TokenTally)
      ensures r.Count(t) == count && r.Voters(t) == voters
      ensures r.Count(t.Other()) == Count(t.Other())
      ensures r.Voters(t.Other()) == Voters(t.Other())
      ensures r.symbol == symbol
    {
      if t.Good? then this.(good := count, goodVoters := voters)
      else this.(bad := count, badVoters := voters)
    }
  }

  /** A user's aggregate: overall counts plus per-token tallies. Admin-added
      votes only ever touch the overall counts. */
  datatype UserTally = UserTally(good: int, bad: int, tokens: map<Address, TokenTally>)
  {
    function Count(t: VoteType): int {
      if t.Good? then good else bad
    }

    function WithCount(t: VoteType, n: int): (r: UserTally)
      ensures r.Count(t) == n && r.Count(t.Other()) == Count(t.Other())
      ensures r.tokens == tokens
    {
      if t.Good? then this.(good := n) else this.(bad := n)
    }
  }

  /** One entry of the vote log. Only `reversed` ever changes after creation. */
  datatype VoteRecord = VoteRecord(
    voteId: VoteId,
    voter: UserId,
    author: UserId,
    token: Address,
    voteType: VoteType,
    messageId: MessageId,
    timestamp: string,
    reversed: bool)

  /** What the bot remembers about a voting message it posted. */
  datatype TrackedMessage = TrackedMessage(author: UserId, token: Address, symbol: string)

  datatype State = State(
    reputation: map<UserId, UserTally>,
    log: map<VoteId, VoteRecord>,
    current: map<VoteId, VoteRecord>,
    disabled: set<UserId>,
    tracked: map<MessageId, TrackedMessage>)

  /** A fresh vote ID with its creation time, supplied by the caller in place
      of the UUID generator and the clock. */
  datatype Stamp = Stamp(id: VoteId, time: string)

  const EMPTY_USER: UserTally := UserTally(0, 0, map[])

  const EMPTY_STATE: State := State(map[], map[], map[], {}, map[])

  /** The user's aggregate, or zeroes for a user never voted on. */
  function UserOf(s: State, u: UserId): UserTally {
    if u in s.reputation then s.reputation[u] else EMPTY_USER
  }

  function TokenOf(s: State, u: UserId, a: Address): Option<TokenTally> {
    if u in s.reputation && a in s.reputation[u].tokens
    then Some(s.reputation[u].tokens[a])
    else None
  }

  /** `max(0, n - 1)`: the floored decrement used on every removal path. */
  function FlooredDec(n: int): (r: int)
    ensures r >= 0
    ensures n >= 1 ==> r == n - 1
    ensures n <= 1 ==> r == 0
  {
    if n - 1 < 0 then 0 else n - 1
  }

  /** The vote IDs carried by a run of stamps. */
  function StampIds(stamps: seq<Stamp>): (ids: seq<VoteId>)
    ensures |ids| == |stamps|
    ensures forall i | 0 <= i < |stamps| :: ids[i] == stamps[i].id
  {
    seq(|stamps|, i requires 0 <= i < |stamps| => stamps[i].id)
  }

  /** Stamps whose IDs are absent from the log and pairwise distinct. */
  predicate FreshStamps(log: map<VoteId, VoteRecord>, stamps: seq<Stamp>) {
    && (forall i | 0 <= i < |stamps| :: stamps[i].id !in log)
    && (forall i, j | 0 <= i < j < |stamps| :: stamps[i].id != stamps[j].id)
  }
}
