/** The leaderboard: one row per guild member with at least one counted
    vote, ranked by score, then by good votes, then by fewest bad votes.
 */
module Board {
  import opened Model

  datatype Standing = Standing(user: UserId, score: int, good: int, bad: int)

  /** The row the leaderboard shows for user `u`. */
  function RowOf(rep: map<UserId, UserTally>, u: UserId): Standing
    requires u in rep
  {
    Standing(u, rep[u].good - rep[u].bad, rep[u].good, rep[u].bad)
  }

  /** Users left off the board: non-members and users with no votes either way. */
  predicate Listed(rep: map<UserId, UserTally>, members: set<UserId>, u: UserId) {
    u in rep && u in members && !(rep[u].good == 0 && rep[u].bad == 0)
  }

  /** The unsorted rows, visiting users in `order` (the aggregate map's
      iteration order). */
  function Rows(rep: map<UserId, UserTally>, order: seq<UserId>, members: set<UserId>): (r: seq<Standing>)
    ensures |r| <= |order|
    ensures forall x | x in r :: x.user in order && Listed(rep, members, x.user) && x == RowOf(rep, x.user)
    ensures forall u | u in order && Listed(rep, members, u) :: RowOf(rep, u) in r
  {
    if |order| == 0 then []
    else
      var rest := Rows(rep, order[1..], members);
      var u := order[0];
      if Listed(rep, members, u) then [RowOf(rep, u)] + rest else rest
  }

  /** `a` may stand above `b`: the key (-score, -good, bad) of `a` is no
      larger than that of `b` in lexicographic order. */
  predicate NoLater(a: Standing, b: Standing) {
    || -a.score < -b.score
    || (-a.score == -b.score && (-a.good < -b.good || (-a.good == -b.good && a.bad <= b.bad)))
  }

  predicate Ranked(xs: seq<Standing>) {
    forall i, j | 0 <= i < j < |xs| :: NoLater(xs[i], xs[j])
  }

  /** Places `x` after every row that does not rank strictly below it, so
      rows with equal keys keep their arrival order. */
  function Insert(x: Standing, xs: seq<Standing>): (r: seq<Standing>)
    ensures multiset(r) == multiset(xs) + multiset{x}
  {
    if |xs| == 0 then [x]
    else if !NoLater(xs[0], x) then [x] + xs
    else
      assert xs == [xs[0]] + xs[1..];
      [xs[0]] + Insert(x, xs[1..])
  }

  /** Inserting into a ranked list keeps it ranked. */
  lemma {:induction false} InsertRanked(x: Standing, xs: seq<Standing>)
    requires Ranked(xs)
    ensures Ranked(Insert(x, xs))
  {
    if |xs| > 0 {
      if !NoLater(xs[0], x) {
        assert forall k | 0 <= k < |xs| :: NoLater(x, xs[k]);
      } else {
        var tail := Insert(x, xs[1..]);
        InsertRanked(x, xs[1..]);
        assert xs == [xs[0]] + xs[1..];
        forall k | 0 <= k < |tail| ensures NoLater(xs[0], tail[k]) {
          assert tail[k] in multiset(tail);
          if tail[k] != x {
            assert tail[k] in multiset(xs[1..]);
          }
        }
      }
    }
  }

  /** Insertion sort by the ranking key. */
  function Rank(xs: seq<Standing>): (r: seq<Standing>)
    ensures multiset(r) == multiset(xs)
    ensures Ranked(r)
  {
    if |xs| == 0 then []
    else
      var init := xs[..|xs| - 1];
      assert xs == init + [xs[|xs| - 1]];
      InsertRanked(xs[|xs| - 1], Rank(init));
      Insert(xs[|xs| - 1], Rank(init))
  }

  /** `order` visits every aggregate exactly once, as iterating over the
      aggregate map does. */
  predicate VisitsOnce(rep: map<UserId, UserTally>, order: seq<UserId>) {
    && (forall u | u in order :: u in rep)
    && (forall u | u in rep :: u in order)
    && (forall i, j | 0 <= i < j < |order| :: order[i] != order[j])
  }

  /** The full leaderboard before it is cut to the top ten for display. */
  function Leaderboard(rep: map<UserId, UserTally>, order: seq<UserId>, members: set<UserId>): (r: seq<Standing>)
    requires VisitsOnce(rep, order)
    ensures Ranked(r)
    ensures multiset(r) == multiset(Rows(rep, order, members))
  {
    Rank(Rows(rep, order, members))
  }

  /** A user with an aggregate appears on the board exactly when listed,
      with their own counts. */
  lemma LeaderboardMembers(rep: map<UserId, UserTally>, order: seq<UserId>, members: set<UserId>, u: UserId)
    requires VisitsOnce(rep, order)
    requires u in rep
    ensures (exists x | x in Leaderboard(rep, order, members) :: x.user == u) <==> Listed(rep, members, u)
    ensures Listed(rep, members, u) ==> RowOf(rep, u) in Leaderboard(rep, order, members)
  {
    var rows := Rows(rep, order, members);
    var board := Leaderboard(rep, order, members);
    assert u in order;
    forall x | x in board ensures x in rows {
      assert x in multiset(board);
    }
    if Listed(rep, members, u) {
      assert RowOf(rep, u) in multiset(rows);
    }
  }

  predicate DistinctUsers(xs: seq<Standing>) {
    forall i, j | 0 <= i < j < |xs| :: xs[i].user != xs[j].user
  }

  /** With each user visited once, no user gets two rows. */
  lemma {:induction false} RowsDistinct(rep: map<UserId, UserTally>, order: seq<UserId>, members: set<UserId>)
    requires forall i, j | 0 <= i < j < |order| :: order[i] != order[j]
    ensures DistinctUsers(Rows(rep, order, members))
    decreases |order|
  {
    if |order| > 0 {
      RowsDistinct(rep, order[1..], members);
      var rest := Rows(rep, order[1..], members);
      var r := Rows(rep, order, members);
      if Listed(rep, members, order[0]) {
        forall i, j | 0 <= i < j < |r| ensures r[i].user != r[j].user {
          assert r[j] == rest[j - 1] && r[j] in rest;
          if i == 0 {
            assert r[0].user == order[0] && r[j].user in order[1..];
            var k :| 0 <= k < |order[1..]| && order[1..][k] == r[j].user;
            assert order[k + 1] == r[j].user;
          } else {
            assert r[i] == rest[i - 1];
          }
        }
      }
    }
  }
}
