/**
 * The ranking service: set a user's gem count, assign competition ranks by
 * gems (ties share a rank, the next distinct count ranks at its 1-based
 * position), and answer the leaderboard query.
 */
module RankingService {
  import opened Results
  import opened Models

  /**
   * Sets the gem count of a user. An unknown id fails with `UserNotFound` and
   * changes nothing; otherwise only that user's gem count changes.
   */
  method UpdateUserGemCount(db: Store, userId: int, gemCount: int) returns (r: Result<()>)
    requires db.Valid()
    modifies db`users
    ensures db.Valid()
    ensures UserIndex(old(db.users), userId).None? ==> r == Err(UserNotFound) && db.users == old(db.users)
    ensures UserIndex(old(db.users), userId).Some? ==>
      && r == Ok(())
      && |db.users| == |old(db.users)|
      && forall k :: 0 <= k < |db.users| ==>
           db.users[k] == if old(db.users)[k].id == userId then old(db.users)[k].(gemCount := gemCount) else old(db.users)[k]
  {
    var found := UserIndex(db.users, userId);
    if found.None? {
      return Err(UserNotFound);
    }
    var k := found.value;
    db.users := db.users[k := db.users[k].(gemCount := gemCount)];
    r := Ok(());
  }

  // ---------------------------------------------------------------------------
  // Competition ranking

  /** The rows of `users` with strictly more than `gems` gems. */
  function Above(users: seq<User>, gems: int): set<nat> {
    set k: nat | k < |users| && users[k].gemCount > gems
  }

  /** The rank that a gem count earns: 1 + the number of users with strictly more gems. */
  function CompetitionRank(users: seq<User>, gems: int): int {
    1 + |Above(users, gems)|
  }

  /** The users table with every rank assigned. */
  function Ranked(users: seq<User>): (r: seq<User>)
    ensures |r| == |users|
    ensures forall k :: 0 <= k < |r| ==> r[k].rank.Some? && r[k].rank.value >= 1
  {
    seq(|users|, k requires 0 <= k < |users| => users[k].(rank := Some(CompetitionRank(users, users[k].gemCount))))
  }

  /** Ranking sets the rank of every row and changes nothing else. */
  lemma RankedChangesOnlyRanks(users: seq<User>, k: nat)
    requires k < |users|
    ensures |Ranked(users)| == |users|
    ensures Ranked(users)[k].rank.Some?
    ensures Ranked(users)[k].(rank := users[k].rank) == users[k]
  {
  }

  /** Users with the highest gem count have rank 1. */
  lemma TopGemCountRanksFirst(users: seq<User>, k: nat)
    requires k < |users|
    requires forall j :: 0 <= j < |users| ==> users[j].gemCount <= users[k].gemCount
    ensures Ranked(users)[k].rank == Some(1)
  {
    assert Above(users, users[k].gemCount) == {};
  }

  /** Users with equal gem counts have equal ranks. */
  lemma TiesShareRank(users: seq<User>, i: nat, j: nat)
    requires i < |users| && j < |users| && users[i].gemCount == users[j].gemCount
    ensures Ranked(users)[i].rank == Ranked(users)[j].rank
  {
  }

  /** A strictly higher gem count has a strictly smaller (better) rank. */
  lemma MoreGemsRankHigher(users: seq<User>, i: nat, j: nat)
    requires i < |users| && j < |users| && users[i].gemCount > users[j].gemCount
    ensures Ranked(users)[i].rank.value < Ranked(users)[j].rank.value
  {
    var upper, lower := Above(users, users[i].gemCount), Above(users, users[j].gemCount);
    assert upper + {i} <= lower;
    assert i !in upper;
    SubsetCard(upper + {i}, lower);
  }

  /** Every rank lies between 1 and the number of users. */
  lemma RankWithinBounds(users: seq<User>, k: nat)
    requires k < |users|
    ensures 1 <= Ranked(users)[k].rank.value <= |users|
  {
    var above := Above(users, users[k].gemCount);
    assert k !in above;
    BoundedCard(above + {k}, |users|);
  }

  /** Ranking twice gives the same table as ranking once. */
  lemma RankingIsIdempotent(users: seq<User>)
    ensures Ranked(Ranked(users)) == Ranked(users)
  {
    var once := Ranked(users);
    forall g: int ensures Above(once, g) == Above(users, g) {
      assert forall k :: 0 <= k < |users| ==> once[k].gemCount == users[k].gemCount;
    }
  }

  /** The ranks of six users with 200, 150, 100, 100, 14 and 4 gems are 1, 2, 3, 3, 5 and 6. */
  lemma RankingExample(users: seq<User>)
    requires |users| == 6
    requires users[0].gemCount == 200 && users[1].gemCount == 150 && users[2].gemCount == 100
    requires users[3].gemCount == 100 && users[4].gemCount == 14 && users[5].gemCount == 4
    ensures Ranked(users)[0].rank == Some(1) && Ranked(users)[1].rank == Some(2)
    ensures Ranked(users)[2].rank == Some(3) && Ranked(users)[3].rank == Some(3)
    ensures Ranked(users)[4].rank == Some(5) && Ranked(users)[5].rank == Some(6)
  {
    assert Above(users, 200) == {};
    assert Above(users, 150) == {0};
    assert Above(users, 100) == {0, 1};
    assert Above(users, 14) == {0, 1, 2, 3};
    assert Above(users, 4) == {0, 1, 2, 3, 4};
  }

  lemma {:induction false} SubsetCard(a: set<nat>, b: set<nat>)
    requires a <= b
    ensures |a| <= |b|
    decreases |b|
  {
    if a != {} {
      var x :| x in a;
      SubsetCard(a - {x}, b - {x});
    }
  }

  lemma {:induction false} BoundedCard(s: set<nat>, n: nat)
    requires forall x :: x in s ==> x < n
    ensures |s| <= n
  {
    if n > 0 {
      BoundedCard(s - {n - 1}, n - 1);
    }
  }

  /** The first `i` entries of `order`, as a set. */
  function Prefix(order: seq<nat>, i: nat): set<nat>
    requires i <= |order|
  {
    set j | 0 <= j < i :: order[j]
  }

  lemma {:induction false} PrefixCard(order: seq<nat>, i: nat)
    requires i <= |order|
    requires forall a, b :: 0 <= a < b < |order| ==> order[a] != order[b]
    ensures |Prefix(order, i)| == i
  {
    if i > 0 {
      PrefixCard(order, i - 1);
      assert Prefix(order, i) == Prefix(order, i - 1) + {order[i - 1]};
      assert order[i - 1] !in Prefix(order, i - 1);
    }
  }

  /**
   * What the query `users ordered by gem count descending` returns, as
   * indices into the table: every row exactly once, gem counts non-increasing.
   * The order of rows with equal gem counts is left to the database.
   */
  predicate IsGemOrder(users: seq<User>, order: seq<nat>) {
    && |order| == |users|
    && (forall i :: 0 <= i < |order| ==> order[i] < |users|)
    && (forall k :: 0 <= k < |users| ==> k in order)
    && (forall i, j :: 0 <= i < j < |order| ==> order[i] != order[j])
    && (forall i, j :: 0 <= i < j < |order| ==> users[order[i]].gemCount >= users[order[j]].gemCount)
  }

  /**
   * In a gem order, the users ahead of position `i` are exactly the users with
   * more gems when position `i` starts a new gem count, so its competition
   * rank is `i + 1`.
   */
  lemma RankAtNewGemCount(users: seq<User>, order: seq<nat>, i: nat)
    requires IsGemOrder(users, order) && i < |order|
    requires i > 0 ==> users[order[i - 1]].gemCount != users[order[i]].gemCount
    ensures CompetitionRank(users, users[order[i]].gemCount) == i + 1
  {
    var g := users[order[i]].gemCount;
    assert forall m :: i <= m < |order| ==> users[order[m]].gemCount <= g;
    forall k | k in Above(users, g) ensures k in Prefix(order, i) {
      assert k < |users|;
      assert k in order;
      var m :| 0 <= m < |order| && order[m] == k;
      assert m < i;
    }
    forall k | k in Prefix(order, i) ensures k in Above(users, g) {
      var m :| 0 <= m < i && order[m] == k;
      assert users[order[m]].gemCount >= users[order[i - 1]].gemCount;
    }
    assert Above(users, g) == Prefix(order, i);
    PrefixCard(order, i);
  }

  /**
   * Assigns ranks in one pass over the users in gem order: the first user gets
   * rank 1, a user with the same gem count as the previous one gets the same
   * rank, any other user gets its 1-based position. The resulting table is
   * `Ranked` of the old one, whichever order the query gave to tied users.
   */
  method AssignRanks(db: Store, order: seq<nat>)
    requires db.Valid() && IsGemOrder(db.users, order)
    modifies db`users
    ensures db.Valid()
    ensures db.users == Ranked(old(db.users))
  {
    ghost var before := db.users;
    var rank := 1;
    var previous: Option<int> := None;
    var i := 0;
    while i < |order|
      invariant 0 <= i <= |order|
      invariant |db.users| == |before|
      invariant forall m :: 0 <= m < |order| ==> db.users[order[m]] == if m < i then Ranked(before)[order[m]] else before[order[m]]
      invariant i == 0 ==> previous == None
      invariant i > 0 ==> previous == Some(before[order[i - 1]].gemCount)
      invariant i > 0 ==> rank == CompetitionRank(before, before[order[i - 1]].gemCount)
    {
      var k := order[i];
      var user := db.users[k];
      if previous != Some(user.gemCount) {
        RankAtNewGemCount(before, order, i);
        rank := i + 1;
      }
      db.users := db.users[k := user.(rank := Some(rank))];
      previous := Some(user.gemCount);
      i := i + 1;
    }
    forall k | 0 <= k < |before| ensures db.users[k] == Ranked(before)[k] {
      assert k in order;
      var m :| 0 <= m < |order| && order[m] == k;
    }
    assert forall k :: 0 <= k < |before| ==> db.users[k].id == before[k].id;
  }

  // ---------------------------------------------------------------------------
  // The leaderboard query

  /** `a` is listed before `b`: more gems, or as many gems and a smaller id. */
  predicate Outranks(a: User, b: User) {
    a.gemCount > b.gemCount || (a.gemCount == b.gemCount && a.id < b.id)
  }

  predicate LeaderboardSorted(s: seq<User>) {
    forall i, j :: 0 <= i < j < |s| ==> Outranks(s[i], s[j])
  }

  /** Inserts a user into a sorted leaderboard in which its id does not occur yet. */
  function Insert(u: User, s: seq<User>): (r: seq<User>)
    requires LeaderboardSorted(s) && forall v :: v in s ==> v.id != u.id
    ensures LeaderboardSorted(r)
    ensures |r| == |s| + 1
    ensures forall v :: v in r <==> v == u || v in s
  {
    if s == [] || Outranks(u, s[0]) then [u] + s
    else
      var rest := Insert(u, s[1..]);
      assert Outranks(s[0], u);
      assert forall v :: v in s[1..] ==> Outranks(s[0], v) by {
        forall v | v in s[1..] ensures Outranks(s[0], v) {
          var j :| 0 <= j < |s[1..]| && s[1..][j] == v;
          assert s[j + 1] == v;
        }
      }
      assert forall j :: 0 <= j < |rest| ==> Outranks(s[0], rest[j]) by {
        forall j | 0 <= j < |rest| ensures Outranks(s[0], rest[j]) {
          assert rest[j] in rest;
        }
      }
      [s[0]] + rest
  }

  /** All users in leaderboard order: by gem count descending, then by id ascending. */
  function LeaderboardOrder(users: seq<User>): (r: seq<User>)
    requires UniqueUserIds(users)
    ensures LeaderboardSorted(r)
    ensures |r| == |users|
    ensures forall v :: v in r <==> v in users
  {
    if users == [] then []
    else
      var rest := LeaderboardOrder(users[1..]);
      assert forall v :: v in rest ==> v.id != users[0].id by {
        forall v | v in rest ensures v.id != users[0].id {
          var j :| 0 <= j < |users[1..]| && users[1..][j] == v;
          assert users[j + 1] == v;
        }
      }
      Insert(users[0], rest)
  }

  /**
   * The top `n` users: `min(n, |users|)` of them, in leaderboard order, and
   * every user left out ranks below every user listed.
   */
  function GetTopNUsers(db: Store, n: nat): (r: seq<User>)
    reads db`users
    requires UniqueUserIds(db.users)
    ensures |r| == if n < |db.users| then n else |db.users|
    ensures LeaderboardSorted(r)
    ensures forall v :: v in r ==> v in db.users
    ensures forall v, k :: v in db.users && v !in r && 0 <= k < |r| ==> Outranks(r[k], v)
  {
    var sorted := LeaderboardOrder(db.users);
    var m := if n < |sorted| then n else |sorted|;
    assert forall v, k :: v in db.users && v !in sorted[..m] && 0 <= k < m ==> Outranks(sorted[k], v) by {
      forall v, k | v in db.users && v !in sorted[..m] && 0 <= k < m ensures Outranks(sorted[k], v) {
        var j :| 0 <= j < |sorted| && sorted[j] == v;
        assert j >= m;
      }
    }
    sorted[..m]
  }
}
