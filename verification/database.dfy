/**
 * The user and winner store: the `users` table keyed by user id and the
 * append-only `raffle_winners` table, held in memory.
 */
module Database {
  import opened Common

  /** A `users` row; `subscribed` is the 0/1 flag. */
  datatype UserRow = UserRow(username: Option<string>, firstName: Option<string>, registeredAt: int, subscribed: bool)

  /** A `raffle_winners` row (the autoincrement id is only its position in the table). */
  datatype WinnerRow = WinnerRow(
    raffleDate: int,
    prizePlace: int,
    prizeAmount: string,
    userId: int,
    username: Option<string>,
    firstName: Option<string>)

  /** A raffle candidate as the candidate query returns it. */
  datatype Participant = Participant(userId: int, username: Option<string>, firstName: Option<string>)

  /** A row that the candidate query selects: subscribed, with a non-null, non-empty username. */
  predicate IsCandidate(row: UserRow)
  {
    row.subscribed && Truthy(row.username)
  }

  function UserIds(ps: seq<Participant>): (r: seq<int>)
    ensures |r| == |ps| && forall i :: 0 <= i < |ps| ==> r[i] == ps[i].userId
  {
    seq(|ps|, i requires 0 <= i < |ps| => ps[i].userId)
  }

  // ---------------------------------------------------------------------------
  // Primary-key order

  lemma {:induction false} MinExists(s: set<int>)
    requires s != {}
    ensures exists m :: m in s && forall x :: x in s ==> m <= x
    decreases |s|
  {
    var x := Pick(s);
    if s != {x} {
      MinExists(s - {x});
      var m :| m in s - {x} && forall y :: y in s - {x} ==> m <= y;
      var least := if x < m then x else m;
      forall y | y in s
        ensures least <= y
      {
        if y != x {
          assert y in s - {x};
        }
      }
      assert least in s;
    } else {
      assert forall y :: y in s ==> x <= y;
    }
  }

  /** Some element of a non-empty set. */
  ghost function Pick(s: set<int>): (x: int)
    requires s != {}
    ensures x in s
  {
    if forall y :: y !in s then
      assert false;
      0
    else
      var y :| y in s;
      y
  }

  function MinOf(s: set<int>): (m: int)
    requires s != {}
    ensures m in s && forall x :: x in s ==> m <= x
  {
    MinExists(s);
    var m :| m in s && forall x :: x in s ==> m <= x;
    m
  }

  /**
   * The ids of a set in ascending order: the order in which SQLite scans a
   * table whose INTEGER PRIMARY KEY is the rowid.
   */
  function SortedIds(s: set<int>): (r: seq<int>)
    ensures Increasing(r)
    ensures forall x :: x in r <==> x in s
    ensures |r| == |s|
    decreases |s|
  {
    if s == {} then []
    else
      var m := MinOf(s);
      [m] + SortedIds(s - {m})
  }

  // ---------------------------------------------------------------------------
  // Recency order of the winner table

  /** `a` sorts before `b` under ORDER BY raffle_date DESC, prize_place ASC. */
  predicate Precedes(a: WinnerRow, b: WinnerRow)
  {
    a.raffleDate > b.raffleDate || (a.raffleDate == b.raffleDate && a.prizePlace < b.prizePlace)
  }

  /** No row sorts strictly before an earlier one. */
  predicate RecencyOrdered(r: seq<WinnerRow>)
  {
    forall a, b :: 0 <= a < b < |r| ==> !Precedes(r[b], r[a])
  }

  /** Insert a row into a recency-ordered list, after the rows it does not precede. */
  function Insert(x: WinnerRow, s: seq<WinnerRow>): (r: seq<WinnerRow>)
    ensures |r| == |s| + 1
    ensures multiset(r) == multiset(s) + multiset{x}
  {
    if s == [] || Precedes(x, s[0]) then [x] + s
    else
      assert s == [s[0]] + s[1..];
      [s[0]] + Insert(x, s[1..])
  }

  lemma {:induction false} InsertKeepsOrder(x: WinnerRow, s: seq<WinnerRow>)
    requires RecencyOrdered(s)
    ensures RecencyOrdered(Insert(x, s))
  {
    if s != [] && !Precedes(x, s[0]) {
      InsertKeepsOrder(x, s[1..]);
      var tail := Insert(x, s[1..]);
      var r := Insert(x, s);
      assert r == [s[0]] + tail;
      forall a, b | 0 <= a < b < |r|
        ensures !Precedes(r[b], r[a])
      {
        if a == 0 {
          assert r[b] in multiset(tail);
          assert r[b] == x || r[b] in multiset(s[1..]);
          if r[b] != x {
            var j :| 0 <= j < |s[1..]| && s[1..][j] == r[b];
            assert s[j + 1] == r[b];
          }
        } else {
          assert r[a] == tail[a - 1] && r[b] == tail[b - 1];
        }
      }
    }
  }

  /** The winner table in recency order: ORDER BY raffle_date DESC, prize_place ASC. */
  function SortByRecency(rows: seq<WinnerRow>): (r: seq<WinnerRow>)
    ensures |r| == |rows|
    ensures multiset(r) == multiset(rows)
    ensures RecencyOrdered(r)
  {
    if rows == [] then []
    else
      assert rows == [rows[0]] + rows[1..];
      var rest := SortByRecency(rows[1..]);
      InsertKeepsOrder(rows[0], rest);
      Insert(rows[0], rest)
  }

  /** The first `k` rows in recency order: ORDER BY ... LIMIT k. */
  function TopRows(rows: seq<WinnerRow>, k: nat): (r: seq<WinnerRow>)
    ensures |r| == Min(k, |rows|)
    ensures multiset(r) <= multiset(rows)
    ensures RecencyOrdered(r)
  {
    var sorted := SortByRecency(rows);
    assert sorted == sorted[..Min(k, |rows|)] + sorted[Min(k, |rows|)..];
    sorted[..Min(k, |rows|)]
  }

  /** The rows the limited query leaves out, in recency order. */
  function Dropped(rows: seq<WinnerRow>, k: nat): seq<WinnerRow>
  {
    SortByRecency(rows)[Min(k, |rows|)..]
  }

  /** The limited query splits the table into the rows it returns and the rows it leaves out. */
  lemma TopRowsSplit(rows: seq<WinnerRow>, k: nat)
    ensures multiset(rows) == multiset(TopRows(rows, k)) + multiset(Dropped(rows, k))
  {
    var sorted := SortByRecency(rows);
    assert sorted == TopRows(rows, k) + Dropped(rows, k);
  }

  /** No row the limited query leaves out sorts before a row it returns. */
  lemma TopRowsAreFirst(rows: seq<WinnerRow>, k: nat)
    ensures forall x, y :: x in Dropped(rows, k) && y in TopRows(rows, k) ==> !Precedes(x, y)
  {
    var sorted := SortByRecency(rows);
    var m := Min(k, |rows|);
    var top := TopRows(rows, k);
    var drop := Dropped(rows, k);
    assert top == sorted[..m];
    forall x, y | x in drop && y in top
      ensures !Precedes(x, y)
    {
      var p :| 0 <= p < |drop| && drop[p] == x;
      var q :| 0 <= q < m && top[q] == y;
      assert sorted[q] == y && sorted[m + p] == x;
    }
  }

  /** The row stored for one winner of a raffle held at `date`. */
  function RowOf(w: WinnerData, date: int): WinnerRow
  {
    WinnerRow(date, w.prizePlace, w.prizeAmount, w.userId, w.username, w.firstName)
  }

  /** The rows one save of `batch` inserts, in batch order. */
  function RowsOf(batch: seq<WinnerData>, date: int): (r: seq<WinnerRow>)
    ensures |r| == |batch| && forall i :: 0 <= i < |batch| ==> r[i] == RowOf(batch[i], date)
  {
    seq(|batch|, i requires 0 <= i < |batch| => RowOf(batch[i], date))
  }

  /** The columns the latest-winners query selects. */
  function DataOf(row: WinnerRow): WinnerData
  {
    WinnerData(row.prizePlace, row.prizeAmount, row.userId, row.username, row.firstName)
  }

  // ---------------------------------------------------------------------------
  // The store

  /** The ids of the users whose flag is 1, each once, in key order. */
  function RegisteredIds(users: map<int, UserRow>): (r: seq<int>)
    ensures Increasing(r)
    ensures forall id :: id in r <==> id in users && users[id].subscribed
  {
    SortedIds(set id | id in users && users[id].subscribed)
  }

  class UserTable {
    var users: map<int, UserRow>
    var winners: seq<WinnerRow>

    constructor ()
      ensures users == map[] && winners == []
    {
      users := map[];
      winners := [];
    }

    /**
     * Insert an unknown user unsubscribed, stamped `now`; for a known user
     * replace only username and first name.
     */
    method AddUser(userId: int, username: Option<string>, firstName: Option<string>, now: int)
      modifies this
      ensures userId in old(users) ==>
        users == old(users)[userId := old(users)[userId].(username := username, firstName := firstName)]
      ensures userId !in old(users) ==>
        users == old(users)[userId := UserRow(username, firstName, now, false)]
      ensures winners == old(winners)
    {
      if userId in users {
        users := users[userId := users[userId].(username := username, firstName := firstName)];
      } else {
        users := users[userId := UserRow(username, firstName, now, false)];
      }
    }

    /** Set the flag of an existing user; an unknown id changes nothing. */
    method MarkSubscribed(userId: int)
      modifies this
      ensures userId in old(users) ==> users == old(users)[userId := old(users)[userId].(subscribed := true)]
      ensures userId !in old(users) ==> users == old(users)
      ensures winners == old(winners)
    {
      if userId in users {
        users := users[userId := users[userId].(subscribed := true)];
      }
    }

    /** Write the re-checked flag of an existing user; an unknown id changes nothing. */
    method UpdateSubscriptionStatus(userId: int, isSubscribed: bool)
      modifies this
      ensures userId in old(users) ==> users == old(users)[userId := old(users)[userId].(subscribed := isSubscribed)]
      ensures userId !in old(users) ==> users == old(users)
      ensures winners == old(winners)
    {
      if userId in users {
        users := users[userId := users[userId].(subscribed := isSubscribed)];
      }
    }

    /** Registered means: the row exists and its flag is 1. */
    predicate IsRegistered(userId: int)
      reads this
    {
      userId in users && users[userId].subscribed
    }

    /**
     * The ids of every registered user, each once, in key order; an
     * unavailable store yields the empty list.
     */
    function AllRegisteredUsers(storeUp: bool): (r: seq<int>)
      reads this
      ensures !storeUp ==> r == []
      ensures storeUp ==> r == RegisteredIds(users)
    {
      if storeUp then RegisteredIds(users) else []
    }

    /**
     * The raffle candidates: exactly the registered users with a non-empty
     * username, each once, in key order, carrying their stored names; an
     * unavailable store yields the empty list.
     */
    function RaffleCandidates(storeUp: bool): (r: seq<Participant>)
      reads this
      ensures !storeUp ==> r == []
      ensures storeUp ==> Increasing(UserIds(r))
      ensures storeUp ==> forall id :: id in UserIds(r) <==> id in users && IsCandidate(users[id])
      ensures forall i :: 0 <= i < |r| ==>
        r[i].userId in users && IsCandidate(users[r[i].userId]) &&
        r[i] == Participant(r[i].userId, users[r[i].userId].username, users[r[i].userId].firstName)
    {
      if !storeUp then []
      else
        var table := users;
        var ids := SortedIds(set id | id in table && IsCandidate(table[id]));
        assert forall i :: 0 <= i < |ids| ==> ids[i] in ids;
        assert forall i :: 0 <= i < |ids| ==> ids[i] in table;
        var r := seq(|ids|, i requires 0 <= i < |ids| => Participant(ids[i], table[ids[i]].username, table[ids[i]].firstName));
        assert UserIds(r) == ids;
        r
    }

    /**
     * Insert one row per winner, in order, all dated `raffleDate`, then commit.
     * The oracle `failAt` names the insert that raises: then nothing is
     * committed and the error reaches the caller (`saved` is false).
     */
    method SaveRaffleWinners(batch: seq<WinnerData>, raffleDate: int, failAt: Option<nat>) returns (saved: bool)
      modifies this
      ensures saved <==> !(failAt.Some? && failAt.value < |batch|)
      ensures saved ==> winners == old(winners) + RowsOf(batch, raffleDate)
      ensures !saved ==> winners == old(winners)
      ensures users == old(users)
    {
      var pending: seq<WinnerRow> := [];
      for i := 0 to |batch|
        invariant |pending| == i
        invariant forall k :: 0 <= k < i ==> pending[k] == RowOf(batch[k], raffleDate)
        invariant failAt.Some? ==> failAt.value >= i
      {
        if failAt == Some(i) {
          return false;
        }
        pending := pending + [RowOf(batch[i], raffleDate)];
      }
      assert pending == RowsOf(batch, raffleDate);
      winners := winners + pending;
      saved := true;
    }

    /**
     * At most three winner rows, newest raffle first and, within it, by prize
     * place; an unavailable store yields the empty list.
     */
    function LatestRaffleWinners(storeUp: bool): (r: seq<WinnerData>)
      reads this
      ensures !storeUp ==> r == []
      ensures storeUp ==> |r| == Min(3, |winners|)
      ensures storeUp ==> forall i :: 0 <= i < |r| ==> r[i] == DataOf(TopRows(winners, 3)[i])
    {
      if storeUp then
        var top := TopRows(winners, 3);
        seq(|top|, i requires 0 <= i < |top| => DataOf(top[i]))
      else []
    }
  }

  /** Registered by the point query iff listed by the registered-users query. */
  lemma RegisteredAgreesWithListing(table: UserTable, userId: int)
    ensures table.IsRegistered(userId) <==> userId in table.AllRegisteredUsers(true)
  {
  }

  /**
   * Save then read back: when every stored row is older than `date` and a batch
   * dated `date` is appended with its prize places ascending, the latest-winners
   * query returns the start of that batch, in batch order, ahead of any older
   * row; with three or more entries, or an empty history, it returns nothing else.
   */
  lemma SavedWinnersReadBack(table: UserTable, before: seq<WinnerRow>, batch: seq<WinnerData>, date: int)
    requires table.winners == before + RowsOf(batch, date)
    requires forall r :: r in before ==> r.raffleDate < date
    requires forall i, j :: 0 <= i < j < |batch| ==> batch[i].prizePlace < batch[j].prizePlace
    ensures var r := table.LatestRaffleWinners(true);
      Min(3, |batch|) <= |r| && r[..Min(3, |batch|)] == batch[..Min(3, |batch|)]
    ensures |batch| >= 3 || before == [] ==> table.LatestRaffleWinners(true) == batch[..Min(3, |batch|)]
  {
    BatchLeadsTopRows(before, batch, date);
    var r := table.LatestRaffleWinners(true);
    var m := Min(3, |batch|);
    assert |r| == Min(3, |before| + |batch|);
    SamePrefix(r, batch, m);
  }

  /** Two lists that agree on their first `m` places have the same prefix of length `m`. */
  lemma SamePrefix<T>(r: seq<T>, s: seq<T>, m: nat)
    requires m <= |r| && m <= |s|
    requires forall i :: 0 <= i < m ==> r[i] == s[i]
    ensures r[..m] == s[..m]
    ensures |r| == m ==> r == s[..m]
  {
    assert |r| == m ==> r == r[..m];
  }

  /** The rows of a batch newer than all stored rows lead the limited recency query. */
  lemma BatchLeadsTopRows(before: seq<WinnerRow>, batch: seq<WinnerData>, date: int)
    requires forall r :: r in before ==> r.raffleDate < date
    requires forall i, j :: 0 <= i < j < |batch| ==> batch[i].prizePlace < batch[j].prizePlace
    ensures forall i :: 0 <= i < Min(3, |batch|) ==> DataOf(TopRows(before + RowsOf(batch, date), 3)[i]) == batch[i]
  {
    var added := RowsOf(batch, date);
    forall i, j | 0 <= i < j < |added|
      ensures Precedes(added[i], added[j])
    {
      assert added[i] == RowOf(batch[i], date) && added[j] == RowOf(batch[j], date);
    }
    NewerRowsFirst(before, added);
    var sorted := SortByRecency(before + added);
    assert forall i :: 0 <= i < |added| ==> sorted[i] == sorted[..|added|][i];
  }

  /** A list whose every row sorts strictly before the later ones is already in recency order. */
  lemma {:induction false} SortedAlready(s: seq<WinnerRow>)
    requires forall i, j :: 0 <= i < j < |s| ==> Precedes(s[i], s[j])
    ensures SortByRecency(s) == s
  {
    if s != [] {
      SortedAlready(s[1..]);
      if |s| > 1 {
        assert Precedes(s[0], s[1]);
      }
      assert [s[0]] + s[1..] == s;
    }
  }

  /** Inserting a row that sorts before none of `front` leaves `front` in place. */
  lemma {:induction false} InsertBehind(x: WinnerRow, front: seq<WinnerRow>, tail: seq<WinnerRow>)
    requires forall n :: n in front ==> !Precedes(x, n)
    ensures Insert(x, front + tail) == front + Insert(x, tail)
  {
    if front != [] {
      assert (front + tail)[0] == front[0];
      assert (front + tail)[1..] == front[1..] + tail;
      InsertBehind(x, front[1..], tail);
    } else {
      assert front + tail == tail;
    }
  }

  /**
   * Rows newer than everything already stored, in strict recency order among
   * themselves, come first in the recency order of the whole table.
   */
  lemma {:induction false} NewerRowsFirst(before: seq<WinnerRow>, added: seq<WinnerRow>)
    requires forall i, j :: 0 <= i < j < |added| ==> Precedes(added[i], added[j])
    requires forall r, n :: r in before && n in added ==> r.raffleDate < n.raffleDate
    ensures SortByRecency(before + added)[..|added|] == added
  {
    if before == [] {
      assert before + added == added;
      SortedAlready(added);
    } else {
      var rows := before + added;
      assert rows[0] == before[0];
      assert rows[1..] == before[1..] + added;
      NewerRowsFirst(before[1..], added);
      var rest := SortByRecency(rows[1..]);
      assert rest == added + rest[|added|..];
      InsertBehind(before[0], added, rest[|added|..]);
    }
  }
}
