/**
 * The prize raffle: candidates are read from the store, re-checked against
 * the four channels (the fresh verdict is written back), up to three are
 * drawn, given places and amounts, saved, and announced to every registered
 * user.
 *
 * Randomness is an oracle `picks`: the k-th winner is the remaining candidate
 * at position `picks[k] % |remaining|`. Every ordered selection of distinct
 * candidates arises from some `picks`, so this covers what sampling and
 * shuffling can produce.
 */
module Raffle {
  import opened Common
  import opened Database
  import opened Subscription
  import Reminders

  /** The prize table: first, second and third place. */
  const PrizeAmounts: seq<string> := ["10 000 ₽", "5 000 ₽", "3 000 ₽"]

  /** At most this many winners are drawn. */
  const MaxWinners := 3

  // ---------------------------------------------------------------------------
  // Subscription re-check

  /** Every candidate's oracle answers cover the four channels. */
  predicate WellFormed(lookups: seq<seq<Lookup>>)
  {
    forall i :: 0 <= i < |lookups| ==> |lookups[i]| == 4
  }

  /** The verdict of the subscription check for each candidate position. */
  function Verdicts(channels: Channels, lookups: seq<seq<Lookup>>): (r: seq<bool>)
    requires WellFormed(lookups)
    ensures |r| == |lookups| && forall i :: 0 <= i < |lookups| ==> r[i] == Verdict(channels, lookups[i])
  {
    seq(|lookups|, i requires 0 <= i < |lookups| => Verdict(channels, lookups[i]))
  }

  /** The candidates kept, in order: a truthy username and a positive verdict. */
  function Eligible(cands: seq<Participant>, verdicts: seq<bool>): seq<Participant>
    requires |verdicts| >= |cands|
  {
    if cands == [] then []
    else
      var n := |cands| - 1;
      Eligible(cands[..n], verdicts) + (if Truthy(cands[n].username) && verdicts[n] then [cands[n]] else [])
  }

  /** The user table after writing back the verdict of every candidate with a username. */
  function Rechecked(users: map<int, UserRow>, cands: seq<Participant>, verdicts: seq<bool>): map<int, UserRow>
    requires |verdicts| >= |cands|
  {
    if cands == [] then users
    else
      var n := |cands| - 1;
      var prev := Rechecked(users, cands[..n], verdicts);
      var p := cands[n];
      if Truthy(p.username) && p.userId in prev then prev[p.userId := prev[p.userId].(subscribed := verdicts[n])]
      else prev
  }

  // ---------------------------------------------------------------------------
  // The draw

  /** The position the next pick selects among `n` remaining candidates. */
  function Slot(picks: seq<nat>, n: nat): (j: nat)
    requires n > 0
    ensures j < n
  {
    (if picks == [] then 0 else picks[0]) % n
  }

  /** A pick that is already a position selects that position. */
  lemma SlotOfPosition(j: nat, n: nat, tail: seq<nat>)
    requires j < n
    ensures Slot([j] + tail, n) == j
  {
    assert ([j] + tail)[0] == j;
  }

  /** The oracle left after one pick. */
  function NextPicks(picks: seq<nat>): seq<nat>
  {
    if picks == [] then [] else picks[1..]
  }

  /** `s` without its element at position `j`. */
  function Without<T>(s: seq<T>, j: nat): (r: seq<T>)
    requires j < |s|
    ensures |r| == |s| - 1
  {
    s[..j] + s[j + 1..]
  }

  /** Position `a` of `Without(s, j)` holds what `s` holds at `a` before `j` and at `a + 1` after. */
  lemma WithoutAt<T>(s: seq<T>, j: nat)
    requires j < |s|
    ensures forall a :: 0 <= a < |s| - 1 ==> Without(s, j)[a] == s[if a < j then a else a + 1]
  {
  }

  /** Draw `count` winners (or the whole pool when smaller) from `pool`, without replacement. */
  function Draw<T>(pool: seq<T>, picks: seq<nat>, count: nat): (r: seq<T>)
    ensures |r| == Min(count, |pool|)
    decreases count
  {
    if count == 0 || pool == [] then []
    else
      var j := Slot(picks, |pool|);
      [pool[j]] + Draw(Without(pool, j), NextPicks(picks), count - 1)
  }

  /** The winner list with places 1, 2, 3 and the matching amounts, in draw order. */
  predicate PrizesFor(data: seq<WinnerData>, winners: seq<Participant>)
    requires |winners| <= MaxWinners
  {
    |data| == |winners| &&
    forall i :: 0 <= i < |winners| ==>
      data[i] == WinnerData(i + 1, PrizeAmounts[i], winners[i].userId, winners[i].username, winners[i].firstName)
  }

  /** Build the winner entries: the i-th drawn candidate takes place i + 1. */
  method BuildWinnersData(winners: seq<Participant>) returns (data: seq<WinnerData>)
    requires |winners| <= MaxWinners
    ensures PrizesFor(data, winners)
  {
    data := [];
    for i := 0 to |winners|
      invariant |data| == i
      invariant forall k :: 0 <= k < i ==>
        data[k] == WinnerData(k + 1, PrizeAmounts[k], winners[k].userId, winners[k].username, winners[k].firstName)
    {
      var w := winners[i];
      data := data + [WinnerData(i + 1, PrizeAmounts[i], w.userId, w.username, w.firstName)];
    }
  }

  // ---------------------------------------------------------------------------
  // The raffle

  datatype RaffleOutcome =
    | NoCandidates
    | NoEligible
    | SaveFailed(winners: seq<WinnerData>)
    | Announced(winners: seq<WinnerData>, deliveries: seq<Delivery>)

  /**
   * Conduct the raffle. `candidatesUp` and `usersUp` say whether the two
   * store reads succeed, `lookups[i]` answers the channel queries for the
   * i-th candidate, `picks` is the random draw and `failAt` the oracle of the
   * winner save. A failing save ends the raffle before the announcement.
   */
  method ConductRaffle(db: UserTable, candidatesUp: bool, channels: Channels, lookups: seq<seq<Lookup>>,
                       picks: seq<nat>, raffleDate: int, failAt: Option<nat>, usersUp: bool)
    returns (outcome: RaffleOutcome)
    modifies db
    requires WellFormed(lookups) && |lookups| >= |db.RaffleCandidates(candidatesUp)|
    ensures var cands := old(db.RaffleCandidates(candidatesUp));
      && (outcome.NoCandidates? <==> cands == [])
      && (cands == [] ==> db.users == old(db.users) && db.winners == old(db.winners))
      && (cands != [] ==> RaffleAmong(old(db.users), old(db.winners), cands, channels, lookups, picks,
                                      raffleDate, failAt, usersUp, outcome, db.users, db.winners))
  {
    var cands := db.RaffleCandidates(candidatesUp);
    if cands == [] {
      return NoCandidates;
    }
    outcome := RunRaffle(db, cands, channels, lookups, picks, raffleDate, failAt, usersUp);
  }

  /**
   * What a raffle among the non-empty candidate list `cands` does to the
   * store (`users`, `winners` before, `users'`, `winners'` after) and what it
   * reports.
   */
  ghost predicate RaffleAmong(users: map<int, UserRow>, winners: seq<WinnerRow>, cands: seq<Participant>,
                              channels: Channels, lookups: seq<seq<Lookup>>, picks: seq<nat>, raffleDate: int,
                              failAt: Option<nat>, usersUp: bool, outcome: RaffleOutcome,
                              users': map<int, UserRow>, winners': seq<WinnerRow>)
    requires WellFormed(lookups) && |lookups| >= |cands|
  {
    var elig := Eligible(cands, Verdicts(channels, lookups));
    var registered := if usersUp then RegisteredIds(users') else [];
    && users' == Rechecked(users, cands, Verdicts(channels, lookups))
    && !outcome.NoCandidates?
    && (outcome.NoEligible? <==> elig == [])
    && (outcome.SaveFailed? || outcome.Announced? ==>
          PrizesFor(outcome.winners, Draw(elig, picks, MaxWinners)))
    && (outcome.SaveFailed? <==> elig != [] && failAt.Some? && failAt.value < Min(|elig|, MaxWinners))
    && (outcome.Announced? ==> winners' == winners + RowsOf(outcome.winners, raffleDate))
    && (!outcome.Announced? ==> winners' == winners)
    && (outcome.Announced? ==> outcome.deliveries == FanOut(registered, RaffleResults(outcome.winners)))
    && (outcome.Announced? && usersUp ==>
          forall i :: 0 <= i < |outcome.winners| ==> outcome.winners[i].userId in registered)
  }

  /** The raffle once the candidate list is known to be non-empty. */
  method RunRaffle(db: UserTable, cands: seq<Participant>, channels: Channels, lookups: seq<seq<Lookup>>,
                   picks: seq<nat>, raffleDate: int, failAt: Option<nat>, usersUp: bool)
    returns (outcome: RaffleOutcome)
    modifies db
    requires WellFormed(lookups) && |lookups| >= |cands|
    requires Increasing(UserIds(cands)) && forall i :: 0 <= i < |cands| ==> cands[i].userId in db.users
    ensures RaffleAmong(old(db.users), old(db.winners), cands, channels, lookups, picks,
                        raffleDate, failAt, usersUp, outcome, db.users, db.winners)
  {
    ghost var users0 := db.users;
    var elig := RecheckCandidates(db, cands, channels, lookups);
    if elig == [] {
      return NoEligible;
    }
    var drawn := DrawWinners(elig, picks);
    var data := BuildWinnersData(drawn);
    var saved := db.SaveRaffleWinners(data, raffleDate, failAt);
    if !saved {
      return SaveFailed(data);
    }
    var users := db.AllRegisteredUsers(usersUp);
    var deliveries := Reminders.SendToAll(users, RaffleResults(data));
    outcome := Announced(data, deliveries);
    DrawnStayRegistered(users0, cands, Verdicts(channels, lookups), picks);
    assert forall i :: 0 <= i < |drawn| ==> drawn[i] in drawn;
  }

  /**
   * Re-check every candidate that has a username, in order: write the fresh
   * verdict back and keep the candidate when it is positive.
   */
  method RecheckCandidates(db: UserTable, cands: seq<Participant>, channels: Channels, lookups: seq<seq<Lookup>>)
    returns (elig: seq<Participant>)
    modifies db
    requires WellFormed(lookups) && |lookups| >= |cands|
    ensures elig == Eligible(cands, Verdicts(channels, lookups))
    ensures db.users == Rechecked(old(db.users), cands, Verdicts(channels, lookups))
    ensures db.winners == old(db.winners)
  {
    ghost var verdicts := Verdicts(channels, lookups);
    elig := [];
    for i := 0 to |cands|
      invariant db.users == Rechecked(old(db.users), cands[..i], verdicts)
      invariant db.winners == old(db.winners)
      invariant elig == Eligible(cands[..i], verdicts)
    {
      var p := cands[i];
      assert cands[..i + 1][..i] == cands[..i];
      if Truthy(p.username) {
        var subscribed, _ := CheckSubscription(channels, lookups[i]);
        db.UpdateSubscriptionStatus(p.userId, subscribed);
        if subscribed {
          elig := elig + [p];
        }
      }
    }
    assert cands[..|cands|] == cands;
  }

  /** Three of more than three candidates, otherwise all of them in shuffled order. */
  method DrawWinners(elig: seq<Participant>, picks: seq<nat>) returns (drawn: seq<Participant>)
    ensures drawn == Draw(elig, picks, MaxWinners)
  {
    if |elig| > MaxWinners {
      drawn := Draw(elig, picks, MaxWinners);
    } else {
      drawn := Draw(elig, picks, |elig|);
      DrawAtMostPool(elig, picks, |elig|, MaxWinners);
    }
  }

  // ---------------------------------------------------------------------------
  // Properties

  /** Removing one position takes exactly that element out of the multiset. */
  lemma WithoutMultiset<T>(s: seq<T>, j: nat)
    requires j < |s|
    ensures multiset{s[j]} + multiset(Without(s, j)) == multiset(s)
  {
    assert s == s[..j] + [s[j]] + s[j + 1..];
  }

  /** One step of the draw: the selected candidate, then a draw from the others. */
  lemma DrawStep<T>(pool: seq<T>, picks: seq<nat>, count: nat)
    requires count > 0 && pool != []
    ensures Draw(pool, picks, count) ==
      [pool[Slot(picks, |pool|)]] + Draw(Without(pool, Slot(picks, |pool|)), NextPicks(picks), count - 1)
  {
  }

  /** Every element left after removing one position was in the list. */
  lemma WithoutWithin<T>(s: seq<T>, j: nat, x: T)
    requires j < |s| && x in Without(s, j)
    ensures x in s
  {
    WithoutAt(s, j);
    var a :| 0 <= a < |s| - 1 && Without(s, j)[a] == x;
  }

  /** The winners come from the pool. */
  lemma {:induction false} DrawFrom<T>(pool: seq<T>, picks: seq<nat>, count: nat, x: T)
    requires x in Draw(pool, picks, count)
    ensures x in pool
    decreases count
  {
    var j := Slot(picks, |pool|);
    var rest := Without(pool, j);
    var r := Draw(rest, NextPicks(picks), count - 1);
    assert Draw(pool, picks, count) == [pool[j]] + r by {
      DrawStep(pool, picks, count);
    }
    if x != pool[j] {
      DrawFrom(rest, NextPicks(picks), count - 1, x);
      WithoutWithin(pool, j, x);
    }
  }

  /** Asked for the whole pool, the draw is a shuffle of it: every candidate exactly once. */
  lemma {:induction false} DrawWholePool<T>(pool: seq<T>, picks: seq<nat>, count: nat)
    requires count >= |pool|
    ensures multiset(Draw(pool, picks, count)) == multiset(pool)
    decreases count
  {
    if pool != [] {
      var j := Slot(picks, |pool|);
      var rest := Without(pool, j);
      var r := Draw(rest, NextPicks(picks), count - 1);
      DrawWholePool(rest, NextPicks(picks), count - 1);
      calc {
        multiset(Draw(pool, picks, count));
        { DrawStep(pool, picks, count); }
        multiset([pool[j]] + r);
        multiset{pool[j]} + multiset(r);
        multiset{pool[j]} + multiset(rest);
        { WithoutMultiset(pool, j); }
        multiset(pool);
      }
    } else {
      assert Draw(pool, picks, count) == [];
    }
  }

  /** A draw asked for at least the whole pool does not depend on how much more was asked. */
  lemma {:induction false} DrawAtMostPool<T>(pool: seq<T>, picks: seq<nat>, c1: nat, c2: nat)
    requires |pool| <= c1 && |pool| <= c2
    ensures Draw(pool, picks, c1) == Draw(pool, picks, c2)
    decreases |pool|
  {
    if pool != [] {
      var j := Slot(picks, |pool|);
      DrawStep(pool, picks, c1);
      DrawStep(pool, picks, c2);
      DrawAtMostPool(Without(pool, j), NextPicks(picks), c1 - 1, c2 - 1);
    }
  }

  /** Removing one position from a list without repeats leaves no repeat and no copy of it. */
  lemma DistinctWithout<T>(s: seq<T>, j: nat)
    requires j < |s| && Distinct(s)
    ensures Distinct(Without(s, j)) && s[j] !in Without(s, j)
  {
    var rest := Without(s, j);
    WithoutAt(s, j);
    forall a, b | 0 <= a < b < |rest|
      ensures rest[a] != rest[b]
    {
      assert rest[a] == s[if a < j then a else a + 1];
      assert rest[b] == s[if b < j then b else b + 1];
    }
    forall a | 0 <= a < |rest|
      ensures rest[a] != s[j]
    {
      assert rest[a] == s[if a < j then a else a + 1];
    }
  }

  /** A fresh first pick in front of a repeat-free rest draw leaves the whole draw repeat-free. */
  lemma DistinctStep<T>(pool: seq<T>, picks: seq<nat>, count: nat)
    requires count > 0 && pool != [] && Distinct(pool)
    requires Distinct(Draw(Without(pool, Slot(picks, |pool|)), NextPicks(picks), count - 1))
    ensures Distinct(Draw(pool, picks, count))
  {
    var j := Slot(picks, |pool|);
    var rest := Without(pool, j);
    var r := Draw(rest, NextPicks(picks), count - 1);
    assert pool[j] !in r by {
      DistinctWithout(pool, j);
      if pool[j] in r {
        DrawFrom(rest, NextPicks(picks), count - 1, pool[j]);
      }
    }
    assert Distinct([pool[j]] + r) by {
      DistinctCons(pool[j], r);
    }
    assert Draw(pool, picks, count) == [pool[j]] + r by {
      DrawStep(pool, picks, count);
    }
  }

  /** No candidate is drawn twice. */
  lemma {:induction false} DrawDistinct<T>(pool: seq<T>, picks: seq<nat>, count: nat)
    requires Distinct(pool)
    ensures Distinct(Draw(pool, picks, count))
    decreases count
  {
    if count != 0 && pool != [] {
      var j := Slot(picks, |pool|);
      DistinctWithout(pool, j);
      DrawDistinct(Without(pool, j), NextPicks(picks), count - 1);
      DistinctStep(pool, picks, count);
    } else {
      assert Draw(pool, picks, count) == [];
    }
  }

  /** Putting a new element in front keeps a list free of repeats. */
  lemma DistinctCons<T>(x: T, r: seq<T>)
    requires Distinct(r) && x !in r
    ensures Distinct([x] + r)
  {
    var d := [x] + r;
    forall a, b | 0 <= a < b < |d|
      ensures d[a] != d[b]
    {
      if a > 0 {
        assert d[a] == r[a - 1] && d[b] == r[b - 1];
      } else {
        assert d[b] == r[b - 1];
      }
    }
  }

  /** Removing one position keeps every other element. */
  lemma WithoutKeeps<T>(s: seq<T>, j: nat, x: T)
    requires j < |s| && x in s && x != s[j]
    ensures x in Without(s, j)
  {
    var i :| 0 <= i < |s| && s[i] == x;
    WithoutAt(s, j);
    if i < j {
      assert Without(s, j)[i] == x;
    } else {
      assert Without(s, j)[i - 1] == x;
    }
  }

  /** The first position of `x` in `s`. */
  function IndexOf<T(==)>(s: seq<T>, x: T): (i: nat)
    requires x in s
    ensures i < |s| && s[i] == x
  {
    if s[0] == x then 0 else 1 + IndexOf(s[1..], x)
  }

  /** The oracle that draws exactly `winners`, each taken from the pool still left. */
  function PicksFor<T(==)>(pool: seq<T>, winners: seq<T>): seq<nat>
    decreases |winners|
  {
    if winners == [] || winners[0] !in pool then []
    else
      var j := IndexOf(pool, winners[0]);
      [j] + PicksFor(Without(pool, j), winners[1..])
  }

  /** One step of the oracle construction: the first winner's position, then the rest. */
  lemma PicksForStep<T>(pool: seq<T>, winners: seq<T>)
    requires winners != [] && winners[0] in pool
    ensures PicksFor(pool, winners) ==
      [IndexOf(pool, winners[0])] + PicksFor(Without(pool, IndexOf(pool, winners[0])), winners[1..])
  {
  }

  /** After the first winner is taken out, the other winners still satisfy the premise. */
  lemma OthersFitRest<T>(pool: seq<T>, winners: seq<T>, j: nat)
    requires Distinct(winners) && winners != [] && j < |pool| && pool[j] == winners[0]
    requires forall k :: 0 <= k < |winners| ==> winners[k] in pool
    ensures Distinct(winners[1..])
    ensures forall k :: 0 <= k < |winners| - 1 ==> winners[1..][k] in Without(pool, j)
  {
    var others := winners[1..];
    forall k | 0 <= k < |others|
      ensures others[k] in Without(pool, j)
    {
      assert others[k] == winners[k + 1] && winners[k + 1] != winners[0];
      WithoutKeeps(pool, j, others[k]);
    }
    forall a, b | 0 <= a < b < |others|
      ensures others[a] != others[b]
    {
      assert others[a] == winners[a + 1] && others[b] == winners[b + 1];
    }
  }

  /** Drawing the first winner's position, then an oracle that draws the others, draws them all. */
  lemma ReachableStep<T>(pool: seq<T>, winners: seq<T>, count: nat)
    requires count > 0 && winners != [] && winners[0] in pool
    requires Draw(Without(pool, IndexOf(pool, winners[0])), PicksFor(Without(pool, IndexOf(pool, winners[0])), winners[1..]), count - 1)
      == winners[1..]
    ensures Draw(pool, PicksFor(pool, winners), count) == winners
  {
    var j := IndexOf(pool, winners[0]);
    var tail := PicksFor(Without(pool, j), winners[1..]);
    PicksForStep(pool, winners);
    SlotOfPosition(j, |pool|, tail);
    assert NextPicks([j] + tail) == tail;
    DrawStep(pool, [j] + tail, count);
    assert winners == [winners[0]] + winners[1..];
  }

  /**
   * Every ordered selection of distinct candidates, of the size the raffle
   * draws, is produced by some oracle: the model does not restrict the draw.
   */
  lemma {:induction false} EveryDrawReachable<T>(pool: seq<T>, winners: seq<T>, count: nat)
    requires Distinct(winners) && |winners| == Min(count, |pool|)
    requires forall k :: 0 <= k < |winners| ==> winners[k] in pool
    ensures Draw(pool, PicksFor(pool, winners), count) == winners
    decreases count
  {
    if count != 0 && pool != [] {
      var j := IndexOf(pool, winners[0]);
      OthersFitRest(pool, winners, j);
      EveryDrawReachable(Without(pool, j), winners[1..], count - 1);
      ReachableStep(pool, winners, count);
    } else {
      assert |winners| == 0;
    }
  }

  /** A candidate is kept iff it has a truthy username and a positive verdict. */
  lemma {:induction false} EligibleExactly(cands: seq<Participant>, verdicts: seq<bool>, p: Participant)
    requires |verdicts| >= |cands|
    ensures p in Eligible(cands, verdicts) <==>
      exists i :: 0 <= i < |cands| && cands[i] == p && Truthy(p.username) && verdicts[i]
  {
    if cands != [] {
      var n := |cands| - 1;
      EligibleExactly(cands[..n], verdicts, p);
      if p in Eligible(cands[..n], verdicts) {
        var i :| 0 <= i < n && cands[..n][i] == p && Truthy(p.username) && verdicts[i];
        assert cands[i] == p;
      }
      if exists i :: 0 <= i < |cands| && cands[i] == p && Truthy(p.username) && verdicts[i] {
        var i :| 0 <= i < |cands| && cands[i] == p && Truthy(p.username) && verdicts[i];
        if i < n {
          assert cands[..n][i] == p;
        }
      }
    }
  }

  /** The eligible candidates keep the key order of the candidate list. */
  lemma {:induction false} EligibleKeepsOrder(cands: seq<Participant>, verdicts: seq<bool>)
    requires |verdicts| >= |cands| && Increasing(UserIds(cands))
    ensures Increasing(UserIds(Eligible(cands, verdicts)))
    ensures forall q :: q in Eligible(cands, verdicts) ==> q in cands
  {
    if cands != [] {
      var n := |cands| - 1;
      assert Increasing(UserIds(cands[..n])) by {
        assert forall i :: 0 <= i < n ==> UserIds(cands[..n])[i] == UserIds(cands)[i];
      }
      EligibleKeepsOrder(cands[..n], verdicts);
      var prev := Eligible(cands[..n], verdicts);
      if Truthy(cands[n].username) && verdicts[n] {
        var e := prev + [cands[n]];
        forall i, j | 0 <= i < j < |e|
          ensures UserIds(e)[i] < UserIds(e)[j]
        {
          if j == |prev| {
            assert e[i] == prev[i] && prev[i] in cands[..n];
            var k :| 0 <= k < n && cands[..n][k] == e[i];
            assert UserIds(cands)[k] < UserIds(cands)[n];
          } else {
            assert UserIds(prev)[i] < UserIds(prev)[j];
          }
        }
      }
    }
  }

  /**
   * The write-back sets the flag of every candidate with a username to its
   * verdict, and leaves every other row as it was.
   */
  lemma {:induction false} RecheckedExactly(users: map<int, UserRow>, cands: seq<Participant>, verdicts: seq<bool>, id: int)
    requires |verdicts| >= |cands| && Increasing(UserIds(cands))
    ensures id in Rechecked(users, cands, verdicts) <==> id in users
    ensures forall i :: 0 <= i < |cands| && cands[i].userId == id && Truthy(cands[i].username) && id in users ==>
      Rechecked(users, cands, verdicts)[id] == users[id].(subscribed := verdicts[i])
    ensures (forall i :: 0 <= i < |cands| ==> cands[i].userId != id || !Truthy(cands[i].username)) && id in users ==>
      Rechecked(users, cands, verdicts)[id] == users[id]
  {
    if cands != [] {
      var n := |cands| - 1;
      assert Increasing(UserIds(cands[..n])) by {
        assert forall i :: 0 <= i < n ==> UserIds(cands[..n])[i] == UserIds(cands)[i];
      }
      RecheckedExactly(users, cands[..n], verdicts, id);
      forall i | 0 <= i < n && cands[i].userId == id
        ensures cands[n].userId != id
      {
        assert UserIds(cands)[i] < UserIds(cands)[n];
      }
      if (forall i :: 0 <= i < |cands| ==> cands[i].userId != id || !Truthy(cands[i].username)) {
        assert forall i :: 0 <= i < n ==> cands[..n][i] == cands[i];
      }
      forall i | 0 <= i < n && cands[i].userId == id && Truthy(cands[i].username) && id in users
        ensures Rechecked(users, cands, verdicts)[id] == users[id].(subscribed := verdicts[i])
      {
        assert cands[..n][i] == cands[i];
      }
    }
  }

  /** Every eligible candidate is registered once the verdicts are written back. */
  lemma WinnersStayRegistered(users: map<int, UserRow>, cands: seq<Participant>, verdicts: seq<bool>, p: Participant)
    requires |verdicts| >= |cands| && Increasing(UserIds(cands))
    requires forall i :: 0 <= i < |cands| ==> cands[i].userId in users
    requires p in Eligible(cands, verdicts)
    ensures p.userId in Rechecked(users, cands, verdicts) && Rechecked(users, cands, verdicts)[p.userId].subscribed
  {
    EligibleExactly(cands, verdicts, p);
    var i :| 0 <= i < |cands| && cands[i] == p && Truthy(p.username) && verdicts[i];
    RecheckedExactly(users, cands, verdicts, p.userId);
  }

  /** Every drawn winner is registered once the verdicts are written back. */
  lemma DrawnStayRegistered(users: map<int, UserRow>, cands: seq<Participant>, verdicts: seq<bool>, picks: seq<nat>)
    requires |verdicts| >= |cands| && Increasing(UserIds(cands))
    requires forall i :: 0 <= i < |cands| ==> cands[i].userId in users
    ensures forall p :: p in Draw(Eligible(cands, verdicts), picks, MaxWinners) ==>
      p.userId in Rechecked(users, cands, verdicts) && Rechecked(users, cands, verdicts)[p.userId].subscribed
  {
    forall p | p in Draw(Eligible(cands, verdicts), picks, MaxWinners)
      ensures p.userId in Rechecked(users, cands, verdicts) && Rechecked(users, cands, verdicts)[p.userId].subscribed
    {
      DrawFrom(Eligible(cands, verdicts), picks, MaxWinners, p);
      WinnersStayRegistered(users, cands, verdicts, p);
    }
  }

  /**
   * The winners: exactly `min(n, 3)` of them, every one an eligible
   * candidate, no user twice.
   */
  lemma Winners(elig: seq<Participant>, picks: seq<nat>)
    requires Increasing(UserIds(elig))
    ensures |Draw(elig, picks, MaxWinners)| == Min(|elig|, MaxWinners)
    ensures forall p :: p in Draw(elig, picks, MaxWinners) ==> p in elig
    ensures Distinct(UserIds(Draw(elig, picks, MaxWinners)))
  {
    var drawn := Draw(elig, picks, MaxWinners);
    forall p | p in drawn
      ensures p in elig
    {
      DrawFrom(elig, picks, MaxWinners, p);
    }
    KeyedByUserId(elig);
    DrawDistinct(elig, picks, MaxWinners);
    forall a, b | 0 <= a < b < |drawn|
      ensures UserIds(drawn)[a] != UserIds(drawn)[b]
    {
      assert drawn[a] != drawn[b] && drawn[a] in drawn && drawn[b] in drawn;
    }
  }

  /** Increasing user ids make the list duplicate-free and the id a key of its members. */
  lemma KeyedByUserId(elig: seq<Participant>)
    requires Increasing(UserIds(elig))
    ensures Distinct(elig)
    ensures forall p, q :: p in elig && q in elig && p != q ==> p.userId != q.userId
  {
    forall i, j | 0 <= i < j < |elig|
      ensures elig[i] != elig[j]
    {
      assert UserIds(elig)[i] < UserIds(elig)[j];
    }
    forall p, q | p in elig && q in elig && p != q
      ensures p.userId != q.userId
    {
      var i :| 0 <= i < |elig| && elig[i] == p;
      var j :| 0 <= j < |elig| && elig[j] == q;
      if i < j {
        assert UserIds(elig)[i] < UserIds(elig)[j];
      } else if j < i {
        assert UserIds(elig)[j] < UserIds(elig)[i];
      }
    }
  }

  /** The prize table gives places 1..n in order, each with its amount, to distinct winners. */
  lemma PrizeTable(data: seq<WinnerData>, winners: seq<Participant>)
    requires |winners| <= MaxWinners && PrizesFor(data, winners) && Distinct(UserIds(winners))
    ensures forall i :: 0 <= i < |data| ==> data[i].prizePlace == i + 1 && data[i].prizeAmount == PrizeAmounts[i]
    ensures forall i, j :: 0 <= i < j < |data| ==> data[i].userId != data[j].userId
    ensures |data| >= 1 ==> data[0].prizeAmount == "10 000 ₽"
  {
  }

  /**
   * Two eligible candidates: both win, in some order, taking first and
   * second place.
   */
  lemma TwoEligibleBothWin(a: Participant, b: Participant, picks: seq<nat>)
    ensures Draw([a, b], picks, MaxWinners) in {[a, b], [b, a]}
  {
    var j := Slot(picks, 2);
    var rest := Without([a, b], j);
    assert rest == if j == 0 then [b] else [a];
    assert Draw(rest, NextPicks(picks), MaxWinners - 1) == [rest[0]] by {
      DrawStep(rest, NextPicks(picks), MaxWinners - 1);
      assert Slot(NextPicks(picks), 1) == 0;
    }
    assert Draw([a, b], picks, MaxWinners) == [[a, b][j]] + [rest[0]] by {
      DrawStep([a, b], picks, MaxWinners);
    }
    if j == 0 {
      assert [[a, b][j]] + [rest[0]] == [a, b];
    } else {
      assert [[a, b][j]] + [rest[0]] == [b, a];
    }
  }
}
