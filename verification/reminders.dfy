/**
 * One scheduler tick: the current minute is compared for equality with every
 * reminder minute of the calendar, and each match is fanned out to every
 * registered user.
 */
module Reminders {
  import opened Common
  import opened Database

  /** The static campaign calendar: the broadcasts in order and the marathon end. */
  datatype Calendar = Calendar(broadcasts: seq<Broadcast>, marathonEnd: Minute)

  /** The seconds the loop sleeps after every tick. */
  const TickSeconds := 60

  /** The reminders of one broadcast due at `now`, in the order they are checked. */
  function DueFor(now: Minute, b: Broadcast): seq<Message>
  {
    (if now == b.dayBefore then [DayBeforeReminder(b)] else []) +
    (if now == b.hourBefore then [HourBeforeReminder(b)] else []) +
    (if now == b.after then [AfterBroadcast(b)] else [])
  }

  /** The reminders due at `now` over a list of broadcasts, in list order. */
  function DueBroadcasts(now: Minute, bs: seq<Broadcast>): seq<Message>
  {
    if bs == [] then [] else DueBroadcasts(now, bs[..|bs| - 1]) + DueFor(now, bs[|bs| - 1])
  }

  /** Every message due at `now`: the broadcast reminders, then the marathon end. */
  function DueMessages(now: Minute, cal: Calendar): seq<Message>
  {
    DueBroadcasts(now, cal.broadcasts) + (if now == cal.marathonEnd then [MarathonEnd] else [])
  }

  /** One fan-out per message, in order. */
  function FanOutAll(users: seq<int>, msgs: seq<Message>): seq<Delivery>
  {
    if msgs == [] then [] else FanOutAll(users, msgs[..|msgs| - 1]) + FanOut(users, msgs[|msgs| - 1])
  }

  lemma FanOutAllSnoc(users: seq<int>, msgs: seq<Message>, m: Message)
    ensures FanOutAll(users, msgs + [m]) == FanOutAll(users, msgs) + FanOut(users, m)
  {
    assert (msgs + [m])[..|msgs|] == msgs;
  }

  /** Deliver one message to every user in list order (one safe send each, then a pause). */
  method SendToAll(users: seq<int>, m: Message) returns (sent: seq<Delivery>)
    ensures sent == FanOut(users, m)
  {
    sent := [];
    for i := 0 to |users|
      invariant sent == FanOut(users[..i], m)
    {
      sent := sent + [Delivery(users[i], m)];
    }
    assert users[..|users|] == users;
  }

  /** Fan out `m` as the next message of a tick whose earlier messages are `msgs`. */
  method FanOutNext(users: seq<int>, sent: seq<Delivery>, ghost msgs: seq<Message>, m: Message)
    returns (sent': seq<Delivery>, ghost msgs': seq<Message>)
    requires sent == FanOutAll(users, msgs)
    ensures msgs' == msgs + [m] && sent' == FanOutAll(users, msgs')
  {
    var part := SendToAll(users, m);
    FanOutAllSnoc(users, msgs, m);
    sent', msgs' := sent + part, msgs + [m];
  }

  /** Fan out the reminders of one broadcast due at `now`, day-before, hour-before, after. */
  method SendDueFor(now: Minute, b: Broadcast, users: seq<int>, sent: seq<Delivery>, ghost msgs: seq<Message>)
    returns (sent': seq<Delivery>, ghost msgs': seq<Message>)
    requires sent == FanOutAll(users, msgs)
    ensures msgs' == msgs + DueFor(now, b) && sent' == FanOutAll(users, msgs')
  {
    sent', msgs' := sent, msgs;
    if now == b.dayBefore {
      sent', msgs' := FanOutNext(users, sent', msgs', DayBeforeReminder(b));
    }
    if now == b.hourBefore {
      sent', msgs' := FanOutNext(users, sent', msgs', HourBeforeReminder(b));
    }
    if now == b.after {
      sent', msgs' := FanOutNext(users, sent', msgs', AfterBroadcast(b));
    }
  }

  /**
   * The tick: with no registered user nothing is sent; otherwise every due
   * message, in calendar order and then the marathon end, goes to every
   * registered user in list order.
   */
  method CheckAndSendReminders(now: Minute, cal: Calendar, db: UserTable, storeUp: bool)
    returns (sent: seq<Delivery>)
    ensures sent == FanOutAll(db.AllRegisteredUsers(storeUp), DueMessages(now, cal))
  {
    var users := db.AllRegisteredUsers(storeUp);
    if users == [] {
      NoUsersNoDeliveries(DueMessages(now, cal));
      return [];
    }
    sent := SendDue(now, cal, users);
  }

  /** Walk the calendar in order, then the marathon end, fanning out every match. */
  method SendDue(now: Minute, cal: Calendar, users: seq<int>) returns (sent: seq<Delivery>)
    ensures sent == FanOutAll(users, DueMessages(now, cal))
  {
    sent := [];
    var bs := cal.broadcasts;
    for i := 0 to |bs|
      invariant sent == FanOutAll(users, DueBroadcasts(now, bs[..i]))
    {
      ghost var msgs;
      sent, msgs := SendDueFor(now, bs[i], users, sent, DueBroadcasts(now, bs[..i]));
      assert bs[..i + 1][..i] == bs[..i];
    }
    assert bs[..|bs|] == bs;
    ghost var msgs := DueBroadcasts(now, bs);
    if now == cal.marathonEnd {
      sent, msgs := FanOutNext(users, sent, msgs, MarathonEnd);
    }
    assert msgs == DueMessages(now, cal);
  }

  /**
   * One iteration of the endless scheduler loop. `failAfter` is an oracle for
   * an exception raised by code outside this model after that many
   * deliveries: the loop catches it, keeps what was already sent, and sleeps
   * one tick period either way.
   */
  method SchedulerIteration(now: Minute, cal: Calendar, db: UserTable, storeUp: bool, failAfter: Option<nat>)
    returns (sent: seq<Delivery>, sleep: int)
    ensures sleep == TickSeconds
    ensures var plan := FanOutAll(db.AllRegisteredUsers(storeUp), DueMessages(now, cal));
      sent == if failAfter.Some? && failAfter.value < |plan| then plan[..failAfter.value] else plan
  {
    sent := CheckAndSendReminders(now, cal, db, storeUp);
    if failAfter.Some? && failAfter.value < |sent| {
      sent := sent[..failAfter.value];
    }
    sleep := TickSeconds;
  }

  // ---------------------------------------------------------------------------
  // Properties of a tick

  /** With no registered user nothing is sent, whatever is due. */
  lemma {:induction false} NoUsersNoDeliveries(msgs: seq<Message>)
    ensures FanOutAll([], msgs) == []
  {
    if msgs != [] {
      NoUsersNoDeliveries(msgs[..|msgs| - 1]);
    }
  }

  /** Each due message costs exactly one delivery per user. */
  lemma {:induction false} FanOutAllLength(users: seq<int>, msgs: seq<Message>)
    ensures |FanOutAll(users, msgs)| == |msgs| * |users|
  {
    if msgs != [] {
      FanOutAllLength(users, msgs[..|msgs| - 1]);
      assert |msgs| * |users| == (|msgs| - 1) * |users| + |users|;
    }
  }

  /** Row-major positions: entry `j` of block `k` lies before block `n` when `k < n`. */
  lemma {:induction false} BlockIndexBelow(k: nat, n: nat, u: nat, j: nat)
    requires k < n && j < u
    ensures k * u + j < n * u
    decreases n
  {
    assert n * u == (n - 1) * u + u;
    if k < n - 1 {
      BlockIndexBelow(k, n - 1, u, j);
    }
  }

  /** Delivery `k * |users| + j` is message `k` to user `j`: one ordered fan-out per message. */
  lemma {:induction false} FanOutAllAt(users: seq<int>, msgs: seq<Message>, k: nat, j: nat)
    requires k < |msgs| && j < |users|
    ensures k * |users| + j < |FanOutAll(users, msgs)|
    ensures FanOutAll(users, msgs)[k * |users| + j] == Delivery(users[j], msgs[k])
  {
    var n := |msgs| - 1;
    var init := msgs[..n];
    var u := |users|;
    assert FanOutAll(users, msgs) == FanOutAll(users, init) + FanOut(users, msgs[n]);
    assert |FanOutAll(users, init)| == n * u by {
      FanOutAllLength(users, init);
    }
    if k < n {
      assert k * u + j < n * u by {
        BlockIndexBelow(k, n, u, j);
      }
      FanOutAllAt(users, init, k, j);
      assert init[k] == msgs[k];
    } else {
      assert k * u + j - n * u == j;
    }
  }

  /**
   * A broadcast reminder is due iff its broadcast is in the calendar and the
   * current minute equals that reminder's minute.
   */
  lemma {:induction false} DueBroadcastsExactly(now: Minute, bs: seq<Broadcast>, b: Broadcast)
    ensures DayBeforeReminder(b) in DueBroadcasts(now, bs) <==> b in bs && now == b.dayBefore
    ensures HourBeforeReminder(b) in DueBroadcasts(now, bs) <==> b in bs && now == b.hourBefore
    ensures AfterBroadcast(b) in DueBroadcasts(now, bs) <==> b in bs && now == b.after
    ensures MarathonEnd !in DueBroadcasts(now, bs)
  {
    if bs != [] {
      var init := bs[..|bs| - 1];
      var last := bs[|bs| - 1];
      DueBroadcastsExactly(now, init, b);
      DueForExactly(now, last, b);
      assert DueBroadcasts(now, bs) == DueBroadcasts(now, init) + DueFor(now, last);
      assert b in bs <==> b in init || b == last by {
        assert bs == init + [last];
      }
    }
  }

  /** The reminders one broadcast contributes at `now`: only its own, each at its minute. */
  lemma DueForExactly(now: Minute, b': Broadcast, b: Broadcast)
    ensures DayBeforeReminder(b) in DueFor(now, b') <==> b' == b && now == b.dayBefore
    ensures HourBeforeReminder(b) in DueFor(now, b') <==> b' == b && now == b.hourBefore
    ensures AfterBroadcast(b) in DueFor(now, b') <==> b' == b && now == b.after
    ensures MarathonEnd !in DueFor(now, b')
  {
  }

  /**
   * What a tick sends: user `u` gets message `m` iff `u` is registered and `m`
   * is due, the marathon end being due iff the minute is the end minute.
   */
  lemma TickDeliversExactly(now: Minute, cal: Calendar, users: seq<int>, u: int, b: Broadcast)
    ensures var due := DueMessages(now, cal);
      && (DayBeforeReminder(b) in due <==> b in cal.broadcasts && now == b.dayBefore)
      && (HourBeforeReminder(b) in due <==> b in cal.broadcasts && now == b.hourBefore)
      && (AfterBroadcast(b) in due <==> b in cal.broadcasts && now == b.after)
      && (MarathonEnd in due <==> now == cal.marathonEnd)
    ensures forall m :: Delivery(u, m) in FanOutAll(users, DueMessages(now, cal)) <==>
      u in users && m in DueMessages(now, cal)
  {
    DueBroadcastsExactly(now, cal.broadcasts, b);
    DeliveredIff(users, DueMessages(now, cal), u);
  }

  lemma {:induction false} DeliveredIff(users: seq<int>, msgs: seq<Message>, u: int)
    ensures forall m :: Delivery(u, m) in FanOutAll(users, msgs) <==> u in users && m in msgs
  {
    if msgs != [] {
      var init := msgs[..|msgs| - 1];
      DeliveredIff(users, init, u);
      assert msgs == init + [msgs[|msgs| - 1]];
      forall m | u in users && m in msgs
        ensures Delivery(u, m) in FanOutAll(users, msgs)
      {
        var j :| 0 <= j < |users| && users[j] == u;
        if m !in init {
          assert FanOut(users, msgs[|msgs| - 1])[j] == Delivery(u, m);
        }
      }
    }
  }

  /** When the end minute matches, the end fan-out comes last, after every broadcast fan-out. */
  lemma EndFanOutComesLast(now: Minute, cal: Calendar, users: seq<int>)
    requires now == cal.marathonEnd
    ensures FanOutAll(users, DueMessages(now, cal)) ==
      FanOutAll(users, DueBroadcasts(now, cal.broadcasts)) + FanOut(users, MarathonEnd)
  {
    FanOutAllSnoc(users, DueBroadcasts(now, cal.broadcasts), MarathonEnd);
  }
}
