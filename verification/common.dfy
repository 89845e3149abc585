/** Values shared by every part of the marathon bot model. */
module Common {

  datatype Option<+T> = None | Some(value: T)

  /** Python truthiness of an optional string: both `None` and `""` are false. */
  predicate Truthy(s: Option<string>)
  {
    s.Some? && s.value != ""
  }

  /** A calendar minute; seconds and below are discarded by the scheduler. */
  datatype Minute = Minute(year: int, month: int, day: int, hour: int, minute: int)

  /** One live broadcast of the marathon calendar with its three reminder minutes. */
  datatype Broadcast = Broadcast(day: string, dayBefore: Minute, hourBefore: Minute, after: Minute)

  /** One entry of the list handed to the raffle announcement and to the winner store. */
  datatype WinnerData = WinnerData(
    prizePlace: int,
    prizeAmount: string,
    userId: int,
    username: Option<string>,
    firstName: Option<string>)

  /**
   * The message templates live outside this model; a message is identified by the
   * template that renders it and the arguments the template receives.
   */
  datatype Message =
    | DayBeforeReminder(broadcast: Broadcast)
    | HourBeforeReminder(broadcast: Broadcast)
    | AfterBroadcast(broadcast: Broadcast)
    | MarathonEnd
    | RaffleResults(winners: seq<WinnerData>)

  /** One call of the retrying send primitive: a message for one chat. */
  datatype Delivery = Delivery(chat: int, message: Message)

  /** The deliveries of one fan-out: the message to every user, in list order. */
  function FanOut(users: seq<int>, m: Message): (r: seq<Delivery>)
    ensures |r| == |users|
    ensures forall i :: 0 <= i < |users| ==> r[i] == Delivery(users[i], m)
  {
    seq(|users|, i requires 0 <= i < |users| => Delivery(users[i], m))
  }

  /** Strictly increasing: ordered and free of duplicates. */
  predicate Increasing(s: seq<int>)
  {
    forall i, j :: 0 <= i < j < |s| ==> s[i] < s[j]
  }

  /** No element occurs twice. */
  predicate Distinct<T(==)>(s: seq<T>)
  {
    forall i, j :: 0 <= i < j < |s| ==> s[i] != s[j]
  }

  function Min(a: int, b: int): int
  {
    if a <= b then a else b
  }
}
