/**
 * The subscription verdict over the four required channels. The membership
 * lookup is an oracle: `lookups[i]` is what the query for the i-th channel
 * (in the order MAIN, OKSANA, NATALIA, MARIA) returns.
 */
module Subscription {
  import opened Common

  /** The chat-member statuses the platform reports. */
  datatype MemberStatus = Creator | Administrator | Member | Restricted | Left | Kicked

  /** The result of one membership query: a status, or an exception. */
  datatype Lookup = Status(status: MemberStatus) | LookupFailed

  /** The four configured channel ids; an id is falsy when unset or empty. */
  datatype Channels = Channels(main: Option<string>, oksana: Option<string>, natalia: Option<string>, maria: Option<string>)
  {
    /** The ids in the order the check walks them. */
    function Ids(): seq<Option<string>>
    {
      [main, oksana, natalia, maria]
    }

    predicate AllSet()
    {
      Truthy(main) && Truthy(oksana) && Truthy(natalia) && Truthy(maria)
    }
  }

  /** One channel counts as subscribed only on a member, administrator or creator status. */
  predicate Grants(l: Lookup)
  {
    l.Status? && l.status in {Member, Administrator, Creator}
  }

  /**
   * The verdict: the development bypass when any id is missing, otherwise
   * subscribed to every channel, a failed lookup counting as not subscribed.
   */
  predicate Verdict(channels: Channels, lookups: seq<Lookup>)
    requires |lookups| == 4
  {
    !channels.AllSet() || forall i :: 0 <= i < 4 ==> Grants(lookups[i])
  }

  /**
   * The check: `queried` lists the channel ids asked, in order; with every id
   * set all four are asked, whatever the earlier answers were.
   */
  method CheckSubscription(channels: Channels, lookups: seq<Lookup>)
    returns (subscribed: bool, queried: seq<string>)
    requires |lookups| == 4
    ensures !channels.AllSet() ==> subscribed && queried == []
    ensures channels.AllSet() ==>
      |queried| == 4 && (forall i :: 0 <= i < 4 ==> queried[i] == channels.Ids()[i].value)
    ensures subscribed == Verdict(channels, lookups)
  {
    if !channels.AllSet() {
      return true, [];
    }
    var ids := channels.Ids();
    var statuses: seq<bool> := [];
    queried := [];
    for i := 0 to 4
      invariant |statuses| == i && |queried| == i
      invariant forall k :: 0 <= k < i ==> statuses[k] == Grants(lookups[k])
      invariant forall k :: 0 <= k < i ==> queried[k] == ids[k].value
    {
      queried := queried + [ids[i].value];
      match lookups[i] {
        case Status(s) =>
          statuses := statuses + [s in {Member, Administrator, Creator}];
        case LookupFailed =>
          statuses := statuses + [false];
      }
    }
    subscribed := forall k :: 0 <= k < |statuses| ==> statuses[k];
  }

  /** A failed lookup on any channel makes the verdict negative once every id is set. */
  lemma FailClosed(channels: Channels, lookups: seq<Lookup>, i: nat)
    requires |lookups| == 4 && i < 4
    requires channels.AllSet() && lookups[i] == LookupFailed
    ensures !Verdict(channels, lookups)
  {
  }

  /** A missing id grants the verdict whatever the lookups would say. */
  lemma BypassWhenUnconfigured(channels: Channels, lookups: seq<Lookup>)
    requires |lookups| == 4
    requires exists i :: 0 <= i < 4 && !Truthy(channels.Ids()[i])
    ensures Verdict(channels, lookups)
  {
  }
}
