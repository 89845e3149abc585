/**
 * The bot front end: the admin gate, the `/send` conversation of one user
 * with its broadcast fan-out, and the registration handlers. The transport,
 * the membership lookups and the store's availability are oracles.
 */
module Admin {
  import opened Common
  import opened Database
  import opened Subscription
  import opened Delivery

  // ---------------------------------------------------------------------------
  // The admin gate

  /** What the gate of an administrative command decides for a sender. */
  datatype Gate = Unavailable | Denied | Allowed

  /** No configured admin makes the command unavailable; otherwise only a listed sender passes. */
  function GateFor(adminIds: seq<int>, sender: int): (g: Gate)
    ensures g == Allowed <==> sender in adminIds
    ensures g == Unavailable <==> adminIds == []
  {
    if adminIds == [] then Unavailable
    else if sender !in adminIds then Denied
    else Allowed
  }

  // ---------------------------------------------------------------------------
  // Updates, replies and the conversation state

  /** The finite-state storage of one user: the `/send` state and the stored message data. */
  datatype SendState = Idle | WaitingForMessage | ConfirmSend

  /** The message an admin wants broadcast: its text and, when one was attached, a photo id. */
  datatype MessageData = MessageData(text: string, photo: Option<string>)

  datatype Session = Session(state: SendState, data: Option<MessageData>)

  /** The commands with a handler of their own; any other text is ordinary content. */
  datatype Command = Start | Stats | Send

  datatype Incoming =
    | CommandMsg(command: Command)
    | Content(text: Option<string>, caption: Option<string>, photos: seq<string>)

  /** The callback data of the inline buttons; `OtherData` stands for anything else. */
  datatype CallbackData = ParticipateData | CheckSubscriptionData | CancelSendData | ConfirmSendData | OtherData

  datatype Event = MessageEvent(msg: Incoming) | CallbackEvent(data: CallbackData)

  /** The handler an update reaches. */
  datatype Handler =
    | ToStart | ToStats | ToSend | ToCancel | ToStore
    | ToParticipate | ToCheckSubscription | ToCancelButton | ToConfirmButton
    | Unhandled

  /** The label of the reply-keyboard button that abandons a pending broadcast. */
  const CancelLabel := "❌ Отменить"

  /**
   * Dispatch in registration order: the three commands in every state; while
   * waiting, the cancel label and then any other content; the two
   * registration buttons in every state; the cancel and confirm buttons only
   * while confirming.
   */
  function Route(state: SendState, ev: Event): (h: Handler)
    ensures h == ToCancel || h == ToStore ==> ev.MessageEvent? && ev.msg.Content? && state == WaitingForMessage
    ensures h == ToCancel <==> ev.MessageEvent? && ev.msg.Content? && state == WaitingForMessage && ev.msg.text == Some(CancelLabel)
    ensures h == ToCancelButton || h == ToConfirmButton ==> state == ConfirmSend
    ensures ev.MessageEvent? && ev.msg.CommandMsg? ==> h in {ToStart, ToStats, ToSend}
  {
    match ev
    case MessageEvent(CommandMsg(c)) =>
      (match c
       case Start => ToStart
       case Stats => ToStats
       case Send => ToSend)
    case MessageEvent(Content(text, _, _)) =>
      if state != WaitingForMessage then Unhandled
      else if text == Some(CancelLabel) then ToCancel
      else ToStore
    case CallbackEvent(d) =>
      (match d
       case ParticipateData => ToParticipate
       case CheckSubscriptionData => ToCheckSubscription
       case CancelSendData => if state == ConfirmSend then ToCancelButton else Unhandled
       case ConfirmSendData => if state == ConfirmSend then ToConfirmButton else Unhandled
       case OtherData => Unhandled)
  }

  /** The stored data of a content message: the first truthy of text and caption, and the last (largest) photo. */
  function ContentData(text: Option<string>, caption: Option<string>, photos: seq<string>): (d: MessageData)
    ensures d.text == if Truthy(text) then text.value else if Truthy(caption) then caption.value else ""
    ensures d.photo.Some? <==> photos != []
    ensures photos != [] ==> d.photo.value == photos[|photos| - 1]
  {
    MessageData(
      if Truthy(text) then text.value else if Truthy(caption) then caption.value else "",
      if photos == [] then None else Some(photos[|photos| - 1]))
  }

  /**
   * Which replies of the `/send` handlers raise. Each of them comes before the
   * handler's next storage change, so a raising one stops the handler short
   * of it: the one reply of a `/send` command or of a stored message, that is
   * the prompt or the preview (`replyRaises`), the acknowledgement of the
   * confirm button (`ackRaises`), and its closing message (`closingRaises`).
   */
  datatype Faults = Faults(replyRaises: bool, ackRaises: bool, closingRaises: bool)

  /** Every reply goes through. */
  const NoFaults := Faults(false, false, false)

  /** One update together with the faults of its replies. */
  datatype Update = Update(ev: Event, faults: Faults)

  /**
   * The conversation step of one update: `/send` from an admin starts waiting
   * (the stored data stays), the cancel label and the cancel button clear the
   * storage, content while waiting is stored and awaits confirmation, and the
   * confirm button clears the storage; a raising reply stops its handler
   * before the change that follows it. Nothing else touches the storage.
   */
  function Next(s: Session, gate: Gate, ev: Event, f: Faults): Session
  {
    match Route(s.state, ev)
    case ToSend => if gate == Allowed && !f.replyRaises then s.(state := WaitingForMessage) else s
    case ToCancel => Session(Idle, None)
    case ToStore =>
      var d := Some(ContentData(ev.msg.text, ev.msg.caption, ev.msg.photos));
      if f.replyRaises then s.(data := d) else Session(ConfirmSend, d)
    case ToCancelButton => Session(Idle, None)
    case ToConfirmButton => if f.ackRaises || (s.data.Some? && f.closingRaises) then s else Session(Idle, None)
    case _ => s
  }

  /** A whole series of updates, in order. */
  function Run(s: Session, gate: Gate, ups: seq<Update>): Session
  {
    if ups == [] then s
    else Next(Run(s, gate, ups[..|ups| - 1]), gate, ups[|ups| - 1].ev, ups[|ups| - 1].faults)
  }

  /** What the bot answers; the templates themselves live outside this model. */
  datatype Reply =
    | CommandUnavailable
    | NoRights
    | RegisteredCount(count: nat)
    | SendPrompt
    | SendCancelled
    | TextPreview(text: string)
    | PhotoPreview(photo: string, caption: string)
    | MissingData
    | NoRecipients
    | BroadcastFinished(success: nat, errors: nat, total: nat)
    | WelcomeSent(attempts: nat, pause: int)
    | RegistrationDone
    | SubscribeFirst
    | NotSubscribedYet
    | Silence
    | Raised   // the handler stopped on an exception from its reply

  /** The refusal of an administrative command that did not pass the gate. */
  function Refusal(g: Gate): Reply
  {
    if g == Unavailable then CommandUnavailable else NoRights
  }

  // ---------------------------------------------------------------------------
  // The preview

  const PreviewHeader := "📋 Превью сообщения:\n\n"
  const PhotoMarker := "📷 [Фото]\n"
  const ConfirmQuestion := "\n\nОтправить это сообщение всем пользователям?"

  /** The preview: header, the photo marker when a photo is attached, the text, the question. */
  function PreviewText(d: MessageData): string
  {
    PreviewHeader + (if Truthy(d.photo) then PhotoMarker else "") + d.text + ConfirmQuestion
  }

  /** The text framed by a preview, given whether it carries the photo marker. */
  function PreviewBody(p: string, withPhoto: bool): Option<string>
  {
    var head := PreviewHeader + (if withPhoto then PhotoMarker else "");
    if |p| >= |head| + |ConfirmQuestion| && p[..|head|] == head && p[|p| - |ConfirmQuestion|..] == ConfirmQuestion
    then Some(p[|head|..|p| - |ConfirmQuestion|])
    else None
  }

  /** The preview shows the photo with the preview as caption when a photo is attached, else the text. */
  function PreviewReply(d: MessageData): (r: Reply)
    ensures r.PhotoPreview? <==> Truthy(d.photo)
    ensures r.PhotoPreview? ==> PreviewBody(r.caption, true) == Some(d.text) && r.photo == d.photo.value
    ensures r.TextPreview? ==> PreviewBody(r.text, false) == Some(d.text)
  {
    PreviewRoundTrip(d);
    if Truthy(d.photo) then PhotoPreview(d.photo.value, PreviewText(d)) else TextPreview(PreviewText(d))
  }

  /** The preview frames the text exactly: stripping the frame gives the text back. */
  lemma PreviewRoundTrip(d: MessageData)
    ensures PreviewBody(PreviewText(d), Truthy(d.photo)) == Some(d.text)
  {
    var head := PreviewHeader + (if Truthy(d.photo) then PhotoMarker else "");
    var p := PreviewText(d);
    assert p == head + d.text + ConfirmQuestion;
    assert p[..|head|] == head;
    assert p[|p| - |ConfirmQuestion|..] == ConfirmQuestion;
    assert p[|head|..|p| - |ConfirmQuestion|] == d.text;
  }

  // ---------------------------------------------------------------------------
  // The confirm fan-out

  /** The pause after every successful send of the fan-out, in milliseconds. */
  const FloodPauseMs := 50

  /** One step of the fan-out: a transport call and whether it raised, or a pause. */
  datatype BroadcastStep = Attempted(request: Request, ok: bool) | Pause(ms: int)

  /** The steps for one recipient: one call, then a pause only when it went through. */
  function StepsFor(u: int, d: MessageData, failing: set<int>): seq<BroadcastStep>
  {
    var req := BotRequest(u, d.text, d.photo);
    if u in failing then [Attempted(req, false)] else [Attempted(req, true), Pause(FloodPauseMs)]
  }

  /** The whole fan-out, recipient by recipient; `failing` holds the chats whose send raises. */
  function BroadcastTrace(users: seq<int>, d: MessageData, failing: set<int>): seq<BroadcastStep>
  {
    if users == [] then []
    else BroadcastTrace(users[..|users| - 1], d, failing) + StepsFor(users[|users| - 1], d, failing)
  }

  /** The recipients the message reached, in order. */
  function Reached(users: seq<int>, failing: set<int>): (r: seq<int>)
    ensures |r| <= |users|
  {
    if users == [] then []
    else Reached(users[..|users| - 1], failing) + (if users[|users| - 1] in failing then [] else [users[|users| - 1]])
  }

  /** The requests of a trace, in order, pauses dropped. */
  function Requests(trace: seq<BroadcastStep>): seq<Request>
  {
    if trace == [] then []
    else Requests(trace[..|trace| - 1]) + (if trace[|trace| - 1].Attempted? then [trace[|trace| - 1].request] else [])
  }

  /**
   * Send the message to every user in order, counting successes and errors;
   * a failing recipient is counted and skipped, and only a success is
   * followed by the anti-flood pause.
   */
  method BroadcastToAll(users: seq<int>, d: MessageData, failing: set<int>)
    returns (success: nat, errors: nat, trace: seq<BroadcastStep>)
    ensures trace == BroadcastTrace(users, d, failing)
    ensures success == |Reached(users, failing)|
    ensures success + errors == |users|
  {
    success, errors, trace := 0, 0, [];
    for i := 0 to |users|
      invariant trace == BroadcastTrace(users[..i], d, failing)
      invariant success == |Reached(users[..i], failing)|
      invariant success + errors == i
    {
      assert users[..i + 1][..i] == users[..i];
      var u := users[i];
      var req := BotRequest(u, d.text, d.photo);
      if u in failing {
        trace := trace + [Attempted(req, false)];
        errors := errors + 1;
      } else {
        trace := trace + [Attempted(req, true)];
        success := success + 1;
        trace := trace + [Pause(FloodPauseMs)];
      }
      assert trace == BroadcastTrace(users[..i], d, failing) + StepsFor(users[..i + 1][i], d, failing);
    }
    assert users[..|users|] == users;
  }

  /**
   * The reply and the fan-out of the confirm button: a raising acknowledgement
   * ends it at once; missing data and an empty recipient list send nothing
   * (the latter's message can raise); otherwise every registered user is
   * tried and the counts are reported by an edit, which cannot raise.
   */
  function ConfirmOutcome(data: Option<MessageData>, users: seq<int>, failing: set<int>, ackRaises: bool, closingRaises: bool)
    : (r: (Reply, seq<BroadcastStep>))
    ensures r.1 != [] ==> !ackRaises && data.Some? && users != []
    ensures r.0.BroadcastFinished? ==> r.0.success + r.0.errors == r.0.total == |users|
  {
    if ackRaises then (Raised, [])
    else if data.None? then (MissingData, [])
    else if users == [] then (if closingRaises then Raised else NoRecipients, [])
    else
      var success := |Reached(users, failing)|;
      (BroadcastFinished(success, |users| - success, |users|), BroadcastTrace(users, data.value, failing))
  }

  // ---------------------------------------------------------------------------
  // The conversation of one user

  /** The sender's profile as every update carries it. */
  datatype Profile = Profile(username: Option<string>, firstName: Option<string>)

  /**
   * What the world answers during one update: the clock, the sender's
   * profile, how the first welcome send ends, the four membership lookups,
   * whether the store is reachable, the chats whose broadcast send raises,
   * and which replies of the `/send` handlers raise.
   */
  datatype World = World(
    now: int,
    profile: Profile,
    firstWelcome: SendOutcome,
    lookups: seq<Lookup>,
    storeUp: bool,
    failing: set<int>,
    faults: Faults)

  class Conversation {
    const owner: int
    const adminIds: seq<int>
    const channels: Channels
    var state: SendState
    var data: Option<MessageData>

    constructor (owner: int, adminIds: seq<int>, channels: Channels)
      ensures this.owner == owner && this.adminIds == adminIds && this.channels == channels
      ensures state == Idle && data == None
    {
      this.owner := owner;
      this.adminIds := adminIds;
      this.channels := channels;
      state := Idle;
      data := None;
    }

    function Current(): Session
      reads this
    {
      Session(state, data)
    }

    /**
     * `/start`: record the user, then send the welcome; a network error on the
     * first send is followed by a two-second pause and one more try.
     */
    method CmdStart(db: UserTable, profile: Profile, now: int, firstWelcome: SendOutcome) returns (reply: Reply)
      modifies db
      ensures owner in old(db.users) ==>
        db.users == old(db.users)[owner := old(db.users)[owner].(username := profile.username, firstName := profile.firstName)]
      ensures owner !in old(db.users) ==>
        db.users == old(db.users)[owner := UserRow(profile.username, profile.firstName, now, false)]
      ensures db.winners == old(db.winners)
      ensures reply == if firstWelcome == NetworkError then WelcomeSent(2, 2) else WelcomeSent(1, 0)
    {
      db.AddUser(owner, profile.username, profile.firstName, now);
      if firstWelcome == NetworkError {
        reply := WelcomeSent(2, 2);
      } else {
        reply := WelcomeSent(1, 0);
      }
    }

    /**
     * The two registration buttons: with a positive verdict the user is
     * marked subscribed; otherwise nothing is written and the user is asked
     * to subscribe (`fromParticipate` tells the first button from the re-check).
     */
    method Register(db: UserTable, lookups: seq<Lookup>, fromParticipate: bool) returns (reply: Reply)
      requires |lookups| == 4
      modifies db
      ensures Verdict(channels, lookups) && owner in old(db.users) ==>
        db.users == old(db.users)[owner := old(db.users)[owner].(subscribed := true)]
      ensures !(Verdict(channels, lookups) && owner in old(db.users)) ==> db.users == old(db.users)
      ensures db.winners == old(db.winners)
      ensures Verdict(channels, lookups) ==> reply == RegistrationDone
      ensures !Verdict(channels, lookups) ==> reply == if fromParticipate then SubscribeFirst else NotSubscribedYet
    {
      var subscribed, _ := CheckSubscription(channels, lookups);
      if subscribed {
        db.MarkSubscribed(owner);
        reply := RegistrationDone;
      } else if fromParticipate {
        reply := SubscribeFirst;
      } else {
        reply := NotSubscribedYet;
      }
    }

    /** `/stats`: behind the gate, the number of registered users (zero when the store fails). */
    method CmdStats(db: UserTable, storeUp: bool) returns (reply: Reply)
      ensures GateFor(adminIds, owner) != Allowed ==> reply == Refusal(GateFor(adminIds, owner))
      ensures GateFor(adminIds, owner) == Allowed ==> reply == RegisteredCount(|db.AllRegisteredUsers(storeUp)|)
    {
      var g := GateFor(adminIds, owner);
      if g != Allowed {
        return Refusal(g);
      }
      var users := db.AllRegisteredUsers(storeUp);
      reply := RegisteredCount(|users|);
    }

    /**
     * `/send`: behind the gate, prompt and wait for the message; refused
     * senders change nothing, and neither does a prompt that raises.
     */
    method CmdSend(promptRaises: bool) returns (reply: Reply)
      modifies this
      ensures GateFor(adminIds, owner) == Allowed && !promptRaises ==> state == WaitingForMessage && reply == SendPrompt
      ensures GateFor(adminIds, owner) == Allowed && promptRaises ==> state == old(state) && reply == Raised
      ensures GateFor(adminIds, owner) != Allowed ==>
        state == old(state) && reply == Refusal(GateFor(adminIds, owner))
      ensures data == old(data)
    {
      var g := GateFor(adminIds, owner);
      if g != Allowed {
        return Refusal(g);
      }
      if promptRaises {
        return Raised;
      }
      reply := SendPrompt;
      state := WaitingForMessage;
    }

    /** The cancel label while waiting: clear the storage. */
    method CancelSend() returns (reply: Reply)
      modifies this
      ensures state == Idle && data == None && reply == SendCancelled
    {
      state, data := Idle, None;
      reply := SendCancelled;
    }

    /**
     * Any other content while waiting: store it, show the preview, await
     * confirmation; a preview that raises leaves the data stored but the
     * state unchanged.
     */
    method ProcessMessageToSend(text: Option<string>, caption: Option<string>, photos: seq<string>, previewRaises: bool)
      returns (reply: Reply)
      modifies this
      ensures data == Some(ContentData(text, caption, photos))
      ensures !previewRaises ==> state == ConfirmSend && reply == PreviewReply(data.value)
      ensures previewRaises ==> state == old(state) && reply == Raised
    {
      data := Some(ContentData(text, caption, photos));
      if previewRaises {
        return Raised;
      }
      reply := PreviewReply(data.value);
      state := ConfirmSend;
    }

    /** The cancel button while confirming: clear the storage. */
    method CancelSendCallback() returns (reply: Reply)
      modifies this
      ensures state == Idle && data == None && reply == SendCancelled
    {
      state, data := Idle, None;
      reply := SendCancelled;
    }

    /**
     * The confirm button: without stored data, or with nobody registered,
     * nothing is sent; otherwise the message goes to every registered user.
     * The storage is cleared at the end of every path, unless the reply just
     * before the clearing raises: the acknowledgement, or the closing message
     * once there was data to send.
     */
    method ConfirmSendCallback(db: UserTable, storeUp: bool, failing: set<int>, ackRaises: bool, closingRaises: bool)
      returns (reply: Reply, trace: seq<BroadcastStep>)
      modifies this
      ensures ackRaises || (old(data).Some? && closingRaises) ==> state == old(state) && data == old(data)
      ensures !(ackRaises || (old(data).Some? && closingRaises)) ==> state == Idle && data == None
      ensures (reply, trace) == ConfirmOutcome(old(data), db.AllRegisteredUsers(storeUp), failing, ackRaises, closingRaises)
    {
      trace := [];
      if data.None? {
        if ackRaises {
          return Raised, [];
        }
        state, data := Idle, None;
        return MissingData, [];
      }
      if ackRaises {
        return Raised, [];
      }
      var d := data.value;
      var users := db.AllRegisteredUsers(storeUp);
      if users == [] {
        if closingRaises {
          return Raised, [];
        }
        state, data := Idle, None;
        return NoRecipients, [];
      }
      var success, errors;
      success, errors, trace := BroadcastToAll(users, d, failing);
      reply := BroadcastFinished(success, errors, |users|);
      if closingRaises {
        return;
      }
      state, data := Idle, None;
    }

    /**
     * One update: route it as registered and run its handler. The storage
     * moves as `Next` says, and only the start and registration handlers
     * write the store.
     */
    method Handle(ev: Event, db: UserTable, w: World) returns (reply: Reply, trace: seq<BroadcastStep>)
      requires |w.lookups| == 4
      modifies this, db
      ensures Current() == Next(old(Current()), GateFor(adminIds, owner), ev, w.faults)
      ensures db.winners == old(db.winners)
      ensures Route(old(state), ev) !in {ToStart, ToParticipate, ToCheckSubscription} ==> db.users == old(db.users)
      ensures Route(old(state), ev) == ToStart ==>
        && reply == (if w.firstWelcome == NetworkError then WelcomeSent(2, 2) else WelcomeSent(1, 0))
        && db.users == old(db.users)[owner :=
             if owner in old(db.users)
             then old(db.users)[owner].(username := w.profile.username, firstName := w.profile.firstName)
             else UserRow(w.profile.username, w.profile.firstName, w.now, false)]
      ensures Route(old(state), ev) in {ToParticipate, ToCheckSubscription} ==>
        && reply == (if Verdict(channels, w.lookups) then RegistrationDone
                     else if Route(old(state), ev) == ToParticipate then SubscribeFirst else NotSubscribedYet)
        && db.users == if Verdict(channels, w.lookups) && owner in old(db.users)
                       then old(db.users)[owner := old(db.users)[owner].(subscribed := true)]
                       else old(db.users)
      ensures Route(old(state), ev) == ToStats ==>
        reply == if GateFor(adminIds, owner) == Allowed then RegisteredCount(|db.AllRegisteredUsers(w.storeUp)|)
                 else Refusal(GateFor(adminIds, owner))
      ensures Route(old(state), ev) == ToSend ==>
        reply == if GateFor(adminIds, owner) != Allowed then Refusal(GateFor(adminIds, owner))
                 else if w.faults.replyRaises then Raised else SendPrompt
      ensures Route(old(state), ev) in {ToCancel, ToCancelButton} ==> reply == SendCancelled
      ensures Route(old(state), ev) == ToStore ==>
        reply == if w.faults.replyRaises then Raised else PreviewReply(ContentData(ev.msg.text, ev.msg.caption, ev.msg.photos))
      ensures Route(old(state), ev) == ToConfirmButton ==>
        (reply, trace) == ConfirmOutcome(old(data), db.AllRegisteredUsers(w.storeUp), w.failing,
                                         w.faults.ackRaises, w.faults.closingRaises)
      ensures Route(old(state), ev) != ToConfirmButton ==> trace == []
      ensures Route(old(state), ev) == Unhandled ==> reply == Silence
    {
      trace := [];
      match Route(state, ev)
      case ToStart =>
        reply := CmdStart(db, w.profile, w.now, w.firstWelcome);
      case ToParticipate =>
        reply := Register(db, w.lookups, true);
      case ToCheckSubscription =>
        reply := Register(db, w.lookups, false);
      case ToStats =>
        reply := CmdStats(db, w.storeUp);
      case ToSend =>
        reply := CmdSend(w.faults.replyRaises);
      case ToCancel =>
        reply := CancelSend();
      case ToStore =>
        reply := ProcessMessageToSend(ev.msg.text, ev.msg.caption, ev.msg.photos, w.faults.replyRaises);
      case ToCancelButton =>
        reply := CancelSendCallback();
      case ToConfirmButton =>
        reply, trace := ConfirmSendCallback(db, w.storeUp, w.failing, w.faults.ackRaises, w.faults.closingRaises);
      case Unhandled =>
        reply := Silence;
    }
  }

  // ---------------------------------------------------------------------------
  // Properties of the conversation

  /** A sender the gate refuses never leaves the idle state, whatever updates arrive. */
  lemma {:induction false} RefusedStaysIdle(s: Session, gate: Gate, ups: seq<Update>)
    requires gate != Allowed && s.state == Idle
    ensures Run(s, gate, ups).state == Idle
  {
    if ups != [] {
      RefusedStaysIdle(s, gate, ups[..|ups| - 1]);
    }
  }

  /** In the confirm state there is always stored data. */
  predicate DataWhenConfirming(s: Session)
  {
    s.state == ConfirmSend ==> s.data.Some?
  }

  /**
   * From a storage with data whenever it confirms (the empty one included),
   * every series of updates keeps it so: the missing-data branch of the
   * confirm button is unreachable.
   */
  lemma {:induction false} ConfirmAlwaysHasData(s: Session, gate: Gate, ups: seq<Update>)
    requires DataWhenConfirming(s)
    ensures DataWhenConfirming(Run(s, gate, ups))
  {
    if ups != [] {
      ConfirmAlwaysHasData(s, gate, ups[..|ups| - 1]);
    }
  }

  /**
   * The admin flow with every reply going through: `/send`, then a message
   * that is not the cancel label, reaches the confirm state with that message
   * stored; the confirm button then clears everything.
   */
  lemma AdminFlow(s: Session, text: Option<string>, caption: Option<string>, photos: seq<string>)
    requires text != Some(CancelLabel)
    ensures var ups := [Update(MessageEvent(CommandMsg(Send)), NoFaults),
                        Update(MessageEvent(Content(text, caption, photos)), NoFaults)];
      Run(s, Allowed, ups) == Session(ConfirmSend, Some(ContentData(text, caption, photos))) &&
      Run(s, Allowed, ups + [Update(CallbackEvent(ConfirmSendData), NoFaults)]) == Session(Idle, None)
  {
    var send := Update(MessageEvent(CommandMsg(Send)), NoFaults);
    var content := Update(MessageEvent(Content(text, caption, photos)), NoFaults);
    var ups := [send, content];
    assert ups[..1] == [send];
    assert [send][..0] == [];
    assert (ups + [Update(CallbackEvent(ConfirmSendData), NoFaults)])[..2] == ups;
  }

  /**
   * A raising reply stops its handler before the storage change behind it:
   * a failed prompt leaves `/send` without effect, a failed preview leaves
   * the new message stored but still waiting, and a failed acknowledgement
   * leaves the confirm state as it was.
   */
  lemma RaisingReplyStopsHandler(s: Session, gate: Gate, text: Option<string>, caption: Option<string>, photos: seq<string>, f: Faults)
    ensures f.replyRaises ==> Next(s, gate, MessageEvent(CommandMsg(Send)), f) == s
    ensures s.state == WaitingForMessage && text != Some(CancelLabel) && f.replyRaises ==>
      Next(s, gate, MessageEvent(Content(text, caption, photos)), f) ==
        Session(WaitingForMessage, Some(ContentData(text, caption, photos)))
    ensures f.ackRaises ==> Next(s, gate, CallbackEvent(ConfirmSendData), f) == s
  {
  }

  /**
   * When the closing message after a fan-out raises, the storage still holds
   * the confirm state and the message: pressing the confirm button again
   * fans the same message out to every registered user once more.
   */
  lemma ConfirmStaysArmed(gate: Gate, d: MessageData, users: seq<int>, failing: set<int>)
    requires users != []
    ensures var s := Session(ConfirmSend, Some(d));
      var f := Faults(false, false, true);
      Next(s, gate, CallbackEvent(ConfirmSendData), f) == s &&
      ConfirmOutcome(s.data, users, failing, false, true).1 == BroadcastTrace(users, d, failing) &&
      Requests(ConfirmOutcome(s.data, users, failing, false, true).1) == RequestsFor(users, d)
  {
    EveryUserTried(users, d, failing);
  }

  /** Both ways of cancelling clear the state and the stored data, whatever the replies do. */
  lemma CancelClears(s: Session, gate: Gate, caption: Option<string>, photos: seq<string>, f: Faults)
    ensures s.state == WaitingForMessage ==>
      Next(s, gate, MessageEvent(Content(Some(CancelLabel), caption, photos)), f) == Session(Idle, None)
    ensures s.state == ConfirmSend ==> Next(s, gate, CallbackEvent(CancelSendData), f) == Session(Idle, None)
    ensures s.state != ConfirmSend ==>
      Next(s, gate, CallbackEvent(CancelSendData), f) == s && Next(s, gate, CallbackEvent(ConfirmSendData), f) == s
  {
  }

  /** `/stats` counts exactly the registered users when the store answers. */
  lemma StatsCountsRegistered(db: UserTable)
    ensures |db.AllRegisteredUsers(true)| == |set id | id in db.users && db.users[id].subscribed|
  {
  }

  // ---------------------------------------------------------------------------
  // Properties of the fan-out

  lemma RequestsAppend(a: seq<BroadcastStep>, b: seq<BroadcastStep>)
    ensures Requests(a + b) == Requests(a) + Requests(b)
    decreases |b|
  {
    if b != [] {
      var b' := b[..|b| - 1];
      assert (a + b)[..|a + b| - 1] == a + b';
      assert (a + b)[|a + b| - 1] == b[|b| - 1];
      RequestsAppend(a, b');
    } else {
      assert a + b == a;
    }
  }

  /** The calls of one recipient's steps: exactly its one request. */
  lemma StepsRequest(u: int, d: MessageData, failing: set<int>)
    ensures Requests(StepsFor(u, d, failing)) == [BotRequest(u, d.text, d.photo)]
  {
    var req := BotRequest(u, d.text, d.photo);
    if u in failing {
      assert [Attempted(req, false)][..0] == [];
    } else {
      assert [Attempted(req, true), Pause(FloodPauseMs)][..1] == [Attempted(req, true)];
      assert [Attempted(req, true)][..0] == [];
      assert Requests([Attempted(req, true)]) == [req];
    }
  }

  /** The request of each user, in list order. */
  function RequestsFor(users: seq<int>, d: MessageData): (r: seq<Request>)
    ensures |r| == |users| && forall i :: 0 <= i < |users| ==> r[i] == BotRequest(users[i], d.text, d.photo)
  {
    if users == [] then []
    else RequestsFor(users[..|users| - 1], d) + [BotRequest(users[|users| - 1], d.text, d.photo)]
  }

  /** Every registered user is tried exactly once and in list order, failures notwithstanding. */
  lemma {:induction false} EveryUserTried(users: seq<int>, d: MessageData, failing: set<int>)
    ensures Requests(BroadcastTrace(users, d, failing)) == RequestsFor(users, d)
  {
    if users != [] {
      var init := users[..|users| - 1];
      var u := users[|users| - 1];
      EveryUserTried(init, d, failing);
      RequestsAppend(BroadcastTrace(init, d, failing), StepsFor(u, d, failing));
      StepsRequest(u, d, failing);
    }
  }

  /** The users reached are exactly the registered users whose send does not raise. */
  lemma {:induction false} ReachedExactly(users: seq<int>, failing: set<int>)
    ensures forall u :: u in Reached(users, failing) <==> u in users && u !in failing
  {
    if users != [] {
      var init := users[..|users| - 1];
      ReachedExactly(init, failing);
      assert users == init + [users[|users| - 1]];
    }
  }

  /**
   * Pauses sit exactly after the successful sends: the trace opens with a
   * send, a step is a pause iff the step before it is a successful send, and
   * a failed send is followed by the next send (or ends the trace).
   */
  ghost predicate PausesPlaced(t: seq<BroadcastStep>)
  {
    && (|t| > 0 ==> t[0].Attempted?)
    && forall i, j :: 0 <= i < j < |t| && j == i + 1 ==>
         (t[j].Pause? <==> t[i].Attempted? && t[i].ok) &&
         (t[i].Attempted? && !t[i].ok ==> t[j].Attempted?)
  }

  /** The pause follows every successful send and nothing else; a failure does not stop the fan-out. */
  lemma {:induction false} PauseOnlyAfterSuccess(users: seq<int>, d: MessageData, failing: set<int>)
    ensures PausesPlaced(BroadcastTrace(users, d, failing))
  {
    if users != [] {
      var init := users[..|users| - 1];
      PauseOnlyAfterSuccess(init, d, failing);
      var t0 := BroadcastTrace(init, d, failing);
      var u := users[|users| - 1];
      var b := StepsFor(u, d, failing);
      var t := t0 + b;
      assert t == BroadcastTrace(users, d, failing);
      if init != [] {
        TrailingSuccessPaused(init, d, failing);
      }
      assert t[0].Attempted? by {
        if t0 != [] {
          assert t[0] == t0[0];
        }
      }
      forall i, j | 0 <= i < j < |t| && j == i + 1
        ensures (t[j].Pause? <==> t[i].Attempted? && t[i].ok) &&
          (t[i].Attempted? && !t[i].ok ==> t[j].Attempted?)
      {
        if j < |t0| {
          assert t[i] == t0[i] && t[j] == t0[j];
        } else if i < |t0| {
          assert t[i] == t0[|t0| - 1] && t[j] == b[0];
        } else {
          assert t[i] == b[0] && t[j] == b[1];
        }
      }
    }
  }

  /** A fan-out never ends on a successful send: its pause comes after it. */
  lemma TrailingSuccessPaused(users: seq<int>, d: MessageData, failing: set<int>)
    requires users != []
    ensures var t := BroadcastTrace(users, d, failing);
      |t| > 0 && !(t[|t| - 1].Attempted? && t[|t| - 1].ok)
  {
  }
}
