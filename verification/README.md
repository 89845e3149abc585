# Marathon bot core in Dafny

This project models the core of a Telegram bot that runs a promotional
"marathon". Users register with `/start` and confirm that they follow four
required channels. A scheduler ticks once a minute and fans out reminders
for each live broadcast of a static calendar, plus a closing message when
the marathon ends. A raffle draws up to three prize winners among
subscribers who have a username. An administrator can broadcast an ad-hoc
message through a small `/send` conversation. A SQLite table of users and
an append-only table of raffle winners back all of this.

Every external effect is a parameter of the model:

- the transport's answers to send calls (`SendOutcome` sequences, the set of chats whose broadcast send raises);
- the membership lookups (`Lookup`, one per channel);
- whether the store answers a read (`storeUp`, `candidatesUp`, `usersUp`);
- where the winner save fails (`failAt`);
- the random draw (`picks`);
- which replies of the `/send` handlers raise (`Faults`);
- the clock (`now` and the current `Minute`).

The modules follow the program:

- `common.dfy` (`Common`): shared values: optional strings and their Python truthiness, calendar minutes, broadcasts, winner entries, the symbolic messages and the fan-out of one message.
- `delivery.dfy` (`Delivery`): `safe_send_message`, the retry loop shared by the scheduler and by the bot, whose variant adds a photo.
- `subscription.dfy` (`Subscription`): `check_subscription` over the four channels.
- `database.dfy` (`Database`): the store as a class `UserTable`. It holds a map from user id to row and a sequence of winner rows. Its methods mirror the INSERT/UPDATE statements and its functions mirror the SELECT queries.
- `reminders.dfy` (`Reminders`): `check_and_send_reminders` and one iteration of `scheduler_loop`.
- `raffle.dfy` (`Raffle`): `conduct_raffle`.
- `admin.dfy` (`Admin`): the admin gate, the `/send` conversation as a class `Conversation`, the confirm fan-out, the preview text and the `/start` and registration handlers.
- `markdown.dfy` (`Markdown`): the chain of `replace` calls that escapes Markdown in the bot's last-resort send.

Three behaviours of the code are easy to misread, and the model follows the code in each:

- **Rate limit.** A rate-limit signal spends one iteration of `for attempt in range(max_retries)` like any other outcome. The model therefore never makes more than `max_retries` send calls, even when every answer is a rate limit.
- **Pause in the admin fan-out.** The 0.05-second pause sits inside the `try` after the send, so it follows a successful send only; a failing recipient is followed directly by the next send.
- **Back-off.** The network back-off is `(attempt + 1) * 2`, that is 2, 4, 6 seconds. It grows linearly, although a comment in the code calls it exponential.

## Model

| member | source | states |
|---|---|---|
| Common.FanOut | scheduler.py:126-128 | one delivery per user, in list order, each carrying the same message |
| Delivery.Retry | scheduler.py:73-102 | the retry loop as a function of the outcome oracle: the calls made never exceed `max_retries`, and the sleeps never outnumber the calls |
| Delivery.SafeSend | scheduler.py:71-102 | the loop agrees with `Retry`: same verdict, same number of calls, same sleeps in order, and every call repeats the one request |
| Delivery.SafeSendText | scheduler.py:71-102 | the scheduler's variant repeats a plain text message and behaves as `Retry` says |
| Delivery.BotRequest | bot.py:48-51 | the call the bot's loop repeats: a photo with the text as caption when the photo id is truthy, otherwise the text |
| Delivery.SafeSendWithPhoto | bot.py:44-76 | the bot's variant behaves exactly as the scheduler's; a truthy photo only switches every call to a photo with the text as caption |
| Delivery.CallBound | scheduler.py:73-102 | at most `max_retries` transport calls; with `max_retries <= 0`, no call and failure |
| Delivery.StopsAtFirstVerdict | scheduler.py:74-101 | success iff the last call was delivered; every earlier call was a rate limit or a network error, so nothing is sent after a success and nothing follows an API or other error; conversely, a loop that stops before its last iteration stopped on a delivery or on an API or other error |
| Delivery.OkIffSomeDelivered | scheduler.py:74-78 | the verdict is true iff one of the calls made was delivered |
| Delivery.ErrorIsFinal | scheduler.py:95-101 | an API error or other exception at iteration `a` ends the send with failure after exactly `a + 1` calls, with no wait after it |
| Delivery.SleepSchedule | scheduler.py:79-94 | each sleep is owed by a retryable outcome: the server's wait after a rate limit, `(a + 1) * 2` after a network error on iteration `a`; the last iteration's network error adds no sleep; there is exactly one sleep fewer than calls, except when the last iteration was a rate limit, which leaves one sleep per call |
| Delivery.PersistentNetworkFailure | scheduler.py:85-94 | when every call fails with a network error: failure after `max_retries` calls, waits 2, 4, ..., totalling `max_retries * (max_retries - 1)` |
| Delivery.RateLimitUsesAnIteration | scheduler.py:79-84 | when every call is rate limited, the loop still stops after `max_retries` calls with failure, having slept each server-mandated wait |
| Subscription.CheckSubscription | scheduler.py:37-68 | with any channel id falsy: true and no query; otherwise all four channels are queried in order, and the verdict is true iff every status is member, administrator or creator, with a failed query counting as false; the bot's copy (bot.py lines 127-164) has the same bypass, query order and fail-closed verdict |
| Subscription.Verdict | scheduler.py:47-67 | the reference verdict: true when a channel id is unset, otherwise true iff every one of the four lookups grants |
| Subscription.FailClosed | scheduler.py:62-67 | a failed lookup on any channel makes the verdict false once all ids are set |
| Subscription.BypassWhenUnconfigured | scheduler.py:47-50 | one missing id grants the verdict whatever the lookups would say |
| Database.RegisteredIds | database.py:105-112 | the ids whose flag is 1, each once, in ascending key order |
| Database.SortByRecency | database.py:191-195 | a permutation of the winner rows, newest date first and ascending prize place within a date |
| Database.TopRows | database.py:194-195 | `min(3, n)` rows drawn from the table, in recency order |
| Database.TopRowsSplit | database.py:194-195 | the rows kept and the rows dropped by the limit together are exactly the table |
| Database.TopRowsAreFirst | database.py:194-195 | no dropped row precedes a kept one in the ORDER BY order |
| Database.RowsOf | database.py:169-179 | one row per winner entry, in list order, all stamped with the raffle date |
| Database.UserTable.constructor | database.py:16-38 | both tables start empty |
| Database.UserTable.AddUser | database.py:54-73 | an unknown id gets a row with flag 0; a known id gets only its username and first name replaced, keeping its flag and registration time; no other row and no winner row changes |
| Database.UserTable.MarkSubscribed | database.py:79-86 | sets the flag of an existing id, is a no-op for an unknown id, and leaves every other row unchanged |
| Database.UserTable.UpdateSubscriptionStatus | database.py:148-155 | writes the given flag into that row only; a no-op for an unknown id |
| Database.UserTable.IsRegistered | database.py:92-99 | a user is registered iff its row exists and its flag is 1 |
| Database.UserTable.AllRegisteredUsers | database.py:102-115 | exactly the registered ids, each once, in key order; `[]` when the store fails |
| Database.UserTable.RaffleCandidates | database.py:118-145 | exactly the registered rows with a non-null, non-empty username, in key order, with their stored names; `[]` when the store fails |
| Database.UserTable.SaveRaffleWinners | database.py:161-184 | all rows are appended in list order, or, when an insert fails, none are and failure is reported; committed rows and users never change |
| Database.UserTable.LatestRaffleWinners | database.py:187-211 | at most three entries, the first rows of the table in recency order; `[]` when the store fails |
| Database.RegisteredAgreesWithListing | database.py:92-99 | `is_registered(id)` holds iff the id appears in the list of registered users |
| Database.SavedWinnersReadBack | database.py:161-211 | after a batch dated later than every stored row is saved with its prize places ascending, the latest-winners query returns the first min(3, n) entries of the batch, in batch order, ahead of any older row; with three or more entries or an empty history it returns exactly those |
| Database.BatchLeadsTopRows | database.py:190-195 | the rows of such a batch are the first rows of the limited recency query, one per entry, in batch order |
| Database.NewerRowsFirst | database.py:193 | rows newer than every stored row and strictly ordered among themselves come first, in their own order, under ORDER BY raffle_date DESC, prize_place ASC |
| Reminders.DueFor | scheduler.py:122-152 | the reminders of one broadcast due at a minute: day-before, hour-before and after, each when its minute equals the current one, in that order |
| Reminders.DueMessages | scheduler.py:119-159 | the reminders of every broadcast in calendar order, then the end message when the minute is the end minute |
| Reminders.SendToAll | scheduler.py:126-128 | the deliveries are exactly the fan-out of the message: one send per user, in list order |
| Reminders.SendDueFor | scheduler.py:122-152 | for one broadcast, the day-before, hour-before and after reminders that match the minute are fanned out in that order |
| Reminders.CheckAndSendReminders | scheduler.py:105-159 | the tick sends exactly one fan-out per due message, in calendar order and then the marathon end, to the registered users |
| Reminders.SendDue | scheduler.py:119-159 | walking the calendar and then the end date produces the same fan-outs as the due-message list |
| Reminders.SchedulerIteration | scheduler.py:273-282 | an exception inside the tick keeps what was already sent and stops there; the loop sleeps 60 seconds either way |
| Reminders.NoUsersNoDeliveries | scheduler.py:110-114 | with no registered user nothing is sent, whatever is due |
| Reminders.FanOutAllLength | scheduler.py:119-159 | each due message costs exactly one send per registered user |
| Reminders.FanOutAllAt | scheduler.py:119-159 | send number `k * users + j` is due message `k` to user `j`: the fan-outs are whole, ordered and never interleaved |
| Reminders.DueBroadcastsExactly | scheduler.py:119-152 | a broadcast reminder is due iff its broadcast is in the calendar and the minute equals that reminder's minute; the end message never comes from a broadcast |
| Reminders.TickDeliversExactly | scheduler.py:105-159 | user `u` receives message `m` in a tick iff `u` is registered and `m` is due; the end message is due iff the minute is the end minute |
| Reminders.DeliveredIff | scheduler.py:126-159 | a fan-out series reaches a user with a message iff the user is listed and the message is in the series |
| Reminders.EndFanOutComesLast | scheduler.py:154-159 | at the end minute, the end fan-out follows every broadcast fan-out |
| Raffle.Draw | scheduler.py:216-225 | `min(count, n)` winners |
| Raffle.BuildWinnersData | scheduler.py:228-245 | winner `i` gets place `i + 1` and amount "10 000 ₽", "5 000 ₽" or "3 000 ₽", with its id, username and first name |
| Raffle.ConductRaffle | scheduler.py:167-270 | no candidate: nothing written, nothing sent. Otherwise: every candidate with a username gets its fresh verdict written and no other row changes; no eligible candidate means no save and no announcement; winners are the draw with prizes by position; a failed save means no announcement and no new row; otherwise the rows are appended and the results go to every registered user, winners included |
| Raffle.RunRaffle | scheduler.py:182-265 | the raffle once candidates exist, with the same outcome as above |
| Raffle.RecheckCandidates | scheduler.py:182-201 | the eligible list is the candidates with a username and a positive verdict, in order; each such candidate's flag is overwritten with its verdict |
| Raffle.DrawWinners | scheduler.py:215-225 | more than three eligible: three drawn; otherwise all of them, shuffled |
| Raffle.DrawFrom | scheduler.py:219-225 | every winner is an eligible participant |
| Raffle.DrawWholePool | scheduler.py:221-225 | with at most three eligible, the winners are a permutation of them |
| Raffle.DrawDistinct | scheduler.py:219-220 | the winners are pairwise distinct |
| Raffle.EveryDrawReachable | scheduler.py:218-225 | every ordered choice of `min(n, 3)` distinct eligible participants is produced by some draw oracle, so the oracle covers what sampling and shuffling can yield |
| Raffle.Eligible | scheduler.py:183-199 | the reference eligible list: the candidates, in order, with a truthy username and a positive verdict |
| Raffle.Rechecked | scheduler.py:183-196 | the reference user table after the re-check: each candidate with a username, in order, gets its verdict written into an existing row |
| Raffle.EligibleExactly | scheduler.py:183-201 | a participant is eligible iff it is a candidate with a truthy username whose verdict is positive |
| Raffle.EligibleKeepsOrder | scheduler.py:182-199 | the eligible list keeps the candidates' order and holds only candidates |
| Raffle.RecheckedExactly | scheduler.py:183-196 | every candidate with a username gets its verdict written, whatever it is; every other row, the candidates without a username included, is unchanged; no row is added |
| Raffle.WinnersStayRegistered | scheduler.py:193-199 | an eligible participant is registered after the re-check |
| Raffle.DrawnStayRegistered | scheduler.py:193-264 | every winner is registered after the re-check, so the announcement reaches every winner |
| Raffle.Winners | scheduler.py:215-225 | `min(n, 3)` winners, all eligible, with pairwise distinct user ids |
| Raffle.PrizeTable | scheduler.py:228-245 | places 1, 2, 3 with the matching amounts, and no user holds two prizes |
| Raffle.TwoEligibleBothWin | scheduler.py:221-225 | with two eligible participants both win, in one order or the other |
| Admin.GateFor | bot.py:276-282 | the command passes iff the sender is listed; an empty admin list makes it unavailable |
| Admin.Route | bot.py:167-386 | dispatch in registration order: commands in every state, the cancel label before any other content and only while waiting, the cancel and confirm buttons only while confirming |
| Admin.ContentData | bot.py:330-341 | the stored text is the first truthy of text and caption, else empty; the photo is the last (largest) one, absent without photos |
| Admin.Next | bot.py:289-445 | the storage step of one update: an admin's `/send` starts waiting, keeping the data; content while waiting is stored and awaits confirmation; the cancel label and both buttons clear; a raising reply stops its handler before the change that follows it |
| Admin.Run | bot.py:289-445 | a series of updates applied in order, each with the faults of its replies |
| Admin.PreviewText | bot.py:352-356 | the preview: header, the photo marker when a photo is attached, the text, the question |
| Admin.PreviewReply | bot.py:352-368 | a photo preview with the preview as caption iff a truthy photo is attached, otherwise a text preview; either frames exactly the stored text |
| Admin.PreviewRoundTrip | bot.py:352-356 | header, photo marker when a photo is attached, the text, the question: stripping the frame gives the text back |
| Admin.BroadcastToAll | bot.py:408-429 | every user is tried in order; successes count the users reached and `success + errors == len(users)` |
| Admin.ConfirmOutcome | bot.py:385-445 | the confirm button's reply and fan-out: a raising acknowledgement ends it with nothing sent; missing data or no recipient sends nothing; otherwise the counts are `success + errors == len(users)` and the fan-out goes to every registered user |
| Admin.Conversation.constructor | bot.py:38-41 | a new conversation is idle with no stored data |
| Admin.Conversation.CmdStart | bot.py:167-196 | the user is recorded as `add_user` does; the welcome is sent once, or twice with a 2-second pause after a network error |
| Admin.Conversation.Register | bot.py:199-269 | with a positive verdict the user is marked subscribed and told so; otherwise nothing is written and the reply depends on the button |
| Admin.Conversation.CmdStats | bot.py:272-286 | refused when unavailable or not an admin; otherwise the number of registered users, zero when the store fails |
| Admin.Conversation.CmdSend | bot.py:289-314 | an admin gets the prompt and then the waiting state; a refused sender, or a prompt that raises, changes nothing; the stored data is kept |
| Admin.Conversation.CancelSend | bot.py:317-324 | the cancel label clears state and data |
| Admin.Conversation.ProcessMessageToSend | bot.py:327-370 | the content is stored first; then the preview is shown and the state set to confirm, or, when the preview raises, the state stays as it was with the data stored |
| Admin.Conversation.CancelSendCallback | bot.py:373-382 | the cancel button clears state and data |
| Admin.Conversation.ConfirmSendCallback | bot.py:385-445 | the reply and fan-out are those of `ConfirmOutcome` over the stored data and the registered users; the storage is cleared at the end, unless the acknowledgement raises, or the closing message raises once there was data, in which case state and data stay as they were |
| Admin.Conversation.Handle | bot.py:167-445 | each update moves the storage as `Next` says; `/start` records the user as `add_user` does and the registration buttons mark the user subscribed on a positive verdict, and no other route writes the store; every route's reply is stated (welcome, registration, count or refusal, prompt, cancel, preview, the confirm outcome); only the confirm button sends a fan-out; an unhandled update gets no reply |
| Admin.RefusedStaysIdle | bot.py:289-314 | a sender the gate refuses never leaves the idle state, whatever updates follow |
| Admin.ConfirmAlwaysHasData | bot.py:389-394 | from the empty storage, the confirm state always has stored data, so the missing-data branch is unreachable |
| Admin.AdminFlow | bot.py:289-445 | with every reply going through, `/send`, then a message other than the cancel label, reaches the confirm state with that message stored; the confirm button then clears everything |
| Admin.RaisingReplyStopsHandler | bot.py:307-405 | a raising prompt leaves `/send` without effect; a raising preview leaves the message stored but the state waiting; a raising acknowledgement leaves the confirm state as it was |
| Admin.ConfirmStaysArmed | bot.py:408-445 | when the closing message after a fan-out raises, the confirm state and its message remain, so a second press fans the same message out to every registered user again |
| Admin.CancelClears | bot.py:317-382 | both ways of cancelling clear state and data whatever the replies do, since the clearing comes first; the buttons do nothing outside the confirm state |
| Admin.StatsCountsRegistered | bot.py:284-286 | the reported count is the number of users whose flag is 1 |
| Admin.EveryUserTried | bot.py:412-424 | the transport calls are one per registered user, in list order, a photo with caption when a photo is stored, whatever earlier recipients did |
| Admin.ReachedExactly | bot.py:412-429 | the users reached are exactly the registered users whose send does not raise |
| Admin.PauseOnlyAfterSuccess | bot.py:412-429 | a pause follows each successful send and nothing else; a failed send is directly followed by the next recipient's send |
| Markdown.EscapeChain | bot.py:116 | the escape as written: six whole-string replacements, for `_`, `*`, `[`, `]`, `(` and `)` in that order |
| Markdown.ChainIsPerChar | bot.py:116 | the six chained replacements escape each of `_ * [ ] ( )` exactly once; no pass re-escapes another pass's output |
| Markdown.EscapeLength | bot.py:116 | the output is longer than the input by the number of those characters |
| Markdown.SpecialsEscaped | bot.py:116 | every one of those characters in the output has a backslash right before it |
| Markdown.EscapeRoundTrip | bot.py:116 | removing the added backslashes gives the input back, so every other character, a backslash of the input included, is kept and in order |

## Left out

- Transport and runtime. The aiogram transport, the event loop and its cooperative interleaving, logging, and `main`/`init_db`/`start_polling` are left out. The transport's answers to the sends of the scheduler, of the retry loop and of the admin fan-out, the membership queries, and whether each reply of the `/send` handlers raises are oracle answers. `safe_edit_message` swallows every exception, so a call to it always returns without raising, whether the edit succeeds, falls back to a new message or fails.
- Timing. Sleeps and pauses are values in the model, never waited. `datetime.now()` is the `now` parameter. The 0.05-second pause after each scheduler send is not recorded.
- Random draw. `random.sample` and `random.shuffle` are replaced by the oracle `picks`. `Raffle.EveryDrawReachable` shows that every ordered selection is reachable; probabilities (uniformity) are not modelled.
- Message templates. The templates and the configuration values live in modules that are not part of this model. Messages are symbolic (`Message`, `Reply`), and the calendar, channel ids and admin ids are parameters.
- Edit fallback. The edit/delete fallback of `safe_edit_message` (bot.py:79-124) is left out except its escape expression. The escaped text is sent with parse mode off; how Telegram renders it is not modelled.
- Dead code. The commented-out five-minute reminder and raffle trigger are not live code and are not modelled.
- Keyboards, markup and parse modes are left out.
- Database.UserTable.AddUser: a failing write is logged and swallowed by the source. The model has no failure path for this write.
- Database.UserTable.MarkSubscribed: a failing UPDATE is logged and swallowed by the source. The model has no failure path for this write.
- Database.UserTable.UpdateSubscriptionStatus: a failing UPDATE is logged and swallowed by the source. The model has no failure path for this write.
- Database.UserTable.IsRegistered: `is_registered` (database.py:92-99) has no exception handler, so a store failure raises to its caller, while the predicate always answers. The bot only imports it (bot.py:21) and never calls it.
- Database.UserTable.LatestRaffleWinners: SQL leaves the order of rows with equal date and equal place unspecified. The model fixes one such order (insertion into the sorted list).
- Database.UserTable.SaveRaffleWinners: the database stamps each row with `CURRENT_TIMESTAMP`. The model stamps the whole batch with one `raffleDate` parameter.
- Reminders.SchedulerIteration: an exception is modelled only as the oracle `failAfter`, which cuts the tick's deliveries. What raised it is not modelled.
- Admin.Conversation.Register: the removal of the participate button and the acknowledgement of the callback are not modelled. Neither is an exception from the reply, which the handler swallows after the store write.
- Admin.Conversation.CmdStart: the outcome of the second welcome attempt is not modelled, because the handler swallows it either way.
- Admin.Conversation.CmdStats: a reply that raises ends the handler with no effect beyond losing that reply, so the model does not distinguish it. The same holds for the refusals of `/send`.
- Admin.Route: a command is taken to be exactly `/start`, `/stats` or `/send`. Other text, including an unknown command, is ordinary content.
