# VK chat moderation bot — a Dafny model

This project models the moderation core of a VK community chat bot written in PHP
(`main.php`). The bot long-polls the VK API for `message_new` updates. It keeps its state
in JSON tables:

- mutes and kicks, from user to expiry time;
- the ban list;
- warning counters and nicknames, by room and then by user;
- per-room user statistics;
- the list of "unified" chats, which mirror each other's moderation actions.

It also keeps the admin and moderator rosters of its configuration. Chat commands
(`!mute`, `/warn`, `!unite`, `!addadmin`, …) are routed by the sender's rank. A direct
moderation action is replayed into every other unified chat with the `is_sync` flag set,
so a replay never propagates again. A sweep that runs every ten seconds drops expired
mutes and announces them in every unified chat. A separate `ModerationManager` holds a
sliding-window flood counter and three content checks.

The modules:

- `Common`, `Text` and `Assoc` hold the language-level pieces:
  - PHP lists without duplicates and `array_search`/`unset`;
  - `explode`/`implode`, `strtolower` and `strpos`;
  - integer `is_numeric`/`intval`;
  - `formatTimeString`;
  - PHP's ordered arrays (`Assoc`), whose key order the bot observes.
- `Types` holds the tables, messages, long-poll responses and outbound effects.
- `Moderation` gives every verb of the bot as a function on the tables:
  - the eight verbs;
  - propagation across unified chats;
  - unite and separate;
  - the statistics;
  - the expiry sweep.
- `TableFacts` and `Propagation` prove what those functions do.
- `Flood` is the `ModerationManager` class.
- `Router` and `RouterFacts` model `resolveUserId` and the command switch of
  `processMessage`, and prove the authorisation tiers and the target and argument rules.
- `Bot` is the `ChatBot` class. It has one field per table. Each method updates its
  fields step by step, as the PHP code does, and is proved equal to the matching
  `Moderation` function.

What the bot sends, the chat removals it requests and the propagation calls it makes are
appended to an `outbox` field. Messages are tagged by kind (`Notice`), not by their text.
The clock is a parameter `now`. Remote name lookups (`getUserMention`, `getChatInfo`)
only shape message text, so they are not modelled.

Where the code differs from the natural reading, the model follows the code:

- `!mute` takes the reply author before a mention. Every other single-target command
  takes the mention first.
- Only the `!mute` router refuses an admin target. The automatic mute inside `warnUser`
  mutes admins like anyone else (`WarnMutesAdmins`).
- A replayed ban or unban finds the global ban list already updated and does nothing.
  A replayed warning only increments its counter, and never resets it or mutes.
- Propagation skips only the chat the action came from, whether or not that chat is
  itself unified.
- The sweep expires mutes only; kicks are never swept.
- `checkFloodControl` and the content checks are never called by `processMessage`.

The model follows PHP 8: `strpos` finds an empty needle at position 0, and `is_numeric` accepts whitespace after the number as well as before it.

## Model

| member | source | states |
|---|---|---|
| Text.FoldCase | main.php:91 | case folding keeps length and maps each character on its own (ASCII and Cyrillic capitals to small letters) |
| Text.FoldCaseIdempotent | main.php:359 | folding twice is folding once, so comparing folded nicknames is a stable equivalence |
| Text.Split | main.php:904 | `explode(' ', …)` always yields at least one part and no part contains the separator |
| Text.JoinSplit | main.php:1072 | `implode` undoes `explode`: joining the parts of a text with the same separator gives the text back |
| Text.LeadingDigits | main.php:958-959 | the digit prefix `intval` reads is all digits, stops at the first non-digit and is the whole text when the text is all digits |
| Text.IntVal | main.php:958-959 | `intval` skips leading whitespace and reads a sign and digits, capped to the 64-bit range: an all-digit text within range is its decimal value, one beyond it reads as PHP_INT_MAX, a minus sign and digits within range give the negative value, and no result leaves the range |
| Text.Saturate | main.php:958-959 | a value within the 64-bit range is kept, and every result lies within it |
| Text.TrimStart | main.php:350 | leading whitespace removed: the result is a suffix of the text, only whitespace was removed, and it does not begin with whitespace |
| Text.TrimEnd | main.php:350 | trailing whitespace removed: the result is a prefix of the text, only whitespace was removed, and it does not end with whitespace |
| Text.IsNumeric | main.php:350 | PHP 8 `is_numeric` on integers: optional whitespace, an optional sign, at least one digit, optional whitespace; its rules are stated by NumericPadding |
| Text.NumericPadding | main.php:350-351 | whitespace before and after a text never changes whether `is_numeric` accepts it, and whitespace before it never changes what `intval` reads |
| Text.Contains | main.php:93 | `strpos(...) !== false`: the word occurs at some position, the empty word everywhere; StrPos states the link |
| Text.StrPosFrom | main.php:93 | the search returns the first occurrence at or after the start, or reports that none exists |
| Text.StrPos | main.php:93 | `strpos` fails exactly when the text does not contain the word, and otherwise returns its first position |
| Text.FormatTimeString | main.php:332-343 | under a minute shows the exact seconds; under an hour whole minutes (1–59); otherwise hours ≥ 1 and minutes 0–59; the shown time is never more than 59 seconds short of the input |
| Common.RemoveFirst | main.php:535-537 | `array_search`+`unset` leaves a list without the value unchanged and shortens a list holding it by one |
| Common.FirstIndex | main.php:535 | `array_search` finds the first position holding the value |
| Common.RemoveFirstCutsFirst | main.php:535-537 | the removal cuts out exactly the first occurrence and keeps the rest in order |
| Common.RemoveFirstNoDup | main.php:798-800 | removing from a duplicate-free list keeps it duplicate-free and removes exactly that value |
| Common.RemoveFirstKeepsOthers | main.php:1287-1289 | every other value survives the removal |
| Common.NoDupCount | main.php:503 | in a duplicate-free list each value occurs at most once |
| Assoc.Keys | main.php:167 | the key list of a PHP array has one key per entry, in order |
| Assoc.Get | main.php:420 | a lookup fails exactly when the key is absent |
| Assoc.GetPut | main.php:446-447 | after `$a[$k] = $v` the key holds the new value and every other key keeps its own |
| Assoc.GetRemove | main.php:473-474 | after `unset($a[$k])` the key is absent and every other key keeps its value |
| Assoc.KeysPut | main.php:446-447 | an assignment to a present key keeps the key order; a new key is appended at the end |
| Assoc.KeysRemove | main.php:473-474 | after `unset` exactly the other keys remain |
| Assoc.RemoveDistinct | main.php:473-474 | `unset` keeps the keys distinct |
| Assoc.PutHolds | main.php:446-447 | an assignment keeps keys distinct and stores the value |
| Assoc.PutDistinct | main.php:599-603 | an assignment keeps keys distinct |
| Assoc.PutPresent | main.php:446-447 | storing the value a key already holds changes nothing |
| Assoc.RemoveAbsent | main.php:473-474 | removing an absent key changes nothing |
| Assoc.PutEntries | main.php:446-447 | an assignment adds no entry other than the assigned one |
| Assoc.GetIn | main.php:420 | in an array with distinct keys a lookup returns v exactly when the pair is stored |
| Assoc.GetAppend | main.php:167-180 | appending an entry for a new key leaves the earlier lookups unchanged |
| Assoc.KeysAppend | main.php:167-180 | appending an entry appends its key |
| Assoc.AppendDistinct | main.php:167-180 | appending a new key keeps keys distinct |
| Assoc.InKeys | main.php:420 | a key is present exactly when some entry carries it |
| Flood.Recent | main.php:74-77 | the filtered history is no longer than the old one |
| Flood.RecentCount | main.php:74-77 | `array_filter` keeps every timestamp younger than the window as often as it occurred and drops every other |
| Flood.RecentInside | main.php:74-77 | every kept timestamp was stored and is inside the window |
| Flood.RecentKeepsAll | main.php:74-77 | a history entirely inside the window is kept whole |
| Flood.RecentDropsAll | main.php:74-77 | a history entirely outside the window is emptied |
| Flood.BurstLength | main.php:68-86 | n calls in the same second with a positive window leave exactly n timestamps, all equal to now, so the (max_messages+1)-th call is the first refused |
| Flood.Present | main.php:110 | `array_column` keeps at most one sender per forwarded message, and an id is kept exactly when some forwarded message has it as sender |
| Flood.CountPresent | main.php:110 | counts exactly the forwarded messages that carry a sender |
| Flood.FindLink | main.php:100-105 | the scan succeeds exactly when `https?://\S+` matches at some position |
| Flood.LinkNeedsScheme | main.php:103 | every link match begins with "http" |
| Flood.ModerationManager.constructor | main.php:63-66 | the manager starts with the configuration and an empty flood history |
| Flood.ModerationManager.CheckFloodControl | main.php:68-86 | the user's history becomes the old in-window timestamps followed by now, even when the call refuses; other users' histories are unchanged; the call allows exactly when that length is at most max_messages |
| Flood.ModerationManager.CheckBadWords | main.php:88-98 | accepts exactly when the filter is off or no configured word occurs, case-insensitively, in the message |
| Flood.ModerationManager.CheckLinks | main.php:100-105 | accepts exactly when link deletion is off or no position starts a link |
| Flood.ModerationManager.CheckMentions | main.php:107-117 | accepts exactly when the forwarded senders plus the reply author number at most max_mentions |
| Flood.EmptyBadWordBlocksAll | main.php:88-98 | an empty entry in the bad-word list rejects every message |
| Flood.NoSchemeNoLink | main.php:100-105 | a message without "http" always passes the link check |
| Flood.SchemeNeedsBody | main.php:100-105 | with link deletion on, any message without "http" still passes with a bare `http://` or `https://` at its end, and fails once a non-space character follows the scheme |
| Flood.BareSchemeNoLink | main.php:103 | no link starts anywhere in a message without "http" followed by a bare scheme, not even across the join |
| Flood.NoLinkWithoutScheme | main.php:103 | no link starts where "http" does not |
| Moderation.IsAdmin | main.php:405-407 | `isAdmin`: listed in admin_ids; AdminPassesModeratorGate and the gate lemmas state its use |
| Moderation.IsModerator | main.php:409-415 | `isModerator`: an admin or listed in moderator_ids |
| Moderation.SuperAdmins | main.php:1222 | super_admin_ids, or else the first admin alone; ExecuteRoster states that they are kept |
| Moderation.IsMuted | main.php:418-421 | `isMuted`: a mute entry lying in the future; MuteWindow, UnmuteWindow and MutedUntil state it |
| Moderation.IsKicked | main.php:423-426 | `isKicked`: a kick entry lying in the future; KickWindow states it |
| Moderation.IsBanned | main.php:428-431 | `isBanned`: on the ban list; DirectBan and DirectUnban state it |
| Moderation.Mute | main.php:444-468 | reference definition of `muteUser`, which MuteUser follows; DirectMute and MuteWindow state its effect |
| Moderation.Unmute | main.php:470-498 | reference definition of `unmuteUser`; DirectUnmute and UnmuteWindow state its effect |
| Moderation.Ban | main.php:500-530 | reference definition of `banUser`; DirectBan states its effect |
| Moderation.Unban | main.php:532-560 | reference definition of `unbanUser`; DirectUnban states its effect |
| Moderation.Kick | main.php:562-588 | reference definition of `kickUser`; DirectKick and KickWindow state its effect |
| Moderation.SetNickname | main.php:590-628 | reference definition of `setNickname`; DirectNickname states its effect |
| Moderation.Warn | main.php:630-674 | reference definition of `warnUser`; DirectWarnCounts, DirectWarnMutes and DirectWarnOutbox state its effect |
| Moderation.Unwarn | main.php:676-707 | reference definition of `unwarnUser`; DirectUnwarn states its effect |
| Moderation.Sync | main.php:709-761 | reference definition of `syncActionAcrossChats`; SyncFanOut and SyncWellFormed state its effect |
| Moderation.ReplayAll | main.php:717-760 | the replay loop over the unified chats, origin skipped; ReplayAllOutbox and the ReplayAll lemmas state its effect |
| Moderation.Apply | main.php:720-758 | the verb an action names, which each replay runs with is_sync set; ReplayedOutbox states what a replay does |
| Moderation.EnableUnified | main.php:763-787 | reference definition of `enableUnifiedMode`; EnableUnifiedSpec states its effect |
| Moderation.DisableUnified | main.php:789-811 | reference definition of `disableUnifiedMode`; DisableUnifiedSpec states its effect |
| Moderation.GetUserStats | main.php:813-830 | the stored record, or the zero record for an unknown user; StatsUpdateSpec states it |
| Moderation.UpdateStats | main.php:847-875 | reference definition of `updateUserStats`; StatsUpdateSpec states its effect |
| Moderation.Sweep | main.php:159-197 | reference definition of `checkExpiredMutes`; SweepSpec and NoticesFor state its effect |
| TableFacts.SetNickSpec | main.php:599-603 | setting a nickname changes exactly that room's entry for that user and keeps the table well formed |
| TableFacts.SetWarnSpec | main.php:642-644 | writing a warning counter changes exactly that room's entry for that user and keeps counts non-negative |
| TableFacts.ApplyWellFormed | main.php:444-707 | every verb, direct or replayed, keeps the tables well formed (mute keys distinct, ban and unified lists duplicate-free, counts non-negative) and leaves the rosters and the unified list alone |
| TableFacts.MuteWellFormed | main.php:444-468 | a mute keeps the tables well formed and the rosters unchanged |
| TableFacts.UnmuteWellFormed | main.php:470-498 | an unmute keeps the tables well formed and the rosters unchanged |
| TableFacts.BanWellFormed | main.php:500-530 | a ban keeps the ban list duplicate-free |
| TableFacts.UnbanWellFormed | main.php:532-560 | an unban keeps the ban list duplicate-free |
| TableFacts.KickWellFormed | main.php:562-588 | a kick keeps the tables well formed |
| TableFacts.NicknameWellFormed | main.php:590-628 | a nickname change keeps the nickname table well formed |
| TableFacts.WarnWellFormed | main.php:630-674 | a warning keeps counts non-negative and mute keys distinct |
| TableFacts.UnwarnWellFormed | main.php:676-707 | an unwarn never drives a count below zero |
| TableFacts.SyncWellFormed | main.php:709-761 | a whole propagation keeps the tables well formed and the rosters unchanged |
| TableFacts.ReplayAllWellFormed | main.php:717-760 | the replay loop keeps the tables well formed, turn by turn |
| TableFacts.BroadcastCount | main.php:186-191 | a broadcast sends one message per listed chat, and that notice to chat c exactly as often as c is listed |
| TableFacts.BroadcastExceptAbsent | main.php:778-782 | skipping a chat that is not listed is a plain broadcast |
| TableFacts.EnableUnifiedSpec | main.php:763-787 | an admin adds the chat only if absent, keeping the list duplicate-free; the other chats are told and the chat confirmed; a non-admin or an already-joined chat only gets an answer; nothing else changes |
| TableFacts.DisableUnifiedSpec | main.php:789-811 | an admin removes exactly that chat, keeping the others; the remaining chats are told; otherwise only an answer; nothing else changes |
| TableFacts.StatsUpdateSpec | main.php:813-875 | a message adds one to the count and sets last_message to now; join_date is set only when unset; every other user's record is unchanged; unknown users read as the zero record |
| TableFacts.UnexpiredSpec | main.php:167-180 | the sweep keeps exactly the entries expiring after now, with their values, and keys stay distinct |
| TableFacts.ExpiredUsersSpec | main.php:167-180 | the expired list holds exactly the users whose expiry is at or before now, each once |
| TableFacts.ExpiryNoticesCount | main.php:186-191 | the nested notice loops send to a chat listed once as many notices for v as v is listed |
| TableFacts.ExpiryNoticesLength | main.php:186-191 | the notice loops send exactly (expired users) × (unified chats) messages |
| TableFacts.NoticeOnce | main.php:186-191 | with both lists duplicate-free each (user, chat) pair gets exactly one notice |
| TableFacts.SweepSpec | main.php:159-197 | the sweep keeps the tables well formed, keeps exactly the unexpired mutes and changes nothing but the mutes and the outbox |
| TableFacts.NoticesFor | main.php:159-197 | the sweep announces each expired mute exactly once in each unified chat, and nothing for live mutes or other chats |
| TableFacts.SweepSends | main.php:181-194 | the sweep's messages are the expiry notices of the expired users in the unified chats |
| TableFacts.SweepLength | main.php:181-194 | the sweep sends (expired users) × (unified chats) messages, so none when the unified list is empty |
| Propagation.ReplayedOutbox | main.php:444-588 | a replayed verb never calls the propagation and sends nothing; its only outbound call is the removal a kick makes or a ban of a user not yet banned |
| Propagation.ReplayedSettled | main.php:444-560 | a replay on tables where the direct call already made its change alters only the outbox |
| Propagation.ReplayedMuteSettled | main.php:444-447 | a replayed mute that finds the same expiry stored changes nothing |
| Propagation.ReplayAllOutbox | main.php:717-760 | the replay loop makes, in list order, one sync notice per unified chat other than the origin, plus the removal of a replayed kick |
| Propagation.ReplayAllSettled | main.php:717-760 | on settled tables the loop only appends those calls |
| Propagation.SyncSettled | main.php:709-761 | a propagation on settled tables is the sync call followed by the replay calls, nothing else |
| Propagation.SettledStep | main.php:717-760 | one turn of the replay loop on settled tables only appends its own calls |
| Propagation.ReplayLogFanOut | main.php:717-718 | the replays send the sync notice to each chat as often as it is listed, and never to the origin |
| Propagation.ReplayLogRemovals | main.php:739-741 | only kicks make removals in other chats, one per listed chat other than the origin |
| Propagation.ReplayLogOnly | main.php:717-760 | the replay loop makes no call other than sync notices and kick removals in non-origin chats |
| Propagation.SyncFanOut | main.php:709-761 | with a duplicate-free unified list a propagation makes exactly one sync call and exactly one replay notice in each unified chat other than the origin |
| Propagation.ReplayAllNicknames | main.php:743-747 | replayed nicknames set the same nickname in every chat but the origin and change no other table |
| Propagation.ReplayAllWarns | main.php:749-753 | replayed warnings add one to the user's count in every chat but the origin and change no other table |
| Propagation.ReplayAllUnwarns | main.php:755-757 | replayed unwarns subtract one where the count is positive, in every chat but the origin |
| Propagation.DirectMute | main.php:444-468 | a direct mute stores now+duration, overwriting any earlier expiry, answers once and, with unified mode on, propagates once with no further table change |
| Propagation.MuteSettles | main.php:444-447 | once the expiry is stored a replayed mute finds it in place |
| Propagation.MuteWindow | main.php:418-447 | after a mute the user is muted exactly at times before now+duration; nobody else's status changes |
| Propagation.DirectUnmute | main.php:470-498 | a direct unmute of a muted user drops the entry, answers and propagates; of an unmuted user only answers |
| Propagation.UnmuteWindow | main.php:418-474 | after a direct unmute the user is muted at no time and every other mute is untouched |
| Propagation.DirectBan | main.php:500-530 | a direct ban of a user not yet banned appends them once, removes them from this chat and propagates without further removals; a ban of a banned user only answers |
| Propagation.DirectUnban | main.php:532-560 | a direct unban deletes exactly that user, keeps the others in order and propagates; otherwise only answers |
| Propagation.DirectKick | main.php:562-588 | a direct kick sets the kick to end at now+kick_duration, removes the user here and, through the replays, from every other unified chat |
| Propagation.KickWindow | main.php:562-565 | after a kick the user counts as kicked exactly before now+kick_duration; nobody else's status changes |
| Propagation.DirectNickname | main.php:590-628 | a direct nickname change by a non-admin only answers "admins only"; by an admin it sets the nickname here and, through the replays, in every other unified chat |
| Propagation.WarnHere | main.php:630-674 | a direct warning is its local part followed, with unified mode on, by its propagation |
| Propagation.SetWarnTwice | main.php:642-660 | a second write to the same counter replaces the first, so the reset to zero wins over the increment |
| Propagation.SyncWarns | main.php:709-761 | propagating a warning adds one in every unified chat but the origin and touches no other counter or table |
| Propagation.DirectWarnCounts | main.php:630-674 | a direct warning raises this chat's counter by one, or resets it to 0 when it reaches max_warnings, and raises it by one in every other unified chat; no other count changes |
| Propagation.DirectWarnMutes | main.php:648-663 | a direct warning that reaches max_warnings stores a mute of mute_duration; otherwise the mutes are unchanged; only counts, mutes and outbox change |
| Propagation.DirectWarnOutbox | main.php:630-674 | the calls of a direct warning in order: the warning notice, then, on reaching the limit, the mute notice, the mute's propagation and the auto-mute notice, then the warning's own propagation |
| Propagation.WarnLocalOutbox | main.php:648-657 | the part of a direct warning made in its own room appends the warning notice and, on reaching the limit, the mute notice, the mute's propagation and the auto-mute notice; it keeps the unified list |
| Propagation.DirectUnwarn | main.php:676-707 | a direct unwarn of a zero count only answers; otherwise it lowers this count by one and, through the replays, each positive count of the user in other unified chats |
| Propagation.WarnMutesAdmins | main.php:648-653 | a warning that reaches the limit mutes its target even when the target is an admin |
| Propagation.MutedUntil | main.php:418-421 | a mute entry set to a later time makes the user muted now |
| Router.ClosesFrom | main.php:346 | the lazy `.*?\]` part of the mention pattern closes exactly when a `]` follows before any line break |
| Router.FirstIdFrom | main.php:346-348 | the `[idN…]` match returns the digits of the leftmost token that matches, and only digits |
| Router.FindNickIn | main.php:358-362 | the nickname search in one room returns the user at the first position whose nickname folds to the key (every earlier user has another nickname), and fails exactly when none does |
| Router.FindNick | main.php:355-363 | the search over all rooms returns the first match of the first room that has one (every earlier room has none), and fails exactly when no nickname matches |
| Router.ResolveUserId | main.php:345-366 | an `[idN…]` token gives its digits; else a numeric text gives its value; else the first match of the first room holding a case-insensitively matching nickname; else nothing |
| Router.Parts | main.php:904 | the words of the message text, at least one |
| Router.Mentioned | main.php:980 | a mention is only read from a second word |
| Router.Replied | main.php:907-910 | a reply target is a truthy (non-zero) sender id |
| Router.Target | main.php:980-987 | the target of the single-target commands: the mention, else the reply author; MentionBeforeReply states the order |
| Router.MuteLength | main.php:958-959 | the mute length: the numeric word at that position, else the configured mute_duration; MutePrefersReply and MuteByMention state which word |
| Router.CommandWord | main.php:905-912 | the command the lower-cased first word names, `!` and `/` alike; Gatekeeping and RouteAuthorized state how it is routed |
| Router.RouteMute | main.php:913-971 | the mute command mutes or answers, and never mutes an admin |
| Router.RouteWarn | main.php:1052-1075 | the warn command warns or answers |
| Router.RouteNick | main.php:1096-1119 | the nick command sets a nickname or answers; NickArguments states the target and the nickname |
| Router.RouteStats | main.php:1120-1186 | the stats command only answers; StatsOfOthersModeratorsOnly states whom the card is about and who may see it |
| Router.RouteRoster | main.php:1220-1437 | addadmin and removeadmin act only for a super admin (default: the first admin); addadmin only for a non-admin target; removeadmin never removes a super admin; addmoder and removemoder act only for an admin, addmoder only for a target that is neither admin nor moderator, removemoder only for a listed moderator |
| Router.Report | main.php:1139-1176 | the stats card: nickname, join date, message count, last message, warnings out of max_warnings, the time left of a live mute and the ban status; StatsOfSelf states its count |
| Router.Route | main.php:905-1480 | the decision a message asks for; Gatekeeping, RouteAuthorized and the target lemmas state its rules |
| Router.Execute | main.php:913-1437 | carrying out a decision: a reply, a direct verb, unite or separate, or a roster edit; ExecuteVerb and ExecuteRoster state its effect |
| Router.Intake | main.php:880-902 | the greeting and statistics before routing; IntakeSpec states its effect |
| Router.Process | main.php:877-1480 | `processMessage`: intake, then the routed decision carried out; ProcessSpec states what it keeps |
| RouterFacts.IntakeSpec | main.php:880-902 | before routing, the sender's message count rises by one and last_message becomes now; an invite greets; a user invite sets the invitee's join_date to now unless one is already recorded; every other room and user keeps their stats record, and nothing else changes |
| RouterFacts.Gatekeeping | main.php:913-1210 | a moderation command from a non-moderator, and unite, separate or unified from a non-admin, only answers with a refusal and changes no table |
| RouterFacts.SuperAdminGate | main.php:1220-1264 | addadmin and removeadmin from anyone outside the super admins only answer with a refusal |
| RouterFacts.AdminGate | main.php:1336-1398 | addmoder and removemoder from a non-admin only answer with a refusal |
| RouterFacts.AdminPassesModeratorGate | main.php:405-415 | an admin counts as a moderator, so is never refused as a non-moderator |
| RouterFacts.RouteAuthorized | main.php:913-1219 | every verb decision comes from a moderator, every unite or separate from an admin, and no mute decision targets an admin |
| RouterFacts.RouteRosterAuthorized | main.php:1220-1437 | every roster edit decided by the router is authorised as the roster commands require |
| RouterFacts.MutePrefersReply | main.php:930-959 | a mute that replies to a non-admin targets the reply author and reads the duration from the second word |
| RouterFacts.MuteByMention | main.php:930-959 | a mute without a reply targets the mention and reads the duration from the third word |
| RouterFacts.MentionBeforeReply | main.php:980-987 | unmute, ban, unban, kick and unwarn take the mention first, then the reply author, and otherwise answer with the usage |
| RouterFacts.WarnReason | main.php:1062-1072 | the warning reason is the rest of the text after the target word, or after the command when the target is the reply author |
| RouterFacts.NickArguments | main.php:1103-1117 | nick takes a mention only with three or more words and then every word after it as the nickname; else a reply author with two or more words and every word after the command; else the usage line |
| RouterFacts.NickNeedsName | main.php:1105-1117 | with exactly two words, nick never renames the mention: it renames the reply author to the second word, or answers |
| RouterFacts.StatsTarget | main.php:1122-1133 | whom stats is about: the mention, else the reply author, else the sender |
| RouterFacts.StatsOfOthersModeratorsOnly | main.php:1122-1137 | stats about anyone other than the sender, asked by a non-moderator, is refused; otherwise the card of the target is sent; so a card about someone else only ever reaches a moderator |
| RouterFacts.ResolveFirstNick | main.php:355-363 | a nickname argument resolves to a user whose nickname matches, such that every user before it in its room and every user of every earlier room carries another nickname |
| RouterFacts.SplitAtSpace | main.php:904 | explode splits at the first space into the first word and the explode of the rest |
| RouterFacts.TailAfterSpace | main.php:1072 | rejoining the words after the first keeps the rest of the text as written |
| RouterFacts.TailWhole | main.php:1072 | rejoining all words gives the whole text |
| RouterFacts.ExecuteVerb | main.php:913-1119 | carrying out a verb decision keeps the tables well formed and leaves the rosters alone |
| RouterFacts.ExecuteRoster | main.php:1242-1418 | a roster edit appends the id to, or removes its first occurrence from, exactly the roster it names, leaves the other roster alone and sends the matching confirmation; it keeps the super admins, never drops a listed super admin and keeps both rosters duplicate-free |
| RouterFacts.RouteUnifiedOnlyByCommand | main.php:1187-1203 | the unified list is only ever changed by the unite and separate commands |
| RouterFacts.ProcessSpec | main.php:877-1480 | handling any message keeps the tables well formed, the super admins and every listed super admin, duplicate-free rosters, and the unified list unless the command is unite or separate |
| RouterFacts.StatsOfSelf | main.php:1120-1186 | stats without a target reports the sender, including the message being handled |
| Bot.DeliverWellFormed | main.php:233-239 | handling a batch of updates keeps the tables well formed |
| Bot.DeliverSkips | main.php:235 | a batch without `message_new` updates changes nothing |
| Bot.SweepDue | main.php:205 | the loop sweeps when at least ten seconds have passed since the last sweep; RunIteration states its use |
| Bot.NextSession | main.php:218-231 | the session after a response: renewed on `failed`, the cursor moved when `ts` is present, unchanged on a transport failure; RunIteration states its use |
| Bot.ChatBot.constructor | main.php:127-132 | the bot starts with the given configuration, tables and long-poll session, and last_check_time 0 |
| Bot.ChatBot.MuteUser | main.php:444-468 | the fields after the method are the mute function of the fields before |
| Bot.ChatBot.UnmuteUser | main.php:470-498 | the fields after the method are the unmute function of the fields before |
| Bot.ChatBot.BanUser | main.php:500-530 | the fields after the method are the ban function of the fields before |
| Bot.ChatBot.UnbanUser | main.php:532-560 | the fields after the method are the unban function of the fields before |
| Bot.ChatBot.KickUser | main.php:562-588 | the fields after the method are the kick function of the fields before |
| Bot.ChatBot.SetNicknameOf | main.php:590-628 | the fields after the method are the nickname function of the fields before |
| Bot.ChatBot.WarnUser | main.php:630-674 | the fields after the method are the warning function of the fields before |
| Bot.ChatBot.UnwarnUser | main.php:676-707 | the fields after the method are the unwarn function of the fields before |
| Bot.ChatBot.Replay | main.php:720-758 | one replay in a chat is the verb with `is_sync` set |
| Bot.ChatBot.SyncActionAcrossChats | main.php:709-761 | the loop over the unified chats leaves the fields equal to the propagation function, whose fan-out is stated by SyncFanOut |
| Bot.ChatBot.NotifyRooms | main.php:778-806 | the notice loop sends the notice to each listed chat, in order, skipping the named chat |
| Bot.ChatBot.EnableUnifiedMode | main.php:763-787 | the fields after the method are the unite function of the fields before |
| Bot.ChatBot.DisableUnifiedMode | main.php:789-811 | the fields after the method are the separate function of the fields before |
| Bot.ChatBot.ScanMutes | main.php:167-180 | the `foreach`/`unset` loop yields exactly the unexpired entries and the expired users, in order |
| Bot.ChatBot.AnnounceExpired | main.php:185-192 | the nested loops send the expiry notice of each user to each unified chat |
| Bot.ChatBot.CheckExpiredMutes | main.php:159-197 | the fields after the sweep are the sweep function of the fields before |
| Bot.ChatBot.UpdateUserStats | main.php:847-875 | the stats after the method are the stats update of the stats before |
| Bot.ChatBot.Admit | main.php:880-902 | greeting and statistics before routing follow the intake function |
| Bot.ChatBot.Perform | main.php:913-1437 | carrying out a routing decision follows the decision function |
| Bot.ChatBot.PerformVerb | main.php:913-1119 | carrying out a verb decision follows the decision function |
| Bot.ChatBot.ProcessMessage | main.php:877-1480 | the fields after handling a message are the message function of the fields before |
| Bot.ChatBot.HandleUpdate | main.php:235-237 | a `message_new` update is processed; any other update changes nothing |
| Bot.ChatBot.HandleUpdates | main.php:233-239 | the update loop processes the batch in order |
| Bot.ChatBot.RunIteration | main.php:202-244 | one turn of the loop sweeps when ten seconds have passed since the last sweep and records the time; it renews the session on `failed`, moves the cursor only when `ts` is present and leaves it unchanged on a transport failure; it processes the updates only of a successful response |
| Bot.RunKeepsWellFormed | main.php:202-244 | a turn of the loop keeps the tables well formed |

## Left out

- HTTP transport and the platform calls (`sendRequest`, `sendMessage`, `deleteMessage`, `removeUserFromChat`, `getChatInfo`, `getUserInfo`, `getUserMention`): they are remote calls. Messages, removals and sync calls are appended to the `outbox` field, tagged by kind.
- The `chat_id = peer_id - 2000000000` conversion in `removeUserFromChat`: a removal is recorded by peer id.
- JSON file persistence and the `Logger`: file I/O. The tables are fields. A missing file reads as an empty table.
- The rewrite of `config.php` in the roster commands: regex text surgery on a file. Only the in-memory admin and moderator lists are updated.
- `initLongPoll` and its retry with `sleep(5)`: blocking network I/O. A renewed session is a parameter of `RunIteration`.
- The endless `while (true)` loop, its exception handling and sleeps: it does not terminate and handles no data. One turn is modelled as `RunIteration`.
- `time()`, `date()` and `random_int`: the clock is a parameter, dates in the stats report are left as timestamps, and random ids are dropped.
- Message texts and the help and greeting texts: they are presentation. Notices carry only their kind and data.
- The `!unified`, `!admins`, `!moders` and `!help` listings are answers carrying the listed ids or the help tier, not their rendered text.
- `mb_strtolower`: only ASCII and the basic Cyrillic alphabet (with Ё) are folded.
- PCRE matching: the link and mention patterns are written out as explicit scans.
- Text.IntVal: only integer strings are read. PHP's `is_numeric` and `intval` also accept decimals and exponents (`1.5`, `1e3`), which are out of scope for user ids and durations. Whitespace around the number and the 64-bit cap of `intval` are modelled.
- Moderation.Mute: an expiry is the exact sum `now + duration`. In PHP a sum beyond PHP_INT_MAX becomes a float, which the model does not represent. The end of a kick is the same.
- User ids stored as string keys in the JSON tables are modelled as integers. PHP's loose `==` between an id string and a number is treated as integer equality. A numeric argument with whitespace around it (`\t42`) resolves to the id it spells, whereas PHP keys the JSON tables by the padded string.
- The content checks of `ModerationManager` are modelled, but the bot never calls them, so they affect no table of `ChatBot`.
- `outbox` is an ordinary field rather than a ghost log, because the compiled message handler has to pass the whole table value to the router. It is still only ever appended to.
