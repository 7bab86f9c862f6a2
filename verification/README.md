# A verified model of the Discord bot's decision logic

The bot is a Discord bot built on discord.py. It has five groups of features:

- a FiveM status monitor that scrapes the Cfx.re status page and keeps one status message per guild up to date;
- moderation commands;
- a ticket system;
- reaction verification;
- a welcome message.

Almost everything it does is Discord I/O. Underneath that I/O sit pure decisions and edits of `config.json`, and this project models those in Dafny:

- `config.json` becomes an immutable value: `Config.Config`, with a `top` map and an optional `servers` map of per-guild entries.
- Every Discord call becomes an oracle answer passed in as a parameter. Examples: does a channel resolve, was a message fetched, edited or sent, or did it fail with NotFound or Forbidden.

Modules:

- **`Config`**: the JSON document. Covers `str(guild_id)` keys, which are proved injective, and the three edits the commands make (set a guild key, delete a guild key, set a top-level key), each with "nothing else changes".
- **`Text`**: ASCII `lower()` and `title()`, `in`, `startswith`, `split` and `join`, with the split/join round trip.
- **`Regex`**: the one regex shape the status parser uses. The shape is a service name, a lazy gap, then the first of the status keywords. The search is proved equal to the engine's leftmost, shortest, first-alternative choice.
- **`StatusParser`**: `parse_status_content`. It reports 13 services plus the overall banner; a service is classified from the matched span by case-sensitive tests.
- **`Monitor`**: the multi-guild monitor in `fivem_status.py`. Covers the persisted monitor record, startup hydration, the reconciliation tick (a fold over the registry with per-guild outcomes) and the three commands.
- **`LegacyMonitor`**: the older single-guild monitor in `cogs/fivem_status.py`, which repairs less.
- **`Members`**: discord.py's role order, plus the list edits the commands use (append if absent, remove first).
- **`Moderation`**: the permission check, the ban and timeout guard order, the range checks, `clear_messages`, the moderator-role settings and the counters of the mass role assignment.
- **`Helpers`**: `utils/helpers.py`. Covers ticket names and their parsing, the staff-role and ticket-management predicates, and `validate_permissions`.
- **`Tickets`**: opening and closing tickets in both cogs, and the ticket settings. The settings are staff roles with the mention-role reassignment, the transcript channel and the ticket category.
- **`Verification`**: the reaction guard chain and role changes, for both variants (per-guild and global settings), and the two setters.
- **`Welcome`**: the greeting channel and the two welcome commands, including the `save_config` result.

## Model

| member | source | states |
|---|---|---|
| Config.KeyInjective | fivem_status.py:39-44 | Two guild ids with the same `str()` key are the same guild, so one guild's entry in `servers` never aliases another's |
| Config.SetGuildKey | fivem_status.py:37-44 | Writing one key of a guild's entry creates `servers` and the entry when missing, sets that key, keeps every other key of the entry, and leaves the other guilds and the top level untouched |
| Config.DeleteGuildKey | cogs/welcome.py:168-170 | Deleting a key from an existing entry removes exactly that key and leaves every other key and every other guild as they were |
| Config.SetTop | cogs/verification.py:263-266 | Writing a top-level key changes that key only and leaves `servers` alone |
| Config.SetThenDeleteKey | cogs/welcome.py:146-178 | Setting a key and then deleting it leaves the guild's entry as before, minus that key |
| Text.Lower | fivem_status.py:220-221 | Case-insensitive matching folds to lower case: the result has no capital letter, equals the input up to case at every position, lowers exactly the capitals, and leaves a string without capitals unchanged |
| Text.LowerIdempotent | fivem_status.py:220-221 | Folding an already folded string changes nothing |
| Text.TitleFrom | utils/helpers.py:106 | `str.title()` position by position: a letter after a letter is lowered, any other letter is raised, and non-letters are kept |
| Text.Title | utils/helpers.py:106 | Each word starts with a non-lower-case character, the rest of each word has no upper-case letter, the result has the same letters in the same places, equal to the input up to case, and every non-letter is kept |
| Text.TitleIdempotent | utils/helpers.py:106 | Title-casing a title-cased string changes nothing |
| Text.Replace | utils/helpers.py:106 | `replace('_', ' ')` for one character: every `_` becomes a space, every other character stays where it was, no `_` is left, and a name without `_` comes back unchanged |
| Text.ReplaceBack | utils/helpers.py:106 | Replacing by a character the name did not hold is undone by replacing back |
| Text.SplitFree | utils/helpers.py:115 | A string without the separator splits into itself |
| Text.SplitAround | utils/helpers.py:115 | Splitting around one separator splits each side independently |
| Text.JoinSplit | utils/helpers.py:115-118 | `sep.join(s.split(sep)) == s` for every string |
| Text.SplitPiecesFree | utils/helpers.py:115 | No piece of a split contains the separator |
| Regex.Compile | fivem_status.py:220-221 | A service pattern compiles to a sequence of positions no longer than its source, and a non-empty source gives a non-empty pattern; what each position accepts is stated by `Regex.SampleMatches` |
| Regex.SampleMatches | fivem_status.py:220-221 | The compiled pattern accepts its own sample text at every position, as written and lower-cased |
| Regex.MatchesSample | fivem_status.py:220-221 | A service pattern matches the service's own name |
| Regex.MatchesLowerSample | fivem_status.py:220-221 | With IGNORECASE, the pattern matches the lower-cased name too |
| Regex.MatchesAtStart | fivem_status.py:220-221 | A pattern that matches a name matches at the start of any text beginning with that name |
| Regex.FirstAlt | fivem_status.py:220-221 | The alternation takes the first keyword, in the listed order, that matches (ignoring case) at the position; when it finds none, none matches there |
| Regex.AltAtIs | fivem_status.py:220-221 | If keyword `r` matches at a position and no earlier keyword does, the alternation picks `r` |
| Regex.NoAltAt | fivem_status.py:220-221 | Where no keyword's first letter fits, the alternation fails |
| Regex.FindPattern | fivem_status.py:220-221 | Returns the leftmost position where the service pattern matches, and none exactly when it matches nowhere |
| Regex.FindAlt | fivem_status.py:220-221 | Returns a position where some keyword matches, and none exactly when no keyword matches from that point on |
| Regex.FindAltIsFirst | fivem_status.py:220-221 | No keyword matches before the position `FindAlt` returns, which is the lazy `.*?` |
| Regex.Search | fivem_status.py:220-221 | A result of `re.search` is a real match: the service pattern, then a gap, then a keyword |
| Regex.SearchIsRegexSearch | fivem_status.py:220-221 | The search fails exactly when no match exists, and otherwise returns the engine's preferred one (leftmost start, then shortest gap, then earliest keyword) |
| Regex.LaterMatch | fivem_status.py:220-221 | Every match starts no earlier than the leftmost service occurrence, and its keyword is no earlier than the one the alternation picks at its position |
| Regex.MatchedText | fivem_status.py:223 | `match.group(0)` spans from the service name to the end of the keyword |
| StatusParser.EveryServiceListed | fivem_status.py:201-215 | Every one of the 13 services is in the table the parser iterates |
| StatusParser.PatternSource | fivem_status.py:201-215 | Every service has a non-empty search name |
| StatusParser.KeywordOfRank | fivem_status.py:221 | Each position of the keyword alternation names exactly one status keyword |
| StatusParser.RankInjective | fivem_status.py:221 | Different keywords sit at different positions of the alternation |
| StatusParser.KeywordsStartUpper | fivem_status.py:221 | Every keyword begins with an upper-case letter |
| StatusParser.KeywordsNotNested | fivem_status.py:225-236 | No later keyword contains an earlier one, so the classification order cannot hide a keyword behind a longer one |
| StatusParser.KeywordInitials | fivem_status.py:221 | Keywords of equal or growing length start with different letters, even ignoring case |
| StatusParser.KeywordsSeparated | fivem_status.py:221 | The keyword list is separated: no keyword can match where another begins |
| StatusParser.FirstContained | fivem_status.py:225-236 | The `if`/`elif` chain returns the first keyword, in order, that is a substring of the span, and none when no keyword is |
| StatusParser.Classify | fivem_status.py:225-238 | A matched span is classified as the first keyword it contains (case-sensitive), and as "unknown" exactly when it contains none |
| StatusParser.UnavailableIffNoMatch | fivem_status.py:218-238 | A service is "No disponible" exactly when the regex finds no match in the page |
| StatusParser.FirstContainedAtMost | fivem_status.py:225-236 | A keyword in the span is never passed over: the chain stops at it or earlier |
| StatusParser.NoUpperContainsNone | fivem_status.py:225-236 | A span with no upper-case letter contains no keyword |
| StatusParser.MatchedTextHoldsWord | fivem_status.py:223-236 | When the keyword matched in its exact case, the span contains it |
| StatusParser.ExactCaseNeverUnknown | fivem_status.py:223-236 | If the matched keyword is in its exact case, the status is reported, with that keyword or an earlier one |
| StatusParser.NoUpperNeverReported | fivem_status.py:220-236 | On a page without upper-case letters a service is never reported, only unknown or unavailable, because the classification is case-sensitive |
| StatusParser.EarlierWordAbsent | fivem_status.py:221 | Where a keyword sits, no earlier keyword of the alternation matches |
| StatusParser.FindsWordAfterName | fivem_status.py:220-221 | For "name keyword", the search finds the name at the start and that keyword right after the space |
| StatusParser.FirstContainedAfterLowerName | fivem_status.py:225-236 | For a lower-case name followed by a keyword, the classification picks that keyword |
| StatusParser.KeywordRecovered | fivem_status.py:218-238 | For every service and every keyword, a page "service keyword" reports that keyword for that service |
| StatusParser.FirstWordAfterName | fivem_status.py:220-236 | The first keyword after a name is found and classified, whatever follows it |
| StatusParser.StatusForIs | fivem_status.py:223-238 | The status of a service is the keyword the chain picks in the matched span |
| StatusParser.OperationalRecovered | fivem_status.py:218-238 | "name Operational", followed by anything, reports Operational |
| StatusParser.ShortTextUnavailable | fivem_status.py:218-238 | A page shorter than a service's name reports it as unavailable |
| StatusParser.OverallOf | fivem_status.py:241-248 | The overall banner is decided first-match-wins: "All Systems Operational", then "Some Systems Experiencing Issues", then "Major Service Outage", otherwise unknown; each outcome is stated as an if-and-only-if |
| StatusParser.NoUpperOverallUnknown | fivem_status.py:241-248 | A page without upper-case letters has an unknown overall status |
| StatusParser.Parse | fivem_status.py:196-250 | The result always holds all 13 services and the overall status |
| StatusParser.ParseEmptyPage | fivem_status.py:196-250 | An empty page reports every service unavailable and the overall status unknown |
| StatusParser.ParseLowercasePage | fivem_status.py:196-250 | A lower-case page never reports a service status and has an unknown overall status |
| StatusParser.ParseFiveMOperational | fivem_status.py:196-250 | "FiveM Operational…" reports FiveM operational, and all-operational when the banner is present |
| StatusParser.ParseLookup | cogs/fivem_status.py:98-152 | Each service's entry is that service's own search result; the copy in the single-guild cog is the same function |
| Monitor.SaveMonitor | fivem_status.py:35-56 | After saving, reading the monitor gives back the two ids with `active` set; the entry gains only the three monitor keys, and nothing outside the guild changes |
| Monitor.DisableMonitor | fivem_status.py:77-97 | After disabling, reading gives nothing: `active` is false, the message id is removed, the channel id and other keys are kept, and an unknown guild leaves the document unchanged |
| Monitor.DisableIdempotent | fivem_status.py:77-97 | Disabling twice is the same as disabling once |
| Monitor.SaveLocal | fivem_status.py:35-56 | The saved entry depends only on the guild's previous entry |
| Monitor.DisableLocal | fivem_status.py:77-97 | The disabled entry depends only on the guild's previous entry |
| Monitor.HydrateGuild | fivem_status.py:126-164 | Startup for one guild: an inactive record or a falsy channel id is skipped; an unresolved channel disables the record; a fetched message registers both ids; a missing message registers and persists a null id; no message id registers a null id; a failing lookup changes nothing; other guilds are untouched |
| Monitor.HydrateGuildLocal | fivem_status.py:126-164 | One guild's hydration depends only on that guild's registry entry and config entry |
| Monitor.Hydrate | fivem_status.py:115-176 | The startup loop touches only the guilds the bot is in |
| Monitor.HydrateIsPerGuild | fivem_status.py:115-176 | Each guild ends up as if it had been hydrated alone |
| Monitor.CallsFor | fivem_status.py:337-393 | A guild's share of the Discord calls is exactly the calls about that guild |
| Monitor.CallsForConcat | fivem_status.py:337-393 | Splitting a call log splits each guild's share the same way |
| Monitor.Step | fivem_status.py:337-393 | One guild in the tick: an unresolved channel drops and disables it with no call; a successful edit changes nothing; NotFound, Forbidden on edit, or no message id send exactly once, and a sent message's id is stored in the registry and on disk; Forbidden on the first send drops and disables; a failed resend changes nothing |
| Monitor.StepLocal | fivem_status.py:337-393 | One guild's step depends only on that guild's own state |
| Monitor.Visit | fivem_status.py:337-393 | The loop over the registry snapshot touches and contacts only the guilds in the snapshot |
| Monitor.VisitIsPerGuild | fivem_status.py:337-393 | Each guild ends the loop as its own step leaves it, whatever happened to the others, because per-guild errors are caught |
| Monitor.VisitCallsPerGuild | fivem_status.py:337-393 | Each guild receives exactly the calls its own step makes |
| Monitor.CallsForNone | fivem_status.py:337-393 | A guild no call mentions has no share of the log |
| Monitor.CallsForAll | fivem_status.py:337-393 | A log that is all about one guild is entirely that guild's share |
| Monitor.Tick | fivem_status.py:320-397 | An empty registry or an empty fetch makes the tick do nothing; otherwise the last status is the parsed page and guilds outside the registry are untouched |
| Monitor.TickIsPerGuild | fivem_status.py:320-397 | Over a whole tick each registered guild's state and calls are those of its own step |
| Monitor.SetupCommand | fivem_status.py:432-502 | Setup succeeds exactly for an administrator when the page was fetched and the message was sent; it then registers and persists both ids, records the status, and changes nothing for other guilds; otherwise nothing changes |
| Monitor.DisableCommand | fivem_status.py:504-559 | Disable succeeds exactly for an administrator of a monitored guild, and then drops the guild from the registry and disables its record; otherwise nothing changes |
| Monitor.ForceUpdateCommand | fivem_status.py:561-605 | A forced update runs exactly when the caller can manage the guild and it is monitored, and then has the tick's effect |
| Monitor.SetupSurvivesRestart | fivem_status.py:115-176 | After a setup, a restart whose message fetch succeeds registers the same monitor again |
| Monitor.DisableSurvivesRestart | fivem_status.py:115-176 | After a disable, a restart registers nothing for the guild, whatever Discord answers |
| LegacyMonitor.Startup | cogs/fivem_status.py:43-78 | Startup reads the first guild's ids; with both set, an unresolved channel clears both, a missing message clears only the message id, and otherwise both are kept; the config is never written |
| LegacyMonitor.Tick | cogs/fivem_status.py:222-261 | The tick does nothing unless both ids are set and the fetch is non-empty; an unresolved channel keeps both ids; only a missing message followed by a successful send replaces the message id, in memory only |
| LegacyMonitor.SetupCommand | cogs/fivem_status.py:297-369 | Setup succeeds exactly for an administrator with a fetched page and a sent message, and then writes both ids (creating the maps) without touching `active` or other guilds |
| LegacyMonitor.DisableCommand | cogs/fivem_status.py:371-432 | Disable succeeds exactly for an administrator when both ids are set; it clears the in-memory state and deletes both config keys, keeping every other key |
| LegacyMonitor.ForceUpdateCommand | cogs/fivem_status.py:434-477 | A forced update runs exactly when the caller can manage the guild and both ids are set, and then has the tick's effect |
| LegacyMonitor.SetupSurvivesRestart | cogs/fivem_status.py:43-78 | After setup, a restart picks up the configured channel and message |
| LegacyMonitor.RepairLostOnRestart | cogs/fivem_status.py:250-256 | A message the tick re-sent is not persisted: after a restart the old id is cleared and the tick stays idle |
| Members.RoleOrderTotal | moderation.py:215-229 | discord.py's role order (position, then id) is total: of two different roles exactly one ranks lower |
| Members.AddIfAbsent | moderation.py:565-570 | Appending only when absent: an absent id goes at the end of the list after every existing entry, an id already listed leaves the list as it is, and no duplicate is introduced |
| Members.IndexOf | tickets.py:488 | Finds the first occurrence of an id |
| Members.RemoveFirst | moderation.py:618-622 | `list.remove` drops the first occurrence of the id: the elements before it, which do not include the id, and the elements after it stay in order, and the multiset loses exactly one copy of the id |
| Members.RemoveFirstNoDuplicates | moderation.py:618-622 | On a list without duplicates, removing an id leaves exactly the other ids, still without duplicates |
| Members.AddThenRemove | moderation.py:559-624 | Adding an absent id and then removing it gives back the original list |
| Moderation.AnyHeld | moderation.py:49-54 | The loop over the configured roles answers true exactly when the member holds one of them |
| Moderation.HasModerationPermission | moderation.py:33-56 | True exactly when the member holds administrator, ban_members, manage_messages or moderate_members, or one of the configured moderation roles; it raises only when no flag is held and the stored value cannot be iterated |
| Moderation.TargetGuard | moderation.py:195-229 | The guards run in order: permission, target is self, target is the owner, target ranks at or above the invoker (unless the invoker is the owner), target ranks at or above the bot; each outcome is stated as an if-and-only-if |
| Moderation.DeleteDays | moderation.py:232-233 | Message-deletion days outside 0..7 become 1, and days inside the range are kept |
| Moderation.BanDecision | moderation.py:175-300 | A ban proceeds exactly when the guards pass, with deletion days in 0..7 |
| Moderation.TimeoutDecision | moderation.py:340-384 | A timeout proceeds exactly when the guards pass and the duration is in 1..40320 minutes; a bad duration is reported only after the guards pass |
| Moderation.SelfCheckedBeforeRanks | moderation.py:195-229 | Acting on oneself is refused as "self", before any rank comparison |
| Moderation.PurgeFrom | moderation.py:114-119 | Scanning a stretch of the history deletes exactly the messages there that the check accepts, newest first, each once |
| Moderation.Purge | moderation.py:114-119 | `purge(limit, check)` deletes exactly the messages among the `limit` newest that the check accepts, in history order; without a filter that is all of them |
| Moderation.ClearMessages | moderation.py:67-168 | Each outcome is an iff in source order: a raising permission check fails the command, a member without permission is refused, then a count outside 1..100, then a bot that cannot manage messages, and otherwise the command runs; as written, a filtered clear deletes every match among the `2n` newest messages, an unfiltered one the `n` newest, and it reports `min(deleted, n)` |
| Moderation.FilteredClearDeletesMoreThanAsked | moderation.py:114-117 | Asking to clear 1 message by a user whose two newest messages are the channel's deletes both and reports 1 |
| Moderation.PurgeAtMost | moderation.py:114-117 | A purge that stops after `n` deletions deletes the first `n` of what the unbounded purge deletes |
| Moderation.ClearMessagesBounded | moderation.py:87-119 | The corrected clear runs and refuses exactly as written, deletes only matches, deletes exactly what it reports, never more than requested, and its deletions are the newest ones of the code as written, with the same report |
| Moderation.BoundedClearDeletesNewest | moderation.py:114-117 | A match among the inspected messages that the corrected clear keeps is older than every deleted one, and is kept only when `n` were deleted |
| Moderation.PutModRoles | moderation.py:559-570 | Storing the moderation role list sets that list and keeps every other key and guild |
| Moderation.PutModRolesRestores | moderation.py:559-624 | Storing a list and then the previous list gives back the original document |
| Moderation.SetModeratorRole | moderation.py:550-598 | Adding a moderation role to a list or a missing key always succeeds when the role is absent, appending it and creating the maps; a role already listed changes nothing; other keys and guilds are kept; a stored value that is not a list fails |
| Moderation.RemoveModeratorRole | moderation.py:600-650 | Each reply is an iff: no list configured, a stored value that is not a list (the membership test raises, so the command fails), a listed role removed, an unlisted role reported as not there; on removal the new list is the old one without its first occurrence of the role, the others kept in their order, and every other key and guild is unchanged |
| Moderation.SetGrantsPermission | moderation.py:33-56 | A member who holds a role that was added as a moderator role has moderation permission |
| Moderation.SetThenRemoveRestores | moderation.py:550-650 | Adding a role that was not listed and then removing it gives back the original document |
| Moderation.RemoveRevokes | moderation.py:600-650 | A member without moderation flags whose only listed role was removed loses moderation permission |
| Moderation.Lacking | moderation.py:781 | The members to process are exactly those without the role |
| Moderation.LackingCount | moderation.py:781 | A member without the role is kept as many times as the member list holds them, and a member with it never |
| Moderation.LackingConcat | moderation.py:781 | The filter keeps the member list's order: a concatenation is filtered piece by piece |
| Moderation.SuccessesSnoc | moderation.py:803-822 | The success count grows by one for each member whose role addition succeeds |
| Moderation.AddToEach | moderation.py:803-822 | Successes plus failures equal the number of members processed; progress is reported at every tenth member and at the last, in increasing order |
| Moderation.AssignRoleToAll | moderation.py:717-890 | The assignment runs exactly for an administrator when the bot can manage the role, the role ranks below the bot and below the invoker (unless the invoker is the owner), the role is not @everyone, and someone lacks it; the counters add up and the verdict matches them |
| Helpers.TicketName | tickets.py:97-98 | A ticket's name starts with `ticket-` and contains the creator's `-name-discriminator` tag |
| Helpers.ParseHandle | tickets.py:197-201 | The name parses exactly when it has at least three dash-separated parts |
| Helpers.TicketUser | utils/helpers.py:110-120 | A user is found exactly for a `ticket-` name with at least three dash-separated parts, and the name is then `ticket-`, that user, a dash and a dash-free last part |
| Helpers.ParseHandleRoundTrip | tickets.py:197-201 | `ticket-<u>-<d>` with a dash-free discriminator parses back to `u` and `d`, dashes in `u` included |
| Helpers.TicketUserRoundTrip | utils/helpers.py:115-118 | For `ticket-<u>-<d>` with `d` dash-free, the user read back is `u` |
| Helpers.ParseHandleSound | cogs/tickets.py:190-198 | Conversely, every ticket name that parses is `ticket-` + username + `-` + discriminator, and the discriminator has no dash |
| Helpers.TicketNameParses | tickets.py:97-98 | The name built for a member parses back to that member's lower-cased name and discriminator |
| Helpers.AnyRoleIn | utils/helpers.py:30-36 | Looping over the member's roles finds one listed exactly when a listed role is held; it raises when the member has roles and the stored value is not a list |
| Helpers.HasStaffRole | utils/helpers.py:30-36 | Staff exactly when a held role is listed under `staff_role_ids`; false when the key is missing |
| Helpers.CanManageTickets | utils/helpers.py:38-52 | Allowed exactly when the channel name carries the member's creator tag, or the member is staff, or has manage_channels; the creator check comes first |
| Helpers.CreatorManagesOwnTicket | utils/helpers.py:38-52 | Whoever opened a ticket may manage its channel |
| Helpers.Missing | utils/helpers.py:99-108 | The missing permissions are exactly the required ones not held |
| Helpers.MissingConcat | utils/helpers.py:99-108 | The missing list of a concatenation is the concatenation of the missing lists, so input order is kept |
| Helpers.Display | utils/helpers.py:106 | A permission shown to the user has the same length, with spaces exactly where the name had underscores or spaces |
| Helpers.DisplayTitles | utils/helpers.py:106 | The shown name agrees with the permission up to case except where `_` became a space, keeps letters and other characters in place, and title-cases each word: a capital first, lower case after a letter |
| Helpers.ValidatePermissions | utils/helpers.py:99-108 | Returns the missing permissions in input order, each displayed with `_` replaced and title-cased; empty exactly when every required permission is held |
| Tickets.IterIds | tickets.py:89-95 | Iterating the staff list: a missing key is empty, a list yields its ids, a string yields no role id, and any other value raises |
| Tickets.Resolving | tickets.py:89-95 | The staff roles given access are exactly the listed ids that resolve |
| Tickets.ResolvingCount | tickets.py:89-95 | An id that resolves is given access as often as it is listed, and no other id is |
| Tickets.ResolvingConcat | tickets.py:89-95 | Resolving keeps the stored order: a concatenation resolves piece by piece |
| Tickets.StoredChannel | tickets.py:71-75 | A stored channel is used exactly when it is a nonzero integer that resolves |
| Tickets.Mentions | cogs/tickets.py:118-122 | The multi-role cog mentions every staff role with access; the single-mention cog mentions at most the configured mention role, and only when it resolves |
| Tickets.OpenTicket | tickets.py:52-142 | Refused exactly when a channel with the ticket's name exists; a non-empty list stored as the category makes the lookup raise, so the request fails before any channel is created; opened exactly when the category lookup does not raise, the staff list can be read and the channel was created; the ticket has the member's name, the stored category, access for the resolving staff roles and the variant's mentions |
| Tickets.SecondOpenRefused | tickets.py:57-66 | Once a ticket is open, a second attempt by the same member is refused in either cog |
| Tickets.FindCreator | tickets.py:197-205 | The creator found is the first member, in guild order, whose lower-cased name and discriminator are the parsed ones; when none is found, no member has them |
| Tickets.CloseTicket | tickets.py:154-262 | Not a ticket exactly when the name lacks the prefix; closing proceeds exactly for the creator, staff, or a holder of manage_channels; it raises when the staff list cannot be read; the transcript goes to the stored channel only when the creator was found |
| Tickets.StaffListed | tickets.py:164-187 | The close button's staff check agrees with the helper's staff predicate |
| Tickets.CloseAgreesWithCanManage | cogs/tickets.py:157-180 | On a readable staff list, the close check allows exactly whom `can_manage_tickets` allows |
| Tickets.CreatorClosesOwnTicket | cogs/tickets.py:147-215 | The member who opened a ticket can close it, and is found as its creator |
| Tickets.FoundCreatorOwnsChannel | tickets.py:197-205 | A creator found for a ticket channel is the member whose ticket name is that channel's name |
| Tickets.SetStaffRole | tickets.py:397-455 | Adding a staff role appends it when absent and makes it the mention role, keeping every other key and guild; a stored value that is not a list fails |
| Tickets.ReassignMention | tickets.py:491-495 | Every setting but the mention role is kept, and so is a mention role other than the removed one; when the removed role was the mention role, the first remaining staff role replaces it, and with none left the mention is deleted |
| Tickets.RemoveStaffRole | tickets.py:459-528 | Each reply is an iff: no staff list, a stored value that is not a list (failure), a role that is not listed, and success exactly for a listed role; on success it removes the first occurrence, reassigns the mention, keeps the mention among the staff roles, and leaves other guilds alone |
| Tickets.SetThenRemoveStaff | tickets.py:397-528 | Adding an unlisted staff role and removing it gives back the staff list, moves the mention to the first remaining role (or drops it), and keeps every other key |
| Tickets.ReassignAfterSet | tickets.py:412-495 | The mention reassignment after an add and a remove leaves the first original staff role mentioned |
| Tickets.SetStaffRoleGrants | cogs/tickets.py:118-122 | After a role is made staff, its holders are staff and a new ticket in the single-mention cog mentions exactly that role, unless a stored category list makes the request fail |
| Tickets.SetTranscriptChannel | tickets.py:604-653 | Setting the transcript channel writes that key only |
| Tickets.RemoveTranscriptChannel | tickets.py:657-680 | Removing errors when no transcript channel is set, and otherwise deletes only that key |
| Tickets.SetThenRemoveTranscript | tickets.py:604-680 | Setting and then removing the transcript channel leaves the entry as before, without the key |
| Tickets.TranscriptFollowsSetting | tickets.py:213-222 | After the transcript channel is set, closed tickets are archived there; after it is removed, none are |
| Tickets.SetTicketCategory | cogs/tickets.py:322-345 | Setting the ticket category writes that key only, creating the maps |
| Tickets.CategoryUsedOnOpen | cogs/tickets.py:73-76 | A ticket opened after the category is set is created in that category |
| Verification.Settings | verification.py:10-17 | The per-guild variant reads `servers[str(guild)]` and stops on a missing or empty entry; the global variant reads the top level |
| Verification.Checks | verification.py:25-62 | The handlers act exactly when every guard passes: not the bot's own reaction, settings present, the guild, member and channel found, the message is the bot's, its first embed's title contains "verification" in any case, the emoji is the configured one or the default, and the role resolves; the role is reported missing only when the stored value is not a list, since a list makes `get_role` raise |
| Verification.ReactionAdd | verification.py:24-82 | The role is granted exactly when the guards pass and the member lacks it; adding never revokes |
| Verification.ReactionRemove | verification.py:85-135 | The role is revoked exactly when the guards pass and the member holds it; removing never grants |
| Verification.RolesAfter | verification.py:64-68 | A successful grant adds the role and keeps the others; a successful revoke removes exactly that role; anything else leaves the roles alone |
| Verification.AddIdempotent | cogs/verification.py:66-71 | Reacting again after the role was granted does nothing |
| Verification.RemoveIdempotent | cogs/verification.py:145-150 | Removing the reaction again after the role was revoked does nothing |
| Verification.AddThenRemoveRestores | verification.py:59-129 | Reacting and then withdrawing the reaction leaves the member with the roles held before |
| Verification.GlobalDefaultRejectsCheckMark | cogs/verification.py:56 | With no emoji configured, the global variant as written ignores a ✅ reaction and accepts only the three-character mis-decoded string |
| Verification.IntendedDefault | cogs/verification.py:56 | The intended default is the per-guild variant's ✅ |
| Verification.IntendedDefaultAccepts | cogs/verification.py:135 | With the intended default and no emoji configured, a ✅ reaction passes the emoji check in both variants |
| Verification.Store | cogs/verification.py:263-266 | A setting is written where the variant reads it (top level or guild entry), and the handlers read back exactly that value |
| Verification.StoreKeepsOthers | verification.py:183-221 | Storing one setting keeps every other setting the handlers read |
| Verification.SetVerificationRole | verification.py:182-201 | A role at or above the bot's top role is refused and changes nothing; any other role is stored |
| Verification.SetVerificationEmoji | verification.py:206-228 | The emoji is stored exactly when the test reaction succeeds; an invalid emoji is reported exactly on an HTTP rejection and a failure exactly on any other error, both leaving the settings unchanged |
| Verification.ReadyGrants | verification.py:24-82 | With a role and an emoji stored, a reaction with that emoji on the verification message grants the role to a member who lacks it |
| Verification.ListedRoleFails | verification.py:25-62 | A list stored as the role makes `get_role` raise where an integer role would be granted: both handlers fail and no role changes |
| Verification.ConfiguredReactionGrants | cogs/verification.py:248-323 | Setting a role and an emoji makes the reaction handler grant that role on that emoji, in both variants |
| Welcome.Loaded | utils/helpers.py:8-18 | An unreadable or missing file reads as the empty document |
| Welcome.GreetingChannel | cogs/welcome.py:15-77 | A member is greeted exactly when the guild's entry holds a nonzero channel id that resolves, and then in that channel; with no entry there is no greeting |
| Welcome.SetWelcomeChannel | cogs/welcome.py:80-139 | Refused exactly for non-administrators; success is reported exactly when an administrator's save succeeds and a failure exactly when it does not, and it then writes the channel, keeping the other keys and guilds; otherwise the file is unchanged |
| Welcome.DisableWelcome | cogs/welcome.py:142-201 | Refused for non-administrators; "no configuration" exactly when `servers` or the guild entry is missing; otherwise it deletes only the welcome channel, and success is reported exactly when the save succeeds |
| Welcome.SetThenGreet | cogs/welcome.py:20-30 | After the welcome channel is set, new members are greeted there |
| Welcome.DisableStopsGreeting | cogs/welcome.py:20-30 | After the welcome is disabled, nobody is greeted |
| Welcome.SetThenDisable | cogs/welcome.py:80-201 | Setting and then disabling leaves the guild's entry as it was, without the welcome key |
| Welcome.UnreadableFileReplaced | cogs/welcome.py:84-103 | When the file cannot be read, a successful set writes a document holding only the welcome channel, so every other setting in the file is lost |

## Left out

- Discord and network I/O: the page fetch, sending, editing and fetching messages, `purge`, ban and timeout calls, DMs, and channel creation and deletion. Each enters only as an oracle answer.
- Reading and writing `config.json`. The document is an in-memory value, and every save is assumed to succeed. The exception is the welcome cog, where `save_config`'s result decides the reply, and where an unreadable file loads as the empty document.
- Documents whose `servers` value, or one of whose guild entries, is not a JSON object. A stored channel or role id is resolved only when it is an integer. A stored `true` or `false` resolves nothing in the model, while Python's dict lookup treats them as the ids 1 and 0. A stored list makes the lookup raise `TypeError`, because a list cannot be a dict key. The model follows that where it changes the outcome: a non-empty category list fails the ticket button, and a role list makes the verification handlers fail. Elsewhere the raise ends where the model already ends: the close button sends no transcript and still deletes the channel, the welcome handler greets nobody, and the monitor receives channel resolution as an oracle answer.
- Scheduling and concurrency: the five-minute loop, `before_loop`, start and stop, sleeps, and the race between a forced update and the scheduled tick.
- Embeds, colours, timestamps and every reply text. So are the read-only commands that only display settings: the monitor info and global-status commands, `moderation-info`, `list-staff-roles`, `transcript-info`, the welcome info and preview commands, and the `/verification` and `ticket-panel` panel commands.
- Transcript content (`create_transcript`) and the DM to the ticket creator. A failure of the messages posted into a newly created ticket channel is also left out. So is a list stored as the single-mention role, which raises only after the channel exists.
- `quitar-timeout` (`remove_timeout`); permission gates that Discord applies through `default_permissions`; the auto-deletion of the clear confirmation; `guild.owner` being unknown.
- Text.Lower: folds ASCII letters only. Python's `lower()` and the regex engine's IGNORECASE also fold other Unicode letters, such as the Kelvin sign.
- Text.Title: cases ASCII letters only, and treats only ASCII letters as cased. Python's `title()` handles every Unicode letter.
- Regex.Search: models only the single regex shape the parser uses (a service name, a lazy gap, then the keyword alternation), not general regular expressions.
- LegacyMonitor.Startup: reads only the first guild, as `bot.guilds[0]` does. A bot that is in no guild loads nothing.
- Moderation.Purge: the message history is a list of author ids, newest first, and nothing else about a message. A message is named by its position in that list.
- Moderation.AssignRoleToAll: the half-second pause after the first member and after every fifth one from there on (moderation.py:836-838), and the message edits that report progress, are not modelled. Only the positions where progress is reported are.
- Verification.Checks: the `fetch_message` answer is abstracted to the author flag and the embed titles.
- The bot bootstrap (`main.py`), `utility.py` and `cogs/utility.py` (latency and server information), and the `models.py` schema are not part of this model.

## Findings

| source | as written | input that shows it | evidently intended | confidence | as-written member | corrected member |
|---|---|---|---|---|---|---|
| moderation.py:114-117 | With a user filter, `purge(limit=cantidad * 2, check=check)` deletes every matching message among the `2 * cantidad` inspected, and only the returned list is truncated to `cantidad` | `cantidad = 1`, filtered to a user whose two newest messages are in the channel: both are deleted and one is reported | delete only the `cantidad` newest messages of that user among those inspected, and report what was deleted | medium, not executed; relies on `purge` deleting everything its check accepts among `limit` inspected messages | Moderation.FilteredClearDeletesMoreThanAsked | Moderation.ClearMessagesBounded |
| cogs/verification.py:56 | The default emoji is the literal `'‚úÖ'`: the UTF-8 bytes of ✅ decoded as Mac OS Roman | no `verification_emoji` configured and a member reacts with ✅ to the verification message: the reaction is ignored, in both the add and the remove handler (line 135) | the default ✅, as in `verification.py` | high, not executed | Verification.GlobalDefaultRejectsCheckMark | Verification.IntendedDefaultAccepts |
