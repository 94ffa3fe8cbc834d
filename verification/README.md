# WhatsApp bot core: sub-bot sessions, command parsing and helpers

A Dafny model of the sequential core of a Go WhatsApp bot.

The centre of the model is the sub-bot ("jadibot") session manager of
`features/jadibot.go`. It is modelled as a state machine over an immutable
`Registry`, which holds:

- the map of active sessions and the map of pending sessions, both keyed by
  phone number;
- the set of numbers whose folder exists on disk.

Each locked critical section of the manager becomes one pure transition:

- starting a pairing;
- dispatching a client event;
- the pairing-timeout step;
- removing a session;
- the reconnect loop, driven by one observation per attempt;
- the periodic health sweep and its orphaned-file sweep.

Everything the Go code learns from the outside world is a parameter:

- whether a connect or pair-code request worked;
- whether a store has a device ID;
- whether a client is connected;
- directory listings;
- the current time, in integer milliseconds (module `Clock`).

The registry invariant `JadibotRegistry.Valid` is preserved by every
transition, with two exceptions: pairing keeps it only for a non-empty
number (the command never passes an empty one), and the health sweep keeps
it only when the directory listing has no plain file named just `.db`
(`JadibotHealth.EmptyStemWipesAll` shows that such a file deletes every
folder). It says:

- the empty number is neither active nor pending;
- no number is both active and pending;
- every registered number has its folder;
- active sessions are connected and pending ones are not.

The rest of the core is pure text and data logic:

- the command parser (`Parser`);
- the LID/phone-number cache and the JID helpers (`LidResolver`);
- the bot configuration with partial updates and setter hooks (`Config`);
- the story auto-viewer's gates and cache (`AutoStory`);
- the startup helpers of `main.go` (`Startup`);
- the uptime text of the ping command (`Ping`).

Supporting modules:

- `Text`: ASCII whitespace, `Fields`/`Join`/`TrimSpace`, decimal numerals.
- `Files`: `.db` directory entries.
- `Wrappers`: `Option` and `Result`.

Where the Go code behaves differently from what its comments or messages
suggest, the model follows the code. The cases are:

- `IsSessionExists` looks only at active sessions.
- A failed store open during pairing keeps the folder it just created.
- The 60-second fallback delay of the reconnect loop can never be reached.
- The orphan sweep looks only at top-level `.db` files. A plain file named
  just `.db` has the empty number, and deleting that number's folder deletes
  the whole sub-bot directory (`JadibotHealth.EmptyStemWipesAll`).

## Model

| member | source | states |
|---|---|---|
| Parser.ArgsOf | commands/parser.go:29-32 | the arguments are normalised text (no leading, trailing or doubled spaces) whose fields are exactly the fields after the command word |
| Parser.CommandOf | commands/parser.go:28 | the command is the lower-cased first field: a non-empty, lower-case word without whitespace |
| Parser.ParsePrefixed | commands/parser.go:20-34 | after a prefix character the text is a command exactly when the rest has a field; the command is the lower-cased first field and the arguments are normalised text whose fields are the remaining fields; otherwise ("", "", false) |
| Parser.ParseBare | commands/parser.go:37-71 | without a prefix the text is a command exactly when its lower-cased first field is one of the fourteen allow-listed names; then the arguments' fields are the remaining fields; otherwise ("", "", false) |
| Parser.ParseCommand | commands/parser.go:13-72 | on the trimmed text: a command exactly when it is non-empty and either starts with a prefix and has a field after it, or has an allow-listed first field; the command is that lower-cased first field and the arguments' fields are the remaining fields; a false result has empty command and arguments |
| Parser.BuildCommandStringFields | commands/parser.go:76-81 | the built string is normalised and its fields are the command followed by the fields of the arguments |
| Parser.CommandAndArgsOfBuild | commands/parser.go:76-81 | splitting a built command string gives back the command and the arguments |
| Parser.ParseBuildRoundTrip | commands/parser.go:20-34 | any prefix character followed by BuildCommandString(c, a) parses to (c, a, true) |
| Parser.ParseUnprefixed | commands/parser.go:37-71 | an unprefixed built command string parses back exactly when the command is allow-listed, and to ("", "", false) otherwise |
| Parser.ParseIsCanonical | commands/parser.go:13-81 | rebuilding any parsed command behind a prefix character parses back to the same result |
| Parser.ParseSpacedPrefixed | commands/parser.go:14-34 | a prefix, a word, and two arguments separated by arbitrary runs of spaces parse to the lower-cased word with the arguments joined by one space |
| Parser.ParseSpacedBare | commands/parser.go:37-71 | a word that does not start with a prefix, and two arguments, separated by runs of spaces, parse to the lower-cased word with the arguments joined by one space when that word is allow-listed, and are not a command otherwise |
| LidResolver.LidAndPnExclusive | utils/lid_resolver.go:23-29 | no JID string is both a LID and a phone-number JID |
| LidResolver.StoreLIDMapping | utils/lid_resolver.go:39-47 | an empty LID or phone leaves the cache alone; otherwise both directions are stored and every other key keeps its value |
| LidResolver.GetPNForLID | utils/lid_resolver.go:49-56 | a cached LID gives its cached phone number; an unknown LID gives "" |
| LidResolver.GetLIDForPN | utils/lid_resolver.go:58-65 | the answer is "" or a LID; a cached LID is returned |
| LidResolver.StoreThenLookup | utils/lid_resolver.go:39-65 | after storing a pair, looking up the LID gives the phone JID and, when it is a LID, the phone JID gives the LID back |
| LidResolver.NormalizeJID | utils/lid_resolver.go:271-284 | "" stays ""; a LID cached to a phone JID becomes that phone JID; anything else is unchanged |
| LidResolver.NormalizeJIDIdempotent | utils/lid_resolver.go:271-284 | normalising twice with the same cache is normalising once |
| LidResolver.ExtractPhoneFromJID | utils/lid_resolver.go:286-293 | "" for an empty user, otherwise the prefix of the user up to the first colon, which holds no colon |
| LidResolver.IsSelfMessage | utils/lid_resolver.go:237-269 | false without a bot ID; true when the users match; true when the sender's LID is cached to a phone JID of the bot's user, and when the bot's LID is cached to the sender's JID; true in no other case |
| LidResolver.MappedLidIsSelf | utils/lid_resolver.go:251-259 | once a sender's LID is mapped to the bot's phone JID, the sender counts as the bot itself |
| Config.DefaultsAsDocumented | core/config.go:19-26 | only auto-online, auto-read-story, auto-like-story and random-delay start enabled |
| Config.HookedFieldsAreAllButOnline | core/config.go:113-142 | every field except auto-online has a setter hook, in field order |
| Config.HookCalls | core/config.go:113-142 | the hooks called are exactly those of given, registered fields, with the new value, in field order, at most one each |
| Config.MergeFieldwise | core/config.go:110-142 | each field takes its argument when one is given and keeps its value otherwise |
| Config.UpdateConfig | core/config.go:106-145 | exactly the given fields are overwritten, and every given field except auto-online calls its registered hook with the new value, in order |
| Config.UpdateEmptyIsIdentity | core/config.go:110-142 | an update with no arguments changes nothing and calls no hook |
| Config.UpdateIdempotent | core/config.go:106-142 | applying the same update twice gives the configuration of applying it once |
| Config.PatchFromJsonFieldwise | core/config.go:49-72 | the file sets a field only when its key holds a boolean |
| Config.InitConfig | core/config.go:45-89 | a field takes the file's boolean when its key holds one and keeps its value otherwise; then every hooked, registered field's hook is called with its final value |
| Config.InitIsUpdateFromFile | core/config.go:45-145 | loading the settings file gives the same configuration as an update with the file's boolean keys |
| Config.InitWithoutFileKeepsConfig | core/config.go:49-72 | without a readable settings file the configuration is unchanged |
| AutoStory.RandomEmoji | features/autostory.go:79-81 | the reaction is one of the listed emojis |
| AutoStory.StoryDelaySeconds | features/autostory.go:83-89 | the delay is between 1 and 20 seconds, and exactly 1 second when random delay is off |
| AutoStory.StoryDelayCoversRange | features/autostory.go:83-89 | every delay from 1 to 20 seconds comes from exactly one random value |
| AutoStory.FormatPhoneNumber | features/autostory.go:91-96 | up to 8 characters unchanged; longer numbers become first 4, "****", last 3, 11 characters in all |
| AutoStory.FormatPhoneNumberHidesMiddle | features/autostory.go:91-96 | numbers longer than 8 that agree on the first 4 and last 3 characters are masked alike |
| AutoStory.IsStoryDeleted | features/autostory.go:110-123 | a story is deleted exactly when the message is absent or carries none of the six media kinds |
| AutoStory.Gate | features/autostory.go:158-166 | a key proceeds exactly when unseen or last seen at least 3 s ago, and proceeding records now |
| AutoStory.CleanupOldStories | features/autostory.go:248-263 | at most 1000 entries are left untouched; above that, the result is exactly the entries younger than 5 minutes when at most 1000 of them remain, and the empty cache otherwise |
| AutoStory.CleanupIdempotent | features/autostory.go:248-263 | cleaning twice at the same instant is cleaning once |
| AutoStory.StoryPhone | features/autostory.go:145-153 | the sender's user before any colon is the phone when non-empty; otherwise the user (before any colon) of the resolved phone JID when it gives one; otherwise the raw user; the phone is empty only for an empty user |
| AutoStory.HandleStoryMessage | features/autostory.go:125-171 | a story is accepted exactly when a feature is on, it came from the status broadcast, is not a deletion, is not the bot's own, and its key is unseen or older than the cooldown; an accepted story carries the resolved phone and the cache becomes the cleaned-up cache with its key recorded at now; a skipped story leaves the cache alone |
| AutoStory.RepeatWithinCooldownIsIgnored | features/autostory.go:155-166 | the same story arriving again within 3 s of being accepted is skipped by the cooldown |
| Startup.CensorNumber | main.go:303-319 | length is kept; up to 9 characters unchanged; longer numbers keep the first 5 and last 4 and star the rest |
| Startup.CensorNumberRevealsOnlyEnds | main.go:303-319 | each output character is the input's or a star, and the middle of a long number is all stars |
| Startup.CensorNumberIdempotent | main.go:303-319 | censoring a censored number changes nothing |
| Startup.ParseChoice | main.go:294-301 | -1 unless 1 <= choice <= maxOptions; otherwise choice - 1, in [0, maxOptions) |
| Startup.ParseChoiceRoundTrip | main.go:294-301 | typing i + 1 selects option i |
| Startup.ReconnectDelaySeconds | main.go:236-240 | the wait is five seconds per attempt, capped at 60 seconds |
| Startup.ReconnectDelayMonotonic | main.go:262-266 | the wait never shrinks as attempts grow |
| Startup.ExistingPhoneNumbers | main.go:831-847 | an unreadable directory gives no numbers; otherwise a number is listed exactly when a plain `.db` file has it as non-empty stem (order: see SessionStemsAppend) |
| Startup.SessionStems | main.go:837-846 | a number is listed exactly when some plain `.db` file with a non-empty stem has it as stem; no number is empty |
| Startup.SessionStemsAppend | main.go:837-846 | the numbers of a concatenated listing are those of the first part followed by those of the second, so they follow listing order |
| Startup.SessionStemsOne | main.go:838-845 | one entry contributes its stem exactly when it is a plain `.db` file with a non-empty stem |
| Startup.ChoosePairingMethod | main.go:947-975 | a set environment value picks pairing code only for 1, else QR; otherwise a valid session defaults to QR; otherwise a typed 1 gives pairing code, a typed 2 gives QR, and anything else aborts |
| Startup.PairingCodeOnlyOnOne | main.go:947-975 | pairing code is chosen exactly for an environment 1, or for a typed 1 with no environment value and no valid session; QR exactly for every other successful start |
| Ping.UptimeParts | commnads/ping.go:44-48 | hours*3600 + mins*60 + secs is the uptime, with mins and secs below 60 |
| Ping.UptimePartsUnique | commnads/ping.go:44-48 | that split is the only one with mins and secs below 60 |
| Ping.FormatUptime | commnads/ping.go:50-56 | the text ends in seconds, shows hours exactly from one hour and minutes exactly from one minute |
| Ping.FormatUptimeInjective | commnads/ping.go:43-57 | different uptimes give different texts |
| Files.Stem | features/jadibot.go:730 | the number is the file name without its `.db` ending |
| Files.CompanionFilesAreNotDb | features/jadibot.go:726 | `-shm` and `-wal` files never end in `.db` |
| JadibotRegistry.RemoveFolder | features/jadibot.go:114-135 | deleting a number's folder removes just that folder, except that the empty number is the sub-bot directory itself |
| JadibotRegistry.EmptyIsValid | features/jadibot.go:84-101 | the empty manager satisfies the registry invariant |
| JadibotRegistry.IsSessionExists | features/jadibot.go:188-193 | true exactly when the number is active, so a pending number of a valid registry is never reported |
| JadibotRegistry.CreatePairingSession | features/jadibot.go:195-267 | active or pending numbers are refused with nothing changed; success returns the pair code and puts the number in pending only, with its folder; a failed store open keeps the folder; a failed connect or pair code deletes that number's folder and no other |
| JadibotRegistry.CreatePreservesValid | features/jadibot.go:195-267 | starting a pairing keeps the registry invariant |
| JadibotRegistry.PendingNumberIsRefused | features/jadibot.go:199-205 | a pending number passes the existence check and is then refused with nothing changed |
| JadibotRegistry.Promote | features/jadibot.go:373-383 | the pending session becomes active and connected; every other number is unchanged |
| JadibotRegistry.RemoveSession | features/jadibot.go:755-786 | an active number is removed from the active map, else a pending one from the pending map, with its folder; an unknown number is an error and changes nothing; others are unchanged |
| JadibotRegistry.RemoveSessionForgets | features/jadibot.go:755-786 | after removal the number is in neither map, its folder is gone and the invariant holds |
| JadibotRegistry.HandleEvent | features/jadibot.go:371-485 | pair success promotes a pending number; connected promotes it only with a device ID; neither touches a number that is not pending; logged out removes the session; disconnected starts a reconnect; status messages go to the story handler |
| JadibotRegistry.HandleEventPreservesValid | features/jadibot.go:371-485 | every event keeps the registry invariant |
| JadibotRegistry.PairingTimeoutStep | features/jadibot.go:278-357 | a number still pending and unconnected is withdrawn and its folder deleted; anything else is left alone |
| JadibotRegistry.TimeoutSparesPromoted | features/jadibot.go:278-357 | a number already promoted is untouched by the timeout |
| JadibotRegistry.TimeoutPreservesValid | features/jadibot.go:278-357 | the timeout step keeps the registry invariant |
| JadibotRegistry.WaitForPairing | features/jadibot.go:269-369 | the poll ends at the first tick where the number is no longer waiting, with that registry; if it never ends, the timeout step applies |
| JadibotReconnect.RetryDelay | features/jadibot.go:510-518 | attempt k waits the k-th of 5, 10, 20, 30, 60 seconds, and never outside 5..60 |
| JadibotReconnect.FallbackDelayUnreachable | features/jadibot.go:510-518 | every attempt the loop makes has a listed delay, so the fallback branch is dead |
| JadibotReconnect.StepEnd | features/jadibot.go:520-580 | an attempt continues exactly when it fails before the fifth; a failed fifth attempt gives up |
| JadibotReconnect.AttemptStep | features/jadibot.go:520-580 | a found connection clears the count; a missing device ID removes the session; a failure records a failure at now and gives up with removal on the fifth; a success clears the count and marks connected |
| JadibotReconnect.RunEnd | features/jadibot.go:520-586 | the loop gives up exactly when every attempt fails |
| JadibotReconnect.RunWaits | features/jadibot.go:510-526 | the waits made are the listed delays from the current attempt on, all of them when the loop gives up |
| JadibotReconnect.WaitsFromFirst | features/jadibot.go:510-526 | from the first attempt the waits are a prefix of 5, 10, 20, 30, 60, and all five when the loop gives up |
| JadibotReconnect.RunAttemptsFrame | features/jadibot.go:520-586 | the loop touches no other number and no pending session |
| JadibotReconnect.RunAttemptsFolders | features/jadibot.go:536-558 | the number's folder is deleted exactly when its session is removed |
| JadibotReconnect.RunAttemptsRemoval | features/jadibot.go:536-558 | the session is removed exactly when the loop gives up or finds no device ID |
| JadibotReconnect.RunAttemptsRecord | features/jadibot.go:528-585 | the flag and a connected state survive the loop; success leaves the session connected with a zero count; a found connection zeroes the count |
| JadibotReconnect.WithFlag | features/jadibot.go:498-508 | only the reconnecting flag of the number changes |
| JadibotReconnect.FlaggedRun | features/jadibot.go:498-586 | with the flag set and cleared on exit, the loop ends with the flag clear, removal exactly on giving up or a missing device ID, and waits that are a prefix of the schedule |
| JadibotReconnect.ReconnectSession | features/jadibot.go:487-587 | an inactive or already reconnecting number changes nothing; otherwise the flagged loop runs, touching no other number |
| JadibotReconnect.ReconnectPreservesValid | features/jadibot.go:487-587 | reconnecting keeps the registry invariant |
| JadibotHealth.CheckSession | features/jadibot.go:634-685 | no client or device ID is invalid; reconnecting is skipped; a stale count is reset first; a disconnected client counts one failure at now, invalid at 10, reconnect below; a connected client has its count cleared |
| JadibotHealth.StaleDisconnectEndsAtOne | features/jadibot.go:650-677 | a disconnected session whose last failure is over 5 minutes old ends at count 1 and is reconnected |
| JadibotHealth.FailuresAccumulate | features/jadibot.go:650-667 | checks of a disconnected session at most 5 minutes apart each add one failure |
| JadibotHealth.TenthFailureIsFatal | features/jadibot.go:658-677 | from a zero count, nine frequent failed checks each trigger a reconnect and the tenth marks the session invalid |
| JadibotHealth.CheckAll | features/jadibot.go:634-685 | every checked number gets its check's record; unchecked numbers and the key set are unchanged |
| JadibotHealth.CheckAllMarks | features/jadibot.go:634-685 | a number is collected for removal, or for reconnect, exactly when its check says so |
| JadibotHealth.CheckOrderIrrelevant | features/jadibot.go:614-685 | the records and the numbers collected do not depend on the order of the snapshots |
| JadibotHealth.MarksOrderIrrelevant | features/jadibot.go:614-685 | the numbers collected for one verdict do not depend on the order of the snapshots |
| JadibotHealth.RemoveAll | features/jadibot.go:687-690 | the collected numbers leave the active map, and leave pending when they were not active; a collected number that was active or pending loses its folder; everything else stays; no folder is created |
| JadibotHealth.RemoveAllPreservesValid | features/jadibot.go:687-690 | the removals keep the registry invariant |
| JadibotHealth.CandidatesAreDbFiles | features/jadibot.go:719-730 | the companion-file test never excludes a `.db` file |
| JadibotHealth.RemoveOrphans | features/jadibot.go:719-751 | exactly the folders of doomed entries are deleted, or all of them when a doomed entry has the empty number |
| JadibotHealth.CleanupOrphanedFiles | features/jadibot.go:703-753 | an unreadable directory changes nothing; the maps never change; a folder goes exactly when some unregistered `.db` entry without a device-holding store names it |
| JadibotHealth.OrphanSweepSparesRegistered | features/jadibot.go:709-729 | without a file named just `.db`, active and pending numbers keep their folders and the invariant holds |
| JadibotHealth.EmptyStemWipesAll | features/jadibot.go:719-751 | a plain file named just `.db` without a device-holding store deletes every folder |
| JadibotHealth.ValidateAllSessions | features/jadibot.go:610-701 | a number stays exactly when its check is not invalid, with its checked record; removed and reconnect lists are exactly the numbers so judged; a removed number loses its session and its folder; pending is kept; without a listing exactly the removed numbers' folders go, and with one (no doomed plain `.db`) also exactly the folders of the doomed orphan entries |
| JadibotHealth.SweepPreservesValid | features/jadibot.go:610-701 | the sweep keeps the registry invariant unless the listing has a file named just `.db` |
| JadibotCommand.NormalizeNumber | features/jadibot.go:1048-1057 | the trimmed text loses every `+`, `-` and space; a leading `0` is then replaced by `62`, and any other text passes through; the result does not start with `0` |
| JadibotCommand.StripSeparatorsAppend | features/jadibot.go:1049-1051 | stripping separators distributes over concatenation |
| JadibotCommand.LocalFormGetsCountryCode | features/jadibot.go:1052-1057 | `0` followed by digits becomes `62` followed by those digits |
| JadibotCommand.InternationalFormLosesPlus | features/jadibot.go:1048-1057 | `+62` followed by digits loses the plus |
| JadibotCommand.SeparatorIgnored | features/jadibot.go:1048-1051 | a separator between two texts that do not begin or end in whitespace makes no difference |
| JadibotCommand.StripSeparatorsChar | features/jadibot.go:1049-1051 | a single character is dropped exactly when it is `+`, `-` or a space |
| JadibotCommand.MobilePrefixIsFirstFour | features/jadibot.go:1059 | the prefix test is on the first four characters, and every accepted number starts with `628` |
| JadibotCommand.ValidateNumber | features/jadibot.go:1020-1095 | empty arguments get the usage reply; a number is accepted exactly when its normalised form has a mobile prefix and 10 to 15 characters, and is returned normalised |
| JadibotCommand.AcceptedNumberShape | features/jadibot.go:1048-1084 | an accepted number is non-empty, starts with `628` and has no separators |
| JadibotCommand.HandleJadibotCommand | features/jadibot.go:1017-1140 | an invalid number changes nothing; an active number is refused exactly when it is active; any other valid number gets exactly the pairing transition, succeeding when pairing does, with pairing's error wrapped otherwise; success returns the pair code and adds only a pending session with its folder |
| JadibotCommand.CommandPreservesValid | features/jadibot.go:1017-1140 | the command keeps the registry invariant |
| JadibotCommand.PendingNumberFailsInPairing | features/jadibot.go:1099-1127 | a pending number passes the active check and is refused by pairing, with nothing changed |
| JadibotCommand.DurationParts | features/jadibot.go:1346-1350 | days*1440 + hours*60 + minutes is the whole minutes of the duration, with hours below 24 and minutes below 60 |
| JadibotCommand.DurationPartsUnique | features/jadibot.go:1346-1350 | that split is the only one with hours below 24 and minutes below 60 |
| JadibotCommand.FormatDuration | features/jadibot.go:1346-1358 | the text ends in minutes, shows days exactly from one day and hours exactly from one hour |
| JadibotCommand.FormatDurationToTheMinute | features/jadibot.go:1346-1358 | two durations give the same text exactly when they agree to the minute |

## Left out

- Concurrency: mutexes, goroutines, tickers, sleeps and the loader's semaphore are gone. Each locked section is one atomic transition, and interleavings are not modelled.
- The race between the 180-second pairing timer and the 1-second poll is not modelled. `WaitForPairing` takes the registries seen at each tick, and the registry at the timer, as inputs.
- Numbers removed by another goroutine while the reconnect loop sleeps are not modelled. The attempt observations are inputs.
- Client and store calls are boolean or `Option` inputs. These are connect, pair code, device ID, is-connected and store open.
- Filesystem effects other than the set of existing folders are left out: metadata JSON, `saveState`, checkpointing and the store files themselves.
- `LoadExistingSessions` is bulk I/O with a bounded worker pool, and is not modelled.
- `GetAllSessions` and `GetSession` are not modelled; they only copy maps under a lock.
- `HandleListJadibotCommand` and `HandleDelJadibotCommand` are not modelled; they are reply formatting around `RemoveSession`.
- `StartHealthCheck` is not modelled; it is a ticker around `ValidateAllSessions`.
- The story handlers of sub-bots are not modelled.
- `Config.GetConfig` is not modelled, because it returns the record under a lock; the record itself is the value.
- `processStory` is not modelled; it is the network part of the story viewer. So are reply texts, notifications, log filtering, `FormatStartDateTime`, `formatQRTutorial` and `formatConnectionMessage`.
- `IsStatusBroadcast` and the network-dependent LID functions are not modelled: `ResolveLIDToPN`, `GetAccurateSenderInfo`, group lookups and `ResolveSenderForSelfMode`.
- `commnads/info.go`, `commnads/menu.go` and `features/autopresence.go` are not modelled; they are presentation, floating point and fire-and-forget presence calls.
- `getCountryInfo` is not modelled; it relies on a phone-number library. The interactive startup flow and the QR loop of `Connect` are not modelled either.
- Randomness is an input within its range: the emoji index and the story delay.
- Integer parsing with `Sscanf`/`Scanln` is an input: `Option<int>`, `None` when parsing fails.
- Strings are sequences of characters. Go's byte lengths agree with this only for ASCII numbers and names.
- Whitespace is the ASCII set, and lower-casing is ASCII only.
- Go's `int64` overflow is not modelled; integers are unbounded.
- Go durations below a millisecond are not modelled; the clock is integer milliseconds.
- The health sweep reads the clock once per sweep rather than once per session.
- Go's map iteration order is an input, the order of the snapshots. `JadibotHealth.CheckOrderIrrelevant` shows the result does not depend on it.
- The orphan sweep's effect is modelled on folders only. The sweep never touches the maps, and the store probe is an input.
- The device-ID presence of a session is an input at each step, not a field of the session record. In the Go code it lives in the client's store, not in the session.
- JadibotCommand.FormatDuration: takes a non-negative duration; negative durations, with Go's truncating division, are not modelled.
- JadibotCommand.ValidateNumber: accepted numbers may still contain characters other than digits, such as a tab inside the number. The code has no digit check, so the model states the shape only for prefix, length and separators.
- HandleStoryMessage: assumes the bot's own JID is present. The code's path where the store has no ID is not modelled: there the self check returns false and reading the bot's user dereferences nil.
- JadibotReconnect.AttemptStep: when an attempt finds the client already connected, the session's connected flag is left as it was, as in the code.
