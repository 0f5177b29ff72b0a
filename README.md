# Essentials player-name matching, modelled in Dafny

This project models how the Essentials server plugin turns a typed player
name into users. The model covers `net.ess3.user.UserMatch`, the matching
methods and the pre-join table of `net.ess3.user.UserMap`, and
`net.ess3.user.TooManyMatchesException`.

A query is a run of one-character switches, then an optional nickname
prefix, then the text to look for. The switches are:

- `!` scans every known user, not only the online players;
- `~` tests nicknames;
- `-` tests user names;
- `@` sets the keyword flag;
- `=` sets the exact flag;
- `#` stops hidden players from being suppressed.

`UserMatch.match` parses the query and fixes the candidate set of names. The
match is then its own lazy, resettable iterator. Each call to `next` scans on
to the next name whose nickname or user name contains the pattern, provided
the sender may see that user.

`UserMap.matchUsers` builds such a match and then sets the hidden and offline
flags its caller asks for. `UserMap.matchUser` draws one match and raises
`PlayerNotFoundException` or `TooManyMatchesException`.
`TooManyMatchesException.getMessage` walks the match a second time to build
its message.

Modules, in dependency order:

- `Runtime`: the Java notions the code relies on.
  - Null is `Option`; a thrown exception is `Outcome.Throw` with a `Fault`.
  - `String.toLowerCase`, `trim`, `startsWith` and `contains` are modelled.
- `Oracles`: the outside world of one query, as a value (`World`).
  - The online players, the known users and the user records.
  - The `canSee` relation and the configured nickname prefix.
- `Query`: the parse of the query (flags, `cleanPattern`, the three early exits) and the candidate set.
- `Scan`: the per-name test (`matchString`, `checkUser`) and the scan loop of `nextMatch`.
  - The iterator state of a match is the value `Cursor`.
  - Each iterator operation has one step function: `ResetStep`, `HasNextStep`, `NextStep`, `CacheNextStep`, `NextMatchStep`, `RemoveStep`.
- `UserMatching`: the class `UserMatch`, with the source's fields.
  - Every method is proved to change its fields exactly as its step function says.
  - `ensures Step(r, State()) == HasNextStep(old(State()), world)` is an example.
- `TooManyMatches`: the class `TooManyMatchesException` and the specification `MessageFor` of `getMessage`.
- `UserMapping`: the class `UserMap` with `prejoinedPlayers`, the overloads of `matchUsers` and `matchUser`, and their specifications `MatchUsersState` and `Resolve`.

## Behaviour as written

The model follows the code. In several places the code does something other
than what its comments and documentation describe. The lemmas named below
prove the behaviour as written.

- **Case-sensitive patterns.** `cleanPattern` is trimmed but never lower-cased. `matchString` lower-cases only the text it searches.
  - A pattern with an upper-case letter matches nothing (`UpperCasePatternNeverMatches`).
  - The lower-cased nickname prefix is compared with the case-preserved pattern (`NicknamePrefixCaseSensitive`).
- **Switches are read from the untrimmed input.** The prefix scan reads the untrimmed input, but the cut is applied to the trimmed `cleanPattern`.
  - A leading blank stops the scan.
  - Trimming never touches a leading run of switches, so the cut removes exactly that run (`TrimKeepsPrefixRun`).
- **The last name is never tested.** `nextMatch` tests a drawn name only while the iterator has another one. The last candidate is drawn and dropped (`LastNameNeverTested`).
- **Inverted `hasNext`.** Without a cached user, `hasNext` caches the next match and returns `cachedNext == null`. It answers true exactly when no match is left (`HasNextInverted`).
- **`matchUser` never returns a user.** When a name passes the test, it throws `PlayerNotFoundException`. When none does, it throws `TooManyMatchesException` (`MatchUserOutcome`).
- **Early exits crash.** `invalid()` leaves the candidate set null. Iterating such a match throws a `NullPointerException` (`MatchUserOutcome`, `MessageOutcome`).
- **A null requester crashes.** The two overloads that pass a null requester always throw a `NullPointerException`.
- **The offline flag comes too late.** `matchUsers` sets the offline flag after the candidate set has been chosen. Asking for offline users adds none (`OfflineOverlayKeepsOnlineCandidates`).
- **`getMessage` never produces the list.** It either returns the plain `tooManyMatches` message or dereferences the null that `next` hands out (`MessageOutcome`, `MessageNeverLists`).
  - For the exception `matchUser` throws, it always crashes (`TooManyMessageCrashes`).
- **`@` and `=` change nothing.** They set flags that matching never reads (`KeywordAndExactIgnored`).

## Model

| member | source | states |
|---|---|---|
| Runtime.LowerAt | Essentials/src/net/ess3/user/UserMatch.java:193 | `toLowerCase` (ASCII) maps a string character by character |
| Runtime.LowerIdempotent | Essentials/src/net/ess3/user/UserMap.java:163 | lower-casing a lower-cased name changes nothing |
| Runtime.TrimStartDrops | Essentials/src/net/ess3/user/UserMatch.java:84 | the left half of `trim` drops only characters up to the space and stops at the first other one |
| Runtime.TrimEndDrops | Essentials/src/net/ess3/user/UserMatch.java:84 | the right half of `trim` drops only characters up to the space and stops at the last other one |
| Runtime.UpperNeverInLower | Essentials/src/net/ess3/user/UserMatch.java:193 | no string holding an upper-case letter occurs in a lower-cased string |
| Query.SetFlagOwn | Essentials/src/net/ess3/user/UserMatch.java:110-140 | one case of the switch turns on its own flag and leaves every other flag as it was |
| Query.FlagsOfRun | Essentials/src/net/ess3/user/UserMatch.java:108-141 | after a run of switches, a flag is on if and only if its character is in the run |
| Query.PrefixRunMaximal | Essentials/src/net/ess3/user/UserMatch.java:108-141 | the prefix length counts only switch characters and stops at the first other one |
| Query.TrimKeepsPrefixRun | Essentials/src/net/ess3/user/UserMatch.java:78-144 | the prefix length read from the untrimmed input never exceeds the trimmed `cleanPattern`, and the cut removes exactly the switches |
| Query.AfterPrefix | Essentials/src/net/ess3/user/UserMatch.java:143-144 | the trimmed pattern is the switch run followed by the new `cleanPattern` |
| Query.ParseRejects | Essentials/src/net/ess3/user/UserMatch.java:99-159 | a match ends without candidates if and only if the trimmed input is empty, nothing is left after the switches, or the nickname prefix is all that is left |
| Query.ParseShape | Essentials/src/net/ess3/user/UserMatch.java:143-166 | the flags are those the switches set, with the default mode added only when the parse completes |
| Query.ParseFlags | Essentials/src/net/ess3/user/UserMatch.java:106-166 | each flag is on if and only if its switch was given; nickname and user-name search are both on when neither `~` nor `-` was given and the parse completed; an input that trims to nothing sets no flag |
| Query.NicknamePrefixStrippedOnce | Essentials/src/net/ess3/user/UserMatch.java:150-159 | a pattern that starts with the prefix twice keeps one copy |
| Query.NicknamePrefixCaseSensitive | Essentials/src/net/ess3/user/UserMatch.java:151-152 | a pattern that does not start with the lower-cased prefix is kept whole, and the parse completes |
| Query.CollectNames | Essentials/src/net/ess3/user/UserMatch.java:178-182 | the HashSet of online names holds every online name once and nothing else |
| Query.Candidates | Essentials/src/net/ess3/user/UserMatch.java:170-183 | with `!` the candidates are all known users; otherwise they are the distinct online player names |
| Scan.UpperCasePatternNeverMatches | Essentials/src/net/ess3/user/UserMatch.java:191-194 | a pattern holding an upper-case letter matches no text |
| Scan.CheckUserHidesOnlyOnlinePairs | Essentials/src/net/ess3/user/UserMatch.java:296-307 | a user is suppressed if and only if both parties are online, neither `!` nor `#` is in force, and the sender cannot see the user |
| Scan.TestCandidateHit | Essentials/src/net/ess3/user/UserMatch.java:266-289 | a drawn name yields its own user if and only if the user is visible and the nickname (under `~`) or the name (under `-`) contains the pattern |
| Scan.ScanFrom | Essentials/src/net/ess3/user/UserMatch.java:264-290 | the scan loop always moves the iterator forward and never past the end |
| Scan.ScanFromFindsFirst | Essentials/src/net/ess3/user/UserMatch.java:257-294 | nextMatch returns the first passing name short of the last; it returns null if and only if there is none, and then the iterator is used up |
| Scan.LastNameNeverTested | Essentials/src/net/ess3/user/UserMatch.java:264 | replacing the last candidate by any other name changes nothing in the scan |
| Scan.KeywordAndExactIgnored | Essentials/src/net/ess3/user/UserMatch.java:257-294 | the keyword and exact flags do not affect the scan |
| Scan.NextMatchStep | Essentials/src/net/ess3/user/UserMatch.java:257-294 | nextMatch changes only the iterator, never increases the names left, and consumes at least one whenever it finds a user |
| Scan.CacheNextStep | Essentials/src/net/ess3/user/UserMatch.java:250-255 | cacheNext keeps the search and the candidate set |
| Scan.HasNextStep | Essentials/src/net/ess3/user/UserMatch.java:221-232 | hasNext keeps the search and the candidate set |
| Scan.NextStep | Essentials/src/net/ess3/user/UserMatch.java:234-248 | next keeps the search and the candidate set |
| Scan.ResetStep | Essentials/src/net/ess3/user/UserMatch.java:214-219 | reset leaves a well-formed cursor |
| Scan.RemoveStep | Essentials/src/net/ess3/user/UserMatch.java:309-320 | remove leaves a well-formed cursor |
| Scan.NextUserProgress | Essentials/src/net/ess3/user/UserMatch.java:221-248 | a hasNext answering true followed by a next that returns a user consumes the cached user or a name |
| Scan.RemoveWindow | Essentials/src/net/ess3/user/UserMatch.java:214-255 | next opens the remove window whenever it returns; cacheNext and reset always close it; hasNext keeps it open only when a user was already cached |
| Scan.NoMatchExhausts | Essentials/src/net/ess3/user/UserMatch.java:257-294 | a nextMatch that finds nothing leaves the iterator used up |
| Scan.HasNextInverted | Essentials/src/net/ess3/user/UserMatch.java:221-232 | with nothing cached, hasNext answers true if and only if no name left to test passes; it then leaves the iterator used up and nothing cached; it does not throw once an iterator exists |
| Scan.ExhaustedStaysEmpty | Essentials/src/net/ess3/user/UserMatch.java:221-248 | on a used-up iterator, hasNext keeps answering true and next keeps handing out null, and neither moves the cursor |
| Scan.ResetIdempotent | Essentials/src/net/ess3/user/UserMatch.java:214-219 | a second reset changes nothing |
| Scan.ResetForgetsProgress | Essentials/src/net/ess3/user/UserMatch.java:214-219 | two cursors over the same search and candidates reset to the same state, wherever their scans had got to |
| Scan.RemoveDeletesLastDrawn | Essentials/src/net/ess3/user/UserMatch.java:309-320 | remove succeeds if and only if it is allowed and a name was drawn; it then deletes that one occurrence and keeps the names still to be drawn |
| Scan.NextThenRemove | Essentials/src/net/ess3/user/UserMatch.java:234-248 | after next returns a user found by a scan, remove succeeds on a name whose test produced that user |
| UserMatching.PreparedCandidates | Essentials/src/net/ess3/user/UserMatch.java:95-189 | a new match has a candidate set and a fresh iterator if and only if its parse completed; the set is all known users under `!` and the distinct online names otherwise |
| UserMatching.PrefixRunStopsAt | Essentials/src/net/ess3/user/UserMatch.java:108-141 | the loop's final prefix length is the length of the switch run |
| UserMatching.ExtendRun | Essentials/src/net/ess3/user/UserMatch.java:110-135 | one more switch character extends the run and sets its flag |
| UserMatching.UserMatch.constructor | Essentials/src/net/ess3/user/UserMatch.java:72-86 | `pattern` is the lower-cased input, `cleanPattern` the trimmed input; no flag is set and there is no candidate set |
| UserMatching.UserMatch.Match | Essentials/src/net/ess3/user/UserMatch.java:95-189 | the new match's state is the parse of the input together with the candidate set it prepares |
| UserMatching.UserMatch.ParsePattern | Essentials/src/net/ess3/user/UserMatch.java:99-166 | the flags, `cleanPattern` and the decision to go on are those of the parse |
| UserMatching.UserMatch.CutSwitches | Essentials/src/net/ess3/user/UserMatch.java:105-144 | the flags are those of the switch run, and `cleanPattern` is what follows it |
| UserMatching.UserMatch.ParseRest | Essentials/src/net/ess3/user/UserMatch.java:145-166 | nickname-prefix stripping and the default mode behave as the parse says |
| UserMatching.UserMatch.SetHiddenSearch | Essentials/src/net/ess3/user/UserMatch.java:60-62 | only the hidden flag changes |
| UserMatching.UserMatch.SetOfflineSearch | Essentials/src/net/ess3/user/UserMatch.java:45-47 | only the offline flag changes |
| UserMatching.UserMatch.OnlineNames | Essentials/src/net/ess3/user/UserMatch.java:178-182 | the loop builds the set of online names |
| UserMatching.UserMatch.ScanSwitches | Essentials/src/net/ess3/user/UserMatch.java:106-141 | the loop stops at the length of the switch run and sets exactly the flags of that run |
| UserMatching.UserMatch.Invalid | Essentials/src/net/ess3/user/UserMatch.java:202-206 | `valid` is false |
| UserMatching.UserMatch.SetUsernamesToScan | Essentials/src/net/ess3/user/UserMatch.java:196-200 | the candidate set is installed, the iterator starts at its beginning, and nothing is cached or removable |
| UserMatching.UserMatch.Reset | Essentials/src/net/ess3/user/UserMatch.java:214-219 | the fields change as `ResetStep` says, throwing when there is no candidate set |
| UserMatching.UserMatch.HasNext | Essentials/src/net/ess3/user/UserMatch.java:221-232 | the fields and the answer are those of `HasNextStep` |
| UserMatching.UserMatch.Next | Essentials/src/net/ess3/user/UserMatch.java:234-248 | the fields and the user handed out are those of `NextStep` |
| UserMatching.UserMatch.CacheNext | Essentials/src/net/ess3/user/UserMatch.java:250-255 | the fields change as `CacheNextStep` says |
| UserMatching.UserMatch.NextMatch | Essentials/src/net/ess3/user/UserMatch.java:257-294 | the loop leaves the iterator where `ScanFrom` stops and returns its user |
| UserMatching.UserMatch.Remove | Essentials/src/net/ess3/user/UserMatch.java:309-320 | the fields and the failure are those of `RemoveStep` |
| TooManyMatches.BuildListJoins | Essentials/src/net/ess3/user/TooManyMatchesException.java:31-39 | with no empty display name, the builder produces the names separated by ", " |
| TooManyMatches.EmptyFirstEntryDropsSeparator | Essentials/src/net/ess3/user/TooManyMatchesException.java:34-38 | an empty first display name swallows the separator before the second |
| TooManyMatches.ListLoop | Essentials/src/net/ess3/user/TooManyMatchesException.java:32-39 | the for-each loop keeps the cursor well-formed and terminates |
| TooManyMatches.MessageFor | Essentials/src/net/ess3/user/TooManyMatchesException.java:24-46 | getMessage keeps the cursor well-formed |
| TooManyMatches.ListLoopExhausted | Essentials/src/net/ess3/user/TooManyMatchesException.java:32-38 | on a used-up match the loop dereferences the null that next hands out |
| TooManyMatches.MessageOutcome | Essentials/src/net/ess3/user/TooManyMatchesException.java:24-46 | with no candidate set it throws; when a name passes the test it gives the plain message; otherwise it throws a NullPointerException |
| TooManyMatches.MessageNeverLists | Essentials/src/net/ess3/user/TooManyMatchesException.java:29-44 | whenever getMessage returns, it returns the plain `tooManyMatches` message |
| TooManyMatches.TooManyMatchesException.Empty | Essentials/src/net/ess3/user/TooManyMatchesException.java:12-16 | no match is attached |
| TooManyMatches.TooManyMatchesException.constructor | Essentials/src/net/ess3/user/TooManyMatchesException.java:18-22 | the given match is attached |
| TooManyMatches.TooManyMatchesException.GetMessage | Essentials/src/net/ess3/user/TooManyMatchesException.java:24-46 | without a match it throws a NullPointerException; otherwise the result and the match's new state are those of `MessageFor` |
| UserMapping.PrejoinKeepsLowerKeys | Essentials/src/net/ess3/user/UserMap.java:160-170 | adding or removing a pre-joined player keeps every key lower-cased |
| UserMapping.UnjoinIgnoresCase | Essentials/src/net/ess3/user/UserMap.java:166-170 | removing a player whose name differs only in case undoes the addition |
| UserMapping.PrejoinTouchesOneKey | Essentials/src/net/ess3/user/UserMap.java:160-170 | adding or removing changes no entry but the one under the lower-cased name |
| UserMapping.Resolve | Essentials/src/net/ess3/user/UserMap.java:115-128 | matchUser's draws keep the search and the candidate set |
| UserMapping.ResolveOutcome | Essentials/src/net/ess3/user/UserMap.java:116-128 | without an iterator matchUser crashes; when a name passes it reports not found; when none does it reports too many matches |
| UserMapping.MatchUserOutcome | Essentials/src/net/ess3/user/UserMap.java:113-129 | matchUser never returns a user; a null requester or an incomplete parse crashes it; otherwise it reports not found if and only if a tested name matches, and too many matches if and only if none does |
| UserMapping.OfflineOverlayKeepsOnlineCandidates | Essentials/src/net/ess3/user/UserMap.java:143-158 | with includeOffline and no `!` in the name, the offline flag is on but the candidates are still the online names |
| UserMapping.OverlayNeverClears | Essentials/src/net/ess3/user/UserMap.java:147-155 | matchUsers only sets the hidden and offline flags, exactly as asked, and leaves the rest of the match alone |
| UserMapping.HiddenOverlayShowsAll | Essentials/src/net/ess3/user/UserMap.java:147-150 | with includeHidden no user is suppressed for visibility |
| UserMapping.TooManyMessageCrashes | Essentials/src/net/ess3/user/UserMap.java:123-126 | the match carried by the exception that matchUser throws makes getMessage throw a NullPointerException |
| UserMapping.UserMap.constructor | Essentials/src/net/ess3/user/UserMap.java:18 | the pre-join table starts empty |
| UserMapping.UserMap.AddPrejoinedPlayer | Essentials/src/net/ess3/user/UserMap.java:160-164 | the player is filed under its lower-cased name, and every key stays lower-cased |
| UserMapping.UserMap.RemovePrejoinedPlayer | Essentials/src/net/ess3/user/UserMap.java:166-170 | the entry under the lower-cased name goes, and every key stays lower-cased |
| UserMapping.UserMap.MatchUsers | Essentials/src/net/ess3/user/UserMap.java:143-158 | it throws if and only if the requester is null; otherwise the new match is the prepared match with the requested flags set |
| UserMapping.UserMap.MatchUsersIncludingHidden | Essentials/src/net/ess3/user/UserMap.java:131-135 | the two-argument overload always throws a NullPointerException |
| UserMapping.UserMap.MatchUsersExcludingHidden | Essentials/src/net/ess3/user/UserMap.java:137-141 | the match is prepared for the requester with no extra flags |
| UserMapping.UserMap.MatchUser | Essentials/src/net/ess3/user/UserMap.java:113-129 | the outcome is `MatchUserResult`; the exception is thrown if and only if the outcome is too many matches, and it carries the match in the state `Resolve` leaves |
| UserMapping.UserMap.MatchUserIncludingHidden | Essentials/src/net/ess3/user/UserMap.java:101-105 | the two-argument overload always crashes with a NullPointerException and throws no TooManyMatchesException |
| UserMapping.UserMap.MatchUserExcludingHidden | Essentials/src/net/ess3/user/UserMap.java:107-111 | the outcome is matchUser's with neither flag, and the exception is thrown exactly on too many matches |

## Left out

- Runtime.Lower: only ASCII letters are lower-cased. The Unicode case mapping of `Locale.US` and `Locale.ENGLISH` is not modelled.
- Query.CollectNames: a `HashSet` has no defined iteration order. The model fixes one order, the order of first insertion. Every property proved holds for that order, and the sequence is distinct.
- Query.Candidates: `getAllUniqueUsers` is a set from the storage layer. It is modelled as a sequence fixed by the world, in its iteration order. Nothing is assumed about its distinctness.
- The candidate set is held by value. When `getAllUniqueUsers` returns the storage layer's own set, `remove` would change that set. The model does not capture this sharing.
- `UserMap.getUser(name)` is a total function of the world (`World.userOf`). A name with no stored user, which would give a null user and a NullPointerException in `nextMatch`, is not modelled.
- A null nickname, which would make `matchString` throw, is not modelled. The same goes for the null player of an offline user in `checkUser` and in `getMessage`. The display name is a field of the user record.
- `getUser(Player)` is modelled through the player's name. A null requester gives the NullPointerException it causes.
- A null query string and a null sender from callers outside this core are not modelled. Strings here are never null.
- Message rendering through the translation table is not modelled. A message is its key and its arguments.
- `UserMatch.iterator()` returns the match itself. The model treats the for-each loop of `getMessage` as calls on the same object, which is exactly that aliasing. The method has no separate member.
- Lombok getters and setters other than `setHiddenSearch` and `setOfflineSearch` are plain field accesses in the model. Only those two setters are called from outside `match`.
- Storage-backed parts of `UserMap` are not part of this model: loading, `getUserFile`, `removeUser`, `getAllUniqueUsers` and the caches behind them. `IEssentials` is not part of this model either, beyond the settings, user map and server values it supplies.
- Concurrency: everything runs on one thread. A change to the players or the storage during a scan is not modelled; the world is fixed for one query.
- The display-name list of `getMessage` never reaches the translation table, because the loop always dereferences null first (`MessageNeverLists`). The list builder is still modelled and proved against a plain join.
