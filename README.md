# Tournament registration screen: the edit session

This project models the registration part of OpenITG's tournament-options
screen (`ScreenTournamentOptions`). An operator registers new competitors,
or modifies and deletes existing ones, through two mini-menus. While a
player is being entered, the screen keeps an **edit session** in
process-wide globals:

- the display name and the high-score name being edited;
- the seed index, kept as a 32-bit `unsigned`;
- whether the session belongs to an already registered competitor;
- that competitor's roster index.

Menu choices, returns from text entry and prompt answers move the session.
The screen shows it through a table of seven shared menu rows. A refresh
copies those rows into the register menu and the modify menu.

The model is laid out in six modules:

- `Text`: the upper-casing applied to every high-score name (ASCII only, as
  `MakeUpper` does in the C locale), and the decimal text `"%i"` gives a number.
- `Numbers`: the 32-bit conversions around the seed. The session keeps an
  `unsigned`, text entry produces an `int` (reduced modulo 2^32), and a
  competitor record and `"%i"` read the value back as a signed `int`.
- `MemoryCards`: the "Load from USB" scan. It is a loop method, proved
  against a recursive first-match specification.
- `RegisterMenu`: the shared row table, the two menus built from it, and
  `Refresh`, the value-level meaning of one refresh.
- `TournamentOptions`: the session as a value (`Session`) and its transition
  function `NextSession`, plus `ChoiceEffects`/`MessageEffects` for what the
  screen asks of the screen manager. The class `ScreenTournamentOptions`
  holds the session fields, the current competitor and editable profile,
  and the row tables as arrays. Its methods are proved to move the state
  exactly as `NextSession` and `Refresh` say.
- `Scenarios`: whole interactions driven through the class's methods only.

Collaborators are inputs. The roster is a sequence of `Competitor` objects.
The tournament manager's answers arrive in a `Host` value:

- the competitor count;
- the registration result;
- the load result of each memory-card slot;
- the string-to-integer conversion of the seed text.

What the screen asks for (a mini-menu, a text entry, a prompt, a system
message, a reload) is returned as a sequence of `Effect`s. So are the calls
it makes into the roster: `RosterRegister` carries the name, score name and
seed handed to RegisterCompetitor, and `RosterDelete` carries the
competitor handed to DeleteCompetitor.

The copy loop of `RefreshRegisterMenuRows` is modelled as written. It
copies shared row `r` into menu index `r` for `r` from set_player_name
through exit_and_register. In the register menu, index and code coincide,
so nothing moves. The modify menu starts at set_player_name, so it is
shifted. After any refresh, the modify menu holds:

- the display-name row twice (index 0 is never refreshed);
- the Finish row where Cancel was;
- no Cancel row at all.

`RegisterMenu.ModifyMenuLayoutAfterRefresh` states this layout.

Three behaviours of the code are easy to miss:

- Pressing START on "Add Player" shows the register menu without resetting
  the session. Values left over from a cancelled or half-finished edit,
  including the registered flag of an earlier modify session, are still
  shown and still used.
- A deletion does not reset the session. After the delete prompt the screen
  only reloads, and the session still names the deleted competitor
  (`TournamentOptions.OtherMessagesKeepSession`).
- A refused registration shows the error as a system message. The menu is
  not shown again.

The class invariant `Valid()` says that the row tables have their sizes,
and that a registered session always has a current competitor and a
resolved (non-negative) roster index. Every method that changes the screen
keeps it, except `LoadPlayerDataFromCompetitor`. That method keeps it
exactly when the resulting index is resolved: it is not when the index was
unresolved and the roster lookup reports -1. Its only caller, `MenuStart`,
sets the index from the selection first.

## Model

| member | source | states |
|---|---|---|
| Text.ToUpperIsUpperCase | src/ScreenTournamentOptions.cpp:331 | after MakeUpper no character of the score name is a lower-case letter, whatever the input |
| Text.ToUpperKeepsUpperCase | src/ScreenTournamentOptions.cpp:331 | a name with no lower-case letter is left exactly as it is |
| Text.ToUpperIdempotent | src/ScreenTournamentOptions.cpp:331 | upper-casing an already upper-cased name changes nothing |
| Text.ToUpperAt | src/ScreenTournamentOptions.cpp:331 | MakeUpper works character by character: position i of the result is the upper-cased character i |
| Text.DecimalRoundTrip | src/ScreenTournamentOptions.cpp:106 | reading back the digits printed for a natural number gives that number |
| Text.FormatIntInjective | src/ScreenTournamentOptions.cpp:106 | two different integers are never printed as the same "%i" text |
| Numbers.ToUnsigned32 | src/ScreenTournamentOptions.cpp:337 | the int produced by the seed entry is stored in the unsigned seed as a value in [0, 2^32) congruent to it modulo 2^32 |
| Numbers.AsSigned32 | src/ScreenTournamentOptions.cpp:145 | the unsigned seed written to the competitor's int field is a 32-bit int congruent to it modulo 2^32 |
| Numbers.UnsignedRoundTrip | src/ScreenTournamentOptions.cpp:128-146 | a seed saved to a competitor and loaded back is the same unsigned seed |
| Numbers.SignedRoundTrip | src/ScreenTournamentOptions.cpp:128-146 | a competitor's 32-bit seed loaded into the session and saved back is unchanged |
| Numbers.SeedTextInjective | src/ScreenTournamentOptions.cpp:106 | the seed row shows different text for different seeds |
| MemoryCards.FirstProfileSlot | src/ScreenTournamentOptions.cpp:240-258 | the slot the scan stops at: every slot before it reports no profile, and it holds one (or all slots are exhausted) |
| MemoryCards.ScanMemoryCards | src/ScreenTournamentOptions.cpp:235-263 | the loop raises exactly the prompt of the first slot holding a profile (or "no cards") and leaves exactly that slot's profile, or the cleared one |
| MemoryCards.StopsAtFirstProfile | src/ScreenTournamentOptions.cpp:244-257 | empty slots are skipped and the first slot holding a profile decides the prompt |
| MemoryCards.LaterSlotsIgnored | src/ScreenTournamentOptions.cpp:256-257 | slots after the first one holding a profile change neither the prompt nor the loaded profile |
| MemoryCards.NoCardsIffNoProfile | src/ScreenTournamentOptions.cpp:260-261 | the "no cards available" message appears exactly when no slot holds a profile |
| MemoryCards.ConfirmIffSuccess | src/ScreenTournamentOptions.cpp:249-253 | a yes/no prompt is raised exactly when the first slot holding a profile loads successfully, and it shows the loaded profile's names |
| MemoryCards.MessageAlwaysSet | src/ScreenTournamentOptions.cpp:247-261 | the prompt is never empty, and a tampered slot is named by its 1-based player number |
| MemoryCards.AliceExample | src/ScreenTournamentOptions.cpp:240-263 | with slot 1 empty and slot 2 holding "Alice"/"ALIC", the scan asks to confirm those names whatever slot 3 holds |
| RegisterMenu.InitialRow | src/ScreenTournamentOptions.cpp:65-74 | each shared row starts with its own code, and only Finish starts disabled |
| RegisterMenu.InitialMenus | src/ScreenTournamentOptions.cpp:65-98 | seven shared rows; the register menu holds codes 0..5 and the modify menu codes 1..6, in order |
| RegisterMenu.WithSessionValues | src/ScreenTournamentOptions.cpp:103-109 | the shared rows show the session's names and seed text, Finish is enabled iff both names are non-empty, and nothing else in the table changes |
| RegisterMenu.Refresh | src/ScreenTournamentOptions.cpp:101-116 | a refresh keeps the row counts, and each of the three value rows keeps a displayed value |
| RegisterMenu.RefreshCopiesByIndex | src/ScreenTournamentOptions.cpp:101-116 | after a refresh the shared rows show the session, both menus hold shared row i at index i for set_player_name <= i <= exit_and_register, and every other menu row is unchanged |
| RegisterMenu.RefreshOverwritesEarlier | src/ScreenTournamentOptions.cpp:101-116 | refreshing twice is the same as refreshing once with the later session |
| RegisterMenu.RegisterMenuKeepsLayout | src/ScreenTournamentOptions.cpp:77-116 | the register menu keeps its row codes, and its Finish row is enabled iff both names are non-empty |
| RegisterMenu.ModifyMenuLayoutAfterRefresh | src/ScreenTournamentOptions.cpp:89-116 | after the copy by index the modify menu has codes 1,1,2,3,4,6 and no Cancel row |
| TournamentOptions.CancelledEntryKeepsValues | src/ScreenTournamentOptions.cpp:321-339 | a cancelled text entry leaves the session unchanged, except that the score name is upper-cased again |
| TournamentOptions.ScoreNameIsUpperCase | src/ScreenTournamentOptions.cpp:327-333 | after a score-name entry returns, cancelled or not, the score name has no lower-case letter |
| TournamentOptions.AcceptedEntryStoresAnswer | src/ScreenTournamentOptions.cpp:321-339 | an accepted entry stores the display name as typed, the score name upper-cased, or the converted seed, and nothing else |
| TournamentOptions.ResetOnlyOnAcceptedRegistration | src/ScreenTournamentOptions.cpp:278-296 | Finish from the register menu resets the session iff the registration is accepted |
| TournamentOptions.FinishModifyAndCancelReset | src/ScreenTournamentOptions.cpp:297-318 | Finish from the modify menu and Cancel from either menu always reset the session |
| TournamentOptions.OtherMessagesKeepSession | src/ScreenTournamentOptions.cpp:226-347 | prompt returns and every other menu choice leave the session as it was |
| TournamentOptions.RegisteredChangesOnlyByReset | src/ScreenTournamentOptions.cpp:224-356 | no message changes the registered flag except by resetting the whole session |
| TournamentOptions.TextReturnShowsSessionMenu | src/ScreenTournamentOptions.cpp:321-339 | every text-entry return shows the modify menu iff the session is registered, and keeps that flag |
| TournamentOptions.RegisterFinishOutcome | src/ScreenTournamentOptions.cpp:278-296 | Finish from the register menu first hands the roster the session's name, score name and seed (and only then); it reloads the screen iff registration is accepted, announcing the name from before the reset and the new competitor count |
| TournamentOptions.DeletePromptNamesCompetitor | src/ScreenTournamentOptions.cpp:308-314 | Delete asks a yes/no question defaulting to no, naming the competitor's 1-based index and display name |
| TournamentOptions.CancelAndUnknownCodes | src/ScreenTournamentOptions.cpp:315-319 | Cancel and codes no row carries ask for nothing; Cancel resets the session and other codes keep it |
| TournamentOptions.ScreenTournamentOptions.constructor | src/ScreenTournamentOptions.cpp:29-98 | the program starts with the reset session, the initial row table and menus, and "Press START" on the Add Player row |
| TournamentOptions.ScreenTournamentOptions.ResetPlayerData | src/ScreenTournamentOptions.cpp:163-170 | both names empty, seed 0, not registered, index -1; competitor and profile untouched |
| TournamentOptions.ScreenTournamentOptions.LoadPlayerDataFromCompetitor | src/ScreenTournamentOptions.cpp:128-139 | the session takes the competitor's names and seed (converted to unsigned), becomes registered, and keeps an already resolved index; otherwise it takes the roster lookup. From a valid state, the invariant holds afterwards iff the resulting index is non-negative |
| TournamentOptions.ScreenTournamentOptions.SavePlayerDataToCompetitor | src/ScreenTournamentOptions.cpp:141-146 | the competitor receives the session's names and seed (as a signed int) and nothing else changes |
| TournamentOptions.ScreenTournamentOptions.LoadPlayerDataFromProfile | src/ScreenTournamentOptions.cpp:157-161 | the session takes both names from the editable profile; seed, flag and index are unchanged |
| TournamentOptions.ScreenTournamentOptions.DeleteCompetitor | src/ScreenTournamentOptions.cpp:149-154 | the current competitor is handed to the roster for deletion, and a failed deletion, and only a failed one, is announced |
| TournamentOptions.ScreenTournamentOptions.RefreshRegisterMenuRows | src/ScreenTournamentOptions.cpp:101-116 | the three row arrays become exactly `Refresh` of their previous contents and the session |
| TournamentOptions.ScreenTournamentOptions.ShowSessionInSharedRows | src/ScreenTournamentOptions.cpp:103-109 | the shared row array becomes `WithSessionValues` of its previous contents |
| TournamentOptions.ScreenTournamentOptions.CopySharedRowsByIndex | src/ScreenTournamentOptions.cpp:111-115 | each menu array becomes its previous contents with shared rows 1..4 copied in at the same indices |
| TournamentOptions.ScreenTournamentOptions.DisplayRegisterMiniMenu | src/ScreenTournamentOptions.cpp:118-126 | the rows are refreshed, then the modify or the register menu is shown, as asked |
| TournamentOptions.ScreenTournamentOptions.Init | src/ScreenTournamentOptions.cpp:185-215 | the profile is cleared, Add Player offers "Press START", Modify Player offers the competitor names or exactly "-NO ENTRIES-", the rows are refreshed, and the session is untouched |
| TournamentOptions.ScreenTournamentOptions.PopulateLines | src/ScreenTournamentOptions.cpp:191-206 | both rows are cleared, then filled as above |
| TournamentOptions.ScreenTournamentOptions.HandleScreenMessage | src/ScreenTournamentOptions.cpp:224-356 | the session moves as `NextSession` says and the effects are `MessageEffects`; only Finish from the modify menu writes the competitor, only Load from USB sets the profile, and the rows are refreshed exactly when a menu is shown again |
| TournamentOptions.ScreenTournamentOptions.OnMenuChoice | src/ScreenTournamentOptions.cpp:226-319 | the row-code switch: session as `NextSession`, effects as `ChoiceEffects`, the competitor saved only by Finish from the modify menu, and Finish from the register menu handing the session's values to the roster |
| TournamentOptions.ScreenTournamentOptions.OnEntryReturned | src/ScreenTournamentOptions.cpp:321-347 | text and prompt returns: session as `NextSession`, the session's menu shown again (after the USB prompt, always the register menu), and a reload after the delete prompt |
| TournamentOptions.ScreenTournamentOptions.StoreEntry | src/ScreenTournamentOptions.cpp:321-339 | a returning entry updates the session as `NextSession` says and touches nothing else |
| TournamentOptions.ScreenTournamentOptions.MenuStart | src/ScreenTournamentOptions.cpp:358-387 | only a first press acts. Add Player shows the register menu without a reset. Modify Player does nothing on an empty roster; otherwise it makes the selected competitor current and loads it with the selection as index, then shows the modify menu. Other rows go to the base screen |
| Scenarios.RegisterBob | src/ScreenTournamentOptions.cpp:278-291 | Add Player, three entries and an accepted Finish hand "Bob", "BOB" and 7 to the roster, announce "Bob" as the third competitor, reload, and leave the reset session |
| Scenarios.TypeBob | src/ScreenTournamentOptions.cpp:321-333 | from the reset session, entries "Bob" and "bob" leave display name "Bob" and score name "BOB" |
| Scenarios.TypeSeven | src/ScreenTournamentOptions.cpp:334-339 | a seed entry of "7" that converts to 7 stores seed 7 and leaves the names |
| Scenarios.ModifyKeepsNegativeSeed | src/ScreenTournamentOptions.cpp:128-146 | modifying a competitor whose seed is -1 stores 2^32 - 1 in the session (the seed row displays "-1"), and Finish writes -1 back and resets the session |
| TournamentOptions.ScreenTournamentOptions.AddPlayerResettingSession | src/ScreenTournamentOptions.cpp:365-367 | corrected Add Player (see Findings): the session is reset, so it is unregistered, and the register menu is shown with the reset values |
| Scenarios.ModifyThenDelete | src/ScreenTournamentOptions.cpp:308-314 | Modify Player, Delete and a yes answer hand the competitor to the roster and leave the session registered to it |
| Scenarios.AddAfterDeleteStaysRegistered | src/ScreenTournamentOptions.cpp:365-367 | as written: after a deletion and reload, Add Player shows the register menu while the session is still registered |
| Scenarios.AddAfterDeleteWithReset | src/ScreenTournamentOptions.cpp:230-263 | with the corrected Add Player, the same sequence reaches Load from USB legitimately, and with no cards the scan says so |

## Left out

- Screen transitions: MenuBack, GoToPrevScreen/GoToNextScreen, the SM_GoToPrevScreen/SM_GoToNextScreen messages, and what ReloadScreen does. A reload is only reported as an effect.
- The base options screen: Input, the InitMenu call in Init, ImportOptions/ExportOptions, and ScreenOptions::MenuStart. Rows other than the two of this screen are reported as `BaseMenuStart`.
- The per-player enable sets that Init fills (lines 194-197): they do not affect the session or the registration rows.
- The edit mode and default choice of a menu row: they are the same for every row and never change.
- Logging, checkpoints, theme metrics and the exact wording of messages. Prompts and system messages carry their data (names, numbers, reason), not the formatted text.
- The constructor's StartTournament call and the lifetime of the editable profile (new/SAFE_DELETE). Init replacing the profile is modelled as clearing it.
- TournamentManager and ProfileManager are not part of this model. The answers of RegisterCompetitor, DeleteCompetitor, GetNumCompetitors, GetCompetitorNames, FindCompetitorIndex and the memory-card loads are passed in. What the screen hands to RegisterCompetitor and DeleteCompetitor is recorded as `RosterRegister`/`RosterDelete` effects; how the roster changes is not modelled.
- The memory-card scan assumes a failed load leaves the cleared profile as it was.
- GetDisplayName's fallback for an empty display name: the profile's display name is taken as is.
- ScreenPrompt's callback timing. LoadPlayerDataFromProfile and DeleteCompetitor are separate operations the caller runs when a prompt is answered yes, before the matching prompt-return message.
- The strtof-then-int conversion of the seed text is a function parameter. Text that is not a number and values beyond the int range are not modelled.
- Competitor's seed field is taken to be a 32-bit int. The header declaring it is not part of this model.
- The number of memory-card slots is whatever the input sequence holds, not a fixed NUM_PLAYERS.
- Concurrency: the globals are only touched from the screen's message loop.
- TournamentOptions.ScreenTournamentOptions.HandleScreenMessage: Delete requires a current competitor. The source dereferences it without a check (line 311), and the model does not describe a null dereference. The assertions at line 233 (Load from USB only for an unregistered session) and line 299 (Finish from the modify menu only with a current competitor) are preconditions. The model does not describe the abort that follows when they fail. The first one is reachable (see Findings).
- TournamentOptions.ScreenTournamentOptions.OnMenuChoice: the same two assertions (lines 233 and 299) are preconditions here, as is the dereference of the current competitor by Delete.

## Findings

| source | as written | input that shows it | evidently intended | confidence | as-written member | corrected member |
|---|---|---|---|---|---|---|
| src/ScreenTournamentOptions.cpp:365-367 | Add Player shows the register menu without resetting the session, so a session still registered to a modified competitor is offered Load from USB, whose handler asserts the session is unregistered (line 233) | Modify Player on a one-entry roster, Delete, answer yes, reload, Add Player, Load from USB | entering Add Player starts a fresh, unregistered session | not executed; the state is proved reachable, the abort follows from the assertion | Scenarios.AddAfterDeleteStaysRegistered | TournamentOptions.ScreenTournamentOptions.AddPlayerResettingSession |

`MenuStart` stays as written. `Scenarios.AddAfterDeleteWithReset` runs the
same sequence with the corrected Add Player and reaches Load from USB
within its precondition.
