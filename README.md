# Rocket race session — a Dafny model

This project models the race-session core of the rocket-race web client.
A user picks two rockets, starts a race against a remote race service,
follows live progress pushed per rocket, and keeps a short history of
finished races.

- `types.dfy` (`Types`): the records the core passes around. These are the
  race record with its two participants `{id, progress, exploded}` and its
  optional winner, the rocket list entry, the progress entry, and JavaScript
  truthiness of an optional string (`Truthy`).
- `race_store.dfy` (`RaceStore`): the session store as a class `Store`. Its
  four fields are `activeRaceId`, `finishedRaces`, `selectedRockets` and
  `rocketProgress`. Its six actions each replace one field. The new values
  are computed by pure functions:
  - `Toggled`: the selection toggles, and a third rocket evicts the first-selected.
  - `Prepended`: the history is newest first, capped at ten, with no deduplication.
  - `Replay`: the progress map keeps the last value per rocket.
- `race_page.dfy` (`RacePage`): the race lifecycle that the page drives
  through the store. It covers:
  - the start guard;
  - the two progress subscriptions' `onData` handlers;
  - the completion predicate (first rocket to finish);
  - the bounded retry poll `CheckRaceResult`, a loop proved against `IsPollResult`;
  - the archive step and the "New Race" button;
  - a client method `RaceToHistory` that runs one whole race through these contracts.
- `race_result.dfy` (`RaceResult`): the finished-race card as a pure function
  of its two queries. It has the loading > error > not-found precedence, the
  status line, the rocket-info lookup with its fallbacks, the `isWinner`
  flags and the title suffix.
- `race_track.dfy` (`RaceTrack`): the live track. It has the winner flags,
  the bar colour priority and the messages shown.

The remote service is an oracle. The start mutation's answer is a parameter
(`StartResponse`), and so is the answer to each poll attempt
(`RaceService = (string, nat) -> FetchOutcome`, the answer to a query for a race id at a given attempt). The 500 ms pause
between poll attempts does nothing. Each store action and each handler runs
to completion as one step.

What the code does, and the model with it:
- There is no deduplication of finished races by id. Adding the same race twice
  gives two entries (`PrependedDoesNotDeduplicate`).
- There is no delay (debounce) before polling, and no staleness check of the
  poll result against the race that is active when it arrives.
- There is no cross-tab replication.
- Starting a race clears the whole progress map to empty. The two rockets have
  no entries until their first progress event.
- "New Race" clears only the active race id. The selection and the progress
  map stay.
- Completion is first-to-finish: one selected rocket at 100 or exploded is
  enough. This holds even though the code's variable is named `allRocketsFinished`.
- The history holds the race record that the poll returned (the race query's
  shape). The store's declared element type
  (`{id, uniqueKey, winner, duration, rocket1, rocket2}` in
  `app/rocket/types/index.ts`) is not what the page passes.

## Model

| member | source | states |
|---|---|---|
| `RaceStore.Without` | app/rocket/store/raceStore.ts:25 | the filter keeps every element other than the removed id with its multiplicity and drops every copy of that id; it never grows, shrinks when the id was present, and returns the input when it was absent |
| `RaceStore.WithoutConcat` | app/rocket/store/raceStore.ts:25 | the filter works element by element and keeps order: filtering a concatenation is the concatenation of the filtered parts |
| `RaceStore.WithoutUnique` | app/rocket/store/raceStore.ts:25 | filtering out an id that occurs once, at index i, gives the elements before i followed by those after it |
| `RaceStore.WithoutNoDuplicates` | app/rocket/store/raceStore.ts:25 | filtering keeps a duplicate-free sequence duplicate-free |
| `RaceStore.WithoutAppended` | app/rocket/store/raceStore.ts:25 | filtering an id out of a sequence that has it only as its appended last element gives the sequence back |
| `RaceStore.Toggled` | app/rocket/store/raceStore.ts:20-36 | the selected id is present afterwards iff it was absent before; deselecting keeps every other id and adds none; selecting puts the new id last, leaves one or two selected and keeps the most recent earlier one first |
| `RaceStore.DeselectKeepsOrder` | app/rocket/store/raceStore.ts:23-26 | selecting an already-selected id removes it and keeps the remaining ids in their original order |
| `RaceStore.SelectEvictsFirst` | app/rocket/store/raceStore.ts:28-31 | with two selected, a new id gives `[second, new]` and the first-selected is gone |
| `RaceStore.SelectAppends` | app/rocket/store/raceStore.ts:33-35 | with fewer than two selected, a new id is appended at the end |
| `RaceStore.SelectPreservesValid` | app/rocket/store/raceStore.ts:20-36 | a selection of length at most two without duplicates stays so after `selectRocket` |
| `RaceStore.SelectTwiceUndoes` | app/rocket/store/raceStore.ts:20-36 | selecting a new id that fits and selecting it again restores the previous selection (in particular twice from empty gives empty) |
| `RaceStore.Prepended` | app/rocket/store/raceStore.ts:15-18 | the new race is first, the previous races follow in order, and the length is the old length plus one capped at ten |
| `RaceStore.PrependedDropsOldest` | app/rocket/store/raceStore.ts:17 | adding to a full history of ten drops its oldest (last) entry |
| `RaceStore.PrependedDoesNotDeduplicate` | app/rocket/store/raceStore.ts:15-18 | while there is room, adding a race adds one more entry with its id, whatever entries with that id exist already |
| `RaceStore.SameRaceTwiceGivesTwoEntries` | app/rocket/store/raceStore.ts:15-18 | adding the same race twice to an empty history gives two entries |
| `RaceStore.ReplayLastValueWins` | app/rocket/store/raceStore.ts:40-46 | `Replay` (the progress map after a run of `updateRocketProgress` calls): after a run of progress updates a rocket has an entry iff it had one or some update named it; its entry is the value of the last update naming it, or its old entry if none did |
| `RaceStore.Store.constructor` | app/rocket/store/raceStore.ts:8-11 | initial state: no active race, empty history, empty selection, empty progress map |
| `RaceStore.Store.SetActiveRace` | app/rocket/store/raceStore.ts:13 | replaces the active race id and leaves the other three fields unchanged |
| `RaceStore.Store.AddFinishedRace` | app/rocket/store/raceStore.ts:15-18 | the history becomes `Prepended(old history, race)`; other fields unchanged; the store invariant is kept |
| `RaceStore.Store.SelectRocket` | app/rocket/store/raceStore.ts:20-36 | the selection becomes `Toggled(old selection, id)`; other fields unchanged; the store invariant is kept |
| `RaceStore.Store.ClearSelectedRockets` | app/rocket/store/raceStore.ts:38 | empties the selection and leaves the other three fields unchanged |
| `RaceStore.Store.UpdateRocketProgress` | app/rocket/store/raceStore.ts:40-46 | the entry of the given rocket becomes the given value; every other key keeps its presence and value; other fields unchanged |
| `RaceStore.Store.ClearRocketProgress` | app/rocket/store/raceStore.ts:48 | empties the progress map and leaves the other three fields unchanged |
| `RacePage.HandleStartRace` | app/rocket/app/page.tsx:44-63 | the mutation is sent iff exactly two rockets are selected, with those two in order, and from a valid store they are two different rockets; only a response carrying a non-empty id makes it the active race and clears progress, keeping selection and history; with no id, an error or no request the state is unchanged |
| `RacePage.OnProgressData` | app/rocket/app/page.tsx:90-116 | an event is applied iff the race id is set, the subscription's selection slot holds an id, and the event carries data; an applied event overwrites the entry of the rocket it names and nothing else changes |
| `RacePage.SomeFinished` | app/rocket/app/page.tsx:122-125 | `.some` over the selection holds iff some selected rocket has a progress entry with progress 100 or exploded |
| `RacePage.CompletionIsFirstToFinish` | app/rocket/app/page.tsx:120-127 | `RaceCompleted` (the effect's guard and `.some`) holds iff a race id is set, exactly two rockets are selected, and at least one of them finished (first-to-finish) |
| `RacePage.CheckRaceResult` | app/rocket/app/page.tsx:65-87 | queries the service for `raceId` only, makes at most `maxAttempts` fetches (none for a budget of zero or less); returns the race of the first attempt that found one, and returns nothing only after every attempt failed or found no race; a failed attempt counts and the loop goes on |
| `RacePage.PollResultUnique` | app/rocket/app/page.tsx:65-87 | for given answers and budget the poll's result and number of fetches are determined |
| `RacePage.FailuresExhaustPoll` | app/rocket/app/page.tsx:66-84 | ten failing fetches in a row make the default poll return nothing after ten attempts |
| `RacePage.ArchiveRace` | app/rocket/app/page.tsx:128-134 | a found race is prepended to the history, the active race is cleared and so is the selection; with no race nothing changes and the race stays active; progress is untouched |
| `RacePage.CheckCompletion` | app/rocket/app/page.tsx:119-135 | polling starts iff the completion predicate holds; the poll uses the default budget of ten and its result is archived as `ArchiveRace` states; without completion nothing changes |
| `RacePage.NewRace` | app/rocket/app/page.tsx:181 | clears only the active race id; selection, progress and history stay |
| `RaceResult.FindRocket` | app/rocket/components/RaceResult.tsx:60 | returns nothing iff no rocket has the id; otherwise the first rocket in the list with that id |
| `RaceResult.GetRocketInfo` | app/rocket/components/RaceResult.tsx:59-66 | the name shown is never empty; a rocket missing from the list gets the defaults; a found rocket's description and image are shown as they are |
| `RaceResult.UnknownRocketInfo` | app/rocket/components/RaceResult.tsx:59-66 | a rocket missing from the list gets name "Fusée inconnue" and empty description and image |
| `RaceResult.KnownRocketInfo` | app/rocket/components/RaceResult.tsx:59-66 | a rocket in the list gets the fields of its first entry, with "Fusée inconnue" when that entry's name is empty |
| `RaceResult.GetRaceStatus` | app/rocket/components/RaceResult.tsx:71-79 | both exploded iff the status is the both-exploded one (whatever the winner); otherwise a non-empty winner gives a win naming rocket 1 when the winner is rocket 1's id and rocket 2 in every other case; otherwise "in progress" |
| `RaceResult.LastFour` | app/rocket/components/RaceResult.tsx:84 | the title suffix is the suffix of the race id of length four, or the whole id when it is shorter |
| `RaceResult.RenderRaceResult` | app/rocket/components/RaceResult.tsx:22-105 | loading wins over error, error over not-found, not-found over the card; the race query's error message is shown first; on a card the title ends in the id's last four characters, the status is highlighted iff there is a winner, each display's `isWinner` is exactly `winner == rocket.id`; the rocket list falls back to empty, each display's details are `GetRocketInfo` of that list for its rocket, and the status is `GetRaceStatus` of the race and those details, so it is the both-exploded status iff both rockets exploded |
| `RaceResult.StatusAgreesWithWinnerFlag` | app/rocket/components/RaceResult.tsx:71-105 | on a card with a win, the status names the rocket whose display is flagged winner, whenever the winner is one of the two rockets |
| `RaceTrack.RenderRaceTrack` | app/rocket/components/RaceTrack.tsx:11-75 | each lane's winner flag is progress == 100 and not exploded, computed from that lane alone; trophy and bounce iff winner; the bar is red iff exploded, else pulsing iff winner, else the lane's plain colour; the explosion message iff exploded, the winner message iff winner |
| `RaceTrack.ExplodedNeverWins` | app/rocket/components/RaceTrack.tsx:11-12 | an exploded rocket is never shown as winner, whatever its progress |
| `RaceTrack.BothLanesCanWin` | app/rocket/components/RaceTrack.tsx:11-12 | the two winner flags are not mutually exclusive: both rockets at 100 and not exploded are both winners |

## Left out

- Persistence of the store to local storage under the key "race-storage" is not modelled. It is I/O. So is restoring the store on load.
- React effect scheduling is not modelled. This covers the completion effect firing again on every change, the subscriptions' lifecycle and the interleaving of asynchronous calls. Each action and handler is one atomic step. In particular, the completion check can fire again while a poll is in flight, which can archive the same race twice. The model shows only that the history allows such duplicates.
- The 500 ms pause between poll attempts, `console` logging and the GraphQL transport are not modelled. The start and poll answers are oracle parameters.
- Rocket list loading in the page and the page's derivation of the track's props are not modelled. This derivation (`rocketProgress[selectedRockets[i]]?.progress || 0` and the name lookup) is rendering glue.
- `RocketCard`, `RocketDisplay` and the layout markup are not modelled. They are rendering only.
- RaceResult.LastFour: strings are modelled as sequences of Unicode code points, not of JavaScript's UTF-16 code units. `slice(-4)` counts code units, so for a race id that ends in characters outside the Basic Multilingual Plane (an emoji, say) the title suffix differs, and an id ending in half a surrogate pair cannot be represented.
- Progress is an unbounded integer. JavaScript numbers, fractions and NaN are not modelled.
- `RaceResult.StatusText` renders a status as French text. No property is stated about it beyond its definition.
