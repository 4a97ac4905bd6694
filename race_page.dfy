/** The race lifecycle that the race page drives through the store: starting a
    race with exactly two selected rockets, feeding progress events into the
    store, detecting completion (first rocket to finish), polling for the
    authoritative race record with a bounded number of attempts, archiving
    the result, and abandoning a race with "New Race". The remote service is
    an oracle: the start mutation's answer and the answer to each poll attempt
    are parameters, and the 500 ms pause between attempts does nothing. */
module RacePage {
  import opened Types
  import opened RaceStore

  /** Poll attempts when no budget is given (`maxAttempts = 10`). */
  const DefaultMaxAttempts := 10

  // ---------------------------------------------------------------------------
  // Starting a race

  /** What the start mutation gave back: it threw, or it returned data whose
      `startRace.id` may be missing. */
  datatype StartResponse = StartFailed | StartReturned(raceId: Option<string>)

  /** The response is acted on only when it carries a (truthy) race id. */
  predicate StartAccepted(response: StartResponse)
  {
    response.StartReturned? && Truthy(response.raceId)
  }

  /** `handleStartRace`: only with exactly two rockets selected is the mutation
      sent, for those two in selection order; only a response carrying an id
      makes it the active race and clears the progress map. `request` is the
      pair of rocket ids sent, if any. */
  method HandleStartRace(store: Store, response: StartResponse) returns (request: Option<(string, string)>)
    modifies store
    ensures |old(store.selectedRockets)| != 2 <==> request.None?
    ensures request.Some? ==>
              request.value == (old(store.selectedRockets)[0], old(store.selectedRockets)[1])
    // a valid store never starts a race of a rocket against itself
    ensures old(store.Valid()) && request.Some? ==> request.value.0 != request.value.1
    ensures if request.Some? && StartAccepted(response) then
              && store.activeRaceId == response.raceId
              && store.rocketProgress == map[]
              && store.selectedRockets == old(store.selectedRockets)
              && store.finishedRaces == old(store.finishedRaces)
            else
              && store.activeRaceId == old(store.activeRaceId)
              && store.rocketProgress == old(store.rocketProgress)
              && store.selectedRockets == old(store.selectedRockets)
              && store.finishedRaces == old(store.finishedRaces)
    ensures old(store.Valid()) ==> store.Valid()
  {
    if |store.selectedRockets| != 2 {
      return None;
    }
    request := Some((store.selectedRockets[0], store.selectedRockets[1]));
    match response {
      case StartFailed =>
        // the error is logged and swallowed
      case StartReturned(raceId) =>
        if Truthy(raceId) {
          store.SetActiveRace(raceId);
          store.ClearRocketProgress();
        }
    }
  }

  // ---------------------------------------------------------------------------
  // Progress subscriptions

  /** One pushed `rocketProgress` event. */
  datatype ProgressEvent = ProgressEvent(raceId: string, rocketId: string, progress: int, exploded: bool)

  /** Subscription `slot` (0 or 1) is live unless skipped by
      `!raceId || !selectedRockets[slot]`. */
  predicate SubscriptionActive(raceId: Option<string>, sel: seq<string>, slot: nat)
  {
    Truthy(raceId) && slot < |sel| && sel[slot] != ""
  }

  /** The `onData` handler of subscription `slot`: a delivered event carrying
      `rocketProgress` overwrites the entry of the rocket the event names;
      a skipped subscription delivers nothing. */
  method OnProgressData(store: Store, slot: nat, data: Option<ProgressEvent>) returns (applied: bool)
    requires slot < 2
    modifies store
    ensures applied <==> SubscriptionActive(old(store.activeRaceId), old(store.selectedRockets), slot) && data.Some?
    ensures store.rocketProgress ==
              if applied then
                old(store.rocketProgress)[data.value.rocketId := RocketProgress(data.value.progress, data.value.exploded)]
              else old(store.rocketProgress)
    ensures store.activeRaceId == old(store.activeRaceId) && store.finishedRaces == old(store.finishedRaces)
    ensures store.selectedRockets == old(store.selectedRockets)
    ensures old(store.Valid()) ==> store.Valid()
  {
    applied := false;
    if SubscriptionActive(store.activeRaceId, store.selectedRockets, slot) {
      match data {
        case None =>
        case Some(event) =>
          store.UpdateRocketProgress(event.rocketId, RocketProgress(event.progress, event.exploded));
          applied := true;
      }
    }
  }

  // ---------------------------------------------------------------------------
  // Completion detection

  /** Rocket `id` has a progress entry that reached 100 or exploded. */
  predicate HasFinished(progress: map<string, RocketProgress>, id: string)
  {
    id in progress && (progress[id].progress == 100 || progress[id].exploded)
  }

  /** `ids.some(id => progress[id] && (progress[id].progress === 100 || progress[id].exploded))`. */
  function SomeFinished(ids: seq<string>, progress: map<string, RocketProgress>): (r: bool)
    ensures r <==> exists i :: 0 <= i < |ids| && HasFinished(progress, ids[i])
  {
    if ids == [] then false
    else if HasFinished(progress, ids[0]) then true
    else
      var rest := SomeFinished(ids[1..], progress);
      assert forall i :: 1 <= i < |ids| ==> ids[i] == ids[1..][i - 1];
      rest
  }

  /** The completion check of the page: a race is active, two rockets are
      selected and at least one of them has finished. */
  predicate RaceCompleted(raceId: Option<string>, sel: seq<string>, progress: map<string, RocketProgress>)
  {
    Truthy(raceId) && |sel| == 2 && SomeFinished(sel, progress)
  }

  /** First-to-finish: completion needs only one of the two selected rockets
      to have reached 100 or exploded, whatever the other one's state. */
  lemma CompletionIsFirstToFinish(raceId: Option<string>, sel: seq<string>, progress: map<string, RocketProgress>)
    ensures RaceCompleted(raceId, sel, progress) <==>
              Truthy(raceId) && |sel| == 2 && (HasFinished(progress, sel[0]) || HasFinished(progress, sel[1]))
  {
  }

  // ---------------------------------------------------------------------------
  // Polling for the race result

  /** What one poll attempt got: the query threw, or it returned data whose
      `race` may be null. */
  datatype FetchOutcome = FetchFailed | FetchReturned(race: Option<Race>)

  /** The attempt found the race. */
  predicate Resolved(outcome: FetchOutcome)
  {
    outcome.FetchReturned? && outcome.race.Some?
  }

  /** The number of attempts a budget allows (a loop `attempt < maxAttempts`). */
  function Budget(maxAttempts: int): nat
  {
    if maxAttempts < 0 then 0 else maxAttempts
  }

  /** The race service's answer to the `j`-th query for race `id` (counting from 0). */
  type RaceService = (string, nat) -> FetchOutcome

  /** `race` and `attempts` are what polling race `raceId` gives when the
      service answers `service(raceId, 0)`, `service(raceId, 1)`, ...: the race of the first attempt that found one, after no more
      attempts than the budget; or nothing, after the whole budget was spent
      on attempts that failed or found no race. */
  ghost predicate IsPollResult(service: RaceService, raceId: string, maxAttempts: int, race: Option<Race>, attempts: nat)
  {
    && attempts <= Budget(maxAttempts)
    && (forall j: nat :: j < attempts && Resolved(service(raceId, j)) ==> j == attempts - 1)
    && if race.Some? then
         attempts > 0 && service(raceId, attempts - 1) == FetchReturned(race)
       else
         attempts == Budget(maxAttempts) && forall j: nat :: j < attempts ==> !Resolved(service(raceId, j))
  }

  /** A poll has only one possible result. */
  lemma PollResultUnique(service: RaceService, raceId: string, maxAttempts: int,
                         race1: Option<Race>, attempts1: nat, race2: Option<Race>, attempts2: nat)
    requires IsPollResult(service, raceId, maxAttempts, race1, attempts1)
    requires IsPollResult(service, raceId, maxAttempts, race2, attempts2)
    ensures race1 == race2 && attempts1 == attempts2
  {
    if race1.Some? && race2.Some? {
      if attempts1 < attempts2 {
        assert Resolved(service(raceId, attempts1 - 1));
      } else if attempts2 < attempts1 {
        assert Resolved(service(raceId, attempts2 - 1));
      }
    } else if race1.Some? {
      assert Resolved(service(raceId, attempts1 - 1));
    } else if race2.Some? {
      assert Resolved(service(raceId, attempts2 - 1));
    }
  }

  /** `checkRaceResult(raceId, maxAttempts)`: up to `maxAttempts` queries for
      race `raceId`, each bypassing the cache, so each is a fresh `service` answer;
      a failing query swallowed and counted as an attempt, the first race
      found returned; `attempts` counts the queries made. */
  method CheckRaceResult(raceId: string, maxAttempts: int, service: RaceService)
    returns (race: Option<Race>, attempts: nat)
    ensures IsPollResult(service, raceId, maxAttempts, race, attempts)
  {
    var attempt: nat := 0;
    while attempt < maxAttempts
      invariant attempt <= Budget(maxAttempts)
      invariant forall j: nat :: j < attempt ==> !Resolved(service(raceId, j))
    {
      var outcome := service(raceId, attempt);
      match outcome {
        case FetchFailed =>
          // the error is logged and swallowed
        case FetchReturned(found) =>
          if found.Some? {
            return found, attempt + 1;
          }
      }
      // the 500 ms pause is not modelled
      attempt := attempt + 1;
    }
    return None, attempt;
  }

  /** Ten failing queries in a row end the default poll with nothing. */
  lemma FailuresExhaustPoll(service: RaceService, raceId: string, race: Option<Race>, attempts: nat)
    requires forall j: nat :: j < DefaultMaxAttempts ==> service(raceId, j) == FetchFailed
    requires IsPollResult(service, raceId, DefaultMaxAttempts, race, attempts)
    ensures race == None && attempts == DefaultMaxAttempts
  {
    assert forall j: nat :: j < DefaultMaxAttempts ==> !Resolved(service(raceId, j));
  }

  // ---------------------------------------------------------------------------
  // Archiving and abandoning

  /** The `.then` of the completion check: a found race is added to the
      history, the active race is cleared and so is the selection; with no
      race nothing changes and the race stays active. */
  method ArchiveRace(store: Store, race: Option<Race>)
    modifies store
    ensures race.Some? ==>
              && store.finishedRaces == Prepended(old(store.finishedRaces), race.value)
              && store.activeRaceId == None
              && store.selectedRockets == []
    ensures race.None? ==>
              && store.finishedRaces == old(store.finishedRaces)
              && store.activeRaceId == old(store.activeRaceId)
              && store.selectedRockets == old(store.selectedRockets)
    ensures store.rocketProgress == old(store.rocketProgress)
    ensures old(store.Valid()) ==> store.Valid()
  {
    if race.Some? {
      store.AddFinishedRace(race.value);
      store.SetActiveRace(None);
      store.ClearSelectedRockets();
    }
  }

  /** The completion-check effect: when the race has completed, poll for its
      record with the default budget and archive what the poll found.
      `polled` says whether polling started; `race` and `attempts` are its result. */
  method CheckCompletion(store: Store, service: RaceService)
    returns (polled: bool, race: Option<Race>, attempts: nat)
    modifies store
    ensures polled == RaceCompleted(old(store.activeRaceId), old(store.selectedRockets), old(store.rocketProgress))
    ensures polled ==> IsPollResult(service, old(store.activeRaceId).value, DefaultMaxAttempts, race, attempts)
    ensures !polled ==> race == None && attempts == 0
    ensures race.Some? ==>
              && store.finishedRaces == Prepended(old(store.finishedRaces), race.value)
              && store.activeRaceId == None
              && store.selectedRockets == []
    ensures race.None? ==>
              && store.finishedRaces == old(store.finishedRaces)
              && store.activeRaceId == old(store.activeRaceId)
              && store.selectedRockets == old(store.selectedRockets)
    ensures store.rocketProgress == old(store.rocketProgress)
    ensures old(store.Valid()) ==> store.Valid()
  {
    polled := RaceCompleted(store.activeRaceId, store.selectedRockets, store.rocketProgress);
    if !polled {
      return false, None, 0;
    }
    race, attempts := CheckRaceResult(store.activeRaceId.value, DefaultMaxAttempts, service);
    ArchiveRace(store, race);
  }

  /** The "New Race" button: clears the active race only; the selection and
      the progress map stay as they are. */
  method NewRace(store: Store)
    modifies store
    ensures store.activeRaceId == None
    ensures store.selectedRockets == old(store.selectedRockets)
    ensures store.rocketProgress == old(store.rocketProgress)
    ensures store.finishedRaces == old(store.finishedRaces)
    ensures old(store.Valid()) ==> store.Valid()
  {
    store.SetActiveRace(None);
  }

  // ---------------------------------------------------------------------------
  // A whole race, from selection to history

  /** Select R1 and R2, start race "race-9", rocket R1 reaches 100, the first
      poll returns the race won by R1: the history holds that race once, no
      race is active and nothing is selected. */
  method RaceToHistory()
  {
    var store := new Store();
    store.SelectRocket("R1");
    store.SelectRocket("R2");
    assert store.selectedRockets == ["R1", "R2"];

    var request := HandleStartRace(store, StartReturned(Some("race-9")));
    assert request == Some(("R1", "R2"));
    assert store.activeRaceId == Some("race-9") && store.rocketProgress == map[];

    var event := ProgressEvent("race-9", "R1", 100, false);
    var applied := OnProgressData(store, 0, Some(event));
    assert applied;
    assert HasFinished(store.rocketProgress, "R1");
    assert RaceCompleted(store.activeRaceId, store.selectedRockets, store.rocketProgress);

    var record := Race("race-9", RaceRocket("R1", 100, false), RaceRocket("R2", 40, false), Some("R1"));
    var service := (id: string, j: nat) => if id == "race-9" then FetchReturned(Some(record)) else FetchFailed;
    var polled, race, attempts := CheckCompletion(store, service);
    assert polled;
    assert IsPollResult(service, "race-9", DefaultMaxAttempts, Some(record), 1);
    PollResultUnique(service, "race-9", DefaultMaxAttempts, race, attempts, Some(record), 1);
    assert race == Some(record) && attempts == 1;
    assert store.finishedRaces == [record];
    assert store.activeRaceId == None && store.selectedRockets == [];
  }
}
