/** The finished-race card: what it shows given the state of its two queries
    (the race by id, the rocket list), the status line of a race, the rocket
    details looked up by id with their fallbacks, the per-rocket winner flag
    and the short race number in the title. */
module RaceResult {
  import opened Types

  /** Name shown for a rocket the list does not know (or knows without a name). */
  const UnknownRocketName := "Fusée inconnue"
  const RaceLoadErrorMessage := "Erreur lors du chargement de la course"
  const RocketsLoadErrorMessage := "Erreur lors du chargement des fusées"
  const BothExplodedMessage := "Les deux fusées ont explosé ! \U{1F4A5}"
  const WinsSuffix := " remporte la course ! \U{1F3C6}"
  const InProgressMessage := "Course en cours..."
  const TitlePrefix := "Course #"

  /** The part of a query result the card reads. */
  datatype QueryState<T> = QueryState(loading: bool, error: bool, data: Option<T>)

  /** Display details of a rocket. */
  datatype RocketInfo = RocketInfo(name: string, description: string, image: string)

  /** `rockets.find(r => r.id === id)`: the first rocket with that id. */
  function FindRocket(rockets: seq<Rocket>, id: string): (r: Option<Rocket>)
    ensures r.None? <==> forall k :: 0 <= k < |rockets| ==> rockets[k].id != id
    ensures r.Some? ==> exists i :: 0 <= i < |rockets| && rockets[i] == r.value && rockets[i].id == id &&
                          forall k :: 0 <= k < i ==> rockets[k].id != id
  {
    if rockets == [] then None
    else if rockets[0].id == id then Some(rockets[0])
    else
      var rest := FindRocket(rockets[1..], id);
      assert forall k :: 1 <= k < |rockets| ==> rockets[k] == rockets[1..][k - 1];
      if rest.Some? then
        var i :| 0 <= i < |rockets[1..]| && rockets[1..][i] == rest.value && rockets[1..][i].id == id &&
                 forall k :: 0 <= k < i ==> rockets[1..][k].id != id;
        assert rockets[i + 1] == rest.value;
        rest
      else rest
  }

  /** `getRocketInfo(id)`: the found rocket's fields, with "Fusée inconnue"
      for a missing (or empty) name and "" for the rest. */
  function GetRocketInfo(rockets: seq<Rocket>, id: string): (info: RocketInfo)
    // the card never shows an empty rocket name
    ensures info.name != ""
    ensures FindRocket(rockets, id).None? ==> info == RocketInfo(UnknownRocketName, "", "")
    ensures FindRocket(rockets, id).Some? ==>
              info.description == FindRocket(rockets, id).value.description &&
              info.image == FindRocket(rockets, id).value.image
  {
    match FindRocket(rockets, id)
    case None => RocketInfo(UnknownRocketName, "", "")
    case Some(rocket) =>
      RocketInfo(if rocket.name != "" then rocket.name else UnknownRocketName, rocket.description, rocket.image)
  }

  /** A rocket missing from the list shows the defaults. */
  lemma UnknownRocketInfo(rockets: seq<Rocket>, id: string)
    requires forall k :: 0 <= k < |rockets| ==> rockets[k].id != id
    ensures GetRocketInfo(rockets, id) == RocketInfo(UnknownRocketName, "", "")
  {
  }

  /** A rocket in the list shows the fields of its first entry; an empty name
      falls back to "Fusée inconnue". */
  lemma KnownRocketInfo(rockets: seq<Rocket>, id: string, i: nat)
    requires i < |rockets| && rockets[i].id == id
    requires forall k :: 0 <= k < i ==> rockets[k].id != id
    ensures GetRocketInfo(rockets, id) ==
              RocketInfo(if rockets[i].name != "" then rockets[i].name else UnknownRocketName,
                         rockets[i].description, rockets[i].image)
  {
    var found := FindRocket(rockets, id);
    var j :| 0 <= j < |rockets| && rockets[j] == found.value && rockets[j].id == id &&
             forall k :: 0 <= k < j ==> rockets[k].id != id;
    assert j == i;
  }

  /** The status line of a race card. */
  datatype RaceStatus = BothExploded | Won(name: string) | InProgress

  /** `getRaceStatus()`: both exploded beats a winner, a winner beats "in progress";
      a winner that is not rocket 1 is shown as rocket 2. */
  function GetRaceStatus(race: Race, info1: RocketInfo, info2: RocketInfo): (s: RaceStatus)
    ensures s.BothExploded? <==> race.rocket1.exploded && race.rocket2.exploded
    ensures s.Won? <==> !(race.rocket1.exploded && race.rocket2.exploded) && Truthy(race.winner)
    ensures s.InProgress? <==> !(race.rocket1.exploded && race.rocket2.exploded) && !Truthy(race.winner)
    ensures s.Won? && race.winner == Some(race.rocket1.id) ==> s.name == info1.name
    ensures s.Won? && race.winner != Some(race.rocket1.id) ==> s.name == info2.name
  {
    if race.rocket1.exploded && race.rocket2.exploded then BothExploded
    else if Truthy(race.winner) then
      Won(if race.winner.value == race.rocket1.id then info1.name else info2.name)
    else InProgress
  }

  /** The text of a status line. */
  function StatusText(s: RaceStatus): string
  {
    match s
    case BothExploded => BothExplodedMessage
    case Won(name) => name + WinsSuffix
    case InProgress => InProgressMessage
  }

  /** `raceId.slice(-4)`: the last four characters, or all of a shorter id. */
  function LastFour(raceId: string): (r: string)
    ensures |r| == if |raceId| < 4 then |raceId| else 4
    ensures r == raceId[|raceId| - |r|..]
  {
    if |raceId| <= 4 then raceId else raceId[|raceId| - 4..]
  }

  /** What one `RocketDisplay` of the card receives. */
  datatype DisplayProps = DisplayProps(progress: int, exploded: bool, isWinner: bool, info: RocketInfo)

  /** `rocketsData?.rockets || []`. */
  function RocketsOrEmpty(rocketsQuery: QueryState<seq<Rocket>>): seq<Rocket>
  {
    if rocketsQuery.data.Some? then rocketsQuery.data.value else []
  }

  /** What the card renders. */
  datatype ResultView =
    | Loading
    | LoadError(message: string)
    | NotFound
    | Card(title: string, status: RaceStatus, statusHighlighted: bool, display1: DisplayProps, display2: DisplayProps)

  /** The display of one participant: its live fields, the info looked up by
      its id, and `isWinner` as `winner === rocket.id`. */
  function Display(rocket: RaceRocket, winner: Option<string>, rockets: seq<Rocket>): DisplayProps
  {
    DisplayProps(rocket.progress, rocket.exploded, winner == Some(rocket.id), GetRocketInfo(rockets, rocket.id))
  }

  /** The card as a function of its two queries: loading first, then an error
      (the race query's error named first), then a missing race, then the card. */
  function RenderRaceResult(raceId: string, raceQuery: QueryState<Race>, rocketsQuery: QueryState<seq<Rocket>>): (v: ResultView)
    ensures v.Loading? <==> raceQuery.loading || rocketsQuery.loading
    ensures v.LoadError? <==> !v.Loading? && (raceQuery.error || rocketsQuery.error)
    ensures v.LoadError? ==>
              v.message == if raceQuery.error then RaceLoadErrorMessage else RocketsLoadErrorMessage
    ensures v.NotFound? <==> !v.Loading? && !v.LoadError? && raceQuery.data.None?
    ensures v.Card? ==>
              var race := raceQuery.data.value;
              && v.title == TitlePrefix + LastFour(raceId)
              && v.statusHighlighted == Truthy(race.winner)
              && v.display1.isWinner == (race.winner == Some(race.rocket1.id))
              && v.display2.isWinner == (race.winner == Some(race.rocket2.id))
              && v.display1.progress == race.rocket1.progress && v.display1.exploded == race.rocket1.exploded
              && v.display2.progress == race.rocket2.progress && v.display2.exploded == race.rocket2.exploded
    // the rocket list falls back to empty; the card's status and the two
    // displays' details come from the race and that list
    ensures v.Card? ==>
              var race := raceQuery.data.value;
              var rockets := RocketsOrEmpty(rocketsQuery);
              && v.display1.info == GetRocketInfo(rockets, race.rocket1.id)
              && v.display2.info == GetRocketInfo(rockets, race.rocket2.id)
              && v.status == GetRaceStatus(race, v.display1.info, v.display2.info)
    ensures v.Card? ==>
              var race := raceQuery.data.value;
              (v.status == BothExploded <==> race.rocket1.exploded && race.rocket2.exploded)
  {
    if raceQuery.loading || rocketsQuery.loading then Loading
    else if raceQuery.error || rocketsQuery.error then
      LoadError(if raceQuery.error then RaceLoadErrorMessage else RocketsLoadErrorMessage)
    else if raceQuery.data.None? then NotFound
    else
      var race := raceQuery.data.value;
      var rockets := RocketsOrEmpty(rocketsQuery);
      var info1 := GetRocketInfo(rockets, race.rocket1.id);
      var info2 := GetRocketInfo(rockets, race.rocket2.id);
      Card(TitlePrefix + LastFour(raceId),
           GetRaceStatus(race, info1, info2),
           Truthy(race.winner),
           Display(race.rocket1, race.winner, rockets),
           Display(race.rocket2, race.winner, rockets))
  }

  /** On a rendered card, the status names the rocket whose display is
      flagged winner whenever the winner is one of the two rockets. */
  lemma StatusAgreesWithWinnerFlag(raceId: string, raceQuery: QueryState<Race>, rocketsQuery: QueryState<seq<Rocket>>)
    requires RenderRaceResult(raceId, raceQuery, rocketsQuery).Card?
    ensures var v := RenderRaceResult(raceId, raceQuery, rocketsQuery);
            v.status.Won? && v.display1.isWinner ==> v.status.name == v.display1.info.name
    ensures var v := RenderRaceResult(raceId, raceQuery, rocketsQuery);
            v.status.Won? && v.display2.isWinner && !v.display1.isWinner ==> v.status.name == v.display2.info.name
  {
  }
}
