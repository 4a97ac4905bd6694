/** The live race track: for each of the two lanes, whether its rocket is
    the winner (reached 100 without exploding), the bar colour (red when
    exploded, pulsing when winner, plain otherwise), and which messages and
    decorations are shown. */
module RaceTrack {

  const ExplodedBar := "bg-red-500"
  /** Plain bar colours of lane 1 and lane 2. */
  const Lane1Bar := "bg-blue-500"
  const Lane2Bar := "bg-green-500"
  const PulseSuffix := " animate-pulse"

  /** The props of the track. */
  datatype TrackProps = TrackProps(
    rocket1Progress: int, rocket2Progress: int,
    rocket1Exploded: bool, rocket2Exploded: bool,
    rocket1Name: string, rocket2Name: string)

  /** What one lane shows: the name (bouncing, with a trophy, when winner),
      the bar's colour class and width, and the two messages. */
  datatype LaneView = LaneView(
    name: string, nameBounces: bool, trophy: bool,
    barClass: string, widthPercent: int,
    explosionMessage: bool, winnerMessage: bool)

  datatype TrackView = TrackView(lane1: LaneView, lane2: LaneView)

  /** `isRocketNWinner`: progress exactly 100 and not exploded. */
  predicate IsWinner(progress: int, exploded: bool)
  {
    progress == 100 && !exploded
  }

  /** The bar colour: exploded first, then winner, then the lane's plain colour. */
  function BarClass(exploded: bool, winner: bool, plain: string): string
  {
    if exploded then ExplodedBar else if winner then plain + PulseSuffix else plain
  }

  function Lane(name: string, progress: int, exploded: bool, plain: string): LaneView
  {
    var winner := IsWinner(progress, exploded);
    LaneView(name, winner, winner, BarClass(exploded, winner, plain), progress, exploded, winner)
  }

  /** The track for its props. Each lane's winner flag depends on that lane
      only; an exploded rocket is never the winner; the bar is red exactly
      when exploded and pulses exactly when winner; the explosion message is
      shown exactly when exploded and the winner message exactly when winner. */
  function RenderRaceTrack(p: TrackProps): (v: TrackView)
    ensures v.lane1.winnerMessage == (p.rocket1Progress == 100 && !p.rocket1Exploded)
    ensures v.lane2.winnerMessage == (p.rocket2Progress == 100 && !p.rocket2Exploded)
    ensures v.lane1.trophy == v.lane1.winnerMessage && v.lane1.nameBounces == v.lane1.winnerMessage
    ensures v.lane2.trophy == v.lane2.winnerMessage && v.lane2.nameBounces == v.lane2.winnerMessage
    ensures v.lane1.explosionMessage == p.rocket1Exploded && v.lane2.explosionMessage == p.rocket2Exploded
    ensures (v.lane1.barClass == ExplodedBar) == p.rocket1Exploded
    ensures (v.lane2.barClass == ExplodedBar) == p.rocket2Exploded
    ensures !p.rocket1Exploded ==>
              v.lane1.barClass == if v.lane1.winnerMessage then Lane1Bar + PulseSuffix else Lane1Bar
    ensures !p.rocket2Exploded ==>
              v.lane2.barClass == if v.lane2.winnerMessage then Lane2Bar + PulseSuffix else Lane2Bar
    ensures v.lane1.name == p.rocket1Name && v.lane1.widthPercent == p.rocket1Progress
    ensures v.lane2.name == p.rocket2Name && v.lane2.widthPercent == p.rocket2Progress
  {
    TrackView(
      Lane(p.rocket1Name, p.rocket1Progress, p.rocket1Exploded, Lane1Bar),
      Lane(p.rocket2Name, p.rocket2Progress, p.rocket2Exploded, Lane2Bar))
  }

  /** An exploded rocket is never shown as winner, whatever its progress. */
  lemma ExplodedNeverWins(p: TrackProps)
    ensures p.rocket1Exploded ==> !RenderRaceTrack(p).lane1.winnerMessage
    ensures p.rocket2Exploded ==> !RenderRaceTrack(p).lane2.winnerMessage
  {
  }

  /** The two winner flags are not exclusive: two rockets at 100 that did not
      explode are both shown as winner. */
  lemma BothLanesCanWin(name1: string, name2: string)
    ensures var v := RenderRaceTrack(TrackProps(100, 100, false, false, name1, name2));
            v.lane1.winnerMessage && v.lane2.winnerMessage
  {
  }
}
