/** The names of the fields of the `event` oneof. */
module EventFields {

  /** The 47 fields of the `event` oneof of a game event; the last ten are deprecated. */
  datatype EventField =
    | BallLeftFieldTouchLine | BallLeftFieldGoalLine | AimlessKick | AttackerTooCloseToDefenseArea
    | DefenderInDefenseArea | BoundaryCrossing | KeeperHeldBall | BotDribbledBallTooFar | BotPushedBot
    | BotHeldBallDeliberately | BotTippedOver | BotDroppedParts | AttackerTouchedBallInDefenseArea
    | BotKickedBallTooFast | BotCrashUnique | BotCrashDrawn | DefenderTooCloseToKickPoint
    | BotTooFastInStop | BotInterferedPlacement | PossibleGoal | Goal | InvalidGoal
    | AttackerDoubleTouchedBall | PlacementSucceeded | PenaltyKickFailed | NoProgressInGame
    | PlacementFailed | MultipleCards | MultipleFouls | BotSubstitution | ExcessiveBotSubstitution
    | TooManyRobots | ChallengeFlag | ChallengeFlagHandled | EmergencyStop | UnsportingBehaviorMinor
    | UnsportingBehaviorMajor | Prepared | IndirectGoal | ChippedGoal | KickTimeout
    | AttackerTouchedOpponentInDefenseArea | AttackerTouchedOpponentInDefenseAreaSkipped
    | BotCrashUniqueSkipped | BotPushedBotSkipped | DefenderInDefenseAreaPartially
    | MultiplePlacementFailures
}

/**
 The proto2 messages of the game controller: `optional` fields may be absent, required fields are
 always present after a successful parse, enums are their numbers.
 */
module Proto {
  import opened Basics
  import EventFields

  type uint8 = x: int | 0 <= x < 0x100
  type uint32 = x: int | 0 <= x < 0x1_0000_0000
  type uint64 = x: int | 0 <= x < 0x1_0000_0000_0000_0000
  type int32 = x: int | -0x8000_0000 <= x < 0x8000_0000
  type int64 = x: int | -0x8000_0000_0000_0000 <= x < 0x8000_0000_0000_0000

  type EventField = EventFields.EventField

  datatype Team = UnknownTeam | Yellow | Blue

  datatype Vector2 = Vector2(x: real, y: real)

  /** Messages that name the one robot behind the event in `by_bot`. */
  datatype RobotEvent =
    | BallLeftField(byTeam: Team, byBot: Option<uint32>, location: Option<Vector2>)
    | AimlessKick(byTeam: Team, byBot: Option<uint32>, location: Option<Vector2>,
                  kickLocation: Option<Vector2>)
    | IndirectGoal(byTeam: Team, byBot: Option<uint32>, location: Option<Vector2>,
                   kickLocation: Option<Vector2>)
    | ChippedGoal(byTeam: Team, byBot: Option<uint32>, location: Option<Vector2>,
                  kickLocation: Option<Vector2>, maxBallHeight: Option<real>)
    | BotTooFastInStop(byTeam: Team, byBot: Option<uint32>, location: Option<Vector2>, speed: Option<real>)
    | DefenderTooCloseToKickPoint(byTeam: Team, byBot: Option<uint32>, location: Option<Vector2>,
                                  distance: Option<real>)
    | BotTippedOver(byTeam: Team, byBot: Option<uint32>, location: Option<Vector2>,
                    ballLocation: Option<Vector2>)
    | BotDroppedParts(byTeam: Team, byBot: Option<uint32>, location: Option<Vector2>,
                      ballLocation: Option<Vector2>)
    | DefenderInDefenseArea(byTeam: Team, byBot: Option<uint32>, location: Option<Vector2>,
                            distance: Option<real>)
    | DefenderInDefenseAreaPartially(byTeam: Team, byBot: Option<uint32>, location: Option<Vector2>,
                                     distance: Option<real>, ballLocation: Option<Vector2>)
    | AttackerTouchedBallInDefenseArea(byTeam: Team, byBot: Option<uint32>, location: Option<Vector2>,
                                       distance: Option<real>)
    | BotKickedBallTooFast(byTeam: Team, byBot: Option<uint32>, location: Option<Vector2>,
                           initialBallSpeed: Option<real>, chipped: Option<bool>)
    | BotDribbledBallTooFar(byTeam: Team, byBot: Option<uint32>, start: Option<Vector2>,
                            end: Option<Vector2>)
    | AttackerTouchedOpponentInDefenseArea(byTeam: Team, byBot: Option<uint32>, victim: Option<uint32>,
                                           location: Option<Vector2>)
    | AttackerDoubleTouchedBall(byTeam: Team, byBot: Option<uint32>, location: Option<Vector2>)
    | AttackerTooCloseToDefenseArea(byTeam: Team, byBot: Option<uint32>, location: Option<Vector2>,
                                    distance: Option<real>, ballLocation: Option<Vector2>)
    | BotHeldBallDeliberately(byTeam: Team, byBot: Option<uint32>, location: Option<Vector2>,
                              duration: Option<real>)
    | BotInterferedPlacement(byTeam: Team, byBot: Option<uint32>, location: Option<Vector2>)

  /** Other messages with a place on the field. */
  datatype PlaceEvent =
    | Goal(byTeam: Team, kickingTeam: Option<Team>, kickingBot: Option<uint32>, location: Option<Vector2>,
           kickLocation: Option<Vector2>, maxBallHeight: Option<real>, numRobotsByTeam: Option<uint32>,
           lastTouchByTeam: Option<uint64>, message: Option<string>)
    | BotCrashDrawn(botYellow: Option<uint32>, botBlue: Option<uint32>, location: Option<Vector2>,
                    crashSpeed: Option<real>, speedDiff: Option<real>, crashAngle: Option<real>)
    | BotCrashUnique(byTeam: Team, violator: Option<uint32>, victim: Option<uint32>,
                     location: Option<Vector2>, crashSpeed: Option<real>, speedDiff: Option<real>,
                     crashAngle: Option<real>)
    | BotPushedBot(byTeam: Team, violator: Option<uint32>, victim: Option<uint32>,
                   location: Option<Vector2>, pushedDistance: Option<real>)
    | KickTimeout(byTeam: Team, location: Option<Vector2>, time: Option<real>)
    | NoProgressInGame(location: Option<Vector2>, time: Option<real>)
    | KeeperHeldBall(byTeam: Team, location: Option<Vector2>, duration: Option<real>)
    | BoundaryCrossing(byTeam: Team, location: Option<Vector2>)
    | PenaltyKickFailed(byTeam: Team, location: Option<Vector2>, failureReason: Option<string>)

  /** Messages about a team, or about nobody, without a robot or a place. */
  datatype TeamEvent =
    | MultipleCards(byTeam: Team)
    | MultipleFouls(byTeam: Team, causedGameEvents: seq<GameEvent>)
    | MultiplePlacementFailures(byTeam: Team)
    | PlacementFailed(byTeam: Team, remainingDistance: Option<real>, nearestOwnBotDistance: Option<real>)
    | UnsportingBehaviorMinor(byTeam: Team, reason: string)
    | UnsportingBehaviorMajor(byTeam: Team, reason: string)
    | PlacementSucceeded(byTeam: Team, timeTaken: Option<real>, precision: Option<real>,
                         distance: Option<real>)
    | Prepared(timeTaken: Option<real>)
    | BotSubstitution(byTeam: Team)
    | ExcessiveBotSubstitution(byTeam: Team)
    | ChallengeFlag(byTeam: Team)
    | ChallengeFlagHandled(byTeam: Team, accepted: bool)
    | EmergencyStop(byTeam: Team)
    | TooManyRobots(byTeam: Team, numRobotsAllowed: Option<int32>, numRobotsOnField: Option<int32>,
                    ballLocation: Option<Vector2>)

  /** The 41 message types that those fields hold. */
  datatype Payload = ByRobot(robotEvent: RobotEvent) | AtPlace(placeEvent: PlaceEvent) | OfTeam(teamEvent: TeamEvent)

  /** The field that is set in the oneof, and its value. */
  datatype Event = Event(field: EventField, payload: Payload)

  /** The type of message that each field of the oneof holds. */
  predicate Holds(field: EventField, payload: Payload) {
    match field
    case BallLeftFieldTouchLine => payload.ByRobot? && payload.robotEvent.BallLeftField?
    case BallLeftFieldGoalLine => payload.ByRobot? && payload.robotEvent.BallLeftField?
    case AimlessKick => payload.ByRobot? && payload.robotEvent.AimlessKick?
    case AttackerTooCloseToDefenseArea =>
      payload.ByRobot? && payload.robotEvent.AttackerTooCloseToDefenseArea?
    case DefenderInDefenseArea => payload.ByRobot? && payload.robotEvent.DefenderInDefenseArea?
    case BoundaryCrossing => payload.AtPlace? && payload.placeEvent.BoundaryCrossing?
    case KeeperHeldBall => payload.AtPlace? && payload.placeEvent.KeeperHeldBall?
    case BotDribbledBallTooFar => payload.ByRobot? && payload.robotEvent.BotDribbledBallTooFar?
    case BotPushedBot => payload.AtPlace? && payload.placeEvent.BotPushedBot?
    case BotHeldBallDeliberately => payload.ByRobot? && payload.robotEvent.BotHeldBallDeliberately?
    case BotTippedOver => payload.ByRobot? && payload.robotEvent.BotTippedOver?
    case BotDroppedParts => payload.ByRobot? && payload.robotEvent.BotDroppedParts?
    case AttackerTouchedBallInDefenseArea =>
      payload.ByRobot? && payload.robotEvent.AttackerTouchedBallInDefenseArea?
    case BotKickedBallTooFast => payload.ByRobot? && payload.robotEvent.BotKickedBallTooFast?
    case BotCrashUnique => payload.AtPlace? && payload.placeEvent.BotCrashUnique?
    case BotCrashDrawn => payload.AtPlace? && payload.placeEvent.BotCrashDrawn?
    case DefenderTooCloseToKickPoint => payload.ByRobot? && payload.robotEvent.DefenderTooCloseToKickPoint?
    case BotTooFastInStop => payload.ByRobot? && payload.robotEvent.BotTooFastInStop?
    case BotInterferedPlacement => payload.ByRobot? && payload.robotEvent.BotInterferedPlacement?
    case PossibleGoal => payload.AtPlace? && payload.placeEvent.Goal?
    case Goal => payload.AtPlace? && payload.placeEvent.Goal?
    case InvalidGoal => payload.AtPlace? && payload.placeEvent.Goal?
    case AttackerDoubleTouchedBall => payload.ByRobot? && payload.robotEvent.AttackerDoubleTouchedBall?
    case PlacementSucceeded => payload.OfTeam? && payload.teamEvent.PlacementSucceeded?
    case PenaltyKickFailed => payload.AtPlace? && payload.placeEvent.PenaltyKickFailed?
    case NoProgressInGame => payload.AtPlace? && payload.placeEvent.NoProgressInGame?
    case PlacementFailed => payload.OfTeam? && payload.teamEvent.PlacementFailed?
    case MultipleCards => payload.OfTeam? && payload.teamEvent.MultipleCards?
    case MultipleFouls => payload.OfTeam? && payload.teamEvent.MultipleFouls?
    case BotSubstitution => payload.OfTeam? && payload.teamEvent.BotSubstitution?
    case ExcessiveBotSubstitution => payload.OfTeam? && payload.teamEvent.ExcessiveBotSubstitution?
    case TooManyRobots => payload.OfTeam? && payload.teamEvent.TooManyRobots?
    case ChallengeFlag => payload.OfTeam? && payload.teamEvent.ChallengeFlag?
    case ChallengeFlagHandled => payload.OfTeam? && payload.teamEvent.ChallengeFlagHandled?
    case EmergencyStop => payload.OfTeam? && payload.teamEvent.EmergencyStop?
    case UnsportingBehaviorMinor => payload.OfTeam? && payload.teamEvent.UnsportingBehaviorMinor?
    case UnsportingBehaviorMajor => payload.OfTeam? && payload.teamEvent.UnsportingBehaviorMajor?
    case Prepared => payload.OfTeam? && payload.teamEvent.Prepared?
    case IndirectGoal => payload.ByRobot? && payload.robotEvent.IndirectGoal?
    case ChippedGoal => payload.ByRobot? && payload.robotEvent.ChippedGoal?
    case KickTimeout => payload.AtPlace? && payload.placeEvent.KickTimeout?
    case AttackerTouchedOpponentInDefenseArea =>
      payload.ByRobot? && payload.robotEvent.AttackerTouchedOpponentInDefenseArea?
    case AttackerTouchedOpponentInDefenseAreaSkipped =>
      payload.ByRobot? && payload.robotEvent.AttackerTouchedOpponentInDefenseArea?
    case BotCrashUniqueSkipped => payload.AtPlace? && payload.placeEvent.BotCrashUnique?
    case BotPushedBotSkipped => payload.AtPlace? && payload.placeEvent.BotPushedBot?
    case DefenderInDefenseAreaPartially =>
      payload.ByRobot? && payload.robotEvent.DefenderInDefenseAreaPartially?
    case MultiplePlacementFailures => payload.OfTeam? && payload.teamEvent.MultiplePlacementFailures?
  }

  datatype GameEvent = GameEvent(
    id: Option<string>, kind: Option<uint8>, origin: seq<string>, createdTimestamp: Option<uint64>,
    event: Option<Event>)

  datatype GameEventProposalGroup = GameEventProposalGroup(
    id: Option<string>, gameEvents: seq<GameEvent>, accepted: Option<bool>)

  datatype TeamInfo = TeamInfo(
    name: string, score: uint32, redCards: uint32, yellowCardTimes: seq<uint32>, yellowCards: uint32,
    timeouts: uint32, timeoutTime: uint32, goalkeeper: uint32,
    foulCounter: Option<uint32>, ballPlacementFailures: Option<uint32>, canPlaceBall: Option<bool>,
    maxAllowedBots: Option<uint32>, botSubstitutionIntent: Option<bool>,
    ballPlacementFailuresReached: Option<bool>, botSubstitutionAllowed: Option<bool>,
    botSubstitutionsLeft: Option<uint32>, botSubstitutionTimeLeft: Option<uint32>)

  datatype Referee = Referee(
    sourceIdentifier: Option<string>, matchType: Option<uint8>, packetTimestamp: uint64, stage: uint8,
    stageTimeLeft: Option<int64>, command: uint8, commandCounter: uint32, commandTimestamp: uint64,
    yellow: TeamInfo, blue: TeamInfo, designatedPosition: Option<Vector2>,
    blueTeamOnPositiveHalf: Option<bool>, nextCommand: Option<uint8>, gameEvents: seq<GameEvent>,
    gameEventProposals: seq<GameEventProposalGroup>, currentActionTimeRemaining: Option<int64>,
    statusMessage: Option<string>)
}
