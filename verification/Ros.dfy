/** The ROS messages that mirror them: an optional field is an array of zero or one element. */
module Ros {
  import Proto

  type uint8 = Proto.uint8
  type uint32 = Proto.uint32
  type uint64 = Proto.uint64
  type int32 = Proto.int32
  type int64 = Proto.int64

  datatype Team = Team(color: uint8)

  datatype Point32 = Point32(x: real, y: real, z: real)

  datatype Time = Time(sec: int32, nanosec: uint32)

  datatype RobotEvent =
    | BallLeftField(byTeam: Team, byBot: seq<uint32>, location: seq<Point32>)
    | AimlessKick(byTeam: Team, byBot: seq<uint32>, location: seq<Point32>, kickLocation: seq<Point32>)
    | IndirectGoal(byTeam: Team, byBot: seq<uint32>, location: seq<Point32>, kickLocation: seq<Point32>)
    | ChippedGoal(byTeam: Team, byBot: seq<uint32>, location: seq<Point32>, kickLocation: seq<Point32>,
                  maxBallHeight: seq<real>)
    | BotTooFastInStop(byTeam: Team, byBot: seq<uint32>, location: seq<Point32>, speed: seq<real>)
    | DefenderTooCloseToKickPoint(byTeam: Team, byBot: seq<uint32>, location: seq<Point32>,
                                  distance: seq<real>)
    | BotTippedOver(byTeam: Team, byBot: seq<uint32>, location: seq<Point32>, ballLocation: seq<Point32>)
    | BotDroppedParts(byTeam: Team, byBot: seq<uint32>, location: seq<Point32>, ballLocation: seq<Point32>)
    | DefenderInDefenseArea(byTeam: Team, byBot: seq<uint32>, location: seq<Point32>, distance: seq<real>)
    | DefenderInDefenseAreaPartially(byTeam: Team, byBot: seq<uint32>, location: seq<Point32>,
                                     distance: seq<real>, ballLocation: seq<Point32>)
    | AttackerTouchedBallInDefenseArea(byTeam: Team, byBot: seq<uint32>, location: seq<Point32>,
                                       distance: seq<real>)
    | BotKickedBallTooFast(byTeam: Team, byBot: seq<uint32>, location: seq<Point32>,
                           initialBallSpeed: seq<real>, chipped: seq<bool>)
    | BotDribbledBallTooFar(byTeam: Team, byBot: seq<uint32>, start: seq<Point32>, end: seq<Point32>)
    | AttackerTouchedOpponentInDefenseArea(byTeam: Team, byBot: seq<uint32>, victim: seq<uint32>,
                                           location: seq<Point32>)
    | AttackerDoubleTouchedBall(byTeam: Team, byBot: seq<uint32>, location: seq<Point32>)
    | AttackerTooCloseToDefenseArea(byTeam: Team, byBot: seq<uint32>, location: seq<Point32>,
                                    distance: seq<real>, ballLocation: seq<Point32>)
    | BotHeldBallDeliberately(byTeam: Team, byBot: seq<uint32>, location: seq<Point32>, duration: seq<real>)
    | BotInterferedPlacement(byTeam: Team, byBot: seq<uint32>, location: seq<Point32>)

  datatype PlaceEvent =
    | Goal(byTeam: Team, kickingTeam: seq<Team>, kickingBot: seq<uint32>, location: seq<Point32>,
           kickLocation: seq<Point32>, maxBallHeight: seq<real>, numRobotsByTeam: seq<uint32>,
           lastTouchByTeam: seq<uint64>, message: seq<string>)
    | BotCrashDrawn(botYellow: seq<uint32>, botBlue: seq<uint32>, location: seq<Point32>,
                    crashSpeed: seq<real>, speedDiff: seq<real>, crashAngle: seq<real>)
    | BotCrashUnique(byTeam: Team, violator: seq<uint32>, victim: seq<uint32>, location: seq<Point32>,
                     crashSpeed: seq<real>, speedDiff: seq<real>, crashAngle: seq<real>)
    | BotPushedBot(byTeam: Team, violator: seq<uint32>, victim: seq<uint32>, location: seq<Point32>,
                   pushedDistance: seq<real>)
    | KickTimeout(byTeam: Team, location: seq<Point32>, time: seq<real>)
    | NoProgressInGame(location: seq<Point32>, time: seq<real>)
    | KeeperHeldBall(byTeam: Team, location: seq<Point32>, duration: seq<real>)
    | BoundaryCrossing(byTeam: Team, location: seq<Point32>)
    | PenaltyKickFailed(byTeam: Team, location: seq<Point32>, failureReason: seq<string>)

  datatype TeamEvent =
    | MultipleCards(byTeam: Team)
    | MultipleFouls(byTeam: Team)
    | MultiplePlacementFailures(byTeam: Team)
    | PlacementFailed(byTeam: Team, remainingDistance: seq<real>, nearestOwnBotDistance: seq<real>)
    | UnsportingBehaviorMinor(byTeam: Team, reason: string)
    | UnsportingBehaviorMajor(byTeam: Team, reason: string)
    | PlacementSucceeded(byTeam: Team, timeTaken: seq<real>, precision: seq<real>, distance: seq<real>)
    | Prepared(timeTaken: seq<real>)
    | BotSubstitution(byTeam: Team)
    | ExcessiveBotSubstitution(byTeam: Team)
    | ChallengeFlag(byTeam: Team)
    | ChallengeFlagHandled(byTeam: Team, accepted: bool)
    | EmergencyStop(byTeam: Team)
    | TooManyRobots(byTeam: Team, numRobotsAllowed: seq<int32>, numRobotsOnField: seq<int32>,
                    ballLocation: seq<Point32>)

  datatype Payload = ByRobot(robotEvent: RobotEvent) | AtPlace(placeEvent: PlaceEvent) | OfTeam(teamEvent: TeamEvent)

  /** The 47 event arrays of a game event, by field. */
  type EventArrays = arrays: map<Proto.EventField, seq<Payload>> | forall f: Proto.EventField :: f in arrays
    witness map f: Proto.EventField :: []

  /** The type of message that each array is for. */
  predicate Holds(field: Proto.EventField, payload: Payload) {
    match field
    case BallLeftFieldTouchLine => payload.ByRobot? && payload.robotEvent.BallLeftField?
    case BallLeftFieldGoalLine => payload.ByRobot? && payload.robotEvent.BallLeftField?
    case AimlessKick => payload.ByRobot? && payload.robotEvent.AimlessKick?
    case AttackerTooCloseToDefenseArea =>
      payload.ByRobot? && payload.robotEvent.AttackerTooCloseToDefenseArea?
    case DefenderInDefenseArea => payload.ByRobot? && payload.robotEvent.DefenderInDefenseArea?
    case BoundaryCrossing => payload.AtPlace? && payload.placeEvent.BoundaryCrossing?
    case KeeperHeldBall => payload.AtPlace? && payload.placeEvent.KeeperHeldBall?
    case BotDribbledBallTooFar => payload.ByRobot? && payload.robotEvent.BotDribbledBallTooFar?
    case BotPushedBot => payload.AtPlace? && payload.placeEvent.BotPushedBot?
    case BotHeldBallDeliberately => payload.ByRobot? && payload.robotEvent.BotHeldBallDeliberately?
    case BotTippedOver => payload.ByRobot? && payload.robotEvent.BotTippedOver?
    case BotDroppedParts => payload.ByRobot? && payload.robotEvent.BotDroppedParts?
    case AttackerTouchedBallInDefenseArea =>
      payload.ByRobot? && payload.robotEvent.AttackerTouchedBallInDefenseArea?
    case BotKickedBallTooFast => payload.ByRobot? && payload.robotEvent.BotKickedBallTooFast?
    case BotCrashUnique => payload.AtPlace? && payload.placeEvent.BotCrashUnique?
    case BotCrashDrawn => payload.AtPlace? && payload.placeEvent.BotCrashDrawn?
    case DefenderTooCloseToKickPoint => payload.ByRobot? && payload.robotEvent.DefenderTooCloseToKickPoint?
    case BotTooFastInStop => payload.ByRobot? && payload.robotEvent.BotTooFastInStop?
    case BotInterferedPlacement => payload.ByRobot? && payload.robotEvent.BotInterferedPlacement?
    case PossibleGoal => payload.AtPlace? && payload.placeEvent.Goal?
    case Goal => payload.AtPlace? && payload.placeEvent.Goal?
    case InvalidGoal => payload.AtPlace? && payload.placeEvent.Goal?
    case AttackerDoubleTouchedBall => payload.ByRobot? && payload.robotEvent.AttackerDoubleTouchedBall?
    case PlacementSucceeded => payload.OfTeam? && payload.teamEvent.PlacementSucceeded?
    case PenaltyKickFailed => payload.AtPlace? && payload.placeEvent.PenaltyKickFailed?
    case NoProgressInGame => payload.AtPlace? && payload.placeEvent.NoProgressInGame?
    case PlacementFailed => payload.OfTeam? && payload.teamEvent.PlacementFailed?
    case MultipleCards => payload.OfTeam? && payload.teamEvent.MultipleCards?
    case MultipleFouls => payload.OfTeam? && payload.teamEvent.MultipleFouls?
    case BotSubstitution => payload.OfTeam? && payload.teamEvent.BotSubstitution?
    case ExcessiveBotSubstitution => payload.OfTeam? && payload.teamEvent.ExcessiveBotSubstitution?
    case TooManyRobots => payload.OfTeam? && payload.teamEvent.TooManyRobots?
    case ChallengeFlag => payload.OfTeam? && payload.teamEvent.ChallengeFlag?
    case ChallengeFlagHandled => payload.OfTeam? && payload.teamEvent.ChallengeFlagHandled?
    case EmergencyStop => payload.OfTeam? && payload.teamEvent.EmergencyStop?
    case UnsportingBehaviorMinor => payload.OfTeam? && payload.teamEvent.UnsportingBehaviorMinor?
    case UnsportingBehaviorMajor => payload.OfTeam? && payload.teamEvent.UnsportingBehaviorMajor?
    case Prepared => payload.OfTeam? && payload.teamEvent.Prepared?
    case IndirectGoal => payload.ByRobot? && payload.robotEvent.IndirectGoal?
    case ChippedGoal => payload.ByRobot? && payload.robotEvent.ChippedGoal?
    case KickTimeout => payload.AtPlace? && payload.placeEvent.KickTimeout?
    case AttackerTouchedOpponentInDefenseArea =>
      payload.ByRobot? && payload.robotEvent.AttackerTouchedOpponentInDefenseArea?
    case AttackerTouchedOpponentInDefenseAreaSkipped =>
      payload.ByRobot? && payload.robotEvent.AttackerTouchedOpponentInDefenseArea?
    case BotCrashUniqueSkipped => payload.AtPlace? && payload.placeEvent.BotCrashUnique?
    case BotPushedBotSkipped => payload.AtPlace? && payload.placeEvent.BotPushedBot?
    case DefenderInDefenseAreaPartially =>
      payload.ByRobot? && payload.robotEvent.DefenderInDefenseAreaPartially?
    case MultiplePlacementFailures => payload.OfTeam? && payload.teamEvent.MultiplePlacementFailures?
  }

  datatype GameEvent = GameEvent(
    id: string, kind: uint8, origin: seq<string>, createdTimestamp: uint64, events: EventArrays)

  datatype GameEventProposalGroup = GameEventProposalGroup(
    id: seq<string>, gameEvents: seq<GameEvent>, accepted: bool)

  datatype TeamInfo = TeamInfo(
    name: string, score: uint32, redCards: uint32, yellowCardTimes: seq<uint32>, yellowCards: uint32,
    timeouts: uint32, timeoutTime: uint32, goalkeeper: uint32,
    foulCounter: seq<uint32>, ballPlacementFailures: seq<uint32>, canPlaceBall: seq<bool>,
    maxAllowedBots: seq<uint32>, botSubstitutionIntent: seq<bool>,
    ballPlacementFailuresReached: seq<bool>, botSubstitutionAllowed: seq<bool>,
    botSubstitutionsLeft: seq<uint32>, botSubstitutionTimeLeft: seq<uint32>)

  datatype Referee = Referee(
    sourceIdentifier: seq<string>, matchType: seq<uint8>, timestamp: Time, stage: uint8,
    stageTimeLeft: seq<int64>, command: uint8, commandCounter: uint32, commandTimestamp: Time,
    yellow: TeamInfo, blue: TeamInfo, designatedPosition: seq<Point32>,
    blueTeamOnPositiveHalf: seq<bool>, nextCommand: seq<uint8>, gameEvents: seq<GameEvent>,
    gameEventProposals: seq<GameEventProposalGroup>, currentActionTimeRemaining: seq<int64>,
    statusMessage: seq<string>)
}
