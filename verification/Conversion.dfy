/**
 `message_conversion.cpp` for referee messages, an explicit inverse, and exactly what the
 conversion loses.
 */
module Conversion {
  import opened Basics
  import P = Proto
  import R = Ros
  import opened EventFields

  // ---------------------------------------------------------------------------------------------
  // Fields
  // ---------------------------------------------------------------------------------------------

  /** `CopyOptional`: zero or one element. */
  function Optional<T>(field: Option<T>): (arr: seq<T>)
    ensures Restored(arr) == field && |arr| <= 1
  {
    if field.Some? then [field.value] else []
  }

  function Restored<T>(field: seq<T>): Option<T> {
    if field == [] then None else Some(field[0])
  }

  function FromTeam(team: P.Team): (r: R.Team)
    ensures RestoreTeam(r) == team && r.color <= 2
  {
    match team
    case UnknownTeam => R.Team(0)
    case Yellow => R.Team(1)
    case Blue => R.Team(2)
  }

  function RestoreTeam(team: R.Team): P.Team {
    match team.color
    case 1 => P.Yellow
    case 2 => P.Blue
    case _ => P.UnknownTeam
  }

  function OptionalTeam(team: Option<P.Team>): (arr: seq<R.Team>)
    ensures RestoredTeam(arr) == team
  {
    if team.Some? then [FromTeam(team.value)] else []
  }

  function RestoredTeam(team: seq<R.Team>): Option<P.Team> {
    if team == [] then None else Some(RestoreTeam(team[0]))
  }

  function FromVector2(v: P.Vector2): R.Point32 {
    R.Point32(v.x, v.y, 0.0)
  }

  function OptionalPoint(v: Option<P.Vector2>): (arr: seq<R.Point32>)
    ensures RestoredPoint(arr) == v
  {
    if v.Some? then [FromVector2(v.value)] else []
  }

  function RestoredPoint(p: seq<R.Point32>): Option<P.Vector2> {
    if p == [] then None else Some(P.Vector2(p[0].x, p[0].y))
  }

  /** The designated position goes from millimetres to metres. */
  function ScaledPoint(v: Option<P.Vector2>): (arr: seq<R.Point32>)
    ensures RestoredScaledPoint(arr) == v
  {
    if v.Some? then [R.Point32(v.value.x / 1000.0, v.value.y / 1000.0, 0.0)] else []
  }

  function RestoredScaledPoint(p: seq<R.Point32>): Option<P.Vector2> {
    if p == [] then None else Some(P.Vector2(p[0].x * 1000.0, p[0].y * 1000.0))
  }

  // ---------------------------------------------------------------------------------------------
  // Timestamps
  // ---------------------------------------------------------------------------------------------

  const TWO_31: int := 0x8000_0000
  const TWO_63: int := 0x8000_0000_0000_0000
  const TWO_64: int := 0x1_0000_0000_0000_0000
  const NANOSECONDS: int := 1_000_000_000

  function WrapSigned(n: int, half: int): (w: int)
    requires half > 0
    ensures -half <= w < half
  {
    if n % (2 * half) < half then n % (2 * half) else n % (2 * half) - 2 * half
  }

  /**
   `rclcpp::Time(us * 1000)` stored in a message: the product wraps as a 64-bit number and is read
   as signed nanoseconds; the seconds wrap as a 32-bit signed number.
   */
  function FromMicroseconds(us: P.uint64): R.Time {
    var ns := WrapSigned(us * 1000, TWO_63);
    R.Time(WrapSigned(ns / NANOSECONDS, TWO_31), ns % NANOSECONDS)
  }

  function RestoredMicroseconds(time: R.Time): P.uint64 {
    if time.sec < 0 then 0
    else
      assert (time.sec * NANOSECONDS + time.nanosec) / 1000 < TWO_64;
      (time.sec * NANOSECONDS + time.nanosec) / 1000
  }

  /** A timestamp survives exactly when its seconds fit the signed 32-bit field. */
  lemma TimestampRecoveredIff(us: P.uint64)
    ensures RestoredMicroseconds(FromMicroseconds(us)) == us <==> us < TWO_31 * 1_000_000
  {
    if us < TWO_31 * 1_000_000 {
      var ns := us * 1000;
      assert WrapSigned(ns, TWO_63) == ns;
      assert 0 <= ns / NANOSECONDS < TWO_31;
      assert (ns / NANOSECONDS) * NANOSECONDS + ns % NANOSECONDS == ns;
    } else {
      var time := FromMicroseconds(us);
      assert time.sec * NANOSECONDS + time.nanosec < TWO_31 * NANOSECONDS;
    }
  }

  // ---------------------------------------------------------------------------------------------
  // Game events
  // ---------------------------------------------------------------------------------------------

  /** The fields of the oneof that the conversion copies: all but the ten deprecated ones. */
  predicate Copied(field: P.EventField) {
    match field
    case Prepared => false
    case IndirectGoal => false
    case ChippedGoal => false
    case KickTimeout => false
    case AttackerTouchedOpponentInDefenseArea => false
    case AttackerTouchedOpponentInDefenseAreaSkipped => false
    case BotCrashUniqueSkipped => false
    case BotPushedBotSkipped => false
    case DefenderInDefenseAreaPartially => false
    case MultiplePlacementFailures => false
    case _ => true
  }

  function FromRobotEvent(event: P.RobotEvent): R.RobotEvent {
    match event
    case BallLeftField(byTeam, byBot, location) =>
      R.BallLeftField(FromTeam(byTeam), Optional(byBot), OptionalPoint(location))
    case AimlessKick(byTeam, byBot, location, kickLocation) =>
      R.AimlessKick(FromTeam(byTeam), Optional(byBot), OptionalPoint(location), OptionalPoint(kickLocation))
    case IndirectGoal(byTeam, byBot, location, kickLocation) =>
      R.IndirectGoal(FromTeam(byTeam), Optional(byBot), OptionalPoint(location),
                     OptionalPoint(kickLocation))
    case ChippedGoal(byTeam, byBot, location, kickLocation, maxBallHeight) =>
      R.ChippedGoal(FromTeam(byTeam), Optional(byBot), OptionalPoint(location), OptionalPoint(kickLocation),
                    Optional(maxBallHeight))
    case BotTooFastInStop(byTeam, byBot, location, speed) =>
      R.BotTooFastInStop(FromTeam(byTeam), Optional(byBot), OptionalPoint(location), Optional(speed))
    case DefenderTooCloseToKickPoint(byTeam, byBot, location, distance) =>
      R.DefenderTooCloseToKickPoint(FromTeam(byTeam), Optional(byBot), OptionalPoint(location),
                                    Optional(distance))
    case BotTippedOver(byTeam, byBot, location, ballLocation) =>
      R.BotTippedOver(FromTeam(byTeam), Optional(byBot), OptionalPoint(location),
                      OptionalPoint(ballLocation))
    case BotDroppedParts(byTeam, byBot, location, ballLocation) =>
      R.BotDroppedParts(FromTeam(byTeam), Optional(byBot), OptionalPoint(location),
                        OptionalPoint(ballLocation))
    case DefenderInDefenseArea(byTeam, byBot, location, distance) =>
      R.DefenderInDefenseArea(FromTeam(byTeam), Optional(byBot), OptionalPoint(location),
                              Optional(distance))
    case DefenderInDefenseAreaPartially(byTeam, byBot, location, distance, ballLocation) =>
      R.DefenderInDefenseAreaPartially(FromTeam(byTeam), Optional(byBot), OptionalPoint(location),
                                       Optional(distance), OptionalPoint(ballLocation))
    case AttackerTouchedBallInDefenseArea(byTeam, byBot, location, distance) =>
      R.AttackerTouchedBallInDefenseArea(FromTeam(byTeam), Optional(byBot), OptionalPoint(location),
                                         Optional(distance))
    case BotKickedBallTooFast(byTeam, byBot, location, initialBallSpeed, chipped) =>
      R.BotKickedBallTooFast(FromTeam(byTeam), Optional(byBot), OptionalPoint(location),
                             Optional(initialBallSpeed), Optional(chipped))
    case BotDribbledBallTooFar(byTeam, byBot, start, end) =>
      R.BotDribbledBallTooFar(FromTeam(byTeam), Optional(byBot), OptionalPoint(start), OptionalPoint(end))
    case AttackerTouchedOpponentInDefenseArea(byTeam, byBot, victim, location) =>
      R.AttackerTouchedOpponentInDefenseArea(FromTeam(byTeam), Optional(byBot), Optional(victim),
                                             OptionalPoint(location))
    case AttackerDoubleTouchedBall(byTeam, byBot, location) =>
      R.AttackerDoubleTouchedBall(FromTeam(byTeam), Optional(byBot), OptionalPoint(location))
    case AttackerTooCloseToDefenseArea(byTeam, byBot, location, distance, ballLocation) =>
      R.AttackerTooCloseToDefenseArea(FromTeam(byTeam), Optional(byBot), OptionalPoint(location),
                                      Optional(distance), OptionalPoint(ballLocation))
    case BotHeldBallDeliberately(byTeam, byBot, location, duration) =>
      R.BotHeldBallDeliberately(FromTeam(byTeam), Optional(byBot), OptionalPoint(location),
                                Optional(duration))
    case BotInterferedPlacement(byTeam, byBot, location) =>
      R.BotInterferedPlacement(FromTeam(byTeam), Optional(byBot), OptionalPoint(location))
  }

  function FromPlaceEvent(event: P.PlaceEvent): R.PlaceEvent {
    match event
    case Goal(byTeam, kickingTeam, kickingBot, location, kickLocation, maxBallHeight, numRobotsByTeam,
              lastTouchByTeam, message) =>
      R.Goal(FromTeam(byTeam), OptionalTeam(kickingTeam), Optional(kickingBot), OptionalPoint(location),
             OptionalPoint(kickLocation), Optional(maxBallHeight), Optional(numRobotsByTeam),
             Optional(lastTouchByTeam), Optional(message))
    case BotCrashDrawn(botYellow, botBlue, location, crashSpeed, speedDiff, crashAngle) =>
      R.BotCrashDrawn(Optional(botYellow), Optional(botBlue), OptionalPoint(location), Optional(crashSpeed),
                      Optional(speedDiff), Optional(crashAngle))
    case BotCrashUnique(byTeam, violator, victim, location, crashSpeed, speedDiff, crashAngle) =>
      R.BotCrashUnique(FromTeam(byTeam), Optional(violator), Optional(victim), OptionalPoint(location),
                       Optional(crashSpeed), Optional(speedDiff), Optional(crashAngle))
    case BotPushedBot(byTeam, violator, victim, location, pushedDistance) =>
      R.BotPushedBot(FromTeam(byTeam), Optional(violator), Optional(victim), OptionalPoint(location),
                     Optional(pushedDistance))
    case KickTimeout(byTeam, location, time) =>
      R.KickTimeout(FromTeam(byTeam), OptionalPoint(location), Optional(time))
    case NoProgressInGame(location, time) =>
      R.NoProgressInGame(OptionalPoint(location), Optional(time))
    case KeeperHeldBall(byTeam, location, duration) =>
      R.KeeperHeldBall(FromTeam(byTeam), OptionalPoint(location), Optional(duration))
    case BoundaryCrossing(byTeam, location) =>
      R.BoundaryCrossing(FromTeam(byTeam), OptionalPoint(location))
    case PenaltyKickFailed(byTeam, location, _) =>
      R.PenaltyKickFailed(FromTeam(byTeam), OptionalPoint(location), [])
  }

  function FromTeamEvent(event: P.TeamEvent): R.TeamEvent {
    match event
    case MultipleCards(byTeam) =>
      R.MultipleCards(FromTeam(byTeam))
    case MultipleFouls(byTeam, _) =>
      R.MultipleFouls(FromTeam(byTeam))
    case MultiplePlacementFailures(byTeam) =>
      R.MultiplePlacementFailures(FromTeam(byTeam))
    case PlacementFailed(byTeam, remainingDistance, _) =>
      R.PlacementFailed(FromTeam(byTeam), Optional(remainingDistance), [])
    case UnsportingBehaviorMinor(byTeam, reason) =>
      R.UnsportingBehaviorMinor(FromTeam(byTeam), reason)
    case UnsportingBehaviorMajor(byTeam, reason) =>
      R.UnsportingBehaviorMajor(FromTeam(byTeam), reason)
    case PlacementSucceeded(byTeam, timeTaken, precision, distance) =>
      R.PlacementSucceeded(FromTeam(byTeam), Optional(timeTaken), Optional(precision), Optional(distance))
    case Prepared(timeTaken) =>
      R.Prepared(Optional(timeTaken))
    case BotSubstitution(byTeam) =>
      R.BotSubstitution(FromTeam(byTeam))
    case ExcessiveBotSubstitution(byTeam) =>
      R.ExcessiveBotSubstitution(FromTeam(byTeam))
    case ChallengeFlag(byTeam) =>
      R.ChallengeFlag(FromTeam(byTeam))
    case ChallengeFlagHandled(byTeam, accepted) =>
      R.ChallengeFlagHandled(FromTeam(byTeam), accepted)
    case EmergencyStop(byTeam) =>
      R.EmergencyStop(FromTeam(byTeam))
    case TooManyRobots(byTeam, numRobotsAllowed, numRobotsOnField, ballLocation) =>
      R.TooManyRobots(FromTeam(byTeam), Optional(numRobotsAllowed), Optional(numRobotsOnField),
                      OptionalPoint(ballLocation))
  }

  function FromPayload(payload: P.Payload): R.Payload {
    match payload
    case ByRobot(event) => R.ByRobot(FromRobotEvent(event))
    case AtPlace(event) => R.AtPlace(FromPlaceEvent(event))
    case OfTeam(event) => R.OfTeam(FromTeamEvent(event))
  }

  /** The fields that `fromProto` copies, one macro call after the other. */
  const COPIED: seq<P.EventField> := [
    EventField.BallLeftFieldTouchLine, EventField.BallLeftFieldGoalLine, EventField.AimlessKick,
    EventField.AttackerTooCloseToDefenseArea, EventField.DefenderInDefenseArea, EventField.BoundaryCrossing,
    EventField.KeeperHeldBall, EventField.BotDribbledBallTooFar, EventField.BotPushedBot,
    EventField.BotHeldBallDeliberately, EventField.BotTippedOver, EventField.BotDroppedParts,
    EventField.AttackerTouchedBallInDefenseArea, EventField.BotKickedBallTooFast, EventField.BotCrashUnique,
    EventField.BotCrashDrawn, EventField.DefenderTooCloseToKickPoint, EventField.BotTooFastInStop,
    EventField.BotInterferedPlacement, EventField.PossibleGoal, EventField.Goal, EventField.InvalidGoal,
    EventField.AttackerDoubleTouchedBall, EventField.PlacementSucceeded, EventField.PenaltyKickFailed,
    EventField.NoProgressInGame, EventField.PlacementFailed, EventField.MultipleCards,
    EventField.MultipleFouls, EventField.BotSubstitution, EventField.ExcessiveBotSubstitution,
    EventField.TooManyRobots, EventField.ChallengeFlag, EventField.ChallengeFlagHandled,
    EventField.EmergencyStop, EventField.UnsportingBehaviorMinor, EventField.UnsportingBehaviorMajor]

  const NO_EVENTS: R.EventArrays := map field: P.EventField :: []

  /** The array of the field that is set becomes the converted message alone. */
  function WithEvent(events: R.EventArrays, event: Option<P.Event>): R.EventArrays
    requires event.Some?
  {
    events[event.value.field := [FromPayload(event.value.payload)]]
  }

  /** `CopyOptionalStruct`: assign the array if this is the field that is set. */
  function CopyOptionalStruct(events: R.EventArrays, event: Option<P.Event>, field: P.EventField): R.EventArrays {
    if event.Some? && event.value.field == field then WithEvent(events, event) else events
  }

  function CopyOptionalStructs(events: R.EventArrays, event: Option<P.Event>, fields: seq<P.EventField>)
    : R.EventArrays
  {
    if fields == [] then events
    else CopyOptionalStructs(CopyOptionalStruct(events, event, fields[0]), event, fields[1..])
  }

  function FromGameEvent(m: P.GameEvent): R.GameEvent {
    R.GameEvent(
      if m.id.Some? then m.id.value else "",
      if m.kind.Some? then m.kind.value else 0,
      m.origin,
      if m.createdTimestamp.Some? then m.createdTimestamp.value else 0,
      CopyOptionalStructs(NO_EVENTS, m.event, COPIED))
  }

  function FromGameEvents(ms: seq<P.GameEvent>): (rs: seq<R.GameEvent>)
    ensures |rs| == |ms| && forall i | 0 <= i < |ms| :: rs[i] == FromGameEvent(ms[i])
  {
    seq(|ms|, i requires 0 <= i < |ms| => FromGameEvent(ms[i]))
  }

  function FromProposalGroup(m: P.GameEventProposalGroup): R.GameEventProposalGroup {
    R.GameEventProposalGroup(
      Optional(m.id), FromGameEvents(m.gameEvents), m.accepted.Some? && m.accepted.value)
  }

  function FromProposalGroups(ms: seq<P.GameEventProposalGroup>): (rs: seq<R.GameEventProposalGroup>)
    ensures |rs| == |ms| && forall i | 0 <= i < |ms| :: rs[i] == FromProposalGroup(ms[i])
  {
    seq(|ms|, i requires 0 <= i < |ms| => FromProposalGroup(ms[i]))
  }

  function FromTeamInfo(m: P.TeamInfo): R.TeamInfo {
    R.TeamInfo(
      m.name, m.score, m.redCards, m.yellowCardTimes, m.yellowCards, m.timeouts, m.timeoutTime,
      m.goalkeeper, Optional(m.foulCounter), Optional(m.ballPlacementFailures), Optional(m.canPlaceBall),
      Optional(m.maxAllowedBots), Optional(m.botSubstitutionIntent),
      Optional(m.ballPlacementFailuresReached), Optional(m.botSubstitutionAllowed),
      Optional(m.botSubstitutionsLeft), Optional(m.botSubstitutionTimeLeft))
  }

  function FromReferee(m: P.Referee): R.Referee {
    R.Referee(
      Optional(m.sourceIdentifier), Optional(m.matchType), FromMicroseconds(m.packetTimestamp), m.stage,
      Optional(m.stageTimeLeft), m.command, m.commandCounter, FromMicroseconds(m.commandTimestamp),
      FromTeamInfo(m.yellow), FromTeamInfo(m.blue), ScaledPoint(m.designatedPosition),
      Optional(m.blueTeamOnPositiveHalf), Optional(m.nextCommand), FromGameEvents(m.gameEvents),
      FromProposalGroups(m.gameEventProposals), Optional(m.currentActionTimeRemaining),
      Optional(m.statusMessage))
  }

  // ---------------------------------------------------------------------------------------------
  // The inverse
  // ---------------------------------------------------------------------------------------------

  function RestoreRobotEvent(event: R.RobotEvent): P.RobotEvent {
    match event
    case BallLeftField(byTeam, byBot, location) =>
      P.BallLeftField(RestoreTeam(byTeam), Restored(byBot), RestoredPoint(location))
    case AimlessKick(byTeam, byBot, location, kickLocation) =>
      P.AimlessKick(RestoreTeam(byTeam), Restored(byBot), RestoredPoint(location),
                    RestoredPoint(kickLocation))
    case IndirectGoal(byTeam, byBot, location, kickLocation) =>
      P.IndirectGoal(RestoreTeam(byTeam), Restored(byBot), RestoredPoint(location),
                     RestoredPoint(kickLocation))
    case ChippedGoal(byTeam, byBot, location, kickLocation, maxBallHeight) =>
      P.ChippedGoal(RestoreTeam(byTeam), Restored(byBot), RestoredPoint(location),
                    RestoredPoint(kickLocation), Restored(maxBallHeight))
    case BotTooFastInStop(byTeam, byBot, location, speed) =>
      P.BotTooFastInStop(RestoreTeam(byTeam), Restored(byBot), RestoredPoint(location), Restored(speed))
    case DefenderTooCloseToKickPoint(byTeam, byBot, location, distance) =>
      P.DefenderTooCloseToKickPoint(RestoreTeam(byTeam), Restored(byBot), RestoredPoint(location),
                                    Restored(distance))
    case BotTippedOver(byTeam, byBot, location, ballLocation) =>
      P.BotTippedOver(RestoreTeam(byTeam), Restored(byBot), RestoredPoint(location),
                      RestoredPoint(ballLocation))
    case BotDroppedParts(byTeam, byBot, location, ballLocation) =>
      P.BotDroppedParts(RestoreTeam(byTeam), Restored(byBot), RestoredPoint(location),
                        RestoredPoint(ballLocation))
    case DefenderInDefenseArea(byTeam, byBot, location, distance) =>
      P.DefenderInDefenseArea(RestoreTeam(byTeam), Restored(byBot), RestoredPoint(location),
                              Restored(distance))
    case DefenderInDefenseAreaPartially(byTeam, byBot, location, distance, ballLocation) =>
      P.DefenderInDefenseAreaPartially(RestoreTeam(byTeam), Restored(byBot), RestoredPoint(location),
                                       Restored(distance), RestoredPoint(ballLocation))
    case AttackerTouchedBallInDefenseArea(byTeam, byBot, location, distance) =>
      P.AttackerTouchedBallInDefenseArea(RestoreTeam(byTeam), Restored(byBot), RestoredPoint(location),
                                         Restored(distance))
    case BotKickedBallTooFast(byTeam, byBot, location, initialBallSpeed, chipped) =>
      P.BotKickedBallTooFast(RestoreTeam(byTeam), Restored(byBot), RestoredPoint(location),
                             Restored(initialBallSpeed), Restored(chipped))
    case BotDribbledBallTooFar(byTeam, byBot, start, end) =>
      P.BotDribbledBallTooFar(RestoreTeam(byTeam), Restored(byBot), RestoredPoint(start),
                              RestoredPoint(end))
    case AttackerTouchedOpponentInDefenseArea(byTeam, byBot, victim, location) =>
      P.AttackerTouchedOpponentInDefenseArea(RestoreTeam(byTeam), Restored(byBot), Restored(victim),
                                             RestoredPoint(location))
    case AttackerDoubleTouchedBall(byTeam, byBot, location) =>
      P.AttackerDoubleTouchedBall(RestoreTeam(byTeam), Restored(byBot), RestoredPoint(location))
    case AttackerTooCloseToDefenseArea(byTeam, byBot, location, distance, ballLocation) =>
      P.AttackerTooCloseToDefenseArea(RestoreTeam(byTeam), Restored(byBot), RestoredPoint(location),
                                      Restored(distance), RestoredPoint(ballLocation))
    case BotHeldBallDeliberately(byTeam, byBot, location, duration) =>
      P.BotHeldBallDeliberately(RestoreTeam(byTeam), Restored(byBot), RestoredPoint(location),
                                Restored(duration))
    case BotInterferedPlacement(byTeam, byBot, location) =>
      P.BotInterferedPlacement(RestoreTeam(byTeam), Restored(byBot), RestoredPoint(location))
  }

  function RestorePlaceEvent(event: R.PlaceEvent): P.PlaceEvent {
    match event
    case Goal(byTeam, kickingTeam, kickingBot, location, kickLocation, maxBallHeight, numRobotsByTeam,
              lastTouchByTeam, message) =>
      P.Goal(RestoreTeam(byTeam), RestoredTeam(kickingTeam), Restored(kickingBot), RestoredPoint(location),
             RestoredPoint(kickLocation), Restored(maxBallHeight), Restored(numRobotsByTeam),
             Restored(lastTouchByTeam), Restored(message))
    case BotCrashDrawn(botYellow, botBlue, location, crashSpeed, speedDiff, crashAngle) =>
      P.BotCrashDrawn(Restored(botYellow), Restored(botBlue), RestoredPoint(location), Restored(crashSpeed),
                      Restored(speedDiff), Restored(crashAngle))
    case BotCrashUnique(byTeam, violator, victim, location, crashSpeed, speedDiff, crashAngle) =>
      P.BotCrashUnique(RestoreTeam(byTeam), Restored(violator), Restored(victim), RestoredPoint(location),
                       Restored(crashSpeed), Restored(speedDiff), Restored(crashAngle))
    case BotPushedBot(byTeam, violator, victim, location, pushedDistance) =>
      P.BotPushedBot(RestoreTeam(byTeam), Restored(violator), Restored(victim), RestoredPoint(location),
                     Restored(pushedDistance))
    case KickTimeout(byTeam, location, time) =>
      P.KickTimeout(RestoreTeam(byTeam), RestoredPoint(location), Restored(time))
    case NoProgressInGame(location, time) =>
      P.NoProgressInGame(RestoredPoint(location), Restored(time))
    case KeeperHeldBall(byTeam, location, duration) =>
      P.KeeperHeldBall(RestoreTeam(byTeam), RestoredPoint(location), Restored(duration))
    case BoundaryCrossing(byTeam, location) =>
      P.BoundaryCrossing(RestoreTeam(byTeam), RestoredPoint(location))
    case PenaltyKickFailed(byTeam, location, _) =>
      P.PenaltyKickFailed(RestoreTeam(byTeam), RestoredPoint(location), None)
  }

  function RestoreTeamEvent(event: R.TeamEvent): P.TeamEvent {
    match event
    case MultipleCards(byTeam) =>
      P.MultipleCards(RestoreTeam(byTeam))
    case MultipleFouls(byTeam) =>
      P.MultipleFouls(RestoreTeam(byTeam), [])
    case MultiplePlacementFailures(byTeam) =>
      P.MultiplePlacementFailures(RestoreTeam(byTeam))
    case PlacementFailed(byTeam, remainingDistance, _) =>
      P.PlacementFailed(RestoreTeam(byTeam), Restored(remainingDistance), None)
    case UnsportingBehaviorMinor(byTeam, reason) =>
      P.UnsportingBehaviorMinor(RestoreTeam(byTeam), reason)
    case UnsportingBehaviorMajor(byTeam, reason) =>
      P.UnsportingBehaviorMajor(RestoreTeam(byTeam), reason)
    case PlacementSucceeded(byTeam, timeTaken, precision, distance) =>
      P.PlacementSucceeded(RestoreTeam(byTeam), Restored(timeTaken), Restored(precision),
                           Restored(distance))
    case Prepared(timeTaken) =>
      P.Prepared(Restored(timeTaken))
    case BotSubstitution(byTeam) =>
      P.BotSubstitution(RestoreTeam(byTeam))
    case ExcessiveBotSubstitution(byTeam) =>
      P.ExcessiveBotSubstitution(RestoreTeam(byTeam))
    case ChallengeFlag(byTeam) =>
      P.ChallengeFlag(RestoreTeam(byTeam))
    case ChallengeFlagHandled(byTeam, accepted) =>
      P.ChallengeFlagHandled(RestoreTeam(byTeam), accepted)
    case EmergencyStop(byTeam) =>
      P.EmergencyStop(RestoreTeam(byTeam))
    case TooManyRobots(byTeam, numRobotsAllowed, numRobotsOnField, ballLocation) =>
      P.TooManyRobots(RestoreTeam(byTeam), Restored(numRobotsAllowed), Restored(numRobotsOnField),
                      RestoredPoint(ballLocation))
  }

  function RestorePayload(payload: R.Payload): P.Payload {
    match payload
    case ByRobot(event) => P.ByRobot(RestoreRobotEvent(event))
    case AtPlace(event) => P.AtPlace(RestorePlaceEvent(event))
    case OfTeam(event) => P.OfTeam(RestoreTeamEvent(event))
  }

  /** The field whose array is not empty; for a converted event there is at most one. */
  ghost function FilledField(events: R.EventArrays): (field: P.EventField)
    requires exists f :: events[f] != []
    ensures events[field] != []
  {
    var f :| events[f] != [];
    f
  }

  ghost function RestoreEvent(events: R.EventArrays): Option<P.Event> {
    if exists f :: events[f] != [] then
      var field := FilledField(events);
      Some(P.Event(field, RestorePayload(events[field][0])))
    else None
  }

  ghost function RestoreGameEvent(r: R.GameEvent): P.GameEvent {
    P.GameEvent(Some(r.id), Some(r.kind), r.origin, Some(r.createdTimestamp), RestoreEvent(r.events))
  }

  ghost function RestoreGameEvents(rs: seq<R.GameEvent>): seq<P.GameEvent> {
    seq(|rs|, i requires 0 <= i < |rs| => RestoreGameEvent(rs[i]))
  }

  ghost function RestoreProposalGroup(r: R.GameEventProposalGroup): P.GameEventProposalGroup {
    P.GameEventProposalGroup(Restored(r.id), RestoreGameEvents(r.gameEvents), Some(r.accepted))
  }

  ghost function RestoreProposalGroups(rs: seq<R.GameEventProposalGroup>): seq<P.GameEventProposalGroup> {
    seq(|rs|, i requires 0 <= i < |rs| => RestoreProposalGroup(rs[i]))
  }

  function RestoreTeamInfo(r: R.TeamInfo): P.TeamInfo {
    P.TeamInfo(
      r.name, r.score, r.redCards, r.yellowCardTimes, r.yellowCards, r.timeouts, r.timeoutTime,
      r.goalkeeper, Restored(r.foulCounter), Restored(r.ballPlacementFailures), Restored(r.canPlaceBall),
      Restored(r.maxAllowedBots), Restored(r.botSubstitutionIntent),
      Restored(r.ballPlacementFailuresReached), Restored(r.botSubstitutionAllowed),
      Restored(r.botSubstitutionsLeft), Restored(r.botSubstitutionTimeLeft))
  }

  ghost function RestoreReferee(r: R.Referee): P.Referee {
    P.Referee(
      Restored(r.sourceIdentifier), Restored(r.matchType), RestoredMicroseconds(r.timestamp), r.stage,
      Restored(r.stageTimeLeft), r.command, r.commandCounter, RestoredMicroseconds(r.commandTimestamp),
      RestoreTeamInfo(r.yellow), RestoreTeamInfo(r.blue), RestoredScaledPoint(r.designatedPosition),
      Restored(r.blueTeamOnPositiveHalf), Restored(r.nextCommand), RestoreGameEvents(r.gameEvents),
      RestoreProposalGroups(r.gameEventProposals), Restored(r.currentActionTimeRemaining),
      Restored(r.statusMessage))
  }

  // ---------------------------------------------------------------------------------------------
  // What is lost
  // ---------------------------------------------------------------------------------------------

  function ErasePlaceEvent(event: P.PlaceEvent): P.PlaceEvent {
    match event
    case PenaltyKickFailed(byTeam, location, _) => P.PenaltyKickFailed(byTeam, location, None)
    case _ => event
  }

  function EraseTeamEvent(event: P.TeamEvent): P.TeamEvent {
    match event
    case MultipleFouls(byTeam, _) => P.MultipleFouls(byTeam, [])
    case PlacementFailed(byTeam, remainingDistance, _) => P.PlacementFailed(byTeam, remainingDistance, None)
    case _ => event
  }

  /** Three payload fields are not copied. */
  function ErasePayload(payload: P.Payload): P.Payload {
    match payload
    case ByRobot(event) => payload
    case AtPlace(event) => P.AtPlace(ErasePlaceEvent(event))
    case OfTeam(event) => P.OfTeam(EraseTeamEvent(event))
  }

  /** A deprecated event disappears altogether. */
  function EraseEvent(event: Option<P.Event>): Option<P.Event> {
    if event.Some? && Copied(event.value.field)
    then Some(P.Event(event.value.field, ErasePayload(event.value.payload)))
    else None
  }

  function PresentOr<T>(field: Option<T>, default: T): Option<T> {
    Some(if field.Some? then field.value else default)
  }

  /** An absent identifier, type or time can no longer be told from an empty or zero one. */
  function EraseGameEvent(m: P.GameEvent): P.GameEvent {
    P.GameEvent(PresentOr(m.id, ""), PresentOr(m.kind, 0), m.origin, PresentOr(m.createdTimestamp, 0),
                EraseEvent(m.event))
  }

  function EraseGameEvents(ms: seq<P.GameEvent>): seq<P.GameEvent> {
    seq(|ms|, i requires 0 <= i < |ms| => EraseGameEvent(ms[i]))
  }

  function EraseProposalGroup(m: P.GameEventProposalGroup): P.GameEventProposalGroup {
    m.(gameEvents := EraseGameEvents(m.gameEvents), accepted := PresentOr(m.accepted, false))
  }

  function EraseProposalGroups(ms: seq<P.GameEventProposalGroup>): seq<P.GameEventProposalGroup> {
    seq(|ms|, i requires 0 <= i < |ms| => EraseProposalGroup(ms[i]))
  }

  function EraseReferee(m: P.Referee): P.Referee {
    m.(gameEvents := EraseGameEvents(m.gameEvents),
       gameEventProposals := EraseProposalGroups(m.gameEventProposals))
  }

  // ---------------------------------------------------------------------------------------------
  // Proofs
  // ---------------------------------------------------------------------------------------------

  lemma RestoreInvertsRobotEvent(event: P.RobotEvent)
    ensures RestoreRobotEvent(FromRobotEvent(event)) == event
  {
  }

  lemma RestoreInvertsPlaceEvent(event: P.PlaceEvent)
    ensures RestorePlaceEvent(FromPlaceEvent(event)) == ErasePlaceEvent(event)
    ensures FromPlaceEvent(ErasePlaceEvent(event)) == FromPlaceEvent(event)
  {
  }

  lemma RestoreInvertsTeamEvent(event: P.TeamEvent)
    ensures RestoreTeamEvent(FromTeamEvent(event)) == EraseTeamEvent(event)
    ensures FromTeamEvent(EraseTeamEvent(event)) == FromTeamEvent(event)
  {
  }

  lemma RestoreInvertsFromPayload(payload: P.Payload)
    ensures RestorePayload(FromPayload(payload)) == ErasePayload(payload)
    ensures FromPayload(ErasePayload(payload)) == FromPayload(payload)
  {
    match payload
    case ByRobot(event) => RestoreInvertsRobotEvent(event);
    case AtPlace(event) => RestoreInvertsPlaceEvent(event);
    case OfTeam(event) => RestoreInvertsTeamEvent(event);
  }

  /** Where a field stands in that list. */
  function Position(field: P.EventField): nat {
    match field
    case BallLeftFieldTouchLine => 0
    case BallLeftFieldGoalLine => 1
    case AimlessKick => 2
    case AttackerTooCloseToDefenseArea => 3
    case DefenderInDefenseArea => 4
    case BoundaryCrossing => 5
    case KeeperHeldBall => 6
    case BotDribbledBallTooFar => 7
    case BotPushedBot => 8
    case BotHeldBallDeliberately => 9
    case BotTippedOver => 10
    case BotDroppedParts => 11
    case AttackerTouchedBallInDefenseArea => 12
    case BotKickedBallTooFast => 13
    case BotCrashUnique => 14
    case BotCrashDrawn => 15
    case DefenderTooCloseToKickPoint => 16
    case BotTooFastInStop => 17
    case BotInterferedPlacement => 18
    case PossibleGoal => 19
    case Goal => 20
    case InvalidGoal => 21
    case AttackerDoubleTouchedBall => 22
    case PlacementSucceeded => 23
    case PenaltyKickFailed => 24
    case NoProgressInGame => 25
    case PlacementFailed => 26
    case MultipleCards => 27
    case MultipleFouls => 28
    case BotSubstitution => 29
    case ExcessiveBotSubstitution => 30
    case TooManyRobots => 31
    case ChallengeFlag => 32
    case ChallengeFlagHandled => 33
    case EmergencyStop => 34
    case UnsportingBehaviorMinor => 35
    case UnsportingBehaviorMajor => 36
    case _ => |COPIED|
  }

  lemma CopiedAtPosition(field: P.EventField)
    requires Copied(field)
    ensures Position(field) < |COPIED| && COPIED[Position(field)] == field
  {
  }

  lemma ListedAreCopied(i: nat)
    requires i < |COPIED|
    ensures Copied(COPIED[i])
  {
  }

  /** Every field but the deprecated ones is copied. */
  lemma CopiedAreListed(field: P.EventField)
    ensures field in COPIED <==> Copied(field)
  {
    if Copied(field) {
      CopiedAtPosition(field);
    } else if i :| 0 <= i < |COPIED| && COPIED[i] == field {
      ListedAreCopied(i);
    }
  }

  /** Copying fields one after the other fills one array, if the field that is set is among them. */
  lemma {:induction false} CopyingFills(events: R.EventArrays, event: Option<P.Event>, fields: seq<P.EventField>)
    ensures CopyOptionalStructs(events, event, fields)
            == if event.Some? && event.value.field in fields then WithEvent(events, event) else events
  {
    if fields != [] {
      CopyingFills(CopyOptionalStruct(events, event, fields[0]), event, fields[1..]);
    }
  }

  lemma EventArrays(m: P.GameEvent)
    ensures FromGameEvent(m).events
            == if m.event.Some? && Copied(m.event.value.field) then WithEvent(NO_EVENTS, m.event) else NO_EVENTS
  {
    if m.event.Some? {
      CopiedAreListed(m.event.value.field);
    }
    CopyingFills(NO_EVENTS, m.event, COPIED);
  }

  predicate SameRobotEvent(event: P.RobotEvent, r: R.RobotEvent) {
    && (event.BallLeftField? <==> r.BallLeftField?)
    && (event.AimlessKick? <==> r.AimlessKick?)
    && (event.IndirectGoal? <==> r.IndirectGoal?)
    && (event.ChippedGoal? <==> r.ChippedGoal?)
    && (event.BotTooFastInStop? <==> r.BotTooFastInStop?)
    && (event.DefenderTooCloseToKickPoint? <==> r.DefenderTooCloseToKickPoint?)
    && (event.BotTippedOver? <==> r.BotTippedOver?)
    && (event.BotDroppedParts? <==> r.BotDroppedParts?)
    && (event.DefenderInDefenseArea? <==> r.DefenderInDefenseArea?)
    && (event.DefenderInDefenseAreaPartially? <==> r.DefenderInDefenseAreaPartially?)
    && (event.AttackerTouchedBallInDefenseArea? <==> r.AttackerTouchedBallInDefenseArea?)
    && (event.BotKickedBallTooFast? <==> r.BotKickedBallTooFast?)
    && (event.BotDribbledBallTooFar? <==> r.BotDribbledBallTooFar?)
    && (event.AttackerTouchedOpponentInDefenseArea? <==> r.AttackerTouchedOpponentInDefenseArea?)
    && (event.AttackerDoubleTouchedBall? <==> r.AttackerDoubleTouchedBall?)
    && (event.AttackerTooCloseToDefenseArea? <==> r.AttackerTooCloseToDefenseArea?)
    && (event.BotHeldBallDeliberately? <==> r.BotHeldBallDeliberately?)
    && (event.BotInterferedPlacement? <==> r.BotInterferedPlacement?)
  }

  lemma RobotEventStaysSame(event: P.RobotEvent)
    ensures SameRobotEvent(event, FromRobotEvent(event))
  {
  }

  lemma SameRobotEventSameType(field: P.EventField, event: P.RobotEvent, r: R.RobotEvent)
    requires SameRobotEvent(event, r)
    ensures R.Holds(field, R.ByRobot(r)) <==> P.Holds(field, P.ByRobot(event))
  {
  }

  lemma RobotEventKeepsType(field: P.EventField, event: P.RobotEvent)
    ensures R.Holds(field, R.ByRobot(FromRobotEvent(event))) <==> P.Holds(field, P.ByRobot(event))
  {
    RobotEventStaysSame(event);
    SameRobotEventSameType(field, event, FromRobotEvent(event));
  }

  lemma PlaceEventKeepsType(field: P.EventField, event: P.PlaceEvent)
    ensures R.Holds(field, R.AtPlace(FromPlaceEvent(event))) <==> P.Holds(field, P.AtPlace(event))
  {
  }

  lemma TeamEventKeepsType(field: P.EventField, event: P.TeamEvent)
    ensures R.Holds(field, R.OfTeam(FromTeamEvent(event))) <==> P.Holds(field, P.OfTeam(event))
  {
  }

  lemma ConversionKeepsType(field: P.EventField, payload: P.Payload)
    ensures R.Holds(field, FromPayload(payload)) <==> P.Holds(field, payload)
  {
    match payload
    case ByRobot(event) => RobotEventKeepsType(field, event);
    case AtPlace(event) => PlaceEventKeepsType(field, event);
    case OfTeam(event) => TeamEventKeepsType(field, event);
  }

  ghost predicate AtMostOneEvent(r: R.GameEvent) {
    && (forall f: P.EventField :: |r.events[f]| <= 1)
    && (forall f, g :: r.events[f] != [] && r.events[g] != [] ==> f == g)
  }

  /**
   The oneof stays exclusive: of the 47 arrays at most one is not empty, it holds one element, and
   there is one exactly when the event that is set is not deprecated.  A field that holds a message of
   its type leads to an array that does.
   */
  lemma OneofStaysExclusive(m: P.GameEvent)
    ensures AtMostOneEvent(FromGameEvent(m))
    ensures (exists f :: FromGameEvent(m).events[f] != []) <==> m.event.Some? && Copied(m.event.value.field)
    ensures m.event.Some? && P.Holds(m.event.value.field, m.event.value.payload) ==>
      forall f: P.EventField, p | p in FromGameEvent(m).events[f] :: R.Holds(f, p)
  {
    EventArrays(m);
    if m.event.Some? {
      ConversionKeepsType(m.event.value.field, m.event.value.payload);
      assert Copied(m.event.value.field) ==> FromGameEvent(m).events[m.event.value.field] != [];
    }
  }

  lemma RestoreInvertsFromEvent(m: P.GameEvent)
    ensures RestoreEvent(FromGameEvent(m).events) == EraseEvent(m.event)
  {
    EventArrays(m);
    if m.event.Some? {
      RestoreInvertsFromPayload(m.event.value.payload);
      assert Copied(m.event.value.field) ==> FromGameEvent(m).events[m.event.value.field] != [];
    }
  }

  lemma ErasureDoesNotShow(m: P.GameEvent)
    ensures FromGameEvent(EraseGameEvent(m)).events == FromGameEvent(m).events
  {
    EventArrays(m);
    EventArrays(EraseGameEvent(m));
    if m.event.Some? {
      RestoreInvertsFromPayload(m.event.value.payload);
    }
  }

  lemma RestoreInvertsFromGameEvent(m: P.GameEvent)
    ensures RestoreGameEvent(FromGameEvent(m)) == EraseGameEvent(m)
    ensures FromGameEvent(EraseGameEvent(m)) == FromGameEvent(m)
  {
    RestoreInvertsFromEvent(m);
    ErasureDoesNotShow(m);
  }

  lemma RestoreInvertsFromGameEvents(ms: seq<P.GameEvent>)
    ensures RestoreGameEvents(FromGameEvents(ms)) == EraseGameEvents(ms)
    ensures FromGameEvents(EraseGameEvents(ms)) == FromGameEvents(ms)
  {
    forall i | 0 <= i < |ms|
      ensures RestoreGameEvent(FromGameEvent(ms[i])) == EraseGameEvent(ms[i])
      ensures FromGameEvent(EraseGameEvent(ms[i])) == FromGameEvent(ms[i])
    {
      RestoreInvertsFromGameEvent(ms[i]);
    }
  }

  lemma RestoreInvertsFromProposalGroups(ms: seq<P.GameEventProposalGroup>)
    ensures RestoreProposalGroups(FromProposalGroups(ms)) == EraseProposalGroups(ms)
    ensures FromProposalGroups(EraseProposalGroups(ms)) == FromProposalGroups(ms)
  {
    forall i | 0 <= i < |ms|
      ensures RestoreProposalGroup(FromProposalGroup(ms[i])) == EraseProposalGroup(ms[i])
      ensures FromProposalGroup(EraseProposalGroup(ms[i])) == FromProposalGroup(ms[i])
    {
      RestoreInvertsFromGameEvents(ms[i].gameEvents);
    }
  }

  lemma RestoreInvertsFromTeamInfo(m: P.TeamInfo)
    ensures RestoreTeamInfo(FromTeamInfo(m)) == m
  {
  }

  predicate TimestampsFit(m: P.Referee) {
    m.packetTimestamp < TWO_31 * 1_000_000 && m.commandTimestamp < TWO_31 * 1_000_000
  }

  /** Restoring a converted referee message gives the message back up to the erasure. */
  lemma RestoreInvertsFromReferee(m: P.Referee)
    ensures FromReferee(EraseReferee(m)) == FromReferee(m)
    ensures RestoreReferee(FromReferee(m)) == EraseReferee(m) <==> TimestampsFit(m)
  {
    RestoreInvertsFromGameEvents(m.gameEvents);
    RestoreInvertsFromProposalGroups(m.gameEventProposals);
    RestoreInvertsFromTeamInfo(m.yellow);
    RestoreInvertsFromTeamInfo(m.blue);
    TimestampRecoveredIff(m.packetTimestamp);
    TimestampRecoveredIff(m.commandTimestamp);
  }

  /** A message without its two timestamps. */
  function Untimed(m: P.Referee): P.Referee {
    m.(packetTimestamp := 0, commandTimestamp := 0)
  }

  /**
   The erasure is exact: two messages look the same in ROS precisely when their timestamps do and
   they differ otherwise only by the erasure; timestamps that fit look the same only if they are.
   */
  lemma SameRosMessageIff(a: P.Referee, b: P.Referee)
    ensures FromReferee(a) == FromReferee(b) <==>
      && FromMicroseconds(a.packetTimestamp) == FromMicroseconds(b.packetTimestamp)
      && FromMicroseconds(a.commandTimestamp) == FromMicroseconds(b.commandTimestamp)
      && EraseReferee(Untimed(a)) == EraseReferee(Untimed(b))
    ensures TimestampsFit(a) && TimestampsFit(b) ==>
      (FromReferee(a) == FromReferee(b) <==> EraseReferee(a) == EraseReferee(b))
  {
    RestoreInvertsFromReferee(a);
    RestoreInvertsFromReferee(b);
    RestoreInvertsFromReferee(Untimed(a));
    RestoreInvertsFromReferee(Untimed(b));
  }

  /** Exclusivity for every event nested in a referee message, and order and length of its lists. */
  lemma NestedEventsStayExclusive(m: P.Referee)
    ensures var r := FromReferee(m);
            && |r.gameEvents| == |m.gameEvents|
            && |r.gameEventProposals| == |m.gameEventProposals|
            && (forall i | 0 <= i < |m.gameEvents| ::
                  RestoreGameEvent(r.gameEvents[i]) == EraseGameEvent(m.gameEvents[i])
                  && AtMostOneEvent(r.gameEvents[i]))
            && (forall i | 0 <= i < |m.gameEventProposals| ::
                  && |r.gameEventProposals[i].gameEvents| == |m.gameEventProposals[i].gameEvents|
                  && forall j | 0 <= j < |m.gameEventProposals[i].gameEvents| ::
                       AtMostOneEvent(r.gameEventProposals[i].gameEvents[j]))
  {
    var r := FromReferee(m);
    forall i | 0 <= i < |m.gameEvents|
      ensures RestoreGameEvent(r.gameEvents[i]) == EraseGameEvent(m.gameEvents[i])
      ensures AtMostOneEvent(r.gameEvents[i])
    {
      RestoreInvertsFromGameEvent(m.gameEvents[i]);
      OneofStaysExclusive(m.gameEvents[i]);
    }
    forall i, j | 0 <= i < |m.gameEventProposals| && 0 <= j < |m.gameEventProposals[i].gameEvents|
      ensures AtMostOneEvent(r.gameEventProposals[i].gameEvents[j])
    {
      OneofStaysExclusive(m.gameEventProposals[i].gameEvents[j]);
    }
  }

  // ---------------------------------------------------------------------------------------------
  // What comes out
  // ---------------------------------------------------------------------------------------------

  // An array that mirrors an optional field has at most one element, points lie in the plane, and the
  // fields that are not copied are empty.

  predicate KnownTeam(team: R.Team) {
    team.color <= 2
  }

  predicate KnownTeams(teams: seq<R.Team>) {
    |teams| <= 1 && forall team | team in teams :: KnownTeam(team)
  }

  predicate Flat(points: seq<R.Point32>) {
    |points| <= 1 && forall p | p in points :: p.z == 0.0
  }

  predicate CanonicalRobotEvent(event: R.RobotEvent) {
    match event
    case BallLeftField(byTeam, byBot, location) =>
      KnownTeam(byTeam) && |byBot| <= 1 && Flat(location)
    case AimlessKick(byTeam, byBot, location, kickLocation) =>
      KnownTeam(byTeam) && |byBot| <= 1 && Flat(location) && Flat(kickLocation)
    case IndirectGoal(byTeam, byBot, location, kickLocation) =>
      KnownTeam(byTeam) && |byBot| <= 1 && Flat(location) && Flat(kickLocation)
    case ChippedGoal(byTeam, byBot, location, kickLocation, maxBallHeight) =>
      KnownTeam(byTeam) && |byBot| <= 1 && Flat(location) && Flat(kickLocation) && |maxBallHeight| <= 1
    case BotTooFastInStop(byTeam, byBot, location, speed) =>
      KnownTeam(byTeam) && |byBot| <= 1 && Flat(location) && |speed| <= 1
    case DefenderTooCloseToKickPoint(byTeam, byBot, location, distance) =>
      KnownTeam(byTeam) && |byBot| <= 1 && Flat(location) && |distance| <= 1
    case BotTippedOver(byTeam, byBot, location, ballLocation) =>
      KnownTeam(byTeam) && |byBot| <= 1 && Flat(location) && Flat(ballLocation)
    case BotDroppedParts(byTeam, byBot, location, ballLocation) =>
      KnownTeam(byTeam) && |byBot| <= 1 && Flat(location) && Flat(ballLocation)
    case DefenderInDefenseArea(byTeam, byBot, location, distance) =>
      KnownTeam(byTeam) && |byBot| <= 1 && Flat(location) && |distance| <= 1
    case DefenderInDefenseAreaPartially(byTeam, byBot, location, distance, ballLocation) =>
      KnownTeam(byTeam) && |byBot| <= 1 && Flat(location) && |distance| <= 1 && Flat(ballLocation)
    case AttackerTouchedBallInDefenseArea(byTeam, byBot, location, distance) =>
      KnownTeam(byTeam) && |byBot| <= 1 && Flat(location) && |distance| <= 1
    case BotKickedBallTooFast(byTeam, byBot, location, initialBallSpeed, chipped) =>
      KnownTeam(byTeam) && |byBot| <= 1 && Flat(location) && |initialBallSpeed| <= 1 && |chipped| <= 1
    case BotDribbledBallTooFar(byTeam, byBot, start, end) =>
      KnownTeam(byTeam) && |byBot| <= 1 && Flat(start) && Flat(end)
    case AttackerTouchedOpponentInDefenseArea(byTeam, byBot, victim, location) =>
      KnownTeam(byTeam) && |byBot| <= 1 && |victim| <= 1 && Flat(location)
    case AttackerDoubleTouchedBall(byTeam, byBot, location) =>
      KnownTeam(byTeam) && |byBot| <= 1 && Flat(location)
    case AttackerTooCloseToDefenseArea(byTeam, byBot, location, distance, ballLocation) =>
      KnownTeam(byTeam) && |byBot| <= 1 && Flat(location) && |distance| <= 1 && Flat(ballLocation)
    case BotHeldBallDeliberately(byTeam, byBot, location, duration) =>
      KnownTeam(byTeam) && |byBot| <= 1 && Flat(location) && |duration| <= 1
    case BotInterferedPlacement(byTeam, byBot, location) =>
      KnownTeam(byTeam) && |byBot| <= 1 && Flat(location)
  }

  predicate CanonicalPlaceEvent(event: R.PlaceEvent) {
    match event
    case Goal(byTeam, kickingTeam, kickingBot, location, kickLocation, maxBallHeight, numRobotsByTeam,
              lastTouchByTeam, message) =>
      KnownTeam(byTeam) && KnownTeams(kickingTeam) && |kickingBot| <= 1 && Flat(location) &&
      Flat(kickLocation) && |maxBallHeight| <= 1 && |numRobotsByTeam| <= 1 && |lastTouchByTeam| <= 1 &&
      |message| <= 1
    case BotCrashDrawn(botYellow, botBlue, location, crashSpeed, speedDiff, crashAngle) =>
      |botYellow| <= 1 && |botBlue| <= 1 && Flat(location) && |crashSpeed| <= 1 && |speedDiff| <= 1 &&
      |crashAngle| <= 1
    case BotCrashUnique(byTeam, violator, victim, location, crashSpeed, speedDiff, crashAngle) =>
      KnownTeam(byTeam) && |violator| <= 1 && |victim| <= 1 && Flat(location) && |crashSpeed| <= 1 &&
      |speedDiff| <= 1 && |crashAngle| <= 1
    case BotPushedBot(byTeam, violator, victim, location, pushedDistance) =>
      KnownTeam(byTeam) && |violator| <= 1 && |victim| <= 1 && Flat(location) && |pushedDistance| <= 1
    case KickTimeout(byTeam, location, time) =>
      KnownTeam(byTeam) && Flat(location) && |time| <= 1
    case NoProgressInGame(location, time) =>
      Flat(location) && |time| <= 1
    case KeeperHeldBall(byTeam, location, duration) =>
      KnownTeam(byTeam) && Flat(location) && |duration| <= 1
    case BoundaryCrossing(byTeam, location) =>
      KnownTeam(byTeam) && Flat(location)
    case PenaltyKickFailed(byTeam, location, reason) =>
      KnownTeam(byTeam) && Flat(location) && reason == []
  }

  predicate CanonicalTeamEvent(event: R.TeamEvent) {
    match event
    case MultipleCards(byTeam) =>
      KnownTeam(byTeam)
    case MultipleFouls(byTeam) =>
      KnownTeam(byTeam)
    case MultiplePlacementFailures(byTeam) =>
      KnownTeam(byTeam)
    case PlacementFailed(byTeam, remainingDistance, nearestOwnBotDistance) =>
      KnownTeam(byTeam) && |remainingDistance| <= 1 && nearestOwnBotDistance == []
    case UnsportingBehaviorMinor(byTeam, _) =>
      KnownTeam(byTeam)
    case UnsportingBehaviorMajor(byTeam, _) =>
      KnownTeam(byTeam)
    case PlacementSucceeded(byTeam, timeTaken, precision, distance) =>
      KnownTeam(byTeam) && |timeTaken| <= 1 && |precision| <= 1 && |distance| <= 1
    case Prepared(timeTaken) =>
      |timeTaken| <= 1
    case BotSubstitution(byTeam) =>
      KnownTeam(byTeam)
    case ExcessiveBotSubstitution(byTeam) =>
      KnownTeam(byTeam)
    case ChallengeFlag(byTeam) =>
      KnownTeam(byTeam)
    case ChallengeFlagHandled(byTeam, _) =>
      KnownTeam(byTeam)
    case EmergencyStop(byTeam) =>
      KnownTeam(byTeam)
    case TooManyRobots(byTeam, numRobotsAllowed, numRobotsOnField, ballLocation) =>
      KnownTeam(byTeam) && |numRobotsAllowed| <= 1 && |numRobotsOnField| <= 1 && Flat(ballLocation)
  }

  predicate CanonicalPayload(payload: R.Payload) {
    match payload
    case ByRobot(event) => CanonicalRobotEvent(event)
    case AtPlace(event) => CanonicalPlaceEvent(event)
    case OfTeam(event) => CanonicalTeamEvent(event)
  }

  ghost predicate CanonicalGameEvent(r: R.GameEvent) {
    && AtMostOneEvent(r)
    && forall f: P.EventField :: r.events[f] != [] ==> Copied(f) && CanonicalPayload(r.events[f][0])
  }

  ghost predicate CanonicalGameEvents(rs: seq<R.GameEvent>) {
    forall i | 0 <= i < |rs| :: CanonicalGameEvent(rs[i])
  }

  ghost predicate CanonicalProposalGroup(r: R.GameEventProposalGroup) {
    |r.id| <= 1 && CanonicalGameEvents(r.gameEvents)
  }

  predicate CanonicalTeamInfo(r: R.TeamInfo) {
    && |r.foulCounter| <= 1 && |r.ballPlacementFailures| <= 1 && |r.canPlaceBall| <= 1
    && |r.maxAllowedBots| <= 1 && |r.botSubstitutionIntent| <= 1 && |r.ballPlacementFailuresReached| <= 1
    && |r.botSubstitutionAllowed| <= 1 && |r.botSubstitutionsLeft| <= 1 && |r.botSubstitutionTimeLeft| <= 1
  }

  /** A time of day that microseconds can tell. */
  predicate CanonicalTime(time: R.Time) {
    0 <= time.sec && time.nanosec < 1_000_000_000 && time.nanosec % 1000 == 0
  }

  ghost predicate CanonicalFields(r: R.Referee) {
    && |r.sourceIdentifier| <= 1 && |r.matchType| <= 1 && |r.stageTimeLeft| <= 1 && Flat(r.designatedPosition)
    && |r.blueTeamOnPositiveHalf| <= 1 && |r.nextCommand| <= 1 && |r.currentActionTimeRemaining| <= 1
    && |r.statusMessage| <= 1
    && CanonicalTeamInfo(r.yellow) && CanonicalTeamInfo(r.blue) && CanonicalGameEvents(r.gameEvents)
    && forall i | 0 <= i < |r.gameEventProposals| :: CanonicalProposalGroup(r.gameEventProposals[i])
  }

  lemma TeamsConvertBack()
    ensures forall team | KnownTeam(team) :: FromTeam(RestoreTeam(team)) == team
    ensures forall teams | KnownTeams(teams) :: OptionalTeam(RestoredTeam(teams)) == teams
  {
  }

  lemma PointsConvertBack()
    ensures forall points | Flat(points) :: OptionalPoint(RestoredPoint(points)) == points
  {
  }

  lemma RobotEventsAreCanonical(event: P.RobotEvent)
    ensures CanonicalRobotEvent(FromRobotEvent(event))
  {
  }

  lemma RestoredKickEventConverts(r: R.RobotEvent)
    requires CanonicalRobotEvent(r)
    requires r.BallLeftField? || r.AimlessKick? || r.IndirectGoal? || r.ChippedGoal? || r.BotTooFastInStop?
             || r.DefenderTooCloseToKickPoint? || r.BotTippedOver? || r.BotDroppedParts? || r.DefenderInDefenseArea?
    ensures FromRobotEvent(RestoreRobotEvent(r)) == r
  {
    TeamsConvertBack();
    PointsConvertBack();
  }

  lemma RestoredRobotEventConverts(r: R.RobotEvent)
    requires CanonicalRobotEvent(r)
    ensures FromRobotEvent(RestoreRobotEvent(r)) == r
  {
    if r.BallLeftField? || r.AimlessKick? || r.IndirectGoal? || r.ChippedGoal? || r.BotTooFastInStop?
       || r.DefenderTooCloseToKickPoint? || r.BotTippedOver? || r.BotDroppedParts? || r.DefenderInDefenseArea? {
      RestoredKickEventConverts(r);
    } else {
      TeamsConvertBack();
      PointsConvertBack();
    }
  }

  lemma PlaceEventsAreCanonical(event: P.PlaceEvent)
    ensures CanonicalPlaceEvent(FromPlaceEvent(event))
  {
  }

  lemma RestoredPlaceEventConverts(r: R.PlaceEvent)
    requires CanonicalPlaceEvent(r)
    ensures FromPlaceEvent(RestorePlaceEvent(r)) == r
  {
    TeamsConvertBack();
    PointsConvertBack();
  }

  lemma TeamEventsAreCanonical(event: P.TeamEvent)
    ensures CanonicalTeamEvent(FromTeamEvent(event))
  {
  }

  lemma RestoredTeamEventConverts(r: R.TeamEvent)
    requires CanonicalTeamEvent(r)
    ensures FromTeamEvent(RestoreTeamEvent(r)) == r
  {
    TeamsConvertBack();
    PointsConvertBack();
  }

  /** Exactly the canonical payloads come out of the conversion. */
  lemma PayloadImageIff(r: R.Payload)
    ensures CanonicalPayload(r) <==> exists payload :: FromPayload(payload) == r
    ensures CanonicalPayload(r) ==> FromPayload(RestorePayload(r)) == r
  {
    if CanonicalPayload(r) {
      RestoredPayloadConverts(r);
    }
    forall payload | FromPayload(payload) == r
      ensures CanonicalPayload(r)
    {
      PayloadsAreCanonical(payload);
    }
  }

  lemma PayloadsAreCanonical(payload: P.Payload)
    ensures CanonicalPayload(FromPayload(payload))
  {
    match payload
    case ByRobot(event) => RobotEventsAreCanonical(event);
    case AtPlace(event) => PlaceEventsAreCanonical(event);
    case OfTeam(event) => TeamEventsAreCanonical(event);
  }

  lemma RestoredPayloadConverts(r: R.Payload)
    requires CanonicalPayload(r)
    ensures FromPayload(RestorePayload(r)) == r
  {
    match r
    case ByRobot(event) => RestoredRobotEventConverts(event);
    case AtPlace(event) => RestoredPlaceEventConverts(event);
    case OfTeam(event) => RestoredTeamEventConverts(event);
  }

  lemma GameEventsAreCanonical(m: P.GameEvent)
    ensures CanonicalGameEvent(FromGameEvent(m))
  {
    OneofStaysExclusive(m);
    EventArrays(m);
    forall f: P.EventField | FromGameEvent(m).events[f] != []
      ensures Copied(f) && CanonicalPayload(FromGameEvent(m).events[f][0])
    {
      assert f == m.event.value.field;
      PayloadsAreCanonical(m.event.value.payload);
    }
  }

  lemma OnlyOneKey<F, T>(arrays: map<F, seq<T>>, empty: map<F, seq<T>>, field: F)
    requires arrays.Keys == empty.Keys && field in arrays && |arrays[field]| == 1
    requires forall f | f in empty :: empty[f] == []
    requires forall f | f in arrays && arrays[f] != [] :: f == field
    ensures arrays == empty[field := [arrays[field][0]]]
  {
    var one := empty[field := [arrays[field][0]]];
    assert arrays[field] == one[field];
    assert forall f | f in arrays && f != field :: f in empty && arrays[f] == [] == empty[f] == one[f];
    assert one.Keys == arrays.Keys;
  }

  lemma OnlyOneArray(r: R.GameEvent, field: P.EventField)
    requires AtMostOneEvent(r) && r.events[field] != []
    ensures r.events == NO_EVENTS[field := [r.events[field][0]]]
  {
    assert r.events.Keys == NO_EVENTS.Keys;
    OnlyOneKey(r.events, NO_EVENTS, field);
  }

  lemma NoArray(r: R.GameEvent)
    requires forall f: P.EventField :: r.events[f] == []
    ensures r.events == NO_EVENTS
  {
    assert r.events.Keys == NO_EVENTS.Keys;
  }

  lemma RestoredEventIs(r: R.GameEvent, field: P.EventField)
    requires AtMostOneEvent(r) && r.events[field] != []
    ensures RestoreEvent(r.events) == Some(P.Event(field, RestorePayload(r.events[field][0])))
  {
    assert FilledField(r.events) == field;
  }

  lemma RestoredEventConverts(r: R.GameEvent)
    requires CanonicalGameEvent(r)
    ensures FromGameEvent(RestoreGameEvent(r)).events == r.events
  {
    EventArrays(RestoreGameEvent(r));
    if field: P.EventField :| r.events[field] != [] {
      RestoredEventIs(r, field);
      OnlyOneArray(r, field);
      RestoredPayloadConverts(r.events[field][0]);
    } else {
      NoArray(r);
    }
  }

  lemma RestoredGameEventConverts(r: R.GameEvent)
    requires CanonicalGameEvent(r)
    ensures FromGameEvent(RestoreGameEvent(r)) == r
  {
    RestoredEventConverts(r);
  }

  lemma RestoredGameEventsConvert(rs: seq<R.GameEvent>)
    requires CanonicalGameEvents(rs)
    ensures FromGameEvents(RestoreGameEvents(rs)) == rs
  {
    forall i | 0 <= i < |rs|
      ensures FromGameEvent(RestoreGameEvent(rs[i])) == rs[i]
    {
      RestoredGameEventConverts(rs[i]);
    }
  }

  lemma RestoredProposalGroupConverts(r: R.GameEventProposalGroup)
    requires CanonicalProposalGroup(r)
    ensures FromProposalGroup(RestoreProposalGroup(r)) == r
  {
    RestoredGameEventsConvert(r.gameEvents);
  }

  lemma RestoredProposalGroupsConvert(rs: seq<R.GameEventProposalGroup>)
    requires forall i | 0 <= i < |rs| :: CanonicalProposalGroup(rs[i])
    ensures FromProposalGroups(RestoreProposalGroups(rs)) == rs
  {
    forall i | 0 <= i < |rs|
      ensures FromProposalGroup(RestoreProposalGroup(rs[i])) == rs[i]
    {
      RestoredProposalGroupConverts(rs[i]);
    }
  }

  lemma TeamInfosAreCanonical(m: P.TeamInfo)
    ensures CanonicalTeamInfo(FromTeamInfo(m))
  {
  }

  lemma RestoredTeamInfoConverts(r: R.TeamInfo)
    requires CanonicalTeamInfo(r)
    ensures FromTeamInfo(RestoreTeamInfo(r)) == r
  {
  }

  /** A timestamp that fits becomes that very time. */
  lemma FittingTimeIsExact(us: P.uint64)
    requires us < TWO_31 * 1_000_000
    ensures CanonicalTime(FromMicroseconds(us))
    ensures FromMicroseconds(us).sec * 1_000_000_000 + FromMicroseconds(us).nanosec == us * 1000
  {
    var ns := us * 1000;
    assert WrapSigned(ns, TWO_63) == ns;
    assert 0 <= ns / NANOSECONDS < TWO_31;
    assert WrapSigned(ns / NANOSECONDS, TWO_31) == ns / NANOSECONDS;
    assert NANOSECONDS == 1000 * 1_000_000;
    ThousandsStay(us, ns / NANOSECONDS);
  }

  lemma ThousandsStay(us: nat, sec: nat)
    requires sec == us * 1000 / NANOSECONDS
    ensures us * 1000 % NANOSECONDS == 1000 * (us - sec * 1_000_000)
    ensures us * 1000 % NANOSECONDS % 1000 == 0
  {
  }

  /** A later one, as long as its nanoseconds fit 64 bits, loses a multiple of 2^32 seconds and no more. */
  lemma LaterTimeWraps(us: P.uint64)
    requires us * 1000 < TWO_63
    ensures FromMicroseconds(us).nanosec == us % 1_000_000 * 1000
    ensures (FromMicroseconds(us).sec - us / 1_000_000) % 0x1_0000_0000 == 0
  {
    var ns := us * 1000;
    assert WrapSigned(ns, TWO_63) == ns;
    assert us == us / 1_000_000 * 1_000_000 + us % 1_000_000;
    assert ns / NANOSECONDS == us / 1_000_000 && ns % NANOSECONDS == us % 1_000_000 * 1000;
  }

  /** Every canonical time comes from a timestamp that fits. */
  lemma RestoredTimeConverts(time: R.Time)
    requires CanonicalTime(time)
    ensures RestoredMicroseconds(time) < TWO_31 * 1_000_000
    ensures FromMicroseconds(RestoredMicroseconds(time)) == time
  {
    var ns := time.sec * NANOSECONDS + time.nanosec;
    assert RestoredMicroseconds(time) * 1000 == ns;
    assert ns / NANOSECONDS == time.sec && ns % NANOSECONDS == time.nanosec;
    assert WrapSigned(ns, TWO_63) == ns;
    assert WrapSigned(time.sec, TWO_31) == time.sec;
  }

  /** Whatever the message and its timestamps, the other fields come out canonical. */
  lemma FieldsAreCanonical(m: P.Referee)
    ensures CanonicalFields(FromReferee(m))
  {
    TeamInfosAreCanonical(m.yellow);
    TeamInfosAreCanonical(m.blue);
    forall i | 0 <= i < |m.gameEvents|
      ensures CanonicalGameEvent(FromGameEvent(m.gameEvents[i]))
    {
      GameEventsAreCanonical(m.gameEvents[i]);
    }
    forall i, j | 0 <= i < |m.gameEventProposals| && 0 <= j < |m.gameEventProposals[i].gameEvents|
      ensures CanonicalGameEvent(FromGameEvent(m.gameEventProposals[i].gameEvents[j]))
    {
      GameEventsAreCanonical(m.gameEventProposals[i].gameEvents[j]);
    }
  }

  lemma RestoredRefereeConverts(r: R.Referee)
    requires CanonicalFields(r) && CanonicalTime(r.timestamp) && CanonicalTime(r.commandTimestamp)
    ensures TimestampsFit(RestoreReferee(r)) && FromReferee(RestoreReferee(r)) == r
  {
    RestoredTimeConverts(r.timestamp);
    RestoredTimeConverts(r.commandTimestamp);
    RestoredTeamInfoConverts(r.yellow);
    RestoredTeamInfoConverts(r.blue);
    RestoredGameEventsConvert(r.gameEvents);
    RestoredProposalGroupsConvert(r.gameEventProposals);
  }

  /**
   Exactly the canonical ROS messages come out of the conversion of messages whose timestamps fit.
   Together with the erasure this makes the conversion one-to-one between what survives of the game
   controller's messages and the canonical ROS messages.
   */
  lemma RefereeImageIff(r: R.Referee)
    ensures CanonicalFields(r) && CanonicalTime(r.timestamp) && CanonicalTime(r.commandTimestamp)
            <==> exists m :: TimestampsFit(m) && FromReferee(m) == r
  {
    if CanonicalFields(r) && CanonicalTime(r.timestamp) && CanonicalTime(r.commandTimestamp) {
      RestoredRefereeConverts(r);
    }
    forall m | TimestampsFit(m) && FromReferee(m) == r
      ensures CanonicalFields(r) && CanonicalTime(r.timestamp) && CanonicalTime(r.commandTimestamp)
    {
      FieldsAreCanonical(m);
      FittingTimeIsExact(m.packetTimestamp);
      FittingTimeIsExact(m.commandTimestamp);
    }
  }
}
