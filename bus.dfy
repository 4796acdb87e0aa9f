// The D-Bus side of the provider: the Geoclue presence-flag words, the
// argument lists of immediate and delayed replies, and the calls that wait
// in the pending queue.
module Bus {
  import opened Geo

  // Geoclue's position field bits.
  const NoPositionFields: bv32 := 0
  const LatitudePresent: bv32 := 1
  const LongitudePresent: bv32 := 2
  const AltitudePresent: bv32 := 4

  // Geoclue's velocity field bits.
  const NoVelocityFields: bv32 := 0
  const SpeedPresent: bv32 := 1
  const DirectionPresent: bv32 := 2
  const ClimbPresent: bv32 := 4

  /** The position presence word: one bit per coordinate that is not NaN, and no other bit. */
  function PositionFieldsOf(loc: Location): (f: bv32)
    ensures (f & LatitudePresent != 0) == loc.latitude.Some?
    ensures (f & LongitudePresent != 0) == loc.longitude.Some?
    ensures (f & AltitudePresent != 0) == loc.altitude.Some?
    ensures f & !(LatitudePresent | LongitudePresent | AltitudePresent) == 0
  {
    (if loc.latitude.Some? then LatitudePresent else NoPositionFields)
    | (if loc.longitude.Some? then LongitudePresent else NoPositionFields)
    | (if loc.altitude.Some? then AltitudePresent else NoPositionFields)
  }

  /** The velocity presence word: one bit per velocity value that is not NaN, and no other bit. */
  function VelocityFieldsOf(loc: Location): (f: bv32)
    ensures (f & SpeedPresent != 0) == loc.speed.Some?
    ensures (f & DirectionPresent != 0) == loc.direction.Some?
    ensures (f & ClimbPresent != 0) == loc.climb.Some?
    ensures f & !(SpeedPresent | DirectionPresent | ClimbPresent) == 0
  {
    (if loc.speed.Some? then SpeedPresent else NoVelocityFields)
    | (if loc.direction.Some? then DirectionPresent else NoVelocityFields)
    | (if loc.climb.Some? then ClimbPresent else NoVelocityFields)
  }

  /**
   * From hardware flags to D-Bus flags: after a fix is converted, latitude
   * and longitude are reported iff the hardware set its lat/long bit,
   * altitude, speed and direction iff their own bits are set, and climb
   * never.
   */
  lemma FixPresenceFields(fix: GpsLocation)
    ensures var loc := LocationFromFix(fix);
      && (PositionFieldsOf(loc) & LatitudePresent != 0) == (fix.flags & HasLatLong != 0)
      && (PositionFieldsOf(loc) & LongitudePresent != 0) == (fix.flags & HasLatLong != 0)
      && (PositionFieldsOf(loc) & AltitudePresent != 0) == (fix.flags & HasAltitude != 0)
      && (VelocityFieldsOf(loc) & SpeedPresent != 0) == (fix.flags & HasSpeed != 0)
      && (VelocityFieldsOf(loc) & DirectionPresent != 0) == (fix.flags & HasBearing != 0)
      && VelocityFieldsOf(loc) & ClimbPresent == 0
  {
  }

  /** One D-Bus argument; a NaN double is modelled as None. */
  datatype Arg =
    | FieldsArg(fields: bv32)      // a presence word, sent as an int32
    | Int32Arg(i: int)
    | DoubleArg(d: Option<real>)
    | AccuracyArg(accuracy: Accuracy)

  /** What a query handler gives back: its arguments now, or a reply sent later. */
  datatype Reply = Delayed | Immediate(args: seq<Arg>)

  /** The name of the D-Bus method a delayed call invoked, and an opaque handle for the caller. */
  datatype PendingCall = PendingCall(member: string, caller: nat)

  const GetPositionMember: string := "GetPosition"
  const GetVelocityMember: string := "GetVelocity"

  /**
   * The reply GetPosition gives at once: the presence word, then the
   * timestamp stored into an `int` out-parameter, the three coordinates
   * and the accuracy.
   */
  function ImmediatePositionReply(loc: Location): seq<Arg>
  {
    [FieldsArg(PositionFieldsOf(loc)), Int32Arg(ToInt32(loc.timestamp)),
     DoubleArg(loc.latitude), DoubleArg(loc.longitude), DoubleArg(loc.altitude),
     AccuracyArg(loc.accuracy)]
  }

  /** The reply GetVelocity gives at once: the presence word, the truncated timestamp, speed, direction and climb. */
  function ImmediateVelocityReply(loc: Location): seq<Arg>
  {
    [FieldsArg(VelocityFieldsOf(loc)), Int32Arg(ToInt32(loc.timestamp)),
     DoubleArg(loc.speed), DoubleArg(loc.direction), DoubleArg(loc.climb)]
  }

  /** The argument list built for delayed GetPosition calls when a fix arrives. */
  function DelayedPositionReply(loc: Location): seq<Arg>
  {
    [FieldsArg(PositionFieldsOf(loc)), Int32Arg(ToInt32(loc.timestamp)),
     DoubleArg(loc.latitude), DoubleArg(loc.longitude), DoubleArg(loc.altitude),
     AccuracyArg(loc.accuracy)]
  }

  /** The argument list built for delayed GetVelocity calls when a fix arrives: it has no timestamp. */
  function DelayedVelocityReply(loc: Location): seq<Arg>
  {
    [FieldsArg(VelocityFieldsOf(loc)),
     DoubleArg(loc.speed), DoubleArg(loc.direction), DoubleArg(loc.climb)]
  }

  /**
   * In every reply, each presence bit is set exactly when the double it
   * describes is a number, and the first argument is the only presence word.
   */
  lemma RepliesDescribeThemselves(loc: Location)
    ensures var p := ImmediatePositionReply(loc);
      && (p[0].fields & LatitudePresent != 0) == p[2].d.Some?
      && (p[0].fields & LongitudePresent != 0) == p[3].d.Some?
      && (p[0].fields & AltitudePresent != 0) == p[4].d.Some?
    ensures var v := ImmediateVelocityReply(loc);
      && (v[0].fields & SpeedPresent != 0) == v[2].d.Some?
      && (v[0].fields & DirectionPresent != 0) == v[3].d.Some?
      && (v[0].fields & ClimbPresent != 0) == v[4].d.Some?
    ensures var w := DelayedVelocityReply(loc);
      && (w[0].fields & SpeedPresent != 0) == w[1].d.Some?
      && (w[0].fields & DirectionPresent != 0) == w[2].d.Some?
      && (w[0].fields & ClimbPresent != 0) == w[3].d.Some?
  {
  }

  /** A delayed GetPosition caller receives exactly what an immediate caller would have for the same fix. */
  lemma DelayedPositionMatchesImmediate(loc: Location)
    ensures DelayedPositionReply(loc) == ImmediatePositionReply(loc)
  {
  }

  /**
   * A delayed GetVelocity caller receives the immediate reply with its
   * timestamp argument taken out, so the two replies differ in length.
   */
  lemma DelayedVelocityOmitsTimestamp(loc: Location)
    ensures DelayedVelocityReply(loc) == ImmediateVelocityReply(loc)[..1] + ImmediateVelocityReply(loc)[2..]
    ensures |DelayedVelocityReply(loc)| + 1 == |ImmediateVelocityReply(loc)|
  {
  }
}
