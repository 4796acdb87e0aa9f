// Values that flow from the GPS hardware layer into the provider: the fix
// the hardware reports, the Location the provider keeps, the freshness rule
// for queries, the integer truncation used in replies and the status rule.
module Geo {

  datatype Option<+T> = None | Some(value: T)

  /** A fix older than this many milliseconds is too old to answer a query. */
  const MaxLocationAge: int := 1000

  /** Horizontal and vertical accuracy in metres; None stands for NaN. */
  datatype Accuracy = Accuracy(horizontal: Option<real>, vertical: Option<real>)

  const UnknownAccuracy: Accuracy := Accuracy(None, None)

  /**
   * The provider's current location: a timestamp in milliseconds since the
   * epoch and optional coordinates, where None stands for the NaN that marks
   * an unset field.
   */
  datatype Location = Location(
    timestamp: int,
    latitude: Option<real>,
    longitude: Option<real>,
    altitude: Option<real>,
    speed: Option<real>,
    direction: Option<real>,
    climb: Option<real>,
    accuracy: Accuracy)

  /** The location held before any fix has arrived. */
  const EmptyLocation: Location :=
    Location(0, None, None, None, None, None, None, UnknownAccuracy)

  // Bits of GpsLocation.flags, as Android's hardware/gps.h defines them.
  const HasLatLong: bv16 := 0x0001
  const HasAltitude: bv16 := 0x0002
  const HasSpeed: bv16 := 0x0004
  const HasBearing: bv16 := 0x0008
  const HasAccuracy: bv16 := 0x0010

  /** A fix as the hardware layer delivers it: raw values and a flag word. */
  datatype GpsLocation = GpsLocation(
    flags: bv16,
    latitude: real,
    longitude: real,
    altitude: real,
    speed: real,
    bearing: real,
    accuracy: real,
    timestamp: int)

  /**
   * The conversion done by the hardware location callback: each value is
   * copied only when its flag bit is set. The accuracy the callback builds
   * is a local that is never stored, so the location's accuracy stays
   * unknown, and climb is never reported by the hardware.
   */
  function LocationFromFix(fix: GpsLocation): Location
  {
    var latLong := (fix.flags & HasLatLong) != 0;
    Location(
      fix.timestamp,
      if latLong then Some(fix.latitude) else None,
      if latLong then Some(fix.longitude) else None,
      if (fix.flags & HasAltitude) != 0 then Some(fix.altitude) else None,
      if (fix.flags & HasSpeed) != 0 then Some(fix.speed) else None,
      if (fix.flags & HasBearing) != 0 then Some(fix.bearing) else None,
      None,
      UnknownAccuracy)
  }

  /** The hardware flag word that describes which fields of a location are set. */
  function GpsFlagsOf(loc: Location): bv16
  {
    (if loc.latitude.Some? && loc.longitude.Some? then HasLatLong else 0)
    | (if loc.altitude.Some? then HasAltitude else 0)
    | (if loc.speed.Some? then HasSpeed else 0)
    | (if loc.direction.Some? then HasBearing else 0)
    | (if loc.accuracy.horizontal.Some? then HasAccuracy else 0)
  }

  /**
   * Converting a fix keeps exactly the latitude/longitude, altitude, speed
   * and bearing bits of its flag word; the accuracy bit and every unknown
   * bit are lost.
   */
  lemma FixFlagsRoundTrip(fix: GpsLocation)
    ensures GpsFlagsOf(LocationFromFix(fix))
            == fix.flags & (HasLatLong | HasAltitude | HasSpeed | HasBearing)
  {
  }

  /**
   * Latitude and longitude are set together, and every value a converted
   * location carries is the hardware's own value.
   */
  lemma FixConversionKeepsValues(fix: GpsLocation)
    ensures var loc := LocationFromFix(fix);
      && loc.timestamp == fix.timestamp
      && loc.latitude.Some? == loc.longitude.Some?
      && (loc.latitude.Some? ==> loc.latitude.value == fix.latitude && loc.longitude.value == fix.longitude)
      && (loc.altitude.Some? ==> loc.altitude.value == fix.altitude)
      && (loc.speed.Some? ==> loc.speed.value == fix.speed)
      && (loc.direction.Some? ==> loc.direction.value == fix.bearing)
      && loc.climb == None
      && loc.accuracy == UnknownAccuracy
  {
  }

  /**
   * True when the location is too old to answer a query at time `now`:
   * its timestamp lies strictly before now - MaxLocationAge.
   */
  predicate IsStale(loc: Location, now: int)
  {
    loc.timestamp < now - MaxLocationAge
  }

  /** A fix exactly MaxLocationAge old is still fresh; one millisecond older is stale. */
  lemma StaleBoundary(loc: Location)
    ensures !IsStale(loc, loc.timestamp + MaxLocationAge)
    ensures IsStale(loc, loc.timestamp + MaxLocationAge + 1)
  {
  }

  /**
   * The conversion of a 64-bit millisecond count to a C++ `int`: the value
   * modulo 2^32, read as a two's-complement 32-bit number.
   */
  function ToInt32(t: int): (r: int)
    ensures -0x8000_0000 <= r < 0x8000_0000
    ensures (t - r) % 0x1_0000_0000 == 0
    ensures -0x8000_0000 <= t < 0x8000_0000 ==> r == t
  {
    var m := t % 0x1_0000_0000;
    if m < 0x8000_0000 then m else m - 0x1_0000_0000
  }

  /**
   * A millisecond timestamp of today's order of magnitude (about 1.7e12)
   * does not survive the conversion to `int`.
   */
  lemma EpochMillisecondsDoNotFitInt32(t: int)
    requires t >= 0x8000_0000
    ensures ToInt32(t) != t
  {
  }

  datatype ProviderStatus = Error | Unavailable | Acquiring | Available

  /**
   * The provider's status: Unavailable exactly when none of the base GPS,
   * AGPS and AGPS RIL interfaces was obtained, Acquiring otherwise; no other
   * status is ever reported.
   */
  function Status(gps: bool, agps: bool, agpsRil: bool): (s: ProviderStatus)
    ensures s == Unavailable <==> !gps && !agps && !agpsRil
    ensures s == Unavailable || s == Acquiring
  {
    if !gps && !agps && !agpsRil then Unavailable else Acquiring
  }
}
