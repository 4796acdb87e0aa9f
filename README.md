# Hybris GPS provider: session controller model

A Dafny model of the controller at the heart of the Geoclue "Hybris" provider
(`hybrisprovider.cpp`), which puts an Android GPS hardware layer behind
Geoclue's D-Bus Position and Velocity interfaces. The model covers:

- reference counting by client bus name (`AddReference`, `RemoveReference`,
  and the watcher's `serviceUnregistered`);
- the demand gate that starts and stops the hardware and the idle timer;
- immediate and delayed `GetPosition` / `GetVelocity` calls, with the
  1000 ms freshness rule;
- the drain of delayed calls when a fix arrives (`setLocation` and
  `emitLocationChanged`);
- the idle timer that ends the process after 30000 ms;
- the status rule;
- the conversion of a hardware fix (flag word plus raw values) into the
  provider's location.

Modules:

- `Geo` (geo.dfy) holds the location values, the hardware fix, the freshness
  rule, the C++ `int` truncation and the status rule.
- `Bus` (bus.dfy) holds the Geoclue presence words and the argument lists of
  the replies.
- `Services` (services.dfy) holds the service-name list operations that Qt's
  list type provides (`removeOne`, `removeAll`).
- `Provider` (provider.dfy) holds the class `HybrisProvider`, whose fields
  are those of the C++ object.

Every effect outside the object goes to an `events` log:
watcher calls, `set_position_mode`/`start`/`stop`, `startTimer`/`killTimer`,
the two change signals, delayed replies, the warning for an unknown pending
call, and the quit request.

The class keeps three invariants.

- `Valid()`: the watcher's set is exactly the set of distinct names in
  `watchedServices`, and the idle timer is never armed while the demand
  (`|watchedServices| + |pendingCalls|`) is positive.
- `ArmedWhenIdle()`: with zero demand and no quit requested, an idle timer is
  armed. Every operation keeps it except `SetLocation`.
- `SetLocation` drains the pending calls without re-running the stop check.
  So a fix that answers the last pending call leaves the hardware running
  and no idle timer armed. `StaleQueryThenFixScenario` exhibits this.

The model follows the code as written, including these points a reader
might not expect:

- Demand counts every occurrence of a name, so a client holding two
  references counts twice.
- Draining the delayed calls when a fix arrives runs neither the start nor
  the stop check.
- A fix exactly 1000 ms old is still fresh: only an age above 1000 ms is
  stale.
- The delayed `GetVelocity` reply carries no timestamp, while the immediate
  one does (`DelayedVelocityOmitsTimestamp`).
- Both immediate replies and the delayed position reply store the 64-bit
  millisecond timestamp into an `int`. The model writes that truncation out
  as `ToInt32`.

## Model

| member | source | states |
|---|---|---|
| Geo.FixFlagsRoundTrip | hybrisprovider.cpp:21-45 | the converted location's fields describe exactly the lat/long, altitude, speed and bearing bits of the hardware flag word; the accuracy bit is lost because the accuracy is never stored |
| Geo.FixConversionKeepsValues | hybrisprovider.cpp:21-45 | latitude and longitude are set together, every set value is the hardware's own, the timestamp is copied, climb and accuracy stay unset |
| Geo.StaleBoundary | hybrisprovider.cpp:372 | a fix exactly MaxLocationAge (1000 ms) old is fresh, one a millisecond older is stale |
| Geo.ToInt32 | hybrisprovider.cpp:493 | the C++ `int` conversion yields a 32-bit value congruent to the timestamp modulo 2^32, equal to it when it fits |
| Geo.EpochMillisecondsDoNotFitInt32 | hybrisprovider.cpp:493 | a millisecond timestamp of 2^31 or more is changed by that conversion |
| Geo.Status | hybrisprovider.cpp:351-358 | Unavailable iff the GPS, AGPS and AGPS RIL interfaces are all absent, Acquiring otherwise, never any other status |
| Bus.PositionFieldsOf | hybrisprovider.cpp:465-472 | each position presence bit is set iff its coordinate is not NaN, and no other bit is set |
| Bus.VelocityFieldsOf | hybrisprovider.cpp:474-481 | each velocity presence bit is set iff its value is not NaN, and no other bit is set |
| Bus.FixPresenceFields | hybrisprovider.cpp:27-39 | after conversion, latitude and longitude are reported iff the lat/long flag is set, altitude, speed and direction iff their own flags are, climb never |
| Bus.RepliesDescribeThemselves | hybrisprovider.cpp:378-415 | in each reply the presence word flags exactly the arguments that are numbers |
| Bus.DelayedPositionMatchesImmediate | hybrisprovider.cpp:491-497 | a delayed GetPosition caller gets the same arguments as an immediate one for the same fix |
| Bus.DelayedVelocityOmitsTimestamp | hybrisprovider.cpp:499-503 | a delayed GetVelocity reply is the immediate reply without its timestamp argument |
| Services.RemoveOne | hybrisprovider.cpp:338 | the list is unchanged when the name is absent and one entry shorter when it is present |
| Services.RemoveOneCounts | hybrisprovider.cpp:338 | exactly one occurrence of the name is taken away, if there is one, and every other name keeps its count |
| Services.RemoveOneFirst | hybrisprovider.cpp:338 | the occurrence removed is the first one, and the order of the rest is kept |
| Services.RemoveAll | hybrisprovider.cpp:457 | the list never grows |
| Services.RemoveAllCounts | hybrisprovider.cpp:457 | every occurrence of the name is taken away and every other name keeps its count |
| Services.RemoveOneKeepsName | hybrisprovider.cpp:338-340 | after one removal the name is still listed iff it occurred at least twice |
| Services.NamesAppend | hybrisprovider.cpp:321-325 | appending a name adds exactly that name to the distinct names |
| Services.NamesRemoveOne | hybrisprovider.cpp:337-340 | after one removal the distinct names lose the name exactly when no occurrence is left |
| Services.NamesRemoveAll | hybrisprovider.cpp:457-458 | after removing all occurrences the distinct names are the old ones without the name |
| Provider.Drain | hybrisprovider.cpp:506-513 | one outcome per pending call |
| Provider.DrainInOrder | hybrisprovider.cpp:490-516 | the i-th outcome answers the i-th pending call, all from the same pair of argument lists built from one location |
| Provider.DrainOnlyAnswers | hybrisprovider.cpp:506-513 | draining only sends replies or drops unknown calls |
| Provider.FixNeverStopsPositioning | hybrisprovider.cpp:448-517 | a new fix never stops the hardware and never starts or kills a timer, whatever is pending |
| Provider.HybrisProvider.constructor | hybrisprovider.cpp:207-229 | a new provider has no reference, no pending call, an empty location and an armed 30000 ms idle timer |
| Provider.HybrisProvider.StartPositioningIfNeeded | hybrisprovider.cpp:519-549 | nothing unless demand is exactly 1; then an armed idle timer is killed and cleared, the position mode is set, and start is called only if that succeeded |
| Provider.HybrisProvider.StopPositioningIfNeeded | hybrisprovider.cpp:551-566 | nothing unless both lists are empty; then stop is called and a fresh idle timer always replaces the id |
| Provider.HybrisProvider.AddReference | hybrisprovider.cpp:314-328 | appends the caller even when present, watches it only if absent, runs the start check; the watcher set stays equal to the distinct names |
| Provider.HybrisProvider.RemoveReference | hybrisprovider.cpp:330-343 | removes one occurrence, unwatches only when none is left, runs the stop check even when nothing was removed |
| Provider.HybrisProvider.ServiceUnregistered | hybrisprovider.cpp:454-460 | removes every occurrence, always unwatches, runs the stop check |
| Provider.HybrisProvider.DelayCall | hybrisprovider.cpp:372-376 | a stale query is appended to the pending queue and the start check runs on the new demand |
| Provider.HybrisProvider.GetPosition | hybrisprovider.cpp:365-392 | a fresh location is answered at once with nothing changed; a stale one is queued with a delayed reply and the start check |
| Provider.HybrisProvider.GetVelocity | hybrisprovider.cpp:394-419 | the same for velocity, with the velocity reply |
| Provider.HybrisProvider.TimerEvent | hybrisprovider.cpp:421-430 | the idle timer's event kills it, clears the id and requests quit; any other timer's event changes nothing |
| Provider.HybrisProvider.SetLocation | hybrisprovider.cpp:448-452 | the location is replaced wholesale, the queue is emptied and announced, references and timers are untouched |
| Provider.HybrisProvider.EmitLocationChanged | hybrisprovider.cpp:462-517 | both signals, then every pending call answered in queue order from one snapshot, then the queue emptied |
| Provider.SubscribeFixQueryScenario | hybrisprovider.cpp:314-391 | subscribe, a fix with only latitude 1 and longitude 2 at time 0, then GetPosition at time 0 answers at once with those values, latitude and longitude flagged and altitude absent |
| Provider.StaleQueryThenFixScenario | hybrisprovider.cpp:394-517 | a stale query with no client starts the hardware; the next fix answers the waiting caller with that fix's values and leaves zero demand, the hardware never stopped and no idle timer armed |
| Provider.RemoveAbsentReferenceScenario | hybrisprovider.cpp:330-343 | RemoveReference of an absent name at zero demand stops the hardware again and arms a second timer; the first timer's later event is ignored |
| Provider.DoubleReferenceScenario | hybrisprovider.cpp:314-343 | two references from one name need two removals before the hardware is stopped |

## Left out

- Hardware module discovery, the initialisation of each extension interface, and the destructor are foreign HAL calls. The constructor takes only whether the GPS, AGPS and AGPS RIL interfaces were obtained.
- The hardware calls made while the base GPS interface is absent are logged as ordinary calls. The code would call through a null interface pointer there.
- The `start` and `stop` error codes are not modelled, because the code only logs them. The `set_position_mode` error code is a parameter, since it decides whether `start` is called.
- The debug callbacks, thread creation, the callback tables, `requestPhoneContext`, `SetOptions` and `GetProviderInfo` are left out. They only log, fill a constant settings struct for a foreign call, or return constant strings.
- The D-Bus marshalling of the accuracy structure is left out. It is Qt's wire encoding.
- The cross-thread hand-off of a fix from the hardware callback to `setLocation` is left out. `SetLocation` is an ordinary call on the controller's thread.
- Floating point is not modelled. Values are reals, and NaN is modelled only as absence (`None`).
- Calls from outside D-Bus, which abort the process, are not modelled. Every reference call is taken to come from D-Bus with the caller's bus name as a parameter.
- The clock and the timers are inputs. `now` is a parameter and timer expiry is the `TimerEvent` call.
- Timer ids are abstract: they come from a counter that never reuses an id, whereas Qt's `startTimer` may hand out again the id of a timer just killed. The scenarios' ids (`TimerStarted(2, …)` after `TimerKilled(1)`) are the model's, and nothing in the model depends on their values.
- Logging is not modelled. The only exception is the warning for an unknown pending call, which appears as `UnknownCallDropped` so the drain stays aligned with the queue.
- `Location` is not part of this model. An empty location is taken to have timestamp 0 and every field unset.
- Geoclue's field-bit values (1, 2, 4) and Android's fix-flag values (0x01 to 0x10) come from those projects' headers.
- The signal parameter types are not part of this model. The signals carry the untruncated timestamp.
