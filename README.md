# N-body simulation core in Dafny

A model of a 2-D gravitational N-body simulator. A *universe* owns a list of
*celestial bodies*: each has a position, a velocity, a mass and the name of an
image file. There is also a radius, shared by every universe and used only for
display.

- `Universe::step(dt)` first collects the Newtonian pair forces between all
  bodies, using the positions as they stand before anything moves. Then it
  advances each body by one semi-implicit Euler step. The velocity is kicked
  first, and the position drifts with the new velocity.
- The persistence format is plain text. It holds the body count, then the
  radius, then one line per body with six blank-separated tokens:
  `px py vx vy mass imageFile`.
- The driver steps the universe until the requested time T or one year has
  elapsed, whichever is first, or until the window closes. Every step is `dt`,
  except that a step which would pass the year is shortened to end on it; when
  T comes first, the last full step may overshoot T. At the end the driver
  prints the final state to standard output.
- `formatTime` renders the elapsed time as `D days, HH:MM:SS`.

The modules follow the program's files:

| module | file | models |
|---|---|---|
| `Text` | (shared) | white space, tokens and decimal numerals as the standard streams print and read them |
| `Streams` | (shared) | `std::istream` extraction as a list of pending tokens plus the stream's good bit |
| `Bodies` | `celestial_body.dfy` | `CelestialBody`: the value `Body`, its text format, and the class with its update methods |
| `Gravity` | `gravity.dfy` | the force and update rules of `Universe::step` as functions, with their physics lemmas |
| `Universes` | `universe.dfy` | `Universe`: the class over `CelestialBody` objects, the in-place step, `>>` and `<<` |
| `Driver` | `driver.dfy` | `main.cpp`: `formatTime`, the stepping loop and the final dump |

Arithmetic is on exact reals. Nothing is modelled about the program's own
number handling beyond a few pieces:

- `sqrt` is a parameter. It is only assumed to return a positive number for a
  positive argument.
- How a `double` is printed and parsed is a `NumberFormat` parameter. The
  round-trip results ask only that each number actually written reads back as
  itself (`RoundTrips`). `Streams.WholeFormat` is a format under which every
  whole number does, so these conditions can be met.
- C's truncating `/` and `%`, `static_cast<int>` and `fmod` are written out
  explicitly.

## Model

| member | source | states |
|---|---|---|
| `Text.NatToDecimal` | Universe.cpp:87 | a printed count is a non-empty string of decimal digits |
| `Text.IntToDecimal` | main.cpp:18 | a signed `int` prints as one token that reads back as `n`: it starts with `-` exactly when `n` is negative, and the digits after the sign parse as the magnitude |
| `Text.ParseNat` | Universe.cpp:75 | reading a `size_t` from one token succeeds exactly when the token is a non-empty run of decimal digits |
| `Text.ParseNatOfDecimal` | Universe.cpp:75 | parsing a printed count gives back the same count |
| `Text.DecimalIsToken` | Universe.cpp:87 | a printed count is a single token with no white space |
| `Streams.Tokens` | CelestialBody.cpp:67 | successive extractions see non-empty words free of white space |
| `Streams.TokensOfUnwords` | CelestialBody.cpp:77-78 | splitting blank-joined tokens gives the same tokens back, in order |
| `Streams.ExtractToken` | CelestialBody.cpp:67 | one extraction: nothing from a failed stream; a failure on a good stream with no token left; otherwise the next token |
| `Streams.ReadWord` | CelestialBody.cpp:67 | `>> imageFile` succeeds exactly when the stream is good and a token is left, and then takes that one token; otherwise the string is untouched and the stream has failed |
| `Streams.ReadReal` | CelestialBody.cpp:67 | `>> double` succeeds exactly when the next token parses; it then stores the value and consumes the token; a failed stream leaves the target and the stream as they were |
| `Streams.ReadNat` | Universe.cpp:75 | `>> size_t` on the same terms, accepting decimal numerals only |
| `Streams.ReadRealOfRender` | CelestialBody.cpp:67 | reading a number's rendering stores that number, whatever the target held |
| `Streams.ReadNatOfDecimal` | Universe.cpp:75 | reading a printed count stores that count and consumes exactly one token |
| `Bodies.ZeroStepUpdates` | CelestialBody.cpp:35-43 | with `dt = 0`, neither `updatePosition` nor `updateVelocity` changes the body |
| `Bodies.Moved` | CelestialBody.cpp:35-38 | the effect of `updatePosition(dt)`: `p + v*dt`, every other field kept |
| `Bodies.Accelerated` | CelestialBody.cpp:40-43 | the effect of `updateVelocity(ax, ay, dt)`: `v + a*dt`, every other field kept |
| `Bodies.BodyTokens` | CelestialBody.cpp:76-78 | the six fields in writing order: five renderings, then the image name |
| `Bodies.BodyText` | CelestialBody.cpp:75-80 | the written line: the six fields joined by single blanks; its meaning is given by `BodyTextTokens` and `ReadBodyOfText` |
| `Bodies.ReadBody` | CelestialBody.cpp:66-73 | a successful read consumes exactly six tokens, takes `px` from the first and the image name from the sixth; a failed stream leaves the body untouched |
| `Bodies.BodyTextTokens` | CelestialBody.cpp:75-80 | when every field renders as one token, the written line holds exactly the six tokens `px py vx vy mass imageFile`, in that order |
| `Bodies.ReadBodyOfTokens` | CelestialBody.cpp:66-67 | reading a body's six tokens recovers the body when its five numbers round-trip, whatever the target held before, and leaves the rest of the stream good |
| `Bodies.ReadBodyOfText` | CelestialBody.cpp:66-80 | `>>` after `<<` is the identity for a body whose five numbers round-trip and whose image name has no white space |
| `Bodies.CelestialBody.constructor` | CelestialBody.cpp:12 | the default body has zero position, velocity and mass and an empty image name |
| `Bodies.CelestialBody.Init` | CelestialBody.cpp:14-16 | the explicit constructor stores its six arguments unchanged; the mass is not checked |
| `Bodies.CelestialBody.GetPosition` | CelestialBody.cpp:23-25 | returns `(px, py)` |
| `Bodies.CelestialBody.GetVelocity` | CelestialBody.cpp:27-29 | returns `(vx, vy)` |
| `Bodies.CelestialBody.GetMass` | CelestialBody.cpp:31-33 | returns the mass |
| `Bodies.CelestialBody.UpdatePosition` | CelestialBody.cpp:35-38 | `p += v*dt`; velocity, mass and image name are unchanged; only this body is modified |
| `Bodies.CelestialBody.UpdateVelocity` | CelestialBody.cpp:40-43 | `v += a*dt`; position, mass and image name are unchanged; only this body is modified |
| `Bodies.CelestialBody.Read` | CelestialBody.cpp:66-67 | the new field values and the remaining stream are those `ReadBody` gives from the old fields |
| `Bodies.CelestialBody.Write` | CelestialBody.cpp:75-80 | appends exactly the body's six-token line |
| `Gravity.Hypot` | Universe.cpp:44 | the distance between two distinct points is positive, so the divisions at lines 46-49 are defined |
| `Gravity.Distance` | Universe.cpp:42-44 | the distance between bodies at distinct positions is positive |
| `Gravity.PairForceOf` | Universe.cpp:42-49 | the force on `i` from `j` is `G*mi*mj/d^2` along `(dx, dy)/d`, with `dx, dy` taken as `j` minus `i` |
| `Gravity.Pull` | Universe.cpp:45-49 | the pair force from the two masses, the offset and the distance: `G*ma*mb/(d*d)` times `dx/d` and `dy/d` |
| `Gravity.PairForce` | Universe.cpp:42-49 | the force on the first body from the second; its properties are `PairForceOpposite` and `PairForceAttracts` |
| `Gravity.AddPair` | Universe.cpp:51-54 | adds a pair force to body `i` and subtracts it from body `j`; its sum is kept by `AddPairTotal` |
| `Gravity.RowPrefix` | Universe.cpp:41-55 | the inner loop for row `i`, up to column `j`; its meaning is `RowPrefixReceived` |
| `Gravity.AllForces` | Universe.cpp:40-56 | the outer loop from row `i` on; its meaning is `AllForcesReceived` |
| `Gravity.NetForce` | Universe.cpp:40-56 | the independent reference: the sum, in index order, of the pair forces on a body from every other body |
| `Gravity.Forces` | Universe.cpp:36-56 | the force phase yields one net force per body |
| `Gravity.StepAll` | Universe.cpp:35-65 | a step keeps the number of bodies, their order, masses and image names |
| `Gravity.StepBody` | Universe.cpp:60-63 | one body's update: `updateVelocity(f/m, dt)` and then `updatePosition(dt)`; its meaning is `StepIsSemiImplicit` |
| `Gravity.StepAllZero` | Universe.cpp:35-65 | `step(0)` leaves every body exactly as it was |
| `Gravity.PairForceOpposite` | Universe.cpp:42-54 | the force on `j` from `i` is exactly the negation of the force on `i` from `j` |
| `Gravity.DistanceSymmetric` | Universe.cpp:42-44 | distance does not depend on the order of the pair |
| `Gravity.PairForceAttracts` | Universe.cpp:42-49 | the force on `i` is a multiple of the displacement towards `j`, and a positive multiple when both masses are positive |
| `Gravity.PairForceAttractsBack` | Universe.cpp:53-54 | `j` is pulled towards `i` by the same multiple |
| `Gravity.AddPairTotal` | Universe.cpp:51-54 | one pair update leaves the sum of all accumulators unchanged |
| `Gravity.RowPrefixTotal` | Universe.cpp:41-55 | the inner loop leaves the sum of all accumulators unchanged |
| `Gravity.AllForcesTotal` | Universe.cpp:40-56 | the outer loop leaves the sum of all accumulators unchanged |
| `Gravity.ZerosTotal` | Universe.cpp:36-37 | the initial accumulators sum to zero |
| `Gravity.NetForceZero` | Universe.cpp:36-56 | the net forces of all bodies sum to zero |
| `Gravity.RowPrefixReceived` | Universe.cpp:41-55 | after the inner loop for `i` has run up to `j`, each accumulator holds the pair forces of exactly the pairs visited so far |
| `Gravity.AllForcesReceived` | Universe.cpp:40-56 | after the outer loop, each accumulator holds the pair forces of every pair involving that body |
| `Gravity.ForcesAreNet` | Universe.cpp:36-56 | each body's net force is the sum of the pair forces from all the other bodies, in index order |
| `Gravity.StepIsSemiImplicit` | Universe.cpp:59-64 | `v' = v + (f/m)*dt`, then `p' = p + v'*dt` with the new velocity; mass and name kept |
| `Gravity.StepAllAt` | Universe.cpp:35-65 | each body is updated with its own net force, computed from the positions before the step |
| `Gravity.MomentumConserved` | Universe.cpp:35-65 | a step leaves the total momentum unchanged |
| `Gravity.Momentum` | Universe.cpp:59-64 | the total momentum `sum of m*v`, the quantity `MomentumConserved` shows a step keeps |
| `Gravity.SingleBodyDrifts` | Universe.cpp:40-64 | a lone body feels no force and moves in a straight line |
| `Gravity.TwoBodyForces` | Universe.cpp:40-56 | with two bodies, the forces are the pair force and its negation |
| `Gravity.TwoBodySteps` | Universe.cpp:35-65 | with two bodies, each is stepped with the force from the other |
| `Gravity.TwoBodiesAtRestAttract` | Universe.cpp:42-64 | two positive masses at rest each start moving towards the other |
| `Universes.RadiusCell.constructor` | Universe.cpp:8 | the shared radius starts at zero |
| `Universes.ReadBodies` | Universe.cpp:78-82 | the read loop yields exactly `numBodies` bodies |
| `Universes.ReadBodiesOfFailed` | Universe.cpp:78-82 | on a failed stream every body keeps its default state and the stream is unchanged |
| `Universes.ReadUniverse` | Universe.cpp:73-84 | on a failed stream there are no bodies and the radius is unchanged |
| `Universes.BodiesText` | Universe.cpp:89-91 | the body lines: each body's line followed by a newline, in order |
| `Universes.UniverseText` | Universe.cpp:86-93 | the written universe: the count and the radius on lines of their own, then the body lines; its meaning is `UniverseRoundTrip` |
| `Universes.UniverseTokens` | Universe.cpp:86-93 | the tokens of the written universe: the count, the radius, then each body's six tokens |
| `Universes.BodiesTokens` | Universe.cpp:89-91 | the body lines hold six tokens per body |
| `Universes.BodiesTextTokens` | Universe.cpp:89-91 | when every field renders as one token, the body lines split into each body's six tokens, in order |
| `Universes.ReadBodiesOfTokens` | Universe.cpp:78-82 | reading the tokens of `n` bodies whose numbers round-trip gives those bodies back, in order, and consumes exactly their tokens |
| `Universes.UniverseTextTokens` | Universe.cpp:86-93 | when every field and the radius render as one token, the written universe is the count, then the radius, then each body's six tokens |
| `Universes.ReadUniverseOfTokens` | Universe.cpp:73-84 | when the numbers and the radius round-trip, reading those tokens gives back the bodies and sets the shared radius, whatever it held |
| `Universes.UniverseRoundTrip` | Universe.cpp:73-93 | `>>` after `<<` restores the bodies and the radius and consumes the whole text, for every universe whose numbers round-trip and whose image names are single tokens (`Reloadable`) |
| `Universes.PairPull` | Universe.cpp:42-49 | the computed `(fx_ij, fy_ij)` is the pair force of the two bodies |
| `Universes.Universe.constructor` | Universe.cpp:10 | a new universe has no bodies and refers to the shared radius |
| `Universes.Universe.Size` | Universe.cpp:19-21 | the number of bodies |
| `Universes.Universe.GetRadius` | Universe.cpp:23-25 | the shared radius |
| `Universes.Universe.At` | Universe.cpp:27-33 | the body at `index`, which must be below `size()` |
| `Universes.Universe.ComputeForces` | Universe.cpp:36-56 | fresh arrays `fx`, `fy` hold exactly the net forces `Forces` of the current bodies |
| `Universes.Universe.AccumulateRow` | Universe.cpp:41-55 | a pass of the inner loop turns the arrays into `RowPrefix` of their old contents |
| `Universes.Universe.AccumulatePair` | Universe.cpp:42-54 | one inner iteration adds one pair's force |
| `Universes.Universe.AddPairInPlace` | Universe.cpp:51-54 | the four array updates add the pair force to `i` and subtract it from `j` |
| `Universes.Universe.Step` | Universe.cpp:35-65 | the new body states are `StepAll` of the old ones; the body list and the radius are unchanged |
| `Universes.Universe.AdvanceAll` | Universe.cpp:59-64 | every body is stepped with its own accumulated force |
| `Universes.Universe.Advance` | Universe.cpp:60-63 | one body is kicked by `f/m` and then drifts |
| `Universes.Universe.Read` | Universe.cpp:73-84 | the old bodies are replaced by fresh ones, and the bodies, the radius and the remaining stream equal `ReadUniverse` |
| `Universes.Universe.ReadList` | Universe.cpp:77-82 | reads `n` fresh, distinct bodies, in order, as `ReadBodies` says |
| `Universes.Universe.ReadOne` | Universe.cpp:79-80 | a fresh default body, then `>>` into it |
| `Universes.Universe.Write` | Universe.cpp:86-93 | appends exactly `UniverseText` of the bodies and the radius, every number rendered with `fmt` |
| `Universes.Universe.WriteLines` | Universe.cpp:89-91 | appends one line per body, in order |
| `Driver.TruncTowardZero` | main.cpp:12 | `static_cast<int>` rounds towards zero, for either sign |
| `Driver.Trunc` | main.cpp:12 | `static_cast<int>` of a `double`: the integer part, rounded towards zero; its meaning is `TruncTowardZero` |
| `Driver.CDiv` | main.cpp:15 | C `/` on `int`, which truncates towards zero |
| `Driver.CMod` | main.cpp:15-16 | C `%` on `int`, whose result has the sign of the dividend; both are characterised by `CDivMod` |
| `Driver.FMod` | main.cpp:11 | `fmod`: `x` minus the whole multiples of `y` truncated towards zero; its meaning is `InYear` and `InDay` |
| `Driver.CDivMod` | main.cpp:15-16 | C `/` and `%` satisfy `q*b + r == a` with `|r| < |b|`, and `r` has the sign of `a`; for non-negative operands they agree with Euclidean division |
| `Driver.InYear` | main.cpp:11 | for `seconds >= 0`, `fmod(seconds, year)` lies in `[0, year)` and subtracts whole years |
| `Driver.InDay` | main.cpp:12-13 | the day count lies in `0..365` and the remainder lies in `[0, day)` |
| `Driver.SplitTimeRanges` | main.cpp:11-16 | days in `0..365`, hours in `0..23`, minutes and seconds in `0..59` |
| `Driver.SplitTimeTotal` | main.cpp:11-16 | days, hours, minutes and seconds add back to the whole seconds within the year |
| `Driver.ClockOfWhole` | main.cpp:14-16 | within a day, the C divisions agree with the ordinary ones and decompose the seconds in base 60 |
| `Driver.SplitTime` | main.cpp:11-16 | the four fields `formatTime` computes, in its order of operations; its meaning is `SplitTimeRanges` and `SplitTimeTotal` |
| `Driver.Pad2` | main.cpp:19-21 | a number under `setfill('0') << setw(2)`; its meaning is `Pad2Digits` |
| `Driver.FormatTime` | main.cpp:10-23 | `formatTime`: the `D days, HH:MM:SS` text of the four fields; its meaning is `FormatTimeShape` and `FormatTimePeriodic` |
| `Driver.FormatTimePeriodic` | main.cpp:11 | adding one year to the elapsed time does not change the clock or the text |
| `Driver.Pad2Digits` | main.cpp:19-21 | `setw(2)` with fill `'0'` prints a number up to 99 as exactly two digits that read back as that number |
| `Driver.FormatTimeShape` | main.cpp:18-21 | the text is `D days, HH:MM:SS`, with `D` the day count and two-digit fields |
| `Driver.Min` | main.cpp:81 | `std::min` is the smaller of two values, and one of them |
| `Driver.StepTimes` | main.cpp:81-92 | the steps the loop takes while the window stays open, starting from an elapsed time; its meaning is `StepTimesSteps`, `StepTimesReach` and `StepTimesCount` |
| `Driver.StepTimesNext` | main.cpp:81-92 | while the loop continues, the step is `min(dt, year - elapsed)` and the elapsed time stays within the year |
| `Driver.StepTimesSteps` | main.cpp:90 | every step length lies in `(0, dt]`, and all steps except the last are exactly `dt` |
| `Driver.StepTimesReach` | main.cpp:81-92 | the loop reaches `min(T, year)`, never passes the year, and overshoots `min(T, year)` by less than `dt` |
| `Driver.StepTimesCount` | main.cpp:81-92 | the number of steps `n` satisfies `(n-1)*dt < min(T, year)`, the ceiling bound |
| `Driver.OnScheduleNext` | main.cpp:90-92 | one iteration takes the next step of the schedule and keeps `elapsed` equal to the sum of the steps taken |
| `Driver.OnScheduleEnd` | main.cpp:81 | when the time bound stops the loop, the whole schedule has been taken |
| `Driver.Evolve` | main.cpp:91 | repeated steps keep the count of bodies, their masses and image names |
| `Driver.EvolveSnoc` | main.cpp:91 | one more step is `Universe::step` applied to the state reached so far |
| `Driver.Run` | main.cpp:78-92 | ends after a prefix of the schedule; `elapsed` is its sum and lies within `[0, year]`; the bodies are the states that prefix evolves to; the window was open at every check; the loop stops only when the window is shut or `min(T, year)` is reached |
| `Driver.Tick` | main.cpp:90-92 | one loop iteration: the step length, the new elapsed time, and the bodies stepped by it |
| `Driver.Advance` | main.cpp:91 | `universe.step(stepTime)` extends the evolution by one step |
| `Driver.DumpAsWritten` | main.cpp:108-110 | the program prints the count and the radius, then the whole `<<` text, which begins with them again |
| `Driver.DumpTextAsWritten` | main.cpp:108-110 | the text printed at the end: count, radius, then the `<<` text of the universe |
| `Driver.DumpAsWrittenTokens` | main.cpp:108-110 | when every field and the radius render as one token, the printed dump is the count and the radius followed by all of the universe's tokens |
| `Driver.FirstBodyMisread` | main.cpp:108-110 | reading the dump back takes the second count as the first body's `px`, the radius as its `py`, and shifts every later field of the first body two places |
| `Driver.ReadBodyOfSix` | CelestialBody.cpp:67 | six tokens whose first five parse are read as a body with those numbers and the sixth token as its image name |
| `Driver.DumpAsWrittenMisread` | main.cpp:108-110 | for every non-empty `Reloadable` universe, reloading the dump gives the right count and radius but misreads the first body; so whenever the first body's `px` is not the count, the reloaded bodies differ |
| `Driver.ReadDumpHeader` | main.cpp:108-110 | reading the dump consumes exactly the first count and radius as the header, then reads the bodies from the repeated header onwards |
| `Driver.Dump` | main.cpp:110 | the corrected dump prints `<<` alone; reloading it restores exactly the final bodies and radius whenever the universe is `Reloadable` |
| `Driver.ExampleDumpRestores` | main.cpp:110 | the corrected dump of one body at `x = 5` in a universe of radius 2 reloads exactly, under `WholeFormat` |
| `Driver.ExampleDumpAsWrittenMisreads` | main.cpp:108-110 | the dump as written of the same universe reloads the body at `x = 1`, the repeated count, so the reload differs from the universe |

## Left out

- Floating point: all arithmetic is on exact reals. IEEE rounding, overflow, NaN and infinities are not modelled, and neither is the rounding of `elapsedTime += stepTime`.
- `std::sqrt` is a parameter, assumed only to give a positive result for a positive argument.
- `Bodies.CelestialBody.GetPosition`: does not model the narrowing to `float` in `sf::Vector2f`; it returns the exact value. The step reads its positions through this getter, so in the program the distances are computed from `float`-rounded positions.
- `Bodies.CelestialBody.GetVelocity`: does not model the narrowing to `float`.
- The scientific 4-digit rendering (`std::scientific`, `setprecision(4)`) is the abstract `NumberFormat`. The round-trip lemmas hold for the numbers that read back as themselves. Under the real 4-digit format most numbers do not, and they are reloaded rounded; which numbers survive is not modelled.
- `Universes.Universe.Write`: renders the radius with the same `fmt` as the bodies. The source prints the radius (Universe.cpp:88) under whatever flags the stream holds. On a fresh stream that is the default 6-digit format. `std::scientific` and `setprecision(4)` take effect only once a body has been written (CelestialBody.cpp:76) or after main.cpp:109 has set them, as it has for the final dump. So a first `<<` on a fresh stream may write the radius differently from what is modelled.
- Extraction works on whole tokens. A token such as `12abc`, which the C++ streams would read partly, here fails outright.
- `Text.ParseNat`: accepts exactly the non-empty runs of decimal digits, of any size. `>> size_t` also accepts a leading `+` (`+7` reads as 7) and a leading `-`, which it wraps around modulo 2^64. It fails, storing the largest `size_t`, on numerals above that largest value. The model rejects both signs and accepts every numeral.
- `Streams.ReadNat`: inherits the differences of `Text.ParseNat` on signed and oversized counts.
- `Universes.ReadUniverse`: the C++ count stays uninitialised in two cases. One is a stream that had already failed before the count is read. The other is a good stream with no token left, such as empty or all-blank input, where the extraction fails at end of file. In both the model reads the count as zero, so no bodies are read.
- Texture and sprite handling in the constructor and in `>>` is not modelled, nor is the `runtime_error` it throws when an image cannot be loaded. Image names are kept as plain strings.
- Drawing (`Universe::draw`, `CelestialBody::draw`), the window, the events, the sound, the background and the on-screen text: they are rendering and do not touch the physics state. Closing the window becomes the parameter `isOpen`, which gives the window's state at each loop check.
- The command line (argument count, parsing `T` and `dt`) and reading the initial state from standard input are not modelled. `Run` takes `T`, `dt` and the initial universe as given.
- The `Universe(filename)` constructor is not modelled; it opens a file and then uses `>>`, which is modelled.
- `Universes.Universe.Step`: requires pairwise distinct positions and non-zero masses. Without them the source divides by zero.
- `Driver.Run`: requires `dt > 0`, because with `dt <= 0` the source loop never advances. It also requires every state along the schedule to be steppable (`Safe`).
- `Driver.FormatTimePeriodic`: stated for non-negative times only, which is all the program produces. The cast to `int` cannot overflow for those, so `Driver.Trunc` ignores overflow.
- `CelestialBody::isSun` is declared in the header but never defined.

## Findings

| source | as written | input that shows it | evidently intended | confidence | as-written member | corrected member |
|---|---|---|---|---|---|---|
| main.cpp:108-110 | the final state is printed as the count and the radius, then `std::cout << universe`, which prints the count and the radius again | any non-empty universe whose first body's `px` differs from the number of bodies; concretely one body at `px = 5` in a universe of radius 2 (`Driver.ExampleDumpAsWrittenMisreads`) | the final state alone, in the format `>>` reads, so it can be fed back as input | not executed | `Driver.DumpAsWrittenMisread` | `Driver.Dump` |
