# Chivalry Engine core, modelled in Dafny

Chivalry Engine is a small 2D game engine. This project models four parts of its core:

- **Game objects** (`game_object.dfy`, module `GameObjects`).
  - An object has a position, a scale, a rotation in degrees, a tag and an optional collider.
  - Each object takes a fresh id from a global counter and is registered under that id while it is alive.
  - Every accessor checks that the object is alive. Destroying an object unregisters it and resets its fields.
  - Equality has an unusual truth table: a destroyed object and `null` are equal.
  - The static counter and dictionary become a `Registry` object. Its invariant `Registry.Valid` says:
    - the table holds exactly the live objects, each under its own id;
    - ids are distinct, positive and never above the counter;
    - destroyed objects keep their reset fields.
- **Colliders** (`colliders.dfy`, module `Colliders`).
  - Circle and axis-aligned box shapes, with the three pairwise intersection tests and the dispatcher.
  - Single-precision floats become reals (`vectors.dfy`, module `Vectors`).
- **Game time** (`time.dfy`, module `Timing`).
  - A `Time` class whose scale setter clamps negative values to zero.
  - Its `Update` takes the clock reading in milliseconds as a parameter.
- **The game loop** (`engine.dfy`, module `Engine`).
  - `OnLoad` is called once. Then, once per clock reading: the time is updated, at most one logic tick runs (`OnUpdate`), and the frame is drawn (`OnDraw`).
  - The hooks a game supplies are recorded in call order in `GameEngine.hooks`.
  - `Iterate` and `Run` state the loop as functions of the clock readings.

`decimal.dfy` (module `Decimal`) gives the decimal text of an id, as `ToString` returns it. It also defines the parser that inverts it.

A catch-up accumulator would add the tick period and run three ticks for a frame of 3.2 periods. `ChivalryEngine.cs:52` *assigns* the period instead, so every iteration runs at most one tick. The model follows the code: see `Engine.Tick` and `Engine.LongFrameRunsOneTick`.

The box–box test at `Collider.cs:29-44` only checks whether an edge of the second box lies in the first box's span. So it misses the following cases, which the model proves:
- a box that sticks out of the other on both ends of an axis;
- two boxes crossing like a plus sign.

The model keeps the test as written. It proves exactly how the test relates to the usual overlap test `BoxesOverlap`.

## Model

| member | source | states |
|---|---|---|
| Vectors.SquaredDistance | Collider.cs:53 | the squared distance is never negative and is zero for equal points |
| Vectors.SquaredDistanceSymmetric | Collider.cs:25 | swapping the points leaves the distance unchanged |
| Colliders.NewCircleCollider | Collider.cs:90-91 | a new circle collider is centred at the origin with radius 1, and carries the defaults of Collider.cs:19-21: active, not a trigger, on layer "Default" |
| Colliders.NewBoxCollider | Collider.cs:94-98 | a new box collider has the same defaults, with position and size both zero |
| Colliders.IntersectsCircles | Collider.cs:23-27 | circles only intersect when their radii add up to a positive number |
| Colliders.CirclesIntersectIffCloserThanRadii | Collider.cs:23-27 | for d the distance between the centres, the test holds exactly when d < r1 + r2 |
| Colliders.TangentCirclesDoNotIntersect | Collider.cs:26 | circles whose distance equals the sum of the radii do not intersect, because the comparison is strict |
| Colliders.IntersectsCirclesSymmetric | Collider.cs:23-27 | circle against circle does not depend on argument order |
| Colliders.IntersectsBoxes | Collider.cs:29-44 | when the second box is well-formed, a reported box pair really overlaps |
| Colliders.BoxesOverlapIffCommonPoint | Collider.cs:29-44 | the reference overlap test holds exactly when two well-formed boxes share a point |
| Colliders.IntersectsBoxesIffOverlapUnlessWider | Collider.cs:32-37 | for well-formed boxes, the engine's test is the overlap test except where the second box sticks out of the first on both ends of an axis |
| Colliders.BoxesOverlapSymmetric | Collider.cs:29-44 | the reference overlap test does not depend on argument order |
| Colliders.IntersectsBoxesNotSymmetric | Collider.cs:32-37 | a box inside another is found from the outside but missed from the inside |
| Colliders.CrossingBoxesMissed | Collider.cs:32-37 | two boxes crossing like a plus sign share a point, yet the test reports no intersection in either order |
| Colliders.Clamp | Collider.cs:49-50 | the clamped value lies in a non-empty span, and a value already in the span is unchanged |
| Colliders.ClosestPoint | Collider.cs:49-50 | the chosen point lies in a well-formed box, and a point already inside the box is its own closest point |
| Colliders.ClampIsNearest | Collider.cs:49-50 | on one axis, the clamped coordinate is at least as close as any coordinate in the span |
| Colliders.ClosestPointIsNearest | Collider.cs:48-53 | no point of the box is closer to the centre than the chosen one |
| Colliders.IntersectsCircleBox | Collider.cs:46-55 | a circle of radius zero never intersects a box |
| Colliders.CentreInsideBox | Collider.cs:46-55 | a circle centred inside the box intersects it exactly when the radius is not zero |
| Colliders.CircleBoxIffSomePointWithinRadius | Collider.cs:46-55 | for a well-formed box, the test holds exactly when some point of the box is strictly within the radius of the centre |
| Colliders.Intersects | Collider.cs:57-83 | each of the four shape pairs goes to its test; a box against a circle is tested with the circle first |
| Colliders.IntersectsSymmetricUnlessBoxes | Collider.cs:57-83 | every pair except box against box gives the same answer in either order |
| Colliders.IntersectsNotSymmetricForBoxes | Collider.cs:70-75 | some pair of box colliders gives different answers in the two orders |
| Colliders.IntersectsIgnoresMetadata | Collider.cs:19-21 | the active flag, the trigger flag and the layer never change the answer |
| Decimal.DigitChar | GameObject.cs:110 | the character for a digit is a digit character of that value |
| Decimal.NatToString | GameObject.cs:110 | the text of a natural number is a numeral without superfluous leading zeros |
| Decimal.IntToString | GameObject.cs:110 | the text of an integer is a numeral, preceded by a minus sign when the integer is negative |
| Decimal.NatToStringRoundTrip | GameObject.cs:110 | reading back the numeral of a natural number gives that number |
| Decimal.IntToStringRoundTrip | GameObject.cs:110 | reading back the text of an integer gives that integer |
| GameObjects.Registry.constructor | GameObject.cs:18-19 | the registry starts with the counter at zero, an empty table and its invariant |
| GameObjects.Registry.Increment | GameObject.cs:40 | the counter goes up by one, and the new value is returned |
| GameObjects.Registry.TryAdd | GameObject.cs:49 | the key is inserted exactly when it was absent, and the result says whether it was |
| GameObjects.Registry.TryRemove | GameObject.cs:62 | the key is removed, and the result says whether it was present |
| GameObjects.GameObject.constructor | GameObject.cs:38-50 | the new object has id = old counter + 1, above every earlier id. It is alive with the given placement, tag "" and no collider, and is registered under its id, so the insertion succeeds at the first attempt. The registry invariant is kept |
| GameObjects.GameObject.EnsureAlive | GameObject.cs:76-85 | the check passes exactly when the object is alive |
| GameObjects.GameObject.ID | GameObject.cs:23 | no own contract; LiveAccessorsReturnFields and DestroyedRejectsEveryAccess state it |
| GameObjects.GameObject.Position | GameObject.cs:25 | no own contract; LiveAccessorsReturnFields and DestroyedRejectsEveryAccess state it |
| GameObjects.GameObject.Scale | GameObject.cs:27 | no own contract; LiveAccessorsReturnFields and DestroyedRejectsEveryAccess state it |
| GameObjects.GameObject.Rotation | GameObject.cs:29 | no own contract; LiveAccessorsReturnFields and DestroyedRejectsEveryAccess state it |
| GameObjects.GameObject.Tag | GameObject.cs:32 | no own contract; LiveAccessorsReturnFields and DestroyedRejectsEveryAccess state it |
| GameObjects.GameObject.Collider | GameObject.cs:35 | no own contract; LiveAccessorsReturnFields and DestroyedRejectsEveryAccess state it |
| GameObjects.GameObject.ToString | GameObject.cs:106-111 | no own contract; LiveAccessorsReturnFields, DestroyedRejectsEveryAccess and ToStringIdentifies state it |
| GameObjects.GameObject.HashCode | GameObject.cs:137-142 | no own contract; LiveAccessorsReturnFields, DestroyedRejectsEveryAccess and EqualObjectsHashAlike state it |
| GameObjects.LiveAccessorsReturnFields | GameObject.cs:23-36 | a live object's getters, ToString and hash return its fields, the text of its id and its id |
| GameObjects.DestroyedRejectsEveryAccess | GameObject.cs:23-36 | every getter, ToString and the hash of a destroyed object fail with Destroyed(id) |
| GameObjects.GameObject.SetPosition | GameObject.cs:25 | a live object takes the new position, and a destroyed one fails and keeps its state. The registry invariant is kept |
| GameObjects.GameObject.SetScale | GameObject.cs:27 | as SetPosition, for the scale |
| GameObjects.GameObject.SetRotation | GameObject.cs:29 | as SetPosition, for the rotation, which is stored as given without wrapping |
| GameObjects.GameObject.SetTag | GameObject.cs:32 | as SetPosition, for the tag |
| GameObjects.GameObject.SetCollider | GameObject.cs:35 | as SetPosition, for the collider |
| GameObjects.GameObject.Translate | GameObject.cs:87-92 | a live object's position becomes old position + translation, and a destroyed one fails unchanged |
| GameObjects.GameObject.Rotate | GameObject.cs:94-103 | a live object's rotation becomes (old + angle) wrapped into [0, 360), and a destroyed one fails unchanged |
| GameObjects.TruncatedRemainder | GameObject.cs:98 | the float remainder by 360 lies strictly between -360 and 360 and has the dividend's sign |
| GameObjects.WrapDegrees | GameObject.cs:98-102 | the wrapped angle lies in [0, 360) |
| GameObjects.TruncatedRemainderLifted | GameObject.cs:98-102 | lifting a negative truncated remainder by 360 gives the floored modulo |
| GameObjects.WrapDegreesPeriodic | GameObject.cs:98-102 | whole turns do not change the wrapped angle |
| GameObjects.WrapDegreesKeepsRange | GameObject.cs:98-102 | an angle already in [0, 360) is unchanged |
| GameObjects.RotateExamples | GameObject.cs:98-102 | 0 + 370 wraps to 10, and 10 - 30 wraps to 340 |
| GameObjects.GameObject.Destroy | GameObject.cs:55-74 | on a live object: its id leaves the table, it becomes dead and its fields are reset to zero, "" and no collider. A destroyed object fails with Destroyed(id) and nothing changes. No other object changes, and the registry invariant is kept |
| GameObjects.RegistryHoldsLiveObjects | GameObject.cs:49-64 | under the invariant, an object is alive exactly when its id is in the table and maps to it |
| GameObjects.Equal | GameObject.cs:144-156 | `==` holds for a reference compared with itself, and when it holds with a live left side the right side is live with the same id; EqualTruthTable gives the full table |
| GameObjects.NotEqual | GameObject.cs:157-160 | `!=` only holds between different references, and with a null or destroyed left side it means the right side is live |
| GameObjects.GameObject.Equals | GameObject.cs:128-136 | Equals(GameObject) holds exactly when `==` does, null included |
| GameObjects.GameObject.EqualsObject | GameObject.cs:114-127 | Equals(object) is false for anything that is not a game object, and against null it is `==` against null |
| GameObjects.EqualTruthTable | GameObject.cs:144-160 | two sides that are each null or destroyed are equal; exactly one such side makes them unequal; two live sides are equal exactly when their ids are |
| GameObjects.EqualIsEquivalence | GameObject.cs:144-156 | `==` is reflexive, symmetric and transitive, so two different destroyed objects are equal |
| GameObjects.LiveEqualIffSame | GameObject.cs:144-156 | in one consistent registry, two live objects are equal exactly when they are the same object |
| GameObjects.EqualsAgreesWithOperator | GameObject.cs:128-136 | Equals(GameObject) is `==`, and Equals(null) is "destroyed" |
| GameObjects.EqualsObjectAgrees | GameObject.cs:114-127 | Equals(object) agrees with Equals(GameObject) on null and game objects, and is false for anything else |
| GameObjects.EqualObjectsHashAlike | GameObject.cs:137-142 | equal live objects have equal hash codes |
| GameObjects.ToStringIdentifies | GameObject.cs:106-111 | in one consistent registry, live objects with the same text are the same object |
| Timing.ClampScale | Time.cs:10 | the stored scale is never negative; it is the value given, or zero when that was negative |
| Timing.Time.constructor | Time.cs:8-12 | a new time has scale 1, delta 0 and total 0 |
| Timing.Time.SetTimeScale | Time.cs:10 | the scale becomes the clamped value, and nothing else changes |
| Timing.Time.Update | Time.cs:19-24 | total = reading × scale, and delta = (new total − old total) × scale |
| Timing.Advance | Time.cs:19-24 | no own contract; Time.Update is proved to compute it, and DeltaScaledTwice, FrozenAtZeroScale and MonotoneUnderFixedScale state what it means |
| Timing.DeltaScaledTwice | Time.cs:21-22 | when the old total came from an earlier reading, the delta is the clock's advance times the scale squared |
| Timing.FrozenAtZeroScale | Time.cs:21-22 | with scale zero, the total and the delta are both zero |
| Timing.MonotoneUnderFixedScale | Time.cs:21-22 | with a fixed non-negative scale and a clock that does not go back, the total never decreases and the delta is never negative |
| Timing.LoweringScaleCanMakeDeltaNegative | Time.cs:10-23 | halving the scale between two updates at the same reading makes the delta -25 |
| Engine.Tick | ChivalryEngine.cs:49-57 | the delta is taken off the time left. A tick runs exactly when nothing is left, and at most one runs. It sets the time left to one period and records the frame time and the total. Afterwards time is always left. When the time left did not exceed one period before and the delta is not negative, it does not exceed one period afterwards |
| Engine.Iterate | ChivalryEngine.cs:44-61 | no own contract; GameLoop is proved to follow it, and FirstIterationTicks and TickRecordsFrameTime state it |
| Engine.Run | ChivalryEngine.cs:44-61 | no own contract; GameLoop is proved to follow it, and RunCallOrder and RunKeepsAccumulatorInRange state it |
| Engine.GameEngine.constructor | ChivalryEngine.cs:24-32 | the engine starts with a fresh time, logic frame time 0 and no hooks called |
| Engine.GameEngine.GameLoop | ChivalryEngine.cs:35-63 | OnLoad is called first, then the hooks of Run over the clock readings. The time and the logic frame time end as Run says |
| Engine.RunCallOrder | ChivalryEngine.cs:44-61 | one OnDraw per iteration, at most one OnUpdate per iteration, and each OnUpdate is immediately followed by an OnDraw. OnLoad never runs in the loop, and the last hook is OnDraw |
| Engine.LoadRunsOnceFirst | ChivalryEngine.cs:37 | OnLoad is the first hook and is called exactly once |
| Engine.FirstIterationTicks | ChivalryEngine.cs:42-57 | with nothing left at the start, the first iteration ticks whenever its delta is not negative |
| Engine.TickRecordsFrameTime | ChivalryEngine.cs:52-54 | a tick records the time since the previous tick, remembers the total and resets the time left to one period |
| Engine.RunKeepsAccumulatorInRange | ChivalryEngine.cs:42-57 | with a non-negative scale and readings that never go back, the time left stays in (0, period] and the total follows the last reading |
| Engine.LongFrameRunsOneTick | ChivalryEngine.cs:52 | readings of 0 and 64 ms from a fresh start run one tick each, two in all, and leave one full period until the next tick |

## Left out

- Vectors.Add: `Vector2.cs` defines no `+`, `Distance` or `SquaredDistance`. The model assumes the componentwise sum for `+` and the Euclidean distance, compared through its square, for the distance functions.
- Locks, `Interlocked.Increment` and the concurrent dictionary: the model is sequential. The retry loops at `GameObject.cs:49` and `GameObject.cs:62` become a single call to `TryAdd` or `TryRemove`, which the invariant proves succeeds.
- GameObjects.Registry.Increment: does not model the 32-bit wrap-around of the id counter, because ids are unbounded integers.
- The constructor overloads at `GameObject.cs:51-53` are not separate members. They are the main constructor applied to `Zero`, `0.0` and `DefaultScale`.
- GameObjects.GameObject.HashCode: returns the id itself, which is what `Int32.GetHashCode` returns. Nothing is claimed beyond that.
- GameObjects.GameObject.EqualsObject: an argument that is not a game object is a single `Foreign` case. Which other type it has is not modelled.
- The exception message and the `Log.Error` call in the exception constructors are not modelled. An error is the value `Destroyed(id)`.
- `Log.cs` console output, the SFML window, its events, clearing and displaying, and the worker thread are not modelled.
  - The loop runs once per clock reading it is given, which stands for the window staying open that long.
  - The SFML clock becomes the `clockMs` parameter.
- The window size, title and background colour, and the `DrawFrameTime` and `GameTimer` getters (`ChivalryEngine.cs:19-22`), are not modelled. The last two only read `gameTime`'s fields.
- Floating-point rounding is not modelled: floats and doubles are reals, and the tick period is exactly 20 ms.
  - C#'s `%` on floats is modelled as the truncated remainder.
  - `Vector2.Normalized` (square root, division by zero) is not part of this model.
  - `Vector2` is a mutable class in the engine but an immutable value here, so aliasing of vectors and of colliders between objects is not modelled.
- Colliders.IntersectsCircles: compares squared distances instead of taking a square root. `Colliders.CirclesIntersectIffCloserThanRadii` proves this is the same test for any non-negative d whose square is the squared distance.
- `ColliderNotImplementedException` (`Collider.cs:3-15`, `Collider.cs:82`) is not modelled: the two shapes are a closed datatype, so every pair reaches a test.
