/** Game objects: entities with a position, a scale, a rotation in degrees,
    a tag and an optional collider, registered under a fresh numeric id for
    as long as they are alive. Destroying an object unregisters it, resets
    its fields and makes every later access fail.

    The engine keeps the id counter and the dictionary of live objects in
    static fields; here they live in a Registry object that every game
    object refers to. Locks, atomic increments and the concurrent
    dictionary become sequential updates. */
module GameObjects {
  import opened Vectors
  import C = Colliders
  import Decimal

  datatype Option<T> = None | Some(value: T)

  /** The failure every access to a destroyed object reports, with its id. */
  datatype Error = Destroyed(id: int)

  /** The value of an access, or the failure it reports. */
  datatype Result<T> = Ok(value: T) | Err(error: Error)

  /** The outcome of an operation that returns nothing. */
  datatype Outcome = Pass | Fail(error: Error)

  /** The scale the shorter constructors pass on. */
  const DefaultScale: Vector2 := Vector2(1.0, 1.0)

  /** The id counter and the table of live objects by id. */
  class Registry {
    /** The last id handed out; ids start at 1. */
    var nextID: int
    var objects: map<int, GameObject>
    /** Every object ever constructed against this registry. */
    ghost var created: set<GameObject>

    /** The table holds exactly the live objects, each under its own id;
        ids are distinct and never above the counter; a destroyed object
        keeps its reset fields. */
    ghost predicate Valid()
      reads this, created
    {
      && 0 <= nextID
      && (forall o :: o in created ==> o.registry == this && 0 < o.id <= nextID)
      && (forall o, p :: o in created && p in created && o.id == p.id ==> o == p)
      && (forall k :: k in objects ==> objects[k] in created && objects[k].id == k && objects[k].alive)
      && (forall o :: o in created && o.alive ==> o.id in objects)
      && (forall o :: o in created && !o.alive ==> o.Poisoned())
    }

    constructor()
      ensures Valid()
      ensures nextID == 0 && objects == map[] && created == {}
    {
      nextID := 0;
      objects := map[];
      created := {};
    }

    /** The atomic increment of the counter: the new value is the id handed out.
        The counter is private to the engine: only the GameObject constructor
        calls this, and it re-establishes Valid(). */
    method Increment() returns (n: int)
      modifies this`nextID
      ensures nextID == old(nextID) + 1 && n == nextID
    {
      nextID := nextID + 1;
      n := nextID;
    }

    /** Insert unless the key is present; reports whether it inserted.
        The table is private to the engine: only the GameObject constructor
        calls this, and it re-establishes Valid(). */
    method TryAdd(key: int, o: GameObject) returns (added: bool)
      modifies this`objects
      ensures added <==> key !in old(objects)
      ensures objects == if added then old(objects)[key := o] else old(objects)
    {
      added := key !in objects;
      if added {
        objects := objects[key := o];
      }
    }

    /** Remove the key; reports whether it was present. Only Destroy calls
        this, and it re-establishes Valid(). */
    method TryRemove(key: int) returns (removed: bool)
      modifies this`objects
      ensures removed <==> key in old(objects)
      ensures objects == old(objects) - {key}
    {
      removed := key in objects;
      objects := objects - {key};
    }
  }

  class GameObject {
    const registry: Registry
    const id: int
    var alive: bool
    var position: Vector2
    var scale: Vector2
    /** In degrees; only Rotate brings it into [0, 360). */
    var rotation: real
    var tag: string
    var collider: Option<C.Collider>

    /** Registered in a consistent registry. */
    ghost predicate Valid()
      reads this, registry, registry.created
    {
      registry.Valid() && this in registry.created
    }

    /** The field values a destroyed object is left with. */
    predicate Poisoned()
      reads this
    {
      position == Zero && scale == Zero && rotation == 0.0 && tag == "" && collider == None
    }

    /** A new object takes the next id, starts alive with the given placement,
        an empty tag and no collider, and is registered under its id. The
        insertion succeeds at the first attempt, because no registered id is
        above the old counter. */
    constructor(registry: Registry, position: Vector2, rotationInDegrees: real, scale: Vector2)
      requires registry.Valid()
      modifies registry
      ensures Valid() && this.registry == registry
      ensures id == old(registry.nextID) + 1 && registry.nextID == id
      ensures forall o :: o in old(registry.created) ==> o.id < id
      ensures registry.created == old(registry.created) + {this}
      ensures registry.objects == old(registry.objects)[id := this]
      ensures alive && this.position == position && rotation == rotationInDegrees && this.scale == scale
      ensures tag == "" && collider == None
    {
      var newID := registry.Increment();
      this.registry := registry;
      id := newID;
      alive := true;
      this.position := position;
      rotation := rotationInDegrees;
      this.scale := scale;
      tag := "";
      collider := None;
      new;
      registry.created := registry.created + {this};
      var added := registry.TryAdd(id, this);
      assert added;
    }

    /** The liveness check in front of every access. */
    function EnsureAlive(): (r: Outcome)
      reads this
      ensures r == Pass <==> alive
    {
      if alive then Pass else Fail(Destroyed(id))
    }

    /** A value read through the liveness check. */
    function Guard<T>(value: T): Result<T>
      reads this
    {
      match EnsureAlive()
      case Pass => Ok(value)
      case Fail(e) => Err(e)
    }

    function ID(): Result<int> reads this { Guard(id) }
    function Position(): Result<Vector2> reads this { Guard(position) }
    function Scale(): Result<Vector2> reads this { Guard(scale) }
    function Rotation(): Result<real> reads this { Guard(rotation) }
    function Tag(): Result<string> reads this { Guard(tag) }
    function Collider(): Result<Option<C.Collider>> reads this { Guard(collider) }

    /** The decimal text of the id. */
    function ToString(): Result<string> reads this { Guard(Decimal.IntToString(id)) }

    /** The hash of the id, which for an int is the id itself. */
    function HashCode(): Result<int> reads this { Guard(id) }

    method SetPosition(value: Vector2) returns (r: Outcome)
      requires Valid()
      modifies this`position
      ensures Valid()
      ensures r == EnsureAlive()
      ensures position == if alive then value else old(position)
    {
      r := EnsureAlive();
      if r == Pass {
        position := value;
      }
    }

    method SetScale(value: Vector2) returns (r: Outcome)
      requires Valid()
      modifies this`scale
      ensures Valid()
      ensures r == EnsureAlive()
      ensures scale == if alive then value else old(scale)
    {
      r := EnsureAlive();
      if r == Pass {
        scale := value;
      }
    }

    /** Stores the angle as given, without bringing it into [0, 360). */
    method SetRotation(value: real) returns (r: Outcome)
      requires Valid()
      modifies this`rotation
      ensures Valid()
      ensures r == EnsureAlive()
      ensures rotation == if alive then value else old(rotation)
    {
      r := EnsureAlive();
      if r == Pass {
        rotation := value;
      }
    }

    method SetTag(value: string) returns (r: Outcome)
      requires Valid()
      modifies this`tag
      ensures Valid()
      ensures r == EnsureAlive()
      ensures tag == if alive then value else old(tag)
    {
      r := EnsureAlive();
      if r == Pass {
        tag := value;
      }
    }

    method SetCollider(value: Option<C.Collider>) returns (r: Outcome)
      requires Valid()
      modifies this`collider
      ensures Valid()
      ensures r == EnsureAlive()
      ensures collider == if alive then value else old(collider)
    {
      r := EnsureAlive();
      if r == Pass {
        collider := value;
      }
    }

    /** Moves the object by `translation`. */
    method Translate(translation: Vector2) returns (r: Outcome)
      requires Valid()
      modifies this`position
      ensures Valid()
      ensures r == EnsureAlive()
      ensures position == if alive then Add(old(position), translation) else old(position)
    {
      r := EnsureAlive();
      if r == Pass {
        position := Add(position, translation);
      }
    }

    /** Turns the object by `angleInDegrees`: the truncated remainder of the
        sum by 360, lifted by 360 when negative, which is the sum wrapped
        into [0, 360). */
    method Rotate(angleInDegrees: real) returns (r: Outcome)
      requires Valid()
      modifies this`rotation
      ensures Valid()
      ensures r == EnsureAlive()
      ensures rotation == if alive then WrapDegrees(old(rotation) + angleInDegrees) else old(rotation)
      ensures alive ==> 0.0 <= rotation < 360.0
    {
      r := EnsureAlive();
      if r == Pass {
        var sum := rotation + angleInDegrees;
        rotation := TruncatedRemainder(sum);
        if rotation < 0.0 {
          rotation := rotation + 360.0;
        }
        TruncatedRemainderLifted(sum);
      }
    }

    /** Unregisters a live object and resets its fields; a destroyed object
        cannot be destroyed again. No other object changes. */
    method Destroy() returns (r: Outcome)
      requires Valid()
      modifies this, registry`objects
      ensures Valid()
      ensures r == old(EnsureAlive())
      ensures old(alive) ==> !alive && Poisoned() && registry.objects == old(registry.objects) - {id}
      ensures !old(alive) ==> unchanged(this) && registry.objects == old(registry.objects)
    {
      r := EnsureAlive();
      if r == Pass {
        var removed := registry.TryRemove(id);
        assert removed;
        alive := false;
        position := Zero;
        scale := Zero;
        rotation := 0.0;
        tag := "";
        collider := None;
      }
    }

    /** Equals with another game object: against null it is true exactly
        when this object is destroyed, otherwise it is `==`. */
    function Equals(other: GameObject?): (r: bool)
      reads this, other
      ensures r <==> Equal(this, other)
    {
      if other == null then !alive else Equal(this, other)
    }

    /** Equals with an arbitrary object, which is false for anything that
        is not a game object. */
    function EqualsObject(obj: Object): (r: bool)
      reads this, if obj.Game? then {obj.game} else {}
      ensures r ==> !obj.Foreign?
      ensures obj.Null? ==> (r <==> Equal(this, null))
    {
      match obj
      case Null => !alive
      case Game(g) => Equal(this, g)
      case Foreign => false
    }
  }

  /** An argument of Equals(object): null, a game object, or anything else. */
  datatype Object = Null | Game(game: GameObject) | Foreign

  // ---------------------------------------------------------------------------
  // Rotation arithmetic

  /** Division truncated toward zero. */
  function Truncate(x: real): int
  {
    if x >= 0.0 then x.Floor else -((-x).Floor)
  }

  /** The floating-point `%` by 360: the dividend less the truncated multiple
      of 360, so it has the dividend's sign. */
  function TruncatedRemainder(x: real): (r: real)
    ensures -360.0 < r < 360.0
    ensures x >= 0.0 ==> r >= 0.0
    ensures x <= 0.0 ==> r <= 0.0
  {
    x - 360.0 * Truncate(x / 360.0) as real
  }

  /** An angle wrapped into [0, 360): the dividend less the floored multiple of 360. */
  function WrapDegrees(x: real): (r: real)
    ensures 0.0 <= r < 360.0
  {
    x - 360.0 * (x / 360.0).Floor as real
  }

  /** Lifting a negative truncated remainder by 360 gives the wrapped angle. */
  lemma TruncatedRemainderLifted(x: real)
    ensures var t := TruncatedRemainder(x);
            (if t < 0.0 then t + 360.0 else t) == WrapDegrees(x)
  {
    var q := x / 360.0;
    if x < 0.0 && q.Floor as real != q {
      assert Truncate(q) == q.Floor + 1;
    }
  }

  /** Whole turns do not change a wrapped angle. */
  lemma WrapDegreesPeriodic(x: real, turns: int)
    ensures WrapDegrees(x + 360.0 * turns as real) == WrapDegrees(x)
  {
    var q := x / 360.0;
    var shifted := q + turns as real;
    assert (x + 360.0 * turns as real) / 360.0 == shifted;
    assert shifted.Floor == q.Floor + turns;
  }

  /** An angle already in [0, 360) is left alone. */
  lemma WrapDegreesKeepsRange(x: real)
    requires 0.0 <= x < 360.0
    ensures WrapDegrees(x) == x
  {
    assert (x / 360.0).Floor == 0;
  }

  /** Turning 0 by 370 degrees gives 10; turning 10 by -30 gives 340. */
  lemma RotateExamples()
    ensures WrapDegrees(0.0 + 370.0) == 10.0
    ensures WrapDegrees(10.0 - 30.0) == 340.0
  {
    assert (370.0 / 360.0).Floor == 1;
    assert (-20.0 / 360.0).Floor == -1;
  }

  // ---------------------------------------------------------------------------
  // Equality

  /** Null and destroyed objects are alike for `==`. */
  predicate IsNullOrDestroyed(o: GameObject?)
    reads o
  {
    o == null || !o.alive
  }

  /** The `==` operator: null or destroyed on the left equals exactly null or
      destroyed on the right; otherwise both must be alive with the same id. */
  predicate Equal(left: GameObject?, right: GameObject?): (r: bool)
    reads left, right
    ensures left == right ==> r
    ensures r && left != null && right != null && left.alive ==> right.alive && left.id == right.id
  {
    if IsNullOrDestroyed(left) then IsNullOrDestroyed(right)
    else if IsNullOrDestroyed(right) then false
    else left.id == right.id
  }

  /** The `!=` operator. */
  predicate NotEqual(left: GameObject?, right: GameObject?): (r: bool)
    reads left, right
    ensures r ==> left != right
    ensures r && IsNullOrDestroyed(left) ==> !IsNullOrDestroyed(right)
  {
    !Equal(left, right)
  }

  /** The truth table of `==`, entry by entry. */
  lemma EqualTruthTable(left: GameObject?, right: GameObject?)
    ensures IsNullOrDestroyed(left) && IsNullOrDestroyed(right) ==> Equal(left, right)
    ensures IsNullOrDestroyed(left) != IsNullOrDestroyed(right) ==> NotEqual(left, right)
    ensures !IsNullOrDestroyed(left) && !IsNullOrDestroyed(right)
            ==> (Equal(left, right) <==> left.id == right.id)
  {
  }

  /** `==` is an equivalence: two destroyed objects are equal to each other and to null. */
  lemma EqualIsEquivalence(a: GameObject?, b: GameObject?, c: GameObject?)
    ensures Equal(a, a)
    ensures Equal(a, b) <==> Equal(b, a)
    ensures Equal(a, b) && Equal(b, c) ==> Equal(a, c)
  {
  }

  /** In one consistent registry, two live objects are equal exactly when
      they are the same object. */
  lemma {:induction false} LiveEqualIffSame(a: GameObject, b: GameObject)
    requires a.Valid() && b.Valid() && a.registry == b.registry
    requires a.alive && b.alive
    ensures Equal(a, b) <==> a == b
  {
  }

  /** Equals(GameObject) agrees with `==` for every argument, null included. */
  lemma EqualsAgreesWithOperator(o: GameObject, other: GameObject?)
    ensures o.Equals(other) == Equal(o, other)
    ensures o.Equals(null) == !o.alive
  {
  }

  /** Equals(object) agrees with Equals(GameObject) on null and game objects,
      and is false for anything else. */
  lemma EqualsObjectAgrees(o: GameObject, obj: Object)
    ensures obj.Null? ==> o.EqualsObject(obj) == o.Equals(null)
    ensures obj.Game? ==> o.EqualsObject(obj) == o.Equals(obj.game)
    ensures obj.Foreign? ==> !o.EqualsObject(obj)
  {
  }

  // ---------------------------------------------------------------------------
  // Liveness of accesses

  /** A live object exposes its fields unchanged. */
  lemma LiveAccessorsReturnFields(o: GameObject)
    requires o.alive
    ensures o.ID() == Ok(o.id) && o.Position() == Ok(o.position) && o.Scale() == Ok(o.scale)
    ensures o.Rotation() == Ok(o.rotation) && o.Tag() == Ok(o.tag) && o.Collider() == Ok(o.collider)
    ensures o.ToString() == Ok(Decimal.IntToString(o.id)) && o.HashCode() == Ok(o.id)
  {
  }

  /** A destroyed object rejects every access with its own id. */
  lemma DestroyedRejectsEveryAccess(o: GameObject)
    requires !o.alive
    ensures o.EnsureAlive() == Fail(Destroyed(o.id))
    ensures o.ID() == Err(Destroyed(o.id)) && o.Position() == Err(Destroyed(o.id))
    ensures o.Scale() == Err(Destroyed(o.id)) && o.Rotation() == Err(Destroyed(o.id))
    ensures o.Tag() == Err(Destroyed(o.id)) && o.Collider() == Err(Destroyed(o.id))
    ensures o.ToString() == Err(Destroyed(o.id)) && o.HashCode() == Err(Destroyed(o.id))
  {
  }

  /** Objects equal under `==` and both alive have equal hash codes. */
  lemma EqualObjectsHashAlike(a: GameObject, b: GameObject)
    requires a.alive && b.alive && Equal(a, b)
    ensures a.HashCode() == b.HashCode()
  {
  }

  /** In one consistent registry, live objects with the same text are the
      same object. */
  lemma {:induction false} ToStringIdentifies(a: GameObject, b: GameObject)
    requires a.Valid() && b.Valid() && a.registry == b.registry
    requires a.alive && b.alive && a.ToString() == b.ToString()
    ensures a == b
  {
    Decimal.IntToStringRoundTrip(a.id);
    Decimal.IntToStringRoundTrip(b.id);
  }

  /** The table's keys are exactly the ids of the live objects, and each key
      maps to the object with that id. */
  lemma RegistryHoldsLiveObjects(registry: Registry, o: GameObject)
    requires registry.Valid() && o in registry.created
    ensures o.alive <==> o.id in registry.objects && registry.objects[o.id] == o
  {
  }
}
