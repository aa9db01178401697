/**
 * The scene entity (main.cpp:100-115) and the fixed capacities of the flat
 * object table (main.cpp:113, main.cpp:123-125).
 */
module Objects {
  import opened Wrappers
  import opened Geometry
  import opened Assets
  import Motion

  /** `objects[100]`: the table never holds more rows. */
  const Capacity := 100
  /** DIRECTION_ENUM_COUNT: eight compass directions, counter-clockwise from +x. */
  const DirectionCount := 8
  /** `expressions[10]`. */
  const ExpressionCapacity := 10
  /** `char name[50]` of an object and `char name[32]` of an expression. */
  const NameSize := 50
  const ExpressionNameSize := 32

  type Direction = d: int | 0 <= d < 8

  datatype Expression = Expression(name: string, portrait: Ref<Texture>)

  /**
   * An entity. `direction` is a plain integer because the loader stores
   * whatever integer the file holds; `sprites` has one slot per direction and
   * `expressions` one per expression slot, of which the first `numExpressions`
   * are in use.
   */
  datatype Object = Object(
    name: string,
    position: Vector2,
    zOffset: real,
    direction: int,
    sprites: seq<Ref<SpriteData>>,
    animationFps: real,
    animationTimeAccumulator: real,
    animationFrame: int,
    collisionMap: Ref<ImageData>,
    script: Ref<ScriptData>,
    numExpressions: int,
    expressions: seq<Expression>,
    motion: Motion.MotionMaster)

  /** The fixed-size arrays of the C struct have their C sizes. */
  predicate Shaped(o: Object)
  {
    |o.sprites| == DirectionCount && |o.expressions| == ExpressionCapacity
  }

  predicate ValidDirection(o: Object)
  {
    0 <= o.direction < DirectionCount
  }

  /**
   * What the rest of the core takes for granted about an entity: C-sized
   * arrays, a direction that indexes `sprites`, an in-use expression count
   * within capacity, non-empty sprites, well-formed collision maps, a
   * non-negative frame counter and frame rate.
   */
  predicate WellFormed(o: Object)
  {
    && Shaped(o)
    && ValidDirection(o)
    && 0 <= o.numExpressions <= ExpressionCapacity
    && (forall d :: 0 <= d < |o.sprites| && o.sprites[d].Some? ==> SpriteWellFormed(o.sprites[d].value.data))
    && (o.collisionMap.Some? ==> ImageWellFormed(o.collisionMap.value.data))
    && o.animationFrame >= 0
    && o.animationFps >= 0.0
  }

  /**
   * CopyString into a buffer of `size` bytes, whose implementation is not
   * part of this model: taken to keep at most `size - 1` characters and the
   * terminator.
   */
  function Truncate(s: string, size: nat): (r: string)
    requires size > 0
    ensures |r| < size
    ensures r <= s
    ensures |s| < size ==> r == s
    ensures |s| >= size ==> |r| == size - 1
  {
    if |s| < size then s else s[..size - 1]
  }

  /**
   * The record `ZeroBytes` (Destroy, main.cpp:338) and `memset` (editor add,
   * main.cpp:983) produce: every byte zero, so the MotionMaster's speed is 0
   * rather than its default of 10.
   */
  function ZeroFilled(): Object
  {
    Object("", Origin, 0.0, 0, seq(DirectionCount, _ => None), 0.0, 0.0, 0, None, None, 0,
           seq(ExpressionCapacity, _ => Expression("", None)), Motion.ZeroFilled())
  }

  /** An empty record whose MotionMaster keeps its constructed defaults. */
  function Blank(): Object
  {
    ZeroFilled().(motion := Motion.Default())
  }

  /** The portrait handles of a run of expression slots. */
  function Portraits(es: seq<Expression>): (r: seq<Ref<Texture>>)
    ensures |r| == |es|
    ensures forall k :: 0 <= k < |es| ==> r[k] == es[k].portrait
  {
    seq(|es|, k requires 0 <= k < |es| => es[k].portrait)
  }

  /**
   * Every asset reference an entity holds: its script, its collision map,
   * the portrait of EVERY expression slot, and its sprites. This is what a
   * destroy must release and a clone must re-acquire for reference counts to
   * balance once a load has filled all ten portrait slots.
   */
  function Owned(o: Object): multiset<string>
  {
    HeldPath(o.script) + HeldPath(o.collisionMap) + HeldPaths(Portraits(o.expressions)) + HeldPaths(o.sprites)
  }

  /**
   * The references the source counts for an entity: script, collision map,
   * only the first `numExpressions` portraits, and the sprites. Destroy
   * releases exactly these as written (main.cpp:330-339), and Clone re-acquires
   * exactly these after CopyBytes has copied all ten portrait handles
   * (main.cpp:320-329).
   */
  function CountedReferences(o: Object): multiset<string>
    requires 0 <= o.numExpressions <= |o.expressions|
  {
    HeldPath(o.script) + HeldPath(o.collisionMap)
      + HeldPaths(Portraits(o.expressions[..o.numExpressions])) + HeldPaths(o.sprites)
  }

  /**
   * What the as-written Destroy misses is exactly the portraits of the slots
   * past `numExpressions`: those references are never given back.
   */
  lemma DestroyAsWrittenMissesTail(o: Object)
    requires 0 <= o.numExpressions <= |o.expressions|
    ensures CountedReferences(o) + HeldPaths(Portraits(o.expressions[o.numExpressions..])) == Owned(o)
  {
    var n := o.numExpressions;
    assert Portraits(o.expressions) == Portraits(o.expressions[..n]) + Portraits(o.expressions[n..]);
    HeldPathsAppend(Portraits(o.expressions[..n]), Portraits(o.expressions[n..]));
  }

  /**
   * A loaded entity has `numExpressions == 0` but a live first portrait
   * (the loader acquires all ten slots and never sets the count): the
   * as-written Destroy releases fewer references on that path than the
   * entity holds.
   */
  lemma LoadedPortraitOutlivesDestroy(o: Object)
    requires Shaped(o) && o.numExpressions == 0
    requires o.expressions[0].portrait.Some?
    ensures var p := o.expressions[0].portrait.value.path;
      CountedReferences(o)[p] < Owned(o)[p]
  {
    DestroyAsWrittenMissesTail(o);
    var p := o.expressions[0].portrait.value.path;
    var tail := Portraits(o.expressions[0..]);
    assert tail == [tail[0]] + tail[1..];
    HeldPathsAppend([tail[0]], tail[1..]);
    assert HeldPaths([tail[0]]) == multiset{p};
  }

  /** An all-zero record holds no reference at all. */
  lemma ZeroFilledOwnsNothing()
    ensures Owned(ZeroFilled()) == multiset{}
    ensures Owned(Blank()) == multiset{}
  {
    var z := ZeroFilled();
    NoneHoldsNothing(z.sprites);
    NoneHoldsNothing(Portraits(z.expressions));
  }

  /** Naming the empty record does not make it hold anything. */
  lemma NamedBlankOwnsNothing(name: string)
    ensures Owned(Blank().(name := name)) == multiset{}
  {
    ZeroFilledOwnsNothing();
    var b := Blank();
    assert Owned(b.(name := name)) == Owned(b);
  }

  lemma {:induction false} NoneHoldsNothing<T>(rs: seq<Ref<T>>)
    requires forall k :: 0 <= k < |rs| ==> rs[k].None?
    ensures HeldPaths(rs) == multiset{}
  {
    if rs != [] {
      NoneHoldsNothing(rs[1..]);
    }
  }

  /**
   * The zero-filled MotionMaster cannot start a move: its speed is 0, so
   * MoveToPoint between two different points would divide by zero.
   */
  lemma ZeroFilledCannotMove()
    ensures ZeroFilled().motion.speed == 0.0
    ensures WellFormed(ZeroFilled())
  {
  }

  /**
   * What the zero speed does to `move`: any real move of the zero-filled
   * record falls outside MoveToPoint's requires (the source divides the
   * distance by 0). The remaining clauses are arithmetic on the zero speed,
   * not steps of Motion.Update, whose requires a zero-speed move also
   * violates: for any positive arrival time, any number of steps of
   * `frameTime * 0` leave the clock at 0, the step test passes and the
   * interpolated point is the start.
   */
  lemma ZeroFilledMoveIsStuck(start: Vector2, end: Vector2, frameTime: real, frames: nat, arrival: real)
    requires start != end && frameTime > 0.0 && arrival > 0.0
    ensures !(start != end ==> ZeroFilled().motion.speed != 0.0)
    ensures var clock := frames as real * (frameTime * ZeroFilled().motion.speed);
      clock == 0.0 && clock + frameTime * ZeroFilled().motion.speed <= arrival
      && LerpPoint(start, end, clock / arrival) == start
  {
  }

  /**
   * The corrected empty record keeps the default speed, so any move it is
   * given ends, after enough frames, idle exactly at its target.
   */
  lemma BlankArrives(target: Vector2, distance: real, frameTime: real, frames: nat)
    requires frameTime > 0.0 && distance >= 0.0 && target != Origin
    requires frames as real * (frameTime * Motion.DefaultSpeed) * Motion.DefaultSpeed > distance
    ensures WellFormed(Blank()) && Blank().motion.speed == Motion.DefaultSpeed
    ensures var r := Motion.Simulate(Motion.MoveToPoint(Blank().motion, Origin, target, distance), frameTime, frames);
      !r.isMoving && r.currentPoint == target
  {
    Motion.ArrivesAtEnd(Blank().motion, Origin, target, distance, frameTime, frames);
  }
}
