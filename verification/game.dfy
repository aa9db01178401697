/**
 * The global state the core mutates (main.cpp:117-132, main.cpp:378): the
 * object table with its reference ledger, `devMode`, the camera shake and
 * `lastSavedOrLoadedScene`; and the per-frame object update of
 * Playing_Update (main.cpp:681-682).
 */
module Game {
  import opened Geometry
  import opened Objects
  import opened SceneTable
  import opened Camera
  import Motion
  import Animation

  /** `char lastSavedOrLoadedScene[256]`. */
  const SceneNameSize := 256

  datatype GameState = GameState(scene: Scene, devMode: bool, shake: Shake, lastScene: string)

  /** An entity the frame update and the move command can work on. */
  predicate Live(o: Object)
  {
    WellFormed(o) && Motion.Progressing(o.motion) && o.motion.speed > 0.0 && o.motion.motionTime >= 0.0
  }

  /**
   * The state invariant: the ledger is balanced, the player row exists, the
   * table fits its array, every row is live and the scene name fits its buffer.
   */
  predicate Valid(g: GameState)
  {
    && Balanced(g.scene)
    && 0 < |g.scene.objects| <= Capacity
    && (forall i :: 0 <= i < |g.scene.objects| ==> Live(g.scene.objects[i]))
    && |g.lastScene| < SceneNameSize
  }

  lemma BlankIsLive(name: string)
    ensures Live(Blank().(name := name))
  {
  }

  /** Deleting a row keeps the state valid. */
  lemma DeletePreservesValid(g: GameState, i: nat)
    requires Valid(g) && i < |g.scene.objects|
    ensures Valid(g.(scene := DeleteRow(g.scene, i)))
  {
    DeletePreservesBalance(g.scene, i);
    var r := DeleteRow(g.scene, i);
    forall j | 0 <= j < |r.objects| ensures Live(r.objects[j]) {
      if i > 0 && j >= i {
        assert r.objects[j] == g.scene.objects[j + 1];
      }
    }
  }

  /** Cloning a row keeps the state valid. */
  lemma ClonePreservesValid(g: GameState, i: nat)
    requires Valid(g) && i < |g.scene.objects|
    ensures Valid(g.(scene := CloneRow(g.scene, i)))
  {
    ClonePreservesBalance(g.scene, i);
    if |g.scene.objects| < Capacity {
      CloneRowsLive(g.scene.objects, i);
    }
  }

  lemma CloneRowsLive(objects: seq<Object>, i: nat)
    requires i < |objects| && forall j :: 0 <= j < |objects| ==> Live(objects[j])
    ensures var grown := objects[..i + 1] + [objects[i]] + objects[i + 1..];
      forall j :: 0 <= j < |grown| ==> Live(grown[j])
  {
    var grown := objects[..i + 1] + [objects[i]] + objects[i + 1..];
    forall j | 0 <= j < |grown| ensures Live(grown[j]) {
      if j <= i {
        assert grown[j] == objects[j];
      } else if j == i + 1 {
        assert grown[j] == objects[i];
      } else {
        assert grown[j] == objects[j - 1];
      }
    }
  }

  /** Adding a row keeps the state valid. */
  lemma AddPreservesValid(g: GameState)
    requires Valid(g)
    ensures Valid(g.(scene := AddRow(g.scene)))
  {
    if |g.scene.objects| < Capacity {
      AddBelowCapacity(g);
    }
  }

  lemma AddBelowCapacity(g: GameState)
    requires Valid(g) && |g.scene.objects| < Capacity
    ensures Valid(g.(scene := AddRow(g.scene)))
  {
    var n := Blank().(name := NewObjectName(|g.scene.objects| + 1));
    BlankIsLive(n.name);
    NamedBlankOwnsNothing(n.name);
    assert AddRow(g.scene) == Scene(g.scene.objects + [n], g.scene.held);
    AppendLiveRow(g, n);
  }

  /** Appending a live row that owns nothing, below capacity, keeps the state valid. */
  lemma AppendLiveRow(g: GameState, o: Object)
    requires Valid(g) && |g.scene.objects| < Capacity
    requires Live(o) && Owned(o) == multiset{}
    ensures Valid(g.(scene := Scene(g.scene.objects + [o], g.scene.held)))
  {
    var grown := g.scene.objects + [o];
    TableOwnedAppend(g.scene.objects, [o]);
    TableOwnedSingle(o);
    assert forall j :: 0 <= j < |grown| ==> Live(grown[j]);
  }

  /**
   * What one frame's Update(Object*) does to a row: only its clock, frame,
   * MotionMaster, position and direction change; the MotionMaster takes one
   * step; while it is still moving the row follows the controller's point and
   * faces along the move, an idle row stays where it is and keeps its facing,
   * a row whose move ends lands on its end point with the facing it had; its
   * clock and frame advance as Animation.Animated says.
   */
  ghost predicate Stepped(before: Object, after: Object, mirror: Direction -> Direction, frameTime: real,
                          facing: (Vector2, Vector2) -> Direction)
  {
    && after.name == before.name
    && Owned(after) == Owned(before)
    && frameTime > 0.0 && Motion.Progressing(before.motion)
    && after.motion == Motion.Update(before.motion, frameTime)
    && (after.motion.isMoving ==>
          after.position == after.motion.currentPoint && after.direction == facing(after.motion.startPoint, after.motion.endPoint))
    && (!before.motion.isMoving ==> after.position == before.position)
    && (before.motion.isMoving && !after.motion.isMoving ==> after.position == before.motion.endPoint)
    && (!after.motion.isMoving ==> after.direction == before.direction)
    && after == before.(animationTimeAccumulator := after.animationTimeAccumulator, animationFrame := after.animationFrame,
                        motion := after.motion, position := after.position, direction := after.direction)
    && WellFormed(before) && Animation.Animated(before, after, mirror, frameTime)
  }

  /** Update(Object*) on one live row: the row stays live and is stepped. */
  method UpdateRow(o: Object, mirror: Direction -> Direction, frameTime: real, facing: (Vector2, Vector2) -> Direction)
    returns (r: Object)
    requires Live(o) && frameTime > 0.0
    ensures Live(r) && Stepped(o, r, mirror, frameTime, facing)
  {
    r := Animation.UpdateObject(o, mirror, frameTime, facing);
  }

  /**
   * The update loop of Playing_Update (main.cpp:681-682): Update(Object*) on
   * every row, in order. Rows keep their identity, handles and ledger, and
   * each row is stepped as Stepped says.
   */
  method UpdateAll(g: GameState, mirror: Direction -> Direction, frameTime: real, facing: (Vector2, Vector2) -> Direction)
    returns (r: GameState)
    requires Valid(g) && frameTime > 0.0
    ensures Valid(r)
    ensures r == g.(scene := r.scene) && r.scene.held == g.scene.held
    ensures |r.scene.objects| == |g.scene.objects|
    ensures forall k :: 0 <= k < |g.scene.objects| ==>
      Stepped(g.scene.objects[k], r.scene.objects[k], mirror, frameTime, facing)
  {
    var rows := g.scene.objects;
    var objects: seq<Object> := [];
    while |objects| < |rows|
      invariant |objects| <= |rows|
      invariant forall j :: 0 <= j < |objects| ==> Live(objects[j]) && Stepped(rows[j], objects[j], mirror, frameTime, facing)
    {
      var updated := UpdateRow(rows[|objects|], mirror, frameTime, facing);
      AppendStepped(rows, objects, updated, mirror, frameTime, facing);
      objects := objects + [updated];
    }
    r := g.(scene := g.scene.(objects := objects));
    SteppedRowsKeepValid(g, r, mirror, frameTime, facing);
  }

  /** The next row's successor extends the run of stepped rows. */
  lemma AppendStepped(rows: seq<Object>, objects: seq<Object>, x: Object, mirror: Direction -> Direction,
                      frameTime: real, facing: (Vector2, Vector2) -> Direction)
    requires |objects| < |rows|
    requires forall j :: 0 <= j < |objects| ==> Live(objects[j]) && Stepped(rows[j], objects[j], mirror, frameTime, facing)
    requires Live(x) && Stepped(rows[|objects|], x, mirror, frameTime, facing)
    ensures var grown := objects + [x];
      forall j :: 0 <= j < |grown| ==> Live(grown[j]) && Stepped(rows[j], grown[j], mirror, frameTime, facing)
  {
    var grown := objects + [x];
    assert grown[|objects|] == x;
    assert forall j :: 0 <= j < |objects| ==> grown[j] == objects[j];
  }

  /** Replacing every row by a live, stepped successor keeps the state valid. */
  lemma SteppedRowsKeepValid(g: GameState, r: GameState, mirror: Direction -> Direction, frameTime: real,
                             facing: (Vector2, Vector2) -> Direction)
    requires Valid(g) && r == g.(scene := g.scene.(objects := r.scene.objects))
    requires |r.scene.objects| == |g.scene.objects|
    requires forall j :: 0 <= j < |r.scene.objects| ==> Live(r.scene.objects[j])
    requires forall j :: 0 <= j < |g.scene.objects| ==> Stepped(g.scene.objects[j], r.scene.objects[j], mirror, frameTime, facing)
    ensures Valid(r)
  {
    TableOwnedPointwise(r.scene.objects, g.scene.objects);
  }
}
