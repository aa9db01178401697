/**
 * The console command handlers (main.cpp:497-620). Each checks its argument
 * count and argument syntax and returns false, changing nothing, when they
 * are wrong. ParseCommandFloatArg and ParseCommandBoolArg are not part of
 * this model: they are the `parseFloat` and `parseBool` parameters, with
 * `None` for a failed parse.
 */
module Console {
  import opened Wrappers
  import opened Geometry
  import opened Objects
  import opened SceneTable
  import opened Camera
  import opened Codec
  import opened Persistence
  import opened Game
  import Motion

  /** A handler's boolean result and the state afterwards. */
  datatype Handled = Handled(ok: bool, game: GameState)

  /** The state with the player, row 0, replaced. */
  function WithPlayer(g: GameState, player: Object): (r: GameState)
    requires 0 < |g.scene.objects|
    ensures |r.scene.objects| == |g.scene.objects| && r.scene.objects[0] == player
    ensures forall i :: 0 < i < |g.scene.objects| ==> r.scene.objects[i] == g.scene.objects[i]
    ensures r == g.(scene := r.scene) && r.scene.held == g.scene.held
  {
    g.(scene := g.scene.(objects := g.scene.objects[0 := player]))
  }

  /** Replacing the player by a record that is live and owns the same references keeps the state valid. */
  lemma WithPlayerPreservesValid(g: GameState, player: Object)
    requires Valid(g) && Live(player) && Owned(player) == Owned(g.scene.objects[0])
    ensures Valid(WithPlayer(g, player))
  {
    TableOwnedPointwise(WithPlayer(g, player).scene.objects, g.scene.objects);
  }

  /** `tp x y` (main.cpp:497-513): exactly two numbers; the player is placed at that point. */
  function HandleTeleport(g: GameState, args: seq<string>, parseFloat: string -> Option<real>): (r: Handled)
    requires 0 < |g.scene.objects|
    ensures r.ok <==> |args| == 2 && parseFloat(args[0]).Some? && parseFloat(args[1]).Some?
    ensures !r.ok ==> r.game == g
    ensures |r.game.scene.objects| == |g.scene.objects|
    ensures r.ok ==> r.game == WithPlayer(g, g.scene.objects[0].(position := r.game.scene.objects[0].position))
    ensures r.ok ==> r.game.scene.objects[0].position == Vector2(parseFloat(args[0]).value, parseFloat(args[1]).value)
  {
    if |args| != 2 then Handled(false, g)
    else
      var x, y := parseFloat(args[0]), parseFloat(args[1]);
      if x.None? || y.None? then Handled(false, g)
      else Handled(true, WithPlayer(g, g.scene.objects[0].(position := Vector2(x.value, y.value))))
  }

  /** `dev [bool]` (main.cpp:514-529): no argument toggles developer mode, a boolean sets it. */
  function HandleDevMode(g: GameState, args: seq<string>, parseBool: string -> Option<bool>): (r: Handled)
    ensures r.ok <==> |args| == 0 || parseBool(args[0]).Some?
    ensures r.game == g.(devMode := r.game.devMode)
    ensures !r.ok ==> r.game == g
    ensures r.ok && |args| == 0 ==> r.game.devMode != g.devMode
    ensures r.ok && |args| > 0 ==> r.game.devMode == parseBool(args[0]).value
  {
    if |args| == 0 then Handled(true, g.(devMode := !g.devMode))
    else match parseBool(args[0])
      case None => Handled(false, g)
      case Some(b) => Handled(true, g.(devMode := b))
  }

  /**
   * `shake [trauma] [falloff]` (main.cpp:530-553): at most two numbers; the
   * trauma is added to the current one (0.5 by default) and the falloff
   * replaces the current one (the default falloff by default).
   */
  function HandleShake(g: GameState, args: seq<string>, parseFloat: string -> Option<real>, frameTime: real): (r: Handled)
    ensures r.ok <==>
      && |args| <= 2
      && (|args| >= 1 ==> parseFloat(args[0]).Some?)
      && (|args| >= 2 ==> parseFloat(args[1]).Some?)
    ensures r.game == g.(shake := r.game.shake)
    ensures !r.ok ==> r.game == g
    ensures r.ok ==> r.game.shake.trauma - g.shake.trauma == (if |args| >= 1 then parseFloat(args[0]).value else DefaultTrauma)
    ensures r.ok ==> r.game.shake.falloff == (if |args| >= 2 then parseFloat(args[1]).value else DefaultFalloff(frameTime))
  {
    if |args| > 2 then Handled(false, g)
    else
      var trauma := if |args| >= 1 then parseFloat(args[0]) else Some(DefaultTrauma);
      var falloff := if |args| >= 2 then parseFloat(args[1]) else Some(DefaultFalloff(frameTime));
      if trauma.None? || falloff.None? then Handled(false, g)
      else Handled(true, g.(shake := Shake(g.shake.trauma + trauma.value, falloff.value)))
  }

  /** A request to PlayTemporarySoundEx; playing it is outside the model. */
  datatype Sound = Sound(path: string, volume: real, pitch: real)

  datatype SoundHandled = SoundHandled(ok: bool, sound: Option<Sound>)

  /**
   * The arity test of `sound` as written (main.cpp:557-560): only more than
   * three arguments are refused, and `args[0]` is then read unconditionally.
   */
  predicate SoundArityAsWritten(args: seq<string>)
  {
    |args| <= 3
  }

  /**
   * `sound` as written (main.cpp:554-577): past the arity test the handler
   * reads `args[0]`. None stands for that read falling outside the argument
   * list; otherwise the outcome is the corrected handler's.
   */
  function HandleSoundAsWritten(args: seq<string>, parseFloat: string -> Option<real>): (r: Option<SoundHandled>)
    ensures r.None? <==> SoundArityAsWritten(args) && |args| == 0
    ensures !SoundArityAsWritten(args) ==> r == Some(SoundHandled(false, None))
  {
    if !SoundArityAsWritten(args) then Some(SoundHandled(false, None))
    else if |args| == 0 then None
    else Some(HandleSound(args, parseFloat))
  }

  /**
   * The as-written handler reads a missing `args[0]` for an empty argument
   * list, which the corrected handler refuses; on every other list the two
   * agree.
   */
  lemma SoundReadsMissingArgument(args: seq<string>, parseFloat: string -> Option<real>)
    ensures HandleSoundAsWritten([], parseFloat).None?
    ensures HandleSound([], parseFloat) == SoundHandled(false, None)
    ensures |args| > 0 ==> HandleSoundAsWritten(args, parseFloat) == Some(HandleSound(args, parseFloat))
  {
  }

  /**
   * `sound path [volume] [pitch]` (main.cpp:554-577), corrected to require
   * the path: one to three arguments, the optional ones numbers, each 1 by
   * default. The game state is not involved.
   */
  function HandleSound(args: seq<string>, parseFloat: string -> Option<real>): (r: SoundHandled)
    ensures r.ok <==>
      && 1 <= |args| <= 3
      && (|args| >= 2 ==> parseFloat(args[1]).Some?)
      && (|args| >= 3 ==> parseFloat(args[2]).Some?)
    ensures r.ok <==> r.sound.Some?
    ensures r.ok ==> r.sound.value.path == args[0]
    ensures r.ok ==> r.sound.value.volume == (if |args| >= 2 then parseFloat(args[1]).value else 1.0)
    ensures r.ok ==> r.sound.value.pitch == (if |args| >= 3 then parseFloat(args[2]).value else 1.0)
    ensures r.ok ==> SoundArityAsWritten(args)
  {
    if |args| == 0 || |args| > 3 then SoundHandled(false, None)
    else
      var volume := if |args| >= 2 then parseFloat(args[1]) else Some(1.0);
      var pitch := if |args| >= 3 then parseFloat(args[2]) else Some(1.0);
      if volume.None? || pitch.None? then SoundHandled(false, None)
      else SoundHandled(true, Some(Sound(args[0], volume.value, pitch.value)))
  }

  /**
   * `move x y` (main.cpp:578-596) with MoveToPoint(Object*, Vector2)
   * (main.cpp:487-491): exactly two numbers, an offset from the player's
   * position; the player's MotionMaster heads from the position to the
   * position plus that offset. Vector2Distance is the `distance` parameter.
   */
  function HandleMove(g: GameState, args: seq<string>, parseFloat: string -> Option<real>,
                      distance: (Vector2, Vector2) -> real): (r: Handled)
    requires 0 < |g.scene.objects| && Live(g.scene.objects[0])
    requires forall a, b :: distance(a, b) >= 0.0
    ensures r.ok <==> |args| == 2 && parseFloat(args[0]).Some? && parseFloat(args[1]).Some?
    ensures !r.ok ==> r.game == g
    ensures |r.game.scene.objects| == |g.scene.objects|
    ensures r.ok ==> r.game == WithPlayer(g, g.scene.objects[0].(motion := r.game.scene.objects[0].motion))
    ensures r.ok ==>
      var player := g.scene.objects[0];
      var offset := Vector2(parseFloat(args[0]).value, parseFloat(args[1]).value);
      var m := r.game.scene.objects[0].motion;
      (offset == Origin ==> m == player.motion) &&
      (offset != Origin ==> m.isMoving && m.startPoint == player.position && m.endPoint == Add(player.position, offset))
    ensures Live(r.game.scene.objects[0])
  {
    if |args| != 2 then Handled(false, g)
    else
      var x, y := parseFloat(args[0]), parseFloat(args[1]);
      if x.None? || y.None? then Handled(false, g)
      else
        var player := g.scene.objects[0];
        var end := Add(player.position, Vector2(x.value, y.value));
        var motion := Motion.MoveToPoint(player.motion, player.position, end, distance(player.position, end));
        Handled(true, WithPlayer(g, player.(motion := motion)))
  }

  /** The path `save` and `load` use: the argument, or the last saved or loaded scene. */
  function CommandPath(g: GameState, args: seq<string>): string
    requires |args| <= 1
  {
    if |args| == 1 then args[0] else g.lastScene
  }

  datatype SaveHandled = SaveHandled(ok: bool, file: Option<seq<Token>>, game: GameState)

  /**
   * `save [path]` (main.cpp:597-608): at most one argument. The handler
   * reports success even when writing the file fails.
   */
  function HandleSave(g: GameState, args: seq<string>, written: bool): (r: SaveHandled)
    requires AllShaped(g.scene.objects)
    ensures r.ok <==> |args| <= 1
    ensures r.ok <==> r.file.Some?
    ensures !r.ok ==> r.game == g
    ensures r.ok ==> Header(r.file.value) == Decoded(|g.scene.objects|)
    ensures r.ok ==> r.game == (if written then g.(lastScene := Truncate(CommandPath(g, args), SceneNameSize)) else g)
  {
    if |args| > 1 then SaveHandled(false, None, g)
    else
      var saved := SaveScene(g, CommandPath(g, args), written);
      SaveHandled(true, Some(saved.file), saved.game)
  }

  /**
   * `load [path]` (main.cpp:609-620): at most one argument. The handler
   * reports success even when the load is refused. `files` gives what
   * reading each path produces.
   */
  function HandleLoad(g: GameState, args: seq<string>, files: string -> FileRead, cache: Assets.AssetCache): (r: Handled)
    ensures r.ok <==> |args| <= 1
    ensures !r.ok ==> r.game == g
    ensures r.ok ==> r.game == LoadScene(g, CommandPath(g, args), files(CommandPath(g, args)), cache)
  {
    if |args| > 1 then Handled(false, g)
    else
      var path := CommandPath(g, args);
      Handled(true, LoadScene(g, path, files(path), cache))
  }

  /** `tp` keeps the state valid. */
  lemma TeleportPreservesValid(g: GameState, args: seq<string>, parseFloat: string -> Option<real>)
    requires Valid(g)
    ensures Valid(HandleTeleport(g, args, parseFloat).game)
  {
    var tp := HandleTeleport(g, args, parseFloat);
    if tp.ok {
      WithPlayerPreservesValid(g, tp.game.scene.objects[0]);
    }
  }

  /** `move` keeps the state valid. */
  lemma MovePreservesValid(g: GameState, args: seq<string>, parseFloat: string -> Option<real>,
                           distance: (Vector2, Vector2) -> real)
    requires Valid(g)
    requires forall a, b :: distance(a, b) >= 0.0
    ensures Valid(HandleMove(g, args, parseFloat, distance).game)
  {
    var mv := HandleMove(g, args, parseFloat, distance);
    if mv.ok {
      assert Owned(mv.game.scene.objects[0]) == Owned(g.scene.objects[0]);
      WithPlayerPreservesValid(g, mv.game.scene.objects[0]);
    }
  }

  /** `dev`, `shake`, `save` and `load` keep the state valid. */
  lemma SettingsCommandsPreserveValid(g: GameState, args: seq<string>, parseFloat: string -> Option<real>,
                                      parseBool: string -> Option<bool>, frameTime: real, written: bool,
                                      files: string -> FileRead, cache: Assets.AssetCache)
    requires Valid(g) && Assets.CacheWellFormed(cache)
    ensures Valid(HandleDevMode(g, args, parseBool).game)
    ensures Valid(HandleShake(g, args, parseFloat, frameTime).game)
    ensures Valid(HandleSave(g, args, written).game)
    ensures Valid(HandleLoad(g, args, files, cache).game)
  {
    if |args| <= 1 {
      LoadPreservesValid(g, CommandPath(g, args), files(CommandPath(g, args)), cache);
    }
  }
}
