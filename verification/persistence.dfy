/**
 * SaveScene and LoadScene against the game state (main.cpp:378-483). The
 * file system is not part of this model: a load is given what reading the
 * file produced, a save reports whether writing succeeded.
 */
module Persistence {
  import opened Assets
  import opened Objects
  import opened SceneTable
  import opened Codec
  import opened Game

  /** The outcome of LoadFileData: no such file, a failed read, or the file's tokens. */
  datatype FileRead = Missing | Unreadable | Contents(tokens: seq<Token>)

  /** What SaveScene hands to SaveFileData, and the state afterwards. */
  datatype Saved = Saved(file: seq<Token>, game: GameState)

  /**
   * LoadScene (main.cpp:379-444), with the corrected parse. A missing or
   * unreadable file and every rejected stream leave the state as it was; a
   * stream that parses releases every live row's references, installs the
   * loaded rows and their references, and remembers the path.
   */
  function LoadScene(g: GameState, path: string, file: FileRead, cache: AssetCache): (r: GameState)
    ensures !file.Contents? ==> r == g
    ensures file.Contents? && Decode(file.tokens, cache).Failed? ==> r == g
    ensures file.Contents? && Decode(file.tokens, cache).Decoded? ==>
      && r.scene.objects == Decode(file.tokens, cache).value
      && r.lastScene == Truncate(path, SceneNameSize)
      && r.devMode == g.devMode && r.shake == g.shake
    ensures file.Contents? && Decode(file.tokens, cache).Decoded? && TableOwned(g.scene.objects) <= g.scene.held ==>
      r.scene.held + TableOwned(g.scene.objects) == g.scene.held + TableOwned(r.scene.objects)
  {
    match file
    case Contents(ts) =>
      (match Decode(ts, cache)
       case Decoded(objects) =>
         SwapRestores(g.scene.held, TableOwned(g.scene.objects), TableOwned(objects));
         g.(scene := Scene(objects, g.scene.held - TableOwned(g.scene.objects) + TableOwned(objects)),
            lastScene := Truncate(path, SceneNameSize))
       case Failed(_) => g)
    case _ => g
  }

  /** Taking `a` out of `h` and putting `b` in is undone by adding `a` back, when `h` held `a`. */
  lemma SwapRestores(h: multiset<string>, a: multiset<string>, b: multiset<string>)
    ensures a <= h ==> h - a + b + a == h + b
  {
  }

  /**
   * SaveScene (main.cpp:445-483): the stream holds the header and every live
   * row; the path is remembered only when the write succeeds.
   */
  function SaveScene(g: GameState, path: string, written: bool): (r: Saved)
    requires AllShaped(g.scene.objects)
    ensures Header(r.file) == Decoded(|g.scene.objects|)
    ensures |r.file| == 3 + RecordSize * |g.scene.objects|
    ensures written ==> r.game == g.(lastScene := Truncate(path, SceneNameSize))
    ensures !written ==> r.game == g
  {
    var file := Encode(g.scene.objects);
    assert file[..3] == [Bytes(Magic), Int(Version), Int(|g.scene.objects|)];
    Saved(file, if written then g.(lastScene := Truncate(path, SceneNameSize)) else g)
  }

  /** A stream that is not a scene file, or has another version, leaves the table untouched. */
  lemma ForeignFileLeavesStateAlone(g: GameState, path: string, ts: seq<Token>, cache: AssetCache)
    requires |ts| == 0 || ts[0] != Bytes(Magic) || (|ts| >= 2 && ts[1].Int? && ts[1].i != Version)
    ensures LoadScene(g, path, Contents(ts), cache) == g
  {
  }

  /** An accepted record from a well-formed cache is a live entity. */
  lemma AcceptedIsLive(o: Object, cache: AssetCache)
    requires Accepted(o, cache) && CacheWellFormed(cache)
    ensures Live(o)
  {
    forall d | 0 <= d < |o.sprites| && o.sprites[d].Some?
      ensures SpriteWellFormed(o.sprites[d].value.data)
    {
      assert Reacquirable(cache.sprites, o.sprites[d]);
    }
    if o.collisionMap.Some? {
      assert Reacquirable(cache.images, o.collisionMap);
    }
  }

  /** Loading keeps the state valid, whatever the file holds. */
  lemma LoadPreservesValid(g: GameState, path: string, file: FileRead, cache: AssetCache)
    requires Valid(g) && CacheWellFormed(cache)
    ensures Valid(LoadScene(g, path, file, cache))
  {
    if file.Contents? && Decode(file.tokens, cache).Decoded? {
      var objects := Decode(file.tokens, cache).value;
      forall i | 0 <= i < |objects| ensures Live(objects[i]) {
        AcceptedIsLive(objects[i], cache);
      }
      LoadDecoded(g, path, file.tokens, cache, objects);
      InstallKeepsValid(g, path, objects);
    }
  }

  /** Installing live rows in place of the table, with the ledger swapped, keeps the state valid. */
  lemma InstallKeepsValid(g: GameState, path: string, objects: seq<Object>)
    requires Valid(g) && 0 < |objects| <= Capacity
    requires forall i :: 0 <= i < |objects| ==> Live(objects[i])
    ensures Valid(g.(scene := Scene(objects, g.scene.held - TableOwned(g.scene.objects) + TableOwned(objects)),
                     lastScene := Truncate(path, SceneNameSize)))
  {
    assert g.scene.held - TableOwned(g.scene.objects) == multiset{};
  }

  /**
   * Saving and loading the result back restores the table: same rows in the
   * same order, every field the file holds equal, the rest reset, and the
   * ledger exactly as before. This needs the cache to hand back the same
   * asset for each path and every name to fit its buffer.
   */
  lemma SaveThenLoadRestores(g: GameState, path: string, cache: AssetCache)
    requires Valid(g)
    requires forall i :: 0 <= i < |g.scene.objects| ==>
      CacheAgrees(cache, g.scene.objects[i]) && NamesFit(g.scene.objects[i])
    ensures var saved := SaveScene(g, path, true);
      var r := LoadScene(saved.game, path, Contents(saved.file), cache);
      && |r.scene.objects| == |g.scene.objects|
      && (forall i :: 0 <= i < |g.scene.objects| ==>
            r.scene.objects[i] == g.scene.objects[i].(animationTimeAccumulator := 0.0, animationFrame := 0,
              numExpressions := 0, motion := Blank().motion))
      && r.scene.held == g.scene.held
      && r.lastScene == Truncate(path, SceneNameSize)
  {
    var objects := g.scene.objects;
    var saved := SaveScene(g, path, true);
    var loaded := RestoredAll(Blank(), objects, cache);
    SavedFileDecodes(objects, cache);
    RestoredRowsKeepFields(objects, cache);
    LoadDecoded(saved.game, path, saved.file, cache, loaded);
  }

  lemma SavedFileDecodes(objects: seq<Object>, cache: AssetCache)
    requires 0 < |objects| <= Capacity && AllShaped(objects)
    requires forall i :: 0 <= i < |objects| ==> Live(objects[i])
    ensures Decode(Encode(objects), cache) == Decoded(RestoredAll(Blank(), objects, cache))
  {
    SaveLoadRoundTrip(objects, cache, []);
    assert Encode(objects) + [] == Encode(objects);
  }

  lemma LoadDecoded(g: GameState, path: string, ts: seq<Token>, cache: AssetCache, objects: seq<Object>)
    requires Decode(ts, cache) == Decoded(objects)
    ensures LoadScene(g, path, Contents(ts), cache) ==
      g.(scene := Scene(objects, g.scene.held - TableOwned(g.scene.objects) + TableOwned(objects)),
         lastScene := Truncate(path, SceneNameSize))
  {
  }

  lemma RestoredRowsKeepFields(objects: seq<Object>, cache: AssetCache)
    requires AllShaped(objects)
    requires forall i :: 0 <= i < |objects| ==> CacheAgrees(cache, objects[i]) && NamesFit(objects[i])
    ensures var loaded := RestoredAll(Blank(), objects, cache);
      && (forall i :: 0 <= i < |objects| ==>
            loaded[i] == objects[i].(animationTimeAccumulator := 0.0, animationFrame := 0,
              numExpressions := 0, motion := Blank().motion))
      && TableOwned(loaded) == TableOwned(objects)
  {
    var loaded := RestoredAll(Blank(), objects, cache);
    forall i | 0 <= i < |objects|
      ensures loaded[i] == objects[i].(animationTimeAccumulator := 0.0, animationFrame := 0,
        numExpressions := 0, motion := Blank().motion)
    {
      RestoredKeepsSavedFields(objects[i], cache);
    }
    TableOwnedPointwise(loaded, objects);
  }
}
