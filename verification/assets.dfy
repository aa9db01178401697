/**
 * Asset handles. The asset cache itself (AcquireSprite, ReleaseAsset,
 * GetAssetPath, ...) is external: the core only ever holds a handle that
 * carries the path it was acquired by, plus the data the cache returned.
 * A NULL handle is `None`.
 */
module Assets {
  import opened Wrappers

  /** Pixel size of a texture. */
  datatype Texture = Texture(width: int, height: int)

  /** An animated sprite: its frames in playback order (`numFrames` is `|frames|`). */
  datatype SpriteData = SpriteData(frames: seq<Texture>)

  /**
   * A collision-map image, reduced to what the collision test reads: its size
   * and the red channel of every pixel, `red[y][x]`.
   */
  datatype ImageData = ImageData(width: int, height: int, red: seq<seq<int>>)

  /** A dialogue script; its contents are consumed outside the modelled core. */
  datatype ScriptData = ScriptData(paragraphs: nat)

  datatype Handle<T> = Handle(path: string, data: T)

  /** A possibly-NULL handle. */
  type Ref<T> = Option<Handle<T>>

  /** GetAssetPath: the path a handle was acquired by; a NULL handle has the empty path. */
  function PathOf<T>(r: Ref<T>): string
  {
    match r
    case Some(h) => h.path
    case None => ""
  }

  /**
   * The external asset cache, one lookup per asset kind. A lookup yields
   * `None` when the cache cannot provide an asset for the path.
   */
  datatype AssetCache = AssetCache(
    scripts: string -> Option<ScriptData>,
    images: string -> Option<ImageData>,
    sprites: string -> Option<SpriteData>,
    textures: string -> Option<Texture>)

  /** Acquire<Kind>(path): a handle carrying `path` and the cache's data, or NULL. */
  function Acquire<T>(lookup: string -> Option<T>, path: string): (r: Ref<T>)
    ensures r.Some? <==> lookup(path).Some?
    ensures r.Some? ==> r.value.path == path && r.value.data == lookup(path).value
  {
    match lookup(path)
    case Some(d) => Some(Handle(path, d))
    case None => None
  }

  /** The multiset of paths a handle holds a reference on: one for a live handle, none for NULL. */
  function HeldPath<T>(r: Ref<T>): multiset<string>
  {
    match r
    case Some(h) => multiset{h.path}
    case None => multiset{}
  }

  /** The references held by a sequence of handles. */
  function HeldPaths<T>(rs: seq<Ref<T>>): multiset<string>
  {
    if rs == [] then multiset{} else HeldPath(rs[0]) + HeldPaths(rs[1..])
  }

  /** A handle is what re-acquiring its own path from the cache would give back. */
  ghost predicate Reacquirable<T>(lookup: string -> Option<T>, r: Ref<T>)
  {
    Acquire(lookup, PathOf(r)) == r
  }

  /**
   * What the model assumes of the external cache: the empty path, which
   * GetAssetPath gives for NULL, never yields an asset.
   */
  predicate EmptyPathMisses(cache: AssetCache)
  {
    cache.scripts("").None? && cache.images("").None? && cache.sprites("").None? && cache.textures("").None?
  }

  /** Where the empty path misses, an acquired handle is what re-acquiring its path gives. */
  lemma AcquiredIsReacquirable<T>(lookup: string -> Option<T>, path: string)
    requires lookup("").None?
    ensures Reacquirable(lookup, Acquire(lookup, path))
  {
  }

  /** A well-formed collision map: a `height` x `width` grid of 8-bit red values. */
  predicate ImageWellFormed(img: ImageData)
  {
    && img.width >= 0 && img.height >= 0
    && |img.red| == img.height
    && (forall y :: 0 <= y < |img.red| ==> |img.red[y]| == img.width)
  }

  /** A well-formed sprite has at least one frame. */
  predicate SpriteWellFormed(s: SpriteData)
  {
    |s.frames| > 0
  }

  /** A cache that only hands out well-formed images and sprites. */
  ghost predicate CacheWellFormed(cache: AssetCache)
  {
    && EmptyPathMisses(cache)
    && (forall p :: cache.images(p).Some? ==> ImageWellFormed(cache.images(p).value))
    && (forall p :: cache.sprites(p).Some? ==> SpriteWellFormed(cache.sprites(p).value))
  }

  lemma {:induction false} HeldPathsAppend<T>(a: seq<Ref<T>>, b: seq<Ref<T>>)
    ensures HeldPaths(a + b) == HeldPaths(a) + HeldPaths(b)
  {
    if a == [] {
      assert a + b == b;
    } else {
      assert (a + b)[1..] == a[1..] + b;
      HeldPathsAppend(a[1..], b);
    }
  }
}
