/**
 * The scene file format of SaveScene and LoadScene (main.cpp:11-12,
 * main.cpp:397-477). BinaryStream is not part of this model, so a file is a
 * sequence of typed tokens, one per Write/Read call: raw bytes, an int, a
 * float or a string.
 */
module Codec {
  import opened Wrappers
  import opened Geometry
  import opened Assets
  import opened Objects

  datatype Token = Bytes(bytes: seq<int>) | Int(i: int) | Float(f: real) | Str(s: string)

  /** SCENE_MAGIC, the four bytes of "KEKW". */
  const Magic: seq<int> := [75, 69, 75, 87]
  /** SCENE_VERSION. */
  const Version := 2
  /** Tokens per object: name, four floats, direction, two paths, 8 sprite paths, 10 name/portrait pairs. */
  const RecordSize := 36

  /** Why a load was refused. */
  datatype Failure =
    | BadMagic
    | BadVersion(version: int)
    | Malformed
    | BadCount(count: int)
    | BadDirection(direction: int)
    | BadRate(fps: real)

  datatype Decoded<T> = Decoded(value: T) | Failed(why: Failure)

  /** The sprite paths, one per direction. */
  function SpriteTokens(sprites: seq<Ref<SpriteData>>): (ts: seq<Token>)
    ensures |ts| == |sprites|
    ensures forall d :: 0 <= d < |sprites| ==> ts[d] == Str(PathOf(sprites[d]))
  {
    seq(|sprites|, d requires 0 <= d < |sprites| => Str(PathOf(sprites[d])))
  }

  /** Token `k` of the expression run: slot `k / 2`'s name when `k` is even, its portrait path when odd. */
  function ExpressionToken(es: seq<Expression>, k: int): Token
    requires 0 <= k < 2 * |es|
  {
    HalfBelow(k, |es|);
    if k % 2 == 0 then Str(es[k / 2].name) else Str(PathOf(es[k / 2].portrait))
  }

  lemma HalfBelow(k: int, n: int)
    requires 0 <= k < 2 * n
    ensures 0 <= k / 2 < n
  {
  }

  lemma TokensOfSlots(es: seq<Expression>)
    ensures forall j :: 0 <= j < |es| ==>
      ExpressionToken(es, 2 * j) == Str(es[j].name) && ExpressionToken(es, 2 * j + 1) == Str(PathOf(es[j].portrait))
  {
    forall j | 0 <= j < |es|
      ensures ExpressionToken(es, 2 * j) == Str(es[j].name) && ExpressionToken(es, 2 * j + 1) == Str(PathOf(es[j].portrait))
    {
      assert (2 * j) % 2 == 0 && (2 * j) / 2 == j;
      assert (2 * j + 1) % 2 == 1 && (2 * j + 1) / 2 == j;
    }
  }

  /** Each expression slot as its name followed by its portrait path. */
  function ExpressionTokens(es: seq<Expression>): (ts: seq<Token>)
    ensures |ts| == 2 * |es|
    ensures forall j :: 0 <= j < |es| ==> ts[2 * j] == Str(es[j].name) && ts[2 * j + 1] == Str(PathOf(es[j].portrait))
  {
    TokensOfSlots(es);
    seq(2 * |es|, k requires 0 <= k < 2 * |es| => ExpressionToken(es, k))
  }

  /** One object as SaveScene writes it (main.cpp:461-476). */
  function EncodeObject(o: Object): (ts: seq<Token>)
    requires Shaped(o)
    ensures |ts| == RecordSize
  {
    [Str(o.name), Float(o.position.x), Float(o.position.y), Float(o.zOffset), Float(o.animationFps),
     Int(o.direction), Str(PathOf(o.script)), Str(PathOf(o.collisionMap))]
      + SpriteTokens(o.sprites) + ExpressionTokens(o.expressions)
  }

  predicate AllShaped(objects: seq<Object>)
  {
    forall i :: 0 <= i < |objects| ==> Shaped(objects[i])
  }

  function EncodeObjects(objects: seq<Object>): (ts: seq<Token>)
    requires AllShaped(objects)
    ensures |ts| == RecordSize * |objects|
  {
    if |objects| == 0 then [] else EncodeObject(objects[0]) + EncodeObjects(objects[1..])
  }

  /** SaveScene's stream (main.cpp:454-477): magic, version, count, then the objects. */
  function Encode(objects: seq<Object>): (ts: seq<Token>)
    requires AllShaped(objects)
    ensures |ts| == 3 + RecordSize * |objects|
    ensures ts[..3] == [Bytes(Magic), Int(Version), Int(|objects|)]
  {
    [Bytes(Magic), Int(Version), Int(|objects|)] + EncodeObjects(objects)
  }

  /** The token kinds of one record, in the order LoadScene reads them. */
  predicate RecordTyped(ts: seq<Token>)
  {
    && |ts| >= RecordSize
    && ts[0].Str? && ts[1].Float? && ts[2].Float? && ts[3].Float? && ts[4].Float? && ts[5].Int?
    && forall k :: 6 <= k < RecordSize ==> ts[k].Str?
  }

  /**
   * The body of LoadScene's loop (main.cpp:419-438) reading into `base`:
   * the fields the file holds are overwritten, names cut to their buffers
   * and every path re-acquired from the cache; all other fields keep
   * `base`'s values.
   */
  function Fill(base: Object, cache: AssetCache, name: string, position: Vector2, zOffset: real, fps: real,
                direction: int, scriptPath: string, mapPath: string, spritePaths: seq<string>,
                expressionNames: seq<string>, portraitPaths: seq<string>): (r: Object)
    requires |spritePaths| == DirectionCount
    requires |expressionNames| == |portraitPaths| == ExpressionCapacity
    ensures Shaped(r) && |r.name| < NameSize
    ensures forall j :: 0 <= j < ExpressionCapacity ==> |r.expressions[j].name| < ExpressionNameSize
    ensures r == base.(name := r.name, position := r.position, zOffset := r.zOffset, animationFps := r.animationFps,
      direction := r.direction, script := r.script, collisionMap := r.collisionMap, sprites := r.sprites,
      expressions := r.expressions)
  {
    base.(
      name := Truncate(name, NameSize),
      position := position,
      zOffset := zOffset,
      animationFps := fps,
      direction := direction,
      script := Acquire(cache.scripts, scriptPath),
      collisionMap := Acquire(cache.images, mapPath),
      sprites := seq(DirectionCount, d requires 0 <= d < DirectionCount => Acquire(cache.sprites, spritePaths[d])),
      expressions := seq(ExpressionCapacity, j requires 0 <= j < ExpressionCapacity =>
        Expression(Truncate(expressionNames[j], ExpressionNameSize), Acquire(cache.textures, portraitPaths[j]))))
  }

  /** One record of the stream read into `base`, or nothing when its tokens have the wrong kinds. */
  function ReadRecord(ts: seq<Token>, cache: AssetCache, base: Object): (r: Option<Object>)
    ensures r.Some? <==> RecordTyped(ts)
  {
    if !RecordTyped(ts) then None
    else Some(Fill(base, cache, ts[0].s, Vector2(ts[1].f, ts[2].f), ts[3].f, ts[4].f, ts[5].i, ts[6].s, ts[7].s,
      seq(DirectionCount, d requires 0 <= d < DirectionCount => ts[8 + d].s),
      seq(ExpressionCapacity, j requires 0 <= j < ExpressionCapacity => ts[16 + 2 * j].s),
      seq(ExpressionCapacity, j requires 0 <= j < ExpressionCapacity => ts[17 + 2 * j].s)))
  }

  /** Every handle of `o` is what the cache gives back for its path. */
  ghost predicate CacheAgrees(cache: AssetCache, o: Object)
    requires Shaped(o)
  {
    && Reacquirable(cache.scripts, o.script)
    && Reacquirable(cache.images, o.collisionMap)
    && (forall d :: 0 <= d < DirectionCount ==> Reacquirable(cache.sprites, o.sprites[d]))
    && (forall j :: 0 <= j < ExpressionCapacity ==> Reacquirable(cache.textures, o.expressions[j].portrait))
  }

  /** The fields the file does not hold, as a record read onto an empty record has them. */
  predicate FreshlyLoaded(o: Object)
  {
    o.animationTimeAccumulator == 0.0 && o.animationFrame == 0 && o.numExpressions == 0 && o.motion == Blank().motion
  }

  /** What every accepted record satisfies. */
  ghost predicate Accepted(o: Object, cache: AssetCache)
  {
    && Shaped(o) && ValidDirection(o) && o.animationFps >= 0.0 && FreshlyLoaded(o)
    && (EmptyPathMisses(cache) ==> CacheAgrees(cache, o))
  }

  lemma FilledFromCache(ts: seq<Token>, cache: AssetCache)
    requires RecordTyped(ts)
    ensures EmptyPathMisses(cache) ==> CacheAgrees(cache, ReadRecord(ts, cache, Blank()).value)
  {
    if !EmptyPathMisses(cache) {
      return;
    }
    var o := ReadRecord(ts, cache, Blank()).value;
    AcquiredIsReacquirable(cache.scripts, ts[6].s);
    AcquiredIsReacquirable(cache.images, ts[7].s);
    forall d | 0 <= d < DirectionCount ensures Reacquirable(cache.sprites, o.sprites[d]) {
      AcquiredIsReacquirable(cache.sprites, ts[8 + d].s);
    }
    forall j | 0 <= j < ExpressionCapacity ensures Reacquirable(cache.textures, o.expressions[j].portrait) {
      AcquiredIsReacquirable(cache.textures, ts[17 + 2 * j].s);
    }
  }

  /**
   * One record, checked: besides being well typed, its direction must index
   * the sprite array and its frame rate must not be negative.
   */
  function ParseObject(ts: seq<Token>, cache: AssetCache): (r: Decoded<Object>)
    ensures r.Decoded? <==>
      && ReadRecord(ts, cache, Blank()).Some?
      && ValidDirection(ReadRecord(ts, cache, Blank()).value)
      && ReadRecord(ts, cache, Blank()).value.animationFps >= 0.0
    ensures r.Decoded? ==> r.value == ReadRecord(ts, cache, Blank()).value && Accepted(r.value, cache)
  {
    match ReadRecord(ts, cache, Blank())
    case None => Failed(Malformed)
    case Some(o) =>
      FilledFromCache(ts, cache);
      if !ValidDirection(o) then Failed(BadDirection(o.direction))
      else if o.animationFps < 0.0 then Failed(BadRate(o.animationFps))
      else Decoded(o)
  }

  /** The tokens of record `i` in a run of records. */
  function Window(ts: seq<Token>, i: nat): (w: seq<Token>)
    requires RecordSize * (i + 1) <= |ts|
    ensures |w| == RecordSize
  {
    ts[RecordSize * i..RecordSize * (i + 1)]
  }

  /** Dropping the first record shifts every later record down one window. */
  lemma WindowsShift(ts: seq<Token>)
    requires RecordSize <= |ts|
    ensures Window(ts, 0) == ts[..RecordSize]
    ensures forall i: nat :: RecordSize * (i + 2) <= |ts| ==> Window(ts[RecordSize..], i) == Window(ts, i + 1)
  {
    forall i: nat | RecordSize * (i + 2) <= |ts| ensures Window(ts[RecordSize..], i) == Window(ts, i + 1) {
      var w, v := Window(ts[RecordSize..], i), Window(ts, i + 1);
      assert forall k :: 0 <= k < RecordSize ==> w[k] == ts[RecordSize * (i + 1) + k] == v[k];
    }
  }

  /** The stream holds `count` windows and each passes ParseObject. */
  predicate WindowsParse(ts: seq<Token>, count: nat, cache: AssetCache)
  {
    RecordSize * count <= |ts| && forall i :: 0 <= i < count ==> ParseObject(Window(ts, i), cache).Decoded?
  }

  /** Each record of `rs` is what ParseObject makes of its window. */
  predicate FromWindows(ts: seq<Token>, rs: seq<Object>, cache: AssetCache)
    requires WindowsParse(ts, |rs|, cache)
  {
    forall i :: 0 <= i < |rs| ==> rs[i] == ParseObject(Window(ts, i), cache).value
  }

  /** A failing first window fails the run. */
  lemma FirstWindowFails(ts: seq<Token>, count: nat, cache: AssetCache)
    requires 0 < count && RecordSize <= |ts| && ParseObject(ts[..RecordSize], cache).Failed?
    ensures !WindowsParse(ts, count, cache)
  {
    WindowsShift(ts);
  }

  /** With a good first window, the run parses exactly when the rest does, record by record. */
  lemma ConsWindows(ts: seq<Token>, count: nat, cache: AssetCache, o: Object, rest: seq<Object>)
    requires 0 < count && RecordSize <= |ts| && ParseObject(ts[..RecordSize], cache) == Decoded(o)
    ensures WindowsParse(ts[RecordSize..], count - 1, cache) <==> WindowsParse(ts, count, cache)
    ensures WindowsParse(ts[RecordSize..], count - 1, cache) && |rest| == count - 1 && FromWindows(ts[RecordSize..], rest, cache)
      ==> FromWindows(ts, [o] + rest, cache)
  {
    WindowsShift(ts);
    if WindowsParse(ts, count, cache) {
      forall i | 0 <= i < count - 1 ensures ParseObject(Window(ts[RecordSize..], i), cache).Decoded? {
        assert Window(ts[RecordSize..], i) == Window(ts, i + 1);
      }
    }
    if WindowsParse(ts[RecordSize..], count - 1, cache) {
      forall i | 1 <= i < count ensures ParseObject(Window(ts, i), cache).Decoded? {
        assert Window(ts, i) == Window(ts[RecordSize..], i - 1);
      }
    }
  }

  /**
   * The record loop of LoadScene (main.cpp:417-439) with every record checked:
   * `count` records are read exactly when the stream holds `count` windows of
   * RecordSize tokens and each of them passes ParseObject, and record `i` is
   * what ParseObject makes of window `i`.
   */
  function DecodeObjects(ts: seq<Token>, count: nat, cache: AssetCache): (r: Decoded<seq<Object>>)
    ensures r.Decoded? <==> WindowsParse(ts, count, cache)
    ensures r.Decoded? ==> |r.value| == count && |ts| >= RecordSize * count
    ensures r.Decoded? ==> FromWindows(ts, r.value, cache)
    ensures r.Decoded? ==> forall i :: 0 <= i < count ==> Accepted(r.value[i], cache)
    decreases count
  {
    if count == 0 then Decoded([])
    else if |ts| < RecordSize then Failed(Malformed)
    else match ParseObject(ts[..RecordSize], cache)
      case Failed(why) =>
        FirstWindowFails(ts, count, cache);
        Failed(why)
      case Decoded(o) =>
        match DecodeObjects(ts[RecordSize..], count - 1, cache)
        case Failed(why) =>
          ConsWindows(ts, count, cache, o, []);
          Failed(why)
        case Decoded(rest) =>
          ConsWindows(ts, count, cache, o, rest);
          Decoded([o] + rest)
  }

  /** The header checks LoadScene makes before it touches the table (main.cpp:397-414). */
  function Header(ts: seq<Token>): (r: Decoded<int>)
    ensures r.Decoded? <==> |ts| >= 3 && ts[0] == Bytes(Magic) && ts[1] == Int(Version) && ts[2].Int?
    ensures r.Decoded? ==> r.value == ts[2].i
    ensures r == Failed(BadMagic) <==> |ts| == 0 || ts[0] != Bytes(Magic)
    ensures |ts| >= 2 && ts[0] == Bytes(Magic) && ts[1].Int? && ts[1].i != Version ==> r == Failed(BadVersion(ts[1].i))
  {
    if |ts| == 0 || ts[0] != Bytes(Magic) then Failed(BadMagic)
    else if |ts| < 2 || !ts[1].Int? then Failed(Malformed)
    else if ts[1].i != Version then Failed(BadVersion(ts[1].i))
    else if |ts| < 3 || !ts[2].Int? then Failed(Malformed)
    else Decoded(ts[2].i)
  }

  /**
   * LoadScene's parse, corrected: the object count must fit the table and
   * leave row 0 for the player (between 1 and 100), and every record must
   * pass ParseObject. Tokens after the last record are
   * ignored, as the source ignores trailing bytes.
   */
  function Decode(ts: seq<Token>, cache: AssetCache): (r: Decoded<seq<Object>>)
    ensures r.Decoded? ==> Header(ts) == Decoded(|r.value|) && 0 < |r.value| <= Capacity
    ensures r.Decoded? ==> forall i :: 0 <= i < |r.value| ==> Accepted(r.value[i], cache)
    ensures Header(ts).Decoded? && !(0 < Header(ts).value <= Capacity) ==> r == Failed(BadCount(Header(ts).value))
    ensures Header(ts).Failed? ==> r == Failed(Header(ts).why)
    ensures Header(ts).Decoded? && 0 < Header(ts).value <= Capacity ==> r == DecodeObjects(ts[3..], Header(ts).value, cache)
  {
    match Header(ts)
    case Failed(why) => Failed(why)
    case Decoded(count) =>
      if !(0 < count <= Capacity) then Failed(BadCount(count))
      else DecodeObjects(ts[3..], count, cache)
  }

  /**
   * LoadScene's parse as written: the record loop reads into whatever
   * ZeroBytes left (main.cpp:413-414), accepts any direction and frame rate,
   * and `numObjects` takes the file's count unchecked (main.cpp:416), so a
   * negative count is stored as it is and a count above 100 reads past
   * `objects[100]`.
   */
  function DecodeObjectsAsWritten(ts: seq<Token>, count: nat, cache: AssetCache): (r: Decoded<seq<Object>>)
    ensures r.Decoded? ==> |r.value| == count
    decreases count
  {
    if count == 0 then Decoded([])
    else match ReadRecord(ts, cache, ZeroFilled())
      case None => Failed(Malformed)
      case Some(o) =>
        match DecodeObjectsAsWritten(ts[RecordSize..], count - 1, cache)
        case Failed(why) => Failed(why)
        case Decoded(rest) => Decoded([o] + rest)
  }

  function DecodeAsWritten(ts: seq<Token>, cache: AssetCache): (r: Decoded<(int, seq<Object>)>)
    ensures r.Decoded? ==> Header(ts) == Decoded(r.value.0)
    ensures r.Decoded? ==> |r.value.1| == if r.value.0 > 0 then r.value.0 else 0
  {
    match Header(ts)
    case Failed(why) => Failed(why)
    case Decoded(count) =>
      match DecodeObjectsAsWritten(ts[3..], if count > 0 then count else 0, cache)
      case Failed(why) => Failed(why)
      case Decoded(objects) => Decoded((count, objects))
  }

  /**
   * What a saved object comes back as when read into `base`: names cut to
   * their buffers, handles re-acquired by path, everything the file does not
   * hold (animation clock, frame, `numExpressions`, the MotionMaster) taken
   * from `base`.
   */
  function RestoredOnto(base: Object, o: Object, cache: AssetCache): (r: Object)
    requires Shaped(o)
    ensures Shaped(r)
  {
    Fill(base, cache, o.name, o.position, o.zOffset, o.animationFps, o.direction, PathOf(o.script), PathOf(o.collisionMap),
      seq(DirectionCount, d requires 0 <= d < DirectionCount => PathOf(o.sprites[d])),
      seq(ExpressionCapacity, j requires 0 <= j < ExpressionCapacity => o.expressions[j].name),
      seq(ExpressionCapacity, j requires 0 <= j < ExpressionCapacity => PathOf(o.expressions[j].portrait)))
  }

  /** Every object of a table restored onto `base`, in order. */
  function RestoredAll(base: Object, objects: seq<Object>, cache: AssetCache): (r: seq<Object>)
    requires AllShaped(objects)
    ensures |r| == |objects|
    ensures forall i :: 0 <= i < |objects| ==> r[i] == RestoredOnto(base, objects[i], cache)
  {
    if |objects| == 0 then [] else [RestoredOnto(base, objects[0], cache)] + RestoredAll(base, objects[1..], cache)
  }

  /** Where each field of an object sits in its encoded record. */
  lemma EncodedFields(o: Object, trailing: seq<Token>)
    requires Shaped(o)
    ensures var ts := EncodeObject(o) + trailing;
      && |ts| >= RecordSize
      && ts[..8] == [Str(o.name), Float(o.position.x), Float(o.position.y), Float(o.zOffset),
                     Float(o.animationFps), Int(o.direction), Str(PathOf(o.script)), Str(PathOf(o.collisionMap))]
      && (forall d :: 0 <= d < DirectionCount ==> ts[8 + d] == Str(PathOf(o.sprites[d])))
      && (forall j :: 0 <= j < ExpressionCapacity ==>
            ts[16 + 2 * j] == Str(o.expressions[j].name) && ts[17 + 2 * j] == Str(PathOf(o.expressions[j].portrait)))
  {
    var head := [Str(o.name), Float(o.position.x), Float(o.position.y), Float(o.zOffset),
                 Float(o.animationFps), Int(o.direction), Str(PathOf(o.script)), Str(PathOf(o.collisionMap))];
    var sp := SpriteTokens(o.sprites);
    var ex := ExpressionTokens(o.expressions);
    var ts := EncodeObject(o) + trailing;
    assert ts == head + sp + ex + trailing;
    forall d | 0 <= d < DirectionCount ensures ts[8 + d] == Str(PathOf(o.sprites[d])) {
      assert ts[8 + d] == sp[d];
    }
    forall j | 0 <= j < ExpressionCapacity
      ensures ts[16 + 2 * j] == Str(o.expressions[j].name) && ts[17 + 2 * j] == Str(PathOf(o.expressions[j].portrait))
    {
      assert ts[16 + 2 * j] == ex[2 * j];
      assert ts[17 + 2 * j] == ex[2 * j + 1];
    }
  }

  lemma EncodedRecordTyped(o: Object, trailing: seq<Token>)
    requires Shaped(o)
    ensures RecordTyped(EncodeObject(o) + trailing)
  {
    var ts := EncodeObject(o) + trailing;
    EncodedFields(o, trailing);
    assert ts[0] == ts[..8][0] && ts[5] == ts[..8][5] && ts[6] == ts[..8][6] && ts[7] == ts[..8][7];
    assert ts[1] == ts[..8][1] && ts[2] == ts[..8][2] && ts[3] == ts[..8][3] && ts[4] == ts[..8][4];
    forall k | 6 <= k < RecordSize ensures ts[k].Str? {
      if k < 8 {
        assert ts[k] == ts[..8][k];
      } else if k < 16 {
        assert ts[8 + (k - 8)].Str?;
      } else {
        var j := (k - 16) / 2;
        assert k == 16 + 2 * j || k == 17 + 2 * j;
      }
    }
  }

  /** Reading back one encoded record restores it onto the base record. */
  lemma ReadEncodedRecord(o: Object, cache: AssetCache, base: Object, trailing: seq<Token>)
    requires Shaped(o)
    ensures ReadRecord(EncodeObject(o) + trailing, cache, base) == Some(RestoredOnto(base, o, cache))
  {
    var ts := EncodeObject(o) + trailing;
    EncodedFields(o, trailing);
    EncodedRecordTyped(o, trailing);
    assert ts[0] == ts[..8][0] && ts[5] == ts[..8][5] && ts[6] == ts[..8][6] && ts[7] == ts[..8][7];
    assert ts[1] == ts[..8][1] && ts[2] == ts[..8][2] && ts[3] == ts[..8][3] && ts[4] == ts[..8][4];
    PathsReadBack(ts, o);
  }

  /** The path and name runs ReadRecord collects from an encoded record are the object's own. */
  lemma PathsReadBack(ts: seq<Token>, o: Object)
    requires Shaped(o) && RecordTyped(ts)
    requires forall d :: 0 <= d < DirectionCount ==> ts[8 + d] == Str(PathOf(o.sprites[d]))
    requires forall j :: 0 <= j < ExpressionCapacity ==>
      ts[16 + 2 * j] == Str(o.expressions[j].name) && ts[17 + 2 * j] == Str(PathOf(o.expressions[j].portrait))
    ensures seq(DirectionCount, d requires 0 <= d < DirectionCount => ts[8 + d].s)
         == seq(DirectionCount, d requires 0 <= d < DirectionCount => PathOf(o.sprites[d]))
    ensures seq(ExpressionCapacity, j requires 0 <= j < ExpressionCapacity => ts[16 + 2 * j].s)
         == seq(ExpressionCapacity, j requires 0 <= j < ExpressionCapacity => o.expressions[j].name)
    ensures seq(ExpressionCapacity, j requires 0 <= j < ExpressionCapacity => ts[17 + 2 * j].s)
         == seq(ExpressionCapacity, j requires 0 <= j < ExpressionCapacity => PathOf(o.expressions[j].portrait))
  {
  }

  lemma {:induction false} DecodeEncodedObjects(objects: seq<Object>, cache: AssetCache, trailing: seq<Token>)
    requires AllShaped(objects)
    requires forall i :: 0 <= i < |objects| ==> ValidDirection(objects[i]) && objects[i].animationFps >= 0.0
    ensures DecodeObjects(EncodeObjects(objects) + trailing, |objects|, cache) ==
      Decoded(RestoredAll(Blank(), objects, cache))
    decreases |objects|
  {
    if |objects| > 0 {
      var ts := EncodeObjects(objects) + trailing;
      var head := EncodeObject(objects[0]);
      var tail := EncodeObjects(objects[1..]) + trailing;
      assert ts == head + tail;
      assert ts[..RecordSize] == head + [];
      assert ts[RecordSize..] == tail;
      ReadEncodedRecord(objects[0], cache, Blank(), []);
      DecodeEncodedObjects(objects[1..], cache, trailing);
      var restored := RestoredAll(Blank(), objects, cache);
      var rest := RestoredAll(Blank(), objects[1..], cache);
      assert ReadRecord(ts[..RecordSize], cache, Blank()) == Some(restored[0]);
      assert restored[0].direction == objects[0].direction && restored[0].animationFps == objects[0].animationFps;
      assert ParseObject(ts[..RecordSize], cache) == Decoded(restored[0]);
      assert DecodeObjects(ts[RecordSize..], |objects| - 1, cache) == Decoded(rest);
      assert DecodeObjects(ts, |objects|, cache) == Decoded([restored[0]] + rest);
    } else {
      assert EncodeObjects(objects) + trailing == trailing;
    }
  }

  lemma {:induction false} DecodeEncodedObjectsAsWritten(objects: seq<Object>, cache: AssetCache, trailing: seq<Token>)
    requires AllShaped(objects)
    ensures DecodeObjectsAsWritten(EncodeObjects(objects) + trailing, |objects|, cache) ==
      Decoded(RestoredAll(ZeroFilled(), objects, cache))
    decreases |objects|
  {
    if |objects| > 0 {
      var ts := EncodeObjects(objects) + trailing;
      var tail := EncodeObjects(objects[1..]) + trailing;
      assert ts == EncodeObject(objects[0]) + tail;
      assert ts[RecordSize..] == tail;
      ReadEncodedRecord(objects[0], cache, ZeroFilled(), tail);
      DecodeEncodedObjectsAsWritten(objects[1..], cache, trailing);
      var restored := RestoredAll(ZeroFilled(), objects, cache);
      var rest := RestoredAll(ZeroFilled(), objects[1..], cache);
      assert ReadRecord(ts, cache, ZeroFilled()) == Some(restored[0]);
      assert DecodeObjectsAsWritten(ts[RecordSize..], |objects| - 1, cache) == Decoded(rest);
      assert DecodeObjectsAsWritten(ts, |objects|, cache) == Decoded([restored[0]] + rest);
    } else {
      assert EncodeObjects(objects) + trailing == trailing;
    }
  }

  /**
   * The round trip: loading what SaveScene wrote yields the same number of
   * objects, each restored in order onto an empty record, whatever follows
   * the last record.
   */
  lemma SaveLoadRoundTrip(objects: seq<Object>, cache: AssetCache, trailing: seq<Token>)
    requires 0 < |objects| <= Capacity && AllShaped(objects)
    requires forall i :: 0 <= i < |objects| ==> ValidDirection(objects[i]) && objects[i].animationFps >= 0.0
    ensures Decode(Encode(objects) + trailing, cache) ==
      Decoded(RestoredAll(Blank(), objects, cache))
  {
    var ts := Encode(objects) + trailing;
    assert ts[..3] == [Bytes(Magic), Int(Version), Int(|objects|)];
    assert ts[3..] == EncodeObjects(objects) + trailing;
    assert Header(ts) == Decoded(|objects|);
    DecodeEncodedObjects(objects, cache, trailing);
  }

  predicate NamesFit(o: Object)
    requires Shaped(o)
  {
    |o.name| < NameSize && forall j :: 0 <= j < ExpressionCapacity ==> |o.expressions[j].name| < ExpressionNameSize
  }

  /**
   * When the cache hands back the same assets for the same paths and every
   * name fits its buffer, a reloaded object equals the saved one except for
   * the fields the file does not hold: the animation clock and frame restart
   * at 0, `numExpressions` is 0 and the MotionMaster is idle.
   */
  lemma RestoredKeepsSavedFields(o: Object, cache: AssetCache)
    requires Shaped(o) && CacheAgrees(cache, o) && NamesFit(o)
    ensures RestoredOnto(Blank(), o, cache) ==
      o.(animationTimeAccumulator := 0.0, animationFrame := 0, numExpressions := 0, motion := Blank().motion)
  {
    var r := RestoredOnto(Blank(), o, cache);
    assert r.sprites == o.sprites;
    assert r.expressions == o.expressions;
  }

  /** A stream whose count is 101 and which holds 101 records. */
  function OverfullStream(): seq<Token>
  {
    [Bytes(Magic), Int(Version), Int(Capacity + 1)] + EncodeObjects(seq(Capacity + 1, _ => Blank()))
  }

  /**
   * As written, that stream is accepted and yields 101 records for a
   * 100-slot table; the corrected parse refuses it.
   */
  lemma OverfullCountAccepted(cache: AssetCache)
    ensures var r := DecodeAsWritten(OverfullStream(), cache);
      r.Decoded? && r.value.0 == Capacity + 1 && |r.value.1| > Capacity
    ensures Decode(OverfullStream(), cache) == Failed(BadCount(Capacity + 1))
  {
    var blanks := seq(Capacity + 1, _ => Blank());
    var ts := OverfullStream();
    assert ts[3..] == EncodeObjects(blanks) + [];
    DecodeEncodedObjectsAsWritten(blanks, cache, []);
  }

  /** As written, a count of -1 is stored in `numObjects`; the corrected parse refuses it. */
  lemma NegativeCountStored(cache: AssetCache)
    ensures DecodeAsWritten([Bytes(Magic), Int(Version), Int(-1)], cache) == Decoded((-1, []))
    ensures Decode([Bytes(Magic), Int(Version), Int(-1)], cache) == Failed(BadCount(-1))
  {
  }

  /**
   * As written, a record with direction 8 loads, and the object then indexes
   * `sprites[8]` of an 8-slot array; a negative frame rate loads too. The
   * corrected parse refuses both.
   */
  lemma OutOfRangeFieldsAccepted(cache: AssetCache)
    ensures var ts := [Bytes(Magic), Int(Version), Int(1)] + EncodeObject(Blank().(direction := DirectionCount));
      var r := DecodeAsWritten(ts, cache);
      r.Decoded? && |r.value.1| == 1 && r.value.1[0].direction == DirectionCount &&
      Decode(ts, cache) == Failed(BadDirection(DirectionCount))
    ensures var ts := [Bytes(Magic), Int(Version), Int(1)] + EncodeObject(Blank().(animationFps := -1.0));
      var r := DecodeAsWritten(ts, cache);
      r.Decoded? && |r.value.1| == 1 && r.value.1[0].animationFps == -1.0 &&
      Decode(ts, cache) == Failed(BadRate(-1.0))
  {
    var a := Blank().(direction := DirectionCount);
    var b := Blank().(animationFps := -1.0);
    var ta := [Bytes(Magic), Int(Version), Int(1)] + EncodeObject(a);
    var tb := [Bytes(Magic), Int(Version), Int(1)] + EncodeObject(b);
    assert ta[3..] == EncodeObject(a) + [];
    assert tb[3..] == EncodeObject(b) + [];
    assert ta[3..][..RecordSize] == EncodeObject(a) + [];
    assert tb[3..][..RecordSize] == EncodeObject(b) + [];
    ReadEncodedRecord(a, cache, ZeroFilled(), []);
    ReadEncodedRecord(b, cache, ZeroFilled(), []);
    ReadEncodedRecord(a, cache, Blank(), []);
    ReadEncodedRecord(b, cache, Blank(), []);
  }
}
