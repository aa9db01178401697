/**
 * Where an object stands and how the scene is layered: foot positions,
 * outlines, the z-sorted order and the picking queries built on it
 * (main.cpp:179-186, main.cpp:210-288).
 */
module ZOrder {
  import opened Wrappers
  import opened Geometry
  import opened Assets
  import opened Objects
  import opened Animation

  /** Y_SQUISH (main.cpp:13): world space flattens the vertical axis by half. */
  const YSquish := 0.5

  /** An object whose current texture can be looked up. */
  predicate Drawable(o: Object, mirror: Direction -> Direction)
  {
    Shaped(o) && ValidDirection(o) && FrameInRange(o, mirror)
  }

  predicate AllDrawable(objects: seq<Object>, mirror: Direction -> Direction)
  {
    forall i :: 0 <= i < |objects| ==> Drawable(objects[i], mirror)
  }

  /**
   * GetFootPositionInScreenSpace (main.cpp:210-219): half a texture below
   * the position, or the position itself when there is no texture.
   */
  function FootInScreenSpace(o: Object, mirror: Direction -> Direction): (r: Vector2)
    requires Drawable(o, mirror)
    ensures r.x == o.position.x
    ensures GetCurrentTexture(o, mirror).None? ==> r == o.position
    ensures GetCurrentTexture(o, mirror).Some? ==>
      r.y - o.position.y == GetCurrentTexture(o, mirror).value.height as real / 2.0
  {
    match GetCurrentTexture(o, mirror)
    case None => o.position
    case Some(texture) => Vector2(o.position.x, o.position.y + texture.height as real * 0.5)
  }

  /** GetFootPositionInWorldSpace (main.cpp:220-225). */
  function FootInWorldSpace(o: Object, mirror: Direction -> Direction): (r: Vector2)
    requires Drawable(o, mirror)
    ensures r.x == FootInScreenSpace(o, mirror).x
    ensures 2.0 * r.y == FootInScreenSpace(o, mirror).y
  {
    var foot := FootInScreenSpace(o, mirror);
    Vector2(foot.x, foot.y * YSquish)
  }

  /**
   * GetOutline (main.cpp:232-248): the current texture's rectangle centred
   * on the position, or the all-zero rectangle without a texture.
   */
  function Outline(o: Object, mirror: Direction -> Direction): (r: Rectangle)
    requires Drawable(o, mirror)
    ensures GetCurrentTexture(o, mirror).None? ==> r == EmptyRect
    ensures GetCurrentTexture(o, mirror).Some? ==>
      var texture := GetCurrentTexture(o, mirror).value;
      r.width == texture.width as real && r.height == texture.height as real &&
      r.x + r.width / 2.0 == o.position.x && r.y + r.height / 2.0 == o.position.y
  {
    match GetCurrentTexture(o, mirror)
    case None => EmptyRect
    case Some(texture) => CenteredRect(o.position, texture.width as real, texture.height as real)
  }

  /** The foot is the midpoint of the outline's bottom edge. */
  lemma FootIsOutlineBottomCenter(o: Object, mirror: Direction -> Direction)
    requires Drawable(o, mirror) && GetCurrentSprite(o, mirror).Some?
    ensures var outline := Outline(o, mirror);
      FootInScreenSpace(o, mirror) == Vector2(outline.x + outline.width / 2.0, outline.y + outline.height)
  {
  }

  /** An object without a texture cannot be hit: its outline contains no point. */
  lemma InvisibleIsUnpickable(o: Object, mirror: Direction -> Direction, p: Vector2)
    requires Drawable(o, mirror) && GetCurrentSprite(o, mirror).None?
    ensures !ContainsPoint(Outline(o, mirror), p)
  {
  }

  /** The key GetZSortedObjects orders by: screen-space foot height plus the z offset. */
  function ZKey(o: Object, mirror: Direction -> Direction): real
    requires Drawable(o, mirror)
  {
    FootInScreenSpace(o, mirror).y + o.zOffset
  }

  function Keys(objects: seq<Object>, mirror: Direction -> Direction): (keys: seq<real>)
    requires AllDrawable(objects, mirror)
    ensures |keys| == |objects|
    ensures forall i :: 0 <= i < |objects| ==> keys[i] == ZKey(objects[i], mirror)
  {
    seq(|objects|, i requires 0 <= i < |objects| => ZKey(objects[i], mirror))
  }

  /** The indices 0 .. n-1 in increasing order. */
  function Range(n: nat): (r: seq<nat>)
    ensures |r| == n && forall i :: 0 <= i < n ==> r[i] == i
  {
    seq(n, i => i)
  }

  predicate IndicesBelow(order: seq<nat>, n: nat)
  {
    forall k :: 0 <= k < |order| ==> order[k] < n
  }

  /** Frontmost first: keys never increase along `order`. */
  predicate Descending(keys: seq<real>, order: seq<nat>)
    requires IndicesBelow(order, |keys|)
  {
    forall a, b :: 0 <= a < b < |order| ==> keys[order[a]] >= keys[order[b]]
  }

  /**
   * Places index `x` into a descending order, after every entry whose key is
   * at least as large.
   */
  function Insert(keys: seq<real>, x: nat, order: seq<nat>): (r: seq<nat>)
    requires x < |keys| && IndicesBelow(order, |keys|) && Descending(keys, order)
    ensures IndicesBelow(r, |keys|) && Descending(keys, r)
    ensures multiset(r) == multiset(order) + multiset{x}
    decreases |order|
  {
    if |order| == 0 then [x]
    else if keys[order[0]] < keys[x] then
      PrependKeepsDescending(keys, x, order);
      [x] + order
    else
      var rest := Insert(keys, x, order[1..]);
      HeadDominates(keys, x, order, rest);
      PrependKeepsDescending(keys, order[0], rest);
      assert order == [order[0]] + order[1..];
      [order[0]] + rest
  }

  /** An index whose key bounds every key of a descending order can go in front of it. */
  lemma PrependKeepsDescending(keys: seq<real>, h: nat, rest: seq<nat>)
    requires h < |keys| && IndicesBelow(rest, |keys|) && Descending(keys, rest)
    requires forall k :: 0 <= k < |rest| ==> keys[h] >= keys[rest[k]]
    ensures IndicesBelow([h] + rest, |keys|) && Descending(keys, [h] + rest)
  {
    var r := [h] + rest;
    forall a, b | 0 <= a < b < |r| ensures keys[r[a]] >= keys[r[b]] {
      assert r[b] == rest[b - 1];
      if a > 0 {
        assert r[a] == rest[a - 1];
      }
    }
  }

  lemma HeadDominates(keys: seq<real>, x: nat, order: seq<nat>, rest: seq<nat>)
    requires x < |keys| && 0 < |order| && IndicesBelow(order, |keys|) && Descending(keys, order)
    requires keys[order[0]] >= keys[x] && IndicesBelow(rest, |keys|)
    requires multiset(rest) == multiset(order[1..]) + multiset{x}
    ensures forall k :: 0 <= k < |rest| ==> keys[order[0]] >= keys[rest[k]]
  {
    forall k | 0 <= k < |rest| ensures keys[order[0]] >= keys[rest[k]] {
      var e := rest[k];
      assert e in multiset(rest);
      if e != x {
        assert e in multiset(order[1..]);
        var j :| 0 <= j < |order[1..]| && order[1..][j] == e;
        assert order[j + 1] == e;
      }
    }
  }

  /** The first `n` indices sorted frontmost first, by insertion. */
  function SortIndices(keys: seq<real>, n: nat): (r: seq<nat>)
    requires n <= |keys|
    ensures IndicesBelow(r, |keys|) && Descending(keys, r)
    ensures multiset(r) == multiset(Range(n))
    decreases n
  {
    if n == 0 then []
    else
      assert Range(n) == Range(n - 1) + [n - 1];
      Insert(keys, n - 1, SortIndices(keys, n - 1))
  }

  /**
   * GetZSortedObjects (main.cpp:249-268), as indices into the table: a
   * permutation of every live row, frontmost (largest key) first.
   */
  function ZSort(objects: seq<Object>, mirror: Direction -> Direction): (order: seq<nat>)
    requires AllDrawable(objects, mirror)
    ensures multiset(order) == multiset(Range(|objects|))
    ensures IndicesBelow(order, |objects|) && Descending(Keys(objects, mirror), order)
  {
    SortIndices(Keys(objects, mirror), |objects|)
  }

  lemma {:induction false} RangeHasEachOnce(n: nat, v: nat)
    ensures multiset(Range(n))[v] == if v < n then 1 else 0
    decreases n
  {
    if n > 0 {
      assert Range(n) == Range(n - 1) + [n - 1];
      RangeHasEachOnce(n - 1, v);
    }
  }

  lemma RepeatCountsTwice(s: seq<nat>, a: nat, b: nat)
    requires a < b < |s| && s[a] == s[b]
    ensures multiset(s)[s[a]] >= 2
  {
    assert s == s[..b] + [s[b]] + s[b + 1..];
    assert s[..b][a] == s[a];
    assert s[a] in multiset(s[..b]);
  }

  /** Every row appears in the z-sorted order, exactly once. */
  lemma ZSortIsPermutation(objects: seq<Object>, mirror: Direction -> Direction)
    requires AllDrawable(objects, mirror)
    ensures var order := ZSort(objects, mirror);
      |order| == |objects| &&
      (forall i :: 0 <= i < |objects| ==> i in order) &&
      (forall a, b :: 0 <= a < b < |order| ==> order[a] != order[b])
  {
    var order := ZSort(objects, mirror);
    var n := |objects|;
    assert |order| == |multiset(order)| == |multiset(Range(n))| == n;
    forall i | 0 <= i < n ensures i in order {
      RangeHasEachOnce(n, i);
      assert i in multiset(order);
    }
    forall a, b | 0 <= a < b < |order| ensures order[a] != order[b] {
      RangeHasEachOnce(n, order[a]);
      if order[a] == order[b] {
        RepeatCountsTwice(order, a, b);
      }
    }
  }

  predicate Hit(objects: seq<Object>, mirror: Direction -> Direction, i: nat, p: Vector2)
    requires AllDrawable(objects, mirror) && i < |objects|
  {
    ContainsPoint(Outline(objects[i], mirror), p)
  }

  /**
   * FindObjectAtPosition (main.cpp:269-288): the first row in z-sorted order
   * whose outline contains the point. Nothing is found exactly when no row
   * is hit; what is found is hit, has no hit before it in that order, and so
   * is frontmost among all hits.
   */
  method FindObjectAtPosition(objects: seq<Object>, mirror: Direction -> Direction, p: Vector2)
    returns (r: Option<nat>)
    requires AllDrawable(objects, mirror)
    ensures r.None? <==> forall i :: 0 <= i < |objects| ==> !Hit(objects, mirror, i, p)
    ensures r.Some? ==> r.value < |objects| && Hit(objects, mirror, r.value, p)
    ensures r.Some? ==> exists k :: 0 <= k < |ZSort(objects, mirror)| && ZSort(objects, mirror)[k] == r.value &&
                                 forall j :: 0 <= j < k ==> !Hit(objects, mirror, ZSort(objects, mirror)[j], p)
    ensures r.Some? ==> forall i :: 0 <= i < |objects| && Hit(objects, mirror, i, p) ==>
      ZKey(objects[i], mirror) <= ZKey(objects[r.value], mirror)
  {
    var order := ZSort(objects, mirror);
    ZSortIsPermutation(objects, mirror);
    var k := 0;
    while k < |order|
      invariant 0 <= k <= |order|
      invariant forall j :: 0 <= j < k ==> !Hit(objects, mirror, order[j], p)
    {
      if Hit(objects, mirror, order[k], p) {
        FirstHitIsFrontmost(objects, mirror, p, k);
        return Some(order[k]);
      }
      k := k + 1;
    }
    forall i | 0 <= i < |objects| ensures !Hit(objects, mirror, i, p) {
      var m := PositionOf(order, i);
    }
    return None;
  }

  /** Where a value that occurs in a sequence sits. */
  lemma PositionOf(s: seq<nat>, v: nat) returns (m: nat)
    requires v in s
    ensures m < |s| && s[m] == v
  {
    m :| 0 <= m < |s| && s[m] == v;
  }

  /**
   * In z-sorted order, a hit with no hit before it has a key at least that of
   * every hit: every other hit comes after it.
   */
  lemma FirstHitIsFrontmost(objects: seq<Object>, mirror: Direction -> Direction, p: Vector2, k: nat)
    requires AllDrawable(objects, mirror)
    requires k < |ZSort(objects, mirror)|
    requires forall j :: 0 <= j < k ==> !Hit(objects, mirror, ZSort(objects, mirror)[j], p)
    ensures forall i :: 0 <= i < |objects| && Hit(objects, mirror, i, p) ==>
      ZKey(objects[i], mirror) <= ZKey(objects[ZSort(objects, mirror)[k]], mirror)
  {
    var order := ZSort(objects, mirror);
    var keys := Keys(objects, mirror);
    ZSortIsPermutation(objects, mirror);
    forall i | 0 <= i < |objects| && Hit(objects, mirror, i, p)
      ensures ZKey(objects[i], mirror) <= ZKey(objects[order[k]], mirror)
    {
      var m := PositionOf(order, i);
      if m != k {
        assert keys[order[k]] >= keys[order[m]];
      }
    }
  }

  /** ASCII lower-casing, taken as the folding StringsEqualNocase applies. */
  function Lower(c: char): (r: char)
    ensures 'A' <= c <= 'Z' ==> 'a' <= r <= 'z' && r as int - c as int == 32
    ensures !('A' <= c <= 'Z') ==> r == c
  {
    if 'A' <= c <= 'Z' then (c as int + 32) as char else c
  }

  /**
   * StringsEqualNocase, whose source is not part of this model: equal length
   * and equal characters after ASCII lower-casing.
   */
  predicate EqualNocase(a: string, b: string)
  {
    |a| == |b| && forall i :: 0 <= i < |a| ==> Lower(a[i]) == Lower(b[i])
  }

  /** Case-insensitive equality is an equivalence relation. */
  lemma EqualNocaseIsEquivalence(a: string, b: string, c: string)
    ensures EqualNocase(a, a)
    ensures EqualNocase(a, b) ==> EqualNocase(b, a)
    ensures EqualNocase(a, b) && EqualNocase(b, c) ==> EqualNocase(a, c)
  {
  }

  /**
   * FindObjectByName (main.cpp:179-186): the first live row whose name
   * matches case-insensitively, or nothing when none does.
   */
  method FindObjectByName(objects: seq<Object>, name: string) returns (r: Option<nat>)
    ensures r.None? <==> forall i :: 0 <= i < |objects| ==> !EqualNocase(objects[i].name, name)
    ensures r.Some? ==> r.value < |objects| && EqualNocase(objects[r.value].name, name)
    ensures r.Some? ==> forall i :: 0 <= i < r.value ==> !EqualNocase(objects[i].name, name)
  {
    var i := 0;
    while i < |objects|
      invariant 0 <= i <= |objects|
      invariant forall j :: 0 <= j < i ==> !EqualNocase(objects[j].name, name)
    {
      if EqualNocase(objects[i].name, name) {
        return Some(i);
      }
      i := i + 1;
    }
    return None;
  }
}
