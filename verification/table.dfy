/**
 * The object table and the editor's row operations on it (main.cpp:123-125,
 * main.cpp:320-339, main.cpp:903-986): delete, clone and add, together with
 * the ledger of asset references the table holds.
 */
module SceneTable {
  import opened Assets
  import opened Objects

  /**
   * The live rows `objects[0 .. numObjects)`, the player always first, and
   * the multiset of asset paths currently acquired on the table's behalf.
   */
  datatype Scene = Scene(objects: seq<Object>, held: multiset<string>)

  /** Every reference the live rows own, row by row. */
  function TableOwned(objects: seq<Object>): multiset<string>
    decreases |objects|
  {
    if |objects| == 0 then multiset{} else TableOwned(objects[..|objects| - 1]) + Owned(objects[|objects| - 1])
  }

  lemma {:induction false} TableOwnedAppend(a: seq<Object>, b: seq<Object>)
    ensures TableOwned(a + b) == TableOwned(a) + TableOwned(b)
    decreases |b|
  {
    if |b| > 0 {
      assert (a + b)[..|a + b| - 1] == a + b[..|b| - 1];
      TableOwnedAppend(a, b[..|b| - 1]);
    } else {
      assert a + b == a;
    }
  }

  /** Rows that own the same references, row for row, own the same references in total. */
  lemma {:induction false} TableOwnedPointwise(a: seq<Object>, b: seq<Object>)
    requires |a| == |b| && forall k :: 0 <= k < |a| ==> Owned(a[k]) == Owned(b[k])
    ensures TableOwned(a) == TableOwned(b)
    decreases |a|
  {
    if |a| > 0 {
      TableOwnedPointwise(a[..|a| - 1], b[..|b| - 1]);
    }
  }

  lemma TableOwnedSingle(o: Object)
    ensures TableOwned([o]) == Owned(o)
  {
    assert [o][..0] == [];
  }

  lemma {:induction false} TableOwnedSplit(objects: seq<Object>, i: nat)
    requires i < |objects|
    ensures TableOwned(objects) == TableOwned(objects[..i]) + Owned(objects[i]) + TableOwned(objects[i + 1..])
  {
    var front, back := objects[..i + 1], objects[i + 1..];
    assert front + back == objects;
    TableOwnedAppend(front, back);
    assert front[..i] == objects[..i];
  }

  /** The ledger holds exactly what the live rows own: nothing leaked, nothing over-released. */
  predicate Balanced(s: Scene)
  {
    s.held == TableOwned(s.objects)
  }

  /** The table never exceeds `objects[100]`. */
  predicate WithinCapacity(s: Scene)
  {
    |s.objects| <= Capacity
  }

  /**
   * The delete button and the Delete key (main.cpp:911-931): row 0, the
   * player, is never deleted; any other row is destroyed, releasing what it
   * owns, and the rows after it move down one place.
   */
  function DeleteRow(s: Scene, i: nat): (r: Scene)
    requires i < |s.objects|
    ensures i == 0 ==> r == s
    ensures i > 0 ==> |r.objects| == |s.objects| - 1
    ensures i > 0 ==> forall j :: 0 <= j < i ==> r.objects[j] == s.objects[j]
    ensures i > 0 ==> forall j :: i <= j < |r.objects| ==> r.objects[j] == s.objects[j + 1]
    ensures i > 0 ==> r.held + Owned(s.objects[i]) == s.held || !(Owned(s.objects[i]) <= s.held)
  {
    if i == 0 then s
    else Scene(s.objects[..i] + s.objects[i + 1..], s.held - Owned(s.objects[i]))
  }

  /**
   * The clone button (main.cpp:941-954) with Clone (main.cpp:320-329): below
   * capacity, the rows after `i` move up one place and an exact copy of row
   * `i`, name included, takes slot `i + 1`, acquiring one more reference to
   * everything row `i` owns. At capacity nothing happens.
   */
  function CloneRow(s: Scene, i: nat): (r: Scene)
    requires i < |s.objects|
    ensures |s.objects| >= Capacity ==> r == s
    ensures |s.objects| < Capacity ==>
      && |r.objects| == |s.objects| + 1
      && (forall j :: 0 <= j <= i ==> r.objects[j] == s.objects[j])
      && r.objects[i + 1] == s.objects[i]
      && (forall j :: i + 1 <= j < |s.objects| ==> r.objects[j + 1] == s.objects[j])
      && r.held == s.held + Owned(s.objects[i])
  {
    if |s.objects| >= Capacity then s
    else Scene(s.objects[..i + 1] + [s.objects[i]] + s.objects[i + 1..], s.held + Owned(s.objects[i]))
  }

  /**
   * The delete button as written: Destroy gives back only the counted
   * references of row `i` (Objects.CountedReferences).
   */
  function DeleteRowAsWritten(s: Scene, i: nat): (r: Scene)
    requires i < |s.objects| && 0 <= s.objects[i].numExpressions <= |s.objects[i].expressions|
    ensures i == 0 ==> r == s
    ensures i > 0 ==> r.objects == DeleteRow(s, i).objects
  {
    if i == 0 then s
    else Scene(s.objects[..i] + s.objects[i + 1..], s.held - CountedReferences(s.objects[i]))
  }

  /**
   * The clone button as written: CopyBytes copies every portrait handle of
   * row `i`, but Clone re-acquires only the counted references.
   */
  function CloneRowAsWritten(s: Scene, i: nat): (r: Scene)
    requires i < |s.objects| && 0 <= s.objects[i].numExpressions <= |s.objects[i].expressions|
    ensures |s.objects| >= Capacity ==> r == s
    ensures |s.objects| < Capacity ==> r.objects == CloneRow(s, i).objects
  {
    if |s.objects| >= Capacity then s
    else Scene(s.objects[..i + 1] + [s.objects[i]] + s.objects[i + 1..], s.held + CountedReferences(s.objects[i]))
  }

  /**
   * A loaded row (`numExpressions` 0, a portrait in slot 0) deleted as
   * written leaves that portrait in the ledger although no row owns it
   * any more: the ledger is out of balance.
   */
  lemma DeleteAsWrittenLeaks(s: Scene, i: nat)
    requires Balanced(s) && 0 < i < |s.objects| && Shaped(s.objects[i])
    requires s.objects[i].numExpressions == 0 && s.objects[i].expressions[0].portrait.Some?
    ensures !Balanced(DeleteRowAsWritten(s, i))
  {
    var o := s.objects[i];
    var p := o.expressions[0].portrait.value.path;
    var before, after := s.objects[..i], s.objects[i + 1..];
    LoadedPortraitOutlivesDestroy(o);
    DestroyAsWrittenMissesTail(o);
    TableOwnedSplit(s.objects, i);
    TableOwnedAppend(before, after);
    assert CountedReferences(o)[p] < Owned(o)[p];
    assert (s.held - CountedReferences(o))[p] > TableOwned(before + after)[p];
  }

  /**
   * The same row cloned as written: the copy owns the slot-0 portrait, but
   * the ledger gained no reference to it, so it is out of balance.
   */
  lemma CloneAsWrittenUnbalances(s: Scene, i: nat)
    requires Balanced(s) && i < |s.objects| < Capacity && Shaped(s.objects[i])
    requires s.objects[i].numExpressions == 0 && s.objects[i].expressions[0].portrait.Some?
    ensures !Balanced(CloneRowAsWritten(s, i))
  {
    var o := s.objects[i];
    var p := o.expressions[0].portrait.value.path;
    LoadedPortraitOutlivesDestroy(o);
    TableOwnedDuplicate(s.objects, i);
    assert (s.held + CountedReferences(o))[p] < (s.held + Owned(o))[p];
  }

  /** The decimal digits of `n`, as FormatString's `%d` writes a non-negative int. */
  function DecimalString(n: nat): (r: string)
    ensures |r| > 0
    ensures forall k :: 0 <= k < |r| ==> '0' <= r[k] <= '9'
    decreases n
  {
    var digit := ['0' + (n % 10) as char];
    if n < 10 then digit else DecimalString(n / 10) + digit
  }

  /** Reads a run of decimal digits back. */
  function ParseDecimal(s: string): int
    decreases |s|
  {
    if |s| == 0 then 0 else ParseDecimal(s[..|s| - 1]) * 10 + (s[|s| - 1] as int - '0' as int)
  }

  lemma {:induction false} DecimalStringRoundTrip(n: nat)
    ensures ParseDecimal(DecimalString(n)) == n
    decreases n
  {
    var r := DecimalString(n);
    if n >= 10 {
      DecimalStringRoundTrip(n / 10);
      assert r[..|r| - 1] == DecimalString(n / 10);
    } else {
      assert r[..|r| - 1] == [];
    }
  }

  /** The name the add button gives the new row: "Object" and the new count. */
  function NewObjectName(count: nat): string
  {
    "Object" + DecimalString(count)
  }

  /**
   * The count can be read back from the name, after the "Object" prefix, and
   * for any count the table can reach the name fits `char name[50]`, so
   * FormatString does not cut it.
   */
  lemma NewObjectNameParses(count: nat)
    requires count <= Capacity
    ensures var r := NewObjectName(count);
      |r| > 6 && r[..6] == "Object" && ParseDecimal(r[6..]) == count && |r| < NameSize
  {
    DecimalStringRoundTrip(count);
    DecimalStringLength(count);
    var r := NewObjectName(count);
    assert r[6..] == DecimalString(count);
  }

  lemma {:induction false} DecimalStringLength(n: nat)
    ensures n < 10 ==> |DecimalString(n)| == 1
    ensures n < 100 ==> |DecimalString(n)| <= 2
    ensures n < 1000 ==> |DecimalString(n)| <= 3
  {
    if n >= 10 {
      DecimalStringLength(n / 10);
    }
  }

  /**
   * The add button (main.cpp:980-986): below capacity, an empty record named
   * "Object<n>", n the new count, is appended; it owns nothing, so the ledger
   * is unchanged. The empty record keeps the MotionMaster defaults (see
   * Blank).
   */
  function AddRow(s: Scene): (r: Scene)
    ensures |s.objects| >= Capacity ==> r == s
    ensures |s.objects| < Capacity ==>
      && |r.objects| == |s.objects| + 1
      && r.objects[..|s.objects|] == s.objects
      && r.objects[|s.objects|] == Blank().(name := r.objects[|s.objects|].name)
      && r.objects[|s.objects|].name == NewObjectName(|s.objects| + 1)
      && r.held == s.held
  {
    if |s.objects| >= Capacity then s
    else Scene(s.objects + [Blank().(name := NewObjectName(|s.objects| + 1))], s.held)
  }

  /** Deleting a row gives back exactly what it owned: the ledger stays balanced. */
  lemma DeletePreservesBalance(s: Scene, i: nat)
    requires i < |s.objects| && Balanced(s)
    ensures Balanced(DeleteRow(s, i))
  {
    if i > 0 {
      var before, row, after := s.objects[..i], s.objects[i], s.objects[i + 1..];
      TableOwnedSplit(s.objects, i);
      TableOwnedAppend(before, after);
      RemoveMiddle(TableOwned(before), Owned(row), TableOwned(after));
      assert DeleteRow(s, i) == Scene(before + after, s.held - Owned(row));
    }
  }

  lemma RemoveMiddle(a: multiset<string>, b: multiset<string>, c: multiset<string>)
    ensures a + b + c - b == a + c
  {
  }

  /** Cloning a row acquires exactly what the copy owns: the ledger stays balanced. */
  lemma TableOwnedDuplicate(objects: seq<Object>, i: nat)
    requires i < |objects|
    ensures TableOwned(objects[..i + 1] + [objects[i]] + objects[i + 1..]) == TableOwned(objects) + Owned(objects[i])
  {
    var front, x, back := objects[..i + 1], objects[i], objects[i + 1..];
    assert objects == front + back;
    TableOwnedAppend(front, back);
    TableOwnedAppend(front + [x], back);
    TableOwnedAppend(front, [x]);
    TableOwnedSingle(x);
  }

  lemma ClonePreservesBalance(s: Scene, i: nat)
    requires i < |s.objects| && Balanced(s)
    ensures Balanced(CloneRow(s, i))
  {
    TableOwnedDuplicate(s.objects, i);
  }

  lemma AddPreservesBalance(s: Scene)
    requires Balanced(s)
    ensures Balanced(AddRow(s))
  {
    if |s.objects| < Capacity {
      var n := Blank().(name := NewObjectName(|s.objects| + 1));
      NamedBlankOwnsNothing(n.name);
      TableOwnedAppend(s.objects, [n]);
      TableOwnedSingle(n);
    }
  }

  /** No edit takes the table past capacity, and the player stays in row 0. */
  lemma EditsKeepShape(s: Scene, i: nat)
    requires i < |s.objects| && WithinCapacity(s)
    ensures WithinCapacity(DeleteRow(s, i)) && WithinCapacity(CloneRow(s, i)) && WithinCapacity(AddRow(s))
    ensures DeleteRow(s, i).objects[0] == s.objects[0]
    ensures CloneRow(s, i).objects[0] == s.objects[0]
    ensures AddRow(s).objects[0] == s.objects[0]
  {
  }

  /** Deleting the fresh copy undoes a clone, ledger included. */
  lemma DeleteUndoesClone(s: Scene, i: nat)
    requires i < |s.objects| < Capacity
    ensures DeleteRow(CloneRow(s, i), i + 1) == s
  {
    var c := CloneRow(s, i);
    assert c.objects[..i + 1] + c.objects[i + 2..] == s.objects;
    assert c.held - Owned(s.objects[i]) == s.held;
  }

  /** Deleting the last row undoes an add. */
  lemma DeleteUndoesAdd(s: Scene)
    requires 0 < |s.objects| < Capacity
    ensures DeleteRow(AddRow(s), |s.objects|) == s
  {
    var n := Blank().(name := NewObjectName(|s.objects| + 1));
    NamedBlankOwnsNothing(n.name);
    assert AddRow(s) == Scene(s.objects + [n], s.held);
    DeleteUndoesAppend(s, n);
  }

  lemma DeleteUndoesAppend(s: Scene, o: Object)
    requires 0 < |s.objects| && Owned(o) == multiset{}
    ensures DeleteRow(Scene(s.objects + [o], s.held), |s.objects|) == s
  {
    var grown := s.objects + [o];
    assert grown[..|s.objects|] + grown[|s.objects| + 1..] == s.objects;
  }
}
