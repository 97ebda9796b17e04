/**
 * The bounded undo/redo stack. Both lists are ordered oldest first: index 0
 * is the oldest entry and the last element is the top. The class keeps the
 * two lists and the capacity as fields; each of its methods is specified by a
 * transition function on `Stacks`, the value of those three fields, and the
 * properties of the stack are proved about those functions.
 */
module UndoRedo {
  import opened Wrappers
  import opened ListOps

  const DefaultMaxStackSize := 20

  datatype Stacks<T> = Stacks(undo: seq<T>, redo: seq<T>, maxStackSize: int)

  /** Together the lists hold no more than the capacity. */
  predicate Bounded<T>(s: Stacks<T>) {
    |s.undo| + |s.redo| <= s.maxStackSize
  }

  /** `AddItem` does not throw: `RemoveAt(0)` is reached on an empty list only when the capacity is not positive. */
  predicate CanAdd<T>(s: Stacks<T>) {
    s.undo != [] || s.maxStackSize > 0
  }

  /**
   * `ListStackExtension.Pop`: returns the last element but removes, with
   * `IList.Remove`, the FIRST element equal to it.
   */
  function Pop<T(==)>(list: seq<T>): (r: (T, seq<T>))
    requires list != []
    ensures r.0 == Last(list)
    ensures |r.1| == |list| - 1
    ensures multiset(r.1) == multiset(list) - multiset{r.0}
    ensures Last(list) !in list[..|list| - 1] ==> r.1 == list[..|list| - 1]
  {
    assert Last(list) !in list[..|list| - 1] ==> RemoveFirst(list, Last(list)) == list[..|list| - 1] by {
      if Last(list) !in list[..|list| - 1] { RemoveFirstOfUniqueLast(list); }
    }
    (Last(list), RemoveFirst(list, Last(list)))
  }

  /** `Pop` on a list holding its top twice keeps the top copy and drops the older one. */
  lemma PopRemovesOldestCopy()
    ensures Pop([1, 2, 1]) == (1, [2, 1])
    ensures Pop([1, 2, 1]).1 != [1, 2]
  {
    assert Last([1, 2, 1]) == 1;
    assert RemoveFirst([1, 2, 1], 1) == [1, 2, 1][1..] == [2, 1];
  }

  /** `AddItem`: evict index 0 when the undo list is full, append, and clear the redo list. */
  function AfterAdd<T>(s: Stacks<T>, item: T): (r: Stacks<T>)
    requires CanAdd(s)
    ensures r.maxStackSize == s.maxStackSize
    ensures r.redo == []
    ensures r.undo != [] && Last(r.undo) == item
    ensures |s.undo| < s.maxStackSize ==> r.undo == s.undo + [item]
    ensures |s.undo| >= s.maxStackSize ==> r.undo == s.undo[1..] + [item]
    ensures |s.undo| <= s.maxStackSize ==> Bounded(r)
  {
    var kept := if |s.undo| >= s.maxStackSize then s.undo[1..] else s.undo;
    Stacks(kept + [item], [], s.maxStackSize)
  }

  /** `Undo`: move the top of the undo list onto the redo list and return it; none when empty. */
  function AfterUndo<T(==)>(s: Stacks<T>): (r: (Option<T>, Stacks<T>))
    ensures r.0.None? <==> s.undo == []
    ensures r.0.None? ==> r.1 == s
    ensures r.0.Some? ==> r.0.value == Last(s.undo) && r.1.redo == s.redo + [r.0.value]
    ensures r.0.Some? ==> |r.1.undo| == |s.undo| - 1 && multiset(r.1.undo) == multiset(s.undo) - multiset{r.0.value}
    ensures r.1.maxStackSize == s.maxStackSize
    ensures |r.1.undo| + |r.1.redo| == |s.undo| + |s.redo|
    ensures Bounded(s) ==> Bounded(r.1)
  {
    if s.undo == [] then (None, s)
    else
      var (item, rest) := Pop(s.undo);
      (Some(item), Stacks(rest, s.redo + [item], s.maxStackSize))
  }

  /** `Redo`: move the top of the redo list onto the undo list and return it; none when empty. */
  function AfterRedo<T(==)>(s: Stacks<T>): (r: (Option<T>, Stacks<T>))
    ensures r.0.None? <==> s.redo == []
    ensures r.0.None? ==> r.1 == s
    ensures r.0.Some? ==> r.0.value == Last(s.redo) && r.1.undo == s.undo + [r.0.value]
    ensures r.0.Some? ==> |r.1.redo| == |s.redo| - 1 && multiset(r.1.redo) == multiset(s.redo) - multiset{r.0.value}
    ensures r.1.maxStackSize == s.maxStackSize
    ensures |r.1.undo| + |r.1.redo| == |s.undo| + |s.redo|
    ensures Bounded(s) ==> Bounded(r.1)
  {
    if s.redo == [] then (None, s)
    else
      var (item, rest) := Pop(s.redo);
      (Some(item), Stacks(s.undo + [item], rest, s.maxStackSize))
  }

  /** `CleanUp`: for each given item, `Remove` it from the undo list and from the redo list. */
  function AfterCleanUp<T(==)>(s: Stacks<T>, items: seq<T>): (r: Stacks<T>)
    ensures r.maxStackSize == s.maxStackSize
  {
    Stacks(RemoveEach(s.undo, items), RemoveEach(s.redo, items), s.maxStackSize)
  }

  /**
   * `CleanUp` takes one copy of each given item off each list it is on; on a
   * list without duplicates exactly the other entries remain, in their order.
   * Only removing, it keeps the bound.
   */
  lemma CleanUpRemovesItems<T>(s: Stacks<T>, items: seq<T>)
    ensures var r := AfterCleanUp(s, items);
      multiset(r.undo) == multiset(s.undo) - multiset(items) &&
      multiset(r.redo) == multiset(s.redo) - multiset(items)
    ensures var r := AfterCleanUp(s, items);
      (Distinct(s.undo) ==> r.undo == Without(s.undo, items)) &&
      (Distinct(s.redo) ==> r.redo == Without(s.redo, items))
    ensures Bounded(s) ==> Bounded(AfterCleanUp(s, items))
  {
    RemoveEachMultiset(s.undo, items);
    RemoveEachMultiset(s.redo, items);
    if Distinct(s.undo) { RemoveEachIsWithout(s.undo, items); }
    if Distinct(s.redo) { RemoveEachIsWithout(s.redo, items); }
  }

  /** `Reset`: both lists emptied, the capacity kept. */
  function AfterReset<T>(s: Stacks<T>): (r: Stacks<T>)
    ensures r.undo == [] && r.redo == [] && r.maxStackSize == s.maxStackSize
    ensures s.maxStackSize >= 0 ==> Bounded(r)
  {
    Stacks([], [], s.maxStackSize)
  }

  /**
   * Undo followed by Redo gives back the same item and restores both lists,
   * provided the item on top of the undo list occurs nowhere else in either list.
   */
  lemma UndoRedoRoundTrip<T>(s: Stacks<T>)
    requires s.undo != []
    requires Last(s.undo) !in s.undo[..|s.undo| - 1] && Last(s.undo) !in s.redo
    ensures var (x, mid) := AfterUndo(s);
            x == Some(Last(s.undo)) && AfterRedo(mid) == (x, s)
  {
    var (x, mid) := AfterUndo(s);
    assert mid.redo == s.redo + [x.value];
    assert mid.redo[..|mid.redo| - 1] == s.redo;
    assert mid.undo + [x.value] == s.undo;
  }

  /** The round trip for lists that hold pairwise-distinct items. */
  lemma UndoRedoRoundTripDistinct<T>(s: Stacks<T>)
    requires s.undo != [] && Distinct(s.undo + s.redo)
    ensures var (x, mid) := AfterUndo(s);
            x == Some(Last(s.undo)) && AfterRedo(mid) == (x, s)
  {
    var all := s.undo + s.redo;
    var n := |s.undo| - 1;
    assert Last(s.undo) == all[n];
    forall k | 0 <= k < n ensures s.undo[..n][k] != Last(s.undo) {
      assert s.undo[..n][k] == all[k];
    }
    forall k | 0 <= k < |s.redo| ensures s.redo[k] != Last(s.undo) {
      assert s.redo[k] == all[n + 1 + k];
    }
    UndoRedoRoundTrip(s);
  }

  /** With the top duplicated lower down, Undo then Redo reorders the undo list. */
  lemma UndoRedoWithDuplicateTop()
    ensures var s := Stacks([1, 2, 1], [], DefaultMaxStackSize);
            AfterRedo(AfterUndo(s).1) == (Some(1), Stacks([2, 1, 1], [], DefaultMaxStackSize))
  {
    var s := Stacks([1, 2, 1], [], DefaultMaxStackSize);
    var mid := Stacks([2, 1], [1], DefaultMaxStackSize);
    PopRemovesOldestCopy();
    assert AfterUndo(s) == (Some(1), mid) by {
      assert s.redo + [1] == [1];
    }
    assert Pop([1]) == (1, []) by {
      assert RemoveFirst([1], 1) == [1][1..] == [];
    }
    SnocPair(2, 1, 1);
  }

  /** `AddItem` for each of `items` in order. */
  function AddAll<T>(s: Stacks<T>, items: seq<T>): (r: Stacks<T>)
    requires s.maxStackSize > 0
    ensures r.maxStackSize == s.maxStackSize
  {
    if items == [] then s else AfterAdd(AddAll(s, items[..|items| - 1]), Last(items))
  }

  /**
   * Adding items to a stack whose undo list fits its capacity leaves, on the undo
   * list, the newest `maxStackSize` entries of the old list followed by the items.
   */
  lemma {:induction false} AddAllKeepsNewest<T>(s: Stacks<T>, items: seq<T>)
    requires s.maxStackSize > 0 && |s.undo| <= s.maxStackSize
    ensures var all := s.undo + items;
            var drop := if |all| > s.maxStackSize then |all| - s.maxStackSize else 0;
            AddAll(s, items).undo == all[drop..]
  {
    if items != [] {
      var init, x := items[..|items| - 1], Last(items);
      AddAllKeepsNewest(s, init);
      var m := s.maxStackSize;
      var prev := s.undo + init;
      var all := s.undo + items;
      assert all == prev + [x];
      var before := AddAll(s, init).undo;
      var dropPrev := if |prev| > m then |prev| - m else 0;
      assert before == prev[dropPrev..];
      if |before| >= m {
        assert before[1..] + [x] == all[dropPrev + 1..];
      } else {
        assert before + [x] == all[dropPrev..];
      }
    }
  }

  /**
   * The capacity test: adding `maxStackSize + 10` distinct items 0, 1, 2, ...
   * to an empty stack keeps exactly the last `maxStackSize` of them, the oldest
   * kept one being item 10, and an undo then returns the last one added.
   */
  lemma StackSizeLimit(m: int)
    requires m > 0
    ensures var items := seq(m + 10, i => i);
            var s := AddAll(Stacks([], [], m), items);
            |s.undo| == m && s.undo[0] == 10 && AfterUndo(s).0 == Some(m + 9)
  {
    var items := seq(m + 10, i => i);
    AddAllKeepsNewest(Stacks([], [], m), items);
    assert ([] + items)[10..] == items[10..];
  }

  /** The `foreach` loop of `CleanUp`: each item in turn is removed from both lists. */
  method RemoveFromBoth<T(==)>(undoList: seq<T>, redoList: seq<T>, items: seq<T>) returns (u: seq<T>, r: seq<T>)
    ensures u == RemoveEach(undoList, items) && r == RemoveEach(redoList, items)
  {
    u, r := undoList, redoList;
    for i := 0 to |items|
      invariant u == RemoveEach(undoList, items[..i])
      invariant r == RemoveEach(redoList, items[..i])
    {
      RemoveEachStep(undoList, items, i);
      RemoveEachStep(redoList, items, i);
      u := RemoveFirst(u, items[i]);
      r := RemoveFirst(r, items[i]);
    }
    assert items[..|items|] == items;
  }

  /** The undo/redo stack over items of type `T`, compared by identity (equality). */
  class UndoRedoStack<T(==)> {
    var maxStackSize: int
    var undo: seq<T>
    var redo: seq<T>

    function View(): Stacks<T>
      reads this
    {
      Stacks(undo, redo, maxStackSize)
    }

    constructor ()
      ensures View() == Stacks([], [], DefaultMaxStackSize)
    {
      maxStackSize := DefaultMaxStackSize;
      undo := [];
      redo := [];
    }

    /** The `MaxStackSize` setter: the lists are left as they are. */
    method SetMaxStackSize(n: int)
      modifies this
      ensures View() == Stacks(old(undo), old(redo), n)
    {
      maxStackSize := n;
    }

    method AddItem(item: T)
      requires CanAdd(View())
      modifies this
      ensures View() == AfterAdd(old(View()), item)
    {
      if |undo| >= maxStackSize {
        undo := undo[1..];
      }
      undo := undo + [item];
      redo := [];
    }

    method Undo() returns (item: Option<T>)
      modifies this
      ensures (item, View()) == AfterUndo(old(View()))
    {
      item := None;
      if CanUndo() {
        var (top, rest) := Pop(undo);
        undo := rest;
        redo := redo + [top];
        item := Some(top);
      }
    }

    method Redo() returns (item: Option<T>)
      modifies this
      ensures (item, View()) == AfterRedo(old(View()))
    {
      item := None;
      if CanRedo() {
        var (top, rest) := Pop(redo);
        redo := rest;
        undo := undo + [top];
        item := Some(top);
      }
    }

    /** The live read-only view of the undo list. */
    function UndoItems(): (items: seq<T>)
      reads this
      ensures items == View().undo
      ensures items != [] <==> CanUndo()
    {
      undo
    }

    /** The live read-only view of the redo list. */
    function RedoItems(): (items: seq<T>)
      reads this
      ensures items == View().redo
      ensures items != [] <==> CanRedo()
    {
      redo
    }

    /** `CanUndo`: the undo list is not empty, exactly when `Undo` returns an item. */
    function CanUndo(): (b: bool)
      reads this
      ensures b <==> AfterUndo(View()).0.Some?
    {
      |undo| > 0
    }

    /** `CanRedo`: the redo list is not empty, exactly when `Redo` returns an item. */
    function CanRedo(): (b: bool)
      reads this
      ensures b <==> AfterRedo(View()).0.Some?
    {
      |redo| > 0
    }

    method CleanUp(executedCommands: seq<T>)
      modifies this
      ensures View() == AfterCleanUp(old(View()), executedCommands)
    {
      undo, redo := RemoveFromBoth(undo, redo, executedCommands);
    }

    method Reset()
      modifies this
      ensures View() == AfterReset(old(View()))
    {
      undo := [];
      redo := [];
    }
  }
}
