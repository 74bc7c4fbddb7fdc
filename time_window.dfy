/**
 * The time-window view over closed issues and pull requests, and the time
 * an item took to close. As in `get_values_in_range`, `before` is the lower
 * bound on the creation instant and `after` the upper bound on the closing
 * instant.
 */
module TimeWindow {
  import opened Platform

  /**
   * The item was created no earlier than `before` and closed no later than
   * `after`; such an item took at most the width of the window to close.
   */
  predicate GetValuesInRange(item: ClosedItem, before: int, after: int)
    ensures GetValuesInRange(item, before, after) ==> GetTimeTaken(item) <= after - before
  {
    item.createdAt >= before && item.closedAt <= after
  }

  /** The items inside the window, in their original order. */
  function Window(items: seq<ClosedItem>, before: int, after: int): (r: seq<ClosedItem>)
    ensures forall x :: x in r ==> x in items && GetValuesInRange(x, before, after)
    ensures |r| <= |items|
  {
    if items == [] then []
    else
      (if GetValuesInRange(items[0], before, after) then [items[0]] else [])
      + Window(items[1..], before, after)
  }

  /**
   * Nothing inside the window is dropped: each item occurs in the view as
   * often as in the list when it is in range, and never otherwise.
   */
  lemma {:induction false} WindowCount(items: seq<ClosedItem>, before: int, after: int, x: ClosedItem)
    ensures multiset(Window(items, before, after))[x]
            == if GetValuesInRange(x, before, after) then multiset(items)[x] else 0
  {
    if items != [] {
      assert items == [items[0]] + items[1..];
      WindowCount(items[1..], before, after, x);
    }
  }

  /** The view keeps the list's order: the view of a concatenation concatenates the views. */
  lemma {:induction false} WindowAppend(a: seq<ClosedItem>, b: seq<ClosedItem>, before: int, after: int)
    ensures Window(a + b, before, after) == Window(a, before, after) + Window(b, before, after)
  {
    if a == [] {
      assert a + b == b;
    } else {
      assert (a + b)[0] == a[0] && (a + b)[1..] == a[1..] + b;
      WindowAppend(a[1..], b, before, after);
    }
  }

  /**
   * The duration from opening to closing: added to the opening instant it
   * gives the closing instant, and it is negative only for an item whose
   * recorded closing precedes its opening.
   */
  function GetTimeTaken(item: ClosedItem): (r: int)
    ensures item.createdAt + r == item.closedAt
    ensures r >= 0 <==> item.createdAt <= item.closedAt
  {
    item.closedAt - item.createdAt
  }
}
