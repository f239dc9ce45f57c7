/**
 * The keyboard behaviour of the interactive table: moving the selection
 * with wrap-around, and which keys are handled.
 */
module Table {
  import opened Wrappers
  import JsSemantics

  /**
   * `items.indexOf(item)`: the first position holding the item, or -1. No
   * selection (`null`) is never found.
   */
  function IndexOf<T(==)>(items: seq<T>, item: Option<T>): (i: int)
    ensures -1 <= i < |items|
    ensures i >= 0 ==> item == Some(items[i])
    ensures i >= 0 ==> forall k :: 0 <= k < i ==> item != Some(items[k])
    ensures i < 0 ==> forall k :: 0 <= k < |items| ==> item != Some(items[k])
    decreases |items|
  {
    if |items| == 0 then -1
    else if item == Some(items[0]) then 0
    else
      var j := IndexOf(items[1..], item);
      if j < 0 then -1 else j + 1
  }

  /**
   * The item `amount` places after the current one (before it, if negative),
   * wrapping around the ends; the first item when the current one is not in
   * the list; nothing (`undefined`) when the list is empty.
   */
  function NextItem<T(==)>(items: seq<T>, item: Option<T>, amount: int): (r: Option<T>)
    ensures |items| == 0 ==> r == None
    ensures |items| > 0 && IndexOf(items, item) < 0 ==> r == Some(items[0])
    ensures IndexOf(items, item) >= 0 ==>
      r == Some(items[(IndexOf(items, item) + amount) % |items|])
  {
    var index := IndexOf(items, item);
    if index < 0 then
      if |items| == 0 then None else Some(items[0])
    else
      var nextIndex := JsSemantics.TruncatedRemainder(index + amount, |items|);
      var wrapped := if nextIndex < 0 then |items| + nextIndex else nextIndex;
      assert wrapped == (index + amount) % |items| by {
        WrapIsEuclidean(index + amount, |items|);
      }
      Some(items[wrapped])
  }

  /**
   * Adding `n` to a negative truncated remainder gives the Euclidean one,
   * which is what the wrap-around in `nextItem` relies on.
   */
  lemma WrapIsEuclidean(a: int, n: int)
    requires n > 0
    ensures var t := JsSemantics.TruncatedRemainder(a, n);
      (if t < 0 then n + t else t) == a % n
  {
    var t := JsSemantics.TruncatedRemainder(a, n);
    var w := if t < 0 then n + t else t;
    assert 0 <= w < n;
    JsSemantics.ModuloMultiple(t, 1, n);
    assert w % n == t % n == a % n;
    JsSemantics.DivModUnique(w, n, 0, w);
  }

  /** No two positions hold the same item. */
  ghost predicate Distinct<T>(items: seq<T>) {
    forall i, j :: 0 <= i < j < |items| ==> items[i] != items[j]
  }

  /** In a list of distinct items every item is found at its own position. */
  lemma IndexOfDistinct<T>(items: seq<T>, k: nat)
    requires Distinct(items) && k < |items|
    ensures IndexOf(items, Some(items[k])) == k
  {
  }

  /** Whatever the current item, a non-empty list yields one of its own items. */
  lemma NextItemInList<T>(items: seq<T>, item: Option<T>, amount: int)
    requires |items| > 0
    ensures NextItem(items, item, amount).Some?
    ensures NextItem(items, item, amount).value in items
  {
  }

  /** Moving down from the last of distinct items wraps to the first. */
  lemma DownFromLastWraps<T>(items: seq<T>)
    requires |items| > 0 && Distinct(items)
    ensures NextItem(items, Some(items[|items| - 1]), 1) == Some(items[0])
  {
    var n := |items|;
    IndexOfDistinct(items, n - 1);
    JsSemantics.DivModUnique(n - 1 + 1, n, 1, 0);
  }

  /** Moving up from the first item wraps to the last. */
  lemma UpFromFirstWraps<T>(items: seq<T>)
    requires |items| > 0
    ensures NextItem(items, Some(items[0]), -1) == Some(items[|items| - 1])
  {
  }

  /** Stepping back by `amount` undoes stepping forward by it, modulo `n`. */
  lemma StepBack(k: int, amount: int, n: int)
    requires 0 <= k < n
    ensures ((k + amount) % n + -amount) % n == k
  {
    var q, m := (k + amount) / n, (k + amount) % n;
    assert k + amount == n * q + m;
    assert n * (-q) == -(n * q);
    assert m + -amount == n * (-q) + k;
    JsSemantics.DivModUnique(m + -amount, n, -q, k);
  }

  /** With distinct items, moving by `amount` and then by `-amount` returns to the start. */
  lemma MoveAndBack<T>(items: seq<T>, k: nat, amount: int)
    requires Distinct(items) && k < |items|
    ensures NextItem(items, NextItem(items, Some(items[k]), amount), -amount) == Some(items[k])
  {
    var n := |items|;
    IndexOfDistinct(items, k);
    var m := (k + amount) % n;
    IndexOfDistinct(items, m);
    StepBack(k, amount, n);
  }

  /** What a key press asks of the table's owner. */
  datatype Action<T> = UseItem(item: Option<T>) | SelectItem(item: Option<T>)

  /** The callback a key press invokes, if any, and whether the event was consumed. */
  datatype KeyResult<T> = KeyResult(action: Option<Action<T>>, handled: bool)

  /**
   * The table's key handler: Enter uses the selected item, the arrow keys
   * select the previous or next item; every other key passes through.
   */
  function OnKeyDown<T(==)>(items: seq<T>, selected: Option<T>, key: string): (r: KeyResult<T>)
    ensures r.handled <==> key in {"Enter", "ArrowUp", "ArrowDown"}
    ensures r.handled <==> r.action.Some?
    ensures key == "Enter" ==> r.action == Some(UseItem(selected))
    ensures key == "ArrowUp" ==> r.action == Some(SelectItem(NextItem(items, selected, -1)))
    ensures key == "ArrowDown" ==> r.action == Some(SelectItem(NextItem(items, selected, 1)))
  {
    if key == "Enter" then KeyResult(Some(UseItem(selected)), true)
    else if key == "ArrowUp" then KeyResult(Some(SelectItem(NextItem(items, selected, -1))), true)
    else if key == "ArrowDown" then KeyResult(Some(SelectItem(NextItem(items, selected, 1))), true)
    else KeyResult(None, false)
  }

  /** Up then down from any item of distinct items returns to it. */
  lemma UpThenDown<T>(items: seq<T>, k: nat)
    requires Distinct(items) && k < |items|
    ensures var up := OnKeyDown(items, Some(items[k]), "ArrowUp").action.value.item;
      OnKeyDown(items, up, "ArrowDown").action == Some(SelectItem(Some(items[k])))
  {
    MoveAndBack(items, k, -1);
  }
}
