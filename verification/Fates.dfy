/** What becomes of the items of a stream, one after the other. */
module Fates {

  /** d times the same fate. */
  ghost function Times(f: bool, d: nat): (r: seq<bool>)
    ensures |r| == d
  {
    seq(d, _ => f)
  }

  /** The items that came through. */
  ghost function Selected<T>(items: seq<T>, fate: seq<bool>): seq<T>
    requires |fate| <= |items|
  {
    if fate == [] then []
    else
      var i := |fate| - 1;
      Selected(items, fate[..i]) + if fate[i] then [items[i]] else []
  }

  lemma {:induction false} SelectedSame<T>(items: seq<T>, items': seq<T>, fate: seq<bool>)
    requires items <= items' && |fate| <= |items|
    ensures Selected(items', fate) == Selected(items, fate)
  {
    if fate != [] {
      SelectedSame(items, items', fate[..|fate| - 1]);
    }
  }

  lemma {:induction false} SelectedMore<T>(items: seq<T>, fate: seq<bool>, d: nat)
    requires |fate| + d <= |items|
    ensures Selected(items, fate + Times(true, d)) == Selected(items, fate) + items[|fate|..|fate| + d]
  {
    if d == 0 {
      assert fate + Times(true, 0) == fate;
    } else {
      var i := |fate| + d - 1;
      SelectedMore(items, fate, d - 1);
      assert (fate + Times(true, d))[..i] == fate + Times(true, d - 1);
      assert items[|fate|..i] + [items[i]] == items[|fate|..i + 1];
    }
  }
}
