/**
 * Incremental reveal in presemd's list drawing (`draw_list_inner` in `render/text.rs`): each
 * `+` item takes the next step of a counter shared by the whole list tree, a `*` item shares the
 * step before it, other items have step 0; an item is drawn when its step is at most the slide's
 * reveal step. Also `count_list_items`.
 */
module Reveal {
  import opened Ast
  import BlockList

  /** The step an item appears at, and the shared counter after the item's own marker. */
  function ItemStep(m: ListMarker, counter: nat): (nat, nat) {
    match m
    case Static => (0, counter)
    case Ordered => (0, counter)
    case NextStep => (counter + 1, counter + 1)
    case WithPrev => (counter, counter)
  }

  /** The shared counter after drawing `items` from `counter` on at `revealStep`. */
  function CounterAfter(items: seq<ListItem>, revealStep: nat, counter: nat): nat
    decreases items
  {
    if items == [] then counter
    else
      var item := items[|items| - 1];
      var st := ItemStep(item.marker, CounterAfter(items[..|items| - 1], revealStep, counter));
      if st.0 > revealStep then st.1 else CounterAfter(item.children, revealStep, st.1)
  }

  /**
   * The items drawn at `revealStep`, each with its drawn children. A hidden item is skipped
   * whole: its children neither draw nor advance the counter.
   */
  function Shown(items: seq<ListItem>, revealStep: nat, counter: nat): seq<ListItem>
    decreases items
  {
    if items == [] then []
    else
      var item := items[|items| - 1];
      var st := ItemStep(item.marker, CounterAfter(items[..|items| - 1], revealStep, counter));
      var before := Shown(items[..|items| - 1], revealStep, counter);
      if st.0 > revealStep then before
      else before + [item.(children := Shown(item.children, revealStep, st.1))]
  }

  /** `draw_list_inner` without the painting: which items are drawn, threading the counter. */
  method DrawList(items: seq<ListItem>, revealStep: nat, counter: nat) returns (shown: seq<ListItem>, counterOut: nat)
    ensures shown == Shown(items, revealStep, counter)
    ensures counterOut == CounterAfter(items, revealStep, counter)
    decreases items
  {
    shown := [];
    counterOut := counter;
    for k := 0 to |items|
      invariant shown == Shown(items[..k], revealStep, counter)
      invariant counterOut == CounterAfter(items[..k], revealStep, counter)
    {
      var item := items[k];
      assert items[..k + 1][..k] == items[..k];
      var itemStep: nat;
      match item.marker {
        case Static => itemStep := 0;
        case Ordered => itemStep := 0;
        case NextStep =>
          counterOut := counterOut + 1;
          itemStep := counterOut;
        case WithPrev => itemStep := counterOut;
      }
      if itemStep > revealStep {
        continue;
      }
      var kids: seq<ListItem> := [];
      if item.children != [] {
        kids, counterOut := DrawList(item.children, revealStep, counterOut);
      }
      shown := shown + [item.(children := kids)];
    }
    assert items[..|items|] == items;
  }

  /** The number of `+` items at all depths: the steps the list can reveal. */
  function NextCount(items: seq<ListItem>): nat
    decreases items
  {
    if items == [] then 0
    else
      var item := items[|items| - 1];
      NextCount(items[..|items| - 1]) + (if item.marker == NextStep then 1 else 0) + NextCount(item.children)
  }

  /** Drawing advances the counter by at most the number of `+` items. */
  lemma {:induction false} CounterBounds(items: seq<ListItem>, revealStep: nat, counter: nat)
    ensures counter <= CounterAfter(items, revealStep, counter) <= counter + NextCount(items)
    decreases items
  {
    if items != [] {
      var init := items[..|items| - 1];
      var item := items[|items| - 1];
      CounterBounds(init, revealStep, counter);
      var st := ItemStep(item.marker, CounterAfter(init, revealStep, counter));
      CounterBounds(item.children, revealStep, st.1);
    }
  }

  /** Once the reveal step covers every `+` item, the counter passes every `+` item. */
  lemma {:induction false} AllCounted(items: seq<ListItem>, revealStep: nat, counter: nat)
    requires counter + NextCount(items) <= revealStep
    ensures CounterAfter(items, revealStep, counter) == counter + NextCount(items)
    decreases items
  {
    if items != [] {
      var init, item := items[..|items| - 1], items[|items| - 1];
      CoveredParts(items, revealStep, counter);
      AllCounted(init, revealStep, counter);
      var st := ItemStep(item.marker, counter + NextCount(init));
      AllCounted(item.children, revealStep, st.1);
      AllCountedStep(items, revealStep, counter);
    }
  }

  /** The step of `AllCounted`: the counts of the earlier items and of the last item's children add up. */
  lemma AllCountedStep(items: seq<ListItem>, revealStep: nat, counter: nat)
    requires items != [] && counter + NextCount(items) <= revealStep
    requires var init := items[..|items| - 1];
      CounterAfter(init, revealStep, counter) == counter + NextCount(init)
    requires var init, item := items[..|items| - 1], items[|items| - 1];
      var st := ItemStep(item.marker, counter + NextCount(init));
      CounterAfter(item.children, revealStep, st.1) == st.1 + NextCount(item.children)
    ensures CounterAfter(items, revealStep, counter) == counter + NextCount(items)
  {
    CoveredParts(items, revealStep, counter);
  }


  /** Once the reveal step covers every `+` item, the whole tree is drawn. */
  lemma {:induction false} AllShown(items: seq<ListItem>, revealStep: nat, counter: nat)
    requires counter + NextCount(items) <= revealStep
    ensures Shown(items, revealStep, counter) == items
    decreases items
  {
    if items != [] {
      var init, item := items[..|items| - 1], items[|items| - 1];
      var st := ItemStep(item.marker, counter + NextCount(init));
      CoveredParts(items, revealStep, counter);
      AllShown(init, revealStep, counter);
      AllShown(item.children, revealStep, st.1);
      AllShownStep(items, revealStep, counter);
    }
  }

  /** The step of `AllShown`: the earlier items and the last item's children are drawn whole. */
  lemma AllShownStep(items: seq<ListItem>, revealStep: nat, counter: nat)
    requires items != [] && counter + NextCount(items) <= revealStep
    requires Shown(items[..|items| - 1], revealStep, counter) == items[..|items| - 1]
    requires var init, item := items[..|items| - 1], items[|items| - 1];
      var st := ItemStep(item.marker, counter + NextCount(init));
      Shown(item.children, revealStep, st.1) == item.children
    ensures Shown(items, revealStep, counter) == items
  {
    LastShown(items, revealStep, counter);
    SnocSame(items[..|items| - 1], items[|items| - 1], items);
  }

  /** A reveal step covering the list covers the earlier items, the last item and its children. */
  lemma CoveredParts(items: seq<ListItem>, revealStep: nat, counter: nat)
    requires items != [] && counter + NextCount(items) <= revealStep
    ensures var init, item := items[..|items| - 1], items[|items| - 1];
      var st := ItemStep(item.marker, counter + NextCount(init));
      counter + NextCount(init) <= revealStep && st.0 <= revealStep && st.1 + NextCount(item.children) <= revealStep
  {
  }

  /** When the reveal step covers the whole list, its last item is drawn after the others. */
  lemma LastShown(items: seq<ListItem>, revealStep: nat, counter: nat)
    requires items != [] && counter + NextCount(items) <= revealStep
    ensures var init, item := items[..|items| - 1], items[|items| - 1];
      var st := ItemStep(item.marker, counter + NextCount(init));
      Shown(items, revealStep, counter) ==
        Shown(init, revealStep, counter) + [item.(children := Shown(item.children, revealStep, st.1))]
  {
    AllCounted(items[..|items| - 1], revealStep, counter);
  }

  /** Putting the last item, with its own children, back after the others gives the list. */
  lemma SnocSame(init: seq<ListItem>, item: ListItem, items: seq<ListItem>)
    requires items != [] && init == items[..|items| - 1] && item == items[|items| - 1]
    ensures init + [item.(children := item.children)] == items
  {
  }

  /** No `+` item at any depth. */
  predicate NoNextStep(items: seq<ListItem>)
    decreases items
  {
    forall k :: 0 <= k < |items| ==> items[k].marker != NextStep && NoNextStep(items[k].children)
  }

  lemma NoNextStepAppend(a: seq<ListItem>, item: ListItem)
    requires NoNextStep(a) && item.marker != NextStep && NoNextStep(item.children)
    ensures NoNextStep(a + [item])
  {
    forall k | 0 <= k < |a + [item]|
      ensures (a + [item])[k].marker != NextStep && NoNextStep((a + [item])[k].children)
    {
      if k < |a| {
        assert (a + [item])[k] == a[k];
      }
    }
  }

  /** A reveal step the counter has already reached draws no `+` item. */
  lemma {:induction false} NothingNewRevealed(items: seq<ListItem>, revealStep: nat, counter: nat)
    requires revealStep <= counter
    ensures NoNextStep(Shown(items, revealStep, counter))
    decreases items
  {
    if items != [] {
      var init := items[..|items| - 1];
      var item := items[|items| - 1];
      NothingNewRevealed(init, revealStep, counter);
      CounterBounds(init, revealStep, counter);
      var c1 := CounterAfter(init, revealStep, counter);
      var st := ItemStep(item.marker, c1);
      if st.0 <= revealStep {
        NothingNewRevealed(item.children, revealStep, st.1);
        NoNextStepAppend(Shown(init, revealStep, counter), item.(children := Shown(item.children, revealStep, st.1)));
      }
    }
  }

  /** A list without `+` items is drawn whole at every reveal step. */
  lemma StaticListShown(items: seq<ListItem>, revealStep: nat)
    requires NextCount(items) == 0
    ensures Shown(items, revealStep, 0) == items
  {
    AllShown(items, revealStep, 0);
  }

  // ---------------------------------------------------------------------------------------
  // `count_list_items`
  // ---------------------------------------------------------------------------------------

  /** The sizes of the items' children, added up. */
  function ChildSizes(items: seq<ListItem>): nat {
    if items == [] then 0 else ChildSizes(items[..|items| - 1]) + BlockList.Size(items[|items| - 1].children)
  }

  /** A tree has its top-level items plus all their descendants. */
  lemma {:induction false} SizeByChildren(items: seq<ListItem>)
    ensures BlockList.Size(items) == |items| + ChildSizes(items)
  {
    if items != [] {
      var init := items[..|items| - 1];
      var item := items[|items| - 1];
      SizeByChildren(init);
      assert init + [item] == items;
      BlockList.SizeAppend(init, [item]);
      assert [item][1..] == [];
    }
  }

  /** `count_list_items`: the items of this level, plus each item's subtree counted recursively. */
  method CountListItems(items: seq<ListItem>) returns (count: nat)
    ensures count == BlockList.Size(items)
    decreases items
  {
    count := |items|;
    for k := 0 to |items|
      invariant count == |items| + ChildSizes(items[..k])
    {
      assert items[..k + 1][..k] == items[..k];
      var sub := CountListItems(items[k].children);
      count := count + sub;
    }
    assert items[..|items|] == items;
    SizeByChildren(items);
  }

  /** Drawing never shows more items than the tree holds. */
  lemma {:induction false} ShownWithinSize(items: seq<ListItem>, revealStep: nat, counter: nat)
    ensures BlockList.Size(Shown(items, revealStep, counter)) <= BlockList.Size(items)
    decreases items
  {
    if items != [] {
      var init := items[..|items| - 1];
      var item := items[|items| - 1];
      ShownWithinSize(init, revealStep, counter);
      SizeByChildren(items);
      SizeByChildren(init);
      var before := Shown(init, revealStep, counter);
      var st := ItemStep(item.marker, CounterAfter(init, revealStep, counter));
      if st.0 <= revealStep {
        var kids := Shown(item.children, revealStep, st.1);
        ShownWithinSize(item.children, revealStep, st.1);
        BlockList.SizeAppend(before, [item.(children := kids)]);
        assert [item.(children := kids)][1..] == [];
      }
    }
  }
}
