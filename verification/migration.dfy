/** The data migration of payments/migrations/0005_migrate_order_items.py:
    an order's many-to-many item list becomes one order line per distinct
    item carrying the number of times that item occurred, in the order the
    items first appear. The relation holds each item at most once, so every
    count is then 1 (`DistinctItemsCountOne`); the loop is modelled for any
    list, repeats included. */
module MigrateOrderItems {
  import opened Wrappers
  import opened IntMath
  import opened Models

  /** An entry `{'item': item, 'quantity': quantity}` of `items_count`, and
      the `OrderItem` created from it. */
  datatype Group = Group(item: Item, quantity: int)

  function ItemIds(items: seq<Item>): seq<ItemId>
  {
    seq(|items|, i requires 0 <= i < |items| => items[i].id)
  }

  function GroupIds(groups: seq<Group>): seq<ItemId>
  {
    seq(|groups|, i requires 0 <= i < |groups| => groups[i].item.id)
  }

  function GroupQuantities(groups: seq<Group>): seq<int>
  {
    seq(|groups|, i requires 0 <= i < |groups| => groups[i].quantity)
  }

  /** How many times `k` occurs in `ids`. */
  function Occurrences(ids: seq<ItemId>, k: ItemId): nat
  {
    if |ids| == 0 then 0
    else Occurrences(ids[..|ids| - 1], k) + (if ids[|ids| - 1] == k then 1 else 0)
  }

  /** The reference order: each id once, where it first occurs. */
  function FirstOccurrences(ids: seq<ItemId>): seq<ItemId>
  {
    if |ids| == 0 then []
    else
      var p := ids[..|ids| - 1];
      if ids[|ids| - 1] in p then FirstOccurrences(p) else FirstOccurrences(p) + [ids[|ids| - 1]]
  }

  /** An id is kept exactly when it occurs. */
  lemma {:induction false} FirstOccurrencesMembers(ids: seq<ItemId>, k: ItemId)
    ensures k in FirstOccurrences(ids) <==> k in ids
    decreases |ids|
  {
    if |ids| > 0 {
      var p := ids[..|ids| - 1];
      FirstOccurrencesMembers(p, k);
      assert ids == p + [ids[|ids| - 1]];
    }
  }

  /** Each id is kept once. */
  lemma {:induction false} FirstOccurrencesDistinct(ids: seq<ItemId>)
    ensures var f := FirstOccurrences(ids); forall i, j :: 0 <= i < j < |f| ==> f[i] != f[j]
    decreases |ids|
  {
    if |ids| > 0 {
      var p := ids[..|ids| - 1];
      FirstOccurrencesDistinct(p);
      FirstOccurrencesMembers(p, ids[|ids| - 1]);
    }
  }

  /** Where the group for `k` is, if there is one. */
  function FindGroup(groups: seq<Group>, k: ItemId): (r: Option<nat>)
    ensures r.None? <==> k !in GroupIds(groups)
    ensures r.Some? ==> r.value < |groups| && groups[r.value].item.id == k
  {
    if |groups| == 0 then None
    else
      assert GroupIds(groups) == [groups[0].item.id] + GroupIds(groups[1..]);
      if groups[0].item.id == k then Some(0)
      else
      match FindGroup(groups[1..], k)
      case None => None
      case Some(j) => Some(j + 1)
  }

  /** What `items_count` holds once the given items have been counted:
      the distinct ids in first-occurrence order, each with its first item
      and its number of occurrences. */
  predicate Summarises(items: seq<Item>, groups: seq<Group>)
  {
    && GroupIds(groups) == FirstOccurrences(ItemIds(items))
    && (forall j :: 0 <= j < |groups| ==> groups[j].quantity == Occurrences(ItemIds(items), groups[j].item.id))
    && (forall j :: 0 <= j < |groups| ==> groups[j].quantity >= 1)
    && (forall j :: 0 <= j < |groups| ==> groups[j].item in items)
    && Sum(GroupQuantities(groups)) == |items|
  }

  /** One turn of the counting loop: one more of a known id, or a new
      entry with quantity 1. */
  function CountItem(groups: seq<Group>, item: Item): seq<Group>
  {
    var pos := FindGroup(groups, item.id);
    if pos.Some? then
      groups[pos.value := Group(groups[pos.value].item, groups[pos.value].quantity + 1)]
    else groups + [Group(item, 1)]
  }

  /** Counting one more item keeps the summary right. */
  lemma CountItemStep(items: seq<Item>, groups: seq<Group>, item: Item)
    requires Summarises(items, groups)
    ensures Summarises(items + [item], CountItem(groups, item))
  {
    var seen := ItemIds(items);
    assert ItemIds(items + [item]) == seen + [item.id];
    assert (seen + [item.id])[..|seen|] == seen;
    FirstOccurrencesMembers(seen, item.id);
    if FindGroup(groups, item.id).Some? {
      CountKnown(items, groups, item);
    } else {
      CountNew(items, groups, item);
    }
  }

  lemma CountKnown(items: seq<Item>, groups: seq<Group>, item: Item)
    requires Summarises(items, groups)
    requires FindGroup(groups, item.id).Some?
    requires ItemIds(items + [item]) == ItemIds(items) + [item.id]
    requires item.id in ItemIds(items)
    ensures Summarises(items + [item], CountItem(groups, item))
  {
    var seen := ItemIds(items);
    var p := FindGroup(groups, item.id).value;
    var r := groups[p := Group(groups[p].item, groups[p].quantity + 1)];
    assert CountItem(groups, item) == r;
    KnownIds(seen, groups, p, item.id, r);
    CountKnownQuantities(seen, groups, p, item.id, r);
    KnownTotal(groups, p, r);
    forall j | 0 <= j < |r|
      ensures r[j].item in items + [item]
    {
      assert groups[j].item in items;
    }
  }

  /** Counting a known id keeps the id order. */
  lemma KnownIds(seen: seq<ItemId>, groups: seq<Group>, p: nat, k: ItemId, r: seq<Group>)
    requires p < |groups| && k in seen
    requires GroupIds(groups) == FirstOccurrences(seen)
    requires r == groups[p := Group(groups[p].item, groups[p].quantity + 1)]
    ensures GroupIds(r) == FirstOccurrences(seen + [k])
  {
    assert GroupIds(r) == GroupIds(groups);
    assert (seen + [k])[..|seen|] == seen;
  }

  /** Counting a known id adds one to the total. */
  lemma KnownTotal(groups: seq<Group>, p: nat, r: seq<Group>)
    requires p < |groups|
    requires r == groups[p := Group(groups[p].item, groups[p].quantity + 1)]
    ensures Sum(GroupQuantities(r)) == Sum(GroupQuantities(groups)) + 1
  {
    SumUpdate(GroupQuantities(groups), p, groups[p].quantity + 1);
    assert GroupQuantities(r) == GroupQuantities(groups)[p := groups[p].quantity + 1];
  }

  /** Only the group of the counted id gains an occurrence. */
  lemma CountKnownQuantities(seen: seq<ItemId>, groups: seq<Group>, p: nat, k: ItemId, r: seq<Group>)
    requires p < |groups| && groups[p].item.id == k
    requires GroupIds(groups) == FirstOccurrences(seen)
    requires forall j :: 0 <= j < |groups| ==> groups[j].quantity == Occurrences(seen, groups[j].item.id)
    requires r == groups[p := Group(groups[p].item, groups[p].quantity + 1)]
    ensures forall j :: 0 <= j < |r| ==> r[j].quantity == Occurrences(seen + [k], r[j].item.id)
  {
    assert (seen + [k])[..|seen|] == seen;
    FirstOccurrencesDistinct(seen);
    forall j | 0 <= j < |r|
      ensures r[j].quantity == Occurrences(seen + [k], r[j].item.id)
    {
      assert GroupIds(groups)[j] == groups[j].item.id;
      assert GroupIds(groups)[p] == k;
    }
  }

  lemma CountNew(items: seq<Item>, groups: seq<Group>, item: Item)
    requires Summarises(items, groups)
    requires FindGroup(groups, item.id).None?
    requires ItemIds(items + [item]) == ItemIds(items) + [item.id]
    requires item.id !in ItemIds(items)
    ensures Summarises(items + [item], CountItem(groups, item))
  {
    var seen := ItemIds(items);
    var r := groups + [Group(item, 1)];
    assert GroupIds(r) == GroupIds(groups) + [item.id];
    assert (seen + [item.id])[..|seen|] == seen;
    assert FirstOccurrences(seen + [item.id]) == FirstOccurrences(seen) + [item.id];
    OccurrencesAbsent(seen, item.id);
    SumAppend(GroupQuantities(groups), [1]);
    assert Sum([1]) == 1 by { assert [1][..0] == []; }
    assert GroupQuantities(r) == GroupQuantities(groups) + [1];
  }

  /** The grouping loop of `migrate_order_items` for one order. */
  method GroupItems(items: seq<Item>) returns (groups: seq<Group>)
    ensures GroupIds(groups) == FirstOccurrences(ItemIds(items))
    ensures forall i, j :: 0 <= i < j < |groups| ==> groups[i].item.id != groups[j].item.id
    ensures forall k :: k in GroupIds(groups) <==> k in ItemIds(items)
    ensures forall j :: 0 <= j < |groups| ==> groups[j].quantity == Occurrences(ItemIds(items), groups[j].item.id)
    ensures forall j :: 0 <= j < |groups| ==> groups[j].quantity >= 1
    ensures forall j :: 0 <= j < |groups| ==> groups[j].item in items
    ensures Sum(GroupQuantities(groups)) == |items|
    ensures |groups| == 0 <==> |items| == 0
  {
    groups := [];
    var i := 0;
    while i < |items|
      invariant 0 <= i <= |items|
      invariant Summarises(items[..i], groups)
    {
      CountItemStep(items[..i], groups, items[i]);
      assert items[..i + 1] == items[..i] + [items[i]];
      groups := CountItem(groups, items[i]);
      i := i + 1;
    }
    assert items[..|items|] == items;
    SummaryKeys(items, groups);
  }

  /** A summary has each id of the items exactly once. */
  lemma SummaryKeys(items: seq<Item>, groups: seq<Group>)
    requires GroupIds(groups) == FirstOccurrences(ItemIds(items))
    ensures forall i, j :: 0 <= i < j < |groups| ==> groups[i].item.id != groups[j].item.id
    ensures forall k :: k in GroupIds(groups) <==> k in ItemIds(items)
    ensures |groups| == 0 <==> |items| == 0
  {
    FirstOccurrencesDistinct(ItemIds(items));
    forall i, j | 0 <= i < j < |groups|
      ensures groups[i].item.id != groups[j].item.id
    {
      assert GroupIds(groups)[i] != GroupIds(groups)[j];
      assert GroupIds(groups)[i] == groups[i].item.id;
      assert GroupIds(groups)[j] == groups[j].item.id;
    }
    forall k
      ensures k in GroupIds(groups) <==> k in ItemIds(items)
    {
      FirstOccurrencesMembers(ItemIds(items), k);
    }
    if |items| > 0 {
      assert ItemIds(items)[0] in GroupIds(groups);
    }
  }

  /** Without repeated items, every group produced has quantity 1. */
  lemma DistinctItemsCountOne(items: seq<Item>, groups: seq<Group>)
    requires forall i, j :: 0 <= i < j < |items| ==> items[i].id != items[j].id
    requires forall j :: 0 <= j < |groups| ==> groups[j].quantity == Occurrences(ItemIds(items), groups[j].item.id)
    requires forall j :: 0 <= j < |groups| ==> groups[j].item in items
    ensures forall j :: 0 <= j < |groups| ==> groups[j].quantity == 1
  {
    forall j | 0 <= j < |groups|
      ensures groups[j].quantity == 1
    {
      var ids := ItemIds(items);
      assert groups[j].item.id in ids by {
        var i :| 0 <= i < |items| && items[i] == groups[j].item;
        assert ids[i] == groups[j].item.id;
      }
      OccurrencesOfDistinct(ids, groups[j].item.id);
    }
  }

  /** An id of a repeat-free list occurs in it once. */
  lemma {:induction false} OccurrencesOfDistinct(ids: seq<ItemId>, k: ItemId)
    requires forall i, j :: 0 <= i < j < |ids| ==> ids[i] != ids[j]
    requires k in ids
    ensures Occurrences(ids, k) == 1
    decreases |ids|
  {
    var p := ids[..|ids| - 1];
    if ids[|ids| - 1] == k {
      OccurrencesAbsent(p, k);
    } else {
      assert k in p by {
        var i :| 0 <= i < |ids| && ids[i] == k;
        assert p[i] == k;
      }
      OccurrencesOfDistinct(p, k);
    }
  }

  lemma {:induction false} OccurrencesAbsent(ids: seq<ItemId>, k: ItemId)
    requires k !in ids
    ensures Occurrences(ids, k) == 0
    decreases |ids|
  {
    if |ids| > 0 {
      OccurrencesAbsent(ids[..|ids| - 1], k);
    }
  }
}
