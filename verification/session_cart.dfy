/** The cart kept in the session (payments/views.py): a dictionary from item
    id to quantity. Python dictionaries remember insertion order and the
    cart page reads its first entry, so the cart is a sequence of lines with
    distinct ids; `Quantities` is its dictionary view, and every operation
    is stated against that view. */
module SessionCart {
  import opened Wrappers
  import opened IntMath
  import opened Models

  /** One entry `str(id): {"quantity": quantity}` of the session cart. */
  datatype Line = Line(id: ItemId, quantity: int)

  predicate DistinctIds(c: seq<Line>)
  {
    forall i, j :: 0 <= i < j < |c| ==> c[i].id != c[j].id
  }

  /** A dictionary has each key once. */
  type Cart = c: seq<Line> | DistinctIds(c) witness []

  /** The cart's keys, in insertion order. */
  function Ids(c: seq<Line>): (ids: seq<ItemId>)
    ensures |ids| == |c|
    ensures forall i :: 0 <= i < |c| ==> ids[i] == c[i].id
  {
    seq(|c|, i requires 0 <= i < |c| => c[i].id)
  }

  /** The invariant the cart views keep: every stored quantity is at least 1. */
  predicate AllPositive(c: seq<Line>)
  {
    forall i :: 0 <= i < |c| ==> c[i].quantity >= 1
  }

  /** The position of the line for `id`, if the cart has one. */
  function Find(c: seq<Line>, id: ItemId): (r: Option<nat>)
    ensures r.None? <==> id !in Ids(c)
    ensures r.Some? ==> r.value < |c| && c[r.value].id == id
  {
    if |c| == 0 then None
    else if c[0].id == id then Some(0)
    else
      IdsCons(c);
      var f := Find(c[1..], id);
      if f.None? then None else Some(f.value + 1)
  }

  lemma IdsCons(c: seq<Line>)
    requires |c| > 0
    ensures Ids(c) == [c[0].id] + Ids(c[1..])
  {
  }

  /** The dictionary the session holds: each key with its quantity. */
  function Quantities(c: Cart): map<ItemId, int>
  {
    map k | k in Ids(c) :: QuantityOf(c, k)
  }

  /** The quantity stored under the first line for `k`. */
  function QuantityOf(c: seq<Line>, k: ItemId): int
  {
    if |c| == 0 then 0
    else if c[0].id == k then c[0].quantity
    else QuantityOf(c[1..], k)
  }

  /** Each line's quantity is what the dictionary holds for its key. */
  lemma QuantitiesAt(c: Cart, i: nat)
    requires i < |c|
    ensures c[i].id in Quantities(c) && Quantities(c)[c[i].id] == c[i].quantity
  {
    assert Ids(c)[i] == c[i].id;
    QuantityOfAt(c, i);
  }

  lemma {:induction false} QuantityOfAt(c: Cart, i: nat)
    requires i < |c|
    ensures QuantityOf(c, c[i].id) == c[i].quantity
  {
    if i > 0 {
      var t: Cart := c[1..];
      QuantityOfAt(t, i - 1);
      assert t[i - 1] == c[i];
    }
  }

  /** Every key of the dictionary view sits at some position of the cart. */
  lemma KeyPosition(c: Cart, k: ItemId) returns (j: nat)
    requires k in Quantities(c)
    ensures j < |c| && c[j].id == k
  {
    j := Find(c, k).value;
  }

  /** The reference for deletion: the cart without the lines for `id`,
      the others in their original order. */
  function Without(c: seq<Line>, id: ItemId): seq<Line>
  {
    if |c| == 0 then []
    else (if c[0].id == id then [] else [c[0]]) + Without(c[1..], id)
  }

  /** The sum of the stored quantities: the cart page's item count. */
  function TotalQuantity(c: seq<Line>): int
  {
    Sum(QuantityList(c))
  }

  function QuantityList(c: seq<Line>): seq<int>
  {
    seq(|c|, i requires 0 <= i < |c| => c[i].quantity)
  }

  /** The dictionary semantics of adding one: a present key's count goes up
      by one, an absent key comes in with count 1. */
  function PutOne(m: map<ItemId, int>, k: ItemId): (r: map<ItemId, int>)
  {
    m[k := if k in m then m[k] + 1 else 1]
  }

  /** add_to_cart's update: the quantity of a present id goes up by one in
      place; an absent id is appended with quantity 1. */
  function AddOne(c: Cart, id: ItemId): (r: Cart)
    ensures Quantities(r) == PutOne(Quantities(c), id)
    ensures AllPositive(c) ==> AllPositive(r)
    ensures TotalQuantity(r) == TotalQuantity(c) + 1
  {
    var f := Find(c, id);
    if f.Some? then IncrementAt(c, f.value) else AppendNew(c, id)
  }

  /** One more of the key at position i. */
  function IncrementAt(c: Cart, i: nat): (r: Cart)
    requires i < |c|
    ensures Quantities(r) == PutOne(Quantities(c), c[i].id)
    ensures AllPositive(c) ==> AllPositive(r)
    ensures TotalQuantity(r) == TotalQuantity(c) + 1
  {
    QuantitiesAt(c, i);
    assert PutOne(Quantities(c), c[i].id) == Quantities(c)[c[i].id := c[i].quantity + 1];
    SetQuantity(c, i, c[i].quantity + 1)
  }

  /** A new key, appended with quantity 1. */
  function AppendNew(c: Cart, id: ItemId): (r: Cart)
    requires id !in Ids(c)
    ensures Quantities(r) == PutOne(Quantities(c), id)
    ensures AllPositive(c) ==> AllPositive(r)
    ensures TotalQuantity(r) == TotalQuantity(c) + 1
  {
    QuantitiesAppend(c, id, 1);
    QuantityListAppend(c, Line(id, 1));
    assert id !in Quantities(c);
    c + [Line(id, 1)]
  }

  /** add_to_cart keeps the keys in insertion order: a present key stays
      where it was and a new key goes last. */
  lemma AddOneKeyOrder(c: Cart, id: ItemId)
    ensures id in Quantities(c) ==> Ids(AddOne(c, id)) == Ids(c)
    ensures id !in Quantities(c) ==> Ids(AddOne(c, id)) == Ids(c) + [id]
  {
    var f := Find(c, id);
    if f.None? {
      assert Ids(c + [Line(id, 1)]) == Ids(c) + [id];
    }
  }

  /** The line at position i with its quantity replaced by q: the key order
      is kept and only that key's quantity changes. */
  function SetQuantity(c: Cart, i: nat, q: int): (r: Cart)
    requires i < |c|
    ensures Quantities(r) == Quantities(c)[c[i].id := q]
    ensures Ids(r) == Ids(c)
    ensures q >= 1 && AllPositive(c) ==> AllPositive(r)
    ensures TotalQuantity(r) == TotalQuantity(c) - c[i].quantity + q
  {
    QuantitiesSetAt(c, i, q);
    SetQuantityTotal(c, i, q);
    c[i := Line(c[i].id, q)]
  }

  lemma SetQuantityTotal(c: seq<Line>, i: nat, q: int)
    requires i < |c|
    ensures Ids(c[i := Line(c[i].id, q)]) == Ids(c)
    ensures TotalQuantity(c[i := Line(c[i].id, q)]) == TotalQuantity(c) - c[i].quantity + q
  {
    var r := c[i := Line(c[i].id, q)];
    assert Ids(r) == Ids(c);
    assert QuantityList(r) == QuantityList(c)[i := q];
    SumUpdate(QuantityList(c), i, q);
  }

  /** remove_from_cart's update (`del cart[item_id]` when present): the key
      disappears and nothing else changes. */
  function Remove(c: Cart, id: ItemId): (r: Cart)
    ensures Quantities(r) == Quantities(c) - {id}
    ensures r == Without(c, id)
    ensures AllPositive(c) ==> AllPositive(r)
    ensures TotalQuantity(r) == TotalQuantity(c) - (if id in Quantities(c) then Quantities(c)[id] else 0)
  {
    var f := Find(c, id);
    if f.Some? then
      var i := f.value;
      QuantitiesAt(c, i);
      DeleteAt(c, i)
    else
      WithoutAbsent(c, id);
      assert Quantities(c) - {id} == Quantities(c);
      c
  }

  /** The cart with the line at position i deleted. */
  function DeleteAt(c: Cart, i: nat): (r: Cart)
    requires i < |c|
    ensures Quantities(r) == Quantities(c) - {c[i].id}
    ensures r == Without(c, c[i].id)
    ensures AllPositive(c) ==> AllPositive(r)
    ensures TotalQuantity(r) == TotalQuantity(c) - c[i].quantity
  {
    QuantitiesDelete(c, i);
    WithoutSingle(c, i);
    DeleteTotal(c, i);
    c[..i] + c[i + 1..]
  }

  lemma DeleteTotal(c: seq<Line>, i: nat)
    requires i < |c|
    ensures AllPositive(c) ==> AllPositive(c[..i] + c[i + 1..])
    ensures TotalQuantity(c[..i] + c[i + 1..]) == TotalQuantity(c) - c[i].quantity
  {
    assert QuantityList(c[..i] + c[i + 1..]) == QuantityList(c)[..i] + QuantityList(c)[i + 1..];
    SumDelete(QuantityList(c), i);
  }

  /** The dictionary semantics of "decrease": the key's count goes down by
      one and the key is dropped once the count is 0 or below. */
  function TakeOneFrom(m: map<ItemId, int>, k: ItemId): map<ItemId, int>
    requires k in m
  {
    if m[k] - 1 <= 0 then m - {k} else m[k := m[k] - 1]
  }

  /** update_cart_quantity's "decrease": one less, and the key is deleted
      once its quantity reaches 0 or below; an absent id changes nothing. */
  function Decrease(c: Cart, id: ItemId): (r: Cart)
    ensures id !in Quantities(c) ==> r == c
    ensures id in Quantities(c) ==> Quantities(r) == TakeOneFrom(Quantities(c), id)
    ensures AllPositive(c) ==> AllPositive(r)
  {
    var f := Find(c, id);
    if f.None? then c
    else
      QuantitiesAt(c, f.value);
      DecreaseAt(c, f.value)
  }

  /** "decrease" keeps the key order: a key that stays positive stays
      where it was, and a deleted key leaves the others in order. */
  lemma DecreaseKeyOrder(c: Cart, id: ItemId)
    requires id in Quantities(c)
    ensures Quantities(c)[id] - 1 <= 0 ==> Decrease(c, id) == Without(c, id)
    ensures Quantities(c)[id] - 1 > 0 ==> Ids(Decrease(c, id)) == Ids(c)
  {
    var i := KeyPosition(c, id);
    FindAt(c, i);
    QuantitiesAt(c, i);
  }

  /** With positive quantities, "decrease" on a present key takes exactly
      one unit out of the cart. */
  lemma DecreaseTotal(c: Cart, id: ItemId)
    requires AllPositive(c) && id in Quantities(c)
    ensures TotalQuantity(Decrease(c, id)) == TotalQuantity(c) - 1
  {
    var i := KeyPosition(c, id);
    FindAt(c, i);
  }

  /** "decrease" on the line at position i. */
  function DecreaseAt(c: Cart, i: nat): (r: Cart)
    requires i < |c|
    ensures Quantities(r) == TakeOneFrom(Quantities(c), c[i].id)
    ensures AllPositive(c) ==> AllPositive(r)
  {
    QuantitiesAt(c, i);
    if c[i].quantity - 1 <= 0 then
      assert TakeOneFrom(Quantities(c), c[i].id) == Quantities(c) - {c[i].id};
      DeleteAt(c, i)
    else
      assert TakeOneFrom(Quantities(c), c[i].id) == Quantities(c)[c[i].id := c[i].quantity - 1];
      SetQuantity(c, i, c[i].quantity - 1)
  }

  /** Taking one away undoes adding one, whether the id was present or
      not, as long as the stored quantities are positive. */
  lemma DecreaseUndoesAdd(c: Cart, id: ItemId)
    requires AllPositive(c)
    ensures Decrease(AddOne(c, id), id) == c
  {
    var f := Find(c, id);
    if f.Some? {
      QuantitiesAt(c, f.value);
      DecreaseUndoesIncrement(c, id);
    } else {
      DecreaseUndoesAppend(c, id);
    }
  }

  lemma DecreaseUndoesIncrement(c: Cart, id: ItemId)
    requires id in Quantities(c) && Quantities(c)[id] >= 1
    ensures Decrease(AddOne(c, id), id) == c
  {
    var m := Quantities(c);
    var a := AddOne(c, id);
    assert Quantities(a) == PutOne(m, id) == m[id := m[id] + 1];
    AddOneKeyOrder(c, id);
    DecreaseKeyOrder(a, id);
    var d := Decrease(a, id);
    TakeOneUndoesIncrement(m, id);
    SameKeysAndQuantities(d, c);
  }

  /** On the dictionary: one more and then one less is where it started. */
  lemma TakeOneUndoesIncrement(m: map<ItemId, int>, k: ItemId)
    requires k in m && m[k] >= 1
    ensures TakeOneFrom(m[k := m[k] + 1], k) == m
  {
  }

  lemma DecreaseUndoesAppend(c: Cart, id: ItemId)
    requires id !in Ids(c)
    ensures Decrease(AddOne(c, id), id) == c
  {
    QuantitiesAppend(c, id, 1);
    var a: Cart := c + [Line(id, 1)];
    assert AddOne(c, id) == a;
    FindAt(a, |c|);
    assert Decrease(a, id) == DeleteAt(a, |c|);
    assert a[..|c|] + a[|c| + 1..] == c;
  }

  /** Adding one undoes taking one away from a present key whose quantity
      stays positive. */
  lemma AddUndoesDecrease(c: Cart, id: ItemId)
    requires id in Quantities(c) && Quantities(c)[id] >= 2
    ensures AddOne(Decrease(c, id), id) == c
  {
    var q := Quantities(c)[id];
    var d := Decrease(c, id);
    assert Quantities(d) == Quantities(c)[id := q - 1];
    var a := AddOne(d, id);
    assert Quantities(a) == Quantities(d)[id := q];
    RestoreEntry(Quantities(c), id, q - 1);
    AddOneKeyOrder(d, id);
    SameKeysAndQuantities(a, c);
  }

  /** Overwriting an entry and then writing its old value back. */
  lemma RestoreEntry(m: map<ItemId, int>, k: ItemId, v: int)
    requires k in m
    ensures m[k := v][k := m[k]] == m
  {
  }

  /** A cart is determined by its key order and its dictionary view. */
  lemma SameKeysAndQuantities(a: Cart, b: Cart)
    requires Ids(a) == Ids(b) && Quantities(a) == Quantities(b)
    ensures a == b
  {
    forall i | 0 <= i < |a|
      ensures a[i] == b[i]
    {
      assert Ids(a)[i] == Ids(b)[i];
      QuantitiesAt(a, i);
      QuantitiesAt(b, i);
    }
  }

  /** Removing a key twice is removing it once. */
  lemma RemoveIdempotent(c: Cart, id: ItemId)
    ensures Remove(Remove(c, id), id) == Remove(c, id)
  {
    var r := Remove(c, id);
    assert id !in Quantities(r);
    assert Find(r, id).None?;
  }

  /** In a cart with distinct ids the line for a key is found where it is. */
  lemma FindAt(c: Cart, i: nat)
    requires i < |c|
    ensures Find(c, c[i].id) == Some(i)
  {
    assert Ids(c)[i] == c[i].id;
  }

  lemma QuantitiesSetAt(c: Cart, i: nat, q: int)
    requires i < |c|
    ensures DistinctIds(c[i := Line(c[i].id, q)])
    ensures Quantities(c[i := Line(c[i].id, q)]) == Quantities(c)[c[i].id := q]
  {
    var r := c[i := Line(c[i].id, q)];
    assert Ids(r) == Ids(c);
    var want := Quantities(c)[c[i].id := q];
    forall k | k in Ids(c)
      ensures k in Quantities(r) && Quantities(r)[k] == want[k]
    {
      var j :| 0 <= j < |c| && Ids(c)[j] == k;
      QuantitiesAt(r, j);
      QuantitiesAt(c, j);
    }
    assert Quantities(r).Keys == want.Keys;
  }

  lemma QuantitiesAppend(c: Cart, id: ItemId, q: int)
    requires id !in Ids(c)
    ensures DistinctIds(c + [Line(id, q)])
    ensures Quantities(c + [Line(id, q)]) == Quantities(c)[id := q]
  {
    var r := c + [Line(id, q)];
    assert Ids(r) == Ids(c) + [id];
    var want := Quantities(c)[id := q];
    forall k | k in Ids(r)
      ensures k in Quantities(r) && Quantities(r)[k] == want[k]
    {
      var j :| 0 <= j < |r| && Ids(r)[j] == k;
      QuantitiesAt(r, j);
      if j < |c| {
        QuantitiesAt(c, j);
      }
    }
    assert Quantities(r).Keys == want.Keys;
  }

  lemma QuantitiesDelete(c: Cart, i: nat)
    requires i < |c|
    ensures DistinctIds(c[..i] + c[i + 1..])
    ensures Quantities(c[..i] + c[i + 1..]) == Quantities(c) - {c[i].id}
  {
    var r: Cart := c[..i] + c[i + 1..];
    var want := Quantities(c) - {c[i].id};
    DeletedKeys(c, i);
    forall k | k in Quantities(r)
      ensures Quantities(r)[k] == want[k]
    {
      var j := KeyPosition(r, k);
      var j' := DeletedPosition(c, i, j);
      QuantitiesAt(r, j);
      QuantitiesAt(c, j');
    }
  }

  lemma DeletedKeys(c: Cart, i: nat)
    requires i < |c|
    ensures DistinctIds(c[..i] + c[i + 1..])
    ensures Quantities(c[..i] + c[i + 1..]).Keys == Quantities(c).Keys - {c[i].id}
  {
    DeleteDistinct(c, i);
    var r: Cart := c[..i] + c[i + 1..];
    forall k | k in Quantities(r)
      ensures k in Quantities(c) && k != c[i].id
    {
      var j := KeyPosition(r, k);
      var j' := DeletedPosition(c, i, j);
      QuantitiesAt(c, j');
    }
    forall k | k in Quantities(c) && k != c[i].id
      ensures k in Quantities(r)
    {
      var j := KeyPosition(c, k);
      var j' := if j < i then j else j - 1;
      assert r[j'] == c[j];
      QuantitiesAt(r, j');
    }
  }

  lemma DeleteDistinct(c: Cart, i: nat)
    requires i < |c|
    ensures DistinctIds(c[..i] + c[i + 1..])
  {
    var r := c[..i] + c[i + 1..];
    forall a, b | 0 <= a < b < |r|
      ensures r[a].id != r[b].id
    {
      var a' := DeletedPosition(c, i, a);
      var b' := DeletedPosition(c, i, b);
    }
  }

  /** Where the line at position j of the shortened cart came from. */
  lemma DeletedPosition(c: Cart, i: nat, j: nat) returns (j': nat)
    requires i < |c| && j < |c| - 1
    ensures j' < |c| && j' != i && (c[..i] + c[i + 1..])[j] == c[j']
    ensures j' == if j < i then j else j + 1
  {
    j' := if j < i then j else j + 1;
  }

  lemma {:induction false} WithoutAbsent(c: seq<Line>, id: ItemId)
    requires id !in Ids(c)
    ensures Without(c, id) == c
  {
    if |c| > 0 {
      assert Ids(c) == [c[0].id] + Ids(c[1..]);
      WithoutAbsent(c[1..], id);
    }
  }

  lemma {:induction false} WithoutSingle(c: Cart, i: nat)
    requires i < |c|
    ensures Without(c, c[i].id) == c[..i] + c[i + 1..]
  {
    if i == 0 {
      assert c[i].id !in Ids(c[1..]);
      WithoutAbsent(c[1..], c[i].id);
    } else {
      var t: Cart := c[1..];
      WithoutSingle(t, i - 1);
      assert c[..i] + c[i + 1..] == [c[0]] + (t[..i - 1] + t[i..]);
    }
  }

  lemma QuantityListAppend(c: seq<Line>, l: Line)
    ensures TotalQuantity(c + [l]) == TotalQuantity(c) + l.quantity
  {
    assert QuantityList(c + [l])[..|c|] == QuantityList(c);
  }
}
