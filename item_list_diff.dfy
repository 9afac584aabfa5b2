/** ItemListDiffGenerator: the item-by-item difference between two item
    lists, as shown in the bank diff panel. */
module ItemListDiff {
  import opened JavaInts
  import opened BankItems

  /** HashMap<Integer, Integer>.getOrDefault(id, 0). */
  function GetOrZero(m: map<int32, int32>, id: int32): int32 {
    if id in m then m[id] else 0
  }

  /** The map `items.forEach(i -> map.put(id, qty))` builds: for an id that
      occurs more than once the last quantity wins. */
  function QuantitiesById(items: seq<BankItem>): map<int32, int32> {
    if items == [] then map[]
    else
      var last := items[|items| - 1];
      QuantitiesById(items[..|items| - 1])[last.itemId := last.quantity]
  }

  /** The quantity a list holds of an item id, 0 when it holds none. */
  function QuantityOf(items: seq<BankItem>, id: int32): int32 {
    GetOrZero(QuantitiesById(items), id)
  }

  /** What the loop over `before` adds for one item: the item with its
      quantity change (Java `int` subtraction), unless that change is 0. */
  function Delta(item: BankItem, afterQuantities: map<int32, int32>): seq<BankItem> {
    var diff := Sub32(GetOrZero(afterQuantities, item.itemId), item.quantity);
    if diff != 0 then [BankItem(item.itemId, diff)] else []
  }

  /** The changes of the items of `before`, in the order of `before`. */
  function BeforeDeltas(before: seq<BankItem>, afterQuantities: map<int32, int32>): seq<BankItem> {
    if before == [] then []
    else BeforeDeltas(before[..|before| - 1], afterQuantities) + Delta(before[|before| - 1], afterQuantities)
  }

  /** The items of `after` whose id is not in `beforeIds`, in the order of `after`. */
  function AfterOnly(after: seq<BankItem>, beforeIds: set<int32>): seq<BankItem> {
    if after == [] then []
    else
      var last := after[|after| - 1];
      AfterOnly(after[..|after| - 1], beforeIds) + (if last.itemId in beforeIds then [] else [last])
  }

  /** findDifferencesBetween: changes of the items of `before` first, then
      the items that only `after` has. */
  function Diff(before: seq<BankItem>, after: seq<BankItem>): seq<BankItem> {
    BeforeDeltas(before, QuantitiesById(after)) + AfterOnly(after, IdsOf(before))
  }

  /** findDifferencesBetween, with its HashMaps as Dafny maps and its
      ArrayList as a sequence. */
  method FindDifferencesBetween(before: seq<BankItem>, after: seq<BankItem>) returns (results: seq<BankItem>)
    ensures results == Diff(before, after)
  {
    var beforeItems: map<int32, int32> := map[];
    var afterItems: map<int32, int32> := map[];
    var k := 0;
    while k < |after|
      invariant 0 <= k <= |after|
      invariant afterItems == QuantitiesById(after[..k])
    {
      assert after[..k + 1][..k] == after[..k];
      afterItems := afterItems[after[k].itemId := after[k].quantity];
      k := k + 1;
    }
    assert after[..k] == after;
    results := [];
    var i := 0;
    while i < |before|
      invariant 0 <= i <= |before|
      invariant beforeItems.Keys == IdsOf(before[..i])
      invariant results == BeforeDeltas(before[..i], afterItems)
    {
      assert before[..i + 1][..i] == before[..i];
      IdsOfSnoc(before[..i + 1]);
      var item := before[i];
      beforeItems := beforeItems[item.itemId := item.quantity];
      var diff := Sub32(GetOrZero(afterItems, item.itemId), item.quantity);
      if diff != 0 {
        results := results + [BankItem(item.itemId, diff)];
      }
      i := i + 1;
    }
    assert before[..i] == before;
    ghost var fromBefore := results;
    var j := 0;
    while j < |after|
      invariant 0 <= j <= |after|
      invariant results == fromBefore + AfterOnly(after[..j], IdsOf(before))
    {
      assert after[..j + 1][..j] == after[..j];
      if after[j].itemId !in beforeItems {
        results := results + [after[j]];
      }
      j := j + 1;
    }
    assert after[..j] == after;
  }

  // ---------------------------------------------------------------------
  // Facts about item lists and the maps built from them

  lemma IdsOfSnoc(items: seq<BankItem>)
    requires items != []
    ensures IdsOf(items) == IdsOf(items[..|items| - 1]) + {items[|items| - 1].itemId}
  {
    var init := items[..|items| - 1];
    assert items == init + [items[|items| - 1]];
    forall id | id in IdsOf(items) ensures id in IdsOf(init) + {items[|items| - 1].itemId} {
      var x :| x in items && x.itemId == id;
      var k :| 0 <= k < |items| && items[k] == x;
      if k < |init| {
        assert init[k] == x;
      }
    }
  }

  lemma DistinctIdsSnoc(items: seq<BankItem>)
    requires items != [] && DistinctIds(items)
    ensures DistinctIds(items[..|items| - 1])
    ensures items[|items| - 1].itemId !in IdsOf(items[..|items| - 1])
  {
  }

  /** The map holds exactly the ids of the list. */
  lemma {:induction false} QuantitiesByIdKeys(items: seq<BankItem>)
    ensures QuantitiesById(items).Keys == IdsOf(items)
  {
    if items != [] {
      QuantitiesByIdKeys(items[..|items| - 1]);
      IdsOfSnoc(items);
    }
  }

  /** putting two lists one after the other: the later list's quantities win. */
  lemma {:induction false} QuantitiesByIdConcat(a: seq<BankItem>, b: seq<BankItem>)
    ensures QuantitiesById(a + b) == QuantitiesById(a) + QuantitiesById(b)
  {
    if b == [] {
      assert a + b == a;
    } else {
      var init := b[..|b| - 1];
      assert (a + b)[..|a + b| - 1] == a + init;
      QuantitiesByIdConcat(a, init);
    }
  }

  /** In a list without repeated ids, each item's quantity is the one recorded. */
  lemma {:induction false} QuantityOfMember(items: seq<BankItem>, k: int)
    requires DistinctIds(items) && 0 <= k < |items|
    ensures QuantityOf(items, items[k].itemId) == items[k].quantity
  {
    var n := |items|;
    if k < n - 1 {
      var init := items[..n - 1];
      DistinctIdsSnoc(items);
      assert init[k] == items[k];
      QuantityOfMember(init, k);
    }
  }

  /** An id the list does not hold has quantity 0. */
  lemma QuantityOfAbsent(items: seq<BankItem>, id: int32)
    requires id !in IdsOf(items)
    ensures QuantityOf(items, id) == 0
  {
    QuantitiesByIdKeys(items);
  }

  // ---------------------------------------------------------------------
  // What the two parts of the result hold

  /** The first part holds, for each item of `before`, its nonzero change. */
  lemma {:induction false} BeforeDeltasMembers(before: seq<BankItem>, m: map<int32, int32>, x: BankItem)
    ensures x in BeforeDeltas(before, m) <==>
      exists k :: 0 <= k < |before| && Delta(before[k], m) == [x]
  {
    if before != [] {
      var n := |before|;
      var init := before[..n - 1];
      BeforeDeltasMembers(init, m, x);
      if x in BeforeDeltas(before, m) && x !in BeforeDeltas(init, m) {
        assert Delta(before[n - 1], m) == [x];
      }
      if exists k :: 0 <= k < n && Delta(before[k], m) == [x] {
        var k :| 0 <= k < n && Delta(before[k], m) == [x];
        if k < n - 1 {
          assert init[k] == before[k];
        }
      }
    }
  }

  /** The second part holds exactly the items of `after` with an id outside `beforeIds`. */
  lemma {:induction false} AfterOnlyMembers(after: seq<BankItem>, beforeIds: set<int32>, x: BankItem)
    ensures x in AfterOnly(after, beforeIds) <==> x in after && x.itemId !in beforeIds
  {
    if after != [] {
      var init := after[..|after| - 1];
      AfterOnlyMembers(init, beforeIds, x);
      assert after == init + [after[|after| - 1]];
    }
  }

  /** Every change in the result is nonzero. */
  lemma {:induction false} BeforeDeltasNonzero(before: seq<BankItem>, m: map<int32, int32>)
    ensures forall x :: x in BeforeDeltas(before, m) ==> x.quantity != 0 && x.itemId in IdsOf(before)
  {
    forall x | x in BeforeDeltas(before, m) ensures x.quantity != 0 && x.itemId in IdsOf(before) {
      BeforeDeltasMembers(before, m, x);
      var k :| 0 <= k < |before| && Delta(before[k], m) == [x];
      assert before[k] in before;
    }
  }

  /** Each id of a list without repeats gets its change, or no entry when nothing changed. */
  lemma {:induction false} BeforeDeltasQuantities(before: seq<BankItem>, m: map<int32, int32>, id: int32)
    requires DistinctIds(before)
    ensures QuantityOf(BeforeDeltas(before, m), id)
      == if id in IdsOf(before) then Sub32(GetOrZero(m, id), QuantityOf(before, id)) else 0
  {
    if before != [] {
      var n := |before|;
      var init, b := before[..n - 1], before[n - 1];
      var prefix, d := BeforeDeltas(init, m), Delta(b, m);
      DistinctIdsSnoc(before);
      IdsOfSnoc(before);
      BeforeDeltasQuantities(init, m, id);
      QuantitiesByIdConcat(prefix, d);
      assert QuantityOf(BeforeDeltas(before, m), id)
        == GetOrZero(QuantitiesById(prefix) + QuantitiesById(d), id);
      if id == b.itemId {
        QuantityOfMember(before, n - 1);
        DeltaQuantity(b, m);
      } else {
        DeltaOtherId(b, m, id);
        assert QuantityOf(before, id) == QuantityOf(init, id);
      }
    }
  }

  /** The change recorded for an item's own id. */
  lemma DeltaQuantity(b: BankItem, m: map<int32, int32>)
    ensures GetOrZero(QuantitiesById(Delta(b, m)), b.itemId) == Sub32(GetOrZero(m, b.itemId), b.quantity)
    ensures b.itemId !in QuantitiesById(Delta(b, m)) ==> Sub32(GetOrZero(m, b.itemId), b.quantity) == 0
  {
    var d := Delta(b, m);
    if d != [] {
      assert d[..0] == [];
    }
  }

  /** A change records nothing for any other id. */
  lemma DeltaOtherId(b: BankItem, m: map<int32, int32>, id: int32)
    requires id != b.itemId
    ensures id !in QuantitiesById(Delta(b, m))
  {
    var d := Delta(b, m);
    if d != [] {
      assert d[..0] == [];
    }
  }

  /** The second part keeps the quantities of `after` for every id outside `beforeIds`. */
  lemma {:induction false} AfterOnlyQuantities(after: seq<BankItem>, beforeIds: set<int32>, id: int32)
    ensures QuantityOf(AfterOnly(after, beforeIds), id) == if id in beforeIds then 0 else QuantityOf(after, id)
  {
    if after != [] {
      var init, a := after[..|after| - 1], after[|after| - 1];
      AfterOnlyQuantities(init, beforeIds, id);
      QuantitiesByIdConcat(AfterOnly(init, beforeIds), if a.itemId in beforeIds then [] else [a]);
    }
  }

  lemma {:induction false} BeforeDeltasDistinct(before: seq<BankItem>, m: map<int32, int32>)
    requires DistinctIds(before)
    ensures DistinctIds(BeforeDeltas(before, m))
  {
    if before != [] {
      var n := |before|;
      var init := before[..n - 1];
      DistinctIdsSnoc(before);
      BeforeDeltasDistinct(init, m);
      BeforeDeltasNonzero(init, m);
      var r := BeforeDeltas(before, m);
      var p := BeforeDeltas(init, m);
      if |r| > |p| {
        assert r[|r| - 1].itemId == before[n - 1].itemId;
        forall k | 0 <= k < |p| ensures r[k].itemId != r[|r| - 1].itemId {
          assert r[k] == p[k] && p[k] in p;
        }
      }
    }
  }

  lemma {:induction false} AfterOnlyDistinct(after: seq<BankItem>, beforeIds: set<int32>)
    requires DistinctIds(after)
    ensures DistinctIds(AfterOnly(after, beforeIds))
  {
    if after != [] {
      var init, a := after[..|after| - 1], after[|after| - 1];
      DistinctIdsSnoc(after);
      AfterOnlyDistinct(init, beforeIds);
      var r := AfterOnly(after, beforeIds);
      var p := AfterOnly(init, beforeIds);
      if |r| > |p| {
        forall k | 0 <= k < |p| ensures r[k].itemId != a.itemId {
          assert r[k] == p[k] && p[k] in p;
          AfterOnlyMembers(init, beforeIds, p[k]);
        }
      }
    }
  }

  // ---------------------------------------------------------------------
  // The diff as a whole

  /** The diff contains exactly the nonzero changes of `before`'s items and
      the items whose id `before` lacks. */
  lemma DiffMembers(before: seq<BankItem>, after: seq<BankItem>, x: BankItem)
    ensures x in Diff(before, after) <==>
      (exists k :: 0 <= k < |before| && Delta(before[k], QuantitiesById(after)) == [x])
      || (x in after && x.itemId !in IdsOf(before))
  {
    BeforeDeltasMembers(before, QuantitiesById(after), x);
    AfterOnlyMembers(after, IdsOf(before), x);
  }

  /** For lists without repeated ids and with quantities that are not
      negative (as in a bank), the diff names each id at most once and
      before's quantity plus the diff's quantity is after's quantity, for
      every item id. */
  lemma DiffApplied(before: seq<BankItem>, after: seq<BankItem>, id: int32)
    requires DistinctIds(before) && DistinctIds(after)
    requires forall x :: x in before ==> x.quantity >= 0
    requires forall x :: x in after ==> x.quantity >= 0
    ensures DistinctIds(Diff(before, after))
    ensures QuantityOf(before, id) + QuantityOf(Diff(before, after), id) == QuantityOf(after, id)
  {
    var m := QuantitiesById(after);
    var bd, ao := BeforeDeltas(before, m), AfterOnly(after, IdsOf(before));
    BeforeDeltasDistinct(before, m);
    AfterOnlyDistinct(after, IdsOf(before));
    BeforeDeltasNonzero(before, m);
    forall i, j | 0 <= i < |bd| && 0 <= j < |ao| ensures bd[i].itemId != ao[j].itemId {
      assert bd[i] in bd && ao[j] in ao;
      AfterOnlyMembers(after, IdsOf(before), ao[j]);
    }
    assert DistinctIds(bd + ao) by {
      forall i, j | 0 <= i < j < |bd + ao| ensures (bd + ao)[i].itemId != (bd + ao)[j].itemId {
        if j < |bd| {
          assert (bd + ao)[i] == bd[i] && (bd + ao)[j] == bd[j];
        } else if i >= |bd| {
          assert (bd + ao)[i] == ao[i - |bd|] && (bd + ao)[j] == ao[j - |bd|];
        } else {
          assert (bd + ao)[i] == bd[i] && (bd + ao)[j] == ao[j - |bd|];
        }
      }
    }
    QuantitiesByIdConcat(bd, ao);
    BeforeDeltasQuantities(before, m, id);
    AfterOnlyQuantities(after, IdsOf(before), id);
    QuantityNonnegative(before, id);
    QuantityNonnegative(after, id);
    if id in IdsOf(before) {
      QuantitiesByIdKeys(ao);
      assert id !in IdsOf(ao) by {
        if id in IdsOf(ao) {
          var x :| x in ao && x.itemId == id;
          AfterOnlyMembers(after, IdsOf(before), x);
        }
      }
    } else {
      QuantityOfAbsent(before, id);
      QuantitiesByIdKeys(bd);
    }
  }

  lemma {:induction false} QuantityNonnegative(items: seq<BankItem>, id: int32)
    requires forall x :: x in items ==> x.quantity >= 0
    ensures QuantityOf(items, id) >= 0
  {
    if items != [] {
      var init := items[..|items| - 1];
      assert forall x :: x in init ==> x in items;
      QuantityNonnegative(init, id);
    }
  }

  /** Two lists that record the same quantity for every id (the same bank,
      possibly in another order) have an empty diff. */
  lemma SameQuantitiesNoDiff(before: seq<BankItem>, after: seq<BankItem>)
    requires DistinctIds(before) && QuantitiesById(after) == QuantitiesById(before)
    ensures Diff(before, after) == []
  {
    var m := QuantitiesById(after);
    QuantitiesByIdKeys(before);
    QuantitiesByIdKeys(after);
    if BeforeDeltas(before, m) != [] {
      var x := BeforeDeltas(before, m)[0];
      BeforeDeltasMembers(before, m, x);
      var k :| 0 <= k < |before| && Delta(before[k], m) == [x];
      QuantityOfMember(before, k);
    }
    if AfterOnly(after, IdsOf(before)) != [] {
      var x := AfterOnly(after, IdsOf(before))[0];
      AfterOnlyMembers(after, IdsOf(before), x);
    }
  }

  lemma {:induction false} BeforeDeltasLength(before: seq<BankItem>, m: map<int32, int32>)
    ensures |BeforeDeltas(before, m)| <= |before|
  {
    if before != [] {
      BeforeDeltasLength(before[..|before| - 1], m);
    }
  }

  lemma {:induction false} AfterOnlyLength(after: seq<BankItem>, beforeIds: set<int32>)
    ensures |AfterOnly(after, beforeIds)| <= |after|
  {
    if after != [] {
      AfterOnlyLength(after[..|after| - 1], beforeIds);
    }
  }

  /** The diff has at most one entry per item of either list. */
  lemma DiffLength(before: seq<BankItem>, after: seq<BankItem>)
    ensures |Diff(before, after)| <= |before| + |after|
  {
    BeforeDeltasLength(before, QuantitiesById(after));
    AfterOnlyLength(after, IdsOf(before));
  }

  /** In particular a list without repeated ids has no difference with itself. */
  lemma DiffWithItselfEmpty(items: seq<BankItem>)
    requires DistinctIds(items)
    ensures Diff(items, items) == []
  {
    SameQuantitiesNoDiff(items, items);
  }
}
