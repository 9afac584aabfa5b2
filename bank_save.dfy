/** BankSave (current generation): one remembered bank, either the latest
    "current" bank of an account on a world type or a named snapshot, with
    its factories. Every construction takes a fresh id from a process-wide
    counter. */
module BankSaves {
  import opened Wrappers
  import opened JavaInts
  import opened BankItems
  import opened BankWorldTypes

  /** The id of an empty bank slot. */
  const NULL_ITEM_ID: int32 := -1
  /** ItemID.BANK_FILLER, the client's bank-filler item. */
  const BANK_FILLER: int32 := 20594

  /** A null world type (saves written before world types existed) is None;
      a save made by fromCurrentBank has no name. */
  datatype BankSave = BankSave(
    id: int,
    worldType: Option<BankWorldType>,
    dateTimeString: string,
    accountIdentifier: string,
    saveName: Option<string>,
    itemData: seq<BankItem>)
  {
    /** getWorldType: DEFAULT stands in for a missing world type. */
    function GetWorldType(): (r: BankWorldType)
      ensures worldType.None? ==> r == DEFAULT
      ensures worldType.Some? ==> r == worldType.value
    {
      if worldType.None? then DEFAULT else worldType.value
    }
  }

  /** The constructor's id source: ID_BASE (the start-up clock reading) plus
      an incrementing counter. `issued` records every id handed out. */
  class IdSource {
    const idBase: int
    var counter: int
    ghost var issued: set<int>

    ghost predicate Valid()
      reads this
    {
      forall x :: x in issued ==> x <= idBase + counter
    }

    constructor (idBase: int)
      ensures Valid() && this.idBase == idBase && counter == 0 && issued == {}
    {
      this.idBase := idBase;
      counter := 0;
      issued := {};
    }

    /** ID_BASE + idIncrementer.incrementAndGet(): above every earlier id. */
    method NextId() returns (id: int)
      requires Valid()
      modifies this
      ensures Valid()
      ensures forall x :: x in old(issued) ==> x < id
      ensures counter == old(counter) + 1 && id == idBase + counter
      ensures issued == old(issued) + {id}
    {
      counter := counter + 1;
      id := idBase + counter;
      issued := issued + {id};
    }
  }

  /** isItemToClean: an empty slot or a bank filler. */
  predicate IsItemToClean(itemId: int32) {
    itemId == NULL_ITEM_ID || itemId == BANK_FILLER
  }

  /** The bank slots fromCurrentBank keeps: real items (not placeholders,
      whose id is not its own canonical id) that are not to be cleaned. */
  predicate IsKeptSlot(slot: BankItem, canonicalize: int32 -> int32) {
    canonicalize(slot.itemId) == slot.itemId && !IsItemToClean(slot.itemId)
  }

  function KeptSlots(contents: seq<BankItem>, canonicalize: int32 -> int32): seq<BankItem> {
    if contents == [] then []
    else
      var last := contents[|contents| - 1];
      KeptSlots(contents[..|contents| - 1], canonicalize) + (if IsKeptSlot(last, canonicalize) then [last] else [])
  }

  /** The stream filter of cleanItemData. */
  function CleanItems(items: seq<BankItem>): seq<BankItem> {
    if items == [] then []
    else
      var last := items[|items| - 1];
      CleanItems(items[..|items| - 1]) + (if IsItemToClean(last.itemId) then [] else [last])
  }

  /** The @VisibleForTesting constructor: the given fields and a fresh id. */
  method NewBankSave(ids: IdSource, worldType: Option<BankWorldType>, accountIdentifier: string,
                     saveName: Option<string>, dateTimeString: string, itemData: seq<BankItem>)
    returns (s: BankSave)
    requires ids.Valid()
    modifies ids
    ensures ids.Valid() && ids.issued == old(ids.issued) + {s.id}
    ensures forall x :: x in old(ids.issued) ==> x < s.id
    ensures s == BankSave(s.id, worldType, dateTimeString, accountIdentifier, saveName, itemData)
  {
    var id := ids.NextId();
    s := BankSave(id, worldType, dateTimeString, accountIdentifier, saveName, itemData);
  }

  /** fromCurrentBank: the kept slots of the bank container, in order, under
      the given world type and account, with no save name. The clock reading
      is a parameter; a null container is not modelled. */
  method FromCurrentBank(ids: IdSource, worldType: BankWorldType, accountIdentifier: string,
                         contents: seq<BankItem>, canonicalize: int32 -> int32, timeString: string)
    returns (s: BankSave)
    requires ids.Valid()
    modifies ids
    ensures ids.Valid() && ids.issued == old(ids.issued) + {s.id}
    ensures forall x :: x in old(ids.issued) ==> x < s.id
    ensures s == BankSave(s.id, Some(worldType), timeString, accountIdentifier, None, KeptSlots(contents, canonicalize))
  {
    var itemData: seq<BankItem> := [];
    var i := 0;
    while i < |contents|
      invariant 0 <= i <= |contents|
      invariant itemData == KeptSlots(contents[..i], canonicalize)
    {
      assert contents[..i + 1][..i] == contents[..i];
      var idInBank := contents[i].itemId;
      var canonId := canonicalize(idInBank);
      if idInBank != canonId {
        // a placeholder
      } else if IsItemToClean(idInBank) {
      } else {
        itemData := itemData + [BankItem(canonId, contents[i].quantity)];
      }
      i := i + 1;
    }
    assert contents[..i] == contents;
    s := NewBankSave(ids, Some(worldType), accountIdentifier, None, timeString, itemData);
  }

  /** snapshotFromExistingBank: a null name throws (Err) before any id is
      taken; otherwise a copy under the new name with a fresh id. */
  method SnapshotFromExistingBank(ids: IdSource, newName: Option<string>, existingBank: BankSave)
    returns (r: Result<BankSave, string>)
    requires ids.Valid()
    modifies ids
    ensures ids.Valid()
    ensures r.Err? <==> newName.None?
    ensures r.Err? ==> unchanged(ids)
    ensures r.Ok? ==> ids.issued == old(ids.issued) + {r.value.id}
    ensures r.Ok? ==> (forall x :: x in old(ids.issued) ==> x < r.value.id) &&
                      r.value == existingBank.(id := r.value.id, saveName := newName)
  {
    if newName.None? {
      return Err("NullPointerException");
    }
    var s := NewBankSave(ids, existingBank.worldType, existingBank.accountIdentifier, newName,
                         existingBank.dateTimeString, existingBank.itemData);
    return Ok(s);
  }

  /** cleanItemData: the same save without empty slots and bank fillers,
      under a fresh id. */
  method CleanItemData(ids: IdSource, existingBank: BankSave) returns (s: BankSave)
    requires ids.Valid()
    modifies ids
    ensures ids.Valid() && ids.issued == old(ids.issued) + {s.id}
    ensures forall x :: x in old(ids.issued) ==> x < s.id
    ensures s == existingBank.(id := s.id, itemData := CleanItems(existingBank.itemData))
  {
    s := NewBankSave(ids, existingBank.worldType, existingBank.accountIdentifier, existingBank.saveName,
                     existingBank.dateTimeString, CleanItems(existingBank.itemData));
  }

  /** withNewAccountId: the same save moved to another account id, under a
      fresh id. */
  method WithNewAccountId(ids: IdSource, newAccountId: string, existingBank: BankSave) returns (s: BankSave)
    requires ids.Valid()
    modifies ids
    ensures ids.Valid() && ids.issued == old(ids.issued) + {s.id}
    ensures forall x :: x in old(ids.issued) ==> x < s.id
    ensures s == existingBank.(id := s.id, accountIdentifier := newAccountId)
  {
    s := NewBankSave(ids, existingBank.worldType, newAccountId, existingBank.saveName,
                     existingBank.dateTimeString, existingBank.itemData);
  }

  // ---------------------------------------------------------------------
  // Properties of the item filters

  /** fromCurrentBank keeps exactly the kept slots, each unchanged, and no more
      slots than the container has. */
  lemma {:induction false} KeptSlotsMeaning(contents: seq<BankItem>, canonicalize: int32 -> int32)
    ensures |KeptSlots(contents, canonicalize)| <= |contents|
    ensures forall x :: x in KeptSlots(contents, canonicalize) <==> x in contents && IsKeptSlot(x, canonicalize)
  {
    if contents != [] {
      var init := contents[..|contents| - 1];
      KeptSlotsMeaning(init, canonicalize);
      assert contents == init + [contents[|contents| - 1]];
    }
  }

  /** The filter keeps the container's order: it distributes over concatenation. */
  lemma {:induction false} KeptSlotsAppend(a: seq<BankItem>, b: seq<BankItem>, canonicalize: int32 -> int32)
    ensures KeptSlots(a + b, canonicalize) == KeptSlots(a, canonicalize) + KeptSlots(b, canonicalize)
  {
    if b != [] {
      var init := b[..|b| - 1];
      assert (a + b)[..|a + b| - 1] == a + init;
      KeptSlotsAppend(a, init, canonicalize);
    } else {
      assert a + b == a;
    }
  }

  /** cleanItemData removes exactly the empty slots and fillers. */
  lemma {:induction false} CleanItemsMeaning(items: seq<BankItem>)
    ensures |CleanItems(items)| <= |items|
    ensures forall x :: x in CleanItems(items) <==> x in items && !IsItemToClean(x.itemId)
  {
    if items != [] {
      var init := items[..|items| - 1];
      CleanItemsMeaning(init);
      assert items == init + [items[|items| - 1]];
    }
  }

  /** The filter keeps the list's order: it distributes over concatenation. */
  lemma {:induction false} CleanItemsAppend(a: seq<BankItem>, b: seq<BankItem>)
    ensures CleanItems(a + b) == CleanItems(a) + CleanItems(b)
  {
    if b != [] {
      var init := b[..|b| - 1];
      assert (a + b)[..|a + b| - 1] == a + init;
      CleanItemsAppend(a, init);
    } else {
      assert a + b == a;
    }
  }

  /** A list with nothing to clean is left as it is. */
  lemma {:induction false} CleanItemsNothingToClean(items: seq<BankItem>)
    requires forall j :: 0 <= j < |items| ==> !IsItemToClean(items[j].itemId)
    ensures CleanItems(items) == items
  {
    if items != [] {
      CleanItemsNothingToClean(items[..|items| - 1]);
    }
  }

  /** Cleaning twice gives the same items as cleaning once. */
  lemma CleanItemsIdempotent(items: seq<BankItem>)
    ensures CleanItems(CleanItems(items)) == CleanItems(items)
  {
    CleanItemsMeaning(items);
    var c := CleanItems(items);
    assert forall j :: 0 <= j < |c| ==> c[j] in c;
    CleanItemsNothingToClean(c);
  }

  /** The items fromCurrentBank keeps survive the load-time cleaning unchanged. */
  lemma CleanItemsOfKeptSlots(contents: seq<BankItem>, canonicalize: int32 -> int32)
    ensures CleanItems(KeptSlots(contents, canonicalize)) == KeptSlots(contents, canonicalize)
  {
    KeptSlotsMeaning(contents, canonicalize);
    var k := KeptSlots(contents, canonicalize);
    assert forall j :: 0 <= j < |k| ==> k[j] in k;
    CleanItemsNothingToClean(k);
  }
}
