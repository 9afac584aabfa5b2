/** The first generation's bank save (package com.bankmemory): a user name,
    a time string and the bank's items, compared by value. Its Item is the
    same (itemId, quantity) pair of Java ints as BankItem. */
module LegacyBankSaves {
  import opened JavaInts
  import opened BankItems

  datatype LegacyBankSave = LegacyBankSave(userName: string, timeString: string, bankData: seq<BankItem>)

  /** A slot fromBank keeps: not a placeholder, i.e. its id is its own canonical id. */
  predicate IsRealItem(slot: BankItem, canonicalize: int32 -> int32) {
    canonicalize(slot.itemId) == slot.itemId
  }

  function RealItems(contents: seq<BankItem>, canonicalize: int32 -> int32): seq<BankItem> {
    if contents == [] then []
    else
      var last := contents[|contents| - 1];
      RealItems(contents[..|contents| - 1], canonicalize) + (if IsRealItem(last, canonicalize) then [last] else [])
  }

  /** fromBank: the container's real items in order, under the client's user
      name; the formatted clock reading is a parameter. */
  method FromBank(contents: seq<BankItem>, canonicalize: int32 -> int32, userName: string, timeString: string)
    returns (s: LegacyBankSave)
    ensures s == LegacyBankSave(userName, timeString, RealItems(contents, canonicalize))
  {
    var bankData: seq<BankItem> := [];
    var i := 0;
    while i < |contents|
      invariant 0 <= i <= |contents|
      invariant bankData == RealItems(contents[..i], canonicalize)
    {
      assert contents[..i + 1][..i] == contents[..i];
      var idInBank := contents[i].itemId;
      var canonId := canonicalize(idInBank);
      if idInBank == canonId {
        bankData := bankData + [BankItem(canonId, contents[i].quantity)];
      }
      i := i + 1;
    }
    assert contents[..i] == contents;
    s := LegacyBankSave(userName, timeString, bankData);
  }

  /** fromBank keeps exactly the real items (each with its canonical id and
      its own quantity), never more than the container holds. */
  lemma {:induction false} RealItemsMeaning(contents: seq<BankItem>, canonicalize: int32 -> int32)
    ensures |RealItems(contents, canonicalize)| <= |contents|
    ensures forall x :: x in RealItems(contents, canonicalize) <==> x in contents && canonicalize(x.itemId) == x.itemId
  {
    if contents != [] {
      var init := contents[..|contents| - 1];
      RealItemsMeaning(init, canonicalize);
      assert contents == init + [contents[|contents| - 1]];
    }
  }

  /** The container's order is kept: the filter distributes over concatenation. */
  lemma {:induction false} RealItemsAppend(a: seq<BankItem>, b: seq<BankItem>, canonicalize: int32 -> int32)
    ensures RealItems(a + b, canonicalize) == RealItems(a, canonicalize) + RealItems(b, canonicalize)
  {
    if b != [] {
      var init := b[..|b| - 1];
      assert (a + b)[..|a + b| - 1] == a + init;
      RealItemsAppend(a, init, canonicalize);
    } else {
      assert a + b == a;
    }
  }

  /** A bank without placeholders is saved whole. */
  lemma {:induction false} RealItemsWithoutPlaceholders(contents: seq<BankItem>, canonicalize: int32 -> int32)
    requires forall i :: 0 <= i < |contents| ==> canonicalize(contents[i].itemId) == contents[i].itemId
    ensures RealItems(contents, canonicalize) == contents
  {
    if contents != [] {
      RealItemsWithoutPlaceholders(contents[..|contents| - 1], canonicalize);
    }
  }
}
