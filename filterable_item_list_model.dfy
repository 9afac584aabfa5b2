/** FilterableItemListModel: the Swing ListModel behind the item lists. It
    keeps the raw entries, a lower-cased filter and the raw positions of
    the entries that pass it, and tells its listeners when the view changes. */
module FilterableItemListModels {
  import opened Wrappers
  import opened JavaInts
  import opened JavaStrings
  import opened JavaLists

  /** An entry of the list: an item name and an icon, told apart by identity. */
  datatype ItemListEntry = ItemListEntry(itemName: string, image: nat)

  /** A registered ListDataListener, told apart by identity. */
  type ListenerId = nat

  /** contentsChanged(ListDataEvent(CONTENTS_CHANGED, 0, getSize() - 1)) to one
      listener, with the indexes as the event reports them: ListDataEvent
      stores the smaller of its two index arguments as index0 and the larger
      as index1. */
  datatype ContentsChanged = ContentsChanged(listener: ListenerId, index0: int, index1: int)

  /** The event fireListeners builds for a view of `size` entries: (0, size - 1),
      which for an empty view ListDataEvent reports as (-1, 0). */
  function ViewChanged(listener: ListenerId, size: nat): (e: ContentsChanged)
    ensures e.listener == listener && e.index0 <= e.index1
    ensures {e.index0, e.index1} == {0, size - 1}
  {
    if size == 0 then ContentsChanged(listener, -1, 0) else ContentsChanged(listener, 0, size - 1)
  }

  /** 0, 1, ..., n - 1. */
  function Range(n: nat): (r: seq<int>)
    ensures |r| == n && forall i :: 0 <= i < n ==> r[i] == i
  {
    seq(n, i => i)
  }

  /** An entry passes a non-empty lower-cased filter when its lower-cased
      name contains it. */
  predicate Passes(entry: ItemListEntry, lcFilter: string) {
    Contains(ToLowerCase(entry.itemName), lcFilter)
  }

  /** The raw positions of the entries passing a non-empty filter, in order. */
  function Passing(raw: seq<ItemListEntry>, lcFilter: string): seq<int> {
    if raw == [] then []
    else Passing(raw[..|raw| - 1], lcFilter) + (if Passes(raw[|raw| - 1], lcFilter) then [|raw| - 1] else [])
  }

  /** The index list applyFilterSilently computes: every position for an
      empty filter, the passing ones (ignoring case) otherwise. */
  function MatchingIndexes(raw: seq<ItemListEntry>, filterString: string): seq<int> {
    if filterString == "" then Range(|raw|) else Passing(raw, ToLowerCase(filterString))
  }

  /** getAdjustedIndex's result as a function of the index list: Guava's
      checkElementIndex messages for a position outside the raw list, else
      the position of rawIndex in the index list, or -1. */
  function AdjustedIndex(postFilterIndexes: seq<int>, rawSize: nat, rawIndex: int): Result<int, string> {
    if rawIndex < 0 then Err("index (" + IntToString(rawIndex) + ") must not be negative")
    else if rawIndex >= rawSize then
      Err("index (" + IntToString(rawIndex) + ") must be less than size (" + IntToString(rawSize) + ")")
    else
      match IndexOfFirst(postFilterIndexes, (j: int) => j == rawIndex)
      case None => Ok(-1 as int)
      case Some(p) => Ok(p as int)
  }

  /** The calls fireListeners makes: one per listener, in order, each
      naming the whole view. */
  function Fired(listeners: seq<ListenerId>, size: nat): seq<ContentsChanged> {
    seq(|listeners|, i requires 0 <= i < |listeners| => ViewChanged(listeners[i], size))
  }

  /** unfilteredIndexList: a loop adding 0 .. numElements - 1. */
  method UnfilteredIndexList(numElements: nat) returns (indexes: seq<int>)
    ensures indexes == Range(numElements)
  {
    indexes := [];
    var i := 0;
    while i < numElements
      invariant 0 <= i <= numElements
      invariant indexes == Range(i)
    {
      indexes := indexes + [i];
      i := i + 1;
    }
  }

  class FilterableItemListModel {
    var rawListContents: seq<ItemListEntry>
    var lcFilterString: string
    var postFilterIndexes: seq<int>
    var listeners: seq<ListenerId>
    /** Every listener call so far, oldest first. */
    var events: seq<ContentsChanged>

    /** The index list always is the filter's view of the raw list. */
    ghost predicate Valid()
      reads this
    {
      lcFilterString == ToLowerCase(lcFilterString) &&
      postFilterIndexes == MatchingIndexes(rawListContents, lcFilterString)
    }

    constructor ()
      ensures Valid() && rawListContents == [] && lcFilterString == "" && postFilterIndexes == []
      ensures listeners == [] && events == []
    {
      rawListContents := [];
      lcFilterString := "";
      postFilterIndexes := [];
      listeners := [];
      events := [];
    }

    /** setListContents: the new raw list under the same filter, and every
      listener told once. */
    method SetListContents(contents: seq<ItemListEntry>)
      requires Valid()
      modifies this
      ensures Valid() && rawListContents == contents && lcFilterString == old(lcFilterString)
      ensures postFilterIndexes == MatchingIndexes(contents, old(lcFilterString))
      ensures listeners == old(listeners) && events == old(events) + Fired(listeners, |postFilterIndexes|)
    {
      rawListContents := contents;
      ApplyFilterSilently(lcFilterString);
      FireListeners();
    }

    method FireListeners()
      modifies this
      ensures events == old(events) + Fired(listeners, |postFilterIndexes|)
      ensures rawListContents == old(rawListContents) && lcFilterString == old(lcFilterString)
      ensures postFilterIndexes == old(postFilterIndexes) && listeners == old(listeners)
    {
      var fired := Fired(listeners, |postFilterIndexes|);
      var i := 0;
      while i < |listeners|
        invariant rawListContents == old(rawListContents) && lcFilterString == old(lcFilterString)
        invariant postFilterIndexes == old(postFilterIndexes) && listeners == old(listeners)
        invariant 0 <= i <= |listeners|
        invariant events == old(events) + fired[..i]
      {
        assert fired[..i + 1] == fired[..i] + [fired[i]];
        events := events + [ViewChanged(listeners[i], |postFilterIndexes|)];
        i := i + 1;
      }
      assert fired[..i] == fired;
    }

    /** clearList: setListContents of an empty list. */
    method ClearList()
      requires Valid()
      modifies this
      ensures Valid() && rawListContents == [] && postFilterIndexes == []
      ensures lcFilterString == old(lcFilterString)
      ensures listeners == old(listeners) && events == old(events) + Fired(listeners, |postFilterIndexes|)
    {
      SetListContents([]);
    }

    /** getSize: the number of entries in view. */
    function GetSize(): (n: nat)
      reads this
      requires Valid()
      ensures n <= |rawListContents|
      ensures lcFilterString == "" ==> n == |rawListContents|
    {
      MatchingIndexesMeaning(rawListContents, lcFilterString);
      IndexesBounded(postFilterIndexes, |rawListContents|);
      |postFilterIndexes|
    }

    /** getElementAt: the raw entry at the index-th position in view; None
      stands for the IndexOutOfBoundsException of a bad position. */
    function GetElementAt(index: int): (r: Option<ItemListEntry>)
      reads this
      requires Valid()
      ensures r.Some? <==> 0 <= index < |postFilterIndexes|
      ensures r.Some? ==> r.value in rawListContents && (lcFilterString == "" || Passes(r.value, lcFilterString))
    {
      if 0 <= index < |postFilterIndexes| then
        MatchingIndexesMeaning(rawListContents, lcFilterString);
        Some(rawListContents[postFilterIndexes[index]])
      else None
    }

    method AddListDataListener(l: ListenerId)
      modifies this
      ensures listeners == old(listeners) + [l]
      ensures rawListContents == old(rawListContents) && lcFilterString == old(lcFilterString)
      ensures postFilterIndexes == old(postFilterIndexes) && events == old(events)
    {
      listeners := listeners + [l];
    }

    method RemoveListDataListener(l: ListenerId)
      modifies this
      ensures listeners == RemoveFirst(old(listeners), l)
      ensures rawListContents == old(rawListContents) && lcFilterString == old(lcFilterString)
      ensures postFilterIndexes == old(postFilterIndexes) && events == old(events)
    {
      listeners := RemoveFirst(listeners, l);
    }

    /** applyFilter: the new view; listeners are told only if it differs
      from the old one. */
    method ApplyFilter(filterString: string)
      requires Valid()
      modifies this
      ensures Valid() && rawListContents == old(rawListContents) && listeners == old(listeners)
      ensures lcFilterString == ToLowerCase(filterString)
      ensures postFilterIndexes == MatchingIndexes(old(rawListContents), filterString)
      ensures events == old(events) + (if postFilterIndexes == old(postFilterIndexes) then [] else Fired(listeners, |postFilterIndexes|))
    {
      var oldIndexes := postFilterIndexes;
      ApplyFilterSilently(filterString);
      if oldIndexes != postFilterIndexes {
        FireListeners();
      }
    }

    /** applyFilterSilently: lower-cases and keeps the filter, and rebuilds
      the index list without telling anyone. */
    method ApplyFilterSilently(filterString: string)
      modifies this
      ensures Valid() && lcFilterString == ToLowerCase(filterString)
      ensures postFilterIndexes == MatchingIndexes(rawListContents, filterString)
      ensures rawListContents == old(rawListContents) && listeners == old(listeners) && events == old(events)
    {
      lcFilterString := ToLowerCase(filterString);
      MatchingIndexesOfLowerCase(rawListContents, filterString);
      if filterString == "" {
        postFilterIndexes := UnfilteredIndexList(|rawListContents|);
        return;
      }
      var indexes: seq<int> := [];
      var i := 0;
      while i < |rawListContents|
        invariant 0 <= i <= |rawListContents|
        invariant indexes == Passing(rawListContents[..i], lcFilterString)
      {
        assert rawListContents[..i + 1][..i] == rawListContents[..i];
        if Contains(ToLowerCase(rawListContents[i].itemName), lcFilterString) {
          indexes := indexes + [i];
        }
        i := i + 1;
      }
      assert rawListContents[..i] == rawListContents;
      postFilterIndexes := indexes;
    }

    /** clearFilter: applyFilter(""), which brings back every entry. */
    method ClearFilter()
      requires Valid()
      modifies this
      ensures Valid() && rawListContents == old(rawListContents) && lcFilterString == ""
      ensures postFilterIndexes == Range(|rawListContents|)
      ensures listeners == old(listeners)
      ensures events == old(events) + (if postFilterIndexes == old(postFilterIndexes) then [] else Fired(listeners, |postFilterIndexes|))
    {
      ApplyFilter("");
    }

    /** getAdjustedIndex. */
    function GetAdjustedIndex(rawIndex: int): (r: Result<int, string>)
      reads this
      requires Valid()
      ensures r.Err? <==> !(0 <= rawIndex < |rawListContents|)
      ensures r.Ok? && r.value != -1 ==> GetElementAt(r.value) == Some(rawListContents[rawIndex])
    {
      AdjustedIndexMeaning(rawListContents, lcFilterString, rawIndex);
      AdjustedIndex(postFilterIndexes, |rawListContents|, rawIndex)
    }
  }

  // ---------------------------------------------------------------------
  // Properties of the view

  lemma {:induction false} PassingMeaning(raw: seq<ItemListEntry>, lcFilter: string)
    ensures forall k :: 0 <= k < |Passing(raw, lcFilter)| ==> 0 <= Passing(raw, lcFilter)[k] < |raw|
    ensures forall k, l :: 0 <= k < l < |Passing(raw, lcFilter)| ==> Passing(raw, lcFilter)[k] < Passing(raw, lcFilter)[l]
    ensures forall i :: 0 <= i < |raw| ==> (i in Passing(raw, lcFilter) <==> Passes(raw[i], lcFilter))
  {
    if raw != [] {
      var init := raw[..|raw| - 1];
      PassingMeaning(init, lcFilter);
      assert forall i :: 0 <= i < |init| ==> init[i] == raw[i];
    }
  }

  /** A strictly increasing list of positions below n has at most n entries. */
  lemma {:induction false} IndexesBounded(ix: seq<int>, n: nat)
    requires forall k :: 0 <= k < |ix| ==> 0 <= ix[k] < n
    requires forall k, l :: 0 <= k < l < |ix| ==> ix[k] < ix[l]
    ensures |ix| <= n
  {
    if ix != [] {
      var last := ix[|ix| - 1];
      IndexesBounded(ix[..|ix| - 1], last);
    }
  }

  /** The view invariant: the index list is strictly increasing, within the
      raw list, and holds exactly the positions whose entry passes the filter
      (every position for an empty filter). */
  lemma MatchingIndexesMeaning(raw: seq<ItemListEntry>, filterString: string)
    ensures var ix := MatchingIndexes(raw, filterString);
      (forall k :: 0 <= k < |ix| ==> 0 <= ix[k] < |raw|) &&
      (forall k, l :: 0 <= k < l < |ix| ==> ix[k] < ix[l]) &&
      (forall i :: 0 <= i < |raw| ==>
         (i in ix <==> filterString == "" || Passes(raw[i], ToLowerCase(filterString))))
  {
    if filterString != "" {
      PassingMeaning(raw, ToLowerCase(filterString));
    } else {
      forall i | 0 <= i < |raw| ensures i in Range(|raw|) {
        assert Range(|raw|)[i] == i;
      }
    }
  }

  /** Filtering by the lower-cased filter is filtering by the filter itself. */
  lemma MatchingIndexesOfLowerCase(raw: seq<ItemListEntry>, filterString: string)
    ensures MatchingIndexes(raw, ToLowerCase(filterString)) == MatchingIndexes(raw, filterString)
  {
    ToLowerCaseIdempotent(filterString);
  }

  /** getAdjustedIndex fails exactly outside the raw list; otherwise it
      gives -1 for a filtered-out entry, and for one in view its position in
      the view, where getElementAt finds it again. */
  lemma AdjustedIndexMeaning(raw: seq<ItemListEntry>, filterString: string, rawIndex: int)
    ensures var ix := MatchingIndexes(raw, filterString);
      var r := AdjustedIndex(ix, |raw|, rawIndex);
      (r.Err? <==> !(0 <= rawIndex < |raw|)) &&
      (r.Ok? ==> (r.value == -1 <==> !(filterString == "" || Passes(raw[rawIndex], ToLowerCase(filterString))))) &&
      (r.Ok? && r.value != -1 ==> 0 <= r.value < |ix| && ix[r.value] == rawIndex)
  {
    MatchingIndexesMeaning(raw, filterString);
  }

  // ---------------------------------------------------------------------
  // The list of the unit tests

  function TestEntries(): seq<ItemListEntry> {
    [ItemListEntry("Dragon Scimitar", 0), ItemListEntry("Rune axe", 1), ItemListEntry("Rune dagger", 2),
     ItemListEntry("Magic staff", 3), ItemListEntry("Air rune", 4)]
  }

  lemma TestEntriesPassing()
    ensures Passes(TestEntries()[1], "rune") && Passes(TestEntries()[2], "rune") && Passes(TestEntries()[4], "rune")
  {
    assert OccursAt(ToLowerCase("Rune axe"), "rune", 0);
    assert OccursAt(ToLowerCase("Rune dagger"), "rune", 0);
    assert OccursAt(ToLowerCase("Air rune"), "rune", 4);
  }

  lemma TestEntriesFilteredOut()
    ensures !Passes(TestEntries()[0], "rune") && !Passes(TestEntries()[3], "rune")
  {
    assert ToLowerCase("Dragon Scimitar") == "dragon scimitar";
    MissingCharNotContained(ToLowerCase("Dragon Scimitar"), "rune", 1);
    assert ToLowerCase("Magic staff") == "magic staff";
    MissingCharNotContained(ToLowerCase("Magic staff"), "rune", 1);
  }

  /** Filtering "RuNe" keeps positions 1, 2 and 4. */
  lemma FilterVector()
    ensures MatchingIndexes(TestEntries(), "RuNe") == [1, 2, 4]
  {
    var raw := TestEntries();
    assert ToLowerCase("RuNe") == "rune";
    TestEntriesPassing();
    TestEntriesFilteredOut();
    assert Passing(raw[..1], "rune") == [] by { assert raw[..1][..0] == []; }
    assert Passing(raw[..2], "rune") == [1] by { assert raw[..2][..1] == raw[..1]; }
    assert Passing(raw[..3], "rune") == [1, 2] by { assert raw[..3][..2] == raw[..2]; }
    assert Passing(raw[..4], "rune") == [1, 2] by { assert raw[..4][..3] == raw[..3]; }
    assert raw[..5][..4] == raw[..4] && raw[..5] == raw;
  }

  /** With that view getAdjustedIndex maps 0..4 to -1, 0, 1, -1, 2. */
  lemma AdjustedIndexVector()
    ensures AdjustedIndex([1, 2, 4], 5, 0) == Ok(-1) && AdjustedIndex([1, 2, 4], 5, 1) == Ok(0)
    ensures AdjustedIndex([1, 2, 4], 5, 2) == Ok(1) && AdjustedIndex([1, 2, 4], 5, 3) == Ok(-1)
    ensures AdjustedIndex([1, 2, 4], 5, 4) == Ok(2)
  {
  }

  /** A negative position is rejected with Guava's message. */
  lemma NegativeIndexVector(ix: seq<int>)
    ensures AdjustedIndex(ix, 5, -1) == Err("index (-1) must not be negative")
  {
    assert IntToString(-1) == "-1" by {
      assert NatToString(1) == "1";
    }
    assert "index (" + "-1" + ") must not be negative" == "index (-1) must not be negative";
  }

  lemma HundredThousandDigits()
    ensures IntToString(100000) == "100000"
  {
    assert NatToString(10) == "10";
    assert NatToString(100) == "100";
    assert NatToString(1000) == "1000";
    assert NatToString(10000) == "10000";
    assert NatToString(100000) == NatToString(10000) + ['0'];
  }

  lemma TooLargeIndexMessage()
    ensures "index (" + IntToString(100000) + ") must be less than size (" + IntToString(5) + ")"
      == "index (100000) must be less than size (5)"
  {
    HundredThousandDigits();
    assert IntToString(5) == "5";
    assert "index (" + "100000" + ") must be less than size (" + "5" + ")"
      == "index (100000) must be less than size (5)";
  }

  /** A position past the end of a five-entry list is rejected with Guava's message. */
  lemma TooLargeIndexVector(ix: seq<int>)
    ensures AdjustedIndex(ix, 5, 100000) == Err("index (100000) must be less than size (5)")
  {
    TooLargeIndexMessage();
  }
}
