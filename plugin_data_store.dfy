/** PluginDataStore: the plugin's in-memory state (the current-bank list,
    the snapshot list and the case-insensitive login-to-display-name map),
    the operations that change it, and the configuration writes and
    listener notifications each one causes, recorded in order as events. */
module PluginDataStores {
  import opened Wrappers
  import opened JavaStrings
  import opened JavaLists
  import opened BankWorldTypes
  import opened BankSaves
  import opened CaseInsensitiveMaps
  import opened DisplayNameMappers
  import opened AccountIdentifiers
  import opened JavaInts

  /** A registered DataStoreUpdateListener, told apart by identity. */
  type ListenerId = nat

  datatype Notification = CurrentBanksListChanged | SnapshotBanksListChanged | DisplayNameMapUpdated

  /** What the store hands to ConfigReaderWriter, and each listener call. */
  datatype Event =
    | WriteCurrentBanks(banks: seq<BankSave>)
    | WriteBankSnapshots(banks: seq<BankSave>)
    | WriteNameMap(nameMap: seq<Entry>)
    | Notified(listener: ListenerId, notification: Notification)

  /** listenersCopy.forEach(n): one call per listener, in registration order. */
  function NotifyAll(listeners: seq<ListenerId>, n: Notification): seq<Event> {
    seq(|listeners|, i requires 0 <= i < |listeners| => Notified(listeners[i], n))
  }

  /** Two saves occupy the same "current bank" slot: the same account id
      ignoring case and the same world type. */
  predicate SameSlot(a: BankSave, b: BankSave) {
    EqualsIgnoreCase(a.accountIdentifier, b.accountIdentifier) && a.GetWorldType() == b.GetWorldType()
  }

  /** At most one current save per (case-folded account id, world type). */
  predicate UniqueSlots(saves: seq<BankSave>) {
    forall i, j :: 0 <= i < j < |saves| ==> !SameSlot(saves[i], saves[j])
  }

  /** The query of getDataForCurrentBank: nothing for a null or empty
      account id; otherwise a current save of that account (ignoring case)
      on that world type, if there is one. findAny is modelled as the first
      match. */
  function CurrentSaveFor(saves: seq<BankSave>, worldType: BankWorldType, accountIdentifier: Option<string>): (r: Option<BankSave>)
    ensures r.Some? ==> accountIdentifier.Some? && r.value in saves && r.value.GetWorldType() == worldType &&
                        EqualsIgnoreCase(r.value.accountIdentifier, accountIdentifier.value)
    ensures r.None? <==> (accountIdentifier.None? || accountIdentifier.value == "" ||
                          forall i :: 0 <= i < |saves| ==>
                            !(saves[i].GetWorldType() == worldType &&
                              EqualsIgnoreCase(saves[i].accountIdentifier, accountIdentifier.value)))
  {
    if accountIdentifier.None? || accountIdentifier.value == "" then None
    else FindFirst(saves, (s: BankSave) => s.GetWorldType() == worldType
                                           && EqualsIgnoreCase(s.accountIdentifier, accountIdentifier.value))
  }

  /** The query of getBankSaveWithId: the first save with the id, the
      current list searched before the snapshot list. */
  function SaveWithId(current: seq<BankSave>, snapshots: seq<BankSave>, id: int): (r: Option<BankSave>)
    ensures r.Some? ==> r.value.id == id && (r.value in current || r.value in snapshots)
    ensures r.Some? && HasId(current, id) ==> r.value in current
    ensures r.None? <==> !HasId(current, id) && !HasId(snapshots, id)
    ensures forall k :: 0 <= k < |current| && current[k].id == id && (forall j :: 0 <= j < k ==> current[j].id != id) ==>
      r == Some(current[k])
    ensures !HasId(current, id) ==>
      forall k :: 0 <= k < |snapshots| && snapshots[k].id == id && (forall j :: 0 <= j < k ==> snapshots[j].id != id) ==>
        r == Some(snapshots[k])
  {
    var all := current + snapshots;
    var r := FindFirst(all, (s: BankSave) => s.id == id);
    assert forall i :: 0 <= i < |current| ==> all[i] == current[i];
    assert forall i :: 0 <= i < |snapshots| ==> all[|current| + i] == snapshots[i];
    r
  }

  /** The current list after saveAsCurrentBank: the first save in the new
      save's slot is removed and the new save goes first. */
  function ReplacedCurrent(saves: seq<BankSave>, newSave: BankSave): seq<BankSave> {
    match IndexOfFirst(saves, s => SameSlot(s, newSave))
    case None => [newSave] + saves
    case Some(i) => [newSave] + RemoveAt(saves, i)
  }

  /** A list after removeBankSaveWithIdFromList: its first save with the id removed. */
  function WithoutId(saves: seq<BankSave>, id: int): seq<BankSave> {
    match IndexOfFirst(saves, (s: BankSave) => s.id == id)
    case None => saves
    case Some(i) => RemoveAt(saves, i)
  }

  predicate HasId(saves: seq<BankSave>, id: int) {
    exists i :: 0 <= i < |saves| && saves[i].id == id
  }

  /** The search of registerDisplayNameForAccountId: the first key in
      case-insensitive order that is not a new-style id and is mapped to the
      display name (equal case-sensitively). */
  function OldStyleIdFor(nameMap: seq<Entry>, displayName: string): Option<string> {
    match IndexOfFirst(nameMap, (e: Entry) => !StartsWith(e.key, ACCOUNT_HASH_ID_PREFIX) && e.value == displayName)
    case None => None
    case Some(i) => Some(nameMap[i].key)
  }

  /** The list writes of claimExistingSavesForNewAccountId, for the lists that changed. */
  function ClaimWrites(currentChanged: bool, snapshotsChanged: bool,
                       current: seq<BankSave>, snapshots: seq<BankSave>): seq<Event> {
    (if currentChanged then [WriteCurrentBanks(current)] else [])
    + (if snapshotsChanged then [WriteBankSnapshots(snapshots)] else [])
  }

  predicate OwnsAny(saves: seq<BankSave>, accountId: string) {
    exists i :: 0 <= i < |saves| && saves[i].accountIdentifier == accountId
  }

  /** The first n positions of after are those of before with every save of
      account oldId (compared case-sensitively) replaced in place by a copy
      for newId carrying an id above every id in issued, and every other save
      untouched. The copies are made in list order, each taking the next id,
      so their ids increase along the list. */
  ghost predicate ReclaimedUpTo(before: seq<BankSave>, after: seq<BankSave>, n: nat, oldId: string, newId: string, issued: set<int>)
    requires n <= |before| == |after|
  {
    (forall k :: 0 <= k < n ==>
      if before[k].accountIdentifier == oldId then
        after[k] == before[k].(id := after[k].id, accountIdentifier := newId) &&
        forall x :: x in issued ==> x < after[k].id
      else after[k] == before[k]) &&
    forall k, l :: 0 <= k < l < n && before[k].accountIdentifier == oldId && before[l].accountIdentifier == oldId ==>
      after[k].id < after[l].id
  }

  /** after is before with every save of oldId reclaimed for newId. */
  ghost predicate Reclaimed(before: seq<BankSave>, after: seq<BankSave>, oldId: string, newId: string, issued: set<int>) {
    |after| == |before| && ReclaimedUpTo(before, after, |before|, oldId, newId, issued)
  }

  /** The ids the reclaimed copies among the first n positions took. */
  ghost function ReclaimedIdsUpTo(before: seq<BankSave>, after: seq<BankSave>, n: nat, oldId: string): set<int>
    requires n <= |before| == |after|
  {
    if n == 0 then {}
    else ReclaimedIdsUpTo(before, after, n - 1, oldId) + (if before[n - 1].accountIdentifier == oldId then {after[n - 1].id} else {})
  }

  /** The ids the reclaimed copies took: those of the positions where before
      held a save of oldId. */
  ghost function ReclaimedIds(before: seq<BankSave>, after: seq<BankSave>, oldId: string): set<int>
    requires |after| == |before|
  {
    ReclaimedIdsUpTo(before, after, |before|, oldId)
  }

  /** One loop of claimExistingSavesForNewAccountId: each save of oldId is
      set(i, withNewAccountId(newId, save)), each call taking the next id;
      changed tells whether any was. */
  method ReclaimSaves(ids: IdSource, saves: seq<BankSave>, oldId: string, newId: string)
    returns (result: seq<BankSave>, changed: bool)
    requires ids.Valid()
    modifies ids
    ensures ids.Valid()
    ensures Reclaimed(saves, result, oldId, newId, old(ids.issued))
    ensures ids.issued == old(ids.issued) + ReclaimedIds(saves, result, oldId)
    ensures changed <==> OwnsAny(saves, oldId)
  {
    result := saves;
    changed := false;
    var i := 0;
    while i < |result|
      invariant 0 <= i <= |result| == |saves|
      invariant ids.Valid()
      invariant forall k :: i <= k < |saves| ==> result[k] == saves[k]
      invariant ReclaimLoop(saves, result, i, oldId, newId, old(ids.issued), ids.issued)
      invariant changed <==> exists k :: 0 <= k < i && saves[k].accountIdentifier == oldId
    {
      var existingSave := result[i];
      ghost var previous, issuedPrevious := result, ids.issued;
      if existingSave.accountIdentifier == oldId {
        var reclaimedSave := WithNewAccountId(ids, newId, existingSave);
        result := result[i := reclaimedSave];
        changed := true;
      }
      ReclaimStep(saves, previous, result, i, oldId, newId, old(ids.issued), issuedPrevious, ids.issued);
      i := i + 1;
    }
  }

  /** The invariant of the reclaim loop after its first n turns: those
      positions are reclaimed, the ids issued meanwhile are exactly their
      copies' ids, and each copy's id has been issued. */
  ghost predicate ReclaimLoop(saves: seq<BankSave>, result: seq<BankSave>, n: nat, oldId: string, newId: string,
                              issued0: set<int>, issuedNow: set<int>)
    requires n <= |saves| == |result|
  {
    ReclaimedUpTo(saves, result, n, oldId, newId, issued0) &&
    issuedNow == issued0 + ReclaimedIdsUpTo(saves, result, n, oldId) &&
    forall k :: 0 <= k < n && saves[k].accountIdentifier == oldId ==> result[k].id in issuedNow
  }

  /** The reclaimed ids of a prefix depend on that prefix only. */
  lemma {:induction false} ReclaimedIdsAgree(before: seq<BankSave>, a1: seq<BankSave>, a2: seq<BankSave>, n: nat, oldId: string)
    requires n <= |before| == |a1| == |a2|
    requires forall k :: 0 <= k < n ==> a1[k] == a2[k]
    ensures ReclaimedIdsUpTo(before, a1, n, oldId) == ReclaimedIdsUpTo(before, a2, n, oldId)
  {
    if n > 0 {
      ReclaimedIdsAgree(before, a1, a2, n - 1, oldId);
    }
  }

  /** One turn of the reclaim loop keeps its invariant: position i is
      reclaimed (its copy taking the next id) or left alone. */
  lemma ReclaimStep(saves: seq<BankSave>, previous: seq<BankSave>, result: seq<BankSave>, i: nat,
                    oldId: string, newId: string, issued0: set<int>, issuedPrevious: set<int>, issuedNow: set<int>)
    requires i < |saves| == |previous| == |result| && previous[i] == saves[i]
    requires ReclaimLoop(saves, previous, i, oldId, newId, issued0, issuedPrevious)
    requires forall k :: 0 <= k < |result| && k != i ==> result[k] == previous[k]
    requires saves[i].accountIdentifier == oldId ==>
      result[i] == saves[i].(id := result[i].id, accountIdentifier := newId) &&
      (forall x :: x in issuedPrevious ==> x < result[i].id) && issuedNow == issuedPrevious + {result[i].id}
    requires saves[i].accountIdentifier != oldId ==> result[i] == previous[i] && issuedNow == issuedPrevious
    ensures ReclaimLoop(saves, result, i + 1, oldId, newId, issued0, issuedNow)
  {
    ReclaimedIdsAgree(saves, previous, result, i, oldId);
  }

  class PluginDataStore {
    var nameMap: seq<Entry>
    var currentBankList: seq<BankSave>
    var snapshotBanksList: seq<BankSave>
    var listeners: seq<ListenerId>
    /** Every configuration write and listener call so far, oldest first. */
    var events: seq<Event>
    /** The process-wide source of BankSave ids. */
    const ids: IdSource

    ghost predicate Valid()
      reads this, ids
    {
      Sorted(nameMap) && ids.Valid()
    }

    /** The constructor: the lists and the name map as ConfigReaderWriter
      read them, the map putAll into a fresh case-insensitive TreeMap. */
    constructor (ids: IdSource, currentBanks: seq<BankSave>, snapshotBanks: seq<BankSave>, storedNameMap: seq<Entry>)
      requires ids.Valid()
      ensures Valid() && this.ids == ids
      ensures currentBankList == currentBanks && snapshotBanksList == snapshotBanks
      ensures nameMap == PutAll([], storedNameMap)
      ensures listeners == [] && events == []
    {
      this.ids := ids;
      currentBankList := currentBanks;
      snapshotBanksList := snapshotBanks;
      PutAllSorted([], storedNameMap);
      nameMap := PutAll([], storedNameMap);
      listeners := [];
      events := [];
    }

    /** registerDisplayNameForAccountId: records the display name; when the
      mapping changed, writes the map and hands the saves of the first
      old-style login mapped to the same display name over to the account
      id. The search runs over the map after the put, since the entry set
      the loop streams over is a live view of the map. */
    method RegisterDisplayNameForAccountId(accountIdentifier: string, displayName: string)
      requires Valid()
      modifies this, ids
      ensures Valid() && listeners == old(listeners)
      ensures nameMap == Put(old(nameMap), accountIdentifier, displayName)
      ensures old(Get(nameMap, accountIdentifier)) == Some(displayName) ==>
        nameMap == old(nameMap) && currentBankList == old(currentBankList) &&
        snapshotBanksList == old(snapshotBanksList) && events == old(events) && ids.issued == old(ids.issued)
      ensures old(Get(nameMap, accountIdentifier)) != Some(displayName) ==>
        match OldStyleIdFor(nameMap, displayName)
        case None =>
          currentBankList == old(currentBankList) && snapshotBanksList == old(snapshotBanksList) &&
          ids.issued == old(ids.issued) &&
          events == old(events) + [WriteNameMap(nameMap)] + NotifyAll(listeners, DisplayNameMapUpdated)
        case Some(oldId) =>
          var cc, sc := OwnsAny(old(currentBankList), oldId), OwnsAny(old(snapshotBanksList), oldId);
          Reclaimed(old(currentBankList), currentBankList, oldId, accountIdentifier, old(ids.issued)) &&
          Reclaimed(old(snapshotBanksList), snapshotBanksList, oldId, accountIdentifier,
                    old(ids.issued) + ReclaimedIds(old(currentBankList), currentBankList, oldId)) &&
          ids.issued == old(ids.issued) + ReclaimedIds(old(currentBankList), currentBankList, oldId)
                                        + ReclaimedIds(old(snapshotBanksList), snapshotBanksList, oldId) &&
          events == old(events) + [WriteNameMap(nameMap)]
                    + ClaimWrites(cc, sc, currentBankList, snapshotBanksList)
                    + NotifyAll(listeners, DisplayNameMapUpdated)
                    + (if cc || sc then NotifyAll(listeners, CurrentBanksListChanged)
                                        + NotifyAll(listeners, SnapshotBanksListChanged) else [])
    {
      var listenersCopy := listeners;
      var oldValue := Get(nameMap, accountIdentifier);
      if oldValue == Some(displayName) {
        PutUnchanged(nameMap, accountIdentifier, displayName);
      }
      PutSorted(nameMap, accountIdentifier, displayName);
      nameMap := Put(nameMap, accountIdentifier, displayName);
      var nameMapChanged := oldValue != Some(displayName);
      var savesChanged := false;
      if nameMapChanged {
        events := events + [WriteNameMap(nameMap)];
      }
      if nameMapChanged {
        var oldStyleId := OldStyleIdFor(nameMap, displayName);
        if oldStyleId.Some? {
          savesChanged := ClaimExistingSavesForNewAccountId(oldStyleId.value, accountIdentifier);
        }
      }
      if nameMapChanged {
        events := events + NotifyAll(listenersCopy, DisplayNameMapUpdated);
      }
      if savesChanged {
        events := events + NotifyAll(listenersCopy, CurrentBanksListChanged);
        events := events + NotifyAll(listenersCopy, SnapshotBanksListChanged);
      }
    }

    /** claimExistingSavesForNewAccountId: both lists reclaimed in place, each
      written only if it changed; the result says whether either did. */
    method ClaimExistingSavesForNewAccountId(oldAccountId: string, newAccountId: string) returns (changed: bool)
      requires Valid()
      modifies this, ids
      ensures Valid()
      ensures nameMap == old(nameMap) && listeners == old(listeners)
      ensures Reclaimed(old(currentBankList), currentBankList, oldAccountId, newAccountId, old(ids.issued))
      ensures Reclaimed(old(snapshotBanksList), snapshotBanksList, oldAccountId, newAccountId,
                        old(ids.issued) + ReclaimedIds(old(currentBankList), currentBankList, oldAccountId))
      ensures ids.issued == old(ids.issued) + ReclaimedIds(old(currentBankList), currentBankList, oldAccountId)
                                            + ReclaimedIds(old(snapshotBanksList), snapshotBanksList, oldAccountId)
      ensures var cc, sc := OwnsAny(old(currentBankList), oldAccountId), OwnsAny(old(snapshotBanksList), oldAccountId);
        changed == (cc || sc) &&
        events == old(events) + ClaimWrites(cc, sc, currentBankList, snapshotBanksList)
    {
      var currentBankSavesChanged, snapshotBankSavesChanged;
      currentBankList, currentBankSavesChanged := ReclaimSaves(ids, currentBankList, oldAccountId, newAccountId);
      snapshotBanksList, snapshotBankSavesChanged := ReclaimSaves(ids, snapshotBanksList, oldAccountId, newAccountId);
      if currentBankSavesChanged {
        events := events + [WriteCurrentBanks(currentBankList)];
      }
      if snapshotBankSavesChanged {
        events := events + [WriteBankSnapshots(snapshotBanksList)];
      }
      changed := currentBankSavesChanged || snapshotBankSavesChanged;
    }

    /** getDisplayNameMapper: a snapshot of the name map. */
    function GetDisplayNameMapper(): (r: DisplayNameMapper)
      reads this
      requires Sorted(nameMap)
      ensures r.displayNamesByLogin == nameMap
    {
      PutAllOfSorted(nameMap);
      NewDisplayNameMapper(nameMap)
    }

    method AddListener(listener: ListenerId)
      modifies this
      ensures listeners == old(listeners) + [listener]
      ensures nameMap == old(nameMap) && currentBankList == old(currentBankList)
      ensures snapshotBanksList == old(snapshotBanksList) && events == old(events)
    {
      listeners := listeners + [listener];
    }

    /** removeListener: List.remove(Object), the first registration only. */
    method RemoveListener(listener: ListenerId)
      modifies this
      ensures listeners == RemoveFirst(old(listeners), listener)
      ensures nameMap == old(nameMap) && currentBankList == old(currentBankList)
      ensures snapshotBanksList == old(snapshotBanksList) && events == old(events)
    {
      listeners := RemoveFirst(listeners, listener);
    }

    /** getDataForCurrentBank. */
    function GetDataForCurrentBank(worldType: BankWorldType, accountIdentifier: Option<string>): Option<BankSave>
      reads this
    {
      CurrentSaveFor(currentBankList, worldType, accountIdentifier)
    }

    /** getCurrentBanksList: a copy, equal to the list at the time of the call. */
    method GetCurrentBanksList() returns (r: seq<BankSave>)
      ensures r == currentBankList
    {
      r := currentBankList;
    }

    /** getSnapshotBanksList: a copy, equal to the list at the time of the call. */
    method GetSnapshotBanksList() returns (r: seq<BankSave>)
      ensures r == snapshotBanksList
    {
      r := snapshotBanksList;
    }

    /** getBankSaveWithId. */
    function GetBankSaveWithId(id: int): Option<BankSave>
      reads this
    {
      SaveWithId(currentBankList, snapshotBanksList, id)
    }

    /** saveAsCurrentBank: the new save replaces the one in its slot and goes first. */
    method SaveAsCurrentBank(newSave: BankSave)
      requires Valid()
      modifies this
      ensures Valid()
      ensures currentBankList == ReplacedCurrent(old(currentBankList), newSave)
      ensures nameMap == old(nameMap) && snapshotBanksList == old(snapshotBanksList) && listeners == old(listeners)
      ensures events == old(events) + [WriteCurrentBanks(currentBankList)] + NotifyAll(listeners, CurrentBanksListChanged)
    {
      var listenersCopy := listeners;
      SaveAsCurrentBankImpl(newSave);
      events := events + NotifyAll(listenersCopy, CurrentBanksListChanged);
    }

    method SaveAsCurrentBankImpl(newSave: BankSave)
      requires Valid()
      modifies this
      ensures Valid()
      ensures currentBankList == ReplacedCurrent(old(currentBankList), newSave)
      ensures nameMap == old(nameMap) && snapshotBanksList == old(snapshotBanksList) && listeners == old(listeners)
      ensures events == old(events) + [WriteCurrentBanks(currentBankList)]
    {
      var inSlot := (s: BankSave) => SameSlot(s, newSave);
      var found := IndexOfFirst(currentBankList, inSlot);
      if found.Some? {
        RemoveFirstOfFound(currentBankList, inSlot);
        currentBankList := RemoveFirst(currentBankList, currentBankList[found.value]);
      }
      currentBankList := [newSave] + currentBankList;
      events := events + [WriteCurrentBanks(currentBankList)];
    }

    /** saveAsSnapshotBank: a null name throws before anything changes
      (thrown); otherwise the snapshot copy goes first in the snapshot list. */
    method SaveAsSnapshotBank(newName: Option<string>, existingSave: BankSave) returns (thrown: bool)
      requires Valid()
      modifies this, ids
      ensures Valid()
      ensures thrown <==> newName.None?
      ensures nameMap == old(nameMap) && currentBankList == old(currentBankList) && listeners == old(listeners)
      ensures thrown ==> snapshotBanksList == old(snapshotBanksList) && events == old(events) && unchanged(ids)
      ensures !thrown ==>
        |snapshotBanksList| == |old(snapshotBanksList)| + 1 &&
        snapshotBanksList[1..] == old(snapshotBanksList) &&
        snapshotBanksList[0] == existingSave.(id := snapshotBanksList[0].id, saveName := newName) &&
        (forall x :: x in old(ids.issued) ==> x < snapshotBanksList[0].id) &&
        ids.issued == old(ids.issued) + {snapshotBanksList[0].id} &&
        events == old(events) + [WriteBankSnapshots(snapshotBanksList)] + NotifyAll(listeners, SnapshotBanksListChanged)
    {
      var listenersCopy := listeners;
      var snapshot := SnapshotFromExistingBank(ids, newName, existingSave);
      if snapshot.Err? {
        return true;
      }
      snapshotBanksList := [snapshot.value] + snapshotBanksList;
      events := events + [WriteBankSnapshots(snapshotBanksList)];
      events := events + NotifyAll(listenersCopy, SnapshotBanksListChanged);
      return false;
    }

    /** deleteBankSaveWithId: the first save with the id leaves each list;
      each changed list is written; the current-list notification is sent
      in preference to the snapshot one, and none when nothing was found
      (deleteBankSaveWithId then logs an error). */
    method DeleteBankSaveWithId(saveId: int)
      requires Valid()
      modifies this
      ensures Valid()
      ensures currentBankList == WithoutId(old(currentBankList), saveId)
      ensures snapshotBanksList == WithoutId(old(snapshotBanksList), saveId)
      ensures nameMap == old(nameMap) && listeners == old(listeners)
      ensures var cc, sc := HasId(old(currentBankList), saveId), HasId(old(snapshotBanksList), saveId);
        events == old(events) + (if cc then [WriteCurrentBanks(currentBankList)] else [])
                              + (if sc then [WriteBankSnapshots(snapshotBanksList)] else [])
                              + (if cc then NotifyAll(listeners, CurrentBanksListChanged)
                                 else if sc then NotifyAll(listeners, SnapshotBanksListChanged)
                                 else [])
    {
      var listenersCopy := listeners;
      var currentBanksChanged := false;
      var snapshotBanksChanged := false;
      ghost var e0 := events;
      var removed;
      currentBankList, removed := RemoveBankSaveWithIdFromList(saveId, currentBankList);
      if removed {
        events := events + [WriteCurrentBanks(currentBankList)];
        currentBanksChanged := true;
      }
      ghost var e1 := events;
      assert e1 == e0 + (if currentBanksChanged then [WriteCurrentBanks(currentBankList)] else []);
      snapshotBanksList, removed := RemoveBankSaveWithIdFromList(saveId, snapshotBanksList);
      if removed {
        events := events + [WriteBankSnapshots(snapshotBanksList)];
        snapshotBanksChanged := true;
      }
      assert events == e1 + (if snapshotBanksChanged then [WriteBankSnapshots(snapshotBanksList)] else []);
      if currentBanksChanged {
        events := events + NotifyAll(listenersCopy, CurrentBanksListChanged);
      } else if snapshotBanksChanged {
        events := events + NotifyAll(listenersCopy, SnapshotBanksListChanged);
      }
    }
  }

  /** removeBankSaveWithIdFromList: findFirst by id, then List.remove of the
      save found. */
  method RemoveBankSaveWithIdFromList(id: int, saveList: seq<BankSave>) returns (result: seq<BankSave>, removed: bool)
    ensures result == WithoutId(saveList, id)
    ensures removed <==> HasId(saveList, id)
  {
    var withId := (s: BankSave) => s.id == id;
    var found := IndexOfFirst(saveList, withId);
    if found.Some? {
      RemoveFirstOfFound(saveList, withId);
      return RemoveFirst(saveList, saveList[found.value]), true;
    }
    return saveList, false;
  }

  // ---------------------------------------------------------------------
  // Properties of the store's operations

  /** saveAsCurrentBank leaves the new save first, then the old list with
      only the first save of the new save's slot removed; it keeps every slot
      unique, and afterwards the new save is the only one in its slot. */
  lemma ReplacedCurrentUnique(saves: seq<BankSave>, newSave: BankSave)
    requires UniqueSlots(saves)
    ensures var r := ReplacedCurrent(saves, newSave);
      UniqueSlots(r) && r[0] == newSave && forall j :: 1 <= j < |r| ==> !SameSlot(r[j], newSave)
  {
    var r := ReplacedCurrent(saves, newSave);
    var found := IndexOfFirst(saves, (s: BankSave) => SameSlot(s, newSave));
    if found.Some? {
      var i := found.value;
      var rest := RemoveAt(saves, i);
      assert forall j :: 0 <= j < |rest| ==> rest[j] == if j < i then saves[j] else saves[j + 1];
      forall j | 0 <= j < |rest| ensures !SameSlot(rest[j], newSave) {
        if j >= i {
          assert !SameSlot(saves[i], saves[j + 1]);
        }
      }
    }
  }

  /** After saveAsCurrentBank, the current bank found for the new save's
      account and world type is the new save. */
  lemma CurrentSaveAfterSave(saves: seq<BankSave>, newSave: BankSave)
    requires newSave.accountIdentifier != ""
    ensures CurrentSaveFor(ReplacedCurrent(saves, newSave), newSave.GetWorldType(), Some(newSave.accountIdentifier)) == Some(newSave)
  {
  }

  /** deleteBankSaveWithId removes one save from a list holding the id and
      none from a list without it, and keeps slots unique. */
  lemma WithoutIdMeaning(saves: seq<BankSave>, id: int)
    ensures HasId(saves, id) ==> |WithoutId(saves, id)| == |saves| - 1
    ensures !HasId(saves, id) ==> WithoutId(saves, id) == saves
    ensures UniqueSlots(saves) ==> UniqueSlots(WithoutId(saves, id))
  {
    var found := IndexOfFirst(saves, (s: BankSave) => s.id == id);
    if found.Some? {
      var i := found.value;
      var rest := RemoveAt(saves, i);
      assert forall j :: 0 <= j < |rest| ==> rest[j] == if j < i then saves[j] else saves[j + 1];
    }
  }

  /** The ids a reclaim issues are exactly the ids of the copies it made. */
  lemma {:induction false} ReclaimedIdsUpToMeaning(before: seq<BankSave>, after: seq<BankSave>, n: nat, oldId: string)
    requires n <= |before| == |after|
    ensures forall x :: x in ReclaimedIdsUpTo(before, after, n, oldId) <==>
      exists k :: 0 <= k < n && before[k].accountIdentifier == oldId && after[k].id == x
  {
    if n > 0 {
      ReclaimedIdsUpToMeaning(before, after, n - 1, oldId);
    }
  }

  lemma ReclaimedIdsMeaning(before: seq<BankSave>, after: seq<BankSave>, oldId: string)
    requires |after| == |before|
    ensures forall x :: x in ReclaimedIds(before, after, oldId) <==>
      exists k :: 0 <= k < |before| && before[k].accountIdentifier == oldId && after[k].id == x
  {
    ReclaimedIdsUpToMeaning(before, after, |before|, oldId);
  }

  /** claimExistingSavesForNewAccountId reclaims the current list first and
      the snapshot list second: every copy gets its own id, the snapshot
      copies' ids above the current copies', and all of them above every id
      issued before. */
  lemma ClaimedIdsDistinct(current0: seq<BankSave>, current: seq<BankSave>, snapshots0: seq<BankSave>,
                           snapshots: seq<BankSave>, oldId: string, newId: string, issued: set<int>)
    requires Reclaimed(current0, current, oldId, newId, issued)
    requires Reclaimed(snapshots0, snapshots, oldId, newId, issued + ReclaimedIds(current0, current, oldId))
    ensures forall i, j ::
      (0 <= i < j < |current| && current0[i].accountIdentifier == oldId && current0[j].accountIdentifier == oldId)
      ==> current[i].id != current[j].id
    ensures forall i, j ::
      (0 <= i < j < |snapshots| && snapshots0[i].accountIdentifier == oldId && snapshots0[j].accountIdentifier == oldId)
      ==> snapshots[i].id != snapshots[j].id
    ensures forall i, j ::
      (0 <= i < |current| && 0 <= j < |snapshots| && current0[i].accountIdentifier == oldId &&
       snapshots0[j].accountIdentifier == oldId)
      ==> current[i].id < snapshots[j].id
  {
    ReclaimedIdsMeaning(current0, current, oldId);
    forall i, j | (0 <= i < |current| && 0 <= j < |snapshots| && current0[i].accountIdentifier == oldId &&
                   snapshots0[j].accountIdentifier == oldId)
      ensures current[i].id < snapshots[j].id
    {
      assert current[i].id in ReclaimedIds(current0, current, oldId);
    }
  }

  /** Once reclaimed for a different account id, no save of the old login is left. */
  lemma ReclaimedLeavesNone(before: seq<BankSave>, after: seq<BankSave>, oldId: string, newId: string, issued: set<int>)
    requires Reclaimed(before, after, oldId, newId, issued) && oldId != newId
    ensures !OwnsAny(after, oldId)
    ensures forall i :: 0 <= i < |after| ==> (after[i].accountIdentifier == newId <==>
              before[i].accountIdentifier == oldId || before[i].accountIdentifier == newId)
  {
  }

  /** The login found by the search of registerDisplayNameForAccountId is a
      key of the name map, mapped to the display name, and never a new-style
      account id. */
  lemma OldStyleIdForMeaning(nameMap: seq<Entry>, displayName: string)
    requires Sorted(nameMap) && OldStyleIdFor(nameMap, displayName).Some?
    ensures var k := OldStyleIdFor(nameMap, displayName).value;
      Get(nameMap, k) == Some(displayName) && !StartsWith(k, ACCOUNT_HASH_ID_PREFIX)
  {
    var i := IndexOfFirst(nameMap, (e: Entry) => !StartsWith(e.key, ACCOUNT_HASH_ID_PREFIX) && e.value == displayName).value;
    GetMeaning(nameMap, nameMap[i].key);
  }

  /** Registering a new-style account id never makes the search pick the
      entry just put, so the saves claimed always belong to another key. */
  lemma OldStyleIdIsNotNewStyle(nameMap: seq<Entry>, displayName: string, accountHash: int64)
    requires FromAccountHash(accountHash).Some? && OldStyleIdFor(nameMap, displayName).Some?
    ensures OldStyleIdFor(nameMap, displayName).value != FromAccountHash(accountHash).value
  {
  }
}
