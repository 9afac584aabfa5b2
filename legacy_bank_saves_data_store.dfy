/** The first generation's BankSavesDataStore: all saves kept in one config
    string written by BankSaveParser, read back into a LinkedHashMap keyed
    by user name. The store in package com.bankmemory.data is a copy of the
    same class and is modelled by it as well. */
module LegacyBankSavesDataStores {
  import opened Wrappers
  import opened JavaStrings
  import opened JavaLists
  import opened LegacyBankSaves
  import opened LegacyBankSaveParsers

  /** What the config item's load() returns when nothing was ever stored. */
  const NO_VALUE_STORED: string := "For if there was no stored config data"

  /** How many saves saveBanks means to keep. */
  const MAX_STORED_SAVES: nat := 20

  /** A LinkedHashMap<String, BankSave>: entries in insertion order, one per key. */
  datatype NamedSave = NamedSave(name: string, save: LegacyBankSave)

  predicate UniqueNames(m: seq<NamedSave>) {
    forall i, j :: 0 <= i < j < |m| ==> m[i].name != m[j].name
  }

  function Names(m: seq<NamedSave>): (ns: seq<string>)
    ensures |ns| == |m|
  {
    seq(|m|, i requires 0 <= i < |m| => m[i].name)
  }

  /** values(), in iteration order. */
  function Values(m: seq<NamedSave>): (vs: seq<LegacyBankSave>)
    ensures |vs| == |m|
  {
    seq(|m|, i requires 0 <= i < |m| => m[i].save)
  }

  /** put(k, v): an existing key keeps its position and takes the new value;
      a new key goes last. */
  function LinkedPut(m: seq<NamedSave>, k: string, v: LegacyBankSave): seq<NamedSave> {
    match IndexOfFirst(m, (e: NamedSave) => e.name == k)
    case Some(i) => m[i := NamedSave(k, v)]
    case None => m + [NamedSave(k, v)]
  }

  /** forEach(s -> result.put(s.getUserName(), s)) over the parsed saves. */
  function PutAllByName(saves: seq<LegacyBankSave>): seq<NamedSave> {
    if saves == [] then []
    else
      var last := saves[|saves| - 1];
      LinkedPut(PutAllByName(saves[..|saves| - 1]), last.userName, last)
  }

  /** loadSavedBanks on the stored config value. */
  function Loaded(stored: string): seq<NamedSave> {
    if stored == NO_VALUE_STORED then [] else PutAllByName(ParseResult(Some(stored)))
  }

  /** Math.max(0, size - 20): the first position the comment means to keep. */
  function StartIndex(size: nat): (start: nat)
    ensures start <= size
  {
    if size <= MAX_STORED_SAVES then 0 else size - MAX_STORED_SAVES
  }

  /** What saveBanks's loop collects: its counter stays 0, so the test
      `i >= start` is the same for every save. */
  function SelectedAsWritten(values: seq<LegacyBankSave>): seq<LegacyBankSave> {
    if 0 >= StartIndex(|values|) then values else []
  }

  /** The latest 20 saves, in order: what the comment in saveBanks promises. */
  function LatestSaves(values: seq<LegacyBankSave>): (r: seq<LegacyBankSave>)
    ensures |r| == if |values| <= MAX_STORED_SAVES then |values| else MAX_STORED_SAVES
    ensures r == values[|values| - |r|..]
  {
    values[StartIndex(|values|)..]
  }

  /** The store: the config item "bankSaves" is the one field that changes. */
  class BankSavesDataStore {
    var stored: string

    /** stored is the config item's current value, NO_VALUE_STORED if unset. */
    constructor(stored: string)
      ensures this.stored == stored
    {
      this.stored := stored;
    }

    /** loadSavedBanks: nothing for the sentinel, otherwise every parsed save
        put under its user name, in order. */
    method LoadSavedBanks() returns (result: seq<NamedSave>)
      ensures result == Loaded(stored)
    {
      result := [];
      if NO_VALUE_STORED == stored {
        return;
      }
      var parsed := ParseSaveString(Some(stored));
      var k := 0;
      while k < |parsed|
        invariant 0 <= k <= |parsed|
        invariant result == PutAllByName(parsed[..k])
      {
        assert parsed[..k + 1][..k] == parsed[..k];
        result := LinkedPut(result, parsed[k].userName, parsed[k]);
        k := k + 1;
      }
      assert parsed[..k] == parsed;
    }

    /** saveBanks as written: the counter is never incremented, so either all
        the saves or none of them are written. */
    method SaveBanks(saves: seq<NamedSave>)
      modifies this
      ensures stored == SaveText(SelectedAsWritten(Values(saves)))
    {
      var values := Values(saves);
      var toSave: seq<LegacyBankSave> := [];
      var start := StartIndex(|saves|);
      var i := 0;
      var k := 0;
      while k < |values|
        invariant 0 <= k <= |values|
        invariant toSave == if i >= start then values[..k] else []
      {
        if i >= start {
          toSave := toSave + [values[k]];
        }
        k := k + 1;
      }
      assert values[..k] == values;
      stored := ToSaveString(toSave);
    }

    /** saveBanks with its counter counting: the latest 20 saves are written. */
    method SaveLatestBanks(saves: seq<NamedSave>)
      modifies this
      ensures stored == SaveText(LatestSaves(Values(saves)))
    {
      var values := Values(saves);
      var toSave: seq<LegacyBankSave> := [];
      var start := StartIndex(|saves|);
      var i := 0;
      while i < |values|
        invariant 0 <= i <= |values|
        invariant toSave == if i <= start then [] else values[start..i]
      {
        if i >= start {
          assert values[start..i + 1] == values[start..i] + [values[i]];
          toSave := toSave + [values[i]];
        }
        i := i + 1;
      }
      assert toSave == values[start..];
      stored := ToSaveString(toSave);
    }
  }

  // ---------------------------------------------------------------------
  // Properties

  lemma LinkedPutMeaning(m: seq<NamedSave>, k: string, v: LegacyBankSave)
    requires UniqueNames(m)
    ensures var r := LinkedPut(m, k, v);
      UniqueNames(r) &&
      (k in Names(m) ==> |r| == |m| && Names(r) == Names(m)) &&
      (k !in Names(m) ==> Names(r) == Names(m) + [k]) &&
      (forall i :: 0 <= i < |r| && r[i].name == k ==> r[i].save == v) &&
      (forall i :: 0 <= i < |r| && r[i].name != k ==> i < |m| && r[i] == m[i])
  {
    var r := LinkedPut(m, k, v);
    match IndexOfFirst(m, (e: NamedSave) => e.name == k)
    case Some(i) =>
      assert Names(r) == Names(m);
      assert Names(m)[i] == k;
    case None =>
      assert k !in Names(m) by {
        forall i | 0 <= i < |m| ensures Names(m)[i] != k {
          assert m[i].name != k;
        }
      }
      assert Names(r) == Names(m) + [k];
  }

  /** The loaded map has one entry per user name. */
  lemma {:induction false} PutAllByNameUnique(saves: seq<LegacyBankSave>)
    ensures UniqueNames(PutAllByName(saves))
  {
    if saves != [] {
      var init, last := saves[..|saves| - 1], saves[|saves| - 1];
      PutAllByNameUnique(init);
      LinkedPutMeaning(PutAllByName(init), last.userName, last);
    }
  }

  /** Every user name among the saves has an entry. */
  lemma {:induction false} PutAllByNameCovers(saves: seq<LegacyBankSave>)
    ensures forall s :: s in saves ==> s.userName in Names(PutAllByName(saves))
  {
    if saves != [] {
      var init, last := saves[..|saves| - 1], saves[|saves| - 1];
      var p := PutAllByName(init);
      PutAllByNameCovers(init);
      PutAllByNameUnique(init);
      LinkedPutMeaning(p, last.userName, last);
      var m := PutAllByName(saves);
      forall s | s in saves ensures s.userName in Names(m) {
        if s.userName == last.userName {
          var r := LinkedPut(p, last.userName, last);
          assert r == m;
          if last.userName in Names(p) {
            assert Names(m) == Names(p);
          } else {
            assert Names(m)[|p|] == last.userName;
          }
        } else {
          assert s in init by {
            assert saves == init + [last];
          }
          var i :| 0 <= i < |p| && Names(p)[i] == s.userName;
          assert m[i] == p[i];
          assert Names(m)[i] == s.userName;
        }
      }
    }
  }

  /** No save under the given name after position j. */
  predicate LastWithName(saves: seq<LegacyBankSave>, j: nat, name: string) {
    j < |saves| && saves[j].userName == name &&
    forall j' :: j < j' < |saves| ==> saves[j'].userName != name
  }

  /** The entry holds the last save under its name. */
  predicate HoldsLastSave(saves: seq<LegacyBankSave>, e: NamedSave) {
    exists j: nat :: j < |saves| && LastWithName(saves, j, e.name) && e.save == saves[j]
  }

  /** Each user's entry holds the last save under that name. */
  lemma {:induction false} PutAllByNameLastValue(saves: seq<LegacyBankSave>)
    ensures forall i :: 0 <= i < |PutAllByName(saves)| ==> HoldsLastSave(saves, PutAllByName(saves)[i])
  {
    if saves != [] {
      var init, last := saves[..|saves| - 1], saves[|saves| - 1];
      var p := PutAllByName(init);
      PutAllByNameLastValue(init);
      PutAllByNameUnique(init);
      LinkedPutMeaning(p, last.userName, last);
      var m := PutAllByName(saves);
      forall i | 0 <= i < |m| ensures HoldsLastSave(saves, m[i]) {
        if m[i].name == last.userName {
          assert LastWithName(saves, |saves| - 1, m[i].name);
        } else {
          assert i < |p| && m[i] == p[i];
          assert HoldsLastSave(init, p[i]);
          var j: nat :| j < |init| && LastWithName(init, j, p[i].name) && p[i].save == init[j];
          assert saves[j] == init[j];
          assert saves[j].userName == m[i].name;
          forall j' | j < j' < |saves| ensures saves[j'].userName != m[i].name {
            if j' < |init| {
              assert saves[j'] == init[j'];
            }
          }
          assert LastWithName(saves, j, m[i].name);
          assert m[i].save == saves[j];
        }
      }
    }
  }

  /** Saves with distinct user names load back one entry each, in order. */
  lemma {:induction false} PutAllDistinctNames(saves: seq<LegacyBankSave>)
    requires forall i, j :: 0 <= i < j < |saves| ==> saves[i].userName != saves[j].userName
    ensures PutAllByName(saves) == ByOwnName(saves)
  {
    if saves != [] {
      var init, last := saves[..|saves| - 1], saves[|saves| - 1];
      PutAllDistinctNames(init);
      var p := PutAllByName(init);
      assert p == ByOwnName(init);
      assert IndexOfFirst(p, (e: NamedSave) => e.name == last.userName).None? by {
        forall i | 0 <= i < |p| ensures p[i].name != last.userName {
          assert p[i].name == saves[i].userName;
        }
      }
      assert PutAllByName(saves) == p + [NamedSave(last.userName, last)];
      ByOwnNameSnoc(saves);
    }
  }

  /** Each save under its own user name, in order. */
  function ByOwnName(saves: seq<LegacyBankSave>): (m: seq<NamedSave>)
    ensures |m| == |saves|
  {
    seq(|saves|, i requires 0 <= i < |saves| => NamedSave(saves[i].userName, saves[i]))
  }

  lemma ByOwnNameSnoc(saves: seq<LegacyBankSave>)
    requires saves != []
    ensures ByOwnName(saves) == ByOwnName(saves[..|saves| - 1]) + [NamedSave(saves[|saves| - 1].userName, saves[|saves| - 1])]
  {
  }

  lemma {:induction false} TerminatedJoinLastChar(ts: seq<string>, d: char)
    requires ts != []
    ensures var s := TerminatedJoin(ts, d); |s| > 0 && s[|s| - 1] == d
  {
    var init := ts[..|ts| - 1];
    assert ts == init + [ts[|ts| - 1]];
    TerminatedJoinAppend(init, ts[|ts| - 1], d);
  }

  /** The sentinel is never a save text. */
  lemma SaveTextIsNotSentinel(saves: seq<LegacyBankSave>)
    ensures SaveText(saves) != NO_VALUE_STORED
  {
    if saves != [] {
      TerminatedJoinLastChar(Lines(saves), '\n');
      assert NO_VALUE_STORED[|NO_VALUE_STORED| - 1] == 'a';
    }
  }

  /** Loading before anything is stored gives an empty map. */
  lemma NothingStoredLoadsEmpty()
    ensures Loaded(NO_VALUE_STORED) == []
  {
  }

  /** Storing readable saves under distinct user names and loading them back
      gives one entry per save, in the order they were stored. */
  lemma LoadAfterSave(values: seq<LegacyBankSave>)
    requires forall i :: 0 <= i < |values| ==> Writable(values[i])
    requires forall i, j :: 0 <= i < j < |values| ==> values[i].userName != values[j].userName
    ensures Loaded(SaveText(values)) == ByOwnName(values)
  {
    SaveTextIsNotSentinel(values);
    RoundTrip(values);
    PutAllDistinctNames(values);
  }

  /** The saveBanks loop as written keeps every save when there are at most
      20 of them, and none at all past 20. */
  lemma AsWrittenAllOrNothing(values: seq<LegacyBankSave>)
    ensures |values| <= MAX_STORED_SAVES ==> SelectedAsWritten(values) == values
    ensures |values| > MAX_STORED_SAVES ==> SelectedAsWritten(values) == []
  {
  }

  /** With 21 saves the store written as is forgets all of them, where the
      latest 20 were meant to be kept. */
  lemma AsWrittenDropsTwentyOne(values: seq<LegacyBankSave>)
    requires |values| == 21
    ensures SelectedAsWritten(values) == [] && SaveText(SelectedAsWritten(values)) == ""
    ensures LatestSaves(values) == values[1..]
  {
  }

  /** Storing the latest saves and storing once more changes nothing: a list
      of at most 20 is kept whole. */
  lemma LatestSavesIdempotent(values: seq<LegacyBankSave>)
    ensures LatestSaves(LatestSaves(values)) == LatestSaves(values)
  {
  }
}
