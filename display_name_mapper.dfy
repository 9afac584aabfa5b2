/** DisplayNameMapper: a snapshot of the login-to-display-name map, looked up
    ignoring case, that masks any login it does not know. */
module DisplayNameMappers {
  import opened Wrappers
  import opened CaseInsensitiveMaps
  import opened SaferUsername
  import opened JavaStrings

  datatype DisplayNameMapper = DisplayNameMapper(displayNamesByLogin: seq<Entry>)

  /** The constructor: putAll of the given map, in its iteration order, into
      an empty case-insensitive TreeMap. Being a value, the snapshot is not
      affected by later changes to the map it was taken from. */
  function NewDisplayNameMapper(source: seq<Entry>): (r: DisplayNameMapper)
    ensures Sorted(r.displayNamesByLogin)
  {
    PutAllSorted([], source);
    DisplayNameMapper(PutAll([], source))
  }

  /** map: the registered display name, or the masked account id. */
  function Map(mapper: DisplayNameMapper, accountIdentifier: string): (r: string)
    ensures Get(mapper.displayNamesByLogin, accountIdentifier).None? ==> |r| == |accountIdentifier|
  {
    match Get(mapper.displayNamesByLogin, accountIdentifier)
    case Some(displayName) => displayName
    case None => From(accountIdentifier)
  }

  /** A login registered under any capitalisation maps to the display name
      put last under it; an unregistered one maps to its masked form. */
  lemma MapOfSource(source: seq<Entry>, accountIdentifier: string)
    ensures var r := Map(NewDisplayNameMapper(source), accountIdentifier);
      if HasKey(source, accountIdentifier) then Some(r) == LastValueFor(source, accountIdentifier)
      else r == From(accountIdentifier)
  {
    GetPutAll([], source, accountIdentifier);
    LastValueForMeaning(source, accountIdentifier);
  }

  /** Taken from the store's own sorted name map, the mapper returns the
      value stored under the key equal to the account id ignoring case. */
  lemma MapOfSortedMap(nameMap: seq<Entry>, i: int, accountIdentifier: string)
    requires Sorted(nameMap) && 0 <= i < |nameMap|
    requires EqualsIgnoreCase(nameMap[i].key, accountIdentifier)
    ensures Map(NewDisplayNameMapper(nameMap), accountIdentifier) == nameMap[i].value
  {
    PutAllOfSorted(nameMap);
    GetMeaning(nameMap, accountIdentifier);
  }
}
