/** AccountIdentifier: the new-style account id, built from the client's
    64-bit account hash. */
module AccountIdentifiers {
  import opened Wrappers
  import opened JavaInts
  import opened JavaStrings

  /** The marker that tells a new-style account id from an old login name. */
  const ACCOUNT_HASH_ID_PREFIX: string := "accId#hash1#"

  /** fromAccountHash: null (None) for the "no hash" value -1, otherwise the
      prefix followed by the decimal hash. */
  function FromAccountHash(accountHash: int64): (r: Option<string>)
    ensures r.None? <==> accountHash == -1
    ensures r.Some? ==> (StartsWith(r.value, ACCOUNT_HASH_ID_PREFIX) &&
                         r.value[|ACCOUNT_HASH_ID_PREFIX|..] == IntToString(accountHash))
  {
    if accountHash == -1 then None
    else
      var s := ACCOUNT_HASH_ID_PREFIX + IntToString(accountHash);
      assert s[|ACCOUNT_HASH_ID_PREFIX|..] == IntToString(accountHash);
      Some(s)
  }

  /** Two hashes other than -1 never share an identifier. */
  lemma FromAccountHashInjective(a: int64, b: int64)
    requires a != -1 && b != -1
    requires FromAccountHash(a) == FromAccountHash(b)
    ensures a == b
  {
    IntToStringInjective(a, b);
  }
}
