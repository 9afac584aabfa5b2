/** A TreeMap<String, String> ordered by String.CASE_INSENSITIVE_ORDER, the
    structure behind both the store's name map and DisplayNameMapper: the
    entries in increasing case-folded key order, at most one per folded key. */
module CaseInsensitiveMaps {
  import opened Wrappers
  import opened JavaStrings

  datatype Entry = Entry(key: string, value: string)

  /** Strictly increasing keys under the case-insensitive order, so no two
      keys are equal ignoring case. */
  predicate Sorted(m: seq<Entry>) {
    forall i, j :: 0 <= i < j < |m| ==> FoldLess(m[i].key, m[j].key)
  }

  /** Some key equals k ignoring case. */
  predicate HasKey(m: seq<Entry>, k: string) {
    exists i :: 0 <= i < |m| && EqualsIgnoreCase(m[i].key, k)
  }

  /** get: the value under the key equal to k ignoring case, or null (None). */
  function Get(m: seq<Entry>, k: string): Option<string> {
    if m == [] then None
    else if EqualsIgnoreCase(m[0].key, k) then Some(m[0].value)
    else Get(m[1..], k)
  }

  /** put: a key equal ignoring case keeps its original spelling and takes
      the new value; otherwise the entry goes in at its place in the order. */
  function Put(m: seq<Entry>, k: string, v: string): seq<Entry> {
    if m == [] then [Entry(k, v)]
    else if EqualsIgnoreCase(m[0].key, k) then [Entry(m[0].key, v)] + m[1..]
    else if FoldLess(k, m[0].key) then [Entry(k, v)] + m
    else [m[0]] + Put(m[1..], k, v)
  }

  /** putAll of the entries of another map, in that map's iteration order. */
  function PutAll(m: seq<Entry>, es: seq<Entry>): seq<Entry> {
    if es == [] then m
    else Put(PutAll(m, es[..|es| - 1]), es[|es| - 1].key, es[|es| - 1].value)
  }

  // ---------------------------------------------------------------------
  // The case-insensitive order

  lemma FoldLessStrict(a: string, b: string)
    requires FoldLess(a, b)
    ensures !EqualsIgnoreCase(a, b) && !FoldLess(b, a)
  {
    LexLessIrreflexive(ToLowerCase(a));
    LexLessAsymmetric(ToLowerCase(a), ToLowerCase(b));
  }

  lemma FoldLessTotal(a: string, b: string)
    requires !EqualsIgnoreCase(a, b)
    ensures FoldLess(a, b) || FoldLess(b, a)
  {
    LexLessTotal(ToLowerCase(a), ToLowerCase(b));
  }

  lemma FoldLessTransitive(a: string, b: string, c: string)
    requires FoldLess(a, b) && FoldLess(b, c)
    ensures FoldLess(a, c)
  {
    LexLessTransitive(ToLowerCase(a), ToLowerCase(b), ToLowerCase(c));
  }

  // ---------------------------------------------------------------------
  // Properties of get and put

  /** get finds a value exactly when some key equals k ignoring case, and in
      a sorted map it is that key's value. */
  lemma {:induction false} GetMeaning(m: seq<Entry>, k: string)
    ensures Get(m, k).Some? <==> HasKey(m, k)
    ensures Sorted(m) ==> forall i :: 0 <= i < |m| && EqualsIgnoreCase(m[i].key, k) ==> Get(m, k) == Some(m[i].value)
  {
    if m != [] {
      GetMeaning(m[1..], k);
      assert forall i :: 1 <= i < |m| ==> m[i] == m[1..][i - 1];
      if Sorted(m) && EqualsIgnoreCase(m[0].key, k) {
        forall i | 1 <= i < |m| ensures !EqualsIgnoreCase(m[i].key, k) {
          FoldLessStrict(m[0].key, m[i].key);
        }
      }
    }
  }

  /** Reading after a put: the new value under k, the old map elsewhere. */
  lemma {:induction false} GetPut(m: seq<Entry>, k: string, v: string, k': string)
    ensures Get(Put(m, k, v), k') == if EqualsIgnoreCase(k, k') then Some(v) else Get(m, k')
  {
    if m != [] && !EqualsIgnoreCase(m[0].key, k) && !FoldLess(k, m[0].key) {
      GetPut(m[1..], k, v, k');
    }
  }

  /** Every key of a put is above any bound that the old keys and k are above. */
  lemma {:induction false} PutAbove(m: seq<Entry>, k: string, v: string, b: string)
    requires forall i :: 0 <= i < |m| ==> FoldLess(b, m[i].key)
    requires FoldLess(b, k)
    ensures forall i :: 0 <= i < |Put(m, k, v)| ==> FoldLess(b, Put(m, k, v)[i].key)
  {
    if m != [] && !EqualsIgnoreCase(m[0].key, k) && !FoldLess(k, m[0].key) {
      PutAbove(m[1..], k, v, b);
      var r := Put(m[1..], k, v);
      assert Put(m, k, v) == [m[0]] + r;
    }
  }

  /** put keeps the map in order. */
  lemma {:induction false} PutSorted(m: seq<Entry>, k: string, v: string)
    requires Sorted(m)
    ensures Sorted(Put(m, k, v))
  {
    if m == [] {
    } else if EqualsIgnoreCase(m[0].key, k) {
    } else if FoldLess(k, m[0].key) {
      forall j | 0 <= j < |m| ensures FoldLess(k, m[j].key) {
        if j > 0 {
          FoldLessTransitive(k, m[0].key, m[j].key);
        }
      }
    } else {
      FoldLessTotal(m[0].key, k);
      PutSorted(m[1..], k, v);
      PutAbove(m[1..], k, v, m[0].key);
    }
  }

  /** In a sorted map, a key present further on is never inserted in front. */
  lemma FoundLater(m: seq<Entry>, k: string)
    requires Sorted(m) && HasKey(m, k) && !EqualsIgnoreCase(m[0].key, k)
    ensures !FoldLess(k, m[0].key) && HasKey(m[1..], k)
  {
    var i :| 0 <= i < |m| && EqualsIgnoreCase(m[i].key, k);
    assert FoldLess(m[0].key, m[i].key);
    assert FoldLess(m[0].key, k);
    FoldLessStrict(m[0].key, k);
    assert m[1..][i - 1] == m[i];
  }

  /** Putting the value already stored under k changes nothing. */
  lemma {:induction false} PutUnchanged(m: seq<Entry>, k: string, v: string)
    requires Sorted(m) && Get(m, k) == Some(v)
    ensures Put(m, k, v) == m
  {
    GetMeaning(m, k);
    if !EqualsIgnoreCase(m[0].key, k) {
      FoundLater(m, k);
      PutUnchanged(m[1..], k, v);
    }
  }

  /** put on a key already present keeps the length and every key's spelling. */
  lemma {:induction false} PutKeepsKeys(m: seq<Entry>, k: string, v: string)
    requires Sorted(m) && HasKey(m, k)
    ensures |Put(m, k, v)| == |m|
    ensures forall i :: 0 <= i < |m| ==> Put(m, k, v)[i].key == m[i].key
  {
    if !EqualsIgnoreCase(m[0].key, k) {
      FoundLater(m, k);
      PutKeepsKeys(m[1..], k, v);
      assert Put(m, k, v) == [m[0]] + Put(m[1..], k, v);
    }
  }

  /** A key above every key of the map is appended. */
  lemma {:induction false} PutGreatest(m: seq<Entry>, k: string, v: string)
    requires forall i :: 0 <= i < |m| ==> FoldLess(m[i].key, k)
    ensures Put(m, k, v) == m + [Entry(k, v)]
  {
    if m != [] {
      FoldLessStrict(m[0].key, k);
      PutGreatest(m[1..], k, v);
      assert m == [m[0]] + m[1..];
    }
  }

  /** Copying a sorted map entry by entry, in its own order, gives the same map:
      the copy DisplayNameMapper takes of the store's name map is exact. */
  lemma {:induction false} PutAllOfSorted(es: seq<Entry>)
    requires Sorted(es)
    ensures PutAll([], es) == es
  {
    if es != [] {
      var init := es[..|es| - 1];
      assert Sorted(init);
      PutAllOfSorted(init);
      PutGreatest(init, es[|es| - 1].key, es[|es| - 1].value);
      assert init + [es[|es| - 1]] == es;
    }
  }

  /** putAll into an ordered map gives an ordered map. */
  lemma {:induction false} PutAllSorted(m: seq<Entry>, es: seq<Entry>)
    requires Sorted(m)
    ensures Sorted(PutAll(m, es))
  {
    if es != [] {
      PutAllSorted(m, es[..|es| - 1]);
      PutSorted(PutAll(m, es[..|es| - 1]), es[|es| - 1].key, es[|es| - 1].value);
    }
  }

  /** The value of the last entry, in iteration order, whose key equals k
      ignoring case. */
  function LastValueFor(es: seq<Entry>, k: string): Option<string> {
    if es == [] then None
    else if EqualsIgnoreCase(es[|es| - 1].key, k) then Some(es[|es| - 1].value)
    else LastValueFor(es[..|es| - 1], k)
  }

  /** After putAll, a key reads the last value put under it, or what the map
      held before if none was. */
  lemma {:induction false} GetPutAll(m: seq<Entry>, es: seq<Entry>, k: string)
    ensures Get(PutAll(m, es), k) == if LastValueFor(es, k).Some? then LastValueFor(es, k) else Get(m, k)
  {
    if es != [] {
      var init, last := es[..|es| - 1], es[|es| - 1];
      GetPutAll(m, init, k);
      GetPut(PutAll(m, init), last.key, last.value, k);
    }
  }

  /** LastValueFor finds a value exactly when some key of es equals k ignoring case. */
  lemma {:induction false} LastValueForMeaning(es: seq<Entry>, k: string)
    ensures LastValueFor(es, k).Some? <==> HasKey(es, k)
  {
    if es != [] {
      var init := es[..|es| - 1];
      LastValueForMeaning(init, k);
      assert forall i :: 0 <= i < |init| ==> init[i] == es[i];
      if HasKey(es, k) && !EqualsIgnoreCase(es[|es| - 1].key, k) {
        var i :| 0 <= i < |es| && EqualsIgnoreCase(es[i].key, k);
        assert init[i] == es[i];
      }
    }
  }
}
