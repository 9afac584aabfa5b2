/** SaferUsernameFunction: masks a login name for logs and displays, leaving
    at most its first three characters visible. */
module SaferUsername {
  import opened JavaStrings

  /** How many leading characters stay visible: min(3, length / 3). */
  function VisibleCount(length: nat): (k: nat)
    ensures k <= 3 && k <= length
  {
    if 3 <= length / 3 then 3 else length / 3
  }

  /** from: the visible prefix followed by one '-' per hidden character. */
  function From(username: string): (r: string)
    ensures |r| == |username|
    ensures r[..VisibleCount(|username|)] == username[..VisibleCount(|username|)]
    ensures forall i :: VisibleCount(|username|) <= i < |r| ==> r[i] == '-'
  {
    var start := VisibleCount(|username|);
    username[..start] + Repeat('-', |username| - start)
  }

  /** Masking a masked name changes nothing. */
  lemma FromIdempotent(username: string)
    ensures From(From(username)) == From(username)
  {
    var once := From(username);
    var twice := From(once);
    assert forall i :: 0 <= i < |twice| ==> twice[i] == once[i] by {
      forall i | 0 <= i < |twice|
        ensures twice[i] == once[i]
      {
        if i < VisibleCount(|username|) {
          assert twice[i] == twice[..VisibleCount(|username|)][i];
        }
      }
    }
  }

  /** At most three characters are shown, and names of fewer than three
      characters are masked entirely; every shown character is in place. */
  lemma FromVisibility(username: string)
    ensures forall i :: 0 <= i < |username| && From(username)[i] != '-' ==> i < 3 && From(username)[i] == username[i]
    ensures |username| < 3 ==> From(username) == Repeat('-', |username|)
  {
    var r := From(username);
    var k := VisibleCount(|username|);
    forall i | 0 <= i < |username| && r[i] != '-'
      ensures i < 3 && r[i] == username[i]
    {
      assert i < k;
      assert r[i] == r[..k][i];
    }
  }
}
