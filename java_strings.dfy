/** The java.lang.String operations the core relies on: ASCII case folding
    (toLowerCase, equalsIgnoreCase, CASE_INSENSITIVE_ORDER), startsWith,
    contains, repeat, and split on a single-character delimiter. */
module JavaStrings {

  function LowerChar(c: char): char {
    if 'A' <= c <= 'Z' then ((c as int) + 32) as char else c
  }

  /** String.toLowerCase, restricted to ASCII letters. */
  function ToLowerCase(s: string): (r: string)
    ensures |r| == |s|
  {
    seq(|s|, i requires 0 <= i < |s| => LowerChar(s[i]))
  }

  lemma ToLowerCaseIdempotent(s: string)
    ensures ToLowerCase(ToLowerCase(s)) == ToLowerCase(s)
  {
  }

  /** String.equalsIgnoreCase. */
  predicate EqualsIgnoreCase(a: string, b: string) {
    ToLowerCase(a) == ToLowerCase(b)
  }

  predicate StartsWith(s: string, prefix: string) {
    |prefix| <= |s| && s[..|prefix|] == prefix
  }

  predicate OccursAt(s: string, sub: string, i: nat) {
    i + |sub| <= |s| && s[i..i + |sub|] == sub
  }

  /** String.contains. */
  predicate Contains(s: string, sub: string) {
    exists i | 0 <= i <= |s| - |sub| :: OccursAt(s, sub, i)
  }

  lemma ContainsEmpty(s: string)
    ensures Contains(s, "")
  {
    assert OccursAt(s, "", 0);
  }

  /** A string cannot contain a substring holding a character it lacks. */
  lemma MissingCharNotContained(s: string, sub: string, j: nat)
    requires j < |sub| && sub[j] !in s
    ensures !Contains(s, sub)
  {
    forall i | 0 <= i <= |s| - |sub| ensures !OccursAt(s, sub, i) {
      assert s[i + j] in s;
      assert s[i..i + |sub|][j] == s[i + j];
    }
  }

  /** Strings.repeat(c, n) for a one-character string c. */
  function Repeat(c: char, n: nat): (r: string)
    ensures |r| == n && forall i :: 0 <= i < n ==> r[i] == c
  {
    seq(n, i => c)
  }

  /** Strict lexicographic order on UTF-16 code units, as String.compareTo. */
  predicate LexLess(a: string, b: string) {
    if a == [] then b != []
    else if b == [] then false
    else if a[0] != b[0] then a[0] < b[0]
    else LexLess(a[1..], b[1..])
  }

  lemma {:induction false} LexLessIrreflexive(a: string)
    ensures !LexLess(a, a)
  {
    if a != [] {
      LexLessIrreflexive(a[1..]);
    }
  }

  lemma {:induction false} LexLessTransitive(a: string, b: string, c: string)
    requires LexLess(a, b) && LexLess(b, c)
    ensures LexLess(a, c)
  {
    if a != [] && b != [] && c != [] && a[0] == b[0] && b[0] == c[0] {
      LexLessTransitive(a[1..], b[1..], c[1..]);
    }
  }

  lemma {:induction false} LexLessTotal(a: string, b: string)
    requires a != b
    ensures LexLess(a, b) || LexLess(b, a)
  {
    if a != [] && b != [] && a[0] == b[0] {
      assert a == [a[0]] + a[1..] && b == [b[0]] + b[1..];
      LexLessTotal(a[1..], b[1..]);
    }
  }

  lemma {:induction false} LexLessAsymmetric(a: string, b: string)
    requires LexLess(a, b)
    ensures !LexLess(b, a)
  {
    if a != [] && b != [] && a[0] == b[0] {
      LexLessAsymmetric(a[1..], b[1..]);
    }
  }

  /** String.CASE_INSENSITIVE_ORDER, strict part. */
  predicate FoldLess(a: string, b: string) {
    LexLess(ToLowerCase(a), ToLowerCase(b))
  }

  // ---------------------------------------------------------------------
  // Splitting on one delimiter character

  /** Every piece between delimiters, empty ones included; there is always
      one more piece than there are delimiters. */
  function RawSplit(s: string, d: char): (r: seq<string>)
    ensures |r| >= 1
  {
    if s == [] then [""]
    else
      var rest := RawSplit(s[1..], d);
      if s[0] == d then [""] + rest else [[s[0]] + rest[0]] + rest[1..]
  }

  function DropTrailingEmpty(ts: seq<string>): (r: seq<string>)
    ensures |r| <= |ts| && r == ts[..|r|]
    ensures r != [] ==> r[|r| - 1] != ""
  {
    if ts != [] && ts[|ts| - 1] == "" then DropTrailingEmpty(ts[..|ts| - 1]) else ts
  }

  /** String.split with a one-character regular expression and limit 0: the
      pieces between delimiters with the trailing empty ones dropped (leading
      and interior ones are kept). A string without the delimiter comes back
      whole; "" is the one such string that dropping would change. */
  function Split(s: string, d: char): seq<string> {
    if s == "" then [""] else DropTrailingEmpty(RawSplit(s, d))
  }

  /** Each token followed by the delimiter: what a StringBuilder loop that
      appends `token` then `d` produces. */
  function TerminatedJoin(ts: seq<string>, d: char): string {
    if ts == [] then "" else ts[0] + [d] + TerminatedJoin(ts[1..], d)
  }

  lemma {:induction false} TerminatedJoinAppend(ts: seq<string>, t: string, d: char)
    ensures TerminatedJoin(ts + [t], d) == TerminatedJoin(ts, d) + t + [d]
  {
    if ts != [] {
      assert (ts + [t])[1..] == ts[1..] + [t];
      TerminatedJoinAppend(ts[1..], t, d);
    }
  }

  lemma TerminatedJoinAppendTwo(ts: seq<string>, x: string, y: string, d: char)
    ensures TerminatedJoin(ts + [x, y], d) == TerminatedJoin(ts, d) + x + [d] + y + [d]
  {
    TerminatedJoinAppend(ts, x, d);
    TerminatedJoinAppend(ts + [x], y, d);
    assert ts + [x] + [y] == ts + [x, y];
  }

  lemma TerminatedJoinCons(t: string, ts: seq<string>, d: char)
    ensures TerminatedJoin([t] + ts, d) == t + [d] + TerminatedJoin(ts, d)
  {
    assert ([t] + ts)[1..] == ts;
  }

  /** A string without the delimiter is a single piece. */
  lemma {:induction false} RawSplitWithoutDelimiter(t: string, d: char)
    requires d !in t
    ensures RawSplit(t, d) == [t]
  {
    if t != [] {
      RawSplitWithoutDelimiter(t[1..], d);
      assert [t[0]] + t[1..] == t;
    }
  }

  /** Without the delimiter, split returns the string itself. */
  lemma SplitWithoutDelimiter(t: string, d: char)
    requires d !in t
    ensures Split(t, d) == [t]
  {
    RawSplitWithoutDelimiter(t, d);
  }

  /** The first piece ends at the first delimiter. */
  lemma {:induction false} RawSplitPiece(t: string, d: char, rest: string)
    requires d !in t
    ensures RawSplit(t + [d] + rest, d) == [t] + RawSplit(rest, d)
  {
    var s := t + [d] + rest;
    if t == [] {
      assert s[1..] == rest;
    } else {
      assert s[1..] == t[1..] + [d] + rest;
      RawSplitPiece(t[1..], d, rest);
      assert [t[0]] + t[1..] == t;
    }
  }

  /** Splitting a terminated join back gives its tokens and one final empty piece. */
  lemma {:induction false} RawSplitTerminatedJoin(ts: seq<string>, d: char)
    requires forall i :: 0 <= i < |ts| ==> d !in ts[i]
    ensures RawSplit(TerminatedJoin(ts, d), d) == ts + [""]
  {
    if ts != [] {
      RawSplitTerminatedJoin(ts[1..], d);
      RawSplitPiece(ts[0], d, TerminatedJoin(ts[1..], d));
      assert ts == [ts[0]] + ts[1..];
    }
  }

  lemma DropOneTrailingEmpty(ts: seq<string>)
    requires ts != [] && ts[|ts| - 1] != ""
    ensures DropTrailingEmpty(ts + [""]) == ts
  {
    assert (ts + [""])[..|ts|] == ts;
  }

  /** Java's split of a terminated join of non-empty, delimiter-free tokens
      gives the tokens back. */
  lemma SplitTerminatedJoin(ts: seq<string>, d: char)
    requires ts != []
    requires forall i :: 0 <= i < |ts| ==> d !in ts[i] && ts[i] != ""
    ensures Split(TerminatedJoin(ts, d), d) == ts
  {
    RawSplitTerminatedJoin(ts, d);
    DropOneTrailingEmpty(ts);
  }

  /** No raw piece contains the delimiter. */
  lemma {:induction false} RawSplitPiecesPlain(s: string, d: char)
    ensures forall i :: 0 <= i < |RawSplit(s, d)| ==> d !in RawSplit(s, d)[i]
  {
    if s != [] {
      RawSplitPiecesPlain(s[1..], d);
    }
  }

  /** String.join: the pieces with the delimiter between them. */
  function Join(ps: seq<string>, d: char): string
    requires ps != []
  {
    if |ps| == 1 then ps[0] else ps[0] + [d] + Join(ps[1..], d)
  }

  /** Joining pieces is terminating all but the last one. */
  lemma {:induction false} JoinIsTerminatedJoin(ts: seq<string>, last: string, d: char)
    ensures Join(ts + [last], d) == TerminatedJoin(ts, d) + last
  {
    if ts != [] {
      assert (ts + [last])[1..] == ts[1..] + [last];
      JoinIsTerminatedJoin(ts[1..], last, d);
    }
  }

  lemma JoinConsChar(c: char, ps: seq<string>, d: char)
    requires ps != []
    ensures Join([[c] + ps[0]] + ps[1..], d) == [c] + Join(ps, d)
  {
    var qs := [[c] + ps[0]] + ps[1..];
    if |ps| > 1 {
      assert qs[1..] == ps[1..];
    }
  }

  /** The raw pieces of any string, joined, give the string back. */
  lemma {:induction false} RawSplitJoin(s: string, d: char)
    ensures Join(RawSplit(s, d), d) == s
  {
    if s != [] {
      var rest := RawSplit(s[1..], d);
      RawSplitJoin(s[1..], d);
      if s[0] == d {
        assert ([""] + rest)[1..] == rest;
      } else {
        JoinConsChar(s[0], rest, d);
      }
      assert s == [s[0]] + s[1..];
    }
  }

  lemma RawSplitTwoPieces(a: string, b: string, rest: string, d: char)
    requires d !in a && d !in b
    ensures RawSplit(a + [d] + b + [d] + rest, d) == [a, b] + RawSplit(rest, d)
  {
    assert a + [d] + b + [d] + rest == a + [d] + (b + [d] + rest);
    RawSplitPiece(a, d, b + [d] + rest);
    RawSplitPiece(b, d, rest);
  }

  /** Three delimiter-free pieces, the last one non-empty, split back with
      or without a trailing delimiter. */
  lemma SplitThree(a: string, b: string, c: string, d: char)
    requires d !in a && d !in b && d !in c && c != ""
    ensures Split(a + [d] + b + [d] + c, d) == [a, b, c]
    ensures Split(a + [d] + b + [d] + c + [d], d) == [a, b, c]
  {
    RawSplitTwoPieces(a, b, c, d);
    RawSplitWithoutDelimiter(c, d);
    assert RawSplit(a + [d] + b + [d] + c, d) == [a, b, c];
    var t := a + [d] + b + [d] + c + [d];
    assert t == a + [d] + b + [d] + (c + [d] + "");
    RawSplitTwoPieces(a, b, c + [d] + "", d);
    RawSplitPiece(c, d, "");
    assert RawSplit(t, d) == [a, b, c] + [""];
    DropOneTrailingEmpty([a, b, c]);
  }
}
