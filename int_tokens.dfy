/** Lists of 32-bit integers written as decimal tokens: the number layer
    shared by both generations of the item-list text format. */
module IntTokens {
  import opened Wrappers
  import opened JavaInts
  import opened JavaStrings

  /** Integer.toString of every number, in order. */
  function Render(nums: seq<int32>): (ts: seq<string>)
    ensures |ts| == |nums|
  {
    seq(|nums|, i requires 0 <= i < |nums| => IntToString(nums[i]))
  }

  /** Integer.parseInt of every token, left to right; the first token that
      does not parse is the error. */
  function ParseTokens(ts: seq<string>): Result<seq<int32>, string> {
    if ts == [] then Ok([])
    else
      match ParseInt(ts[0])
      case None => Err(ts[0])
      case Some(n) =>
        match ParseTokens(ts[1..])
        case Err(e) => Err(e)
        case Ok(ns) => Ok([n] + ns)
  }

  /** The parse succeeds exactly when every token is an int32, and then
      yields their values in order; otherwise the error is the first token
      that is not. */
  lemma {:induction false} ParseTokensMeaning(ts: seq<string>)
    ensures ParseTokens(ts).Ok? <==> forall i :: 0 <= i < |ts| ==> ParseInt(ts[i]).Some?
    ensures ParseTokens(ts).Ok? ==>
      (|ParseTokens(ts).value| == |ts| &&
       forall i :: 0 <= i < |ts| ==> ParseInt(ts[i]) == Some(ParseTokens(ts).value[i]))
    ensures ParseTokens(ts).Err? ==>
      exists i :: (0 <= i < |ts| && ParseInt(ts[i]).None? && ParseTokens(ts).error == ts[i] &&
                   forall j :: 0 <= j < i ==> ParseInt(ts[j]).Some?)
  {
    if ts != [] {
      ParseTokensMeaning(ts[1..]);
      assert forall i :: 1 <= i < |ts| ==> ts[i] == ts[1..][i - 1];
      if ParseInt(ts[0]).Some? && ParseTokens(ts[1..]).Err? {
        var i :| 0 <= i < |ts[1..]| && ParseInt(ts[1..][i]).None?
          && ParseTokens(ts[1..]).error == ts[1..][i] && forall j :: 0 <= j < i ==> ParseInt(ts[1..][j]).Some?;
        assert ParseInt(ts[i + 1]).None? && forall j :: 0 <= j < i + 1 ==> ParseInt(ts[j]).Some?;
      }
    }
  }

  /** The numbers ns parsed so far, followed by what is still to be parsed. */
  function Prepended(ns: seq<int32>, r: Result<seq<int32>, string>): Result<seq<int32>, string> {
    match r
    case Ok(ms) => Ok(ns + ms)
    case Err(e) => Err(e)
  }

  lemma PrependedNothing(r: Result<seq<int32>, string>)
    ensures Prepended([], r) == r
  {
    if r.Ok? {
      assert [] + r.value == r.value;
    }
  }

  /** One more token parsed: it moves from the unparsed part to the prefix. */
  lemma PrependedStep(ns: seq<int32>, ts: seq<string>)
    requires ts != []
    ensures ParseInt(ts[0]).Some? ==>
      Prepended(ns, ParseTokens(ts)) == Prepended(ns + [ParseInt(ts[0]).value], ParseTokens(ts[1..]))
    ensures ParseInt(ts[0]).None? ==> Prepended(ns, ParseTokens(ts)) == Err(ts[0])
  {
    if ParseInt(ts[0]).Some? && ParseTokens(ts[1..]).Ok? {
      var n := ParseInt(ts[0]).value;
      var ms := ParseTokens(ts[1..]).value;
      assert ns + ([n] + ms) == (ns + [n]) + ms;
    }
  }

  lemma ParseRender(nums: seq<int32>)
    ensures ParseTokens(Render(nums)) == Ok(nums)
  {
    var ts := Render(nums);
    forall i | 0 <= i < |ts| ensures ParseInt(ts[i]) == Some(nums[i]) {
      ParseIntOfIntToString(nums[i]);
    }
    ParseTokensMeaning(ts);
    assert ParseTokens(ts).value == nums;
  }

  /** Rendered numbers are non-empty and contain neither a comma, a
      semicolon nor a line break. */
  lemma RenderTokensPlain(nums: seq<int32>)
    ensures forall i :: 0 <= i < |nums| ==> var t := Render(nums)[i];
      t != "" && ',' !in t && ';' !in t && '\n' !in t
  {
    forall i | 0 <= i < |nums|
      ensures var t := Render(nums)[i]; t != "" && ',' !in t && ';' !in t && '\n' !in t
    {
      var n: int := nums[i];
      var t := IntToString(n);
      var m: nat := if n < 0 then -n else n;
      NatToStringDigits(m);
      if n < 0 {
        assert t == "-" + NatToString(m);
        assert forall k :: 1 <= k < |t| ==> IsDigit(t[k]);
      }
    }
  }

  /** The comma-terminated text of a non-empty number list splits back into
      the rendered tokens. */
  lemma SplitRendered(nums: seq<int32>)
    requires nums != []
    ensures Split(TerminatedJoin(Render(nums), ','), ',') == Render(nums)
  {
    RenderTokensPlain(nums);
    SplitTerminatedJoin(Render(nums), ',');
  }

  /** Tokens already in Integer.toString form render back unchanged. */
  lemma RenderParsedCanonical(ts: seq<string>)
    requires forall i :: 0 <= i < |ts| ==> IsCanonicalInt(ts[i])
    ensures ParseTokens(ts).Ok? && Render(ParseTokens(ts).value) == ts
  {
    ParseTokensMeaning(ts);
    var nums := ParseTokens(ts).value;
    assert Render(nums) == ts;
  }
}
