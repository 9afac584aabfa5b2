/** ItemDataParser: the compact item-list text "id,qty,id,qty," stored inside
    each persisted BankSave, and its parser, which throws a
    JsonParseException on malformed text. */
module ItemDataParser {
  import opened Wrappers
  import opened JavaInts
  import opened JavaStrings
  import opened IntTokens
  import opened BankItems

  /** Why parsing failed: a token that Integer.parseInt rejects (the
      exception's cause), or an odd number of numbers. */
  datatype ParseError = NotAnInteger(token: string) | OddNumberCount

  function ItemText(item: BankItem): string {
    IntToString(item.itemId) + [','] + IntToString(item.quantity) + [',']
  }

  /** The save string of an item list. */
  function Encode(items: seq<BankItem>): string {
    if items == [] then "" else Encode(items[..|items| - 1]) + ItemText(items[|items| - 1])
  }

  /** What parseSaveString returns or throws, for a possibly null string. */
  function Decode(saveString: Option<string>): Result<seq<BankItem>, ParseError> {
    if saveString.None? || saveString.value == "" then Ok([])
    else DecodeTokens(Split(saveString.value, ','))
  }

  /** Parsing the comma-separated tokens: each one as an int, then in pairs. */
  function DecodeTokens(tokens: seq<string>): Result<seq<BankItem>, ParseError> {
    match ParseTokens(tokens)
    case Err(t) => Err(NotAnInteger(t))
    case Ok(nums) => if |nums| % 2 != 0 then Err(OddNumberCount) else Ok(Pairs(nums))
  }

  /** toSaveString: a StringBuilder loop appending "id,qty," per item. */
  method ToSaveString(items: seq<BankItem>) returns (s: string)
    ensures s == Encode(items)
  {
    s := "";
    var i := 0;
    while i < |items|
      invariant 0 <= i <= |items|
      invariant s == Encode(items[..i])
    {
      assert items[..i + 1][..i] == items[..i];
      s := s + ItemText(items[i]);
      i := i + 1;
    }
    assert items[..i] == items;
  }

  /** parseSaveString: null or "" give the empty list; otherwise every
      comma-separated token is parsed as an int, then the numbers are paired. */
  method ParseSaveString(saveString: Option<string>) returns (r: Result<seq<BankItem>, ParseError>)
    ensures r == Decode(saveString)
  {
    if saveString.None? || saveString.value == "" {
      return Ok([]);
    }
    var tokens := Split(saveString.value, ',');
    r := ParseTokensToItems(tokens);
  }

  /** The two loops of parseSaveString over the split tokens: parse each as
      an int, reject an odd count, then pair consecutive numbers. */
  method ParseTokensToItems(tokens: seq<string>) returns (r: Result<seq<BankItem>, ParseError>)
    ensures r == DecodeTokens(tokens)
  {
    var numbers: seq<int32> := [];
    var i := 0;
    assert tokens[0..] == tokens;
    PrependedNothing(ParseTokens(tokens));
    while i < |tokens|
      invariant 0 <= i <= |tokens|
      invariant ParseTokens(tokens) == Prepended(numbers, ParseTokens(tokens[i..]))
    {
      assert tokens[i..][1..] == tokens[i + 1..];
      PrependedStep(numbers, tokens[i..]);
      var n := ParseInt(tokens[i]);
      if n.None? {
        return Err(NotAnInteger(tokens[i]));
      }
      numbers := numbers + [n.value];
      i := i + 1;
    }
    assert tokens[i..] == [];
    assert numbers + [] == numbers;
    if |numbers| % 2 != 0 {
      return Err(OddNumberCount);
    }
    var items: seq<BankItem> := [];
    var j := 0;
    assert Pairs(numbers[..0]) == [];
    while j < |numbers|
      invariant 0 <= j <= |numbers| && j % 2 == 0
      invariant items == Pairs(numbers[..j])
    {
      PairsExtend(numbers, j);
      items := items + [BankItem(numbers[j], numbers[j + 1])];
      j := j + 2;
    }
    assert numbers[..j] == numbers;
    return Ok(items);
  }

  // ---------------------------------------------------------------------
  // Properties

  lemma {:induction false} EncodeIsTerminatedJoin(items: seq<BankItem>)
    ensures Encode(items) == TerminatedJoin(Render(ItemNumbers(items)), ',')
  {
    if items != [] {
      var init, last := items[..|items| - 1], items[|items| - 1];
      var a, x, y := Render(ItemNumbers(init)), IntToString(last.itemId), IntToString(last.quantity);
      calc {
        Encode(items);
        Encode(init) + ItemText(last);
        { EncodeIsTerminatedJoin(init); }
        TerminatedJoin(a, ',') + ItemText(last);
        TerminatedJoin(a, ',') + (x + [','] + y + [',']);
        TerminatedJoin(a, ',') + x + [','] + y + [','];
        { TerminatedJoinAppendTwo(a, x, y, ','); }
        TerminatedJoin(a + [x, y], ',');
        { RenderItemNumbersSnoc(items); }
        TerminatedJoin(Render(ItemNumbers(items)), ',');
      }
    }
  }

  lemma RenderItemNumbersSnoc(items: seq<BankItem>)
    requires items != []
    ensures var last := items[|items| - 1];
      Render(ItemNumbers(items))
        == Render(ItemNumbers(items[..|items| - 1])) + [IntToString(last.itemId), IntToString(last.quantity)]
  {
    var ts := Render(ItemNumbers(items));
    var init := Render(ItemNumbers(items[..|items| - 1]));
    forall j | 0 <= j < |init| ensures ts[j] == init[j] {
      assert ItemNumbers(items)[j] == ItemNumbers(items[..|items| - 1])[j];
    }
  }

  /** For every list of int32 items, parsing the save string gives the list back. */
  lemma DecodeEncode(items: seq<BankItem>)
    ensures Decode(Some(Encode(items))) == Ok(items)
  {
    if items != [] {
      var nums := ItemNumbers(items);
      EncodeIsTerminatedJoin(items);
      SplitRendered(nums);
      ParseRender(nums);
      PairsOfItemNumbers(items);
      assert Encode(items) != "" by {
        assert |ItemText(items[|items| - 1])| > 0;
      }
    }
  }

  /** The empty list is the empty string, and both null and "" decode to the empty list. */
  lemma EmptyCases()
    ensures Encode([]) == ""
    ensures Decode(None) == Ok([]) && Decode(Some("")) == Ok([])
  {
  }

  /** A save string in canonical form (every token as Integer.toString writes
      it, each one followed by a comma). */
  predicate IsCanonical(s: string) {
    var ps := RawSplit(s, ',');
    s == "" || (ps[|ps| - 1] == "" && (|ps| - 1) % 2 == 0
               && forall i :: 0 <= i < |ps| - 1 ==> IsCanonicalInt(ps[i]))
  }

  /** Every canonical save string parses, and writing the result back gives
      the same string. */
  lemma EncodeDecodeCanonical(s: string)
    requires IsCanonical(s)
    ensures Decode(Some(s)).Ok? && Encode(Decode(Some(s)).value) == s
  {
    if s != "" {
      var ts := CanonicalTokens(s);
      RenderParsedCanonical(ts);
      var nums := ParseTokens(ts).value;
      ItemNumbersOfPairs(nums);
      EncodeIsTerminatedJoin(Pairs(nums));
    }
  }

  /** A non-empty canonical save string is the terminated join of its split tokens. */
  lemma CanonicalTokens(s: string) returns (ts: seq<string>)
    requires IsCanonical(s) && s != ""
    ensures ts == Split(s, ',') && s == TerminatedJoin(ts, ',') && |ts| % 2 == 0
    ensures forall i :: 0 <= i < |ts| ==> IsCanonicalInt(ts[i])
  {
    var ps := RawSplit(s, ',');
    ts := ps[..|ps| - 1];
    assert ps == ts + [""];
    RawSplitJoin(s, ',');
    JoinIsTerminatedJoin(ts, "", ',');
    assert s == TerminatedJoin(ts, ',') + "";
    assert ts != [];
    assert ts[|ts| - 1] != "" by {
      assert IsCanonicalInt(ts[|ts| - 1]);
    }
    DropOneTrailingEmpty(ts);
  }

  /** Any token that is not an int32 makes the parse fail. */
  lemma NonIntegerTokenFails(s: string, i: int)
    requires s != "" && 0 <= i < |Split(s, ',')| && ParseInt(Split(s, ',')[i]).None?
    ensures Decode(Some(s)).Err? && Decode(Some(s)).error.NotAnInteger?
  {
    ParseTokensMeaning(Split(s, ','));
  }

  /** An odd number of numeric tokens makes the parse fail. */
  lemma OddTokenCountFails(s: string)
    requires s != ""
    requires forall i :: 0 <= i < |Split(s, ',')| ==> ParseInt(Split(s, ',')[i]).Some?
    requires |Split(s, ',')| % 2 == 1
    ensures Decode(Some(s)) == Err(OddNumberCount)
  {
    ParseTokensMeaning(Split(s, ','));
  }

  /** On success there are half as many items as tokens, each pairing two
      consecutive tokens in order. */
  lemma DecodedItemsPairTokens(s: string)
    requires s != "" && Decode(Some(s)).Ok?
    ensures var ts := Split(s, ','); var items := Decode(Some(s)).value;
      2 * |items| == |ts| &&
      forall k :: 0 <= k < |items| ==>
        ParseInt(ts[2 * k]) == Some(items[k].itemId) && ParseInt(ts[2 * k + 1]) == Some(items[k].quantity)
  {
    ParseTokensMeaning(Split(s, ','));
  }

  /** split drops every trailing empty token, so the tokens never end on an
      empty one; an empty token that is kept fails to parse. */
  lemma EmptyTokenFails(s: string, i: int)
    requires s != "" && 0 <= i < |Split(s, ',')| && Split(s, ',')[i] == ""
    ensures i < |Split(s, ',')| - 1 && Split(s, ',')[|Split(s, ',')| - 1] != ""
    ensures Decode(Some(s)).Err? && Decode(Some(s)).error.NotAnInteger?
  {
    NonIntegerTokenFails(s, i);
  }

  /** A text of commas only, such as ",", has no tokens at all, and so
      parses to the empty list. */
  lemma OnlyCommasDecodeEmpty(s: string)
    requires s != "" && forall k :: 0 <= k < |s| ==> s[k] == ','
    ensures Split(s, ',') == [] && Decode(Some(s)) == Ok([])
  {
    RawSplitOfDelimiters(s, ',');
    AllEmptyDropped(RawSplit(s, ','));
  }

  lemma {:induction false} RawSplitOfDelimiters(s: string, d: char)
    requires forall k :: 0 <= k < |s| ==> s[k] == d
    ensures |RawSplit(s, d)| == |s| + 1
    ensures forall k :: 0 <= k < |RawSplit(s, d)| ==> RawSplit(s, d)[k] == ""
  {
    if s != [] {
      RawSplitOfDelimiters(s[1..], d);
    }
  }

  lemma {:induction false} AllEmptyDropped(ts: seq<string>)
    requires forall k :: 0 <= k < |ts| ==> ts[k] == ""
    ensures DropTrailingEmpty(ts) == []
  {
    if ts != [] {
      AllEmptyDropped(ts[..|ts| - 1]);
    }
  }

  /** Trailing empty tokens are dropped by split; a leading or an interior
      empty token is kept and fails to parse. */
  lemma TrailingCommaIgnored()
    ensures Decode(Some("301,1,")) == Ok([BankItem(301, 1)])
  {
    assert Encode([BankItem(301, 1)]) == "301,1,";
    DecodeEncode([BankItem(301, 1)]);
  }

  lemma LeadingEmptyTokenFails(a: string, b: string)
    requires ',' !in a && ',' !in b && b != ""
    ensures Decode(Some("," + a + "," + b)).Err?
  {
    var s := "," + a + "," + b;
    assert s == "" + [','] + a + [','] + b;
    assert Split(s, ',') == ["", a, b] by {
      SplitThree("", a, b, ',');
    }
    assert DecodeTokens(["", a, b]).Err?;
  }

  lemma InteriorEmptyTokenFails(a: string, b: string)
    requires ',' !in a && ',' !in b && b != ""
    ensures Decode(Some(a + ",," + b + ",")).Err?
  {
    var s := a + ",," + b + ",";
    assert s == a + [','] + "" + [','] + b + [','] by {
      assert a + [','] + "" == a + [','];
      assert a + [','] + [','] == a + ",,";
      assert s == a + [','] + [','] + b + [','];
    }
    assert Split(s, ',') == [a, "", b] by {
      SplitThree(a, "", b, ',');
    }
    assert DecodeTokens([a, "", b]).Err? by {
      assert [a, "", b][1..] == ["", b];
      assert ParseTokens(["", b]) == Err("");
    }
  }
}
