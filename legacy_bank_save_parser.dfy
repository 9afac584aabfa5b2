/** The first generation's BankSaveParser: every save on its own line as
    "user;time;id,qty,id,qty,...\n". Parsing never throws: any malformed
    line makes the whole result empty. The item section is the same
    "id,qty," text that ItemDataParser reads and writes. */
module LegacyBankSaveParsers {
  import opened Wrappers
  import opened JavaInts
  import opened JavaStrings
  import opened IntTokens
  import opened BankItems
  import ItemDataParser
  import opened LegacyBankSaves

  /** One save's line, without its line break. */
  function Line(save: LegacyBankSave): string {
    save.userName + [';'] + save.timeString + [';'] + ItemDataParser.Encode(save.bankData)
  }

  function Lines(saves: seq<LegacyBankSave>): (ls: seq<string>)
    ensures |ls| == |saves|
  {
    seq(|saves|, i requires 0 <= i < |saves| => Line(saves[i]))
  }

  /** The text toSaveString writes: each line followed by "\n". */
  function SaveText(saves: seq<LegacyBankSave>): string {
    TerminatedJoin(Lines(saves), '\n')
  }

  /** One line of doParse: exactly three ';'-separated parts, the third made
      of int tokens in pairs; None where dataAssert or Integer.parseInt throws. */
  function ParseLine(line: string): Option<LegacyBankSave> {
    var parts := Split(line, ';');
    if |parts| != 3 then None
    else
      match ItemDataParser.DecodeTokens(Split(parts[2], ','))
      case Err(_) => None
      case Ok(items) => Some(LegacyBankSave(parts[0], parts[1], items))
  }

  /** Every line parsed, in order; None as soon as one fails. */
  function ParseLines(lines: seq<string>): Option<seq<LegacyBankSave>> {
    if lines == [] then Some([])
    else
      match ParseLines(lines[..|lines| - 1])
      case None => None
      case Some(saves) =>
        match ParseLine(lines[|lines| - 1])
        case None => None
        case Some(save) => Some(saves + [save])
  }

  /** doParse: null and "" give no saves; otherwise the lines split on "\n";
      None stands for the IllegalArgumentException. */
  function DoParse(text: Option<string>): Option<seq<LegacyBankSave>> {
    if text.None? || text.value == "" then Some([]) else ParseLines(Split(text.value, '\n'))
  }

  /** parseSaveString: what doParse returns, or the empty list where it throws. */
  function ParseResult(text: Option<string>): seq<LegacyBankSave> {
    match DoParse(text)
    case None => []
    case Some(saves) => saves
  }

  /** toSaveString: a StringBuilder loop over the saves. */
  method ToSaveString(saves: seq<LegacyBankSave>) returns (sb: string)
    ensures sb == SaveText(saves)
  {
    sb := "";
    var i := 0;
    while i < |saves|
      invariant 0 <= i <= |saves|
      invariant sb == SaveText(saves[..i])
    {
      var save := saves[i];
      // the forEach over the items writes the same text as ItemDataParser.toSaveString
      var itemText := ItemDataParser.ToSaveString(save.bankData);
      sb := sb + (save.userName + [';'] + save.timeString + [';'] + itemText) + ['\n'];
      LinesSnoc(saves, i);
      TerminatedJoinAppend(Lines(saves[..i]), Line(save), '\n');
      i := i + 1;
    }
    assert saves[..i] == saves;
  }

  /** parseSaveString over doParse's loops: each line is split and checked,
      its item tokens parsed as in ItemDataParser; a failure anywhere gives
      the empty list. */
  method ParseSaveString(text: Option<string>) returns (parsedSaves: seq<LegacyBankSave>)
    ensures parsedSaves == ParseResult(text)
  {
    if text.None? || text.value == "" {
      return [];
    }
    var lines := Split(text.value, '\n');
    parsedSaves := [];
    var i := 0;
    while i < |lines|
      invariant 0 <= i <= |lines|
      invariant ParseLines(lines[..i]) == Some(parsedSaves)
    {
      var save := ParseOneLine(lines[i]);
      if save.None? {
        ParseLinesFailure(lines, i);
        return [];
      }
      ParseLinesStep(lines, i, parsedSaves, save.value);
      parsedSaves := parsedSaves + [save.value];
      i := i + 1;
    }
    assert lines[..i] == lines;
  }

  /** The body of doParse's loop for one line: dataAssert on the part
      count, then the item tokens as in ItemDataParser. */
  method ParseOneLine(line: string) returns (r: Option<LegacyBankSave>)
    ensures r == ParseLine(line)
  {
    var parts := Split(line, ';');
    if |parts| != 3 {
      return None;
    }
    var items := ItemDataParser.ParseTokensToItems(Split(parts[2], ','));
    if items.Err? {
      return None;
    }
    return Some(LegacyBankSave(parts[0], parts[1], items.value));
  }

  // ---------------------------------------------------------------------
  // Properties

  lemma LinesSnoc(saves: seq<LegacyBankSave>, i: nat)
    requires i < |saves|
    ensures Lines(saves[..i + 1]) == Lines(saves[..i]) + [Line(saves[i])]
  {
  }

  lemma ParseLinesStep(lines: seq<string>, i: nat, saves: seq<LegacyBankSave>, save: LegacyBankSave)
    requires i < |lines| && ParseLines(lines[..i]) == Some(saves) && ParseLine(lines[i]) == Some(save)
    ensures ParseLines(lines[..i + 1]) == Some(saves + [save])
  {
    var ls := lines[..i + 1];
    assert ls != [] && ls[..|ls| - 1] == lines[..i] && ls[|ls| - 1] == lines[i];
  }

  /** Once a line fails, lines after it do not matter. */
  lemma {:induction false} ParseLinesFailure(lines: seq<string>, i: nat)
    requires i < |lines| && ParseLine(lines[i]).None?
    ensures ParseLines(lines).None?
    decreases |lines|
  {
    if i < |lines| - 1 {
      var init := lines[..|lines| - 1];
      assert init[i] == lines[i];
      ParseLinesFailure(init, i);
    }
  }

  /** On success there is one save per line, each the parse of its line. */
  lemma {:induction false} ParseLinesSuccess(lines: seq<string>)
    ensures ParseLines(lines).Some? ==>
      (|ParseLines(lines).value| == |lines| &&
       forall i :: 0 <= i < |lines| ==> ParseLine(lines[i]) == Some(ParseLines(lines).value[i]))
  {
    if lines != [] && ParseLines(lines).Some? {
      var init := lines[..|lines| - 1];
      ParseLinesSuccess(init);
      var v, vi := ParseLines(lines).value, ParseLines(init).value;
      assert v == vi + [ParseLine(lines[|lines| - 1]).value];
      forall i | 0 <= i < |lines| ensures ParseLine(lines[i]) == Some(v[i]) {
        if i < |init| {
          assert lines[i] == init[i] && v[i] == vi[i];
        }
      }
    }
  }

  lemma {:induction false} ParseLinesAllParse(lines: seq<string>)
    requires forall i :: 0 <= i < |lines| ==> ParseLine(lines[i]).Some?
    ensures ParseLines(lines).Some?
  {
    if lines != [] {
      var init := lines[..|lines| - 1];
      assert forall i :: 0 <= i < |init| ==> init[i] == lines[i];
      ParseLinesAllParse(init);
    }
  }

  /** All or nothing: the lines parse exactly when each one does, into one
      save per line in order. */
  lemma ParseLinesMeaning(lines: seq<string>)
    ensures ParseLines(lines).Some? <==> forall i :: 0 <= i < |lines| ==> ParseLine(lines[i]).Some?
    ensures ParseLines(lines).Some? ==>
      (|ParseLines(lines).value| == |lines| &&
       forall i :: 0 <= i < |lines| ==> ParseLine(lines[i]) == Some(ParseLines(lines).value[i]))
  {
    ParseLinesSuccess(lines);
    if forall i :: 0 <= i < |lines| ==> ParseLine(lines[i]).Some? {
      ParseLinesAllParse(lines);
    }
  }

  /** Any malformed line empties the whole result. */
  lemma MalformedLineEmptiesAll(text: string, i: nat)
    requires text != "" && i < |Split(text, '\n')| && ParseLine(Split(text, '\n')[i]).None?
    ensures ParseResult(Some(text)) == []
  {
    ParseLinesFailure(Split(text, '\n'), i);
  }

  lemma NullOrEmptyGivesNothing()
    ensures ParseResult(None) == [] && ParseResult(Some("")) == []
  {
  }

  /** A line needs exactly three parts: fewer or more are rejected. */
  lemma WrongPartCountRejected(line: string)
    requires |Split(line, ';')| != 3
    ensures ParseLine(line).None?
  {
  }

  /** The item section must be int tokens, an even number of them. */
  lemma BadItemSectionRejected(line: string)
    requires |Split(line, ';')| == 3
    requires var ts := Split(Split(line, ';')[2], ',');
      (exists i :: 0 <= i < |ts| && ParseInt(ts[i]).None?) ||
      ((forall i :: 0 <= i < |ts| ==> ParseInt(ts[i]).Some?) && |ts| % 2 == 1)
    ensures ParseLine(line).None?
  {
    ParseTokensMeaning(Split(Split(line, ';')[2], ','));
  }

  /** Neither a ';' nor a line break. */
  predicate PlainField(s: string) {
    ';' !in s && '\n' !in s
  }

  /** A save whose line parses back: plain name and time, and at least one item. */
  predicate Writable(save: LegacyBankSave) {
    PlainField(save.userName) && PlainField(save.timeString) && save.bankData != []
  }

  lemma {:induction false} TerminatedJoinAvoids(ts: seq<string>, d: char, c: char)
    requires c != d && forall i :: 0 <= i < |ts| ==> c !in ts[i]
    ensures c !in TerminatedJoin(ts, d)
  {
    if ts != [] {
      TerminatedJoinAvoids(ts[1..], d, c);
    }
  }

  /** The item text of a non-empty list is non-empty and has neither ';' nor a line break. */
  lemma ItemTextPlain(items: seq<BankItem>)
    requires items != []
    ensures var e := ItemDataParser.Encode(items); e != "" && PlainField(e)
    ensures ItemDataParser.DecodeTokens(Split(ItemDataParser.Encode(items), ',')) == Ok(items)
  {
    var nums := ItemNumbers(items);
    ItemDataParser.EncodeIsTerminatedJoin(items);
    RenderTokensPlain(nums);
    TerminatedJoinAvoids(Render(nums), ',', ';');
    TerminatedJoinAvoids(Render(nums), ',', '\n');
    ItemDataParser.DecodeEncode(items);
    assert |ItemDataParser.ItemText(items[|items| - 1])| > 0;
  }

  lemma LineRoundTrip(save: LegacyBankSave)
    requires Writable(save)
    ensures ParseLine(Line(save)) == Some(save)
    ensures Line(save) != "" && '\n' !in Line(save)
  {
    var e := ItemDataParser.Encode(save.bankData);
    ItemTextPlain(save.bankData);
    SplitThree(save.userName, save.timeString, e, ';');
  }

  /** parseSaveString reads back what toSaveString wrote, for saves with
      plain names and times and non-empty item lists. */
  lemma RoundTrip(saves: seq<LegacyBankSave>)
    requires forall i :: 0 <= i < |saves| ==> Writable(saves[i])
    ensures ParseResult(Some(SaveText(saves))) == saves
  {
    if saves != [] {
      var ls := Lines(saves);
      forall i | 0 <= i < |ls| ensures '\n' !in ls[i] && ls[i] != "" && ParseLine(ls[i]) == Some(saves[i]) {
        LineRoundTrip(saves[i]);
      }
      SplitTerminatedJoin(ls, '\n');
      assert SaveText(saves) != "" by {
        assert |ls[0] + ['\n']| > 0;
      }
      ParseLinesMeaning(ls);
      assert ParseLines(ls).value == saves;
    }
  }

  /** A save with no items is written as "user;time;", which splits into
      only two parts and is rejected; one such save empties the whole
      parse result. */
  lemma EmptyBankNotReadBack(save: LegacyBankSave)
    requires PlainField(save.userName) && PlainField(save.timeString) && save.bankData == []
    ensures ParseLine(Line(save)).None?
    ensures ParseResult(Some(SaveText([save]))) == []
  {
    var u, t := save.userName, save.timeString;
    var line := Line(save);
    assert line == u + [';'] + t + [';'] + "";
    RawSplitTwoPieces(u, t, "", ';');
    assert RawSplit(line, ';') == [u, t, ""];
    assert |Split(line, ';')| <= 2 by {
      assert line != "";
      assert DropTrailingEmpty([u, t, ""]) == DropTrailingEmpty([u, t]);
    }
    assert Lines([save]) == [line];
    TerminatedJoinCons(line, [], '\n');
    assert [line] + [] == [line];
    assert SaveText([save]) == line + ['\n'] + "";
    SplitTerminatedJoin([line], '\n');
    MalformedLineEmptiesAll(SaveText([save]), 0);
  }

  // The parser's invalid inputs, for any plain fields.

  /** "name;date": two fields. */
  lemma TooFewFieldsRejected(a: string, b: string)
    requires PlainField(a) && PlainField(b) && b != ""
    ensures ParseResult(Some(a + [';'] + b)) == []
  {
    var s := a + [';'] + b;
    SplitWithoutDelimiter(s, '\n');
    RawSplitPiece(a, ';', b);
    RawSplitWithoutDelimiter(b, ';');
    assert Split(s, ';') == [a, b];
    MalformedLineEmptiesAll(s, 0);
  }

  /** "name;date;10,10,5,5;extra": four fields. */
  lemma TooManyFieldsRejected(a: string, b: string, c: string, d: string)
    requires PlainField(a) && PlainField(b) && PlainField(c) && PlainField(d) && d != ""
    ensures ParseResult(Some(a + [';'] + b + [';'] + c + [';'] + d)) == []
  {
    var s := a + [';'] + b + [';'] + c + [';'] + d;
    SplitWithoutDelimiter(s, '\n');
    assert s == a + [';'] + b + [';'] + (c + [';'] + d);
    RawSplitTwoPieces(a, b, c + [';'] + d, ';');
    RawSplitPiece(c, ';', d);
    RawSplitWithoutDelimiter(d, ';');
    assert RawSplit(s, ';') == [a, b, c, d];
    assert |Split(s, ';')| == 4;
    MalformedLineEmptiesAll(s, 0);
  }

  /** "name;date;10,10,spade,5": an item token that is not an int. */
  lemma NonNumericItemRejected(a: string, b: string, c: string)
    requires PlainField(a) && PlainField(b) && PlainField(c) && c != ""
    requires exists i :: 0 <= i < |Split(c, ',')| && ParseInt(Split(c, ',')[i]).None?
    ensures ParseResult(Some(a + [';'] + b + [';'] + c)) == []
  {
    var s := a + [';'] + b + [';'] + c;
    SplitWithoutDelimiter(s, '\n');
    SplitThree(a, b, c, ';');
    BadItemSectionRejected(s);
    MalformedLineEmptiesAll(s, 0);
  }
}
