/** The CSV export of `lib/tradeUtils.ts` (`exportToCsv`): the header, one
    line of twenty cells per trade, and how a reader following RFC 4180
    splits such a line back into cells.

    Two defects of the export as written are modelled side by side with the
    evidently intended export:
    - the Type cell reads a field the trade does not have, so it is always
      empty; the intended cell is the market type;
    - only the notes are quoted, so a comma in any other text cell (the
      symbol, say) splits it across two columns; quoting every cell the way
      the notes are quoted keeps each cell whole. */
module CsvExport {
  import opened Results
  import opened Trades
  import Metrics

  const Headers: seq<string> := [
    "Date", "Stock", "Type", "Direction", "Entry Price", "Exit Price",
    "Stop Loss", "Target", "Quantity", "Risk/Trade", "RR Ratio", "P&L",
    "Entry Type", "Timeframe", "Session", "A+ Setup",
    "Emotion", "Followed Plan", "Mistake Type", "Notes"]

  /** The position of the Type column. */
  const TypeColumn: nat := 2

  /** The text conversions the export leaves to the JavaScript runtime: the
      date of a nanosecond timestamp, `toFixed(2)`, and a bigint's
      `toString()`. */
  datatype Format = Format(date: int -> string, fixed2: real -> string, integer: int -> string)

  function YesNo(b: bool): string
  {
    if b then "Yes" else "No"
  }

  /** The twenty cell texts of a trade in header order, with `typeCell` in
      the Type column; the three columns the backend has no data for are
      empty. */
  function CellValues(t: Trade, fmt: Format, typeCell: string): (r: seq<string>)
    ensures |r| == |Headers|
    ensures r[TypeColumn] == typeCell && r[1] == t.stockName && r[19] == t.notes
    ensures r[12] == r[13] == r[14] == ""
  {
    [ fmt.date(t.date),
      t.stockName,
      typeCell,
      t.direction,
      fmt.fixed2(t.entryPrice),
      fmt.fixed2(t.exitPrice),
      fmt.fixed2(t.stopLoss),
      fmt.fixed2(t.target),
      fmt.integer(t.quantity),
      fmt.fixed2(Metrics.RiskPerTrade(t.entryPrice, t.stopLoss, t.quantity as real)),
      fmt.fixed2(t.riskRewardRatio),
      fmt.fixed2(t.pnl),
      "",
      "",
      "",
      YesNo(t.isAPlusSetup),
      t.emotion,
      YesNo(t.followedPlan),
      t.mistakeType,
      t.notes ]
  }

  // ---------------------------------------------------------------------------
  // cells and lines
  // ---------------------------------------------------------------------------

  /** A cell written as it is, or wrapped in quotes with inner quotes doubled. */
  datatype Field = Plain(text: string) | Quoted(text: string)

  /** `s.replace(/"/g, '""')`. */
  function Escape(s: string): (r: string)
    ensures |r| >= |s|
  {
    if |s| == 0 then ""
    else (if s[0] == '"' then "\"\"" else [s[0]]) + Escape(s[1..])
  }

  /** Escaping changes only quotes: text without one is left as it is. */
  lemma {:induction false} EscapeQuoteFree(s: string)
    requires '"' !in s
    ensures Escape(s) == s
    decreases |s|
  {
    if |s| > 0 {
      assert '"' !in s[1..] by {
        assert forall k :: 0 <= k < |s| - 1 ==> s[1..][k] == s[k + 1];
      }
      EscapeQuoteFree(s[1..]);
      assert [s[0]] + s[1..] == s;
    }
  }

  function Render(f: Field): string
  {
    match f
    case Plain(text) => text
    case Quoted(text) => "\"" + Escape(text) + "\""
  }

  /** `cells.join(',')` of the rendered fields. */
  function Line(fs: seq<Field>): string
  {
    if |fs| == 0 then ""
    else if |fs| == 1 then Render(fs[0])
    else Render(fs[0]) + "," + Line(fs[1..])
  }

  function Values(fs: seq<Field>): (r: seq<string>)
    ensures |r| == |fs|
    ensures forall i :: 0 <= i < |fs| ==> r[i] == fs[i].text
  {
    if |fs| == 0 then [] else [fs[0].text] + Values(fs[1..])
  }

  /** Text that can stand unquoted: no comma and no quote. */
  predicate IsPlain(s: string)
  {
    forall i :: 0 <= i < |s| ==> s[i] != ',' && s[i] != '"'
  }

  /** A field a reader gets back unchanged. */
  predicate Readable(f: Field)
  {
    f.Quoted? || IsPlain(f.text)
  }

  // ---------------------------------------------------------------------------
  // the reader
  // ---------------------------------------------------------------------------

  /** The inside of a quoted cell, read up to its closing quote: a doubled
      quote stands for one quote. Yields the text and what follows the
      closing quote; an unterminated cell is an error. */
  function ReadQuoted(s: string): (r: Option<(string, string)>)
    ensures r.Some? ==> |r.value.1| < |s|
  {
    if |s| == 0 then None
    else if s[0] == '"' then
      if |s| > 1 && s[1] == '"' then
        match ReadQuoted(s[2..])
        case None => None
        case Some((text, rest)) => Some(("\"" + text, rest))
      else Some(("", s[1..]))
    else
      match ReadQuoted(s[1..])
      case None => None
      case Some((text, rest)) => Some(([s[0]] + text, rest))
  }

  /** The index of the first comma in `s` at or after `i`, or `|s|`. */
  function CommaFrom(s: string, i: nat): (e: nat)
    requires i <= |s|
    ensures i <= e <= |s|
    ensures forall k :: i <= k < e ==> s[k] != ','
    ensures e == |s| || s[e] == ','
    decreases |s| - i
  {
    if i < |s| && s[i] != ',' then CommaFrom(s, i + 1) else i
  }

  /** An unquoted cell: everything up to the next comma. */
  function ReadPlain(s: string): (r: (string, string))
    ensures r.0 + r.1 == s
    ensures r.1 == "" || r.1[0] == ','
  {
    var e := CommaFrom(s, 0);
    assert s[..e] + s[e..] == s;
    (s[..e], s[e..])
  }

  /** One cell off the front of a line: a cell starting with a quote is
      quoted and must be followed by a comma or the end of the line; any
      other cell runs to the next comma. Yields the cell's text and the rest
      of the line from that comma on. */
  function ReadCell(s: string): (r: Option<(string, string)>)
    ensures r.Some? ==> |r.value.1| <= |s| && (r.value.1 == "" || r.value.1[0] == ',')
  {
    if |s| > 0 && s[0] == '"' then
      match ReadQuoted(s[1..])
      case None => None
      case Some((text, rest)) =>
        if rest == "" || rest[0] == ',' then Some((text, rest)) else None
    else Some(ReadPlain(s))
  }

  /** Splits one line into its cells, as a reader following RFC 4180 does. */
  function ParseLine(s: string): (r: Option<seq<string>>)
    ensures r.Some? ==> |r.value| >= 1
    decreases |s|
  {
    match ReadCell(s)
    case None => None
    case Some((text, rest)) =>
      if rest == "" then Some([text])
      else
        match ParseLine(rest[1..])
        case None => None
        case Some(more) => Some([text] + more)
  }

  lemma ReadPlainOver(x: string, rest: string)
    requires IsPlain(x) && (rest == "" || rest[0] == ',')
    ensures ReadPlain(x + rest) == (x, rest)
  {
    var s := x + rest;
    var e := CommaFrom(s, 0);
    assert forall k :: 0 <= k < |x| ==> s[k] == x[k];
    assert |x| < |s| ==> s[|x|] == rest[0];
    assert e == |x|;
    assert s[..e] == x;
    assert s[e..] == rest;
  }

  lemma {:induction false} ReadQuotedOver(x: string, rest: string)
    requires rest == "" || rest[0] != '"'
    ensures ReadQuoted(Escape(x) + "\"" + rest) == Some((x, rest))
    decreases |x|
  {
    var s := Escape(x) + "\"" + rest;
    if |x| == 0 {
      assert s == "\"" + rest;
      assert s[1..] == rest;
    } else if x[0] == '"' {
      assert s == "\"\"" + (Escape(x[1..]) + "\"" + rest);
      assert s[2..] == Escape(x[1..]) + "\"" + rest;
      ReadQuotedOver(x[1..], rest);
      assert "\"" + x[1..] == x;
    } else {
      assert s == [x[0]] + (Escape(x[1..]) + "\"" + rest);
      assert s[1..] == Escape(x[1..]) + "\"" + rest;
      ReadQuotedOver(x[1..], rest);
      assert [x[0]] + x[1..] == x;
    }
  }

  /** The reader takes one rendered field off the front of a line. */
  lemma ReadField(f: Field, rest: string)
    requires Readable(f) && (rest == "" || rest[0] == ',')
    ensures ReadCell(Render(f) + rest) == Some((f.text, rest))
  {
    var s := Render(f) + rest;
    if f.Quoted? {
      assert s == "\"" + (Escape(f.text) + "\"" + rest);
      assert s[1..] == Escape(f.text) + "\"" + rest;
      ReadQuotedOver(f.text, rest);
    } else {
      ReadPlainOver(f.text, rest);
      if |f.text| > 0 {
        assert s[0] == f.text[0];
      }
    }
  }

  /** A line of readable fields reads back as the fields' texts. */
  lemma {:induction false} LineRoundTrip(fs: seq<Field>)
    requires |fs| >= 1
    requires forall i :: 0 <= i < |fs| ==> Readable(fs[i])
    ensures ParseLine(Line(fs)) == Some(Values(fs))
    decreases |fs|
  {
    var rest := if |fs| == 1 then "" else "," + Line(fs[1..]);
    assert Line(fs) == Render(fs[0]) + rest;
    ReadField(fs[0], rest);
    if |fs| > 1 {
      assert rest[1..] == Line(fs[1..]);
      LineRoundTrip(fs[1..]);
      assert Values(fs) == [fs[0].text] + Values(fs[1..]);
    } else {
      assert Values(fs) == [fs[0].text];
    }
  }

  /** A line of several fields is the first, a comma, and the line of the rest. */
  lemma {:induction false} LineCons(f: Field, fs: seq<Field>)
    requires |fs| >= 1
    ensures Line([f] + fs) == Render(f) + "," + Line(fs)
  {
    assert ([f] + fs)[1..] == fs;
  }

  /** Splitting a plain second cell at a comma does not change the line. */
  lemma {:induction false} SecondCellSplitsAtComma(first: Field, a: string, b: string, after: seq<Field>)
    requires |after| >= 1
    ensures Line([first, Plain(a + "," + b)] + after) == Line([first, Plain(a), Plain(b)] + after)
  {
    var joined := [Plain(a + "," + b)] + after;
    var split := [Plain(a)] + ([Plain(b)] + after);
    assert [first, Plain(a + "," + b)] + after == [first] + joined;
    assert [first, Plain(a), Plain(b)] + after == [first] + split;
    LineCons(Plain(a + "," + b), after);
    LineCons(Plain(b), after);
    LineCons(Plain(a), [Plain(b)] + after);
    LineCons(first, joined);
    LineCons(first, split);
  }

  // ---------------------------------------------------------------------------
  // the rows
  // ---------------------------------------------------------------------------

  /** Cells written as they are. */
  function PlainFields(cells: seq<string>): (r: seq<Field>)
    ensures |r| == |cells|
    ensures forall i :: 0 <= i < |r| ==> r[i] == Plain(cells[i])
  {
    seq(|cells|, i requires 0 <= i < |cells| => Plain(cells[i]))
  }

  /** Cells that are all plain text read back unchanged. */
  lemma {:induction false} PlainLineRoundTrip(cells: seq<string>)
    requires |cells| >= 1
    requires forall i :: 0 <= i < |cells| ==> IsPlain(cells[i])
    ensures ParseLine(Line(PlainFields(cells))) == Some(cells)
  {
    var fs := PlainFields(cells);
    assert forall i :: 0 <= i < |fs| ==> Readable(fs[i]);
    LineRoundTrip(fs);
    assert Values(fs) == cells;
  }

  lemma HeadersArePlain()
    ensures forall i :: 0 <= i < |Headers| ==> IsPlain(Headers[i])
  {
    forall i | 0 <= i < |Headers|
      ensures IsPlain(Headers[i])
    {
      var h := Headers[i];
      assert forall k :: 0 <= k < |h| ==> h[k] != ',' && h[k] != '"';
    }
  }

  /** The header line, written as it is, reads back as the headers. */
  lemma HeaderRoundTrip()
    ensures ParseLine(Line(PlainFields(Headers))) == Some(Headers)
  {
    HeadersArePlain();
    PlainLineRoundTrip(Headers);
  }

  /** The row as written: the Type cell reads `t.tradeType`, which the trade
      does not have, so it joins as an empty string; only the notes are
      quoted. */
  function RowAsWritten(t: Trade, fmt: Format): (r: seq<Field>)
    ensures |r| == |Headers|
    ensures Values(r) == CellValues(t, fmt, "")
    ensures r[19] == Quoted(t.notes)
    ensures forall i :: 0 <= i < 19 ==> r[i].Plain?
  {
    var v := CellValues(t, fmt, "");
    seq(|Headers|, i requires 0 <= i < |Headers| => if i == 19 then Quoted(v[i]) else Plain(v[i]))
  }

  /** Whatever the trade, the written Type column is empty. */
  lemma TypeColumnIsAlwaysEmpty(t: Trade, fmt: Format)
    ensures Headers[TypeColumn] == "Type"
    ensures RowAsWritten(t, fmt)[TypeColumn] == Plain("")
    ensures t.marketType.Name() != "" && Values(RowAsWritten(t, fmt))[TypeColumn] != t.marketType.Name()
  {
  }

  /** Every cell the export writes unquoted is free of commas and quotes. */
  predicate WritesPlain(t: Trade, fmt: Format)
  {
    forall i :: 0 <= i < 19 ==> IsPlain(CellValues(t, fmt, "")[i])
  }

  /** A written row whose unquoted cells are plain text reads back as its
      twenty cells, with an empty Type cell. */
  lemma RowAsWrittenRoundTrip(t: Trade, fmt: Format)
    requires WritesPlain(t, fmt)
    ensures ParseLine(Line(RowAsWritten(t, fmt))) == Some(CellValues(t, fmt, ""))
    ensures ParseLine(Line(RowAsWritten(t, fmt))).value[TypeColumn] == ""
  {
    var r := RowAsWritten(t, fmt);
    assert forall i :: 0 <= i < |r| ==> Readable(r[i]);
    LineRoundTrip(r);
  }

  /** When every written cell but the symbol is plain text and the symbol is
      `a,b`, a reader sees twenty-one cells: `b` lands in the Type column and
      every later cell moves one column to the right. */
  lemma {:induction false} CommaInSymbolShiftsColumns(t: Trade, fmt: Format, a: string, b: string)
    requires t.stockName == a + "," + b && IsPlain(a) && IsPlain(b)
    requires forall i :: 0 <= i < 19 && i != 1 ==> IsPlain(CellValues(t, fmt, "")[i])
    ensures ParseLine(Line(RowAsWritten(t, fmt))).Some?
    ensures |ParseLine(Line(RowAsWritten(t, fmt))).value| == |Headers| + 1
    ensures ParseLine(Line(RowAsWritten(t, fmt))).value[TypeColumn] == b
  {
    var r := RowAsWritten(t, fmt);
    var split := [r[0], Plain(a), Plain(b)] + r[2..];
    assert r == [r[0], Plain(a + "," + b)] + r[2..];
    SecondCellSplitsAtComma(r[0], a, b, r[2..]);
    assert |split| == 21;
    assert forall i :: 0 <= i < 21 ==> split[i] == if i < 1 then r[i] else if i == 1 then Plain(a) else if i == 2 then Plain(b) else r[i - 1];
    assert forall i :: 0 <= i < 21 ==> Readable(split[i]);
    LineRoundTrip(split);
  }

  /** The row as intended: the Type cell holds the market type and every
      cell is quoted the way the notes are. */
  function Row(t: Trade, fmt: Format): (r: seq<Field>)
    ensures |r| == |Headers|
    ensures Values(r) == CellValues(t, fmt, t.marketType.Name())
    ensures forall i :: 0 <= i < |r| ==> r[i].Quoted?
  {
    var v := CellValues(t, fmt, t.marketType.Name());
    seq(|Headers|, i requires 0 <= i < |Headers| => Quoted(v[i]))
  }

  /** Every intended row reads back as exactly its twenty cells, commas and
      quotes in the text included, with the market type under Type. */
  lemma RowRoundTrip(t: Trade, fmt: Format)
    ensures ParseLine(Line(Row(t, fmt))) == Some(CellValues(t, fmt, t.marketType.Name()))
    ensures ParseLine(Line(Row(t, fmt))).value[TypeColumn] == t.marketType.Name() != ""
    ensures ParseLine(Line(Row(t, fmt))).value[1] == t.stockName
  {
    LineRoundTrip(Row(t, fmt));
  }

  /** The notes cell alone, as written: its text reads back unchanged. */
  lemma NotesRoundTrip(notes: string)
    ensures ParseLine(Render(Quoted(notes))) == Some([notes])
  {
    LineRoundTrip([Quoted(notes)]);
  }

  // ---------------------------------------------------------------------------
  // the file
  // ---------------------------------------------------------------------------

  /** A line per trade, in the given order, each reading back as the
      trade's twenty cells. */
  function RowLines(trades: seq<Trade>, fmt: Format): (r: seq<string>)
    ensures |r| == |trades|
    ensures forall i :: 0 <= i < |r| ==>
      ParseLine(r[i]) == Some(CellValues(trades[i], fmt, trades[i].marketType.Name()))
  {
    if |trades| == 0 then []
    else
      RowRoundTrip(trades[0], fmt);
      [Line(Row(trades[0], fmt))] + RowLines(trades[1..], fmt)
  }

  /** The lines of the export as intended: the header, then a row per trade. */
  function CsvLines(trades: seq<Trade>, fmt: Format): (r: seq<string>)
    ensures |r| == |trades| + 1
    ensures ParseLine(r[0]) == Some(Headers)
    ensures forall i :: 0 <= i < |trades| ==>
      ParseLine(r[i + 1]) == Some(CellValues(trades[i], fmt, trades[i].marketType.Name()))
  {
    HeaderRoundTrip();
    var rows := RowLines(trades, fmt);
    var r := [Line(PlainFields(Headers))] + rows;
    assert forall i :: 0 <= i < |trades| ==> r[i + 1] == rows[i];
    r
  }

  /** A line per trade as the export writes it, in the given order. */
  function RowLinesAsWritten(trades: seq<Trade>, fmt: Format): (r: seq<string>)
    ensures |r| == |trades|
    ensures forall i :: 0 <= i < |r| ==> r[i] == Line(RowAsWritten(trades[i], fmt))
  {
    if |trades| == 0 then []
    else [Line(RowAsWritten(trades[0], fmt))] + RowLinesAsWritten(trades[1..], fmt)
  }

  /** Each written row whose unquoted cells are plain text reads back. */
  lemma RowLinesAsWrittenReadBack(trades: seq<Trade>, fmt: Format)
    ensures forall i :: 0 <= i < |trades| && WritesPlain(trades[i], fmt) ==>
      ParseLine(RowLinesAsWritten(trades, fmt)[i]) == Some(CellValues(trades[i], fmt, ""))
  {
    var rows := RowLinesAsWritten(trades, fmt);
    forall i | 0 <= i < |trades| && WritesPlain(trades[i], fmt)
      ensures ParseLine(rows[i]) == Some(CellValues(trades[i], fmt, ""))
    {
      RowAsWrittenRoundTrip(trades[i], fmt);
    }
  }

  /** The lines of the export as written: the header, then a row per trade.
      A row whose unquoted cells are plain text reads back with an empty
      Type cell. */
  function CsvLinesAsWritten(trades: seq<Trade>, fmt: Format): (r: seq<string>)
    ensures |r| == |trades| + 1
    ensures ParseLine(r[0]) == Some(Headers)
    ensures forall i :: 0 <= i < |trades| && WritesPlain(trades[i], fmt) ==>
      && ParseLine(r[i + 1]) == Some(CellValues(trades[i], fmt, ""))
      && ParseLine(r[i + 1]).value[TypeColumn] == ""
  {
    HeaderRoundTrip();
    var rows := RowLinesAsWritten(trades, fmt);
    RowLinesAsWrittenReadBack(trades, fmt);
    var r := [Line(PlainFields(Headers))] + rows;
    assert forall i :: 0 <= i < |trades| ==> r[i + 1] == rows[i];
    r
  }

  /** `lines.join('\n')`. */
  function JoinLines(lines: seq<string>): (r: string)
    ensures |lines| == 1 ==> r == lines[0]
  {
    if |lines| == 0 then ""
    else if |lines| == 1 then lines[0]
    else lines[0] + "\n" + JoinLines(lines[1..])
  }

  /** The file's text as intended. */
  function CsvContent(trades: seq<Trade>, fmt: Format): (r: string)
    ensures |trades| == 0 ==> r == Line(PlainFields(Headers))
  {
    JoinLines(CsvLines(trades, fmt))
  }

  /** The file's text as written. */
  function CsvContentAsWritten(trades: seq<Trade>, fmt: Format): (r: string)
    ensures |trades| == 0 ==> r == Line(PlainFields(Headers))
  {
    JoinLines(CsvLinesAsWritten(trades, fmt))
  }
}
