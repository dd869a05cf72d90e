/**
 * Comma-separated values as the results export writes them: every data cell
 * between double quotes, cells joined by ',' and records by '\n'.
 *
 * The export wraps a cell in quotes without doubling the quotes inside it, so
 * a cell holding `","` reads back as two cells. Section 2 rule 7 of RFC 4180
 * asks for an embedded double quote to be written twice. Both encodings are
 * here: the one as written, with the input that makes it ambiguous, and the
 * escaping one, with a reader that gets every record back.
 */
module Csv {
  import opened Common

  const QUOTE: char := '"'

  // ---------------------------------------------------------------------------
  // As written: `"${cell}"`

  function QuoteAsWritten(cell: Text): Text {
    [QUOTE] + cell + [QUOTE]
  }

  /** `row.map(cell => `"${cell}"`).join(',')` */
  function RowAsWritten(cells: seq<Text>): Text {
    Join(seq(|cells|, i requires 0 <= i < |cells| => QuoteAsWritten(cells[i])), ",")
  }

  /** The records the export writes, one per row. */
  function RowsAsWritten(rows: seq<seq<Text>>): (r: seq<Text>)
    ensures |r| == |rows| && forall i :: 0 <= i < |rows| ==> r[i] == RowAsWritten(rows[i])
  {
    seq(|rows|, i requires 0 <= i < |rows| => RowAsWritten(rows[i]))
  }

  /** Two different rows that the written encoding turns into the same text. */
  lemma RowAsWrittenIsAmbiguous()
    ensures RowAsWritten(["a\",\"b"]) == RowAsWritten(["a", "b"])
    ensures ["a\",\"b"] != ["a", "b"]
  {
    var one := seq(1, i requires 0 <= i < 1 => QuoteAsWritten(["a\",\"b"][i]));
    var two := seq(2, i requires 0 <= i < 2 => QuoteAsWritten(["a", "b"][i]));
    assert one[0] == QuoteAsWritten("a\",\"b") == "\"a\",\"b\"";
    assert two[0] == QuoteAsWritten("a") == "\"a\"";
    assert two[1] == QuoteAsWritten("b") == "\"b\"";
    assert Join(one, ",") == "\"a\",\"b\"";
    assert two[1..] == ["\"b\""];
    assert Join(two, ",") == "\"a\"" + "," + "\"b\"";
  }

  // ---------------------------------------------------------------------------
  // Escaping as section 2 rule 7 of RFC 4180 asks

  /** The cell with every double quote written twice. */
  function Escape(cell: Text): (r: Text)
    ensures QUOTE !in cell ==> r == cell
    decreases |cell|
  {
    if cell == [] then []
    else (if cell[0] == QUOTE then [QUOTE, QUOTE] else [cell[0]]) + Escape(cell[1..])
  }

  function QuoteCell(cell: Text): Text {
    [QUOTE] + Escape(cell) + [QUOTE]
  }

  function QuotedCells(cells: seq<Text>): (r: seq<Text>)
    ensures |r| == |cells| && forall i :: 0 <= i < |cells| ==> r[i] == QuoteCell(cells[i])
  {
    seq(|cells|, i requires 0 <= i < |cells| => QuoteCell(cells[i]))
  }

  /** One record: the escaped, quoted cells joined by ','. */
  function EncodeRow(cells: seq<Text>): Text {
    Join(QuotedCells(cells), ",")
  }

  function EncodedRows(rows: seq<seq<Text>>): (r: seq<Text>)
    ensures |r| == |rows| && forall i :: 0 <= i < |rows| ==> r[i] == EncodeRow(rows[i])
  {
    seq(|rows|, i requires 0 <= i < |rows| => EncodeRow(rows[i]))
  }

  /** The records joined by '\n'. */
  function EncodeRows(rows: seq<seq<Text>>): Text {
    Join(EncodedRows(rows), "\n")
  }

  /** Where no cell holds a double quote, the escaping encoding writes what the export writes. */
  lemma EncodeRowAgreesWithoutQuotes(cells: seq<Text>)
    requires forall i :: 0 <= i < |cells| ==> QUOTE !in cells[i]
    ensures EncodeRow(cells) == RowAsWritten(cells)
  {
    assert QuotedCells(cells) == seq(|cells|, i requires 0 <= i < |cells| => QuoteAsWritten(cells[i]));
  }

  /** No cell of any row holds a double quote. */
  predicate QuoteFree(rows: seq<seq<Text>>) {
    forall i, j :: 0 <= i < |rows| && 0 <= j < |rows[i]| ==> QUOTE !in rows[i][j]
  }

  /** Where no cell holds a double quote, every record is written as the export writes it. */
  lemma EncodedRowsAgreeWithoutQuotes(rows: seq<seq<Text>>)
    requires QuoteFree(rows)
    ensures EncodedRows(rows) == RowsAsWritten(rows)
  {
    forall i | 0 <= i < |rows|
      ensures EncodedRows(rows)[i] == RowsAsWritten(rows)[i]
    {
      EncodeRowAgreesWithoutQuotes(rows[i]);
    }
  }

  // ---------------------------------------------------------------------------
  // Reading quoted records back

  /**
   * Reads the inside of a quoted cell, after its opening quote: a doubled
   * quote stands for one quote, a single quote closes the cell. Gives the
   * cell and the text after the closing quote.
   */
  function ReadQuoted(s: Text): (r: Option<(Text, Text)>)
    ensures r.Some? ==> |r.value.1| < |s|
    decreases |s|
  {
    if s == [] then None
    else if s[0] == QUOTE then
      if |s| > 1 && s[1] == QUOTE then
        match ReadQuoted(s[2..])
        case None => None
        case Some((c, rest)) => Some(([QUOTE] + c, rest))
      else Some(([], s[1..]))
    else
      match ReadQuoted(s[1..])
      case None => None
      case Some((c, rest)) => Some(([s[0]] + c, rest))
  }

  /** Reads quoted cells separated by ',' into records separated by '\n'. */
  function ParseRecords(s: Text): (r: Option<seq<seq<Text>>>)
    ensures r.Some? ==> |r.value| > 0
    decreases |s|
  {
    if s == [] || s[0] != QUOTE then None
    else
      match ReadQuoted(s[1..])
      case None => None
      case Some((c, rest)) =>
        if rest == [] then Some([[c]])
        else if rest[0] == ',' then
          match ParseRecords(rest[1..])
          case None => None
          case Some(recs) => Some([[c] + recs[0]] + recs[1..])
        else if rest[0] == '\n' then
          match ParseRecords(rest[1..])
          case None => None
          case Some(recs) => Some([[c]] + recs)
        else None
  }

  /** A doubled quote reads as one quote of the cell. */
  lemma ReadQuotedDoubled(t: Text, c: Text, rest: Text)
    requires ReadQuoted(t) == Some((c, rest))
    ensures ReadQuoted([QUOTE, QUOTE] + t) == Some(([QUOTE] + c, rest))
  {
    assert ([QUOTE, QUOTE] + t)[2..] == t;
  }

  /** Any other character reads as itself. */
  lemma ReadQuotedPlain(x: char, t: Text, c: Text, rest: Text)
    requires x != QUOTE && ReadQuoted(t) == Some((c, rest))
    ensures ReadQuoted([x] + t) == Some(([x] + c, rest))
  {
    assert ([x] + t)[1..] == t;
  }

  lemma {:induction false} ReadEscaped(cell: Text, rest: Text)
    requires rest == [] || rest[0] != QUOTE
    ensures ReadQuoted(Escape(cell) + [QUOTE] + rest) == Some((cell, rest))
    decreases |cell|
  {
    var s := Escape(cell) + [QUOTE] + rest;
    if cell == [] {
      assert s == [QUOTE] + rest;
      assert s[1..] == rest;
    } else {
      ReadEscaped(cell[1..], rest);
      var t := Escape(cell[1..]) + [QUOTE] + rest;
      var head := if cell[0] == QUOTE then [QUOTE, QUOTE] else [cell[0]];
      assert s == head + t by {
        assert Escape(cell) == head + Escape(cell[1..]);
      }
      if cell[0] == QUOTE {
        ReadQuotedDoubled(t, cell[1..], rest);
      } else {
        ReadQuotedPlain(cell[0], t, cell[1..], rest);
      }
      assert cell == [cell[0]] + cell[1..];
    }
  }

  lemma JoinCons(parts: seq<Text>, sep: Text)
    requires |parts| > 1
    ensures Join(parts, sep) == parts[0] + sep + Join(parts[1..], sep)
  {
  }

  /** Reading one quoted cell followed by ',' and further cells of the same record. */
  lemma ParseCellThenComma(s: Text, c: Text, rest: Text, later: seq<seq<Text>>)
    requires s != [] && s[0] == QUOTE && ReadQuoted(s[1..]) == Some((c, rest))
    requires rest != [] && rest[0] == ',' && ParseRecords(rest[1..]) == Some(later)
    ensures ParseRecords(s) == Some([[c] + later[0]] + later[1..])
  {
  }

  /** A quoted cell reads back up to its closing quote. */
  lemma ReadQuotedCell(c: Text, after: Text)
    requires after == [] || after[0] != QUOTE
    ensures ReadQuoted((QuoteCell(c) + after)[1..]) == Some((c, after))
  {
    var s := QuoteCell(c) + after;
    assert s[1..] == Escape(c) + [QUOTE] + after;
    ReadEscaped(c, after);
  }

  /** Reading one quoted cell that ends the text. */
  lemma ParseCellThenEnd(s: Text, c: Text)
    requires s != [] && s[0] == QUOTE && ReadQuoted(s[1..]) == Some((c, []))
    ensures ParseRecords(s) == Some([[c]])
  {
  }

  /** Reading one quoted cell that ends its record, followed by further records. */
  lemma ParseCellThenNewline(s: Text, c: Text, rest: Text, later: seq<seq<Text>>)
    requires s != [] && s[0] == QUOTE && ReadQuoted(s[1..]) == Some((c, rest))
    requires rest != [] && rest[0] == '\n' && ParseRecords(rest[1..]) == Some(later)
    ensures ParseRecords(s) == Some([[c]] + later)
  {
  }

  /** Encoding a record of several cells: the first, a ',', the others. */
  lemma EncodeRowCons(cells: seq<Text>)
    requires |cells| > 1
    ensures EncodeRow(cells) == [QUOTE] + Escape(cells[0]) + [QUOTE] + [','] + EncodeRow(cells[1..])
  {
    assert QuotedCells(cells)[1..] == QuotedCells(cells[1..]);
    JoinCons(QuotedCells(cells), ",");
  }

  /** The last cell of a record, followed by nothing or by '\n' and further records. */
  lemma ParseLastCell(c: Text, after: Text, recs: seq<seq<Text>>)
    requires after == [] || (after[0] == '\n' && ParseRecords(after[1..]) == Some(recs))
    ensures ParseRecords(QuoteCell(c) + after) == Some(if after == [] then [[c]] else [[c]] + recs)
  {
    var s := QuoteCell(c) + after;
    ReadQuotedCell(c, after);
    assert s[0] == QUOTE;
    if after == [] {
      ParseCellThenEnd(s, c);
    } else {
      ParseCellThenNewline(s, c, after, recs);
    }
  }

  /** A record followed by nothing, or by '\n' and further records, reads back. */
  lemma {:induction false} ParseRow(cells: seq<Text>, after: Text, recs: seq<seq<Text>>)
    requires |cells| > 0
    requires after == [] || (after[0] == '\n' && ParseRecords(after[1..]) == Some(recs))
    ensures ParseRecords(EncodeRow(cells) + after) == Some(if after == [] then [cells] else [cells] + recs)
    decreases |cells|
  {
    if |cells| == 1 {
      assert cells == [cells[0]];
      assert EncodeRow(cells) == QuoteCell(cells[0]);
      ParseLastCell(cells[0], after, recs);
    } else {
      ParseRow(cells[1..], after, recs);
      var later := if after == [] then [cells[1..]] else [cells[1..]] + recs;
      ParseRowCons(cells, after, later);
      assert [cells[0]] + later[0] == cells;
      if after == [] {
        assert [[cells[0]] + later[0]] + later[1..] == [cells];
      } else {
        assert later[1..] == recs;
      }
    }
  }

  /** A first cell, a ',', and the rest of the record, which reads back as `later`. */
  lemma ParseRowCons(cells: seq<Text>, after: Text, later: seq<seq<Text>>)
    requires |cells| > 1
    requires ParseRecords(EncodeRow(cells[1..]) + after) == Some(later)
    ensures ParseRecords(EncodeRow(cells) + after) == Some([[cells[0]] + later[0]] + later[1..])
  {
    var c := cells[0];
    var tail := EncodeRow(cells[1..]);
    EncodeRowCons(cells);
    var rest := [','] + (tail + after);
    var s := EncodeRow(cells) + after;
    assert s == QuoteCell(c) + rest;
    ReadQuotedCell(c, rest);
    assert rest[1..] == tail + after;
    ParseCellThenComma(s, c, rest, later);
  }

  /** Round trip: reading the encoded records gives back every record and every cell. */
  lemma {:induction false} ParseEncodedRows(rows: seq<seq<Text>>)
    requires |rows| > 0 && forall i :: 0 <= i < |rows| ==> |rows[i]| > 0
    ensures ParseRecords(EncodeRows(rows)) == Some(rows)
    decreases |rows|
  {
    if |rows| == 1 {
      assert EncodedRows(rows) == [EncodeRow(rows[0])];
      assert EncodeRows(rows) == EncodeRow(rows[0]) + [];
      ParseRow(rows[0], [], []);
      assert rows == [rows[0]];
    } else {
      ParseEncodedRows(rows[1..]);
      var tail := EncodeRows(rows[1..]);
      assert EncodedRows(rows)[1..] == EncodedRows(rows[1..]);
      JoinCons(EncodedRows(rows), "\n");
      assert EncodeRows(rows) == EncodeRow(rows[0]) + ("\n" + tail);
      assert ("\n" + tail)[1..] == tail;
      ParseRow(rows[0], "\n" + tail, rows[1..]);
      assert rows == [rows[0]] + rows[1..];
    }
  }
}
