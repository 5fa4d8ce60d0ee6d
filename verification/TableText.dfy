/** Markdown tables (internal/richmessage/richmessage.go): cells are escaped when a table is
    written, and reading the text back finds them again. */
module TableText {
  import opened Text

  const SPECIAL: string := "\\*_[]()~`#+-=|{}.!"

  /** escapeMarkdownInline: a backslash before every special character. */
  function Escape(text: string): string {
    if text == [] then []
    else (if text[0] in SPECIAL then ['\\', text[0]] else [text[0]]) + Escape(text[1..])
  }

  /** A cell has to stay on its line. */
  function OneLine(text: string): (r: string)
    ensures |r| == |text| && '\n' !in r && '\r' !in r
    ensures forall i :: 0 <= i < |r| ==> r[i] == if text[i] == '\r' || text[i] == '\n' then ' ' else text[i]
  {
    if text == [] then []
    else [if text[0] == '\r' || text[0] == '\n' then ' ' else text[0]] + OneLine(text[1..])
  }

  function EscapeCell(text: string): string { Escape(OneLine(text)) }

  function EscapeCells(cells: seq<string>): (r: seq<string>)
    ensures |r| == |cells|
  {
    seq(|cells|, i requires 0 <= i < |cells| => EscapeCell(cells[i]))
  }

  /** A row, without the line break that ends it. */
  function RowLine(cells: seq<string>): string {
    "| " + Join(EscapeCells(cells), " | ") + " |"
  }

  function Dashes(n: nat): string {
    if n == 0 then "" else Dashes(n - 1) + "------|"
  }

  function RowLines(rows: seq<seq<string>>): string {
    if rows == [] then "" else RowLines(rows[..|rows|-1]) + RowLine(rows[|rows|-1]) + "\n"
  }

  function Rendered(headers: seq<string>, rows: seq<seq<string>>): string {
    if headers == [] then ""
    else RowLine(headers) + "\n" + "|" + Dashes(|headers|) + "\n" + RowLines(rows) + "\n"
  }

  // ---- The code ----

  method ReplaceAll(text: string, c: char) returns (r: string)
    ensures |r| == |text| && forall i :: 0 <= i < |r| ==> r[i] == if text[i] == c then ' ' else text[i]
  {
    r := "";
    for i := 0 to |text|
      invariant |r| == i && forall j :: 0 <= j < i ==> r[j] == if text[j] == c then ' ' else text[j]
    {
      r := r + [if text[i] == c then ' ' else text[i]];
    }
  }

  method EscapeTableCell(text: string) returns (r: string)
    ensures r == EscapeCell(text)
  {
    var t := ReplaceAll(text, '\r');
    t := ReplaceAll(t, '\n');
    assert t == OneLine(text);
    r := Escape(t);
  }

  method EscapeTableCells(values: seq<string>) returns (out: seq<string>)
    ensures out == EscapeCells(values)
  {
    out := [];
    for i := 0 to |values|
      invariant out == EscapeCells(values)[..i]
    {
      var cell := EscapeTableCell(values[i]);
      out := out + [cell];
    }
  }

  lemma RowLinesOne(rows: seq<seq<string>>, i: nat)
    requires i < |rows|
    ensures RowLines(rows[..i+1]) == RowLines(rows[..i]) + RowLine(rows[i]) + "\n"
  {
    assert rows[..i+1][..i] == rows[..i];
  }

  class Builder {
    var content: string

    constructor ()
      ensures content == ""
    {
      content := "";
    }

    method WriteRow(cells: seq<string>)
      modifies this
      ensures content == old(content) + RowLine(cells) + "\n"
    {
      content := content + "| ";
      var escaped := EscapeTableCells(cells);
      content := content + Join(escaped, " | ");
      content := content + " |\n";
      assert content == old(content) + RowLine(cells) + "\n";
    }

    method WriteRule(n: nat)
      modifies this
      ensures content == old(content) + "|" + Dashes(n) + "\n"
    {
      content := content + "|";
      for i := 0 to n
        invariant content == old(content) + "|" + Dashes(i)
      {
        content := content + "------|";
      }
      content := content + "\n";
    }

    method WriteRows(rows: seq<seq<string>>)
      modifies this
      ensures content == old(content) + RowLines(rows)
    {
      hide RowLine;
      for i := 0 to |rows|
        invariant content == old(content) + RowLines(rows[..i])
      {
        RowLinesOne(rows, i);
        WriteRow(rows[i]);
      }
      assert rows[..|rows|] == rows;
    }

    method Table(headers: seq<string>, rows: seq<seq<string>>)
      modifies this
      ensures content == old(content) + Rendered(headers, rows)
    {
      hide RowLine, RowLines, Dashes;
      if |headers| == 0 { return; }
      WriteRow(headers);
      WriteRule(|headers|);
      WriteRows(rows);
      content := content + "\n";
    }
  }

  // ---- Reading ----

  /** Puts `s` in front of the first field. */
  function Prepend(s: string, fields: seq<string>): (r: seq<string>)
    requires fields != []
    ensures |r| == |fields|
  {
    [s + fields[0]] + fields[1..]
  }

  /** Splits at the bars that no backslash escapes. */
  function SplitBars(s: string): (fields: seq<string>)
    ensures fields != []
  {
    if s == "" then [""]
    else if s[0] == '|' then [""] + SplitBars(s[1..])
    else if s[0] == '\\' && |s| > 1 then Prepend(s[..2], SplitBars(s[2..]))
    else Prepend(s[..1], SplitBars(s[1..]))
  }

  function Unescape(s: string): string {
    if s == "" then ""
    else if s[0] == '\\' && |s| > 1 then [s[1]] + Unescape(s[2..])
    else [s[0]] + Unescape(s[1..])
  }

  /** Drops one character of padding on each side. */
  function Unpad(s: string): string {
    if |s| < 2 then "" else s[1..|s|-1]
  }

  /** The cells of a row line: what stands between its first and its last bar. */
  function ReadRow(line: string): seq<string> {
    var fields := SplitBars(line);
    if |fields| < 2 then []
    else seq(|fields| - 2, i requires 0 <= i < |fields| - 2 => Unescape(Unpad(fields[i+1])))
  }

  function OneLineCells(cells: seq<string>): (r: seq<string>)
    ensures |r| == |cells|
  {
    seq(|cells|, i requires 0 <= i < |cells| => OneLine(cells[i]))
  }

  lemma UnescapeOne(c: char, rest: string)
    ensures Unescape(['\\', c] + rest) == [c] + Unescape(rest)
    ensures c != '\\' ==> Unescape([c] + rest) == [c] + Unescape(rest)
  {
    assert (['\\', c] + rest)[2..] == rest && ([c] + rest)[1..] == rest;
  }

  lemma {:induction false} EscapeUnescape(t: string)
    ensures Unescape(Escape(t)) == t
  {
    if t != [] {
      EscapeUnescape(t[1..]);
      UnescapeOne(t[0], Escape(t[1..]));
      assert SPECIAL[0] == '\\';
      hide Unescape;
      assert t == [t[0]] + t[1..];
    }
  }

  /** The characters that mean something in Markdown, apart from a backslash before them. */
  predicate AllEscaped(s: string) {
    s == ""
    || (s[0] == '\\' && |s| > 1 && AllEscaped(s[2..]))
    || (s[0] !in "\\*_[]()~`#+-=|{}.!" && AllEscaped(s[1..]))
  }

  /** Escaping leaves none of them bare, and adds nothing but one backslash for each. */
  lemma {:induction false} EscapeEscapesAll(t: string)
    ensures AllEscaped(Escape(t))
    ensures |Escape(t)| == |t| + Specials(t)
  {
    if t != [] {
      EscapeEscapesAll(t[1..]);
      var rest := Escape(t[1..]);
      if t[0] in SPECIAL {
        assert Escape(t)[2..] == rest;
      } else {
        assert Escape(t)[1..] == rest;
      }
    }
  }

  function Specials(t: string): nat {
    if t == "" then 0 else (if t[0] in "\\*_[]()~`#+-=|{}.!" then 1 else 0) + Specials(t[1..])
  }

  lemma PrependTwice(a: string, b: string, fields: seq<string>)
    requires fields != []
    ensures Prepend(a, Prepend(b, fields)) == Prepend(a + b, fields)
    ensures Prepend("", fields) == fields
  {
    assert a + (b + fields[0]) == (a + b) + fields[0];
    assert "" + fields[0] == fields[0];
  }

  lemma PrependHead(a: string, b: string, fields: seq<string>)
    ensures Prepend(a, [b] + fields) == [a + b] + fields
  {
  }

  lemma SpecialChars()
    ensures '\\' in SPECIAL && '|' in SPECIAL
  {
    assert SPECIAL[0] == '\\' && SPECIAL[13] == '|';
  }

  lemma SplitOne(c: char, s: string)
    requires c !in SPECIAL
    ensures SplitBars([c] + s) == Prepend([c], SplitBars(s))
  {
    SpecialChars();
    assert ([c] + s)[1..] == s && ([c] + s)[..1] == [c];
  }

  lemma SplitPair(c: char, s: string)
    ensures SplitBars(['\\', c] + s) == Prepend(['\\', c], SplitBars(s))
  {
    assert (['\\', c] + s)[2..] == s && (['\\', c] + s)[..2] == ['\\', c];
  }

  /** An escaped text never ends a field. */
  lemma {:induction false} SplitEscaped(t: string, rest: string)
    ensures SplitBars(Escape(t) + rest) == Prepend(Escape(t), SplitBars(rest))
  {
    hide SplitBars, Prepend;
    if t == [] {
      assert Escape(t) + rest == rest;
      PrependTwice("", "", SplitBars(rest));
    } else {
      SplitEscaped(t[1..], rest);
      var s := Escape(t[1..]) + rest;
      var head := if t[0] in SPECIAL then ['\\', t[0]] else [t[0]];
      if t[0] in SPECIAL { SplitPair(t[0], s); } else { SplitOne(t[0], s); }
      assert Escape(t) == head + Escape(t[1..]);
      assert Escape(t) + rest == head + s;
      PrependTwice(head, Escape(t[1..]), SplitBars(rest));
    }
  }

  lemma {:induction false} EscapeFree(t: string, c: char)
    requires c !in t && c != '\\'
    ensures c !in Escape(t)
  {
    if t != [] { EscapeFree(t[1..], c); }
  }

  /** A row line after its first bar, field by field. */
  function RowTail(cells: seq<string>): string {
    if cells == [] then "" else " " + EscapeCell(cells[0]) + " |" + RowTail(cells[1..])
  }

  lemma {:induction false} JoinTail(cells: seq<string>)
    requires cells != []
    ensures " " + Join(EscapeCells(cells), " | ") + " |" == RowTail(cells)
  {
    var es := EscapeCells(cells);
    assert es[0] == EscapeCell(cells[0]);
    if |cells| == 1 {
      assert RowTail(cells[1..]) == "";
      assert " " + es[0] + " |" + "" == " " + es[0] + " |";
    } else {
      JoinTail(cells[1..]);
      assert es[1..] == EscapeCells(cells[1..]);
      var j := Join(es[1..], " | ");
      assert " " + (es[0] + " | " + j) + " |" == " " + es[0] + " |" + (" " + j + " |");
    }
  }

  lemma SplitBar(s: string)
    ensures SplitBars("|" + s) == [""] + SplitBars(s)
  {
    assert ("|" + s)[1..] == s;
  }

  function PaddedCells(cells: seq<string>): (r: seq<string>)
    ensures |r| == |cells|
  {
    seq(|cells|, i requires 0 <= i < |cells| => " " + EscapeCell(cells[i]) + " ")
  }

  lemma {:induction false} SplitTail(cells: seq<string>)
    ensures SplitBars(RowTail(cells)) == PaddedCells(cells) + [""]
  {
    hide SplitBars, Prepend;
    if cells == [] {
      SplitEmpty();
    } else {
      SplitTail(cells[1..]);
      var e, rest := EscapeCell(cells[0]), RowTail(cells[1..]);
      var fields := SplitBars(rest);
      SplitBar(rest);
      SpaceIsPlain();
      SplitOne(' ', "|" + rest);
      PrependHead(" ", "", fields);
      SplitEscaped(OneLine(cells[0]), " " + ("|" + rest));
      PrependHead(e, " ", fields);
      SplitOne(' ', e + (" " + ("|" + rest)));
      PrependHead(" ", e + " ", fields);
      assert RowTail(cells) == " " + (e + (" " + ("|" + rest)));
      assert " " + "" == " " && " " + (e + " ") == " " + e + " ";
      assert PaddedCells(cells) == [" " + e + " "] + PaddedCells(cells[1..]);
    }
  }

  lemma SplitEmpty()
    ensures SplitBars(RowTail([])) == [""] && PaddedCells([]) + [""] == [""]
  {
  }

  lemma SpaceIsPlain()
    ensures ' ' !in SPECIAL
  {
  }

  /** The cells that a row line shows: an empty row looks like one empty cell. */
  function ShownCells(cells: seq<string>): (r: seq<string>)
    ensures r != []
  {
    if cells == [] then [""] else cells
  }

  lemma RowLineFields(cells: seq<string>)
    ensures SplitBars(RowLine(cells)) == [""] + (PaddedCells(ShownCells(cells)) + [""])
  {
    hide SplitBars, RowTail, PaddedCells;
    var shown := ShownCells(cells);
    assert RowLine(cells) == RowLine(shown) by { EmptyRowLine(); }
    JoinTail(shown);
    SplitTail(shown);
    var joined := Join(EscapeCells(shown), " | ");
    assert "| " + joined + " |" == "|" + (" " + joined + " |");
    SplitBar(RowTail(shown));
  }

  lemma EmptyRowLine()
    ensures RowLine([]) == RowLine([""])
  {
    assert EscapeCells([]) == [] && EscapeCells([""]) == [""];
  }

  lemma ReadCell(cell: string)
    ensures Unescape(Unpad(" " + EscapeCell(cell) + " ")) == OneLine(cell)
  {
    hide Unescape, Escape;
    var padded := " " + EscapeCell(cell) + " ";
    assert padded[1..|padded|-1] == EscapeCell(cell);
    EscapeUnescape(OneLine(cell));
  }

  /** Reading a row line gives back its cells, with line breaks turned into spaces, exactly if the
      row has a cell; an empty row reads as one empty cell. */
  lemma ReadRowLine(cells: seq<string>)
    ensures ReadRow(RowLine(cells)) == if cells == [] then [""] else OneLineCells(cells)
    ensures ReadRow(RowLine(cells)) == OneLineCells(cells) <==> cells != []
  {
    hide SplitBars, RowLine, Unescape, Unpad, EscapeCell, OneLine;
    var shown, fields := ShownCells(cells), SplitBars(RowLine(cells));
    RowLineFields(cells);
    forall i | 0 <= i < |shown| ensures Unescape(Unpad(fields[i+1])) == OneLine(shown[i]) {
      ReadCell(shown[i]);
    }
    assert ReadRow(RowLine(cells)) == OneLineCells(shown);
    assert OneLineCells([""]) == [""];
  }

  lemma {:induction false} JoinFree(parts: seq<string>, sep: string, c: char)
    requires c !in sep && forall i :: 0 <= i < |parts| ==> c !in parts[i]
    ensures c !in Join(parts, sep)
  {
    if |parts| > 1 { JoinFree(parts[1..], sep, c); }
  }

  /** Every row is one physical line. */
  lemma RowIsOneLine(cells: seq<string>)
    ensures '\n' !in RowLine(cells) && '\r' !in RowLine(cells)
  {
    var es := EscapeCells(cells);
    forall i | 0 <= i < |es| ensures '\n' !in es[i] && '\r' !in es[i] {
      EscapeFree(OneLine(cells[i]), '\n');
      EscapeFree(OneLine(cells[i]), '\r');
    }
    JoinFree(es, " | ", '\n');
    JoinFree(es, " | ", '\r');
  }

  function RowSeq(rows: seq<seq<string>>): (r: seq<string>)
    ensures |r| == |rows|
  {
    seq(|rows|, i requires 0 <= i < |rows| => RowLine(rows[i]))
  }

  lemma {:induction false} SplitRowLines(rows: seq<seq<string>>, rest: string)
    ensures Split(RowLines(rows) + rest, '\n') == RowSeq(rows) + Split(rest, '\n')
  {
    hide Split, RowLine;
    if rows == [] {
      assert RowLines(rows) + rest == rest;
    } else {
      var n := |rows| - 1;
      var line := RowLine(rows[n]);
      RowIsOneLine(rows[n]);
      SplitFirst(line, '\n', rest);
      SplitRowLines(rows[..n], line + ['\n'] + rest);
      assert RowLines(rows) + rest == RowLines(rows[..n]) + (line + ['\n'] + rest);
      assert RowSeq(rows) == RowSeq(rows[..n]) + [line];
    }
  }

  lemma {:induction false} DashesFree(n: nat)
    ensures '\n' !in Dashes(n)
  {
    if n > 0 { DashesFree(n - 1); }
  }

  lemma LastLines()
    ensures Split("\n", '\n') == ["", ""]
  {
    SplitFirst("", '\n', "");
    assert "\n" == "" + ['\n'] + "";
  }

  /** The text of a table is its header line, the rule, one line for each row, and an empty line. */
  lemma TableLines(headers: seq<string>, rows: seq<seq<string>>)
    requires headers != []
    ensures Split(Rendered(headers, rows), '\n')
            == [RowLine(headers), "|" + Dashes(|headers|)] + (RowSeq(rows) + ["", ""])
  {
    hide Rendered, RowLine, RowLines, Dashes, Split;
    var head, rule := RowLine(headers), "|" + Dashes(|headers|);
    var body := RowLines(rows) + "\n";
    RowIsOneLine(headers);
    DashesFree(|headers|);
    SplitRowLines(rows, "\n");
    LastLines();
    TwoLinesMore(head, rule, body);
    RenderedParts(headers, rows);
  }

  lemma RenderedParts(headers: seq<string>, rows: seq<seq<string>>)
    requires headers != []
    ensures Rendered(headers, rows)
            == RowLine(headers) + "\n" + ("|" + Dashes(|headers|)) + "\n" + (RowLines(rows) + "\n")
  {
    Regroup(RowLine(headers) + "\n", "|", Dashes(|headers|), "\n", RowLines(rows), "\n");
  }

  lemma Regroup(a: string, b: string, c: string, d: string, e: string, f: string)
    ensures a + b + c + d + e + f == a + (b + c) + d + (e + f)
  {
    assert a + b + c == a + (b + c);
  }

  lemma TwoLinesMore(first: string, second: string, rest: string)
    requires Free(first, '\n') && Free(second, '\n')
    ensures Split(first + "\n" + second + "\n" + rest, '\n') == [first, second] + Split(rest, '\n')
  {
    hide Split, Free;
    SplitFirst(second, '\n', rest);
    SplitFirst(first, '\n', second + ['\n'] + rest);
    assert first + "\n" + second + "\n" + rest == first + ['\n'] + (second + ['\n'] + rest);
  }

  /** The rule has one column of dashes for each header. */
  lemma {:induction false} RuleColumns(n: nat)
    ensures Dashes(n) == Join(seq(n, i => "------"), "|") + (if n == 0 then "" else "|")
  {
    if n > 0 {
      RuleColumns(n - 1);
      var cells, before := seq(n, i => "------"), seq(n - 1, i => "------");
      if n > 1 {
        assert cells == before + ["------"];
        JoinLast(before, "------");
      }
    }
  }

  lemma {:induction false} JoinLast(parts: seq<string>, last: string)
    requires parts != []
    ensures Join(parts + [last], "|") == Join(parts, "|") + "|" + last
  {
    var all := parts + [last];
    if |parts| == 1 {
      assert all[1..] == [last];
    } else {
      JoinLast(parts[1..], last);
      assert all[1..] == parts[1..] + [last];
    }
  }

  /** Without headers there is no table, whatever the rows. */
  lemma NoHeadersNoTable(headers: seq<string>, rows: seq<seq<string>>)
    ensures Rendered(headers, rows) == "" <==> headers == []
  {
    hide RowLine, RowLines, Dashes;
  }

  /** So a table can be read back: its headers, and every row that has a cell. */
  lemma TableReadsBack(headers: seq<string>, rows: seq<seq<string>>)
    requires headers != []
    ensures var lines := Split(Rendered(headers, rows), '\n');
            && |lines| == |rows| + 4
            && ReadRow(lines[0]) == OneLineCells(headers)
            && forall i :: 0 <= i < |rows| && rows[i] != [] ==> ReadRow(lines[i + 2]) == OneLineCells(rows[i])
  {
    hide Split, Rendered, ReadRow, RowLine, Dashes, OneLineCells;
    TableLines(headers, rows);
    ReadRowLine(headers);
    var lines := Split(Rendered(headers, rows), '\n');
    forall i | 0 <= i < |rows| && rows[i] != [] ensures ReadRow(lines[i + 2]) == OneLineCells(rows[i]) {
      ReadRowLine(rows[i]);
      assert lines[i + 2] == RowLine(rows[i]);
    }
  }
}
