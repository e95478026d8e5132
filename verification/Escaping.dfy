/** Escaping for Markdown table cells and AppleScript string literals, and reading both back. */
module Escaping {

  // str.replace with a single character as the pattern.
  function Replace(s: string, c: char, sub: string): string {
    if s == "" then "" else (if s[0] == c then sub else [s[0]]) + Replace(s[1..], c, sub)
  }

  lemma {:induction false} ReplaceAppend(a: string, b: string, c: char, sub: string)
    ensures Replace(a + b, c, sub) == Replace(a, c, sub) + Replace(b, c, sub)
  {
    if a == "" {
      assert a + b == b;
    } else {
      assert (a + b)[1..] == a[1..] + b;
      ReplaceAppend(a[1..], b, c, sub);
    }
  }

  // ---------- Markdown ----------

  // The four passes of _md_escape, in order.
  function MdEscape(s: string): string {
    Replace(Replace(Replace(Replace(s, '\\', "\\\\"), '|', "\\|"), '\n', " "), '\r', "")
  }

  function MdChar(c: char): string {
    if c == '\\' then "\\\\" else if c == '|' then "\\|" else if c == '\n' then " " else if c == '\r' then "" else [c]
  }

  function MdMap(s: string): string {
    if s == "" then "" else MdChar(s[0]) + MdMap(s[1..])
  }

  // What a cell keeps of line breaks.
  function Normalised(s: string): string {
    if s == "" then ""
    else (if s[0] == '\n' then " " else if s[0] == '\r' then "" else [s[0]]) + Normalised(s[1..])
  }

  lemma ReplaceOne(x: char, c: char, sub: string)
    ensures Replace([x], c, sub) == if x == c then sub else [x]
  {
    assert [x][1..] == "";
  }

  lemma ReplaceTwo(x: char, y: char, c: char, sub: string)
    requires x != c && y != c
    ensures Replace([x, y], c, sub) == [x, y]
  {
    assert [x, y] == [x] + [y];
    ReplaceAppend([x], [y], c, sub);
    ReplaceOne(x, c, sub);
    ReplaceOne(y, c, sub);
  }

  lemma MdEscapeOne(x: char)
    ensures MdEscape([x]) == MdChar(x)
  {
    ReplaceOne(x, '\\', "\\\\");
    if x == '\\' {
      ReplaceTwo('\\', '\\', '|', "\\|");
      ReplaceTwo('\\', '\\', '\n', " ");
      ReplaceTwo('\\', '\\', '\r', "");
    } else {
      ReplaceOne(x, '|', "\\|");
      if x == '|' {
        ReplaceTwo('\\', '|', '\n', " ");
        ReplaceTwo('\\', '|', '\r', "");
      } else {
        ReplaceOne(x, '\n', " ");
        ReplaceOne(if x == '\n' then ' ' else x, '\r', "");
      }
    }
  }

  lemma MdEscapeAppend(a: string, b: string)
    ensures MdEscape(a + b) == MdEscape(a) + MdEscape(b)
  {
    ReplaceAppend(a, b, '\\', "\\\\");
    var a1, b1 := Replace(a, '\\', "\\\\"), Replace(b, '\\', "\\\\");
    ReplaceAppend(a1, b1, '|', "\\|");
    var a2, b2 := Replace(a1, '|', "\\|"), Replace(b1, '|', "\\|");
    ReplaceAppend(a2, b2, '\n', " ");
    ReplaceAppend(Replace(a2, '\n', " "), Replace(b2, '\n', " "), '\r', "");
  }

  // The passes do not interfere: together they are one substitution per character.
  lemma {:induction false} MdEscapeIsPerCharacter(s: string)
    ensures MdEscape(s) == MdMap(s)
  {
    if s != "" {
      assert s == [s[0]] + s[1..];
      MdEscapeAppend([s[0]], s[1..]);
      MdEscapeOne(s[0]);
      MdEscapeIsPerCharacter(s[1..]);
    }
  }

  // ---------- Table rows ----------

  // One table row as render_markdown prints it.
  function Row(cells: seq<string>): string
    requires cells != []
  {
    "| " + JoinCells(cells) + " |"
  }

  function JoinCells(cells: seq<string>): string
    requires cells != []
  {
    if |cells| == 1 then MdEscape(cells[0]) else MdEscape(cells[0]) + " | " + JoinCells(cells[1..])
  }

  method PrintRow(cells: seq<string>) returns (line: string)
    requires cells != []
    ensures line == Row(cells)
  {
    line := MdEscape(cells[0]);
    for i := 1 to |cells|
      invariant JoinCells(cells) == if i == |cells| then line else line + " | " + JoinCells(cells[i..])
    {
      var rest := cells[i..];
      assert rest[1..] == cells[i + 1..];
      ghost var before := line;
      line := line + " | " + MdEscape(cells[i]);
      if i + 1 < |cells| {
        var later := JoinCells(rest[1..]);
        assert before + " | " + (MdEscape(cells[i]) + " | " + later) == line + " | " + later;
      }
    }
    line := "| " + line + " |";
  }

  lemma {:induction false} MdMapIsOneLine(s: string)
    ensures '\n' !in MdMap(s) && '\r' !in MdMap(s)
  {
    if s != "" {
      MdMapIsOneLine(s[1..]);
    }
  }

  lemma {:induction false} JoinIsOneLine(cells: seq<string>)
    requires cells != []
    ensures '\n' !in JoinCells(cells) && '\r' !in JoinCells(cells)
  {
    MdEscapeIsPerCharacter(cells[0]);
    MdMapIsOneLine(cells[0]);
    if |cells| > 1 {
      JoinIsOneLine(cells[1..]);
    }
  }

  // No cell can break its row in two.
  lemma RowIsOneLine(cells: seq<string>)
    requires cells != []
    ensures '\n' !in Row(cells) && '\r' !in Row(cells)
  {
    JoinIsOneLine(cells);
  }

  // Reading a row: `field` is the text since the last unescaped pipe, with escapes undone.
  function ReadFields(s: string, field: string): seq<string>
    decreases |s|
  {
    if s == "" then [field]
    else if s[0] == '\\' && |s| > 1 then ReadFields(s[2..], field + [s[1]])
    else if s[0] == '|' then [field] + ReadFields(s[1..], "")
    else ReadFields(s[1..], field + [s[0]])
  }

  // The cells of a row: the fields between its outer pipes, each inside one pair of blanks.
  function Unpad(field: string): string {
    if |field| >= 2 then field[1..|field| - 1] else field
  }

  function UnpadAll(fields: seq<string>): seq<string> {
    if fields == [] then [] else [Unpad(fields[0])] + UnpadAll(fields[1..])
  }

  function ReadRow(line: string): seq<string> {
    var fields := ReadFields(line, "");
    if |fields| < 2 then [] else UnpadAll(fields[1..|fields| - 1])
  }

  function NormalisedAll(cells: seq<string>): seq<string> {
    if cells == [] then [] else [Normalised(cells[0])] + NormalisedAll(cells[1..])
  }

  lemma ReadOneChar(c: char, rest: string, field: string)
    ensures ReadFields(MdChar(c) + rest, field) == ReadFields(rest, field + Normalised([c]))
  {
    var s := MdChar(c) + rest;
    assert [c][1..] == "";
    if c == '\\' || c == '|' {
      assert s == ['\\', c] + rest && s[2..] == rest && s[1] == c;
      assert Normalised([c]) == [c];
    } else if c == '\r' {
      assert s == rest && field + "" == field;
    } else {
      var d := if c == '\n' then ' ' else c;
      assert s == [d] + rest && s[1..] == rest;
      assert Normalised([c]) == [d];
    }
  }

  lemma NormalisedStep(s: string)
    requires s != ""
    ensures Normalised(s) == Normalised([s[0]]) + Normalised(s[1..])
  {
    assert [s[0]][1..] == "";
  }

  // An escaped cell is read back whole: no character of it ends the field.
  lemma {:induction false} ReadEscaped(s: string, rest: string, field: string)
    ensures ReadFields(MdMap(s) + rest, field) == ReadFields(rest, field + Normalised(s))
    decreases |s|
  {
    if s == "" {
      assert MdMap(s) + rest == rest && field + "" == field;
    } else {
      hide ReadFields, MdChar;
      var tail := MdMap(s[1..]) + rest;
      assert MdMap(s) + rest == MdChar(s[0]) + tail;
      ReadOneChar(s[0], tail, field);
      ReadEscaped(s[1..], rest, field + Normalised([s[0]]));
      NormalisedStep(s);
      assert field + Normalised([s[0]]) + Normalised(s[1..]) == field + Normalised(s);
    }
  }

  lemma ReadBlank(rest: string, field: string)
    ensures ReadFields(" " + rest, field) == ReadFields(rest, field + " ")
  {
    assert (" " + rest)[1..] == rest;
  }

  lemma ReadPipe(rest: string, field: string)
    ensures ReadFields("|" + rest, field) == [field] + ReadFields(rest, "")
  {
    assert ("|" + rest)[1..] == rest;
  }

  function Padded(cells: seq<string>): seq<string> {
    if cells == [] then [] else [" " + Normalised(cells[0]) + " "] + Padded(cells[1..])
  }

  lemma ReadCell(cell: string, rest: string)
    ensures ReadFields(" " + MdEscape(cell) + " |" + rest, "") == [" " + Normalised(cell) + " "] + ReadFields(rest, "")
  {
    hide ReadFields, MdEscape, MdMap, Normalised;
    MdEscapeIsPerCharacter(cell);
    var after := " |" + rest;
    assert " " + MdEscape(cell) + " |" + rest == " " + (MdMap(cell) + after);
    ReadBlank(MdMap(cell) + after, "");
    assert "" + " " == " ";
    ReadEscaped(cell, after, " ");
    assert after == " " + ("|" + rest);
    ReadBlank("|" + rest, " " + Normalised(cell));
    ReadPipe(rest, " " + Normalised(cell) + " ");
  }

  lemma {:induction false} ReadCells(cells: seq<string>)
    requires cells != []
    ensures ReadFields(" " + JoinCells(cells) + " |", "") == Padded(cells) + [""]
    decreases |cells|
  {
    hide MdEscape, Normalised;
    if |cells| == 1 {
      ReadCell(cells[0], "");
      assert " " + MdEscape(cells[0]) + " |" + "" == " " + JoinCells(cells) + " |";
      assert cells[1..] == [] && Padded(cells) == [" " + Normalised(cells[0]) + " "];
    } else {
      var rest := " " + JoinCells(cells[1..]) + " |";
      assert " " + JoinCells(cells) + " |" == " " + MdEscape(cells[0]) + " |" + rest;
      ReadCell(cells[0], rest);
      ReadCells(cells[1..]);
    }
  }

  lemma {:induction false} UnpadPadded(cells: seq<string>)
    ensures UnpadAll(Padded(cells)) == NormalisedAll(cells)
  {
    if cells != [] {
      var field := " " + Normalised(cells[0]) + " ";
      assert field[1..|field| - 1] == Normalised(cells[0]);
      assert Padded(cells)[1..] == Padded(cells[1..]);
      UnpadPadded(cells[1..]);
    }
  }

  // Main result: splitting a printed row at its unescaped pipes gives back the cells, up to line
  // breaks, whatever pipes and backslashes they contain.
  lemma RowRoundTrip(cells: seq<string>)
    requires cells != []
    ensures ReadRow(Row(cells)) == NormalisedAll(cells)
  {
    var body := " " + JoinCells(cells) + " |";
    assert Row(cells) == "|" + body;
    ReadPipe(body, "");
    ReadCells(cells);
    var fields := [""] + (Padded(cells) + [""]);
    assert fields[1..|fields| - 1] == Padded(cells);
    UnpadPadded(cells);
  }

  // ---------- AppleScript ----------

  function AppleEscape(s: string): string {
    Replace(Replace(s, '\\', "\\\\"), '"', "\\\"")
  }

  function AppleChar(c: char): string {
    if c == '\\' then "\\\\" else if c == '"' then "\\\"" else [c]
  }

  function AppleMap(s: string): string {
    if s == "" then "" else AppleChar(s[0]) + AppleMap(s[1..])
  }

  // Reading a string literal after its opening quote: its value and what follows its closing quote.
  datatype Literal = Closed(value: string, rest: string) | Unterminated

  function ReadLiteral(s: string, value: string): Literal
    decreases |s|
  {
    if s == "" then Unterminated
    else if s[0] == '"' then Closed(value, s[1..])
    else if s[0] == '\\' && |s| > 1 then ReadLiteral(s[2..], value + [s[1]])
    else ReadLiteral(s[1..], value + [s[0]])
  }

  lemma AppleEscapeOne(x: char)
    ensures AppleEscape([x]) == AppleChar(x)
  {
    ReplaceOne(x, '\\', "\\\\");
    if x == '\\' {
      ReplaceTwo('\\', '\\', '"', "\\\"");
    } else {
      ReplaceOne(x, '"', "\\\"");
    }
  }

  lemma {:induction false} AppleEscapeIsPerCharacter(s: string)
    ensures AppleEscape(s) == AppleMap(s)
  {
    if s != "" {
      assert s == [s[0]] + s[1..];
      ReplaceAppend([s[0]], s[1..], '\\', "\\\\");
      ReplaceAppend(Replace([s[0]], '\\', "\\\\"), Replace(s[1..], '\\', "\\\\"), '"', "\\\"");
      AppleEscapeOne(s[0]);
      AppleEscapeIsPerCharacter(s[1..]);
    }
  }

  lemma {:induction false} ReadAppleMap(s: string, rest: string, value: string)
    ensures ReadLiteral(AppleMap(s) + ['"'] + rest, value) == Closed(value + s, rest)
    decreases |s|
  {
    var text := AppleMap(s) + ['"'] + rest;
    if s == "" {
      assert text[1..] == rest && value + "" == value;
    } else {
      var tail := AppleMap(s[1..]) + ['"'] + rest;
      assert text == AppleChar(s[0]) + tail;
      ReadAppleMap(s[1..], rest, value + [s[0]]);
      assert value + [s[0]] + s[1..] == value + s;
      if s[0] == '\\' || s[0] == '"' {
        assert text[0] == '\\' && text[1] == s[0] && text[2..] == tail;
      } else {
        assert text[1..] == tail;
      }
    }
  }

  // The escaped text never closes its literal early, and decodes to the original.
  lemma LiteralRoundTrip(s: string, rest: string)
    ensures ReadLiteral(AppleEscape(s) + ['"'] + rest, "") == Closed(s, rest)
  {
    AppleEscapeIsPerCharacter(s);
    ReadAppleMap(s, rest, "");
    assert "" + s == s;
  }
}
