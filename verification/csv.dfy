/** The CSV report writer: a fixed header, then one line per series with the
    title and the studio name quoted (inner quotes doubled) and the numbers
    and the flag bare. The reader at the end of the module is the inverse the
    writer is checked against. */
module ReportCsv {
  import opened Wrappers
  import opened Numbers
  import opened Model

  const HeaderLine: string := "Title,Seasons,Rating,Year,Finished,Studio"
  const Header: string := HeaderLine + "\n"

  /** How often `c` occurs in `s`. */
  function Count(s: string, c: char): nat {
    if s == [] then 0 else (if s[0] == c then 1 else 0) + Count(s[1..], c)
  }

  /** `value.replace("\"", "\"\"")`. */
  function EscapeText(s: string): string {
    if s == [] then [] else EscapeChar(s[0]) + EscapeText(s[1..])
  }

  /** A quote is doubled; any other character is kept. */
  function EscapeChar(c: char): string {
    if c == '"' then "\"\"" else [c]
  }

  /** Escaping touches only quotes: every other character is in the escaped
      text exactly when it is in the original. */
  lemma {:induction false} EscapeKeepsOthers(s: string, c: char)
    requires c != '"'
    ensures c in EscapeText(s) <==> c in s
  {
    if s != [] {
      EscapeKeepsOthers(s[1..], c);
      assert s == [s[0]] + s[1..];
    }
  }

  /** Escaping adds one character per quote. */
  lemma {:induction false} EscapeLength(s: string)
    ensures |EscapeText(s)| == |s| + Count(s, '"')
  {
    if s != [] {
      EscapeLength(s[1..]);
    }
  }

  /** `escape`: null becomes the empty string; otherwise every quote is
      doubled, so reading the doubled quotes back gives the value, and the
      text grows by one character per quote. */
  function Escape(v: Option<string>): (r: string)
    ensures v.None? ==> r == ""
    ensures v.Some? ==> Unescape(r) == v.value
    ensures v.Some? ==> |r| == |v.value| + Count(v.value, '"')
    ensures forall c | c != '"' :: c in r <==> v.Some? && c in v.value
  {
    if v.None? then ""
    else
      UnescapeEscape(v.value);
      EscapeLength(v.value);
      assert forall c | c != '"' :: c in EscapeText(v.value) <==> c in v.value by {
        forall c | c != '"'
          ensures c in EscapeText(v.value) <==> c in v.value
        {
          EscapeKeepsOthers(v.value, c);
        }
      }
      EscapeText(v.value)
  }

  /** Reads a doubled quote as one quote. */
  function Unescape(s: string): string {
    if s == [] then []
    else if |s| >= 2 && s[0] == '"' && s[1] == '"' then "\"" + Unescape(s[2..])
    else [s[0]] + Unescape(s[1..])
  }

  /** Un-doubling the quotes gives back the escaped text. */
  lemma {:induction false} UnescapeEscape(s: string)
    ensures Unescape(EscapeText(s)) == s
  {
    if s != [] {
      UnescapeEscape(s[1..]);
      var rest := EscapeText(s[1..]);
      if s[0] == '"' {
        assert EscapeText(s) == "\"\"" + rest;
        assert EscapeText(s)[2..] == rest;
      } else {
        assert EscapeText(s) == [s[0]] + rest;
        assert EscapeText(s)[1..] == rest;
      }
      assert s == [s[0]] + s[1..];
    }
  }

  /** The bare numbers and the flag of one line, each followed by a comma. */
  function Cells(s: Series): string {
    IntToString(s.seasons) + "," + FormatTenths(s.rating) + "," + IntToString(s.year) + ","
    + BoolToString(s.finished) + ","
  }

  /** One line of the report without its line break; the studio's name is
      dereferenced, so the record must carry a studio. */
  function Line(s: Series): string
    requires s.studio.Some?
  {
    Quoted(s.title) + "," + Cells(s) + Quoted(s.studio.value.name)
  }

  /** A text cell: escaped and wrapped in quotes. */
  function Quoted(v: Option<string>): string {
    "\"" + Escape(v) + "\""
  }

  function Row(s: Series): string
    requires s.studio.Some?
  {
    Line(s) + "\n"
  }

  function Rows(list: seq<Series>): string
    requires forall i | 0 <= i < |list| :: list[i].studio.Some?
  {
    if list == [] then [] else Row(list[0]) + Rows(list[1..])
  }

  /** The `NullPointerException` raised at the first record without a studio. */
  datatype CsvError = MissingStudio(index: nat)

  function FirstWithoutStudio(list: seq<Series>): (i: nat)
    requires exists i | 0 <= i < |list| :: list[i].studio.None?
    ensures i < |list| && list[i].studio.None?
    ensures forall j | 0 <= j < i :: list[j].studio.Some?
  {
    if list[0].studio.None? then 0
    else
      assert exists i | 0 <= i < |list[1..]| :: list[1..][i].studio.None? by {
        var i :| 0 <= i < |list| && list[i].studio.None?;
        assert list[1..][i - 1] == list[i];
      }
      1 + FirstWithoutStudio(list[1..])
  }

  /** `write`: the header, then one row per record in input order; it fails
      at the first record whose studio is absent. */
  function Write(list: seq<Series>): (r: Result<string, CsvError>)
    ensures r.Success? <==> forall i | 0 <= i < |list| :: list[i].studio.Some?
    ensures r.Failure? ==>
              && r.error.index < |list| && list[r.error.index].studio.None?
              && forall j | 0 <= j < r.error.index :: list[j].studio.Some?
    ensures r.Success? ==> |r.value| >= |Header| && r.value[..|Header|] == Header
    ensures list == [] ==> r == Success(Header)
  {
    if forall i | 0 <= i < |list| :: list[i].studio.Some? then
      assert list == [] ==> Header + Rows(list) == Header;
      Success(Header + Rows(list))
    else Failure(MissingStudio(FirstWithoutStudio(list)))
  }

  /** One report line as a reader sees it: null text fields read back empty. */
  datatype CsvRecord = CsvRecord(title: string, seasons: int, rating: int, year: int, finished: bool, studio: string)

  function Flatten(s: Series): CsvRecord
    requires s.studio.Some?
  {
    CsvRecord(s.title.GetOr(""), s.seasons, s.rating, s.year, s.finished, s.studio.value.name.GetOr(""))
  }

  /** Reads a quoted field up to its closing quote, `s` starting just after
      the opening one; gives the value and what follows the closing quote. */
  function ReadQuoted(s: string): (r: Option<(string, string)>)
    ensures r.Some? ==> |r.value.1| < |s|
  {
    if s == [] then None
    else if s[0] == '"' then
      if |s| >= 2 && s[1] == '"' then
        match ReadQuoted(s[2..])
        case None => None
        case Some((v, rest)) => Some(("\"" + v, rest))
      else Some(([], s[1..]))
    else
      match ReadQuoted(s[1..])
      case None => None
      case Some((v, rest)) => Some(([s[0]] + v, rest))
  }

  /** Reads a bare field up to the delimiter `d`, which is consumed. */
  function ReadUntil(s: string, d: char): (r: Option<(string, string)>)
    ensures r.Some? ==> |r.value.1| < |s|
  {
    if s == [] then None
    else if s[0] == d then Some(([], s[1..]))
    else
      match ReadUntil(s[1..], d)
      case None => None
      case Some((v, rest)) => Some(([s[0]] + v, rest))
  }

  /** Reads the four bare cells of a line: seasons, rating, year, flag. */
  function ReadCells(s: string): (r: Option<((int, int, int, bool), string)>)
    ensures r.Some? ==> |r.value.1| < |s|
  {
    var seasons :- ReadUntil(s, ',');
    var rating :- ReadUntil(seasons.1, ',');
    var year :- ReadUntil(rating.1, ',');
    var finished :- ReadUntil(year.1, ',');
    var n :- ParseInt(seasons.0);
    var t :- ParseTenths(rating.0);
    var y :- ParseInt(year.0);
    var f :- ParseBool(finished.0);
    Some(((n, t, y, f), finished.1))
  }

  /** Reads the quoted last cell and the line break after it. */
  function ReadLast(s: string): (r: Option<(string, string)>)
    ensures r.Some? ==> |r.value.1| < |s|
  {
    if s == [] || s[0] != '"' then None
    else
      var studio :- ReadQuoted(s[1..]);
      if studio.1 == [] || studio.1[0] != '\n' then None
      else Some((studio.0, studio.1[1..]))
  }

  /** Reads one report line; gives the record and the text after its line break. */
  function ReadRow(s: string): (r: Option<(CsvRecord, string)>)
    ensures r.Some? ==> |r.value.1| < |s|
  {
    if s == [] || s[0] != '"' then None
    else
      var title :- ReadQuoted(s[1..]);
      if title.1 == [] || title.1[0] != ',' then None
      else
        var cells :- ReadCells(title.1[1..]);
        var studio :- ReadLast(cells.1);
        var (n, t, y, f) := cells.0;
        Some((CsvRecord(title.0, n, t, y, f, studio.0), studio.1))
  }

  function ReadRows(s: string): Option<seq<CsvRecord>>
    decreases |s|
  {
    if s == [] then Some([])
    else
      var row :- ReadRow(s);
      var rest :- ReadRows(row.1);
      Some([row.0] + rest)
  }

  /** Reads a whole report: the header, then rows to the end. */
  function Read(s: string): Option<seq<CsvRecord>> {
    if |s| >= |Header| && s[..|Header|] == Header then ReadRows(s[|Header|..]) else None
  }

  lemma {:induction false} ReadQuotedEscaped(v: string, rest: string)
    requires rest == [] || rest[0] != '"'
    ensures ReadQuoted(EscapeText(v) + "\"" + rest) == Some((v, rest))
  {
    if v == [] {
      ReadQuotedClose(rest);
    } else {
      var tail := EscapeText(v[1..]) + "\"" + rest;
      ReadQuotedEscaped(v[1..], rest);
      var head := EscapeChar(v[0]);
      assert EscapeText(v) == head + EscapeText(v[1..]);
      Regroup4(head, EscapeText(v[1..]), "\"", rest);
      ReadQuotedOne(v[0], tail, v[1..], rest);
      assert [v[0]] + v[1..] == v;
    }
  }

  lemma ReadQuotedClose(rest: string)
    requires rest == [] || rest[0] != '"'
    ensures ReadQuoted(EscapeText([]) + "\"" + rest) == Some(([], rest))
  {
    var s := EscapeText([]) + "\"" + rest;
    assert s == "\"" + rest;
    assert s[1..] == rest;
  }

  lemma Regroup4(a: string, b: string, c: string, d: string)
    ensures a + b + c + d == a + (b + c + d)
  {
  }

  /** One escaped character in front of a readable field joins its value. */
  lemma ReadQuotedOne(c: char, tail: string, v: string, rest: string)
    requires ReadQuoted(tail) == Some((v, rest))
    ensures ReadQuoted(EscapeChar(c) + tail) == Some(([c] + v, rest))
  {
    var s := EscapeChar(c) + tail;
    if c == '"' {
      assert s[2..] == tail;
    } else {
      assert s[1..] == tail;
    }
  }

  lemma {:induction false} ReadUntilPlain(f: string, d: char, rest: string)
    requires d !in f
    ensures ReadUntil(f + ([d] + rest), d) == Some((f, rest))
  {
    if f == [] {
      assert f + ([d] + rest) == [d] + rest;
    } else {
      var x := f + ([d] + rest);
      ReadUntilPlain(f[1..], d, rest);
      assert x[0] == f[0] != d;
      assert x[1..] == f[1..] + ([d] + rest);
      assert f == [f[0]] + f[1..];
    }
  }

  /** Concatenation regrouped to the right, so that readers can peel it from the front. */
  lemma Regroup(a1: string, a2: string, a3: string, a4: string, a5: string, a6: string, a7: string, a8: string, rest: string)
    ensures a1 + a2 + a3 + a4 + a5 + a6 + a7 + a8 + rest == a1 + (a2 + (a3 + (a4 + (a5 + (a6 + (a7 + (a8 + rest)))))))
  {
  }

  lemma RegroupLine(a1: string, a2: string, a3: string, a4: string, a5: string, rest: string)
    ensures a1 + a2 + a3 + a4 + a5 + rest == a1 + (a2 + (a3 + (a4 + (a5 + rest))))
  {
  }

  /** Four comma-terminated cells that each parse read back as their values. */
  lemma ReadCellsOfPieces(se: string, ra: string, ye: string, fi: string, rest: string,
                          n: int, t: int, y: int, f: bool)
    requires ',' !in se && ',' !in ra && ',' !in ye && ',' !in fi
    requires ParseInt(se) == Some(n) && ParseTenths(ra) == Some(t)
    requires ParseInt(ye) == Some(y) && ParseBool(fi) == Some(f)
    ensures ReadCells(se + ("," + (ra + ("," + (ye + ("," + (fi + ("," + rest))))))))
         == Some(((n, t, y, f), rest))
  {
    var r3 := fi + ("," + rest);
    var r2 := ye + ("," + r3);
    var r1 := ra + ("," + r2);
    ReadUntilPlain(se, ',', r1);
    ReadUntilPlain(ra, ',', r2);
    ReadUntilPlain(ye, ',', r3);
    ReadUntilPlain(fi, ',', rest);
  }

  lemma ReadCellsOfCells(s: Series, rest: string)
    ensures ReadCells(Cells(s) + rest) == Some(((s.seasons, s.rating, s.year, s.finished), rest))
  {
    var se := IntToString(s.seasons);
    var ra := FormatTenths(s.rating);
    var ye := IntToString(s.year);
    var fi := BoolToString(s.finished);
    Regroup(se, ",", ra, ",", ye, ",", fi, ",", rest);
    NumbersArePlain(s.seasons, s.rating);
    NumbersArePlain(s.year, 0);
    IntToStringRoundTrip(s.seasons);
    IntToStringRoundTrip(s.year);
    FormatTenthsRoundTrip(s.rating);
    ReadCellsOfPieces(se, ra, ye, fi, rest, s.seasons, s.rating, s.year, s.finished);
  }

  lemma ReadQuotedCell(v: Option<string>, rest: string)
    requires rest == [] || rest[0] != '"'
    ensures (Quoted(v) + rest)[0] == '"'
    ensures ReadQuoted((Quoted(v) + rest)[1..]) == Some((v.GetOr(""), rest))
  {
    assert (Quoted(v) + rest)[1..] == Escape(v) + "\"" + rest;
    ReadQuotedEscaped(v.GetOr(""), rest);
  }

  lemma ReadLastOfQuoted(v: Option<string>, rest: string)
    ensures ReadLast(Quoted(v) + ("\n" + rest)) == Some((v.GetOr(""), rest))
  {
    ReadQuotedCell(v, "\n" + rest);
    assert ("\n" + rest)[1..] == rest;
  }

  lemma RowShape(s: Series, rest: string)
    requires s.studio.Some?
    ensures Row(s) + rest == Quoted(s.title) + ("," + (Cells(s) + (Quoted(s.studio.value.name) + ("\n" + rest))))
  {
    var q1, c, q2 := Quoted(s.title), Cells(s), Quoted(s.studio.value.name);
    assert Row(s) == q1 + "," + c + q2 + "\n";
    RegroupLine(q1, ",", c, q2, "\n", rest);
  }

  /** A written line reads back as the record it was written from. */
  lemma ReadRowOfRow(s: Series, rest: string)
    requires s.studio.Some?
    ensures ReadRow(Row(s) + rest) == Some((Flatten(s), rest))
  {
    var last := Quoted(s.studio.value.name) + ("\n" + rest);
    var afterTitle := "," + (Cells(s) + last);
    RowShape(s, rest);
    ReadQuotedCell(s.title, afterTitle);
    assert afterTitle[1..] == Cells(s) + last;
    ReadCellsOfCells(s, last);
    ReadLastOfQuoted(s.studio.value.name, rest);
  }

  function Records(list: seq<Series>): (r: seq<CsvRecord>)
    requires forall i | 0 <= i < |list| :: list[i].studio.Some?
    ensures |r| == |list|
    ensures forall i | 0 <= i < |list| :: r[i] == Flatten(list[i])
  {
    if list == [] then [] else [Flatten(list[0])] + Records(list[1..])
  }

  lemma {:induction false} ReadRowsOfRows(list: seq<Series>)
    requires forall i | 0 <= i < |list| :: list[i].studio.Some?
    ensures ReadRows(Rows(list)) == Some(Records(list))
  {
    if list != [] {
      ReadRowsOfRows(list[1..]);
      ReadRowOfRow(list[0], Rows(list[1..]));
      assert |Row(list[0])| > 0;
    }
  }

  /** Reading a written report gives back every record, in input order, with
      null titles and studio names read as empty. */
  lemma WriteReadRoundTrip(list: seq<Series>)
    requires Write(list).Success?
    ensures Read(Write(list).value) == Some(Records(list))
  {
    var text := Header + Rows(list);
    assert text[..|Header|] == Header;
    assert text[|Header|..] == Rows(list);
    ReadRowsOfRows(list);
  }

  /** No line break in the record's title or studio name. */
  predicate SingleLine(s: Series) {
    && '\n' !in s.title.GetOr("")
    && (s.studio.Some? ==> '\n' !in s.studio.value.name.GetOr(""))
  }

  /** Without line breaks in the text fields the report has one line per
      record plus the header line. */
  lemma LineCount(list: seq<Series>)
    requires forall i | 0 <= i < |list| :: list[i].studio.Some?
    requires forall i | 0 <= i < |list| :: SingleLine(list[i])
    ensures Write(list).Success? && Count(Write(list).value, '\n') == |list| + 1
  {
    WriteText(list);
    RowsLineCount(list);
    HeaderThenLines(Rows(list), |list|);
  }

  lemma WriteText(list: seq<Series>)
    requires forall i | 0 <= i < |list| :: list[i].studio.Some?
    ensures Write(list) == Success(Header + Rows(list))
  {
  }

  lemma HeaderThenLines(rows: string, n: nat)
    requires Count(rows, '\n') == n
    ensures Count(Header + rows, '\n') == n + 1
  {
    HeaderIsOneLine();
    CountAppend(Header, rows, '\n');
  }

  lemma HeaderLineHasNoBreak()
    ensures '\n' !in HeaderLine
  {
  }

  lemma HeaderIsOneLine()
    ensures Count(Header, '\n') == 1
  {
    HeaderLineHasNoBreak();
    CountAbsent(HeaderLine, '\n');
    CountAppend(HeaderLine, "\n", '\n');
  }

  lemma {:induction false} CountAppend(a: string, b: string, c: char)
    ensures Count(a + b, c) == Count(a, c) + Count(b, c)
  {
    if a == [] {
      assert a + b == b;
    } else {
      CountAppend(a[1..], b, c);
      assert (a + b)[1..] == a[1..] + b;
    }
  }

  lemma {:induction false} CountAbsent(s: string, c: char)
    requires c !in s
    ensures Count(s, c) == 0
  {
    if s != [] {
      CountAbsent(s[1..], c);
    }
  }

  lemma LineHasNoBreak(s: Series)
    requires s.studio.Some?
    requires '\n' !in s.title.GetOr("") && '\n' !in s.studio.value.name.GetOr("")
    ensures '\n' !in Line(s)
  {
    var q1, c, q2 := Quoted(s.title), Cells(s), Quoted(s.studio.value.name);
    QuotedHasNoBreak(s.title);
    QuotedHasNoBreak(s.studio.value.name);
    CellsHaveNoBreak(s);
    assert Line(s) == q1 + "," + c + q2;
  }

  lemma QuotedHasNoBreak(v: Option<string>)
    requires '\n' !in v.GetOr("")
    ensures '\n' !in Quoted(v)
  {
    EscapeKeepsOthers(v.GetOr(""), '\n');
    assert Quoted(v) == "\"" + EscapeText(v.GetOr("")) + "\"";
  }

  lemma CellsHaveNoBreak(s: Series)
    ensures '\n' !in Cells(s)
  {
    var se, ra, ye, fi := IntToString(s.seasons), FormatTenths(s.rating), IntToString(s.year), BoolToString(s.finished);
    NumbersArePlain(s.seasons, s.rating);
    NumbersArePlain(s.year, 0);
    assert '\n' !in fi;
    assert Cells(s) == se + "," + ra + "," + ye + "," + fi + ",";
  }

  lemma {:induction false} RowsLineCount(list: seq<Series>)
    requires forall i | 0 <= i < |list| :: list[i].studio.Some?
    requires forall i | 0 <= i < |list| :: SingleLine(list[i])
    ensures Count(Rows(list), '\n') == |list|
  {
    if list != [] {
      var x, tail := list[0], list[1..];
      RowsLineCount(tail);
      RowIsOneLine(x);
      var a, b := Row(x), Rows(tail);
      assert Rows(list) == a + b;
      CountAppend(a, b, '\n');
    }
  }

  lemma RowIsOneLine(s: Series)
    requires s.studio.Some? && SingleLine(s)
    ensures Count(Row(s), '\n') == 1
  {
    LineHasNoBreak(s);
    CountAbsent(Line(s), '\n');
    CountAppend(Line(s), "\n", '\n');
  }
}
