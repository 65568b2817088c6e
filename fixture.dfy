/**
 * The sample frames of `test_process_raw_data.py` and what the pipeline makes
 * of them, one step after another.
 */
module Fixture {
  import opened Basics
  import opened Text
  import opened Numeric
  import opened Sorting
  import opened Frames
  import opened Process

  const SampleColumns: seq<string> :=
    ["book_title", "author_id", "Rating", "ratings", "Year released", "index", "Unnamed: 0"]

  const CleanColumns: seq<string> := ["book_title", "author_id", "Rating", "ratings", "Year released"]

  function SampleRow(title: string, author: Cell, rating: string, count: string, year: string, n: int): Record {
    map["book_title" := Text(title), "author_id" := author, "Rating" := Text(rating),
        "ratings" := Text(count), "Year released" := Text(year), "index" := Int(n), "Unnamed: 0" := Int(n)]
  }

  /** A row of the frame between dropping the junk columns and the merge. */
  function Row5(title: Cell, author: Cell, rating: Cell, count: Cell, year: Cell): Record {
    map["book_title" := title, "author_id" := author, "Rating" := rating, "ratings" := count, "Year released" := year]
  }

  /** The sample books; the author ids are floats because one of them is missing. */
  function Sample(): Table {
    Table(SampleColumns, [
      SampleRow("Book A", Num(1.0), "4,5", "1`000", "2001", 0),
      SampleRow("", Num(2.0), "3,8", "500`", "1999", 1),
      SampleRow("Book C", Null, "5,0", "2`500", "2010", 2),
      SampleRow("Book D (Special Edition)", Num(4.0), "2,7", "300`", "2005", 3)])
  }

  function SampleAuthors(): seq<Author> {
    [Author(1, "Author A"), Author(2, "Author B"), Author(3, "Author C"), Author(4, "Author D")]
  }

  function OutRow(title: string, author: string, year: int, rating: real, count: int): Record {
    map["title" := Text(title), "author_name" := Text(author), "year" := Int(year),
        "rating" := Num(rating), "ratings" := Int(count)]
  }

  function RawA(): Record { Row5(Text("Book A"), Num(1.0), Text("4,5"), Text("1`000"), Text("2001")) }
  function RawB(): Record { Row5(Text(""), Num(2.0), Text("3,8"), Text("500`"), Text("1999")) }
  function RawC(): Record { Row5(Text("Book C"), Null, Text("5,0"), Text("2`500"), Text("2010")) }
  function RawD(): Record { Row5(Text("Book D (Special Edition)"), Num(4.0), Text("2,7"), Text("300`"), Text("2005")) }

  lemma DropJunkRow(title: string, author: Cell, rating: string, count: string, year: string, n: int)
    ensures SampleRow(title, author, rating, count, year, n) - ColumnSet(JunkColumns)
      == Row5(Text(title), author, Text(rating), Text(count), Text(year))
  {
    assert ColumnSet(JunkColumns) == {"index", "Unnamed: 0", ""};
  }

  lemma CleanColumnsKept()
    ensures forall i :: 0 <= i < |CleanColumns| ==> NotIn(JunkColumns)(CleanColumns[i])
  {
  }

  lemma SampleColumnsSplit()
    ensures SampleColumns == CleanColumns + ["index", "Unnamed: 0"]
  {
  }

  lemma JunkColumnsDropped()
    ensures Filter(["index", "Unnamed: 0"], NotIn(JunkColumns)) == []
  {
  }

  lemma KeptColumns()
    ensures Filter(SampleColumns, NotIn(JunkColumns)) == CleanColumns
  {
    SampleColumnsSplit();
    FilterAppend(CleanColumns, ["index", "Unnamed: 0"], NotIn(JunkColumns));
    CleanColumnsKept();
    FilterAllKept(CleanColumns, NotIn(JunkColumns));
    JunkColumnsDropped();
  }

  lemma RowsDropped()
    ensures MapSeq(Sample().rows, DropFrom(JunkColumns)) == [RawA(), RawB(), RawC(), RawD()]
  {
    DropJunkRow("Book A", Num(1.0), "4,5", "1`000", "2001", 0);
    DropJunkRow("", Num(2.0), "3,8", "500`", "1999", 1);
    DropJunkRow("Book C", Null, "5,0", "2`500", "2010", 2);
    DropJunkRow("Book D (Special Edition)", Num(4.0), "2,7", "300`", "2005", 3);
  }

  lemma Step0()
    ensures RemoveUnnecessaryColumns(Sample(), JunkColumns) == Table(CleanColumns, [RawA(), RawB(), RawC(), RawD()])
  {
    KeptColumns();
    RowsDropped();
  }

  lemma KeepTitled()
    ensures Filter([RawA(), RawB(), RawC(), RawD()], FilledIn("book_title")) == [RawA(), RawC(), RawD()]
  {
    var k := FilledIn("book_title");
    assert k(RawA()) && !k(RawB()) && k(RawC()) && k(RawD());
    var s := [RawA(), RawB(), RawC(), RawD()];
    assert s[1..] == [RawB(), RawC(), RawD()];
    assert s[1..][1..] == [RawC(), RawD()];
    assert s[1..][1..][1..] == [RawD()];
  }

  lemma Step1()
    ensures DropEmptyBookTitles(Table(CleanColumns, [RawA(), RawB(), RawC(), RawD()])) == Ok(Table(CleanColumns, [RawA(), RawC(), RawD()]))
  {
    KeepTitled();
  }

  lemma KeepAuthored()
    ensures Filter([RawA(), RawC(), RawD()], FilledIn("author_id")) == [RawA(), RawD()]
  {
    var k := FilledIn("author_id");
    assert k(RawA()) && !k(RawC()) && k(RawD());
    var s := [RawA(), RawC(), RawD()];
    assert s[1..] == [RawC(), RawD()];
    assert s[1..][1..] == [RawD()];
  }

  lemma Step2()
    ensures DropEmptyAuthors(Table(CleanColumns, [RawA(), RawC(), RawD()])) == Ok(Table(CleanColumns, [RawA(), RawD()]))
  {
    KeepAuthored();
  }

  // ---------------------------------------------------------------- cells

  lemma Rating45()
    ensures ParseRatingCell(Text("4,5")) == Num(4.5)
  {
    assert ReplaceChar("4,5", ',', '.') == "4.5";
  }

  lemma Rating27()
    ensures ParseRatingCell(Text("2,7")) == Num(2.7)
  {
    assert ReplaceChar("2,7", ',', '.') == "2.7";
  }

  lemma Deleted1000()
    ensures DeleteChar("1`000", '`') == "1000"
  {
    assert Filter("1`000", NotChar('`')) == "1000";
  }

  lemma Deleted300()
    ensures DeleteChar("300`", '`') == "300"
  {
    assert Filter("300`", NotChar('`')) == "300";
  }

  lemma Parsed(n: nat, s: string)
    requires Digits(n) == s
    ensures ParseDecimal(s) == Some(n as real)
  {
    ParseRendered(n);
  }

  lemma CountCell(s: string, u: string, n: nat)
    requires DeleteChar(s, '`') == u && ParseDecimal(u) == Some(n as real)
    ensures ParseCountCell(Text(s)) == Num(n as real)
  {
  }

  lemma Digits1000()
    ensures Digits(1000) == "1000"
  {
  }

  lemma Digits300()
    ensures Digits(300) == "300"
  {
  }

  lemma Count1000()
    ensures ParseCountCell(Text("1`000")) == Num(1000.0)
  {
    Deleted1000();
    Digits1000();
    Parsed(1000, "1000");
    CountCell("1`000", "1000", 1000);
  }

  lemma Count300()
    ensures ParseCountCell(Text("300`")) == Num(300.0)
  {
    Deleted300();
    Digits300();
    Parsed(300, "300");
    CountCell("300`", "300", 300);
  }

  lemma Year(n: nat, s: string)
    requires Digits(n) == s
    ensures CastYear(Text(s)) == Some(Int(n))
  {
    Parsed(n, s);
    assert Coerce(Text(s)) == Num(n as real);
    assert (n as real).Floor == n;
  }

  lemma Year2001()
    ensures CastYear(Text("2001")) == Some(Int(2001))
  {
    assert Digits(2001) == "2001";
    Year(2001, "2001");
  }

  lemma Year2005()
    ensures CastYear(Text("2005")) == Some(Int(2005))
  {
    assert Digits(2005) == "2005";
    Year(2005, "2005");
  }

  // ---------------------------------------------------------------- steps 3 to 5

  lemma MapRating5(f: Cell -> Cell, a: Cell, b: Cell, c: Cell, d: Cell, e: Cell)
    ensures MapRow("Rating", f)(Row5(a, b, c, d, e)) == Row5(a, b, f(c), d, e)
  {
    assert Get(Row5(a, b, c, d, e), "Rating") == c;
  }

  lemma MapCount5(f: Cell -> Cell, a: Cell, b: Cell, c: Cell, d: Cell, e: Cell)
    ensures MapRow("ratings", f)(Row5(a, b, c, d, e)) == Row5(a, b, c, f(d), e)
  {
    assert Get(Row5(a, b, c, d, e), "ratings") == d;
  }

  lemma MapYear5(f: Cell -> Cell, a: Cell, b: Cell, c: Cell, d: Cell, e: Cell)
    ensures MapRow("Year released", f)(Row5(a, b, c, d, e)) == Row5(a, b, c, d, f(e))
  {
    assert Get(Row5(a, b, c, d, e), "Year released") == e;
  }

  lemma MapTwo(t: Table, name: string, f: Cell -> Cell)
    requires name in t.columns && |t.rows| == 2
    ensures MapColumn(t, name, f).rows == [MapRow(name, f)(t.rows[0]), MapRow(name, f)(t.rows[1])]
  {
  }

  function A3(): Record { Row5(Text("Book A"), Num(1.0), Num(4.5), Text("1`000"), Text("2001")) }
  function D3(): Record { Row5(Text("Book D (Special Edition)"), Num(4.0), Num(2.7), Text("300`"), Text("2005")) }
  function A4(): Record { Row5(Text("Book A"), Num(1.0), Num(4.5), Num(1000.0), Text("2001")) }
  function D4(): Record { Row5(Text("Book D (Special Edition)"), Num(4.0), Num(2.7), Num(300.0), Text("2005")) }
  function A5(): Record { Row5(Text("Book A"), Num(1.0), Num(4.5), Int(1000), Int(2001)) }
  function D5(): Record { Row5(Text("Book D (Special Edition)"), Num(4.0), Num(2.7), Int(300), Int(2005)) }

  lemma Step3()
    ensures RatingReformatted(Table(CleanColumns, [RawA(), RawD()])) == Ok(Table(CleanColumns, [A3(), D3()]))
  {
    var t := Table(CleanColumns, [RawA(), RawD()]);
    assert Get(t.rows[0], "Rating").Text?;
    MapTwo(t, "Rating", ParseRatingCell);
    MapRating5(ParseRatingCell, Text("Book A"), Num(1.0), Text("4,5"), Text("1`000"), Text("2001"));
    MapRating5(ParseRatingCell, Text("Book D (Special Edition)"), Num(4.0), Text("2,7"), Text("300`"), Text("2005"));
    Rating45();
    Rating27();
  }

  lemma Step4()
    ensures RatingsReformatted(Table(CleanColumns, [A3(), D3()])) == Ok(Table(CleanColumns, [A4(), D4()]))
  {
    var t := Table(CleanColumns, [A3(), D3()]);
    assert Get(t.rows[0], "ratings").Text?;
    MapTwo(t, "ratings", ParseCountCell);
    MapCount5(ParseCountCell, Text("Book A"), Num(1.0), Num(4.5), Text("1`000"), Text("2001"));
    MapCount5(ParseCountCell, Text("Book D (Special Edition)"), Num(4.0), Num(2.7), Text("300`"), Text("2005"));
    Count1000();
    Count300();
  }

  lemma CastTwo(t: Table, name: string, cast: Cell -> Option<Cell>)
    requires name in t.columns && |t.rows| == 2
    requires cast(Get(t.rows[0], name)).Some? && cast(Get(t.rows[1], name)).Some?
    ensures CastColumn(t, name, cast) == Ok(Table(t.columns, [MapRow(name, OrNull(cast))(t.rows[0]), MapRow(name, OrNull(cast))(t.rows[1])]))
  {
    MapTwo(t, name, OrNull(cast));
  }

  function AY(): Record { Row5(Text("Book A"), Num(1.0), Num(4.5), Num(1000.0), Int(2001)) }
  function DY(): Record { Row5(Text("Book D (Special Edition)"), Num(4.0), Num(2.7), Num(300.0), Int(2005)) }

  lemma CastYears()
    ensures CastColumn(Table(CleanColumns, [A4(), D4()]), "Year released", CastYear) == Ok(Table(CleanColumns, [AY(), DY()]))
  {
    Year2001();
    Year2005();
    var t := Table(CleanColumns, [A4(), D4()]);
    assert Get(t.rows[0], "Year released") == Text("2001") && Get(t.rows[1], "Year released") == Text("2005");
    CastTwo(t, "Year released", CastYear);
    MapYear5(OrNull(CastYear), Text("Book A"), Num(1.0), Num(4.5), Num(1000.0), Text("2001"));
    MapYear5(OrNull(CastYear), Text("Book D (Special Edition)"), Num(4.0), Num(2.7), Num(300.0), Text("2005"));
  }

  lemma CastRatings()
    ensures CastColumn(Table(CleanColumns, [AY(), DY()]), "Rating", CastFloat) == Ok(Table(CleanColumns, [AY(), DY()]))
  {
    var t := Table(CleanColumns, [AY(), DY()]);
    assert Get(t.rows[0], "Rating") == Num(4.5) && Get(t.rows[1], "Rating") == Num(2.7);
    CastTwo(t, "Rating", CastFloat);
    MapRating5(OrNull(CastFloat), Text("Book A"), Num(1.0), Num(4.5), Num(1000.0), Int(2001));
    MapRating5(OrNull(CastFloat), Text("Book D (Special Edition)"), Num(4.0), Num(2.7), Num(300.0), Int(2005));
  }

  lemma CastCounts()
    ensures CastColumn(Table(CleanColumns, [AY(), DY()]), "ratings", CastInt) == Ok(Table(CleanColumns, [A5(), D5()]))
  {
    var t := Table(CleanColumns, [AY(), DY()]);
    assert Get(t.rows[0], "ratings") == Num(1000.0) && Get(t.rows[1], "ratings") == Num(300.0);
    assert CastInt(Num(1000.0)) == Some(Int(1000)) && CastInt(Num(300.0)) == Some(Int(300));
    CastTwo(t, "ratings", CastInt);
    MapCount5(OrNull(CastInt), Text("Book A"), Num(1.0), Num(4.5), Num(1000.0), Int(2001));
    MapCount5(OrNull(CastInt), Text("Book D (Special Edition)"), Num(4.0), Num(2.7), Num(300.0), Int(2005));
  }

  lemma Step5()
    ensures TypesConverted(Table(CleanColumns, [A4(), D4()])) == Ok(Table(CleanColumns, [A5(), D5()]))
  {
    CastYears();
    CastRatings();
    CastCounts();
  }

  // ---------------------------------------------------------------- step 6: the merge

  const JoinColumns: seq<string> := ["book_title", "Rating", "ratings", "Year released", "author_name"]

  /** A row after the merge: the key is gone and the author's name is added. */
  function JRow(title: Cell, rating: Cell, count: Cell, year: Cell, name: Cell): Record {
    map["book_title" := title, "Rating" := rating, "ratings" := count, "Year released" := year, "author_name" := name]
  }

  lemma JoinedRow5(a: Cell, b: Cell, c: Cell, d: Cell, e: Cell, n: Cell)
    ensures Joined(Row5(a, b, c, d, e), n) == JRow(a, c, d, e, n)
  {
    var j := Joined(Row5(a, b, c, d, e), n);
    assert j.Keys == JRow(a, c, d, e, n).Keys;
  }

  lemma SampleIdsDistinct()
    ensures DistinctBy(SampleAuthors(), IdOf)
  {
  }

  lemma FindFirst(authors: seq<Author>, c: Cell)
    requires authors != [] && KeyMatches(c, authors[0].id)
    ensures NameFor(authors, c) == Text(authors[0].name)
  {
  }

  lemma FindLater(authors: seq<Author>, c: Cell)
    requires authors != [] && !KeyMatches(c, authors[0].id)
    ensures NameFor(authors, c) == NameFor(authors[1..], c)
  {
  }

  lemma NameA()
    ensures NameFor(SampleAuthors(), Num(1.0)) == Text("Author A")
  {
    FindFirst(SampleAuthors(), Num(1.0));
  }

  lemma NameD()
    ensures NameFor(SampleAuthors(), Num(4.0)) == Text("Author D")
  {
    var s := SampleAuthors();
    FindLater(s, Num(4.0));
    assert s[1..] == [Author(2, "Author B"), Author(3, "Author C"), Author(4, "Author D")];
    FindLater(s[1..], Num(4.0));
    assert s[1..][1..] == [Author(3, "Author C"), Author(4, "Author D")];
    FindLater(s[1..][1..], Num(4.0));
    assert s[1..][1..][1..] == [Author(4, "Author D")];
    FindFirst(s[1..][1..][1..], Num(4.0));
  }

  lemma FilterKeepsHead<T>(s: seq<T>, k: T -> bool)
    requires s != [] && k(s[0])
    ensures Filter(s, k) == [s[0]] + Filter(s[1..], k)
  {
  }

  lemma FilterDropsHead<T>(s: seq<T>, k: T -> bool)
    requires s != [] && !k(s[0])
    ensures Filter(s, k) == Filter(s[1..], k)
  {
  }

  /** Filtering five elements of which only the second fails. */
  lemma FilterSecondOfFive<T>(s: seq<T>, k: T -> bool)
    requires |s| == 5 && k(s[0]) && !k(s[1]) && k(s[2]) && k(s[3]) && k(s[4])
    ensures Filter(s, k) == [s[0], s[2], s[3], s[4]]
  {
    FilterKeepsHead(s, k);
    FilterDropsHead(s[1..], k);
    var rest := s[1..][1..];
    assert rest == s[2..];
    FilterAllKept(rest, k);
  }

  lemma JoinedColumns0()
    ensures Filter(CleanColumns, NotIn(["author_id"])) == ["book_title", "Rating", "ratings", "Year released"]
  {
    FilterSecondOfFive(CleanColumns, NotIn(["author_id"]));
  }

  lemma JoinedColumns()
    ensures Filter(CleanColumns, NotIn(["author_id"])) + ["author_name"] == JoinColumns
  {
    JoinedColumns0();
  }

  function JA(): Record { JRow(Text("Book A"), Num(4.5), Int(1000), Int(2001), Text("Author A")) }
  function JD(): Record { JRow(Text("Book D (Special Edition)"), Num(2.7), Int(300), Int(2005), Text("Author D")) }

  lemma JoinedRows()
    ensures JoinRows([A5(), D5()], SampleAuthors()) == [JA(), JD()]
  {
    SampleIdsDistinct();
    JoinRowsUnique([A5(), D5()], SampleAuthors());
    assert Get(A5(), "author_id") == Num(1.0) && Get(D5(), "author_id") == Num(4.0);
    NameA();
    NameD();
    JoinedRow5(Text("Book A"), Num(1.0), Num(4.5), Int(1000), Int(2001), Text("Author A"));
    JoinedRow5(Text("Book D (Special Edition)"), Num(4.0), Num(2.7), Int(300), Int(2005), Text("Author D"));
  }

  lemma JoinOk(t: Table, authors: seq<Author>)
    requires "name" !in t.columns && "author_name" !in t.columns
    requires "author_id" in t.columns && !TextKey(t) && "id" !in t.columns
    ensures ReplaceAuthorsIdWithName(t, authors) == Ok(Table(Filter(t.columns, NotIn(["author_id"])) + ["author_name"], JoinRows(t.rows, authors)))
  {
  }

  lemma NoTextKey()
    ensures !TextKey(Table(CleanColumns, [A5(), D5()]))
  {
    var t := Table(CleanColumns, [A5(), D5()]);
    assert Get(t.rows[0], "author_id") == Num(1.0) && Get(t.rows[1], "author_id") == Num(4.0);
  }

  lemma Step6()
    ensures ReplaceAuthorsIdWithName(Table(CleanColumns, [A5(), D5()]), SampleAuthors()) == Ok(Table(JoinColumns, [JA(), JD()]))
  {
    NoTextKey();
    JoinOk(Table(CleanColumns, [A5(), D5()]), SampleAuthors());
    JoinedColumns();
    JoinedRows();
  }

  // ---------------------------------------------------------------- steps 7 and 8: renaming and reordering

  const RenamedColumns: seq<string> := ["title", "rating", "ratings", "year", "author_name"]

  /** A row under the final labels. */
  function FRow(title: Cell, author: Cell, year: Cell, rating: Cell, count: Cell): Record {
    map["title" := title, "author_name" := author, "year" := year, "rating" := rating, "ratings" := count]
  }

  lemma RenamedJoinColumns()
    ensures MapSeq(JoinColumns, NewName) == RenamedColumns
  {
  }

  lemma RenamedKeys(a: Cell, b: Cell, c: Cell, d: Cell, e: Cell)
    ensures RenameRow(JRow(a, b, c, d, e)).Keys == {"title", "author_name", "year", "rating", "ratings"}
  {
    var r := JRow(a, b, c, d, e);
    var want := {"title", "author_name", "year", "rating", "ratings"};
    forall x | x in NewKeys(r) ensures x in want {
      var k :| k in r && NewName(k) == x;
    }
    assert NewName("book_title") == "title" && NewName("Rating") == "rating" && NewName("Year released") == "year";
    assert NewName("ratings") == "ratings" && NewName("author_name") == "author_name";
    assert "book_title" in r && "Rating" in r && "Year released" in r && "ratings" in r && "author_name" in r;
  }

  lemma RenameAt(r: Record, x: string)
    requires x in RenameRow(r)
    ensures x in RenameRow(r) && RenameRow(r)[x] == r[OldName(r, x)]
  {
  }

  lemma RenamedRow(a: Cell, b: Cell, c: Cell, d: Cell, e: Cell)
    ensures RenameRow(JRow(a, b, c, d, e)) == FRow(a, e, d, b, c)
  {
    RenamedKeys(a, b, c, d, e);
    RenamedValues(a, b, c, d, e);
    MapOfFive(RenameRow(JRow(a, b, c, d, e)), "title", "author_name", "year", "rating", "ratings", a, e, d, b, c);
  }

  lemma RenamedValues(a: Cell, b: Cell, c: Cell, d: Cell, e: Cell)
    ensures var u := RenameRow(JRow(a, b, c, d, e));
      && "title" in u && "author_name" in u && "year" in u && "rating" in u && "ratings" in u
      && u["title"] == a && u["author_name"] == e && u["year"] == d && u["rating"] == b && u["ratings"] == c
  {
    var r := JRow(a, b, c, d, e);
    RenamedKeys(a, b, c, d, e);
    RenameAt(r, "title");
    RenameAt(r, "author_name");
    RenameAt(r, "year");
    RenameAt(r, "rating");
    RenameAt(r, "ratings");
  }

  /** A map with five keys is the map display of its five entries. */
  lemma MapOfFive<K, V>(m: map<K, V>, k1: K, k2: K, k3: K, k4: K, k5: K, v1: V, v2: V, v3: V, v4: V, v5: V)
    requires m.Keys == {k1, k2, k3, k4, k5}
    requires m[k1] == v1 && m[k2] == v2 && m[k3] == v3 && m[k4] == v4 && m[k5] == v5
    ensures m == map[k1 := v1, k2 := v2, k3 := v3, k4 := v4, k5 := v5]
  {
  }

  function RA(): Record { FRow(Text("Book A"), Text("Author A"), Int(2001), Num(4.5), Int(1000)) }
  function RD(): Record { FRow(Text("Book D (Special Edition)"), Text("Author D"), Int(2005), Num(2.7), Int(300)) }

  lemma Step7()
    ensures RenameColumns(Table(JoinColumns, [JA(), JD()])) == Table(RenamedColumns, [RA(), RD()])
  {
    RenamedJoinColumns();
    RenamedRow(Text("Book A"), Num(4.5), Int(1000), Int(2001), Text("Author A"));
    RenamedRow(Text("Book D (Special Edition)"), Num(2.7), Int(300), Int(2005), Text("Author D"));
  }

  lemma RestrictFRow(a: Cell, b: Cell, c: Cell, d: Cell, e: Cell)
    ensures Restrict(FRow(a, b, c, d, e), Canonical) == FRow(a, b, c, d, e)
  {
    var r := FRow(a, b, c, d, e);
    assert Restrict(r, Canonical).Keys == r.Keys;
  }

  lemma MapSeqTwo<T, U>(s: seq<T>, f: T -> U)
    requires |s| == 2
    ensures MapSeq(s, f) == [f(s[0]), f(s[1])]
  {
  }

  lemma ReorderOk(t: Table)
    requires forall c :: c in Canonical ==> c in t.columns
    ensures ReorderColumns(t) == Ok(Table(Canonical, MapSeq(t.rows, RestrictTo(Canonical))))
  {
    assert !exists i :: 0 <= i < |Canonical| && Canonical[i] !in t.columns;
  }

  lemma Step8()
    ensures ReorderColumns(Table(RenamedColumns, [RA(), RD()])) == Ok(Table(Canonical, [RA(), RD()]))
  {
    var t := Table(RenamedColumns, [RA(), RD()]);
    assert forall c :: c in Canonical ==> c in t.columns;
    ReorderOk(t);
    MapSeqTwo(t.rows, RestrictTo(Canonical));
    RestrictFRow(Text("Book A"), Text("Author A"), Int(2001), Num(4.5), Int(1000));
    RestrictFRow(Text("Book D (Special Edition)"), Text("Author D"), Int(2005), Num(2.7), Int(300));
  }

  // ---------------------------------------------------------------- steps 9 and 10: titles and the sort

  lemma StripBookA()
    ensures StripParenthesised("Book A") == "Book A"
  {
    StripWithoutParen("Book A");
  }

  lemma StripBookD()
    ensures StripParenthesised("Book D (Special Edition)") == "Book D"
  {
    assert "Book D" + " (" + "Special Edition" + ")" == "Book D (Special Edition)";
    StripTrailingSpan("Book D", "Special Edition");
  }

  lemma CleanFRow(a: Cell, b: Cell, c: Cell, d: Cell, e: Cell)
    ensures MapRow("title", CleanCell)(FRow(a, b, c, d, e)) == FRow(CleanCell(a), b, c, d, e)
  {
    assert Get(FRow(a, b, c, d, e), "title") == a;
  }

  function FA(): Record { FRow(Text("Book A"), Text("Author A"), Int(2001), Num(4.5), Int(1000)) }
  function FD(): Record { FRow(Text("Book D"), Text("Author D"), Int(2005), Num(2.7), Int(300)) }

  lemma Step9()
    ensures TitlesCleaned(Table(Canonical, [RA(), RD()])) == Ok(Table(Canonical, [FA(), FD()]))
  {
    var t := Table(Canonical, [RA(), RD()]);
    assert Get(t.rows[0], "title").Text?;
    MapTwo(t, "title", CleanCell);
    CleanFRow(Text("Book A"), Text("Author A"), Int(2001), Num(4.5), Int(1000));
    CleanFRow(Text("Book D (Special Edition)"), Text("Author D"), Int(2005), Num(2.7), Int(300));
    StripBookA();
    StripBookD();
  }

  lemma SortedPair()
    ensures SortDesc([FA(), FD()], RatingKey) == [FA(), FD()]
  {
    var s := [FA(), FD()];
    assert RatingKey(FA()) == Some(4.5) && RatingKey(FD()) == Some(2.7);
    assert s[1..] == [FD()];
    assert SortDesc([FD()], RatingKey) == [FD()];
  }

  lemma Step10()
    ensures SortDataframe(Table(Canonical, [FA(), FD()])) == Ok(Table(Canonical, [FA(), FD()]))
  {
    var t := Table(Canonical, [FA(), FD()]);
    assert !TextRating(t) by {
      assert Get(t.rows[0], "rating") == Num(4.5) && Get(t.rows[1], "rating") == Num(2.7);
    }
    SortedPair();
  }

  // ---------------------------------------------------------------- the whole chain

  lemma SampleCleaned()
    ensures Cleaned(Sample()) == Ok(Table(CleanColumns, [A5(), D5()]))
  {
    Step0();
    Step1();
    Step2();
    Step3();
    Step4();
    Step5();
    CleanedFrom(Sample(), Table(CleanColumns, [RawA(), RawB(), RawC(), RawD()]), Table(CleanColumns, [RawA(), RawC(), RawD()]),
      Table(CleanColumns, [RawA(), RawD()]), Table(CleanColumns, [A3(), D3()]), Table(CleanColumns, [A4(), D4()]),
      Table(CleanColumns, [A5(), D5()]));
  }

  /** The cleaning chain, given the frame after each of its steps. */
  lemma CleanedFrom(raw: Table, t0: Table, t1: Table, t2: Table, t3: Table, t4: Table, t5: Table)
    requires RemoveUnnecessaryColumns(raw, JunkColumns) == t0
    requires DropEmptyBookTitles(t0) == Ok(t1) && DropEmptyAuthors(t1) == Ok(t2)
    requires RatingReformatted(t2) == Ok(t3) && RatingsReformatted(t3) == Ok(t4)
    requires TypesConverted(t4) == Ok(t5)
    ensures Cleaned(raw) == Ok(t5)
  {
  }

  lemma CleanAdmissible()
    ensures Admissible(Table(CleanColumns, [A5(), D5()]))
  {
  }

  lemma SampleFinished()
    ensures Admissible(Table(CleanColumns, [A5(), D5()]))
    ensures Finished(Table(CleanColumns, [A5(), D5()]), SampleAuthors()) == Ok(Table(Canonical, [FA(), FD()]))
  {
    CleanAdmissible();
    Step6();
    Step7();
    Step8();
    Step9();
    Step10();
  }

  lemma SampleAdmissible()
    ensures Admissible(Sample())
  {
  }

  lemma ProcessedFrom(raw: Table, authors: seq<Author>, t: Table, u: Result<Table>)
    requires Admissible(raw) && Admissible(t)
    requires Cleaned(raw) == Ok(t) && Finished(t, authors) == u
    ensures Processed(raw, authors) == u
  {
  }

  lemma FinalRows()
    ensures FA() == OutRow("Book A", "Author A", 2001, 4.5, 1000)
    ensures FD() == OutRow("Book D", "Author D", 2005, 2.7, 300)
  {
  }

  /**
   * The sample books end as two rows: the untitled book and the one without an
   * author are dropped, the ratings and counts are numbers, the ids are names,
   * the edition note is gone, and the better-rated book comes first.
   */
  lemma SampleProcessed()
    ensures Admissible(Sample())
    ensures Processed(Sample(), SampleAuthors()) == Ok(Table(Canonical, [
      OutRow("Book A", "Author A", 2001, 4.5, 1000),
      OutRow("Book D", "Author D", 2005, 2.7, 300)]))
  {
    SampleAdmissible();
    SampleCleaned();
    SampleFinished();
    ProcessedFrom(Sample(), SampleAuthors(), Table(CleanColumns, [A5(), D5()]), Ok(Table(Canonical, [FA(), FD()])));
    FinalRows();
  }

  lemma InsertFirst<T>(x: T, s: seq<T>, key: T -> Option<real>)
    requires s != [] && Precedes(key(x), key(s[0]))
    ensures Insert(x, s, key) == [x] + s
  {
  }

  lemma InsertLater<T>(x: T, y: T, s: seq<T>, r: seq<T>, key: T -> Option<real>)
    requires !Precedes(key(x), key(y)) && Insert(x, s, key) == r
    ensures Insert(x, [y] + s, key) == [y] + r
  {
    assert ([y] + s)[1..] == s;
  }

  lemma SortStep<T>(x: T, s: seq<T>, key: T -> Option<real>, rest: seq<T>, r: seq<T>)
    requires SortDesc(s, key) == rest && Insert(x, rest, key) == r
    ensures SortDesc([x] + s, key) == r
  {
    assert ([x] + s)[1..] == s;
  }

  /** Inserting an element that goes second into a sorted two or three. */
  lemma InsertSecond<T>(x: T, c: T, rest: seq<T>, key: T -> Option<real>)
    requires rest != [] && !Precedes(key(x), key(c)) && Precedes(key(x), key(rest[0]))
    ensures Insert(x, [c] + rest, key) == [c] + ([x] + rest)
  {
    InsertFirst(x, rest, key);
    InsertLater(x, c, rest, [x] + rest, key);
  }

  lemma SortedLastTwo<T>(c: T, d: T, key: T -> Option<real>)
    requires Precedes(key(c), key(d))
    ensures SortDesc([c] + [d], key) == [c] + [d]
  {
    assert SortDesc([d], key) == [d];
    InsertFirst(c, [d], key);
    SortStep(c, [d], key, [d], [c] + [d]);
  }

  lemma SortedLastThree<T>(b: T, c: T, d: T, key: T -> Option<real>)
    requires Precedes(key(c), key(d))
    requires !Precedes(key(b), key(c)) && Precedes(key(b), key(d))
    ensures SortDesc([b] + ([c] + [d]), key) == [c] + ([b] + [d])
  {
    SortedLastTwo(c, d, key);
    InsertSecond(b, c, [d], key);
    SortStep(b, [c] + [d], key, [c] + [d], [c] + ([b] + [d]));
  }

  lemma SortedFour<T>(a: T, b: T, c: T, d: T, key: T -> Option<real>)
    requires Precedes(key(c), key(d))
    requires !Precedes(key(b), key(c)) && Precedes(key(b), key(d))
    requires !Precedes(key(a), key(c)) && Precedes(key(a), key(b))
    ensures SortDesc([a] + ([b] + ([c] + [d])), key) == [c] + ([a] + ([b] + [d]))
  {
    SortedLastThree(b, c, d, key);
    var bd := [b] + [d];
    assert bd[0] == b;
    InsertSecond(a, c, bd, key);
    SortStep(a, [b] + ([c] + [d]), key, [c] + bd, [c] + ([a] + bd));
  }

  /**
   * The sort of the test: ratings 4.5, 3.8, 5.0 and 2.7 come out as the third
   * row, the first, the second and the fourth.
   */
  lemma SortedSample(a: Record, b: Record, c: Record, d: Record)
    requires RatingKey(a) == Some(4.5) && RatingKey(b) == Some(3.8)
    requires RatingKey(c) == Some(5.0) && RatingKey(d) == Some(2.7)
    ensures SortDesc([a, b, c, d], RatingKey) == [c, a, b, d]
  {
    SortedFour(a, b, c, d, RatingKey);
    FourCons(a, b, c, d);
    FourCons(c, a, b, d);
  }

  lemma FourCons<T>(a: T, b: T, c: T, d: T)
    ensures [a] + ([b] + ([c] + [d])) == [a, b, c, d]
  {
  }
}
