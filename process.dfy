/**
 * The cleaning pipeline of `process_raw_data.py`: each step of the chain that
 * turns the raw book CSV and the author lookup into the processed table.
 */
module Process {
  import opened Basics
  import opened Text
  import opened Numeric
  import opened Sorting
  import opened Frames

  /** The columns `process_raw_data` drops first. */
  const JunkColumns: seq<string> := ["index", "Unnamed: 0", ""]

  /** The column order of the processed table. */
  const Canonical: seq<string> := ["title", "author_name", "year", "rating", "ratings"]

  // ---------------------------------------------------------------- remove_unnecessary_columns

  function NotIn(drop: seq<string>): string -> bool {
    (c: string) => c !in drop
  }

  function DropFrom(drop: seq<string>): Record -> Record {
    (r: Record) => r - ColumnSet(drop)
  }

  /** `df.drop(columns=drop, errors='ignore')`. */
  function RemoveUnnecessaryColumns(t: Table, drop: seq<string>): (u: Table)
    ensures forall c :: c in u.columns <==> c in t.columns && c !in drop
    ensures Subsequence(u.columns, t.columns)
    ensures |u.rows| == |t.rows|
    ensures forall i :: 0 <= i < |t.rows| ==> u.rows[i].Keys == t.rows[i].Keys - ColumnSet(drop)
    ensures forall i, k :: 0 <= i < |t.rows| && k !in drop ==> Get(u.rows[i], k) == Get(t.rows[i], k)
    ensures WellFormed(t) ==> WellFormed(u)
  {
    var u := Table(Filter(t.columns, NotIn(drop)), MapSeq(t.rows, DropFrom(drop)));
    FilterSubsequence(t.columns, NotIn(drop));
    FilterMembers(t.columns, NotIn(drop));
    assert forall c :: c in u.columns <==> c in t.columns && c !in drop;
    assert ColumnSet(u.columns) == ColumnSet(t.columns) - ColumnSet(drop);
    if NoDup(t.columns) then FilterNoDup(t.columns, NotIn(drop)); u else u
  }

  /** Dropping again changes nothing. */
  lemma RemoveIdempotent(t: Table, drop: seq<string>)
    ensures RemoveUnnecessaryColumns(RemoveUnnecessaryColumns(t, drop), drop) == RemoveUnnecessaryColumns(t, drop)
  {
    var u := RemoveUnnecessaryColumns(t, drop);
    FilterAllKept(u.columns, NotIn(drop));
    var v := RemoveUnnecessaryColumns(u, drop);
    assert v.rows == u.rows by {
      forall i | 0 <= i < |u.rows|
        ensures v.rows[i] == u.rows[i]
      {
        assert v.rows[i].Keys == u.rows[i].Keys;
      }
    }
  }

  /** Listing columns the frame does not have is not an error and leaves the frame as it was. */
  lemma RemoveAbsent(t: Table, drop: seq<string>)
    requires WellFormed(t)
    requires forall c :: c in drop ==> c !in t.columns
    ensures RemoveUnnecessaryColumns(t, drop) == t
  {
    var u := RemoveUnnecessaryColumns(t, drop);
    FilterAllKept(t.columns, NotIn(drop));
    assert u.rows == t.rows by {
      forall i | 0 <= i < |t.rows|
        ensures u.rows[i] == t.rows[i]
      {
        assert u.rows[i].Keys == t.rows[i].Keys;
      }
    }
  }

  // ---------------------------------------------------------------- drop_empty_book_titles / drop_empty_authors

  /** Neither missing nor exactly the empty string; blank text counts as filled. */
  predicate Filled(c: Cell) {
    !c.Null? && c != Text("")
  }

  function FilledIn(name: string): Record -> bool {
    (r: Record) => Filled(Get(r, name))
  }

  /** `df[df[name].notna() & (df[name] != '')]`. */
  function KeepFilled(t: Table, name: string): (r: Result<Table>)
    ensures r.Err? <==> name !in t.columns
    ensures r.Err? ==> r.error == MissingColumn(name)
    ensures r.Ok? ==> r.value.columns == t.columns && Subsequence(r.value.rows, t.rows)
    ensures r.Ok? ==> forall i :: 0 <= i < |r.value.rows| ==> Filled(Get(r.value.rows[i], name))
    ensures r.Ok? ==> forall i :: 0 <= i < |t.rows| && Filled(Get(t.rows[i], name)) ==> t.rows[i] in r.value.rows
    ensures r.Ok? ==> forall i :: 0 <= i < |r.value.rows| ==> r.value.rows[i] in t.rows
    ensures r.Ok? ==> forall x :: multiset(r.value.rows)[x] == if Filled(Get(x, name)) then multiset(t.rows)[x] else 0
    ensures r.Ok? && WellFormed(t) ==> WellFormed(r.value)
  {
    if name !in t.columns then Err(MissingColumn(name))
    else
      FilterSubsequence(t.rows, FilledIn(name));
      FilterMembers(t.rows, FilledIn(name));
      FilterMultiset(t.rows, FilledIn(name));
      Ok(Table(t.columns, Filter(t.rows, FilledIn(name))))
  }

  function DropEmptyBookTitles(t: Table): Result<Table> {
    KeepFilled(t, "book_title")
  }

  function DropEmptyAuthors(t: Table): Result<Table> {
    KeepFilled(t, "author_id")
  }

  /** Blank titles are not trimmed, so they survive the filter. */
  lemma BlankTitleKept(t: Table, i: int)
    requires "book_title" in t.columns && 0 <= i < |t.rows|
    requires Get(t.rows[i], "book_title") == Text(" ")
    ensures t.rows[i] in DropEmptyBookTitles(t).value.rows
  {
  }

  // ---------------------------------------------------------------- reformat_rating_column / reformat_ratings_column

  /** `pd.to_numeric(..., errors='coerce')` on one cell: text that is not a number becomes missing. */
  function Coerce(c: Cell): (r: Cell)
    ensures !r.Text?
    ensures c.Text? ==> (r.Num? <==> ParseDecimal(c.s).Some?)
    ensures c.Text? && r.Num? ==> Some(r.r) == ParseDecimal(c.s)
    ensures !c.Text? ==> r == c
  {
    match c
    case Text(s) => (match ParseDecimal(s) case Some(v) => Num(v) case None => Null)
    case _ => c
  }

  /** The Rating cell after `.str.replace(',', '.')` and `to_numeric`: decimal commas read as points. */
  function ParseRatingCell(c: Cell): (r: Cell)
    ensures r.Null? || r.Num?
    ensures r.Num? <==> c.Text? && ParseDecimal(ReplaceChar(c.s, ',', '.')).Some?
    ensures r.Num? ==> Some(r.r) == ParseDecimal(ReplaceChar(c.s, ',', '.'))
  {
    if c.Text? then Coerce(Text(ReplaceChar(c.s, ',', '.'))) else Null
  }

  /** The ratings cell after `.str.replace('`', '')` and `to_numeric`: thousands marks dropped. */
  function ParseCountCell(c: Cell): (r: Cell)
    ensures r.Null? || r.Num?
    ensures r.Num? <==> c.Text? && ParseDecimal(DeleteChar(c.s, '`')).Some?
    ensures r.Num? ==> Some(r.r) == ParseDecimal(DeleteChar(c.s, '`'))
  {
    if c.Text? then Coerce(Text(DeleteChar(c.s, '`'))) else Null
  }

  /**
   * Rewrites a text column cell by cell through the `.str` accessor; a missing
   * column is a KeyError and a column without text an AttributeError.
   */
  function StrColumn(t: Table, name: string, f: Cell -> Cell): (r: Result<Table>)
    ensures r.Err? <==> name !in t.columns || !HasStrings(t, name)
    ensures r.Err? ==> r.error == (if name !in t.columns then MissingColumn(name) else NoStrings(name))
    ensures r.Ok? ==> r.value == MapColumn(t, name, f)
  {
    if name !in t.columns then Err(MissingColumn(name))
    else if !HasStrings(t, name) then Err(NoStrings(name))
    else Ok(MapColumn(t, name, f))
  }

  /** The frame after `reformat_rating_column`. */
  function RatingReformatted(t: Table): Result<Table> {
    StrColumn(t, "Rating", ParseRatingCell)
  }

  /** The frame after `reformat_ratings_column`. */
  function RatingsReformatted(t: Table): Result<Table> {
    StrColumn(t, "ratings", ParseCountCell)
  }

  /** Reformatting a frame changes only the named column, and never into an error cell. */
  lemma ReformatChangesOnlyColumn(t: Table, name: string, f: Cell -> Cell, i: int, k: string)
    requires StrColumn(t, name, f).Ok? && 0 <= i < |t.rows|
    ensures Get(StrColumn(t, name, f).value.rows[i], k) == if k == name then f(Get(t.rows[i], name)) else Get(t.rows[i], k)
  {
  }

  /** The test's check: the reformatted column is already numeric, so `to_numeric` leaves it as it is. */
  lemma ReformattedIsNumeric(c: Cell)
    ensures Coerce(ParseRatingCell(c)) == ParseRatingCell(c)
    ensures Coerce(ParseCountCell(c)) == ParseCountCell(c)
  {
  }

  /** Method form of `reformat_rating_column`, assigning the column of `df` in place. */
  method ReformatRatingColumn(df: DataFrame) returns (r: Result<DataFrame>)
    modifies df
    ensures RatingReformatted(old(df.Value())).Ok? ==> r == Ok(df) && df.Value() == RatingReformatted(old(df.Value())).value
    ensures RatingReformatted(old(df.Value())).Err? ==> r == Err(RatingReformatted(old(df.Value())).error) && df.Value() == old(df.Value())
  {
    var u := RatingReformatted(df.Value());
    if u.Err? {
      return Err(u.error);
    }
    df.rows := u.value.rows;
    return Ok(df);
  }

  /** Method form of `reformat_ratings_column`. */
  method ReformatRatingsColumn(df: DataFrame) returns (r: Result<DataFrame>)
    modifies df
    ensures RatingsReformatted(old(df.Value())).Ok? ==> r == Ok(df) && df.Value() == RatingsReformatted(old(df.Value())).value
    ensures RatingsReformatted(old(df.Value())).Err? ==> r == Err(RatingsReformatted(old(df.Value())).error) && df.Value() == old(df.Value())
  {
    var u := RatingsReformatted(df.Value());
    if u.Err? {
      return Err(u.error);
    }
    df.rows := u.value.rows;
    return Ok(df);
  }

  // ---------------------------------------------------------------- convert_data_types

  predicate IsWhole(v: real) {
    v.Floor as real == v
  }

  /** `astype('Int64')` on one cell: whole numbers and missing values pass, anything else raises. */
  function CastInt(c: Cell): (r: Option<Cell>)
    ensures r.Some? ==> r.value.Null? || r.value.Int?
    ensures r.Some? <==> c.Null? || c.Int? || (c.Num? && IsWhole(c.r))
    ensures r.Some? && r.value.Int? ==> (c == r.value || c == Num(r.value.i as real))
    ensures c.Null? ==> r == Some(Null)
    ensures c.Int? ==> r == Some(c)
    ensures c.Num? && IsWhole(c.r) ==> r == Some(Int(c.r.Floor))
  {
    match c
    case Null => Some(Null)
    case Int(_) => Some(c)
    case Num(v) => if IsWhole(v) then Some(Int(v.Floor)) else None
    case Text(_) => None
  }

  /** `astype('float')` on one cell: numbers and decimal text become decimals. */
  function CastFloat(c: Cell): (r: Option<Cell>)
    ensures r.Some? ==> r.value.Null? || r.value.Num?
    ensures c.Null? ==> r == Some(Null)
    ensures c.Int? ==> r == Some(Num(c.i as real))
    ensures c.Num? ==> r == Some(c)
    ensures c.Text? ==> (r.Some? <==> ParseDecimal(c.s).Some?)
    ensures c.Text? && r.Some? ==> r == Some(Num(ParseDecimal(c.s).value))
  {
    match c
    case Null => Some(Null)
    case Int(i) => Some(Num(i as real))
    case Num(_) => Some(c)
    case Text(s) => (match ParseDecimal(s) case Some(v) => Some(Num(v)) case None => None)
  }

  /** `pd.to_numeric(..., errors='coerce').astype('Int64')` on one cell. */
  function CastYear(c: Cell): Option<Cell> {
    CastInt(Coerce(c))
  }

  function OrNull(cast: Cell -> Option<Cell>): Cell -> Cell {
    (c: Cell) => match cast(c) case Some(v) => v case None => Null
  }

  /** `df[name] = df[name].astype(...)`: raises when any one cell cannot be cast. */
  function CastColumn(t: Table, name: string, cast: Cell -> Option<Cell>): (r: Result<Table>)
    ensures r.Err? <==> name !in t.columns || exists i :: 0 <= i < |t.rows| && cast(Get(t.rows[i], name)).None?
    ensures r.Err? ==> r.error == (if name !in t.columns then MissingColumn(name) else CastFailed(name))
    ensures r.Ok? ==> r.value.columns == t.columns && |r.value.rows| == |t.rows|
    ensures r.Ok? ==> forall i :: 0 <= i < |t.rows| ==> Some(Get(r.value.rows[i], name)) == cast(Get(t.rows[i], name))
    ensures r.Ok? ==> forall i, k :: 0 <= i < |t.rows| && k != name ==> Get(r.value.rows[i], k) == Get(t.rows[i], k)
    ensures r.Ok? ==> forall i :: 0 <= i < |t.rows| ==> r.value.rows[i].Keys == t.rows[i].Keys + {name}
    ensures r.Ok? && WellFormed(t) ==> WellFormed(r.value)
  {
    if name !in t.columns then Err(MissingColumn(name))
    else if exists i :: 0 <= i < |t.rows| && cast(Get(t.rows[i], name)).None? then Err(CastFailed(name))
    else Ok(MapColumn(t, name, OrNull(cast)))
  }

  /** The frame `convert_data_types` returns, or the error it raises. */
  function TypesConverted(t: Table): Result<Table> {
    var y :- CastColumn(t, "Year released", CastYear);
    var f :- CastColumn(y, "Rating", CastFloat);
    CastColumn(f, "ratings", CastInt)
  }

  /**
   * The frame as `convert_data_types` leaves it, also when it raises: the columns
   * assigned before the failing cast keep their new values.
   */
  function TypesConvertedState(t: Table): Table {
    match CastColumn(t, "Year released", CastYear)
    case Err(_) => t
    case Ok(y) =>
      match CastColumn(y, "Rating", CastFloat)
      case Err(_) => y
      case Ok(f) =>
        match CastColumn(f, "ratings", CastInt)
        case Err(_) => f
        case Ok(u) => u
  }

  /**
   * After a successful conversion every year, rating and ratings count is its
   * cast of the cell it replaced: the year and the count whole numbers or
   * missing, the rating a decimal or missing; other columns are as they were,
   * and the state the method leaves is the frame it returns.
   */
  lemma TypesConvertedShape(t: Table, i: int, k: string)
    requires TypesConverted(t).Ok? && 0 <= i < |t.rows|
    ensures TypesConvertedState(t) == TypesConverted(t).value
    ensures |TypesConverted(t).value.rows| == |t.rows|
    ensures Some(Get(TypesConverted(t).value.rows[i], "Year released")) == CastYear(Get(t.rows[i], "Year released"))
    ensures Some(Get(TypesConverted(t).value.rows[i], "Rating")) == CastFloat(Get(t.rows[i], "Rating"))
    ensures Some(Get(TypesConverted(t).value.rows[i], "ratings")) == CastInt(Get(t.rows[i], "ratings"))
    ensures var c := Get(TypesConverted(t).value.rows[i], "Year released"); c.Null? || c.Int?
    ensures var c := Get(TypesConverted(t).value.rows[i], "Rating"); c.Null? || c.Num?
    ensures var c := Get(TypesConverted(t).value.rows[i], "ratings"); c.Null? || c.Int?
    ensures k !in {"Year released", "Rating", "ratings"} ==> Get(TypesConverted(t).value.rows[i], k) == Get(t.rows[i], k)
  {
    var y := CastColumn(t, "Year released", CastYear).value;
    var f := CastColumn(y, "Rating", CastFloat).value;
    var u := CastColumn(f, "ratings", CastInt).value;
    assert Some(Get(y.rows[i], "Year released")) == CastInt(Coerce(Get(t.rows[i], "Year released")));
    assert Some(Get(f.rows[i], "Rating")) == CastFloat(Get(y.rows[i], "Rating"));
    assert Some(Get(u.rows[i], "ratings")) == CastInt(Get(f.rows[i], "ratings"));
  }

  /** When the conversion succeeds, the state it leaves is the frame it returns. */
  lemma ConvertedState(t: Table)
    ensures TypesConverted(t).Ok? ==> TypesConvertedState(t) == TypesConverted(t).value
    ensures TypesConverted(t).Err? ==> TypesConvertedState(t).columns == t.columns
  {
  }

  /** Method form of `convert_data_types`, which assigns three columns of `df` one after another. */
  method ConvertDataTypes(df: DataFrame) returns (r: Result<DataFrame>)
    modifies df
    ensures df.Value() == TypesConvertedState(old(df.Value()))
    ensures TypesConverted(old(df.Value())).Ok? ==> r == Ok(df)
    ensures TypesConverted(old(df.Value())).Err? ==> r == Err(TypesConverted(old(df.Value())).error)
  {
    var y := CastColumn(df.Value(), "Year released", CastYear);
    if y.Err? {
      return Err(y.error);
    }
    df.rows := y.value.rows;
    var f := CastColumn(df.Value(), "Rating", CastFloat);
    if f.Err? {
      return Err(f.error);
    }
    df.rows := f.value.rows;
    var u := CastColumn(df.Value(), "ratings", CastInt);
    if u.Err? {
      return Err(u.error);
    }
    df.rows := u.value.rows;
    return Ok(df);
  }

  // ---------------------------------------------------------------- replace_authors_id_with_name

  /** A row of the author lookup table. */
  datatype Author = Author(id: int, name: string)

  function IdOf(a: Author): int { a.id }

  /** A merge key cell equals a lookup id; missing keys match nothing. */
  predicate KeyMatches(c: Cell, id: int) {
    (c.Int? && c.i == id) || (c.Num? && c.r == id as real)
  }

  function MatchesKey(c: Cell): Author -> bool {
    (a: Author) => KeyMatches(c, a.id)
  }

  /** The lookup rows whose id equals the key, in lookup order. */
  function Matches(authors: seq<Author>, c: Cell): seq<Author> {
    Filter(authors, MatchesKey(c))
  }

  /** The matches of a key are exactly the lookup rows whose id equals it. */
  lemma MatchesMembers(authors: seq<Author>, c: Cell)
    ensures forall a :: a in Matches(authors, c) <==> a in authors && KeyMatches(c, a.id)
  {
    FilterMembers(authors, MatchesKey(c));
    forall a | a in Matches(authors, c)
      ensures KeyMatches(c, a.id)
    {
      var k :| 0 <= k < |Matches(authors, c)| && Matches(authors, c)[k] == a;
    }
    forall a | a in authors && KeyMatches(c, a.id)
      ensures a in Matches(authors, c)
    {
      var k :| 0 <= k < |authors| && authors[k] == a;
    }
  }

  /**
   * The name a merged row carries, given the matches of its left row: missing when
   * nothing matches, the name of a matching lookup row otherwise.
   */
  predicate NameOfMatch(name: Cell, ms: seq<Author>) {
    if ms == [] then name == Null else exists a :: a in ms && name == Text(a.name)
  }

  /** Reference definition: the first lookup row with the key, if any. */
  function FindAuthor(authors: seq<Author>, c: Cell): Option<Author> {
    if authors == [] then None
    else if KeyMatches(c, authors[0].id) then Some(authors[0])
    else FindAuthor(authors[1..], c)
  }

  /** The name a left join gives a row whose key is `c`: the matched name, or missing. */
  function NameFor(authors: seq<Author>, c: Cell): Cell {
    match FindAuthor(authors, c)
    case Some(a) => Text(a.name)
    case None => Null
  }

  /** The left row without its key, with the author's name under 'author_name'. */
  function Joined(r: Record, name: Cell): Record {
    (r - {"author_id"})["author_name" := name]
  }

  function JoinedWith(r: Record): Author -> Record {
    (a: Author) => Joined(r, Text(a.name))
  }

  /** The rows a left merge makes of one left row: one per match, or one with no name. */
  function JoinRow(r: Record, ms: seq<Author>): (out: seq<Record>)
    ensures |out| == if ms == [] then 1 else |ms|
    ensures ms == [] ==> out == [Joined(r, Null)]
    ensures ms != [] ==> forall k :: 0 <= k < |out| ==> out[k] == Joined(r, Text(ms[k].name))
  {
    if ms == [] then [Joined(r, Null)] else MapSeq(ms, JoinedWith(r))
  }

  function JoinRows(rows: seq<Record>, authors: seq<Author>): seq<Record> {
    if rows == [] then []
    else JoinRow(rows[0], Matches(authors, Get(rows[0], "author_id"))) + JoinRows(rows[1..], authors)
  }

  predicate TextKey(t: Table) {
    exists i :: 0 <= i < |t.rows| && Get(t.rows[i], "author_id").Text?
  }

  /**
   * `df.merge(authors_df, left_on='author_id', right_on='id', how='left')`,
   * then dropping 'author_id' and 'id' and renaming 'name' to 'author_name'.
   * Merging raises when the key column is missing or holds text (object keys
   * against integer ids); a left 'id' column is suffixed by the merge, so the
   * drop of 'id' then raises.
   */
  function ReplaceAuthorsIdWithName(t: Table, authors: seq<Author>): (r: Result<Table>)
    requires "name" !in t.columns && "author_name" !in t.columns
    ensures r.Err? <==> "author_id" !in t.columns || TextKey(t) || "id" in t.columns
    ensures r.Ok? ==> "author_id" !in r.value.columns && "id" !in r.value.columns && "author_name" in r.value.columns
    ensures r.Ok? ==> forall c :: c in r.value.columns <==> c == "author_name" || (c in t.columns && c != "author_id")
  {
    if "author_id" !in t.columns then Err(MissingColumn("author_id"))
    else if TextKey(t) then Err(TextInNumbers("author_id"))
    else if "id" in t.columns then Err(MissingColumn("id"))
    else
      FilterMembers(t.columns, NotIn(["author_id"]));
      Ok(Table(Filter(t.columns, NotIn(["author_id"])) + ["author_name"], JoinRows(t.rows, authors)))
  }

  /** A name the lookup table holds, or no name. */
  predicate FromLookup(name: Cell, authors: seq<Author>) {
    name.Null? || exists a :: a in authors && name == Text(a.name)
  }

  /**
   * Every row a merge makes is some left row without its key, named by a lookup
   * row whose id equals that key, or without a name when no id equals it.
   */
  lemma {:induction false} JoinRowsFrom(rows: seq<Record>, authors: seq<Author>, j: int)
    requires 0 <= j < |JoinRows(rows, authors)|
    ensures exists i, name ::
      && 0 <= i < |rows|
      && JoinRows(rows, authors)[j] == Joined(rows[i], name)
      && NameOfMatch(name, Matches(authors, Get(rows[i], "author_id")))
  {
    var ms := Matches(authors, Get(rows[0], "author_id"));
    var head := JoinRow(rows[0], ms);
    var out := JoinRows(rows, authors);
    assert out == head + JoinRows(rows[1..], authors);
    if j < |head| {
      if ms == [] {
        assert out[j] == Joined(rows[0], Null);
        assert NameOfMatch(Null, ms);
      } else {
        assert out[j] == Joined(rows[0], Text(ms[j].name));
        assert ms[j] in ms;
        assert NameOfMatch(Text(ms[j].name), ms);
      }
    } else {
      JoinRowsFrom(rows[1..], authors, j - |head|);
      var i, name :|
        && 0 <= i < |rows[1..]|
        && JoinRows(rows[1..], authors)[j - |head|] == Joined(rows[1..][i], name)
        && NameOfMatch(name, Matches(authors, Get(rows[1..][i], "author_id")));
      assert rows[1..][i] == rows[i + 1];
      assert out[j] == Joined(rows[i + 1], name);
    }
  }

  /** The test's claim: every author name in the merged frame is a lookup name or missing. */
  lemma JoinNamesFromLookup(t: Table, authors: seq<Author>, j: int)
    requires "name" !in t.columns && "author_name" !in t.columns
    requires ReplaceAuthorsIdWithName(t, authors).Ok?
    requires 0 <= j < |ReplaceAuthorsIdWithName(t, authors).value.rows|
    ensures FromLookup(Get(ReplaceAuthorsIdWithName(t, authors).value.rows[j], "author_name"), authors)
  {
    JoinRowsFrom(t.rows, authors, j);
    var i, name :|
      && 0 <= i < |t.rows|
      && JoinRows(t.rows, authors)[j] == Joined(t.rows[i], name)
      && NameOfMatch(name, Matches(authors, Get(t.rows[i], "author_id")));
    MatchesMembers(authors, Get(t.rows[i], "author_id"));
    assert Get(Joined(t.rows[i], name), "author_name") == name;
  }

  lemma {:induction false} UniqueMatch(authors: seq<Author>, c: Cell)
    requires DistinctBy(authors, IdOf)
    ensures Matches(authors, c) == match FindAuthor(authors, c) case Some(a) => [a] case None => []
  {
    if authors != [] {
      UniqueMatch(authors[1..], c);
      if KeyMatches(c, authors[0].id) {
        forall i | 0 <= i < |authors[1..]|
          ensures !MatchesKey(c)(authors[1..][i])
        {
          assert authors[1..][i] == authors[i + 1];
        }
        FilterNone(authors[1..], MatchesKey(c));
      }
    }
  }

  lemma JoinRowUnique(r: Record, authors: seq<Author>)
    requires DistinctBy(authors, IdOf)
    ensures JoinRow(r, Matches(authors, Get(r, "author_id"))) == [Joined(r, NameFor(authors, Get(r, "author_id")))]
  {
    UniqueMatch(authors, Get(r, "author_id"));
  }

  /**
   * With unique lookup ids the merge is one-to-one: the rows stay in the same
   * number and order, and row `i` is the left row without its key, named by the
   * lookup or left without a name when no id matches.
   */
  lemma {:induction false} JoinRowsUnique(rows: seq<Record>, authors: seq<Author>)
    requires DistinctBy(authors, IdOf)
    ensures |JoinRows(rows, authors)| == |rows|
    ensures forall i :: 0 <= i < |rows| ==> JoinRows(rows, authors)[i] == Joined(rows[i], NameFor(authors, Get(rows[i], "author_id")))
  {
    if rows != [] {
      JoinRowUnique(rows[0], authors);
      JoinRowsUnique(rows[1..], authors);
      var first := Joined(rows[0], NameFor(authors, Get(rows[0], "author_id")));
      var rest := JoinRows(rows[1..], authors);
      assert JoinRows(rows, authors) == [first] + rest;
      forall i | 1 <= i < |rows|
        ensures ([first] + rest)[i] == Joined(rows[i], NameFor(authors, Get(rows[i], "author_id")))
      {
        assert rows[1..][i - 1] == rows[i];
      }
    }
  }

  // ---------------------------------------------------------------- rename_columns

  /** The label `rename_columns` gives a column. */
  function NewName(c: string): string {
    if c == "book_title" then "title"
    else if c == "Year released" then "year"
    else if c == "Rating" then "rating"
    else c
  }

  /** No column is renamed onto a label the frame already has. */
  predicate RenameSafe(cols: seq<string>) {
    && !("book_title" in cols && "title" in cols)
    && !("Year released" in cols && "year" in cols)
    && !("Rating" in cols && "rating" in cols)
  }

  /** The label whose cell a renamed row shows under label `x`. */
  function OldName(r: Record, x: string): string {
    if x == "title" && "book_title" in r then "book_title"
    else if x == "year" && "Year released" in r then "Year released"
    else if x == "rating" && "Rating" in r then "Rating"
    else x
  }

  function NewKeys(r: Record): set<string> {
    set k | k in r :: NewName(k)
  }

  function RenameRow(r: Record): Record {
    assert forall x :: x in NewKeys(r) ==> OldName(r, x) in r;
    map x | x in NewKeys(r) :: r[OldName(r, x)]
  }

  /** `df.rename(columns={'book_title': 'title', 'Year released': 'year', 'Rating': 'rating'})`. */
  function RenameColumns(t: Table): (u: Table)
    requires RenameSafe(t.columns)
    ensures u.columns == MapSeq(t.columns, NewName)
    ensures |u.rows| == |t.rows|
    ensures WellFormed(t) ==> forall i, c :: 0 <= i < |t.rows| && c in t.columns ==> Get(u.rows[i], NewName(c)) == Get(t.rows[i], c)
    ensures WellFormed(t) ==> WellFormed(u)
  {
    var u := Table(MapSeq(t.columns, NewName), MapSeq(t.rows, RenameRow));
    if WellFormed(t) then
      RenamedLabels(t.columns);
      assert forall i :: 0 <= i < |t.rows| ==> RenameRowCorrect(t.rows[i], t.columns) by {
        forall i | 0 <= i < |t.rows| ensures RenameRowCorrect(t.rows[i], t.columns) {
          RenameRowLemma(t.rows[i], t.columns);
        }
      }
      u
    else u
  }

  lemma RenamedLabels(cols: seq<string>)
    requires RenameSafe(cols) && NoDup(cols)
    ensures NoDup(MapSeq(cols, NewName))
  {
    var m := MapSeq(cols, NewName);
    forall i, j | 0 <= i < j < |m|
      ensures m[i] != m[j]
    {
      assert cols[i] != cols[j];
    }
  }

  /** Renaming one row moves every cell to its column's new label. */
  predicate RenameRowCorrect(r: Record, cols: seq<string>) {
    && RenameRow(r).Keys == ColumnSet(MapSeq(cols, NewName))
    && forall c :: c in cols ==> Get(RenameRow(r), NewName(c)) == Get(r, c)
  }

  lemma RenameRowLemma(r: Record, cols: seq<string>)
    requires r.Keys == ColumnSet(cols) && RenameSafe(cols)
    ensures RenameRowCorrect(r, cols)
  {
    var m := MapSeq(cols, NewName);
    forall x | x in ColumnSet(m)
      ensures x in NewKeys(r)
    {
      var i :| 0 <= i < |m| && m[i] == x;
      assert cols[i] in r;
    }
    forall x | x in NewKeys(r)
      ensures x in ColumnSet(m)
    {
      var k :| k in r && NewName(k) == x;
      var i :| 0 <= i < |cols| && cols[i] == k;
      assert m[i] == x;
    }
    forall c | c in cols
      ensures Get(RenameRow(r), NewName(c)) == Get(r, c)
    {
      assert NewName(c) in NewKeys(r);
      assert OldName(r, NewName(c)) == c;
    }
  }

  /** The test's check: renaming gives the frame its 'title', 'year' and 'rating' columns. */
  lemma RenameGivesNames(t: Table)
    requires RenameSafe(t.columns)
    ensures "book_title" in t.columns ==> "title" in RenameColumns(t).columns
    ensures "Year released" in t.columns ==> "year" in RenameColumns(t).columns
    ensures "Rating" in t.columns ==> "rating" in RenameColumns(t).columns
    ensures "book_title" !in RenameColumns(t).columns && "Rating" !in RenameColumns(t).columns
  {
    var m := RenameColumns(t).columns;
    if "book_title" in t.columns {
      var i :| 0 <= i < |t.columns| && t.columns[i] == "book_title";
      assert m[i] == "title";
    }
    if "Year released" in t.columns {
      var i :| 0 <= i < |t.columns| && t.columns[i] == "Year released";
      assert m[i] == "year";
    }
    if "Rating" in t.columns {
      var i :| 0 <= i < |t.columns| && t.columns[i] == "Rating";
      assert m[i] == "rating";
    }
  }

  // ---------------------------------------------------------------- reorder_columns

  function Restrict(r: Record, cols: seq<string>): Record {
    map k | k in r && k in cols :: r[k]
  }

  function RestrictTo(cols: seq<string>): Record -> Record {
    (r: Record) => Restrict(r, cols)
  }

  function FirstMissing(cols: seq<string>, want: seq<string>): (c: string)
    requires exists i :: 0 <= i < |want| && want[i] !in cols
    ensures c in want && c !in cols
  {
    if want[0] !in cols then want[0] else FirstMissing(cols, want[1..])
  }

  /** `df[preferred_order]`: exactly the canonical columns in canonical order, or a KeyError. */
  function ReorderColumns(t: Table): (r: Result<Table>)
    ensures r.Ok? <==> forall c :: c in Canonical ==> c in t.columns
    ensures r.Err? ==> r.error.MissingColumn? && r.error.column in Canonical && r.error.column !in t.columns
    ensures r.Ok? ==> r.value.columns == Canonical && |r.value.rows| == |t.rows|
    ensures r.Ok? ==> forall i, c :: 0 <= i < |t.rows| && c in Canonical ==> Get(r.value.rows[i], c) == Get(t.rows[i], c)
    ensures r.Ok? && WellFormed(t) ==> WellFormed(r.value)
  {
    if exists i :: 0 <= i < |Canonical| && Canonical[i] !in t.columns then Err(MissingColumn(FirstMissing(t.columns, Canonical)))
    else
      var u := Table(Canonical, MapSeq(t.rows, RestrictTo(Canonical)));
      assert forall c :: c in Canonical ==> c in t.columns by {
        forall c | c in Canonical ensures c in t.columns {
          var i :| 0 <= i < |Canonical| && Canonical[i] == c;
        }
      }
      Ok(u)
  }

  // ---------------------------------------------------------------- clean_titles

  /** `.str.replace(r'\s*\(.*?\)\s*', '', regex=True)` on one cell; non-text becomes missing. */
  function CleanCell(c: Cell): Cell {
    if c.Text? then Text(StripParenthesised(c.s)) else Null
  }

  /** The frame after `clean_titles`. */
  function TitlesCleaned(t: Table): (r: Result<Table>)
    ensures r.Err? <==> "title" !in t.columns || !HasStrings(t, "title")
    ensures r.Ok? ==> r.value.columns == t.columns && |r.value.rows| == |t.rows|
    ensures r.Ok? ==> forall i :: 0 <= i < |t.rows| ==> Get(r.value.rows[i], "title") == CleanCell(Get(t.rows[i], "title"))
    ensures r.Ok? ==> forall i, k :: 0 <= i < |t.rows| && k != "title" ==> Get(r.value.rows[i], k) == Get(t.rows[i], k)
  {
    StrColumn(t, "title", CleanCell)
  }

  /** Method form of `clean_titles`, assigning the title column of `df` in place. */
  method CleanTitles(df: DataFrame) returns (r: Result<DataFrame>)
    modifies df
    ensures TitlesCleaned(old(df.Value())).Ok? ==> r == Ok(df) && df.Value() == TitlesCleaned(old(df.Value())).value
    ensures TitlesCleaned(old(df.Value())).Err? ==> r == Err(TitlesCleaned(old(df.Value())).error) && df.Value() == old(df.Value())
  {
    var u := TitlesCleaned(df.Value());
    if u.Err? {
      return Err(u.error);
    }
    df.rows := u.value.rows;
    return Ok(df);
  }

  /**
   * Cleaning keeps a title without '(' and, on a title of one line, leaves no
   * '(' followed later by ')'.
   */
  lemma CleanedTitles(t: Table, i: int)
    requires TitlesCleaned(t).Ok? && 0 <= i < |t.rows|
    requires Get(t.rows[i], "title").Text?
    ensures var s := Get(t.rows[i], "title").s;
      && ('(' !in s ==> Get(TitlesCleaned(t).value.rows[i], "title") == Text(s))
      && ('\n' !in s ==> !HasSpan(Get(TitlesCleaned(t).value.rows[i], "title").s))
  {
    var s := Get(t.rows[i], "title").s;
    if '(' !in s {
      StripWithoutParen(s);
    }
    if '\n' !in s {
      StripRemovesSpans(s);
    }
  }

  /**
   * A title that survives the empty-title filter can still come out empty:
   * "(Untitled)" is not '' when the filter runs, and cleaning removes all of it.
   */
  lemma UntitledBecomesEmpty(t: Table, i: int)
    requires TitlesCleaned(t).Ok? && 0 <= i < |t.rows|
    requires Get(t.rows[i], "title") == Text("(Untitled)")
    ensures Filled(Get(t.rows[i], "title"))
    ensures Get(TitlesCleaned(t).value.rows[i], "title") == Text("")
  {
    StripUntitled();
    var u := TitlesCleaned(t).value;
    assert u == MapColumn(t, "title", CleanCell);
    assert Get(u.rows[i], "title") == CleanCell(Text("(Untitled)"));
  }

  /** The whole of "(Untitled)" is one parenthesised span. */
  lemma StripUntitled()
    ensures StripParenthesised("(Untitled)") == []
  {
    assert "(Untitled)" == "(" + "Untitled" + ")";
    StripWholeSpan("Untitled");
  }

  // ---------------------------------------------------------------- sort_dataframe

  /** The sort key of a row: its rating, or nothing when it is missing. */
  function RatingKey(r: Record): Option<real> {
    match Get(r, "rating")
    case Int(i) => Some(i as real)
    case Num(v) => Some(v)
    case _ => None
  }

  predicate TextRating(t: Table) {
    exists i :: 0 <= i < |t.rows| && Get(t.rows[i], "rating").Text?
  }

  /**
   * `df.sort_values(by='rating', ascending=False)`: the same rows, ratings
   * non-increasing, missing ratings last. Text among the ratings is refused.
   */
  function SortDataframe(t: Table): (r: Result<Table>)
    ensures r.Err? <==> "rating" !in t.columns || TextRating(t)
    ensures r.Ok? ==> r.value.columns == t.columns
    ensures r.Ok? ==> multiset(r.value.rows) == multiset(t.rows)
    ensures r.Ok? ==> SortedDesc(r.value.rows, RatingKey)
    ensures r.Ok? && WellFormed(t) ==> WellFormed(r.value)
  {
    if "rating" !in t.columns then Err(MissingColumn("rating"))
    else if TextRating(t) then Err(TextInNumbers("rating"))
    else
      var rows := SortDesc(t.rows, RatingKey);
      assert forall i :: 0 <= i < |rows| ==> rows[i] in multiset(t.rows);
      Ok(Table(t.columns, rows))
  }

  // ---------------------------------------------------------------- process_raw_data

  /**
   * The raw frames the chain is modelled on: no column that the merge would
   * suffix or the renaming would duplicate.
   */
  predicate Admissible(raw: Table) {
    "name" !in raw.columns && "author_name" !in raw.columns && RenameSafe(raw.columns)
  }

  /** The frame after the cleaning steps before the merge (process_raw_data.py:110-116). */
  function Cleaned(raw: Table): (r: Result<Table>)
    ensures r.Ok? ==> forall c :: c in r.value.columns <==> c in raw.columns && c !in JunkColumns
  {
    var t0 := RemoveUnnecessaryColumns(raw, JunkColumns);
    var t1 :- DropEmptyBookTitles(t0);
    var t2 :- DropEmptyAuthors(t1);
    var t3 :- RatingReformatted(t2);
    var t4 :- RatingsReformatted(t3);
    TypesConverted(t4)
  }

  /** The frame after the merge, the renaming, the reordering, the title cleaning and the sort. */
  function Finished(t: Table, authors: seq<Author>): Result<Table>
    requires Admissible(t)
  {
    var t6 :- ReplaceAuthorsIdWithName(t, authors);
    var t7 := RenameColumns(t6);
    var t8 :- ReorderColumns(t7);
    var t9 :- TitlesCleaned(t8);
    SortDataframe(t9)
  }

  /** The table `process_raw_data` returns for a raw frame and an author lookup, or the error it raises. */
  function Processed(raw: Table, authors: seq<Author>): Result<Table>
    requires Admissible(raw)
  {
    var t :- Cleaned(raw);
    assert Admissible(t);
    Finished(t, authors)
  }

  /** The cleaning steps, the in-place ones on one frame object. */
  method CleanRawFrame(raw: Table) returns (r: Result<Table>)
    ensures r == Cleaned(raw)
  {
    var t0 := RemoveUnnecessaryColumns(raw, JunkColumns);
    var t1 :- DropEmptyBookTitles(t0);
    var t2 :- DropEmptyAuthors(t1);
    var df := new DataFrame(t2);
    var d3 := ReformatRatingColumn(df);
    if d3.Err? {
      return Err(d3.error);
    }
    var t3 := df.Value();
    assert RatingReformatted(t2) == Ok(t3);
    var d4 := ReformatRatingsColumn(df);
    if d4.Err? {
      return Err(d4.error);
    }
    var t4 := df.Value();
    assert RatingsReformatted(t3) == Ok(t4);
    var d5 := ConvertDataTypes(df);
    if d5.Err? {
      return Err(d5.error);
    }
    ConvertedState(t4);
    r := Ok(df.Value());
  }

  method FinishFrame(t: Table, authors: seq<Author>) returns (r: Result<Table>)
    requires Admissible(t)
    ensures r == Finished(t, authors)
  {
    var t6 :- ReplaceAuthorsIdWithName(t, authors);
    var t7 := RenameColumns(t6);
    var t8 :- ReorderColumns(t7);
    var df := new DataFrame(t8);
    var d9 :- CleanTitles(df);
    r := SortDataframe(df.Value());
  }

  /** `process_raw_data` after the file and database reads. */
  method ProcessRawData(raw: Table, authors: seq<Author>) returns (r: Result<Table>)
    requires Admissible(raw)
    ensures r == Processed(raw, authors)
  {
    var t :- CleanRawFrame(raw);
    r := FinishFrame(t, authors);
  }

  // ---------------------------------------------------------------- what process_raw_data promises

  predicate WholeOrMissing(c: Cell) { c.Null? || c.Int? }

  predicate RealOrMissing(c: Cell) { c.Null? || c.Num? }

  /** A row as `convert_data_types` leaves it: a typed year, rating and count under their raw labels. */
  predicate ConvertedRow(r: Record) {
    && "Year released" in r && "Rating" in r
    && WholeOrMissing(Get(r, "Year released")) && RealOrMissing(Get(r, "Rating")) && WholeOrMissing(Get(r, "ratings"))
  }

  /** A row of the processed table: a whole or missing year and count, and a real or missing rating. */
  predicate ProcessedRow(r: Record) {
    WholeOrMissing(Get(r, "year")) && RealOrMissing(Get(r, "rating")) && WholeOrMissing(Get(r, "ratings"))
  }

  /** Every row `convert_data_types` returns carries the typed columns. */
  lemma TypesConvertedRows(t: Table)
    requires TypesConverted(t).Ok?
    ensures forall i :: 0 <= i < |TypesConverted(t).value.rows| ==> ConvertedRow(TypesConverted(t).value.rows[i])
  {
    var y := CastColumn(t, "Year released", CastYear).value;
    var f := CastColumn(y, "Rating", CastFloat).value;
    var u := CastColumn(f, "ratings", CastInt).value;
    forall i | 0 <= i < |u.rows|
      ensures ConvertedRow(u.rows[i])
    {
      TypesConvertedShape(t, i, "title");
      assert "Year released" in y.rows[i];
      assert "Rating" in f.rows[i];
    }
  }

  /** Every row of the frame before the merge carries the typed columns. */
  lemma CleanedRows(raw: Table)
    requires Cleaned(raw).Ok?
    ensures forall i :: 0 <= i < |Cleaned(raw).value.rows| ==> ConvertedRow(Cleaned(raw).value.rows[i])
  {
    var t0 := RemoveUnnecessaryColumns(raw, JunkColumns);
    var t1 := DropEmptyBookTitles(t0).value;
    var t2 := DropEmptyAuthors(t1).value;
    var t3 := RatingReformatted(t2).value;
    var t4 := RatingsReformatted(t3).value;
    assert Cleaned(raw) == TypesConverted(t4);
    TypesConvertedRows(t4);
  }

  /** The merge keeps the typed columns of a row. */
  lemma JoinedConverted(r: Record, name: Cell)
    requires ConvertedRow(r)
    ensures ConvertedRow(Joined(r, name))
  {
  }

  /** Every merged row carries the typed columns when every left row does. */
  lemma JoinedRowsConverted(t: Table, authors: seq<Author>)
    requires "name" !in t.columns && "author_name" !in t.columns
    requires ReplaceAuthorsIdWithName(t, authors).Ok?
    requires forall i :: 0 <= i < |t.rows| ==> ConvertedRow(t.rows[i])
    ensures forall j :: 0 <= j < |ReplaceAuthorsIdWithName(t, authors).value.rows| ==>
      ConvertedRow(ReplaceAuthorsIdWithName(t, authors).value.rows[j])
  {
    var out := ReplaceAuthorsIdWithName(t, authors).value.rows;
    assert out == JoinRows(t.rows, authors);
    forall j | 0 <= j < |out|
      ensures ConvertedRow(out[j])
    {
      JoinRowsFrom(t.rows, authors, j);
      var i, name :|
        && 0 <= i < |t.rows|
        && JoinRows(t.rows, authors)[j] == Joined(t.rows[i], name)
        && NameOfMatch(name, Matches(authors, Get(t.rows[i], "author_id")));
      JoinedConverted(t.rows[i], name);
    }
  }

  /** Renaming moves the typed year and rating to `year` and `rating`. */
  lemma RenamedProcessed(r: Record)
    requires ConvertedRow(r)
    ensures ProcessedRow(RenameRow(r))
  {
    var u := RenameRow(r);
    assert NewName("Year released") == "year" && "year" in NewKeys(r);
    assert NewName("Rating") == "rating" && "rating" in NewKeys(r);
    assert u["year"] == r["Year released"];
    assert u["rating"] == r["Rating"];
    assert "ratings" in u ==> OldName(r, "ratings") == "ratings" && u["ratings"] == r["ratings"];
  }

  /** Renaming gives every row a typed `year`, `rating` and `ratings`. */
  lemma RenamedRowsProcessed(t6: Table)
    requires RenameSafe(t6.columns)
    requires forall i :: 0 <= i < |t6.rows| ==> ConvertedRow(t6.rows[i])
    ensures forall i :: 0 <= i < |RenameColumns(t6).rows| ==> ProcessedRow(RenameColumns(t6).rows[i])
  {
    var t7 := RenameColumns(t6);
    assert t7.rows == MapSeq(t6.rows, RenameRow);
    forall i | 0 <= i < |t7.rows|
      ensures ProcessedRow(t7.rows[i])
    {
      RenamedProcessed(t6.rows[i]);
    }
  }

  /** Reordering keeps the typed `year`, `rating` and `ratings` of every row. */
  lemma ReorderedRowsProcessed(t7: Table)
    requires ReorderColumns(t7).Ok?
    requires forall i :: 0 <= i < |t7.rows| ==> ProcessedRow(t7.rows[i])
    ensures forall i :: 0 <= i < |ReorderColumns(t7).value.rows| ==> ProcessedRow(ReorderColumns(t7).value.rows[i])
  {
    assert "year" in Canonical && "rating" in Canonical && "ratings" in Canonical;
  }

  /** Cleaning the titles keeps the typed `year`, `rating` and `ratings` of every row. */
  lemma CleanedRowsProcessed(t8: Table)
    requires TitlesCleaned(t8).Ok?
    requires forall i :: 0 <= i < |t8.rows| ==> ProcessedRow(t8.rows[i])
    ensures forall i :: 0 <= i < |TitlesCleaned(t8).value.rows| ==> ProcessedRow(TitlesCleaned(t8).value.rows[i])
  {
  }

  /** The sort keeps the columns, orders the rows by rating and keeps their typed cells. */
  lemma SortedRowsProcessed(t9: Table)
    requires SortDataframe(t9).Ok?
    requires forall i :: 0 <= i < |t9.rows| ==> ProcessedRow(t9.rows[i])
    ensures SortDataframe(t9).value.columns == t9.columns
    ensures SortedDesc(SortDataframe(t9).value.rows, RatingKey)
    ensures forall i :: 0 <= i < |SortDataframe(t9).value.rows| ==> ProcessedRow(SortDataframe(t9).value.rows[i])
  {
    var out := SortDataframe(t9).value;
    forall j | 0 <= j < |out.rows|
      ensures ProcessedRow(out.rows[j])
    {
      assert out.rows[j] in multiset(t9.rows);
      var k :| 0 <= k < |t9.rows| && t9.rows[k] == out.rows[j];
    }
  }

  /** The steps from the merge on give the canonical columns, rows sorted by rating, and typed cells. */
  lemma FinishedShape(t: Table, authors: seq<Author>)
    requires Admissible(t) && Finished(t, authors).Ok?
    requires forall i :: 0 <= i < |t.rows| ==> ConvertedRow(t.rows[i])
    ensures Finished(t, authors).value.columns == Canonical
    ensures SortedDesc(Finished(t, authors).value.rows, RatingKey)
    ensures forall i :: 0 <= i < |Finished(t, authors).value.rows| ==> ProcessedRow(Finished(t, authors).value.rows[i])
  {
    var t6 := ReplaceAuthorsIdWithName(t, authors).value;
    var t7 := RenameColumns(t6);
    var t8 := ReorderColumns(t7).value;
    var t9 := TitlesCleaned(t8).value;
    assert Finished(t, authors) == SortDataframe(t9);
    JoinedRowsConverted(t, authors);
    RenamedRowsProcessed(t6);
    ReorderedRowsProcessed(t7);
    CleanedRowsProcessed(t8);
    SortedRowsProcessed(t9);
  }

  // ---------------------------------------------------------------- where each processed row comes from

  // Each stage of the chain is tied to the raw frame by a predicate on one row
  // and a raw row (`TitledFrom`, `KeptFrom`, `ReformattedFrom`, `CleanedFrom`),
  // and by its "some raw row" form (`SomeTitled`, ...), stated for every row of
  // the stage's frame.

  /** A row that passed the title filter keeps the raw row's cells; its title is filled. */
  predicate TitledFrom(c: Record, w: Record) {
    && Filled(Get(w, "book_title"))
    && Get(c, "book_title") == Get(w, "book_title") && Get(c, "author_id") == Get(w, "author_id")
    && Get(c, "Year released") == Get(w, "Year released")
    && Get(c, "Rating") == Get(w, "Rating") && Get(c, "ratings") == Get(w, "ratings")
  }

  /** A row that also passed the author filter: its author id is filled too. */
  predicate KeptFrom(c: Record, w: Record) {
    TitledFrom(c, w) && Filled(Get(w, "author_id"))
  }

  /** A row after both reformattings: its rating and count are parsed from the raw row's text. */
  predicate ReformattedFrom(c: Record, w: Record) {
    && Filled(Get(w, "book_title")) && Filled(Get(w, "author_id"))
    && Get(c, "book_title") == Get(w, "book_title") && Get(c, "author_id") == Get(w, "author_id")
    && Get(c, "Year released") == Get(w, "Year released")
    && Get(c, "Rating") == ParseRatingCell(Get(w, "Rating")) && Get(c, "ratings") == ParseCountCell(Get(w, "ratings"))
  }

  /** A row before the merge: every typed cell is the cast of the raw row's reformatted cell. */
  predicate CleanedFrom(c: Record, w: Record) {
    && Filled(Get(w, "book_title")) && Filled(Get(w, "author_id"))
    && Get(c, "book_title") == Get(w, "book_title") && Get(c, "author_id") == Get(w, "author_id")
    && Some(Get(c, "Year released")) == CastYear(Get(w, "Year released"))
    && Some(Get(c, "Rating")) == CastFloat(ParseRatingCell(Get(w, "Rating")))
    && Some(Get(c, "ratings")) == CastInt(ParseCountCell(Get(w, "ratings")))
  }

  predicate SomeTitled(c: Record, raw: Table) {
    exists w :: 0 <= w < |raw.rows| && TitledFrom(c, raw.rows[w])
  }

  predicate SomeKept(c: Record, raw: Table) {
    exists w :: 0 <= w < |raw.rows| && KeptFrom(c, raw.rows[w])
  }

  predicate SomeReformatted(c: Record, raw: Table) {
    exists w :: 0 <= w < |raw.rows| && ReformattedFrom(c, raw.rows[w])
  }

  predicate SomeCleaned(c: Record, raw: Table) {
    exists w :: 0 <= w < |raw.rows| && CleanedFrom(c, raw.rows[w])
  }

  /** Removing the junk columns keeps the cells a processed row is made of. */
  lemma DroppedRowKeeps(raw: Table, w: int)
    requires 0 <= w < |raw.rows|
    ensures var c := RemoveUnnecessaryColumns(raw, JunkColumns).rows[w];
      && Get(c, "book_title") == Get(raw.rows[w], "book_title") && Get(c, "author_id") == Get(raw.rows[w], "author_id")
      && Get(c, "Year released") == Get(raw.rows[w], "Year released")
      && Get(c, "Rating") == Get(raw.rows[w], "Rating") && Get(c, "ratings") == Get(raw.rows[w], "ratings")
  {
    assert forall k :: k in {"book_title", "author_id", "Year released", "Rating", "ratings"} ==> k !in JunkColumns;
  }

  /** Every row a filter keeps is a row of its input whose cell is filled. */
  lemma KeptRow(t: Table, name: string, u: Table, j: int)
    requires KeepFilled(t, name) == Ok(u) && 0 <= j < |u.rows|
    ensures exists m :: 0 <= m < |t.rows| && u.rows[j] == t.rows[m] && Filled(Get(t.rows[m], name))
  {
    assert u.rows[j] in t.rows;
  }

  /** Every row left by the junk-column removal and the title filter is a raw row's, with a title. */
  lemma TitledRows(raw: Table, t1: Table)
    requires DropEmptyBookTitles(RemoveUnnecessaryColumns(raw, JunkColumns)) == Ok(t1)
    ensures forall j :: 0 <= j < |t1.rows| ==> SomeTitled(t1.rows[j], raw)
  {
    var t0 := RemoveUnnecessaryColumns(raw, JunkColumns);
    forall j | 0 <= j < |t1.rows|
      ensures SomeTitled(t1.rows[j], raw)
    {
      KeptRow(t0, "book_title", t1, j);
      var w :| 0 <= w < |t0.rows| && t1.rows[j] == t0.rows[w] && Filled(Get(t0.rows[w], "book_title"));
      DroppedRowKeeps(raw, w);
      assert TitledFrom(t1.rows[j], raw.rows[w]);
    }
  }

  /** The author filter keeps rows with an author id, so each comes from a raw row with a title and an id. */
  lemma KeptRows(raw: Table, t1: Table, t2: Table)
    requires forall j :: 0 <= j < |t1.rows| ==> SomeTitled(t1.rows[j], raw)
    requires DropEmptyAuthors(t1) == Ok(t2)
    ensures forall j :: 0 <= j < |t2.rows| ==> SomeKept(t2.rows[j], raw)
  {
    forall j | 0 <= j < |t2.rows|
      ensures SomeKept(t2.rows[j], raw)
    {
      KeptRow(t1, "author_id", t2, j);
      var m :| 0 <= m < |t1.rows| && t2.rows[j] == t1.rows[m] && Filled(Get(t1.rows[m], "author_id"));
      assert SomeTitled(t1.rows[m], raw);
      var w :| 0 <= w < |raw.rows| && TitledFrom(t1.rows[m], raw.rows[w]);
      assert KeptFrom(t2.rows[j], raw.rows[w]);
    }
  }

  /** Parsing the rating and then the count of a kept row gives a reformatted row of the same raw row. */
  lemma ReformattedRow(c: Record, c4: Record, raw: Table)
    requires SomeKept(c, raw)
    requires Get(c4, "Rating") == ParseRatingCell(Get(c, "Rating")) && Get(c4, "ratings") == ParseCountCell(Get(c, "ratings"))
    requires forall k :: k in {"book_title", "author_id", "Year released"} ==> Get(c4, k) == Get(c, k)
    ensures SomeReformatted(c4, raw)
  {
    var w :| 0 <= w < |raw.rows| && KeptFrom(c, raw.rows[w]);
    assert ReformattedFrom(c4, raw.rows[w]);
  }

  /** The two reformattings parse the rating and the count of each row and change nothing else. */
  lemma ReformattedRows(raw: Table, t2: Table, t3: Table, t4: Table)
    requires RatingReformatted(t2) == Ok(t3) && RatingsReformatted(t3) == Ok(t4)
    requires forall j :: 0 <= j < |t2.rows| ==> SomeKept(t2.rows[j], raw)
    ensures forall j :: 0 <= j < |t4.rows| ==> SomeReformatted(t4.rows[j], raw)
  {
    forall j | 0 <= j < |t4.rows|
      ensures SomeReformatted(t4.rows[j], raw)
    {
      ReformatChangesOnlyColumn(t2, "Rating", ParseRatingCell, j, "ratings");
      ReformatChangesOnlyColumn(t3, "ratings", ParseCountCell, j, "Rating");
      ReformattedRow(t2.rows[j], t4.rows[j], raw);
    }
  }

  /** The conversion casts the reformatted cells of a row and changes nothing else. */
  lemma ConvertedRowFrom(t4: Table, j: int, raw: Table)
    requires TypesConverted(t4).Ok? && 0 <= j < |t4.rows|
    requires SomeReformatted(t4.rows[j], raw)
    ensures SomeCleaned(TypesConverted(t4).value.rows[j], raw)
  {
    TypesConvertedShape(t4, j, "book_title");
    TypesConvertedShape(t4, j, "author_id");
    var w :| 0 <= w < |raw.rows| && ReformattedFrom(t4.rows[j], raw.rows[w]);
    assert CleanedFrom(TypesConverted(t4).value.rows[j], raw.rows[w]);
  }

  /** The conversion casts the reformatted cells of each row and changes nothing else. */
  lemma ConvertedRowsFrom(raw: Table, t4: Table, t5: Table)
    requires TypesConverted(t4) == Ok(t5)
    requires forall j :: 0 <= j < |t4.rows| ==> SomeReformatted(t4.rows[j], raw)
    ensures forall j :: 0 <= j < |t5.rows| ==> SomeCleaned(t5.rows[j], raw)
  {
    var y := CastColumn(t4, "Year released", CastYear).value;
    var f := CastColumn(y, "Rating", CastFloat).value;
    assert |t5.rows| == |f.rows| == |y.rows| == |t4.rows|;
    forall j | 0 <= j < |t5.rows|
      ensures SomeCleaned(t5.rows[j], raw)
    {
      ConvertedRowFrom(t4, j, raw);
    }
  }

  /** Every row of the frame before the merge comes from a raw row with a title and an author id. */
  lemma CleanedRowsFrom(raw: Table)
    requires Cleaned(raw).Ok?
    ensures forall j :: 0 <= j < |Cleaned(raw).value.rows| ==> SomeCleaned(Cleaned(raw).value.rows[j], raw)
  {
    var t0 := RemoveUnnecessaryColumns(raw, JunkColumns);
    var t1 := DropEmptyBookTitles(t0).value;
    var t2 := DropEmptyAuthors(t1).value;
    var t3 := RatingReformatted(t2).value;
    var t4 := RatingsReformatted(t3).value;
    assert Cleaned(raw) == TypesConverted(t4);
    TitledRows(raw, t1);
    KeptRows(raw, t1, t2);
    ReformattedRows(raw, t2, t3, t4);
    ConvertedRowsFrom(raw, t4, Cleaned(raw).value);
  }

  /** A row after the merge: the left row's cells, and a name found by its key. */
  predicate JoinedFrom(m: Record, c: Record, authors: seq<Author>) {
    && "book_title" in m && "Year released" in m && "Rating" in m
    && Get(m, "book_title") == Get(c, "book_title")
    && Get(m, "Year released") == Get(c, "Year released")
    && Get(m, "Rating") == Get(c, "Rating") && Get(m, "ratings") == Get(c, "ratings")
    && NameOfMatch(Get(m, "author_name"), Matches(authors, Get(c, "author_id")))
  }

  /** A row after the renaming and the reordering: the left row's cells under their new labels. */
  predicate RenamedFrom(o: Record, c: Record, authors: seq<Author>) {
    && Get(o, "title") == Get(c, "book_title")
    && Get(o, "year") == Get(c, "Year released")
    && Get(o, "rating") == Get(c, "Rating") && Get(o, "ratings") == Get(c, "ratings")
    && NameOfMatch(Get(o, "author_name"), Matches(authors, Get(c, "author_id")))
  }

  /** A row of the finished table: as after the renaming, with its title cleaned. */
  predicate FinishedFrom(o: Record, c: Record, authors: seq<Author>) {
    && Get(o, "title") == CleanCell(Get(c, "book_title"))
    && Get(o, "year") == Get(c, "Year released")
    && Get(o, "rating") == Get(c, "Rating") && Get(o, "ratings") == Get(c, "ratings")
    && NameOfMatch(Get(o, "author_name"), Matches(authors, Get(c, "author_id")))
  }

  predicate SomeJoined(m: Record, t: Table, authors: seq<Author>) {
    exists i :: 0 <= i < |t.rows| && JoinedFrom(m, t.rows[i], authors)
  }

  predicate SomeRenamed(o: Record, t: Table, authors: seq<Author>) {
    exists i :: 0 <= i < |t.rows| && RenamedFrom(o, t.rows[i], authors)
  }

  predicate SomeFinished(o: Record, t: Table, authors: seq<Author>) {
    exists i :: 0 <= i < |t.rows| && FinishedFrom(o, t.rows[i], authors)
  }

  /** A row with a title, a year and a rating label, as the frame before the merge has. */
  predicate Labelled(r: Record) {
    "book_title" in r && "Year released" in r && "Rating" in r
  }

  /** A merged row keeps the left row's title, year, rating and count, and carries the name it was given. */
  lemma JoinedRowTraced(r: Record, name: Cell, authors: seq<Author>)
    requires Labelled(r) && NameOfMatch(name, Matches(authors, Get(r, "author_id")))
    ensures JoinedFrom(Joined(r, name), r, authors)
  {
    assert Get(Joined(r, name), "author_name") == name;
  }

  /** Every merged row is a left row's cells with the name its key finds. */
  lemma JoinedRowsTraced(t: Table, authors: seq<Author>, t6: Table)
    requires "name" !in t.columns && "author_name" !in t.columns
    requires ReplaceAuthorsIdWithName(t, authors) == Ok(t6)
    requires forall i :: 0 <= i < |t.rows| ==> Labelled(t.rows[i])
    ensures forall j :: 0 <= j < |t6.rows| ==> SomeJoined(t6.rows[j], t, authors)
  {
    assert t6.rows == JoinRows(t.rows, authors);
    forall j | 0 <= j < |t6.rows|
      ensures SomeJoined(t6.rows[j], t, authors)
    {
      JoinRowsFrom(t.rows, authors, j);
      var i, name :|
        && 0 <= i < |t.rows|
        && JoinRows(t.rows, authors)[j] == Joined(t.rows[i], name)
        && NameOfMatch(name, Matches(authors, Get(t.rows[i], "author_id")));
      JoinedRowTraced(t.rows[i], name, authors);
    }
  }

  /** Renaming a labelled row shows its title, year and rating under the new labels and keeps the rest. */
  lemma RenamedRowCells(m: Record)
    requires "book_title" in m && "Year released" in m && "Rating" in m
    ensures Get(RenameRow(m), "title") == Get(m, "book_title")
    ensures Get(RenameRow(m), "year") == Get(m, "Year released")
    ensures Get(RenameRow(m), "rating") == Get(m, "Rating")
    ensures Get(RenameRow(m), "ratings") == Get(m, "ratings")
    ensures Get(RenameRow(m), "author_name") == Get(m, "author_name")
  {
    var u := RenameRow(m);
    assert NewName("book_title") == "title" && "title" in NewKeys(m);
    assert NewName("Year released") == "year" && "year" in NewKeys(m);
    assert NewName("Rating") == "rating" && "rating" in NewKeys(m);
    assert "ratings" in u <==> "ratings" in m by {
      if "ratings" in u { var k :| k in m && NewName(k) == "ratings"; }
      if "ratings" in m { assert NewName("ratings") == "ratings"; }
    }
    assert "author_name" in u <==> "author_name" in m by {
      if "author_name" in u { var k :| k in m && NewName(k) == "author_name"; }
      if "author_name" in m { assert NewName("author_name") == "author_name"; }
    }
  }

  /** Renaming a merged row keeps its cells, under the new labels. */
  lemma RenamedRowTraced(m: Record, t: Table, authors: seq<Author>)
    requires SomeJoined(m, t, authors)
    ensures SomeRenamed(RenameRow(m), t, authors)
  {
    var i :| 0 <= i < |t.rows| && JoinedFrom(m, t.rows[i], authors);
    RenamedRowCells(m);
    assert RenamedFrom(RenameRow(m), t.rows[i], authors);
  }

  /** The renaming keeps every merged row's cells, under the new labels. */
  lemma RenamedRowsTraced(t: Table, t6: Table, authors: seq<Author>, t7: Table)
    requires RenameSafe(t6.columns) && RenameColumns(t6) == t7
    requires forall j :: 0 <= j < |t6.rows| ==> SomeJoined(t6.rows[j], t, authors)
    ensures forall j :: 0 <= j < |t7.rows| ==> SomeRenamed(t7.rows[j], t, authors)
  {
    assert t7.rows == MapSeq(t6.rows, RenameRow);
    forall j | 0 <= j < |t7.rows|
      ensures SomeRenamed(t7.rows[j], t, authors)
    {
      RenamedRowTraced(t6.rows[j], t, authors);
    }
  }

  /** A row that shows the same cells under the preferred labels comes from the same left row. */
  lemma ReorderedRowTraced(o7: Record, o8: Record, t: Table, authors: seq<Author>)
    requires SomeRenamed(o7, t, authors)
    requires forall c :: c in Canonical ==> Get(o8, c) == Get(o7, c)
    ensures SomeRenamed(o8, t, authors)
  {
    assert "title" in Canonical && "author_name" in Canonical && "year" in Canonical;
    assert "rating" in Canonical && "ratings" in Canonical;
    var i :| 0 <= i < |t.rows| && RenamedFrom(o7, t.rows[i], authors);
    assert RenamedFrom(o8, t.rows[i], authors);
  }

  /** Reordering keeps the cells of every row under the preferred labels. */
  lemma ReorderedRowsTraced(t: Table, t7: Table, authors: seq<Author>, t8: Table)
    requires ReorderColumns(t7) == Ok(t8)
    requires forall j :: 0 <= j < |t7.rows| ==> SomeRenamed(t7.rows[j], t, authors)
    ensures forall j :: 0 <= j < |t8.rows| ==> SomeRenamed(t8.rows[j], t, authors)
  {
    forall j | 0 <= j < |t8.rows|
      ensures SomeRenamed(t8.rows[j], t, authors)
    {
      ReorderedRowTraced(t7.rows[j], t8.rows[j], t, authors);
    }
  }

  /** A row whose title is cleaned and whose other cells are kept comes from the same left row. */
  lemma CleanedTitleTraced(o8: Record, o9: Record, t: Table, authors: seq<Author>)
    requires SomeRenamed(o8, t, authors)
    requires Get(o9, "title") == CleanCell(Get(o8, "title"))
    requires forall k :: k in {"author_name", "year", "rating", "ratings"} ==> Get(o9, k) == Get(o8, k)
    ensures SomeFinished(o9, t, authors)
  {
    var i :| 0 <= i < |t.rows| && RenamedFrom(o8, t.rows[i], authors);
    assert FinishedFrom(o9, t.rows[i], authors);
  }

  /** Cleaning the titles gives every row the cleaned title of its left row. */
  lemma CleanedTitlesTraced(t: Table, t8: Table, authors: seq<Author>, t9: Table)
    requires TitlesCleaned(t8) == Ok(t9)
    requires forall j :: 0 <= j < |t8.rows| ==> SomeRenamed(t8.rows[j], t, authors)
    ensures forall j :: 0 <= j < |t9.rows| ==> SomeFinished(t9.rows[j], t, authors)
  {
    forall j | 0 <= j < |t9.rows|
      ensures SomeFinished(t9.rows[j], t, authors)
    {
      CleanedTitleTraced(t8.rows[j], t9.rows[j], t, authors);
    }
  }

  /** The sort only reorders the rows. */
  lemma SortedRowsTraced(t: Table, t9: Table, authors: seq<Author>, out: Table)
    requires SortDataframe(t9) == Ok(out)
    requires forall j :: 0 <= j < |t9.rows| ==> SomeFinished(t9.rows[j], t, authors)
    ensures forall j :: 0 <= j < |out.rows| ==> SomeFinished(out.rows[j], t, authors)
  {
    forall j | 0 <= j < |out.rows|
      ensures SomeFinished(out.rows[j], t, authors)
    {
      assert out.rows[j] in multiset(t9.rows);
      var k :| 0 <= k < |t9.rows| && t9.rows[k] == out.rows[j];
    }
  }

  /** Every row after the merge and the steps after it comes from a left row, as `FinishedFrom` says. */
  lemma FinishedTraced(t: Table, authors: seq<Author>, out: Table)
    requires Admissible(t) && Finished(t, authors) == Ok(out)
    requires forall i :: 0 <= i < |t.rows| ==> Labelled(t.rows[i])
    ensures forall j :: 0 <= j < |out.rows| ==> SomeFinished(out.rows[j], t, authors)
  {
    var t6 := ReplaceAuthorsIdWithName(t, authors).value;
    var t7 := RenameColumns(t6);
    var t8 := ReorderColumns(t7).value;
    var t9 := TitlesCleaned(t8).value;
    assert SortDataframe(t9) == Ok(out);
    JoinedRowsTraced(t, authors, t6);
    RenamedRowsTraced(t, t6, authors, t7);
    ReorderedRowsTraced(t, t7, authors, t8);
    CleanedTitlesTraced(t, t8, authors, t9);
    SortedRowsTraced(t, t9, authors, out);
  }

  /**
   * What a processed row holds of the raw row it comes from: the raw row has a
   * title and an author id; the row's title is the raw title cleaned, its
   * author is named by a lookup row whose id equals the raw id (missing exactly
   * when none does), and its year, rating and count are the raw cells parsed and
   * cast as the cleaning steps do.
   */
  predicate FromRaw(o: Record, w: Record, authors: seq<Author>) {
    && Filled(Get(w, "book_title")) && Filled(Get(w, "author_id"))
    && Get(o, "title") == CleanCell(Get(w, "book_title"))
    && NameOfMatch(Get(o, "author_name"), Matches(authors, Get(w, "author_id")))
    && Some(Get(o, "year")) == CastYear(Get(w, "Year released"))
    && Some(Get(o, "rating")) == CastFloat(ParseRatingCell(Get(w, "Rating")))
    && Some(Get(o, "ratings")) == CastInt(ParseCountCell(Get(w, "ratings")))
  }

  /** Some raw row is the one `o` comes from. */
  predicate FromSomeRaw(o: Record, raw: Table, authors: seq<Author>) {
    exists w :: 0 <= w < |raw.rows| && FromRaw(o, raw.rows[w], authors)
  }

  /** A finished row traced to a cleaned row, which is traced to a raw row, is traced to that raw row. */
  lemma ComposeRowTrace(raw: Table, t: Table, o: Record, authors: seq<Author>)
    requires forall i :: 0 <= i < |t.rows| ==> SomeCleaned(t.rows[i], raw)
    requires SomeFinished(o, t, authors)
    ensures FromSomeRaw(o, raw, authors)
  {
    var i :| 0 <= i < |t.rows| && FinishedFrom(o, t.rows[i], authors);
    assert SomeCleaned(t.rows[i], raw);
    var w :| 0 <= w < |raw.rows| && CleanedFrom(t.rows[i], raw.rows[w]);
    assert FromRaw(o, raw.rows[w], authors);
  }

  /** Every row of the frame before the merge has its title, year and rating labels. */
  lemma CleanedLabelled(raw: Table)
    requires Cleaned(raw).Ok?
    ensures forall i :: 0 <= i < |Cleaned(raw).value.rows| ==> Labelled(Cleaned(raw).value.rows[i])
  {
    var t := Cleaned(raw).value;
    CleanedRows(raw);
    CleanedRowsFrom(raw);
    forall i | 0 <= i < |t.rows|
      ensures Labelled(t.rows[i])
    {
      assert SomeCleaned(t.rows[i], raw);
      assert ConvertedRow(t.rows[i]);
    }
  }

  /** The finished rows of a frame whose rows come from raw rows come from those raw rows. */
  lemma FinishedFromRaw(raw: Table, t: Table, authors: seq<Author>, out: Table)
    requires Admissible(t) && Finished(t, authors) == Ok(out)
    requires forall i :: 0 <= i < |t.rows| ==> Labelled(t.rows[i])
    requires forall i :: 0 <= i < |t.rows| ==> SomeCleaned(t.rows[i], raw)
    ensures forall j :: 0 <= j < |out.rows| ==> FromSomeRaw(out.rows[j], raw, authors)
  {
    FinishedTraced(t, authors, out);
    forall j | 0 <= j < |out.rows|
      ensures FromSomeRaw(out.rows[j], raw, authors)
    {
      ComposeRowTrace(raw, t, out.rows[j], authors);
    }
  }

  /** Every row `process_raw_data` returns comes from a raw row, as `FromRaw` says. */
  lemma ProcessedTrace(raw: Table, authors: seq<Author>, out: Table)
    requires Admissible(raw) && Processed(raw, authors) == Ok(out)
    ensures forall j :: 0 <= j < |out.rows| ==> FromSomeRaw(out.rows[j], raw, authors)
  {
    var t := Cleaned(raw).value;
    CleanedRowsFrom(raw);
    CleanedLabelled(raw);
    assert Admissible(t);
    assert Finished(t, authors) == Ok(out);
    FinishedFromRaw(raw, t, authors, out);
  }

  /** A title cleaned from a one-line text title is text with no parenthesised span left. */
  lemma CleanCellSpans(c: Cell)
    requires c.Text? && '\n' !in c.s
    ensures CleanCell(c).Text? && !HasSpan(CleanCell(c).s)
  {
    StripRemovesSpans(c.s);
  }

  /**
   * What `process_raw_data` returns, for every raw frame and lookup: exactly the
   * columns title, author_name, year, rating, ratings in that order; rows in
   * non-increasing rating with missing ratings last; whole or missing years and
   * counts; real or missing ratings; every row made of a raw row with a title
   * and an author id, as `FromRaw` says; and no parenthesised span left in a
   * title cleaned from a one-line raw title.
   */
  lemma ProcessedShape(raw: Table, authors: seq<Author>)
    requires Admissible(raw) && Processed(raw, authors).Ok?
    ensures Processed(raw, authors).value.columns == Canonical
    ensures SortedDesc(Processed(raw, authors).value.rows, RatingKey)
    ensures forall i :: 0 <= i < |Processed(raw, authors).value.rows| ==> ProcessedRow(Processed(raw, authors).value.rows[i])
    ensures forall i :: 0 <= i < |Processed(raw, authors).value.rows| ==> FromSomeRaw(Processed(raw, authors).value.rows[i], raw, authors)
    ensures forall i, w ::
      (0 <= i < |Processed(raw, authors).value.rows| && 0 <= w < |raw.rows| &&
       FromRaw(Processed(raw, authors).value.rows[i], raw.rows[w], authors) && OneLineTitle(raw.rows[w]))
      ==> TitleWithoutSpan(Processed(raw, authors).value.rows[i])
  {
    var t := Cleaned(raw).value;
    var out := Processed(raw, authors).value;
    CleanedRows(raw);
    assert Admissible(t);
    assert Processed(raw, authors) == Finished(t, authors);
    FinishedShape(t, authors);
    ProcessedTrace(raw, authors, out);
    forall i, w | 0 <= i < |out.rows| && 0 <= w < |raw.rows| && FromRaw(out.rows[i], raw.rows[w], authors) && OneLineTitle(raw.rows[w])
      ensures TitleWithoutSpan(out.rows[i])
    {
      CleanCellSpans(Get(raw.rows[w], "book_title"));
    }
  }

  /** The raw title is text on one line. */
  predicate OneLineTitle(w: Record) {
    Get(w, "book_title").Text? && '\n' !in Get(w, "book_title").s
  }

  /** The title is text in which no '(' is followed by a ')'. */
  predicate TitleWithoutSpan(o: Record) {
    Get(o, "title").Text? && !HasSpan(Get(o, "title").s)
  }

}
