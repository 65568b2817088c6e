/**
 * The table work of `analyse_processed_data.py`: the decade column it adds in
 * place, and the three aggregations it charts (books per decade, ratings per
 * author with the ten largest totals, books per year).
 */
module Analysis {
  import opened Basics
  import opened Sorting
  import opened Tally
  import opened Frames

  // ---------------------------------------------------------------- add_decade_column

  /** A whole number divisible by ten. */
  predicate MultipleOfTen(r: real) {
    r == r.Floor as real && r.Floor % 10 == 0
  }

  lemma FloorDecadeInt(y: int)
    ensures ((y / 10) * 10) % 10 == 0
    ensures (y / 10) * 10 <= y < (y / 10) * 10 + 10
  {
  }

  lemma FloorDecadeReal(y: real)
    ensures MultipleOfTen(((y / 10.0).Floor * 10) as real)
    ensures ((y / 10.0).Floor * 10) as real <= y < ((y / 10.0).Floor * 10) as real + 10.0
  {
    var q := (y / 10.0).Floor;
    assert q as real <= y / 10.0 < q as real + 1.0;
    assert (q * 10) as real == q as real * 10.0;
    assert y / 10.0 * 10.0 == y;
    assert ((q * 10) as real).Floor == q * 10;
  }

  /** `(year // 10) * 10` on one cell: floor division, so negative years floor too. */
  function DecadeCell(c: Cell): (d: Cell)
    requires !c.Text?
    ensures c.Null? ==> d.Null?
    ensures c.Int? ==> d.Int? && d.i % 10 == 0 && d.i <= c.i < d.i + 10
    ensures c.Num? ==> d.Num? && MultipleOfTen(d.r) && d.r <= c.r < d.r + 10.0
  {
    match c
    case Int(y) => FloorDecadeInt(y); Int((y / 10) * 10)
    case Num(y) => FloorDecadeReal(y); Num(((y / 10.0).Floor * 10) as real)
    case Null => Null
  }

  predicate TextIn(t: Table, name: string) {
    exists i :: 0 <= i < |t.rows| && Get(t.rows[i], name).Text?
  }

  function DecadeRow(r: Record): Record
    requires !Get(r, "year").Text?
  {
    r["decade" := DecadeCell(Get(r, "year"))]
  }

  /**
   * The frame after `df['decade'] = (df['year'] // 10) * 10`: a KeyError without
   * 'year', a TypeError when a year is text, and otherwise a 'decade' column,
   * last when it is new and in its old place when it was there already.
   */
  function DecadeAdded(t: Table): (r: Result<Table>)
    ensures r.Err? <==> "year" !in t.columns || TextIn(t, "year")
    ensures r.Ok? ==> r.value.columns == if "decade" in t.columns then t.columns else t.columns + ["decade"]
    ensures r.Ok? ==> |r.value.rows| == |t.rows|
    ensures r.Ok? ==> forall i, k :: 0 <= i < |t.rows| && k != "decade" ==> Get(r.value.rows[i], k) == Get(t.rows[i], k)
    ensures r.Ok? ==> forall i :: 0 <= i < |t.rows| ==> r.value.rows[i].Keys == t.rows[i].Keys + {"decade"}
    ensures r.Ok? && WellFormed(t) ==> WellFormed(r.value)
  {
    if "year" !in t.columns then Err(MissingColumn("year"))
    else if TextIn(t, "year") then Err(TextInNumbers("year"))
    else
      var cols := if "decade" in t.columns then t.columns else t.columns + ["decade"];
      var rows := seq(|t.rows|, i requires 0 <= i < |t.rows| => DecadeRow(t.rows[i]));
      assert ColumnSet(cols) == ColumnSet(t.columns) + {"decade"};
      Ok(Table(cols, rows))
  }

  /** Every decade is the year rounded down to a multiple of ten, and a missing year gives a missing decade. */
  lemma DecadeOfYear(t: Table, i: int)
    requires DecadeAdded(t).Ok? && 0 <= i < |t.rows|
    ensures var y := Get(t.rows[i], "year");
      var d := Get(DecadeAdded(t).value.rows[i], "decade");
      && (y.Null? ==> d.Null?)
      && (y.Int? ==> d.Int? && d.i % 10 == 0 && d.i <= y.i < d.i + 10)
      && (y.Num? ==> d.Num? && d.r <= y.r < d.r + 10.0)
  {
  }

  /** Method form of `add_decade_column`, assigning the column of `df` in place. */
  method AddDecadeColumn(df: DataFrame) returns (r: Result<DataFrame>)
    modifies df
    ensures DecadeAdded(old(df.Value())).Ok? ==> r == Ok(df) && df.Value() == DecadeAdded(old(df.Value())).value
    ensures DecadeAdded(old(df.Value())).Err? ==> r == Err(DecadeAdded(old(df.Value())).error) && df.Value() == old(df.Value())
  {
    var u := DecadeAdded(df.Value());
    if u.Err? {
      return Err(u.error);
    }
    df.columns := u.value.columns;
    df.rows := u.value.rows;
    return Ok(df);
  }

  // ---------------------------------------------------------------- groupby(...).size()

  /** The number a key cell stands for; missing and text cells have none. */
  function KeyValue(c: Cell): Option<real> {
    match c
    case Int(i) => Some(i as real)
    case Num(v) => Some(v)
    case _ => None
  }

  /** Reference definition: the non-missing keys of the column, in row order. */
  function KeysIn(rows: seq<Record>, name: string): seq<real> {
    if rows == [] then []
    else
      var rest := KeysIn(rows[1..], name);
      match KeyValue(Get(rows[0], name))
      case Some(k) => [k] + rest
      case None => rest
  }

  /** Reference definition: the number of rows whose key is `k`. */
  function RowsWith(rows: seq<Record>, name: string, k: real): nat {
    if rows == [] then 0
    else (if KeyValue(Get(rows[0], name)) == Some(k) then 1 else 0) + RowsWith(rows[1..], name, k)
  }

  /** Reference definition: the number of rows with a key. */
  function RowsKeyed(rows: seq<Record>, name: string): nat {
    if rows == [] then 0
    else (if KeyValue(Get(rows[0], name)).Some? then 1 else 0) + RowsKeyed(rows[1..], name)
  }

  lemma {:induction false} KeysInCount(rows: seq<Record>, name: string, k: real)
    ensures multiset(KeysIn(rows, name))[k] == RowsWith(rows, name, k)
    ensures |KeysIn(rows, name)| == RowsKeyed(rows, name)
  {
    if rows != [] {
      KeysInCount(rows[1..], name, k);
    }
  }

  /** Smaller keys first. */
  function AscendingKey(e: Entry<real>): Option<real> {
    Some(-e.key)
  }

  predicate Ascending(g: seq<Entry<real>>) {
    forall i, j :: 0 <= i < j < |g| ==> g[i].key < g[j].key
  }

  /**
   * `df.groupby(name).size().reset_index(name='count')`: a KeyError without the
   * column, and otherwise one row per distinct key, smallest key first; missing
   * keys are left out. Keys are numbers here: a column holding text, which
   * pandas would group as well, is reported as an error instead.
   */
  function SizeBy(t: Table, name: string): (r: Result<seq<Entry<real>>>)
    ensures r.Err? <==> name !in t.columns || TextIn(t, name)
    ensures r.Ok? ==> multiset(r.value) == multiset(Group(Ones(KeysIn(t.rows, name))))
    ensures r.Ok? ==> SortedDesc(r.value, AscendingKey)
  {
    if name !in t.columns then Err(MissingColumn(name))
    else if TextIn(t, name) then Err(TextInNumbers(name))
    else Ok(SortDesc(Group(Ones(KeysIn(t.rows, name))), AscendingKey))
  }

  lemma SizeOfGroup(keys: seq<real>, i: int)
    requires 0 <= i < |Group(Ones(keys))|
    ensures Group(Ones(keys))[i].total == multiset(keys)[Group(Ones(keys))[i].key]
    ensures Group(Ones(keys))[i].key in keys
  {
    var g := Group(Ones(keys));
    GroupCorrect(Ones(keys));
    LookupAt(g, i);
    OnesWeight(keys, g[i].key);
    assert KeysOf(g)[i] == g[i].key;
  }

  lemma SizeCounts(t: Table, name: string)
    requires SizeBy(t, name).Ok?
    ensures forall i :: 0 <= i < |SizeBy(t, name).value| ==>
      && SizeBy(t, name).value[i].total == RowsWith(t.rows, name, SizeBy(t, name).value[i].key)
      && SizeBy(t, name).value[i].total > 0
  {
    var keys := KeysIn(t.rows, name);
    var g := Group(Ones(keys));
    var r := SizeBy(t, name).value;
    forall i | 0 <= i < |r|
      ensures r[i].total == RowsWith(t.rows, name, r[i].key) && r[i].total > 0
    {
      assert r[i] in multiset(g);
      var j :| 0 <= j < |g| && g[j] == r[i];
      SizeOfGroup(keys, j);
      KeysInCount(t.rows, name, r[i].key);
    }
  }

  lemma SizeKeys(t: Table, name: string)
    requires SizeBy(t, name).Ok?
    ensures forall k :: k in KeysOf(SizeBy(t, name).value) <==> k in KeysIn(t.rows, name)
  {
    var keys := KeysIn(t.rows, name);
    var g := Group(Ones(keys));
    var r := SizeBy(t, name).value;
    GroupCorrect(Ones(keys));
    PermutedKeys(r, g);
  }

  /**
   * The size table is right: one row per distinct key that occurs, smallest
   * first; each count is the number of rows with that key and is positive; the
   * counts add up to the number of rows that have a key.
   */
  lemma SizeByCorrect(t: Table, name: string)
    requires SizeBy(t, name).Ok?
    ensures Ascending(SizeBy(t, name).value)
    ensures forall k :: k in KeysOf(SizeBy(t, name).value) <==> k in KeysIn(t.rows, name)
    ensures forall i :: 0 <= i < |SizeBy(t, name).value| ==>
      && SizeBy(t, name).value[i].total == RowsWith(t.rows, name, SizeBy(t, name).value[i].key)
      && SizeBy(t, name).value[i].total > 0
    ensures SumBy(SizeBy(t, name).value, TotalOf) == RowsKeyed(t.rows, name)
  {
    var keys := KeysIn(t.rows, name);
    var g := Group(Ones(keys));
    var r := SizeBy(t, name).value;
    GroupCorrect(Ones(keys));
    OnesSum(keys);
    KeysInCount(t.rows, name, 0.0);
    DistinctByPermutation(g, r, KeyOf);
    SumByPermutation(g, r, TotalOf);
    SizeKeys(t, name);
    SizeCounts(t, name);
    forall i, j | 0 <= i < j < |r|
      ensures r[i].key < r[j].key
    {
      assert Precedes(AscendingKey(r[i]), AscendingKey(r[j]));
      assert KeyOf(r[i]) != KeyOf(r[j]);
    }
  }

  /** The pie chart's table: books per decade (analyse_processed_data.py:15). */
  function DecadeCounts(df: Table): Result<seq<Entry<real>>> {
    SizeBy(df, "decade")
  }

  /** The line chart's table: books per year, over the frame passed in (analyse_processed_data.py:51). */
  function YearlyCounts(df: Table): Result<seq<Entry<real>>> {
    SizeBy(df, "year")
  }

  lemma {:induction false} KeysFromRows(rows: seq<Record>, name: string, k: real)
    requires k in KeysIn(rows, name)
    ensures exists i :: 0 <= i < |rows| && KeyValue(Get(rows[i], name)) == Some(k)
  {
    if KeyValue(Get(rows[0], name)) != Some(k) {
      KeysFromRows(rows[1..], name, k);
      var i :| 0 <= i < |rows[1..]| && KeyValue(Get(rows[1..][i], name)) == Some(k);
      assert rows[1..][i] == rows[i + 1];
    }
  }

  lemma {:induction false} RowsKeyedAlike(a: seq<Record>, na: string, b: seq<Record>, nb: string)
    requires |a| == |b|
    requires forall i :: 0 <= i < |a| ==> KeyValue(Get(a[i], na)).Some? == KeyValue(Get(b[i], nb)).Some?
    ensures RowsKeyed(a, na) == RowsKeyed(b, nb)
  {
    if a != [] {
      assert forall i :: 0 <= i < |a[1..]| ==> a[1..][i] == a[i + 1] && b[1..][i] == b[i + 1];
      RowsKeyedAlike(a[1..], na, b[1..], nb);
    }
  }

  /**
   * The decade table after `add_decade_column`: every decade shown is a
   * multiple of ten, every count is positive, and the counts add up to the
   * number of books that have a year.
   */
  lemma DecadeCountsCorrect(df: Table)
    requires DecadeAdded(df).Ok?
    ensures DecadeCounts(DecadeAdded(df).value).Ok?
    ensures forall i :: 0 <= i < |DecadeCounts(DecadeAdded(df).value).value| ==>
      && MultipleOfTen(DecadeCounts(DecadeAdded(df).value).value[i].key)
      && DecadeCounts(DecadeAdded(df).value).value[i].total > 0
    ensures SumBy(DecadeCounts(DecadeAdded(df).value).value, TotalOf) == RowsKeyed(df.rows, "year")
  {
    var u := DecadeAdded(df).value;
    assert "decade" in u.columns;
    forall i | 0 <= i < |u.rows|
      ensures !Get(u.rows[i], "decade").Text?
      ensures KeyValue(Get(u.rows[i], "decade")).Some? == KeyValue(Get(df.rows[i], "year")).Some?
      ensures KeyValue(Get(u.rows[i], "decade")).Some? ==> MultipleOfTen(KeyValue(Get(u.rows[i], "decade")).value)
    {
      DecadeOfYear(df, i);
      var d := Get(u.rows[i], "decade");
      if d.Int? {
        assert (d.i as real).Floor == d.i;
      }
    }
    assert !TextIn(u, "decade");
    SizeByCorrect(u, "decade");
    RowsKeyedAlike(u.rows, "decade", df.rows, "year");
    var r := DecadeCounts(u).value;
    forall i | 0 <= i < |r|
      ensures MultipleOfTen(r[i].key)
    {
      assert KeysOf(r)[i] == r[i].key;
      KeysFromRows(u.rows, "decade", r[i].key);
    }
  }

  /**
   * The yearly table: one row per year that occurs, earliest first, each with
   * the number of books of that year.
   */
  lemma YearlyCountsCorrect(df: Table)
    requires "year" in df.columns && !TextIn(df, "year")
    ensures YearlyCounts(df).Ok?
    ensures Ascending(YearlyCounts(df).value)
    ensures forall y :: y in KeysOf(YearlyCounts(df).value) <==> RowsWith(df.rows, "year", y) > 0
    ensures forall i :: 0 <= i < |YearlyCounts(df).value| ==>
      YearlyCounts(df).value[i].total == RowsWith(df.rows, "year", YearlyCounts(df).value[i].key)
  {
    SizeByCorrect(df, "year");
    forall y
      ensures y in KeysIn(df.rows, "year") <==> RowsWith(df.rows, "year", y) > 0
    {
      KeysInCount(df.rows, "year", y);
    }
  }

  // ---------------------------------------------------------------- groupby('author_name')['ratings'].sum()

  /** The whole number a ratings cell adds to its author's total; a missing count adds nothing. */
  function RatingsWeight(c: Cell): Option<int> {
    match c
    case Int(i) => Some(i)
    case Num(v) => if v == v.Floor as real then Some(v.Floor) else None
    case Null => Some(0)
    case Text(_) => None
  }

  /** Reference definition: the sum of the ratings of the rows by author `a`. */
  function RatingsOf(rows: seq<Record>, a: string): int
    requires forall i :: 0 <= i < |rows| ==> RatingsWeight(Get(rows[i], "ratings")).Some?
  {
    if rows == [] then 0
    else
      var here := if Get(rows[0], "author_name") == Text(a) then RatingsWeight(Get(rows[0], "ratings")).value else 0;
      here + RatingsOf(rows[1..], a)
  }

  /** The (author, ratings) pairs the group-by sums, for the rows that have an author. */
  function AuthorItems(rows: seq<Record>): (items: seq<(string, int)>)
    requires forall i :: 0 <= i < |rows| ==> RatingsWeight(Get(rows[i], "ratings")).Some?
    ensures forall a :: WeightOf(items, a) == RatingsOf(rows, a)
    ensures forall a :: a in ItemKeys(items) <==> exists i :: 0 <= i < |rows| && Get(rows[i], "author_name") == Text(a)
    decreases |rows|
  {
    if rows == [] then []
    else
      var n := |rows| - 1;
      var init := AuthorItems(rows[..n]);
      var c := Get(rows[n], "author_name");
      var items := if c.Text? then init + [(c.s, RatingsWeight(Get(rows[n], "ratings")).value)] else init;
      AuthorItemsStep(rows, init, items);
      items
  }

  lemma {:induction false} RatingsOfSnoc(rows: seq<Record>, a: string)
    requires rows != []
    requires forall i :: 0 <= i < |rows| ==> RatingsWeight(Get(rows[i], "ratings")).Some?
    ensures RatingsOf(rows, a) == RatingsOf(rows[..|rows| - 1], a)
      + (if Get(rows[|rows| - 1], "author_name") == Text(a) then RatingsWeight(Get(rows[|rows| - 1], "ratings")).value else 0)
  {
    if |rows| > 1 {
      assert rows[1..][..|rows[1..]| - 1] == rows[..|rows| - 1][1..];
      RatingsOfSnoc(rows[1..], a);
    }
  }

  lemma AuthorWeightStep(rows: seq<Record>, init: seq<(string, int)>, items: seq<(string, int)>, a: string)
    requires rows != []
    requires forall i :: 0 <= i < |rows| ==> RatingsWeight(Get(rows[i], "ratings")).Some?
    requires WeightOf(init, a) == RatingsOf(rows[..|rows| - 1], a)
    requires var c := Get(rows[|rows| - 1], "author_name");
      items == if c.Text? then init + [(c.s, RatingsWeight(Get(rows[|rows| - 1], "ratings")).value)] else init
    ensures WeightOf(items, a) == RatingsOf(rows, a)
  {
    RatingsOfSnoc(rows, a);
    var c := Get(rows[|rows| - 1], "author_name");
    if c.Text? {
      assert items[..|items| - 1] == init;
    }
  }

  lemma AuthorKeysStep(rows: seq<Record>, init: seq<(string, int)>, items: seq<(string, int)>)
    requires rows != []
    requires forall a :: a in ItemKeys(init) <==> exists i :: 0 <= i < |rows| - 1 && Get(rows[i], "author_name") == Text(a)
    requires var c := Get(rows[|rows| - 1], "author_name");
      items == if c.Text? then init + [(c.s, 0)] else init
    ensures forall a :: a in ItemKeys(items) <==> exists i :: 0 <= i < |rows| && Get(rows[i], "author_name") == Text(a)
  {
    var n := |rows| - 1;
    var c := Get(rows[n], "author_name");
    if c.Text? {
      assert ItemKeys(items) == ItemKeys(init) + [c.s];
    }
    forall a
      ensures a in ItemKeys(items) <==> exists i :: 0 <= i < |rows| && Get(rows[i], "author_name") == Text(a)
    {
      if exists i :: 0 <= i < |rows| && Get(rows[i], "author_name") == Text(a) {
        var i :| 0 <= i < |rows| && Get(rows[i], "author_name") == Text(a);
        if i < n {
          assert a in ItemKeys(init);
        }
      }
    }
  }

  lemma SameKeys(a: seq<(string, int)>, b: seq<(string, int)>)
    requires |a| == |b| && forall i :: 0 <= i < |a| ==> a[i].0 == b[i].0
    ensures ItemKeys(a) == ItemKeys(b)
  {
  }

  lemma AuthorItemsStep(rows: seq<Record>, init: seq<(string, int)>, items: seq<(string, int)>)
    requires rows != []
    requires forall i :: 0 <= i < |rows| ==> RatingsWeight(Get(rows[i], "ratings")).Some?
    requires forall a :: WeightOf(init, a) == RatingsOf(rows[..|rows| - 1], a)
    requires forall a :: a in ItemKeys(init) <==> exists i :: 0 <= i < |rows| - 1 && Get(rows[i], "author_name") == Text(a)
    requires var c := Get(rows[|rows| - 1], "author_name");
      items == if c.Text? then init + [(c.s, RatingsWeight(Get(rows[|rows| - 1], "ratings")).value)] else init
    ensures forall a :: WeightOf(items, a) == RatingsOf(rows, a)
    ensures forall a :: a in ItemKeys(items) <==> exists i :: 0 <= i < |rows| && Get(rows[i], "author_name") == Text(a)
  {
    AuthorWeightsStep(rows, init, items);
    AuthorNamesStep(rows, init, items, RatingsWeight(Get(rows[|rows| - 1], "ratings")).value);
  }

  lemma AuthorWeightsStep(rows: seq<Record>, init: seq<(string, int)>, items: seq<(string, int)>)
    requires rows != []
    requires forall i :: 0 <= i < |rows| ==> RatingsWeight(Get(rows[i], "ratings")).Some?
    requires forall a :: WeightOf(init, a) == RatingsOf(rows[..|rows| - 1], a)
    requires var c := Get(rows[|rows| - 1], "author_name");
      items == if c.Text? then init + [(c.s, RatingsWeight(Get(rows[|rows| - 1], "ratings")).value)] else init
    ensures forall a :: WeightOf(items, a) == RatingsOf(rows, a)
  {
    forall a
      ensures WeightOf(items, a) == RatingsOf(rows, a)
    {
      AuthorWeightStep(rows, init, items, a);
    }
  }

  lemma AuthorNamesStep(rows: seq<Record>, init: seq<(string, int)>, items: seq<(string, int)>, w: int)
    requires rows != []
    requires forall a :: a in ItemKeys(init) <==> exists i :: 0 <= i < |rows| - 1 && Get(rows[i], "author_name") == Text(a)
    requires var c := Get(rows[|rows| - 1], "author_name");
      items == if c.Text? then init + [(c.s, w)] else init
    ensures forall a :: a in ItemKeys(items) <==> exists i :: 0 <= i < |rows| && Get(rows[i], "author_name") == Text(a)
  {
    var c := Get(rows[|rows| - 1], "author_name");
    var shape := if c.Text? then init + [(c.s, 0)] else init;
    AuthorKeysStep(rows, init, shape);
    SameKeys(items, shape);
  }

  /** The author names can be grouped: each is text or missing. */
  predicate AuthorsText(t: Table) {
    forall i :: 0 <= i < |t.rows| ==> Get(t.rows[i], "author_name").Text? || Get(t.rows[i], "author_name").Null?
  }

  predicate RatingsWhole(t: Table) {
    forall i :: 0 <= i < |t.rows| ==> RatingsWeight(Get(t.rows[i], "ratings")).Some?
  }

  /**
   * `df.groupby('author_name')['ratings'].sum().reset_index()`: one row per
   * author with a name, holding the sum of that author's ratings counts.
   */
  function AuthorRatings(t: Table): (r: Result<seq<Entry<string>>>)
    ensures r.Err? <==> "author_name" !in t.columns || "ratings" !in t.columns || !AuthorsText(t) || !RatingsWhole(t)
    ensures r.Ok? ==> DistinctBy(r.value, KeyOf)
    ensures r.Ok? ==> forall a :: a in KeysOf(r.value) <==> exists i :: 0 <= i < |t.rows| && Get(t.rows[i], "author_name") == Text(a)
    ensures r.Ok? ==> forall i :: 0 <= i < |r.value| ==> r.value[i].total == RatingsOf(t.rows, r.value[i].key)
  {
    if "author_name" !in t.columns then Err(MissingColumn("author_name"))
    else if "ratings" !in t.columns then Err(MissingColumn("ratings"))
    else if !AuthorsText(t) then Err(NotText("author_name"))
    else if !RatingsWhole(t) then
      if exists i :: 0 <= i < |t.rows| && Get(t.rows[i], "ratings").Text? then Err(TextInNumbers("ratings"))
      else Err(NotWhole("ratings"))
    else
      var items := AuthorItems(t.rows);
      var g := Group(items);
      GroupCorrect(items);
      assert forall i :: 0 <= i < |g| ==> g[i].total == RatingsOf(t.rows, g[i].key) by {
        forall i | 0 <= i < |g|
          ensures g[i].total == RatingsOf(t.rows, g[i].key)
        {
          LookupAt(g, i);
        }
      }
      Ok(g)
  }

  // ---------------------------------------------------------------- nlargest

  function TotalKey(e: Entry<string>): Option<real> {
    Some(e.total as real)
  }

  /** Splitting a sorted sequence: what stays in front is at least what goes behind. */
  lemma SortedSplit(s: seq<Entry<string>>, m: int)
    requires SortedDesc(s, TotalKey) && 0 <= m <= |s|
    ensures multiset(s) - multiset(s[..m]) == multiset(s[m..])
    ensures forall e :: e in multiset(s[m..]) ==> forall i :: 0 <= i < m ==> e.total <= s[i].total
  {
    assert s == s[..m] + s[m..];
    assert multiset(s) == multiset(s[..m]) + multiset(s[m..]);
    forall e | e in multiset(s[m..])
      ensures forall i :: 0 <= i < m ==> e.total <= s[i].total
    {
      var j :| 0 <= j < |s[m..]| && s[m..][j] == e;
      assert s[m + j] == e;
      forall i | 0 <= i < m
        ensures e.total <= s[i].total
      {
        assert Precedes(TotalKey(s[i]), TotalKey(s[m + j]));
      }
    }
  }

  lemma PrefixSorted(s: seq<Entry<string>>, m: int)
    requires SortedDesc(s, TotalKey) && 0 <= m <= |s|
    ensures SortedDesc(s[..m], TotalKey)
  {
    assert forall i :: 0 <= i < m ==> s[..m][i] == s[i];
  }

  /** `nlargest(n, 'ratings')`: the n rows with the largest totals, largest first. */
  function NLargest(n: nat, es: seq<Entry<string>>): (r: seq<Entry<string>>)
    ensures |r| == if n <= |es| then n else |es|
    ensures SortedDesc(r, TotalKey)
    ensures multiset(r) <= multiset(es)
    ensures forall e :: e in multiset(es) - multiset(r) ==> forall i :: 0 <= i < |r| ==> e.total <= r[i].total
  {
    var s := SortDesc(es, TotalKey);
    var m := if n <= |es| then n else |es|;
    SortedSplit(s, m);
    PrefixSorted(s, m);
    s[..m]
  }

  /** The number of authors the bar chart shows. */
  const TopAuthorCount: nat := 10

  /** The bar chart's table: the ten authors with the most ratings. */
  function TopAuthors(df: Table): (r: Result<seq<Entry<string>>>)
    ensures r.Err? <==> AuthorRatings(df).Err?
    ensures r.Ok? ==> |r.value| <= TopAuthorCount && SortedDesc(r.value, TotalKey)
    ensures r.Ok? ==> multiset(r.value) <= multiset(AuthorRatings(df).value)
  {
    var totals :- AuthorRatings(df);
    Ok(NLargest(TopAuthorCount, totals))
  }

  /**
   * Each author shown carries the sum of that author's ratings, and no author
   * left out has more than any author shown.
   */
  lemma TopAuthorsCorrect(df: Table)
    requires TopAuthors(df).Ok?
    ensures var top := TopAuthors(df).value;
      && (forall i :: 0 <= i < |top| ==> RatingsWhole(df) && top[i].total == RatingsOf(df.rows, top[i].key))
      && forall e :: e in multiset(AuthorRatings(df).value) - multiset(top) ==>
           forall i :: 0 <= i < |top| ==> e.total <= top[i].total
  {
    var totals := AuthorRatings(df).value;
    var top := TopAuthors(df).value;
    assert top == NLargest(TopAuthorCount, totals);
    assert forall i :: 0 <= i < |top| ==> top[i] in multiset(totals);
  }
}
