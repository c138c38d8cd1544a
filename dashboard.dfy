/**
 * The interactive games dashboard page: the option lists offered by the
 * sidebar, the filter stages applied to the cleaned table, the sort by the
 * chosen column and the two top-10 selections. The widget values are the
 * fields of a Filters record.
 */
module GamesDashboard {
  import opened Wrappers
  import opened Strings
  import opened PyLiteral
  import opened SteamData

  // ---------------------------------------------------------------------
  // Option lists
  // ---------------------------------------------------------------------

  /**
   * The values one `genres_list` cell contributes when the column is
   * exploded: a list gives its items (none at all for `[]`, whose NaN is
   * dropped) and a string stays a single value.
   */
  function GenreValues(v: PyValue): seq<string> {
    match v
    case PyList(items) => items
    case PyStr(s) => [s]
    case PyInt(_) => []
  }

  /** The exploded genre column, NaN rows dropped. */
  function ExplodedGenres(games: seq<Game>): (r: seq<string>)
    ensures forall x :: x in r <==> exists g :: g in games && x in GenreValues(g.genresList)
  {
    if games == [] then []
    else
      var rest := ExplodedGenres(games[1..]);
      assert forall g :: g in games[1..] ==> g in games;
      assert forall g :: g in games ==> g == games[0] || g in games[1..];
      GenreValues(games[0].genresList) + rest
  }

  /** The genre options: every distinct genre in the data, sorted. */
  function AllGenres(games: seq<Game>): (r: seq<string>)
    ensures StrictlySorted(r)
    ensures forall x :: x in r <==> exists g :: g in games && x in GenreValues(g.genresList)
  {
    SortedDistinct(ExplodedGenres(games))
  }

  /** The `game_type` column. */
  function GameTypeColumn(games: seq<Game>): (r: seq<string>)
    ensures |r| == |games|
    ensures forall i :: 0 <= i < |games| ==> r[i] == Label(games[i].gameType)
  {
    if games == [] then [] else [Label(games[0].gameType)] + GameTypeColumn(games[1..])
  }

  /** The game-type options: every distinct label in the data, sorted. */
  function AllGameTypes(games: seq<Game>): (r: seq<string>)
    ensures StrictlySorted(r)
    ensures forall x :: x in r <==> exists g :: g in games && Label(g.gameType) == x
  {
    var column := GameTypeColumn(games);
    assert forall g :: g in games ==> Label(g.gameType) in column by {
      forall g | g in games ensures Label(g.gameType) in column {
        var i :| 0 <= i < |games| && games[i] == g;
        assert column[i] == Label(g.gameType);
      }
    }
    SortedDistinct(column)
  }

  // ---------------------------------------------------------------------
  // Filter stages
  // ---------------------------------------------------------------------

  /** The rows of `s` that satisfy `p`, in their original order (a boolean mask). */
  function Filter<T(==,!new)>(s: seq<T>, p: T -> bool): (r: seq<T>)
    ensures forall x :: multiset(r)[x] == if p(x) then multiset(s)[x] else 0
    ensures |r| <= |s|
  {
    if s == [] then []
    else
      assert s == [s[0]] + s[1..];
      var rest := Filter(s[1..], p);
      if p(s[0]) then [s[0]] + rest else rest
  }

  /** Masking twice keeps what a single mask with both conditions keeps. */
  lemma {:induction false} FilterTwice<T(!new)>(s: seq<T>, p: T -> bool, q: T -> bool, both: T -> bool)
    requires forall x :: both(x) == (p(x) && q(x))
    ensures Filter(Filter(s, p), q) == Filter(s, both)
  {
    if s != [] {
      FilterTwice(s[1..], p, q, both);
    }
  }

  /** A mask every row passes keeps the table as it is. */
  lemma {:induction false} FilterAll<T(!new)>(s: seq<T>, p: T -> bool)
    requires forall x :: x in s ==> p(x)
    ensures Filter(s, p) == s
  {
    if s != [] {
      assert forall x :: x in s[1..] ==> x in s;
      FilterAll(s[1..], p);
    }
  }

  /** The sidebar values. The price, score and review bounds are the sliders' integers. */
  datatype Filters = Filters(
    priceLo: int,
    priceHi: int,
    scoreLo: int,
    scoreHi: int,
    minReviews: int,
    gameTypes: seq<string>,
    genres: seq<string>,
    sortBy: string,
    sortOrder: string)

  /** The price, Metacritic and review-count mask. */
  predicate InRanges(f: Filters, g: Game) {
    && f.priceLo as real <= g.price <= f.priceHi as real
    && f.scoreLo as real <= g.metacriticScore <= f.scoreHi as real
    && g.numReviewsTotal >= f.minReviews as real
  }

  /** The `isin` test on `game_type`. */
  predicate TypeChosen(f: Filters, g: Game) {
    Label(g.gameType) in f.gameTypes
  }

  /**
   * Python's `x in genres` for one cleaned `genres_list` value: membership
   * for a list, substring for a string. An integer has no `in`; see
   * NumericGenre.
   */
  predicate HasGenre(v: PyValue, x: string) {
    match v
    case PyList(items) => x in items
    case PyStr(s) => IsSubstring(x, s)
    case PyInt(_) => false
  }

  /** The `any(g in genres for g in selected_genres)` test. */
  predicate GenreChosen(f: Filters, g: Game) {
    exists x :: x in f.genres && HasGenre(g.genresList, x)
  }

  /** A value on which `x in genres` raises a TypeError. */
  predicate NumericGenre(g: Game) {
    g.genresList.PyInt?
  }

  /** A row that survives every active stage; an empty selection disables its stage. */
  predicate Selected(f: Filters, g: Game) {
    && InRanges(f, g)
    && (|f.gameTypes| > 0 ==> TypeChosen(f, g))
    && (|f.genres| > 0 ==> GenreChosen(f, g))
  }

  /** A row that survives the range and game-type stages, and so reaches the genre stage. */
  predicate ReachesGenreStage(f: Filters, g: Game) {
    InRanges(f, g) && (|f.gameTypes| > 0 ==> TypeChosen(f, g))
  }

  /** The price, Metacritic and review-count mask applied to the table. */
  function RangeMask(rows: seq<Game>, f: Filters): (r: seq<Game>)
    ensures forall g :: multiset(r)[g] == if InRanges(f, g) then multiset(rows)[g] else 0
  {
    Filter(rows, g => InRanges(f, g))
  }

  /** The `game_type` mask applied to the table. */
  function TypeMask(rows: seq<Game>, f: Filters): (r: seq<Game>)
    ensures forall g :: multiset(r)[g] == if TypeChosen(f, g) then multiset(rows)[g] else 0
  {
    Filter(rows, g => TypeChosen(f, g))
  }

  /** The genre mask applied to a table in which no row holds an integer genre value. */
  function GenreMask(rows: seq<Game>, f: Filters): (r: seq<Game>)
    ensures forall g :: multiset(r)[g] == if GenreChosen(f, g) then multiset(rows)[g] else 0
  {
    Filter(rows, g => GenreChosen(f, g))
  }

  /**
   * The genre stage fails: it is active and a row that reaches it holds an
   * integer genre value.
   */
  predicate GenreStageFails(games: seq<Game>, f: Filters) {
    |f.genres| > 0 && exists g :: g in games && ReachesGenreStage(f, g) && NumericGenre(g)
  }

  /** Whether some row of `rows` holds an integer genre value. */
  function AnyNumericGenre(rows: seq<Game>): (b: bool)
    ensures b <==> exists g :: g in rows && NumericGenre(g)
  {
    exists i :: 0 <= i < |rows| && NumericGenre(rows[i])
  }

  // ---------------------------------------------------------------------
  // Sorting
  // ---------------------------------------------------------------------

  /** The sortable columns. */
  datatype SortColumn = PositiveReviewPct | MetacriticScore | OwnersLowerBound | Price | NumReviewsTotal

  /** The column name the table uses for each sortable column. */
  function ColumnName(c: SortColumn): string {
    match c
    case PositiveReviewPct => "Positive Review %"
    case MetacriticScore => "metacritic_score"
    case OwnersLowerBound => "owners_lower_bound"
    case Price => "price"
    case NumReviewsTotal => "num_reviews_total"
  }

  /** Looks a column up by name; only the five sortable names are known. */
  function ColumnNamed(name: string): (c: Option<SortColumn>)
    ensures c.Some? ==> ColumnName(c.value) == name
  {
    if name == "Positive Review %" then Some(PositiveReviewPct)
    else if name == "metacritic_score" then Some(MetacriticScore)
    else if name == "owners_lower_bound" then Some(OwnersLowerBound)
    else if name == "price" then Some(Price)
    else if name == "num_reviews_total" then Some(NumReviewsTotal)
    else None
  }

  /** Every sortable column is found again under its own name. */
  lemma ColumnNamedOfName(c: SortColumn)
    ensures ColumnNamed(ColumnName(c)) == Some(c)
  {
  }

  /** The sort-by labels shown in the sidebar and the column each one sorts by. */
  const SortByOptions: map<string, string> := map[
    "Positive Review %" := "Positive Review %",
    "Metacritic Score" := "metacritic_score",
    "Estimated Owners (Lower)" := "owners_lower_bound",
    "Price" := "price",
    "Number of Reviews" := "num_reviews_total"]

  /** The column a sort-by choice selects. */
  function SortColumnOf(choice: string): (c: SortColumn)
    requires choice in SortByOptions
    ensures ColumnName(c) == SortByOptions[choice]
  {
    ColumnNamed(SortByOptions[choice]).value
  }

  /** Every sortable column is offered under some label. */
  lemma SortByOptionsCoverColumns(c: SortColumn)
    ensures exists choice :: choice in SortByOptions && SortColumnOf(choice) == c
  {
    match c
    case PositiveReviewPct => assert SortColumnOf("Positive Review %") == c;
    case MetacriticScore => assert SortColumnOf("Metacritic Score") == c;
    case OwnersLowerBound => assert SortColumnOf("Estimated Owners (Lower)") == c;
    case Price => assert SortColumnOf("Price") == c;
    case NumReviewsTotal => assert SortColumnOf("Number of Reviews") == c;
  }

  /** The value a row holds in a sortable column. */
  function KeyOf(g: Game, c: SortColumn): real {
    match c
    case PositiveReviewPct => g.positiveReviewPct
    case MetacriticScore => g.metacriticScore
    case OwnersLowerBound => g.ownersLowerBound as real
    case Price => g.price
    case NumReviewsTotal => g.numReviewsTotal
  }

  predicate InOrder(a: real, b: real, ascending: bool) {
    if ascending then a <= b else a >= b
  }

  /** Non-decreasing in column `c` when ascending, non-increasing otherwise. */
  predicate Ordered(s: seq<Game>, c: SortColumn, ascending: bool) {
    forall i, j :: 0 <= i < j < |s| ==> InOrder(KeyOf(s[i], c), KeyOf(s[j], c), ascending)
  }

  /** The first row of an ordered sequence may precede every row of it. */
  lemma OrderedHead(s: seq<Game>, c: SortColumn, ascending: bool)
    requires Ordered(s, c, ascending) && s != []
    ensures forall y :: y in s ==> InOrder(KeyOf(s[0], c), KeyOf(y, c), ascending)
  {
    forall y | y in s ensures InOrder(KeyOf(s[0], c), KeyOf(y, c), ascending) {
      var j :| 0 <= j < |s| && s[j] == y;
    }
  }

  /** A row that may precede every row of an ordered sequence can go in front of it. */
  lemma OrderedCons(x: Game, s: seq<Game>, c: SortColumn, ascending: bool)
    requires Ordered(s, c, ascending)
    requires forall y :: y in s ==> InOrder(KeyOf(x, c), KeyOf(y, c), ascending)
    ensures Ordered([x] + s, c, ascending)
  {
    var r := [x] + s;
    forall i, j | 0 <= i < j < |r| ensures InOrder(KeyOf(r[i], c), KeyOf(r[j], c), ascending) {
      assert r[j] == s[j - 1];
      if i > 0 {
        assert r[i] == s[i - 1];
      }
    }
  }

  /** The rows of an ordered sequence from `lo` to `hi` are ordered too. */
  lemma OrderedSlice(t: seq<Game>, lo: nat, hi: nat, c: SortColumn, ascending: bool)
    requires Ordered(t, c, ascending) && lo <= hi <= |t|
    ensures Ordered(t[lo..hi], c, ascending)
  {
    var u := t[lo..hi];
    forall i, j | 0 <= i < j < |u| ensures InOrder(KeyOf(u[i], c), KeyOf(u[j], c), ascending) {
      assert u[i] == t[lo + i] && u[j] == t[lo + j];
    }
  }

  /** Past the first row, an ordered sequence is ordered and its first row may precede every remaining one. */
  lemma OrderedTail(s: seq<Game>, c: SortColumn, ascending: bool)
    requires Ordered(s, c, ascending) && s != []
    ensures Ordered(s[1..], c, ascending)
    ensures forall y :: y in s[1..] ==> InOrder(KeyOf(s[0], c), KeyOf(y, c), ascending)
  {
    var t := s[1..];
    assert Ordered(t, c, ascending) by {
      OrderedSlice(s, 1, |s|, c, ascending);
      assert s[1..|s|] == t;
    }
    forall y | y in t ensures InOrder(KeyOf(s[0], c), KeyOf(y, c), ascending) {
      var j :| 0 <= j < |t| && t[j] == y;
      assert s[j + 1] == y;
    }
  }

  /** A row that may precede `x` and every row of `s` may precede every row of `s` with `x` added. */
  lemma PrecedesAdded(z: Game, x: Game, s: seq<Game>, r: seq<Game>, c: SortColumn, ascending: bool)
    requires multiset(r) == multiset(s) + multiset{x}
    requires InOrder(KeyOf(z, c), KeyOf(x, c), ascending)
    requires forall y :: y in s ==> InOrder(KeyOf(z, c), KeyOf(y, c), ascending)
    ensures forall y :: y in r ==> InOrder(KeyOf(z, c), KeyOf(y, c), ascending)
  {
    forall y | y in r ensures InOrder(KeyOf(z, c), KeyOf(y, c), ascending) {
      assert y in multiset(r);
    }
  }

  /** The step of Insert that keeps the first row in front of the insertion into the rest. */
  lemma InsertBehind(x: Game, s: seq<Game>, rest: seq<Game>, c: SortColumn, ascending: bool)
    requires Ordered(s, c, ascending) && s != []
    requires !InOrder(KeyOf(x, c), KeyOf(s[0], c), ascending)
    requires Ordered(rest, c, ascending) && multiset(rest) == multiset(s[1..]) + multiset{x}
    ensures Ordered([s[0]] + rest, c, ascending)
    ensures multiset([s[0]] + rest) == multiset(s) + multiset{x}
  {
    var h, t := s[0], s[1..];
    OrderedTail(s, c, ascending);
    assert Ordered([h] + rest, c, ascending) by {
      PrecedesAdded(h, x, t, rest, c, ascending);
      OrderedCons(h, rest, c, ascending);
    }
    assert s == [h] + t;
  }

  /** Inserts `x` in front of the first row it may precede. */
  function Insert(x: Game, s: seq<Game>, c: SortColumn, ascending: bool): (r: seq<Game>)
    requires Ordered(s, c, ascending)
    ensures Ordered(r, c, ascending)
    ensures multiset(r) == multiset(s) + multiset{x}
  {
    if s == [] then [x]
    else if InOrder(KeyOf(x, c), KeyOf(s[0], c), ascending) then
      assert Ordered([x] + s, c, ascending) by {
        OrderedHead(s, c, ascending);
        OrderedCons(x, s, c, ascending);
      }
      [x] + s
    else
      OrderedTail(s, c, ascending);
      var rest := Insert(x, s[1..], c, ascending);
      InsertBehind(x, s, rest, c, ascending);
      [s[0]] + rest
  }

  /** `sort_values` on one column: ordered, and the same rows with the same multiplicities. */
  function SortBy(s: seq<Game>, c: SortColumn, ascending: bool): (r: seq<Game>)
    ensures Ordered(r, c, ascending)
    ensures multiset(r) == multiset(s)
    ensures |r| == |s|
  {
    if s == [] then []
    else
      assert s == [s[0]] + s[1..];
      Insert(s[0], SortBy(s[1..], c, ascending), c, ascending)
  }

  // ---------------------------------------------------------------------
  // The page's selection
  // ---------------------------------------------------------------------

  /** Rows kept with the multiplicities of Selected are input rows that satisfy every active stage. */
  lemma KeptRows(games: seq<Game>, f: Filters, rows: seq<Game>)
    requires forall g :: multiset(rows)[g] == if Selected(f, g) then multiset(games)[g] else 0
    ensures forall g :: g in rows ==> g in games && Selected(f, g)
  {
    forall g | g in rows ensures g in games && Selected(f, g) {
      assert multiset(rows)[g] > 0;
    }
  }

  /**
   * What the filter stages hand to the sort: the rows kept; the TypeError the
   * genre test raises on an integer genre value; or the table without columns
   * that indexing with the genre test's result selects when that test runs on
   * no rows (`apply` on an empty column gives an empty mask of no boolean
   * type, which pandas reads as a list of column labels).
   */
  datatype Filtered = Kept(rows: seq<Game>) | GenreTypeError | NoColumns

  /** The genre stage is active and no row reaches it. */
  predicate GenreStageEmpty(games: seq<Game>, f: Filters) {
    |f.genres| > 0 && forall g :: g in games ==> !ReachesGenreStage(f, g)
  }

  /** `rows` holds the rows of `games` that reach the genre stage, with their multiplicities. */
  ghost predicate Reached(games: seq<Game>, f: Filters, rows: seq<Game>) {
    forall g :: multiset(rows)[g] == if ReachesGenreStage(f, g) then multiset(games)[g] else 0
  }

  /** The genre stage meets no row exactly when the table reaching it is empty. */
  lemma EmptyAtGenreStage(games: seq<Game>, f: Filters, rows: seq<Game>)
    requires |f.genres| > 0 && Reached(games, f, rows)
    ensures GenreStageEmpty(games, f) <==> rows == []
  {
    if rows == [] {
      forall g | g in games ensures !ReachesGenreStage(f, g) {
        assert multiset(games)[g] > 0 && multiset(rows)[g] == 0;
      }
    } else {
      var w := rows[0];
      assert multiset(rows)[w] > 0;
      assert w in games && ReachesGenreStage(f, w);
    }
  }

  /** The genre stage raises exactly when the table reaching it holds an integer genre value. */
  lemma FailsAtGenreStage(games: seq<Game>, f: Filters, rows: seq<Game>)
    requires |f.genres| > 0 && Reached(games, f, rows)
    ensures GenreStageFails(games, f) <==> AnyNumericGenre(rows)
  {
    if AnyNumericGenre(rows) {
      var bad :| bad in rows && NumericGenre(bad);
      assert multiset(rows)[bad] > 0;
    } else {
      forall g | g in games && ReachesGenreStage(f, g) ensures !NumericGenre(g) {
        assert multiset(rows)[g] > 0;
      }
    }
  }

  /**
   * The filtering section of the page: the range mask, then the game-type
   * mask and the genre mask when their selections are non-empty.
   */
  method ApplyFilters(games: seq<Game>, f: Filters) returns (result: Filtered)
    ensures result.GenreTypeError? <==> GenreStageFails(games, f)
    ensures result.NoColumns? <==> GenreStageEmpty(games, f)
    ensures result.Kept? ==>
      forall g :: multiset(result.rows)[g] == if Selected(f, g) then multiset(games)[g] else 0
  {
    var filtered := RangeMask(games, f);
    if |f.gameTypes| > 0 {
      ghost var inRanges := filtered;
      filtered := TypeMask(filtered, f);
      assert Reached(games, f, filtered) by {
        forall g ensures multiset(filtered)[g] == if ReachesGenreStage(f, g) then multiset(games)[g] else 0 {
          assert multiset(filtered)[g] == if TypeChosen(f, g) then multiset(inRanges)[g] else 0;
          assert multiset(inRanges)[g] == if InRanges(f, g) then multiset(games)[g] else 0;
        }
      }
    }
    assert Reached(games, f, filtered);
    if |f.genres| == 0 {
      return Kept(filtered);
    }
    EmptyAtGenreStage(games, f, filtered);
    FailsAtGenreStage(games, f, filtered);
    if filtered == [] {
      return NoColumns;
    }
    if AnyNumericGenre(filtered) {
      return GenreTypeError;
    }
    ghost var reached := filtered;
    filtered := GenreMask(filtered, f);
    assert forall g :: multiset(filtered)[g] == if Selected(f, g) then multiset(games)[g] else 0 by {
      forall g ensures multiset(filtered)[g] == if Selected(f, g) then multiset(games)[g] else 0 {
        assert multiset(filtered)[g] == if GenreChosen(f, g) then multiset(reached)[g] else 0;
        assert multiset(reached)[g] == if ReachesGenreStage(f, g) then multiset(games)[g] else 0;
      }
    }
    return Kept(filtered);
  }

  /**
   * The table the page shows: the filtered rows sorted by the column mapped
   * from the sort-by label, ascending exactly when the order is `Ascending`.
   */
  method SelectGames(games: seq<Game>, f: Filters) returns (result: Option<seq<Game>>)
    requires f.sortBy in SortByOptions
    ensures result.None? <==> GenreStageFails(games, f) || GenreStageEmpty(games, f)
    ensures result.Some? ==>
      forall g :: multiset(result.value)[g] == if Selected(f, g) then multiset(games)[g] else 0
    ensures result.Some? ==> forall g :: g in result.value ==> g in games && InRanges(f, g)
    ensures result.Some? && |f.gameTypes| > 0 ==> forall g :: g in result.value ==> TypeChosen(f, g)
    ensures result.Some? && |f.genres| > 0 ==> forall g :: g in result.value ==> GenreChosen(f, g)
    ensures result.Some? ==> Ordered(result.value, SortColumnOf(f.sortBy), f.sortOrder == "Ascending")
  {
    var filtered := ApplyFilters(games, f);
    if !filtered.Kept? {
      return None;
    }
    var column := SortColumnOf(f.sortBy);
    var ascending := f.sortOrder == "Ascending";
    var sorted := SortBy(filtered.rows, column, ascending);
    KeptRows(games, f, sorted);
    return Some(sorted);
  }

  // ---------------------------------------------------------------------
  // Top 10
  // ---------------------------------------------------------------------

  /** What taking the first `k` rows leaves out is the rest of the sequence. */
  lemma LeftOut(t: seq<Game>, k: nat)
    requires k <= |t|
    ensures multiset(t) - multiset(t[..k]) == multiset(t[k..])
  {
    assert t == t[..k] + t[k..];
  }

  /** In descending order, no row after position `k` has a larger key than a row before it. */
  lemma BackBelowFront(t: seq<Game>, k: nat, c: SortColumn)
    requires Ordered(t, c, false) && k <= |t|
    ensures forall x, y :: x in t[k..] && y in t[..k] ==> KeyOf(x, c) <= KeyOf(y, c)
  {
    forall x, y | x in t[k..] && y in t[..k] ensures KeyOf(x, c) <= KeyOf(y, c) {
      var i :| k <= i < |t| && t[i] == x by {
        var i' :| 0 <= i' < |t[k..]| && t[k..][i'] == x;
        assert t[k + i'] == x;
      }
      var j :| 0 <= j < k && t[j] == y by {
        var j' :| 0 <= j' < |t[..k]| && t[..k][j'] == y;
        assert t[j'] == y;
      }
      assert InOrder(KeyOf(t[j], c), KeyOf(t[i], c), false);
    }
  }

  /** The first `k` rows of a sequence in descending order: ordered, and no later row has a larger key. */
  lemma TakeLargest(t: seq<Game>, k: nat, c: SortColumn)
    requires Ordered(t, c, false) && k <= |t|
    ensures multiset(t[..k]) <= multiset(t)
    ensures Ordered(t[..k], c, false)
    ensures forall x, y :: x in multiset(t) - multiset(t[..k]) && y in t[..k] ==> KeyOf(x, c) <= KeyOf(y, c)
  {
    assert multiset(t[..k]) <= multiset(t) by {
      assert t == t[..k] + t[k..];
    }
    assert Ordered(t[..k], c, false) by {
      OrderedSlice(t, 0, k, c, false);
      assert t[0..k] == t[..k];
    }
    LeftOut(t, k);
    BackBelowFront(t, k, c);
  }

  /**
   * `nlargest(n, column)`: the first `n` rows once sorted by the column in
   * descending order.
   */
  function NLargest(rows: seq<Game>, n: nat, c: SortColumn): (r: seq<Game>)
    ensures |r| == if n <= |rows| then n else |rows|
    ensures multiset(r) <= multiset(rows)
    ensures Ordered(r, c, false)
    ensures forall x, y :: x in multiset(rows) - multiset(r) && y in r ==> KeyOf(x, c) <= KeyOf(y, c)
  {
    var t := SortBy(rows, c, false);
    var k := if n <= |t| then n else |t|;
    TakeLargest(t, k, c);
    t[..k]
  }

  const TopCount := 10

  /** The top-10 chart by positive review percentage. */
  function TopByReviews(rows: seq<Game>): (r: seq<Game>)
    ensures |r| <= TopCount && (|rows| >= TopCount ==> |r| == TopCount)
    ensures multiset(r) <= multiset(rows)
    ensures forall x, y :: x in multiset(rows) - multiset(r) && y in r ==> x.positiveReviewPct <= y.positiveReviewPct
  {
    NLargest(rows, TopCount, PositiveReviewPct)
  }

  /** The top-10 chart by the lower bound of estimated owners. */
  function TopByOwners(rows: seq<Game>): (r: seq<Game>)
    ensures |r| <= TopCount && (|rows| >= TopCount ==> |r| == TopCount)
    ensures multiset(r) <= multiset(rows)
    ensures forall x, y :: x in multiset(rows) - multiset(r) && y in r ==> x.ownersLowerBound <= y.ownersLowerBound
  {
    var r := NLargest(rows, TopCount, OwnersLowerBound);
    assert forall x: Game, y: Game :: KeyOf(x, OwnersLowerBound) <= KeyOf(y, OwnersLowerBound) ==> x.ownersLowerBound <= y.ownersLowerBound;
    r
  }
}
