/**
 * The Steam games table as the home page's `load_data` cleans it: default
 * fills for missing cells, numeric coercion, platform flags, parsing of the
 * stringified category and genre lists, the game-type classification, the
 * lower bound of the owners range and the `Positive Review %` copy.
 */
module SteamData {
  import opened Wrappers
  import opened Strings
  import opened Numbers
  import opened PyLiteral

  /** One cell of the table after `read_csv`, written as its text; pandas' NaN is Missing. */
  datatype Cell = Missing | Text(text: string)

  /**
   * One row as read from the CSV file. A platform flag is None when its column
   * is not in the file at all.
   */
  datatype RawGame = RawGame(
    name: Cell,
    categories: Cell,
    genres: Cell,
    estimatedOwners: Cell,
    metacriticScore: Cell,
    pctPosTotal: Cell,
    numReviewsTotal: Cell,
    averagePlaytimeForever: Cell,
    price: Cell,
    windows: Option<Cell>,
    mac: Option<Cell>,
    linux: Option<Cell>)

  /** The four game-type buckets. */
  datatype GameType = SingleAndMulti | SingleOnly | MultiOnly | OtherUnknown

  /** One row after cleaning, with the derived columns added. */
  datatype Game = Game(
    name: Cell,
    categories: string,
    genres: string,
    estimatedOwners: string,
    metacriticScore: real,
    pctPosTotal: real,
    numReviewsTotal: real,
    averagePlaytimeForever: real,
    price: real,
    windows: Option<int>,
    mac: Option<int>,
    linux: Option<int>,
    categoriesList: PyValue,
    genresList: PyValue,
    gameType: GameType,
    ownersLowerBound: int,
    positiveReviewPct: real)

  const SinglePlayerTag := "Single-player"
  const MultiPlayerTag := "Multi-player"

  /** The text stored in the `game_type` column. */
  function Label(t: GameType): string {
    match t
    case SingleAndMulti => "Single-player & Multi-player"
    case SingleOnly => "Single-player Only"
    case MultiOnly => "Multi-player Only"
    case OtherUnknown => "Other/Unknown"
  }

  /** The four labels are the only ones, and no two buckets share one. */
  lemma LabelsAreDistinct(a: GameType, b: GameType)
    ensures Label(a) in {"Single-player & Multi-player", "Single-player Only", "Multi-player Only", "Other/Unknown"}
    ensures Label(a) == Label(b) <==> a == b
  {
  }

  /** `Series.fillna(default)` on one cell. */
  function FillNa(c: Cell, default: string): string {
    match c
    case Missing => default
    case Text(s) => s
  }

  /** `astype(str)` on one cell: NaN becomes the text `nan`. */
  function StrForm(c: Cell): string {
    match c
    case Missing => "nan"
    case Text(s) => s
  }

  /** `set(cat_list)`, where a value that is not a list counts as the empty list. */
  function Tags(v: PyValue): (tags: set<string>)
    ensures forall x :: x in tags <==> v.PyList? && x in v.items
  {
    match v
    case PyList(items) => set x | x in items
    case _ => {}
  }

  /** `classify_game_type`. */
  function ClassifyGameType(v: PyValue): (t: GameType)
    ensures t == SingleAndMulti <==> SinglePlayerTag in Tags(v) && MultiPlayerTag in Tags(v)
    ensures t == SingleOnly <==> SinglePlayerTag in Tags(v) && MultiPlayerTag !in Tags(v)
    ensures t == MultiOnly <==> SinglePlayerTag !in Tags(v) && MultiPlayerTag in Tags(v)
    ensures t == OtherUnknown <==> SinglePlayerTag !in Tags(v) && MultiPlayerTag !in Tags(v)
  {
    var tags := Tags(v);
    var isSingle := SinglePlayerTag in tags;
    var isMulti := MultiPlayerTag in tags;
    if isSingle && isMulti then SingleAndMulti
    else if isSingle then SingleOnly
    else if isMulti then MultiOnly
    else OtherUnknown
  }

  /** Only membership counts: reordering or repeating the categories changes nothing. */
  lemma ClassifyDependsOnlyOnTagSet(a: seq<string>, b: seq<string>)
    requires forall x :: x in a <==> x in b
    ensures ClassifyGameType(PyList(a)) == ClassifyGameType(PyList(b))
  {
    assert (SinglePlayerTag in a <==> SinglePlayerTag in b) && (MultiPlayerTag in a <==> MultiPlayerTag in b);
  }

  /** A value that is not a list is classified as Other/Unknown. */
  lemma ClassifyNonList(v: PyValue)
    requires !v.PyList?
    ensures ClassifyGameType(v) == OtherUnknown
  {
  }

  /** `parse_owners`: the integer before the first ` - `, commas removed, or 0. */
  function ParseOwners(owners: string): int {
    ParsePyInt(RemoveAll(FirstField(owners, " - "), ',')).GetOr(0)
  }

  lemma FirstFieldOfGrouped(n: nat, rest: string)
    ensures FirstField(Grouped(n) + " - " + rest, " - ") == Grouped(n)
  {
    var g := Grouped(n);
    var s := g + " - " + rest;
    var w := FirstField(s, " - ");
    assert OccursAt(s, |g|, " - ") by {
      assert s[|g|..|g| + 3] == " - ";
    }
    assert forall i :: 0 <= i < |g| ==> !OccursAt(s, i, " - ") by {
      forall i | 0 <= i < |g| ensures !OccursAt(s, i, " - ") {
        assert s[i] == g[i] && g[i] in g;
        assert s[i] != ' ';
        if i + 3 <= |s| {
          assert s[i..i + 3][0] == s[i];
        }
      }
    }
    assert |w| <= |g|;
    assert OccursAt(s, |w|, " - ");
    assert |w| == |g|;
    assert w == s[..|g|];
    assert s[..|g|] == g;
  }

  /**
   * The lower bound of a range written with thousands separators, whatever
   * follows the separator: `20,000,000 - 50,000,000` gives 20000000.
   */
  lemma ParseOwnersOfRange(lo: nat, rest: string)
    ensures ParseOwners(Grouped(lo) + " - " + rest) == lo
  {
    var g := Grouped(lo);
    var s := g + " - " + rest;
    var d := RemoveAll(g, ',');
    assert FirstField(s, " - ") == g by {
      FirstFieldOfGrouped(lo, rest);
    }
    assert ParsePyInt(d) == Some(lo) by {
      GroupedValue(lo);
      assert g[0] in g;
      ParsePyIntOfDigitString(d);
    }
  }

  lemma FirstFieldWithoutSpace(s: string)
    requires ' ' !in s
    ensures FirstField(s, " - ") == s
  {
    forall i ensures !OccursAt(s, i, " - ") {
      if 0 <= i < |s| && i + 3 <= |s| {
        assert s[i..i + 3][0] == s[i] && s[i] in s;
      }
    }
    FirstFieldAbsent(s, " - ");
  }

  /** With no ` - ` the whole text is the lower bound: `12345` gives 12345. */
  lemma ParseOwnersWithoutSeparator(n: nat)
    ensures ParseOwners(NatToDigits(n)) == n
  {
    var d := NatToDigits(n);
    assert forall c :: c in d ==> IsDigit(c) by {
      forall c | c in d ensures IsDigit(c) { var i :| 0 <= i < |d| && d[i] == c; }
    }
    FirstFieldWithoutSpace(d);
    RemoveAllAbsent(d, ',');
    ParsePyIntOfDigits(n);
  }

  /** A leading minus sign is kept: the lower bound can be negative. */
  lemma ParseOwnersNegative(n: nat)
    ensures ParseOwners("-" + NatToDigits(n)) == -(n as int)
  {
    var d := NatToDigits(n);
    var s := "-" + d;
    assert forall c :: c in s ==> IsDigit(c) || c == '-' by {
      forall c | c in s ensures IsDigit(c) || c == '-' {
        var i :| 0 <= i < |s| && s[i] == c;
        if i > 0 { assert s[i] == d[i - 1]; }
      }
    }
    FirstFieldWithoutSpace(s);
    RemoveAllAbsent(s, ',');
    ParsePyIntOfNegative(n);
  }

  /** Text before ` - ` with no digit in it is not a number, and the bound is 0. */
  lemma ParseOwnersWithoutDigits(s: string)
    requires forall c :: c in s ==> !IsDigit(c)
    ensures ParseOwners(s) == 0
  {
    var w := FirstField(s, " - ");
    assert forall c :: c in w ==> c in s by {
      forall c | c in w ensures c in s { var i :| 0 <= i < |w| && w[i] == c; assert s[i] == c; }
    }
    ParsePyIntNeedsDigit(RemoveAll(w, ','));
  }

  /** The exact spellings that `val_map` knows; every other text maps to 0. */
  const FlagMap: map<string, int> := map["True" := 1, "true" := 1, "False" := 0, "false" := 0]

  /** One platform flag cell: `astype(str).map(val_map).fillna(0).astype(int)`. */
  function FlagValue(c: Cell): (b: int)
    ensures b == 0 || b == 1
    ensures b == 1 <==> StrForm(c) == "True" || StrForm(c) == "true"
  {
    var s := StrForm(c);
    if s in FlagMap then FlagMap[s] else 0
  }

  /** A platform column: converted when present (x in df.columns), left alone when absent. */
  function PlatformFlag(column: Option<Cell>): (f: Option<int>)
    ensures f.None? <==> column.None?
    ensures f.Some? ==> (f.value == 1 <==> StrForm(column.value) in {"True", "true"})
  {
    match column
    case None => None
    case Some(c) => Some(FlagValue(c))
  }

  /** `pd.to_numeric(col, errors='coerce').fillna(0.0)` on one cell. */
  function CoerceNumeric(c: Cell): real {
    match c
    case Missing => 0.0
    case Text(s) => ParseDecimal(s).GetOr(0.0)
  }

  const ListDefault := "[]"
  const OwnersDefault := "0 - 0"

  /** All the column rules of `load_data`, applied to one row. */
  function NormalizeRow(r: RawGame): Game {
    var categories := FillNa(r.categories, ListDefault);
    var genres := FillNa(r.genres, ListDefault);
    var owners := FillNa(r.estimatedOwners, OwnersDefault);
    var pctPosTotal := CoerceNumeric(r.pctPosTotal);
    var categoriesList := SafeLiteralEval(categories);
    Game(
      name := r.name,
      categories := categories,
      genres := genres,
      estimatedOwners := owners,
      metacriticScore := CoerceNumeric(r.metacriticScore),
      pctPosTotal := pctPosTotal,
      numReviewsTotal := CoerceNumeric(r.numReviewsTotal),
      averagePlaytimeForever := CoerceNumeric(r.averagePlaytimeForever),
      price := CoerceNumeric(r.price),
      windows := PlatformFlag(r.windows),
      mac := PlatformFlag(r.mac),
      linux := PlatformFlag(r.linux),
      categoriesList := categoriesList,
      genresList := SafeLiteralEval(genres),
      gameType := ClassifyGameType(categoriesList),
      ownersLowerBound := ParseOwners(owners),
      positiveReviewPct := pctPosTotal)
  }

  predicate IsFlag(f: Option<int>) {
    f.None? || f.value == 0 || f.value == 1
  }

  /**
   * What every cleaned row satisfies: flags are 0 or 1, the derived columns
   * agree with the columns they come from, and `Positive Review %` is a copy
   * of `pct_pos_total`.
   */
  predicate Cleaned(g: Game) {
    && IsFlag(g.windows) && IsFlag(g.mac) && IsFlag(g.linux)
    && g.categoriesList == SafeLiteralEval(g.categories)
    && g.genresList == SafeLiteralEval(g.genres)
    && g.gameType == ClassifyGameType(g.categoriesList)
    && g.ownersLowerBound == ParseOwners(g.estimatedOwners)
    && g.positiveReviewPct == g.pctPosTotal
  }

  /** Every row comes out cleaned, whatever its cells held; names and column presence are kept. */
  lemma NormalizeRowIsCleaned(r: RawGame)
    ensures Cleaned(NormalizeRow(r))
    ensures NormalizeRow(r).name == r.name
    ensures NormalizeRow(r).windows.None? <==> r.windows.None?
    ensures NormalizeRow(r).mac.None? <==> r.mac.None?
    ensures NormalizeRow(r).linux.None? <==> r.linux.None?
    ensures CleanedColumns(NormalizeRow(r)) == Columns(r)
  {
  }

  lemma EmptyListDefault()
    ensures SafeLiteralEval(ListDefault) == PyList([])
  {
    SafeLiteralEvalOfList([]);
    assert ListLiteral([]) == ListDefault;
  }

  lemma OwnersDefaultIsZero()
    ensures ParseOwners(OwnersDefault) == 0
  {
    assert DigitChar(0) == '0';
    assert NatToDigits(0) == "0";
    var zero := Grouped(0);
    assert zero == "0";
    var s := zero + " - " + zero;
    assert s == OwnersDefault;
    ParseOwnersOfRange(0, zero);
    assert ParseOwners(s) == 0;
  }

  lemma MissingCategoriesDefault(r: RawGame)
    ensures r.categories == Missing ==>
      NormalizeRow(r).categoriesList == PyList([]) && NormalizeRow(r).gameType == OtherUnknown
  {
    var g := NormalizeRow(r);
    if r.categories == Missing {
      assert g.categoriesList == PyList([]) && g.gameType == OtherUnknown by {
        assert g.categoriesList == SafeLiteralEval(ListDefault);
        EmptyListDefault();
        assert g.gameType == ClassifyGameType(PyList([]));
      }
    }
  }

  lemma MissingGenresDefault(r: RawGame)
    ensures r.genres == Missing ==> NormalizeRow(r).genresList == PyList([])
  {
    var g := NormalizeRow(r);
    if r.genres == Missing {
      assert g.genresList == PyList([]) by {
        assert g.genresList == SafeLiteralEval(ListDefault);
        EmptyListDefault();
      }
    }
  }

  lemma MissingOwnersDefault(r: RawGame)
    ensures r.estimatedOwners == Missing ==> NormalizeRow(r).ownersLowerBound == 0
  {
    var g := NormalizeRow(r);
    if r.estimatedOwners == Missing {
      assert g.ownersLowerBound == 0 by {
        assert g.ownersLowerBound == ParseOwners(OwnersDefault);
        OwnersDefaultIsZero();
      }
    }
  }

  /** The numeric columns and platform flags of a missing cell are 0. */
  lemma MissingNumbersDefault(r: RawGame)
    ensures r.metacriticScore == Missing ==> NormalizeRow(r).metacriticScore == 0.0
    ensures r.pctPosTotal == Missing ==>
      NormalizeRow(r).pctPosTotal == 0.0 && NormalizeRow(r).positiveReviewPct == 0.0
    ensures r.numReviewsTotal == Missing ==> NormalizeRow(r).numReviewsTotal == 0.0
    ensures r.averagePlaytimeForever == Missing ==> NormalizeRow(r).averagePlaytimeForever == 0.0
    ensures r.price == Missing ==> NormalizeRow(r).price == 0.0
    ensures r.windows == Some(Missing) ==> NormalizeRow(r).windows == Some(0)
    ensures r.mac == Some(Missing) ==> NormalizeRow(r).mac == Some(0)
    ensures r.linux == Some(Missing) ==> NormalizeRow(r).linux == Some(0)
  {
  }

  /** The defaults that missing cells receive, column by column. */
  lemma MissingCellsGetDefaults(r: RawGame)
    ensures r.categories == Missing ==>
      NormalizeRow(r).categoriesList == PyList([]) && NormalizeRow(r).gameType == OtherUnknown
    ensures r.genres == Missing ==> NormalizeRow(r).genresList == PyList([])
    ensures r.estimatedOwners == Missing ==> NormalizeRow(r).ownersLowerBound == 0
    ensures r.metacriticScore == Missing ==> NormalizeRow(r).metacriticScore == 0.0
    ensures r.pctPosTotal == Missing ==>
      NormalizeRow(r).pctPosTotal == 0.0 && NormalizeRow(r).positiveReviewPct == 0.0
    ensures r.numReviewsTotal == Missing ==> NormalizeRow(r).numReviewsTotal == 0.0
    ensures r.averagePlaytimeForever == Missing ==> NormalizeRow(r).averagePlaytimeForever == 0.0
    ensures r.price == Missing ==> NormalizeRow(r).price == 0.0
    ensures r.windows == Some(Missing) ==> NormalizeRow(r).windows == Some(0)
    ensures r.mac == Some(Missing) ==> NormalizeRow(r).mac == Some(0)
    ensures r.linux == Some(Missing) ==> NormalizeRow(r).linux == Some(0)
  {
    MissingCategoriesDefault(r);
    MissingGenresDefault(r);
    MissingOwnersDefault(r);
    MissingNumbersDefault(r);
  }

  /**
   * A malformed cell only affects its own column: replacing the price cell
   * changes the cleaned price and nothing else.
   */
  lemma PriceCellIsLocal(r: RawGame, c: Cell)
    ensures NormalizeRow(r.(price := c)) == NormalizeRow(r).(price := CoerceNumeric(c))
  {
  }

  /** Replacing the Metacritic score cell changes the cleaned score and nothing else. */
  lemma MetacriticCellIsLocal(r: RawGame, c: Cell)
    ensures NormalizeRow(r.(metacriticScore := c)) == NormalizeRow(r).(metacriticScore := CoerceNumeric(c))
  {
  }

  /**
   * Replacing the positive-review cell changes `pct_pos_total` and its copy
   * `Positive Review %`, and nothing else.
   */
  lemma PctPosCellIsLocal(r: RawGame, c: Cell)
    ensures NormalizeRow(r.(pctPosTotal := c))
      == NormalizeRow(r).(pctPosTotal := CoerceNumeric(c), positiveReviewPct := CoerceNumeric(c))
  {
  }

  /** Replacing the review-count cell changes the cleaned count and nothing else. */
  lemma ReviewCountCellIsLocal(r: RawGame, c: Cell)
    ensures NormalizeRow(r.(numReviewsTotal := c)) == NormalizeRow(r).(numReviewsTotal := CoerceNumeric(c))
  {
  }

  /** Replacing the playtime cell changes the cleaned playtime and nothing else. */
  lemma PlaytimeCellIsLocal(r: RawGame, c: Cell)
    ensures NormalizeRow(r.(averagePlaytimeForever := c))
      == NormalizeRow(r).(averagePlaytimeForever := CoerceNumeric(c))
  {
  }

  /** Which of the optional platform columns a row has: windows, mac, linux. */
  function Columns(r: RawGame): (bool, bool, bool) {
    (r.windows.Some?, r.mac.Some?, r.linux.Some?)
  }

  function CleanedColumns(g: Game): (bool, bool, bool) {
    (g.windows.Some?, g.mac.Some?, g.linux.Some?)
  }

  /** The rows of one table: each has the same platform columns as the first. */
  predicate SameColumns(raw: seq<RawGame>) {
    forall i :: 0 <= i < |raw| ==> Columns(raw[i]) == Columns(raw[0])
  }

  /**
   * `load_data` after the file is read: pandas applies the column rules to
   * every row, so the table keeps its rows in order and each comes out
   * cleaned under its own name.
   */
  function LoadData(raw: seq<RawGame>): (games: seq<Game>)
    requires SameColumns(raw)
    ensures |games| == |raw|
    ensures forall i :: 0 <= i < |raw| ==> Cleaned(games[i]) && games[i].name == raw[i].name
    ensures forall i :: 0 <= i < |raw| ==> games[i] == NormalizeRow(raw[i])
    ensures forall i :: 0 <= i < |raw| ==> CleanedColumns(games[i]) == Columns(raw[0])
  {
    var games := seq(|raw|, i requires 0 <= i < |raw| => NormalizeRow(raw[i]));
    assert forall i :: 0 <= i < |raw| ==>
      Cleaned(games[i]) && games[i].name == raw[i].name && CleanedColumns(games[i]) == Columns(raw[i]) by {
      forall i | 0 <= i < |raw|
        ensures Cleaned(games[i]) && games[i].name == raw[i].name && CleanedColumns(games[i]) == Columns(raw[i]) {
        NormalizeRowIsCleaned(raw[i]);
      }
    }
    games
  }
}
