# Steam games: row cleaning and dashboard selection

This project models the data logic of a Streamlit portfolio site built on a
Steam games table. The model has two parts.

- **Row cleaning (`load_data` on the home page).** After the CSV is read, every
  row is cleaned in the same way:
  - missing `categories` and `genres` cells become `[]`, and missing
    `estimated_owners` cells become `0 - 0`;
  - five numeric columns are coerced, with 0.0 for anything pandas cannot
    read;
  - the `windows`, `mac` and `linux` flags are mapped to 0/1 through an
    exact-spelling table;
  - the stringified lists are parsed with a failure-safe `literal_eval`;
  - each game is classified into one of four single-/multi-player buckets;
  - the lower bound of the owners range is taken;
  - `pct_pos_total` is copied to `Positive Review %`.
- **Dashboard selection (the interactive games page).**
  - The sidebar offers the sorted, distinct genres and game types found in
    the data.
  - Three filter stages are applied from the sidebar values: ranges, then
    game type, then genre. An empty selection switches its stage off.
  - The table is sorted by the column that the chosen sort label maps to.
  - Two top-10 charts are taken, by positive review percentage and by owners.

Modules:
- `Wrappers`: Option.
- `Strings`: `split(sep)[0]`, `replace(c, '')`, substring, code-point order, and
  sorted-distinct lists.
- `Numbers`: digit strings, Python's `int(str)`, the numeric text that
  `pd.to_numeric` reads, and thousands grouping.
- `PyLiteral`: the literal language `safe_literal_eval` accepts.
- `SteamData`: the cleaned row and `load_data`.
- `GamesDashboard`: the dashboard page.
- `Scenarios`: worked examples on concrete cells.

A cell is modelled as the text pandas holds for it, or `Missing` for NaN.
Numbers are exact reals, not floats. The sidebar values are the fields of a
`Filters` record.

Four behaviours of the code that are easy to misread:
- The platform-flag map matches exact spellings. A cell whose text is `True`
  or `true` gives 1; every other text, `TRUE` included, gives 0.
- A platform column is converted only when the file has it. An absent
  column stays absent; it is not added as 0.
- The owners lower bound keeps a leading minus sign, so `-5 - 10` gives -5.
- Text without the ` - ` separator is read whole, so `12345` gives 12345.

Two inputs make the dashboard page raise instead of showing a table, and the
model returns `None` for both:
- The genre stage is active and a row that reaches it holds an integer
  `genres_list` value. Python's `g in 5` raises a TypeError.
- The genre stage is active and no row reaches it. `apply` on an empty
  column then yields an empty mask that is not boolean, so pandas reads the
  mask as a list of column labels. The result is a table with no columns,
  and `sort_values` raises a KeyError.

The functions that define the cleaning and the selection carry no contract
of their own; the rows below state what they compute:
- `PyLiteral.LiteralEval` and `PyLiteral.SafeLiteralEval`
  (streamlit_CS/app.py:53-58): the `SafeLiteralEvalOf...` rows.
- `PyLiteral.ParseValue`: the same rows, and `ParseJoined`, `ParseEscaped`.
- `Numbers.ParsePyInt` and `Numbers.ParseDecimal`: the `ParsePyInt...` and
  `ParseDecimal...` rows.
- `SteamData.ParseOwners` (streamlit_CS/app.py:77-83): the `ParseOwners...`
  rows and `OwnersDefaultIsZero`.
- `SteamData.CoerceNumeric` (streamlit_CS/app.py:40-41): the `ParseDecimal...`
  rows, `MissingCellsGetDefaults`, `NotANumberExample` and `DecimalExample`.
- `SteamData.NormalizeRow` (streamlit_CS/app.py:33-98): `NormalizeRowIsCleaned`,
  `MissingCellsGetDefaults` and the `...CellIsLocal` rows.
- `GamesDashboard.InRanges`, `TypeChosen`, `HasGenre`, `GenreChosen`,
  `Selected`, `GenreStageFails` and `GenreStageEmpty`
  (streamlit_CS/pages/8_GamesDashboard.py:98-112): the mask rows,
  `ApplyFilters` and `SelectGames`.
- `GamesDashboard.SortByOptions` and `KeyOf`
  (streamlit_CS/pages/8_GamesDashboard.py:73-79, 115-116): `SortColumnOf`,
  `SortByOptionsCoverColumns`, `ColumnNamedOfName` and `SortBy`.

## Model

| member | source | states |
|---|---|---|
| SteamData.Tags | streamlit_CS/app.py:62-64 | `set(cat_list)`: the members are exactly the list items, and nothing for a value that is not a list |
| SteamData.ClassifyGameType | streamlit_CS/app.py:60-75 | exactly one of the four buckets, each characterised both ways by whether the exact tags `Single-player` and `Multi-player` are among the list items |
| SteamData.ClassifyDependsOnlyOnTagSet | streamlit_CS/app.py:64-66 | two lists with the same members (any order, any repetition) get the same bucket |
| SteamData.ClassifyNonList | streamlit_CS/app.py:62-63 | a value that is not a list is Other/Unknown |
| SteamData.LabelsAreDistinct | streamlit_CS/app.py:68-75 | the four label texts are pairwise different, so a label names its bucket |
| PyLiteral.SafeLiteralEvalOfList | streamlit_CS/app.py:53-58 | a list of strings written as `str(list)` writes it parses back to that list, in order: each item in the quotes `repr` picks, with the backslash, that quote, tab, line breaks and the other ASCII control characters escaped |
| PyLiteral.SafeLiteralEvalOfString | streamlit_CS/app.py:53-58 | a string written as `repr` writes it parses to that string, not to a list |
| PyLiteral.SafeLiteralEvalOfInt | streamlit_CS/app.py:53-58 | the decimal digits of a number parse to that integer |
| PyLiteral.SafeLiteralEvalOfNegativeInt | streamlit_CS/app.py:53-58 | `-` followed by the digits of a number parses to the negated integer |
| PyLiteral.SafeLiteralEvalOfNonLiteral | streamlit_CS/app.py:55-58 | text whose first token is none of the forms the model reads (a list, a string, a decimal integer), such as `N/A` or nothing, gives the empty list instead of an error |
| PyLiteral.ParseJoined | streamlit_CS/app.py:56 | the items of a rendered non-empty list are read back in order, and the parser stops right after the closing bracket |
| PyLiteral.ParseEscaped | streamlit_CS/app.py:56 | a string body escaped for either quote and followed by that quote decodes to the original text and leaves the rest untouched |
| PyLiteral.ParseEscapedChar | streamlit_CS/app.py:56 | each character as `repr` writes it, plain, as a two-character escape or as `\xNN`, decodes to that character |
| PyLiteral.ParseNextItem | streamlit_CS/app.py:56 | a quoted item followed by `, ` and more items adds that item in front of the items after it |
| PyLiteral.ParseLastItem | streamlit_CS/app.py:56 | a quoted item followed by `]` is the last item of the list |
| PyLiteral.ParseItemsSkipsSpace | streamlit_CS/app.py:56 | whitespace in front of a list item does not change the result |
| SteamData.ParseOwnersOfRange | streamlit_CS/app.py:77-81 | a lower bound written with thousands separators and followed by ` - `, whatever comes after, gives that bound |
| SteamData.ParseOwnersWithoutSeparator | streamlit_CS/app.py:80-81 | a number with no ` - ` after it is read whole |
| SteamData.ParseOwnersNegative | streamlit_CS/app.py:80-81 | a leading minus sign is kept, so the bound is negative |
| SteamData.ParseOwnersWithoutDigits | streamlit_CS/app.py:79-83 | text with no digit makes `int()` fail, and the bound is 0 |
| SteamData.FirstFieldOfGrouped | streamlit_CS/app.py:80 | the text before the first ` - ` of `Grouped(n) - rest` is exactly `Grouped(n)` |
| Strings.FirstField | streamlit_CS/app.py:80 | `split(sep)[0]`: a prefix that ends at the first occurrence of the separator, or the whole text when the separator does not occur |
| Strings.RemoveAll | streamlit_CS/app.py:80 | `replace(',', '')`: the characters kept are exactly those that are not the removed one |
| Strings.RemoveAllConcat | streamlit_CS/app.py:80 | the removal distributes over concatenation |
| Numbers.ParsePyIntOfDigits | streamlit_CS/app.py:81 | `int()` of a number's decimal digits gives the number back |
| Numbers.ParsePyIntOfNegative | streamlit_CS/app.py:81 | `int()` of `-` followed by digits gives the negated number |
| Numbers.ParsePyIntNeedsDigit | streamlit_CS/app.py:81-83 | text with no digit is not an integer |
| Numbers.GroupedValue | streamlit_CS/app.py:80-81 | removing the commas from a grouped number leaves its digits, and their value is the number |
| Numbers.DigitsValueConcat | streamlit_CS/app.py:81 | the value of concatenated digit strings is the first value shifted by the second one's length, plus the second value |
| Numbers.NatToDigits | streamlit_CS/app.py:81 | a number renders as non-empty digits without a leading zero, whose value is the number |
| SteamData.FlagValue | streamlit_CS/app.py:47-48 | a flag cell is 1 exactly when its string form is `True` or `true`, and 0 otherwise |
| SteamData.PlatformFlag | streamlit_CS/app.py:45-48 | an absent column stays absent; a present one is 1 exactly for the two true spellings |
| Numbers.ParseDecimalOfDigits | streamlit_CS/app.py:41 | `<digits>.<digits>` reads as the decimal number those digits write |
| Numbers.ParseDecimalOfWhole | streamlit_CS/app.py:41 | a plain digit string reads as its integer value |
| Numbers.ParseDecimalNeedsDigit | streamlit_CS/app.py:41 | text with no digit is coerced to NaN |
| SteamData.MissingCellsGetDefaults | streamlit_CS/app.py:33-48 | missing categories give an empty list and Other/Unknown; missing genres an empty list; missing owners a bound of 0; each of the five numeric columns 0.0, with `Positive Review %` 0.0 too; and a missing `windows`, `mac` or `linux` cell 0 |
| SteamData.EmptyListDefault | streamlit_CS/app.py:33-34 | the fill value `[]` parses to the empty list |
| SteamData.OwnersDefaultIsZero | streamlit_CS/app.py:37 | the fill value `0 - 0` gives a lower bound of 0 |
| SteamData.NormalizeRowIsCleaned | streamlit_CS/app.py:33-98 | every cleaned row: flags are 0/1 or absent as the column is, list, type and owners columns agree with the columns they come from, `Positive Review %` equals `pct_pos_total`, and the name is kept |
| SteamData.PriceCellIsLocal | streamlit_CS/app.py:40-41 | changing the price cell changes the cleaned price and nothing else in the row |
| SteamData.MetacriticCellIsLocal | streamlit_CS/app.py:40-41 | changing the Metacritic cell changes the cleaned score and nothing else |
| SteamData.PctPosCellIsLocal | streamlit_CS/app.py:40-41 | changing the `pct_pos_total` cell changes that column and its copy `Positive Review %` (made at line 98), and nothing else |
| SteamData.ReviewCountCellIsLocal | streamlit_CS/app.py:40-41 | changing the review-count cell changes the cleaned count and nothing else |
| SteamData.PlaytimeCellIsLocal | streamlit_CS/app.py:40-41 | changing the playtime cell changes the cleaned playtime and nothing else |
| SteamData.LoadData | streamlit_CS/app.py:33-98 | the cleaned table has as many rows as the raw one; every row is cleaned and keeps its position and name; the platform columns present are those of the file, for every row |
| GamesDashboard.ExplodedGenres | streamlit_CS/pages/8_GamesDashboard.py:29 | a value is in the exploded genre column exactly when some row's genre list holds it |
| GamesDashboard.AllGenres | streamlit_CS/pages/8_GamesDashboard.py:29 | the genre options are strictly sorted, so free of duplicates, and hold exactly the genres in the data |
| GamesDashboard.AllGameTypes | streamlit_CS/pages/8_GamesDashboard.py:30 | the game-type options are strictly sorted and hold exactly the labels in the data |
| GamesDashboard.GameTypeColumn | streamlit_CS/pages/8_GamesDashboard.py:30 | the `game_type` column holds each row's label, position by position |
| Strings.SortedDistinct | streamlit_CS/pages/8_GamesDashboard.py:29-30 | `sorted(unique(...))`: strictly sorted in code-point order, with exactly the members of its input |
| Strings.StrictlySortedUnique | streamlit_CS/pages/8_GamesDashboard.py:29-30 | two strictly sorted lists with the same members are equal, so the options are determined by the data |
| Strings.StrLessTransitive | streamlit_CS/pages/8_GamesDashboard.py:29-30 | Python's string order is transitive |
| Strings.StrLessTotal | streamlit_CS/pages/8_GamesDashboard.py:29-30 | any two different strings are ordered one way or the other |
| GamesDashboard.SortColumnOf | streamlit_CS/pages/8_GamesDashboard.py:73-79 | the column a sort label selects is the one the map names |
| GamesDashboard.SortByOptionsCoverColumns | streamlit_CS/pages/8_GamesDashboard.py:73-79 | every sortable column is offered under some label |
| GamesDashboard.ColumnNamedOfName | streamlit_CS/pages/8_GamesDashboard.py:115 | each sortable column is found again under its name |
| GamesDashboard.Filter | streamlit_CS/pages/8_GamesDashboard.py:98-112 | a boolean mask keeps each row that passes with its full multiplicity and drops each row that fails |
| GamesDashboard.FilterTwice | streamlit_CS/pages/8_GamesDashboard.py:98-112 | two masks in a row keep what one mask with both conditions keeps |
| GamesDashboard.FilterAll | streamlit_CS/pages/8_GamesDashboard.py:98-112 | a mask every row passes keeps the table unchanged |
| GamesDashboard.RangeMask | streamlit_CS/pages/8_GamesDashboard.py:98-104 | keeps exactly the rows whose price, Metacritic score and review count are within the slider bounds |
| GamesDashboard.TypeMask | streamlit_CS/pages/8_GamesDashboard.py:107 | keeps exactly the rows whose game type is selected |
| GamesDashboard.GenreMask | streamlit_CS/pages/8_GamesDashboard.py:110-112 | keeps exactly the rows with at least one selected genre |
| GamesDashboard.EmptyAtGenreStage | streamlit_CS/pages/8_GamesDashboard.py:109-112 | the active genre stage meets no row exactly when the table reaching it is empty |
| GamesDashboard.FailsAtGenreStage | streamlit_CS/pages/8_GamesDashboard.py:109-112 | the active genre stage raises exactly when the table reaching it holds an integer genre value |
| GamesDashboard.ApplyFilters | streamlit_CS/pages/8_GamesDashboard.py:95-112 | the TypeError exactly when the genre stage is active and reaches an integer genre value; the column-less table exactly when the genre stage is active and reaches no row; otherwise every row that satisfies all active stages, with its multiplicity, and nothing else |
| GamesDashboard.KeptRows | streamlit_CS/pages/8_GamesDashboard.py:95-112 | every kept row comes from the input and satisfies every active stage |
| GamesDashboard.SelectGames | streamlit_CS/pages/8_GamesDashboard.py:95-116 | no table exactly in the two failing cases of the filters; otherwise the same selection, with each kept row in range, of a selected type and with a selected genre where those stages are active; the table is ordered by the mapped column, non-decreasing exactly when the order is `Ascending` |
| GamesDashboard.Insert | streamlit_CS/pages/8_GamesDashboard.py:116 | inserting into an ordered table keeps it ordered and adds exactly that row |
| GamesDashboard.SortBy | streamlit_CS/pages/8_GamesDashboard.py:116 | `sort_values`: ordered by the column, and a permutation of its input |
| GamesDashboard.OrderedSlice | streamlit_CS/pages/8_GamesDashboard.py:116 | any slice of an ordered table is ordered |
| GamesDashboard.TakeLargest | streamlit_CS/pages/8_GamesDashboard.py:151 | the first k rows of a descending table are ordered, and no row after them has a larger key |
| GamesDashboard.NLargest | streamlit_CS/pages/8_GamesDashboard.py:151 | `nlargest(n)`: min(n, rows) rows drawn from the input, in descending order, with no omitted row having a larger key than a kept one |
| GamesDashboard.TopByReviews | streamlit_CS/pages/8_GamesDashboard.py:151 | at most 10 rows, exactly 10 when there are that many, drawn from the filtered rows, with no omitted row having a higher positive review percentage |
| GamesDashboard.TopByOwners | streamlit_CS/pages/8_GamesDashboard.py:163 | the same for the owners lower bound |
| Scenarios.SinglePlayerOnlyExample | streamlit_CS/app.py:60-75 | `['Single-player']` is Single-player Only |
| Scenarios.BothModesExample | streamlit_CS/app.py:60-75 | `['Single-player', 'Multi-player']` is Single-player & Multi-player |
| Scenarios.NonListLiteralExample | streamlit_CS/app.py:53-66 | `'abc'` stays a string and is classified Other/Unknown |
| Scenarios.OwnersRangeExample | streamlit_CS/app.py:77-81 | `20,000,000 - 50,000,000` gives 20000000 |
| Scenarios.OwnersSingleExample | streamlit_CS/app.py:80-81 | `12345` gives 12345 |
| Scenarios.FlagExamples | streamlit_CS/app.py:47-48 | `True` is 1; a missing cell, `false` and `TRUE` are 0 |
| Scenarios.NotANumberExample | streamlit_CS/app.py:41 | `N/A` becomes 0.0 |
| Scenarios.DecimalExample | streamlit_CS/app.py:41 | `19.99` becomes 19.99 |
| Scenarios.GroupedExample | streamlit_CS/app.py:80 | twenty million is written `20,000,000` |

## Left out

- Streamlit calls: page configuration, widgets, metrics, charts and text. Widget values are parameters (the `Filters` record).
- `pd.read_csv`, the `FileNotFoundError` branch that returns an empty frame, `@st.cache_data`, session state and the file-modification timestamp: I/O and caching.
- `read_csv` type inference: each cell is modelled as the text `str()` gives for its value. That is exact where the code itself converts with `astype(str)`, `str()` or `to_numeric`. It is not exact for the list columns: when pandas reads `categories` or `genres` as numbers, `literal_eval` gets a number, raises, and gives `[]`, while the model parses the number's text as an integer.
- The platform flags are read from the text of each cell. A column that pandas read as booleans has the texts `True` and `False`, so its true cells give 1.
- `pd.to_numeric` reads an optional sign and digits with at most one decimal point. Exponents, `inf`, surrounding spaces and thousands separators are outside the model (they are read as NaN, and so as 0.0). Values are exact reals, not floats, so rounding is not modelled.
- Python's `int(str)` also accepts Unicode digits and strips Unicode whitespace beyond code point 127. The model knows ASCII digits, the whitespace up to code point 127 and single underscores between digits.
- ParseOwners: the bound is an unbounded integer. In pandas a bound outside 64 bits makes `owners_lower_bound` an object column, and `nlargest` on it raises a TypeError. Python 3.11 and later also refuse `int()` of more than 4300 digits unless configured otherwise, which gives 0.
- `ast.literal_eval` is modelled on strings, decimal integers and lists of strings. Other literals read as a failure and give `[]`: floats, `None`, `True`, tuples, dicts, sets, prefixed or triple-quoted strings, adjacent string literals that Python joins, `- 5` with a space after the sign, and integers with underscores such as `0_0`.
- The escapes `\a \b \f \v`, octal escapes, `\u`, `\U`, `\N{...}` and a backslash before a line break read as a failure and give `[]`; Python decodes them.
- Lists with items other than strings read as a failure and give `[]`. In Python they keep their items: `['Single-player', 1]` is then Single-player Only, a nested list such as `[['x']]` makes `set()` raise a TypeError, and in the genre stage a tuple such as `('Action',)` matches by membership while `None`, `True` or a float raise a TypeError.
- `repr` writes characters above code point 127 that Unicode counts as non-printable as `\x`, `\u` or `\U` escapes. The model's rendering writes them as they are; its parser reads both forms of the characters it renders.
- GamesDashboard.ExplodedGenres: an integer `genres_list` value contributes no option. pandas would keep it, and `sorted` would then raise on mixing it with strings.
- GamesDashboard.SortBy: only order and permutation are stated. The order of rows with equal keys is not, because pandas' default quicksort is not stable.
- NLargest: ties are not resolved as `keep='first'` does. The model states which rows may be kept, not which of several tied rows are.
- The aggregates (total, average price, average Metacritic, total owners) and the narrative text that follow the selection: floating-point aggregation and presentation.
- The other pages of the site: static content, network clients and plotting.
- A `KeyError` from a column missing in the file, other than the platform flags: the model's row always has the other columns.
