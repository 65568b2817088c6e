# Romance books pipeline, modelled in Dafny

The repository cleans a CSV export of romance novels and joins it with a lookup
of authors. It then does two things with the result:

- it counts the words in the book titles;
- it builds three aggregations for charts: books per decade, total ratings per
  author (the ten largest), and books per year.

This project models the table logic of those three scripts and proves what each
step promises.

- **Tables.** A pandas frame is a `Frames.Table`: ordered column labels plus one
  `map` from label to `Cell` per row.
  - A `Cell` is missing (`Null`), text, a whole number or a real.
  - Floating point is modelled by exact reals.
  - A missing column, a `.str` accessor on a column with no strings, and a
    failed `astype` become `Result` errors. They are not exceptions.
- **In-place steps.** The steps that assign a column of their argument are
  methods on `Frames.DataFrame`, a class whose fields the methods reassign:
  - `reformat_rating_column`, `reformat_ratings_column`, `convert_data_types`
    and `clean_titles` in `process_raw_data.py`;
  - `add_decade_column` in `analyse_processed_data.py`.

  Each method is specified by a function on `Table`, and the properties are
  proved about that function.
- **Pure steps.** Each pure step is a function with its own contract.
- **The whole chain.** `Process.ProcessRawData` runs the chain of
  `process_raw_data` and is proved equal to the function `Process.Processed`.
- **The test fixture.** `Fixture` evaluates the chain, step by step, on the
  sample frames of `test_process_raw_data.py`.

Modules:

- `Basics`: sequences, filters and maps.
- `Numeric`: the numeric text grammar of `to_numeric`.
- `Text`: the string operations `split`, `lower`, `replace` and the title regex.
- `Sorting`: the descending sort.
- `Tally`: group-by with sums.
- `Frames`: tables and the frame class.
- `Process`: `process_raw_data.py`.
- `Keywords`: `get_keywords.py`.
- `Analysis`: `analyse_processed_data.py`.
- `Fixture`: the sample data of the tests.

Three behaviours of the code that the model keeps:

- A title made only of spaces survives `drop_empty_book_titles`, because the
  filter compares with `''` and does not strip (`Process.BlankTitleKept`).
- A title that is only a parenthesised span, such as `"(Untitled)"`, passes the
  title filter. `clean_titles` then turns it into the empty string, so the
  output can hold empty titles (`Process.UntitledBecomesEmpty`).
- `create_trends_in_release_count_over_time_chart` groups the module-level
  `books`, not its argument. The model groups the frame it is given
  (`Analysis.YearlyCounts`).

## Model

| member | source | states |
|---|---|---|
| Process.RemoveUnnecessaryColumns | process_raw_data.py:27-29 | the kept columns are exactly the old ones not in the drop list, in their old order; names that are absent are ignored; every row keeps all its other cells unchanged |
| Process.RemoveIdempotent | process_raw_data.py:27-29 | dropping the same columns twice gives the same table as dropping them once |
| Process.RemoveAbsent | process_raw_data.py:27-29 | with `errors='ignore'`, dropping only labels the table lacks leaves a well-formed table unchanged |
| Process.KeepFilled | process_raw_data.py:32-39 | a missing column is an error; otherwise the result has the same columns, its rows are an order-preserving selection of the input, and every copy of a row is kept exactly when its cell is neither missing nor `''` (the multiset of the result is the filled rows of the input with their multiplicities) |
| Process.BlankTitleKept | process_raw_data.py:34 | a title of one space is not dropped, because the filter does not strip |
| Process.Coerce | process_raw_data.py:45 | `to_numeric(errors='coerce')`: never leaves text; text becomes a number exactly when it parses as a decimal, and missing otherwise; non-text cells are unchanged |
| Process.ParseRatingCell | process_raw_data.py:44-45 | a rating cell becomes a number exactly when it is text that parses after every ',' is replaced by '.', and it then holds that value; otherwise it becomes missing |
| Process.ParseCountCell | process_raw_data.py:51-52 | a ratings-count cell becomes a number exactly when it is text that parses after every backtick is deleted, and it then holds that value; otherwise it becomes missing |
| Process.StrColumn | process_raw_data.py:44 | `.str` on a missing column, or on one without any string, is an error; otherwise the column is rewritten cell by cell |
| Process.ReformatChangesOnlyColumn | process_raw_data.py:42-53 | the reformatting rewrites the named cell of every row and no other cell |
| Process.ReformattedIsNumeric | process_raw_data.py:45-52 | a second `to_numeric` changes nothing after either reformatting, which is what the tests check at test_process_raw_data.py:72-73 and 79-80 |
| Process.ReformatRatingColumn | process_raw_data.py:42-46 | on success the frame is changed in place to the reformatted table and returned; on error it is unchanged |
| Process.ReformatRatingsColumn | process_raw_data.py:49-53 | on success the frame is changed in place to the reformatted table and returned; on error it is unchanged |
| Process.CastInt | process_raw_data.py:61 | `astype('Int64')` succeeds exactly on missing cells, whole numbers and whole-valued reals; a whole number is returned unchanged, a whole-valued real becomes the whole number it equals, and the result is always a missing or whole cell |
| Process.CastFloat | process_raw_data.py:60 | `astype('float')` keeps reals and missing cells, widens whole numbers, and succeeds on text exactly when the text parses, giving the real the text denotes |
| Process.CastColumn | process_raw_data.py:58-61 | a column cast fails exactly when the column is missing or some cell cannot be cast; otherwise each cell of the column is its cast and every other cell is unchanged |
| Process.TypesConvertedShape | process_raw_data.py:56-62 | after the conversion the year and the ratings count are whole or missing, the rating is real or missing; each of those three cells is its cast (`CastYear`, `CastFloat`, `CastInt`) of the cell it replaced, and the other columns are untouched |
| Process.ConvertedState | process_raw_data.py:56-62 | the state left in the frame is the converted table on success; after a failed cast it is the partly converted table, with the same columns |
| Process.ConvertDataTypes | process_raw_data.py:56-62 | the three casts run in place in order; a failing cast leaves the earlier casts applied and returns its error |
| Process.JoinRow | process_raw_data.py:68-69 | a left merge turns one left row into one row per matching author, in lookup order, each carrying that author's name; with no match it gives the single row with a missing name |
| Process.ReplaceAuthorsIdWithName | process_raw_data.py:65-72 | the merge fails on a missing `author_id`, a text key, or an `id` column on the left; otherwise `author_id` and `id` are gone, `author_name` is added, and the other columns stay |
| Process.JoinRowsFrom | process_raw_data.py:68-69 | every merged row is some left row without its key, carrying the name of a lookup row whose id equals that key, or a missing name exactly when no id equals it |
| Process.MatchesMembers | process_raw_data.py:68-69 | the authors a key matches are exactly the lookup rows whose id equals the key |
| Process.JoinNamesFromLookup | process_raw_data.py:68-71 | every `author_name` of the merged table is an author's name from the lookup, or missing; the test at test_process_raw_data.py:124-125 asserts this |
| Process.UniqueMatch | process_raw_data.py:68-69 | with distinct author ids, an id matches at most one author, and that is the first one found |
| Process.JoinRowsUnique | process_raw_data.py:68-69 | with distinct author ids the merge keeps the row count and the order, and it adds to each row the name found for its id |
| Process.RenameColumns | process_raw_data.py:75-81 | the labels are mapped through the renaming and each cell moves to its new label |
| Process.RenamedLabels | process_raw_data.py:77-81 | renaming keeps distinct labels distinct |
| Process.RenameRowLemma | process_raw_data.py:77-81 | the renamed row has exactly the renamed keys and shows the old cell under each new label |
| Process.RenameGivesNames | process_raw_data.py:77-81 | `title`, `year` and `rating` appear when their sources do, and `book_title` and `Rating` are gone; the test at test_process_raw_data.py:94-96 asserts these labels |
| Process.FirstMissing | process_raw_data.py:87 | the label the `KeyError` names is one that is wanted and missing |
| Process.ReorderColumns | process_raw_data.py:84-87 | it succeeds exactly when every preferred label is present; the result has exactly the preferred labels in the preferred order, with the same cells |
| Process.CleanTitles | process_raw_data.py:90-93 | on success the frame's titles are replaced in place by the cleaned ones; on error the frame is unchanged |
| Process.CleanedTitles | process_raw_data.py:92 | a title without '(' is unchanged; in a single-line title no '(' that a ')' follows survives, which is weaker than the assertion at test_process_raw_data.py:108-109, because an unmatched '(' or ')' survives the substitution |
| Process.UntitledBecomesEmpty | process_raw_data.py:92 | "(Untitled)" passes the title filter and still becomes the empty title |
| Process.TitlesCleaned | process_raw_data.py:90-93 | a missing title column, or one without strings, is an error; otherwise every title is cleaned by the substitution and every other cell is unchanged |
| Process.SortDataframe | process_raw_data.py:96-98 | a missing or text rating column is an error; otherwise the rows are a permutation of the input with ratings non-increasing and missing ratings last |
| Process.Cleaned | process_raw_data.py:110-116 | after the cleaning steps the columns are the raw ones minus `index`, `Unnamed: 0` and `''` |
| Process.CleanRawFrame | process_raw_data.py:110-116 | the cleaning steps, the in-place ones on one frame object, compute `Cleaned` |
| Process.FinishFrame | process_raw_data.py:117-121 | the merge, renaming, reordering, title cleaning and sort compute `Finished` |
| Process.ProcessRawData | process_raw_data.py:101-122 | the whole chain computes `Processed`, its result or the first error |
| Process.TypesConvertedRows | process_raw_data.py:56-62 | every converted row holds its year and rating labels, with a whole or missing year and count and a real or missing rating |
| Process.JoinedRowsConverted | process_raw_data.py:68-71 | the merge keeps those typed cells in every row it makes |
| Process.RenamedProcessed | process_raw_data.py:77-81 | renaming moves the typed year and rating to `year` and `rating` |
| Process.FinishedShape | process_raw_data.py:117-121 | after the merge, the renaming, the reordering, the title cleaning and the sort, the table has exactly the preferred columns, its rows are in descending rating, and its cells are typed |
| Process.ProcessedShape | process_raw_data.py:101-122 | for every raw frame and lookup that the chain accepts, the result has exactly the columns title, author_name, year, rating and ratings in that order; its rows are in non-increasing rating with missing ratings last; every year and count is whole or missing and every rating is real or missing; every row comes from a raw row as `FromRaw` says (title cleaned, author looked up by id, year, rating and count parsed and cast); a row from a one-line raw title has no parenthesised span left in its title (`Fixture.SampleProcessed` gives an input that meets its requires) |
| Process.CleanedRowsFrom | process_raw_data.py:27-62 | every row after the filters, the reformattings and the conversion comes from a raw row with a title and an author id, keeping its title and id and holding the cast of its parsed year, rating and count |
| Process.FinishedTraced | process_raw_data.py:65-98 | every row after the merge, the renaming, the reordering, the title cleaning and the sort comes from a row of the merge's left table: its title cleaned, its year, rating and count kept, and its author name found by the lookup on its id (missing exactly when no lookup row matches) |
| Process.ProcessedTrace | process_raw_data.py:101-122 | every row of the result comes from some raw row, as `FromRaw` states |
| Process.CleanCellSpans | process_raw_data.py:92 | a one-line text title, once cleaned, is text with no parenthesised span |
| Text.ReplaceChar | process_raw_data.py:44 | `str.replace` of one character: same length, with every occurrence of the character replaced and nothing else changed |
| Text.DeleteChar | process_raw_data.py:51 | deleting a character keeps every other character, in order, and leaves no occurrence |
| Text.Split | get_keywords.py:11 | `str.split()` yields words that are non-empty and hold no whitespace |
| Text.SplitLosesOnlySpace | get_keywords.py:11 | the words, concatenated, are the title with its whitespace removed |
| Text.SplitSingleWord | get_keywords.py:11 | a title without whitespace is a single word |
| Text.SplitBlank | get_keywords.py:11 | a blank title has no words |
| Text.Lower | get_keywords.py:26 | `lower()` keeps the length and lower-cases every ASCII capital |
| Text.LowerIdempotent | get_keywords.py:26 | lower-casing twice is lower-casing once |
| Text.LowerOfLower | get_keywords.py:26 | a word already in lower case is unchanged |
| Text.CloseParen | process_raw_data.py:92 | the lazy `.*?\)` stops at the first ')' that no newline precedes, and fails otherwise |
| Text.MatchAt | process_raw_data.py:92 | a match starts at the first '(' after the leading spaces, ends at the first ')' after it with no newline between, and takes the spaces after it (`SpanAt`); there is no match exactly when no '(' follows the leading spaces or every later ')' has a newline before it |
| Text.StripParenthesised | process_raw_data.py:92 | the substitution never lengthens a title |
| Text.StripDeletesOnly | process_raw_data.py:92 | the substitution only deletes characters: the result is a subsequence of the title |
| Text.StripWithoutParen | process_raw_data.py:92 | a title without '(' is unchanged |
| Text.StripRemovesSpans | process_raw_data.py:92 | in a single-line title no '(' of the result is followed by a ')' |
| Text.StripKeepsPlainPrefix | process_raw_data.py:92 | a prefix without '(' that ends in a non-space is kept as it is |
| Text.StripTrailingSpan | process_raw_data.py:92 | a trailing " (...)" is removed entirely, along with the space before it |
| Text.StripWholeSpan | process_raw_data.py:92 | a title that is one parenthesised span becomes empty |
| Numeric.ParseDecimalAccepts | process_raw_data.py:45 | the modelled `to_numeric` accepts exactly an optional sign, digits with at most one point, and at least one digit |
| Numeric.ParseRendered | process_raw_data.py:45 | the decimal rendering of a natural number parses back to that number |
| Numeric.ParseRenderedNegative | process_raw_data.py:45 | a minus sign followed by the rendering of n parses to -n |
| Sorting.InsertSorted | process_raw_data.py:98 | inserting into a descending sequence keeps it descending |
| Sorting.SortDesc | process_raw_data.py:98 | the sort gives a permutation whose keys are non-increasing, with missing keys last |
| Tally.GroupCorrect | analyse_processed_data.py:31-32 | group-by-sum gives distinct keys, exactly the keys of the items, each with the sum of its items, and a grand total equal to the sum of all the items |
| Tally.OnesWeight | analyse_processed_data.py:15 | counting with weight one gives each key its number of occurrences |
| Analysis.DecadeCell | analyse_processed_data.py:9 | `(year // 10) * 10` floors: the decade is a multiple of ten, at most the year and more than the year minus ten; a missing year gives a missing decade |
| Analysis.DecadeAdded | analyse_processed_data.py:7-10 | a missing or text year column is an error; otherwise a `decade` column is set (appended when new) and every other cell is unchanged |
| Analysis.DecadeOfYear | analyse_processed_data.py:9 | the decade of each row is the floor of its year to a multiple of ten |
| Analysis.AddDecadeColumn | analyse_processed_data.py:7-10 | the decade column is added to the frame in place and the frame is returned; on error the frame is unchanged |
| Analysis.SizeBy | analyse_processed_data.py:15 | `groupby(...).size()` is a permutation of the per-key counts, in ascending key order |
| Analysis.SizeByCorrect | analyse_processed_data.py:15 | the groups are ascending, their keys are exactly the values in the column, each count is the number of rows with that value, and the counts add up to the number of rows with a value |
| Analysis.DecadeCountsCorrect | analyse_processed_data.py:15 | each decade key is a multiple of ten with a positive count, and the counts add up to the number of books with a year |
| Analysis.YearlyCountsCorrect | analyse_processed_data.py:51 | the yearly counts are ascending, list exactly the years that occur, and count the books of each year |
| Analysis.AuthorItems | analyse_processed_data.py:31-32 | the items give each author the sum of that author's ratings, and list exactly the named authors |
| Analysis.AuthorRatings | analyse_processed_data.py:31-32 | an error exactly when a column is missing or the author or ratings cells are not of the expected kind; otherwise one entry per named author, holding the sum of that author's ratings |
| Analysis.NLargest | analyse_processed_data.py:34 | `nlargest(n)`: min(n, size) entries in descending order, taken from the input, none smaller than an entry left out |
| Analysis.TopAuthors | analyse_processed_data.py:31-34 | an error exactly when the author totals are; otherwise at most ten entries in descending order, taken from the totals |
| Analysis.TopAuthorsCorrect | analyse_processed_data.py:31-34 | each author shown carries the true sum of that author's ratings, and no author left out has more ratings than any author shown |
| Keywords.GetAllWords | get_keywords.py:7-13 | a missing title column is an error, and so is a non-text title; otherwise the result is the words of every title, title by title |
| Keywords.CollectWords | get_keywords.py:9-13 | the loop collects the words of each title in turn and stops at the first non-text title |
| Keywords.TitleWordsAppend | get_keywords.py:10-12 | the words of two lists of titles are the words of the first list followed by those of the second |
| Keywords.TitleWordsAreWords | get_keywords.py:11-12 | every collected word is non-empty and holds no whitespace |
| Keywords.FilterStopWords | get_keywords.py:26-27 | the kept words are lower case, are not stop words, and are no more than the input words |
| Keywords.FilterStopWordsIsFilter | get_keywords.py:26-27 | the comprehension is the stop-list filter applied to the lower-cased words |
| Keywords.FilterStopWordsMembers | get_keywords.py:26-27 | a word is in the result exactly when it is the lower case of an input word and is not a stop word |
| Keywords.FilterStopWordsOrder | get_keywords.py:26-27 | the result is a subsequence of the lower-cased words, so order is kept |
| Keywords.FilterStopWordsAppend | get_keywords.py:26-27 | filtering distributes over concatenation |
| Keywords.FilterStopWordsIdempotent | get_keywords.py:26-27 | filtering twice is filtering once |
| Keywords.WordFrequencies | get_keywords.py:31-36 | `value_counts` is a permutation of the per-word counts, sorted by descending count |
| Keywords.WordFrequenciesCorrect | get_keywords.py:31-36 | the words of the counts are distinct and are exactly the input words; each count is the word's number of occurrences and is positive; the counts add up to the number of words |
| Keywords.Head | get_keywords.py:41 | `head(n)` keeps the first n rows (all but the last -n when n is negative), unchanged |
| Keywords.TopWordsAreTop | get_keywords.py:39-41 | the chart shows min(20, distinct words) rows in frequency order, and no word left out is more frequent than a word shown |
| Fixture.Step0 | test_process_raw_data.py:51-55 | dropping the junk columns from the sample frame removes `index` and `Unnamed: 0` and keeps the rest |
| Fixture.Step1 | test_process_raw_data.py:58-61 | on the sample without its junk columns, the title filter drops the empty title and nothing else |
| Fixture.Step2 | test_process_raw_data.py:64-66 | on the titled sample rows, the author filter drops the row without an author id and nothing else |
| Fixture.Rating45 | test_process_raw_data.py:69-73 | the rating "4,5" becomes 4.5 |
| Fixture.Count1000 | test_process_raw_data.py:76-80 | the count "1`000" becomes 1000 |
| Fixture.Step5 | test_process_raw_data.py:83-89 | on the reformatted sample rows the conversion makes the years and counts whole and keeps the ratings real |
| Fixture.Step6 | test_process_raw_data.py:120-125 | on the converted sample rows the merge puts the lookup's names in place of the ids and drops `author_id` |
| Fixture.Step8 | test_process_raw_data.py:99-102 | after the merge and the renaming of the sample, the reordering gives exactly the preferred columns in order |
| Fixture.StripBookD | test_process_raw_data.py:105-109 | "Book D (Special Edition)" is cleaned to "Book D" |
| Fixture.SortedSample | test_process_raw_data.py:112-117 | four rows rated 4.5, 3.8, 5.0 and 2.7, as in the sample, sort to the third, the first, the second and the fourth (Book C, Book A, the empty title, Book D) |
| Fixture.SampleProcessed | process_raw_data.py:110-121 | on the sample frames the whole chain gives the two rows Book A and Book D, with their authors, years, ratings and counts |

## Left out

- Reading the CSV, the SQLite connection, `get_authors_df`, `return_processed_data` writing the output file, the `__main__` blocks and `main` functions: these are I/O. The author lookup and the raw frame are parameters.
- The Altair charts and their `save` calls (`create_decade_pie_chart`, `create_top_authors_bar_chart`, `create_trends_in_release_count_over_time_chart`, `plot_word_frequencies` after line 41): these are rendering and file output. Only the tables they chart are modelled.
- IEEE doubles: numbers are exact reals and whole numbers are unbounded. NaN is `Null`. Rounding, overflow and the `Int64` range are not modelled.
- Numeric.ParseDecimal: accepts only an optional sign, digits and at most one point. The exponents, `inf`, `nan` and surrounding whitespace that `to_numeric` also accepts are left out, so those texts become missing in the model.
- Text.Lower: lower-cases ASCII capitals only. Unicode case mapping is left out.
- pandas dtypes are not modelled. A column's kind is the kind of its cells, and the `.str` accessor is refused only when a column holds no string at all (`Frames.HasStrings`). In pandas the rule depends on the column's dtype.
- Process.CastFloat and Process.CastInt approximate `astype`: text is cast to float only when it parses, and to `Int64` never.
- Process.ProcessRawData, Process.Processed and Process.FinishFrame require `Process.Admissible`: no `name` or `author_name` column before the merge, and no column already carrying a label the renaming produces. Outside that, pandas would suffix or duplicate labels, which the map-based rows cannot hold.
- Process.ReplaceAuthorsIdWithName: refuses a text join key, as pandas does when object keys meet integer ids. The lookup is modelled as (id, name) pairs, so extra lookup columns are left out.
- Process.SortDataframe: refuses text ratings instead of comparing them. It states permutation and order but not the order of rows with equal ratings; pandas' quicksort tie order is not specified.
- Keywords.WordFrequencies: the order of words with equal counts is the order of first appearance, which `value_counts` does not promise.
- Analysis.AuthorRatings: groups in order of first appearance, not in the sorted order of `groupby`. This affects only the tie order of `nlargest`. An author name that is neither text nor missing, and a ratings count that is text or not whole, are reported as errors. pandas would group such names and sum such counts.
- Keywords.GetAllWords: a non-text title (`NaN` in pandas, where `.split` raises) is the error `NotText`.
- Analysis.SizeBy: group keys are numbers only; a column holding text keys, which pandas groups without error, is reported as an error. This also applies to `Analysis.YearlyCounts` and `Analysis.DecadeCounts`. It cannot happen after `process_raw_data`, whose year column is whole or missing.
- Analysis.YearlyCounts: grouped over its argument, as the function's signature intends, not over the module-level `books`.
