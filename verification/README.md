# DynamicPageList report pipeline, modelled in Dafny

This project models the core of `classes/Parse.php` of the DynamicPageList
MediaWiki extension. `Parse::parse()` turns the text of a `<dpl>` tag into a
list of pages. The model covers that pipeline with the database, cache and
MediaWiki plumbing removed. Each stage is a module. Most variables that link
the stages (the settings the checks and the query read) are never assigned in
the file. The stages are kept separate, so `$rawParameters` (assigned at
`classes/Parse.php:132`) and `$aArticles` (assigned at
`classes/Parse.php:550`, 766, 779 and 784), which the file does assign, are
also taken as inputs by the stages that read them.

- `UserInput` (`user_input.dfy`): `prepareUserInput`. It substitutes the
  alias characters, normalises line ends, trims outer newlines and splits
  the text into lines.
- `ParameterLines` (`parameter_lines.dfy`): the loop over parameter lines.
  - Each line is classified, and warnings go to a `Logger` object
    (`diagnostics.dfy`).
  - The parameter store is an oracle that answers three questions: does a
    name exist, does the caller have the rights for it, and does its setter
    accept a value.
- `ResetFlags` (`reset_flags.dfy`): the eight reset/eliminate flags, as an
  array. They are initialised from `eliminate`, and in tag mode eliminate is
  folded into reset.
- `Checks` (`checks.dfy`): category counting, the chain of early-return
  checks, and the non-fatal adjustments after it.
- `QueryShape` (`query_shape.dfy`): the flags the SQL text is built from,
  kept as a record instead of SQL text: SQL_CALC_FOUND_ROWS, DISTINCT,
  GROUP BY page_title, the order methods for goal=categories, and where
  `rev_id DESC` goes.
- `RowMapping` (`row_mapping.dfy`): the loop over result rows. It covers
  random sampling against a given shuffle, exclusions, the article record
  and the per-heading counts.
- `PostProcess` (`post_process.dfy`): the backward-scrolling reversal and
  `cardSuitSort`.
- `HeaderFooter` (`header_footer.dfy`): the no-results early return, and
  the general header and footer with their placeholders.
- `TableRowKeys` (`table_row_keys.dfy`): `updateTableRowKeys`.
- `TimeFormat` (`time_format.dfy`): `prettyTimeStamp` and `durationTime`.
- `PhpStrings` (`php_strings.dfy`) and `Wrappers` (`wrappers.dfy`): the PHP
  string built-ins the file relies on, written out on `seq<char>`:
  `str_replace`, `explode`, `trim`, `substr`, `str_pad`, `strpos`, and
  `strcmp` order. A Dafny `string` stands for a PHP string.

The loops that change things in place are methods, each proved against a
specification function:
- the parameter loop (`ParseParameterLines`), which appends to the logger;
- the row loop (`MapRows`, whose loop is `MapKeptRows`);
- the flag array updates (`InitResetFlags`, `FoldEliminateIntoReset`);
- `updateTableRowKeys` (`UpdateTableRowKeys`, `AppendLabel`, `AppendColumns`);
- the four loops of `cardSuitSort`: the key loop (`ArticleKeys`), its inner
  token loop (`TitleKey`), the copy loop (inside `CardSuitSort`) and the
  write-back loop (`PlaceByKeys`);
- the header/footer assembly (`EmitNoResults`, `ShowOutput`).

The other stages are pure and are written as functions with lemmas.

Two details of the zero-row case:
- **Counts in no-results templates.** The early return fills `%PAGES%`
  with a fixed 0 (`classes/Parse.php:531`). On the general path with zero
  rows, `%PAGES%` receives the list's own row count
  (`classes/Parse.php:833`).
- **Header and footer with zero rows.** With zero rows and empty no-results
  templates, the general footer is shown and no general header is.

Two behaviours of the code are stated as lemmas without being called bugs:
- **`%TOTALPAGES%` split across templates.** The test that asks the
  database for the total row count looks for `%TOTALPAGES%` in the results
  header, results footer and no-results header glued together. A marker
  split across two templates therefore counts as well
  (`QueryShape.CalcFoundRowsAcrossTemplates`).
- **One-result footer.** The one-result footer has only `%PAGES%` filled
  in. A `%TOTALPAGES%` in it stays as written
  (`HeaderFooter.OneResultFooterKeepsTotal`).

## Model

| member | source | states |
|---|---|---|
| UserInput.PrepareUserInput | classes/Parse.php:963-973 | there is always at least one line; no line holds "\n" or "\r"; joining the lines with "\n" gives back the text with aliases substituted, line ends normalised and outer "\n" trimmed |
| UserInput.NoLineBreakInLines | classes/Parse.php:970-972 | after "\r\n" and "\r" become "\n" and the text is split at "\n", no line holds either line-break character |
| UserInput.PreparedTextTrimmed | classes/Parse.php:971 | the prepared text neither starts nor ends with "\n", and it is a contiguous slice of the normalised text |
| UserInput.AliasesGone | classes/Parse.php:967 | no prepared line holds «, » or ¦ any more |
| ParameterLines.SplitAtFirst | classes/Parse.php:141 | a split exists exactly when the line has an '='; the line is name + "=" + value, and the name holds no '=', so the value keeps any later '=' |
| ParameterLines.NormaliseName | classes/Parse.php:142-149 | the looked-up name holds neither '<' nor '>'; a trimmed name without them is used unchanged |
| ParameterLines.ClassifyLineCases | classes/Parse.php:135-170 | a line without '=' gives exactly one WARN_UNKNOWNPARAM (naming the previous `$parameter`) and nothing else; an empty name, a '#' comment or a known name failing the rights test gives no warning and no setter call; a known name with an empty value gives neither, except namespace, notnamespace and category; every other line reaches the setter with the trimmed value, preceded by WARN_UNKNOWNPARAM for an unknown name and followed by WARN_WRONGPARAM when the setter refuses |
| ParameterLines.ClassifyLine | classes/Parse.php:136-170 | a line gives at most two warnings, and reaches the setter only when it has an '=' and a usable name (no '<' or '>', not silenced), which becomes the new `$parameter` |
| ParameterLines.RunLinesCallsAdmissible | classes/Parse.php:135-171 | every setter call the loop makes has a usable name without '<'/'>' and no dropped empty value; each line gives at most one call and at most two warnings |
| ParameterLines.RunLinesNoAssignments | classes/Parse.php:136-138 | lines without '=' give one WARN_UNKNOWNPARAM each and no setter call, and `$parameter` stays "" |
| ParameterLines.RunLines | classes/Parse.php:135-171 | the loop makes at most one setter call and two warnings per line |
| ParameterLines.HandleAssignment | classes/Parse.php:151-170 | logs exactly the warnings of the line's classification and makes its setter call |
| ParameterLines.HandleLine | classes/Parse.php:136-170 | one iteration: logs the line's warnings, returns its setter call and the new `$parameter` |
| ParameterLines.ParseParameterLines | classes/Parse.php:135-171 | the loop appends every line's warnings in order to the logger and returns all setter calls in order |
| ResetFlags.InitialFlags | classes/Parse.php:105-127 | eight flags; the four reset flags are off; the four eliminate flags are on exactly when `eliminate` is "all" |
| ResetFlags.InitResetFlags | classes/Parse.php:105-127 | builds a fresh eight-element array holding the initial flags |
| ResetFlags.FoldEliminateIntoReset | classes/Parse.php:242-256 | updates the array in place to the folded flags |
| ResetFlags.FoldedSemantics | classes/Parse.php:242-256 | in tag mode the link flags stay; reset of templates, categories and images is on exactly when it or the matching eliminate flag was; those eliminate flags end off; outside tag mode nothing changes |
| ResetFlags.FoldedIdempotent | classes/Parse.php:242-256 | folding twice equals folding once |
| ResetFlags.FoldedKeepsResets | classes/Parse.php:242-256 | folding never clears a reset flag |
| ResetFlags.EliminateAllInTagMode | classes/Parse.php:242-256 | eliminate=all in tag mode gives reset for templates, categories and images, plus eliminate for links |
| Checks.TotalIncludeCount | classes/Parse.php:237-238 | `count(..., COUNT_RECURSIVE) - count(...)` on the include categories is the sum of the lengths of the inner lists |
| Checks.CategoryCountChecks | classes/Parse.php:237-289 | the total is the included categories plus the excluded ones; above the maximum (without unlimited categories) the run ends with TOOMANYCATS and the maximum; otherwise, below the minimum, with TOOFEWCATS and the minimum |
| Checks.FirstFailing | classes/Parse.php:282-366 | the index found is a failing check with no failing check before it; no index means no check fails |
| Checks.ChecksStopAtFirstFailure | classes/Parse.php:282-366 | the chain ends with exactly the outcome of the first failing check in source order, and proceeds to the query exactly when no check fails |
| Checks.ProceedingRunPassedChecks | classes/Parse.php:282-402 | a run that reaches the query has a category count within the maximum (or unlimited categories) and at least the minimum, something to select, at most one kind of added date, a dominant section within the labels, and heading mode only with two or more order methods; a silent stop happens only for an empty selection at debug level 1 or below |
| Checks.NoSelectionStops | classes/Parse.php:292-297 | with no categories and no other selection criteria the run stops silently at debug level 1 or below, and with NOSELECTION above it |
| Checks.MoreThanOneDateRejected | classes/Parse.php:314-316 | two or more kinds of added date end the run with MORETHAN1TYPEOFDATE when no earlier check stopped it |
| Checks.DominantSectionRejected | classes/Parse.php:319-321 | a dominant section beyond the number of section labels ends the run with DOMINANTSECTIONRANGE naming the label count when no earlier check stopped it |
| Checks.AdjustEffects | classes/Parse.php:381-402 | after the adjustments: the heading mode is "none" or there are two or more order methods, and it changed exactly when its warning was logged; open references stay on only without conflicts, and are turned off exactly when OPENREFERENCES was logged; the order changes only from ascending to descending, only for backward scrolling; at most three warnings |
| Checks.AdjustIdempotent | classes/Parse.php:381-402 | adjusting the adjusted settings again changes nothing and can only repeat the category-output warning |
| Checks.Adjust | classes/Parse.php:381-402 | at most three warnings; afterwards the heading mode is "none" or there are two or more order methods, and open references stay accepted only if they were accepted and nothing conflicts with them |
| QueryShape.CalcFoundRowsWhenTotalShown | classes/Parse.php:413-415 | with limited results and goal other than categories, %TOTALPAGES% in the results header, results footer or no-results header requests SQL_CALC_FOUND_ROWS; unlimited results or goal=categories never request it |
| QueryShape.CalcFoundRowsAcrossTemplates | classes/Parse.php:413 | a header "%TOTAL" and footer "PAGES%", neither holding the marker, still request SQL_CALC_FOUND_ROWS |
| QueryShape.DistinctAndGroupBy | classes/Parse.php:416-424 | DISTINCT is dropped only for boolean false; GROUP BY page_title applies exactly for 'strict' (or true, by loose comparison) with at least one link or image filter, and implies DISTINCT |
| QueryShape.CategoriesGoal | classes/Parse.php:432-499 | goal=categories leaves one empty order method, so a revision filter opens a new ORDER BY; the outer category order is descending exactly for order=descending; no SQL_CALC_FOUND_ROWS |
| QueryShape.RevIdPlacement | classes/Parse.php:481-488 | `rev_id DESC` is added exactly with an all-revisions filter, and after the existing ordering only when a real first order method exists |
| QueryShape.BuildShape | classes/Parse.php:413-500 | GROUP BY page_title comes with DISTINCT; SQL_CALC_FOUND_ROWS only for goal=pages; an outer category order exactly for goal=categories; `rev_id DESC` is appended only after a first order method that is neither empty nor "none" |
| RowMapping.ChopBounds | classes/Parse.php:622-624 | a title within the maximum length is kept; a longer one becomes its first max characters plus "...", of length max + 3 |
| RowMapping.FirstEnabledIsFirst | classes/Parse.php:696-704 | an elseif chain over options gives the value of the first enabled option, and the fallback when none is enabled |
| RowMapping.RawDateFirstEnabled | classes/Parse.php:687-704 | the raw date is the first applying choice among page_touched, the category date, the edit timestamp and the edit page_touched, with the revision date as fallback |
| RowMapping.LinkShape | classes/Parse.php:625-632 | a wiki link is "[[…]]"; curid and URL links are "[{{fullurl:…]"; a URL link is chosen exactly when no curid link applies, links are escaped and the title is a category or a file |
| RowMapping.ArticleLink | classes/Parse.php:625-632 | every link form opens with '[' and closes with ']' |
| RowMapping.DatePriority | classes/Parse.php:687-704 | page_touched overrides the category date, which overrides the edit dates; whenever one of the date options applies, the date is the same with or without a revision filter; when none applies, the date is the revision timestamp under a revision filter and empty without one |
| RowMapping.Spaced | classes/Parse.php:737 | a category name with underscores replaced holds no '_' |
| RowMapping.CategoryTexts | classes/Parse.php:734-738 | one text per category name, each the name with underscores shown as spaces |
| RowMapping.CategoriesOfPage | classes/Parse.php:733-738 | the names split at " \| " join back to `cats`; one link and one text per name; no text holds '_' |
| RowMapping.HeadingKey | classes/Parse.php:741-756 | for goal=pages with headings on, a row whose first order method is "category" is counted under its category and one whose first order method is "user" under its editor's name; no other row has a heading |
| RowMapping.ParentHeadingLink | classes/Parse.php:741-763 | the article gets a heading link exactly when the row is counted under a heading |
| RowMapping.ParentHeadingLinkText | classes/Parse.php:741-763 | the heading link of an empty category is the "Uncategorized pages" special page with its message; of another category, the category link showing the name with underscores as spaces; under "user", the editor's user page showing the name |
| RowMapping.MapRowFields | classes/Parse.php:611-766 | the article stands for the row's title; it has a heading link exactly when the row has a heading; one category text per category link; a formatted date only beside a raw one; for goal=categories no date, revision, user, user link or categories |
| RowMapping.KeepRow | classes/Parse.php:575-609 | a row is kept exactly when it is sampled (in random mode), is not an excluded subpage, and is not the page holding the list |
| RowMapping.CountHeading | classes/Parse.php:745 | counts one more article under the key, appending a new heading with count one |
| RowMapping.MapRows | classes/Parse.php:552-767 | the loop returns the articles mapped from the kept rows, with `pick` the first min(k, n) entries of the given shuffle, and the headings counted over those rows |
| RowMapping.MapKeptRows | classes/Parse.php:571-767 | for any row-to-article mapping, the loop returns the mapped kept rows in row order and the headings counted over exactly those rows |
| RowMapping.KeptIndices | classes/Parse.php:571-609 | the kept row numbers in increasing order, each kept, and every kept row listed |
| RowMapping.ArticlesAreKeptRows | classes/Parse.php:571-767 | the articles are exactly the kept rows, mapped one by one, in row order |
| RowMapping.HeadingsStayValid | classes/Parse.php:741-763 | headings are distinct, in first-met order, each with a count of at least one |
| RowMapping.AddHeadingCount | classes/Parse.php:745 | counting under a key adds one to that heading and leaves every other heading unchanged |
| RowMapping.HeadingCounts | classes/Parse.php:741-763 | each heading's count is the number of kept rows under it; a heading no kept row has is absent |
| RowMapping.KeptCountWithoutExclusions | classes/Parse.php:552-577 | with sampling and no exclusions, the number of articles is the number of picked positions among the rows |
| RowMapping.SampleSize | classes/Parse.php:552-577 | for a shuffle that is a permutation of 1..n, exactly min(k, n) articles come out, and row i is kept exactly when i+1 is among the first min(k, n) entries of the shuffle |
| PostProcess.Reversed | classes/Parse.php:779 | same length, element i is the element n-1-i |
| PostProcess.ReversedMultiset | classes/Parse.php:779 | reversal keeps every article, as a multiset |
| PostProcess.Scrolled | classes/Parse.php:777-780 | the scrolling step keeps the articles, as a multiset |
| PostProcess.ScrolledOrder | classes/Parse.php:777-780 | when scrolling backward (titleLE only, order descending) the list is reversed and reversing again restores it; otherwise it is unchanged |
| PostProcess.AfterLastShape | classes/Parse.php:1171 | what remains after removing up to the last ':' is a suffix without ':', preceded by ':' when shorter than the title |
| PostProcess.Tokens | classes/Parse.php:1172 | splitting a title gives at least one token |
| PostProcess.TokensFree | classes/Parse.php:1172 | no token holds the separator " -" |
| PostProcess.TokensJoin | classes/Parse.php:1172 | tokens joined with " - " split back into the same tokens when none can be mistaken for a separator |
| PostProcess.LeadingDigits | classes/Parse.php:1206 | `intval` reads the longest run of leading digits |
| PostProcess.KeyIndexOfTag | classes/Parse.php:1199-1206 | the number read back from the key `newkey#a` is a |
| PostProcess.Insert | classes/Parse.php:1204 | inserting adds exactly one occurrence of the key |
| PostProcess.SortStrings | classes/Parse.php:1204 | sorting permutes the keys (multiset equality) |
| PostProcess.InsertSorted | classes/Parse.php:1204 | inserting into a sorted list keeps it sorted |
| PostProcess.SortStringsSorted | classes/Parse.php:1204 | the sorted keys ascend in string order |
| PostProcess.TaggedKeysDistinct | classes/Parse.php:1199 | the `#index` suffix makes all keys pairwise distinct |
| PostProcess.SortedKeysTagged | classes/Parse.php:1199-1206 | every sorted key is the key of the article whose number it ends with |
| PostProcess.SortedIndices | classes/Parse.php:1205-1206 | one article number per key, each a valid position |
| PostProcess.SortedIndicesPermutation | classes/Parse.php:1201-1208 | the article numbers read from the sorted keys are pairwise distinct and cover every article |
| PostProcess.SuitOrder | classes/Parse.php:1205-1208 | the sorted list has as many articles as the input |
| PostProcess.SuitOrderSorted | classes/Parse.php:1204-1208 | listed in card-suit order, the articles' `key#index` strings ascend |
| PostProcess.SuitOrderPermutes | classes/Parse.php:1168-1210 | the result is a permutation of the input: position k holds the article of the k-th sorted key, no article twice, every article present and nothing else |
| PostProcess.TitleKey | classes/Parse.php:1171-1198 | the key-building loop computes the codes of the title's tokens |
| PostProcess.ArticleKeys | classes/Parse.php:1170-1200 | the first loop builds `newkey#a` for every article a |
| PostProcess.PlaceByKeys | classes/Parse.php:1205-1208 | position k receives the copy of the article numbered by sorted key k |
| PostProcess.CardSuitSort | classes/Parse.php:1168-1210 | returns the articles in card-suit order |
| PostProcess.CallCodeShape | classes/Parse.php:1175-1195 | a pass, bid or double codes to at least two characters starting with a digit from 0 to 8 |
| PostProcess.CallCodeOrder | classes/Parse.php:1175-1195 | the first two characters of the codes already order two different calls by bidding rank |
| PostProcess.TokenCode | classes/Parse.php:1175-1197 | a non-empty token never codes to nothing; the code of a level, pass or double token starts with a digit from 0 to 8 |
| PostProcess.AuctionSuitKey | classes/Parse.php:1171-1198 | the key of an auction title is the concatenated codes of its calls |
| PostProcess.AuctionKeysOrdered | classes/Parse.php:1173-1199 | an auction earlier in auction order has the strictly smaller key, whatever the article numbers |
| PostProcess.SuitOrderFollowsAuctions | classes/Parse.php:1168-1210 | in the sorted list, an auction title never precedes one that comes earlier in auction order |
| HeaderFooter.EmitNoResults | classes/Parse.php:530-544 | appends the no-results header and footer, each only when non-empty, with counts filled in and newlines resolved; logs WARN_NORESULTS exactly when both are empty |
| HeaderFooter.NoResultsReported | classes/Parse.php:530-544 | an empty result set is reported in exactly one way: some no-results text is emitted, or WARN_NORESULTS is logged |
| HeaderFooter.ShownClean | classes/Parse.php:531-537 | with decimal counts, a shown template holds no %PAGES%, %TOTALPAGES%, "¶" or backslash-n |
| HeaderFooter.ShownUnchanged | classes/Parse.php:531-537 | a template without '%', '¶' or '\\' is shown exactly as written |
| HeaderFooter.Placeholders | classes/Parse.php:850-884 | the later placeholders are replaced in source order, each name starting with '%' |
| HeaderFooter.FinishEmpty | classes/Parse.php:849-884 | an empty header or footer stays empty through all placeholder steps |
| HeaderFooter.PlainPassesThrough | classes/Parse.php:831-884 | a text without '%', '¶' or '\\' passes through every count and placeholder step unchanged |
| HeaderFooter.CountsFilled | classes/Parse.php:830-859 | every header, and every footer except the one-result footer, has %PAGES% and %TOTALPAGES% filled in; the one-result footer has %PAGES% filled in |
| HeaderFooter.OneResultFooterKeepsTotal | classes/Parse.php:852-853 | a one-result footer "%TOTALPAGES%" is left as written |
| HeaderFooter.HeaderTemplate | classes/Parse.php:829-849 | with one row and a one-result header, that header with %PAGES% and %TOTALPAGES% both 1; otherwise, with rows, the results header with the list's count and the row count; the header is non-empty exactly when one of these applies to a non-empty template, and with zero rows the corrected header is empty |
| HeaderFooter.FooterTemplate | classes/Parse.php:851-858 | with one row and a one-result footer, that footer with only %PAGES% set to 1; otherwise the results footer with both counts; the footer is non-empty exactly when the chosen template is |
| HeaderFooter.OutputAsWritten | classes/Parse.php:825-886 | what was output before stays the start of the result |
| HeaderFooter.Output | classes/Parse.php:825-886 | what was output before stays the start of the result, and with one or more rows the corrected output equals the output as written |
| HeaderFooter.ShowOutput | classes/Parse.php:825-886 | appends header, list and footer, chosen by row count, with the no-results templates first when there are no rows (header emitted once); logs WARN_NORESULTS exactly when there are no rows and both no-results templates are empty |
| HeaderFooter.AsWrittenExtraHeader | classes/Parse.php:832-849 | as written, zero rows put a second, processed copy of the no-results header between the no-results text and the list; the corrected output has nothing there |
| HeaderFooter.NoResultsHeaderTwice | classes/Parse.php:832-886 | as written, no-results header "x" and zero rows give "xx", where the early return gives "x" |
| HeaderFooter.ZeroRowsAgreeWithEarlyReturn | classes/Parse.php:825-886 | corrected, zero rows with an empty list and no results footer give exactly the early return's output |
| HeaderFooter.UnderscoredNoSpace | classes/Parse.php:870-873 | the first/last namespace and title texts hold no space |
| HeaderFooter.NamespaceUnderscored | classes/Parse.php:870 | a namespace number is unchanged by underscoring |
| HeaderFooter.TitleRoundTrip | classes/Parse.php:871 | the displayed title underscored again gives back a title key without spaces |
| HeaderFooter.EndsOfArticles | classes/Parse.php:869-874 | the first/last placeholders come from the first and last article (namespace number, title key); all are empty without articles; none holds a space |
| TableRowKeys.DotMarksColumn | classes/Parse.php:989-999 | only a column key `g.c` has a '.' in its text |
| TableRowKeys.KeyTextInjective | classes/Parse.php:989-999 | different keys have different texts, so no entry overwrites another |
| TableRowKeys.LayoutCases | classes/Parse.php:986-992 | a label uses one position exactly when it has no "}:", and otherwise one per ':'-separated part of its segment after the first "}:" |
| TableRowKeys.AppendColumns | classes/Parse.php:992-1001 | the column loop appends the entries `g.0`…`g.(n-1)` present in the old array and advances the position by n |
| TableRowKeys.AppendLabel | classes/Parse.php:984-1002 | one label appends its entries and advances the position by its width |
| TableRowKeys.UpdateTableRowKeys | classes/Parse.php:978-1004 | the rebuilt array is the entries of all labels, in label order |
| TableRowKeys.TableRowUpTo | classes/Parse.php:978-1004 | the rebuilt array after k labels has at most one entry per table-row position those labels take |
| TableRowKeys.TableRowMembers | classes/Parse.php:978-1004 | an entry is in the rebuilt array exactly when its group is a label index and that label's entries contain it |
| TableRowKeys.GroupKeys | classes/Parse.php:983-1003 | label g starts where label g-1 ended; a single label holds key g with the old value at its start, if present, and no column keys; a column label holds keys g.c for c below its width, each with the old value at start + c, if present, and no key g |
| TableRowKeys.LabelKeysSingle | classes/Parse.php:987-990 | a label without "}:" is keyed g, holds the old entry at its start if present, and takes one position |
| TableRowKeys.LabelKeysMulti | classes/Parse.php:991-1001 | a label with "}:" is keyed g.0…g.(m-1), m the number of ':'-parts of its column segment, copying present old entries from m consecutive positions |
| TableRowKeys.ValuesAreOld | classes/Parse.php:988-999 | every value of the rebuilt array is an old value from a position inside the labels' span |
| TableRowKeys.KeysDistinct | classes/Parse.php:978-1004 | no key occurs twice in the rebuilt array |
| TimeFormat.PrettyTimeStamp | classes/Parse.php:1023-1025 | the stamp gains six separator characters, and a short stamp gives shorter pieces |
| TimeFormat.PrettyTimeStampRoundTrip | classes/Parse.php:1023-1025 | a 14-digit stamp is laid out as YYYY/MM/DD  hh:mm:ss, and dropping the separators gives it back |
| TimeFormat.DurationTime | classes/Parse.php:1027-1041 | below a day the text is the clock hh:mm:ss of t, each field padded to two digits; from one day up to two days it is "1 day"; from two days on it is the decimal number of whole days followed by " days" |
| TimeFormat.DurationClockRoundTrip | classes/Parse.php:1027-1036 | below a day the clock text reads back as the same number of seconds |
| TimeFormat.DurationDays | classes/Parse.php:1040 | from two days on the text is the whole number of days (at least 2) followed by " days" |

## Left out

- Database access is left out: running the query, FOUND_ROWS, `getSubcategories` and the `dpl_clview` check. `$bIncludeUncat` is set to false at `classes/Parse.php:133` and never to true, so the branch at line 371 is dead. The SQL text itself is also left out; `QueryShape` keeps only the flags it is built from.
- FOUND_ROWS and the number of rows are inputs of `HeaderFooter.Run`.
- The disk cache (`filemtime`, `fopen`) is left out, and so are hook registration, `$createdLinks` (the non-tag branch of the flag folding), the local re-parse, `defineScrollVariables`/`getUrlArgs` and `resolveUrlArg`. They are global state or I/O.
- MediaWiki services are uninterpreted functions of `RowMapping.Host`: namespace names, language conversion, first letter, time zone adjustment, `gmdate`, `htmlspecialchars`, the user's title regex and the "Uncategorized pages" message.
- `Title::equals` is equality of namespace and title key.
- The `ListMode`/`DynamicPageList` rendering classes are not part of this model. Their row count and text are inputs (`Run.dplCount`, `Run.dplResult`).
- `RowMapping.MapRow` does not set the contribution stars, which are computed with `round(log(...))` (floating point).
- `%DPLTIME%` takes the elapsed time already formatted by `sprintf('%.3f sec.')` and the `date('YmdHis')` reading as inputs, because they are clock readings.
- `shuffle` is an input: the shuffled list is a parameter of `RowMapping.MapRows`.
- `execandexit` and the debug-level dumps are left out. They reference undefined variables and only emit diagnostics.
- The setter behind `$this->parameters->$function(...)` is an oracle (`ParameterOracle.accepts`). The file calls it through an undefined variable.
- `$resultsHeader` is never initialised in the file. Lines 195 and 228 only prefix it: the cache warning, and `<pre><nowiki>` at debug level 5, where line 229 also appends `</nowiki></pre>` to the results footer. The model takes the templates as they stand when the output is assembled (`classes/Parse.php:825`), so these additions are part of the input.
- Message texts are left out: a message is its kind and its arguments.
- Strings are sequences of characters, not bytes. `strlen`/`substr` in the title chop count characters, while PHP counts UTF-8 bytes.
- The string order of `sort()` is character order, which matches byte order on UTF-8. The keys always hold '#', so PHP never compares them as numbers.
- `PostProcess.AfterLast` models `preg_replace('/.*:/', '', …)` on one-line titles only, where `.` never meets a newline.
- `PostProcess.KeyIndex` models `intval` as reading the leading decimal digits, which is all it meets on the keys.
- `PostProcess.SuitOrderPermutes` states the permutation as a bijection of positions plus membership both ways, not as multiset equality of articles.
- `TimeFormat.DurationTime` takes whole seconds, as the file always passes. `fmod`/`floor` on fractional seconds are left out.
- The check chain returns its outcome instead of logging it (`Checks.RunChecks`). The logger call of each `return $this->logger->addMessage(...)` is the `Fatal` message.
- `$sDistinctResultSet` is either a boolean or a text (`QueryShape.LooselyStrict`). Under PHP's loose comparison, only true and "strict" equal 'strict'.

## Findings

| source | as written | input that shows it | evidently intended | confidence | as-written member | corrected member |
|---|---|---|---|---|---|---|
| classes/Parse.php:832-849 | with zero rows on the general path, the no-results header is appended (line 835) and then also kept as `$header`, which line 886 appends again after newline and placeholder processing | no-results header "x", every other template empty, no FOUND_ROWS, an empty list: the output is "xx" | the no-results header appears once, as in the early return at line 533; `$header` stays empty when there are no rows | not executed | HeaderFooter.NoResultsHeaderTwice | HeaderFooter.ZeroRowsAgreeWithEarlyReturn |
