/**
 * The text that frames the list: the no-results header and footer emitted
 * when the query finds nothing, and the general header and footer chosen by
 * the number of rows, with their placeholders (%PAGES%, %TOTALPAGES%,
 * %VERSION%, %DPLTIME%, first and last namespace and title, %SCROLLDIR%)
 * filled in and the newline markers ("¶" and a literal backslash-n) turned
 * into newlines.
 */
module HeaderFooter {
  import opened Wrappers
  import opened PhpStrings
  import opened Diagnostics
  import opened RowMapping
  import opened TimeFormat

  // ---------------------------------------------------------------------------
  // Templates with counts and newlines

  /** "¶" first, then the two characters backslash and n, both become a newline. */
  function Newlines(t: string): string {
    Replace(Replace(t, "¶", "\n"), "\\n", "\n")
  }

  /** %PAGES% first, then %TOTALPAGES%. */
  function Counts(t: string, pages: string, total: string): string {
    Replace(Replace(t, "%PAGES%", pages), "%TOTALPAGES%", total)
  }

  /** A template with its counts filled in and its newline markers resolved. */
  function Shown(t: string, pages: string, total: string): string {
    Newlines(Counts(t, pages, total))
  }

  /** The no-results header and footer, each only when it is non-empty. */
  function NoResultsText(header: string, footer: string, pages: string, total: string): string {
    (if header != "" then Shown(header, pages, total) else "")
    + (if footer != "" then Shown(footer, pages, total) else "")
  }

  /** WARN_NORESULTS, when neither no-results template says anything. */
  function NoResultsWarnings(header: string, footer: string): seq<Message> {
    if header == "" && footer == "" then [Message(WarnNoResults, [])] else []
  }

  /**
   * Emits the no-results header and footer after `output` and logs the
   * warning when both are empty. The early return for an empty result set
   * calls it with the counts "0" and "0"; the general path with zero rows
   * calls it with DPL's own row count and the total.
   */
  method EmitNoResults(output: string, header: string, footer: string, pages: string, total: string, logger: Logger)
    returns (out: string)
    modifies logger
    ensures out == output + NoResultsText(header, footer, pages, total)
    ensures logger.messages == old(logger.messages) + NoResultsWarnings(header, footer)
  {
    out := output;
    var h := Counts(header, pages, total);
    if header != "" {
      out := out + Newlines(h);
    }
    var f := Counts(footer, pages, total);
    if footer != "" {
      out := out + Newlines(f);
    }
    if header == "" && footer == "" {
      logger.AddMessage(WarnNoResults, []);
    }
  }

  // ---------------------------------------------------------------------------
  // What a shown template no longer holds

  lemma DigitsForeign(d: string)
    requires AllDigits(d)
    ensures CharsDisjoint(d, "%PAGES%") && CharsDisjoint(d, "%TOTALPAGES%")
  {
  }

  /** Filling in non-empty counts never empties a template. */
  lemma CountsNonEmpty(t: string, pages: string, total: string)
    requires |t| > 0 && |pages| > 0 && |total| > 0
    ensures |Counts(t, pages, total)| > 0
  {
    ReplaceNonEmpty(t, "%PAGES%", pages);
    ReplaceNonEmpty(Replace(t, "%PAGES%", pages), "%TOTALPAGES%", total);
  }

  /**
   * With decimal counts, a shown template holds no %PAGES%, no %TOTALPAGES%,
   * no "¶" and no backslash-n any more.
   */
  lemma {:induction false} ShownClean(t: string, pages: string, total: string)
    requires |pages| > 0 && |total| > 0 && AllDigits(pages) && AllDigits(total)
    ensures var r := Shown(t, pages, total);
      !Contains(r, "%PAGES%") && !Contains(r, "%TOTALPAGES%") && !Contains(r, "¶") && !Contains(r, "\\n")
  {
    DigitsForeign(pages);
    DigitsForeign(total);
    var c1 := Replace(t, "%PAGES%", pages);
    ReplaceEliminates(t, "%PAGES%", pages);
    var c2 := Replace(c1, "%TOTALPAGES%", total);
    ReplaceEliminates(c1, "%TOTALPAGES%", total);
    ReplaceKeepsAbsent(c1, "%PAGES%", "%TOTALPAGES%", total);
    var n1 := Replace(c2, "¶", "\n");
    ReplaceEliminates(c2, "¶", "\n");
    ReplaceKeepsAbsent(c2, "%PAGES%", "¶", "\n");
    ReplaceKeepsAbsent(c2, "%TOTALPAGES%", "¶", "\n");
    ReplaceEliminates(n1, "\\n", "\n");
    ReplaceKeepsAbsent(n1, "%PAGES%", "\\n", "\n");
    ReplaceKeepsAbsent(n1, "%TOTALPAGES%", "\\n", "\n");
    ReplaceKeepsAbsent(n1, "¶", "\\n", "\n");
  }

  /** A template without '%', "¶" or backslash is shown exactly as written. */
  lemma {:induction false} ShownUnchanged(t: string, pages: string, total: string)
    requires '%' !in t && '¶' !in t && '\\' !in t
    ensures Shown(t, pages, total) == t
  {
    AbsentFirstChar(t, "%PAGES%");
    ReplaceAbsent(t, "%PAGES%", pages);
    AbsentFirstChar(t, "%TOTALPAGES%");
    ReplaceAbsent(t, "%TOTALPAGES%", total);
    AbsentFirstChar(t, "¶");
    ReplaceAbsent(t, "¶", "\n");
    AbsentFirstChar(t, "\\n");
    ReplaceAbsent(t, "\\n", "\n");
  }

  lemma {:induction false} ShownNonEmpty(t: string, pages: string, total: string)
    requires |t| > 0 && |pages| > 0 && |total| > 0
    ensures |Shown(t, pages, total)| > 0
  {
    var c1 := Replace(t, "%PAGES%", pages);
    ReplaceNonEmpty(t, "%PAGES%", pages);
    var c2 := Replace(c1, "%TOTALPAGES%", total);
    ReplaceNonEmpty(c1, "%TOTALPAGES%", total);
    var n1 := Replace(c2, "¶", "\n");
    ReplaceNonEmpty(c2, "¶", "\n");
    ReplaceNonEmpty(n1, "\\n", "\n");
  }

  /**
   * An empty result set is always reported, and in exactly one way: either
   * some no-results text is emitted or WARN_NORESULTS is logged.
   */
  lemma {:induction false} NoResultsReported(header: string, footer: string, pages: string, total: string)
    requires |pages| > 0 && |total| > 0
    ensures NoResultsText(header, footer, pages, total) == "" <==> NoResultsWarnings(header, footer) != []
  {
    if header != "" {
      ShownNonEmpty(header, pages, total);
    } else if footer != "" {
      ShownNonEmpty(footer, pages, total);
    }
  }

  // ---------------------------------------------------------------------------
  // The general header and footer

  /** The six templates the user may set. */
  datatype Templates = Templates(
    oneResultHeader: string, oneResultFooter: string,
    noResultsHeader: string, noResultsFooter: string,
    resultsHeader: string, resultsFooter: string)

  /**
   * What the run contributes: FOUND_ROWS when the query asked for it, the
   * number of rows the list shows, the list text, the version, the elapsed
   * time already formatted as "%.3f sec.", the "YmdHis" clock reading and the
   * scroll direction.
   */
  datatype Run = Run(
    foundRows: Option<nat>, dplCount: nat, dplResult: string,
    version: string, elapsed: string, now: string, scrollDir: string)

  /** `$rowcount`: FOUND_ROWS when requested, otherwise the number of rows DPL shows. */
  function RowCount(run: Run): nat {
    match run.foundRows
    case Some(n) => n
    case None => run.dplCount
  }

  /** The %DPLTIME% text: elapsed time and the displayed time stamp. */
  function DplTime(run: Run): string {
    run.elapsed + " (" + PrettyTimeStamp(run.now) + ")"
  }

  /**
   * The header before newlines and the later placeholders, as the source
   * writes it: with zero rows it still holds the no-results header, which
   * was already emitted once.
   */
  function HeaderTemplateAsWritten(t: Templates, rowcount: nat, dplCount: nat): string {
    if t.oneResultHeader != "" && rowcount == 1 then Counts(t.oneResultHeader, "1", NatToString(rowcount))
    else if rowcount == 0 then Counts(t.noResultsHeader, NatToString(dplCount), NatToString(rowcount))
    else if t.resultsHeader != "" then Counts(t.resultsHeader, NatToString(dplCount), NatToString(rowcount))
    else ""
  }

  /**
   * The header as intended: with zero rows the no-results header has been
   * emitted already, so none follows. A header appears only for rows, and
   * only from a non-empty template for that row count.
   */
  function HeaderTemplate(t: Templates, rowcount: nat, dplCount: nat): (h: string)
    ensures h != "" <==> rowcount > 0 && ((rowcount == 1 && t.oneResultHeader != "") || t.resultsHeader != "")
    ensures rowcount == 1 && t.oneResultHeader != "" ==> h == Counts(t.oneResultHeader, "1", "1")
    ensures rowcount > 0 && !(rowcount == 1 && t.oneResultHeader != "") && t.resultsHeader != "" ==>
              h == Counts(t.resultsHeader, NatToString(dplCount), NatToString(rowcount))
  {
    if t.oneResultHeader != "" && rowcount == 1 then
      CountsNonEmpty(t.oneResultHeader, "1", NatToString(rowcount));
      Counts(t.oneResultHeader, "1", NatToString(rowcount))
    else if rowcount == 0 then ""
    else if t.resultsHeader != "" then
      CountsNonEmpty(t.resultsHeader, NatToString(dplCount), NatToString(rowcount));
      Counts(t.resultsHeader, NatToString(dplCount), NatToString(rowcount))
    else ""
  }

  /**
   * The footer before newlines and the later placeholders; the one-result
   * footer only has %PAGES% filled in. A footer appears only from a
   * non-empty template for that row count.
   */
  function FooterTemplate(t: Templates, rowcount: nat, dplCount: nat): (f: string)
    ensures f != "" <==> (rowcount == 1 && t.oneResultFooter != "") || t.resultsFooter != ""
    ensures rowcount == 1 && t.oneResultFooter != "" ==> f == Replace(t.oneResultFooter, "%PAGES%", "1")
    ensures !(rowcount == 1 && t.oneResultFooter != "") && t.resultsFooter != "" ==>
              f == Counts(t.resultsFooter, NatToString(dplCount), NatToString(rowcount))
  {
    if t.oneResultFooter != "" && rowcount == 1 then
      ReplaceNonEmpty(t.oneResultFooter, "%PAGES%", "1");
      Replace(t.oneResultFooter, "%PAGES%", "1")
    else if t.resultsFooter != "" then
      CountsNonEmpty(t.resultsFooter, NatToString(dplCount), NatToString(rowcount));
      Counts(t.resultsFooter, NatToString(dplCount), NatToString(rowcount))
    else ""
  }

  /** The first and last article's namespace number and title, spaces shown as underscores. */
  datatype Ends = Ends(firstNamespace: string, firstTitle: string, lastNamespace: string, lastTitle: string)

  function Underscored(s: string): string {
    Replace(s, " ", "_")
  }

  /** All four are empty when no article is listed. */
  function EndsOf(articles: seq<Article>): Ends {
    if |articles| == 0 then Ends("", "", "", "")
    else
      var first, last := articles[0], articles[|articles| - 1];
      Ends(Underscored(IntToString(first.namespace)), Underscored(TitleText(first.dbKey)),
           Underscored(IntToString(last.namespace)), Underscored(TitleText(last.dbKey)))
  }

  /** The placeholders filled in after the counts and newlines, in the order they are replaced. */
  function Placeholders(run: Run, ends: Ends): (pairs: seq<(string, string)>)
    ensures forall i :: 0 <= i < |pairs| ==> |pairs[i].0| > 0 && pairs[i].0[0] == '%'
  {
    [("%VERSION%", run.version), ("%DPLTIME%", DplTime(run)),
     ("%FIRSTNAMESPACE%", ends.firstNamespace), ("%FIRSTTITLE%", ends.firstTitle),
     ("%LASTNAMESPACE%", ends.lastNamespace), ("%LASTTITLE%", ends.lastTitle),
     ("%SCROLLDIR%", run.scrollDir)]
  }

  /** One `str_replace` per pair, in order. */
  function ReplaceEach(s: string, pairs: seq<(string, string)>): string
    requires forall i :: 0 <= i < |pairs| ==> |pairs[i].0| > 0
    decreases |pairs|
  {
    if |pairs| == 0 then s else ReplaceEach(Replace(s, pairs[0].0, pairs[0].1), pairs[1..])
  }

  /** Newlines, then %VERSION%, %DPLTIME%, the first and last namespace and title, and %SCROLLDIR%. */
  function Finish(t: string, run: Run, ends: Ends): string {
    ReplaceEach(Newlines(t), Placeholders(run, ends))
  }

  /** The no-results text the general path emits before the header when there are no rows. */
  function EarlyText(t: Templates, run: Run): string {
    if RowCount(run) == 0 then NoResultsText(t.noResultsHeader, t.noResultsFooter, NatToString(run.dplCount), "0")
    else ""
  }

  /** The output of the general path as the source writes it; what was output before is kept as its start. */
  function OutputAsWritten(output: string, t: Templates, run: Run, articles: seq<Article>): (r: string)
    ensures |r| >= |output| && r[..|output|] == output
  {
    var rc := RowCount(run);
    var ends := EndsOf(articles);
    output + EarlyText(t, run)
    + Finish(HeaderTemplateAsWritten(t, rc, run.dplCount), run, ends)
    + run.dplResult
    + Finish(FooterTemplate(t, rc, run.dplCount), run, ends)
  }

  /**
   * The output of the general path with the no-results header emitted once.
   * It keeps what was output before as its start, and differs from the
   * output as written only when there are no rows.
   */
  function Output(output: string, t: Templates, run: Run, articles: seq<Article>): (r: string)
    ensures |r| >= |output| && r[..|output|] == output
    ensures RowCount(run) > 0 ==> r == OutputAsWritten(output, t, run, articles)
  {
    var rc := RowCount(run);
    var ends := EndsOf(articles);
    output + EarlyText(t, run)
    + Finish(HeaderTemplate(t, rc, run.dplCount), run, ends)
    + run.dplResult
    + Finish(FooterTemplate(t, rc, run.dplCount), run, ends)
  }

  /**
   * Appends header, list and footer to `output`; with zero rows the
   * no-results header and footer come first, and WARN_NORESULTS is logged
   * when both are empty.
   */
  method ShowOutput(output: string, t: Templates, run: Run, articles: seq<Article>, logger: Logger)
    returns (out: string)
    modifies logger
    ensures out == Output(output, t, run, articles)
    ensures logger.messages == old(logger.messages)
              + (if RowCount(run) == 0 then NoResultsWarnings(t.noResultsHeader, t.noResultsFooter) else [])
  {
    out := output;
    var rowcount := RowCount(run);
    var pages := NatToString(run.dplCount);
    var header := "";
    if t.oneResultHeader != "" && rowcount == 1 {
      header := Counts(t.oneResultHeader, "1", NatToString(rowcount));
    } else if rowcount == 0 {
      out := EmitNoResults(out, t.noResultsHeader, t.noResultsFooter, pages, NatToString(rowcount), logger);
    } else if t.resultsHeader != "" {
      header := Counts(t.resultsHeader, pages, NatToString(rowcount));
    }
    var footer := "";
    if t.oneResultFooter != "" && rowcount == 1 {
      footer := Replace(t.oneResultFooter, "%PAGES%", "1");
    } else if t.resultsFooter != "" {
      footer := Counts(t.resultsFooter, pages, NatToString(rowcount));
    }
    assert header == HeaderTemplate(t, rowcount, run.dplCount);
    assert footer == FooterTemplate(t, rowcount, run.dplCount);
    assert out == output + EarlyText(t, run);
    var ends := EndsOf(articles);
    header := Finish(header, run, ends);
    footer := Finish(footer, run, ends);
    out := out + header + run.dplResult + footer;
  }

  // ---------------------------------------------------------------------------
  // Properties of the general path

  lemma FinishEmpty(run: Run, ends: Ends)
    ensures Finish("", run, ends) == ""
  {
    ReplaceEachPlain("", Placeholders(run, ends));
  }

  /** A text without '%' passes through replacements of placeholders that start with '%'. */
  lemma {:induction false} ReplaceEachPlain(s: string, pairs: seq<(string, string)>)
    requires forall i :: 0 <= i < |pairs| ==> |pairs[i].0| > 0 && pairs[i].0[0] == '%'
    requires '%' !in s
    ensures ReplaceEach(s, pairs) == s
    decreases |pairs|
  {
    if |pairs| > 0 {
      AbsentFirstChar(s, pairs[0].0);
      ReplaceAbsent(s, pairs[0].0, pairs[0].1);
      ReplaceEachPlain(s, pairs[1..]);
    }
  }

  /**
   * Every header template has its counts filled in decimal, and so has every
   * footer template except the one-result footer, which fills %PAGES% only.
   */
  lemma {:induction false} CountsFilled(t: Templates, rowcount: nat, dplCount: nat)
    ensures var h := Newlines(HeaderTemplate(t, rowcount, dplCount));
      !Contains(h, "%PAGES%") && !Contains(h, "%TOTALPAGES%")
    ensures var f := Newlines(FooterTemplate(t, rowcount, dplCount));
      !Contains(f, "%PAGES%") && (!(t.oneResultFooter != "" && rowcount == 1) ==> !Contains(f, "%TOTALPAGES%"))
  {
    var rc, pages := NatToString(rowcount), NatToString(dplCount);
    if t.oneResultHeader != "" && rowcount == 1 {
      ShownClean(t.oneResultHeader, "1", rc);
    } else if rowcount != 0 {
      ShownClean(t.resultsHeader, pages, rc);
    } else {
      ShownClean("", pages, rc);
    }
    if t.oneResultFooter != "" && rowcount == 1 {
      var f0 := Replace(t.oneResultFooter, "%PAGES%", "1");
      DigitsForeign("1");
      ReplaceEliminates(t.oneResultFooter, "%PAGES%", "1");
      var n1 := Replace(f0, "¶", "\n");
      ReplaceKeepsAbsent(f0, "%PAGES%", "¶", "\n");
      ReplaceKeepsAbsent(n1, "%PAGES%", "\\n", "\n");
    } else {
      ShownClean(t.resultsFooter, pages, rc);
    }
  }

  /** The one-result footer keeps a %TOTALPAGES% placeholder as it is. */
  lemma OneResultFooterKeepsTotal()
    ensures FooterTemplate(Templates("", "%TOTALPAGES%", "", "", "", ""), 1, 1) == "%TOTALPAGES%"
  {
    var s := "%TOTALPAGES%";
    assert s[..7][1] == 'T';
    assert !StartsWith(s, "%PAGES%");
    assert s[1..][..10] == "TOTALPAGES";
    NeedleStartsLate(s[1..], "%PAGES%", 10);
    assert !Contains(s, "%PAGES%");
    ReplaceAbsent(s, "%PAGES%", "1");
  }

  /** The intended header differs from the written one only when there are no rows. */
  lemma HeaderTemplateCorrection(t: Templates, rowcount: nat, dplCount: nat)
    ensures rowcount != 0 ==> HeaderTemplate(t, rowcount, dplCount) == HeaderTemplateAsWritten(t, rowcount, dplCount)
    ensures rowcount == 0 ==> HeaderTemplate(t, rowcount, dplCount) == ""
  {
  }

  /** A text without '%', "¶" or backslash passes through every placeholder step unchanged. */
  lemma {:induction false} PlainPassesThrough(s: string, run: Run, ends: Ends)
    requires '%' !in s && '¶' !in s && '\\' !in s
    ensures Counts(s, "0", "0") == s && Finish(s, run, ends) == s
  {
    ShownUnchanged(s, "0", "0");
    AbsentFirstChar(s, "%PAGES%");
    ReplaceAbsent(s, "%PAGES%", "0");
    AbsentFirstChar(s, "%TOTALPAGES%");
    ReplaceAbsent(s, "%TOTALPAGES%", "0");
    AbsentFirstChar(s, "¶");
    ReplaceAbsent(s, "¶", "\n");
    AbsentFirstChar(s, "\\n");
    ReplaceAbsent(s, "\\n", "\n");
    ReplaceEachPlain(s, Placeholders(run, ends));
  }

  /**
   * As written, zero rows put a second, fully processed copy of the
   * no-results header between the no-results text and the list; the
   * corrected output has nothing there.
   */
  lemma {:induction false} AsWrittenExtraHeader(output: string, t: Templates, run: Run, articles: seq<Article>)
    requires RowCount(run) == 0
    ensures var ends := EndsOf(articles);
      var extra := Finish(Counts(t.noResultsHeader, NatToString(run.dplCount), "0"), run, ends);
      var footer := Finish(FooterTemplate(t, 0, run.dplCount), run, ends);
      && OutputAsWritten(output, t, run, articles) == output + EarlyText(t, run) + extra + run.dplResult + footer
      && Output(output, t, run, articles) == output + EarlyText(t, run) + run.dplResult + footer
  {
    var ends := EndsOf(articles);
    assert NatToString(0) == "0";
    assert HeaderTemplateAsWritten(t, 0, run.dplCount) == Counts(t.noResultsHeader, NatToString(run.dplCount), "0");
    assert HeaderTemplate(t, 0, run.dplCount) == "";
    FinishEmpty(run, ends);
  }

  /**
   * As written, a result set that DPL shows as empty repeats the no-results
   * header: the header "x", with no other template set, comes out as "xx".
   */
  lemma NoResultsHeaderTwice()
    ensures var t := Templates("", "", "x", "", "", "");
      var run := Run(None, 0, "", "", "", "", "");
      && NoResultsText("x", "", "0", "0") == "x"
      && OutputAsWritten("", t, run, []) == "xx"
  {
    var t := Templates("", "", "x", "", "", "");
    var run := Run(None, 0, "", "", "", "", "");
    AsWrittenExtraHeader("", t, run, []);
    PlainPassesThrough("x", run, EndsOf([]));
    ShownUnchanged("x", "0", "0");
  }

  /**
   * With the correction, the general path with no rows, an empty list and no
   * results footer emits exactly what the early return for an empty result
   * set emits.
   */
  lemma {:induction false} ZeroRowsAgreeWithEarlyReturn(output: string, t: Templates, run: Run, articles: seq<Article>)
    requires RowCount(run) == 0 && run.dplCount == 0 && run.dplResult == "" && t.resultsFooter == ""
    ensures Output(output, t, run, articles) == output + NoResultsText(t.noResultsHeader, t.noResultsFooter, "0", "0")
  {
    var ends := EndsOf(articles);
    assert NatToString(0) == "0";
    assert HeaderTemplate(t, 0, 0) == "" && FooterTemplate(t, 0, 0) == "";
    FinishEmpty(run, ends);
  }

  // ---------------------------------------------------------------------------
  // First and last article

  /** A title shown with spaces, then underscored, gives back a key without spaces. */
  lemma {:induction false} TitleRoundTrip(dbKey: string)
    requires ' ' !in dbKey
    ensures Underscored(TitleText(dbKey)) == dbKey
  {
    var shown := TitleText(dbKey);
    ReplaceCharMap(dbKey, '_', ' ');
    ReplaceCharMap(shown, ' ', '_');
    var r := Underscored(shown);
    assert |r| == |dbKey|;
    forall i | 0 <= i < |dbKey| ensures r[i] == dbKey[i] {
      assert dbKey[i] != ' ';
    }
  }

  /** An underscored text holds no space. */
  lemma {:induction false} UnderscoredNoSpace(s: string)
    ensures ' ' !in Underscored(s)
  {
    ReplaceCharMap(s, ' ', '_');
  }

  /** A namespace number needs no underscoring: its decimal form has no space. */
  lemma {:induction false} NamespaceUnderscored(ns: int)
    ensures Underscored(IntToString(ns)) == IntToString(ns)
  {
    var s := IntToString(ns);
    assert ' ' !in s by {
      if ns < 0 {
        assert s == "-" + NatToString(-ns);
        assert forall i :: 1 <= i < |s| ==> s[i] == NatToString(-ns)[i - 1];
      }
    }
    ContainsSingleChar(s, ' ');
    ReplaceAbsent(s, " ", "_");
  }

  /**
   * The first and last placeholders come from the first and last article:
   * the namespace as its number and the title as its key (for a key without
   * spaces); none of them holds a space, and all are empty when no article
   * is listed.
   */
  lemma {:induction false} EndsOfArticles(articles: seq<Article>)
    ensures var e := EndsOf(articles);
      && ' ' !in e.firstNamespace && ' ' !in e.firstTitle && ' ' !in e.lastNamespace && ' ' !in e.lastTitle
      && (|articles| == 0 ==> e == Ends("", "", "", ""))
      && (|articles| > 0 ==>
            && e.firstNamespace == IntToString(articles[0].namespace)
            && e.lastNamespace == IntToString(articles[|articles| - 1].namespace)
            && (' ' !in articles[0].dbKey ==> e.firstTitle == articles[0].dbKey)
            && (' ' !in articles[|articles| - 1].dbKey ==> e.lastTitle == articles[|articles| - 1].dbKey))
  {
    if |articles| > 0 {
      var first, last := articles[0], articles[|articles| - 1];
      NamespaceUnderscored(first.namespace);
      NamespaceUnderscored(last.namespace);
      UnderscoredNoSpace(IntToString(first.namespace));
      UnderscoredNoSpace(IntToString(last.namespace));
      UnderscoredNoSpace(TitleText(first.dbKey));
      UnderscoredNoSpace(TitleText(last.dbKey));
      if ' ' !in first.dbKey {
        TitleRoundTrip(first.dbKey);
      }
      if ' ' !in last.dbKey {
        TitleRoundTrip(last.dbKey);
      }
    }
  }
}
