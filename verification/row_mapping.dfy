/**
 * The loop of `parse()` over the result rows: random sampling against a given
 * shuffle, exclusion of subpages and of the page holding the list, the
 * construction of one article record per kept row, and the per-heading counts.
 * MediaWiki services (language conversion, first-letter extraction, time
 * zone adjustment, date formatting, HTML escaping, the user's title regex,
 * namespace names, the "Uncategorized pages" message) are parameters.
 */
module RowMapping {
  import opened Wrappers
  import opened PhpStrings

  const NS_FILE := 6
  const NS_CATEGORY := 14

  /** A result row; `Option` fields are the ones the loop tests with `isset`. */
  datatype Row = Row(
    pageNamespace: int, pageTitle: string, pageId: Option<int>,
    clTo: string, ilTo: string, plNamespace: int, plTitle: string,
    sortkey: Option<string>, elTo: Option<string>, pageCounter: Option<int>, pageLen: Option<int>,
    selTitle: Option<string>, selNs: int, imageSelTitle: Option<string>,
    revId: int, revUserText: string, revTimestamp: Option<string>, pageTouched: Option<string>,
    clTimestamp: string, contribution: string, contributor: string, revComment: string,
    cats: string)

  /** The MediaWiki services the loop calls, as uninterpreted functions. */
  datatype Host = Host(
    nsText: int -> string,
    replaceInTitle: string -> string,
    convert: string -> string,
    firstChar: string -> string,
    htmlEscape: string -> string,
    userAdjust: string -> string,
    formatDate: (string, string) -> string,
    uncategorizedPagesMsg: string)

  /** The settings the loop reads. */
  datatype RowSettings = RowSettings(
    goal: string,
    acceptOpenReferences: bool,
    imageContainerCount: nat,
    includeSubpages: bool,
    skipThisPage: bool,
    thisNamespace: int, thisTitle: string,
    showNamespace: bool,
    replaceInTitle: bool,
    titleMaxLen: Option<nat>,
    showCurId: bool,
    escapeLinks: bool,
    linksToCount: nat, linksFromCount: nat, imageUsedCount: nat,
    revisionFilter: string,
    addPageTouchedDate: bool, addFirstCategoryDate: bool, addEditDate: bool,
    userDateFormat: string,
    addContribution: bool,
    addUser: bool, addAuthor: bool, addLastEditor: bool,
    addCategories: bool,
    hListMode: string,
    orderMethods: seq<string>,
    randomCount: Option<int>)

  /** The article record built for a kept row; `None` leaves the record's own default. */
  datatype Article = Article(
    namespace: int, dbKey: string,
    link: string,
    startChar: string,
    id: int,
    externalLink: Option<string>,
    counter: Option<int>, size: Option<int>,
    selTitle: Option<string>, selNamespace: Option<int>,
    imageSelTitle: Option<string>,
    revision: Option<int>,
    user: Option<string>,
    date: string,
    myDate: Option<string>,
    contribution: Option<string>, contributor: Option<string>,
    userLink: Option<string>, comment: Option<string>,
    categoryLinks: seq<string>, categoryTexts: seq<string>,
    parentHLink: Option<string>)

  /** Headings in the order they were first met, with the number of articles under each. */
  datatype Headings = Headings(order: seq<string>, counts: map<string, nat>)

  ghost predicate HeadingsValid(h: Headings) {
    && (forall i, j :: 0 <= i < j < |h.order| ==> h.order[i] != h.order[j])
    && (forall k :: k in h.counts ==> k in h.order)
    && (forall i :: 0 <= i < |h.order| ==> h.order[i] in h.counts)
    && (forall k :: k in h.counts ==> h.counts[k] >= 1)
  }

  // ----- Titles -----

  predicate GoalIsPages(s: RowSettings) { s.goal != "categories" }

  /** Which namespace and title a row stands for. */
  function RowTitle(row: Row, s: RowSettings): (int, string) {
    if s.goal == "categories" then (NS_CATEGORY, row.clTo)
    else if s.acceptOpenReferences then
      if s.imageContainerCount > 0 then (NS_FILE, row.ilTo) else (row.plNamespace, row.plTitle)
    else (row.pageNamespace, row.pageTitle)
  }

  /** `Title::getText()`: the title with underscores shown as spaces. */
  function TitleText(dbKey: string): string {
    Replace(dbKey, "_", " ")
  }

  /** `Title::getPrefixedText()`. */
  function PrefixedText(ns: int, dbKey: string, host: Host): string {
    var prefix := host.nsText(ns);
    if prefix == "" then TitleText(dbKey) else prefix + ":" + TitleText(dbKey)
  }

  /** The shown title text: prefixed or not, passed through the user's replacement, chopped to the maximum length. */
  function ShownTitle(ns: int, dbKey: string, s: RowSettings, host: Host): string {
    var t0 := if s.showNamespace then PrefixedText(ns, dbKey, host) else TitleText(dbKey);
    var t1 := if s.replaceInTitle then host.replaceInTitle(t0) else t0;
    Chop(t1, s.titleMaxLen)
  }

  /** `substr($t, 0, $max) . '...'` when the text is longer than an optional maximum. */
  function Chop(t: string, maxLen: Option<nat>): string {
    if maxLen.Some? && |t| > maxLen.value then Substr(t, 0, maxLen.value) + "..." else t
  }

  lemma ChopBounds(t: string, maxLen: Option<nat>)
    ensures maxLen.None? || |t| <= maxLen.value ==> Chop(t, maxLen) == t
    ensures maxLen.Some? && |t| > maxLen.value ==>
              Chop(t, maxLen) == t[..maxLen.value] + "..." && |Chop(t, maxLen)| == maxLen.value + 3
  {
  }

  // ----- Links -----

  datatype LinkKind = CurIdLink | WikiLink | UrlLink

  /** Which of the three link forms a row gets. */
  function LinkKindOf(row: Row, ns: int, s: RowSettings): LinkKind {
    if s.showCurId && row.pageId.Some? then CurIdLink
    else if !s.escapeLinks || (ns != NS_CATEGORY && ns != NS_FILE) then WikiLink
    else UrlLink
  }

  /** Every link form is a bracketed piece of wikitext. */
  function ArticleLink(row: Row, ns: int, dbKey: string, s: RowSettings, host: Host): (link: string)
    ensures |link| >= 2 && link[0] == '[' && link[|link| - 1] == ']'
  {
    var shown := ShownTitle(ns, dbKey, s, host);
    match LinkKindOf(row, ns, s)
    case CurIdLink =>
      "[{{fullurl:" + TitleText(dbKey) + "|curid=" + IntToString(row.pageId.value) + "}} " + host.htmlEscape(shown) + "]"
    case WikiLink =>
      "[[" + PrefixedText(ns, dbKey, host) + "|" + host.convert(shown) + "]]"
    case UrlLink =>
      "[{{fullurl:" + TitleText(dbKey) + "}} " + host.htmlEscape(shown) + "]"
  }

  /**
   * The link is a wiki link exactly when it is not a curid link and links are
   * not escaped or the title is neither a category nor a file; curid links
   * and escaped category/file links are URL links.
   */
  lemma LinkShape(row: Row, ns: int, dbKey: string, s: RowSettings, host: Host)
    ensures var link := ArticleLink(row, ns, dbKey, s, host);
      && (LinkKindOf(row, ns, s) == WikiLink ==> StartsWith(link, "[[") && link[|link| - 2..] == "]]")
      && (LinkKindOf(row, ns, s) != WikiLink ==> StartsWith(link, "[{{fullurl:") && link[|link| - 1] == ']')
      && (LinkKindOf(row, ns, s) == UrlLink <==>
            !(s.showCurId && row.pageId.Some?) && s.escapeLinks && (ns == NS_CATEGORY || ns == NS_FILE))
  {
  }

  // ----- Dates -----

  /** The raw date before time zone adjustment. */
  function RawDate(row: Row, s: RowSettings): string {
    var fromRevision := if s.revisionFilter != "" then row.revTimestamp.GetOr("") else "";
    if s.addPageTouchedDate then row.pageTouched.GetOr("")
    else if s.addFirstCategoryDate then row.clTimestamp
    else if s.addEditDate && row.revTimestamp.Some? then row.revTimestamp.value
    else if s.addEditDate && row.pageTouched.Some? then row.pageTouched.value
    else fromRevision
  }

  /** The value of the first enabled option, or `fallback` when none is enabled. */
  function FirstEnabled(options: seq<(bool, string)>, fallback: string): string {
    if |options| == 0 then fallback
    else if options[0].0 then options[0].1
    else FirstEnabled(options[1..], fallback)
  }

  /** An enabled option with no enabled option before it gives the value; with none enabled the fallback does. */
  lemma {:induction false} FirstEnabledIsFirst(options: seq<(bool, string)>, fallback: string)
    ensures forall i :: 0 <= i < |options| && options[i].0 && (forall j :: 0 <= j < i ==> !options[j].0) ==>
              FirstEnabled(options, fallback) == options[i].1
    ensures (forall i :: 0 <= i < |options| ==> !options[i].0) ==> FirstEnabled(options, fallback) == fallback
  {
    if |options| > 0 {
      FirstEnabledIsFirst(options[1..], fallback);
      forall i | 0 <= i < |options| && options[i].0 && (forall j :: 0 <= j < i ==> !options[j].0)
        ensures FirstEnabled(options, fallback) == options[i].1
      {
        if i > 0 {
          assert !options[0].0;
          assert options[1..][i - 1] == options[i];
          forall j | 0 <= j < i - 1 ensures !options[1..][j].0 {
            assert options[1..][j] == options[j + 1];
          }
        }
      }
      if forall i :: 0 <= i < |options| ==> !options[i].0 {
        assert !options[0].0;
        forall j | 0 <= j < |options| - 1 ensures !options[1..][j].0 {
          assert options[1..][j] == options[j + 1];
        }
      }
    }
  }

  /** The add-date options in their order of precedence: page_touched, category date, edit timestamp, edit page_touched. */
  function DateOptions(row: Row, s: RowSettings): seq<(bool, string)> {
    [ (s.addPageTouchedDate, row.pageTouched.GetOr("")),
      (s.addFirstCategoryDate, row.clTimestamp),
      (s.addEditDate && row.revTimestamp.Some?, row.revTimestamp.GetOr("")),
      (s.addEditDate && row.pageTouched.Some?, row.pageTouched.GetOr("")) ]
  }

  /** The date set by the revision block: the revision timestamp when a revision filter is given. */
  function RevisionDate(row: Row, s: RowSettings): string {
    if s.revisionFilter != "" then row.revTimestamp.GetOr("") else ""
  }

  /** Once an option is enabled, the fallback is never used. */
  lemma {:induction false} FallbackUnused(options: seq<(bool, string)>, f1: string, f2: string)
    requires exists i :: 0 <= i < |options| && options[i].0
    ensures FirstEnabled(options, f1) == FirstEnabled(options, f2)
  {
    if !options[0].0 {
      var i :| 0 <= i < |options| && options[i].0;
      assert options[1..][i - 1] == options[i];
      FallbackUnused(options[1..], f1, f2);
    }
  }

  /** The chain of the code picks the first applying add-date option, else the revision block's date. */
  lemma RawDateFirstEnabled(row: Row, s: RowSettings)
    ensures RawDate(row, s) == FirstEnabled(DateOptions(row, s), RevisionDate(row, s))
  {
    var opts := DateOptions(row, s);
    FirstEnabledIsFirst(opts, RevisionDate(row, s));
    if opts[0].0 {
      assert FirstEnabled(opts, RevisionDate(row, s)) == opts[0].1;
    } else if opts[1].0 {
      assert FirstEnabled(opts, RevisionDate(row, s)) == opts[1].1;
    } else if opts[2].0 {
      assert FirstEnabled(opts, RevisionDate(row, s)) == opts[2].1;
    } else if opts[3].0 {
      assert FirstEnabled(opts, RevisionDate(row, s)) == opts[3].1;
    } else {
      assert forall i :: 0 <= i < |opts| ==> !opts[i].0;
    }
  }

  /**
   * The raw date is the first applying add-date option: page_touched before
   * the category date before the edit date, whatever the revision filter
   * says; the revision timestamp shows only when no option applies.
   */
  lemma DatePriority(row: Row, s: RowSettings)
    ensures s.addPageTouchedDate ==> RawDate(row, s) == row.pageTouched.GetOr("")
    ensures !s.addPageTouchedDate && s.addFirstCategoryDate ==> RawDate(row, s) == row.clTimestamp
    ensures (exists i :: 0 <= i < |DateOptions(row, s)| && DateOptions(row, s)[i].0) ==>
              RawDate(row, s) == RawDate(row, s.(revisionFilter := ""))
    ensures (forall i :: 0 <= i < |DateOptions(row, s)| ==> !DateOptions(row, s)[i].0) ==>
              RawDate(row, s) == RevisionDate(row, s)
  {
    var opts := DateOptions(row, s);
    var s0 := s.(revisionFilter := "");
    RawDateFirstEnabled(row, s);
    RawDateFirstEnabled(row, s0);
    assert DateOptions(row, s0) == opts;
    FirstEnabledIsFirst(opts, RevisionDate(row, s));
    if exists i :: 0 <= i < |opts| && opts[i].0 {
      FallbackUnused(opts, RevisionDate(row, s), RevisionDate(row, s0));
    }
  }

  // ----- Categories of the page -----

  /** `str_replace('_', ' ', $name)`. */
  function Spaced(name: string): (r: string)
    ensures '_' !in r
  {
    ReplaceEliminates(name, "_", " ");
    ContainsSingleChar(Replace(name, "_", " "), '_');
    Replace(name, "_", " ")
  }

  function CategoryNames(cats: string): seq<string> {
    Split(cats, " | ")
  }

  function CategoryLinks(names: seq<string>): (links: seq<string>)
    ensures |links| == |names|
  {
    if |names| == 0 then []
    else ["[[:Category:" + names[0] + "|" + Spaced(names[0]) + "]]"] + CategoryLinks(names[1..])
  }

  function CategoryTexts(names: seq<string>): (texts: seq<string>)
    ensures |texts| == |names|
    ensures forall i :: 0 <= i < |texts| ==> texts[i] == Spaced(names[i])
  {
    if |names| == 0 then [] else [Spaced(names[0])] + CategoryTexts(names[1..])
  }

  /**
   * The page's categories: one link and one text per name between " | "
   * separators, texts without underscores, and the names joined back give
   * the row's `cats` field.
   */
  lemma CategoriesOfPage(cats: string)
    ensures var names := CategoryNames(cats);
      && Join(names, " | ") == cats
      && |CategoryLinks(names)| == |names| && |CategoryTexts(names)| == |names|
      && (forall i :: 0 <= i < |names| ==> '_' !in CategoryTexts(names)[i])
  {
    JoinSplit(cats, " | ");
  }

  // ----- Headings -----

  /** The heading a row is counted under, if headings are on and the first order method is category or user. */
  function HeadingKey(row: Row, s: RowSettings): (key: Option<string>)
    ensures key.Some? ==> GoalIsPages(s) && s.hListMode != "none" && |s.orderMethods| > 0
    ensures key.Some? ==>
              || (s.orderMethods[0] == "category" && key.value == row.clTo)
              || (s.orderMethods[0] == "user" && key.value == row.revUserText)
    ensures GoalIsPages(s) && s.hListMode != "none" && |s.orderMethods| > 0 && s.orderMethods[0] == "category" ==>
              key == Some(row.clTo)
    ensures GoalIsPages(s) && s.hListMode != "none" && |s.orderMethods| > 0 && s.orderMethods[0] == "user" ==>
              key == Some(row.revUserText)
  {
    if !GoalIsPages(s) || s.hListMode == "none" then None
    else if |s.orderMethods| > 0 && s.orderMethods[0] == "category" then Some(row.clTo)
    else if |s.orderMethods| > 0 && s.orderMethods[0] == "user" then Some(row.revUserText)
    else None
  }

  /** The link shown above a heading's articles: there is one exactly when the row is counted under a heading. */
  function ParentHeadingLink(row: Row, s: RowSettings, host: Host): (link: Option<string>)
    ensures link.Some? <==> HeadingKey(row, s).Some?
  {
    if !GoalIsPages(s) || s.hListMode == "none" then None
    else if |s.orderMethods| > 0 && s.orderMethods[0] == "category" then
      if row.clTo == "" then Some("[[:Special:Uncategorizedpages|" + host.uncategorizedPagesMsg + "]]")
      else Some("[[:Category:" + row.clTo + "|" + Spaced(row.clTo) + "]]")
    else if |s.orderMethods| > 0 && s.orderMethods[0] == "user" then
      Some("[[User:" + row.revUserText + "|" + row.revUserText + "]]")
    else None
  }

  /**
   * The text of the heading link: the "Uncategorized pages" special page for
   * an empty category, the category with underscores shown as spaces
   * otherwise, and the editor's user page under "user".
   */
  lemma ParentHeadingLinkText(row: Row, s: RowSettings, host: Host, k: string)
    requires HeadingKey(row, s) == Some(k)
    ensures s.orderMethods[0] == "category" && k == "" ==>
              ParentHeadingLink(row, s, host) == Some("[[:Special:Uncategorizedpages|" + host.uncategorizedPagesMsg + "]]")
    ensures s.orderMethods[0] == "category" && k != "" ==>
              ParentHeadingLink(row, s, host) == Some("[[:Category:" + k + "|" + Spaced(k) + "]]") && '_' !in Spaced(k)
    ensures s.orderMethods[0] == "user" ==>
              ParentHeadingLink(row, s, host) == Some("[[User:" + k + "|" + k + "]]")
  {
  }

  /** Count one more article under `key`, appending it to the order when first met. */
  function AddHeading(h: Headings, key: Option<string>): Headings {
    match key
    case None => h
    case Some(k) =>
      if k in h.counts then Headings(h.order, h.counts[k := h.counts[k] + 1])
      else Headings(h.order + [k], h.counts[k := 1])
  }

  // ----- One article -----

  predicate RevisionFiltered(s: RowSettings) { s.revisionFilter != "" }

  /** The article record of one row. */
  function MapRow(row: Row, s: RowSettings, host: Host): (a: Article)
  {
    var (ns, dbKey) := RowTitle(row, s);
    var pages := GoalIsPages(s);
    var date0 := if pages then RawDate(row, s) else "";
    var date := if date0 != "" then host.userAdjust(date0) else date0;
    var showUser := s.addUser || s.addAuthor || s.addLastEditor || RevisionFiltered(s);
    var catNames := if s.addCategories && pages && row.cats != "" then CategoryNames(row.cats) else [];
    Article(
      ns, dbKey,
      ArticleLink(row, ns, dbKey, s, host),
      host.convert(host.firstChar(if row.sortkey.Some? then row.sortkey.value else dbKey)),
      row.pageId.GetOr(0),
      row.elTo,
      row.pageCounter, row.pageLen,
      if s.linksToCount > 0 || s.linksFromCount > 0 then Some(row.selTitle.GetOr("unknown page")) else None,
      if s.linksToCount > 0 || s.linksFromCount > 0 then Some(if row.selTitle.Some? then row.selNs else 0) else None,
      if s.imageUsedCount > 0 then Some(row.imageSelTitle.GetOr("unknown image")) else None,
      if pages && RevisionFiltered(s) then Some(row.revId) else None,
      if pages && (RevisionFiltered(s) || showUser) then Some(row.revUserText) else None,
      date,
      if pages && date != "" && s.userDateFormat != "" then Some(host.formatDate(s.userDateFormat, date)) else None,
      if pages && s.addContribution then Some(row.contribution) else None,
      if pages && s.addContribution then Some(row.contributor) else None,
      if pages && showUser then Some("[[User:" + row.revUserText + "|" + row.revUserText + "]]") else None,
      if pages && showUser then Some(row.revComment) else None,
      CategoryLinks(catNames), CategoryTexts(catNames),
      ParentHeadingLink(row, s, host))
  }

  /**
   * The article record stands for the row's title, has a heading link
   * exactly when the row has a heading, one text per category link, a
   * formatted date only beside a raw one, and, for goal=categories, none of
   * the page fields.
   */
  lemma MapRowFields(row: Row, s: RowSettings, host: Host)
    ensures var a := MapRow(row, s, host);
      && (a.namespace, a.dbKey) == RowTitle(row, s)
      && (a.parentHLink.Some? <==> HeadingKey(row, s).Some?)
      && |a.categoryLinks| == |a.categoryTexts|
      && (a.myDate.Some? ==> a.date != "")
      && (!GoalIsPages(s) ==> a.date == "" && a.revision.None? && a.user.None? && a.userLink.None? && a.categoryLinks == [])
  {
  }

  // ----- Which rows are kept -----

  predicate RandomMode(s: RowSettings) { s.randomCount.Some? && s.randomCount.value > 0 }

  function Min(a: int, b: int): int { if a < b then a else b }

  /** `array_slice($pick, 0, min($iRandomCount, $nResults))`. */
  function Pick(shuffled: seq<int>, s: RowSettings, n: nat): seq<int> {
    if !RandomMode(s) then []
    else shuffled[..Min(Min(s.randomCount.value, n), |shuffled|)]
  }

  /** Row number `i` (0-based) is kept: chosen by the sample, not a skipped subpage, not the page itself. */
  predicate Keeps(rows: seq<Row>, i: nat, pick: seq<int>, s: RowSettings)
    requires i < |rows|
  {
    var (ns, t) := RowTitle(rows[i], s);
    && (!RandomMode(s) || (i + 1) in pick)
    && !(!s.includeSubpages && '/' in t)
    && !(s.skipThisPage && ns == s.thisNamespace && t == s.thisTitle)
  }

  /** `f` applied to each kept row among the first `n`, in row order. */
  function KeptMap<A>(rows: seq<Row>, n: nat, pick: seq<int>, s: RowSettings, f: Row -> A): seq<A>
    requires n <= |rows|
  {
    if n == 0 then []
    else KeptMap(rows, n - 1, pick, s, f) + (if Keeps(rows, n - 1, pick, s) then [f(rows[n - 1])] else [])
  }

  /** The headings counted over the kept rows among the first `n`. */
  function HeadingsUpTo(rows: seq<Row>, n: nat, pick: seq<int>, s: RowSettings): Headings
    requires n <= |rows|
  {
    if n == 0 then Headings([], map[])
    else AddHeading(HeadingsUpTo(rows, n - 1, pick, s), if Keeps(rows, n - 1, pick, s) then HeadingKey(rows[n - 1], s) else None)
  }

  /** The articles and headings after the first `n` rows. */
  function MapRowsUpTo(rows: seq<Row>, n: nat, pick: seq<int>, s: RowSettings, host: Host): (seq<Article>, Headings)
    requires n <= |rows|
  {
    (KeptMap(rows, n, pick, s, row => MapRow(row, s, host)), HeadingsUpTo(rows, n, pick, s))
  }

  /**
   * The loop over the result rows: returns the articles in row order and the
   * headings with their counts. `shuffled` stands for `shuffle(range(1, n))`.
   */
  method MapRows(rows: seq<Row>, shuffled: seq<int>, s: RowSettings, host: Host)
    returns (articles: seq<Article>, headings: Headings)
    ensures (articles, headings) == MapRowsUpTo(rows, |rows|, Pick(shuffled, s, |rows|), s, host)
  {
    var pick: seq<int> := [];
    if s.randomCount.Some? && s.randomCount.value > 0 {
      var count := s.randomCount.value;
      if count > |rows| {
        count := |rows|;
      }
      pick := shuffled[..Min(count, |shuffled|)];
    }
    articles, headings := MapKeptRows(rows, pick, s, row => MapRow(row, s, host));
  }

  /** The loop itself, for any way `f` of turning a kept row into an article. */
  method MapKeptRows<A>(rows: seq<Row>, pick: seq<int>, s: RowSettings, f: Row -> A)
    returns (articles: seq<A>, headings: Headings)
    ensures articles == KeptMap(rows, |rows|, pick, s, f)
    ensures headings == HeadingsUpTo(rows, |rows|, pick, s)
  {
    articles := [];
    headings := Headings([], map[]);
    var iArticle := 0;
    while iArticle < |rows|
      invariant 0 <= iArticle <= |rows|
      invariant articles == KeptMap(rows, iArticle, pick, s, f)
      invariant headings == HeadingsUpTo(rows, iArticle, pick, s)
    {
      var row := rows[iArticle];
      var keep := KeepRow(rows, iArticle, pick, s);
      if keep {
        articles := articles + [f(row)];
        headings := CountHeading(headings, HeadingKey(row, s));
      }
      iArticle := iArticle + 1;
    }
  }

  /** The three reasons to skip a row: not sampled, a subpage when subpages are excluded, the page itself. */
  method KeepRow(rows: seq<Row>, iArticle: nat, pick: seq<int>, s: RowSettings) returns (keep: bool)
    requires iArticle < |rows|
    ensures keep == Keeps(rows, iArticle, pick, s)
  {
    var (ns, title) := RowTitle(rows[iArticle], s);
    keep := true;
    if s.randomCount.Some? && s.randomCount.value > 0 && (iArticle + 1 !in pick) {
      keep := false;
    } else if !s.includeSubpages && '/' in title {
      keep := false;
    } else if s.skipThisPage && ns == s.thisNamespace && title == s.thisTitle {
      keep := false;
    }
  }

  /** `$aHeadings[$key]++`, starting a new heading at one. */
  method CountHeading(headings: Headings, key: Option<string>) returns (r: Headings)
    ensures r == AddHeading(headings, key)
  {
    r := headings;
    if key.Some? {
      var counts := headings.counts;
      if key.value in counts {
        r := headings.(counts := counts[key.value := counts[key.value] + 1]);
      } else {
        r := Headings(headings.order + [key.value], counts[key.value := 1]);
      }
    }
  }

  // ----- Properties of the loop -----

  /** The indices of the kept rows among the first `n`, in increasing order. */
  function KeptIndices(rows: seq<Row>, n: nat, pick: seq<int>, s: RowSettings): (idx: seq<nat>)
    requires n <= |rows|
    ensures forall j :: 0 <= j < |idx| ==> idx[j] < n && Keeps(rows, idx[j], pick, s)
    ensures forall j, k :: 0 <= j < k < |idx| ==> idx[j] < idx[k]
    ensures forall i :: 0 <= i < n && Keeps(rows, i, pick, s) ==> i in idx
  {
    if n == 0 then []
    else if Keeps(rows, n - 1, pick, s) then KeptIndices(rows, n - 1, pick, s) + [n - 1]
    else KeptIndices(rows, n - 1, pick, s)
  }

  /** The articles are exactly the kept rows, mapped one by one, in row order. */
  lemma {:induction false} ArticlesAreKeptRows(rows: seq<Row>, n: nat, pick: seq<int>, s: RowSettings, host: Host)
    requires n <= |rows|
    ensures var arts := MapRowsUpTo(rows, n, pick, s, host).0;
      var idx := KeptIndices(rows, n, pick, s);
      |arts| == |idx| && forall j :: 0 <= j < |idx| ==> arts[j] == MapRow(rows[idx[j]], s, host)
  {
    KeptMapIndices(rows, n, pick, s, row => MapRow(row, s, host));
  }

  lemma {:induction false} KeptMapIndices<A>(rows: seq<Row>, n: nat, pick: seq<int>, s: RowSettings, f: Row -> A)
    requires n <= |rows|
    ensures var mapped := KeptMap(rows, n, pick, s, f);
      var idx := KeptIndices(rows, n, pick, s);
      |mapped| == |idx| && forall j :: 0 <= j < |idx| ==> mapped[j] == f(rows[idx[j]])
  {
    if n > 0 {
      KeptMapIndices(rows, n - 1, pick, s, f);
    }
  }

  /** The headings stay well formed: distinct keys in first-met order, each counted at least once. */
  lemma {:induction false} HeadingsStayValid(rows: seq<Row>, n: nat, pick: seq<int>, s: RowSettings, host: Host)
    requires n <= |rows|
    ensures HeadingsValid(MapRowsUpTo(rows, n, pick, s, host).1)
  {
    if n > 0 {
      HeadingsStayValid(rows, n - 1, pick, s, host);
      AddHeadingValid(HeadingsUpTo(rows, n - 1, pick, s), if Keeps(rows, n - 1, pick, s) then HeadingKey(rows[n - 1], s) else None);
    }
  }

  /** Counting one more article keeps the headings well formed. */
  lemma {:induction false} AddHeadingValid(h: Headings, key: Option<string>)
    requires HeadingsValid(h)
    ensures HeadingsValid(AddHeading(h, key))
  {
    if key.Some? && key.value !in h.counts {
      var h2 := AddHeading(h, key);
      forall i, j | 0 <= i < j < |h2.order| ensures h2.order[i] != h2.order[j] {
        if j == |h.order| {
          assert h.order[i] in h.counts;
        }
      }
    }
  }

  /** The number of kept rows among the first `n` whose heading is `k`. */
  function CountUnder(rows: seq<Row>, n: nat, pick: seq<int>, s: RowSettings, k: string): nat
    requires n <= |rows|
  {
    if n == 0 then 0
    else CountUnder(rows, n - 1, pick, s, k)
         + (if Keeps(rows, n - 1, pick, s) && HeadingKey(rows[n - 1], s) == Some(k) then 1 else 0)
  }

  /** Each heading's count is the number of kept rows under it; headings no kept row has are absent. */
  lemma {:induction false} HeadingCounts(rows: seq<Row>, n: nat, pick: seq<int>, s: RowSettings, host: Host, k: string)
    requires n <= |rows|
    ensures var h := MapRowsUpTo(rows, n, pick, s, host).1;
      (k in h.counts ==> h.counts[k] == CountUnder(rows, n, pick, s, k))
      && (k !in h.counts ==> CountUnder(rows, n, pick, s, k) == 0)
  {
    HeadingsCountUnder(rows, n, pick, s, k);
  }

  lemma {:induction false} HeadingsCountUnder(rows: seq<Row>, n: nat, pick: seq<int>, s: RowSettings, k: string)
    requires n <= |rows|
    ensures var h := HeadingsUpTo(rows, n, pick, s);
      (k in h.counts ==> h.counts[k] == CountUnder(rows, n, pick, s, k))
      && (k !in h.counts ==> CountUnder(rows, n, pick, s, k) == 0)
  {
    if n > 0 {
      HeadingsCountUnder(rows, n - 1, pick, s, k);
      var key := if Keeps(rows, n - 1, pick, s) then HeadingKey(rows[n - 1], s) else None;
      AddHeadingCount(HeadingsUpTo(rows, n - 1, pick, s), key, k);
    }
  }

  /** Counting one more article under `key` adds one to that heading's count and touches no other. */
  lemma AddHeadingCount(h: Headings, key: Option<string>, k: string)
    ensures var h2 := AddHeading(h, key);
      && (k in h2.counts <==> k in h.counts || key == Some(k))
      && (k in h2.counts ==> h2.counts[k] == (if k in h.counts then h.counts[k] else 0) + (if key == Some(k) then 1 else 0))
  {
  }

  // ----- Random sampling -----

  /** The sampled positions among 1..n. */
  function CountPicked(p: set<int>, n: nat): nat {
    if n == 0 then 0 else CountPicked(p, n - 1) + (if n in p then 1 else 0)
  }

  lemma {:induction false} CountPickedIsCard(p: set<int>, n: nat)
    ensures CountPicked(p, n) == |set v | v in p && 1 <= v <= n|
  {
    if n == 0 {
      assert (set v | v in p && 1 <= v <= 0) == {};
    } else {
      CountPickedIsCard(p, n - 1);
      var below := set v | v in p && 1 <= v <= n - 1;
      var upTo := set v | v in p && 1 <= v <= n;
      if n in p {
        assert upTo == below + {n};
      } else {
        assert upTo == below;
      }
    }
  }

  lemma {:induction false} DistinctCard(xs: seq<int>)
    requires forall i, j :: 0 <= i < j < |xs| ==> xs[i] != xs[j]
    ensures |set x | x in xs| == |xs|
  {
    if |xs| > 0 {
      var init := xs[..|xs| - 1];
      DistinctCard(init);
      assert (set x | x in xs) == (set x | x in init) + {xs[|xs| - 1]};
    }
  }

  /** With no exclusions, the rows kept among the first `n` are those whose position is picked. */
  lemma KeptCountWithoutExclusions(rows: seq<Row>, n: nat, pick: seq<int>, s: RowSettings, host: Host)
    requires n <= |rows| && RandomMode(s) && s.includeSubpages && !s.skipThisPage
    ensures |MapRowsUpTo(rows, n, pick, s, host).0| == CountPicked((set v | v in pick), n)
  {
    KeptLength(rows, n, pick, s, row => MapRow(row, s, host), set v | v in pick);
  }

  lemma {:induction false} KeptLength<A>(rows: seq<Row>, n: nat, pick: seq<int>, s: RowSettings, f: Row -> A, p: set<int>)
    requires n <= |rows| && RandomMode(s) && s.includeSubpages && !s.skipThisPage
    requires forall v :: v in p <==> v in pick
    ensures |KeptMap(rows, n, pick, s, f)| == CountPicked(p, n)
  {
    if n > 0 {
      KeptLength(rows, n - 1, pick, s, f, p);
      assert Keeps(rows, n - 1, pick, s) <==> n in p;
    }
  }

  /**
   * Sampling: when `shuffled` is a permutation of 1..n and nothing else is
   * excluded, exactly min(k, n) articles come out, and row i is kept exactly
   * when i+1 is among the first min(k, n) entries of `shuffled`.
   */
  lemma SampleSize(rows: seq<Row>, shuffled: seq<int>, s: RowSettings, host: Host)
    requires RandomMode(s) && s.includeSubpages && !s.skipThisPage
    requires |shuffled| == |rows|
    requires forall i :: 0 <= i < |shuffled| ==> 1 <= shuffled[i] <= |rows|
    requires forall i, j :: 0 <= i < j < |shuffled| ==> shuffled[i] != shuffled[j]
    ensures var pick := Pick(shuffled, s, |rows|);
      && |MapRowsUpTo(rows, |rows|, pick, s, host).0| == Min(s.randomCount.value, |rows|)
      && forall i :: 0 <= i < |rows| ==> (Keeps(rows, i, pick, s) <==> i + 1 in shuffled[..Min(s.randomCount.value, |rows|)])
  {
    var pick := Pick(shuffled, s, |rows|);
    var m := Min(s.randomCount.value, |rows|);
    assert pick == shuffled[..m];
    KeptCountWithoutExclusions(rows, |rows|, pick, s, host);
    var p := set v | v in pick;
    CountPickedIsCard(p, |rows|);
    assert (set v | v in p && 1 <= v <= |rows|) == p;
    DistinctCard(pick);
  }
}
