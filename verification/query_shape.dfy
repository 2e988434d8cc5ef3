/**
 * The shape of the SQL query that `parse()` builds, as a record of flags
 * rather than as SQL text: SQL_CALC_FOUND_ROWS, DISTINCT, GROUP BY
 * page_title, the order methods left for goal=categories, the direction of
 * the outer category ORDER BY, and how `rev_id DESC` is attached.
 */
module QueryShape {
  import opened Wrappers
  import opened PhpStrings

  /** `$sDistinctResultSet` holds either a boolean or a text such as 'strict'. */
  datatype DistinctSetting = DistinctBool(b: bool) | DistinctText(s: string)

  datatype Direction = Asc | Desc

  /** How `rev_id DESC` is attached to the WHERE clause. */
  datatype RevIdOrder = NoRevIdOrder | RevIdOrderBy | RevIdAppended

  datatype QueryInput = QueryInput(
    allowUnlimitedResults: bool,
    goal: string,
    resultsHeader: string,
    resultsFooter: string,
    noResultsHeader: string,
    distinctResultSet: DistinctSetting,
    linksTo: nat, notLinksTo: nat, linksFrom: nat, notLinksFrom: nat, linksToExternal: nat, imageUsed: nat,
    orderMethods: seq<string>,
    order: string,
    allRevisionsSince: string,
    allRevisionsBefore: string)

  datatype Shape = Shape(
    calcFoundRows: bool,
    distinct: bool,
    groupByTitle: bool,
    goalIsPages: bool,
    orderMethods: seq<string>,
    revIdOrder: RevIdOrder,
    categoryOrder: Option<Direction>)

  const TotalPagesMarker := "%TOTALPAGES%"

  /** `$sDistinctResultSet == 'strict'`, a loose comparison: a boolean true equals any non-empty text other than "0". */
  predicate LooselyStrict(d: DistinctSetting) {
    match d
    case DistinctBool(b) => b
    case DistinctText(s) => s == "strict"
  }

  /** `$aOrderMethods[0]`, null (loosely "") for an empty array. */
  function FirstMethod(methods: seq<string>): string {
    if |methods| > 0 then methods[0] else ""
  }

  /**
   * The flags of the query, in the order the source derives them. GROUP BY
   * comes with DISTINCT, the row count is requested only for goal=pages,
   * the outer category order exists exactly for goal=categories, and
   * `rev_id DESC` is appended only after a real first order method.
   */
  function BuildShape(q: QueryInput): (r: Shape)
    ensures r.groupByTitle ==> r.distinct
    ensures r.calcFoundRows ==> r.goalIsPages
    ensures r.goalIsPages <==> r.categoryOrder.None?
    ensures r.revIdOrder == RevIdAppended ==>
              |r.orderMethods| > 0 && r.orderMethods[0] != "" && r.orderMethods[0] != "none"
  {
    var calcRows := !q.allowUnlimitedResults && q.goal != "categories"
                && Contains(q.resultsHeader + q.resultsFooter + q.noResultsHeader, TotalPagesMarker);
    var distinct := q.distinctResultSet != DistinctBool(false);
    var filters := q.linksTo + q.notLinksTo + q.linksFrom + q.notLinksFrom + q.linksToExternal + q.imageUsed;
    var groupBy := LooselyStrict(q.distinctResultSet) && filters > 0;
    var categories := q.goal == "categories";
    // explode(',', '') yields one empty string
    var methods := if categories then [""] else q.orderMethods;
    var revId :=
      if q.allRevisionsSince != "" || q.allRevisionsBefore != "" then
        if FirstMethod(methods) == "" || FirstMethod(methods) == "none" then RevIdOrderBy else RevIdAppended
      else NoRevIdOrder;
    var catOrder := if categories then Some(if q.order == "descending" then Desc else Asc) else None;
    Shape(calcRows, distinct, groupBy, !categories, methods, revId, catOrder)
  }

  /**
   * SQL_CALC_FOUND_ROWS is requested whenever results are limited, the goal is
   * pages and one of the header, footer or no-results header holds
   * %TOTALPAGES%; it is never requested for unlimited results or goal=categories.
   */
  lemma CalcFoundRowsWhenTotalShown(q: QueryInput)
    ensures !q.allowUnlimitedResults && q.goal != "categories"
            && (Contains(q.resultsHeader, TotalPagesMarker) || Contains(q.resultsFooter, TotalPagesMarker)
                || Contains(q.noResultsHeader, TotalPagesMarker))
            ==> BuildShape(q).calcFoundRows
    ensures q.allowUnlimitedResults || q.goal == "categories" ==> !BuildShape(q).calcFoundRows
  {
    var h, f, n := q.resultsHeader, q.resultsFooter, q.noResultsHeader;
    if Contains(h, TotalPagesMarker) {
      ContainsConcatLeft(h, f, TotalPagesMarker);
      ContainsConcatLeft(h + f, n, TotalPagesMarker);
    } else if Contains(f, TotalPagesMarker) {
      ContainsConcatRight(h, f, TotalPagesMarker);
      ContainsConcatLeft(h + f, n, TotalPagesMarker);
    } else if Contains(n, TotalPagesMarker) {
      ContainsConcatRight(h + f, n, TotalPagesMarker);
    }
  }

  /**
   * The test runs on the three templates glued together, so a marker split
   * across two of them also requests the row count: a header ending in
   * "%TOTAL" before a footer starting with "PAGES%".
   */
  lemma CalcFoundRowsAcrossTemplates()
    ensures var q := QueryInput(false, "pages", "%TOTAL", "PAGES%", "", DistinctBool(false), 0, 0, 0, 0, 0, 0, [], "", "", "");
      && !Contains(q.resultsHeader, TotalPagesMarker) && !Contains(q.resultsFooter, TotalPagesMarker)
      && !Contains(q.noResultsHeader, TotalPagesMarker)
      && BuildShape(q).calcFoundRows
  {
    var glued := "%TOTAL" + "PAGES%" + "";
    assert glued == TotalPagesMarker;
    assert StartsWith(glued, TotalPagesMarker);
    ShortNoContains("%TOTAL", TotalPagesMarker);
    ShortNoContains("PAGES%", TotalPagesMarker);
    ShortNoContains("", TotalPagesMarker);
  }

  /**
   * DISTINCT is dropped only for a boolean false; GROUP BY page_title needs
   * 'strict' (or true, by loose comparison) and at least one link or image
   * filter, so it implies DISTINCT.
   */
  lemma DistinctAndGroupBy(q: QueryInput)
    ensures BuildShape(q).distinct <==> q.distinctResultSet != DistinctBool(false)
    ensures BuildShape(q).groupByTitle <==>
              (q.distinctResultSet == DistinctText("strict") || q.distinctResultSet == DistinctBool(true))
              && q.linksTo + q.notLinksTo + q.linksFrom + q.notLinksFrom + q.linksToExternal + q.imageUsed > 0
    ensures BuildShape(q).groupByTitle ==> BuildShape(q).distinct
  {
  }

  /**
   * goal=categories replaces the order methods by a single empty one, so a
   * revision filter always opens a fresh ORDER BY, and the outer query orders
   * the categories descending exactly when the order is 'descending'.
   */
  lemma CategoriesGoal(q: QueryInput)
    requires q.goal == "categories"
    ensures BuildShape(q).orderMethods == [""] && !BuildShape(q).goalIsPages
    ensures q.allRevisionsSince != "" || q.allRevisionsBefore != "" ==> BuildShape(q).revIdOrder == RevIdOrderBy
    ensures BuildShape(q).categoryOrder == Some(if q.order == "descending" then Desc else Asc)
    ensures !BuildShape(q).calcFoundRows
  {
  }

  /**
   * `rev_id DESC` is attached only with an all-revisions filter: as a new
   * ORDER BY when no real order method comes first, otherwise after the
   * existing ordering.
   */
  lemma RevIdPlacement(q: QueryInput)
    ensures BuildShape(q).revIdOrder != NoRevIdOrder <==> q.allRevisionsSince != "" || q.allRevisionsBefore != ""
    ensures BuildShape(q).revIdOrder == RevIdAppended ==>
              q.goal != "categories" && |q.orderMethods| > 0 && q.orderMethods[0] != "" && q.orderMethods[0] != "none"
  {
  }
}
