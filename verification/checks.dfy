/**
 * The checks on parameters in `parse()`: category counting, the chain of
 * early-return checks (each returning one fatal message, or nothing at all
 * for a selection without criteria at low debug level), and the non-fatal
 * adjustments that follow them.
 */
module Checks {
  import opened Wrappers
  import opened PhpStrings
  import opened Diagnostics

  /** A PHP value as far as `count(..., COUNT_RECURSIVE)` sees it: a scalar or an array of values. */
  datatype PhpValue = Scalar(s: string) | PhpArray(items: seq<PhpValue>)

  /** `count($a, COUNT_RECURSIVE)`: the elements of `vs` plus, recursively, those of every nested array. */
  function CountRecursive(vs: seq<PhpValue>): nat
    decreases vs
  {
    if |vs| == 0 then 0
    else
      var nested := match vs[0] case Scalar(_) => 0 case PhpArray(items) => CountRecursive(items);
      1 + nested + CountRecursive(vs[1..])
  }

  /** The include categories as PHP holds them: one array of alternatives per `category=` line. */
  function AsPhpArrays(inc: seq<seq<string>>): (vs: seq<PhpValue>)
    ensures |vs| == |inc|
  {
    if |inc| == 0 then []
    else [PhpArray(Scalars(inc[0]))] + AsPhpArrays(inc[1..])
  }

  function Scalars(ss: seq<string>): (vs: seq<PhpValue>)
    ensures |vs| == |ss| && forall i :: 0 <= i < |vs| ==> vs[i].Scalar?
  {
    if |ss| == 0 then [] else [Scalar(ss[0])] + Scalars(ss[1..])
  }

  function SumLengths(inc: seq<seq<string>>): nat {
    if |inc| == 0 then 0 else |inc[0]| + SumLengths(inc[1..])
  }

  lemma {:induction false} CountRecursiveScalars(ss: seq<string>)
    ensures CountRecursive(Scalars(ss)) == |ss|
  {
    if |ss| > 0 {
      CountRecursiveScalars(ss[1..]);
      assert Scalars(ss)[1..] == Scalars(ss[1..]);
    }
  }

  /** `count(.., COUNT_RECURSIVE) - count(..)` on the include categories is the number of categories in all lines together. */
  lemma {:induction false} TotalIncludeCount(inc: seq<seq<string>>)
    ensures CountRecursive(AsPhpArrays(inc)) - |inc| == SumLengths(inc)
  {
    if |inc| > 0 {
      TotalIncludeCount(inc[1..]);
      CountRecursiveScalars(inc[0]);
      assert AsPhpArrays(inc)[1..] == AsPhpArrays(inc[1..]);
    }
  }

  /** Everything the checks read; these values come from the parameter store and host configuration. */
  datatype CheckInput = CheckInput(
    includeCategories: seq<seq<string>>,
    excludeCategories: seq<string>,
    maxCategoryCount: int,
    minCategoryCount: int,
    allowUnlimitedCategories: bool,
    selectionCriteriaFound: bool,
    debugLevel: int,
    orderMethods: seq<string>,
    addFirstCategoryDate: bool,
    addPageTouchedDate: bool,
    addEditDate: bool,
    dominantSection: int,
    secLabels: seq<string>,
    pageListMode: string,
    lastRevisionBefore: string,
    allRevisionsBefore: string,
    firstRevisionSince: string,
    allRevisionsSince: string,
    addUser: bool,
    minorEdits: Option<string>,
    addCategories: bool,
    incPage: bool,
    addAuthor: bool,
    addContribution: bool,
    addLastEditor: bool,
    hListMode: string,
    acceptOpenReferences: bool,
    conflictsWithOpenReferences: bool,
    titleLE: string,
    titleGE: string,
    order: string)

  /** The settings the adjustments may change. */
  datatype Settings = Settings(hListMode: string, acceptOpenReferences: bool, order: string)

  /** How the checks end: one fatal message, a silent stop, or on to the query with warnings and settings. */
  datatype Outcome =
    | Fatal(msg: Message)
    | Silent
    | Proceed(warnings: seq<Message>, settings: Settings)

  function TotalIncludeCatCount(c: CheckInput): int {
    CountRecursive(AsPhpArrays(c.includeCategories)) - |c.includeCategories|
  }

  function TotalCatCount(c: CheckInput): int {
    TotalIncludeCatCount(c) + |c.excludeCategories|
  }

  /** `$aOrderMethods[0]`, which reads as null (loosely equal to "") when there is no order method. */
  function FirstOrderMethod(c: CheckInput): string {
    if |c.orderMethods| > 0 then c.orderMethods[0] else ""
  }

  /** `array_intersect($aOrderMethods, $allowed)` is non-empty. */
  predicate UsesOneOf(orderMethods: seq<string>, allowed: set<string>) {
    exists i :: 0 <= i < |orderMethods| && orderMethods[i] in allowed
  }

  function B2I(b: bool): int { if b then 1 else 0 }

  predicate NoRevisionFilter(c: CheckInput) {
    c.lastRevisionBefore + c.allRevisionsBefore + c.firstRevisionSince + c.allRevisionsSince == ""
  }

  function WrongOrder(what: string, allowed: string): Message {
    Message(FatalWrongOrderMethod, [what, allowed])
  }

  /** The early-return chain, in source order. */
  function RunChecks(c: CheckInput): Outcome
  {
    var total := TotalCatCount(c);
    if total > c.maxCategoryCount && !c.allowUnlimitedCategories then
      Fatal(Message(FatalTooManyCats, [IntToString(c.maxCategoryCount)]))
    else if total < c.minCategoryCount then
      Fatal(Message(FatalTooFewCats, [IntToString(c.minCategoryCount)]))
    else if total == 0 && !c.selectionCriteriaFound then
      if c.debugLevel <= 1 then Silent else Fatal(Message(FatalNoSelection, []))
    else if TotalIncludeCatCount(c) == 0 && (FirstOrderMethod(c) == "categoryadd" || c.addFirstCategoryDate) then
      Fatal(Message(FatalCatDateButNoIncludedCats, []))
    else if B2I(c.addPageTouchedDate) + B2I(c.addFirstCategoryDate) + B2I(c.addEditDate) > 1 then
      Fatal(Message(FatalMoreThan1TypeOfDate, []))
    else if c.dominantSection > 0 && |c.secLabels| < c.dominantSection then
      Fatal(Message(FatalDominantSectionRange, [IntToString(|c.secLabels|)]))
    else if c.pageListMode == "category" && !UsesOneOf(c.orderMethods, {"sortkey", "title", "titlewithoutnamespace"}) then
      Fatal(WrongOrder("mode=category", "sortkey | title | titlewithoutnamespace"))
    else if c.addPageTouchedDate && !UsesOneOf(c.orderMethods, {"pagetouched", "title"}) then
      Fatal(WrongOrder("addpagetoucheddate=true", "pagetouched | title"))
    else if c.addEditDate && !UsesOneOf(c.orderMethods, {"firstedit", "lastedit"}) && NoRevisionFilter(c) then
      Fatal(WrongOrder("addeditdate=true", "firstedit | lastedit"))
    else if c.addUser && !UsesOneOf(c.orderMethods, {"firstedit", "lastedit"}) && NoRevisionFilter(c) then
      Fatal(WrongOrder("adduser=true", "firstedit | lastedit"))
    else if c.minorEdits.Some? && !UsesOneOf(c.orderMethods, {"firstedit", "lastedit"}) then
      Fatal(WrongOrder("minoredits", "firstedit | lastedit"))
    else
      var r := Adjust(c, Settings(c.hListMode, c.acceptOpenReferences, c.order));
      Proceed(r.0, r.1)
  }

  /** The non-fatal adjustments after the chain, applied to the current settings; they return the warnings in order. */
  function Adjust(c: CheckInput, s: Settings): (r: (seq<Message>, Settings))
    ensures |r.0| <= 3
    ensures r.1.hListMode == "none" || |c.orderMethods| >= 2
    ensures r.1.acceptOpenReferences ==> s.acceptOpenReferences && !c.conflictsWithOpenReferences
  {
    var w1 :=
      if c.pageListMode == "category"
         && (c.addCategories || c.addEditDate || c.addFirstCategoryDate || c.addPageTouchedDate || c.incPage
             || c.addUser || c.addAuthor || c.addContribution || c.addLastEditor)
      then [Message(WarnCatOutputButWrongParams, [])] else [];
    var heading := s.hListMode != "none" && |c.orderMethods| < 2;
    var w2 := if heading then [Message(WarnHeadingButSimpleOrderMethod, [s.hListMode, "none"])] else [];
    var openRefs := s.acceptOpenReferences && c.conflictsWithOpenReferences;
    var w3 := if openRefs then [Message(FatalOpenReferences, [])] else [];
    var order := if c.titleLE != "" && c.titleGE == "" && s.order == "ascending" then "descending" else s.order;
    (w1 + w2 + w3, Settings(if heading then "none" else s.hListMode, s.acceptOpenReferences && !openRefs, order))
  }

  // ----- A reference statement of the chain: the list of checks, each with its verdict -----

  /** One check of the chain: whether it fails, and how the run then ends. */
  datatype Check = Check(fails: bool, stop: Outcome)

  /** The checks in source order, each evaluated on its own. */
  function CheckList(c: CheckInput): seq<Check> {
    var total := TotalCatCount(c);
    var noEditOrder := !UsesOneOf(c.orderMethods, {"firstedit", "lastedit"});
    [ Check(total > c.maxCategoryCount && !c.allowUnlimitedCategories, Fatal(Message(FatalTooManyCats, [IntToString(c.maxCategoryCount)]))),
      Check(total < c.minCategoryCount, Fatal(Message(FatalTooFewCats, [IntToString(c.minCategoryCount)]))),
      Check(total == 0 && !c.selectionCriteriaFound, if c.debugLevel <= 1 then Silent else Fatal(Message(FatalNoSelection, []))),
      Check(TotalIncludeCatCount(c) == 0 && (FirstOrderMethod(c) == "categoryadd" || c.addFirstCategoryDate),
            Fatal(Message(FatalCatDateButNoIncludedCats, []))),
      Check(B2I(c.addPageTouchedDate) + B2I(c.addFirstCategoryDate) + B2I(c.addEditDate) > 1, Fatal(Message(FatalMoreThan1TypeOfDate, []))),
      Check(c.dominantSection > 0 && |c.secLabels| < c.dominantSection,
            Fatal(Message(FatalDominantSectionRange, [IntToString(|c.secLabels|)]))),
      Check(c.pageListMode == "category" && !UsesOneOf(c.orderMethods, {"sortkey", "title", "titlewithoutnamespace"}),
            Fatal(WrongOrder("mode=category", "sortkey | title | titlewithoutnamespace"))),
      Check(c.addPageTouchedDate && !UsesOneOf(c.orderMethods, {"pagetouched", "title"}),
            Fatal(WrongOrder("addpagetoucheddate=true", "pagetouched | title"))),
      Check(c.addEditDate && noEditOrder && NoRevisionFilter(c), Fatal(WrongOrder("addeditdate=true", "firstedit | lastedit"))),
      Check(c.addUser && noEditOrder && NoRevisionFilter(c), Fatal(WrongOrder("adduser=true", "firstedit | lastedit"))),
      Check(c.minorEdits.Some? && noEditOrder, Fatal(WrongOrder("minoredits", "firstedit | lastedit")))
    ]
  }

  /** The index of the first failing check, if any. */
  function FirstFailing(checks: seq<Check>): (r: Option<nat>)
    ensures r.Some? ==> r.value < |checks| && checks[r.value].fails && forall j :: 0 <= j < r.value ==> !checks[j].fails
    ensures r.None? ==> forall j :: 0 <= j < |checks| ==> !checks[j].fails
  {
    if |checks| == 0 then None
    else if checks[0].fails then Some(0)
    else match FirstFailing(checks[1..])
      case None => None
      case Some(i) => Some(i + 1)
  }

  /**
   * The chain stops exactly at the first failing check, with that check's
   * result as the sole outcome; when no check fails the run proceeds.
   */
  lemma ChecksStopAtFirstFailure(c: CheckInput)
    ensures var first := FirstFailing(CheckList(c));
      && (first.Some? ==> RunChecks(c) == CheckList(c)[first.value].stop)
      && (first.None? <==> RunChecks(c).Proceed?)
  {
    var cl := CheckList(c);
    var first := FirstFailing(cl);
    if first.None? {
      NoneFailProceeds(c);
    } else {
      FirstFailureStops(c, first.value);
      StopsNeverProceed(c, first.value);
    }
  }

  /**
   * A run that goes on to the query has a category count within bounds,
   * something to select, at most one kind of added date, a dominant section
   * within the labels, and heading mode only with two or more order methods;
   * a silent stop happens only for an empty selection at debug level 1 or
   * below.
   */
  lemma ProceedingRunPassedChecks(c: CheckInput)
    ensures var r := RunChecks(c);
      r.Proceed? ==>
        && (TotalCatCount(c) <= c.maxCategoryCount || c.allowUnlimitedCategories)
        && c.minCategoryCount <= TotalCatCount(c)
        && (TotalCatCount(c) != 0 || c.selectionCriteriaFound)
        && B2I(c.addPageTouchedDate) + B2I(c.addFirstCategoryDate) + B2I(c.addEditDate) <= 1
        && (c.dominantSection <= 0 || c.dominantSection <= |c.secLabels|)
        && (r.settings.hListMode == "none" || |c.orderMethods| >= 2)
    ensures RunChecks(c).Silent? ==> TotalCatCount(c) == 0 && !c.selectionCriteriaFound && c.debugLevel <= 1
  {
    ChecksStopAtFirstFailure(c);
    var cl := CheckList(c);
    if RunChecks(c).Proceed? {
      assert !cl[0].fails && !cl[1].fails && !cl[2].fails && !cl[4].fails && !cl[5].fails;
    }
  }

  lemma StopsNeverProceed(c: CheckInput, i: nat)
    requires i < |CheckList(c)|
    ensures !CheckList(c)[i].stop.Proceed?
  {
  }

  lemma NoneFailProceeds(c: CheckInput)
    requires forall j :: 0 <= j < |CheckList(c)| ==> !CheckList(c)[j].fails
    ensures RunChecks(c).Proceed?
  {
    var cl := CheckList(c);
    assert |cl| == 11;
    assert !cl[0].fails && !cl[1].fails && !cl[2].fails && !cl[3].fails && !cl[4].fails && !cl[5].fails;
    assert !cl[6].fails && !cl[7].fails && !cl[8].fails && !cl[9].fails && !cl[10].fails;
  }

  lemma FirstFailureStops(c: CheckInput, i: nat)
    requires i < |CheckList(c)| && CheckList(c)[i].fails
    requires forall j :: 0 <= j < i ==> !CheckList(c)[j].fails
    ensures RunChecks(c) == CheckList(c)[i].stop
  {
    var cl := CheckList(c);
    assert |cl| == 11;
    if i < 4 {
      if i > 0 { assert !cl[0].fails; }
      if i > 1 { assert !cl[1].fails; }
      if i > 2 { assert !cl[2].fails; }
    } else {
      LaterFailureStops(c, i);
    }
  }

  lemma LaterFailureStops(c: CheckInput, i: nat)
    requires 4 <= i < |CheckList(c)| && CheckList(c)[i].fails
    requires forall j :: 0 <= j < i ==> !CheckList(c)[j].fails
    ensures RunChecks(c) == CheckList(c)[i].stop
  {
    var cl := CheckList(c);
    assert |cl| == 11;
    assert !cl[0].fails && !cl[1].fails && !cl[2].fails && !cl[3].fails;
    if i > 4 { assert !cl[4].fails; }
    if i > 5 { assert !cl[5].fails; }
    if i > 6 { assert !cl[6].fails; }
    if i > 7 { assert !cl[7].fails; }
    if i > 8 { assert !cl[8].fails; }
    if i > 9 { assert !cl[9].fails; }
  }

  /** The category-count checks come first: too many (unless unlimited), then too few. */
  lemma CategoryCountChecks(c: CheckInput)
    ensures TotalCatCount(c) > c.maxCategoryCount && !c.allowUnlimitedCategories ==>
              RunChecks(c) == Fatal(Message(FatalTooManyCats, [IntToString(c.maxCategoryCount)]))
    ensures !(TotalCatCount(c) > c.maxCategoryCount && !c.allowUnlimitedCategories) && TotalCatCount(c) < c.minCategoryCount ==>
              RunChecks(c) == Fatal(Message(FatalTooFewCats, [IntToString(c.minCategoryCount)]))
    ensures TotalCatCount(c) == SumLengths(c.includeCategories) + |c.excludeCategories|
  {
    TotalIncludeCount(c.includeCategories);
  }

  /** Two or more kinds of added date are rejected unless an earlier check already stopped the run. */
  lemma MoreThanOneDateRejected(c: CheckInput)
    requires B2I(c.addPageTouchedDate) + B2I(c.addFirstCategoryDate) + B2I(c.addEditDate) > 1
    requires forall j :: 0 <= j < 4 ==> !CheckList(c)[j].fails
    ensures RunChecks(c) == Fatal(Message(FatalMoreThan1TypeOfDate, []))
  {
    assert !CheckList(c)[0].fails && !CheckList(c)[1].fails && !CheckList(c)[2].fails && !CheckList(c)[3].fails;
  }

  /** A dominant section beyond the section labels is rejected, naming the label count, unless an earlier check stopped the run. */
  lemma DominantSectionRejected(c: CheckInput)
    requires c.dominantSection > 0 && |c.secLabels| < c.dominantSection
    requires forall j :: 0 <= j < 5 ==> !CheckList(c)[j].fails
    ensures RunChecks(c) == Fatal(Message(FatalDominantSectionRange, [IntToString(|c.secLabels|)]))
  {
    assert !CheckList(c)[0].fails && !CheckList(c)[1].fails && !CheckList(c)[2].fails
      && !CheckList(c)[3].fails && !CheckList(c)[4].fails;
  }

  /** With no categories and no other selection criteria the run stops: silently unless debugging above level 1. */
  lemma NoSelectionStops(c: CheckInput)
    requires TotalCatCount(c) == 0 && !c.selectionCriteriaFound
    requires c.maxCategoryCount >= 0 && c.minCategoryCount <= 0
    ensures c.debugLevel <= 1 ==> RunChecks(c) == Silent
    ensures c.debugLevel > 1 ==> RunChecks(c) == Fatal(Message(FatalNoSelection, []))
  {
  }

  /**
   * The adjusted settings are a fixed point: adjusting them again changes
   * nothing and warns only about category output, which does not depend on
   * the settings.
   */
  lemma AdjustIdempotent(c: CheckInput, s: Settings)
    ensures var (w1, s1) := Adjust(c, s);
      var (w2, s2) := Adjust(c, s1);
      && s2 == s1
      && (forall m :: m in w2 ==> m.kind == WarnCatOutputButWrongParams)
  {
  }

  /** What the adjustments promise about each setting and its warning. */
  lemma AdjustEffects(c: CheckInput, s: Settings)
    ensures var (w, s1) := Adjust(c, s);
      && (s1.hListMode == "none" || |c.orderMethods| >= 2)
      && (s1.hListMode != s.hListMode <==> Message(WarnHeadingButSimpleOrderMethod, [s.hListMode, "none"]) in w)
      && (s1.acceptOpenReferences ==> !c.conflictsWithOpenReferences)
      && (s1.acceptOpenReferences != s.acceptOpenReferences <==> Message(FatalOpenReferences, []) in w)
      && (s1.order != s.order ==> s.order == "ascending" && s1.order == "descending" && c.titleLE != "" && c.titleGE == "")
      && |w| <= 3
  {
    var (w, s1) := Adjust(c, s);
    if Message(WarnHeadingButSimpleOrderMethod, [s.hListMode, "none"]) in w {
      var i :| 0 <= i < |w| && w[i] == Message(WarnHeadingButSimpleOrderMethod, [s.hListMode, "none"]);
    }
  }
}
