/**
 * `updateTableRowKeys`: the `tablerow` entries are re-keyed after the
 * structure of the `include` labels. A label without "}:" takes one table-row
 * position and is keyed by its group number; a label "…}:a:b:c" takes one
 * position per ':'-separated column and is keyed "group.column".
 */
module TableRowKeys {
  import opened Wrappers
  import opened PhpStrings

  /** A key of the rebuilt array: `$groupNr`, or the text `"$groupNr.$colNr"`. */
  datatype RowKey = Group(group: nat) | Column(group: nat, column: nat)

  /** The PHP array key as text. */
  function KeyText(k: RowKey): string {
    match k
    case Group(g) => NatToString(g)
    case Column(g, c) => NatToString(g) + "." + NatToString(c)
  }

  /** Only a column key has a '.' in its text. */
  lemma DotMarksColumn(k: RowKey)
    ensures '.' in KeyText(k) <==> k.Column?
  {
    match k {
      case Group(g) =>
        assert forall i :: 0 <= i < |NatToString(g)| ==> IsDigit(NatToString(g)[i]);
      case Column(g, c) =>
        assert KeyText(k)[|NatToString(g)|] == '.';
    }
  }

  /** Distinct keys have distinct texts, so the rebuilt array never overwrites an entry by accident. */
  lemma KeyTextInjective(a: RowKey, b: RowKey)
    requires KeyText(a) == KeyText(b)
    ensures a == b
  {
    DotMarksColumn(a);
    DotMarksColumn(b);
    ParseNatToString(a.group);
    ParseNatToString(b.group);
    if a.Column? {
      DottedPair(NatToString(a.group), NatToString(a.column), NatToString(b.group), NatToString(b.column));
      ParseNatToString(a.column);
      ParseNatToString(b.column);
    }
  }

  /** Two "x.y" texts with digit-only parts are equal only part by part. */
  lemma DottedPair(x1: string, y1: string, x2: string, y2: string)
    requires AllDigits(x1) && AllDigits(y1) && AllDigits(x2) && AllDigits(y2)
    requires x1 + "." + y1 == x2 + "." + y2
    ensures x1 == x2 && y1 == y2
  {
    var s := x1 + "." + y1;
    assert s[|x1|] == '.' && (x2 + "." + y2)[|x2|] == '.';
    assert forall i :: 0 <= i < |x1| ==> s[i] == x1[i];
    assert forall i :: 0 <= i < |x2| ==> s[i] == x2[i];
    assert |x1| == |x2|;
    assert x1 == s[..|x1|] == x2;
    assert y1 == s[|x1| + 1..] == y2;
  }

  /** The text after the first "}:" up to the next "}:" of a label that has one (`$cols[1]`). */
  function ColumnSegment(secLabel: string): string
    requires Contains(secLabel, "}:")
  {
    Split(secLabel, "}:")[1]
  }

  /** How a label uses the table row: one position, or one per column of its segment after "}:". */
  datatype Layout = Single | Multi(columns: nat)

  function LayoutOf(secLabel: string): Layout {
    var cols := Split(secLabel, "}:");
    if |cols| <= 1 then Single else Multi(|Split(cols[1], ":")|)
  }

  /** A label has columns exactly when it contains "}:", one per ':'-separated part of its column segment. */
  lemma LayoutCases(secLabel: string)
    ensures LayoutOf(secLabel).Single? <==> !Contains(secLabel, "}:")
    ensures Contains(secLabel, "}:") ==> LayoutOf(secLabel) == Multi(|Split(ColumnSegment(secLabel), ":")|)
  {
  }

  function Layouts(labels: seq<string>): (ls: seq<Layout>)
    ensures |ls| == |labels|
  {
    if |labels| == 0 then [] else [LayoutOf(labels[0])] + Layouts(labels[1..])
  }

  lemma {:induction false} LayoutAt(labels: seq<string>, i: nat)
    requires i < |labels|
    ensures Layouts(labels)[i] == LayoutOf(labels[i])
  {
    if i > 0 {
      LayoutAt(labels[1..], i - 1);
    }
  }

  /** How many table-row positions a layout takes. */
  function Width(l: Layout): nat {
    match l
    case Single => 1
    case Multi(m) => m
  }

  /** The first table-row position of label number `k`. */
  function Start(ls: seq<Layout>, k: nat): nat
    requires k <= |ls|
  {
    if k == 0 then 0 else Start(ls, k - 1) + Width(ls[k - 1])
  }

  /** The entry for `key` if position `pos` is present in the old array. */
  function Entry(key: RowKey, pos: int, tableRow: map<int, string>): seq<(RowKey, string)> {
    if pos in tableRow then [(key, tableRow[pos])] else []
  }

  /** Columns 0..n-1 of group `g`, read from positions t..t+n-1. */
  function ColumnEntries(g: nat, t: int, n: nat, tableRow: map<int, string>): (r: seq<(RowKey, string)>)
    ensures |r| <= n
  {
    if n == 0 then [] else ColumnEntries(g, t, n - 1, tableRow) + Entry(Column(g, n - 1), t + n - 1, tableRow)
  }

  function LabelEntries(l: Layout, g: nat, t: int, tableRow: map<int, string>): (r: seq<(RowKey, string)>)
    ensures |r| <= Width(l)
  {
    match l
    case Single => Entry(Group(g), t, tableRow)
    case Multi(m) => ColumnEntries(g, t, m, tableRow)
  }

  /** The rebuilt array after the first `k` labels: at most one entry per table-row position they take. */
  function TableRowUpTo(ls: seq<Layout>, k: nat, tableRow: map<int, string>): (r: seq<(RowKey, string)>)
    requires k <= |ls|
    ensures |r| <= Start(ls, k)
  {
    if k == 0 then []
    else TableRowUpTo(ls, k - 1, tableRow) + LabelEntries(ls[k - 1], k - 1, Start(ls, k - 1), tableRow)
  }

  /** Rebuilds `$aTableRow` from the old array and the section labels. */
  method UpdateTableRowKeys(tableRow: map<int, string>, secLabels: seq<string>) returns (aTableRow: seq<(RowKey, string)>)
    ensures aTableRow == TableRowUpTo(Layouts(secLabels), |secLabels|, tableRow)
  {
    ghost var ls := Layouts(secLabels);
    aTableRow := [];
    var groupNr := -1;
    var t := -1;
    for k := 0 to |secLabels|
      invariant groupNr == k - 1 && t == Start(ls, k) - 1
      invariant aTableRow == TableRowUpTo(ls, k, tableRow)
    {
      groupNr := groupNr + 1;
      LayoutAt(secLabels, k);
      aTableRow, t := AppendLabel(tableRow, aTableRow, secLabels[k], ls[k], groupNr, t);
      UpToStep(ls, k, tableRow);
    }
  }

  /** One more layout extends the rebuilt array by its entries and moves the start past its width. */
  lemma UpToStep(ls: seq<Layout>, k: nat, tableRow: map<int, string>)
    requires k < |ls|
    ensures TableRowUpTo(ls, k + 1, tableRow) == TableRowUpTo(ls, k, tableRow) + LabelEntries(ls[k], k, Start(ls, k), tableRow)
    ensures Start(ls, k + 1) == Start(ls, k) + Width(ls[k])
  {
  }

  /** One pass of the loop over the labels: appends the keys of one label, whose group is `groupNr`. */
  method AppendLabel(tableRow: map<int, string>, aTableRow: seq<(RowKey, string)>, secLabel: string, ghost l: Layout, groupNr: nat, t: int)
    returns (r: seq<(RowKey, string)>, tEnd: int)
    requires l == LayoutOf(secLabel)
    ensures r == aTableRow + LabelEntries(l, groupNr, t + 1, tableRow)
    ensures tEnd == t + Width(l)
  {
    tEnd := t + 1;
    var cols := Split(secLabel, "}:");
    if |cols| <= 1 {
      r := aTableRow;
      if tEnd in tableRow {
        r := r + [(Group(groupNr), tableRow[tEnd])];
      }
    } else {
      var n := |Split(cols[1], ":")|;
      tEnd := tEnd - 1;
      r, tEnd := AppendColumns(tableRow, aTableRow, groupNr, tEnd, n);
    }
  }

  /** The loop over the columns of one label: appends keys `groupNr.0`… for the `n` positions after `t`. */
  method AppendColumns(tableRow: map<int, string>, aTableRow: seq<(RowKey, string)>, groupNr: nat, t: int, n: nat)
    returns (r: seq<(RowKey, string)>, tEnd: int)
    ensures r == aTableRow + ColumnEntries(groupNr, t + 1, n, tableRow)
    ensures tEnd == t + n
  {
    r := aTableRow;
    tEnd := t;
    var colNr := -1;
    for i := 1 to n + 1
      invariant colNr == i - 2 && tEnd == t + i - 1
      invariant r == aTableRow + ColumnEntries(groupNr, t + 1, i - 1, tableRow)
    {
      colNr := colNr + 1;
      tEnd := tEnd + 1;
      ghost var entry := Entry(Column(groupNr, colNr), tEnd, tableRow);
      AppendAssoc(aTableRow, ColumnEntries(groupNr, t + 1, i - 1, tableRow), entry);
      if tEnd in tableRow {
        r := r + [(Column(groupNr, colNr), tableRow[tEnd])];
      }
    }
  }

  // ----- Properties -----

  lemma {:induction false} ColumnEntriesMembers(g: nat, t: int, n: nat, tableRow: map<int, string>, key: RowKey, v: string)
    ensures (key, v) in ColumnEntries(g, t, n, tableRow) <==>
              key.Column? && key.group == g && key.column < n && t + key.column in tableRow && tableRow[t + key.column] == v
  {
    if n > 0 {
      ColumnEntriesMembers(g, t, n - 1, tableRow, key, v);
    }
  }

  lemma LabelEntriesMembers(l: Layout, g: nat, t: int, tableRow: map<int, string>, key: RowKey, v: string)
    ensures (key, v) in LabelEntries(l, g, t, tableRow) <==>
      match l
      case Single => key == Group(g) && t in tableRow && tableRow[t] == v
      case Multi(m) => key.Column? && key.group == g && key.column < m && t + key.column in tableRow && tableRow[t + key.column] == v
  {
    if l.Multi? {
      ColumnEntriesMembers(g, t, l.columns, tableRow, key, v);
    }
  }

  lemma LabelEntriesGroup(l: Layout, g: nat, t: int, tableRow: map<int, string>, key: RowKey, v: string)
    ensures (key, v) in LabelEntries(l, g, t, tableRow) ==> key.group == g
  {
    LabelEntriesMembers(l, g, t, tableRow, key, v);
  }

  /** The entry `(key, v)` is made by one of the first `k` labels, searched from the last one back. */
  predicate MadeBy(ls: seq<Layout>, k: nat, tableRow: map<int, string>, key: RowKey, v: string)
    requires k <= |ls|
  {
    k > 0 &&
    if key.group == k - 1 then (key, v) in LabelEntries(ls[k - 1], k - 1, Start(ls, k - 1), tableRow)
    else MadeBy(ls, k - 1, tableRow, key, v)
  }

  lemma InUpToStep(ls: seq<Layout>, k: nat, tableRow: map<int, string>, x: (RowKey, string))
    requires 0 < k <= |ls|
    ensures x in TableRowUpTo(ls, k, tableRow) <==>
      x in TableRowUpTo(ls, k - 1, tableRow) || x in LabelEntries(ls[k - 1], k - 1, Start(ls, k - 1), tableRow)
  {
    InConcat(x, TableRowUpTo(ls, k - 1, tableRow), LabelEntries(ls[k - 1], k - 1, Start(ls, k - 1), tableRow));
  }

  lemma MadeByUnfold(ls: seq<Layout>, k: nat, tableRow: map<int, string>, key: RowKey, v: string)
    requires 0 < k <= |ls|
    ensures MadeBy(ls, k, tableRow, key, v) <==>
      if key.group == k - 1 then (key, v) in LabelEntries(ls[k - 1], k - 1, Start(ls, k - 1), tableRow)
      else MadeBy(ls, k - 1, tableRow, key, v)
  {
  }

  lemma {:induction false} MadeByBelow(ls: seq<Layout>, k: nat, tableRow: map<int, string>, key: RowKey, v: string)
    requires k <= |ls|
    ensures MadeBy(ls, k, tableRow, key, v) ==> key.group < k
  {
    if k > 0 {
      MadeByBelow(ls, k - 1, tableRow, key, v);
    }
  }

  /** An entry is made by the first `k` labels exactly when label `key.group`, one of them, makes it. */
  lemma {:induction false} MadeByMeaning(ls: seq<Layout>, k: nat, tableRow: map<int, string>, key: RowKey, v: string)
    requires k <= |ls|
    ensures MadeBy(ls, k, tableRow, key, v) <==>
      key.group < k && (key, v) in LabelEntries(ls[key.group], key.group, Start(ls, key.group), tableRow)
  {
    if k > 0 {
      MadeByMeaning(ls, k - 1, tableRow, key, v);
    }
  }

  lemma {:induction false} InTableRowMadeBy(ls: seq<Layout>, k: nat, tableRow: map<int, string>, key: RowKey, v: string)
    requires k <= |ls|
    ensures (key, v) in TableRowUpTo(ls, k, tableRow) <==> MadeBy(ls, k, tableRow, key, v)
  {
    if k > 0 {
      InUpToStep(ls, k, tableRow, (key, v));
      MadeByUnfold(ls, k, tableRow, key, v);
      InTableRowMadeBy(ls, k - 1, tableRow, key, v);
      LabelEntriesGroup(ls[k - 1], k - 1, Start(ls, k - 1), tableRow, key, v);
      MadeByBelow(ls, k - 1, tableRow, key, v);
    }
  }

  /** An entry of the first `k` labels belongs to a group below `k`, and it is the entry of that group's label. */
  lemma TableRowMembers(ls: seq<Layout>, k: nat, tableRow: map<int, string>, key: RowKey, v: string)
    requires k <= |ls|
    ensures (key, v) in TableRowUpTo(ls, k, tableRow) <==>
      key.group < k && (key, v) in LabelEntries(ls[key.group], key.group, Start(ls, key.group), tableRow)
  {
    InTableRowMadeBy(ls, k, tableRow, key, v);
    MadeByMeaning(ls, k, tableRow, key, v);
  }

  lemma GroupKeyEntries(ls: seq<Layout>, tableRow: map<int, string>, g: nat)
    requires g < |ls|
    ensures forall v :: (Group(g), v) in TableRowUpTo(ls, |ls|, tableRow) <==>
              ls[g].Single? && Start(ls, g) in tableRow && tableRow[Start(ls, g)] == v
  {
    forall v ensures (Group(g), v) in TableRowUpTo(ls, |ls|, tableRow) <==>
              ls[g].Single? && Start(ls, g) in tableRow && tableRow[Start(ls, g)] == v {
      TableRowMembers(ls, |ls|, tableRow, Group(g), v);
      LabelEntriesMembers(ls[g], g, Start(ls, g), tableRow, Group(g), v);
    }
  }

  lemma ColumnKeyEntries(ls: seq<Layout>, tableRow: map<int, string>, g: nat)
    requires g < |ls|
    ensures forall c: nat, v :: (Column(g, c), v) in TableRowUpTo(ls, |ls|, tableRow) <==>
              ls[g].Multi? && c < ls[g].columns && Start(ls, g) + c in tableRow && tableRow[Start(ls, g) + c] == v
  {
    forall c: nat, v
      ensures (Column(g, c), v) in TableRowUpTo(ls, |ls|, tableRow) <==>
              ls[g].Multi? && c < ls[g].columns && Start(ls, g) + c in tableRow && tableRow[Start(ls, g) + c] == v
    {
      TableRowMembers(ls, |ls|, tableRow, Column(g, c), v);
      LabelEntriesMembers(ls[g], g, Start(ls, g), tableRow, Column(g, c), v);
    }
  }

  /** A single label's keys in `table`: key `g` with the old entry at position `p`, if present, and no column key. */
  ghost predicate SingleKeyed(table: seq<(RowKey, string)>, tableRow: map<int, string>, g: nat, p: int) {
    && (forall v :: (Group(g), v) in table <==> p in tableRow && tableRow[p] == v)
    && (forall c: nat, v :: (Column(g, c), v) !in table)
  }

  /** A column label's keys in `table`: `g.c` for each `c < m` with the old entry at `p + c`, if present, and no key `g`. */
  ghost predicate MultiKeyed(table: seq<(RowKey, string)>, tableRow: map<int, string>, g: nat, p: int, m: nat) {
    && (forall c: nat, v :: (Column(g, c), v) in table <==> c < m && p + c in tableRow && tableRow[p + c] == v)
    && (forall v :: (Group(g), v) !in table)
  }

  /** The keys of group `g` in the rebuilt array, by the layout of label `g`. */
  lemma GroupKeys(ls: seq<Layout>, tableRow: map<int, string>, g: nat)
    requires g < |ls|
    ensures var table := TableRowUpTo(ls, |ls|, tableRow);
      var p := Start(ls, g);
      && Start(ls, g + 1) == p + Width(ls[g])
      && (ls[g].Single? ==> SingleKeyed(table, tableRow, g, p))
      && (ls[g].Multi? ==> MultiKeyed(table, tableRow, g, p, ls[g].columns))
  {
    GroupKeyEntries(ls, tableRow, g);
    ColumnKeyEntries(ls, tableRow, g);
  }

  /**
   * A label without "}:" is keyed by its group number `g`, holding the old
   * entry at its start position if there is one, and the next label starts
   * one position later.
   */
  lemma LabelKeysSingle(labels: seq<string>, tableRow: map<int, string>, g: nat)
    requires g < |labels| && !Contains(labels[g], "}:")
    ensures var ls := Layouts(labels);
      var p := Start(ls, g);
      Start(ls, g + 1) == p + 1 && SingleKeyed(TableRowUpTo(ls, |labels|, tableRow), tableRow, g, p)
  {
    LayoutCases(labels[g]);
    LayoutAt(labels, g);
    GroupKeys(Layouts(labels), tableRow, g);
  }

  /**
   * A label with "}:" is keyed `g.0`…`g.(m-1)`, m being the number of
   * ':'-separated parts of the segment after its first "}:", holding the old
   * entries at m consecutive positions, and the next label starts m positions
   * later.
   */
  lemma LabelKeysMulti(labels: seq<string>, tableRow: map<int, string>, g: nat)
    requires g < |labels| && Contains(labels[g], "}:")
    ensures var ls := Layouts(labels);
      var p := Start(ls, g);
      var m := |Split(ColumnSegment(labels[g]), ":")|;
      Start(ls, g + 1) == p + m && MultiKeyed(TableRowUpTo(ls, |labels|, tableRow), tableRow, g, p, m)
  {
    LayoutCases(labels[g]);
    LayoutAt(labels, g);
    GroupKeys(Layouts(labels), tableRow, g);
  }

  /** Every value of the rebuilt array is an old value, taken from a position inside the labels' span. */
  lemma ValuesAreOld(ls: seq<Layout>, tableRow: map<int, string>, key: RowKey, v: string)
    requires (key, v) in TableRowUpTo(ls, |ls|, tableRow)
    ensures exists pos :: 0 <= pos < Start(ls, |ls|) && pos in tableRow && tableRow[pos] == v
  {
    TableRowMembers(ls, |ls|, tableRow, key, v);
    var g := key.group;
    LabelEntriesMembers(ls[g], g, Start(ls, g), tableRow, key, v);
    StartMonotone(ls, g + 1, |ls|);
    var pos := if ls[g].Single? then Start(ls, g) else Start(ls, g) + key.column;
    assert pos < Start(ls, g + 1);
  }

  lemma {:induction false} StartMonotone(ls: seq<Layout>, j: nat, k: nat)
    requires j <= k <= |ls|
    ensures Start(ls, j) <= Start(ls, k)
    decreases k - j
  {
    if j < k {
      StartMonotone(ls, j, k - 1);
    }
  }

  predicate DistinctKeys(e: seq<(RowKey, string)>) {
    forall i, j :: 0 <= i < j < |e| ==> e[i].0 != e[j].0
  }

  /** Entries of the first `k` labels belong to groups below `k`. */
  lemma GroupsBelow(ls: seq<Layout>, k: nat, tableRow: map<int, string>)
    requires k <= |ls|
    ensures forall e :: e in TableRowUpTo(ls, k, tableRow) ==> e.0.group < k
  {
    forall e | e in TableRowUpTo(ls, k, tableRow) ensures e.0.group < k {
      TableRowMembers(ls, k, tableRow, e.0, e.1);
    }
  }

  /** No key occurs twice in the rebuilt array. */
  lemma {:induction false} KeysDistinct(ls: seq<Layout>, k: nat, tableRow: map<int, string>)
    requires k <= |ls|
    ensures DistinctKeys(TableRowUpTo(ls, k, tableRow))
  {
    if k > 0 {
      KeysDistinct(ls, k - 1, tableRow);
      LastLabelApart(ls, k, tableRow);
      UpToStep(ls, k - 1, tableRow);
    }
  }

  /** Appending the entries of label `k - 1` to the key-distinct entries of the labels before it keeps the keys distinct. */
  lemma LastLabelApart(ls: seq<Layout>, k: nat, tableRow: map<int, string>)
    requires 0 < k <= |ls| && DistinctKeys(TableRowUpTo(ls, k - 1, tableRow))
    ensures DistinctKeys(TableRowUpTo(ls, k - 1, tableRow) + LabelEntries(ls[k - 1], k - 1, Start(ls, k - 1), tableRow))
  {
    LabelKeysDistinct(ls[k - 1], k - 1, Start(ls, k - 1), tableRow);
    GroupsBelow(ls, k - 1, tableRow);
    LabelGroupAll(ls[k - 1], k - 1, Start(ls, k - 1), tableRow);
    GroupsApart(TableRowUpTo(ls, k - 1, tableRow), LabelEntries(ls[k - 1], k - 1, Start(ls, k - 1), tableRow), k - 1);
  }

  lemma LabelGroupAll(l: Layout, g: nat, t: int, tableRow: map<int, string>)
    ensures forall e :: e in LabelEntries(l, g, t, tableRow) ==> e.0.group == g
  {
    forall e | e in LabelEntries(l, g, t, tableRow) ensures e.0.group == g {
      LabelEntriesGroup(l, g, t, tableRow, e.0, e.1);
    }
  }

  /** Key-distinct arrays of groups below `g` and of group `g` stay key-distinct when appended. */
  lemma GroupsApart(a: seq<(RowKey, string)>, b: seq<(RowKey, string)>, g: nat)
    requires DistinctKeys(a) && DistinctKeys(b)
    requires forall x :: x in a ==> x.0.group < g
    requires forall y :: y in b ==> y.0.group == g
    ensures DistinctKeys(a + b)
  {
    DisjointAppend(a, b);
  }

  /** Two key-distinct arrays whose keys never meet stay key-distinct when appended. */
  lemma DisjointAppend(a: seq<(RowKey, string)>, b: seq<(RowKey, string)>)
    requires DistinctKeys(a) && DistinctKeys(b)
    requires forall x, y :: x in a && y in b ==> x.0 != y.0
    ensures DistinctKeys(a + b)
  {
    var t := a + b;
    forall i, j | 0 <= i < j < |t| ensures t[i].0 != t[j].0 {
      if j < |a| {
        assert t[i] == a[i] && t[j] == a[j];
      } else if i >= |a| {
        assert t[i] == b[i - |a|] && t[j] == b[j - |a|];
      } else {
        assert t[i] in a && t[j] in b;
      }
    }
  }

  lemma LabelKeysDistinct(l: Layout, g: nat, t: int, tableRow: map<int, string>)
    ensures DistinctKeys(LabelEntries(l, g, t, tableRow))
  {
    if l.Multi? {
      ColumnsDistinct(g, t, l.columns, tableRow);
    }
  }

  lemma {:induction false} ColumnsDistinct(g: nat, t: int, n: nat, tableRow: map<int, string>)
    ensures DistinctKeys(ColumnEntries(g, t, n, tableRow))
  {
    if n > 0 {
      ColumnsDistinct(g, t, n - 1, tableRow);
      var e := ColumnEntries(g, t, n, tableRow);
      var prefix := ColumnEntries(g, t, n - 1, tableRow);
      var last := Entry(Column(g, n - 1), t + n - 1, tableRow);
      assert e == prefix + last;
      forall i, j | 0 <= i < j < |e| ensures e[i].0 != e[j].0 {
        if j < |prefix| {
          assert e[i] == prefix[i] && e[j] == prefix[j];
        } else {
          assert e[j] == last[0] && last[0].0 == Column(g, n - 1);
          assert e[i] == prefix[i];
          ColumnEntriesMembers(g, t, n - 1, tableRow, prefix[i].0, prefix[i].1);
          assert prefix[i] in prefix;
        }
      }
    }
  }
}
