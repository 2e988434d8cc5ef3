/**
 * The reset/eliminate flag array of `parse()`: eight booleans, positions 0..3
 * resetting links, templates, categories and images, positions 4..7
 * eliminating them. It is initialised from the `eliminate` option and, when
 * called as a tag, eliminate for templates, categories and images is folded
 * into reset.
 */
module ResetFlags {

  const FlagCount := 8

  /** The initial flags: all four eliminate flags set exactly when `eliminate` is "all". */
  function InitialFlags(eliminate: string): (flags: seq<bool>)
    ensures |flags| == FlagCount
    ensures forall k :: 0 <= k < 4 ==> !flags[k]
    ensures forall k :: 4 <= k < FlagCount ==> (flags[k] <==> eliminate == "all")
  {
    if eliminate == "all" then [false, false, false, false, true, true, true, true]
    else [false, false, false, false, false, false, false, false]
  }

  /** The flags after folding: in tag mode an eliminate flag for templates, categories or images becomes a reset flag. */
  function Folded(flags: seq<bool>, calledInMode: string): (r: seq<bool>)
    requires |flags| == FlagCount
    ensures |r| == FlagCount
  {
    if calledInMode != "tag" then flags
    else flags[1 := flags[1] || flags[5]][5 := false]
              [2 := flags[2] || flags[6]][6 := false]
              [3 := flags[3] || flags[7]][7 := false]
  }

  method InitResetFlags(eliminate: string) returns (bReset: array<bool>)
    ensures fresh(bReset)
    ensures bReset[..] == InitialFlags(eliminate)
  {
    bReset := new bool[FlagCount];
    var eliminateAll := eliminate == "all";
    var k := 0;
    while k < FlagCount
      invariant 0 <= k <= FlagCount
      invariant forall j :: 0 <= j < k ==> bReset[j] == (j >= 4 && eliminateAll)
    {
      bReset[k] := k >= 4 && eliminateAll;
      k := k + 1;
    }
  }

  /** In tag mode, 'eliminate' is the same as 'reset' for templates, categories and images. */
  method FoldEliminateIntoReset(bReset: array<bool>, calledInMode: string)
    requires bReset.Length == FlagCount
    modifies bReset
    ensures bReset[..] == Folded(old(bReset[..]), calledInMode)
  {
    if calledInMode == "tag" {
      if bReset[5] {
        bReset[1] := true;
        bReset[5] := false;
      }
      if bReset[6] {
        bReset[2] := true;
        bReset[6] := false;
      }
      if bReset[7] {
        bReset[3] := true;
        bReset[7] := false;
      }
    }
  }

  /**
   * Folding in tag mode: links (0 and 4) are untouched, every other reset flag
   * is set exactly when it or its eliminate flag was, and no eliminate flag
   * for templates, categories or images survives. Outside tag mode nothing changes.
   */
  lemma FoldedSemantics(flags: seq<bool>, calledInMode: string)
    requires |flags| == FlagCount
    ensures var r := Folded(flags, calledInMode);
      calledInMode == "tag" ==>
        && r[0] == flags[0] && r[4] == flags[4]
        && (forall k :: 1 <= k < 4 ==> (r[k] <==> flags[k] || flags[k + 4]))
        && (forall k :: 5 <= k < FlagCount ==> !r[k])
    ensures calledInMode != "tag" ==> Folded(flags, calledInMode) == flags
  {
  }

  /** Folding twice is the same as folding once. */
  lemma FoldedIdempotent(flags: seq<bool>, calledInMode: string)
    requires |flags| == FlagCount
    ensures Folded(Folded(flags, calledInMode), calledInMode) == Folded(flags, calledInMode)
  {
  }

  /** Folding never clears a reset request: every flag set among 0..3 stays set. */
  lemma FoldedKeepsResets(flags: seq<bool>, calledInMode: string)
    requires |flags| == FlagCount
    ensures forall k :: 0 <= k < 4 && flags[k] ==> Folded(flags, calledInMode)[k]
  {
  }

  /** eliminate=all in tag mode becomes reset of templates, categories and images plus eliminate of links. */
  lemma EliminateAllInTagMode()
    ensures Folded(InitialFlags("all"), "tag") == [false, true, true, true, true, false, false, false]
  {
  }
}
