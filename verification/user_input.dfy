/**
 * Preparation of the raw tag text before parameter parsing: alias characters
 * are substituted, line ends are normalised to "\n", surrounding blank lines
 * are trimmed and the text is cut into lines.
 */
module UserInput {
  import opened PhpStrings

  /**
   * `str_replace` with the alias arrays: « → <, » → >, ¦ → |, ²{ → {{ and
   * }² → }}, each pair applied in turn to the whole text.
   */
  function SubstituteAliases(input: string): string {
    var s1 := Replace(input, "\U{AB}", "<");
    var s2 := Replace(s1, "\U{BB}", ">");
    var s3 := Replace(s2, "\U{A6}", "|");
    var s4 := Replace(s3, "\U{B2}{", "{{");
    Replace(s4, "}\U{B2}", "}}")
  }

  /** "\r\n" and then a lone "\r" both become "\n". */
  function NormaliseNewlines(s: string): string {
    Replace(Replace(s, "\r\n", "\n"), "\r", "\n")
  }

  /** The text whose lines are the parameters: aliases substituted, newlines normalised, outer "\n" trimmed. */
  function PreparedText(input: string): string {
    Trim(NormaliseNewlines(SubstituteAliases(input)), {'\n'})
  }

  /**
   * `prepareUserInput`: always at least one line; no line holds a line break;
   * joining the lines with "\n" gives the prepared text back.
   */
  function PrepareUserInput(input: string): (lines: seq<string>)
    ensures |lines| >= 1
    ensures forall i :: 0 <= i < |lines| ==> '\n' !in lines[i] && '\r' !in lines[i]
    ensures Join(lines, "\n") == PreparedText(input)
  {
    var text := PreparedText(input);
    JoinSplit(text, "\n");
    NoLineBreakInLines(input);
    Split(text, "\n")
  }

  lemma NoLineBreakInLines(input: string)
    ensures var lines := Split(PreparedText(input), "\n");
      forall i :: 0 <= i < |lines| ==> '\n' !in lines[i] && '\r' !in lines[i]
  {
    var text := PreparedText(input);
    var lines := Split(text, "\n");
    var normalised := NormaliseNewlines(SubstituteAliases(input));
    ReplaceEliminates(Replace(SubstituteAliases(input), "\r\n", "\n"), "\r", "\n");
    ContainsSingleChar(normalised, '\r');
    if '\r' in TrimLeft(normalised, {'\n'}) {
      TrimLeftChars(normalised, {'\n'}, '\r');
    }
    if '\r' in text {
      TrimRightChars(TrimLeft(normalised, {'\n'}), {'\n'}, '\r');
    }
    SplitPiecesFree(text, "\n");
    forall i | 0 <= i < |lines| ensures '\n' !in lines[i] && '\r' !in lines[i] {
      ContainsSingleChar(lines[i], '\n');
      if '\r' in lines[i] {
        SplitPiecesChars(text, "\n", '\r');
      }
    }
  }

  /** The prepared text neither begins nor ends with "\n", and only "\n" was cut away around it. */
  lemma {:induction false} PreparedTextTrimmed(input: string)
    ensures var t := PreparedText(input);
      && (|t| > 0 ==> t[0] != '\n' && t[|t| - 1] != '\n')
      && exists a, b :: 0 <= a <= b <= |NormaliseNewlines(SubstituteAliases(input))|
           && t == NormaliseNewlines(SubstituteAliases(input))[a..b]
  {
    TrimShape(NormaliseNewlines(SubstituteAliases(input)), {'\n'});
  }

  /** After preparation no line holds the alias characters «, » or ¦. */
  lemma {:induction false} AliasesGone(input: string)
    ensures forall l :: l in PrepareUserInput(input) ==> '\U{AB}' !in l && '\U{BB}' !in l && '\U{A6}' !in l
  {
    var s1 := Replace(input, "\U{AB}", "<");
    var s2 := Replace(s1, "\U{BB}", ">");
    var s3 := Replace(s2, "\U{A6}", "|");
    var s4 := Replace(s3, "\U{B2}{", "{{");
    var s5 := Replace(s4, "}\U{B2}", "}}");
    var n1 := Replace(s5, "\r\n", "\n");
    var n2 := Replace(n1, "\r", "\n");
    var text := PreparedText(input);
    forall c | c in ['\U{AB}', '\U{BB}', '\U{A6}'] ensures c !in text {
      var needle := [c];
      if c == '\U{AB}' {
        ReplaceEliminates(input, needle, "<");
        ReplaceKeepsAbsent(s1, needle, "\U{BB}", ">");
        ReplaceKeepsAbsent(s2, needle, "\U{A6}", "|");
      } else if c == '\U{BB}' {
        ReplaceEliminates(s1, needle, ">");
        ReplaceKeepsAbsent(s2, needle, "\U{A6}", "|");
      } else {
        ReplaceEliminates(s2, needle, "|");
      }
      ReplaceKeepsAbsent(s3, needle, "\U{B2}{", "{{");
      ReplaceKeepsAbsent(s4, needle, "}\U{B2}", "}}");
      ReplaceKeepsAbsent(s5, needle, "\r\n", "\n");
      ReplaceKeepsAbsent(n1, needle, "\r", "\n");
      ContainsSingleChar(n2, c);
      if c in TrimLeft(n2, {'\n'}) {
        TrimLeftChars(n2, {'\n'}, c);
      }
      if c in text {
        TrimRightChars(TrimLeft(n2, {'\n'}), {'\n'}, c);
      }
    }
    forall l, c | l in Split(text, "\n") && c in ['\U{AB}', '\U{BB}', '\U{A6}'] ensures c !in l {
      if c in l {
        SplitPiecesChars(text, "\n", c);
      }
    }
  }
}
