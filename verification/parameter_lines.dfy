/**
 * The parameter-line loop of `parse()`: each prepared line `name=value` is
 * classified, warnings are logged and accepted settings are handed to the
 * parameter store. The store is abstract: it answers whether a name exists,
 * whether the caller's rights allow it (`testRichness`), and whether a value
 * is accepted by its setter.
 */
module ParameterLines {
  import opened Wrappers
  import opened PhpStrings
  import opened Diagnostics

  /**
   * The parameter store, seen only through its three answers: the names it
   * knows, the names the caller's rights allow, and the (name, value) pairs
   * its setters accept.
   */
  datatype ParameterOracle = ParameterOracle(
    known: set<string>,
    permitted: set<string>,
    accepts: iset<(string, string)>)
  {
    predicate paramExists(name: string) { name in known }
    predicate testRichness(name: string) { name in permitted }
    predicate setValue(name: string, value: string) { (name, value) in accepts }
  }

  /** One call of the parameter setter, with the normalised name and trimmed value. */
  datatype SetterCall = SetterCall(name: string, value: string)

  /** What one line produced, and the value `$parameter` holds after it. */
  datatype LineOutcome = LineOutcome(warnings: seq<Message>, call: Option<SetterCall>, name: string)

  /** What the loop has produced so far. */
  datatype LoopState = LoopState(messages: seq<Message>, calls: seq<SetterCall>, lastName: string)

  /** `explode('=', $line, 2)`: the text before the first '=' and everything after it. */
  function SplitAtFirst(line: string): (r: Option<(string, string)>)
    ensures r.Some? <==> '=' in line
    ensures r.Some? ==> line == r.value.0 + "=" + r.value.1 && '=' !in r.value.0
  {
    ContainsSingleChar(line, '=');
    match IndexOf(line, "=")
    case None => None
    case Some(i) =>
      ContainsSingleChar(line[..i], '=');
      assert line == line[..i] + "=" + line[i + 1..];
      Some((line[..i], line[i + 1..]))
  }

  /** The name as looked up: trimmed, with '<' spelt "lt" and '>' spelt "gt". */
  function NormaliseName(raw: string): (name: string)
    ensures '<' !in name && '>' !in name
    ensures '<' !in Trim(raw, DefaultTrimChars) && '>' !in Trim(raw, DefaultTrimChars) ==>
              name == Trim(raw, DefaultTrimChars)
  {
    var t := Trim(raw, DefaultTrimChars);
    ContainsSingleChar(t, '<');
    ContainsSingleChar(t, '>');
    if Contains(t, "<") || Contains(t, ">") then
      var r1 := Replace(t, "<", "lt");
      var r2 := Replace(r1, ">", "gt");
      ReplaceEliminates(t, "<", "lt");
      ReplaceKeepsAbsent(r1, "<", ">", "gt");
      ReplaceEliminates(r1, ">", "gt");
      ContainsSingleChar(r2, '<');
      ContainsSingleChar(r2, '>');
      r2
    else
      t
  }

  /** Lines that are dropped without a word: empty name, comment, or a known parameter the caller may not use. */
  predicate Silenced(name: string, o: ParameterOracle) {
    PhpEmpty(name) || name[0] == '#' || (o.paramExists(name) && !o.testRichness(name))
  }

  /** Only these known parameters are passed on with an empty value. */
  predicate TakesEmptyValue(name: string) {
    name == "namespace" || name == "notnamespace" || name == "category"
  }

  /** The trimmed value of a line with an '='. */
  function LineValue(line: string): string
    requires '=' in line
  {
    Trim(SplitAtFirst(line).value.1, DefaultTrimChars)
  }

  /**
   * One iteration of the loop; `lastName` is what `$parameter` held before it.
   * A line warns at most twice, and reaches the setter only through an '='
   * with a usable name, which becomes the new `$parameter`.
   */
  function ClassifyLine(line: string, lastName: string, o: ParameterOracle): (r: LineOutcome)
    ensures |r.warnings| <= 2
    ensures r.call.Some? ==>
              '=' in line && r.call.value.name == r.name && '<' !in r.name && '>' !in r.name && !Silenced(r.name, o)
  {
    match SplitAtFirst(line)
    case None =>
      LineOutcome([Message(WarnUnknownParam, [lastName + " [missing '=']"])], None, lastName)
    case Some((rawName, rawValue)) =>
      ClassifyAssignment(NormaliseName(rawName), Trim(rawValue, DefaultTrimChars), o)
  }

  /** One line `name=value`, with the name normalised and the value trimmed. */
  function ClassifyAssignment(name: string, value: string, o: ParameterOracle): LineOutcome
  {
    if Silenced(name, o) then
      LineOutcome([], None, name)
    else
      var unknown := if !o.paramExists(name) then [Message(WarnUnknownParam, [name])] else [];
      if PhpEmpty(value) && !TakesEmptyValue(name) && o.paramExists(name) then
        LineOutcome(unknown, None, name)
      else
        var rejected := if !o.setValue(name, value) then [Message(WarnWrongParam, [name, value])] else [];
        LineOutcome(unknown + rejected, Some(SetterCall(name, value)), name)
  }

  /** How each kind of line is treated; `r` is the outcome of the line. */
  lemma ClassifyLineCases(line: string, lastName: string, o: ParameterOracle, r: LineOutcome)
    requires r == ClassifyLine(line, lastName, o)
    // a line without '=' gives exactly one unknown-parameter warning naming the previous parameter
    ensures '=' !in line ==>
              r.warnings == [Message(WarnUnknownParam, [lastName + " [missing '=']"])] && r.call.None? && r.name == lastName
    // otherwise the name is taken from before the first '=' only
    ensures '=' in line ==> r.name == NormaliseName(SplitAtFirst(line).value.0)
    // the three silent kinds
    ensures '=' in line && Silenced(r.name, o) ==> r.warnings == [] && r.call.None?
    ensures ('=' in line && !Silenced(r.name, o) && o.paramExists(r.name) && PhpEmpty(LineValue(line))
              && !TakesEmptyValue(r.name)) ==> r.warnings == [] && r.call.None?
    // every other line reaches the setter with the trimmed value
    ensures ('=' in line && !Silenced(r.name, o) && !(o.paramExists(r.name) && PhpEmpty(LineValue(line)) && !TakesEmptyValue(r.name)))
              ==> r.call == Some(SetterCall(r.name, LineValue(line)))
    // warnings of a line that reaches the setter: unknown name first, then rejection
    ensures r.call.Some? ==>
              r.warnings == (if o.paramExists(r.name) then [] else [Message(WarnUnknownParam, [r.name])])
                          + (if o.setValue(r.name, r.call.value.value) then [] else [Message(WarnWrongParam, [r.name, r.call.value.value])])
  {
  }

  function CallSeq(c: Option<SetterCall>): seq<SetterCall> {
    match c
    case None => []
    case Some(x) => [x]
  }

  /** The loop over all lines; `$parameter` starts out undefined, which reads as "". */
  function RunLines(lines: seq<string>, o: ParameterOracle): (r: LoopState)
    ensures |r.calls| <= |lines| && |r.messages| <= 2 * |lines|
  {
    if |lines| == 0 then LoopState([], [], "")
    else
      var prev := RunLines(lines[..|lines| - 1], o);
      var out := ClassifyLine(lines[|lines| - 1], prev.lastName, o);
      LoopState(prev.messages + out.warnings, prev.calls + CallSeq(out.call), out.name)
  }

  lemma RunLinesStep(lines: seq<string>, i: nat, o: ParameterOracle)
    requires i < |lines|
    ensures var prev := RunLines(lines[..i], o);
      var out := ClassifyLine(lines[i], prev.lastName, o);
      RunLines(lines[..i + 1], o) == LoopState(prev.messages + out.warnings, prev.calls + CallSeq(out.call), out.name)
  {
    assert lines[..i + 1][..i] == lines[..i];
  }

  /** A setter call is admissible when its name is usable and its value is not a dropped empty one. */
  predicate Admissible(c: SetterCall, o: ParameterOracle) {
    && '<' !in c.name && '>' !in c.name
    && !Silenced(c.name, o)
    && (o.paramExists(c.name) && PhpEmpty(c.value) ==> TakesEmptyValue(c.name))
  }

  /** Every setter call the loop makes is admissible, and there is at most one call and two warnings per line. */
  lemma {:induction false} RunLinesCallsAdmissible(lines: seq<string>, o: ParameterOracle)
    ensures forall c :: c in RunLines(lines, o).calls ==> Admissible(c, o)
    ensures |RunLines(lines, o).calls| <= |lines|
    ensures |RunLines(lines, o).messages| <= 2 * |lines|
  {
    if |lines| > 0 {
      var init := lines[..|lines| - 1];
      RunLinesCallsAdmissible(init, o);
      var prev := RunLines(init, o);
      var line := lines[|lines| - 1];
      var out := ClassifyLine(line, prev.lastName, o);
      ClassifyLineCases(line, prev.lastName, o, out);
      if out.call.Some? {
        assert '=' in line;
        assert out.call.value.value == LineValue(line);
      }
    }
  }

  /** Lines without '=' only warn: if no line has an '=', every line gives one warning and the setter is never called. */
  lemma {:induction false} RunLinesNoAssignments(lines: seq<string>, o: ParameterOracle)
    requires forall i :: 0 <= i < |lines| ==> '=' !in lines[i]
    ensures |RunLines(lines, o).messages| == |lines|
    ensures forall m :: m in RunLines(lines, o).messages ==> m.kind == WarnUnknownParam
    ensures RunLines(lines, o).calls == []
    ensures RunLines(lines, o).lastName == ""
  {
    if |lines| > 0 {
      RunLinesNoAssignments(lines[..|lines| - 1], o);
    }
  }

  /** The body of the loop for one line: logs its warnings, calls the setter when due. */
  method HandleLine(line: string, lastName: string, o: ParameterOracle, logger: Logger)
    returns (parameter: string, call: Option<SetterCall>)
    modifies logger
    ensures logger.messages == old(logger.messages) + ClassifyLine(line, lastName, o).warnings
    ensures call == ClassifyLine(line, lastName, o).call
    ensures parameter == ClassifyLine(line, lastName, o).name
  {
    parameter := lastName;
    call := None;
    match SplitAtFirst(line) {
      case None =>
        logger.AddMessage(WarnUnknownParam, [parameter + " [missing '=']"]);
      case Some((rawName, rawValue)) =>
        parameter := NormaliseName(rawName);
        var option := Trim(rawValue, DefaultTrimChars);
        call := HandleAssignment(parameter, option, o, logger);
    }
  }

  /** A line with an '=': silent skip, unknown-name warning, empty-value skip, setter call and its rejection warning. */
  method HandleAssignment(parameter: string, option: string, o: ParameterOracle, logger: Logger)
    returns (call: Option<SetterCall>)
    modifies logger
    ensures logger.messages == old(logger.messages) + ClassifyAssignment(parameter, option, o).warnings
    ensures call == ClassifyAssignment(parameter, option, o).call
  {
    call := None;
    if PhpEmpty(parameter) || parameter[0] == '#' || (o.paramExists(parameter) && !o.testRichness(parameter)) {
      return;
    }
    if !o.paramExists(parameter) {
      logger.AddMessage(WarnUnknownParam, [parameter]);
    }
    if PhpEmpty(option) && !TakesEmptyValue(parameter) && o.paramExists(parameter) {
      return;
    }
    if !o.setValue(parameter, option) {
      logger.AddMessage(WarnWrongParam, [parameter, option]);
    }
    call := Some(SetterCall(parameter, option));
  }

  /**
   * The loop of `parse()`: logs each line's warnings in order and returns the
   * setter calls it made.
   */
  method ParseParameterLines(lines: seq<string>, o: ParameterOracle, logger: Logger) returns (calls: seq<SetterCall>)
    modifies logger
    ensures logger.messages == old(logger.messages) + RunLines(lines, o).messages
    ensures calls == RunLines(lines, o).calls
  {
    ghost var logged: seq<Message> := [];
    calls := [];
    var parameter := "";
    var i := 0;
    while i < |lines|
      invariant 0 <= i <= |lines|
      invariant logged == RunLines(lines[..i], o).messages
      invariant calls == RunLines(lines[..i], o).calls && parameter == RunLines(lines[..i], o).lastName
      invariant logger.messages == old(logger.messages) + logged
    {
      RunLinesStep(lines, i, o);
      ghost var out := ClassifyLine(lines[i], parameter, o);
      AppendAssoc(old(logger.messages), logged, out.warnings);
      var call: Option<SetterCall>;
      parameter, call := HandleLine(lines[i], parameter, o, logger);
      logged := logged + out.warnings;
      calls := calls + CallSeq(call);
      i := i + 1;
    }
    assert lines[..|lines|] == lines;
  }
}
