/** The calculator of `src/pages/tools/CalculatorPage.tsx`: what each key does
    to the display, the expression being typed and the history of results.
    The arithmetic itself (`eval`, `parseFloat`, `toFixed`) is floating point
    and reaches the model only as the text it formats to, in `Numerics`. */
module Calculator {
  import opened Optional
  import opened Strings

  /** A finished calculation as the history panel lists it. */
  datatype Entry = Entry(expression: string, result: string)

  /** The calculator's state: what the display shows, the expression typed
      so far, and the history, oldest first. */
  datatype State = State(display: string, expression: string, history: seq<Entry>)

  /** The formatted results of the floating-point operations for one key
      press: the evaluated expression (`None` when `eval` throws), the
      display divided by 100, and the display negated. */
  datatype Numerics = Numerics(evaluated: Option<string>, percent: string, negated: string)

  /** `isOperator`. */
  predicate IsOperator(value: string)
    ensures IsOperator(value) ==> |value| == 1 && !IsDigitKey(value) && value != "."
  {
    value == "÷" || value == "×" || value == "-" || value == "+"
  }

  /** The keys on the keypad. */
  predicate IsDigitKey(value: string) {
    |value| == 1 && IsDigit(value[0])
  }

  /** `parts[parts.length - 1] = v; parts.join(' ')` on the space-separated
      parts of `expression`. */
  function ReplaceLastPart(expression: string, v: string): string {
    var parts := Split(expression, ' ');
    Join(parts[|parts| - 1 := v], ' ')
  }

  /** The parts of the expression after backspace: when the display was
      longer than one character the last part loses its last character, or
      is removed when it has only one; otherwise the last part is removed. */
  function BackspaceParts(parts: seq<string>, longDisplay: bool): seq<string>
    requires |parts| >= 1
  {
    var last := parts[|parts| - 1];
    if longDisplay && |last| > 1 then parts[|parts| - 1 := last[..|last| - 1]]
    else if longDisplay && |last| == 0 then parts
    else parts[..|parts| - 1]
  }

  /** The expression after backspace: its space-separated parts, edited by
      `BackspaceParts` and joined again. */
  function BackspaceExpression(expression: string, longDisplay: bool): string {
    Join(BackspaceParts(Split(expression, ' '), longDisplay), ' ')
  }

  /** `updateDisplay(value)` for a digit, '.' or an operator. */
  function Typed(st: State, value: string): (r: State)
    ensures r.history == st.history
    ensures r.display == value || r.display == st.display + value
    ensures value != "" ==> r.display != ""
  {
    if st.display == "0" && !IsOperator(value) && value != "." then
      st.(display := value, expression := value)
    else if IsOperator(value) then
      st.(display := value, expression := st.expression + " " + value + " ")
    else if IsOperator(st.display) then
      st.(display := value, expression := st.expression + value)
    else
      st.(display := st.display + value, expression := st.expression + value)
  }

  /** `handleButtonClick(value)`. */
  function Pressed(st: State, value: string, num: Numerics): (r: State)
    ensures value != "=" ==> r.history == st.history
    ensures |st.history| <= |r.history| <= |st.history| + 1
    ensures r.history[..|st.history|] == st.history
  {
    if value == "C" then st.(display := "0", expression := "")
    else if value == "=" then
      match num.evaluated
      case Some(res) =>
        State(res, res, st.history + [Entry(st.expression, res)])
      case None => st.(display := "Error")
    else if value == "%" then
      st.(display := num.percent, expression := ReplaceLastPart(st.expression, num.percent))
    else if value == "±" then
      if st.display != "0" then
        st.(display := num.negated, expression := ReplaceLastPart(st.expression, num.negated))
      else st
    else if value == "←" then
      if |st.display| > 1 then
        st.(display := st.display[..|st.display| - 1],
            expression := BackspaceExpression(st.expression, true))
      else st.(display := "0", expression := BackspaceExpression(st.expression, false))
    else Typed(st, value)
  }

  /** 'C' shows 0 and forgets the expression; the history stays. */
  lemma ClearResets(st: State, num: Numerics)
    ensures Pressed(st, "C", num) == State("0", "", st.history)
  {
  }

  /** A digit on a display of 0 starts afresh: the old expression is gone. */
  lemma DigitOnZero(st: State, d: string, num: Numerics)
    requires IsDigitKey(d) && st.display == "0"
    ensures Pressed(st, d, num) == st.(display := d, expression := d)
  {
    assert d[0] != '.' && !IsSpace(d[0]);
  }

  /** An operator is displayed on its own and added to the expression with
      a space on each side. */
  lemma OperatorAppends(st: State, op: string, num: Numerics)
    requires IsOperator(op)
    ensures Pressed(st, op, num) == st.(display := op, expression := st.expression + " " + op + " ")
  {
  }

  /** A digit or '.' away from a display of 0 replaces a displayed operator
      and otherwise extends the number; either way the expression grows by
      that key. */
  lemma DigitAppends(st: State, d: string, num: Numerics)
    requires IsDigitKey(d) || d == "."
    requires st.display != "0" || d == "."
    ensures var r := Pressed(st, d, num);
      && r.expression == st.expression + d
      && r.display == (if IsOperator(st.display) then d else st.display + d)
      && r.history == st.history
  {
    assert IsDigitKey(d) ==> d != "C" && d != "=" && d != "%" && d != "±" && d != "←" && !IsOperator(d);
  }

  /** After C, a digit, '.', an operator or backspace the display is never
      empty. */
  lemma DisplayNeverEmpty(st: State, value: string, num: Numerics)
    requires value == "C" || IsDigitKey(value) || value == "." || IsOperator(value) || value == "←"
    ensures Pressed(st, value, num).display != ""
  {
  }

  /** Changing the last of some space-free parts to another space-free
      text and joining them gives a text whose parts are the changed ones. */
  lemma JoinUpdatedLast(parts: seq<string>, v: string)
    requires |parts| >= 1 && Separated(parts, ' ') && ' ' !in v
    ensures Split(Join(parts[|parts| - 1 := v], ' '), ' ') == parts[|parts| - 1 := v]
  {
    SeparatedUpdate(parts, ' ', |parts| - 1, v);
    SplitJoin(parts[|parts| - 1 := v], ' ');
  }

  /** The parts of the expression after a last part is replaced: the same
      parts with the last one changed, when the new text has no space. */
  lemma ReplaceLastPartParts(expression: string, parts: seq<string>, v: string)
    requires parts == Split(expression, ' ') && ' ' !in v
    ensures Split(ReplaceLastPart(expression, v), ' ') == parts[|parts| - 1 := v]
  {
    JoinUpdatedLast(parts, v);
  }

  /** Backspace on a display of several characters takes the last
      character off a last part of several characters. */
  lemma BackspaceShortensPart(expression: string, parts: seq<string>, last: string)
    requires parts == Split(expression, ' ') && last == parts[|parts| - 1] && |last| > 1
    ensures Split(BackspaceExpression(expression, true), ' ') == parts[|parts| - 1 := last[..|last| - 1]]
  {
    assert BackspaceExpression(expression, true) == Join(parts[|parts| - 1 := last[..|last| - 1]], ' ');
    ShortenedLastParts(parts, last);
  }

  lemma ShortenedLastParts(parts: seq<string>, last: string)
    requires |parts| >= 1 && Separated(parts, ' ') && last == parts[|parts| - 1] && |last| > 1
    ensures Split(Join(parts[|parts| - 1 := last[..|last| - 1]], ' '), ' ') == parts[|parts| - 1 := last[..|last| - 1]]
  {
    NotInPrefix(last, ' ', |last| - 1);
    JoinUpdatedLast(parts, last[..|last| - 1]);
  }

  /** Backspace removes the last part when the display had one character
      or the last part has one; the other parts stay, and with no other
      part the expression becomes empty. */
  lemma BackspaceRemovesPart(expression: string, longDisplay: bool)
    ensures var parts := Split(expression, ' ');
      var n := |parts|;
      var r := BackspaceExpression(expression, longDisplay);
      (!longDisplay || |parts[n - 1]| == 1) ==>
        (n > 1 ==> Split(r, ' ') == parts[..n - 1]) && (n == 1 ==> r == [])
  {
    var parts := Split(expression, ' ');
    var n := |parts|;
    if !longDisplay || |parts[n - 1]| == 1 {
      assert BackspaceParts(parts, longDisplay) == parts[..n - 1];
      if n > 1 {
        DroppedLastParts(parts);
      }
    }
  }

  lemma DroppedLastParts(parts: seq<string>)
    requires |parts| > 1 && Separated(parts, ' ')
    ensures Split(Join(parts[..|parts| - 1], ' '), ' ') == parts[..|parts| - 1]
  {
    SeparatedPrefix(parts, ' ', |parts| - 1);
    SplitJoin(parts[..|parts| - 1], ' ');
  }

  /** Backspace on a display of several characters leaves an expression
      that ends in a space as it is. */
  lemma BackspaceKeepsEmptyPart(expression: string)
    ensures var parts := Split(expression, ' ');
      parts[|parts| - 1] == [] ==> BackspaceExpression(expression, true) == expression
  {
    JoinSplit(expression, ' ');
  }

  /** A successful '=' shows the result, continues from it and records the
      calculation at the end of the history; a failed one shows "Error" and
      keeps the expression. */
  lemma EqualsRecords(st: State, num: Numerics)
    ensures var r := Pressed(st, "=", num);
      && (num.evaluated.Some? ==>
            r.display == num.evaluated.value && r.expression == num.evaluated.value
            && |r.history| == |st.history| + 1
            && r.history[..|st.history|] == st.history
            && r.history[|st.history|] == Entry(st.expression, num.evaluated.value))
      && (num.evaluated.None? ==> r == st.(display := "Error"))
  {
    if num.evaluated.Some? {
      assert Pressed(st, "=", num).history[..|st.history|] == st.history;
    }
  }

  /** The calculator page. */
  class CalculatorPage {
    var display: string
    var expression: string
    var history: seq<Entry>

    function Current(): State
      reads this
    {
      State(display, expression, history)
    }

    constructor ()
      ensures Current() == State("0", "", [])
    {
      display := "0";
      expression := "";
      history := [];
    }

    /** `handleButtonClick(value)`. */
    method ButtonClick(value: string, num: Numerics)
      modifies this
      ensures Current() == Pressed(old(Current()), value, num)
    {
      if value == "C" {
        ClearDisplay();
      } else if value == "=" {
        CalculateResult(num.evaluated);
      } else if value == "%" {
        display := num.percent;
        expression := ReplaceLastPart(expression, num.percent);
      } else if value == "±" {
        if display != "0" {
          display := num.negated;
          expression := ReplaceLastPart(expression, num.negated);
        }
      } else if value == "←" {
        Backspace();
      } else {
        UpdateDisplay(value);
      }
    }

    /** `clearDisplay`. */
    method ClearDisplay()
      modifies this
      ensures Current() == old(Current()).(display := "0", expression := "")
    {
      display := "0";
      expression := "";
    }

    /** `calculateResult`, given what the expression evaluates to. */
    method CalculateResult(evaluated: Option<string>)
      modifies this
      ensures evaluated.Some? ==>
        Current() == State(evaluated.value, evaluated.value,
                           old(history) + [Entry(old(expression), evaluated.value)])
      ensures evaluated.None? ==> Current() == old(Current()).(display := "Error")
    {
      match evaluated
      case Some(res) =>
        history := history + [Entry(expression, res)];
        display := res;
        expression := res;
      case None =>
        display := "Error";
    }

    /** The timer that puts 0 back on the display after an error. */
    method ErrorTimeout()
      modifies this
      ensures Current() == old(Current()).(display := "0")
    {
      display := "0";
    }

    /** `updateDisplay(value)`. */
    method UpdateDisplay(value: string)
      modifies this
      ensures Current() == Typed(old(Current()), value)
    {
      if display == "0" && !IsOperator(value) && value != "." {
        display := value;
        expression := value;
      } else if IsOperator(value) {
        display := value;
        expression := expression + " " + value + " ";
      } else if IsOperator(display) {
        display := value;
        expression := expression + value;
      } else {
        display := display + value;
        expression := expression + value;
      }
    }

    /** `handleBackspace`: the parts of the expression are edited in place
        and joined again. */
    method Backspace()
      modifies this
      ensures Current() == old(Current()).(
        display := if |old(display)| > 1 then old(display)[..|old(display)| - 1] else "0",
        expression := BackspaceExpression(old(expression), |old(display)| > 1))
    {
      var parts := Split(expression, ' ');
      if |display| > 1 {
        display := display[..|display| - 1];
        var last := parts[|parts| - 1];
        if |last| > 1 {
          parts := parts[|parts| - 1 := last[..|last| - 1]];
        } else if |last| == 1 {
          parts := parts[..|parts| - 1];
        }
      } else {
        display := "0";
        parts := parts[..|parts| - 1];
      }
      expression := Join(parts, ' ');
    }

    /** `clearHistory`. */
    method ClearHistory()
      modifies this
      ensures Current() == old(Current()).(history := [])
    {
      history := [];
    }

    /** A click on history entry `i`: its result is displayed and becomes
        the expression. */
    method SelectHistory(i: nat)
      requires i < |history|
      modifies this
      ensures Current() == old(Current()).(display := old(history)[i].result, expression := old(history)[i].result)
    {
      display := history[i].result;
      expression := history[i].result;
    }
  }
}
