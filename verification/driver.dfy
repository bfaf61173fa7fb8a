/** The shift-reduce driver (`TransitionTable` in backend/src/comp/transition_table.py).

    The input is trimmed and split on whitespace; the buffer is the tokens followed by `$`, the
    stack starts as `[0]`. Each step looks up ACTION at the top of the stack and the head of the
    buffer, performs it and logs exactly one transition. The loop stops on accept, on a missing
    action, or after 1000 steps, and reaching 1000 steps logs one more error. An invalid rule
    number or a missing GOTO entry logs an error but does not stop the loop.

    Three Python exceptions the source does not catch are modelled as a crash: popping from an
    empty buffer (a shift on `$` after `$` was consumed), indexing the rule list out of range
    with a negative rule number, and unpacking a rule that does not split into exactly two
    parts on `" -> "`. */
module Driver {
  import opened Wrappers
  import opened Strings
  import opened Grammar
  import opened Table
  import Afn

  /** `max_steps`. */
  const MaxSteps: nat := 1000

  /** What a logged step did, with the fields each kind of transition carries. */
  datatype StepKind =
    | Shifted(target: int, symbol: String)
    | Reduced(ruleNumber: int, rule: String)
    | Accepted
    | Failed(message: String)

  /** One entry of `transitions`: the step number, what happened, copies of the stack and the
      buffer after it, and the input position. */
  datatype Transition = Transition(step: nat, kind: StepKind, stack: seq<int>, input: seq<String>, position: nat)

  /** The driver's fields: `stack`, `input_buffer`, `current_position`, `transitions`,
      `accepted`, `error_message` and `step_count`. */
  datatype Config = Config(stack: seq<int>, buffer: seq<String>, position: nat, transitions: seq<Transition>,
                           accepted: bool, error: Option<String>, steps: nat)

  datatype CrashReason = PopFromEmptyBuffer | RuleIndexOutOfRange | RuleNotSplittable

  /** The result of one iteration: carry on, leave the loop (`break`), or an uncaught exception. */
  datatype StepResult = Next(c: Config) | Halt(c: Config) | Crash(reason: CrashReason)

  /** The result of the whole run. */
  datatype Outcome = Finished(c: Config) | Crashed(reason: CrashReason)

  /** The `action` text of a transition. */
  function ActionText(k: StepKind): String {
    match k
    case Shifted(n, _) => "shift " + IntToString(n)
    case Reduced(n, rule) => "reduce " + IntToString(n) + " (" + rule + ")"
    case Accepted => "accept"
    case Failed(_) => "error"
  }

  // ---------------------------------------------------------------- tokens

  /** `_tokenize_input` on the stripped input: `[]` when blank, else the whitespace split. The
      tokens and some blank gaps, non-empty between tokens, make up the stripped input, which
      by `Strings.WordsUnique` fixes the tokens. */
  function Tokenize(input: String): (r: seq<String>)
    ensures forall k | 0 <= k < |r| :: IsWord(r[k])
    ensures exists gaps :: Gapped(Strip(input), r, gaps)
  {
    var s := Strip(input);
    if s == [] then
      assert Gapped(s, [], [""]);
      []
    else Words(s)
  }

  /** Space-separated words are tokenized back into the same words. */
  lemma TokenizeOfJoin(ws: seq<String>)
    requires forall k | 0 <= k < |ws| :: IsWord(ws[k])
    ensures Tokenize(Join(ws, " ")) == ws
  {
    WordsOfJoin(ws);
    if ws != [] {
      JoinEnds(ws);
      StripOfStripped(Join(ws, " "));
    }
  }

  lemma {:induction false} JoinEnds(ws: seq<String>)
    requires ws != [] && forall k | 0 <= k < |ws| :: IsWord(ws[k])
    ensures Join(ws, " ") != [] && Stripped(Join(ws, " "))
    ensures Join(ws, " ")[0] == ws[0][0]
    decreases |ws|
  {
    if |ws| > 1 {
      JoinEnds(ws[1..]);
      assert ws[1..][0] == ws[1];
      var rest := Join(ws[1..], " ");
      assert Join(ws, " ") == ws[0] + " " + rest;
      assert Join(ws, " ")[|Join(ws, " ")| - 1] == rest[|rest| - 1];
    }
  }

  /** The fields `__init__` sets before processing. */
  function Initial(input: String): (c: Config)
    ensures c.stack == [0] && c.buffer == Tokenize(input) + [Afn.EndMarker]
    ensures c.position == 0 && c.transitions == [] && !c.accepted && c.steps == 0
  {
    Config([0], Tokenize(input) + [Afn.EndMarker], 0, [], false, None, 0)
  }

  // ---------------------------------------------------------------- error messages

  function NoActionMessage(state: int, symbol: String): String {
    "No hay acción definida para estado " + IntToString(state) + " con símbolo '" + symbol + "'"
  }

  function InvalidRuleMessage(n: int): String {
    "Número de regla inválido: " + IntToString(n)
  }

  function NoGotoMessage(state: int, symbol: String): String {
    "No hay transición GOTO desde estado " + IntToString(state) + " con símbolo '" + symbol + "'"
  }

  const StepLimitMessage: String := "Se alcanzó el límite máximo de pasos"

  // ---------------------------------------------------------------- one step

  /** Append the transition for what just happened (at step `c.steps`). */
  function Log(c: Config, k: StepKind): (r: Config)
    ensures r.transitions == c.transitions + [Transition(c.steps, k, c.stack, c.buffer, c.position)]
    ensures r == c.(transitions := r.transitions)
  {
    c.(transitions := c.transitions + [Transition(c.steps, k, c.stack, c.buffer, c.position)])
  }

  /** `_record_error`. */
  function RecordError(c: Config, message: String): (r: Config)
    ensures r.transitions == c.transitions + [Transition(c.steps, Failed(message), c.stack, c.buffer, c.position)]
    ensures !r.accepted && r.error == Some(message)
    ensures r.stack == c.stack && r.buffer == c.buffer && r.position == c.position && r.steps == c.steps
  {
    Log(c.(error := Some(message), accepted := false), Failed(message))
  }

  /** The stack after popping `n` times, each time only while more than one entry is left. */
  function PopKeepingOne(stack: seq<int>, n: nat): (r: seq<int>)
    requires stack != []
    ensures r != [] && r <= stack
    ensures |r| == if |stack| - n >= 1 then |stack| - n else 1
  {
    if n == 0 || |stack| == 1 then stack else PopKeepingOne(stack[..|stack| - 1], n - 1)
  }

  /** Python's `reglas[n]` with negative indices counted from the end. */
  function PyIndex<T>(xs: seq<T>, n: int): (r: Option<T>)
    ensures r.Some? <==> -|xs| <= n < |xs|
    ensures r.Some? && n >= 0 ==> r.value == xs[n]
    ensures r.Some? && n < 0 ==> r.value == xs[|xs| + n]
  {
    if 0 <= n < |xs| then Some(xs[n])
    else if -|xs| <= n < 0 then Some(xs[|xs| + n])
    else None
  }

  /** What every logged step keeps (the step number is `c.steps`): the stack stays non-empty,
      exactly one transition is appended carrying the step number and the new position,
      `accepted` holds exactly after an accept, and a shift, and only a shift, consumes the head
      of the buffer and advances the position. */
  predicate Logged(c: Config, c2: Config) {
    && c2.stack != [] && c2.steps == c.steps
    && |c2.transitions| == |c.transitions| + 1 && c2.transitions[..|c.transitions|] == c.transitions
    && c2.transitions[|c.transitions|].step == c.steps
    && c2.transitions[|c.transitions|].position == c2.position
    && (c2.accepted <==> c2.transitions[|c.transitions|].kind.Accepted?)
    && if c2.transitions[|c.transitions|].kind.Shifted? then
         && c.buffer != [] && c2.transitions[|c.transitions|].kind.symbol == c.buffer[0]
         && c2.buffer == c.buffer[1..] && c2.position == c.position + 1
       else c2.buffer == c.buffer && c2.position == c.position
  }

  /** `_perform_shift`: push the target and consume the head of the buffer. */
  function PerformShift(c: Config, target: int): (r: StepResult)
    requires !c.accepted
    ensures r.Crash? <==> c.buffer == []
    ensures !r.Halt?
    ensures r.Next? ==> Logged(c, r.c) && r.c.stack == c.stack + [target]
                        && Last(r.c.transitions).kind == Shifted(target, c.buffer[0])
  {
    if c.buffer == [] then Crash(PopFromEmptyBuffer)
    else Next(Log(c.(stack := c.stack + [target], buffer := c.buffer[1..], position := c.position + 1), Shifted(target, c.buffer[0])))
  }

  /** `_perform_reduce`: an invalid rule number or a missing GOTO logs an error and the loop
      goes on. */
  function PerformReduce(tb: LrTable, rules: seq<String>, c: Config, n: int): (r: StepResult)
    requires c.stack != [] && !c.accepted
    ensures !r.Halt?
    ensures n >= |rules| ==> r == Next(RecordError(c, InvalidRuleMessage(n)))
    ensures r.Crash? <==> n < -|rules| || (n < |rules| && |SplitOn(PyIndex(rules, n).value, Arrow)| != 2)
    ensures r.Next? ==> Logged(c, r.c) && (Last(r.c.transitions).kind.Reduced? || Last(r.c.transitions).kind.Failed?)
  {
    if n >= |rules| then Next(RecordError(c, InvalidRuleMessage(n)))
    else match PyIndex(rules, n)
      case None => Crash(RuleIndexOutOfRange)
      case Some(rule) =>
        var parts := SplitOn(rule, Arrow);
        if |parts| != 2 then Crash(RuleNotSplittable)
        else
          FinishReduce(tb, c, n, rule, parts[0], PopBody(c.stack, parts[1]))
  }

  /** The GOTO half of `_perform_reduce`, once the stack has been popped to `popped`. */
  function FinishReduce(tb: LrTable, c: Config, n: int, rule: String, left: String, popped: seq<int>): (r: StepResult)
    requires popped != []
    ensures r.Next? && |r.c.transitions| == |c.transitions| + 1
    ensures GetGoto(tb, Last(popped), left).None? <==> Last(r.c.transitions).kind.Failed?
    ensures GetGoto(tb, Last(popped), left).Some? ==> r.c.stack == popped + [GetGoto(tb, Last(popped), left).value]
  {
    var top := popped[|popped| - 1];
    match GetGoto(tb, top, left)
    case None => Next(RecordError(c.(stack := popped), NoGotoMessage(top, left)))
    case Some(goto) => Next(Log(c.(stack := popped + [goto]), Reduced(n, rule)))
  }

  /** The stack after the pops of a reduce by a rule with right side `right`. */
  function PopBody(stack: seq<int>, right: String): (r: seq<int>)
    requires stack != []
    ensures r != [] && r <= stack
  {
    var symbols := if Strip(right) != [] then Words(right) else [];
    if symbols != [] && symbols[0] != Epsilon then PopKeepingOne(stack, |symbols|) else stack
  }

  /** A reduce pops one entry per symbol of the right side (none for a blank or `ε` right
      side), never the last one. */
  lemma PopBodyWords(stack: seq<int>, right: String)
    requires stack != []
    ensures var body := Words(right);
      PopBody(stack, right) == if body != [] && body[0] != Epsilon then PopKeepingOne(stack, |body|) else stack
  {
    if Strip(right) == [] {
      BlankOfStrip(right);
      WordsEmpty(right);
    }
  }

  /** The stack after a reduce that found its GOTO entry: the pops, then the GOTO state. */
  lemma ReduceStack(tb: LrTable, rules: seq<String>, c: Config, n: nat, left: String, right: String)
    requires c.stack != [] && !c.accepted && n < |rules| && SplitOn(rules[n], Arrow) == [left, right]
    requires PerformReduce(tb, rules, c, n).Next?
    requires Last(PerformReduce(tb, rules, c, n).c.transitions).kind.Reduced?
    ensures var body := Words(right);
      var kept := if body != [] && body[0] != Epsilon then PopKeepingOne(c.stack, |body|) else c.stack;
      && GetGoto(tb, Last(kept), left).Some?
      && PerformReduce(tb, rules, c, n).c.stack == kept + [GetGoto(tb, Last(kept), left).value]
      && Last(PerformReduce(tb, rules, c, n).c.transitions).kind == Reduced(n, rules[n])
  {
    assert PyIndex(rules, n) == Some(rules[n]);
    PopBodyWords(c.stack, right);
    assert PerformReduce(tb, rules, c, n) == FinishReduce(tb, c, n, rules[n], left, PopBody(c.stack, right));
  }

  /** One iteration of `_process_string`: advance `step_count`, look up ACTION at the top of
      the stack and the current input, and perform it. */
  function Step(tb: LrTable, rules: seq<String>, c: Config): (r: StepResult)
    requires c.stack != [] && !c.accepted
    ensures r.Next? || r.Halt? ==> Logged(c.(steps := c.steps + 1), r.c)
    ensures r.Halt? <==> (GetAction(tb, Last(c.stack), CurrentInput(c)).None?
                          || GetAction(tb, Last(c.stack), CurrentInput(c)).value.kind == Accept)
    ensures r.Halt? ==> Last(r.c.transitions).kind.Accepted? || Last(r.c.transitions).kind.Failed?
    ensures r.Next? ==> !r.c.accepted
  {
    var c1 := c.(steps := c.steps + 1);
    var state := Last(c1.stack);
    var input := CurrentInput(c1);
    match GetAction(tb, state, input)
    case None => Halt(RecordError(c1, NoActionMessage(state, input)))
    case Some(Action(kind, value)) =>
      match kind
      case Shift => PerformShift(c1, value)
      case Reduce => PerformReduce(tb, rules, c1, value)
      case Accept => Halt(Log(c1.(accepted := true), Accepted))
  }

  /** `input_buffer[0]`, or `$` when the buffer is empty. */
  function CurrentInput(c: Config): (s: String)
    ensures c.buffer != [] ==> s == c.buffer[0]
    ensures c.buffer == [] ==> s == Afn.EndMarker
  {
    if c.buffer != [] then c.buffer[0] else Afn.EndMarker
  }

  // ---------------------------------------------------------------- the run

  /** The symbols consumed by the shifts among `ts`, in order. */
  function ShiftedSymbols(ts: seq<Transition>): seq<String> {
    if ts == [] then []
    else ShiftedSymbols(ts[..|ts| - 1]) + (if Last(ts).kind.Shifted? then [Last(ts).kind.symbol] else [])
  }

  lemma ShiftedAppend(ts: seq<Transition>, t: Transition)
    ensures ShiftedSymbols(ts + [t]) == ShiftedSymbols(ts) + (if t.kind.Shifted? then [t.kind.symbol] else [])
  {
    assert (ts + [t])[..|ts|] == ts;
  }

  /** The run's bookkeeping: the stack is never empty, one transition per step numbered by its
      step, the position counts the shifts, the shifted symbols followed by the buffer are the
      original buffer, and `accepted` tells whether the last transition is an accept. */
  ghost predicate Accounted(c: Config, buffer0: seq<String>) {
    && c.stack != []
    && |c.transitions| == c.steps
    && (forall i | 0 <= i < |c.transitions| :: c.transitions[i].step == i + 1)
    && c.position == |ShiftedSymbols(c.transitions)|
    && ShiftedSymbols(c.transitions) + c.buffer == buffer0
    && (c.accepted <==> c.transitions != [] && Last(c.transitions).kind.Accepted?)
  }

  /** A logged step keeps the run's bookkeeping. */
  lemma LoggedAccounted(c: Config, c2: Config, buffer0: seq<String>)
    requires Accounted(c, buffer0) && !c.accepted
    requires Logged(c.(steps := c.steps + 1), c2)
    ensures Accounted(c2, buffer0)
  {
    var t := c2.transitions[|c.transitions|];
    assert c2.transitions == c.transitions + [t];
    ShiftedAppend(c.transitions, t);
    if t.kind.Shifted? {
      assert [c.buffer[0]] + c.buffer[1..] == c.buffer;
    }
  }

  /** One pass of the loop of `_process_string`, with the bookkeeping it keeps. */
  method RunStep(tb: LrTable, rules: seq<String>, c: Config, ghost buffer0: seq<String>) returns (s: StepResult)
    requires Accounted(c, buffer0) && !c.accepted
    ensures s == Step(tb, rules, c)
    ensures s.Next? || s.Halt? ==> Accounted(s.c, buffer0) && s.c.steps == c.steps + 1
    ensures s.Next? ==> !s.c.accepted
    ensures s.Halt? ==> Last(s.c.transitions).kind.Accepted? || Last(s.c.transitions).kind.Failed?
  {
    s := Step(tb, rules, c);
    if !s.Crash? {
      LoggedAccounted(c, s.c, buffer0);
    }
  }

  /** What a finished run guarantees: the stack is not empty, between 1 and 1000 steps ran
      with one transition each, numbered in order, plus the step-limit error when the limit
      was reached; the position counts the shifts, whose symbols followed by the remaining
      buffer are the original buffer; `accepted` tells whether the last transition is an
      accept, which it cannot be at the step limit; and a run that stopped earlier stopped
      on an accept or an error. */
  ghost predicate RunDone(c: Config, buffer0: seq<String>) {
    && c.stack != [] && 0 < c.steps <= MaxSteps && c.transitions != []
    && |c.transitions| == c.steps + (if c.steps == MaxSteps then 1 else 0)
    && (forall i | 0 <= i < c.steps :: c.transitions[i].step == i + 1)
    && c.position == |ShiftedSymbols(c.transitions)|
    && ShiftedSymbols(c.transitions) + c.buffer == buffer0
    && (c.accepted <==> Last(c.transitions).kind.Accepted?)
    && (c.steps == MaxSteps ==> !c.accepted && Last(c.transitions).kind == Failed(StepLimitMessage))
    && (c.steps < MaxSteps ==> Last(c.transitions).kind.Accepted? || Last(c.transitions).kind.Failed?)
  }

  /** Leaving the loop early, on an accept or an error, finishes the run. */
  lemma HaltedDone(c: Config, buffer0: seq<String>)
    requires Accounted(c, buffer0) && 0 < c.steps < MaxSteps
    requires Last(c.transitions).kind.Accepted? || Last(c.transitions).kind.Failed?
    ensures RunDone(c, buffer0)
  {
  }

  /** Reaching the step limit logs one more error and finishes the run rejected. */
  lemma StepLimitDone(c: Config, buffer0: seq<String>)
    requires Accounted(c, buffer0) && c.steps == MaxSteps
    ensures RunDone(RecordError(c, StepLimitMessage), buffer0)
  {
    ShiftedAppend(c.transitions, Transition(c.steps, Failed(StepLimitMessage), c.stack, c.buffer, c.position));
  }

  /** The code after the loop: reaching the step limit logs one more error. */
  function Finish(c: Config): Config {
    if c.steps >= MaxSteps then RecordError(c, StepLimitMessage) else c
  }

  /** Reference run: `Step` until it crashes, halts or reaches the step limit, then `Finish`. */
  function Drive(tb: LrTable, rules: seq<String>, c: Config): Outcome
    requires c.stack != [] && !c.accepted && c.steps <= MaxSteps
    decreases MaxSteps - c.steps
  {
    if c.steps >= MaxSteps then Finished(Finish(c))
    else match Step(tb, rules, c)
      case Crash(reason) => Crashed(reason)
      case Halt(c2) => Finished(Finish(c2))
      case Next(c2) => Drive(tb, rules, c2)
  }

  /** `TransitionTable(input_string, lr_table)`: run the driver. The outcome is the reference
      run from the initial configuration, so a crash comes from a step that crashes. */
  method Process(input: String, tb: LrTable, rules: seq<String>) returns (r: Outcome)
    ensures r == Drive(tb, rules, Initial(input))
    ensures r.Finished? ==> RunDone(r.c, Tokenize(input) + [Afn.EndMarker])
  {
    ghost var buffer0 := Tokenize(input) + [Afn.EndMarker];
    var c := Initial(input);
    var halted := false;
    while c.steps < MaxSteps && !halted
      invariant c.steps <= MaxSteps
      invariant Accounted(c, buffer0)
      invariant !halted ==> !c.accepted
      invariant halted ==> c.steps > 0 && (Last(c.transitions).kind.Accepted? || Last(c.transitions).kind.Failed?)
      invariant !halted ==> Drive(tb, rules, Initial(input)) == Drive(tb, rules, c)
      invariant halted ==> Drive(tb, rules, Initial(input)) == Finished(Finish(c))
      decreases MaxSteps - c.steps, if halted then 0 else 1
    {
      var s := RunStep(tb, rules, c, buffer0);
      if s.Crash? {
        return Crashed(s.reason);
      }
      halted := s.Halt?;
      c := s.c;
    }
    if c.steps >= MaxSteps {
      StepLimitDone(c, buffer0);
      c := RecordError(c, StepLimitMessage);
    } else {
      HaltedDone(c, buffer0);
    }
    r := Finished(c);
  }
}
