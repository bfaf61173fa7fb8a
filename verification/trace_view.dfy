/** The trace view (`TransitionTable` in frontend/src/components/TransitionTable.jsx).

    It shows one row per logged transition of the driver, a chip saying whether the input was
    accepted, and a final-state panel. Values that JavaScript would print with `String(x)` are
    modelled by their text. */
module TraceView {
  import opened Wrappers
  import opened Strings
  import Driver
  import Table

  /** A value handed to `formatStack`/`formatInput`: an array of printed elements, a falsy
      value (`undefined`, `null`, `''`, `0`), or any other value with its `String(x)` text. */
  datatype Shown = ArrayOf(items: seq<String>) | Falsy | Scalar(text: String)

  /** `formatStack` and `formatInput` (the two are the same function). */
  function Format(v: Shown): (r: String)
    ensures v.Falsy? ==> r == ""
    ensures v.Scalar? ==> r == v.text
  {
    match v
    case ArrayOf(items) => Join(items, " ")
    case Falsy => ""
    case Scalar(t) => t
  }

  /** An array of words is shown so that splitting on whitespace gives the words back. */
  lemma FormatOfWords(ws: seq<String>)
    requires forall k | 0 <= k < |ws| :: IsWord(ws[k])
    ensures Words(Format(ArrayOf(ws))) == ws
  {
    WordsOfJoin(ws);
  }

  // ---------------------------------------------------------------- the action class

  /** `getActionTypeClass`: the first keyword the action text contains, in the order
      `shift`, `reduce`, `accept`, `error`. */
  function ActionTypeClass(action: String): (r: String)
    ensures Contains(action, "shift") <==> r == "action-shift"
    ensures r == "action-reduce" <==> !Contains(action, "shift") && Contains(action, "reduce")
    ensures r == "action-accept" <==> !Contains(action, "shift") && !Contains(action, "reduce") && Contains(action, "accept")
    ensures r == "action-error" <==>
      !Contains(action, "shift") && !Contains(action, "reduce") && !Contains(action, "accept") && Contains(action, "error")
    ensures r == "action-default" <==>
      !Contains(action, "shift") && !Contains(action, "reduce") && !Contains(action, "accept") && !Contains(action, "error")
  {
    if Contains(action, "shift") then "action-shift"
    else if Contains(action, "reduce") then "action-reduce"
    else if Contains(action, "accept") then "action-accept"
    else if Contains(action, "error") then "action-error"
    else "action-default"
  }

  /** Text without the first character of `sub` does not contain `sub`. */
  lemma NotContainsWithoutHead(s: String, sub: String)
    requires sub != [] && forall k | 0 <= k < |s| :: s[k] != sub[0]
    ensures !Contains(s, sub)
  {
    forall i | 0 <= i <= |s| - |sub| ensures !OccursAt(s, sub, i) {
      assert s[i..i + |sub|][0] == s[i];
    }
  }

  /** Around a middle part, a prefix that cannot start `sub` and a one-character suffix that
      cannot end it add no occurrence of `sub`. */
  lemma ContainsInMiddle(p: String, m: String, q: String, sub: String)
    requires sub != [] && |q| == 1 && q[0] != sub[|sub| - 1]
    requires forall k | 0 <= k < |p| :: p[k] != sub[0]
    ensures Contains(p + m + q, sub) <==> Contains(m, sub)
  {
    var s := p + m + q;
    forall j | 0 <= j <= |m| - |sub| && OccursAt(m, sub, j) ensures OccursAt(s, sub, |p| + j) {
      assert s[|p| + j..|p| + j + |sub|] == m[j..j + |sub|];
    }
    forall i | 0 <= i <= |s| - |sub| && OccursAt(s, sub, i) ensures OccursAt(m, sub, i - |p|) {
      assert s[i..i + |sub|][0] == s[i];
      assert s[i..i + |sub|][|sub| - 1] == s[i + |sub| - 1];
      if i >= |p| && i + |sub| < |s| {
        assert s[i..i + |sub|] == m[i - |p|..i - |p| + |sub|];
      }
    }
  }

  lemma NumeralHasNo(s: String, c: char)
    requires IsNumeral(s) && c !in "-0123456789"
    ensures forall k | 0 <= k < |s| :: s[k] != c
  {
  }

  /** The class of each logged transition: shifts, accepts and errors get their own class; a
      reduce gets `action-reduce` unless its rule text contains `shift`, in which case the
      priority of `shift` colours it as a shift. */
  lemma ClassOfActionText(k: Driver.StepKind)
    ensures k.Shifted? ==> ActionTypeClass(Driver.ActionText(k)) == "action-shift"
    ensures k.Accepted? ==> ActionTypeClass(Driver.ActionText(k)) == "action-accept"
    ensures k.Failed? ==> ActionTypeClass(Driver.ActionText(k)) == "action-error"
    ensures k.Reduced? ==>
      ActionTypeClass(Driver.ActionText(k)) == if Contains(k.rule, "shift") then "action-shift" else "action-reduce"
  {
    match k
    case Shifted(n, _) =>
      assert OccursAt(Driver.ActionText(k), "shift", 0);
    case Accepted => ClassOfAccept();
    case Failed(_) => ClassOfError();
    case Reduced(n, rule) => ClassOfReduce(n, rule);
  }

  lemma ClassOfAccept()
    ensures ActionTypeClass("accept") == "action-accept"
  {
    NotContainsWithoutHead("accept", "shift");
    NotContainsWithoutHead("accept", "reduce");
    assert OccursAt("accept", "accept", 0);
  }

  lemma ClassOfError()
    ensures ActionTypeClass("error") == "action-error"
  {
    NotContainsWithoutHead("error", "shift");
    assert OccursAt("error", "error", 0);
  }

  lemma ClassOfReduce(n: int, rule: String)
    ensures ActionTypeClass(Driver.ActionText(Driver.Reduced(n, rule)))
         == if Contains(rule, "shift") then "action-shift" else "action-reduce"
  {
    var num := IntToString(n);
    var p := "reduce " + num + " (";
    NumeralHasNo(num, 's');
    forall j | 0 <= j < |p| ensures p[j] != 's' {
      if 7 <= j < 7 + |num| {
        assert p[j] == num[j - 7];
      }
    }
    var t := Driver.ActionText(Driver.Reduced(n, rule));
    assert t == p + rule + ")";
    ContainsInMiddle(p, rule, ")", "shift");
    assert t[..6] == "reduce";
    assert OccursAt(t, "reduce", 0);
  }

  // ---------------------------------------------------------------- the rows

  /** One entry of `transitions` as the view reads it; an absent detail field is `""`. */
  datatype TransitionRecord = TransitionRecord(step: int, action: String, stack: Shown, input: Shown,
                                               rule: String, symbol: String, error: String, message: String)

  /** The `final_state` object the view reads. */
  datatype FinalState = FinalState(stack: Shown, position: Option<int>)

  /** `transitionData`. */
  datatype TransitionData = TransitionData(inputString: String, accepted: bool, transitions: seq<TransitionRecord>,
                                           finalState: Option<FinalState>)

  /** A rendered row: the step chip, the action chip and its class, the stack (in brackets),
      the input and the detail captions. */
  datatype TraceRow = TraceRow(step: int, action: String, cls: String, stack: String, input: String, details: seq<Caption>)

  /** What the view shows: the info notice, or the header chip, the input string quoted after
      "Cadena de entrada:", the rows and the final-state panel. */
  datatype Screen =
    | Notice(text: String)
    | Trace(chip: String, shownInput: String, rows: seq<TraceRow>, finalStack: String, finalPosition: int,
            totalSteps: nat)

  /** The four detail captions, by their class names `rule-detail`, `symbol-detail`,
      `error-detail` and `message-detail`, in the order the cell lists them. */
  datatype CaptionKind = RuleDetail | SymbolDetail | ErrorDetail | MessageDetail

  /** A caption: its kind and its text. */
  datatype Caption = Caption(kind: CaptionKind, text: String)

  function Rank(k: CaptionKind): nat {
    match k
    case RuleDetail => 0
    case SymbolDetail => 1
    case ErrorDetail => 2
    case MessageDetail => 3
  }

  /** The field a caption of kind `k` shows. */
  function FieldOf(t: TransitionRecord, k: CaptionKind): String {
    match k
    case RuleDetail => t.rule
    case SymbolDetail => t.symbol
    case ErrorDetail => t.error
    case MessageDetail => t.message
  }

  /** The text a caption of kind `k` shows for the field value `v`. */
  function CaptionText(k: CaptionKind, v: String): String {
    match k
    case RuleDetail => "Regla: " + v
    case SymbolDetail => "Símbolo: " + v
    case ErrorDetail => "Error: " + v
    case MessageDetail => v
  }

  predicate HasCaption(r: seq<Caption>, k: CaptionKind) {
    exists i | 0 <= i < |r| :: r[i].kind == k
  }

  function KindOfRank(n: nat): (k: CaptionKind)
    requires n < 4
    ensures Rank(k) == n
  {
    if n == 0 then RuleDetail else if n == 1 then SymbolDetail else if n == 2 then ErrorDetail else MessageDetail
  }

  /** Putting a caption in front keeps every later caption and adds its own kind. */
  lemma ConsCaption(c: Caption, rest: seq<Caption>)
    ensures forall i | 1 <= i < |[c] + rest| :: ([c] + rest)[i] == rest[i - 1]
    ensures forall k | HasCaption(rest, k) || k == c.kind :: HasCaption([c] + rest, k)
  {
    var r := [c] + rest;
    assert r[0] == c;
    forall k | HasCaption(rest, k) ensures HasCaption(r, k) {
      var i :| 0 <= i < |rest| && rest[i].kind == k;
      assert r[i + 1].kind == k;
    }
  }

  /** The captions of rank `n` and above whose fields are non-empty, in rank order. */
  function Captions(t: TransitionRecord, n: nat): (r: seq<Caption>)
    requires n <= 4
    ensures forall i | 0 <= i < |r| ::
      Rank(r[i].kind) >= n && FieldOf(t, r[i].kind) != "" && r[i].text == CaptionText(r[i].kind, FieldOf(t, r[i].kind))
    ensures forall k | Rank(k) >= n && FieldOf(t, k) != "" :: HasCaption(r, k)
    ensures forall i, j | 0 <= i < j < |r| :: Rank(r[i].kind) < Rank(r[j].kind)
    decreases 4 - n
  {
    if n == 4 then []
    else
      var k := KindOfRank(n);
      var rest := Captions(t, n + 1);
      if FieldOf(t, k) != "" then
        var c := Caption(k, CaptionText(k, FieldOf(t, k)));
        ConsCaption(c, rest);
        [c] + rest
      else rest
  }

  /** The detail captions of a row: a caption of each kind appears exactly when its field is
      non-empty (JavaScript truthiness of a string), shows that field's text, and the captions
      come in the order rule, symbol, error, message, each at most once. */
  function Details(t: TransitionRecord): (r: seq<Caption>)
    ensures forall k: CaptionKind :: HasCaption(r, k) <==> FieldOf(t, k) != ""
    ensures forall i | 0 <= i < |r| :: r[i].text == CaptionText(r[i].kind, FieldOf(t, r[i].kind))
    ensures forall i, j | 0 <= i < j < |r| :: Rank(r[i].kind) < Rank(r[j].kind)
  {
    Captions(t, 0)
  }

  function RowOf(t: TransitionRecord): TraceRow {
    TraceRow(t.step, t.action, ActionTypeClass(t.action), "[" + Format(t.stack) + "]", Format(t.input), Details(t))
  }

  /** The whole component. */
  function Render(data: Option<TransitionData>): (r: Screen)
    ensures data.None? <==> r.Notice?
    ensures data.Some? ==>
      && |r.rows| == |data.value.transitions| == r.totalSteps
      && (forall i | 0 <= i < |r.rows| :: r.rows[i] == RowOf(data.value.transitions[i]))
      && (r.chip == "Cadena Aceptada" <==> data.value.accepted)
      && r.shownInput == data.value.inputString
    ensures data.Some? && (data.value.finalState.None? || data.value.finalState.value.position.None?) ==> r.finalPosition == 0
  {
    match data
    case None => Notice("No hay datos de transiciones para mostrar")
    case Some(d) =>
      var rows := seq(|d.transitions|, i requires 0 <= i < |d.transitions| => RowOf(d.transitions[i]));
      var finalStack := if d.finalState.Some? then d.finalState.value.stack else Falsy;
      var finalPosition := if d.finalState.Some? && d.finalState.value.position.Some? then d.finalState.value.position.value else 0;
      Trace(if d.accepted then "Cadena Aceptada" else "Cadena Rechazada", d.inputString, rows,
            "[" + Format(finalStack) + "]", finalPosition, |d.transitions|)
  }

  // ---------------------------------------------------------------- driver output

  /** The dictionary the driver logs for a transition (`_perform_shift`, `_perform_reduce`,
      `_perform_accept`, `_record_error`). */
  function RecordOf(t: Driver.Transition): (r: TransitionRecord)
    ensures r.action == Driver.ActionText(t.kind)
    ensures r.stack == ArrayOf(seq(|t.stack|, i requires 0 <= i < |t.stack| => IntToString(t.stack[i])))
    ensures r.input == ArrayOf(t.input) && r.step == t.step
    ensures t.kind.Shifted? ==> r.symbol == t.kind.symbol && r.rule == r.error == r.message == ""
    ensures t.kind.Reduced? ==> r.rule == t.kind.rule && r.symbol == r.error == r.message == ""
    ensures t.kind.Accepted? ==> r.message == AcceptedMessage && r.rule == r.symbol == r.error == ""
    ensures t.kind.Failed? ==> r.error == t.kind.message && r.rule == r.symbol == r.message == ""
  {
    var stack := ArrayOf(seq(|t.stack|, i requires 0 <= i < |t.stack| => IntToString(t.stack[i])));
    match t.kind
    case Shifted(_, symbol) => TransitionRecord(t.step, Driver.ActionText(t.kind), stack, ArrayOf(t.input), "", symbol, "", "")
    case Reduced(_, rule) => TransitionRecord(t.step, Driver.ActionText(t.kind), stack, ArrayOf(t.input), rule, "", "", "")
    case Accepted => TransitionRecord(t.step, Driver.ActionText(t.kind), stack, ArrayOf(t.input), "", "", "", AcceptedMessage)
    case Failed(msg) => TransitionRecord(t.step, Driver.ActionText(t.kind), stack, ArrayOf(t.input), "", "", msg, "")
  }

  /** The `message` of an accept transition. */
  const AcceptedMessage: String := "Cadena aceptada"

  /** A record with exactly one non-empty detail field has exactly that one caption. */
  lemma OnlyCaption(t: TransitionRecord, k: CaptionKind)
    requires FieldOf(t, k) != "" && forall k': CaptionKind | k' != k :: FieldOf(t, k') == ""
    ensures Details(t) == [Caption(k, CaptionText(k, FieldOf(t, k)))]
  {
    var r := Details(t);
    assert HasCaption(r, k);
    assert forall i | 0 <= i < |r| :: r[i].kind == k;
  }

  /** The captions of a logged transition: a shift shows its symbol, a reduce its rule, an
      accept its message and an error its text, and nothing else. */
  lemma DetailsOfRecord(t: Driver.Transition)
    ensures t.kind.Shifted? && t.kind.symbol != "" ==>
      Details(RecordOf(t)) == [Caption(SymbolDetail, "Símbolo: " + t.kind.symbol)]
    ensures t.kind.Reduced? && t.kind.rule != "" ==>
      Details(RecordOf(t)) == [Caption(RuleDetail, "Regla: " + t.kind.rule)]
    ensures t.kind.Accepted? ==> Details(RecordOf(t)) == [Caption(MessageDetail, AcceptedMessage)]
    ensures t.kind.Failed? && t.kind.message != "" ==>
      Details(RecordOf(t)) == [Caption(ErrorDetail, "Error: " + t.kind.message)]
  {
    var r := RecordOf(t);
    match t.kind
    case Shifted(_, symbol) => if symbol != "" { OnlyCaption(r, SymbolDetail); }
    case Reduced(_, rule) => if rule != "" { OnlyCaption(r, RuleDetail); }
    case Accepted => OnlyCaption(r, MessageDetail);
    case Failed(message) => if message != "" { OnlyCaption(r, ErrorDetail); }
  }

  /** The trace data of a finished run. The backend sends no `final_state` key, so it is
      absent. */
  function DataOf(input: String, c: Driver.Config): TransitionData {
    TransitionData(Strip(input), c.accepted,
                   seq(|c.transitions|, i requires 0 <= i < |c.transitions| => RecordOf(c.transitions[i])), None)
  }

  /** The screen of any driver output: one row per logged transition, in order, with the chip
      telling acceptance; the final-state panel shows an empty stack and position 0 because the
      data carries no final state. */
  lemma ScreenOfData(input: String, c: Driver.Config)
    ensures var r := Render(Some(DataOf(input, c)));
      && |r.rows| == |c.transitions| == r.totalSteps
      && (forall i | 0 <= i < |c.transitions| :: r.rows[i] == RowOf(RecordOf(c.transitions[i])))
      && (forall i | 0 <= i < |c.transitions| :: r.rows[i].step == c.transitions[i].step)
      && (r.chip == "Cadena Aceptada" <==> c.accepted)
      && r.shownInput == Strip(input)
      && r.finalStack == "[]" && r.finalPosition == 0
  {
    var r := Render(Some(DataOf(input, c)));
    assert Format(Falsy) == "";
    forall i | 0 <= i < |c.transitions| ensures r.rows[i].step == c.transitions[i].step {
      assert r.rows[i] == RowOf(RecordOf(c.transitions[i]));
    }
  }

  /** A finished run is shown with its rows numbered from 1 and the chip telling whether the
      last transition is the accept. */
  lemma ScreenOfRun(input: String, c: Driver.Config, buffer0: seq<String>)
    requires Driver.RunDone(c, buffer0)
    ensures var r := Render(Some(DataOf(input, c)));
      && |r.rows| == |c.transitions| == r.totalSteps
      && (forall i | 0 <= i < c.steps :: r.rows[i].step == i + 1)
      && (r.chip == "Cadena Aceptada" <==> Table.Last(c.transitions).kind.Accepted?)
  {
    ScreenOfData(input, c);
  }

  /** The row of a logged transition shows its action text, and every row other than a
      reduce is classed by its kind. */
  lemma RowOfTransition(t: Driver.Transition)
    ensures var row := RowOf(RecordOf(t));
      && row.action == Driver.ActionText(t.kind)
      && (t.kind.Shifted? ==> row.cls == "action-shift")
      && (t.kind.Accepted? ==> row.cls == "action-accept")
      && (t.kind.Failed? ==> row.cls == "action-error")
      && (t.kind.Reduced? ==> row.cls == if Contains(t.kind.rule, "shift") then "action-shift" else "action-reduce")
  {
    ClassOfActionText(t.kind);
  }
}
