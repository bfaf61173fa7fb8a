# LR(1) parser generator and its views, modelled in Dafny

The system reads a context-free grammar as text, one rule `A -> x y z` per line. It then
builds, in order:
- the augmented rule list and the head-to-rules dictionary;
- FIRST sets, memoised across calls;
- the graph of LR(1) items (`AFN`);
- the canonical collection of LR(1) item sets, numbered in discovery order (`AFD`);
- the ACTION/GOTO table, with conflicts recorded per cell.

A shift-reduce driver replays an input string against that table and logs one transition per
step. Three browser components show the results:
- the table, with cells coloured by kind and conflicts highlighted;
- the trace of the driver;
- a zoom-and-pan viewer for the rendered automata.

One Dafny module models each source file:

| module | file | models |
|---|---|---|
| `Strings` | (helpers) | Python `str.strip`, `str.split()`, `str.split(sep)`, `sep.join`, and JavaScript `includes`/`startsWith`, on `seq<char>` |
| `Grammar` | grammar.dfy | reading, augmenting and indexing the rules; terminals |
| `FirstSets` | first.dfy | `calculate_first` and `_first_of_nonterminal`, with the cache and in-progress set threaded as a `FirstState` |
| `Items` | items.dfy | `LR1Item` |
| `Afn` | afn.dfy | the depth-first construction of the item graph |
| `Afd` | afd.dfy | `_closure`, `_goto`, `_make_state`, `_build_states`, `get_state_number` |
| `Table` | table.dfy | `LRTable`, with the first-writer-wins `_add_action` and a corrected variant |
| `Driver` | driver.dfy | `TransitionTable`: tokenising and the step-bounded shift/reduce loop |
| `LrTableView` | lr_table_view.dfy | the cell classifier, the conflict tooltip, the status colour and the row layout of `LRTable.jsx` |
| `TraceView` | trace_view.dfy | the action classifier, the formatting and the row rendering of `TransitionTable.jsx` |
| `ImageViewer` | image_viewer.dfy | the zoom/pan/drag state machine of `ImageModal.jsx` |

Python sets whose iteration order matters are modelled as duplicate-free sequences in
insertion order. This covers FIRST sets, the closure's worklist and the symbol set of a state.

The FIRST cache (`_first_cache`) and the in-progress set (`_computing_first`) live on the
grammar object and persist across calls. The model threads them, as an explicit `FirstState`,
through every FIRST computation, in the order the source makes them: first the item graph,
then the closures of the automaton. The main proved facts are:
- **FIRST:** the result is sound, and the empty marker enters exactly as the source adds it.
- **Closure:** it keeps its input as a prefix, never repeats an item, and is closed.
- **Canonical collection:** state numbers are consecutive and name pairwise different item
  sets. Every transition leads to a state containing the advanced kernel, and every later
  state was discovered through a transition.
- **Table:** an ACTION cell holds the first action written to it. A conflict is recorded
  exactly when a second write arrives, even an identical one.
- **Driver:** the stack is never empty and each step logs one transition. The position counts
  the shifts, and the shifted symbols followed by the remaining buffer are the original
  buffer. `accepted` holds exactly when the last transition is an accept. An accept on exactly
  step 1000 is overridden by the step-limit error.
- **Views:** classifiers are characterised case by case. The image viewer keeps its zoom
  within `[0, 5]` under every run of events.

## Model

| member | source | states |
|---|---|---|
| Strings.Strip | backend/src/comp/grammar.py:17 | `str.strip()` returns a slice of its argument, only whitespace is cut on either side, and a non-empty result neither starts nor ends with whitespace |
| Strings.Words | backend/src/comp/transition_table.py:21 | every token of `str.split()` is non-empty and whitespace-free, and the text is the tokens in order with blank gaps around and between them, each gap between two tokens non-empty |
| Strings.WordsUnique | backend/src/comp/transition_table.py:21 | any list of whitespace-free words that blank gaps, non-empty between words, make up into the text is exactly `split()` of the text, so the contract of `Words` fixes its result |
| Strings.WordsOfJoin | backend/src/comp/transition_table.py:21 | splitting a space-joined list of tokens gives the tokens back (round trip with `' '.join`) |
| Strings.WordsEmpty | backend/src/comp/transition_table.py:74 | `split()` is empty exactly when the text is blank, so `right_side.split() if right_side.strip() else []` is just `split()` |
| Strings.SplitOn | backend/src/comp/grammar.py:34 | `split(sep)` returns at least one part, joining the parts with `sep` gives the text back, no part contains `sep`, and no occurrence of `sep` in the text starts inside a part, so every cut is at the leftmost remaining occurrence |
| Strings.PartAtStart | backend/src/comp/grammar.py:34 | in `sep.join(parts)`, part `k` sits at `PartStarts(parts, sep)[k]`, the position the leftmost clause of `SplitOn` speaks of |
| Strings.SplitOfJoin | backend/src/comp/grammar.py:16 | splitting on a one-character separator undoes joining parts that lack it |
| Grammar.ObtainRules | backend/src/comp/grammar.py:15-18 | the rules are the newline-separated lines of the text at increasing indices, each stripped, and every line left out is blank; each rule is a non-blank, stripped single line, and there are no rules exactly when the text is blank |
| Grammar.StrippedNonBlankKeeps | backend/src/comp/grammar.py:17 | the strip-and-filter step keeps exactly the non-blank lines, stripped, in their order |
| Grammar.ObtainRulesOfJoin | backend/src/comp/grammar.py:15-18 | lines that are already rule lines, joined with newlines, are read back unchanged and in order |
| Grammar.StrippedNonBlankOfRules | backend/src/comp/grammar.py:17 | the strip-and-filter step leaves a list of rule lines unchanged |
| Grammar.StripOfBlank | backend/src/comp/grammar.py:17 | a blank line strips to the empty string, so the filter drops it |
| Grammar.BlankOfStrip | backend/src/comp/grammar.py:17 | a line that strips to empty is blank, so only blank lines are dropped |
| Grammar.ExtendRules | backend/src/comp/grammar.py:20-30 | an empty list stays empty with no start symbol; otherwise `S' -> X` is prepended to the unchanged rules, where `X` is the first rule up to its first `" -> "`: `X` contains no `" -> "`, no `" -> "` of the first rule starts inside `X`, and the rule is `X` itself or starts with `X -> ` |
| Grammar.AugmentedSplit | backend/src/comp/grammar.py:28 | the augmented rule splits on `" -> "` into exactly `S'` and the start symbol |
| Grammar.ProductionShape | backend/src/comp/item.py:16-20 | a rule with exactly one separator is head, `" -> "`, body text, and its body is the whitespace split of that text |
| Grammar.DictionaryOfIsDictionary | backend/src/comp/grammar.py:32-40 | the rule-by-rule construction lists under each head exactly that head's productions, in rule order, and has no other keys |
| Grammar.DictionaryKey | backend/src/comp/grammar.py:34-39 | a symbol is a key exactly when some rule splits into two parts with it as head |
| Grammar.DictionaryValues | backend/src/comp/grammar.py:38-40 | each key maps to the productions with that head, in rule order |
| Grammar.BuildDictionary | backend/src/comp/grammar.py:32-40 | the loop builds exactly the reference dictionary, so rules with zero or several separators are skipped |
| Grammar.ParseGrammar | backend/src/comp/grammar.py:2-13 | the rules and start symbol are those `extender_reglas` makes of the rule lines, so the start symbol is the first rule line up to its first `" -> "` and is absent exactly when the text is blank; the dictionary is the reference one for the augmented rules |
| Grammar.Productions | backend/src/comp/grammar.py:42-43 | `get_producciones` gives the productions of the symbol in rule order, `[]` for a non-key |
| Grammar.TerminalIffNoHead | backend/src/comp/grammar.py:45-46 | a symbol is a terminal exactly when no production has it as head, so unknown symbols are terminals |
| Grammar.AugmentedHeadIsNonterminal | backend/src/comp/grammar.py:28-29 | for any grammar `ParseGrammar` returns on text that is not blank, `S'` is a nonterminal |
| Grammar.TerminalsOf | backend/src/comp/grammar.py:51-60 | the terminal set holds exactly the body symbols of two-part rules that are not keys and not `ε`/`epsilon` |
| FirstSets.Add | backend/src/comp/grammar.py:70 | `set.add` on an insertion-ordered set: the old elements stay first, membership gains exactly `x`, and no duplicate appears |
| FirstSets.AddAllButEpsilon | backend/src/comp/grammar.py:74 | `update(xs - {'ε'})`: membership gains exactly the non-`ε` elements of `xs`, without duplicates |
| FirstSets.FirstOfNonterminal | backend/src/comp/grammar.py:83-123 | a cached nonterminal returns its cached set and leaves the state alone; a nonterminal in progress returns `∅`; otherwise the result is cached. Cache entries are never changed, and a sound cache stays sound |
| FirstSets.FirstOfProductions | backend/src/comp/grammar.py:99-119 | the production loop only adds to the set, keeps the cache, and adds only `ε` and grammar terminals |
| FirstSets.FirstOfSequence | backend/src/comp/grammar.py:109-119 | along one body, the result is sound; it contains `ε` when every symbol is a nullable nonterminal, and contains `ε` only then |
| FirstSets.CalculateFirst | backend/src/comp/grammar.py:62-81 | `calculate_first([]) = {ε}` and a leading terminal `t` gives exactly `{t}`; the result holds `ε` exactly when every symbol is a nonterminal with `ε` in its cached FIRST; it is duplicate-free and holds only `ε` and terminals |
| FirstSets.ProductionsStep | backend/src/comp/grammar.py:101-119 | one production: a rule without exactly one separator is skipped, an empty body adds `ε`, any other body runs the symbol loop |
| FirstSets.ProductionsWithEmptyBody | backend/src/comp/grammar.py:106-107 | a production whose body is empty, `ε` or `epsilon` puts `ε` in the result |
| FirstSets.ProductionsWithNullableBody | backend/src/comp/grammar.py:109-119 | a production whose body consists of nullable nonterminals puts `ε` in the result |
| FirstSets.NonterminalNullable | backend/src/comp/grammar.py:101-122 | FIRST of a nonterminal contains `ε` when one of its productions has an empty or all-nullable body |
| FirstSets.SequenceReplay | backend/src/comp/grammar.py:84-85 | once a sequence's FIRST has been computed, recomputing it against any larger cache returns the same set and changes nothing |
| FirstSets.FirstReplay | backend/src/comp/grammar.py:62-85 | `calculate_first` is stable: a second call after any cache growth gives the same answer without changing the state |
| Items.NextSymbol | backend/src/comp/item.py:43-49 | the next symbol is absent exactly when the item is reducible, and otherwise is the body symbol at the dot |
| Items.BetaAlpha | backend/src/comp/item.py:51-54 | `alpha` is the lookahead, and for a non-reducible item the body is the part before the dot, the next symbol, then `beta` |
| Items.AdvanceDot | backend/src/comp/item.py:56-59 | advancing is defined exactly for non-reducible items and keeps rule and lookahead, moving the dot by one |
| Items.AdvanceInjective | backend/src/comp/item.py:35-41 | two non-reducible items advance to the same item exactly when they are the same item (identity is the triple) |
| Items.Dotted | backend/src/comp/item.py:22-30 | the printed body is the body with `"."` inserted at the dot, or unchanged when the dot is out of range |
| Items.ItemTextDot | backend/src/comp/item.py:22-30 | the printed body has the dot at the dot position, followed by the next symbol, and at the end for a reducible item |
| Items.NextTransition | backend/src/comp/item.py:61-73 | a non-reducible item registers its advanced item and returns it only when it was new; a reducible item changes nothing |
| Items.Candidates | backend/src/comp/item.py:85-87 | the candidate items are exactly `(p, 0, b)` for `p` in the productions and `b` in the lookaheads |
| Items.AppendNew | backend/src/comp/item.py:88-95 | appending only unseen items keeps the old list as a prefix, adds exactly the new items, and never repeats one |
| Items.ExpandedSymbol | backend/src/comp/item.py:80 | an item expands exactly when its next symbol exists, is non-empty and is a nonterminal |
| Items.NextTransitionE | backend/src/comp/item.py:75-98 | the ε-targets are exactly `(p, 0, b)` for productions `p` of the nonterminal after the dot and `b` in FIRST(β a), each once and all registered; other items have none |
| Items.AdvanceInUniverse | backend/src/comp/item.py:56-59 | advancing stays within the finite item universe of the grammar, which bounds the construction |
| Items.ExpansionInUniverse | backend/src/comp/item.py:84-91 | ε-targets stay within the same finite universe |
| Afn.ExpansionRegistered | backend/src/comp/afn.py:29-36 | after `next_transition` and `next_transition_e`, every edge leaving the item ends in the registry |
| Afn.TargetsInUniverse | backend/src/comp/afn.py:33-36 | the ε-targets the search follows are inside the universe of the initial item |
| Afn.Dfs | backend/src/comp/afn.py:23-36 | visiting a node marks it visited, only registers items of the universe, visits every item it registers, and leaves each newly visited item with its edges in the registry |
| Afn.DfsAll | backend/src/comp/afn.py:34-36 | visiting the ε-targets in order visits all of them and keeps the edge property of everything visited |
| Afn.BuildAfn | backend/src/comp/afn.py:10-38 | no rules give no initial node and an empty registry; otherwise the initial node is `(rules[0], 0, '$')`, it is registered, and the registry is closed under both kinds of edge |
| Afd.WithoutEpsilon | backend/src/comp/afd.py:63-64 | the closure uses exactly the FIRST members other than `ε` |
| Afd.ClosureStep | backend/src/comp/afd.py:54-69 | processing one worklist item only appends new items, never repeats one, and changes nothing for an item that does not expand |
| Afd.StepCloses | backend/src/comp/afd.py:57-69 | after processing an item, everything it derives is in the result |
| Afd.StepDerives | backend/src/comp/afd.py:62-69 | every item appended while processing an item is derived from it and lies in the universe |
| Afd.ClosureStepFacts | backend/src/comp/afd.py:53-69 | one pass keeps "the processed prefix is closed" and "every added item is derived from an earlier one" |
| Afd.ClosureTurn | backend/src/comp/afd.py:53-69 | one pass keeps the loop invariant and either adds an unseen item of the universe or adds nothing |
| Afd.Closure | backend/src/comp/afd.py:48-71 | the closure keeps its input as a prefix, never repeats an item after it, is closed, and every added item is derived from an earlier member and lies in the input's universe |
| Afd.Kernel | backend/src/comp/afd.py:74-81 | the kernel on `X` is exactly the advanced items of the members whose next symbol is `X` |
| Afd.Goto | backend/src/comp/afd.py:73-85 | `_goto` is `[]` when no member has next symbol `X`; otherwise it starts with the kernel, is closed, and only adds derived items of the kernel's universe |
| Afd.MakeState | backend/src/comp/afd.py:87-95 | a seen item set gets its recorded number back; an unseen one is recorded under the next number, and old entries never change |
| Afd.NextSymbols | backend/src/comp/afd.py:105-108 | the symbols a state expands on are exactly the next symbols of its non-reducible items, each once |
| Afd.KernelNonEmpty | backend/src/comp/afd.py:110-113 | for every such symbol the goto is non-empty, so every one of them gets a transition |
| Afd.NumberedDistinct | backend/src/comp/afd.py:8-16 | under the numbering invariant no two numbers name equal states (states are equal when their item sets are) |
| Afd.NumberedAppend | backend/src/comp/afd.py:118-122 | numbering an unseen item set with the next number keeps the numbering invariant |
| Afd.GotoState | backend/src/comp/afd.py:110-122 | the goto state on `X` contains the kernel; it is either an existing state or the new last state, and every state stays closed, bounded and consistently numbered |
| Afd.AppendState | backend/src/comp/afd.py:118-122 | appending a new closed state of the universe keeps all state invariants |
| Afd.CachedState | backend/src/comp/afd.py:90-91 | a cached item set names the numbered state with that item set |
| Afd.ExtendTransitions | backend/src/comp/afd.py:116-122 | recording the transition on `X` keeps every recorded transition pointing at a state that contains its kernel, and keeps every new state reached |
| Afd.ExpandOn | backend/src/comp/afd.py:110-122 | one symbol of the loop records its transition and keeps the state invariants |
| Afd.ExpandState | backend/src/comp/afd.py:103-122 | processing a state records exactly one transition per next symbol, and every state it creates is the target of one of them |
| Afd.StatesTurn | backend/src/comp/afd.py:102-122 | one pass of the worklist keeps the transition and discovery invariants and either adds an unseen item set or none |
| Afd.GotoInUniverse | backend/src/comp/afd.py:73-85 | the goto of a state inside the universe stays inside it |
| Afd.InitialState | backend/src/comp/afd.py:42-44 | state 0 is the closure of the initial item, starts with it, and is numbered 0 |
| Afd.BuildAfd | backend/src/comp/afd.py:38-46 | no initial node gives no states; otherwise state 0 starts with the initial item, numbers are `0..n-1` for pairwise different closed item sets, and each state has exactly one transition per next symbol into a state containing the kernel. Every later state was reached from an earlier one |
| Afd.StateNumber | backend/src/comp/afd.py:124-128 | the number of the first state with the given item set, or -1 exactly when there is none |
| Afd.StateNumberOfState | backend/src/comp/afd.py:124-128 | on pairwise different states, the number of a state is its own index |
| Table.BuiltConsistent | backend/src/comp/afd.py:116-121 | the automaton's transitions all point at numbered states |
| Table.TableTerminals | backend/src/comp/table.py:13-16 | the table's terminals are `$` and every grammar terminal, and nothing else: every member other than `$` is a grammar terminal other than `ε`/`epsilon` |
| Table.Nonterminals | backend/src/comp/grammar.py:48-49 | the nonterminals are exactly the non-terminal symbols |
| Table.RuleNumber | backend/src/comp/table.py:85-89 | the rule's first index in the list, or -1 exactly when it is absent |
| Table.ItemEffect | backend/src/comp/table.py:26-55 | an item gives accept at `$` exactly when it is a reducible `S' ->` rule with lookahead `$`, and reduce by the rule's first index at its lookahead exactly when it is any other reducible rule. A terminal next symbol gives a shift, and a nonterminal a goto entry, to the number of the transition's target; an item with a transition always has an effect |
| Table.ConflictKinds | backend/src/comp/table.py:75-83 | shift/reduce exactly for a shift and a reduce in either order, reduce/reduce exactly for two reduces, unknown for everything else |
| Table.AddAction | backend/src/comp/table.py:57-73 | the cell keeps the first action ever written and no other cell changes; a write to an occupied cell records a conflict naming the stored action and the new one, replacing any earlier record |
| Table.FillActions | backend/src/comp/table.py:26-31 | after a state's items, a cell holds the first attempted action, and has a conflict exactly when two or more were attempted; the record names the first and the last |
| Table.FillGotos | backend/src/comp/table.py:55 | a GOTO cell holds the last goto written there |
| Table.DuplicateShiftFill | backend/src/comp/table.py:57-62 | two identical shifts on one terminal leave an `unknown` conflict of the action against itself |
| Table.BuildTable | backend/src/comp/table.py:3-24 | one row per state, each filled from that state's items in order starting empty; the terminals are `$` plus the grammar terminals |
| Table.GetAction | backend/src/comp/table.py:91-92 | the stored action, or `None` exactly for an unknown state or an empty cell |
| Table.GetGoto | backend/src/comp/table.py:94-95 | the stored goto, or `None` exactly for an unknown state or an empty cell |
| Table.ConflictCount | backend/src/comp/table.py:64-67 | `len(conflicts)` is the number of states with a conflict (the size of that set of states), so at most one per state, and is positive exactly when one exists |
| Table.ConflictCountExample | backend/src/comp/table.py:64-67 | a state with two conflicting cells counts once, and two states with a conflict count twice |
| Table.HasConflicts | backend/src/comp/table.py:97-98 | `has_conflicts` holds exactly when some state recorded a conflict |
| Table.ActionIsFirstAttempt | backend/src/comp/table.py:91-92 | `get_action` on the built table gives the first action any item of the state attempted, `None` if there was none |
| Table.ShiftTarget | backend/src/comp/table.py:46-53 | a shift goes to the state its transition names, and that state holds the advanced item |
| Table.DuplicateShiftConflict | backend/src/comp/table.py:57-62 | two items of a state that shift on the same terminal to the same state leave an `unknown` conflict in the built table |
| Table.DuplicateShiftExample | backend/src/comp/table.py:57-62 | writing `shift 3` twice at `id` records `unknown` conflict `(shift 3, shift 3)`; the corrected policy records none |
| Table.AddActionCorrected | backend/src/comp/table.py:57-62 | writing the action a cell already holds changes nothing; any other write acts as the source does |
| Table.FillCorrectedRows | backend/src/comp/table.py:26-31 | the corrected policy fills the same ACTION and GOTO rows |
| Table.FillCorrectedConflicts | backend/src/comp/table.py:57-62 | with the corrected policy a cell is in conflict exactly when two different actions were attempted there |
| Table.BuildTableCorrected | backend/src/comp/table.py:18-24 | the corrected table has the same ACTION and GOTO entries as the source's |
| Table.DuplicateShiftNoConflict | backend/src/comp/table.py:57-62 | with the corrected policy, duplicate identical shifts leave no conflict |
| Driver.Tokenize | backend/src/comp/transition_table.py:17-21 | on the input stripped at line 4, every token is non-empty and whitespace-free, and the stripped input is the tokens in order with blank gaps, non-empty between two tokens (which `Strings.WordsUnique` shows is the whitespace split) |
| Driver.TokenizeOfJoin | backend/src/comp/transition_table.py:4-6 | tokens joined with spaces are tokenised back into the same tokens |
| Driver.Initial | backend/src/comp/transition_table.py:3-13 | stack `[0]`, buffer tokens plus `$`, position 0, nothing logged, not accepted |
| Driver.RecordError | backend/src/comp/transition_table.py:111-121 | logs one error transition with the current stack, buffer and position, sets the message and clears `accepted`, and changes nothing else |
| Driver.PopKeepingOne | backend/src/comp/transition_table.py:77-79 | popping `n` times while more than one entry is left keeps a non-empty prefix of length `max(|stack| - n, 1)` |
| Driver.PyIndex | backend/src/comp/transition_table.py:71 | Python indexing: defined exactly for `-len <= n < len`, negative indices counting from the end |
| Driver.PerformShift | backend/src/comp/transition_table.py:52-64 | pushes the target, consumes the buffer head, advances the position and logs the shift; it crashes exactly when the buffer is empty |
| Driver.PerformReduce | backend/src/comp/transition_table.py:66-98 | a rule number past the list logs an error and goes on; it crashes exactly on an index below `-len` or a rule that does not split in two; otherwise it logs a reduce or an error, never stopping the loop |
| Driver.FinishReduce | backend/src/comp/transition_table.py:81-98 | a missing GOTO entry logs an error; otherwise the GOTO state is pushed onto the popped stack |
| Driver.PopBodyWords | backend/src/comp/transition_table.py:74-79 | a reduce pops one entry per body symbol, none for a blank or `ε` body |
| Driver.ReduceStack | backend/src/comp/transition_table.py:74-98 | a successful reduce leaves the popped stack plus the GOTO of its top on the head, and logs the rule |
| Driver.Step | backend/src/comp/transition_table.py:25-47 | one iteration logs exactly one transition; it leaves the loop exactly on a missing action or an accept, and then the last transition is the accept or the error; a step that goes on leaves the run not accepted |
| Driver.CurrentInput | backend/src/comp/transition_table.py:28 | the buffer head, or `$` when the buffer is empty |
| Driver.LoggedAccounted | backend/src/comp/transition_table.py:24-47 | every logged step keeps the bookkeeping: one numbered transition per step, position equals shifts, consumed symbols plus buffer equal the original buffer |
| Driver.RunStep | backend/src/comp/transition_table.py:24-47 | one pass of the loop keeps the bookkeeping and counts the step |
| Driver.HaltedDone | backend/src/comp/transition_table.py:30-47 | leaving the loop early on an accept or an error finishes the run |
| Driver.StepLimitDone | backend/src/comp/transition_table.py:49-50 | reaching 1000 steps appends one more error and leaves the run rejected |
| Driver.Process | backend/src/comp/transition_table.py:23-50 | the outcome is the reference run from the initial configuration: `Step` repeated until a step crashes, halts or reaches 1000, then the step-limit error at 1000; so a crash comes only from a step that crashes. Every finished run has between 1 and 1000 steps, one transition per step numbered from 1, plus the step-limit error at 1000. The position counts the shifts, and the shifted symbols followed by the buffer are the tokens plus `$`. `accepted` holds exactly when the last transition is an accept, never at the step limit |
| LrTableView.CellClassOf | frontend/src/components/LRTable.jsx:58-86 | a conflict at the cell's coordinates wins regardless of the value; otherwise an absent or empty value is plain, `acc` is accept, then prefix `s` is shift, prefix `r` is reduce, and anything else is goto. Exactly one class applies |
| LrTableView.GotoCellClass | frontend/src/components/LRTable.jsx:261-269 | a GOTO cell is never a conflict cell and is classified as any conflict-free cell with that value |
| LrTableView.ClassIndependentOfPlace | frontend/src/components/LRTable.jsx:58-86 | away from conflicts, the class depends on the value alone |
| LrTableView.ClassOfEncodedCells | frontend/src/components/LRTable.jsx:283-302 | the legend's encodings `sN`, `rN`, `acc` and `N` are classified back as shift, reduce, accept and goto |
| LrTableView.FirstConflict | frontend/src/components/LRTable.jsx:94-97 | the tooltip's record is the first, in list order, at the cell's coordinates, and exists exactly when there is a conflict there |
| LrTableView.StatusOf | frontend/src/components/LRTable.jsx:52-56 | success exactly for LR(1), error exactly for non-LR(1) with conflicts, warning otherwise |
| LrTableView.StatusOfTable | frontend/src/components/LRTable.jsx:42-56 | with `is_lr1 = not has_conflicts()` and `conflicts = len(conflicts)` the status is success or error, never warning |
| LrTableView.ActionCell | frontend/src/components/LRTable.jsx:88-115 | an ACTION cell has the classifier's class and a tooltip exactly when a conflict sits there, built from the first such record |
| LrTableView.RowCells | frontend/src/components/LRTable.jsx:243-270 | a row is the state cell with class `table-cell-state`, then one ACTION cell per action header, then one GOTO cell per goto header, in header order; GOTO cells never carry conflicts |
| LrTableView.HeaderCells | frontend/src/components/LRTable.jsx:216-239 | the header is `Estado`, the action headers, then the goto headers |
| TraceView.Format | frontend/src/components/TransitionTable.jsx:43-49 | a falsy value shows as `''` and a non-array as its own text |
| TraceView.FormatOfWords | frontend/src/components/TransitionTable.jsx:43-49 | an array is shown space-joined, so splitting the text on whitespace gives the elements back |
| TraceView.ActionTypeClass | frontend/src/components/TransitionTable.jsx:35-41 | `shift` anywhere wins; otherwise the first of `reduce`, `accept`, `error` contained wins; otherwise default. Each class is characterised in both directions |
| TraceView.ClassOfActionText | frontend/src/components/TransitionTable.jsx:35-41 | shifts, accepts and errors logged by the driver get their own class; a reduce is classed as a shift exactly when its rule text contains `shift` |
| TraceView.Details | frontend/src/components/TransitionTable.jsx:114-135 | a caption of each kind (rule, symbol, error, message) appears exactly when its field is non-empty, shows `Regla: `, `Símbolo: `, `Error: ` or nothing before the field's text, and the captions come in that order, each at most once |
| TraceView.Render | frontend/src/components/TransitionTable.jsx:24-170 | no data shows the info notice; otherwise one row per transition, in order, the total equals the number of transitions, the chip says accepted exactly when `accepted`, the header quotes the input string, and a missing final position shows 0 |
| TraceView.RecordOf | backend/src/comp/transition_table.py:57-121 | a logged transition carries its step, action text, the stack as printed numbers and the buffer; a shift sets only `symbol`, a reduce only `rule`, an accept only `message` (`Cadena aceptada`) and an error only `error`, with the logged values |
| TraceView.DetailsOfRecord | frontend/src/components/TransitionTable.jsx:114-135 | a logged shift shows one caption `Símbolo: ` and its symbol, a reduce one `Regla: ` and its rule, an accept the one message `Cadena aceptada`, and an error one `Error: ` and its message |
| TraceView.OnlyCaption | frontend/src/components/TransitionTable.jsx:114-135 | a transition with exactly one non-empty detail field shows exactly that one caption |
| TraceView.ScreenOfData | frontend/src/components/TransitionTable.jsx:62-157 | the screen of any driver output has one row per logged transition with its step and quotes the stripped input; the final panel shows `[]` and 0 because no final state is sent |
| TraceView.ScreenOfRun | frontend/src/components/TransitionTable.jsx:82-157 | a finished run's rows are numbered from 1, and the chip tells whether the last transition is the accept |
| TraceView.RowOfTransition | frontend/src/components/TransitionTable.jsx:82-100 | each row shows its transition's action text, with the class its kind implies |
| ImageViewer.ZoomIn | frontend/src/components/ImageModal.jsx:27-29 | the zoom becomes `z·1.2` when that is at most 5 and exactly 5 otherwise; it never decreases from a valid zoom, and nothing else changes |
| ImageViewer.ZoomOut | frontend/src/components/ImageModal.jsx:31-33 | the zoom becomes `z/1.2` when that is at least 0.1 and exactly 0.1 otherwise, so it jumps up to 0.1 from below; it never increases from a zoom of at least 0.1 |
| ImageViewer.Fit | frontend/src/components/ImageModal.jsx:35-38 | zoom 1 at the origin, dragging left as it was |
| ImageViewer.MouseDown | frontend/src/components/ImageModal.jsx:51-60 | nothing happens at zoom at most 1; otherwise dragging starts with anchor `pointer − position`, and the listener the effect at lines 115-124 registers for the drag keeps the current zoom |
| ImageViewer.MouseMove | frontend/src/components/ImageModal.jsx:62-69 | as the `document` listener registered at lines 115-124 runs it: nothing happens unless dragging with a zoom above 1 at the press; then the position becomes `pointer − anchor`, whatever the current zoom |
| ImageViewer.MouseUp | frontend/src/components/ImageModal.jsx:71-73 | dragging stops and nothing else changes |
| ImageViewer.Wheel | frontend/src/components/ImageModal.jsx:75-79 | with `f` = 0.9 for a downward scroll and 1.1 otherwise, the zoom becomes `z·f` clamped into `[0.1, 5]`: exactly 5 above, exactly 0.1 below |
| ImageViewer.Close | frontend/src/components/ImageModal.jsx:81-86 | zoom 1, origin, not dragging |
| ImageViewer.KeyDown | frontend/src/components/ImageModal.jsx:88-106 | Escape closes, `+`/`=` zoom in, `-` zooms out, `0` fits, any other key does nothing |
| ImageViewer.MinWithOne | frontend/src/components/ImageModal.jsx:208 | `Math.min(a, b, 1)` is `NaN` exactly when an argument is, is never `+Infinity`, and is otherwise one of 1 and the finite arguments, and at most each of them |
| ImageViewer.OnLoad | frontend/src/components/ImageModal.jsx:197-213 | for an image with a size, when one ratio `cw/iw`, `ch/ih` is below 1 the zoom becomes the smaller ratio; when each ratio is at least 1 or undefined, nothing changes; only the zoom ever changes |
| ImageViewer.OnLoadBelowFloor | frontend/src/components/ImageModal.jsx:206-212 | a 1000×1000 image in a 10×10 container opens at 0.01, below the 0.1 floor of the other handlers, and zooming out from there jumps up to 0.1 |
| ImageViewer.OnLoadZero | frontend/src/components/ImageModal.jsx:206-212 | a zero-sized container opens the image at zoom 0, from which zooming in cannot leave |
| ImageViewer.ApplyValid | frontend/src/components/ImageModal.jsx:27-106 | every handler keeps the zoom within `[0, 5]` |
| ImageViewer.RunValid | frontend/src/components/ImageModal.jsx:27-106 | any sequence of events keeps the zoom within `[0, 5]` |
| ImageViewer.DragBack | frontend/src/components/ImageModal.jsx:51-69 | in real arithmetic, pressing, dragging anywhere and returning to the press point restores the original position |
| ImageViewer.WheelNotInverse | frontend/src/components/ImageModal.jsx:77-78 | in real arithmetic, scrolling down then up scales the zoom by 0.99 instead of restoring it |
| ImageViewer.CloseResets | frontend/src/components/ImageModal.jsx:81-86 | closing gives the initial view (up to the stale anchor and listener zoom) and is idempotent |
| ImageViewer.RunDragMoves | frontend/src/components/ImageModal.jsx:51-124 | from any state where a drag in progress has its listener above zoom 1 (the initial state among them), after any run of events, a move during a drag always moves the image to `pointer − anchor` |
| ImageViewer.FitDuringDrag | frontend/src/components/ImageModal.jsx:35-124 | at zoom 2, pressing at (10, 10), pressing `0` and moving to (30, 30) leaves zoom 1 with the image at (20, 20), still dragging |

## Left out

- `backend/src/comp/visualizer.py`: Graphviz rendering, PNG piping and base64 encoding are foreign calls with no logic to state.
- `Grammar.calculate_follow` (grammar.py:125-158): nothing calls it, and it has no in-progress guard, so it can recurse without bound.
- `backend/src/comp/parser.py`, `__init__.py`, `backend/src/routes.py`, `frontend/src/utils/api.js`: orchestration and HTTP plumbing. The one derived fact used, `is_lr1 = not has_conflicts()`, appears in `LrTableView.StatusOfTable`.
- `Parser.jsx`, `LR1Parser.jsx`, `GrammarInput.jsx`, `ParsingResults.jsx`, `AFNVisualization.jsx`, `AFDVisualization.jsx`: loading and form orchestration and stateless display.
- Iteration order of Python sets: FIRST sets, the closure's FIRST loop and the symbol set of `_build_states` depend on the hash seed, so the model uses insertion order. The order decides the order of the items in a state and the state numbers, and through them the order in which `_fill_state_entries` calls `_add_action` (table.py:26-31). On a grammar with a conflict it therefore decides which action a cell keeps and which actions the conflict record names, and so the driver's trace and verdict. The model's results hold for insertion order; which items and item sets exist does not depend on the order.
- The class-level `AFD._state_cache` is cleared at the start of each construction; it is modelled as a map local to one construction.
- The `parent`, `transition`, `transition_val` and `transition_e` fields of items, and `AFDState.transitions` as objects: they feed the drawings. The model keeps the transitions as state numbers.
- Python's recursion limit in the depth-first search and in `_first_of_nonterminal` is not modelled.
- `lado_derecho == ['']` (grammar.py:106) can never hold, because `split()` never yields an empty token; the model does not test it.
- The driver's `Acción desconocida` branch (transition_table.py:45-47) is unreachable: the table only ever stores shift, reduce or accept.
- The uncaught Python exceptions of the driver become a `Crash` outcome without a message: popping an empty buffer, a rule index below `-len`, and a rule that does not split in two.
- `get_summary` and `to_dict` (transition_table.py:123-145) only copy fields; `TraceView.DataOf` builds what the view reads, and the `final_state` key that the view reads is never sent.
- The "Estadísticas", info texts, legend chips and the grammar-rule list of `LRTable.jsx`, the icons and colours, and all JSX layout beyond the table cells.
- `ImageModal.jsx`: the download link (40-49), the registration of the `document` listeners (108-124) beyond the zoom the drag listener captures (the key listener's stale closure is harmless, because its handlers use functional updates and constants), the `querySelector` lookups (the four sizes are parameters of `OnLoad`), the CSS transforms, and the parent's `onClose` callback.
- LrTableView: cells are modelled as text already in the legend's encoding (`sN`, `rN`, `acc`, `N`). Nothing in the repository builds the `table_data` the view reads; `table.py` keeps actions as objects and GOTO entries as integers. A numeric cell would make `value.startsWith` throw (LRTable.jsx:73), and a GOTO entry `0` is falsy and would be shown as `—` (LRTable.jsx:67, 267); neither is modelled.
- Zoom and positions are real numbers, not IEEE doubles. ImageViewer.DragBack (`p − (p − q) = q`) and ImageViewer.WheelNotInverse (`z·0.9·1.1 = z·0.99`) are facts of real arithmetic that need not hold exactly in doubles.
- Afn.BuildAfn: states that the registry holds the initial item, lies in the item universe and is closed under both kinds of edge. It does not state that every registered item is reachable from the initial one, although the search only registers targets of visited items.
- TraceView.Format: the array case is not stated by an ensures of its own. Its partner `TraceView.FormatOfWords` states that the space-joined text splits back into the elements.

## Findings

| source | as written | input that shows it | evidently intended | confidence | as-written member | corrected member |
|---|---|---|---|---|---|---|
| backend/src/comp/table.py:57-62 | `_add_action` records a conflict on every second write to a cell, even when it writes the action already stored | grammar `E -> E + T`, `E -> T`, `T -> id`: state 0 holds `[T -> . id, $]` and `[T -> . id, +]`, which both write the same shift on `id`. The table reports an `unknown` conflict, and the grammar is reported as not LR(1) | writing the action a cell already holds is not a conflict, so a conflict means two different actions | not executed | Table.DuplicateShiftConflict, Table.DuplicateShiftExample | Table.AddActionCorrected, Table.FillCorrectedConflicts, Table.DuplicateShiftNoConflict |
