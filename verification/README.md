# Assumptions checker — a verified model

`AssumptionsChecker` is a pylint plugin. Function authors declare boolean assumptions in
docstrings, e.g. `assume: sorted, no-empty`. The checker registers every function with the
literals its docstring declares. It then walks the call graph depth-first from every
registered function. On each call edge it asserts the caller's accumulated literals followed
by the callee's in a solver session. When the combination is unsatisfiable it emits an
`assumptions-violated` message.

The project models that engine in six modules:

- **`Text`** (`text.dfy`): the Python string operations the parser relies on, over
  `seq<char>`. These are `str.strip` with Python's whitespace set, `startswith`, `find` with
  its `-1` result, `s[i:]` with Python's clamping and negative indices, `sep.join`, and
  `split` on one character.
- **`Assumptions`** (`assumptions.dfy`): the assumption mini-language.
  - `parse_assumption` and `parse_assumptions_block` are pure functions.
  - `extract_assumptions` is a method with the source's loop over docstring lines. Its fragment
    list is a `FragmentList` object shared by reference.
  - The method is proved equal to a scan function (`Scan`/`Step`). Properties of the
    extraction are stated as lemmas about that function.
- **`Calls`** (`calls.dfy`): the shallow call extractor `get_all_calls` over a closed node
  datatype. The node kind is decided by the first attribute the extractor tests: a call, else
  `value`, else `body`, else `values()`.
- **`Solving`** (`solving.dfy`): the solver session, as a class holding the clauses asserted
  since the last `reset`.
  - Every clause the checker adds is `Bool(x)` or `Not(Bool(x))`. So `check() == unsat` holds
    exactly when no assignment satisfies the clauses (`Satisfiable`, an existential over maps).
  - This is proved to be equivalent to some name occurring with both polarities
    (`HasConflict`).
- **`Checker`** (`checker.dfy`): the class `AssumptionsChecker`, holding
  `functions_assumptions`, the solver, and the sequence of reports handed to `add_message`.
  - Its methods keep the source's loops. `check_assumptions` is split into three methods: the
    loop over calls, the loop over same-named registered functions, and the body for one edge.
  - The methods are proved against two ghost specifications of the walk. `Edges` lists every
    edge the walk visits, with its path and accumulated literals. `Reports` lists the reports
    the walk emits.
  - `ReportsAreUnsatEdges` proves that the reports are exactly the unsatisfiable edges, in
    visiting order.
- **`CheckerProperties`** (`checker_properties.dfy`): consequences for the whole walk. These
  cover soundness of every report, persistence of a contradiction along a path, silence when
  one assignment satisfies everything, direct edges, self-calls and unregistered callees.

Behaviours of the code that the model reproduces as they are:

- **The fragment list is never reset.** After a block closes, the code assigns a fresh list to
  a misspelt name (`asumption_block`, lines 86 and 98). So the real list keeps growing, and
  every closure appends the same list object.
  - The result is therefore the literals of all fragments ever collected, repeated once per
    closure. `ExtractedFromLines` states this, and `TwoBlocksMerge` shows it on two one-line
    blocks.
  - A block still open after the last line is never appended (`OpenBlockToEnd`).
- **The walk continues past a conflict.** After an unsatisfiable edge the walk still recurses
  into the callee with the grown list. Every deeper edge on that path then reports as well
  (`ContradictionPersists`).
- **Docstrings only, whole lists, no validation.** The checker reads assumptions only from
  docstrings. It asserts the whole accumulated list at once, continues past a conflict, and
  does not validate labels: any stripped piece, even an empty one, becomes a name.

## Model

| member | source | states |
|---|---|---|
| Assumptions.ParseAssumption | pylint_assumptions.py:39-57 | the literal is negated exactly when the term starts with `no-`; a negated literal's name is the term after that one prefix, and a positive literal's name is the whole term |
| Assumptions.RenderParse | pylint_assumptions.py:39-57 | parsing loses no text: writing the parsed literal back (with `no-` when negated) gives the term itself |
| Assumptions.ParseRender | pylint_assumptions.py:39-57 | a literal whose name does not start with `no-` is recovered by parsing its written form |
| Assumptions.NegationPrefixNegates | pylint_assumptions.py:44-54 | for a term `x` not starting with `no-`, parsing `no-` + `x` gives the negation of parsing `x` |
| Assumptions.ParseAssumptionsBlock | pylint_assumptions.py:59-66 | a block yields at least one literal, and no literal name contains a comma |
| Assumptions.BlockLiteralCount | pylint_assumptions.py:62-65 | a block yields one literal more than its space-joined text holds commas |
| Assumptions.BlockSplitsAtComma | pylint_assumptions.py:62-65 | the literals of `x,y` are those of `x` followed by those of `y` (left-to-right order) |
| Assumptions.SingleTermBlock | pylint_assumptions.py:62-65 | a block without a comma is the single literal of its stripped, space-joined text |
| Assumptions.MergedFragmentsOneLiteral | pylint_assumptions.py:62 | two comma-free fragments merge into one literal whose name joins them with a space |
| Assumptions.FragmentList.Append | pylint_assumptions.py:89-93 | appending a fragment extends the shared list in place by exactly that fragment |
| Assumptions.ExtractAssumptions | pylint_assumptions.py:68-102 | the loop returns `ExtractedAssumptions(doc)`: the literals of all fragments the scan collected, repeated once per block closure |
| Assumptions.ParseClosedBlocks | pylint_assumptions.py:101 | when every closed block is the one shared list, the concatenated parse is that list's literals repeated once per closed block |
| Assumptions.OpenerStep | pylint_assumptions.py:78-89 | a line whose stripped text starts with `assume:` opens a block at the keyword's column, adds the stripped text after the keyword, and closes the block that was open |
| Assumptions.OtherLineStep | pylint_assumptions.py:90-100 | any other line is ignored outside a block; inside a block it is added stripped when the text from the opener's column starts with two spaces or a tab, and otherwise it closes the block |
| Assumptions.ClosuresCountOpeners | pylint_assumptions.py:77-100 | the closures plus the block still open at the end equal the number of opener lines |
| Assumptions.NoOpenerNoAssumptions | pylint_assumptions.py:68-102 | a docstring with no `assume:` line declares nothing |
| Assumptions.OpenBlockToEnd | pylint_assumptions.py:77-101 | a single block that runs to the last line, after any number of lines without an opener, stays open, is never closed, and contributes nothing |
| Assumptions.OpenerKeepsPos | pylint_assumptions.py:78-81 | without a later opener, the column stays the one where the first line's keyword was found |
| Assumptions.TwoBlocksScan | pylint_assumptions.py:77-100 | two consecutive one-line blocks followed by a closing line close twice and keep both fragments in one list |
| Assumptions.TwoBlocksMerge | pylint_assumptions.py:82-101 | the result for two such blocks is the merged list's literals twice, not each block's literals once |
| Calls.GetAllCalls | pylint_assumptions.py:104-118 | every returned node is a call, and a call node yields exactly itself |
| Calls.GetAllCallsReaches | pylint_assumptions.py:104-118 | a node is returned exactly when it is a call reachable by following `value`, else each `body` element, else each `values()` element |
| Calls.NestedCallHidden | pylint_assumptions.py:106-108 | a call nested in another call's arguments is not returned through it |
| Solving.Solver.Reset | pylint_assumptions.py:135 | `reset` leaves no clauses |
| Solving.Solver.Add | pylint_assumptions.py:137 | `add` appends exactly one clause |
| Solving.Solver.Check | pylint_assumptions.py:138 | `check` answers unsat exactly when no assignment satisfies every clause |
| Solving.SatisfiableIffNoConflict | pylint_assumptions.py:136-138 | literals are satisfiable exactly when no name occurs both plain and negated |
| Solving.UnsatisfiableExtends | pylint_assumptions.py:134 | appending literals never makes an unsatisfiable list satisfiable |
| Checker.AssumptionsChecker.constructor | pylint_assumptions.py:28-32 | the checker starts with no registrations, no reports and a fresh solver |
| Checker.AssumptionsChecker.VisitFunctionDef | pylint_assumptions.py:151-154 | appends exactly one registration, pairing the function with its docstring's extracted literals, and emits nothing |
| Checker.AssumptionsChecker.Decide | pylint_assumptions.py:135-138 | after reset and one add per literal, the solver holds exactly the edge's literals, and the verdict is unsat exactly when they are unsatisfiable |
| Checker.AssumptionsChecker.CheckEdge | pylint_assumptions.py:133-144 | one edge appends its report exactly when `assumptions + callee_assumptions` is contradictory, then the reports of the walk from the callee with the grown list and extended path |
| Checker.AssumptionsChecker.CheckCall | pylint_assumptions.py:131-144 | every registered function with the callee's name is checked as its own edge, in registration order, and registrations are unchanged |
| Checker.AssumptionsChecker.CheckAssumptions | pylint_assumptions.py:120-144 | appends exactly `Reports` of the walk from `func`: self-named calls are skipped, and every other call is checked against each same-named registration |
| Checker.AssumptionsChecker.CheckAllAssumptions | pylint_assumptions.py:146-149 | appends the reports of the walks from every registration, in order, each starting from its own literals and a path holding its qualified name |
| Checker.ReportsAreUnsatEdges | pylint_assumptions.py:131-144 | the reports of a walk are exactly its unsatisfiable edges, in visiting order |
| Checker.MutualRecursionUnbounded | pylint_assumptions.py:124-144 | two registered functions that call each other by name admit no depth bound: on them the walk recurses without bound until Python's recursion limit raises `RecursionError` |
| CheckerProperties.ReportsSound | pylint_assumptions.py:134-141 | every report's literals are unsatisfiable and start with the literals the walk began with |
| CheckerProperties.EdgesExtend | pylint_assumptions.py:134-144 | every edge's literals extend the walk's starting literals: the list only grows along a path |
| CheckerProperties.ContradictionPersists | pylint_assumptions.py:134-144 | once the accumulated literals are contradictory, every edge below reports |
| CheckerProperties.SharedAssignmentNoReports | pylint_assumptions.py:134-141 | if one assignment satisfies the starting literals and every registration's literals, the walk reports nothing |
| CheckerProperties.DirectEdgeReported | pylint_assumptions.py:124-141 | for a followed call and a same-named registration, that edge is visited, and it is reported exactly when the combined literals are unsatisfiable |
| CheckerProperties.SelfCallsOnly | pylint_assumptions.py:129-130 | a function whose calls are all to its own name visits no edge |
| CheckerProperties.UnregisteredCalleeSilent | pylint_assumptions.py:131-132 | a call to a name with no registration visits no edge |
| Text.StripLeftSpec | pylint_assumptions.py:62 | `lstrip` removes exactly the leading whitespace: the rest is a suffix that does not start with whitespace |
| Text.StripRightSpec | pylint_assumptions.py:62 | `rstrip` removes exactly the trailing whitespace: the rest is a prefix that does not end with whitespace |
| Text.FindSpec | pylint_assumptions.py:81 | `find` is `-1` exactly when the keyword occurs nowhere, and otherwise is its first occurrence |
| Text.SplitCount | pylint_assumptions.py:62 | `split` yields one piece more than the separator occurs |
| Text.JoinSplit | pylint_assumptions.py:62 | joining the pieces of `split` with the separator gives back the text |
| Text.SplitConcat | pylint_assumptions.py:62 | splitting `x + sep + y` gives the pieces of `x` followed by those of `y` |

## Left out

- Pylint plumbing is not modelled: `register`, the `BaseChecker` base class, the `msgs` and `options` tables, and the `leave_module` hook (pylint_assumptions.py:5-26, 156-157). `add_message` is modelled as appending a `Report` holding the function, the `->`-joined path, the callee name and the accumulated literals. The message text is not formatted.
- z3 is not modelled. The solver session is replaced by literal consistency. This is exact because only `Bool(x)` and `Not(Bool(x))` are ever added.
- Logging setup and the debug calls are left out because they have no effect on results.
- The unused `checked_pathes` field is left out.
- astroid nodes are abstracted: a function is its simple name, qualified name, docstring and body, and a call carries its callee name. Two crashes of the code therefore have no counterpart:
  - `call.func.name` on a call through an attribute (pylint_assumptions.py:126);
  - a function without a docstring, where `node.doc` is `None` (pylint_assumptions.py:152).
- Calls.GetAllCalls: assumes that a node's `body` is a sequence and that `values()` is a method. Where this fails, the code raises `TypeError` and the model returns calls instead:
  - a `body` that is a single node, as in a conditional expression or a lambda (pylint_assumptions.py:113);
  - `values` as a list attribute, as in a boolean operation or an f-string (pylint_assumptions.py:116).
- Checker.AssumptionsChecker.CheckAssumptions: covers only call graphs whose followed call chains are shorter than a ghost `depth` (`Bounded`). The code has no cycle guard: on mutual recursion (`MutualRecursionUnbounded`) it recurses without bound until Python's recursion limit raises `RecursionError`, after some messages have already been added. Such runs are outside the model.
- Checker.AssumptionsChecker.CheckCall: same depth bound (`CalleesBounded`) as `CheckAssumptions`.
- Checker.AssumptionsChecker.CheckEdge: same depth bound as `CheckAssumptions`.
- Checker.AssumptionsChecker.CheckAllAssumptions: requires every registration to be bounded (`AllBounded`), for the same reason.
- Python's own object identity is not modelled: functions are compared by simple name, as the code does, and the path holds qualified names as strings.
