/** The interprocedural part of `AssumptionsChecker`: registering each function with its
    declared assumptions (`visit_functiondef`), and the depth-first walk over calls that
    asserts the accumulated assumptions on every edge (`check_assumptions`,
    `check_all_assumptions`). */
module Checker {
  import opened Text
  import opened Assumptions
  import opened Calls
  import opened Solving

  /** A function definition: simple name, qualified name, docstring and body. */
  datatype FunctionDef = FunctionDef(name: string, qname: string, doc: string, body: seq<Node>)

  /** One entry of `functions_assumptions`: a function and the literals its docstring declares. */
  datatype Registration = Registration(node: FunctionDef, assumptions: seq<Literal>)

  /** An `assumptions-violated` message: the function it is attached to, the call path
      joined with `->`, the callee's name and the accumulated literals. */
  datatype Report = Report(node: FunctionDef, path: string, callee: string, assumptions: seq<Literal>)

  /** The calls the walk follows out of `f`. A function definition has a `body` and no
      `value`, so the extractor walks its statements. */
  function CallsOf(f: FunctionDef): (r: seq<Node>)
    ensures forall c :: c in r ==> c.Call?
  {
    GetAllCalls(WithBody(f.body))
  }

  // ---------------------------------------------------------------------------------
  // Termination: the walk has no cycle guard, so it is only modelled where every chain
  // of calls it follows is shorter than some bound.

  /** The `k`-th registered function is called `name`. */
  predicate Named(fas: seq<Registration>, k: int, name: string) {
    0 <= k < |fas| && fas[k].node.name == name
  }

  /** `c` is a call of `f` the walk follows: one to a name other than `f`'s own. */
  predicate Follows(f: FunctionDef, c: Node) {
    c in CallsOf(f) && c.callee != f.name
  }

  /** Every registered function called `name` has only chains shorter than `depth - 1`. */
  ghost predicate CalleesBounded(fas: seq<Registration>, name: string, depth: nat)
    decreases depth, 0
  {
    forall k :: Named(fas, k, name) ==> depth > 0 && Bounded(fas, fas[k].node, depth - 1)
  }

  /** Every chain of calls the walk follows from `f` is shorter than `depth`. */
  ghost predicate Bounded(fas: seq<Registration>, f: FunctionDef, depth: nat)
    decreases depth, 1
  {
    forall c :: Follows(f, c) ==> CalleesBounded(fas, c.callee, depth)
  }

  /** Every registered function is a root with bounded chains. */
  ghost predicate AllBounded(fas: seq<Registration>, depth: nat) {
    forall k | 0 <= k < |fas| :: Bounded(fas, fas[k].node, depth)
  }

  /** Two registered functions that call each other by name make every bound fail: on
      such input the walk recurses without bound, until Python's recursion limit raises
      `RecursionError`. */
  lemma {:induction false} MutualRecursionUnbounded(fas: seq<Registration>, i: nat, j: nat, depth: nat)
    requires i < |fas| && j < |fas| && fas[i].node.name != fas[j].node.name
    requires exists c :: c in CallsOf(fas[i].node) && c.callee == fas[j].node.name
    requires exists c :: c in CallsOf(fas[j].node) && c.callee == fas[i].node.name
    ensures !Bounded(fas, fas[i].node, depth) && !Bounded(fas, fas[j].node, depth)
  {
    var ci :| ci in CallsOf(fas[i].node) && ci.callee == fas[j].node.name;
    var cj :| cj in CallsOf(fas[j].node) && cj.callee == fas[i].node.name;
    assert Follows(fas[i].node, ci) && Follows(fas[j].node, cj);
    assert Named(fas, j, ci.callee) && Named(fas, i, cj.callee);
    if depth > 0 {
      MutualRecursionUnbounded(fas, i, j, depth - 1);
    }
  }

  // ---------------------------------------------------------------------------------
  // The walk as a specification: the edges it visits, in order.

  /** The edges the walk visits from `f`, depth first, each as the report it raises when
      its literals are contradictory. */
  ghost function Edges(fas: seq<Registration>, f: FunctionDef, assumptions: seq<Literal>,
                       path: seq<string>, depth: nat): seq<Report>
    requires Bounded(fas, f, depth)
    decreases depth, 3
  {
    CallEdges(fas, f, assumptions, path, |CallsOf(f)|, depth)
  }

  /** The edges of the first `n` calls of `f`. A call to `f`'s own name is skipped. */
  ghost function CallEdges(fas: seq<Registration>, f: FunctionDef, assumptions: seq<Literal>,
                           path: seq<string>, n: nat, depth: nat): seq<Report>
    requires Bounded(fas, f, depth) && n <= |CallsOf(f)|
    decreases depth, 2, n
  {
    if n == 0 then []
    else
      var name := CallsOf(f)[n - 1].callee;
      assert name != f.name ==> Follows(f, CallsOf(f)[n - 1]);
      CallEdges(fas, f, assumptions, path, n - 1, depth)
      + (if name == f.name then [] else MatchEdges(fas, f, assumptions, path, name, |fas|, depth))
  }

  /** The edges of one call to `name` among the first `m` registrations: each function
      with that name is an edge of its own, followed by the edges visited from it. */
  ghost function MatchEdges(fas: seq<Registration>, f: FunctionDef, assumptions: seq<Literal>,
                            path: seq<string>, name: string, m: nat, depth: nat): seq<Report>
    requires m <= |fas| && CalleesBounded(fas, name, depth)
    decreases depth, 1, m
  {
    if m == 0 then []
    else
      var g := fas[m - 1];
      MatchEdges(fas, f, assumptions, path, name, m - 1, depth)
      + (if g.node.name != name then []
         else
           assert Named(fas, m - 1, name);
           var current := assumptions + g.assumptions;
           [Report(f, Join(path, "->"), g.node.name, current)]
           + Edges(fas, g.node, current, path + [g.node.qname], depth - 1))
  }

  /** The report an edge raises: itself when some name occurs in its literals with both
      polarities, which is exactly when they are unsatisfiable (`SatisfiableIffNoConflict`). */
  ghost function Raised(e: Report): seq<Report> {
    if HasConflict(e.assumptions) then [e] else []
  }

  /** The edges of `es` whose literals are contradictory, in order. */
  ghost function Unsats(es: seq<Report>): seq<Report> {
    if es == [] then [] else Unsats(es[..|es| - 1]) + Raised(es[|es| - 1])
  }

  /** An edge is among the reports exactly when it is visited and contradictory. */
  lemma {:induction false} UnsatsMembers(es: seq<Report>, e: Report)
    ensures e in Unsats(es) <==> e in es && !Satisfiable(e.assumptions)
  {
    SatisfiableIffNoConflict(e.assumptions);
    if es != [] {
      var init, last := es[..|es| - 1], es[|es| - 1];
      assert es == init + [last];
      UnsatsMembers(init, e);
    }
  }

  lemma {:induction false} UnsatsConcat(a: seq<Report>, b: seq<Report>)
    ensures Unsats(a + b) == Unsats(a) + Unsats(b)
  {
    if b == [] {
      assert a + b == a;
    } else {
      var init, last := b[..|b| - 1], b[|b| - 1];
      assert (a + b)[..|a + b| - 1] == a + init;
      assert (a + b)[|a + b| - 1] == last;
      UnsatsConcat(a, init);
    }
  }

  // ---------------------------------------------------------------------------------
  // The walk's reports, in the order it raises them

  /** The reports the walk from `f` raises. */
  ghost function Reports(fas: seq<Registration>, f: FunctionDef, assumptions: seq<Literal>,
                         path: seq<string>, depth: nat): seq<Report>
    requires Bounded(fas, f, depth)
    decreases depth, 3
  {
    CallReports(fas, f, assumptions, path, |CallsOf(f)|, depth)
  }

  /** The reports of the first `n` calls of `f`. */
  ghost function CallReports(fas: seq<Registration>, f: FunctionDef, assumptions: seq<Literal>,
                             path: seq<string>, n: nat, depth: nat): seq<Report>
    requires Bounded(fas, f, depth) && n <= |CallsOf(f)|
    decreases depth, 2, n
  {
    if n == 0 then []
    else
      var name := CallsOf(f)[n - 1].callee;
      assert name != f.name ==> Follows(f, CallsOf(f)[n - 1]);
      CallReports(fas, f, assumptions, path, n - 1, depth)
      + (if name == f.name then [] else MatchReports(fas, f, assumptions, path, name, |fas|, depth))
  }

  /** The reports of one call to `name`, over the first `m` registrations. */
  ghost function MatchReports(fas: seq<Registration>, f: FunctionDef, assumptions: seq<Literal>,
                              path: seq<string>, name: string, m: nat, depth: nat): seq<Report>
    requires m <= |fas| && CalleesBounded(fas, name, depth)
    decreases depth, 1, m
  {
    if m == 0 then []
    else
      MatchReports(fas, f, assumptions, path, name, m - 1, depth)
      + (if fas[m - 1].node.name != name then []
         else
           assert Named(fas, m - 1, name);
           EdgeReports(fas, f, assumptions, path, fas[m - 1], depth - 1))
  }

  /** The reports of the edge from `f` to the registered function `g`: the edge itself
      when the literals on the path followed by `g`'s contradict each other, then the
      reports of the walk from `g` with those literals. */
  ghost function EdgeReports(fas: seq<Registration>, f: FunctionDef, assumptions: seq<Literal>,
                             path: seq<string>, g: Registration, depth: nat): seq<Report>
    requires Bounded(fas, g.node, depth)
    decreases depth, 4
  {
    var current := assumptions + g.assumptions;
    Raised(Report(f, Join(path, "->"), g.node.name, current))
    + Reports(fas, g.node, current, path + [g.node.qname], depth)
  }

  /** Reports and edges grow together: contradictory edges of a concatenation. */
  lemma UnsatsStep(r: seq<Report>, es: seq<Report>, r': seq<Report>, es': seq<Report>)
    requires r == Unsats(es) && r' == Unsats(es')
    ensures r + r' == Unsats(es + es')
  {
    UnsatsConcat(es, es');
  }

  /** A call of `f` to its own name adds no edge. */
  lemma CallEdgesSelf(fas: seq<Registration>, f: FunctionDef, assumptions: seq<Literal>,
                      path: seq<string>, i: nat, depth: nat)
    requires Bounded(fas, f, depth) && i < |CallsOf(f)| && CallsOf(f)[i].callee == f.name
    ensures CallEdges(fas, f, assumptions, path, i + 1, depth) == CallEdges(fas, f, assumptions, path, i, depth)
  {
    assert CallEdges(fas, f, assumptions, path, i + 1, depth) == CallEdges(fas, f, assumptions, path, i, depth) + [];
  }

  /** A registration of another name adds no edge. */
  lemma MatchEdgesSkip(fas: seq<Registration>, f: FunctionDef, assumptions: seq<Literal>,
                       path: seq<string>, name: string, j: nat, depth: nat)
    requires j < |fas| && CalleesBounded(fas, name, depth) && fas[j].node.name != name
    ensures MatchEdges(fas, f, assumptions, path, name, j + 1, depth)
         == MatchEdges(fas, f, assumptions, path, name, j, depth)
  {
    assert MatchEdges(fas, f, assumptions, path, name, j + 1, depth)
        == MatchEdges(fas, f, assumptions, path, name, j, depth) + [];
  }

  /** A call of `f` to another name adds the edges of every registered function of that name. */
  lemma CallEdgesNext(fas: seq<Registration>, f: FunctionDef, assumptions: seq<Literal>,
                      path: seq<string>, i: nat, depth: nat)
    requires Bounded(fas, f, depth) && i < |CallsOf(f)| && CallsOf(f)[i].callee != f.name
    ensures CalleesBounded(fas, CallsOf(f)[i].callee, depth)
    ensures CallEdges(fas, f, assumptions, path, i + 1, depth)
         == CallEdges(fas, f, assumptions, path, i, depth)
          + MatchEdges(fas, f, assumptions, path, CallsOf(f)[i].callee, |fas|, depth)
  {
    assert Follows(f, CallsOf(f)[i]);
  }

  /** A registration of the called name adds its own edge, then the edges visited from it. */
  lemma MatchEdgesNext(fas: seq<Registration>, f: FunctionDef, assumptions: seq<Literal>,
                       path: seq<string>, name: string, j: nat, depth: nat)
    requires j < |fas| && CalleesBounded(fas, name, depth) && fas[j].node.name == name
    ensures depth > 0 && Bounded(fas, fas[j].node, depth - 1)
    ensures var g := fas[j]; var current := assumptions + g.assumptions;
      MatchEdges(fas, f, assumptions, path, name, j + 1, depth)
      == MatchEdges(fas, f, assumptions, path, name, j, depth)
       + ([Report(f, Join(path, "->"), g.node.name, current)]
          + Edges(fas, g.node, current, path + [g.node.qname], depth - 1))
  {
    assert Named(fas, j, name);
  }

  /** The reports are exactly the contradictory edges, in the order they are visited. */
  lemma {:induction false} ReportsAreUnsatEdges(fas: seq<Registration>, f: FunctionDef,
                                                assumptions: seq<Literal>, path: seq<string>, depth: nat)
    requires Bounded(fas, f, depth)
    ensures Reports(fas, f, assumptions, path, depth) == Unsats(Edges(fas, f, assumptions, path, depth))
    decreases depth, 3
  {
    CallReportsAreUnsatEdges(fas, f, assumptions, path, |CallsOf(f)|, depth);
  }

  lemma {:induction false} CallReportsAreUnsatEdges(fas: seq<Registration>, f: FunctionDef,
                                                    assumptions: seq<Literal>, path: seq<string>,
                                                    n: nat, depth: nat)
    requires Bounded(fas, f, depth) && n <= |CallsOf(f)|
    ensures CallReports(fas, f, assumptions, path, n, depth)
         == Unsats(CallEdges(fas, f, assumptions, path, n, depth))
    decreases depth, 2, n
  {
    if n > 0 {
      var name := CallsOf(f)[n - 1].callee;
      CallReportsAreUnsatEdges(fas, f, assumptions, path, n - 1, depth);
      if name == f.name {
        CallSelfAgrees(fas, f, assumptions, path, n - 1, depth);
      } else {
        assert Follows(f, CallsOf(f)[n - 1]);
        MatchReportsAreUnsatEdges(fas, f, assumptions, path, name, |fas|, depth);
        CallNextAgrees(fas, f, assumptions, path, n - 1, depth);
      }
    }
  }

  lemma CallSelfAgrees(fas: seq<Registration>, f: FunctionDef, assumptions: seq<Literal>,
                       path: seq<string>, i: nat, depth: nat)
    requires Bounded(fas, f, depth) && i < |CallsOf(f)| && CallsOf(f)[i].callee == f.name
    requires CallReports(fas, f, assumptions, path, i, depth) == Unsats(CallEdges(fas, f, assumptions, path, i, depth))
    ensures CallReports(fas, f, assumptions, path, i + 1, depth)
         == Unsats(CallEdges(fas, f, assumptions, path, i + 1, depth))
  {
    CallEdgesSelf(fas, f, assumptions, path, i, depth);
    CallReportsSelf(fas, f, assumptions, path, i, depth);
  }

  lemma CallNextAgrees(fas: seq<Registration>, f: FunctionDef, assumptions: seq<Literal>,
                       path: seq<string>, i: nat, depth: nat)
    requires Bounded(fas, f, depth) && i < |CallsOf(f)| && CallsOf(f)[i].callee != f.name
    requires CallReports(fas, f, assumptions, path, i, depth) == Unsats(CallEdges(fas, f, assumptions, path, i, depth))
    requires CalleesBounded(fas, CallsOf(f)[i].callee, depth)
    requires MatchReports(fas, f, assumptions, path, CallsOf(f)[i].callee, |fas|, depth)
          == Unsats(MatchEdges(fas, f, assumptions, path, CallsOf(f)[i].callee, |fas|, depth))
    ensures CallReports(fas, f, assumptions, path, i + 1, depth)
         == Unsats(CallEdges(fas, f, assumptions, path, i + 1, depth))
  {
    var name := CallsOf(f)[i].callee;
    CallEdgesNext(fas, f, assumptions, path, i, depth);
    CallReportsNext(fas, f, assumptions, path, i, depth);
    UnsatsStep(CallReports(fas, f, assumptions, path, i, depth),
               CallEdges(fas, f, assumptions, path, i, depth),
               MatchReports(fas, f, assumptions, path, name, |fas|, depth),
               MatchEdges(fas, f, assumptions, path, name, |fas|, depth));
  }

  lemma {:induction false} MatchReportsAreUnsatEdges(fas: seq<Registration>, f: FunctionDef,
                                                     assumptions: seq<Literal>, path: seq<string>,
                                                     name: string, m: nat, depth: nat)
    requires m <= |fas| && CalleesBounded(fas, name, depth)
    ensures MatchReports(fas, f, assumptions, path, name, m, depth)
         == Unsats(MatchEdges(fas, f, assumptions, path, name, m, depth))
    decreases depth, 1, m
  {
    if m > 0 {
      MatchReportsAreUnsatEdges(fas, f, assumptions, path, name, m - 1, depth);
      if fas[m - 1].node.name != name {
        MatchSkipAgrees(fas, f, assumptions, path, name, m - 1, depth);
      } else {
        assert Named(fas, m - 1, name);
        EdgeReportsAreUnsatEdges(fas, f, assumptions, path, fas[m - 1], depth - 1);
        MatchNextAgrees(fas, f, assumptions, path, name, m - 1, depth);
      }
    }
  }

  lemma MatchSkipAgrees(fas: seq<Registration>, f: FunctionDef, assumptions: seq<Literal>,
                        path: seq<string>, name: string, j: nat, depth: nat)
    requires j < |fas| && CalleesBounded(fas, name, depth) && fas[j].node.name != name
    requires MatchReports(fas, f, assumptions, path, name, j, depth)
          == Unsats(MatchEdges(fas, f, assumptions, path, name, j, depth))
    ensures MatchReports(fas, f, assumptions, path, name, j + 1, depth)
         == Unsats(MatchEdges(fas, f, assumptions, path, name, j + 1, depth))
  {
    MatchEdgesSkip(fas, f, assumptions, path, name, j, depth);
    MatchReportsSkip(fas, f, assumptions, path, name, j, depth);
  }

  lemma MatchNextAgrees(fas: seq<Registration>, f: FunctionDef, assumptions: seq<Literal>,
                        path: seq<string>, name: string, j: nat, depth: nat)
    requires j < |fas| && CalleesBounded(fas, name, depth) && fas[j].node.name == name
    requires MatchReports(fas, f, assumptions, path, name, j, depth)
          == Unsats(MatchEdges(fas, f, assumptions, path, name, j, depth))
    requires depth > 0 && Bounded(fas, fas[j].node, depth - 1)
    requires EdgeReports(fas, f, assumptions, path, fas[j], depth - 1)
          == Unsats([Report(f, Join(path, "->"), name, assumptions + fas[j].assumptions)]
                    + Edges(fas, fas[j].node, assumptions + fas[j].assumptions,
                            path + [fas[j].node.qname], depth - 1))
    ensures MatchReports(fas, f, assumptions, path, name, j + 1, depth)
         == Unsats(MatchEdges(fas, f, assumptions, path, name, j + 1, depth))
  {
    var g := fas[j];
    var current := assumptions + g.assumptions;
    MatchEdgesNext(fas, f, assumptions, path, name, j, depth);
    MatchReportsNext(fas, f, assumptions, path, name, j, depth);
    UnsatsStep(MatchReports(fas, f, assumptions, path, name, j, depth),
               MatchEdges(fas, f, assumptions, path, name, j, depth),
               EdgeReports(fas, f, assumptions, path, g, depth - 1),
               [Report(f, Join(path, "->"), g.node.name, current)]
               + Edges(fas, g.node, current, path + [g.node.qname], depth - 1));
  }

  lemma {:induction false} EdgeReportsAreUnsatEdges(fas: seq<Registration>, f: FunctionDef,
                                                    assumptions: seq<Literal>, path: seq<string>,
                                                    g: Registration, depth: nat)
    requires Bounded(fas, g.node, depth)
    ensures var current := assumptions + g.assumptions;
      EdgeReports(fas, f, assumptions, path, g, depth)
      == Unsats([Report(f, Join(path, "->"), g.node.name, current)]
                + Edges(fas, g.node, current, path + [g.node.qname], depth))
    decreases depth, 4
  {
    var current := assumptions + g.assumptions;
    var edge := Report(f, Join(path, "->"), g.node.name, current);
    var rest := Edges(fas, g.node, current, path + [g.node.qname], depth);
    ReportsAreUnsatEdges(fas, g.node, current, path + [g.node.qname], depth);
    assert Unsats([edge]) == Raised(edge) by {
      assert [edge][..0] == [];
    }
    UnsatsConcat([edge], rest);
  }

  /** A call of `f` to its own name raises nothing. */
  lemma CallReportsSelf(fas: seq<Registration>, f: FunctionDef, assumptions: seq<Literal>,
                        path: seq<string>, i: nat, depth: nat)
    requires Bounded(fas, f, depth) && i < |CallsOf(f)| && CallsOf(f)[i].callee == f.name
    ensures CallReports(fas, f, assumptions, path, i + 1, depth) == CallReports(fas, f, assumptions, path, i, depth)
  {
    assert CallReports(fas, f, assumptions, path, i + 1, depth) == CallReports(fas, f, assumptions, path, i, depth) + [];
  }

  /** A call of `f` to another name raises the reports of every registered function of
      that name. */
  lemma CallReportsNext(fas: seq<Registration>, f: FunctionDef, assumptions: seq<Literal>,
                        path: seq<string>, i: nat, depth: nat)
    requires Bounded(fas, f, depth) && i < |CallsOf(f)| && CallsOf(f)[i].callee != f.name
    ensures CalleesBounded(fas, CallsOf(f)[i].callee, depth)
    ensures CallReports(fas, f, assumptions, path, i + 1, depth)
         == CallReports(fas, f, assumptions, path, i, depth)
          + MatchReports(fas, f, assumptions, path, CallsOf(f)[i].callee, |fas|, depth)
  {
    assert Follows(f, CallsOf(f)[i]);
  }

  /** A registration of another name raises nothing. */
  lemma MatchReportsSkip(fas: seq<Registration>, f: FunctionDef, assumptions: seq<Literal>,
                         path: seq<string>, name: string, j: nat, depth: nat)
    requires j < |fas| && CalleesBounded(fas, name, depth) && fas[j].node.name != name
    ensures MatchReports(fas, f, assumptions, path, name, j + 1, depth)
         == MatchReports(fas, f, assumptions, path, name, j, depth)
  {
    assert MatchReports(fas, f, assumptions, path, name, j + 1, depth)
        == MatchReports(fas, f, assumptions, path, name, j, depth) + [];
  }

  /** A registration of the called name raises the reports of its edge. */
  lemma MatchReportsNext(fas: seq<Registration>, f: FunctionDef, assumptions: seq<Literal>,
                         path: seq<string>, name: string, j: nat, depth: nat)
    requires j < |fas| && CalleesBounded(fas, name, depth) && fas[j].node.name == name
    ensures depth > 0 && Bounded(fas, fas[j].node, depth - 1)
    ensures MatchReports(fas, f, assumptions, path, name, j + 1, depth)
         == MatchReports(fas, f, assumptions, path, name, j, depth)
          + EdgeReports(fas, f, assumptions, path, fas[j], depth - 1)
  {
    assert Named(fas, j, name);
  }

  /** The reports of the walks from the first `n` registered functions. */
  ghost function AllReports(fas: seq<Registration>, n: nat, depth: nat): seq<Report>
    requires n <= |fas| && AllBounded(fas, depth)
  {
    if n == 0 then []
    else
      var r := fas[n - 1];
      AllReports(fas, n - 1, depth) + Reports(fas, r.node, r.assumptions, [r.node.qname], depth)
  }

  // ---------------------------------------------------------------------------------
  // The checker's state and operations

  class AssumptionsChecker {
    /** `functions_assumptions`: every visited function with its declared literals. */
    var functionsAssumptions: seq<Registration>
    /** The messages handed to the linter, in order. */
    var reports: seq<Report>
    /** The one solver session, reset before every edge. */
    const solver: Solver

    constructor ()
      ensures functionsAssumptions == [] && reports == [] && fresh(solver)
    {
      functionsAssumptions := [];
      reports := [];
      solver := new Solver();
    }

    /** `visit_functiondef`: registers `node` with the literals of its docstring. */
    method VisitFunctionDef(node: FunctionDef)
      modifies this
      ensures functionsAssumptions
           == old(functionsAssumptions) + [Registration(node, ExtractedAssumptions(node.doc))]
      ensures reports == old(reports)
    {
      var assumptions := ExtractAssumptions(node.doc);
      functionsAssumptions := functionsAssumptions + [Registration(node, assumptions)];
    }

    /** `check_assumptions`: for every call of `func` to another name and every registered
        function of that name, asserts `assumptions` followed by the callee's literals,
        reports when they are contradictory, and walks on from the callee with them. */
    method CheckAssumptions(func: FunctionDef, assumptions: seq<Literal>, path: seq<string>,
                            ghost depth: nat)
      requires Bounded(functionsAssumptions, func, depth)
      modifies this, solver
      ensures functionsAssumptions == old(functionsAssumptions)
      ensures reports == old(reports) + Reports(functionsAssumptions, func, assumptions, path, depth)
      decreases depth, 2
    {
      ghost var fas := functionsAssumptions;
      var calls := CallsOf(func);
      for i := 0 to |calls|
        invariant functionsAssumptions == fas
        invariant reports == old(reports) + CallReports(fas, func, assumptions, path, i, depth)
      {
        var calleeName := calls[i].callee;
        if calleeName == func.name {
          CallReportsSelf(fas, func, assumptions, path, i, depth);
          continue;
        }
        CallReportsNext(fas, func, assumptions, path, i, depth);
        CheckCall(func, assumptions, path, calleeName, depth);
      }
    }

    /** The inner loop of `check_assumptions` for one call of `func` to `calleeName`: every
        registered function of that name, in registration order, is checked as an edge and
        walked from. */
    method CheckCall(func: FunctionDef, assumptions: seq<Literal>, path: seq<string>,
                     calleeName: string, ghost depth: nat)
      requires CalleesBounded(functionsAssumptions, calleeName, depth)
      modifies this, solver
      ensures functionsAssumptions == old(functionsAssumptions)
      ensures reports == old(reports)
        + MatchReports(functionsAssumptions, func, assumptions, path, calleeName, |functionsAssumptions|, depth)
      decreases depth, 1
    {
      ghost var fas := functionsAssumptions;
      for j := 0 to |functionsAssumptions|
        invariant functionsAssumptions == fas
        invariant reports == old(reports) + MatchReports(fas, func, assumptions, path, calleeName, j, depth)
      {
        if functionsAssumptions[j].node.name == calleeName {
          MatchReportsNext(fas, func, assumptions, path, calleeName, j, depth);
          CheckEdge(func, assumptions, path, j, depth - 1);
        } else {
          MatchReportsSkip(fas, func, assumptions, path, calleeName, j, depth);
        }
      }
    }

    /** One edge, from `func` to the `j`-th registered function: asserts `assumptions`
        followed by the callee's literals, reports `func` when they are contradictory, and
        walks on from the callee with them, its qualified name appended to the path. */
    method CheckEdge(func: FunctionDef, assumptions: seq<Literal>, path: seq<string>, j: nat,
                     ghost depth: nat)
      requires j < |functionsAssumptions| && Bounded(functionsAssumptions, functionsAssumptions[j].node, depth)
      modifies this, solver
      ensures functionsAssumptions == old(functionsAssumptions)
      ensures reports
           == old(reports) + EdgeReports(functionsAssumptions, func, assumptions, path, functionsAssumptions[j], depth)
      decreases depth + 1, 0
    {
      var callee := functionsAssumptions[j].node;
      var calleeAssumptions := functionsAssumptions[j].assumptions;
      var currentAssumptions := assumptions + calleeAssumptions;
      var verdict := Decide(currentAssumptions);
      SatisfiableIffNoConflict(currentAssumptions);
      var edge := Report(func, Join(path, "->"), callee.name, currentAssumptions);
      if verdict == Unsat {
        reports := reports + [edge];
      }
      assert reports == old(reports) + Raised(edge);
      CheckAssumptions(callee, currentAssumptions, path + [callee.qname], depth);
    }

    /** One edge's use of the solver: `reset`, one `add` per literal, then `check`. */
    method Decide(ls: seq<Literal>) returns (verdict: Verdict)
      modifies solver
      ensures solver.clauses == ls
      ensures verdict == Unsat <==> !Satisfiable(ls)
    {
      solver.Reset();
      for k := 0 to |ls|
        modifies solver
        invariant solver.clauses == ls[..k]
      {
        solver.Add(ls[k]);
      }
      assert ls[..|ls|] == ls;
      verdict := solver.Check();
    }

    /** `check_all_assumptions`: walks from every registered function with its own
        literals and a path holding its qualified name. */
    method CheckAllAssumptions(ghost depth: nat)
      requires AllBounded(functionsAssumptions, depth)
      modifies this, solver
      ensures functionsAssumptions == old(functionsAssumptions)
      ensures reports == old(reports) + AllReports(functionsAssumptions, |functionsAssumptions|, depth)
    {
      for i := 0 to |functionsAssumptions|
        invariant functionsAssumptions == old(functionsAssumptions)
        invariant reports == old(reports) + AllReports(functionsAssumptions, i, depth)
      {
        var func := functionsAssumptions[i].node;
        var assumptions := functionsAssumptions[i].assumptions;
        CheckAssumptions(func, assumptions, [func.qname], depth);
      }
    }
  }
}
