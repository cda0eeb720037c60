/** What the walk of `check_assumptions` guarantees about the messages it raises. */
module CheckerProperties {
  import opened Text
  import opened Assumptions
  import opened Calls
  import opened Solving
  import opened Checker

  // ---------------------------------------------------------------------------------
  // Reports are exactly the contradictory edges

  /** When every edge is contradictory, every edge is reported. */
  lemma {:induction false} UnsatsAll(es: seq<Report>)
    requires forall e :: e in es ==> !Satisfiable(e.assumptions)
    ensures Unsats(es) == es
  {
    if es != [] {
      var init, last := es[..|es| - 1], es[|es| - 1];
      assert es == init + [last];
      SatisfiableIffNoConflict(last.assumptions);
      UnsatsAll(init);
    }
  }

  /** When no edge is contradictory, nothing is reported. */
  lemma {:induction false} UnsatsNone(es: seq<Report>)
    requires forall e :: e in es ==> Satisfiable(e.assumptions)
    ensures Unsats(es) == []
  {
    if es != [] {
      var init, last := es[..|es| - 1], es[|es| - 1];
      assert es == init + [last];
      SatisfiableIffNoConflict(last.assumptions);
      UnsatsNone(init);
    }
  }

  // ---------------------------------------------------------------------------------
  // Literals accumulate along the path

  /** Every edge visited from `f` carries `assumptions` followed by more literals. */
  lemma {:induction false} EdgesExtend(fas: seq<Registration>, f: FunctionDef, assumptions: seq<Literal>,
                                       path: seq<string>, depth: nat)
    requires Bounded(fas, f, depth)
    ensures forall e :: e in Edges(fas, f, assumptions, path, depth) ==> assumptions <= e.assumptions
    decreases depth, 3
  {
    CallEdgesExtend(fas, f, assumptions, path, |CallsOf(f)|, depth);
  }

  lemma {:induction false} CallEdgesExtend(fas: seq<Registration>, f: FunctionDef, assumptions: seq<Literal>,
                                           path: seq<string>, n: nat, depth: nat)
    requires Bounded(fas, f, depth) && n <= |CallsOf(f)|
    ensures forall e :: e in CallEdges(fas, f, assumptions, path, n, depth) ==> assumptions <= e.assumptions
    decreases depth, 2, n
  {
    if n > 0 {
      CallEdgesExtend(fas, f, assumptions, path, n - 1, depth);
      var name := CallsOf(f)[n - 1].callee;
      if name != f.name {
        assert Follows(f, CallsOf(f)[n - 1]);
        MatchEdgesExtend(fas, f, assumptions, path, name, |fas|, depth);
      }
    }
  }

  lemma {:induction false} MatchEdgesExtend(fas: seq<Registration>, f: FunctionDef, assumptions: seq<Literal>,
                                            path: seq<string>, name: string, m: nat, depth: nat)
    requires m <= |fas| && CalleesBounded(fas, name, depth)
    ensures forall e :: e in MatchEdges(fas, f, assumptions, path, name, m, depth) ==> assumptions <= e.assumptions
    decreases depth, 1, m
  {
    if m > 0 {
      MatchEdgesExtend(fas, f, assumptions, path, name, m - 1, depth);
      var g := fas[m - 1];
      if g.node.name == name {
        assert Named(fas, m - 1, name);
        var current := assumptions + g.assumptions;
        EdgesExtend(fas, g.node, current, path + [g.node.qname], depth - 1);
        forall e | e in Edges(fas, g.node, current, path + [g.node.qname], depth - 1)
          ensures assumptions <= e.assumptions
        {
          assert assumptions <= current;
          PrefixTrans(assumptions, current, e.assumptions);
        }
      }
    }
  }

  lemma PrefixTrans(a: seq<Literal>, b: seq<Literal>, c: seq<Literal>)
    requires a <= b && b <= c
    ensures a <= c
  {
    assert c[..|a|] == b[..|a|];
  }

  /** Once the literals on a path contradict each other, every edge below it is
      reported: the walk does not stop at the first conflict. */
  lemma ContradictionPersists(fas: seq<Registration>, f: FunctionDef, assumptions: seq<Literal>,
                              path: seq<string>, depth: nat)
    requires Bounded(fas, f, depth) && !Satisfiable(assumptions)
    ensures Reports(fas, f, assumptions, path, depth) == Edges(fas, f, assumptions, path, depth)
  {
    var es := Edges(fas, f, assumptions, path, depth);
    ReportsAreUnsatEdges(fas, f, assumptions, path, depth);
    EdgesExtend(fas, f, assumptions, path, depth);
    forall e | e in es ensures !Satisfiable(e.assumptions) {
      UnsatisfiableExtends(assumptions, e.assumptions[|assumptions|..]);
      assert assumptions + e.assumptions[|assumptions|..] == e.assumptions;
    }
    UnsatsAll(es);
  }

  // ---------------------------------------------------------------------------------
  // One assignment satisfying everything silences the walk

  /** When one assignment makes `assumptions` and every registered list true, it makes
      the literals of every edge true. */
  lemma {:induction false} EdgesSatisfied(m: map<string, bool>, fas: seq<Registration>, f: FunctionDef,
                                          assumptions: seq<Literal>, path: seq<string>, depth: nat)
    requires Bounded(fas, f, depth) && Satisfies(m, assumptions)
    requires forall k :: 0 <= k < |fas| ==> Satisfies(m, fas[k].assumptions)
    ensures forall e :: e in Edges(fas, f, assumptions, path, depth) ==> Satisfies(m, e.assumptions)
    decreases depth, 3
  {
    CallEdgesSatisfied(m, fas, f, assumptions, path, |CallsOf(f)|, depth);
  }

  lemma {:induction false} CallEdgesSatisfied(m: map<string, bool>, fas: seq<Registration>, f: FunctionDef,
                                              assumptions: seq<Literal>, path: seq<string>, n: nat, depth: nat)
    requires Bounded(fas, f, depth) && n <= |CallsOf(f)| && Satisfies(m, assumptions)
    requires forall k :: 0 <= k < |fas| ==> Satisfies(m, fas[k].assumptions)
    ensures forall e :: e in CallEdges(fas, f, assumptions, path, n, depth) ==> Satisfies(m, e.assumptions)
    decreases depth, 2, n
  {
    if n > 0 {
      CallEdgesSatisfied(m, fas, f, assumptions, path, n - 1, depth);
      var name := CallsOf(f)[n - 1].callee;
      if name != f.name {
        assert Follows(f, CallsOf(f)[n - 1]);
        MatchEdgesSatisfied(m, fas, f, assumptions, path, name, |fas|, depth);
      }
    }
  }

  lemma {:induction false} MatchEdgesSatisfied(m: map<string, bool>, fas: seq<Registration>, f: FunctionDef,
                                               assumptions: seq<Literal>, path: seq<string>, name: string,
                                               j: nat, depth: nat)
    requires j <= |fas| && CalleesBounded(fas, name, depth) && Satisfies(m, assumptions)
    requires forall k :: 0 <= k < |fas| ==> Satisfies(m, fas[k].assumptions)
    ensures forall e :: e in MatchEdges(fas, f, assumptions, path, name, j, depth) ==> Satisfies(m, e.assumptions)
    decreases depth, 1, j
  {
    if j > 0 {
      MatchEdgesSatisfied(m, fas, f, assumptions, path, name, j - 1, depth);
      var g := fas[j - 1];
      if g.node.name == name {
        assert Named(fas, j - 1, name);
        var current := assumptions + g.assumptions;
        SatisfiesConcat(m, assumptions, g.assumptions);
        EdgesSatisfied(m, fas, g.node, current, path + [g.node.qname], depth - 1);
      }
    }
  }

  /** When the declared literals of every registered function and the starting literals
      can all be true at once, the walk reports nothing. */
  lemma SharedAssignmentNoReports(m: map<string, bool>, fas: seq<Registration>, f: FunctionDef,
                                  assumptions: seq<Literal>, path: seq<string>, depth: nat)
    requires Bounded(fas, f, depth) && Satisfies(m, assumptions)
    requires forall k :: 0 <= k < |fas| ==> Satisfies(m, fas[k].assumptions)
    ensures Reports(fas, f, assumptions, path, depth) == []
  {
    var es := Edges(fas, f, assumptions, path, depth);
    ReportsAreUnsatEdges(fas, f, assumptions, path, depth);
    EdgesSatisfied(m, fas, f, assumptions, path, depth);
    assert forall e :: e in es ==> Satisfiable(e.assumptions);
    UnsatsNone(es);
  }

  // ---------------------------------------------------------------------------------
  // Every direct call to a registered function is an edge

  lemma {:induction false} MatchEdgesHas(fas: seq<Registration>, f: FunctionDef, assumptions: seq<Literal>,
                                         path: seq<string>, name: string, m: nat, depth: nat, k: nat)
    requires m <= |fas| && CalleesBounded(fas, name, depth) && k < m && fas[k].node.name == name
    ensures Report(f, Join(path, "->"), name, assumptions + fas[k].assumptions)
         in MatchEdges(fas, f, assumptions, path, name, m, depth)
    decreases m
  {
    if k < m - 1 {
      MatchEdgesHas(fas, f, assumptions, path, name, m - 1, depth, k);
    } else {
      assert Named(fas, k, name);
    }
  }

  lemma {:induction false} CallEdgesHas(fas: seq<Registration>, f: FunctionDef, assumptions: seq<Literal>,
                                        path: seq<string>, n: nat, depth: nat, i: nat, k: nat)
    requires Bounded(fas, f, depth) && n <= |CallsOf(f)| && i < n
    requires Follows(f, CallsOf(f)[i]) && Named(fas, k, CallsOf(f)[i].callee)
    ensures Report(f, Join(path, "->"), CallsOf(f)[i].callee, assumptions + fas[k].assumptions)
         in CallEdges(fas, f, assumptions, path, n, depth)
    decreases n
  {
    if i < n - 1 {
      CallEdgesHas(fas, f, assumptions, path, n - 1, depth, i, k);
    } else {
      MatchEdgesHas(fas, f, assumptions, path, CallsOf(f)[i].callee, |fas|, depth, k);
    }
  }

  /** A call of `f` to another name and a registered function of that name make an edge,
      carrying the literals on the path followed by the callee's; it is reported exactly
      when those literals are contradictory. */
  lemma DirectEdgeReported(fas: seq<Registration>, f: FunctionDef, assumptions: seq<Literal>,
                           path: seq<string>, depth: nat, c: Node, k: nat)
    requires Bounded(fas, f, depth) && Follows(f, c) && Named(fas, k, c.callee)
    ensures var e := Report(f, Join(path, "->"), c.callee, assumptions + fas[k].assumptions);
      e in Edges(fas, f, assumptions, path, depth)
      && (e in Reports(fas, f, assumptions, path, depth) <==> !Satisfiable(e.assumptions))
  {
    var i :| 0 <= i < |CallsOf(f)| && CallsOf(f)[i] == c;
    CallEdgesHas(fas, f, assumptions, path, |CallsOf(f)|, depth, i, k);
    var e := Report(f, Join(path, "->"), c.callee, assumptions + fas[k].assumptions);
    ReportsAreUnsatEdges(fas, f, assumptions, path, depth);
    UnsatsMembers(Edges(fas, f, assumptions, path, depth), e);
  }

  /** Every report carries contradictory literals that start with the walk's own. */
  lemma ReportsSound(fas: seq<Registration>, f: FunctionDef, assumptions: seq<Literal>,
                     path: seq<string>, depth: nat, e: Report)
    requires Bounded(fas, f, depth) && e in Reports(fas, f, assumptions, path, depth)
    ensures !Satisfiable(e.assumptions) && assumptions <= e.assumptions
  {
    ReportsAreUnsatEdges(fas, f, assumptions, path, depth);
    UnsatsMembers(Edges(fas, f, assumptions, path, depth), e);
    EdgesExtend(fas, f, assumptions, path, depth);
  }

  // ---------------------------------------------------------------------------------
  // Calls the walk does not follow

  lemma {:induction false} SelfCallEdges(fas: seq<Registration>, f: FunctionDef, assumptions: seq<Literal>,
                                         path: seq<string>, n: nat, depth: nat)
    requires Bounded(fas, f, depth) && n <= |CallsOf(f)|
    requires forall c :: c in CallsOf(f) ==> c.callee == f.name
    ensures CallEdges(fas, f, assumptions, path, n, depth) == []
  {
    if n > 0 {
      SelfCallEdges(fas, f, assumptions, path, n - 1, depth);
      assert CallsOf(f)[n - 1] in CallsOf(f);
    }
  }

  /** A function whose calls all name itself is bounded and visits no edge. */
  lemma SelfCallsOnly(fas: seq<Registration>, f: FunctionDef, assumptions: seq<Literal>,
                      path: seq<string>, depth: nat)
    requires forall c :: c in CallsOf(f) ==> c.callee == f.name
    ensures Bounded(fas, f, depth) && Edges(fas, f, assumptions, path, depth) == []
  {
    SelfCallEdges(fas, f, assumptions, path, |CallsOf(f)|, depth);
  }

  lemma {:induction false} UnregisteredEdges(fas: seq<Registration>, f: FunctionDef, assumptions: seq<Literal>,
                                             path: seq<string>, name: string, m: nat, depth: nat)
    requires m <= |fas| && forall k :: 0 <= k < |fas| ==> fas[k].node.name != name
    ensures CalleesBounded(fas, name, depth)
    ensures MatchEdges(fas, f, assumptions, path, name, m, depth) == []
    decreases m
  {
    if m > 0 {
      UnregisteredEdges(fas, f, assumptions, path, name, m - 1, depth);
    }
  }

  /** A call to a name no visited function has contributes no edge. */
  lemma UnregisteredCalleeSilent(fas: seq<Registration>, f: FunctionDef, assumptions: seq<Literal>,
                                 path: seq<string>, name: string, depth: nat)
    requires forall k :: 0 <= k < |fas| ==> fas[k].node.name != name
    ensures CalleesBounded(fas, name, depth)
    ensures MatchEdges(fas, f, assumptions, path, name, |fas|, depth) == []
  {
    UnregisteredEdges(fas, f, assumptions, path, name, |fas|, depth);
  }
}
