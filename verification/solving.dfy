/** The solver session the checker uses through `reset`, `add` and `check`. Every clause
    it is given is a literal, so satisfiability reduces to the absence of a name asserted
    with both polarities. */
module Solving {
  import opened Assumptions

  datatype Verdict = Sat | Unsat

  /** The assignment `m` makes every literal of `ls` true. */
  ghost predicate Satisfies(m: map<string, bool>, ls: seq<Literal>) {
    forall i :: 0 <= i < |ls| ==> ls[i].name in m && m[ls[i].name] == !ls[i].negated
  }

  /** Some assignment of the names makes every literal of `ls` true. */
  ghost predicate Satisfiable(ls: seq<Literal>) {
    exists m :: Satisfies(m, ls)
  }

  /** Some name occurs in `ls` both plain and negated. */
  predicate HasConflict(ls: seq<Literal>) {
    exists i, j :: 0 <= i < |ls| && 0 <= j < |ls| && ls[i].name == ls[j].name && ls[i].negated != ls[j].negated
  }

  /** The assignment that gives each name the polarity of its last literal in `ls`. */
  function LastPolarity(ls: seq<Literal>): map<string, bool> {
    if ls == [] then map[]
    else LastPolarity(ls[..|ls| - 1])[ls[|ls| - 1].name := !ls[|ls| - 1].negated]
  }

  /** Without a conflict, the last-polarity assignment satisfies every literal. */
  lemma {:induction false} LastPolaritySatisfies(ls: seq<Literal>)
    requires !HasConflict(ls)
    ensures Satisfies(LastPolarity(ls), ls)
  {
    if ls != [] {
      var init, last := ls[..|ls| - 1], ls[|ls| - 1];
      assert !HasConflict(init);
      LastPolaritySatisfies(init);
      forall i | 0 <= i < |ls|
        ensures ls[i].name in LastPolarity(ls) && LastPolarity(ls)[ls[i].name] == !ls[i].negated
      {
        if i < |ls| - 1 && ls[i].name != last.name {
          assert init[i] == ls[i];
        }
      }
    }
  }

  /** A set of literals is satisfiable exactly when no name occurs with both polarities. */
  lemma SatisfiableIffNoConflict(ls: seq<Literal>)
    ensures Satisfiable(ls) <==> !HasConflict(ls)
  {
    if HasConflict(ls) {
      var i, j :| 0 <= i < |ls| && 0 <= j < |ls| && ls[i].name == ls[j].name && ls[i].negated != ls[j].negated;
      if m :| Satisfies(m, ls) {
        assert m[ls[i].name] == !ls[i].negated && m[ls[j].name] == !ls[j].negated;
      }
    } else {
      LastPolaritySatisfies(ls);
    }
  }

  /** Adding literals never repairs a contradiction. */
  lemma UnsatisfiableExtends(ls: seq<Literal>, more: seq<Literal>)
    requires !Satisfiable(ls)
    ensures !Satisfiable(ls + more)
  {
    if m :| Satisfies(m, ls + more) {
      assert Satisfies(m, ls) by {
        forall i | 0 <= i < |ls| ensures ls[i].name in m && m[ls[i].name] == !ls[i].negated {
          assert (ls + more)[i] == ls[i];
        }
      }
    }
  }

  /** An assignment that satisfies two lists satisfies their concatenation. */
  lemma SatisfiesConcat(m: map<string, bool>, xs: seq<Literal>, ys: seq<Literal>)
    requires Satisfies(m, xs) && Satisfies(m, ys)
    ensures Satisfies(m, xs + ys)
  {
    forall i | 0 <= i < |xs + ys|
      ensures (xs + ys)[i].name in m && m[(xs + ys)[i].name] == !(xs + ys)[i].negated
    {
      if i >= |xs| {
        assert (xs + ys)[i] == ys[i - |xs|];
      }
    }
  }

  /** One solver session: the clauses asserted since the last reset. */
  class Solver {
    var clauses: seq<Literal>

    constructor ()
      ensures clauses == []
    {
      clauses := [];
    }

    /** `reset()`: forgets every clause. */
    method Reset()
      modifies this
      ensures clauses == []
    {
      clauses := [];
    }

    /** `add(l)`: asserts one more clause. */
    method Add(l: Literal)
      modifies this
      ensures clauses == old(clauses) + [l]
    {
      clauses := clauses + [l];
    }

    /** `check()`: `Unsat` exactly when no assignment satisfies every clause. */
    method Check() returns (v: Verdict)
      ensures v == Unsat <==> !Satisfiable(clauses)
    {
      SatisfiableIffNoConflict(clauses);
      v := if HasConflict(clauses) then Unsat else Sat;
    }
  }
}
