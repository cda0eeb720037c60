/** The shallow call extractor `get_all_calls`. */
module Calls {

  /** A syntax-tree node as the extractor sees it. A node is classified by the first of
      its attributes the extractor tests: a call; else one with a `value`; else one with
      a `body`; else one with `values()`; else a node it does not look into. */
  datatype Node =
    | Call(callee: string, args: seq<Node>)
    | WithValue(value: Node)
    | WithBody(body: seq<Node>)
    | WithValues(values: seq<Node>)
    | Other

  /** `get_all_calls`: the call nodes reached by following `value`, `body` or `values()`,
      in order. A call is collected and its arguments are not searched. */
  function GetAllCalls(n: Node): (r: seq<Node>)
    ensures forall c :: c in r ==> c.Call?
    ensures n.Call? ==> r == [n]
    decreases n, 1
  {
    match n
    case Call(_, _) => [n]
    case WithValue(v) => GetAllCalls(v)
    case WithBody(b) => CallsIn(b)
    case WithValues(vs) => CallsIn(vs)
    case Other => []
  }

  /** The calls of each node of `ns`, in order. */
  function CallsIn(ns: seq<Node>): (r: seq<Node>)
    ensures forall c :: c in r ==> c.Call?
    decreases ns, 0
  {
    if ns == [] then []
    else CallsIn(ns[..|ns| - 1]) + GetAllCalls(ns[|ns| - 1])
  }

  /** `c` is a call the extractor can reach from `n`: `n` is that call, or `c` is reachable
      from the child the extractor follows, or from one of the children it iterates. */
  ghost predicate Reaches(n: Node, c: Node)
    decreases n
  {
    match n
    case Call(_, _) => c == n
    case WithValue(v) => Reaches(v, c)
    case WithBody(b) => exists i :: 0 <= i < |b| && Reaches(b[i], c)
    case WithValues(vs) => exists i :: 0 <= i < |vs| && Reaches(vs[i], c)
    case Other => false
  }

  /** The extractor returns exactly the reachable calls. */
  lemma {:induction false} GetAllCallsReaches(n: Node, c: Node)
    ensures c in GetAllCalls(n) <==> Reaches(n, c)
    decreases n, 1
  {
    match n
    case Call(_, _) =>
    case WithValue(v) => GetAllCallsReaches(v, c);
    case WithBody(b) => CallsInReaches(b, c);
    case WithValues(vs) => CallsInReaches(vs, c);
    case Other =>
  }

  lemma {:induction false} CallsInReaches(ns: seq<Node>, c: Node)
    ensures c in CallsIn(ns) <==> exists i :: 0 <= i < |ns| && Reaches(ns[i], c)
    decreases ns, 0
  {
    if ns != [] {
      var init, last := ns[..|ns| - 1], ns[|ns| - 1];
      CallsInReaches(init, c);
      GetAllCallsReaches(last, c);
      if exists i :: 0 <= i < |ns| && Reaches(ns[i], c) {
        var i :| 0 <= i < |ns| && Reaches(ns[i], c);
        if i < |ns| - 1 {
          assert init[i] == ns[i];
        }
      }
    }
  }

  /** A call nested in the arguments of another call is not found through it. */
  lemma NestedCallHidden(callee: string, args: seq<Node>, inner: Node)
    requires inner in args
    ensures inner !in GetAllCalls(Call(callee, args))
  {
    assert inner < Call(callee, args);
  }
}
