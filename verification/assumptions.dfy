/** The assumption mini-language of `AssumptionsChecker`: one term (`parse_assumption`),
    one declaration block (`parse_assumptions_block`) and the docstring scan that collects
    blocks (`extract_assumptions`). */
module Assumptions {
  import opened Text

  /** A literal as the checker hands it to the solver: `Bool(name)`, or
      `Not(Bool(name))` when `negated`. */
  datatype Literal = Literal(name: string, negated: bool)

  const NegationPrefix: string := "no-"
  const Keyword: string := "assume:"

  /** The literal with the opposite polarity. */
  function Negate(l: Literal): Literal {
    l.(negated := !l.negated)
  }

  /** The text a literal is written as: its name, after `no-` when it is negated. */
  function Render(l: Literal): string {
    if l.negated then NegationPrefix + l.name else l.name
  }

  /** One term: a leading `no-` (stripped once) marks a negated literal, anything else is
      the name of a positive one. The name is not validated. */
  function ParseAssumption(s: string): (r: Literal)
    ensures r.negated <==> StartsWith(s, NegationPrefix)
    ensures r.negated ==> s == NegationPrefix + r.name
    ensures !r.negated ==> r.name == s
  {
    if StartsWith(s, NegationPrefix) then Literal(s[|NegationPrefix|..], true)
    else Literal(s, false)
  }

  /** Parsing never loses text: writing the parsed literal back gives the term itself. */
  lemma RenderParse(s: string)
    ensures Render(ParseAssumption(s)) == s
  {
  }

  /** A literal whose name does not itself start with `no-` survives being written and parsed. */
  lemma ParseRender(l: Literal)
    requires !StartsWith(l.name, NegationPrefix)
    ensures ParseAssumption(Render(l)) == l
  {
    if l.negated {
      assert (NegationPrefix + l.name)[..|NegationPrefix|] == NegationPrefix;
    }
  }

  /** Prefixing `no-` to a term that does not already start with it negates the term. */
  lemma NegationPrefixNegates(x: string)
    requires !StartsWith(x, NegationPrefix)
    ensures ParseAssumption(NegationPrefix + x) == Negate(ParseAssumption(x))
  {
    assert (NegationPrefix + x)[..|NegationPrefix|] == NegationPrefix;
  }

  /** One declaration block: its fragments joined by a space, cut at every comma, each
      piece stripped and parsed. No name holds a comma. */
  function ParseAssumptionsBlock(block: seq<string>): (r: seq<Literal>)
    ensures |r| >= 1
    ensures forall i :: 0 <= i < |r| ==> ',' !in r[i].name
  {
    var pieces := Split(Join(block, " "), ',');
    SplitPiecesFree(Join(block, " "), ',');
    seq(|pieces|, i requires 0 <= i < |pieces| => ParseAssumption(Strip(pieces[i])))
  }

  /** A block declares one literal more than its text holds commas. */
  lemma BlockLiteralCount(block: seq<string>)
    ensures |ParseAssumptionsBlock(block)| == multiset(Join(block, " "))[','] + 1
  {
    SplitCount(Join(block, " "), ',');
  }

  /** A term parses the same wherever it stands in a block: the literals of `x,y` are
      those of `x` followed by those of `y`. */
  lemma {:induction false} BlockSplitsAtComma(x: string, y: string)
    ensures ParseAssumptionsBlock([x + "," + y]) == ParseAssumptionsBlock([x]) + ParseAssumptionsBlock([y])
  {
    SplitConcat(x, y, ',');
    assert x + "," + y == x + [','] + y;
    var xs, ys := Split(x, ','), Split(y, ',');
    var r := ParseAssumptionsBlock([x + "," + y]);
    assert |r| == |xs| + |ys|;
    forall i | 0 <= i < |r|
      ensures r[i] == (ParseAssumptionsBlock([x]) + ParseAssumptionsBlock([y]))[i]
    {
      if i >= |xs| {
        assert (xs + ys)[i] == ys[i - |xs|];
      }
    }
  }

  /** A block whose text has no comma is a single literal: line breaks inside a block
      only add spaces to a name. */
  lemma SingleTermBlock(block: seq<string>)
    requires ',' !in Join(block, " ")
    ensures ParseAssumptionsBlock(block) == [ParseAssumption(Strip(Join(block, " ")))]
  {
    var text := Join(block, " ");
    SplitCount(text, ',');
    JoinSplit(text, ',');
    assert multiset(text)[','] == 0;
  }

  // ---------------------------------------------------------------------------------
  // The docstring scan of `extract_assumptions`

  /** The scan's variables after some lines: whether a block is open, the column of the
      last opener's keyword, the fragments collected so far, and how many times a block
      was closed (each closure appends the one fragment list to the result). */
  datatype ScanState = ScanState(inBlock: bool, pos: int, fragments: seq<string>, closures: nat)

  const Start := ScanState(false, -1, [], 0)

  /** A line opens a block when its stripped text starts with `assume:`. */
  predicate IsOpener(line: string) {
    StartsWith(Strip(line), Keyword)
  }

  /** A line continues the open block when its text from the opener's column starts
      with two spaces or a tab. */
  predicate Continues(line: string, pos: int) {
    StartsWith(PySliceFrom(line, pos), "  ") || StartsWith(PySliceFrom(line, pos), "\t")
  }

  /** The fragment an opener line contributes: its text after the keyword, stripped. */
  function OpenerFragment(line: string): string {
    Strip(PySliceFrom(line, Find(line, Keyword) + |Keyword|))
  }

  /** The scan's treatment of one line. The fragment list is never replaced by an
      empty one, so a closure only counts. */
  function Step(st: ScanState, line: string): ScanState {
    if IsOpener(line) then
      ScanState(true, Find(line, Keyword), st.fragments + [OpenerFragment(line)],
                if st.inBlock then st.closures + 1 else st.closures)
    else if st.inBlock then
      if Continues(line, st.pos) then st.(fragments := st.fragments + [Strip(line)])
      else st.(inBlock := false, closures := st.closures + 1)
    else st
  }

  /** The scan's variables after all of `lines`. */
  function Scan(lines: seq<string>): ScanState {
    if lines == [] then Start else Step(Scan(lines[..|lines| - 1]), lines[|lines| - 1])
  }

  /** The scan of one more line is one more step. */
  lemma ScanStep(lines: seq<string>, i: nat)
    requires i < |lines|
    ensures Scan(lines[..i + 1]) == Step(Scan(lines[..i]), lines[i])
  {
    assert lines[..i + 1][..i] == lines[..i];
  }

  /** `k` copies of `xs`, one after the other. */
  function Repeat<T>(xs: seq<T>, k: nat): (r: seq<T>)
    ensures |r| == k * |xs|
    ensures forall x :: x in r ==> x in xs
  {
    if k == 0 then [] else Repeat(xs, k - 1) + xs
  }

  /** What `extract_assumptions` returns for the lines of a docstring: the literals of
      ALL fragments ever collected, once per block closure. */
  function ExtractedFromLines(lines: seq<string>): seq<Literal> {
    var st := Scan(lines);
    Repeat(ParseAssumptionsBlock(st.fragments), st.closures)
  }

  /** What `extract_assumptions` returns for a docstring. */
  function ExtractedAssumptions(doc: string): seq<Literal> {
    ExtractedFromLines(Split(doc, '\n'))
  }

  /** The number of lines that open a block. */
  function CountOpeners(lines: seq<string>): nat {
    if lines == [] then 0
    else CountOpeners(lines[..|lines| - 1]) + (if IsOpener(lines[|lines| - 1]) then 1 else 0)
  }

  /** Every opener is matched by one closure, except the opener of a block still open
      after the last line: that block is never closed. */
  lemma {:induction false} ClosuresCountOpeners(lines: seq<string>)
    ensures Scan(lines).closures + (if Scan(lines).inBlock then 1 else 0) == CountOpeners(lines)
  {
    if lines != [] {
      ClosuresCountOpeners(lines[..|lines| - 1]);
    }
  }

  lemma {:induction false} NoOpenersCounted(lines: seq<string>)
    requires forall i :: 0 <= i < |lines| ==> !IsOpener(lines[i])
    ensures CountOpeners(lines) == 0
  {
    if lines != [] {
      NoOpenersCounted(lines[..|lines| - 1]);
    }
  }

  /** A docstring with no `assume:` line declares nothing. */
  lemma NoOpenerNoAssumptions(lines: seq<string>)
    requires forall i :: 0 <= i < |lines| ==> !IsOpener(lines[i])
    ensures ExtractedFromLines(lines) == []
  {
    ClosuresCountOpeners(lines);
    NoOpenersCounted(lines);
  }

  /** Lines before the first opener leave the scan where it started. */
  lemma {:induction false} PrefixIgnored(pre: seq<string>)
    requires forall i :: 0 <= i < |pre| ==> !IsOpener(pre[i])
    ensures Scan(pre) == Start
  {
    if pre != [] {
      PrefixIgnored(pre[..|pre| - 1]);
    }
  }

  /** A single block that runs to the last line, after any lines without an opener, is
      never closed, so the docstring declares nothing. */
  lemma OpenBlockToEnd(pre: seq<string>, block: seq<string>)
    requires forall i :: 0 <= i < |pre| ==> !IsOpener(pre[i])
    requires |block| >= 1 && IsOpener(block[0])
    requires forall i :: 1 <= i < |block| ==>
      !IsOpener(block[i]) && Continues(block[i], Find(block[0], Keyword))
    ensures Scan(pre + block).inBlock && Scan(pre + block).closures == 0
    ensures ExtractedFromLines(pre + block) == []
  {
    OpenBlockScan(pre, block);
  }

  /** The scan of such a docstring ends inside the block, at the opener's column, with no
      closure. */
  lemma OpenBlockScan(pre: seq<string>, block: seq<string>)
    requires forall i :: 0 <= i < |pre| ==> !IsOpener(pre[i])
    requires |block| >= 1 && IsOpener(block[0])
    requires forall i :: 1 <= i < |block| ==>
      !IsOpener(block[i]) && Continues(block[i], Find(block[0], Keyword))
    ensures Scan(pre + block).inBlock && Scan(pre + block).closures == 0
    ensures Scan(pre + block).pos == Find(block[0], Keyword)
  {
    var lines := pre + block;
    forall i | 0 <= i < |pre| ensures !IsOpener(lines[i]) {
      assert lines[i] == pre[i];
    }
    OpenBlockPrefix(lines, |pre|, |lines|);
    assert lines[..|lines|] == lines;
  }

  /** The scan up to line `n` of a block opened at line `s`, with no opener before it and
      only continuation lines after it, is inside that block with no closure. */
  lemma {:induction false} OpenBlockPrefix(lines: seq<string>, s: nat, n: nat)
    requires s < n <= |lines|
    requires forall i :: 0 <= i < s ==> !IsOpener(lines[i])
    requires IsOpener(lines[s])
    requires forall i :: s < i < |lines| ==>
      !IsOpener(lines[i]) && Continues(lines[i], Find(lines[s], Keyword))
    ensures Scan(lines[..n]).inBlock && Scan(lines[..n]).closures == 0
    ensures Scan(lines[..n]).pos == Find(lines[s], Keyword)
  {
    if n == s + 1 {
      OpenerAfterPrefix(lines, s);
    } else {
      OpenBlockPrefix(lines, s, n - 1);
      ContinuedAt(lines, n - 1, Find(lines[s], Keyword));
    }
  }

  /** The first opener, at line `s`, leaves the scan inside a block with no closure. */
  lemma OpenerAfterPrefix(lines: seq<string>, s: nat)
    requires s < |lines| && IsOpener(lines[s])
    requires forall i :: 0 <= i < s ==> !IsOpener(lines[i])
    ensures Scan(lines[..s + 1]) == ScanState(true, Find(lines[s], Keyword), [OpenerFragment(lines[s])], 0)
  {
    var pre := lines[..s];
    assert forall i :: 0 <= i < |pre| ==> pre[i] == lines[i];
    PrefixIgnored(pre);
    ScanStep(lines, s);
    OpenerStep(Start, lines[s]);
  }

  /** A line that continues the open block keeps it open, at the same column, unclosed. */
  lemma ContinuedAt(lines: seq<string>, n: nat, pos: int)
    requires n < |lines| && !IsOpener(lines[n]) && Continues(lines[n], pos)
    requires Scan(lines[..n]).inBlock && Scan(lines[..n]).closures == 0 && Scan(lines[..n]).pos == pos
    ensures Scan(lines[..n + 1]).inBlock && Scan(lines[..n + 1]).closures == 0
    ensures Scan(lines[..n + 1]).pos == pos
  {
    ScanStep(lines, n);
    OtherLineStep(Scan(lines[..n]), lines[n]);
  }

  lemma {:induction false} OpenerKeepsPos(lines: seq<string>)
    requires |lines| >= 1 && IsOpener(lines[0])
    requires forall i :: 1 <= i < |lines| ==> !IsOpener(lines[i])
    ensures Scan(lines).pos == Find(lines[0], Keyword)
  {
    if |lines| == 1 {
      assert lines[..0] == [];
    } else {
      var prefix := lines[..|lines| - 1];
      assert prefix[0] == lines[0];
      OpenerKeepsPos(prefix);
    }
  }

  /** Two consecutive one-line blocks do not give the literals of each: the second
      block's fragment joins the first one's, and the merged block is returned twice,
      once for each closure. */
  lemma TwoBlocksMerge(first: string, second: string, last: string)
    requires IsOpener(first) && IsOpener(second)
    requires !IsOpener(last) && !Continues(last, Find(second, Keyword))
    ensures ExtractedFromLines([first, second, last])
         == ParseAssumptionsBlock([OpenerFragment(first), OpenerFragment(second)])
          + ParseAssumptionsBlock([OpenerFragment(first), OpenerFragment(second)])
  {
    TwoBlocksScan(first, second, last);
    RepeatTwice(ParseAssumptionsBlock([OpenerFragment(first), OpenerFragment(second)]));
  }

  lemma RepeatTwice<T>(xs: seq<T>)
    ensures Repeat(xs, 2) == xs + xs
  {
    assert Repeat(xs, 2) == Repeat(xs, 1) + xs == Repeat(xs, 0) + xs + xs;
  }

  /** The scan of two consecutive one-line blocks closes twice and keeps both fragments. */
  lemma TwoBlocksScan(first: string, second: string, last: string)
    requires IsOpener(first) && IsOpener(second)
    requires !IsOpener(last) && !Continues(last, Find(second, Keyword))
    ensures Scan([first, second, last])
         == ScanState(false, Find(second, Keyword), [OpenerFragment(first), OpenerFragment(second)], 2)
  {
    ScanThree(first, second, last);
    OpenerStep(Start, first);
    OpenerStep(Step(Start, first), second);
    OtherLineStep(Step(Step(Start, first), second), last);
  }

  /** The scan of three lines is three steps from the start. */
  lemma ScanThree(a: string, b: string, c: string)
    ensures Scan([a, b, c]) == Step(Step(Step(Start, a), b), c)
  {
    ScanSnoc([], a);
    assert [] + [a] == [a];
    ScanSnoc([a], b);
    assert [a] + [b] == [a, b];
    ScanSnoc([a, b], c);
    assert [a, b] + [c] == [a, b, c];
  }

  /** An opener line opens a block at its keyword's column, adds its fragment, and closes
      the block that was open. */
  lemma OpenerStep(st: ScanState, line: string)
    requires IsOpener(line)
    ensures Step(st, line)
         == ScanState(true, Find(line, Keyword), st.fragments + [OpenerFragment(line)],
                      st.closures + (if st.inBlock then 1 else 0))
  {
  }

  /** A line that does not open a block is ignored outside a block; inside one it is
      added stripped when it continues the block, and otherwise it closes the block. */
  lemma OtherLineStep(st: ScanState, line: string)
    requires !IsOpener(line)
    ensures !st.inBlock ==> Step(st, line) == st
    ensures st.inBlock && Continues(line, st.pos)
        ==> Step(st, line) == ScanState(true, st.pos, st.fragments + [Strip(line)], st.closures)
    ensures st.inBlock && !Continues(line, st.pos)
        ==> Step(st, line) == ScanState(false, st.pos, st.fragments, st.closures + 1)
  {
  }

  /** When neither fragment holds a comma, the two merged blocks are one literal whose
      name runs both fragments together with a space. */
  lemma MergedFragmentsOneLiteral(f1: string, f2: string)
    requires ',' !in f1 && ',' !in f2
    ensures ParseAssumptionsBlock([f1, f2]) == [ParseAssumption(Strip(f1 + " " + f2))]
  {
    assert Join([f1, f2], " ") == f1 + " " + f2;
    SingleTermBlock([f1, f2]);
  }

  /** Scanning one more line is one more step. */
  lemma ScanSnoc(lines: seq<string>, line: string)
    ensures Scan(lines + [line]) == Step(Scan(lines), line)
  {
    assert (lines + [line])[..|lines|] == lines;
  }

  /** A Python list of strings, mutated in place and shared by reference. */
  class FragmentList {
    var items: seq<string>

    constructor ()
      ensures items == []
    {
      items := [];
    }

    method Append(x: string)
      modifies this
      ensures items == old(items) + [x]
    {
      items := items + [x];
    }
  }

  /** `extract_assumptions`: scans the docstring line by line. Every closed block appends
      the same list object to `closed`; resetting it assigns to a misspelt name, so the
      list keeps growing. */
  method ExtractAssumptions(funcDoc: string) returns (assumptions: seq<Literal>)
    ensures assumptions == ExtractedAssumptions(funcDoc)
  {
    var lines := Split(funcDoc, '\n');
    var isInBlock := false;
    var block := new FragmentList();
    var closed: seq<FragmentList> := [];
    var pos := -1;
    for i := 0 to |lines|
      invariant Scan(lines[..i]) == ScanState(isInBlock, pos, block.items, |closed|)
      invariant forall k :: 0 <= k < |closed| ==> closed[k] == block
    {
      var line := lines[i];
      ScanStep(lines, i);
      if IsOpener(line) {
        pos := Find(line, Keyword);
        if isInBlock {
          closed := closed + [block];
          var misspelt := new FragmentList();  // bound to a name nothing reads
        }
        isInBlock := true;
        block.Append(Strip(PySliceFrom(line, pos + |Keyword|)));
      } else if isInBlock {
        if Continues(line, pos) {
          block.Append(Strip(line));
        } else {
          closed := closed + [block];
          var misspelt := new FragmentList();  // bound to a name nothing reads
          isInBlock := false;
        }
      }
    }
    assert lines[..|lines|] == lines;
    assumptions := ParseClosedBlocks(closed, block);
  }

  /** The final concatenation of `extract_assumptions`: the literals of every closed
      block in order, where every closed block is the one shared list `block`. */
  method ParseClosedBlocks(closed: seq<FragmentList>, block: FragmentList) returns (assumptions: seq<Literal>)
    requires forall k :: 0 <= k < |closed| ==> closed[k] == block
    ensures assumptions == Repeat(ParseAssumptionsBlock(block.items), |closed|)
  {
    assumptions := [];
    for i := 0 to |closed|
      invariant assumptions == Repeat(ParseAssumptionsBlock(block.items), i)
    {
      assumptions := assumptions + ParseAssumptionsBlock(closed[i].items);
    }
  }
}
