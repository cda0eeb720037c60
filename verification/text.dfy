/** Python string operations the assumption parser relies on, over `seq<char>`. */
module Text {

  /** Python's `str.isspace()` for one character: the characters `str.strip()` removes. */
  predicate IsSpace(c: char) {
    c == ' ' || ('\U{9}' <= c <= '\U{D}') || ('\U{1C}' <= c <= '\U{1F}')
    || c == '\U{85}' || c == '\U{A0}' || c == '\U{1680}' || ('\U{2000}' <= c <= '\U{200A}')
    || c == '\U{2028}' || c == '\U{2029}' || c == '\U{202F}' || c == '\U{205F}' || c == '\U{3000}'
  }

  /** `s.lstrip()`. */
  function StripLeft(s: string): string {
    if s != [] && IsSpace(s[0]) then StripLeft(s[1..]) else s
  }

  /** `s.rstrip()`. */
  function StripRight(s: string): string {
    if s != [] && IsSpace(s[|s| - 1]) then StripRight(s[..|s| - 1]) else s
  }

  /** `s.strip()`: a piece of `s`, so it holds no character `s` does not hold. */
  function Strip(s: string): (r: string)
    ensures forall c :: c in r ==> c in s
  {
    StripLeftSpec(s);
    StripRightSpec(StripLeft(s));
    StripRight(StripLeft(s))
  }

  /** `lstrip` removes exactly the leading whitespace: what is left is a suffix that does
      not start with whitespace, and everything before it is whitespace. */
  lemma {:induction false} StripLeftSpec(s: string)
    ensures |StripLeft(s)| <= |s| && StripLeft(s) == s[|s| - |StripLeft(s)|..]
    ensures forall i :: 0 <= i < |s| - |StripLeft(s)| ==> IsSpace(s[i])
    ensures StripLeft(s) == [] || !IsSpace(StripLeft(s)[0])
  {
    if s != [] && IsSpace(s[0]) {
      var t := s[1..];
      StripLeftSpec(t);
      var k := |StripLeft(t)|;
      assert StripLeft(s) == StripLeft(t);
      assert t[|t| - k..] == s[|s| - k..];
      forall i | 0 <= i < |s| - k ensures IsSpace(s[i]) {
        if i > 0 {
          assert s[i] == t[i - 1];
        }
      }
    }
  }

  /** `rstrip` removes exactly the trailing whitespace. */
  lemma {:induction false} StripRightSpec(s: string)
    ensures |StripRight(s)| <= |s| && StripRight(s) == s[..|StripRight(s)|]
    ensures forall i :: |StripRight(s)| <= i < |s| ==> IsSpace(s[i])
    ensures StripRight(s) == [] || !IsSpace(StripRight(s)[|StripRight(s)| - 1])
  {
    if s != [] && IsSpace(s[|s| - 1]) {
      var t := s[..|s| - 1];
      StripRightSpec(t);
      var k := |StripRight(t)|;
      assert StripRight(s) == StripRight(t);
      assert t[..k] == s[..k];
      forall i | k <= i < |s| ensures IsSpace(s[i]) {
        if i < |s| - 1 {
          assert s[i] == t[i];
        }
      }
    }
  }

  /** `s.startswith(prefix)`. */
  predicate StartsWith(s: string, prefix: string) {
    |prefix| <= |s| && s[..|prefix|] == prefix
  }

  /** `p` occurs in `s` starting at index `i`. */
  predicate OccursAt(s: string, p: string, i: int) {
    0 <= i && i + |p| <= |s| && s[i..i + |p|] == p
  }

  /** `s.find(p)`: the first index where `p` occurs, or -1. */
  function Find(s: string, p: string): int {
    FindFrom(s, p, 0)
  }

  function FindFrom(s: string, p: string, k: nat): int
    requires k <= |s| + 1
    decreases |s| + 1 - k
  {
    if k + |p| > |s| then -1
    else if s[k..k + |p|] == p then k
    else FindFrom(s, p, k + 1)
  }

  /** The search from index `k` finds the first occurrence at or after `k`, or -1 when
      there is none. */
  lemma {:induction false} FindFromSpec(s: string, p: string, k: nat)
    requires k <= |s| + 1
    ensures FindFrom(s, p, k) == -1 <==> forall i :: k <= i ==> !OccursAt(s, p, i)
    ensures FindFrom(s, p, k) != -1 ==>
      k <= FindFrom(s, p, k) && OccursAt(s, p, FindFrom(s, p, k))
      && forall i :: k <= i < FindFrom(s, p, k) ==> !OccursAt(s, p, i)
    decreases |s| + 1 - k
  {
    if k + |p| > |s| {
    } else if s[k..k + |p|] == p {
      assert OccursAt(s, p, k);
    } else {
      FindFromSpec(s, p, k + 1);
    }
  }

  /** `find` returns -1 exactly when `p` does not occur, and otherwise its first occurrence. */
  lemma FindSpec(s: string, p: string)
    ensures Find(s, p) == -1 <==> forall i :: !OccursAt(s, p, i)
    ensures Find(s, p) != -1 ==>
      OccursAt(s, p, Find(s, p)) && forall i :: 0 <= i < Find(s, p) ==> !OccursAt(s, p, i)
  {
    FindFromSpec(s, p, 0);
  }

  /** `s[i:]` with Python's slicing rules: a negative `i` counts from the end, and an
      index past either end is clamped. */
  function PySliceFrom(s: string, i: int): (r: string)
    ensures 0 <= i <= |s| ==> r == s[i..]
    ensures i >= |s| ==> r == []
  {
    if i >= |s| then []
    else if i >= 0 then s[i..]
    else if -i <= |s| then s[|s| + i..]
    else s
  }

  /** `sep.join(parts)`. */
  function Join(parts: seq<string>, sep: string): string {
    if |parts| == 0 then ""
    else if |parts| == 1 then parts[0]
    else parts[0] + sep + Join(parts[1..], sep)
  }

  /** `s.split(sep)` for a one-character separator: the pieces between the separators,
      at least one. */
  function Split(s: string, sep: char): (r: seq<string>)
    ensures |r| >= 1
  {
    if s == [] then [[]]
    else
      var rest := Split(s[1..], sep);
      if s[0] == sep then [[]] + rest
      else [[s[0]] + rest[0]] + rest[1..]
  }

  /** No piece of a split holds the separator. */
  lemma {:induction false} SplitPiecesFree(s: string, sep: char)
    ensures forall i :: 0 <= i < |Split(s, sep)| ==> sep !in Split(s, sep)[i]
  {
    if s != [] {
      SplitPiecesFree(s[1..], sep);
      var rest := Split(s[1..], sep);
      if s[0] != sep {
        assert sep !in [s[0]] + rest[0];
        forall i | 1 <= i < |Split(s, sep)| ensures sep !in Split(s, sep)[i] {
          assert Split(s, sep)[i] == rest[i];
        }
      }
    }
  }

  /** A split yields one more piece than there are separators. */
  lemma {:induction false} SplitCount(s: string, sep: char)
    ensures |Split(s, sep)| == multiset(s)[sep] + 1
  {
    if s != [] {
      SplitCount(s[1..], sep);
      assert s == [s[0]] + s[1..];
    }
  }

  /** Joining the pieces of a split with the separator gives back the original string. */
  lemma {:induction false} JoinSplit(s: string, sep: char)
    ensures Join(Split(s, sep), [sep]) == s
  {
    if s != [] {
      JoinSplit(s[1..], sep);
      var rest := Split(s[1..], sep);
      if s[0] != sep {
        if |rest| > 1 {
          assert Join(Split(s, sep), [sep])
              == ([s[0]] + rest[0]) + [sep] + Join(rest[1..], [sep]);
        }
      }
    }
  }

  /** One step of `Split`: the first character either ends the first piece or joins it. */
  lemma SplitStep(c: char, t: string, sep: char)
    ensures Split([c] + t, sep)
         == if c == sep then [[]] + Split(t, sep)
            else [[c] + Split(t, sep)[0]] + Split(t, sep)[1..]
  {
    assert ([c] + t)[1..] == t;
  }

  /** The inductive step of `SplitConcat`, for a string with first character `h`. */
  lemma SplitConcatStep(h: char, u: string, y: string, sep: char)
    requires Split(u + [sep] + y, sep) == Split(u, sep) + Split(y, sep)
    ensures Split([h] + u + [sep] + y, sep) == Split([h] + u, sep) + Split(y, sep)
  {
    var t := u + [sep] + y;
    assert [h] + u + [sep] + y == [h] + t;
    if h == sep {
      SplitConcatSeparator(u, y, sep);
    } else {
      SplitConcatOther(h, u, y, sep);
    }
  }

  lemma SplitConcatSeparator(u: string, y: string, sep: char)
    requires Split(u + [sep] + y, sep) == Split(u, sep) + Split(y, sep)
    ensures Split([sep] + (u + [sep] + y), sep) == Split([sep] + u, sep) + Split(y, sep)
  {
    SplitStep(sep, u + [sep] + y, sep);
    SplitStep(sep, u, sep);
  }

  lemma SplitConcatOther(h: char, u: string, y: string, sep: char)
    requires h != sep && Split(u + [sep] + y, sep) == Split(u, sep) + Split(y, sep)
    ensures Split([h] + (u + [sep] + y), sep) == Split([h] + u, sep) + Split(y, sep)
  {
    SplitStep(h, u + [sep] + y, sep);
    SplitStep(h, u, sep);
    PieceAppend(h, Split(u, sep), Split(y, sep));
  }

  lemma PieceAppend(h: char, us: seq<string>, ys: seq<string>)
    requires |us| >= 1
    ensures [[h] + (us + ys)[0]] + (us + ys)[1..] == ([[h] + us[0]] + us[1..]) + ys
  {
    assert (us + ys)[1..] == us[1..] + ys;
  }

  /** Splitting at a separator placed between `x` and `y` splits `x` and `y` independently. */
  lemma {:induction false} SplitConcat(x: string, y: string, sep: char)
    ensures Split(x + [sep] + y, sep) == Split(x, sep) + Split(y, sep)
  {
    if x == [] {
      assert x + [sep] + y == [sep] + y;
      SplitStep(sep, y, sep);
    } else {
      SplitConcat(x[1..], y, sep);
      SplitConcatStep(x[0], x[1..], y, sep);
      assert x == [x[0]] + x[1..];
    }
  }
}
