/** Query normalisation of modules/database.js: the query is trimmed, lower-cased,
    and every run of two or more whitespace characters becomes one space. The
    result is the key of the query cache. */
module QueryText {

  /** JavaScript's `trim` and the regular-expression class `\s` both use the
      WhiteSpace and LineTerminator productions (ECMA-262, sections 12.2 and 12.3):
      TAB, VT, FF, ZWNBSP, the space separators (category Zs), LF, CR, LS and PS. */
  predicate IsSpace(c: char) {
    || c == '\t' || c == '\U{B}' || c == '\U{C}' || c == '\U{FEFF}'
    || c == ' ' || c == '\U{A0}' || c == '\U{1680}' || ('\U{2000}' <= c <= '\U{200A}')
    || c == '\U{202F}' || c == '\U{205F}' || c == '\U{3000}'
    || c == '\n' || c == '\r' || c == '\U{2028}' || c == '\U{2029}'
  }

  /** `toLowerCase` on one character, for the ASCII letters. */
  function Lower(c: char): (r: char)
    ensures !('A' <= r <= 'Z')
    ensures 'A' <= c <= 'Z' ==> 'a' <= r <= 'z' && r as int - 'a' as int == c as int - 'A' as int
    ensures !('A' <= c <= 'Z') ==> r == c
  {
    if 'A' <= c <= 'Z' then (c as int - 'A' as int + 'a' as int) as char else c
  }

  lemma LowerFacts(c: char)
    ensures Lower(Lower(c)) == Lower(c)
    ensures IsSpace(Lower(c)) <==> IsSpace(c)
  {
  }

  /** Length of the run of whitespace that starts the string. */
  function SpaceRun(s: string): (n: nat)
    ensures n <= |s|
    ensures forall i :: 0 <= i < n ==> IsSpace(s[i])
    ensures n < |s| ==> !IsSpace(s[n])
  {
    if s != [] && IsSpace(s[0]) then 1 + SpaceRun(s[1..]) else 0
  }

  /** Drops the whitespace at the end of the string. */
  function TrimEnd(s: string): (r: string)
    ensures |r| <= |s| && r == s[..|r|]
    ensures forall i :: |r| <= i < |s| ==> IsSpace(s[i])
    ensures r != [] ==> !IsSpace(r[|r| - 1])
  {
    if s != [] && IsSpace(s[|s| - 1]) then TrimEnd(s[..|s| - 1]) else s
  }

  /** `String.prototype.trim`: whitespace at both ends is removed. */
  function Trim(s: string): (r: string)
    ensures |r| <= |s|
    ensures r != [] ==> !IsSpace(r[0]) && !IsSpace(r[|r| - 1])
    ensures r == [] <==> forall i :: 0 <= i < |s| ==> IsSpace(s[i])
  {
    var t := s[SpaceRun(s)..];
    var r := TrimEnd(t);
    assert r != [] ==> r[0] == t[0];
    assert t != [] ==> !IsSpace(t[0]);
    r
  }

  /** `String.prototype.toLowerCase`, character by character. */
  function LowerAll(s: string): (r: string)
    ensures |r| == |s|
    ensures forall i :: 0 <= i < |s| ==> r[i] == Lower(s[i])
  {
    if s == [] then [] else [Lower(s[0])] + LowerAll(s[1..])
  }

  /** The global replacement of whitespace runs of length two or more by a
      single space: the scan starts at the beginning of a run, so
      the greedy pattern matches each maximal run of two or more whitespace
      characters, which becomes one space; a lone whitespace character is kept
      as it is. A run at the very end also becomes one space, which cannot
      happen to a trimmed query. */
  function Collapse(s: string): (r: string)
    ensures |r| <= |s|
    ensures r == [] <==> s == []
    decreases |s|
  {
    if s == [] then []
    else if SpaceRun(s) >= 2 then [' '] + Collapse(s[SpaceRun(s)..])
    else [s[0]] + Collapse(s[1..])
  }

  /** Collapsing keeps whether the string starts, and whether it ends, with
      whitespace. */
  lemma CollapseEdges(s: string)
    requires s != []
    ensures var r := Collapse(s);
      && (IsSpace(r[0]) <==> IsSpace(s[0]))
      && (IsSpace(r[|r| - 1]) <==> IsSpace(s[|s| - 1]))
  {
    var r := Collapse(s);
    if SpaceRun(s) >= 2 {
      assert r[0] == ' ' && IsSpace(s[0]);
    } else {
      assert r[0] == s[0];
    }
    CollapseLast(s);
  }

  lemma {:induction false} CollapseLast(s: string)
    requires s != []
    ensures var r := Collapse(s); IsSpace(r[|r| - 1]) <==> IsSpace(s[|s| - 1])
    decreases |s|
  {
    var n := SpaceRun(s);
    var k := if n >= 2 then n else 1;
    var head := if n >= 2 then [' '] else [s[0]];
    var rest := s[k..];
    var c := Collapse(rest);
    assert Collapse(s) == head + c;
    if rest == [] {
      assert c == [] && head + c == head;
      assert n >= 2 ==> IsSpace(s[|s| - 1]);
      assert n < 2 ==> |s| == 1;
    } else {
      CollapseLast(rest);
      LastOfAppend(head, c);
      assert rest[|rest| - 1] == s[|s| - 1];
    }
  }

  /** The cache key computed from a raw query. It is empty, and the query is
      answered with no rows, exactly when the query is whitespace only. */
  function Normalize(s: string): (r: string)
    ensures |r| <= |s|
    ensures r == [] <==> forall i :: 0 <= i < |s| ==> IsSpace(s[i])
  {
    Collapse(LowerAll(Trim(s)))
  }

  predicate NoDoubleSpace(t: string) {
    forall i :: 0 <= i < |t| - 1 ==> !(IsSpace(t[i]) && IsSpace(t[i + 1]))
  }

  predicate AllLower(t: string) {
    forall i :: 0 <= i < |t| ==> Lower(t[i]) == t[i]
  }

  /** The strings normalisation produces: no whitespace at either end, no two
      whitespace characters side by side, and nothing left to lower-case. */
  predicate Normalized(t: string) {
    && (t != [] ==> !IsSpace(t[0]) && !IsSpace(t[|t| - 1]))
    && NoDoubleSpace(t)
    && AllLower(t)
  }

  lemma {:induction false} CollapseNoDoubleSpace(s: string)
    ensures NoDoubleSpace(Collapse(s))
    decreases |s|
  {
    if s != [] {
      var n := SpaceRun(s);
      if n >= 2 {
        var rest := s[n..];
        CollapseNoDoubleSpace(rest);
        if rest != [] {
          CollapseEdges(rest);
        }
      } else {
        CollapseNoDoubleSpace(s[1..]);
        if |s| > 1 {
          CollapseEdges(s[1..]);
          assert IsSpace(s[0]) ==> !IsSpace(s[1]);
        }
      }
    }
  }

  /** Only runs of two or more whitespace characters are rewritten: a string
      without such a run passes through unchanged, single tabs and newlines
      included. */
  lemma {:induction false} CollapseFixed(s: string)
    requires NoDoubleSpace(s)
    ensures Collapse(s) == s
    decreases |s|
  {
    if s != [] {
      assert SpaceRun(s) <= 1 by {
        if |s| >= 2 && IsSpace(s[0]) { assert !IsSpace(s[1]); }
      }
      var tail := s[1..];
      assert Collapse(s) == [s[0]] + Collapse(tail);
      assert NoDoubleSpace(tail) by {
        forall i | 0 <= i < |tail| - 1 ensures !(IsSpace(tail[i]) && IsSpace(tail[i + 1])) {
          assert tail[i] == s[i + 1] && tail[i + 1] == s[i + 2];
        }
      }
      CollapseFixed(tail);
    }
  }

  /** Collapsing only ever writes a space, which is already lower case. */
  lemma {:induction false} AllLowerCollapse(s: string)
    requires AllLower(s)
    ensures AllLower(Collapse(s))
    decreases |s|
  {
    if s != [] {
      var n := SpaceRun(s);
      var rest := if n >= 2 then s[n..] else s[1..];
      assert AllLower(rest) by {
        forall i | 0 <= i < |rest| ensures Lower(rest[i]) == rest[i] {
          assert rest[i] == s[i + |s| - |rest|];
        }
      }
      AllLowerCollapse(rest);
    }
  }

  /** Every normalised query is in normal form. */
  lemma NormalizeNormalized(s: string)
    ensures Normalized(Normalize(s))
  {
    var t := Trim(s);
    var u := LowerAll(t);
    if u != [] {
      LowerFacts(t[0]);
      LowerFacts(t[|t| - 1]);
      CollapseEdges(u);
    }
    forall i | 0 <= i < |u| ensures Lower(u[i]) == u[i] {
      LowerFacts(t[i]);
    }
    CollapseNoDoubleSpace(u);
    AllLowerCollapse(u);
  }

  /** A string in normal form is its own normalisation. */
  lemma NormalizedFixed(t: string)
    requires Normalized(t)
    ensures Normalize(t) == t
  {
    assert SpaceRun(t) == 0;
    assert t[0..] == t;
    assert Trim(t) == t;
    assert LowerAll(t) == t;
    CollapseFixed(t);
  }

  /** Normalising a normalised query changes nothing. */
  lemma NormalizeIdempotent(s: string)
    ensures Normalize(Normalize(s)) == Normalize(s)
  {
    NormalizeNormalized(s);
    NormalizedFixed(Normalize(s));
  }

  /** A single tab between words survives, so "a\tb" and "a b" are two
      different cache keys. */
  lemma TabIsDistinctKey()
    ensures Normalize("a\tb") == "a\tb"
    ensures Normalize("a b") == "a b"
    ensures Normalize("a\tb") != Normalize("a b")
  {
    WordSepWordNormalized('a', '\t', 'b');
    WordSepWordNormalized('a', ' ', 'b');
    NormalizedFixed("a\tb");
    NormalizedFixed("a b");
    assert "a\tb"[1] != "a b"[1];
  }

  /** Two words around one separator are already in normal form. */
  lemma WordSepWordNormalized(a: char, m: char, b: char)
    requires !IsSpace(a) && !IsSpace(b)
    requires Lower(a) == a && Lower(m) == m && Lower(b) == b
    ensures Normalized([a, m, b])
  {
    var t := [a, m, b];
    assert t[0] == a && t[1] == m && t[2] == b;
  }

  /** Upper-case letters do not change the key. */
  lemma NormalizeIgnoresCase(s: string)
    ensures Normalize(LowerAll(s)) == Normalize(s)
  {
    TrimLowerAll(s);
    LowerAllIdempotent(Trim(s));
  }

  /** Whitespace around the query does not change the key. */
  lemma NormalizeIgnoresEdges(w1: string, s: string, w2: string)
    requires forall i :: 0 <= i < |w1| ==> IsSpace(w1[i])
    requires forall i :: 0 <= i < |w2| ==> IsSpace(w2[i])
    ensures Normalize(w1 + s + w2) == Normalize(s)
  {
    TrimIgnoresEdges(w1, s, w2);
  }

  lemma TrimIgnoresEdges(w1: string, s: string, w2: string)
    requires forall i :: 0 <= i < |w1| ==> IsSpace(w1[i])
    requires forall i :: 0 <= i < |w2| ==> IsSpace(w2[i])
    ensures Trim(w1 + s + w2) == Trim(s)
  {
    if forall i :: 0 <= i < |s| ==> IsSpace(s[i]) {
      AllSpaces3(w1, s, w2);
    } else {
      var k :| 0 <= k < |s| && !IsSpace(s[k]);
      TrimAroundWord(w1, s, w2, k);
    }
  }

  lemma TrimAroundWord(w1: string, s: string, w2: string, k: nat)
    requires forall i :: 0 <= i < |w1| ==> IsSpace(w1[i])
    requires forall i :: 0 <= i < |w2| ==> IsSpace(w2[i])
    requires k < |s| && !IsSpace(s[k])
    ensures Trim(w1 + s + w2) == Trim(s)
  {
    var n := SpaceRun(s);
    SpaceRunAround(w1, s, w2, k);
    DropAround(w1, s, w2, n);
    TrimAfterRun(w1 + s + w2, |w1| + n, s[n..], w2);
    TrimUnfold(s);
  }

  /** Once the leading run is dropped, trailing whitespace after u goes too. */
  lemma TrimAfterRun(x: string, m: nat, u: string, w2: string)
    requires m <= |x| && SpaceRun(x) == m && x[m..] == u + w2
    requires forall i :: 0 <= i < |w2| ==> IsSpace(w2[i])
    ensures Trim(x) == TrimEnd(u)
  {
    TrimUnfold(x);
    TrimEndAppend(u, w2);
  }

  lemma SpaceRunAround(w1: string, s: string, w2: string, k: nat)
    requires forall i :: 0 <= i < |w1| ==> IsSpace(w1[i])
    requires k < |s| && !IsSpace(s[k])
    ensures SpaceRun(w1 + s + w2) == |w1| + SpaceRun(s)
  {
    SpaceRunAppend(s, w2, k);
    SpaceRunPrepend(w1, s + w2);
    assert w1 + s + w2 == w1 + (s + w2);
  }

  lemma AllSpaces3(a: string, b: string, c: string)
    requires forall i :: 0 <= i < |a| ==> IsSpace(a[i])
    requires forall i :: 0 <= i < |b| ==> IsSpace(b[i])
    requires forall i :: 0 <= i < |c| ==> IsSpace(c[i])
    ensures forall i :: 0 <= i < |a + b + c| ==> IsSpace((a + b + c)[i])
  {
    var x := a + b + c;
    forall i | 0 <= i < |x| ensures IsSpace(x[i]) {
      if i < |a| { assert x[i] == a[i]; }
      else if i < |a| + |b| { assert x[i] == b[i - |a|]; }
      else { assert x[i] == c[i - |a| - |b|]; }
    }
  }

  lemma TrimUnfold(s: string)
    ensures Trim(s) == TrimEnd(s[SpaceRun(s)..])
  {
  }

  /** Between two words, any run of two or more whitespace characters gives
      the same key as a single space. */
  lemma NormalizeInnerRun(x: string, run: string, y: string)
    requires x != [] && !IsSpace(x[0]) && !IsSpace(x[|x| - 1])
    requires y != [] && !IsSpace(y[0]) && !IsSpace(y[|y| - 1])
    requires |run| >= 2 && forall i :: 0 <= i < |run| ==> IsSpace(run[i])
    ensures Normalize(x + run + y) == Normalize(x + " " + y)
  {
    var lx, lr, ly := LowerAll(x), LowerAll(run), LowerAll(y);
    LowerKeepsEdges(x);
    LowerKeepsEdges(y);
    LowerKeepsRun(run);
    calc {
      Normalize(x + run + y);
      { TrimBetweenWords(x, run, y); }
      Collapse(LowerAll(x + run + y));
      { LowerAllAppend3(x, run, y); }
      Collapse(lx + lr + ly);
      { CollapseInnerRun(lx, lr, ly); }
      Collapse(lx + " " + ly);
      { LowerAllAppend3(x, " ", y); assert LowerAll(" ") == " "; }
      Collapse(LowerAll(x + " " + y));
      { TrimBetweenWords(x, " ", y); }
      Normalize(x + " " + y);
    }
  }

  lemma TrimBetweenWords(x: string, m: string, y: string)
    requires x != [] && !IsSpace(x[0])
    requires y != [] && !IsSpace(y[|y| - 1])
    ensures Trim(x + m + y) == x + m + y
  {
    var a := x + m + y;
    assert a[0] == x[0] && a[|a| - 1] == y[|y| - 1];
    TrimFixed(a);
  }

  lemma LowerKeepsEdges(t: string)
    requires t != []
    ensures IsSpace(LowerAll(t)[0]) <==> IsSpace(t[0])
    ensures IsSpace(LowerAll(t)[|t| - 1]) <==> IsSpace(t[|t| - 1])
  {
    LowerFacts(t[0]);
    LowerFacts(t[|t| - 1]);
  }

  lemma LowerKeepsRun(run: string)
    requires forall i :: 0 <= i < |run| ==> IsSpace(run[i])
    ensures forall i :: 0 <= i < |run| ==> IsSpace(LowerAll(run)[i])
  {
    forall i | 0 <= i < |run| ensures IsSpace(LowerAll(run)[i]) {
      LowerFacts(run[i]);
    }
  }

  lemma LowerAllAppend3(a: string, b: string, c: string)
    ensures LowerAll(a + b + c) == LowerAll(a) + LowerAll(b) + LowerAll(c)
  {
    LowerAllAppend(a + b, c);
    LowerAllAppend(a, b);
  }

  lemma LowerAllAppend(a: string, b: string)
    ensures LowerAll(a + b) == LowerAll(a) + LowerAll(b)
  {
    var l, la, lb := LowerAll(a + b), LowerAll(a), LowerAll(b);
    var r := la + lb;
    assert |l| == |r|;
    forall i | 0 <= i < |l| ensures l[i] == r[i] {
      if i < |a| {
        calc {
          l[i];
          Lower((a + b)[i]);
          { assert (a + b)[i] == a[i]; }
          Lower(a[i]);
          la[i];
          r[i];
        }
      } else {
        var j := i - |a|;
        calc {
          l[i];
          Lower((a + b)[i]);
          { assert (a + b)[i] == b[j]; }
          Lower(b[j]);
          lb[j];
          r[i];
        }
      }
    }
  }

  lemma LowerAllIdempotent(t: string)
    ensures LowerAll(LowerAll(t)) == LowerAll(t)
  {
    var lt := LowerAll(t);
    forall i | 0 <= i < |t| ensures LowerAll(lt)[i] == lt[i] {
      LowerFacts(t[i]);
    }
  }

  /** The collapsing step at the level of one inner run. */
  lemma CollapseInnerRun(x: string, run: string, y: string)
    requires x != [] && !IsSpace(x[|x| - 1])
    requires y != [] && !IsSpace(y[0])
    requires |run| >= 2 && forall i :: 0 <= i < |run| ==> IsSpace(run[i])
    ensures Collapse(x + run + y) == Collapse(x + " " + y)
  {
    calc {
      Collapse(x + run + y);
      { AppendAssoc(x, run, y); }
      Collapse(x + (run + y));
      { CollapseSplit(x, run + y); }
      Collapse(x) + Collapse(run + y);
      { CollapseRunHead(run, y); CollapseRunHead(" ", y); }
      Collapse(x) + Collapse(" " + y);
      { CollapseSplit(x, " " + y); }
      Collapse(x + (" " + y));
      { AppendAssoc(x, " ", y); }
      Collapse(x + " " + y);
    }
  }

  /** A whitespace run in front of a word collapses to one blank. */
  lemma CollapseRunHead(run: string, y: string)
    requires y != [] && !IsSpace(y[0])
    requires |run| >= 1 && forall i :: 0 <= i < |run| ==> IsSpace(run[i])
    ensures Collapse(run + y) == (if |run| >= 2 then [' '] else run) + Collapse(y)
  {
    SpaceRunPrepend(run, y);
    assert SpaceRun(y) == 0;
    assert (run + y)[|run|..] == y;
    assert (run + y)[0] == run[0];
    assert |run| == 1 ==> run == [run[0]];
  }

  /** A whitespace run of two or more at the end of the text also becomes one
      space. */
  lemma CollapseTrailingRun(x: string, run: string)
    requires x != [] && !IsSpace(x[|x| - 1])
    requires |run| >= 2 && forall i :: 0 <= i < |run| ==> IsSpace(run[i])
    ensures Collapse(x + run) == Collapse(x) + " "
  {
    CollapseSplit(x, run);
    assert SpaceRun(run) == |run|;
    assert run[|run|..] == [];
  }

  /** Collapsing works piece by piece across a boundary after a non-space. */
  lemma {:induction false} CollapseSplit(x: string, z: string)
    requires x != [] && !IsSpace(x[|x| - 1])
    ensures Collapse(x + z) == Collapse(x) + Collapse(z)
    decreases |x|
  {
    var k, head := CollapseStepAppend(x, z);
    var rest := x[k..];
    var cr, cz := Collapse(rest), Collapse(z);
    assert Collapse(rest + z) == cr + cz by {
      if k < |x| {
        assert rest[|rest| - 1] == x[|x| - 1];
        CollapseSplit(rest, z);
      } else {
        assert rest == [];
        assert rest + z == z && cr == [] && cr + cz == cz;
      }
    }
    calc {
      Collapse(x + z);
      head + Collapse(rest + z);
      head + (cr + cz);
      { AppendAssoc(head, cr, cz); }
      (head + cr) + cz;
      Collapse(x) + cz;
    }
  }

  /** One step of the scan, taken inside x, is the same step for x + z: it
      consumes the first k characters and emits head. */
  lemma CollapseStepAppend(x: string, z: string) returns (k: nat, head: string)
    requires x != [] && !IsSpace(x[|x| - 1])
    ensures 1 <= k <= |x|
    ensures Collapse(x) == head + Collapse(x[k..])
    ensures Collapse(x + z) == head + Collapse(x[k..] + z)
  {
    var n := SpaceRun(x);
    assert SpaceRun(x + z) == n by {
      SpaceRunAppend(x, z, |x| - 1);
    }
    k := if n >= 2 then n else 1;
    head := if n >= 2 then [' '] else [x[0]];
    assert (x + z)[k..] == x[k..] + z;
  }

  /** Leading whitespace adds to the leading run. */
  lemma {:induction false} SpaceRunPrepend(w: string, s: string)
    requires forall i :: 0 <= i < |w| ==> IsSpace(w[i])
    ensures SpaceRun(w + s) == |w| + SpaceRun(s)
    decreases |w|
  {
    if w == [] {
      assert w + s == s;
    } else {
      assert (w + s)[1..] == w[1..] + s;
      SpaceRunPrepend(w[1..], s);
    }
  }

  /** A leading run that ends inside the string is not affected by what
      follows the string. */
  lemma {:induction false} SpaceRunAppend(s: string, z: string, k: nat)
    requires k < |s| && !IsSpace(s[k])
    ensures SpaceRun(s + z) == SpaceRun(s)
    decreases |s|
  {
    if IsSpace(s[0]) {
      assert (s + z)[1..] == s[1..] + z;
      SpaceRunAppend(s[1..], z, k - 1);
    }
  }

  /** Trailing whitespace is dropped by TrimEnd. */
  lemma {:induction false} TrimEndAppend(s: string, w: string)
    requires forall i :: 0 <= i < |w| ==> IsSpace(w[i])
    ensures TrimEnd(s + w) == TrimEnd(s)
    decreases |w|
  {
    if w == [] {
      assert s + w == s;
    } else {
      var sw := s + w;
      assert sw[..|sw| - 1] == s + w[..|w| - 1];
      TrimEndAppend(s, w[..|w| - 1]);
    }
  }

  /** Trim leaves a string without whitespace at its ends as it is. */
  lemma TrimFixed(t: string)
    requires t != [] ==> !IsSpace(t[0]) && !IsSpace(t[|t| - 1])
    ensures Trim(t) == t
  {
    assert SpaceRun(t) == 0;
    assert t[0..] == t;
  }

  /** Trimming and lower-casing commute, since lower-casing keeps whitespace. */
  lemma TrimLowerAll(s: string)
    ensures Trim(LowerAll(s)) == LowerAll(Trim(s))
  {
    var ls := LowerAll(s);
    forall i | 0 <= i < |s| ensures IsSpace(ls[i]) <==> IsSpace(s[i]) {
      LowerFacts(s[i]);
    }
    SpaceRunLowerAll(s);
    var n := SpaceRun(s);
    assert ls[n..] == LowerAll(s[n..]);
    TrimEndLowerAll(s[n..]);
  }

  lemma {:induction false} SpaceRunLowerAll(s: string)
    ensures SpaceRun(LowerAll(s)) == SpaceRun(s)
    decreases |s|
  {
    if s != [] {
      LowerFacts(s[0]);
      assert LowerAll(s)[1..] == LowerAll(s[1..]);
      SpaceRunLowerAll(s[1..]);
    }
  }

  lemma {:induction false} TrimEndLowerAll(s: string)
    ensures TrimEnd(LowerAll(s)) == LowerAll(TrimEnd(s))
    decreases |s|
  {
    if s != [] {
      LowerFacts(s[|s| - 1]);
      assert LowerAll(s)[..|s| - 1] == LowerAll(s[..|s| - 1]);
      TrimEndLowerAll(s[..|s| - 1]);
    }
  }

  // Plain facts about sequence concatenation. They say nothing about queries;
  // the proofs above call them so that each step stays small for the solver.

  lemma LastOfAppend(a: string, b: string)
    requires b != []
    ensures (a + b)[|a + b| - 1] == b[|b| - 1]
  {
  }

  lemma DropAround(w1: string, s: string, w2: string, n: nat)
    requires n <= |s|
    ensures (w1 + s + w2)[|w1| + n..] == s[n..] + w2
  {
  }

  lemma AppendAssoc(a: string, b: string, c: string)
    ensures a + (b + c) == (a + b) + c
  {
  }
}
