/** White-space normalization of a message text after a link was cut out. */
module TextNormal {
  import opened Common
  import opened LinkScan

  predicate IsBlank(c: char) { c == ' ' || c == '\t' }

  function BlankRun(s: string): (n: nat)
    ensures n <= |s|
    ensures n < |s| ==> !IsBlank(s[n])
  {
    if s == [] || !IsBlank(s[0]) then 0 else 1 + BlankRun(s[1..])
  }

  function SpaceRun(s: string): (n: nat)
    ensures n <= |s|
    ensures n > 0 <==> s != [] && IsSpace(s[0])
  {
    if s == [] || !IsSpace(s[0]) then 0 else 1 + SpaceRun(s[1..])
  }

  /** Two or more blanks become one space. */
  function Collapse(s: string): string
    decreases |s|
  {
    if s == [] then []
    else if BlankRun(s) >= 2 then [' '] + Collapse(s[BlankRun(s)..])
    else [s[0]] + Collapse(s[1..])
  }

  /** A run of white space with a line break in it becomes one line break. */
  function TightenBreaks(s: string): string
    decreases |s|
  {
    if s == [] then []
    else if SpaceRun(s) > 0 && '\n' in s[..SpaceRun(s)] then ['\n'] + TightenBreaks(s[SpaceRun(s)..])
    else [s[0]] + TightenBreaks(s[1..])
  }

  function TrimStart(s: string): string { if s == [] || !IsSpace(s[0]) then s else TrimStart(s[1..]) }

  function TrimEnd(s: string): string
    decreases |s|
  {
    if s == [] || !IsSpace(s[|s| - 1]) then s else TrimEnd(s[..|s| - 1])
  }

  function Normalize(s: string): string { TrimEnd(TrimStart(TightenBreaks(Collapse(s)))) }

  // ---- What normalization keeps -----------------------------------------------------------------------

  /** The word list of a text with one more character in front. */
  function Attach(c: char, glued: bool, words: seq<string>): seq<string> {
    if glued && words != [] then [[c] + words[0]] + words[1..] else [[c]] + words
  }

  lemma WordsOfSpace(c: char, x: string)
    requires IsSpace(c)
    ensures Words([c] + x) == Words(x)
  {
    assert ([c] + x)[1..] == x;
  }

  lemma WordsOfInk(c: char, x: string)
    requires !IsSpace(c)
    ensures Words([c] + x) == Attach(c, StartsInk(x), Words(x))
  {
    var s, n := [c] + x, Run(x);
    assert s[1..] == x;
    assert s[..n + 1] == [c] + x[..n] && s[n + 1..] == x[n..];
    assert Run(s) == n + 1;
    assert Words(s) == [[c] + x[..n]] + Words(x[n..]);
    if n > 0 {
      assert Words(x) == [x[..n]] + Words(x[n..]);
    } else {
      assert x[..0] == [] && x[0..] == x;
    }
  }

  ghost predicate SameWords(a: string, b: string) {
    Words(a) == Words(b) && (StartsInk(a) <==> StartsInk(b))
  }

  lemma PrependSame(c: char, a: string, b: string)
    requires SameWords(a, b)
    ensures SameWords([c] + a, [c] + b)
  {
    if IsSpace(c) {
      WordsOfSpace(c, a);
      WordsOfSpace(c, b);
    } else {
      WordsOfInk(c, a);
      WordsOfInk(c, b);
    }
  }

  lemma {:induction false} GapVanishes(s: string, n: nat)
    requires 0 < n <= |s| && forall i :: 0 <= i < n ==> IsSpace(s[i])
    ensures Words(s) == Words(s[n..]) && !StartsInk(s)
  {
    assert s == [s[0]] + s[1..];
    WordsOfSpace(s[0], s[1..]);
    if n == 1 {
    } else {
      GapVanishes(s[1..], n - 1);
      assert s[1..][n - 1..] == s[n..];
    }
  }

  lemma ReplaceGap(s: string, n: nat, c: char, rest: string)
    requires 0 < n <= |s| && (forall i :: 0 <= i < n ==> IsSpace(s[i])) && IsSpace(c) && SameWords(rest, s[n..])
    ensures SameWords([c] + rest, s)
  {
    GapVanishes(s, n);
    WordsOfSpace(c, rest);
  }

  lemma {:induction false} BlankRunIsSpace(s: string)
    ensures forall i :: 0 <= i < BlankRun(s) ==> IsSpace(s[i])
  {
    if BlankRun(s) == 0 {
    } else {
      BlankRunIsSpace(s[1..]);
    }
  }

  lemma {:induction false} SpaceRunIsSpace(s: string)
    ensures forall i :: 0 <= i < SpaceRun(s) ==> IsSpace(s[i])
  {
    if SpaceRun(s) == 0 {
    } else {
      SpaceRunIsSpace(s[1..]);
    }
  }

  lemma {:induction false} CollapseSame(s: string)
    ensures SameWords(Collapse(s), s)
    decreases |s|
  {
    if s == [] {
    } else if BlankRun(s) >= 2 {
      CollapseSame(s[BlankRun(s)..]);
      BlankRunIsSpace(s);
      ReplaceGap(s, BlankRun(s), ' ', Collapse(s[BlankRun(s)..]));
    } else {
      CollapseSame(s[1..]);
      PrependSame(s[0], Collapse(s[1..]), s[1..]);
      assert s == [s[0]] + s[1..];
    }
  }

  lemma {:induction false} TightenSame(s: string)
    ensures SameWords(TightenBreaks(s), s)
    decreases |s|
  {
    if s == [] {
    } else if SpaceRun(s) > 0 && '\n' in s[..SpaceRun(s)] {
      TightenSame(s[SpaceRun(s)..]);
      SpaceRunIsSpace(s);
      ReplaceGap(s, SpaceRun(s), '\n', TightenBreaks(s[SpaceRun(s)..]));
    } else {
      TightenSame(s[1..]);
      PrependSame(s[0], TightenBreaks(s[1..]), s[1..]);
      assert s == [s[0]] + s[1..];
    }
  }

  lemma {:induction false} TrimStartKeeps(s: string)
    ensures Words(TrimStart(s)) == Words(s)
    ensures TrimStart(s) == [] || StartsInk(TrimStart(s))
  {
    if s == [] || !IsSpace(s[0]) {
    } else {
      TrimStartKeeps(s[1..]);
      WordsOfSpace(s[0], s[1..]);
      assert s == [s[0]] + s[1..];
    }
  }

  lemma {:induction false} TrimEndKeeps(s: string)
    ensures Words(TrimEnd(s)) == Words(s)
    ensures StartsInk(s) ==> StartsInk(TrimEnd(s))
    ensures s == [] ==> TrimEnd(s) == []
    decreases |s|
  {
    if s == [] || !IsSpace(s[|s| - 1]) {
    } else {
      TrimEndKeeps(s[..|s| - 1]);
      WithoutLastSpace(s);
    }
  }

  lemma WithoutLastSpace(s: string)
    requires s != [] && IsSpace(s[|s| - 1])
    ensures Words(s[..|s| - 1]) == Words(s)
    ensures StartsInk(s) ==> StartsInk(s[..|s| - 1])
  {
    var front, last := s[..|s| - 1], s[|s| - 1..];
    assert s == front + last;
    WordsSplit(front, last);
    assert last == [s[|s| - 1]] + [];
    WordsOfSpace(s[|s| - 1], []);
  }

  /** Normalizing keeps every word and their order, and leaves the empty text when there is no word. */
  lemma NormalizeKeepsWords(s: string)
    ensures Words(Normalize(s)) == Words(s)
    ensures Normalize(s) == [] <==> Words(s) == []
  {
    CollapseSame(s);
    TightenSame(Collapse(s));
    var t := TightenBreaks(Collapse(s));
    TrimStartKeeps(t);
    TrimEndKeeps(TrimStart(t));
    if Normalize(s) != [] {
      assert StartsInk(Normalize(s));
    }
  }

  // ---- The normal form, gap by gap -----------------------------------------------------------------------

  predicate EndsInk(s: string) { s != [] && !IsSpace(s[|s| - 1]) }

  lemma {:induction false} BlankRunStops(a: string, b: string)
    requires a != [] && (b == [] || !IsBlank(b[0]) || !IsBlank(a[|a| - 1]))
    ensures BlankRun(a + b) == BlankRun(a)
  {
    if !IsBlank(a[0]) {
    } else {
      assert (a + b)[1..] == a[1..] + b;
      if |a| > 1 {
        BlankRunStops(a[1..], b);
      } else {
        assert a[1..] + b == b;
      }
    }
  }

  /** No run of blanks crosses the seam: both sides collapse on their own. */
  lemma {:induction false} CollapseSplit(a: string, b: string)
    requires a == [] || b == [] || !IsBlank(a[|a| - 1]) || !IsBlank(b[0])
    ensures Collapse(a + b) == Collapse(a) + Collapse(b)
    decreases |a|
  {
    if a == [] {
      assert a + b == b;
    } else {
      BlankRunStops(a, b);
      var n := if BlankRun(a) >= 2 then BlankRun(a) else 1;
      assert (a + b)[n..] == a[n..] + b;
      CollapseSplit(a[n..], b);
      var first := if BlankRun(a) >= 2 then " " else [a[0]];
      Regroup(first, Collapse(a[n..]), Collapse(b));
    }
  }

  lemma {:induction false} SpaceRunStops(a: string, b: string)
    requires a != [] && (b == [] || !IsSpace(b[0]) || !IsSpace(a[|a| - 1]))
    ensures SpaceRun(a + b) == SpaceRun(a)
  {
    if !IsSpace(a[0]) {
    } else {
      assert (a + b)[1..] == a[1..] + b;
      if |a| > 1 {
        SpaceRunStops(a[1..], b);
      } else {
        assert a[1..] + b == b;
      }
    }
  }

  function TightenHead(s: string): string
    requires s != []
  {
    if SpaceRun(s) > 0 && '\n' in s[..SpaceRun(s)] then "\n" else [s[0]]
  }

  lemma TightenStep(s: string, n: nat)
    requires s != [] && n == if SpaceRun(s) > 0 && '\n' in s[..SpaceRun(s)] then SpaceRun(s) else 1
    ensures TightenBreaks(s) == TightenHead(s) + TightenBreaks(s[n..])
  {
  }

  lemma {:induction false} TightenSplit(a: string, b: string)
    requires a == [] || b == [] || !IsSpace(a[|a| - 1]) || !IsSpace(b[0])
    ensures TightenBreaks(a + b) == TightenBreaks(a) + TightenBreaks(b)
    decreases |a|
  {
    if a == [] {
      assert a + b == b;
    } else {
      SpaceRunStops(a, b);
      assert (a + b)[..SpaceRun(a)] == a[..SpaceRun(a)];
      var n := if SpaceRun(a) > 0 && '\n' in a[..SpaceRun(a)] then SpaceRun(a) else 1;
      assert (a + b)[n..] == a[n..] + b;
      TightenSplit(a[n..], b);
      TightenStep(a, n);
      TightenStep(a + b, n);
      Regroup(TightenHead(a), TightenBreaks(a[n..]), TightenBreaks(b));
    }
  }

  lemma {:induction false} TrimStartSplit(a: string, b: string)
    requires EndsInk(a)
    ensures TrimStart(a + b) == TrimStart(a) + b && EndsInk(TrimStart(a))
  {
    if IsSpace(a[0]) {
      assert (a + b)[1..] == a[1..] + b;
      TrimStartSplit(a[1..], b);
    }
  }

  lemma {:induction false} TrimEndSplit(a: string, b: string)
    requires StartsInk(b)
    ensures TrimEnd(a + b) == a + TrimEnd(b) && StartsInk(TrimEnd(b))
    decreases |b|
  {
    if IsSpace(b[|b| - 1]) {
      assert (a + b)[..|a + b| - 1] == a + b[..|b| - 1];
      TrimEndSplit(a, b[..|b| - 1]);
    }
  }

  /** The two replacements of the source, before the text is trimmed. */
  function Tightened(s: string): string { TightenBreaks(Collapse(s)) }

  lemma TightenedEnds(s: string)
    ensures EndsInk(s) ==> EndsInk(Collapse(s)) && EndsInk(Tightened(s))
    ensures StartsInk(s) ==> StartsInk(Collapse(s)) && StartsInk(Tightened(s))
  {
    CollapseSame(s);
    TightenSame(Collapse(s));
    if EndsInk(s) {
      var front, last := s[..|s| - 1], s[|s| - 1..];
      assert s == front + last && last == [s[|s| - 1]];
      CollapseSplit(front, last);
      assert last[1..] == [] && Collapse(last) == last;
      assert Collapse(s) == Collapse(front) + last;
      TightenSplit(Collapse(front), last);
      assert TightenBreaks(last) == last;
    }
  }

  lemma CollapseJoins(a: string, gap: string, b: string)
    requires EndsInk(a) && StartsInk(b)
    ensures Collapse(a + (gap + b)) == Collapse(a) + (Collapse(gap) + Collapse(b))
  {
    CollapseSplit(gap, b);
    CollapseSplit(a, gap + b);
  }

  lemma TightenJoins(a: string, gap: string, b: string)
    requires EndsInk(a) && StartsInk(b)
    ensures TightenBreaks(a + (gap + b)) == TightenBreaks(a) + (TightenBreaks(gap) + TightenBreaks(b))
  {
    TightenSplit(gap, b);
    TightenSplit(a, gap + b);
  }

  lemma TightenedSplit(a: string, gap: string, b: string)
    requires EndsInk(a) && StartsInk(b)
    ensures Tightened(a + (gap + b)) == Tightened(a) + (Tightened(gap) + Tightened(b))
  {
    TightenedEnds(a);
    TightenedEnds(b);
    CollapseJoins(a, gap, b);
    TightenJoins(Collapse(a), Collapse(gap), Collapse(b));
  }

  lemma TrimJoins(x: string, gap: string, y: string)
    requires EndsInk(x) && StartsInk(y)
    ensures TrimEnd(TrimStart(x + (gap + y))) == TrimEnd(TrimStart(x)) + (gap + TrimEnd(TrimStart(y)))
  {
    TrimStartSplit(x, gap + y);
    var left := TrimStart(x);
    Regroup(left, gap, y);
    TrimEndSplit(left + gap, y);
    Regroup(left, gap, TrimEnd(y));
  }

  /** Between two words, the white space is replaced on its own, and the texts on both sides on theirs. */
  lemma NormalizeJoins(a: string, gap: string, b: string)
    requires EndsInk(a) && StartsInk(b)
    ensures Normalize(a + (gap + b)) == Normalize(a) + (Tightened(gap) + Normalize(b))
  {
    TightenedSplit(a, gap, b);
    TightenedEnds(a);
    TightenedEnds(b);
    TrimJoins(Tightened(a), Tightened(gap), Tightened(b));
  }

  /** White space around the text goes. */
  lemma NormalizeTrims(before: string, s: string, after: string)
    requires StartsInk(s) && EndsInk(s)
    requires AllSpace(before) && AllSpace(after)
    ensures Normalize(before + (s + after)) == Normalize(s) == Tightened(s)
  {
    TightenedEnds(s);
    CollapseSplit(s, after);
    CollapseSplit(before, s + after);
    var b, x, e := Collapse(before), Collapse(s), Collapse(after);
    TightenSplit(x, e);
    TightenSplit(b, x + e);
    SpaceStays(before);
    SpaceStays(after);
    TrimStartDrops(Tightened(before), Tightened(s) + Tightened(after));
    TrimEndDrops(Tightened(s), Tightened(after));
    assert TrimStart(Tightened(s)) == Tightened(s) && TrimEnd(Tightened(s)) == Tightened(s);
  }

  ghost predicate AllSpace(s: string) { forall i :: 0 <= i < |s| ==> IsSpace(s[i]) }

  lemma SpaceStays(s: string)
    requires AllSpace(s)
    ensures AllSpace(Collapse(s)) && AllSpace(Tightened(s))
  {
    CollapseSame(s);
    TightenSame(Collapse(s));
    if s != [] {
      GapVanishes(s, |s|);
    }
    NoWordsNoInk(Collapse(s));
    NoWordsNoInk(Tightened(s));
  }

  lemma {:induction false} NoWordsNoInk(s: string)
    requires Words(s) == []
    ensures AllSpace(s)
    decreases |s|
  {
    if s == [] {
    } else {
      NoWordsNoInk(s[1..]);
    }
  }

  lemma {:induction false} TrimStartDrops(gap: string, s: string)
    requires AllSpace(gap) && StartsInk(s)
    ensures TrimStart(gap + s) == s
  {
    if gap == [] {
      assert gap + s == s;
    } else {
      assert (gap + s)[1..] == gap[1..] + s;
      TrimStartDrops(gap[1..], s);
    }
  }

  lemma {:induction false} TrimEndDrops(s: string, gap: string)
    requires AllSpace(gap) && EndsInk(s)
    ensures TrimEnd(s + gap) == s
    decreases |gap|
  {
    if gap == [] {
      assert s + gap == s;
    } else {
      assert (s + gap)[..|s + gap| - 1] == s + gap[..|gap| - 1];
      TrimEndDrops(s, gap[..|gap| - 1]);
    }
  }

  lemma {:induction false} AllBlankRun(s: string)
    requires forall i :: 0 <= i < |s| ==> IsBlank(s[i])
    ensures BlankRun(s) == |s|
  {
    if s == [] {
    } else {
      AllBlankRun(s[1..]);
    }
  }

  lemma {:induction false} AllSpaceRun(s: string)
    requires AllSpace(s)
    ensures SpaceRun(s) == |s|
  {
    if s == [] {
    } else {
      AllSpaceRun(s[1..]);
    }
  }

  lemma SpaceTightens(s: string)
    requires AllSpace(s)
    ensures '\n' in s ==> TightenBreaks(s) == "\n"
    ensures '\n' !in s ==> TightenBreaks(s) == s
  {
    AllSpaceRun(s);
    assert s[..|s|] == s && s[|s|..] == [];
    if '\n' !in s {
      NoBreaksTighten(s);
    }
  }

  lemma {:induction false} NoBreaksTighten(s: string)
    requires '\n' !in s
    ensures TightenBreaks(s) == s
    decreases |s|
  {
    if s == [] {
    } else {
      NoBreaksTighten(s[1..]);
      assert s == [s[0]] + s[1..];
    }
  }

  lemma BlanksCollapse(s: string)
    requires |s| > 1 && forall i :: 0 <= i < |s| ==> IsBlank(s[i])
    ensures Collapse(s) == " "
  {
    AllBlankRun(s);
    assert s[|s|..] == [];
  }

  /** One blank stays; more of them become one space; and a gap with a line break in it becomes one line break. */
  lemma GapsBecome(gap: string)
    requires AllSpace(gap)
    ensures '\n' in gap ==> Tightened(gap) == "\n"
    ensures |gap| == 1 && '\n' !in gap ==> Tightened(gap) == gap
    ensures |gap| > 1 && (forall i :: 0 <= i < |gap| ==> gap[i] in " \t") ==> Tightened(gap) == " "
  {
    SpaceStays(gap);
    SpaceTightens(Collapse(gap));
    CollapseKeepsBreaks(gap);
    if |gap| == 1 {
      assert gap[1..] == [] && gap == [gap[0]];
      assert Collapse(gap) == gap;
    }
    if |gap| > 1 && forall i :: 0 <= i < |gap| ==> gap[i] in " \t" {
      BlanksCollapse(gap);
    }
  }

  lemma {:induction false} CollapseKeepsBreaks(s: string)
    ensures '\n' in Collapse(s) <==> '\n' in s
    decreases |s|
  {
    if s == [] {
    } else if BlankRun(s) >= 2 {
      CollapseKeepsBreaks(s[BlankRun(s)..]);
      BlankRunIsBlank(s);
      assert s == s[..BlankRun(s)] + s[BlankRun(s)..];
    } else {
      CollapseKeepsBreaks(s[1..]);
      assert s == [s[0]] + s[1..];
    }
  }

  lemma {:induction false} BlankRunIsBlank(s: string)
    ensures forall i :: 0 <= i < BlankRun(s) ==> IsBlank(s[i])
  {
    if BlankRun(s) == 0 {
    } else {
      BlankRunIsBlank(s[1..]);
    }
  }

  lemma {:induction false} InkCollapses(w: string)
    requires AllInk(w)
    ensures Collapse(w) == w
    decreases |w|
  {
    if w == [] {
    } else {
      InkCollapses(w[1..]);
      assert w == [w[0]] + w[1..];
    }
  }

  /** A word stays as it is. */
  lemma WordsStay(w: string)
    requires AllInk(w)
    ensures Normalize(w) == w
  {
    InkCollapses(w);
    NoBreaksTighten(w);
    if w != [] {
      NormalizeTrims([], w, []);
      assert [] + (w + []) == w;
    }
  }
}
