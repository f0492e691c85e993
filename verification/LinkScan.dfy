/** Scanning a text for the matches of a pattern that runs to the end of a word. */
module LinkScan {
  import opened Common

  // ---- White space --------------------------------------------------------------------------------

  /** The `\s` class of JavaScript, which `trim` uses too. */
  predicate IsSpace(c: char) {
    || c == ' ' || '\t' <= c <= '\r' || c == '\U{a0}' || c == '\U{1680}' || '\U{2000}' <= c <= '\U{200a}'
    || c == '\U{2028}' || c == '\U{2029}' || c == '\U{202f}' || c == '\U{205f}' || c == '\U{3000}' || c == '\U{feff}'
  }

  predicate StartsInk(s: string) { s != [] && !IsSpace(s[0]) }

  predicate AllInk(s: string) { forall i :: 0 <= i < |s| ==> !IsSpace(s[i]) }

  /** How many characters before the first white space. */
  function Run(s: string): (n: nat)
    ensures n <= |s|
    ensures StartsInk(s) <==> n > 0
  {
    if StartsInk(s) then 1 + Run(s[1..]) else 0
  }

  lemma {:induction false} RunStops(s: string)
    ensures AllInk(s[..Run(s)]) && !StartsInk(s[Run(s)..])
  {
    if !StartsInk(s) {
    } else {
      RunStops(s[1..]);
      assert s[..Run(s)] == [s[0]] + s[1..][..Run(s[1..])];
      assert s[Run(s)..] == s[1..][Run(s[1..])..];
    }
  }

  lemma {:induction false} RunCovers(s: string, n: nat)
    requires n <= |s| && forall i :: 0 <= i < n ==> !IsSpace(s[i])
    ensures Run(s) >= n
  {
    if n == 0 {
    } else {
      RunCovers(s[1..], n - 1);
    }
  }

  lemma RunOfInk(w: string)
    requires AllInk(w)
    ensures Run(w) == |w| && w[..|w|] == w && w[|w|..] == []
  {
    RunCovers(w, |w|);
  }

  // ---- Patterns and matches ----------------------------------------------------------------------------

  /**
   * A pattern says whether a match begins at the start of a text.  It looks at the leading word only, and
   * lengthening that word keeps the match.
   */
  ghost predicate WordPattern(here: string -> bool) { forall s, t :: RegularAt(here, s, t) }

  ghost predicate RegularAt(here: string -> bool, s: string, t: string) {
    && (here(s) ==> StartsInk(s))
    && (here(s) <==> here(s[..Run(s)]))
    && (here(s) && AllInk(t) ==> here(s + t))
  }

  datatype Link = Link(start: nat, url: string)

  function Shift(links: seq<Link>, offset: nat): (r: seq<Link>)
    ensures |r| == |links|
  {
    seq(|links|, i requires 0 <= i < |links| => Link(links[i].start + offset, links[i].url))
  }

  function ScanStep(here: string -> bool, s: string): (n: nat)
    requires s != []
    ensures 0 < n <= |s|
  {
    if here(s) && StartsInk(s) then Run(s) else 1
  }

  function FirstMatch(here: string -> bool, s: string): seq<Link> {
    if here(s) && StartsInk(s) then [Link(0, s[..Run(s)])] else []
  }

  /** `matchAll`: the matches from left to right, each reaching to the end of its word, none inside another. */
  function Matches(here: string -> bool, s: string): seq<Link>
    decreases |s|
  {
    if s == [] then []
    else FirstMatch(here, s) + Shift(Matches(here, s[ScanStep(here, s)..]), ScanStep(here, s))
  }

  function Urls(here: string -> bool, s: string): seq<string> { UrlsOf(Matches(here, s)) }

  function UrlsOf(links: seq<Link>): (r: seq<string>)
    ensures |r| == |links|
  {
    seq(|links|, i requires 0 <= i < |links| => links[i].url)
  }

  // ---- Splitting at white space ------------------------------------------------------------------------

  /** No word runs across the seam between `a` and `b`. */
  predicate Boundary(a: string, b: string) {
    a == [] || IsSpace(a[|a| - 1]) || !StartsInk(b)
  }

  lemma BoundaryLater(a: string, b: string, n: nat)
    requires Boundary(a, b) && n <= |a|
    ensures Boundary(a[n..], b)
    ensures (a + b)[n..] == a[n..] + b && (a + b)[..n] == a[..n]
  {
  }

  lemma {:induction false} RunAtBoundary(a: string, b: string)
    requires Boundary(a, b) && a != []
    ensures Run(a + b) == Run(a)
  {
    if StartsInk(a) {
      BoundaryLater(a, b, 1);
      if |a| > 1 {
        RunAtBoundary(a[1..], b);
      } else {
        assert (a + b)[1..] == b;
      }
    }
  }

  lemma StepAtBoundary(here: string -> bool, a: string, b: string)
    requires WordPattern(here) && Boundary(a, b) && a != []
    ensures FirstMatch(here, a + b) == FirstMatch(here, a) && ScanStep(here, a + b) == ScanStep(here, a)
  {
    RunAtBoundary(a, b);
    var n := Run(a);
    assert (a + b)[..n] == a[..n];
    assert RegularAt(here, a + b, []) && RegularAt(here, a, []);
  }

  lemma ShiftAppend(a: seq<Link>, b: seq<Link>, offset: nat, more: nat)
    ensures Shift(a + Shift(b, more), offset) == Shift(a, offset) + Shift(b, offset + more)
  {
  }

  lemma Combine(first: seq<Link>, rest: seq<Link>, b: seq<Link>, both: seq<Link>, offset: nat, more: nat, total: nat)
    requires both == rest + Shift(b, more) && total == offset + more
    ensures first + Shift(both, offset) == (first + Shift(rest, offset)) + Shift(b, total)
  {
    ShiftAppend(rest, b, offset, more);
    Regroup(first, Shift(rest, offset), Shift(b, offset + more));
  }

  lemma MatchesOfSplit(here: string -> bool, a: string, b: string, n: nat)
    requires a != [] && n == ScanStep(here, a) == ScanStep(here, a + b)
    requires FirstMatch(here, a + b) == FirstMatch(here, a)
    requires (a + b)[n..] == a[n..] + b
    ensures Matches(here, a + b) == FirstMatch(here, a) + Shift(Matches(here, a[n..] + b), n)
    ensures Matches(here, a) == FirstMatch(here, a) + Shift(Matches(here, a[n..]), n)
  {
  }

  /** At a boundary the matches are those of the two sides. */
  lemma {:induction false} MatchesSplit(here: string -> bool, a: string, b: string)
    requires WordPattern(here) && Boundary(a, b)
    ensures Matches(here, a + b) == Matches(here, a) + Shift(Matches(here, b), |a|)
    decreases |a|
  {
    if a == [] {
      assert a + b == b;
      assert Shift(Matches(here, b), 0) == Matches(here, b);
    } else {
      BoundaryLater(a, b, ScanStep(here, a));
      MatchesSplit(here, a[ScanStep(here, a)..], b);
      MatchesJoin(here, a, b, a[ScanStep(here, a)..]);
    }
  }

  lemma MatchesJoin(here: string -> bool, a: string, b: string, rest: string)
    requires WordPattern(here) && Boundary(a, b) && a != [] && rest == a[ScanStep(here, a)..]
    requires Matches(here, rest + b) == Matches(here, rest) + Shift(Matches(here, b), |rest|)
    ensures Matches(here, a + b) == Matches(here, a) + Shift(Matches(here, b), |a|)
  {
    var n, first := StepBoth(here, a, b, rest);
    Combine(first, Matches(here, rest), Matches(here, b), Matches(here, rest + b), n, |rest|, |a|);
  }

  lemma StepBoth(here: string -> bool, a: string, b: string, rest: string) returns (n: nat, first: seq<Link>)
    requires WordPattern(here) && Boundary(a, b) && a != [] && rest == a[ScanStep(here, a)..]
    ensures |a| == n + |rest|
    ensures Matches(here, a + b) == first + Shift(Matches(here, rest + b), n)
    ensures Matches(here, a) == first + Shift(Matches(here, rest), n)
  {
    n, first := ScanStep(here, a), FirstMatch(here, a);
    BoundaryLater(a, b, n);
    StepAtBoundary(here, a, b);
    MatchesOfSplit(here, a, b, n);
  }

  lemma UrlsSplit(here: string -> bool, a: string, b: string)
    requires WordPattern(here) && Boundary(a, b)
    ensures Urls(here, a + b) == Urls(here, a) + Urls(here, b)
  {
    MatchesSplit(here, a, b);
  }

  // ---- Words ---------------------------------------------------------------------------------------------

  function FirstWord(s: string): seq<string> { if StartsInk(s) then [s[..Run(s)]] else [] }

  function WordStep(s: string): (n: nat)
    requires s != []
    ensures 0 < n <= |s|
  {
    if StartsInk(s) then Run(s) else 1
  }

  /** The words of a text: its maximal runs without white space. */
  function Words(s: string): seq<string>
    decreases |s|
  {
    if s == [] then [] else FirstWord(s) + Words(s[WordStep(s)..])
  }

  lemma {:induction false} WordsSplit(a: string, b: string)
    requires Boundary(a, b)
    ensures Words(a + b) == Words(a) + Words(b)
    decreases |a|
  {
    if a == [] {
      assert a + b == b;
    } else {
      RunAtBoundary(a, b);
      BoundaryLater(a, b, WordStep(a));
      BoundaryLater(a, b, Run(a));
      var rest := a[WordStep(a)..];
      WordsSplit(rest, b);
      Regroup(FirstWord(a), Words(rest), Words(b));
      assert Words(a + b) == FirstWord(a) + Words(rest + b);
      assert Words(a) == FirstWord(a) + Words(rest);
    }
  }

  lemma WordsOfWord(w: string)
    requires w != [] && AllInk(w)
    ensures Words(w) == [w]
  {
    RunOfInk(w);
  }

  ghost predicate AreWords(words: seq<string>) {
    forall i :: 0 <= i < |words| ==> words[i] != [] && AllInk(words[i])
  }

  lemma {:induction false} WordsAreWords(s: string)
    ensures AreWords(Words(s))
    decreases |s|
  {
    if s == [] {
    } else {
      WordsAreWords(s[WordStep(s)..]);
      RunStops(s);
    }
  }

  /** Where the match in a word begins, or the word's length when there is none. */
  function LinkStart(here: string -> bool, w: string): (p: nat)
    ensures p <= |w|
  {
    if w == [] || here(w) then 0 else 1 + LinkStart(here, w[1..])
  }

  /** A word holds at most one match: it reaches to the word's end, and none stands before it. */
  lemma {:induction false} WordLink(here: string -> bool, w: string)
    requires WordPattern(here) && AllInk(w)
    ensures var p := LinkStart(here, w);
            && Matches(here, w) == (if p == |w| then [] else [Link(p, w[p..])])
            && Matches(here, w[..p]) == []
  {
    if w == [] {
    } else if here(w) {
      RunOfInk(w);
    } else {
      WordLink(here, w[1..]);
      WordLinkStep(here, w, LinkStart(here, w[1..]));
    }
  }

  lemma OneCharStep(here: string -> bool, w: string)
    requires w != [] && !here(w)
    ensures Matches(here, w) == Shift(Matches(here, w[1..]), 1)
  {
  }

  lemma WordLinkStep(here: string -> bool, w: string, p: nat)
    requires WordPattern(here) && AllInk(w) && w != [] && !here(w) && p < |w|
    requires Matches(here, w[1..]) == if p == |w| - 1 then [] else [Link(p, w[1..][p..])]
    requires Matches(here, w[1..][..p]) == []
    ensures Matches(here, w) == if 1 + p == |w| then [] else [Link(1 + p, w[1 + p..])]
    ensures Matches(here, w[..1 + p]) == []
  {
    var front, back := w[..1 + p], w[1 + p..];
    FrontAndBack(w, p);
    assert RegularAt(here, front, back);
    OneCharStep(here, w);
    OneCharStep(here, front);
    ShiftOne(p, back, 1);
  }

  lemma FrontAndBack(w: string, p: nat)
    requires p < |w|
    ensures w[..1 + p] + w[1 + p..] == w && w[..1 + p][1..] == w[1..][..p] && w[1..][p..] == w[1 + p..]
    ensures AllInk(w) ==> AllInk(w[1 + p..])
  {
  }

  lemma ShiftOne(start: nat, url: string, offset: nat)
    ensures Shift([Link(start, url)], offset) == [Link(start + offset, url)] && Shift([], offset) == []
  {
  }

  function FlatUrls(here: string -> bool, words: seq<string>): seq<string> {
    if words == [] then [] else Urls(here, words[0]) + FlatUrls(here, words[1..])
  }

  lemma GapUrls(here: string -> bool, s: string)
    requires WordPattern(here) && s != [] && !StartsInk(s)
    ensures Urls(here, s) == Urls(here, s[1..]) && Words(s) == Words(s[1..])
  {
    assert RegularAt(here, s, []);
  }

  lemma WordThenUrls(here: string -> bool, w: string, rest: string)
    requires WordPattern(here) && w != [] && AllInk(w) && !StartsInk(rest)
    ensures Urls(here, w + rest) == Urls(here, w) + Urls(here, rest)
    ensures Words(w + rest) == [w] + Words(rest)
  {
    UrlsSplit(here, w, rest);
    WordsSplit(w, rest);
    WordsOfWord(w);
  }

  lemma FlatUrlsOfMore(here: string -> bool, w: string, words: seq<string>)
    ensures FlatUrls(here, [w] + words) == Urls(here, w) + FlatUrls(here, words)
  {
    assert ([w] + words)[1..] == words;
  }

  /** The words alone decide the matches. */
  lemma {:induction false} UrlsOfWords(here: string -> bool, s: string)
    requires WordPattern(here)
    ensures Urls(here, s) == FlatUrls(here, Words(s))
    decreases |s|
  {
    if s == [] {
    } else if StartsInk(s) {
      var w, rest := s[..Run(s)], s[Run(s)..];
      RunStops(s);
      assert s == w + rest;
      WordThenUrls(here, w, rest);
      UrlsOfWords(here, rest);
      FlatUrlsOfMore(here, w, Words(rest));
    } else {
      GapUrls(here, s);
      UrlsOfWords(here, s[1..]);
    }
  }

  // ---- Cutting a match out ---------------------------------------------------------------------------------

  /** The text without the characters of a match. */
  function Cut(s: string, link: Link): string
    requires link.start + |link.url| <= |s|
  {
    s[..link.start] + s[link.start + |link.url|..]
  }

  /**
   * The words when the matches numbered in `gone` (counting from `first`) are taken out: a word that holds
   * one is cut back to what stands before the match, every other word stays.
   */
  function KeepWords(here: string -> bool, words: seq<string>, first: nat, gone: set<nat>): seq<string> {
    if words == [] then []
    else
      var w, p := words[0], LinkStart(here, words[0]);
      if p == |w| then [w] + KeepWords(here, words[1..], first, gone)
      else if first !in gone then [w] + KeepWords(here, words[1..], first + 1, gone)
      else (if p == 0 then [] else [w[..p]]) + KeepWords(here, words[1..], first + 1, gone)
  }

  function LinkCount(here: string -> bool, words: seq<string>): nat {
    if words == [] then 0
    else (if LinkStart(here, words[0]) == |words[0]| then 0 else 1) + LinkCount(here, words[1..])
  }

  lemma {:induction false} KeepAppend(
    here: string -> bool, a: seq<string>, b: seq<string>, first: nat, next: nat, gone: set<nat>
  )
    requires next == first + LinkCount(here, a)
    ensures KeepWords(here, a + b, first, gone) == KeepWords(here, a, first, gone) + KeepWords(here, b, next, gone)
  {
    if a == [] {
      assert a + b == b;
    } else {
      assert (a + b)[1..] == a[1..] + b;
      KeepAppend(here, a[1..], b, if LinkStart(here, a[0]) == |a[0]| then first else first + 1, next, gone);
    }
  }

  /** Where none of the numbers in `gone` falls, nothing is taken out. */
  lemma {:induction false} KeepOthers(here: string -> bool, words: seq<string>, first: nat, gone: set<nat>)
    requires forall k :: k in gone ==> k < first || first + LinkCount(here, words) <= k
    ensures KeepWords(here, words, first, gone) == words
  {
    if words == [] {
    } else {
      KeepOthers(here, words[1..], if LinkStart(here, words[0]) == |words[0]| then first else first + 1, gone);
      assert words == [words[0]] + words[1..];
    }
  }

  lemma {:induction false} CountUrls(here: string -> bool, words: seq<string>)
    requires WordPattern(here) && AreWords(words)
    ensures |FlatUrls(here, words)| == LinkCount(here, words)
  {
    if words == [] {
    } else {
      WordLink(here, words[0]);
      CountUrls(here, words[1..]);
    }
  }

  lemma CountMatches(here: string -> bool, s: string)
    requires WordPattern(here)
    ensures |Matches(here, s)| == LinkCount(here, Words(s))
  {
    UrlsOfWords(here, s);
    WordsAreWords(s);
    CountUrls(here, Words(s));
  }

  // ---- Locating a match ------------------------------------------------------------------------------------

  predicate EndsAtGap(s: string) { s == [] || IsSpace(s[|s| - 1]) }

  lemma JoinGap(a: string, b: string)
    requires EndsAtGap(b) && (b == [] ==> EndsAtGap(a))
    ensures EndsAtGap(a + b)
  {
  }

  /** The word that holds the i-th match, and the text on both sides of it. */
  lemma {:induction false} Locate(
    here: string -> bool, s: string, i: nat
  ) returns (pre: string, w: string, post: string)
    requires WordPattern(here) && i < |Matches(here, s)|
    ensures s == pre + (w + post) && EndsAtGap(pre) && w != [] && AllInk(w) && !StartsInk(post)
    ensures LinkStart(here, w) < |w| && |Matches(here, pre)| == i
    decreases |s|
  {
    if StartsInk(s) && i == 0 && Matches(here, s[..Run(s)]) != [] {
      pre, w, post := LocateFirst(here, s);
    } else {
      var head, rest := s[..WordStep(s)], s[WordStep(s)..];
      assert s == head + rest;
      var count := HeadCount(here, head, rest);
      var before: string;
      before, w, post := Locate(here, rest, i - count);
      pre := PutBefore(here, head, rest, before, w + post);
    }
  }

  lemma LocateFirst(here: string -> bool, s: string) returns (pre: string, w: string, post: string)
    requires WordPattern(here) && StartsInk(s) && Matches(here, s[..Run(s)]) != []
    ensures s == pre + (w + post) && EndsAtGap(pre) && w != [] && AllInk(w) && !StartsInk(post)
    ensures LinkStart(here, w) < |w| && Matches(here, pre) == []
  {
    pre, w, post := [], s[..Run(s)], s[Run(s)..];
    assert s == w + post && pre + (w + post) == w + post;
    RunStops(s);
    WordLink(here, w);
  }

  /** A leading word or white-space character holds at most one match, which the rest then lacks. */
  lemma HeadCount(here: string -> bool, head: string, rest: string) returns (count: nat)
    requires WordPattern(here) && head + rest != [] && head == (head + rest)[..WordStep(head + rest)]
    ensures count == |Matches(here, head)| <= 1
    ensures Boundary(head, rest)
    ensures Matches(here, head + rest) == Matches(here, head) + Shift(Matches(here, rest), |head|)
    ensures !StartsInk(head + rest) ==> count == 0
  {
    var s := head + rest;
    RunStops(s);
    assert s[WordStep(s)..] == rest;
    MatchesSplit(here, head, rest);
    count := |Matches(here, head)|;
    if StartsInk(s) {
      WordLink(here, head);
    } else {
      assert head[1..] == [];
    }
  }

  lemma PutBefore(here: string -> bool, head: string, rest: string, before: string, after: string) returns (pre: string)
    requires WordPattern(here) && Boundary(head, rest) && head != [] && rest == before + after && EndsAtGap(before)
    requires StartsInk(after)
    ensures head + rest == pre + after && EndsAtGap(pre)
    ensures |Matches(here, pre)| == |Matches(here, head)| + |Matches(here, before)|
  {
    pre := head + before;
    Regroup(head, before, after);
    if before == [] {
      assert rest == after && pre == head;
    } else {
      assert rest[0] == before[0];
      JoinGap(head, before);
      MatchesSplit(here, head, before);
    }
  }

  /** The i-th match itself, given the word it sits in. */
  lemma MatchAt(here: string -> bool, pre: string, w: string, post: string)
    requires WordPattern(here) && EndsAtGap(pre) && AllInk(w) && w != [] && !StartsInk(post) && LinkStart(here, w) < |w|
    ensures var i, p, links := |Matches(here, pre)|, LinkStart(here, w), Matches(here, pre + (w + post));
            i < |links| && links[i] == Link(|pre| + p, w[p..])
  {
    MatchesSplit(here, pre, w + post);
    MatchesSplit(here, w, post);
    WordLink(here, w);
  }

  lemma CutAround(pre: string, w: string, post: string)
    requires EndsAtGap(pre) && AllInk(w) && !StartsInk(post)
    ensures Words(pre + (w + post)) == Words(pre) + ((if w == [] then [] else [w]) + Words(post))
  {
    WordsSplit(pre, w + post);
    WordsSplit(w, post);
    if w != [] {
      WordsOfWord(w);
    }
  }

  lemma KeepAround(here: string -> bool, before: seq<string>, w: string, after: seq<string>, i: nat)
    requires LinkCount(here, before) == i && LinkStart(here, w) < |w|
    ensures var p := LinkStart(here, w);
            KeepWords(here, before + ([w] + after), 0, {i}) == before + ((if p == 0 then [] else [w[..p]]) + after)
  {
    KeepHead(here, w, after, i);
    KeepOthers(here, before, 0, {i});
    KeepAppend(here, before, [w] + after, 0, i, {i});
  }

  lemma KeepHead(here: string -> bool, w: string, after: seq<string>, i: nat)
    requires LinkStart(here, w) < |w|
    ensures var p := LinkStart(here, w);
            KeepWords(here, [w] + after, i, {i}) == (if p == 0 then [] else [w[..p]]) + after
  {
    assert ([w] + after)[1..] == after;
    KeepOthers(here, after, i + 1, {i});
  }

  lemma WordsAroundCut(s: string, t: string, pre: string, w: string, p: nat, post: string)
    requires EndsAtGap(pre) && AllInk(w) && !StartsInk(post) && p < |w|
    requires s == pre + (w + post) && t == pre + (w[..p] + post)
    ensures Words(s) == Words(pre) + ([w] + Words(post))
    ensures Words(t) == Words(pre) + ((if p == 0 then [] else [w[..p]]) + Words(post))
  {
    CutAround(pre, w, post);
    CutAround(pre, w[..p], post);
  }

  lemma CutLocated(here: string -> bool, s: string, t: string, pre: string, w: string, post: string, i: nat)
    requires WordPattern(here) && EndsAtGap(pre) && AllInk(w) && !StartsInk(post)
    requires LinkStart(here, w) < |w| && |Matches(here, pre)| == i
    requires s == pre + (w + post) && t == pre + (w[..LinkStart(here, w)] + post)
    ensures Words(t) == KeepWords(here, Words(s), 0, {i})
  {
    WordsAroundCut(s, t, pre, w, LinkStart(here, w), post);
    CountMatches(here, pre);
    KeepAround(here, Words(pre), w, Words(post), i);
  }

  lemma CutIs(s: string, pre: string, w: string, p: nat, post: string, link: Link)
    requires p <= |w| && s == pre + (w + post) && link == Link(|pre| + p, w[p..])
    ensures link.start + |link.url| <= |s| && Cut(s, link) == pre + (w[..p] + post)
  {
  }

  /** Cutting the i-th match out of `s` takes exactly that match out of the words. */
  lemma CutWords(here: string -> bool, s: string, i: nat, link: Link) returns (t: string)
    requires WordPattern(here) && i < |Matches(here, s)| && link == Matches(here, s)[i]
    ensures link.start + |link.url| <= |s| && t == Cut(s, link)
    ensures Words(t) == KeepWords(here, Words(s), 0, {i})
  {
    var pre, w, post := Locate(here, s, i);
    MatchAt(here, pre, w, post);
    CutIs(s, pre, w, LinkStart(here, w), post, link);
    t := Cut(s, link);
    CutLocated(here, s, t, pre, w, post, i);
  }

  /** Matches lie inside the text. */
  lemma {:induction false} MatchesInside(here: string -> bool, s: string, i: nat)
    requires i < |Matches(here, s)|
    ensures Matches(here, s)[i].start + |Matches(here, s)[i].url| <= |s|
    decreases |s|
  {
    var first := |FirstMatch(here, s)|;
    if i < first {
    } else {
      MatchesInside(here, s[ScanStep(here, s)..], i - first);
    }
  }
}
