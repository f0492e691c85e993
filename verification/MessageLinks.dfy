/** Links in message texts: the link pattern, and which links a deletion leaves. */
module MessageLinks {
  import opened Common
  import opened LinkScan
  import opened TextNormal

  // ---- The link pattern ---------------------------------------------------------------------------------

  /** A pattern character, or its capital when it is a letter. */
  predicate Letter(c: char, pattern: char) {
    c == pattern || ('a' <= pattern <= 'z' && c as int == pattern as int - 32)
  }

  predicate Spells(s: string, pattern: string)
    decreases |pattern|
  {
    pattern == [] || (s != [] && Letter(s[0], pattern[0]) && Spells(s[1..], pattern[1..]))
  }

  const HTTP: string := "http://"
  const HTTPS: string := "https://"

  /** One of the two schemes in any case, and at least one more character before any white space. */
  predicate IsLinkAt(s: string) { SchemeThenInk(s, HTTPS) || SchemeThenInk(s, HTTP) }

  predicate SchemeThenInk(s: string, scheme: string) {
    Spells(s, scheme) && |s| > |scheme| && !IsSpace(s[|scheme|])
  }

  lemma {:induction false} SpelledIsInk(s: string, pattern: string)
    requires Spells(s, pattern) && AllInk(pattern)
    ensures |pattern| <= |s| && forall i :: 0 <= i < |pattern| ==> !IsSpace(s[i])
    decreases |pattern|
  {
    if pattern == [] {
    } else {
      SpelledIsInk(s[1..], pattern[1..]);
      forall i | 0 <= i < |pattern|
        ensures !IsSpace(s[i])
      {
        if i > 0 {
          assert s[i] == s[1..][i - 1];
        }
      }
    }
  }

  lemma {:induction false} SpellingIsLocal(s: string, t: string, pattern: string)
    requires |pattern| <= |s| && |pattern| <= |t| && forall i :: 0 <= i < |pattern| ==> s[i] == t[i]
    ensures Spells(s, pattern) <==> Spells(t, pattern)
    decreases |pattern|
  {
    if pattern == [] {
    } else {
      SpellingIsLocal(s[1..], t[1..], pattern[1..]);
    }
  }

  lemma SchemeRegular(scheme: string, s: string, t: string)
    requires scheme != [] && AllInk(scheme)
    ensures SchemeThenInk(s, scheme) ==> StartsInk(s)
    ensures SchemeThenInk(s, scheme) <==> SchemeThenInk(s[..Run(s)], scheme)
    ensures SchemeThenInk(s, scheme) ==> SchemeThenInk(s + t, scheme)
  {
    if SchemeThenInk(s, scheme) {
      SpelledIsInk(s, scheme);
      SpellingIsLocal(s, s + t, scheme);
    }
    SchemeInWord(scheme, s);
  }

  lemma SchemeInWord(scheme: string, s: string)
    requires AllInk(scheme)
    ensures SchemeThenInk(s, scheme) <==> SchemeThenInk(s[..Run(s)], scheme)
  {
    var w := s[..Run(s)];
    if SchemeThenInk(s, scheme) {
      SpelledIsInk(s, scheme);
      RunCovers(s, |scheme| + 1);
      SpellingIsLocal(s, w, scheme);
    }
    if SchemeThenInk(w, scheme) {
      SpellingIsLocal(s, w, scheme);
    }
  }

  lemma LinkPatternIsRegular()
    ensures WordPattern(IsLinkAt)
  {
    SchemesAreInk();
    forall s, t
      ensures RegularAt(IsLinkAt, s, t)
    {
      SchemeRegular(HTTPS, s, t);
      SchemeRegular(HTTP, s, t);
    }
  }

  lemma SchemesAreInk()
    ensures HTTP != [] && AllInk(HTTP) && HTTPS != [] && AllInk(HTTPS)
  {
  }

  function Links(s: string): seq<Link> { Matches(IsLinkAt, s) }

  function LinkUrls(s: string): seq<string> { Urls(IsLinkAt, s) }

  /** The words that remain when the links numbered in `gone` are deleted. */
  function WordsWithout(s: string, gone: set<nat>): seq<string> { KeepWords(IsLinkAt, Words(s), 0, gone) }

  // ---- Unselected links ------------------------------------------------------------------------------------

  /** The elements whose number, counting from `first`, is not in `gone`. */
  function Unselected(urls: seq<string>, first: nat, gone: set<nat>): seq<string> {
    if urls == [] then []
    else (if first in gone then [] else [urls[0]]) + Unselected(urls[1..], first + 1, gone)
  }

  lemma WordUrls(here: string -> bool, w: string)
    requires WordPattern(here) && AllInk(w)
    ensures var p := LinkStart(here, w);
            Urls(here, w) == (if p == |w| then [] else [w[p..]]) && Urls(here, w[..p]) == []
  {
    WordLink(here, w);
  }

  lemma {:induction false} LinksOfKept(here: string -> bool, words: seq<string>, first: nat, gone: set<nat>)
    requires WordPattern(here) && AreWords(words)
    ensures FlatUrls(here, KeepWords(here, words, first, gone)) == Unselected(FlatUrls(here, words), first, gone)
  {
    if words == [] {
    } else {
      var w, rest, p := words[0], words[1..], LinkStart(here, words[0]);
      WordUrls(here, w);
      var next := if p == |w| then first else first + 1;
      LinksOfKept(here, rest, next, gone);
      var kept := if p == |w| || first !in gone then [w] else if p == 0 then [] else [w[..p]];
      assert KeepWords(here, words, first, gone) == kept + KeepWords(here, rest, next, gone);
      FlatUrlsPrepend(here, kept, KeepWords(here, rest, next, gone));
      if p == |w| {
        assert FlatUrls(here, words) == FlatUrls(here, rest);
      } else {
        assert FlatUrls(here, words) == [w[p..]] + FlatUrls(here, rest);
        UnselectedPrepend(w[p..], FlatUrls(here, rest), first, gone);
      }
    }
  }

  lemma FlatUrlsPrepend(here: string -> bool, one: seq<string>, rest: seq<string>)
    requires |one| <= 1
    ensures FlatUrls(here, one + rest) == (if one == [] then [] else Urls(here, one[0])) + FlatUrls(here, rest)
  {
    if one == [] {
      assert one + rest == rest;
    } else {
      assert (one + rest)[1..] == rest;
    }
  }

  lemma UnselectedPrepend(url: string, rest: seq<string>, first: nat, gone: set<nat>)
    ensures Unselected([url] + rest, first, gone)
              == (if first in gone then [] else [url]) + Unselected(rest, first + 1, gone)
  {
    assert ([url] + rest)[1..] == rest;
  }

  lemma {:induction false} UnselectedBelow(urls: seq<string>, first: nat, gone: set<nat>, j: nat)
    requires j < |urls| && forall k :: k in gone ==> first + j < k
    ensures j < |Unselected(urls, first, gone)| && Unselected(urls, first, gone)[j] == urls[j]
  {
    if j == 0 {
    } else {
      UnselectedBelow(urls[1..], first + 1, gone, j - 1);
    }
  }

  /** The links left behind are exactly the unselected ones, in order. */
  lemma LinksWithout(s: string, t: string, gone: set<nat>)
    requires Words(t) == WordsWithout(s, gone)
    ensures LinkUrls(t) == Unselected(LinkUrls(s), 0, gone)
  {
    LinkPatternIsRegular();
    WordsAreWords(s);
    UrlsOfWords(IsLinkAt, s);
    UrlsOfWords(IsLinkAt, t);
    LinksOfKept(IsLinkAt, Words(s), 0, gone);
  }

  lemma {:induction false} KeepSame(here: string -> bool, words: seq<string>, first: nat, g: set<nat>, h: set<nat>)
    requires forall k :: k >= first ==> (k in g <==> k in h)
    ensures KeepWords(here, words, first, g) == KeepWords(here, words, first, h)
  {
    if words == [] {
    } else {
      KeepSame(here, words[1..], if LinkStart(here, words[0]) == |words[0]| then first else first + 1, g, h);
    }
  }

  /** Taking out a link in front of those already gone is taking them out together. */
  lemma {:induction false} KeepTwice(here: string -> bool, words: seq<string>, first: nat, gone: set<nat>, i: nat)
    requires first <= i && forall k :: k in gone ==> i < k
    ensures KeepWords(here, KeepWords(here, words, first, gone), first, {i})
              == KeepWords(here, words, first, gone + {i})
  {
    if words == [] {
    } else {
      var w, rest, p := words[0], words[1..], LinkStart(here, words[0]);
      if p == |w| {
        KeepTwice(here, rest, first, gone, i);
        KeepPrepend(here, w, KeepWords(here, rest, first, gone), first, {i});
      } else {
        var kept := KeepWords(here, rest, first + 1, gone);
        assert first !in gone;
        KeepPrepend(here, w, kept, first, {i});
        if first == i {
          KeepOthers(here, kept, first + 1, {i});
          KeepSame(here, rest, first + 1, gone, gone + {i});
        } else {
          KeepTwice(here, rest, first + 1, gone, i);
        }
      }
    }
  }

  lemma KeepPrepend(here: string -> bool, w: string, rest: seq<string>, first: nat, gone: set<nat>)
    ensures var p := LinkStart(here, w);
            KeepWords(here, [w] + rest, first, gone)
            == if p == |w| then [w] + KeepWords(here, rest, first, gone)
               else (if first !in gone then [w] else if p == 0 then [] else [w[..p]])
                    + KeepWords(here, rest, first + 1, gone)
  {
    assert ([w] + rest)[1..] == rest;
  }
}
