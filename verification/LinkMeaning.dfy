/** Which texts are links, character by character, and what deleting one says. */
module LinkMeaning {
  import opened Common
  import opened LinkScan
  import opened TextNormal
  import opened MessageLinks
  import opened MessageLibrary

  // ---- White space and schemes ---------------------------------------------------------------------------

  /** The WhiteSpace and LineTerminator code points of ECMA-262, sections 12.2 and 12.3. */
  const WHITE_SPACE: set<int> :=
    {0x9, 0xa, 0xb, 0xc, 0xd, 0x20, 0xa0, 0x1680, 0x2000, 0x2001, 0x2002, 0x2003, 0x2004, 0x2005, 0x2006, 0x2007,
     0x2008, 0x2009, 0x200a, 0x2028, 0x2029, 0x202f, 0x205f, 0x3000, 0xfeff}

  /** White space in the link pattern is white space of the language. */
  lemma SpaceIsWhiteSpace(c: char)
    ensures IsSpace(c) <==> c as int in WHITE_SPACE
  {
  }

  /** A scheme of the two, each of its letters small or capital. */
  predicate IsScheme(s: string) {
    && 7 <= |s| <= 8
    && (s[0] == 'h' || s[0] == 'H') && (s[1] == 't' || s[1] == 'T')
    && (s[2] == 't' || s[2] == 'T') && (s[3] == 'p' || s[3] == 'P')
    && (|s| == 8 ==> s[4] == 's' || s[4] == 'S')
    && s[|s| - 3] == ':' && s[|s| - 2] == '/' && s[|s| - 1] == '/'
  }

  /** From offset p on, the word holds a scheme and at least one more character. */
  predicate LinkFrom(w: string, p: nat) {
    (p + 7 < |w| && IsScheme(w[p..p + 7])) || (p + 8 < |w| && IsScheme(w[p..p + 8]))
  }

  lemma SpellsFrom(s: string, pattern: string, i: nat)
    requires i < |pattern| <= |s|
    ensures Spells(s[i..], pattern[i..]) <==> Letter(s[i], pattern[i]) && Spells(s[i + 1..], pattern[i + 1..])
  {
    assert s[i..][1..] == s[i + 1..] && pattern[i..][1..] == pattern[i + 1..];
  }

  lemma SpellsFour(s: string, pattern: string, i: nat)
    requires i + 4 <= |pattern| <= |s|
    ensures Spells(s[i..], pattern[i..])
       <==> && Letter(s[i], pattern[i]) && Letter(s[i + 1], pattern[i + 1]) && Letter(s[i + 2], pattern[i + 2])
            && Letter(s[i + 3], pattern[i + 3]) && Spells(s[i + 4..], pattern[i + 4..])
  {
    SpellsFrom(s, pattern, i);
    SpellsFrom(s, pattern, i + 1);
    SpellsFrom(s, pattern, i + 2);
    SpellsFrom(s, pattern, i + 3);
  }

  lemma SpellsHttpLetters(s: string, p: string)
    requires 4 <= |p| <= |s| && p[0] == 'h' && p[1] == 't' && p[2] == 't' && p[3] == 'p'
    ensures Spells(s, p)
       <==> && (s[0] == 'h' || s[0] == 'H') && (s[1] == 't' || s[1] == 'T')
            && (s[2] == 't' || s[2] == 'T') && (s[3] == 'p' || s[3] == 'P') && Spells(s[4..], p[4..])
  {
    assert s[0..] == s && p[0..] == p;
    SpellsFour(s, p, 0);
  }

  lemma SpellsSlashes(s: string, p: string, i: nat)
    requires i + 3 == |p| <= |s| && p[i] == ':' && p[i + 1] == '/' && p[i + 2] == '/'
    ensures Spells(s[i..], p[i..]) <==> s[i] == ':' && s[i + 1] == '/' && s[i + 2] == '/'
  {
    SpellsFrom(s, p, i);
    SpellsFrom(s, p, i + 1);
    SpellsFrom(s, p, i + 2);
    assert p[i + 3..] == [];
  }

  lemma SpellsHttp(s: string)
    requires 7 <= |s|
    ensures Spells(s, HTTP) <==> IsScheme(s[..7])
  {
    SpellsHttpLetters(s, HTTP);
    SpellsSlashes(s, HTTP, 4);
  }

  lemma SpellsHttps(s: string)
    requires 8 <= |s|
    ensures Spells(s, HTTPS) <==> IsScheme(s[..8])
  {
    SpellsHttpLetters(s, HTTPS);
    SpellsFrom(s, HTTPS, 4);
    SpellsSlashes(s, HTTPS, 5);
  }

  lemma {:induction false} SpelledLength(s: string, pattern: string)
    requires Spells(s, pattern)
    ensures |pattern| <= |s|
    decreases |pattern|
  {
    if pattern == [] {
    } else {
      SpelledLength(s[1..], pattern[1..]);
    }
  }

  /** A word is a match from offset p on exactly when a scheme and more stand there. */
  lemma LinkHere(w: string, p: nat)
    requires p <= |w| && AllInk(w)
    ensures IsLinkAt(w[p..]) <==> LinkFrom(w, p)
  {
    var s := w[p..];
    if Spells(s, HTTP) {
      SpelledLength(s, HTTP);
    }
    if Spells(s, HTTPS) {
      SpelledLength(s, HTTPS);
    }
    if 7 <= |s| {
      SpellsHttp(s);
    }
    if 8 <= |s| {
      SpellsHttps(s);
    }
    assert 7 <= |s| ==> s[..7] == w[p..p + 7];
    assert 8 <= |s| ==> s[..8] == w[p..p + 8];
  }

  lemma {:induction false} FirstLinkFrom(w: string, p: nat, q: nat)
    requires q <= p < |w| && AllInk(w) && LinkFrom(w, p) && forall i :: q <= i < p ==> !LinkFrom(w, i)
    ensures LinkStart(IsLinkAt, w[q..]) == p - q
    decreases p - q
  {
    LinkHere(w, q);
    if q < p {
      FirstLinkFrom(w, p, q + 1);
      assert w[q..][1..] == w[q + 1..];
    }
  }

  lemma LinkStartsAt(w: string, p: nat)
    requires AllInk(w) && LinkFrom(w, p) && forall i :: 0 <= i < p ==> !LinkFrom(w, i)
    ensures p < |w| && LinkStart(IsLinkAt, w) == p
  {
    FirstLinkFrom(w, p, 0);
    assert w[0..] == w;
  }

  /** In every text: a word is linked from its first scheme that more follows, to the end of the word. */
  lemma WordIsLinkedFrom(pre: string, w: string, post: string, p: nat)
    requires EndsAtGap(pre) && !StartsInk(post) && AllInk(w) && LinkFrom(w, p)
    requires forall i :: 0 <= i < p ==> !LinkFrom(w, i)
    ensures var i, links := |Links(pre)|, Links(pre + (w + post));
            p < |w| && i < |links| && links[i] == Link(|pre| + p, w[p..])
  {
    LinkStartsAt(w, p);
    LinkPatternIsRegular();
    MatchAt(IsLinkAt, pre, w, post);
  }

  /** So every scheme, in any mixture of case, with a word behind it is a link when it starts a word. */
  lemma SchemeStartsLink(pre: string, scheme: string, w: string, post: string)
    requires EndsAtGap(pre) && !StartsInk(post) && IsScheme(scheme) && w != [] && AllInk(w)
    ensures var i, links := |Links(pre)|, Links(pre + ((scheme + w) + post));
            i < |links| && links[i] == Link(|pre|, scheme + w)
  {
    assert (scheme + w)[..|scheme|] == scheme;
    assert AllInk(scheme + w);
    assert LinkFrom(scheme + w, 0);
    WordIsLinkedFrom(pre, scheme + w, post, 0);
    assert (scheme + w)[0..] == scheme + w;
  }

  /** And there are no others: a link is the rest of a word, from the first scheme in it that more follows. */
  lemma LinkIsRestOfWord(s: string, i: nat) returns (pre: string, w: string, post: string, p: nat)
    requires i < |Links(s)|
    ensures s == pre + (w + post) && p < |w| && Links(s)[i] == Link(|pre| + p, w[p..])
    ensures EndsAtGap(pre) && !StartsInk(post) && AllInk(w) && LinkFrom(w, p)
    ensures forall i :: 0 <= i < p ==> !LinkFrom(w, i)
  {
    LinkPatternIsRegular();
    pre, w, post := Locate(IsLinkAt, s, i);
    p := LinkStart(IsLinkAt, w);
    MatchAt(IsLinkAt, pre, w, post);
    StartIsFirst(w, 0);
    assert w[0..] == w;
  }

  lemma {:induction false} StartIsFirst(w: string, q: nat)
    requires q <= |w| && AllInk(w)
    ensures var p := q + LinkStart(IsLinkAt, w[q..]);
            && (forall i :: q <= i < p ==> !LinkFrom(w, i)) && (p < |w| ==> LinkFrom(w, p))
    decreases |w| - q
  {
    LinkHere(w, q);
    if q < |w| && !IsLinkAt(w[q..]) {
      StartIsFirst(w, q + 1);
      assert w[q..][1..] == w[q + 1..];
    }
  }

  // ---- What a deletion answers -----------------------------------------------------------------------------

  /**
   * A deletion succeeds exactly when the message is stored and its text has the link: with the given number, or
   * with any when none is given.  A refused one changes nothing.
   */
  lemma DeletesIffPresent(table: Table, messageId: string, url: string, index: Option<int>)
    ensures var (after, ok) := DeleteLinkOccurrence(table, messageId, url, index);
            && (ok <==>
                  && messageId in table
                  && var urls := LinkUrls(table[messageId].content);
                     match index
                     case Some(i) => 0 <= i < |urls| && urls[i] == url
                     case None => url in urls)
            && (!ok ==> after == table)
            && (forall id :: id != messageId ==> Lookup(after, id) == Lookup(table, id))
  {
    if messageId in table {
      MatchIff(Links(table[messageId].content), url, index);
    }
  }

  lemma MatchIff(links: seq<Link>, url: string, index: Option<int>)
    ensures LinkMatch(links, url, index).Some?
       <==> match index
            case Some(i) => 0 <= i < |links| && UrlsOf(links)[i] == url
            case None => url in UrlsOf(links)
  {
    FindUrlIff(links, url);
    if url in UrlsOf(links) {
      var i :| 0 <= i < |links| && UrlsOf(links)[i] == url;
      assert links[i].url == url;
    }
    if i :| 0 <= i < |links| && links[i].url == url {
      assert UrlsOf(links)[i] == url;
    }
  }

  lemma {:induction false} FindUrlIff(links: seq<Link>, url: string)
    ensures FindUrl(links, url).Some? <==> exists i :: 0 <= i < |links| && links[i].url == url
    ensures FindUrl(links, url).Some? ==>
              exists i :: 0 <= i < |links| && links[i] == FindUrl(links, url).value
                     && forall j :: 0 <= j < i ==> links[j].url != url
  {
    if links == [] {
    } else {
      FindUrlIff(links[1..], url);
      if links[0].url != url && FindUrl(links[1..], url).Some? {
        var i :| 0 <= i < |links[1..]| && links[1..][i] == FindUrl(links[1..], url).value
          && forall j :: 0 <= j < i ==> links[1..][j].url != url;
        assert links[i + 1] == FindUrl(links, url).value;
        assert forall j :: 0 <= j < i + 1 ==> links[j].url != url;
      }
      if exists i :: 0 <= i < |links| && links[i].url == url {
        var i :| 0 <= i < |links| && links[i].url == url;
        if i > 0 {
          assert links[1..][i - 1].url == url;
        }
      }
    }
  }

  /** The link a deletion takes: the numbered one, or the first with the url. */
  predicate Takes(urls: seq<string>, url: string, index: Option<int>, i: nat) {
    && i < |urls| && urls[i] == url
    && (index.Some? ==> i == index.value)
    && (index.None? ==> url !in urls[..i])
  }

  lemma TakesIffDeletes(table: Table, messageId: string, url: string, index: Option<int>)
    ensures DeleteLinkOccurrence(table, messageId, url, index).1
       <==> messageId in table && exists i :: Takes(LinkUrls(table[messageId].content), url, index, i)
    ensures !DeleteLinkOccurrence(table, messageId, url, index).1 ==>
              DeleteLinkOccurrence(table, messageId, url, index).0 == table
  {
    DeletesIffPresent(table, messageId, url, index);
    if DeleteLinkOccurrence(table, messageId, url, index).1 {
      var i := DeletionCutsTaken(table, messageId, url, index);
    }
  }

  /**
   * What a successful deletion leaves: every word but that link, the other fields as they were, and the kind
   * that the attachments say; the message goes when no word, attachment or reply remains.
   */
  lemma DeletionCutsTaken(table: Table, messageId: string, url: string, index: Option<int>) returns (i: nat)
    requires DeleteLinkOccurrence(table, messageId, url, index).1
    ensures messageId in table && Takes(LinkUrls(table[messageId].content), url, index, i)
    ensures var m, after := table[messageId], Lookup(DeleteLinkOccurrence(table, messageId, url, index).0, messageId);
            var left := WordsWithout(m.content, {i});
            && (after == None <==> left == [] && m.attachmentKinds == [] && m.replyTo == None)
            && (after.Some? ==>
                  && Words(after.value.content) == left
                  && after.value.attachmentKinds == m.attachmentKinds && after.value.replyTo == m.replyTo
                  && after.value.envelope == m.envelope
                  && (m.attachmentKinds == [] ==> after.value.kind == "text")
                  && (m.attachmentKinds == ["image"] ==> after.value.kind == "image")
                  && (m.attachmentKinds != [] && m.attachmentKinds != ["image"] ==> after.value.kind == "file"))
  {
    var m := table[messageId];
    var links := Links(m.content);
    match index {
      case Some(n) => i := n;
      case None =>
        FindUrlIff(links, url);
        i :| 0 <= i < |links| && links[i] == FindUrl(links, url).value && forall j :: 0 <= j < i ==>
          links[j].url != url;
    }
    CutOneLink(m, i);
    KindByAttachments(m.attachmentKinds);
  }

  lemma KindByAttachments(kinds: seq<string>)
    ensures kinds == [] ==> KindOf(kinds) == "text"
    ensures kinds == ["image"] ==> KindOf(kinds) == "image"
    ensures kinds != [] && kinds != ["image"] ==> KindOf(kinds) == "file"
  {
    if |kinds| == 1 {
      assert kinds == [kinds[0]];
    }
  }

  // ---- A selection, in the fields of its items --------------------------------------------------------------

  /** The library lists this link: the message it names is stored, and its link of that number has that url. */
  predicate IsListed(table: Table, item: Item) {
    && item.messageId.Some? && item.messageId.value != "" && item.messageId.value in table
    && item.linkUrl.Some? && item.linkIndex.Some?
    && var urls := LinkUrls(table[item.messageId.value].content);
       0 <= item.linkIndex.value < |urls| && urls[item.linkIndex.value] == item.linkUrl.value
  }

  predicate OneLink(a: Item, b: Item) {
    && a.source == MessageLink && b.source == MessageLink
    && a.messageId == b.messageId && a.linkIndex == b.linkIndex
  }

  /** Every link item is listed, and equal ids stand for equal items and the same link. */
  ghost predicate Listing(table: Table, items: seq<Item>) {
    && (forall a :: 0 <= a < |items| && items[a].source == MessageLink ==> IsListed(table, items[a]))
    && (forall a, b :: 0 <= a < |items| && 0 <= b < |items| && items[a].id == items[b].id ==> items[a] == items[b])
    && (forall a, b :: 0 <= a < |items| && 0 <= b < |items| && OneLink(items[a], items[b]) ==>
          items[a].id == items[b].id)
  }

  /** The numbers of the links of a message that were chosen. */
  ghost predicate Chosen(items: seq<Item>, messageId: string, n: nat) {
    exists item :: item in items && item.source == MessageLink && item.messageId == Some(messageId)
              && item.linkIndex == Some(n)
  }

  lemma {:induction false} UrlsNotEmpty(s: string, i: nat)
    requires i < |LinkUrls(s)|
    ensures LinkUrls(s)[i] != ""
  {
    var pre, w, post, p := LinkIsRestOfWord(s, i);
  }

  lemma ListingIsFromLibrary(table: Table, items: seq<Item>)
    requires Listing(table, items)
    ensures FromLibrary(table, items)
  {
    forall a | 0 <= a < |items| && items[a].source == MessageLink
      ensures ListedLink(table, items[a])
    {
      assert IsListed(table, items[a]);
      UrlsNotEmpty(table[items[a].messageId.value].content, items[a].linkIndex.value);
    }
  }

  lemma SelectedIsChosen(table: Table, items: seq<Item>, messageId: string, n: nat)
    requires Listing(table, items)
    ensures n in Selected(items, messageId) <==> Chosen(items, messageId, n)
  {
    ListingIsFromLibrary(table, items);
    SelectedIn(items, messageId, n);
    forall item | item in items && item.source == MessageLink
      ensures NamesLink(item)
    {
      var a :| 0 <= a < |items| && items[a] == item;
      assert ListedLink(table, items[a]);
    }
  }

  /**
   * Whatever links of whatever messages are chosen, in any order and with any repetition: each message keeps
   * exactly its other links, in order, and a message with no chosen link stays as it is.
   */
  lemma SelectionLeavesUnchosen(table: Table, items: seq<Item>, id: string, gone: set<nat>)
    requires Listing(table, items) && forall n: nat :: n in gone <==> Chosen(items, id, n)
    ensures var after := Lookup(DeleteSelection(table, items), id);
            && (gone == {} ==> after == Lookup(table, id))
            && (gone != {} ==>
                  && id in table
                  && var left := WordsWithout(table[id].content, gone);
                     && (after == None <==>
                           left == [] && table[id].attachmentKinds == [] && table[id].replyTo == None)
                     && (after.Some? ==>
                           && Words(after.value.content) == left
                           && LinkUrls(after.value.content) == Unselected(LinkUrls(table[id].content), 0, gone)))
  {
    ListingIsFromLibrary(table, items);
    SelectionDeletesExactly(table, items, id);
    forall n: nat
      ensures n in gone <==> n in Selected(items, id)
    {
      SelectedIsChosen(table, items, id, n);
    }
    assert gone == Selected(items, id);
  }

  /** The item at k, and no item of its id before. */
  ghost predicate FirstOfId(items: seq<Item>, k: nat) {
    k < |items| && forall j :: 0 <= j < k ==> items[j].id != items[k].id
  }

  ghost predicate IsFirst(items: seq<Item>, item: Item) {
    exists k :: 0 <= k < |items| && items[k] == item && FirstOfId(items, k)
  }

  lemma {:induction false} UniqueKeepsFirst(items: seq<Item>, item: Item)
    ensures item in Unique(items) <==> IsFirst(items, item)
  {
    if items == [] {
    } else {
      var front, last := items[..|items| - 1], items[|items| - 1];
      UniqueKeepsFirst(front, item);
      UniqueStep(items, front, last, item);
      FirstStep(items, front, last, item);
    }
  }

  lemma UniqueStep(items: seq<Item>, front: seq<Item>, last: Item, item: Item)
    requires items == front + [last]
    ensures item in Unique(items)
       <==> item in Unique(front) || (item == last && forall k :: 0 <= k < |front| ==> front[k].id != last.id)
  {
    assert items[..|items| - 1] == front;
    assert forall k :: 0 <= k < |front| ==> items[k] == front[k];
  }

  lemma FirstStep(items: seq<Item>, front: seq<Item>, last: Item, item: Item)
    requires items == front + [last]
    ensures IsFirst(items, item)
       <==> IsFirst(front, item) || (item == last && forall k :: 0 <= k < |front| ==> front[k].id != last.id)
  {
    assert forall k :: 0 <= k < |front| ==> items[k] == front[k];
    forall k | 0 <= k < |front|
      ensures FirstOfId(front, k) <==> FirstOfId(items, k)
    {
      assert items[k] == front[k] && forall j :: 0 <= j < k ==> items[j] == front[j];
    }
    var n := |front|;
    assert items[n] == last;
    assert FirstOfId(items, n) <==> forall k :: 0 <= k < n ==> front[k].id != last.id;
    if IsFirst(front, item) {
      var k :| 0 <= k < n && front[k] == item && FirstOfId(front, k);
      assert items[k] == item && FirstOfId(items, k);
    }
    if IsFirst(items, item) {
      var k :| 0 <= k < |items| && items[k] == item && FirstOfId(items, k);
      assert k < n ==> front[k] == item && FirstOfId(front, k);
    }
  }
}
