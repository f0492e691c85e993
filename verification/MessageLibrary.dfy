/** Deleting links from stored messages, one at a time and as a selection from the library. */
module MessageLibrary {
  import opened Common
  import opened Sorting
  import opened LinkScan
  import opened TextNormal
  import opened MessageLinks

  /** The parts of a message a deletion may look at or rewrite; the other fields travel in `envelope`. */
  datatype Message = Message(content: string, attachmentKinds: seq<string>, replyTo: Option<string>, kind: string,
                             envelope: string)

  type Table = map<string, Message>

  datatype LinkRef = LinkRef(url: string, index: int)

  datatype Source = RemoteMedia | LocalAttachment | MessageLink

  /** A library item; absent fields are `None`. */
  datatype Item = Item(
    id: string, source: Source, messageId: Option<string>, attachmentId: Option<string>, remoteMediaUrl: Option<string>,
    linkUrl: Option<string>, linkIndex: Option<int>)

  // ---- Deleting one link -------------------------------------------------------------------------------

  function FindUrl(links: seq<Link>, url: string): (r: Option<Link>)
    ensures r.Some? ==> r.value in links && r.value.url == url
  {
    if links == [] then None else if links[0].url == url then Some(links[0]) else FindUrl(links[1..], url)
  }

  function LinkMatch(links: seq<Link>, url: string, index: Option<int>): (r: Option<Link>)
    ensures r.Some? ==> r.value in links && r.value.url == url
  {
    match index
    case Some(i) => if i < 0 || i >= |links| || links[i].url != url then None else Some(links[i])
    case None => FindUrl(links, url)
  }

  function KindOf(attachmentKinds: seq<string>): string {
    if attachmentKinds == [] then "text"
    else if |attachmentKinds| == 1 && attachmentKinds[0] == "image" then "image"
    else "file"
  }

  lemma LinkInside(s: string, link: Link)
    requires link in Links(s)
    ensures link.start + |link.url| <= |s|
  {
    var i: nat :| i < |Links(s)| && Links(s)[i] == link;
    MatchesInside(IsLinkAt, s, i);
  }

  /** What becomes of a message whose link is cut out: nothing left of it means the message goes. */
  function WithoutLink(message: Message, link: Link): Option<Message>
    requires link in Links(message.content)
  {
    LinkInside(message.content, link);
    var content := Normalize(Cut(message.content, link));
    if content == [] && message.attachmentKinds == [] && message.replyTo == None then None
    else Some(message.(content := content, kind := KindOf(message.attachmentKinds)))
  }

  function DeleteLinkOccurrence(table: Table, messageId: string, url: string, index: Option<int>): (Table, bool) {
    if messageId !in table then (table, false)
    else
      var message := table[messageId];
      match LinkMatch(Links(message.content), url, index)
      case None => (table, false)
      case Some(link) =>
        match WithoutLink(message, link)
        case None => (table - {messageId}, true)
        case Some(rest) => (table[messageId := rest], true)
  }

  // ---- Deleting a selection ---------------------------------------------------------------------------------

  /** The first item of every id. */
  function Unique(items: seq<Item>): seq<Item> {
    if items == [] then []
    else
      var rest, last := Unique(items[..|items| - 1]), items[|items| - 1];
      if exists k :: 0 <= k < |items| - 1 && items[k].id == last.id then rest else rest + [last]
  }

  /** The item counts as a link to delete: it carries all three fields, none of them empty. */
  predicate NamesLink(item: Item) {
    && item.source == MessageLink && item.messageId.Some? && item.messageId.value != [] && item.linkUrl.Some?
    && item.linkUrl.value != [] && item.linkIndex.Some?
  }

  function LinksOf(items: seq<Item>, messageId: string): seq<LinkRef> {
    if items == [] then []
    else
      var rest, last := LinksOf(items[..|items| - 1], messageId), items[|items| - 1];
      if NamesLink(last) && last.messageId.value == messageId then
        rest + [LinkRef(last.linkUrl.value, last.linkIndex.value)] else rest
  }

  /** The messages with links to delete, in order of first appearance. */
  function MessagesOf(items: seq<Item>): seq<string> {
    if items == [] then []
    else
      var rest, last := MessagesOf(items[..|items| - 1]), items[|items| - 1];
      if NamesLink(last) && last.messageId.value !in rest then rest + [last.messageId.value] else rest
  }

  predicate HigherFirst(a: LinkRef, b: LinkRef) { b.index - a.index <= 0 }

  function DeleteEach(table: Table, messageId: string, links: seq<LinkRef>): Table
    decreases |links|
  {
    if links == [] then table
    else DeleteEach(DeleteLinkOccurrence(table, messageId, links[0].url, Some(links[0].index)).0, messageId, links[1..])
  }

  function DeleteGroups(table: Table, items: seq<Item>, order: seq<string>): Table
    decreases |order|
  {
    if order == [] then table
    else DeleteGroups(DeleteEach(table, order[0], StableSort(HigherFirst, LinksOf(items, order[0]))), items, order[1..])
  }

  function DeleteSelection(table: Table, items: seq<Item>): Table {
    DeleteGroups(table, Unique(items), MessagesOf(Unique(items)))
  }

  // ---- One message ------------------------------------------------------------------------------------------

  /**
   * What a deletion of the links numbered in `gone` leaves of a message: every word except those links, in
   * order; the message itself goes when no word, attachment or reply remains.
   */
  ghost predicate Stripped(before: Message, gone: set<nat>, after: Option<Message>) {
    var left := WordsWithout(before.content, gone);
    if left == [] && before.attachmentKinds == [] && before.replyTo == None then after == None
    else
      && after.Some? && Words(after.value.content) == left
      && after.value == before.(content := after.value.content, kind := KindOf(before.attachmentKinds))
  }

  function Lookup(table: Table, id: string): Option<Message> { if id in table then Some(table[id]) else None }

  lemma CutOneLink(message: Message, i: nat)
    requires i < |Links(message.content)|
    ensures Stripped(message, {i}, WithoutLink(message, Links(message.content)[i]))
  {
    LinkPatternIsRegular();
    var link := Links(message.content)[i];
    var t := CutWords(IsLinkAt, message.content, i, link);
    NormalizeKeepsWords(t);
  }

  lemma StrippedLinks(before: Message, gone: set<nat>, after: Option<Message>)
    requires Stripped(before, gone, after)
    ensures after.Some? ==> LinkUrls(after.value.content) == Unselected(LinkUrls(before.content), 0, gone)
    ensures after == None ==> Unselected(LinkUrls(before.content), 0, gone) == []
  {
    if after.Some? {
      LinksWithout(before.content, after.value.content, gone);
    } else {
      LinksWithout(before.content, [], gone);
    }
  }

  /** Deleting one more link, in front of those already gone, leaves what deleting all of them leaves. */
  lemma StrippedTwice(before: Message, gone: set<nat>, middle: Message, i: nat, after: Option<Message>)
    requires Stripped(before, gone, Some(middle)) && Stripped(middle, {i}, after)
    requires forall k :: k in gone ==> i < k
    ensures Stripped(before, gone + {i}, after)
  {
    KeepTwice(IsLinkAt, Words(before.content), 0, gone, i);
  }

  ghost predicate Descending(links: seq<LinkRef>) {
    forall a, b :: 0 <= a < b < |links| ==> links[a].index > links[b].index
  }

  /** Each reference is a link the text holds, at its place. */
  ghost predicate PointsInto(links: seq<LinkRef>, s: string) {
    forall a :: 0 <= a < |links| ==> ValidRef(links[a], s)
  }

  predicate ValidRef(ref: LinkRef, s: string) {
    0 <= ref.index < |LinkUrls(s)| && LinkUrls(s)[ref.index] == ref.url
  }

  function Indices(links: seq<LinkRef>): set<nat> {
    set a | 0 <= a < |links| && links[a].index >= 0 :: links[a].index as nat
  }

  /** A link below all those gone still has its number. */
  lemma StillValid(before: Message, gone: set<nat>, middle: Option<Message>, ref: LinkRef)
    requires Stripped(before, gone, middle) && ValidRef(ref, before.content) && forall k :: k in gone ==> ref.index < k
    ensures middle.Some? && ValidRef(ref, middle.value.content)
  {
    StrippedLinks(before, gone, middle);
    UnselectedBelow(LinkUrls(before.content), 0, gone, ref.index);
  }

  lemma DeleteValid(table: Table, messageId: string, ref: LinkRef)
    requires messageId in table && ValidRef(ref, table[messageId].content)
    ensures var (after, ok) := DeleteLinkOccurrence(table, messageId, ref.url, Some(ref.index));
            && ok && Stripped(table[messageId], {ref.index as nat}, Lookup(after, messageId))
            && SameElsewhere(table, after, messageId)
  {
    CutOneLink(table[messageId], ref.index);
  }

  ghost predicate SameElsewhere(table: Table, after: Table, messageId: string) {
    forall id :: id != messageId ==> Lookup(after, id) == Lookup(table, id)
  }

  ghost predicate AllBelow(links: seq<LinkRef>, gone: set<nat>) {
    forall a, k :: 0 <= a < |links| && k in gone ==> links[a].index < k
  }

  /** The first of several descending references is deleted; the others are still valid. */
  lemma DeleteNext(
    before: Message, gone: set<nat>, table: Table, messageId: string, links: seq<LinkRef>
  ) returns (next: Table, now: set<nat>)
    requires messageId in table && Stripped(before, gone, Some(table[messageId])) && links != []
    requires Descending(links) && PointsInto(links, before.content) && AllBelow(links, gone)
    ensures next == DeleteLinkOccurrence(table, messageId, links[0].url, Some(links[0].index)).0
    ensures links[0].index >= 0 && now == gone + {links[0].index as nat}
    ensures Stripped(before, now, Lookup(next, messageId)) && SameElsewhere(table, next, messageId)
    ensures Descending(links[1..]) && PointsInto(links[1..], before.content) && AllBelow(links[1..], now)
    ensures |links| > 1 ==> messageId in next
  {
    var ref := links[0];
    var i: nat := ref.index;
    StillValid(before, gone, Some(table[messageId]), ref);
    DeleteValid(table, messageId, ref);
    next := DeleteLinkOccurrence(table, messageId, ref.url, Some(ref.index)).0;
    now := gone + {i};
    StrippedTwice(before, gone, table[messageId], i, Lookup(next, messageId));
    if |links| > 1 {
      StillValid(before, now, Lookup(next, messageId), links[1]);
    }
  }

  /** Deleting references in descending order, given that some above them are already gone. */
  lemma {:induction false} DeleteRemaining(
    before: Message, gone: set<nat>, table: Table, messageId: string, links: seq<LinkRef>
  )
    requires messageId in table && Stripped(before, gone, Some(table[messageId])) && links != []
    requires Descending(links) && PointsInto(links, before.content) && AllBelow(links, gone)
    ensures Stripped(before, gone + Indices(links), Lookup(DeleteEach(table, messageId, links), messageId))
    ensures SameElsewhere(table, DeleteEach(table, messageId, links), messageId)
    decreases |links|
  {
    var next, now := DeleteNext(before, gone, table, messageId, links);
    var rest := links[1..];
    IndicesSplit(links);
    assert gone + Indices(links) == now + Indices(rest);
    if rest == [] {
      assert now + Indices(rest) == now;
    } else {
      DeleteRemaining(before, now, next, messageId, rest);
      SameElsewhereTwice(table, next, DeleteEach(next, messageId, rest), messageId);
    }
  }

  lemma SameElsewhereTwice(table: Table, next: Table, after: Table, messageId: string)
    requires SameElsewhere(table, next, messageId) && SameElsewhere(next, after, messageId)
    ensures SameElsewhere(table, after, messageId)
  {
  }

  lemma IndicesSplit(links: seq<LinkRef>)
    requires links != [] && links[0].index >= 0
    ensures Indices(links) == {links[0].index as nat} + Indices(links[1..])
  {
    forall k: nat
      ensures k in Indices(links) <==> k in {links[0].index as nat} + Indices(links[1..])
    {
      if k in Indices(links) {
        var a :| 0 <= a < |links| && links[a].index == k;
        if a > 0 {
          assert links[1..][a - 1].index == k;
        }
      }
      if k in Indices(links[1..]) {
        var a :| 0 <= a < |links[1..]| && links[1..][a].index == k;
        assert links[a + 1].index == k;
      }
    }
  }

  /** Any non-empty set of a message's links, deleted in descending order. */
  lemma {:induction false} DescendingDeletion(table: Table, messageId: string, links: seq<LinkRef>)
    requires messageId in table && links != [] && Descending(links) && PointsInto(links, table[messageId].content)
    ensures Stripped(table[messageId], Indices(links), Lookup(DeleteEach(table, messageId, links), messageId))
    ensures SameElsewhere(table, DeleteEach(table, messageId, links), messageId)
  {
    var ref, rest, before := links[0], links[1..], table[messageId];
    var i: nat := ref.index;
    DeleteValid(table, messageId, ref);
    var next := DeleteLinkOccurrence(table, messageId, ref.url, Some(ref.index)).0;
    IndicesSplit(links);
    if rest == [] {
      assert Indices(rest) == {};
      assert Indices(links) == {i};
      assert DeleteEach(next, messageId, rest) == next;
    } else {
      StillValid(before, {i}, Lookup(next, messageId), rest[0]);
      DeleteRemaining(before, {i}, next, messageId, rest);
      SameElsewhereTwice(table, next, DeleteEach(next, messageId, rest), messageId);
    }
  }

  // ---- The whole selection --------------------------------------------------------------------------------

  /** The numbers of the selected links of a message. */
  function Selected(items: seq<Item>, messageId: string): set<nat> {
    set a | 0 <= a < |items| && NamesLink(items[a]) && items[a].messageId.value == messageId &&
      items[a].linkIndex.value >= 0
      :: items[a].linkIndex.value as nat
  }

  /** Items as the library lists them: ids are unique, and a link item points at a link of a stored message. */
  ghost predicate FromLibrary(table: Table, items: seq<Item>) {
    && (forall a, b :: 0 <= a < |items| && 0 <= b < |items| && items[a].id == items[b].id ==> items[a] == items[b])
    && (forall a, b :: 0 <= a < |items| && 0 <= b < |items| && SameLink(items[a], items[b]) ==>
          items[a].id == items[b].id)
    && (forall a :: 0 <= a < |items| && items[a].source == MessageLink ==> ListedLink(table, items[a]))
  }

  predicate SameLink(a: Item, b: Item) {
    NamesLink(a) && NamesLink(b) && a.messageId == b.messageId && a.linkIndex == b.linkIndex
  }

  ghost predicate NoLinkTwice(items: seq<Item>) {
    forall a, b {:trigger items[a], items[b]} :: 0 <= a < b < |items| ==> !SameLink(items[a], items[b])
  }

  predicate ListedLink(table: Table, item: Item) {
    && NamesLink(item) && item.messageId.value in table
    && ValidRef(LinkRef(item.linkUrl.value, item.linkIndex.value), table[item.messageId.value].content)
  }

  lemma {:induction false} UniqueHolds(items: seq<Item>)
    ensures forall item :: item in Unique(items) ==> item in items
    ensures forall a :: 0 <= a < |items| ==> exists b :: 0 <= b < |Unique(items)| && Unique(items)[b].id == items[a].id
    ensures forall a, b :: 0 <= a < b < |Unique(items)| ==> Unique(items)[a].id != Unique(items)[b].id
  {
    if items == [] {
    } else {
      var front, last := items[..|items| - 1], items[|items| - 1];
      UniqueHolds(front);
      var u := Unique(front);
      if exists k :: 0 <= k < |items| - 1 && items[k].id == last.id {
        var k :| 0 <= k < |items| - 1 && items[k].id == last.id;
        assert front[k].id == last.id;
        forall a | 0 <= a < |items|
          ensures exists b :: 0 <= b < |u| && u[b].id == items[a].id
        {
          if a < |front| {
            assert front[a] == items[a];
          }
        }
      } else {
        forall a | 0 <= a < |items|
          ensures exists b :: 0 <= b < |u + [last]| && (u + [last])[b].id == items[a].id
        {
          if a < |front| {
            assert front[a] == items[a];
            var b :| 0 <= b < |u| && u[b].id == front[a].id;
            assert (u + [last])[b].id == items[a].id;
          } else {
            assert (u + [last])[|u|].id == items[a].id;
          }
        }
        forall a | 0 <= a < |u|
          ensures u[a].id != last.id
        {
          assert u[a] in u && u[a] in front;
          var k :| 0 <= k < |front| && front[k] == u[a];
          assert items[k].id == u[a].id;
        }
      }
    }
  }

  lemma UniqueFromLibrary(table: Table, items: seq<Item>)
    requires FromLibrary(table, items)
    ensures FromLibrary(table, Unique(items)) && NoLinkTwice(Unique(items))
  {
    UniqueHolds(items);
    SomeOfLibrary(table, items, Unique(items));
  }

  lemma SomeOfLibrary(table: Table, items: seq<Item>, u: seq<Item>)
    requires FromLibrary(table, items) && forall item :: item in u ==> item in items
    requires forall a, b :: 0 <= a < b < |u| ==> u[a].id != u[b].id
    ensures FromLibrary(table, u) && NoLinkTwice(u)
  {
    forall a | 0 <= a < |u|
      ensures exists k :: 0 <= k < |items| && items[k] == u[a]
    {
      assert u[a] in items;
    }
  }

  lemma SelectedIn(items: seq<Item>, id: string, n: nat)
    ensures n in Selected(items, id) <==>
              exists item :: item in items && NamesLink(item) && item.messageId.value == id && item.linkIndex.value == n
  {
    if n in Selected(items, id) {
      var a :| 0 <= a < |items| && NamesLink(items[a]) && items[a].messageId.value == id &&
          items[a].linkIndex.value == n;
      assert items[a] in items;
    }
    if item :| item in items && NamesLink(item) && item.messageId.value == id && item.linkIndex.value == n {
      var a :| 0 <= a < |items| && items[a] == item;
    }
  }

  lemma UniqueSameItems(table: Table, items: seq<Item>, item: Item)
    requires FromLibrary(table, items)
    ensures item in Unique(items) <==> item in items
  {
    var u := Unique(items);
    UniqueHolds(items);
    if item in items {
      var k :| 0 <= k < |items| && items[k] == item;
      var b :| 0 <= b < |u| && u[b].id == items[k].id;
      assert u[b] in items;
      var j :| 0 <= j < |items| && items[j] == u[b];
      assert items[j] == items[k];
    }
  }

  /** Dropping repeated ids changes neither which links are selected nor that they come from the library. */
  lemma UniqueSelectsSame(table: Table, items: seq<Item>, id: string)
    requires FromLibrary(table, items)
    ensures Selected(Unique(items), id) == Selected(items, id)
  {
    forall n: nat
      ensures n in Selected(Unique(items), id) <==> n in Selected(items, id)
    {
      SelectedIn(items, id, n);
      SelectedIn(Unique(items), id, n);
      forall item
        ensures item in Unique(items) <==> item in items
      {
        UniqueSameItems(table, items, item);
      }
    }
  }

  ghost predicate Refers(items: seq<Item>, messageId: string, ref: LinkRef) {
    exists a :: 0 <= a < |items| && NamesLink(items[a]) && items[a].messageId.value == messageId
                && ref == LinkRef(items[a].linkUrl.value, items[a].linkIndex.value)
  }

  ghost predicate DistinctIndices(links: seq<LinkRef>) {
    forall a, b {:trigger links[a], links[b]} :: 0 <= a < b < |links| ==> links[a].index != links[b].index
  }

  lemma {:induction false} LinksOfHolds(items: seq<Item>, messageId: string, ref: LinkRef)
    ensures ref in LinksOf(items, messageId) <==> Refers(items, messageId, ref)
  {
    if items == [] {
    } else {
      LinksOfHolds(items[..|items| - 1], messageId, ref);
      RefersStep(items, messageId, ref);
    }
  }

  lemma {:induction false} LinksOfDistinct(items: seq<Item>, messageId: string)
    requires NoLinkTwice(items)
    ensures DistinctIndices(LinksOf(items, messageId))
  {
    if items == [] {
    } else {
      var front, last := items[..|items| - 1], items[|items| - 1];
      LinksOfDistinct(front, messageId);
      var r := LinksOf(front, messageId);
      if NamesLink(last) && last.messageId.value == messageId {
        forall a | 0 <= a < |r|
          ensures r[a].index != last.linkIndex.value
        {
          LinksOfHolds(front, messageId, r[a]);
          var k :| 0 <= k < |front| && NamesLink(front[k]) && front[k].messageId.value == messageId
            && r[a] == LinkRef(front[k].linkUrl.value, front[k].linkIndex.value);
          assert !SameLink(items[k], items[|items| - 1]);
        }
      }
    }
  }

  lemma RefersStep(items: seq<Item>, messageId: string, ref: LinkRef)
    requires items != []
    ensures var front, last := items[..|items| - 1], items[|items| - 1];
            Refers(items, messageId, ref) <==>
            || Refers(front, messageId, ref)
            || (NamesLink(last) && last.messageId.value == messageId &&
                ref == LinkRef(last.linkUrl.value, last.linkIndex.value))
  {
    var front := items[..|items| - 1];
    if Refers(front, messageId, ref) {
      var a :| 0 <= a < |front| && NamesLink(front[a]) && front[a].messageId.value == messageId
        && ref == LinkRef(front[a].linkUrl.value, front[a].linkIndex.value);
      assert items[a] == front[a];
    }
    if Refers(items, messageId, ref) {
      var a :| 0 <= a < |items| && NamesLink(items[a]) && items[a].messageId.value == messageId
        && ref == LinkRef(items[a].linkUrl.value, items[a].linkIndex.value);
      if a < |front| {
        assert front[a] == items[a];
      }
    }
  }

  ghost predicate Mentions(items: seq<Item>, id: string) {
    exists a :: 0 <= a < |items| && NamesLink(items[a]) && items[a].messageId.value == id
  }

  lemma MentionsStep(items: seq<Item>, id: string)
    requires items != []
    ensures var front, last := items[..|items| - 1], items[|items| - 1];
            Mentions(items, id) <==> Mentions(front, id) || (NamesLink(last) && last.messageId.value == id)
  {
    var front := items[..|items| - 1];
    if Mentions(front, id) {
      var a :| 0 <= a < |front| && NamesLink(front[a]) && front[a].messageId.value == id;
      assert items[a] == front[a];
    }
    if Mentions(items, id) {
      var a :| 0 <= a < |items| && NamesLink(items[a]) && items[a].messageId.value == id;
      if a < |front| {
        assert front[a] == items[a];
      }
    }
  }

  lemma {:induction false} MessagesOfHolds(items: seq<Item>, id: string)
    ensures id in MessagesOf(items) <==> Mentions(items, id)
  {
    if items == [] {
    } else {
      MessagesOfHolds(items[..|items| - 1], id);
      MentionsStep(items, id);
    }
  }

  ghost predicate NoIdTwice(order: seq<string>) {
    forall a, b {:trigger order[a], order[b]} :: 0 <= a < b < |order| ==> order[a] != order[b]
  }

  lemma {:induction false} MessagesOfDistinct(items: seq<Item>)
    ensures NoIdTwice(MessagesOf(items))
  {
    if items == [] {
    } else {
      MessagesOfDistinct(items[..|items| - 1]);
    }
  }

  /** The ordered deletion list of one message: its selected links, each once, highest number first. */
  lemma OrderedLinks(table: Table, items: seq<Item>, messageId: string)
    requires FromLibrary(table, items) && messageId in table && NoLinkTwice(items)
    ensures var s := StableSort(HigherFirst, LinksOf(items, messageId));
            && Descending(s) && PointsInto(s, table[messageId].content) && Indices(s) == Selected(items, messageId)
            && |s| == |LinksOf(items, messageId)|
  {
    var r := LinksOf(items, messageId);
    var s := StableSort(HigherFirst, r);
    LinksOfDistinct(items, messageId);
    SortSorts(HigherFirst, r);
    SortPermutes(HigherFirst, r);
    SortedDistinct(r, s);
    RefsAreSelected(table, items, messageId, s);
  }

  lemma RefsAreSelected(table: Table, items: seq<Item>, messageId: string, s: seq<LinkRef>)
    requires FromLibrary(table, items) && messageId in table && multiset(s) == multiset(LinksOf(items, messageId))
    ensures PointsInto(s, table[messageId].content) && Indices(s) == Selected(items, messageId)
  {
    SameMembers(s, LinksOf(items, messageId));
    forall a | 0 <= a < |s|
      ensures ValidRef(s[a], table[messageId].content) && s[a].index as nat in Selected(items, messageId)
    {
      assert s[a] in s;
      LinksOfHolds(items, messageId, s[a]);
      var k :| 0 <= k < |items| && NamesLink(items[k]) && items[k].messageId.value == messageId
        && s[a] == LinkRef(items[k].linkUrl.value, items[k].linkIndex.value);
      assert ListedLink(table, items[k]);
    }
    forall n | n in Selected(items, messageId)
      ensures n in Indices(s)
    {
      var a :| 0 <= a < |items| && NamesLink(items[a]) && items[a].messageId.value == messageId &&
          items[a].linkIndex.value == n;
      var ref := LinkRef(items[a].linkUrl.value, n);
      LinksOfHolds(items, messageId, ref);
      assert ref in s;
      var b :| 0 <= b < |s| && s[b] == ref;
    }
  }

  lemma SortedDistinct(r: seq<LinkRef>, s: seq<LinkRef>)
    requires multiset(r) == multiset(s) && SortedBy(HigherFirst, s) && DistinctIndices(r)
    ensures Descending(s)
  {
    PermutationKeepsDistinct((ref: LinkRef) => ref.index, r, s);
    forall a, b | 0 <= a < b < |s|
      ensures s[a].index > s[b].index
    {
      assert HigherFirst(s[a], s[b]);
    }
  }

  ghost predicate Pending(start: Table, table: Table, items: seq<Item>, order: seq<string>) {
    forall m :: m in order ==> m in start && Lookup(table, m) == Lookup(start, m) && LinksOf(items, m) != []
  }

  lemma {:induction false} GroupsLeaveOthers(
    start: Table, table: Table, items: seq<Item>, order: seq<string>, id: string
  )
    requires FromLibrary(start, items) && NoLinkTwice(items) && Pending(start, table, items, order) && NoIdTwice(order)
    ensures var after := Lookup(DeleteGroups(table, items, order), id);
            if id in order then Stripped(start[id], Selected(items, id), after) else after == Lookup(table, id)
    decreases |order|
  {
    if order == [] {
    } else {
      var next := DeleteFirstGroup(start, table, items, order);
      GroupsLeaveOthers(start, next, items, order[1..], id);
      FirstOrLater(order, id);
    }
  }

  lemma FirstOrLater(order: seq<string>, id: string)
    requires order != []
    ensures id in order <==> id == order[0] || id in order[1..]
  {
    assert order == [order[0]] + order[1..];
  }

  lemma DeleteFirstGroup(start: Table, table: Table, items: seq<Item>, order: seq<string>) returns (next: Table)
    requires FromLibrary(start, items) && NoLinkTwice(items) && Pending(start, table, items, order) && NoIdTwice(order)
    requires order != []
    ensures next == DeleteEach(table, order[0], StableSort(HigherFirst, LinksOf(items, order[0])))
    ensures order[0] in start && Stripped(start[order[0]], Selected(items, order[0]), Lookup(next, order[0]))
    ensures SameElsewhere(table, next, order[0]) && order[0] !in order[1..]
    ensures Pending(start, next, items, order[1..]) && NoIdTwice(order[1..])
  {
    var m := order[0];
    assert m in order;
    OrderedLinks(start, items, m);
    assert table[m] == start[m];
    next := DeleteEach(table, m, StableSort(HigherFirst, LinksOf(items, m)));
    DescendingDeletion(table, m, StableSort(HigherFirst, LinksOf(items, m)));
    forall k | k in order[1..]
      ensures k in order && k != m
    {
    }
  }

  /**
   * For every table and every selection from the library, in any order and with any repetition: a message
   * with selected links keeps exactly its other words and links, in order, and goes only when nothing else
   * is left of it; every other message is untouched.
   */
  lemma SelectionDeletesExactly(table: Table, items: seq<Item>, id: string)
    requires FromLibrary(table, items)
    ensures var gone, after := Selected(items, id), Lookup(DeleteSelection(table, items), id);
            && (gone == {} ==> after == Lookup(table, id))
            && (gone != {} ==>
                  && id in table && Stripped(table[id], gone, after)
                  && (after.Some? ==> LinkUrls(after.value.content) == Unselected(LinkUrls(table[id].content), 0, gone))
                  && (after == None ==> Unselected(LinkUrls(table[id].content), 0, gone) == []))
  {
    var u := Unique(items);
    UniqueFromLibrary(table, items);
    UniqueSelectsSame(table, items, id);
    var order := MessagesOf(u);
    MessagesOfDistinct(u);
    forall m | m in order
      ensures m in table && LinksOf(u, m) != []
    {
      SelectedIffListed(table, u, m);
      MessagesOfHolds(u, m);
      var a :| 0 <= a < |u| && NamesLink(u[a]) && u[a].messageId.value == m;
      LinksOfHolds(u, m, LinkRef(u[a].linkUrl.value, u[a].linkIndex.value));
    }
    GroupsLeaveOthers(table, table, u, order, id);
    SelectedIffListed(table, u, id);
    if id in order {
      StrippedLinks(table[id], Selected(u, id), Lookup(DeleteSelection(table, items), id));
    }
  }

  lemma SelectedIffListed(table: Table, u: seq<Item>, id: string)
    requires FromLibrary(table, u)
    ensures Selected(u, id) != {} <==> id in MessagesOf(u)
    ensures id in MessagesOf(u) ==> id in table
  {
    MessagesOfHolds(u, id);
    if id in MessagesOf(u) {
      var a :| 0 <= a < |u| && NamesLink(u[a]) && u[a].messageId.value == id;
      assert ListedLink(table, u[a]);
      assert u[a].linkIndex.value as nat in Selected(u, id);
    }
    if Selected(u, id) != {} {
      var n :| n in Selected(u, id);
    }
  }
}
