/** The message table and the library's media tables, deleted from in place. */
module LibraryServices {
  import opened Common
  import opened Sorting
  import opened LinkScan
  import opened TextNormal
  import opened MessageLinks
  import opened MessageLibrary
  import opened LinkMeaning

  class LibraryService {
    var messages: Table
    var localAttachments: set<string>
    var remoteMedia: set<string>

    constructor ()
      ensures messages == map[] && localAttachments == {} && remoteMedia == {}
    {
      messages, localAttachments, remoteMedia := map[], {}, {};
    }

    method DeleteMessageLinkOccurrence(messageId: string, url: string, index: Option<int>) returns (deleted: bool)
      modifies this`messages
      ensures (messages, deleted) == DeleteLinkOccurrence(old(messages), messageId, url, index)
      ensures deleted <==>
                old(messageId in messages && exists i :: Takes(LinkUrls(messages[messageId].content), url, index, i))
      ensures !deleted ==> messages == old(messages)
    {
      TakesIffDeletes(messages, messageId, url, index);
      if messageId !in messages {
        return false;
      }
      var message := messages[messageId];
      var target := LinkMatch(Links(message.content), url, index);
      if target == None {
        return false;
      }
      LinkInside(message.content, target.value);
      var content := Normalize(Cut(message.content, target.value));
      if |content| == 0 && message.attachmentKinds == [] && message.replyTo == None {
        messages := messages - {messageId};
        return true;
      }
      var kind := if message.attachmentKinds != [] then KindOf(message.attachmentKinds) else "text";
      messages := messages[messageId := message.(content := content, kind := kind)];
      return true;
    }

    method DeleteLinks(messageId: string, links: seq<LinkRef>)
      modifies this`messages
      ensures messages == DeleteEach(old(messages), messageId, links)
    {
      var i := 0;
      while i < |links|
        invariant 0 <= i <= |links|
        invariant DeleteEach(old(messages), messageId, links) == DeleteEach(messages, messageId, links[i..])
      {
        assert links[i..][0] == links[i] && links[i..][1..] == links[i + 1..];
        var _ := DeleteMessageLinkOccurrence(messageId, links[i].url, Some(links[i].index));
        i := i + 1;
      }
    }

    /**
     * Items are made unique by id, sorted into media, attachments and links by message, and each message's
     * links deleted from the last to the first.
     */
    method DeleteLibraryItems(items: seq<Item>) returns (count: nat)
      modifies this
      ensures count == |Unique(items)|
      ensures messages == DeleteSelection(old(messages), items)
      ensures forall a :: a in localAttachments <==>
                a in old(localAttachments) && !exists item :: item in Unique(items) && NamesAttachment(item, a)
      ensures forall u :: u in remoteMedia <==>
                u in old(remoteMedia) && !exists item :: item in Unique(items) && NamesMedia(item, u)
    {
      var unique := Deduplicate(items);
      if |unique| == 0 {
        return 0;
      }
      var urls, ids := SelectedMedia(unique);
      var order, linksByMessage := GroupByMessage(unique);
      SelectedAre(unique);
      remoteMedia := remoteMedia - urls;
      localAttachments := localAttachments - ids;
      DeleteGrouped(unique, order, linksByMessage);
      return |unique|;
    }

    method DeleteGrouped(items: seq<Item>, order: seq<string>, linksByMessage: map<string, seq<LinkRef>>)
      requires Grouped(items, order, linksByMessage)
      modifies this`messages
      ensures messages == DeleteGroups(old(messages), items, order)
    {
      var i := 0;
      while i < |order|
        invariant 0 <= i <= |order|
        invariant DeleteGroups(old(messages), items, order) == DeleteGroups(messages, items, order[i..])
      {
        assert order[i..][0] == order[i] && order[i..][1..] == order[i + 1..];
        assert order[i] in order;
        DeleteLinks(order[i], StableSort(HigherFirst, linksByMessage[order[i]]));
        i := i + 1;
      }
    }
  }

  ghost predicate Grouped(items: seq<Item>, order: seq<string>, linksByMessage: map<string, seq<LinkRef>>) {
    && order == MessagesOf(items)
    && (forall id :: id in order <==> id in linksByMessage)
    && (forall id :: id in linksByMessage ==> linksByMessage[id] == LinksOf(items, id))
    && (forall id :: id !in linksByMessage ==> LinksOf(items, id) == [])
  }

  lemma GroupedStep(items: seq<Item>, order: seq<string>, linksByMessage: map<string, seq<LinkRef>>)
    requires items != [] && Grouped(items[..|items| - 1], order, linksByMessage)
    ensures var item := items[|items| - 1];
            if !NamesLink(item) then Grouped(items, order, linksByMessage)
            else
              var id := item.messageId.value;
              var links := (if id in linksByMessage then linksByMessage[id] else [])
                           + [LinkRef(item.linkUrl.value, item.linkIndex.value)];
              Grouped(items, if id in linksByMessage then order else order + [id], linksByMessage[id := links])
  {
  }

  method GroupByMessage(items: seq<Item>) returns (order: seq<string>, linksByMessage: map<string, seq<LinkRef>>)
    ensures Grouped(items, order, linksByMessage)
  {
    order, linksByMessage := [], map[];
    var i := 0;
    while i < |items|
      invariant 0 <= i <= |items| && Grouped(items[..i], order, linksByMessage)
    {
      var item := items[i];
      assert items[..i + 1][..i] == items[..i];
      GroupedStep(items[..i + 1], order, linksByMessage);
      if NamesLink(item) {
        var id := item.messageId.value;
        var existing := if id in linksByMessage then linksByMessage[id] else [];
        if id !in linksByMessage {
          order := order + [id];
        }
        linksByMessage := linksByMessage[id := existing + [LinkRef(item.linkUrl.value, item.linkIndex.value)]];
      }
      i := i + 1;
    }
    assert items[..i] == items;
  }

  method SelectedMedia(items: seq<Item>) returns (urls: set<string>, ids: set<string>)
    ensures urls == MediaUrls(items) && ids == AttachmentIds(items)
  {
    urls, ids := {}, {};
    var i := 0;
    while i < |items|
      invariant 0 <= i <= |items| && urls == MediaUrls(items[..i]) && ids == AttachmentIds(items[..i])
    {
      var item := items[i];
      assert items[..i + 1][..i] == items[..i];
      if item.source == RemoteMedia && item.remoteMediaUrl.Some? && item.remoteMediaUrl.value != [] {
        urls := urls + {item.remoteMediaUrl.value};
      } else if item.source == LocalAttachment && item.attachmentId.Some? && item.attachmentId.value != [] {
        ids := ids + {item.attachmentId.value};
      }
      i := i + 1;
    }
    assert items[..i] == items;
  }

  function MediaUrls(items: seq<Item>): set<string> {
    if items == [] then {}
    else
      var rest, last := MediaUrls(items[..|items| - 1]), items[|items| - 1];
      if last.source == RemoteMedia && last.remoteMediaUrl.Some? && last.remoteMediaUrl.value != [] then
        rest + {last.remoteMediaUrl.value}
      else rest
  }

  function AttachmentIds(items: seq<Item>): set<string> {
    if items == [] then {}
    else
      var rest, last := AttachmentIds(items[..|items| - 1]), items[|items| - 1];
      if last.source == LocalAttachment && last.attachmentId.Some? && last.attachmentId.value != [] then
        rest + {last.attachmentId.value}
      else rest
  }

  predicate NamesMedia(item: Item, url: string) {
    item.source == RemoteMedia && item.remoteMediaUrl == Some(url) && url != ""
  }

  predicate NamesAttachment(item: Item, id: string) {
    item.source == LocalAttachment && item.attachmentId == Some(id) && id != ""
  }

  /** The media and attachments selected are those that some item names. */
  lemma {:induction false} SelectedAre(items: seq<Item>)
    ensures forall u :: u in MediaUrls(items) <==> exists item :: item in items && NamesMedia(item, u)
    ensures forall a :: a in AttachmentIds(items) <==> exists item :: item in items && NamesAttachment(item, a)
  {
    if items == [] {
    } else {
      var front, last := items[..|items| - 1], items[|items| - 1];
      SelectedAre(front);
      assert forall item :: item in items <==> item in front || item == last;
      forall u
        ensures u in MediaUrls(items) <==> u in MediaUrls(front) || NamesMedia(last, u)
        ensures u in AttachmentIds(items) <==> u in AttachmentIds(front) || NamesAttachment(last, u)
      {
      }
    }
  }

  method Deduplicate(items: seq<Item>) returns (unique: seq<Item>)
    ensures unique == Unique(items)
  {
    unique := [];
    var i := 0;
    while i < |items|
      invariant 0 <= i <= |items| && unique == Unique(items[..i])
    {
      assert items[..i + 1][..i] == items[..i];
      assert forall k :: 0 <= k < i ==> items[..i + 1][k] == items[k];
      if !exists k :: 0 <= k < i && items[k].id == items[i].id {
        unique := unique + [items[i]];
      }
      i := i + 1;
    }
    assert items[..i] == items;
  }
}
