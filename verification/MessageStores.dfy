/** The client's message store and its message table, updated in place. */
module MessageStores {
  import opened Common
  import opened Sorting
  import opened MessagePaging

  class MessagesStore {
    const me: string
    var table: seq<Message>
    var messages: map<string, seq<Message>>
    var loadedPeerHistories: set<string>

    constructor (me: string)
      ensures this.me == me && Contents() == World([], map[]) && loadedPeerHistories == {}
      ensures Valid() && Complete()
    {
      this.me := me;
      table, messages, loadedPeerHistories := [], map[], {};
      new;
      EmptyComplete(me);
    }

    ghost function Contents(): World
      reads this
    {
      World(table, messages)
    }

    /** The class invariant: distinct ids everywhere, and every list sorted by time. */
    ghost predicate Valid()
      reads this
    {
      WorldTidy(Contents())
    }

    /** What is loaded of a conversation is a suffix of what is stored of it. */
    ghost predicate Complete()
      reads this
    {
      SuffixesLoaded(me, Contents())
    }

    /** The list of `peer` gained m, or had its old version replaced; no other list changed. */
    twostate predicate Upserted(peer: string, m: Message)
      reads this
    {
      && peer in messages
      && Replaces(Loaded(old(messages), peer), messages[peer], m)
      && forall p :: p != peer ==> Loaded(messages, p) == Loaded(old(messages), p)
    }

    /** The two loops over the existing and the incoming messages. */
    static method MergeLists(existing: seq<Message>, incoming: seq<Message>) returns (r: seq<Message>)
      ensures r == MergeAndSort(existing, incoming)
    {
      var merged: seq<Message> := [];
      var i := 0;
      while i < |existing|
        invariant 0 <= i <= |existing| && MapSetAll([], existing) == MapSetAll(merged, existing[i..])
      {
        merged := MapSet(merged, existing[i]);
        assert existing[i..][1..] == existing[i + 1..];
        i := i + 1;
      }
      i := 0;
      while i < |incoming|
        invariant 0 <= i <= |incoming|
        invariant MapSetAll(MapSetAll([], existing), incoming) == MapSetAll(merged, incoming[i..])
      {
        merged := MapSet(merged, incoming[i]);
        assert incoming[i..][1..] == incoming[i + 1..];
        i := i + 1;
      }
      return StableSort(NotAfter, merged);
    }

    method OnIncomingMessage(message: Message)
      requires Valid()
      modifies this
      ensures Contents() == Next(me, old(Contents()), Arrive(message))
      ensures loadedPeerHistories == old(loadedPeerHistories)
      ensures Valid() && Replaces(old(table), table, message) && Upserted(message.senderId, message)
      ensures old(Complete() && Ordinary(me, Contents(), Arrive(message))) ==> Complete()
    {
      StepKeepsTidy(me, Contents(), Arrive(message));
      MapSetReplaces(table, message);
      UpsertReplaces(Loaded(messages, message.senderId), message);
      if SuffixesLoaded(me, Contents()) && Ordinary(me, Contents(), Arrive(message)) {
        StepKeepsSuffixes(me, Contents(), Arrive(message));
      }
      table := MapSet(table, message);
      var list := if message.senderId in messages then messages[message.senderId] else [];
      messages := messages[message.senderId := UpsertAndSort(list, message)];
    }

    method SendMessage(message: Message)
      requires Valid()
      modifies this
      ensures Contents() == Next(me, old(Contents()), Send(message))
      ensures loadedPeerHistories == old(loadedPeerHistories)
      ensures Valid() && Replaces(old(table), table, message) && Upserted(message.recipientId, message)
      ensures old(Complete() && Ordinary(me, Contents(), Send(message))) ==> Complete()
    {
      StepKeepsTidy(me, Contents(), Send(message));
      MapSetReplaces(table, message);
      UpsertReplaces(Loaded(messages, message.recipientId), message);
      if SuffixesLoaded(me, Contents()) && Ordinary(me, Contents(), Send(message)) {
        StepKeepsSuffixes(me, Contents(), Send(message));
      }
      table := MapSet(table, message);
      var list := if message.recipientId in messages then messages[message.recipientId] else [];
      messages := messages[message.recipientId := UpsertAndSort(list, message)];
    }

    method LoadMessages(peer: string)
      requires Valid()
      modifies this
      ensures Contents() == Next(me, old(Contents()), Load(peer))
      ensures loadedPeerHistories == old(loadedPeerHistories) + {peer}
      ensures Valid() && table == old(table)
      ensures old(Complete()) && peer != me ==>
                && Complete()
                && |messages[peer]| == Max(|Loaded(old(messages), peer)|, Min(50, |Conversation(table, peer)|))
    {
      StepKeepsTidy(me, Contents(), Load(peer));
      if SuffixesLoaded(me, Contents()) && peer != me {
        StepKeepsSuffixes(me, Contents(), Load(peer));
        LoadedLength(me, Contents(), peer);
      }
      var history := MessageHistory(table, peer, PAGE, None);
      var list := if peer in messages then messages[peer] else [];
      var merged := MergeLists(list, history);
      messages := messages[peer := merged];
      loadedPeerHistories := loadedPeerHistories + {peer};
    }

    method LoadOlder(peer: string) returns (count: nat)
      requires Valid()
      modifies this
      ensures Contents() == Next(me, old(Contents()), LoadMore(peer))
      ensures count == |NextPage(old(Contents()), peer)|
      ensures loadedPeerHistories == old(loadedPeerHistories)
      ensures Valid() && table == old(table)
      ensures old(Complete()) && peer != me ==>
                && Complete() && |Loaded(messages, peer)| == |Loaded(old(messages), peer)| + count
                && count == Min(50, |Conversation(table, peer)| - |Loaded(old(messages), peer)|)
    {
      StepKeepsTidy(me, Contents(), LoadMore(peer));
      if SuffixesLoaded(me, Contents()) && peer != me {
        StepKeepsSuffixes(me, Contents(), LoadMore(peer));
        LoadMoreInRun(me, [Contents()], [], 0, peer);
      }
      var existing := if peer in messages then messages[peer] else [];
      var oldest := if |existing| == 0 then None else Some(existing[0].timestamp);
      var history := MessageHistory(table, peer, PAGE, oldest);
      if |history| == 0 {
        return 0;
      }
      var merged := MergeLists(existing, history);
      messages := messages[peer := merged];
      return |history|;
    }

    /** `markAsDelivered`, `markAsRead`, `markAsSent`, `markAsFailed` and `retrySend` differ in the status only. */
    method MarkAs(id: string, status: Status)
      requires Valid()
      modifies this
      ensures Contents() == Next(me, old(Contents()), SetStatus(id, status))
      ensures loadedPeerHistories == old(loadedPeerHistories)
      ensures Valid() && (old(Complete()) ==> Complete())
      ensures forall m :: m in table && m.id == id ==> m.status == status
      ensures forall p, m :: p in messages && m in messages[p] && m.id == id ==> m.status == status
      ensures forall m: Message :: m.id != id ==> (m in table <==> m in old(table))
    {
      StepKeepsTidy(me, Contents(), SetStatus(id, status));
      if SuffixesLoaded(me, Contents()) {
        StepKeepsSuffixes(me, Contents(), SetStatus(id, status));
      }
      RelabelOnlyLabels(table, id, status);
      forall p | p in messages
        ensures forall m :: m in WithStatus(messages[p], id, status) && m.id == id ==> m.status == status
      {
        RelabelOnlyLabels(messages[p], id, status);
      }
      table := WithStatus(table, id, status);
      messages := map p | p in messages :: WithStatus(messages[p], id, status);
    }

    method OnDeliveryReceipt(id: string, status: Status)
      requires Valid()
      modifies this
      ensures Contents() == Next(me, old(Contents()), Receipt(id, status))
      ensures loadedPeerHistories == old(loadedPeerHistories)
      ensures Valid()
      ensures forall m :: m in table && m.id == id ==> m.status == if Confirms(status) then status else Pending
      ensures old(Complete()) ==>
                (Complete() <==> (Upserts(id, status) ==> ReceiptNear(me, old(Contents()), id)))
    {
      ReceiptOutcome(me, Contents(), id, status);
      if status == Delivered {
        MarkAs(id, Delivered);
      } else if status == Read {
        MarkAs(id, Read);
      } else {
        MarkAs(id, Pending);
      }
      if id != "" && (status == Delivered || status == Read) {
        var updated := FindById(table, id);
        if updated.Some? {
          var m := updated.value;
          var peer := if m.senderId == me then m.recipientId else m.senderId;
          var list := if peer in messages then messages[peer] else [];
          messages := messages[peer := UpsertAndSort(list, m.(status := status))];
        }
      }
    }
  }

  lemma ReceiptOutcome(me: string, w: World, id: string, status: Status)
    requires WorldTidy(w)
    ensures var next := Next(me, w, Receipt(id, status));
            && WorldTidy(next)
            && (forall m :: m in next.table && m.id == id ==> m.status == if Confirms(status) then status else Pending)
            && (SuffixesLoaded(me, w) ==>
                  (SuffixesLoaded(me, next) <==> (Upserts(id, status) ==> ReceiptNear(me, w, id))))
  {
    StepKeepsTidy(me, w, Receipt(id, status));
    ReceiptEffect(me, w, id, status);
    RelabelOnlyLabels(w.table, id, if Confirms(status) then status else Pending);
    if SuffixesLoaded(me, w) {
      ReceiptKeepsSuffixIff(me, w, id, status);
    }
  }

  lemma EmptyComplete(me: string)
    ensures SuffixesLoaded(me, World([], map[]))
  {
    var w := World([], map[]);
    forall peer: string
      ensures SuffixLoaded(w, peer)
    {
      assert Loaded(w.loaded, peer) == Conversation(w.table, peer)[0..];
    }
  }

  lemma LoadedLength(me: string, w: World, peer: string)
    requires SuffixesLoaded(me, w) && peer != me
    ensures |Loaded(Next(me, w, Load(peer)).loaded, peer)|
         == Max(|Loaded(w.loaded, peer)|, Min(50, |Conversation(w.table, peer)|))
  {
    var conv := Conversation(w.table, peer);
    assert SuffixLoaded(w, peer);
    var n :| 0 <= n <= |conv| && Loaded(w.loaded, peer) == conv[n..];
    StrictConversation(me, w.table, peer);
    LoadExtends(me, w, peer, n);
  }

  lemma RelabelOnlyLabels(list: seq<Message>, id: string, status: Status)
    ensures forall m :: m in WithStatus(list, id, status) && m.id == id ==> m.status == status
    ensures forall m: Message :: m.id != id ==> (m in WithStatus(list, id, status) <==> m in list)
  {
    var after := WithStatus(list, id, status);
    forall m: Message | m.id != id && m in list
      ensures m in after
    {
      var i :| 0 <= i < |list| && list[i] == m;
      assert after[i] == m;
    }
  }
}
