/** The messages a client keeps in memory per peer, and the pages it loads from its message table. */
module MessagePaging {
  import opened Common
  import opened Sorting

  datatype Status = Pending | Sent | Delivered | Read | Failed

  datatype Message = Message(id: string, senderId: string, recipientId: string, timestamp: int, status: Status)

  const PAGE: nat := 50

  // ---- Lists ------------------------------------------------------------------------------------------

  predicate NotAfter(a: Message, b: Message) { a.timestamp - b.timestamp <= 0 }

  lemma NotAfterPreorder()
    ensures TotalPreorder(NotAfter)
  {
  }

  function WithoutId(list: seq<Message>, id: string): seq<Message> {
    if list == [] then []
    else (if list[0].id == id then [] else [list[0]]) + WithoutId(list[1..], id)
  }

  function UpsertAndSort(list: seq<Message>, message: Message): seq<Message> {
    StableSort(NotAfter, WithoutId(list, message.id) + [message])
  }

  /** `Map.set` keyed by id, on the values in insertion order. */
  function MapSet(values: seq<Message>, message: Message): (r: seq<Message>)
    ensures |r| >= |values|
  {
    if values == [] then [message]
    else if values[0].id == message.id then [message] + values[1..]
    else [values[0]] + MapSet(values[1..], message)
  }

  function MapSetAll(values: seq<Message>, more: seq<Message>): seq<Message>
    decreases |more|
  {
    if more == [] then values else MapSetAll(MapSet(values, more[0]), more[1..])
  }

  function MergeAndSort(existing: seq<Message>, incoming: seq<Message>): seq<Message> {
    StableSort(NotAfter, MapSetAll(MapSetAll([], existing), incoming))
  }

  function InConversation(table: seq<Message>, peer: string): seq<Message> {
    if table == [] then []
    else
      var first := table[0];
      (if first.senderId == peer || first.recipientId == peer then [first] else []) + InConversation(table[1..], peer)
  }

  function OlderThan(list: seq<Message>, before: Option<int>): seq<Message> {
    if list == [] then []
    else (if before == None || list[0].timestamp < before.value then [list[0]] else []) + OlderThan(list[1..], before)
  }

  /** `slice(-limit)`. */
  function Last(list: seq<Message>, limit: nat): seq<Message> {
    if |list| <= limit then list else list[|list| - limit..]
  }

  function MessageHistory(table: seq<Message>, peer: string, limit: nat, before: Option<int>): seq<Message> {
    Last(StableSort(NotAfter, OlderThan(InConversation(table, peer), before)), limit)
  }

  /** Everything stored of a conversation, oldest first. */
  function Conversation(table: seq<Message>, peer: string): seq<Message> {
    StableSort(NotAfter, InConversation(table, peer))
  }

  function WithStatus(list: seq<Message>, id: string, status: Status): (r: seq<Message>)
    ensures |r| == |list|
    ensures forall i :: 0 <= i < |r| ==> r[i] == if list[i].id == id then list[i].(status := status) else list[i]
  {
    seq(|list|, i requires 0 <= i < |list| => if list[i].id == id then list[i].(status := status) else list[i])
  }

  // ---- Store events -----------------------------------------------------------------------------------

  datatype World = World(table: seq<Message>, loaded: map<string, seq<Message>>)

  datatype Event =
    | Arrive(message: Message) | Send(message: Message) | Load(peer: string) | LoadMore(peer: string)
    | SetStatus(id: string, status: Status) | Receipt(id: string, status: Status)

  function Loaded(loaded: map<string, seq<Message>>, peer: string): seq<Message> {
    if peer in loaded then loaded[peer] else []
  }

  function Upsert(loaded: map<string, seq<Message>>, peer: string, message: Message): map<string, seq<Message>> {
    loaded[peer := UpsertAndSort(Loaded(loaded, peer), message)]
  }

  function NextPage(w: World, peer: string): seq<Message> {
    var list := Loaded(w.loaded, peer);
    MessageHistory(w.table, peer, PAGE, if list == [] then None else Some(list[0].timestamp))
  }

  function Relabel(w: World, id: string, status: Status): World {
    World(WithStatus(w.table, id, status), map p | p in w.loaded :: WithStatus(w.loaded[p], id, status))
  }

  function FindById(table: seq<Message>, id: string): (r: Option<Message>)
    ensures r.Some? ==> r.value in table && r.value.id == id
    ensures r == None ==> forall i :: 0 <= i < |table| ==> table[i].id != id
  {
    if table == [] then None else if table[0].id == id then Some(table[0]) else FindById(table[1..], id)
  }

  function Next(me: string, w: World, e: Event): World {
    match e
    case Arrive(m) => World(MapSet(w.table, m), Upsert(w.loaded, m.senderId, m))
    case Send(m) => World(MapSet(w.table, m), Upsert(w.loaded, m.recipientId, m))
    case Load(peer) =>
      w.(loaded := w.loaded[peer := MergeAndSort(Loaded(w.loaded, peer), MessageHistory(w.table, peer, PAGE, None))])
    case LoadMore(peer) =>
      if NextPage(w, peer) == [] then w
      else w.(loaded := w.loaded[peer := MergeAndSort(Loaded(w.loaded, peer), NextPage(w, peer))])
    case SetStatus(id, status) => Relabel(w, id, status)
    case Receipt(id, status) =>
      if Upserts(id, status) then UpsertStored(me, Relabel(w, id, status), id, status)
      else if Confirms(status) then Relabel(w, id, status)
      else Relabel(w, id, Pending)
  }

  /** Any other status of a receipt means the message waits on the server. */
  predicate Confirms(status: Status) { status == Delivered || status == Read }

  predicate Upserts(id: string, status: Status) { id != "" && Confirms(status) }

  /** A receipt puts the stored message into its peer's list, loaded or not. */
  function UpsertStored(me: string, w: World, id: string, status: Status): World {
    match FindById(w.table, id)
    case None => w
    case Some(m) =>
      var peer := if m.senderId == me then m.recipientId else m.senderId;
      w.(loaded := Upsert(w.loaded, peer, m.(status := status)))
  }

  ghost predicate IsRun(me: string, worlds: seq<World>, events: seq<Event>) {
    && |worlds| == |events| + 1
    && forall i :: 0 <= i < |events| ==> worlds[i + 1] == Next(me, worlds[i], events[i])
  }

  // ---- Every list stays sorted, with distinct ids -------------------------------------------------------

  ghost predicate DistinctIds(list: seq<Message>) {
    forall i, j {:trigger list[i], list[j]} :: 0 <= i < j < |list| ==> list[i].id != list[j].id
  }

  ghost predicate HasId(list: seq<Message>, id: string) { exists i :: 0 <= i < |list| && list[i].id == id }

  ghost predicate Tidy(list: seq<Message>) { DistinctIds(list) && SortedBy(NotAfter, list) }

  ghost predicate WorldTidy(w: World) {
    DistinctIds(w.table) && forall p :: p in w.loaded ==> Tidy(w.loaded[p])
  }

  lemma SortTidies(list: seq<Message>)
    requires DistinctIds(list)
    ensures Tidy(StableSort(NotAfter, list))
  {
    NotAfterPreorder();
    SortSorts(NotAfter, list);
    SortPermutes(NotAfter, list);
    PermutationKeepsDistinct((m: Message) => m.id, list, StableSort(NotAfter, list));
  }

  lemma {:induction false} WithoutIdHolds(list: seq<Message>, id: string)
    requires DistinctIds(list)
    ensures DistinctIds(WithoutId(list, id)) && !HasId(WithoutId(list, id), id)
    ensures forall m :: m in WithoutId(list, id) <==> m in list && m.id != id
  {
    if list == [] {
    } else {
      var rest := list[1..];
      WithoutIdHolds(rest, id);
      assert list == [list[0]] + rest;
      forall m | m in WithoutId(rest, id)
        ensures m.id != list[0].id
      {
        var i :| 0 <= i < |rest| && rest[i] == m;
        assert list[i + 1] == m;
      }
    }
  }

  lemma UpsertTidy(list: seq<Message>, m: Message)
    requires DistinctIds(list)
    ensures Tidy(UpsertAndSort(list, m))
  {
    WithoutIdHolds(list, m.id);
    var s := WithoutId(list, m.id);
    assert DistinctIds(s + [m]);
    SortTidies(s + [m]);
  }

  lemma {:induction false} MapSetDistinct(values: seq<Message>, m: Message)
    requires DistinctIds(values)
    ensures DistinctIds(MapSet(values, m))
    ensures forall x :: x in MapSet(values, m) ==> x == m || x in values
  {
    if values == [] {
    } else if values[0].id == m.id {
    } else {
      var rest := MapSet(values[1..], m);
      MapSetDistinct(values[1..], m);
      forall i | 0 <= i < |rest|
        ensures rest[i].id != values[0].id
      {
        assert rest[i] in rest;
      }
    }
  }

  /** `next` is `list` with the message of m's id, if any, replaced by m. */
  ghost predicate Replaces(list: seq<Message>, next: seq<Message>, m: Message) {
    forall x :: x in next <==> x == m || (x in list && x.id != m.id)
  }

  lemma UpsertReplaces(list: seq<Message>, m: Message)
    requires DistinctIds(list)
    ensures Replaces(list, UpsertAndSort(list, m), m)
  {
    WithoutIdHolds(list, m.id);
    var s := WithoutId(list, m.id) + [m];
    SortPermutes(NotAfter, s);
    SameMembers(UpsertAndSort(list, m), s);
  }

  lemma {:induction false} MapSetReplaces(values: seq<Message>, m: Message)
    requires DistinctIds(values)
    ensures Replaces(values, MapSet(values, m), m)
  {
    if values == [] {
    } else {
      assert values == [values[0]] + values[1..];
      forall x | x in values[1..]
        ensures x.id != values[0].id
      {
        var i :| 0 <= i < |values[1..]| && values[1..][i] == x;
        assert values[i + 1].id != values[0].id;
      }
      if values[0].id != m.id {
        MapSetReplaces(values[1..], m);
      }
    }
  }

  lemma {:induction false} MapSetAllDistinct(values: seq<Message>, more: seq<Message>)
    requires DistinctIds(values)
    ensures DistinctIds(MapSetAll(values, more))
    decreases |more|
  {
    if more == [] {
    } else {
      MapSetDistinct(values, more[0]);
      MapSetAllDistinct(MapSet(values, more[0]), more[1..]);
    }
  }

  /** Whatever was loaded, merging leaves ids distinct and timestamps in order. */
  lemma MergeTidy(existing: seq<Message>, incoming: seq<Message>)
    ensures Tidy(MergeAndSort(existing, incoming))
  {
    MapSetAllDistinct([], existing);
    MapSetAllDistinct(MapSetAll([], existing), incoming);
    SortTidies(MapSetAll(MapSetAll([], existing), incoming));
  }

  lemma RelabelTidy(w: World, id: string, status: Status)
    requires WorldTidy(w)
    ensures WorldTidy(Relabel(w, id, status))
  {
    forall p | p in w.loaded
      ensures Tidy(WithStatus(w.loaded[p], id, status))
    {
      var a, b := w.loaded[p], WithStatus(w.loaded[p], id, status);
      forall i, j | 0 <= i < j < |b|
        ensures b[i].id != b[j].id && NotAfter(b[i], b[j])
      {
        assert a[i].id != a[j].id && NotAfter(a[i], a[j]);
      }
    }
    var t := WithStatus(w.table, id, status);
    forall i, j | 0 <= i < j < |t|
      ensures t[i].id != t[j].id
    {
      assert w.table[i].id != w.table[j].id;
    }
  }

  lemma LoadedTidy(w: World, peer: string)
    requires WorldTidy(w)
    ensures Tidy(Loaded(w.loaded, peer))
  {
  }

  lemma StepKeepsTidy(me: string, w: World, e: Event)
    requires WorldTidy(w)
    ensures WorldTidy(Next(me, w, e))
  {
    match e
    case Arrive(m) =>
      MapSetDistinct(w.table, m);
      LoadedTidy(w, m.senderId);
      UpsertTidy(Loaded(w.loaded, m.senderId), m);
    case Send(m) =>
      MapSetDistinct(w.table, m);
      LoadedTidy(w, m.recipientId);
      UpsertTidy(Loaded(w.loaded, m.recipientId), m);
    case Load(peer) => MergeTidy(Loaded(w.loaded, peer), MessageHistory(w.table, peer, PAGE, None));
    case LoadMore(peer) => MergeTidy(Loaded(w.loaded, peer), NextPage(w, peer));
    case SetStatus(id, status) => RelabelTidy(w, id, status);
    case Receipt(id, status) =>
      RelabelTidy(w, id, status);
      RelabelTidy(w, id, Pending);
      ReceiptTidy(me, w, id, status);
  }

  lemma ReceiptTidy(me: string, w: World, id: string, status: Status)
    requires WorldTidy(Relabel(w, id, status)) && WorldTidy(Relabel(w, id, Pending))
    ensures WorldTidy(Next(me, w, Receipt(id, status)))
  {
    var r := Relabel(w, id, status);
    match FindById(r.table, id) {
      case None =>
      case Some(m) =>
        var peer := if m.senderId == me then m.recipientId else m.senderId;
        LoadedTidy(r, peer);
        UpsertTidy(Loaded(r.loaded, peer), m.(status := status));
    }
  }

  /** In every run every peer's list has distinct ids and is sorted by timestamp. */
  lemma {:induction false} RunKeepsTidy(me: string, worlds: seq<World>, events: seq<Event>, k: nat)
    requires IsRun(me, worlds, events) && WorldTidy(worlds[0]) && k < |worlds|
    ensures WorldTidy(worlds[k])
  {
    if k == 0 {
    } else {
      RunKeepsTidy(me, worlds, events, k - 1);
      StepKeepsTidy(me, worlds[k - 1], events[k - 1]);
    }
  }

  // ---- Pages ---------------------------------------------------------------------------------------------

  lemma LaterSorted(s: seq<Message>)
    requires s != [] && SortedBy(NotAfter, s)
    ensures SortedBy(NotAfter, s[1..])
  {
    forall i, j | 0 <= i < j < |s[1..]|
      ensures NotAfter(s[1..][i], s[1..][j])
    {
      assert NotAfter(s[i + 1], s[j + 1]);
    }
  }

  lemma {:induction false} InsertOlder(m: Message, s: seq<Message>, before: Option<int>)
    requires SortedBy(NotAfter, s)
    ensures OlderThan(Insert(NotAfter, m, s), before)
         == if before == None || m.timestamp < before.value then Insert(NotAfter, m, OlderThan(s, before))
            else OlderThan(s, before)
  {
    if s == [] {
    } else if NotAfter(m, s[0]) {
      assert ([m] + s)[1..] == s;
      if before.Some? && s[0].timestamp >= before.value {
        NoneOlder(s, before.value);
      }
    } else {
      var rest := Insert(NotAfter, m, s[1..]);
      assert ([s[0]] + rest)[1..] == rest;
      LaterSorted(s);
      InsertOlder(m, s[1..], before);
      if before == None || s[0].timestamp < before.value {
        assert ([s[0]] + OlderThan(s[1..], before))[1..] == OlderThan(s[1..], before);
      } else {
        NoneOlder(s, before.value);
      }
    }
  }

  lemma {:induction false} NoneOlder(s: seq<Message>, before: int)
    requires SortedBy(NotAfter, s) && (s == [] || s[0].timestamp >= before)
    ensures OlderThan(s, Some(before)) == []
  {
    if |s| <= 1 {
    } else {
      assert NotAfter(s[0], s[1]);
      LaterSorted(s);
      NoneOlder(s[1..], before);
    }
  }

  /** Sorting what is old enough is taking what is old enough from the sorted conversation. */
  lemma {:induction false} FilterThenSort(list: seq<Message>, before: Option<int>)
    ensures StableSort(NotAfter, OlderThan(list, before)) == OlderThan(StableSort(NotAfter, list), before)
  {
    if list == [] {
    } else {
      var m, rest := list[0], list[1..];
      FilterThenSort(rest, before);
      NotAfterPreorder();
      SortSorts(NotAfter, rest);
      InsertOlder(m, StableSort(NotAfter, rest), before);
      if before == None || m.timestamp < before.value {
        SortPrepend(m, OlderThan(rest, before));
        assert OlderThan(list, before) == [m] + OlderThan(rest, before);
      } else {
        assert OlderThan(list, before) == OlderThan(rest, before);
      }
    }
  }

  lemma SortPrepend(m: Message, rest: seq<Message>)
    ensures StableSort(NotAfter, [m] + rest) == Insert(NotAfter, m, StableSort(NotAfter, rest))
  {
    assert ([m] + rest)[1..] == rest;
  }

  /** In a sorted list the older messages are a prefix. */
  lemma {:induction false} OlderIsPrefix(s: seq<Message>, before: Option<int>, n: nat)
    requires SortedBy(NotAfter, s) && n <= |s|
    requires forall i :: 0 <= i < n ==> before == None || s[i].timestamp < before.value
    requires n < |s| ==> before.Some? && s[n].timestamp >= before.value
    ensures OlderThan(s, before) == s[..n]
  {
    if n == 0 {
      if s != [] {
        NoneOlder(s, before.value);
      }
    } else {
      LaterSorted(s);
      OlderIsPrefix(s[1..], before, n - 1);
      assert s[..n] == [s[0]] + s[1..][..n - 1];
    }
  }

  lemma {:induction false} OlderAreOlder(s: seq<Message>, before: int)
    ensures forall m :: m in OlderThan(s, Some(before)) ==> m in s && m.timestamp < before
  {
    if s == [] {
    } else {
      OlderAreOlder(s[1..], before);
    }
  }

  /** Sorting two sorted lists, the second wholly before the first. */
  lemma {:induction false} SortRotates(a: seq<Message>, b: seq<Message>)
    requires SortedBy(NotAfter, a) && SortedBy(NotAfter, b)
    requires forall x, y :: x in a && y in b ==> y.timestamp < x.timestamp
    ensures StableSort(NotAfter, a + b) == b + a
  {
    if a == [] {
      assert a + b == b && b + a == b;
      SortKeepsSorted(NotAfter, b);
    } else {
      var rest := a[1..];
      assert (a + b)[1..] == rest + b;
      SortRotates(rest, b);
      assert a[0] in a;
      InsertBehind(a[0], b, rest);
      assert a == [a[0]] + rest;
      assert Insert(NotAfter, a[0], rest) == a;
    }
  }

  lemma {:induction false} InsertBehind(m: Message, b: seq<Message>, rest: seq<Message>)
    requires forall y :: y in b ==> y.timestamp < m.timestamp
    ensures Insert(NotAfter, m, b + rest) == b + Insert(NotAfter, m, rest)
  {
    if b == [] {
      assert b + rest == rest;
    } else {
      assert b[0] in b;
      assert (b + rest)[1..] == b[1..] + rest;
      InsertBehind(m, b[1..], rest);
    }
  }

  lemma {:induction false} MapSetNew(values: seq<Message>, m: Message)
    requires !HasId(values, m.id)
    ensures MapSet(values, m) == values + [m]
  {
    if values == [] {
    } else {
      assert values[0].id != m.id;
      forall i | 0 <= i < |values[1..]|
        ensures values[1..][i].id != m.id
      {
        assert values[i + 1].id != m.id;
      }
      MapSetNew(values[1..], m);
    }
  }

  lemma {:induction false} MapSetSame(values: seq<Message>, m: Message)
    requires DistinctIds(values) && m in values
    ensures MapSet(values, m) == values
  {
    assert values == [values[0]] + values[1..];
    if values[0] == m {
    } else {
      LaterId(values, m);
      MapSetSame(values[1..], m);
    }
  }

  lemma LaterId(values: seq<Message>, m: Message)
    requires DistinctIds(values) && m in values && values[0] != m
    ensures m in values[1..] && values[0].id != m.id && DistinctIds(values[1..])
  {
    var i :| 0 <= i < |values| && values[i] == m;
    assert values[1..][i - 1] == m && values[0].id != values[i].id;
  }

  /** Setting a list of new ids appends it; setting a list already there changes nothing. */
  lemma {:induction false} MapSetAllNew(values: seq<Message>, more: seq<Message>)
    requires DistinctIds(values + more)
    ensures MapSetAll(values, more) == values + more
    decreases |more|
  {
    if more == [] {
      assert values + more == values;
    } else {
      var joined := values + more;
      forall i | 0 <= i < |values|
        ensures values[i].id != more[0].id
      {
        assert joined[i].id != joined[|values|].id;
      }
      MapSetNew(values, more[0]);
      assert (values + [more[0]]) + more[1..] == joined;
      MapSetAllNew(values + [more[0]], more[1..]);
    }
  }

  lemma {:induction false} MapSetAllKnown(values: seq<Message>, more: seq<Message>)
    requires DistinctIds(values) && forall m :: m in more ==> m in values
    ensures MapSetAll(values, more) == values
    decreases |more|
  {
    if more == [] {
    } else {
      assert more[0] in more;
      MapSetSame(values, more[0]);
      MapSetAllKnown(values, more[1..]);
    }
  }

  lemma {:induction false} MapSetAllAppend(values: seq<Message>, a: seq<Message>, b: seq<Message>)
    ensures MapSetAll(values, a + b) == MapSetAll(MapSetAll(values, a), b)
    decreases |a|
  {
    if a == [] {
      assert a + b == b;
    } else {
      assert (a + b)[0] == a[0] && (a + b)[1..] == a[1..] + b;
      MapSetAllAppend(MapSet(values, a[0]), a[1..], b);
    }
  }

  /** A loaded suffix merged with what directly precedes it, possibly overlapping it. */
  lemma MergeSuffix(conv: seq<Message>, n: nat, k: nat, m: nat)
    requires Tidy(conv) && k <= n <= m <= |conv|
    requires 0 < n < |conv| ==> conv[n - 1].timestamp < conv[n].timestamp
    ensures MergeAndSort(conv[n..], conv[k..m]) == conv[k..]
  {
    Slices(conv, k, n, m);
    DistinctHalves(conv, n, k);
    MergePage(conv[n..], conv[k..n], conv[n..m]);
    PageBefore(conv, n, k);
    SortRotates(conv[n..], conv[k..n]);
  }

  lemma Slices(conv: seq<Message>, k: nat, n: nat, m: nat)
    requires k <= n <= m <= |conv|
    ensures conv[k..m] == conv[k..n] + conv[n..m] && conv[k..] == conv[k..n] + conv[n..]
    ensures forall x :: x in conv[n..m] ==> x in conv[n..]
  {
    assert conv[n..][..m - n] == conv[n..m];
  }

  lemma DistinctHalves(conv: seq<Message>, n: nat, k: nat)
    requires DistinctIds(conv) && k <= n <= |conv|
    ensures DistinctIds(conv[n..] + conv[k..n])
  {
  }

  /** New messages are appended to the loaded ones before the sort, known ones replace themselves. */
  lemma MergePage(list: seq<Message>, page: seq<Message>, known: seq<Message>)
    requires DistinctIds(list + page) && forall m :: m in known ==> m in list
    ensures MergeAndSort(list, page + known) == StableSort(NotAfter, list + page)
  {
    assert DistinctIds([] + list) by {
      forall i, j | 0 <= i < j < |list|
        ensures list[i].id != list[j].id
      {
        assert (list + page)[i].id != (list + page)[j].id;
      }
    }
    MapSetAllNew([], list);
    assert [] + list == list;
    MapSetAllAppend(list, page, known);
    MapSetAllNew(list, page);
    MapSetAllKnown(list + page, known);
  }

  lemma PageBefore(conv: seq<Message>, n: nat, k: nat)
    requires SortedBy(NotAfter, conv) && k <= n <= |conv|
    requires 0 < n < |conv| ==> conv[n - 1].timestamp < conv[n].timestamp
    ensures SortedBy(NotAfter, conv[n..]) && SortedBy(NotAfter, conv[k..n])
    ensures forall x, y :: x in conv[n..] && y in conv[k..n] ==> y.timestamp < x.timestamp
  {
    forall x, y | x in conv[n..] && y in conv[k..n]
      ensures y.timestamp < x.timestamp
    {
      var i :| 0 <= i < |conv[n..]| && conv[n..][i] == x;
      var j :| 0 <= j < |conv[k..n]| && conv[k..n][j] == y;
      assert i > 0 ==> NotAfter(conv[n], conv[n + i]);
      assert k + j < n - 1 ==> NotAfter(conv[k + j], conv[n - 1]);
    }
  }

  // ---- One page ----------------------------------------------------------------------------------------------

  function PageStart(n: nat): nat { if n <= PAGE then 0 else n - PAGE }

  /** No two messages on the two sides of position `n` have the same timestamp. */
  predicate CleanBreak(conv: seq<Message>, n: nat)
    requires n <= |conv|
  {
    n == 0 || n == |conv| || conv[n - 1].timestamp < conv[n].timestamp
  }

  lemma {:induction false} FromTable(table: seq<Message>, peer: string)
    ensures forall m :: m in InConversation(table, peer) <==>
              m in table && (m.senderId == peer || m.recipientId == peer)
    ensures DistinctIds(table) ==> DistinctIds(InConversation(table, peer))
  {
    if table == [] {
    } else {
      var rest := table[1..];
      FromTable(rest, peer);
      assert table == [table[0]] + rest;
      if DistinctIds(table) {
        assert DistinctIds(rest);
        forall m | m in InConversation(rest, peer)
          ensures m.id != table[0].id
        {
          var i :| 0 <= i < |rest| && rest[i] == m;
          assert table[i + 1] == m;
        }
      }
    }
  }

  lemma ConversationTidy(table: seq<Message>, peer: string)
    requires DistinctIds(table)
    ensures Tidy(Conversation(table, peer))
    ensures forall m :: m in Conversation(table, peer) <==> m in table && (m.senderId == peer || m.recipientId == peer)
  {
    FromTable(table, peer);
    SortTidies(InConversation(table, peer));
    SortPermutes(NotAfter, InConversation(table, peer));
    SameMembers(Conversation(table, peer), InConversation(table, peer));
  }

  function BeforeOf(conv: seq<Message>, n: nat): Option<int> { if n < |conv| then Some(conv[n].timestamp) else None }

  /** The page before position `n` of the conversation, when the break there is clean. */
  lemma HistoryIsSlice(table: seq<Message>, peer: string, n: nat)
    requires DistinctIds(table) && n <= |Conversation(table, peer)| && CleanBreak(Conversation(table, peer), n)
    ensures var conv := Conversation(table, peer);
            MessageHistory(table, peer, PAGE, BeforeOf(conv, n)) == conv[PageStart(n)..n]
  {
    var conv := Conversation(table, peer);
    ConversationTidy(table, peer);
    FilterThenSort(InConversation(table, peer), BeforeOf(conv, n));
    BeforeCleanBreak(conv, n);
    LastOfPrefix(conv, n);
  }

  lemma BeforeCleanBreak(conv: seq<Message>, n: nat)
    requires SortedBy(NotAfter, conv) && n <= |conv| && CleanBreak(conv, n)
    ensures OlderThan(conv, BeforeOf(conv, n)) == conv[..n]
  {
    forall i | 0 <= i < n < |conv|
      ensures conv[i].timestamp < conv[n].timestamp
    {
      assert i < n - 1 ==> NotAfter(conv[i], conv[n - 1]);
    }
    OlderIsPrefix(conv, BeforeOf(conv, n), n);
  }

  lemma LastOfPrefix(conv: seq<Message>, n: nat)
    requires n <= |conv|
    ensures Last(conv[..n], PAGE) == conv[PageStart(n)..n]
  {
  }

  /** A page never holds a message as new as the oldest loaded one. */
  lemma HistoryIsOlder(table: seq<Message>, peer: string, before: int, m: Message)
    requires m in MessageHistory(table, peer, PAGE, Some(before))
    ensures m.timestamp < before
  {
    var all := OlderThan(InConversation(table, peer), Some(before));
    OlderAreOlder(InConversation(table, peer), before);
    SortPermutes(NotAfter, all);
    SameMembers(StableSort(NotAfter, all), all);
  }

  /**
   * With the messages from position `n` on loaded, `loadMore` loads exactly the previous page, of
   * min(50, n) messages, if and only if no timestamp tie straddles position `n`.
   */
  lemma LoadMoreExtendsIff(me: string, w: World, peer: string, n: nat)
    requires DistinctIds(w.table) && n <= |Conversation(w.table, peer)|
    requires Loaded(w.loaded, peer) == Conversation(w.table, peer)[n..]
    ensures var conv := Conversation(w.table, peer);
            && (NextPage(w, peer) == conv[n - Min(50, n)..n] <==> CleanBreak(conv, n))
            && (CleanBreak(conv, n) ==>
                  && |NextPage(w, peer)| == Min(50, n)
                  && Loaded(Next(me, w, LoadMore(peer)).loaded, peer) == conv[n - Min(50, n)..])
  {
    var conv := Conversation(w.table, peer);
    ConversationTidy(w.table, peer);
    assert PageStart(n) == n - Min(50, n);
    if CleanBreak(conv, n) {
      HistoryIsSlice(w.table, peer, n);
      MergeSuffix(conv, n, PageStart(n), n);
    } else {
      TiedPage(w, peer, conv, n, PageStart(n));
    }
  }

  /** Across a tie the page before position n is not the one that is loaded. */
  lemma TiedPage(w: World, peer: string, conv: seq<Message>, n: nat, k: nat)
    requires DistinctIds(w.table) && conv == Conversation(w.table, peer) && n <= |conv| && !CleanBreak(conv, n)
    requires Loaded(w.loaded, peer) == conv[n..] && k < n && Tidy(conv)
    ensures NextPage(w, peer) != conv[k..n]
  {
    assert conv[k..n][n - 1 - k] == conv[n - 1];
    if NextPage(w, peer) == conv[k..n] {
      HistoryIsOlder(w.table, peer, conv[n].timestamp, conv[n - 1]);
      assert false;
    }
  }

  /** Opening a conversation extends what is loaded to at least the newest page. */
  lemma LoadExtends(me: string, w: World, peer: string, n: nat)
    requires DistinctIds(w.table) && n <= |Conversation(w.table, peer)| && CleanBreak(Conversation(w.table, peer), n)
    requires Loaded(w.loaded, peer) == Conversation(w.table, peer)[n..]
    ensures var conv := Conversation(w.table, peer);
            Loaded(Next(me, w, Load(peer)).loaded, peer) == conv[Min(n, |conv| - Min(50, |conv|))..]
  {
    var conv := Conversation(w.table, peer);
    var k := PageStart(|conv|);
    ConversationTidy(w.table, peer);
    HistoryIsSlice(w.table, peer, |conv|);
    assert conv[k..|conv|] == conv[k..];
    if k <= n {
      MergeSuffix(conv, n, k, |conv|);
    } else {
      KnownPage(conv, n, k);
    }
  }

  lemma KnownPage(conv: seq<Message>, n: nat, k: nat)
    requires Tidy(conv) && n <= k <= |conv|
    ensures MergeAndSort(conv[n..], conv[k..]) == conv[n..]
  {
    var list, known := conv[n..], conv[k..];
    assert list[k - n..] == known;
    assert [] + known == known && list + [] == list;
    MergePage(list, [], known);
    SortKeepsSorted(NotAfter, list);
  }

  // ---- Newest-last arrivals -----------------------------------------------------------------------------

  lemma {:induction false} InConversationAppend(table: seq<Message>, m: Message, peer: string)
    ensures InConversation(table + [m], peer)
         == InConversation(table, peer) + (if m.senderId == peer || m.recipientId == peer then [m] else [])
  {
    if table == [] {
      assert table + [m] == [m];
    } else {
      InConversationAppend(table[1..], m, peer);
      assert (table + [m])[1..] == table[1..] + [m];
    }
  }

  /** A message with a new id, later than everything stored of the conversation. */
  ghost predicate Newest(table: seq<Message>, peer: string, m: Message) {
    !HasId(table, m.id) && forall x :: x in table && (x.senderId == peer || x.recipientId == peer) ==>
      x.timestamp < m.timestamp
  }

  lemma StoredLast(table: seq<Message>, peer: string, m: Message)
    requires DistinctIds(table) && Newest(table, peer, m) && (m.senderId == peer || m.recipientId == peer)
    ensures MapSet(table, m) == table + [m]
    ensures Conversation(MapSet(table, m), peer) == Conversation(table, peer) + [m]
  {
    MapSetNew(table, m);
    InConversationAppend(table, m, peer);
    FromTable(table, peer);
    SortAppendMaximum(NotAfter, InConversation(table, peer), m);
  }

  lemma {:induction false} WithoutUnknown(list: seq<Message>, id: string)
    requires !HasId(list, id)
    ensures WithoutId(list, id) == list
  {
    if list == [] {
    } else {
      assert list[0].id != id;
      forall i | 0 <= i < |list[1..]|
        ensures list[1..][i].id != id
      {
        assert list[i + 1].id != id;
      }
      WithoutUnknown(list[1..], id);
    }
  }

  lemma UpsertLast(table: seq<Message>, peer: string, n: nat, m: Message)
    requires DistinctIds(table) && Newest(table, peer, m) && (m.senderId == peer || m.recipientId == peer)
    requires n <= |Conversation(table, peer)|
    ensures UpsertAndSort(Conversation(table, peer)[n..], m) == (Conversation(table, peer) + [m])[n..]
  {
    var conv := Conversation(table, peer);
    ConversationTidy(table, peer);
    var list := conv[n..];
    forall i | 0 <= i < |list|
      ensures list[i].id != m.id && list[i].timestamp < m.timestamp
    {
      assert list[i] == conv[n + i] && conv[n + i] in conv;
      var k :| 0 <= k < |table| && table[k] == conv[n + i];
    }
    WithoutUnknown(list, m.id);
    SortKeepsSorted(NotAfter, list);
    SortAppendMaximum(NotAfter, list, m);
  }

  // ---- Status changes --------------------------------------------------------------------------------------

  function Relabelled(m: Message, id: string, status: Status): Message {
    if m.id == id then m.(status := status) else m
  }

  lemma WithStatusPrepend(m: Message, rest: seq<Message>, id: string, status: Status)
    ensures WithStatus([m] + rest, id, status) == [Relabelled(m, id, status)] + WithStatus(rest, id, status)
  {
  }

  lemma {:induction false} InConversationRelabel(table: seq<Message>, peer: string, id: string, status: Status)
    ensures InConversation(WithStatus(table, id, status), peer) == WithStatus(InConversation(table, peer), id, status)
  {
    if table == [] {
    } else {
      var rest := table[1..];
      InConversationRelabel(rest, peer, id, status);
      assert table == [table[0]] + rest;
      WithStatusPrepend(table[0], rest, id, status);
      WithStatusPrepend(table[0], InConversation(rest, peer), id, status);
      assert WithStatus(table, id, status)[1..] == WithStatus(rest, id, status);
    }
  }

  lemma {:induction false} InsertRelabel(m: Message, s: seq<Message>, id: string, status: Status)
    ensures Insert(NotAfter, Relabelled(m, id, status), WithStatus(s, id, status))
              == WithStatus(Insert(NotAfter, m, s), id, status)
  {
    if s == [] || NotAfter(m, s[0]) {
      WithStatusPrepend(m, s, id, status);
    } else {
      InsertRelabel(m, s[1..], id, status);
      assert s == [s[0]] + s[1..];
      WithStatusPrepend(s[0], s[1..], id, status);
      WithStatusPrepend(s[0], Insert(NotAfter, m, s[1..]), id, status);
      assert WithStatus(s, id, status)[1..] == WithStatus(s[1..], id, status);
    }
  }

  lemma {:induction false} SortRelabel(list: seq<Message>, id: string, status: Status)
    ensures StableSort(NotAfter, WithStatus(list, id, status)) == WithStatus(StableSort(NotAfter, list), id, status)
  {
    if list == [] {
    } else {
      SortRelabel(list[1..], id, status);
      InsertRelabel(list[0], StableSort(NotAfter, list[1..]), id, status);
      assert WithStatus(list, id, status)[1..] == WithStatus(list[1..], id, status);
    }
  }

  lemma ConversationRelabel(table: seq<Message>, peer: string, id: string, status: Status)
    ensures Conversation(WithStatus(table, id, status), peer) == WithStatus(Conversation(table, peer), id, status)
  {
    InConversationRelabel(table, peer, id, status);
    SortRelabel(InConversation(table, peer), id, status);
  }

  // ---- Delivery receipts --------------------------------------------------------------------------------------

  ghost predicate Strict(conv: seq<Message>) {
    DistinctIds(conv) && forall i, j {:trigger conv[i], conv[j]} :: 0 <= i < j < |conv| ==>
      conv[i].timestamp < conv[j].timestamp
  }

  /** Upserting the j-th message of a conversation into its loaded suffix. */
  lemma UpsertKnown(conv: seq<Message>, n: nat, j: nat)
    requires Strict(conv) && n <= |conv| && j < |conv|
    ensures j >= n ==> UpsertAndSort(conv[n..], conv[j]) == conv[n..]
    ensures j < n ==> UpsertAndSort(conv[n..], conv[j]) == [conv[j]] + conv[n..]
  {
    var list, m := conv[n..], conv[j];
    if j >= n {
      var front, back := conv[n..j], conv[j + 1..];
      assert list == front + ([m] + back);
      WithoutMiddle(front, m, back);
      SortOneBack(front, m, back);
    } else {
      WithoutUnknown(list, m.id);
      assert SortedBy(NotAfter, list) && SortedBy(NotAfter, [m]);
      SortRotates(list, [m]);
    }
  }

  lemma {:induction false} WithoutMiddle(front: seq<Message>, m: Message, back: seq<Message>)
    requires DistinctIds(front + ([m] + back))
    ensures WithoutId(front + ([m] + back), m.id) == front + back
  {
    var all := front + ([m] + back);
    if front == [] {
      assert all == [m] + back && front + back == back;
      forall i | 0 <= i < |back|
        ensures back[i].id != m.id
      {
        assert all[i + 1].id != all[0].id;
      }
      WithoutUnknown(back, m.id);
      assert all[1..] == back;
    } else {
      assert all[0].id != all[|front|].id;
      assert all[1..] == front[1..] + ([m] + back);
      WithoutMiddle(front[1..], m, back);
      assert front + back == [front[0]] + (front[1..] + back);
    }
  }

  lemma SortOneBack(front: seq<Message>, m: Message, back: seq<Message>)
    requires Strict(front + ([m] + back))
    ensures StableSort(NotAfter, front + back + [m]) == front + ([m] + back)
  {
    var all, given := front + ([m] + back), front + back + [m];
    NotAfterPreorder();
    SortSorts(NotAfter, given);
    SortPermutes(NotAfter, given);
    MovedBack(front, m, back);
    StrictNeverTies(all);
    SortedIsUnique(NotAfter, all, StableSort(NotAfter, given));
  }

  lemma MovedBack(front: seq<Message>, m: Message, back: seq<Message>)
    ensures multiset(front + ([m] + back)) == multiset(front + back + [m])
  {
  }

  lemma StrictNeverTies(all: seq<Message>)
    requires Strict(all)
    ensures SortedBy(NotAfter, all) && NoTies(NotAfter, all)
  {
    forall x, y | x in all && y in all && NotAfter(x, y) && NotAfter(y, x)
      ensures x == y
    {
      var i :| 0 <= i < |all| && all[i] == x;
      var j :| 0 <= j < |all| && all[j] == y;
    }
  }

  ghost predicate IsSuffix(list: seq<Message>, conv: seq<Message>) { exists n :: 0 <= n <= |conv| && list == conv[n..] }

  lemma NotASuffix(conv: seq<Message>, n: nat, j: nat)
    requires Strict(conv) && j + 1 < n <= |conv|
    ensures !IsSuffix([conv[j]] + conv[n..], conv)
  {
    var list := [conv[j]] + conv[n..];
    forall k | 0 <= k <= |conv|
      ensures list != conv[k..]
    {
      if k == n - 1 {
        assert conv[k..][0] == conv[k] && conv[j].id != conv[k].id;
      } else {
        assert |conv[k..]| != |list|;
      }
    }
  }

  /** Upserting a stored message keeps the list a suffix exactly when the message is loaded or directly precedes it. */
  lemma UpsertKeepsSuffixIff(conv: seq<Message>, n: nat, j: nat)
    requires Strict(conv) && n <= |conv| && j < |conv|
    ensures IsSuffix(UpsertAndSort(conv[n..], conv[j]), conv) <==> j + 1 >= n
  {
    UpsertKnown(conv, n, j);
    var list := UpsertAndSort(conv[n..], conv[j]);
    if j >= n {
      assert list == conv[n..];
    } else if j + 1 == n {
      assert list == conv[j..];
    } else {
      NotASuffix(conv, n, j);
    }
  }

  // ---- Every run keeps a suffix loaded ------------------------------------------------------------------------

  predicate Between(me: string, m: Message) {
    (m.senderId == me && m.recipientId != me) || (m.recipientId == me && m.senderId != me)
  }

  function PeerOf(me: string, m: Message): string { if m.senderId == me then m.recipientId else m.senderId }

  ghost predicate TableOk(me: string, table: seq<Message>) {
    && DistinctIds(table)
    && (forall i :: 0 <= i < |table| ==> Between(me, table[i]))
    && (forall i, j {:trigger table[i], table[j]} ::
          0 <= i < j < |table| && PeerOf(me, table[i]) == PeerOf(me, table[j]) ==>
          table[i].timestamp != table[j].timestamp)
  }

  ghost predicate SuffixLoaded(w: World, peer: string) { IsSuffix(Loaded(w.loaded, peer), Conversation(w.table, peer)) }

  ghost predicate SuffixesLoaded(me: string, w: World) {
    TableOk(me, w.table) && forall peer :: peer != me ==> SuffixLoaded(w, peer)
  }

  /**
   * The events of an ordinary run: arrivals and own messages are new and newest, receipts concern what is
   * loaded or next.
   */
  ghost predicate Ordinary(me: string, w: World, e: Event) {
    match e
    case Arrive(m) => m.recipientId == me && m.senderId != me && Newest(w.table, m.senderId, m)
    case Send(m) => m.senderId == me && m.recipientId != me && Newest(w.table, m.recipientId, m)
    case Load(peer) => peer != me
    case LoadMore(peer) => peer != me
    case SetStatus(_, _) => true
    case Receipt(id, status) => Upserts(id, status) ==> ReceiptNear(me, w, id)
  }

  /** No stored message is both newer than the receipt's and not loaded. */
  ghost predicate ReceiptNear(me: string, w: World, id: string) {
    forall m, x :: m in w.table && m.id == id ==> !NewerUnloaded(me, w, m, x)
  }

  ghost predicate NewerUnloaded(me: string, w: World, m: Message, x: Message) {
    && x in w.table && PeerOf(me, x) == PeerOf(me, m) && m.timestamp < x.timestamp
    && !HasId(Loaded(w.loaded, PeerOf(me, m)), x.id)
  }

  lemma StrictConversation(me: string, table: seq<Message>, peer: string)
    requires TableOk(me, table) && peer != me
    ensures Strict(Conversation(table, peer))
  {
    var conv := Conversation(table, peer);
    ConversationTidy(table, peer);
    forall i, j | 0 <= i < j < |conv|
      ensures conv[i].timestamp < conv[j].timestamp
    {
      assert conv[i] in conv && conv[j] in conv && NotAfter(conv[i], conv[j]) && conv[i].id != conv[j].id;
      var a :| 0 <= a < |table| && table[a] == conv[i];
      var b :| 0 <= b < |table| && table[b] == conv[j];
      assert Between(me, table[a]) && Between(me, table[b]);
    }
  }

  lemma OtherConversation(me: string, table: seq<Message>, m: Message, peer: string)
    requires Between(me, m) && peer != me && peer != PeerOf(me, m) && !HasId(table, m.id)
    ensures Conversation(MapSet(table, m), peer) == Conversation(table, peer)
  {
    MapSetNew(table, m);
    InConversationAppend(table, m, peer);
    assert InConversation(table, peer) + [] == InConversation(table, peer);
  }

  lemma ArrivalKeepsSuffixes(me: string, w: World, m: Message)
    requires SuffixesLoaded(me, w) && Between(me, m) && Newest(w.table, PeerOf(me, m), m)
    ensures SuffixesLoaded(me, World(MapSet(w.table, m), Upsert(w.loaded, PeerOf(me, m), m)))
  {
    var after := World(MapSet(w.table, m), Upsert(w.loaded, PeerOf(me, m), m));
    TableGrows(me, w.table, m);
    MapSetNew(w.table, m);
    forall q | q != me
      ensures SuffixLoaded(after, q)
    {
      assert SuffixLoaded(w, q);
      if q == PeerOf(me, m) {
        ArrivalExtends(me, w, m);
      } else {
        OtherConversation(me, w.table, m, q);
      }
    }
  }

  lemma ArrivalExtends(me: string, w: World, m: Message)
    requires DistinctIds(w.table) && SuffixLoaded(w, PeerOf(me, m)) && Between(me, m)
    requires Newest(w.table, PeerOf(me, m), m)
    ensures SuffixLoaded(World(MapSet(w.table, m), Upsert(w.loaded, PeerOf(me, m), m)), PeerOf(me, m))
  {
    var peer := PeerOf(me, m);
    StoredLast(w.table, peer, m);
    var conv := Conversation(w.table, peer);
    var n :| 0 <= n <= |conv| && Loaded(w.loaded, peer) == conv[n..];
    UpsertLast(w.table, peer, n, m);
  }

  lemma TableGrows(me: string, table: seq<Message>, m: Message)
    requires TableOk(me, table) && Between(me, m) && Newest(table, PeerOf(me, m), m)
    ensures TableOk(me, table + [m])
  {
    forall i | 0 <= i < |table|
      ensures table[i].id != m.id && (PeerOf(me, table[i]) == PeerOf(me, m) ==> table[i].timestamp != m.timestamp)
    {
      assert table[i] in table && Between(me, table[i]);
    }
  }

  lemma RelabelKeepsTable(me: string, table: seq<Message>, id: string, status: Status)
    requires TableOk(me, table)
    ensures TableOk(me, WithStatus(table, id, status))
  {
    var after := WithStatus(table, id, status);
    forall i | 0 <= i < |table|
      ensures Between(me, after[i]) && PeerOf(me, after[i]) == PeerOf(me, table[i])
    {
      assert Between(me, table[i]);
    }
    forall i, j | 0 <= i < j < |table|
      ensures after[i].id != after[j].id
      ensures PeerOf(me, after[i]) == PeerOf(me, after[j]) ==> after[i].timestamp != after[j].timestamp
    {
      assert table[i].id != table[j].id;
    }
  }

  lemma RelabelKeepsSuffix(w: World, id: string, status: Status, q: string, n: nat)
    requires n <= |Conversation(w.table, q)| && Loaded(w.loaded, q) == Conversation(w.table, q)[n..]
    ensures var r := Relabel(w, id, status);
            n <= |Conversation(r.table, q)| && Loaded(r.loaded, q) == Conversation(r.table, q)[n..]
  {
    ConversationRelabel(w.table, q, id, status);
    var r := Relabel(w, id, status);
    if q in w.loaded {
      assert r.loaded[q] == WithStatus(w.loaded[q], id, status);
    }
    assert Loaded(r.loaded, q) == WithStatus(Conversation(w.table, q), id, status)[n..];
  }

  lemma RelabelKeepsSuffixes(me: string, w: World, id: string, status: Status)
    requires SuffixesLoaded(me, w)
    ensures SuffixesLoaded(me, Relabel(w, id, status))
  {
    RelabelKeepsTable(me, w.table, id, status);
    forall q | q != me
      ensures SuffixLoaded(Relabel(w, id, status), q)
    {
      assert SuffixLoaded(w, q);
      var n :| 0 <= n <= |Conversation(w.table, q)| && Loaded(w.loaded, q) == Conversation(w.table, q)[n..];
      RelabelKeepsSuffix(w, id, status, q, n);
    }
  }

  lemma UpsertDecidesSuffixes(me: string, r: World, id: string, status: Status, m: Message)
    requires SuffixesLoaded(me, r) && FindById(r.table, id) == Some(m) && m.status == status && PeerOf(me, m) != me
    ensures SuffixesLoaded(me, UpsertStored(me, r, id, status))
       <==> IsSuffix(UpsertAndSort(Loaded(r.loaded, PeerOf(me, m)), m), Conversation(r.table, PeerOf(me, m)))
  {
    var after, peer := UpsertStored(me, r, id, status), PeerOf(me, m);
    assert m.(status := status) == m;
    assert Loaded(after.loaded, peer) == UpsertAndSort(Loaded(r.loaded, peer), m);
    assert SuffixLoaded(after, peer) <==>
             IsSuffix(UpsertAndSort(Loaded(r.loaded, peer), m), Conversation(r.table, peer));
    forall q | q != me && q != peer
      ensures SuffixLoaded(after, q)
    {
      assert SuffixLoaded(r, q) && Loaded(after.loaded, q) == Loaded(r.loaded, q);
    }
  }

  ghost predicate NearPosition(r: World, peer: string, id: string, n: nat, j: nat) {
    var conv := Conversation(r.table, peer);
    n <= |conv| && j < |conv| && Loaded(r.loaded, peer) == conv[n..] && conv[j].id == id
  }

  lemma InTable(me: string, table: seq<Message>, peer: string, m: Message)
    requires TableOk(me, table) && peer != me && m in Conversation(table, peer)
    ensures m in table && PeerOf(me, m) == peer
  {
    ConversationTidy(table, peer);
    var a :| 0 <= a < |table| && table[a] == m;
    assert Between(me, table[a]);
  }

  lemma NotLoaded(conv: seq<Message>, n: nat, i: nat)
    requires DistinctIds(conv) && i < n <= |conv|
    ensures !HasId(conv[n..], conv[i].id)
  {
  }

  lemma SameStored(table: seq<Message>, a: Message, b: Message)
    requires DistinctIds(table) && a in table && b in table && a.id == b.id
    ensures a == b
  {
  }

  /** Nothing newer is missing exactly when the message is loaded or directly precedes what is. */
  lemma NearIffNext(me: string, w: World, peer: string, id: string, n: nat, j: nat)
    requires TableOk(me, w.table) && peer != me && NearPosition(w, peer, id, n, j)
    ensures ReceiptNear(me, w, id) <==> j + 1 >= n
  {
    var stored := Conversation(w.table, peer);
    ConversationTidy(w.table, peer);
    StrictConversation(me, w.table, peer);
    InTable(me, w.table, peer, stored[j]);
    if j + 1 < n {
      InTable(me, w.table, peer, stored[j + 1]);
      NotLoaded(stored, n, j + 1);
      assert NewerUnloaded(me, w, stored[j], stored[j + 1]);
    } else {
      forall m, x | m in w.table && m.id == id
        ensures !NewerUnloaded(me, w, m, x)
      {
        SameStored(w.table, m, stored[j]);
        if x in w.table && PeerOf(me, x) == peer && m.timestamp < x.timestamp {
          NewerIsLoaded(me, w, peer, n, j, x);
        }
      }
    }
  }

  lemma NewerIsLoaded(me: string, w: World, peer: string, n: nat, j: nat, x: Message)
    requires TableOk(me, w.table) && peer != me && x in w.table && PeerOf(me, x) == peer
    requires var stored := Conversation(w.table, peer);
             && n <= |stored| && j < |stored| && n <= j + 1 && Loaded(w.loaded, peer) == stored[n..]
             && stored[j].timestamp < x.timestamp
    ensures HasId(Loaded(w.loaded, peer), x.id)
  {
    var stored, list := Conversation(w.table, peer), Loaded(w.loaded, peer);
    ConversationTidy(w.table, peer);
    StrictConversation(me, w.table, peer);
    var a :| 0 <= a < |w.table| && w.table[a] == x;
    assert Between(me, w.table[a]);
    var i :| 0 <= i < |stored| && stored[i] == x;
    assert j < i;
    assert list[i - n] == x;
  }

  /** Where the stored message of a receipt sits before and after it is relabelled. */
  lemma ReceiptPosition(me: string, w: World, id: string, status: Status, m: Message) returns (n: nat, j: nat)
    requires SuffixesLoaded(me, w) && FindById(Relabel(w, id, status).table, id) == Some(m)
    ensures PeerOf(me, m) != me && m.status == status && TableOk(me, Relabel(w, id, status).table)
    ensures NearPosition(w, PeerOf(me, m), id, n, j) && NearPosition(Relabel(w, id, status), PeerOf(me, m), id, n, j)
    ensures Conversation(Relabel(w, id, status).table, PeerOf(me, m))[j] == m
  {
    var r, peer := Relabel(w, id, status), PeerOf(me, m);
    RelabelKeepsTable(me, w.table, id, status);
    var a :| 0 <= a < |r.table| && r.table[a] == m;
    assert Between(me, r.table[a]);
    var stored := Conversation(w.table, peer);
    assert SuffixLoaded(w, peer);
    n :| 0 <= n <= |stored| && Loaded(w.loaded, peer) == stored[n..];
    RelabelKeepsSuffix(w, id, status, peer, n);
    ConversationTidy(r.table, peer);
    var conv := Conversation(r.table, peer);
    j :| 0 <= j < |conv| && conv[j] == m;
    ConversationRelabel(w.table, peer, id, status);
  }

  /**
   * A receipt keeps what is loaded a suffix of what is stored if and only if it does not touch the lists
   * beyond its label, or no stored message of the conversation is both newer and not loaded.
   */
  lemma ReceiptKeepsSuffixIff(me: string, w: World, id: string, status: Status)
    requires SuffixesLoaded(me, w)
    ensures SuffixesLoaded(me, Next(me, w, Receipt(id, status))) <==> (Upserts(id, status) ==> ReceiptNear(me, w, id))
  {
    RelabelKeepsSuffixes(me, w, id, status);
    RelabelKeepsSuffixes(me, w, id, Pending);
    if Upserts(id, status) {
      UpsertKeepsSuffixesIff(me, w, id, status);
    }
  }

  lemma UpsertKeepsSuffixesIff(me: string, w: World, id: string, status: Status)
    requires SuffixesLoaded(me, w) && SuffixesLoaded(me, Relabel(w, id, status))
    ensures SuffixesLoaded(me, UpsertStored(me, Relabel(w, id, status), id, status)) <==> ReceiptNear(me, w, id)
  {
    var r := Relabel(w, id, status);
    match FindById(r.table, id) {
      case None =>
        forall m | m in w.table
          ensures m.id != id
        {
          var a :| 0 <= a < |w.table| && w.table[a] == m;
          assert r.table[a].id == m.id;
        }
      case Some(m) =>
        var n, j := ReceiptPosition(me, w, id, status, m);
        var peer := PeerOf(me, m);
        NearIffNext(me, w, peer, id, n, j);
        StrictConversation(me, r.table, peer);
        UpsertKeepsSuffixIff(Conversation(r.table, peer), n, j);
        UpsertDecidesSuffixes(me, r, id, status, m);
    }
  }

  lemma PageExtends(me: string, w: World, e: Event, peer: string)
    requires TableOk(me, w.table) && SuffixLoaded(w, peer) && peer != me && (e == Load(peer) || e == LoadMore(peer))
    ensures SuffixLoaded(Next(me, w, e), peer)
  {
    var conv := Conversation(w.table, peer);
    var n :| 0 <= n <= |conv| && Loaded(w.loaded, peer) == conv[n..];
    StrictConversation(me, w.table, peer);
    if e.Load? {
      LoadExtends(me, w, peer, n);
    } else {
      LoadMoreExtendsIff(me, w, peer, n);
    }
  }

  lemma PageKeepsSuffixes(me: string, w: World, e: Event, peer: string)
    requires SuffixesLoaded(me, w) && peer != me && (e == Load(peer) || e == LoadMore(peer))
    ensures SuffixesLoaded(me, Next(me, w, e))
  {
    var after := Next(me, w, e);
    forall q | q != me
      ensures SuffixLoaded(after, q)
    {
      assert SuffixLoaded(w, q);
      if q == peer {
        PageExtends(me, w, e, peer);
      } else {
        assert after.table == w.table && Loaded(after.loaded, q) == Loaded(w.loaded, q);
      }
    }
  }

  lemma StepKeepsSuffixes(me: string, w: World, e: Event)
    requires SuffixesLoaded(me, w) && Ordinary(me, w, e)
    ensures SuffixesLoaded(me, Next(me, w, e))
  {
    match e
    case Arrive(m) => ArrivalKeepsSuffixes(me, w, m);
    case Send(m) => ArrivalKeepsSuffixes(me, w, m);
    case Load(peer) => PageKeepsSuffixes(me, w, e, peer);
    case LoadMore(peer) => PageKeepsSuffixes(me, w, e, peer);
    case SetStatus(id, status) => RelabelKeepsSuffixes(me, w, id, status);
    case Receipt(id, status) => ReceiptKeepsSuffixIff(me, w, id, status);
  }

  /** In every ordinary run what is loaded of a conversation is a suffix of what is stored. */
  lemma {:induction false} RunKeepsSuffixes(me: string, worlds: seq<World>, events: seq<Event>, k: nat)
    requires IsRun(me, worlds, events) && SuffixesLoaded(me, worlds[0]) && k < |worlds|
    requires forall i :: 0 <= i < |events| ==> Ordinary(me, worlds[i], events[i])
    ensures SuffixesLoaded(me, worlds[k])
  {
    if k == 0 {
    } else {
      RunKeepsSuffixes(me, worlds, events, k - 1);
      StepKeepsSuffixes(me, worlds[k - 1], events[k - 1]);
    }
  }

  /** Anywhere in such a run `loadMore` adds min(50, what is left) messages, none exactly when nothing is left. */
  lemma LoadMoreInRun(me: string, worlds: seq<World>, events: seq<Event>, k: nat, peer: string)
    requires IsRun(me, worlds, events) && SuffixesLoaded(me, worlds[0]) && k < |worlds| && peer != me
    requires forall i :: 0 <= i < |events| ==> Ordinary(me, worlds[i], events[i])
    ensures var w, conv := worlds[k], Conversation(worlds[k].table, peer);
            var left := |conv| - |Loaded(w.loaded, peer)|;
            && left >= 0 && Loaded(w.loaded, peer) == conv[left..]
            && |NextPage(w, peer)| == Min(50, left)
            && Loaded(Next(me, w, LoadMore(peer)).loaded, peer) == conv[left - Min(50, left)..]
  {
    RunKeepsSuffixes(me, worlds, events, k);
    var w, conv := worlds[k], Conversation(worlds[k].table, peer);
    assert SuffixLoaded(w, peer);
    StrictConversation(me, w.table, peer);
    LoadMoreExtendsIff(me, w, peer, |conv| - |Loaded(w.loaded, peer)|);
  }

  /** What a label leaves of the list of a peer. */
  function LabelledList(w: World, peer: string, id: string, status: Status): seq<Message> {
    WithStatus(Loaded(w.loaded, peer), id, status)
  }

  /**
   * What a receipt does: every copy of the message is labelled delivered or read, or pending for any other status;
   * a delivered or read one that is stored also goes into the list of its other party, and no other list changes.
   */
  lemma ReceiptEffect(me: string, w: World, id: string, status: Status)
    requires WorldTidy(w)
    ensures var shown := if status == Delivered || status == Read then status else Pending;
            Next(me, w, Receipt(id, status)).table == WithStatus(w.table, id, shown)
    ensures !HasId(w.table, id) || id == "" || (status != Delivered && status != Read) ==>
              forall p :: Loaded(Next(me, w, Receipt(id, status)).loaded, p)
                == LabelledList(w, p, id, if status == Delivered || status == Read then status else Pending)
  {
    var r := WithStatus(w.table, id, status);
    forall m | m in r && m.id == id
      ensures HasId(w.table, id)
    {
      var i :| 0 <= i < |r| && r[i] == m;
      assert w.table[i].id == id;
    }
  }

  lemma FoundIs(table: seq<Message>, m: Message, status: Status)
    requires DistinctIds(table) && m in table
    ensures FindById(WithStatus(table, m.id, status), m.id) == Some(m.(status := status))
  {
    var r := WithStatus(table, m.id, status);
    var i :| 0 <= i < |table| && table[i] == m;
    assert r[i] == m.(status := status);
    var found := FindById(r, m.id).value;
    var j :| 0 <= j < |r| && r[j] == found;
    assert table[j].id == m.id;
  }

  lemma ReceiptUpserts(me: string, w: World, m: Message, status: Status)
    requires WorldTidy(w) && m in w.table && m.id != "" && (status == Delivered || status == Read)
    ensures var next, other := Next(me, w, Receipt(m.id, status)), if m.senderId == me then m.recipientId
                                                                   else m.senderId;
            && Replaces(Loaded(w.loaded, other), Loaded(next.loaded, other), m.(status := status))
            && forall p :: p != other ==> Loaded(next.loaded, p) == LabelledList(w, p, m.id, status)
  {
    FoundIs(w.table, m, status);
    UpsertedList(w, m.id, status, if m.senderId == me then m.recipientId else m.senderId, m.(status := status));
  }

  lemma UpsertedList(w: World, id: string, status: Status, other: string, m: Message)
    requires WorldTidy(w) && m.id == id
    ensures var loaded := Upsert(Relabel(w, id, status).loaded, other, m);
            && Replaces(Loaded(w.loaded, other), Loaded(loaded, other), m)
            && forall p :: p != other ==> Loaded(loaded, p) == LabelledList(w, p, id, status)
  {
    var r := Relabel(w, id, status);
    RelabelTidy(w, id, status);
    LoadedTidy(r, other);
    UpsertReplaces(Loaded(r.loaded, other), m);
    LabelsOnly(Loaded(w.loaded, other), id, status);
  }

  lemma LabelsOnly(list: seq<Message>, id: string, status: Status)
    ensures forall x: Message :: x.id != id ==> (x in WithStatus(list, id, status) <==> x in list)
  {
    var after := WithStatus(list, id, status);
    forall x: Message | x.id != id && x in list
      ensures x in after
    {
      var i :| 0 <= i < |list| && list[i] == x;
      assert after[i] == x;
    }
  }

  /** Two messages of one moment, the older one not loaded: `loadMore` finds nothing, whatever is left. */
  lemma TieHidesMessage() returns (w: World, peer: string)
    ensures WorldTidy(w) && |Conversation(w.table, peer)| == 2
    ensures Loaded(w.loaded, peer) == Conversation(w.table, peer)[1..] && NextPage(w, peer) == []
  {
    peer := "p";
    var a, b := Message("a", peer, "me", 7, Read), Message("b", peer, "me", 7, Read);
    w := World([a, b], map[peer := [b]]);
    assert [a, b][1..] == [b] && [b][1..] == [];
    assert InConversation([b], peer) == [b];
    assert InConversation([a, b], peer) == [a, b];
    assert StableSort(NotAfter, [b]) == [b];
    assert StableSort(NotAfter, [a, b]) == [a, b];
    assert OlderThan([b], Some(7)) == [];
  }
}
