/** Sessions, call pairs and disconnect grace timers of the signalling server, as one state machine. */
module Signalling {
  import opened Common

  type User = string
  type Socket = nat

  /** `session-manager.ts`: who is on which socket, and which sockets are open. */
  datatype Sessions = Sessions(byUser: map<User, Socket>, bySocket: map<Socket, User>, open: set<Socket>)

  datatype Hub = Hub(now: int, sessions: Sessions, peers: map<User, User>, graceDeadlines: map<User, int>,
                     pending: set<(User, User)>, online: set<User>)

  const INITIAL := Hub(0, Sessions(map[], map[], {}), map[], map[], {}, {})

  /** `CALL_DISCONNECT_GRACE_MS`. */
  const GRACE_MS := 30000

  datatype Event =
    | Elapse(ms: nat)
    | Connected(socket: Socket)
    | Authenticated(user: User, socket: Socket)
    | SocketClosed(socket: Socket)
    | Offer(from: User, target: User, initial: bool, payload: OfferPayload)
    | Answer(from: User, target: User, hasPayload: bool)
    | Candidate(from: User, target: User, hasPayload: bool)
    | Hangup(from: User, target: User)
    | PendingExpired(callee: User, caller: User)
    | GraceTimeout(user: User)

  /** The pending-call key is written only for a payload of type "offer". */
  datatype OfferPayload = NoPayload | OtherPayload | SessionOffer

  datatype SignalReply = CallBusy(reason: string) | MissingPayload | Failed(retryable: bool) | Forwarded

  // ---- Sessions ------------------------------------------------------------------------------------

  function AddSession(s: Sessions, user: User, socket: Socket): Sessions {
    var closing := if user in s.byUser then {s.byUser[user]} else {};
    Sessions(s.byUser[user := socket], (s.bySocket - closing)[socket := user], s.open - closing)
  }

  function RemoveSession(s: Sessions, socket: Socket): (Sessions, Option<User>) {
    if socket in s.bySocket then
      (s.(byUser := s.byUser - {s.bySocket[socket]}, bySocket := s.bySocket - {socket}), Some(s.bySocket[socket]))
    else
      (s, None)
  }

  predicate IsConnected(s: Sessions, user: User) {
    user in s.byUser && s.byUser[user] in s.open
  }

  // ---- Call pairs ------------------------------------------------------------------------------------

  function SetCallPair(peers: map<User, User>, a: User, b: User): map<User, User> {
    peers[a := b][b := a]
  }

  function ClearCallForUser(peers: map<User, User>, user: User): map<User, User> {
    var rest := peers - {user};
    if user in peers && peers[user] in rest && rest[peers[user]] == user then rest - {peers[user]} else rest
  }

  function ClearCallPairState(h: Hub, a: User, b: User): Hub {
    h.(graceDeadlines := h.graceDeadlines - {a, b},
       peers := ClearCallForUser(h.peers, a),
       pending := h.pending - {(a, b), (b, a)})
  }

  predicate CallerBusy(h: Hub, from: User, target: User) { from in h.peers && h.peers[from] != target }

  predicate TargetBusy(h: Hub, from: User, target: User) { target in h.peers && h.peers[target] != from }

  /** Everything an offer does before it is forwarded. */
  function AcceptOffer(h: Hub, from: User, target: User, initial: bool, payload: OfferPayload): Hub {
    h.(peers := SetCallPair(h.peers, from, target),
       graceDeadlines := h.graceDeadlines - {from},
       pending := if initial && payload.SessionOffer? then h.pending + {(target, from)} else h.pending)
  }

  function HandleOffer(h: Hub, from: User, target: User, initial: bool, payload: OfferPayload): (Hub, SignalReply) {
    if CallerBusy(h, from, target) then (h, CallBusy("caller_already_in_call"))
    else if TargetBusy(h, from, target) then (h, CallBusy("target_in_call"))
    else
      (AcceptOffer(h, from, target, initial, payload),
       if payload.NoPayload? then MissingPayload
       else if IsConnected(h.sessions, target) then Forwarded
       else Failed(initial))
  }

  function HandleAnswer(h: Hub, from: User, target: User, hasPayload: bool): (Hub, SignalReply) {
    if !hasPayload then (h, MissingPayload)
    else if !IsConnected(h.sessions, target) then (h, Failed(false))
    else
      (h.(pending := h.pending - {(from, target)},
          peers := SetCallPair(h.peers, from, target),
          graceDeadlines := h.graceDeadlines - {from, target}),
       Forwarded)
  }

  function HandleHangup(h: Hub, from: User, target: User): (Hub, SignalReply) {
    (ClearCallPairState(h, from, target), if IsConnected(h.sessions, target) then Forwarded else Failed(false))
  }

  function HandleCandidate(h: Hub, target: User, hasPayload: bool): (Hub, SignalReply) {
    (h, if !hasPayload then MissingPayload else if IsConnected(h.sessions, target) then Forwarded else Failed(false))
  }

  function HandleAuthenticated(h: Hub, user: User, socket: Socket): Hub {
    h.(graceDeadlines := h.graceDeadlines - {user}, sessions := AddSession(h.sessions, user, socket),
       online := h.online + {user})
  }

  function HandleClose(h: Hub, socket: Socket): Hub {
    var (sessions, gone) := RemoveSession(h.sessions.(open := h.sessions.open - {socket}), socket);
    match gone
    case None => h.(sessions := sessions)
    case Some(user) =>
      h.(sessions := sessions,
         graceDeadlines := if user in h.peers then h.graceDeadlines[user := h.now + GRACE_MS] else h.graceDeadlines,
         online := h.online - {user})
  }

  function HandleGraceTimeout(h: Hub, user: User): Hub {
    var h1 := h.(graceDeadlines := h.graceDeadlines - {user});
    if IsConnected(h.sessions, user) || user !in h.peers then h1 else ClearCallPairState(h1, user, h.peers[user])
  }

  function Next(h: Hub, e: Event): Hub {
    match e
    case Elapse(ms) => h.(now := h.now + ms)
    case Connected(socket) => h.(sessions := h.sessions.(open := h.sessions.open + {socket}))
    case Authenticated(user, socket) => HandleAuthenticated(h, user, socket)
    case SocketClosed(socket) => HandleClose(h, socket)
    case Offer(from, target, initial, payload) => HandleOffer(h, from, target, initial, payload).0
    case Answer(from, target, hasPayload) => HandleAnswer(h, from, target, hasPayload).0
    case Candidate(_, target, hasPayload) => HandleCandidate(h, target, hasPayload).0
    case Hangup(from, target) => HandleHangup(h, from, target).0
    case PendingExpired(callee, caller) => ClearCallPairState(h, caller, callee)
    case GraceTimeout(user) => HandleGraceTimeout(h, user)
  }

  /** A timer fires only if it is set and due, and only a pending call can ring out. */
  predicate CanHappen(h: Hub, e: Event) {
    && (e.GraceTimeout? ==> e.user in h.graceDeadlines && h.graceDeadlines[e.user] <= h.now)
    && (e.PendingExpired? ==> (e.callee, e.caller) in h.pending)
  }

  /** The states of a run: each follows the one before it by its event. */
  ghost predicate IsRun(hubs: seq<Hub>, events: seq<Event>) {
    && |hubs| == |events| + 1
    && (forall i :: 0 <= i < |events| ==> CanHappen(hubs[i], events[i]) && hubs[i + 1] == Next(hubs[i], events[i]))
  }

  // ---- Nobody is in two calls --------------------------------------------------------------------------

  /** Being in a call is mutual, so each user has one partner and is the partner of nobody else. */
  ghost predicate Symmetric(peers: map<User, User>) {
    forall a :: a in peers ==> peers[a] in peers && peers[peers[a]] == a
  }

  /** Neither user has a partner outside the two of them. */
  predicate FreeFor(peers: map<User, User>, a: User, b: User) {
    && (a in peers ==> peers[a] == a || peers[a] == b)
    && (b in peers ==> peers[b] == a || peers[b] == b)
  }

  /** Pairing two users keeps calls mutual exactly when neither has another partner. */
  lemma SetCallPairSymmetricIffFree(peers: map<User, User>, a: User, b: User)
    requires Symmetric(peers)
    ensures Symmetric(SetCallPair(peers, a, b)) <==> FreeFor(peers, a, b)
  {
    var next := SetCallPair(peers, a, b);
    if a in peers && peers[a] != a && peers[a] != b {
      assert peers[a] in next && next[peers[a]] == a && next[a] == b;
    }
    if b in peers && peers[b] != a && peers[b] != b {
      assert peers[b] in next && next[peers[b]] == b && next[b] == a;
    }
  }

  lemma ClearKeepsSymmetry(peers: map<User, User>, user: User)
    requires Symmetric(peers)
    ensures var next := ClearCallForUser(peers, user);
            && Symmetric(next)
            && next == peers - (if user in peers then {user, peers[user]} else {})
  {
    if user in peers {
      assert peers - {user} - {peers[user]} == peers - {user, peers[user]};
    } else {
      assert peers - {user} == peers - {};
    }
  }

  /** The answer handler pairs without a busy check; it needs the two to be free for each other. */
  predicate AnswerFree(h: Hub, e: Event) {
    e.Answer? && e.hasPayload && IsConnected(h.sessions, e.target) ==> FreeFor(h.peers, e.from, e.target)
  }

  /** Over all events, only a forwarded answer between users of other calls can break mutuality, and it always does. */
  lemma StepSymmetricIffAnswerFree(h: Hub, e: Event)
    requires Symmetric(h.peers)
    ensures Symmetric(Next(h, e).peers) <==> AnswerFree(h, e)
  {
    match e
    case Offer(from, target, _, _) => SetCallPairSymmetricIffFree(h.peers, from, target);
    case Answer(from, target, _) => SetCallPairSymmetricIffFree(h.peers, from, target);
    case Hangup(from, _) => ClearKeepsSymmetry(h.peers, from);
    case PendingExpired(_, caller) => ClearKeepsSymmetry(h.peers, caller);
    case GraceTimeout(user) => ClearKeepsSymmetry(h.peers, user);
    case _ =>
  }

  ghost predicate MutualUpTo(hubs: seq<Hub>, n: nat)
    requires n < |hubs|
  {
    forall i :: 0 <= i <= n ==> Symmetric(hubs[i].peers)
  }

  ghost predicate AnswersFree(hubs: seq<Hub>, events: seq<Event>, n: nat)
    requires n <= |hubs| && n <= |events|
  {
    forall i :: 0 <= i < n ==> AnswerFree(hubs[i], events[i])
  }

  lemma MutualOneMore(hubs: seq<Hub>, n: nat)
    requires 0 < n < |hubs|
    ensures MutualUpTo(hubs, n) <==> MutualUpTo(hubs, n - 1) && Symmetric(hubs[n].peers)
    ensures MutualUpTo(hubs, n - 1) ==> Symmetric(hubs[n - 1].peers)
  {
  }

  lemma FreeOneMore(hubs: seq<Hub>, events: seq<Event>, n: nat)
    requires 0 < n <= |hubs| && n <= |events|
    ensures AnswersFree(hubs, events, n) <==> AnswersFree(hubs, events, n - 1) && AnswerFree(hubs[n - 1], events[n - 1])
  {
  }

  /**
   * In every run, calls are mutual at every moment up to n exactly when every forwarded answer before n
   * comes from a user who is free for its target.
   */
  lemma {:induction false} RunKeepsCallsMutualIff(hubs: seq<Hub>, events: seq<Event>, n: nat)
    requires IsRun(hubs, events) && n < |hubs| && Symmetric(hubs[0].peers)
    ensures MutualUpTo(hubs, n) <==> AnswersFree(hubs, events, n)
  {
    if n == 0 {
    } else {
      RunKeepsCallsMutualIff(hubs, events, n - 1);
      MutualOneMore(hubs, n);
      FreeOneMore(hubs, events, n);
      if MutualUpTo(hubs, n - 1) {
        StepSymmetricIffAnswerFree(hubs[n - 1], events[n - 1]);
      }
    }
  }

  /** Mutual calls put nobody into two of them. */
  lemma MutualMeansOnePartner(peers: map<User, User>, a: User, b: User)
    requires Symmetric(peers) && a in peers && b in peers && peers[a] == peers[b]
    ensures a == b
  {
    assert peers[peers[a]] == a && peers[peers[b]] == b;
  }

  /** In every run whose answers come from users paired with their target, no user is ever in two calls. */
  lemma RunKeepsCallsMutual(hubs: seq<Hub>, events: seq<Event>, n: nat)
    requires IsRun(hubs, events) && n < |hubs| && Symmetric(hubs[0].peers)
    requires forall i :: 0 <= i < n && events[i].Answer? ==>
               InCall(hubs[i], events[i].from, events[i].target)
    ensures Symmetric(hubs[n].peers)
    ensures forall a, b :: a in hubs[n].peers && b in hubs[n].peers && hubs[n].peers[a] == hubs[n].peers[b] ==> a == b
  {
    RunKeepsCallsMutualIff(hubs, events, n);
    assert AnswersFree(hubs, events, n) && Symmetric(hubs[n].peers);
  }

  // ---- Concrete runs -------------------------------------------------------------------------------------

  lemma Extend(hubs: seq<Hub>, events: seq<Event>, e: Event) returns (more: seq<Hub>, longer: seq<Event>)
    requires IsRun(hubs, events) && CanHappen(hubs[|events|], e)
    ensures IsRun(more, longer) && longer == events + [e] && more == hubs + [Next(hubs[|events|], e)]
  {
    more, longer := hubs + [Next(hubs[|events|], e)], events + [e];
  }

  /** Users a, b and c are authenticated on sockets 1, 2 and 3. */
  const THREE_ONLINE :=
      Online(map["a" := 1, "b" := 2, "c" := 3], map[1 := "a", 2 := "b", 3 := "c"], {1, 2, 3}, {"a", "b", "c"})

  function Online(byUser: map<User, Socket>, bySocket: map<Socket, User>, sockets: set<Socket>, users: set<User>): Hub {
    Hub(0, Sessions(byUser, bySocket, sockets), map[], map[], {}, users)
  }

  lemma Arrives(
    hubs: seq<Hub>, events: seq<Event>, user: User, socket: Socket
  ) returns (more: seq<Hub>, longer: seq<Event>)
    requires IsRun(hubs, events)
    requires var h := hubs[|events|];
             h.graceDeadlines == map[] && user !in h.sessions.byUser && socket !in h.sessions.bySocket
    ensures IsRun(more, longer) && more[0] == hubs[0]
    ensures var h := hubs[|events|];
            more[|longer|]
              == h.(sessions := Sessions(h.sessions.byUser[user := socket], h.sessions.bySocket[socket := user],
                                                      h.sessions.open + {socket}), online := h.online + {user})
  {
    var h := hubs[|events|];
    more, longer := Extend(hubs, events, Connected(socket));
    assert h.graceDeadlines - {user} == h.graceDeadlines && h.sessions.bySocket - {} == h.sessions.bySocket;
    assert h.sessions.open + {socket} - {} == h.sessions.open + {socket};
    more, longer := Extend(more, longer, Authenticated(user, socket));
  }

  lemma ThreeUsersOnline() returns (hubs: seq<Hub>, events: seq<Event>)
    ensures IsRun(hubs, events) && hubs[0] == INITIAL && hubs[|events|] == THREE_ONLINE
  {
    hubs, events := [INITIAL], [];
    hubs, events := Arrives(hubs, events, "a", 1);
    assert hubs[|events|] == Online(map["a" := 1], map[1 := "a"], {1}, {"a"});
    hubs, events := Arrives(hubs, events, "b", 2);
    assert hubs[|events|] == Online(map["a" := 1, "b" := 2], map[1 := "a", 2 := "b"], {1, 2}, {"a", "b"});
    hubs, events := Arrives(hubs, events, "c", 3);
  }

  /** Everybody is online, nobody has a timer, and these calls and rings are on. */
  function InCalls(peers: map<User, User>, pending: set<(User, User)>): Hub {
    THREE_ONLINE.(peers := peers, pending := pending)
  }

  /**
   * From the start, with everybody authenticated: c answers a, who is in a call with b, and a call stops being
   * mutual.
   */
  lemma AnswerWithoutPairingBreaksMutuality() returns (hubs: seq<Hub>, events: seq<Event>)
    ensures IsRun(hubs, events) && hubs[0] == INITIAL && |events| >= 1
    ensures Symmetric(hubs[|events| - 1].peers) && !Symmetric(hubs[|events|].peers)
    ensures events[|events| - 1] == Answer("c", "a", true) && "c" in hubs[|events| - 1].sessions.byUser
  {
    hubs, events := ThreeUsersOnline();
    hubs, events := Extend(hubs, events, Offer("a", "b", true, SessionOffer));
    assert hubs[|events|] == InCalls(map["a" := "b", "b" := "a"], {("b", "a")});
    hubs, events := Extend(hubs, events, Answer("c", "a", true));
    assert hubs[|events|].peers["b"] == "a" && hubs[|events|].peers["a"] == "c";
  }

  // ---- Offers ------------------------------------------------------------------------------------------

  predicate InCall(h: Hub, a: User, b: User) { a in h.peers && h.peers[a] == b && b in h.peers && h.peers[b] == a }

  /**
   * An offer is refused exactly when one of the two is in a call with somebody else; a refused offer
   * changes nothing at all, an accepted one puts the two in a call.
   */
  lemma OfferRefusedIffBusy(h: Hub, from: User, target: User, initial: bool, payload: OfferPayload)
    requires Symmetric(h.peers)
    ensures var (next, reply) := HandleOffer(h, from, target, initial, payload);
            && (reply.CallBusy? <==>
                  (exists x :: x != target && InCall(h, from, x)) || (exists x :: x != from && InCall(h, target, x)))
            && (reply.CallBusy? ==> next == h)
            && (!reply.CallBusy? ==> InCall(next, from, target))
  {
    if CallerBusy(h, from, target) {
      assert InCall(h, from, h.peers[from]);
    } else if TargetBusy(h, from, target) {
      assert InCall(h, target, h.peers[target]);
    }
  }

  /**
   * What ends the call of a and b: one of them hangs up, toward whomever; any call that one of them placed
   * rings out, whoever was called; or one of them is gone when the grace period runs out.
   */
  predicate EndsCall(h: Hub, e: Event, a: User, b: User) {
    || (e.Hangup? && e.from in {a, b})
    || (e.PendingExpired? && e.caller in {a, b})
    || (e.GraceTimeout? && e.user in {a, b} && !IsConnected(h.sessions, e.user))
  }

  /** Exactly these events end a call, for both; in particular no offer does, whoever sends it to whomever. */
  lemma CallEndsExactlyBy(h: Hub, e: Event, a: User, b: User)
    requires Symmetric(h.peers) && InCall(h, a, b) && a != b && AnswerFree(h, e)
    ensures InCall(Next(h, e), a, b) <==> !EndsCall(h, e, a, b)
    ensures EndsCall(h, e, a, b) ==> a !in Next(h, e).peers && b !in Next(h, e).peers
  {
    match e
    case Hangup(from, _) => ClearEndsCall(h.peers, from, a, b);
    case PendingExpired(_, caller) => ClearEndsCall(h.peers, caller, a, b);
    case GraceTimeout(user) => ClearEndsCall(h.peers, user, a, b);
    case _ => CallKeptOtherwise(h, e, a, b);
  }

  /** Clearing the call of a user ends the call of a and b, for both, exactly when the user is one of them. */
  lemma ClearEndsCall(peers: map<User, User>, user: User, a: User, b: User)
    requires Symmetric(peers) && a != b && a in peers && peers[a] == b
    ensures var next := ClearCallForUser(peers, user);
            if user in {a, b} then a !in next && b !in next
            else a in next && next[a] == b && b in next && next[b] == a
  {
    ClearKeepsSymmetry(peers, user);
  }

  lemma CallKeptOtherwise(h: Hub, e: Event, a: User, b: User)
    requires Symmetric(h.peers) && InCall(h, a, b) && a != b && AnswerFree(h, e)
    requires !e.Hangup? && !e.PendingExpired? && !e.GraceTimeout?
    ensures InCall(Next(h, e), a, b)
  {
  }

  // ---- Ring-outs of other calls --------------------------------------------------------------------------

  /**
   * A ring-out ends a call other than the one that rang exactly when its caller is in a call with somebody
   * else by then: the handler clears the caller's call without looking whom it is with.
   */
  lemma RingOutEndsOtherCallIff(h: Hub, callee: User, caller: User)
    requires Symmetric(h.peers) && callee != caller
    ensures (exists a, b :: a != b && OtherCallEnds(h, callee, caller, a, b)) <==>
            (caller in h.peers && h.peers[caller] != callee && h.peers[caller] != caller)
  {
    var e := PendingExpired(callee, caller);
    if caller in h.peers && h.peers[caller] != callee && h.peers[caller] != caller {
      var b := h.peers[caller];
      CallEndsExactlyBy(h, e, caller, b);
      assert b in {caller, b} && b !in {callee, caller};
      assert OtherCallEnds(h, callee, caller, caller, b);
    }
    forall a, b | a != b && OtherCallEnds(h, callee, caller, a, b)
      ensures caller in h.peers && h.peers[caller] != callee && h.peers[caller] != caller
    {
      CallEndsExactlyBy(h, e, a, b);
      assert caller == a || caller == b;
    }
  }

  /** A call of two other users than the one that rang ends with the ring. */
  predicate OtherCallEnds(h: Hub, callee: User, caller: User, a: User, b: User) {
    {a, b} != {callee, caller} && InCall(h, a, b) && !InCall(Next(h, PendingExpired(callee, caller)), a, b)
  }

  /**
   * From the start: a rings b, gives up with a hangup that names c, then calls c; the old ring-out ends the
   * call of a and c.
   */
  lemma StaleRingOutEndsOtherCall() returns (hubs: seq<Hub>, events: seq<Event>)
    ensures IsRun(hubs, events) && hubs[0] == INITIAL && |events| > 0
    ensures events[|events| - 1] == PendingExpired("b", "a") && InCall(hubs[|events| - 1], "a", "c")
    ensures "a" !in hubs[|events|].peers && "c" !in hubs[|events|].peers
  {
    hubs, events := ThreeUsersOnline();
    hubs, events := Extend(hubs, events, Offer("a", "b", true, SessionOffer));
    assert hubs[|events|] == InCalls(map["a" := "b", "b" := "a"], {("b", "a")});
    hubs, events := Extend(hubs, events, Hangup("a", "c"));
    assert hubs[|events|] == InCalls(map[], {("b", "a")});
    hubs, events := Extend(hubs, events, Offer("a", "c", true, SessionOffer));
    assert hubs[|events|] == InCalls(map["a" := "c", "c" := "a"], {("b", "a"), ("c", "a")});
    hubs, events := Extend(hubs, events, Answer("c", "a", true));
    assert hubs[|events|] == InCalls(map["a" := "c", "c" := "a"], {("b", "a")});
    hubs, events := Extend(hubs, events, PendingExpired("b", "a"));
  }

  /**
   * From the start: a and b ring each other; a's answer leaves its own ring pending, whose end ends the
   * answered call.
   */
  lemma CrossedOffersRingOutAnsweredCall() returns (hubs: seq<Hub>, events: seq<Event>)
    ensures IsRun(hubs, events) && hubs[0] == INITIAL && |events| > 1
    ensures events[|events| - 2] == Answer("a", "b", true) && InCall(hubs[|events| - 1], "a", "b")
    ensures events[|events| - 1] == PendingExpired("b", "a")
    ensures "a" !in hubs[|events|].peers && "b" !in hubs[|events|].peers
  {
    hubs, events := ThreeUsersOnline();
    hubs, events := Extend(hubs, events, Offer("a", "b", true, SessionOffer));
    assert hubs[|events|] == InCalls(map["a" := "b", "b" := "a"], {("b", "a")});
    hubs, events := Extend(hubs, events, Offer("b", "a", true, SessionOffer));
    assert hubs[|events|] == InCalls(map["a" := "b", "b" := "a"], {("b", "a"), ("a", "b")});
    hubs, events := Extend(hubs, events, Answer("a", "b", true));
    assert hubs[|events|] == InCalls(map["a" := "b", "b" := "a"], {("b", "a")});
    hubs, events := Extend(hubs, events, PendingExpired("b", "a"));
  }

  /** Nobody is being rung by a or b. */
  predicate RingsNobody(h: Hub, a: User, b: User) {
    forall p :: p in h.pending ==> p.1 != a && p.1 != b
  }

  /** The event makes one of the two ring somebody. */
  predicate StartsRing(h: Hub, e: Event, a: User, b: User) {
    && e.Offer? && e.from in {a, b} && e.initial && e.payload.SessionOffer?
    && !CallerBusy(h, e.from, e.target) && !TargetBusy(h, e.from, e.target)
  }

  /** Whoever rings nobody keeps ringing nobody except by an initial offer, and cannot be rung out. */
  lemma RingsNobodyUntilOffer(h: Hub, e: Event, a: User, b: User)
    requires RingsNobody(h, a, b) && CanHappen(h, e)
    ensures RingsNobody(Next(h, e), a, b) <==> !StartsRing(h, e, a, b)
    ensures !(e.PendingExpired? && e.caller in {a, b})
  {
    if StartsRing(h, e, a, b) {
      assert (e.target, e.from) in Next(h, e).pending;
    }
    if e.PendingExpired? {
      assert (e.callee, e.caller) in h.pending;
    }
  }

  // ---- Sessions over runs -------------------------------------------------------------------------------

  /** A socket known for a user is that user's current socket. */
  ghost predicate SocketsCurrent(s: Sessions) {
    forall x :: x in s.bySocket ==> s.bySocket[x] in s.byUser && s.byUser[s.bySocket[x]] == x
  }

  /** And every current socket is known for its user. */
  ghost predicate UsersKnown(s: Sessions) {
    forall u :: u in s.byUser ==> s.byUser[u] in s.bySocket && s.bySocket[s.byUser[u]] == u
  }

  lemma StepKeepsSocketsCurrent(h: Hub, e: Event)
    requires SocketsCurrent(h.sessions)
    ensures SocketsCurrent(Next(h, e).sessions)
  {
  }

  /** The two maps stay inverse exactly when no socket authenticates as a second user. */
  lemma AddSessionBijectiveIff(s: Sessions, user: User, socket: Socket)
    requires SocketsCurrent(s) && UsersKnown(s)
    ensures UsersKnown(AddSession(s, user, socket)) <==> (socket in s.bySocket ==> s.bySocket[socket] == user)
  {
    var next := AddSession(s, user, socket);
    if socket in s.bySocket && s.bySocket[socket] != user {
      assert next.byUser[s.bySocket[socket]] == socket;
    }
  }

  predicate KeepsIdentity(h: Hub, e: Event) {
    e.Authenticated? && e.socket in h.sessions.bySocket ==> h.sessions.bySocket[e.socket] == e.user
  }

  lemma StepKeepsUsersKnown(h: Hub, e: Event)
    requires SocketsCurrent(h.sessions) && UsersKnown(h.sessions) && KeepsIdentity(h, e)
    ensures UsersKnown(Next(h, e).sessions)
  {
    if e.Authenticated? {
      AddSessionBijectiveIff(h.sessions, e.user, e.socket);
    }
  }

  /**
   * In every run of authentications and closes a known socket is its user's current one; when no
   * socket changes identity the two maps are inverse to each other.
   */
  lemma {:induction false} RunKeepsSessions(hubs: seq<Hub>, events: seq<Event>, n: nat)
    requires IsRun(hubs, events) && n < |hubs| && hubs[0] == INITIAL
    ensures SocketsCurrent(hubs[n].sessions)
    ensures (forall i :: 0 <= i < n ==> KeepsIdentity(hubs[i], events[i])) ==> UsersKnown(hubs[n].sessions)
  {
    if n == 0 {
    } else {
      RunKeepsSessions(hubs, events, n - 1);
      StepKeepsSocketsCurrent(hubs[n - 1], events[n - 1]);
      if forall i :: 0 <= i < n ==> KeepsIdentity(hubs[i], events[i]) {
        StepKeepsUsersKnown(hubs[n - 1], events[n - 1]);
      }
    }
  }

  /** A replaced socket: not known for anyone, and it stays so until it authenticates again. */
  lemma {:induction false} ReplacedSocketStaysUnknown(
    hubs: seq<Hub>, events: seq<Event>, m: nat, n: nat, socket: Socket
  )
    requires IsRun(hubs, events) && m < n < |hubs|
    requires SocketsCurrent(hubs[m].sessions)
    requires events[m].Authenticated? && events[m].socket != socket
    requires events[m].user in hubs[m].sessions.byUser && hubs[m].sessions.byUser[events[m].user] == socket
    requires forall i :: m < i < n ==> !(events[i].Authenticated? && events[i].socket == socket)
    ensures socket !in hubs[n].sessions.bySocket
  {
    if n == m + 1 {
    } else {
      ReplacedSocketStaysUnknown(hubs, events, m, n - 1, socket);
    }
  }

  /**
   * However late it comes, the close of a socket that a newer session has replaced removes no
   * session, marks nobody offline, starts no grace timer and touches no call.
   */
  lemma LateCloseIsHarmless(hubs: seq<Hub>, events: seq<Event>, m: nat, n: nat, socket: Socket)
    requires IsRun(hubs, events) && m < n < |events|
    requires SocketsCurrent(hubs[m].sessions)
    requires events[m].Authenticated? && events[m].socket != socket
    requires events[m].user in hubs[m].sessions.byUser && hubs[m].sessions.byUser[events[m].user] == socket
    requires forall i :: m < i < n ==> !(events[i].Authenticated? && events[i].socket == socket)
    requires events[n] == SocketClosed(socket)
    ensures hubs[n + 1] == hubs[n].(sessions := hubs[n].sessions.(open := hubs[n].sessions.open - {socket}))
  {
    ReplacedSocketStaysUnknown(hubs, events, m, n, socket);
  }

  // ---- Grace periods ------------------------------------------------------------------------------------

  /** Neither user has a timer that falls due before the horizon. */
  ghost predicate NoTimerBefore(h: Hub, horizon: int, a: User, b: User) {
    forall x :: x in {a, b} && x in h.graceDeadlines ==> horizon <= h.graceDeadlines[x]
  }

  /** What the two in a call do themselves to end it or to start another ring, and foreign answers to either. */
  predicate LeavesAlone(h: Hub, e: Event, a: User, b: User) {
    AnswerFree(h, e) && !(e.Hangup? && e.from in {a, b}) && !StartsRing(h, e, a, b)
  }

  /** One event before the horizon. */
  lemma CallSurvivesStep(h: Hub, e: Event, horizon: int, a: User, b: User)
    requires CanHappen(h, e) && LeavesAlone(h, e, a, b) && h.now < horizon <= h.now + GRACE_MS
    requires Symmetric(h.peers) && InCall(h, a, b) && a != b && NoTimerBefore(h, horizon, a, b) && RingsNobody(h, a, b)
    ensures var next := Next(h, e);
            && Symmetric(next.peers) && InCall(next, a, b) && NoTimerBefore(next, horizon, a, b)
            && RingsNobody(next, a, b)
  {
    StepSymmetricIffAnswerFree(h, e);
    RingsNobodyUntilOffer(h, e, a, b);
    CallEndsExactlyBy(h, e, a, b);
    TimersOnlyMoveLater(h, e, horizon, a, b);
  }

  lemma TimePassesForward(h: Hub, e: Event)
    ensures h.now <= Next(h, e).now
  {
  }

  /** Until the horizon, neither disconnections nor ring-outs end a call. */
  lemma {:induction false} CallSurvivesUntil(
    hubs: seq<Hub>, events: seq<Event>, m: nat, n: nat, horizon: int, a: User, b: User
  )
    requires IsRun(hubs, events) && m <= n < |hubs|
    requires Symmetric(hubs[m].peers) && InCall(hubs[m], a, b) && a != b && NoTimerBefore(hubs[m], horizon, a, b)
    requires RingsNobody(hubs[m], a, b) && hubs[n].now < horizon <= hubs[m].now + GRACE_MS
    requires forall i :: m <= i < n ==> LeavesAlone(hubs[i], events[i], a, b)
    ensures Symmetric(hubs[n].peers) && InCall(hubs[n], a, b) && NoTimerBefore(hubs[n], horizon, a, b)
    ensures RingsNobody(hubs[n], a, b) && hubs[m].now <= hubs[n].now
  {
    if m == n {
    } else {
      TimePassesForward(hubs[n - 1], events[n - 1]);
      CallSurvivesUntil(hubs, events, m, n - 1, horizon, a, b);
      CallSurvivesStep(hubs[n - 1], events[n - 1], horizon, a, b);
    }
  }

  lemma TimersOnlyMoveLater(h: Hub, e: Event, horizon: int, a: User, b: User)
    requires NoTimerBefore(h, horizon, a, b) && horizon <= h.now + GRACE_MS
    ensures NoTimerBefore(Next(h, e), horizon, a, b)
  {
  }

  /**
   * A user in a call whose socket closes and who authenticates again before the grace period ends is
   * still in that call and has no timer left to end it.
   */
  lemma ReauthenticationSavesCall(
    hubs: seq<Hub>, events: seq<Event>, m: nat, n: nat, a: User, b: User, old': Socket, new': Socket
  )
    requires IsRun(hubs, events) && m < n < |events|
    requires Symmetric(hubs[m].peers) && InCall(hubs[m], a, b) && a != b && RingsNobody(hubs[m], a, b)
    requires old' in hubs[m].sessions.bySocket && hubs[m].sessions.bySocket[old'] == a
    requires events[m] == SocketClosed(old')
    requires b in hubs[m].graceDeadlines ==> hubs[m].now + GRACE_MS <= hubs[m].graceDeadlines[b]
    requires events[n] == Authenticated(a, new') && hubs[n].now < hubs[m].now + GRACE_MS
    requires forall i :: m <= i < n ==> LeavesAlone(hubs[i], events[i], a, b)
    ensures InCall(hubs[n + 1], a, b) && a !in hubs[n + 1].graceDeadlines
    ensures a in hubs[n + 1].sessions.byUser && hubs[n + 1].sessions.byUser[a] == new'
  {
    assert hubs[m + 1].now == hubs[m].now;
    assert NoTimerBefore(hubs[m + 1], hubs[m].now + GRACE_MS, a, b);
    CallSurvivesUntil(hubs, events, m + 1, n, hubs[m].now + GRACE_MS, a, b);
  }

  // ---- The end of a grace period ------------------------------------------------------------------------

  /** The events that stop a user's timer or set it anew, whoever causes them. */
  predicate TouchesTimer(h: Hub, e: Event, a: User) {
    match e
    case Authenticated(user, _) => user == a
    case SocketClosed(socket) => socket in h.sessions.bySocket && h.sessions.bySocket[socket] == a && a in h.peers
    case Offer(from, target, _, _) => from == a && !CallerBusy(h, from, target) && !TargetBusy(h, from, target)
    case Answer(from, target, hasPayload) => hasPayload && IsConnected(h.sessions, target) && a in {from, target}
    case Hangup(from, target) => a in {from, target}
    case PendingExpired(callee, caller) => a in {callee, caller}
    case GraceTimeout(user) => user == a || (!IsConnected(h.sessions, user) && user in h.peers && h.peers[user] == a)
    case _ => false
  }

  /** Exactly these stop a timer, except that the close of a socket sets it anew; nothing else moves it. */
  lemma TimerKeptIffUntouched(h: Hub, e: Event, a: User)
    requires a in h.graceDeadlines
    ensures var next := Next(h, e);
            && (a in next.graceDeadlines <==> !TouchesTimer(h, e, a) || e.SocketClosed?)
            && (!TouchesTimer(h, e, a) ==> next.graceDeadlines[a] == h.graceDeadlines[a])
  {
  }

  /**
   * Any third party's hangup aimed at a disconnected user stops the timer and leaves the call: its grace
   * period no longer ends it.
   */
  lemma ForeignHangupStopsTimer(h: Hub, a: User, b: User, d: User)
    requires Symmetric(h.peers) && InCall(h, a, b) && a != b && a in h.graceDeadlines && d != a && d != b
    ensures var next := Next(h, Hangup(d, a)); InCall(next, a, b) && a !in next.graceDeadlines
  {
    CallEndsExactlyBy(h, Hangup(d, a), a, b);
  }

  lemma {:induction false} AbsentUntilAuthenticated(hubs: seq<Hub>, events: seq<Event>, m: nat, n: nat, a: User)
    requires IsRun(hubs, events) && m <= n < |hubs| && a !in hubs[m].sessions.byUser
    requires forall i :: m <= i < n ==> !(events[i].Authenticated? && events[i].user == a)
    ensures a !in hubs[n].sessions.byUser
  {
    if m == n {
    } else {
      AbsentUntilAuthenticated(hubs, events, m, n - 1, a);
    }
  }

  lemma {:induction false} TimerStays(hubs: seq<Hub>, events: seq<Event>, m: nat, n: nat, a: User)
    requires IsRun(hubs, events) && m <= n < |hubs| && a in hubs[m].graceDeadlines
    requires forall i :: m <= i < n ==> !TouchesTimer(hubs[i], events[i], a)
    ensures a in hubs[n].graceDeadlines && hubs[n].graceDeadlines[a] == hubs[m].graceDeadlines[a]
  {
    if m == n {
    } else {
      TimerStays(hubs, events, m, n - 1, a);
      TimerKeptIffUntouched(hubs[n - 1], events[n - 1], a);
    }
  }

  /**
   * In every run: once a user in a call has lost the socket, and as long as no event touches the timer, it stays
   * due one grace period after the close; from then on it can fire, and firing ends the user's call for both.
   */
  lemma DisconnectedUserLosesCall(hubs: seq<Hub>, events: seq<Event>, m: nat, n: nat, a: User, socket: Socket)
    requires IsRun(hubs, events) && m < n < |hubs|
    requires events[m] == SocketClosed(socket) && a in hubs[m].peers
    requires socket in hubs[m].sessions.bySocket && hubs[m].sessions.bySocket[socket] == a
    requires forall i :: m < i < n ==> !TouchesTimer(hubs[i], events[i], a)
    ensures a in hubs[n].graceDeadlines && hubs[n].graceDeadlines[a] == hubs[m].now + GRACE_MS
    ensures !IsConnected(hubs[n].sessions, a)
    ensures CanHappen(hubs[n], GraceTimeout(a)) <==> hubs[m].now + GRACE_MS <= hubs[n].now
    ensures var next := Next(hubs[n], GraceTimeout(a));
            && a !in next.peers && a !in next.graceDeadlines
            && (Symmetric(hubs[n].peers) && a in hubs[n].peers ==> hubs[n].peers[a] !in next.peers)
  {
    TimerStays(hubs, events, m + 1, n, a);
    AbsentUntilAuthenticated(hubs, events, m + 1, n, a);
    if Symmetric(hubs[n].peers) {
      ClearKeepsSymmetry(hubs[n].peers, a);
    }
  }
}
