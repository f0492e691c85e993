/** What every signalling event does to rings, calls, timers and presence, and what it answers. */
module SignallingEffects {
  import opened Common
  import opened Signalling

  // ---- Rings ---------------------------------------------------------------------------------------------

  /** Neither of the two is in a call with anybody else. */
  predicate BothFree(h: Hub, a: User, b: User) {
    (a in h.peers ==> h.peers[a] == b) && (b in h.peers ==> h.peers[b] == a)
  }

  /** The event rings the callee for the caller: an initial session offer between two who are free. */
  predicate Rings(h: Hub, e: Event, callee: User, caller: User) {
    e == Offer(caller, callee, true, SessionOffer) && BothFree(h, caller, callee)
  }

  /** The event takes the ring of the callee for the caller away. */
  predicate EndsRing(h: Hub, e: Event, callee: User, caller: User) {
    || e == Hangup(caller, callee) || e == Hangup(callee, caller)
    || e == PendingExpired(callee, caller) || e == PendingExpired(caller, callee)
    || (e == Answer(callee, caller, true) && caller in h.sessions.byUser &&
        h.sessions.byUser[caller] in h.sessions.open)
    || (e.GraceTimeout? && !IsConnected(h.sessions, e.user) && e.user in h.peers
        && (e.user, h.peers[e.user]) in [(callee, caller), (caller, callee)])
  }

  /** A ring is on after an event exactly when the event starts it, or it was on and the event does not end it. */
  lemma RingsExactly(h: Hub, e: Event, callee: User, caller: User)
    ensures (callee, caller) in Next(h, e).pending
       <==> Rings(h, e, callee, caller) || ((callee, caller) in h.pending && !EndsRing(h, e, callee, caller))
  {
  }

  /** Hanging up, or ringing out, ends the rings between the two, both ways, and no other. */
  lemma HangupEndsRings(h: Hub, e: Event, a: User, b: User)
    requires e == Hangup(a, b) || e == PendingExpired(b, a)
    ensures (a, b) !in Next(h, e).pending && (b, a) !in Next(h, e).pending
    ensures forall p :: p != (a, b) && p != (b, a) ==> (p in Next(h, e).pending <==> p in h.pending)
  {
  }

  /** In every run: after a hangup between two users the old ring cannot run out, until the caller rings anew. */
  lemma {:induction false} NoRingOutAfterHangup(
    hubs: seq<Hub>, events: seq<Event>, m: nat, n: nat, callee: User, caller: User
  )
    requires IsRun(hubs, events) && m < n < |hubs|
    requires events[m] == Hangup(caller, callee) || events[m] == Hangup(callee, caller)
             || events[m] == PendingExpired(callee, caller)
    requires forall i :: m < i < n ==> !Rings(hubs[i], events[i], callee, caller)
    ensures (callee, caller) !in hubs[n].pending && !CanHappen(hubs[n], PendingExpired(callee, caller))
  {
    if n == m + 1 {
      RingsExactly(hubs[m], events[m], callee, caller);
    } else {
      NoRingOutAfterHangup(hubs, events, m, n - 1, callee, caller);
      RingsExactly(hubs[n - 1], events[n - 1], callee, caller);
    }
  }

  // ---- Calls -----------------------------------------------------------------------------------------------

  /** The event puts the two in a call: an offer between two who are free, or an answer that reaches its target. */
  predicate StartsCall(h: Hub, e: Event, a: User, b: User) {
    || (e.Offer? && {e.from, e.target} == {a, b} && BothFree(h, a, b))
    || (e.Answer? && e.hasPayload && {e.from, e.target} == {a, b} && IsConnected(h.sessions, e.target))
  }

  /** Over all events: two are in a call exactly when the event starts it, or it was on and is not ended. */
  lemma CallsExactly(h: Hub, e: Event, a: User, b: User)
    requires Symmetric(h.peers) && a != b && AnswerFree(h, e)
    ensures InCall(Next(h, e), a, b) <==> StartsCall(h, e, a, b) || (InCall(h, a, b) && !EndsCall(h, e, a, b))
  {
    if InCall(h, a, b) {
      CallEndsExactlyBy(h, e, a, b);
    } else {
      match e
      case Hangup(from, _) => ClearKeepsSymmetry(h.peers, from);
      case PendingExpired(_, caller) => ClearKeepsSymmetry(h.peers, caller);
      case GraceTimeout(user) => ClearKeepsSymmetry(h.peers, user);
      case _ =>
    }
  }

  // ---- Timers, presence and the clock -----------------------------------------------------------------------

  /** The close of the user's known socket while the user is in a call. */
  predicate StartsTimer(h: Hub, e: Event, a: User) {
    e.SocketClosed? && e.socket in h.sessions.bySocket && h.sessions.bySocket[e.socket] == a && a in h.peers
  }

  /** A timer runs after an event exactly when the event starts it, for 30 seconds, or leaves it as it was. */
  lemma TimersExactly(h: Hub, e: Event, a: User)
    ensures var next := Next(h, e);
            && (StartsTimer(h, e, a) ==> a in next.graceDeadlines && next.graceDeadlines[a] == h.now + 30000)
            && (!StartsTimer(h, e, a) ==>
                  && (a in next.graceDeadlines <==> a in h.graceDeadlines && !TouchesTimer(h, e, a))
                  && (a in next.graceDeadlines ==> next.graceDeadlines[a] == h.graceDeadlines[a]))
  {
  }

  /** Presence and sessions follow authentications and closes of known sockets alone, and time passes by itself. */
  lemma PresenceExactly(h: Hub, e: Event, u: User)
    ensures var next := Next(h, e);
            var leaves := e.SocketClosed? && e.socket in h.sessions.bySocket && h.sessions.bySocket[e.socket] == u;
            var arrives := e.Authenticated? && e.user == u;
            && (u in next.online <==> arrives || (u in h.online && !leaves))
            && (u in next.sessions.byUser <==> arrives || (u in h.sessions.byUser && !leaves))
            && (arrives ==> next.sessions.byUser[u] == e.socket)
            && (u in h.sessions.byUser && !arrives && !leaves ==>
                  next.sessions.byUser[u] == h.sessions.byUser[u])
            && next.now == h.now + (if e.Elapse? then e.ms else 0)
  {
  }

  /** A socket is open after an event exactly when it connects, or was open and is neither closed nor replaced. */
  lemma OpenSocketsExactly(h: Hub, e: Event, x: Socket)
    ensures var replaced := e.Authenticated? && e.user in h.sessions.byUser && h.sessions.byUser[e.user] == x;
            var known := e.Authenticated? && e.socket == x;
            && (x in Next(h, e).sessions.open <==>
                  e == Connected(x) || (x in h.sessions.open && e != SocketClosed(x) && !replaced))
            && (x in Next(h, e).sessions.bySocket <==>
                  known || (x in h.sessions.bySocket && e != SocketClosed(x) && !replaced))
  {
  }

  // ---- Answers to the sender -----------------------------------------------------------------------------------

  function Reply(h: Hub, e: Event): SignalReply
    requires e.Offer? || e.Answer? || e.Candidate? || e.Hangup?
  {
    match e
    case Offer(from, target, initial, payload) => HandleOffer(h, from, target, initial, payload).1
    case Answer(from, target, hasPayload) => HandleAnswer(h, from, target, hasPayload).1
    case Candidate(_, target, hasPayload) => HandleCandidate(h, target, hasPayload).1
    case Hangup(from, target) => HandleHangup(h, from, target).1
  }

  /** The sender of an offer is in another call; or its target is; or a signal lacks the payload it needs. */
  predicate SenderBusy(h: Hub, e: Event) { e.Offer? && e.from in h.peers && h.peers[e.from] != e.target }

  predicate ReceiverBusy(h: Hub, e: Event) { e.Offer? && e.target in h.peers && h.peers[e.target] != e.from }

  predicate LacksPayload(e: Event) {
    (e.Offer? && e.payload == NoPayload) || ((e.Answer? || e.Candidate?) && !e.hasPayload)
  }

  /** Each reply, exactly when; a signal is forwarded when nothing of that holds and the target is connected. */
  lemma RepliesExactly(h: Hub, e: Event)
    requires e.Offer? || e.Answer? || e.Candidate? || e.Hangup?
    ensures var reply := Reply(h, e);
            && (reply == CallBusy("caller_already_in_call") <==> SenderBusy(h, e))
            && (reply == CallBusy("target_in_call") <==> !SenderBusy(h, e) && ReceiverBusy(h, e))
            && (reply == MissingPayload <==> !SenderBusy(h, e) && !ReceiverBusy(h, e) && LacksPayload(e))
            && (reply == Forwarded <==>
                  !SenderBusy(h, e) && !ReceiverBusy(h, e) && !LacksPayload(e) && IsConnected(h.sessions, e.target))
            && (reply.Failed? ==> (reply.retryable <==> e.Offer? && e.initial))
  {
  }
}
