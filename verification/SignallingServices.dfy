/** The session manager and the signalling handlers with the maps they update in place. */
module SignallingServices {
  import opened Common
  import opened Signalling
  import opened SignallingEffects

  class SessionManager {
    var sessions: map<User, Socket>
    var socketToUser: map<Socket, User>
    /** Sockets whose readyState is OPEN. */
    var open: set<Socket>

    function Contents(): Sessions
      reads this
    {
      Sessions(sessions, socketToUser, open)
    }

    constructor ()
      ensures Contents() == INITIAL.sessions
    {
      sessions, socketToUser, open := map[], map[], {};
    }

    method AddSession(user: User, socket: Socket)
      modifies this
      ensures Contents() == Signalling.AddSession(old(Contents()), user, socket)
      ensures old(SocketsCurrent(Contents())) ==> SocketsCurrent(Contents())
      ensures forall x :: x != socket && old(user in sessions && sessions[user] == x) ==>
                x !in socketToUser && x !in open
    {
      if user in sessions {
        var existing := sessions[user];
        open := open - {existing};
        socketToUser := socketToUser - {existing};
      } else {
        assert socketToUser - {} == socketToUser && open - {} == open;
      }
      sessions := sessions[user := socket];
      socketToUser := socketToUser[socket := user];
    }

    method RemoveSession(socket: Socket) returns (user: Option<User>)
      modifies this
      ensures (Contents(), user) == Signalling.RemoveSession(old(Contents()), socket)
      ensures old(SocketsCurrent(Contents())) ==> SocketsCurrent(Contents())
      ensures user.Some? <==> old(socket in socketToUser)
      ensures old(SocketsCurrent(Contents())) && user.Some? ==>
                old(user.value in sessions && sessions[user.value] == socket)
    {
      if socket !in socketToUser {
        return None;
      }
      user := Some(socketToUser[socket]);
      sessions := sessions - {user.value};
      socketToUser := socketToUser - {socket};
    }

    function GetSocket(user: User): (r: Option<Socket>)
      reads this
      ensures SocketsCurrent(Contents()) && UsersKnown(Contents()) ==>
                (r.Some? <==> exists x :: x in socketToUser && socketToUser[x] == user)
      ensures SocketsCurrent(Contents()) && UsersKnown(Contents()) && r.Some? ==> GetUserId(r.value) == Some(user)
    {
      if user in sessions then Some(sessions[user]) else None
    }

    function GetUserId(socket: Socket): Option<User>
      reads this
    {
      if socket in socketToUser then Some(socketToUser[socket]) else None
    }
  }

  class SignallingServer {
    const manager: SessionManager
    var now: int
    var activeCallPeers: map<User, User>
    var disconnectGraceTimers: map<User, int>
    var pendingCalls: set<(User, User)>
    var online: set<User>

    function State(): Hub
      reads this, manager
    {
      Hub(now, manager.Contents(), activeCallPeers, disconnectGraceTimers, pendingCalls, online)
    }

    constructor (manager: SessionManager)
      requires manager.Contents() == INITIAL.sessions
      ensures State() == INITIAL && this.manager == manager
    {
      this.manager := manager;
      now, activeCallPeers, disconnectGraceTimers, pendingCalls, online := 0, map[], map[], {}, {};
    }

    lemma CallsEndExactly(e: Event)
      ensures Symmetric(activeCallPeers) ==> (Symmetric(Next(State(), e).peers) <==> AnswerFree(State(), e))
      ensures Symmetric(activeCallPeers) && AnswerFree(State(), e) ==>
                forall a, b :: a != b && InCall(State(), a, b) ==>
                  (InCall(Next(State(), e), a, b) <==> !EndsCall(State(), e, a, b))
    {
      if Symmetric(activeCallPeers) {
        StepSymmetricIffAnswerFree(State(), e);
        forall a, b | a != b && InCall(State(), a, b) && AnswerFree(State(), e)
          ensures InCall(Next(State(), e), a, b) <==> !EndsCall(State(), e, a, b)
        {
          CallEndsExactlyBy(State(), e, a, b);
        }
      }
    }

    lemma RingsChangeExactly(e: Event)
      ensures forall callee, caller :: (callee, caller) in Next(State(), e).pending <==>
                Rings(State(), e, callee, caller)
                || ((callee, caller) in pendingCalls && !EndsRing(State(), e, callee, caller))
    {
      forall callee, caller
        ensures (callee, caller) in Next(State(), e).pending <==>
                Rings(State(), e, callee, caller)
                || ((callee, caller) in pendingCalls && !EndsRing(State(), e, callee, caller))
      {
        RingsExactly(State(), e, callee, caller);
      }
    }

    method SetPair(a: User, b: User)
      modifies this`activeCallPeers
      ensures activeCallPeers == SetCallPair(old(activeCallPeers), a, b)
      ensures old(Symmetric(activeCallPeers)) ==> (Symmetric(activeCallPeers) <==> FreeFor(old(activeCallPeers), a, b))
    {
      if Symmetric(activeCallPeers) {
        SetCallPairSymmetricIffFree(activeCallPeers, a, b);
      }
      activeCallPeers := activeCallPeers[a := b];
      activeCallPeers := activeCallPeers[b := a];
    }

    method ClearCall(user: User)
      modifies this`activeCallPeers
      ensures activeCallPeers == ClearCallForUser(old(activeCallPeers), user)
      ensures old(Symmetric(activeCallPeers)) ==>
                && Symmetric(activeCallPeers) && user !in activeCallPeers
                && forall x :: x in activeCallPeers <==>
                  old(x in activeCallPeers && x != user && activeCallPeers[x] != user)
    {
      if Symmetric(activeCallPeers) {
        ClearKeepsSymmetry(activeCallPeers, user);
      }
      var peer := if user in activeCallPeers then Some(activeCallPeers[user]) else None;
      activeCallPeers := activeCallPeers - {user};
      if peer.Some? && peer.value in activeCallPeers && activeCallPeers[peer.value] == user {
        activeCallPeers := activeCallPeers - {peer.value};
      }
    }

    method ClearPairState(a: User, b: User)
      modifies this
      ensures State() == ClearCallPairState(old(State()), a, b)
    {
      disconnectGraceTimers := disconnectGraceTimers - {a};
      disconnectGraceTimers := disconnectGraceTimers - {b};
      assert old(disconnectGraceTimers) - {a} - {b} == old(disconnectGraceTimers) - {a, b};
      ClearCall(a);
      pendingCalls := pendingCalls - {(a, b)} - {(b, a)};
    }

    method ScheduleGrace(user: User) returns (scheduled: bool)
      modifies this`disconnectGraceTimers
      ensures scheduled <==> user in activeCallPeers
      ensures disconnectGraceTimers ==
              if scheduled then old(disconnectGraceTimers)[user := now + GRACE_MS] else old(disconnectGraceTimers)
    {
      if user !in activeCallPeers {
        return false;
      }
      disconnectGraceTimers := disconnectGraceTimers[user := now + GRACE_MS];
      return true;
    }

    method OnGraceTimeout(user: User)
      modifies this
      ensures State() == Next(old(State()), GraceTimeout(user))
      ensures old(Symmetric(activeCallPeers)) ==>
                && Symmetric(activeCallPeers)
                && forall a, b :: a != b && InCall(old(State()), a, b) ==>
                     (InCall(State(), a, b) <==> !EndsCall(old(State()), GraceTimeout(user), a, b))
    {
      CallsEndExactly(GraceTimeout(user));
      disconnectGraceTimers := disconnectGraceTimers - {user};
      if IsConnected(manager.Contents(), user) || user !in activeCallPeers {
        return;
      }
      ClearPairState(user, activeCallPeers[user]);
    }

    method OnPendingCallExpired(callee: User, caller: User)
      modifies this
      ensures State() == Next(old(State()), PendingExpired(callee, caller))
      ensures (callee, caller) !in pendingCalls && (caller, callee) !in pendingCalls
      ensures forall p :: p != (callee, caller) && p != (caller, callee) ==>
                (p in pendingCalls <==> p in old(pendingCalls))
      ensures old(Symmetric(activeCallPeers)) ==>
                && Symmetric(activeCallPeers)
                && forall a, b :: a != b && InCall(old(State()), a, b) ==>
                     (InCall(State(), a, b) <==> !EndsCall(old(State()), PendingExpired(callee, caller), a, b))
    {
      CallsEndExactly(PendingExpired(callee, caller));
      ClearPairState(caller, callee);
    }

    method OnAuthenticated(user: User, socket: Socket)
      modifies this, manager
      ensures State() == Next(old(State()), Authenticated(user, socket))
      ensures old(SocketsCurrent(manager.Contents())) ==> SocketsCurrent(manager.Contents())
      ensures activeCallPeers == old(activeCallPeers)
    {
      disconnectGraceTimers := disconnectGraceTimers - {user};
      manager.AddSession(user, socket);
      online := online + {user};
    }

    method OnClose(socket: Socket)
      modifies this, manager
      ensures State() == Next(old(State()), SocketClosed(socket))
      ensures old(SocketsCurrent(manager.Contents())) ==> SocketsCurrent(manager.Contents())
      ensures activeCallPeers == old(activeCallPeers)
    {
      manager.open := manager.open - {socket};
      var user := manager.RemoveSession(socket);
      if user.Some? {
        var _ := ScheduleGrace(user.value);
        online := online - {user.value};
      }
    }

    /** The `signal` event of an authenticated user, in the order the handler takes its decisions. */
    method HandleSignal(e: Event) returns (reply: SignalReply)
      requires e.Offer? || e.Answer? || e.Candidate? || e.Hangup?
      modifies this
      ensures State() == Next(old(State()), e)
      ensures reply == Reply(old(State()), e)
      ensures forall callee, caller :: (callee, caller) in pendingCalls <==>
                Rings(old(State()), e, callee, caller)
                || ((callee, caller) in old(pendingCalls) && !EndsRing(old(State()), e, callee, caller))
      ensures old(Symmetric(activeCallPeers)) ==> (Symmetric(activeCallPeers) <==> AnswerFree(old(State()), e))
      ensures old(Symmetric(activeCallPeers)) && AnswerFree(old(State()), e) ==>
                forall a, b :: a != b && InCall(old(State()), a, b) ==>
                  (InCall(State(), a, b) <==> !EndsCall(old(State()), e, a, b))
    {
      CallsEndExactly(e);
      RingsChangeExactly(e);
      var from, target := e.from, e.target;
      if e.Offer? {
        if from in activeCallPeers && activeCallPeers[from] != target {
          return CallBusy("caller_already_in_call");
        }
        if target in activeCallPeers && activeCallPeers[target] != from {
          return CallBusy("target_in_call");
        }
        SetPair(from, target);
        disconnectGraceTimers := disconnectGraceTimers - {from};
        if e.initial && e.payload.SessionOffer? {
          pendingCalls := pendingCalls + {(target, from)};
        }
      }
      if (e.Offer? && e.payload.NoPayload?) || ((e.Answer? || e.Candidate?) && !e.hasPayload) {
        return MissingPayload;
      }
      if e.Hangup? {
        ClearPairState(from, target);
      }
      if !IsConnected(manager.Contents(), target) {
        return Failed(e.Offer? && e.initial);
      }
      if e.Answer? {
        pendingCalls := pendingCalls - {(from, target)};
        SetPair(from, target);
        disconnectGraceTimers := disconnectGraceTimers - {from};
        disconnectGraceTimers := disconnectGraceTimers - {target};
        assert old(disconnectGraceTimers) - {from} - {target} == old(disconnectGraceTimers) - {from, target};
      }
      return Forwarded;
    }
  }
}
