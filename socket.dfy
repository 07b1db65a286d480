/** The online-user registry of `socket.js`: `SocketManager` keeps two maps,
    user to socket and socket to user, sets both when an authenticated
    socket connects, deletes both when a socket disconnects, answers
    presence queries from the first, and clears both on shutdown. The
    Socket.IO server, authentication and every emitted event are not part
    of this model. */
module Sockets {
  import opened Common

  /** An authenticated socket: its id and the id of its user. */
  datatype Socket = Socket(id: Id, userId: Id)

  /** The registry's state: `connectedUsers` with its keys in insertion
      order (a JavaScript `Map` keeps them so), and `userSockets`. */
  datatype Registry = Registry(connectedUsers: map<Id, Id>, online: seq<Id>, userSockets: map<Id, Id>)

  ghost predicate Distinct(xs: seq<Id>)
  {
    forall i, j :: 0 <= i < j < |xs| ==> xs[i] != xs[j]
  }

  /** The registry's invariant: the order lists each online user once; the
      two maps are inverse to each other, so every online user's socket is
      registered to that user and every registered socket is its user's
      current one; socket ids are never empty. */
  ghost predicate RegistryValid(r: Registry)
  {
    Distinct(r.online)
    && (forall u :: u in r.connectedUsers <==> u in r.online)
    && (forall u :: u in r.connectedUsers ==> r.connectedUsers[u] in r.userSockets && r.userSockets[r.connectedUsers[u]] == u)
    && (forall x :: x in r.userSockets ==> r.userSockets[x] in r.connectedUsers && r.connectedUsers[r.userSockets[x]] == x)
    && (forall x :: x in r.userSockets ==> x != [])
  }

  function Remove(xs: seq<Id>, x: Id): (r: seq<Id>)
    ensures forall y :: y in r <==> y in xs && y != x
    ensures Distinct(xs) ==> Distinct(r)
    ensures Distinct(xs) && x in xs ==> |r| == |xs| - 1
    ensures x !in xs ==> r == xs
  {
    if xs == [] then []
    else if xs[0] == x then Remove(xs[1..], x)
    else
      var rest := Remove(xs[1..], x);
      assert Distinct(xs) ==> Distinct(xs[1..]) && xs[0] !in xs[1..] by {
        if Distinct(xs) {
          assert forall i, j :: 0 <= i < j < |xs| - 1 ==> xs[1..][i] == xs[i + 1] && xs[1..][j] == xs[j + 1];
          assert forall i :: 0 <= i < |xs| - 1 ==> xs[1..][i] == xs[i + 1];
        }
      }
      [xs[0]] + rest
  }

  /** `handleUserDisconnection`: both entries go, whatever socket the user
      now points at. */
  function AfterDisconnect(r: Registry, s: Socket): (q: Registry)
    ensures q.connectedUsers == r.connectedUsers - {s.userId}
    ensures q.userSockets == r.userSockets - {s.id}
  {
    Registry(r.connectedUsers - {s.userId}, Remove(r.online, s.userId), r.userSockets - {s.id})
  }

  /** The two `Map.set` calls: the user points at the socket and the socket
      at the user. A key already present keeps its place in the order, a new
      one goes last. */
  function Register(r: Registry, s: Socket): (q: Registry)
    ensures q.connectedUsers == r.connectedUsers[s.userId := s.id]
    ensures q.userSockets == r.userSockets[s.id := s.userId]
  {
    Registry(r.connectedUsers[s.userId := s.id],
             if s.userId in r.connectedUsers then r.online else r.online + [s.userId],
             r.userSockets[s.id := s.userId])
  }

  /** The socket a user is registered with, when they have one. */
  function Previous(r: Registry, userId: Id): Socket
    requires userId in r.connectedUsers
  {
    Socket(r.connectedUsers[userId], userId)
  }

  /** `handleUserConnection`: a user who already has a socket has it
      disconnected first, and `disconnect(true)` runs that socket's own
      disconnect handler before the new entries are set. The user therefore
      points at the new socket only, the previous socket is deregistered,
      and the user moves to the end of the online order. */
  function AfterConnect(r: Registry, s: Socket): (q: Registry)
    ensures q.connectedUsers == r.connectedUsers[s.userId := s.id]
    ensures s.userId in r.connectedUsers ==>
      q.userSockets == (r.userSockets - {r.connectedUsers[s.userId]})[s.id := s.userId]
      && q.online == Remove(r.online, s.userId) + [s.userId]
    ensures s.userId !in r.connectedUsers ==>
      q.userSockets == r.userSockets[s.id := s.userId] && q.online == r.online + [s.userId]
  {
    var cleared := if s.userId in r.connectedUsers then AfterDisconnect(r, Previous(r, s.userId)) else r;
    Register(cleared, s)
  }

  /** A socket Socket.IO has just accepted: a fresh, non-empty id. */
  predicate Fresh(r: Registry, s: Socket)
  {
    s.id != [] && s.id !in r.userSockets
  }

  /** A socket whose own registration is intact: each socket disconnects
      once, after it connected. */
  predicate Registered(r: Registry, s: Socket)
  {
    s.id in r.userSockets && r.userSockets[s.id] == s.userId
  }

  /** Registering a fresh socket for a user who is offline keeps the
      invariant. */
  lemma {:induction false} RegisterKeepsValid(r: Registry, s: Socket)
    requires RegistryValid(r) && Fresh(r, s) && s.userId !in r.connectedUsers
    ensures RegistryValid(Register(r, s))
  {
    var q := Register(r, s);
    assert s.userId !in r.online;
    forall i, j | 0 <= i < j < |q.online|
      ensures q.online[i] != q.online[j]
    {
      if j == |r.online| {
        assert q.online[i] == r.online[i];
      }
    }
    forall x | x in q.userSockets
      ensures q.userSockets[x] in q.connectedUsers && q.connectedUsers[q.userSockets[x]] == x
    {
      if x != s.id {
        assert r.userSockets[x] != s.userId;
      }
    }
  }

  lemma {:induction false} DisconnectKeepsValid(r: Registry, s: Socket)
    requires RegistryValid(r) && Registered(r, s)
    ensures RegistryValid(AfterDisconnect(r, s))
  {
    var q := AfterDisconnect(r, s);
    forall u | u in q.connectedUsers
      ensures q.connectedUsers[u] in q.userSockets && q.userSockets[q.connectedUsers[u]] == u
    {
      assert r.userSockets[r.connectedUsers[u]] == u;
      assert r.connectedUsers[u] != s.id;
    }
    forall x | x in q.userSockets
      ensures q.userSockets[x] in q.connectedUsers && q.connectedUsers[q.userSockets[x]] == x
    {
      assert r.connectedUsers[r.userSockets[x]] == x;
      assert r.userSockets[x] != s.userId;
    }
  }

  /** A user's registered socket is registered to that user. */
  lemma PreviousIsRegistered(r: Registry, userId: Id)
    requires RegistryValid(r) && userId in r.connectedUsers
    ensures Registered(r, Previous(r, userId))
  {
  }

  lemma {:induction false} ConnectKeepsValid(r: Registry, s: Socket)
    requires RegistryValid(r) && Fresh(r, s)
    ensures RegistryValid(AfterConnect(r, s))
  {
    if s.userId in r.connectedUsers {
      var previous := Previous(r, s.userId);
      PreviousIsRegistered(r, s.userId);
      DisconnectKeepsValid(r, previous);
      RegisterKeepsValid(AfterDisconnect(r, previous), s);
    } else {
      RegisterKeepsValid(r, s);
    }
  }

  /** Every user has at most one registered socket. */
  lemma {:induction false} OneSocketPerUser(r: Registry, a: Id, b: Id)
    requires RegistryValid(r) && a in r.userSockets && b in r.userSockets && r.userSockets[a] == r.userSockets[b]
    ensures a == b
  {
    assert r.connectedUsers[r.userSockets[a]] == a;
    assert r.connectedUsers[r.userSockets[b]] == b;
  }

  /** A list without repeats has as many elements as the set of them. */
  lemma {:induction false} DistinctSetSize(xs: seq<Id>)
    requires Distinct(xs)
    ensures |set x | x in xs| == |xs|
    decreases |xs|
  {
    if xs != [] {
      var x := xs[|xs| - 1];
      var rest := xs[..|xs| - 1];
      assert Distinct(rest) by {
        forall i, j | 0 <= i < j < |rest| ensures rest[i] != rest[j] {
          assert rest[i] == xs[i] && rest[j] == xs[j];
        }
      }
      assert x !in rest by {
        forall i | 0 <= i < |rest| ensures rest[i] != x {
          assert rest[i] == xs[i];
        }
      }
      assert xs == rest + [x];
      assert (set y | y in xs) == (set y | y in rest) + {x};
      DistinctSetSize(rest);
    }
  }

  /** A distinct list holding exactly a map's keys is as long as the map. */
  lemma CountMatchesOrder(m: map<Id, Id>, xs: seq<Id>)
    requires Distinct(xs) && forall u :: u in m <==> u in xs
    ensures |m| == |xs|
  {
    assert m.Keys == set x | x in xs;
    DistinctSetSize(xs);
  }

  /** A reconnect replaces the user's socket: the previous socket is no
      longer registered, the new one is the only socket registered to the
      user, and the user is now last in the online order, the others keeping
      theirs. */
  lemma {:induction false} ReconnectReplacesOldSocket(r: Registry, s: Socket)
    requires RegistryValid(r) && Fresh(r, s) && s.userId in r.connectedUsers
    ensures var q := AfterConnect(r, s);
      r.connectedUsers[s.userId] !in q.userSockets
      && q.connectedUsers[s.userId] == s.id && Registered(q, s)
      && (forall x :: x in q.userSockets && q.userSockets[x] == s.userId ==> x == s.id)
      && q.online[|q.online| - 1] == s.userId
      && q.online[..|q.online| - 1] == Remove(r.online, s.userId)
  {
    var q := AfterConnect(r, s);
    ConnectKeepsValid(r, s);
    forall x | x in q.userSockets && q.userSockets[x] == s.userId ensures x == s.id {
      OneSocketPerUser(q, x, s.id);
    }
    assert q.online == Remove(r.online, s.userId) + [s.userId];
  }

  /** The manager: whether the server was initialised, and the registry. */
  class SocketManager {
    var initialized: bool
    var connectedUsers: map<Id, Id>
    var online: seq<Id>
    var userSockets: map<Id, Id>

    function State(): Registry
      reads this
    {
      Registry(connectedUsers, online, userSockets)
    }

    ghost predicate Valid()
      reads this
    {
      RegistryValid(State())
    }

    constructor()
      ensures Valid() && !initialized
      ensures connectedUsers == map[] && userSockets == map[] && online == []
    {
      initialized := false;
      connectedUsers := map[];
      online := [];
      userSockets := map[];
    }

    /** `initialize`: the server exists from now on. */
    method Initialize()
      requires Valid()
      modifies this`initialized
      ensures Valid() && initialized
    {
      initialized := true;
    }

    /** The previous socket of a returning user is disconnected through
        `HandleUserDisconnection` before the new entries are set. */
    method HandleUserConnection(s: Socket)
      requires Valid() && Fresh(State(), s)
      modifies this`connectedUsers, this`online, this`userSockets
      ensures Valid()
      ensures State() == AfterConnect(old(State()), s)
      ensures connectedUsers[s.userId] == s.id && userSockets[s.id] == s.userId
    {
      if s.userId in connectedUsers {
        var previous := Previous(State(), s.userId);
        PreviousIsRegistered(State(), s.userId);
        HandleUserDisconnection(previous);
      }
      RegisterKeepsValid(State(), s);
      if s.userId !in connectedUsers {
        online := online + [s.userId];
      }
      connectedUsers := connectedUsers[s.userId := s.id];
      userSockets := userSockets[s.id := s.userId];
    }

    method HandleUserDisconnection(s: Socket)
      requires Valid() && Registered(State(), s)
      modifies this`connectedUsers, this`online, this`userSockets
      ensures Valid()
      ensures State() == AfterDisconnect(old(State()), s)
      ensures s.userId !in connectedUsers && s.id !in userSockets
    {
      DisconnectKeepsValid(State(), s);
      connectedUsers := connectedUsers - {s.userId};
      online := Remove(online, s.userId);
      userSockets := userSockets - {s.id};
    }

    /** `sendNotificationToUser`: sent exactly when the user has a socket. */
    method SendNotificationToUser(userId: Id) returns (sent: bool)
      requires Valid()
      ensures sent <==> userId in connectedUsers
    {
      sent := userId in connectedUsers && connectedUsers[userId] != [];
    }

    method GetOnlineUsersCount() returns (n: nat)
      requires Valid()
      ensures n == |connectedUsers| && n == |online|
    {
      CountMatchesOrder(connectedUsers, online);
      n := |online|;
    }

    method IsUserOnline(userId: Id) returns (b: bool)
      ensures b <==> userId in connectedUsers
    {
      b := userId in connectedUsers;
    }

    /** `getOnlineUsers`: each online user once, in the order they came
      online. */
    method GetOnlineUsers() returns (users: seq<Id>)
      requires Valid()
      ensures users == online
      ensures forall u :: u in users <==> u in connectedUsers
      ensures forall i, j :: 0 <= i < j < |users| ==> users[i] != users[j]
    {
      users := online;
    }

    /** `cleanup`: both maps emptied, and only when the server was
      initialised. */
    method Cleanup()
      requires Valid()
      modifies this`connectedUsers, this`online, this`userSockets
      ensures Valid()
      ensures old(initialized) ==> connectedUsers == map[] && userSockets == map[] && online == []
      ensures !old(initialized) ==> State() == old(State())
    {
      if initialized {
        connectedUsers := map[];
        online := [];
        userSockets := map[];
      }
    }
  }
}
