/** Sockets, presence and room grace timers.

    Presence is shared by all instances; each instance also mirrors its own sockets and holds
    the grace timers of sockets that dropped while in a room. Operations are serialized. */
module SocketPresence {

  import opened Prelude

  type User = string
  type SocketId = string
  type Room = string

  // ---------- Room names and timer keys ----------

  predicate IsHex(c: char) {
    '0' <= c <= '9' || 'a' <= c <= 'f' || 'A' <= c <= 'F'
  }

  /** The name is a UUID, so it can name a database row. */
  predicate IsPersistedRoomId(room: Room) {
    |room| == 36 && forall i :: 0 <= i < 36 ==> if i in {8, 13, 18, 23} then room[i] == '-' else IsHex(room[i])
  }

  function TimerKey(room: Room, user: User): string {
    room + ":" + user
  }

  predicate EndsWith(s: string, suffix: string) {
    |suffix| <= |s| && s[|s| - |suffix|..] == suffix
  }

  predicate ColonFree(user: User) {
    ':' !in user
  }

  /** A timer key determines its room and user. */
  lemma TimerKeyInjective(room: Room, user: User, room': Room, user': User)
    requires ColonFree(user) && ColonFree(user') && TimerKey(room, user) == TimerKey(room', user')
    ensures room == room' && user == user'
  {
    var key := TimerKey(room, user);
    assert key[|room|] == ':' && key[|room'|] == ':';
    assert forall i :: 0 <= i < |user| ==> key[|room| + 1 + i] == user[i];
    assert forall i :: 0 <= i < |user'| ==> key[|room'| + 1 + i] == user'[i];
    assert key[..|room|] == room && key[..|room'|] == room';
    assert key[|room| + 1..] == user && key[|room'| + 1..] == user';
  }

  /** The suffix test of an immediate ejection picks out exactly the user's own timers. */
  lemma SuffixPicksUser(room: Room, owner: User, user: User)
    requires ColonFree(owner) && ColonFree(user)
    ensures EndsWith(TimerKey(room, owner), ":" + user) <==> owner == user
  {
    var key := TimerKey(room, owner);
    if owner == user {
      assert key[|key| - |user| - 1..] == ":" + user;
    } else if EndsWith(key, ":" + user) {
      var head := key[..|key| - |user| - 1];
      assert key == head + (":" + user) == TimerKey(head, user);
      TimerKeyInjective(room, owner, head, user);
    }
  }

  /** Colons in user ids break this: for a room with a database row the test picks out exactly the
      users whose id is the given one or ends in a colon and the given one. */
  lemma SuffixPicksExactly(room: Room, owner: User, user: User)
    requires IsPersistedRoomId(room)
    ensures EndsWith(TimerKey(room, owner), ":" + user) <==> owner == user || EndsWith(owner, ":" + user)
  {
    var key, suffix := TimerKey(room, owner), ":" + user;
    assert forall i :: 0 <= i < |room| ==> key[i] == room[i] != ':';
    assert key == room + (":" + owner);
    if |suffix| <= |owner| {
      assert key[|key| - |suffix|..] == owner[|owner| - |suffix|..];
    } else if |suffix| == |owner| + 1 {
      assert key[|key| - |suffix|..] == ":" + owner;
      assert owner == (":" + owner)[1..] && user == suffix[1..];
    } else if |suffix| <= |key| {
      assert key[|key| - |suffix|..][0] == room[|key| - |suffix|] != suffix[0];
    }
  }

  /** So an id with a colon is caught by the ejection of another user. */
  lemma ColonMixesUsers(room: Room, owner: User) returns (other: User)
    requires IsPersistedRoomId(room) && ':' in owner
    ensures other != owner && EndsWith(TimerKey(room, owner), ":" + other)
  {
    var i :| 0 <= i < |owner| && owner[i] == ':';
    other := owner[i + 1..];
    assert owner[i..] == ":" + other;
    SuffixPicksExactly(room, owner, other);
  }

  // ---------- Presence ----------

  /** Families of Redis sets as relations: a set without members does not exist. */
  datatype Presence = Presence(
    sockets: set<(User, SocketId)>, online: set<User>, members: set<(Room, User)>, moderators: set<(Room, User)>,
      rooms: set<(User, Room)>)

  const NOBODY := Presence({}, {}, {}, {}, {})

  function SocketsOf(p: Presence, user: User): set<SocketId> {
    set pair | pair in p.sockets && pair.0 == user :: pair.1
  }

  function RoomsOf(p: Presence, user: User): set<Room> {
    set pair | pair in p.rooms && pair.0 == user :: pair.1
  }

  function Without<T(==)>(pairs: set<(User, T)>, user: User): set<(User, T)> {
    set pair | pair in pairs && pair.0 != user
  }

  function Connected(p: Presence, user: User, socket: SocketId): (Presence, bool) {
    var q := p.(sockets := p.sockets + {(user, socket)});
    if |SocketsOf(q, user)| == 1 then (q.(online := q.online + {user}), true) else (q, false)
  }

  function Disconnected(p: Presence, user: User, socket: SocketId): (Presence, bool) {
    var q := p.(sockets := p.sockets - {(user, socket)});
    if |SocketsOf(q, user)| == 0 then
      (q.(sockets := Without(q.sockets, user), rooms := Without(q.rooms, user), online := q.online - {user}), true)
    else (q, false)
  }

  predicate InRoom(p: Presence, room: Room, user: User) {
    (room, user) in p.members || (room, user) in p.moderators
  }

  function Entered(p: Presence, room: Room, user: User, isModerator: bool): Presence {
    if isModerator then p.(moderators := p.moderators + {(room, user)}, rooms := p.rooms + {(user, room)})
    else p.(members := p.members + {(room, user)}, rooms := p.rooms + {(user, room)})
  }

  function Exited(p: Presence, room: Room, user: User, isModerator: bool): Presence {
    if isModerator then p.(moderators := p.moderators - {(room, user)}, rooms := p.rooms - {(user, room)})
    else p.(members := p.members - {(room, user)}, rooms := p.rooms - {(user, room)})
  }

  function ExitedEverywhere(p: Presence, room: Room, user: User): Presence {
    Exited(Exited(p, room, user, false), room, user, true)
  }

  /** The users online are exactly those with a socket. */
  ghost predicate OnlineOk(p: Presence) {
    forall user :: user in p.online <==> exists socket :: (user, socket) in p.sockets
  }

  lemma ConnectOnline(p: Presence, user: User, socket: SocketId)
    requires OnlineOk(p) && (user, socket) !in p.sockets
    ensures var (q, first) := Connected(p, user, socket);
      OnlineOk(q) && first == (user !in p.online) && q.online == p.online + {user}
        && q.sockets == p.sockets + {(user, socket)}
  {
    var (q, first) := Connected(p, user, socket);
    var had, has := SocketsOf(p, user), SocketsOf(q, user);
    assert (user, socket) in q.sockets;
    assert has == had + {socket} && socket !in had;
    if user in p.online {
      var other :| (user, other) in p.sockets;
      assert other in had && |has| > 1;
    } else {
      assert had == {};
    }
    forall u ensures u in q.online <==> exists s :: (u, s) in q.sockets {
      if u != user && u in p.online {
        var s :| (u, s) in p.sockets;
        assert (u, s) in q.sockets;
      }
    }
  }

  lemma DisconnectOnline(p: Presence, user: User, socket: SocketId)
    requires OnlineOk(p) && (user, socket) in p.sockets
    ensures var (q, last) := Disconnected(p, user, socket);
      OnlineOk(q) && user in p.online && q.sockets == p.sockets - {(user, socket)}
      && q.online == (if last then p.online - {user} else p.online)
  {
    var (q, last) := Disconnected(p, user, socket);
    var removed := p.sockets - {(user, socket)};
    var left := SocketsOf(p.(sockets := removed), user);
    if last {
      assert left == {};
      assert forall pair :: pair in removed && pair.0 == user ==> pair.1 in left;
      assert Without(removed, user) == removed && forall s :: (user, s) !in q.sockets;
    } else {
      var other :| other in left;
      assert (user, other) in q.sockets;
    }
    forall u ensures u in q.online <==> exists s :: (u, s) in q.sockets {
      if u != user && u in p.online {
        var s :| (u, s) in p.sockets;
        assert (u, s) in q.sockets;
      }
    }
  }

  // ---------- One instance ----------

  /** A pending grace timeout, and what it will check. */
  datatype Timeout = Timeout(room: Room, user: User)

  /** The instance's own state: both socket indexes, the rooms each socket has joined, the
      timer map, and the timeouts the runtime holds for it. */
  datatype Local = Local(
    socketsByUser: map<User, set<SocketId>>, userBySocket: map<SocketId, User>, activeRooms: map<SocketId, seq<Room>>,
    timers: map<string, nat>, timeouts: map<nat, Timeout>, nextTimeout: nat)

  const IDLE := Local(map[], map[], map[], map[], map[], 0)

  /** The two indexes are inverse and hold no empty sets. */
  ghost predicate Mirrored(l: Local) {
    && (forall u :: u in l.socketsByUser ==> l.socketsByUser[u] != {})
    && (forall u, s :: u in l.socketsByUser && s in l.socketsByUser[u] ==>
          s in l.userBySocket && l.userBySocket[s] == u)
    && (forall s :: s in l.userBySocket ==>
          l.userBySocket[s] in l.socketsByUser && s in l.socketsByUser[l.userBySocket[s]])
  }

  /** The uncancelled timeouts are exactly the entries of the timer map, each for a room with a
      database row and a user with a plain id. */
  ghost predicate TimersOk(l: Local) {
    && (forall key :: key in l.timers ==>
          && l.timers[key] in l.timeouts
          && key == TimerKey(l.timeouts[l.timers[key]].room, l.timeouts[l.timers[key]].user))
    && (forall id :: id in l.timeouts ==>
          var t := l.timeouts[id];
          id < l.nextTimeout && IsPersistedRoomId(t.room) && ColonFree(t.user)
          && TimerKey(t.room, t.user) in l.timers && l.timers[TimerKey(t.room, t.user)] == id)
  }

  function JoinedRooms(l: Local, socket: SocketId): seq<Room> {
    if socket in l.activeRooms then l.activeRooms[socket] else []
  }

  function Track(l: Local, user: User, socket: SocketId): Local {
    var sockets := if user in l.socketsByUser then l.socketsByUser[user] else {};
    l.(socketsByUser := l.socketsByUser[user := sockets + {socket}], userBySocket := l.userBySocket[socket := user])
  }

  function Untrack(l: Local, user: User, socket: SocketId): Local {
    var rest := if user in l.socketsByUser then l.socketsByUser[user] - {socket} else {};
    l.(socketsByUser := if rest == {} then l.socketsByUser - {user} else l.socketsByUser[user := rest],
       userBySocket := l.userBySocket - {socket})
  }

  /** Cancels the pending timer under `key`, if any. */
  function Disarm(l: Local, key: string): Local {
    if key in l.timers then l.(timers := l.timers - {key}, timeouts := l.timeouts - {l.timers[key]}) else l
  }

  /** Starts a grace timer, replacing one that is pending for the same room and user. */
  function Arm(l: Local, room: Room, user: User): Local {
    var cleared := Disarm(l, TimerKey(room, user));
    cleared.(timers := cleared.timers[TimerKey(room, user) := l.nextTimeout],
             timeouts := cleared.timeouts[l.nextTimeout := Timeout(room, user)], nextTimeout := l.nextTimeout + 1)
  }

  function ArmAll(l: Local, rooms: seq<Room>, user: User): Local {
    if rooms == [] then l
    else
      var before, last := ArmAll(l, rooms[..|rooms| - 1], user), rooms[|rooms| - 1];
      if IsPersistedRoomId(last) then Arm(before, last, user) else before
  }

  function DisarmKeys(l: Local, keys: set<string>): Local
    requires keys <= l.timers.Keys
  {
    l.(timers := l.timers - keys, timeouts := l.timeouts - set key | key in keys :: l.timers[key])
  }

  /** Cancels every pending timer whose key ends with the user's suffix. */
  function DisarmUser(l: Local, user: User): Local {
    DisarmKeys(l, set key | key in l.timers && EndsWith(key, ":" + user))
  }

  lemma TrackMirrored(l: Local, user: User, socket: SocketId)
    requires Mirrored(l) && socket !in l.userBySocket
    ensures Mirrored(Track(l, user, socket))
  {
  }

  lemma UntrackMirrored(l: Local, user: User, socket: SocketId)
    requires Mirrored(l) && socket in l.userBySocket && l.userBySocket[socket] == user
    ensures Mirrored(Untrack(l, user, socket))
  {
  }

  lemma DisarmTimers(l: Local, room: Room, user: User)
    requires TimersOk(l) && ColonFree(user)
    ensures TimersOk(Disarm(l, TimerKey(room, user)))
    ensures forall id :: id in Disarm(l, TimerKey(room, user)).timeouts <==>
      id in l.timeouts && l.timeouts[id] != Timeout(room, user)
  {
    var key := TimerKey(room, user);
    forall id | id in l.timeouts
      ensures l.timeouts[id] == Timeout(room, user) <==>
        TimerKey(l.timeouts[id].room, l.timeouts[id].user) == key
    {
      if TimerKey(l.timeouts[id].room, l.timeouts[id].user) == key {
        TimerKeyInjective(room, user, l.timeouts[id].room, l.timeouts[id].user);
      }
    }
  }

  lemma ArmTimers(l: Local, room: Room, user: User)
    requires TimersOk(l) && ColonFree(user) && IsPersistedRoomId(room)
    ensures TimersOk(Arm(l, room, user))
    ensures Timeout(room, user) in Arm(l, room, user).timeouts.Values
  {
    DisarmTimers(l, room, user);
    var armed := Arm(l, room, user);
    assert armed.timeouts[l.nextTimeout] == Timeout(room, user);
    forall id | id in armed.timeouts && id != l.nextTimeout
      ensures TimerKey(armed.timeouts[id].room, armed.timeouts[id].user) != TimerKey(room, user)
    {
      var t := l.timeouts[id];
      if TimerKey(t.room, t.user) == TimerKey(room, user) {
        TimerKeyInjective(room, user, t.room, t.user);
      }
    }
  }

  /** A dropped socket leaves a grace timer for each of its database rooms, and no others. */
  lemma {:induction false} ArmAllTimers(l: Local, rooms: seq<Room>, user: User)
    requires TimersOk(l) && ColonFree(user)
    ensures TimersOk(ArmAll(l, rooms, user))
    ensures forall t :: t in ArmAll(l, rooms, user).timeouts.Values <==>
      t in l.timeouts.Values || (t.user == user && t.room in rooms && IsPersistedRoomId(t.room))
    decreases |rooms|
  {
    if rooms == [] {
    } else {
      var rest, last := rooms[..|rooms| - 1], rooms[|rooms| - 1];
      assert rooms == rest + [last];
      ArmAllTimers(l, rest, user);
      if IsPersistedRoomId(last) {
        ArmTimers(ArmAll(l, rest, user), last, user);
        ArmValues(ArmAll(l, rest, user), last, user);
      }
    }
  }

  lemma ArmValues(l: Local, room: Room, user: User)
    requires TimersOk(l) && ColonFree(user) && IsPersistedRoomId(room)
    ensures Arm(l, room, user).timeouts.Values == l.timeouts.Values + {Timeout(room, user)}
  {
    DisarmTimers(l, room, user);
    var armed := Arm(l, room, user);
    forall t | t in l.timeouts.Values && t != Timeout(room, user) ensures t in armed.timeouts.Values {
      var id :| id in l.timeouts && l.timeouts[id] == t;
      assert armed.timeouts[id] == t;
    }
    assert armed.timeouts[l.nextTimeout] == Timeout(room, user);
  }

  /** An immediate ejection cancels exactly the user's timers. */
  lemma DisarmUserTimers(l: Local, user: User)
    requires TimersOk(l) && ColonFree(user)
    ensures TimersOk(DisarmUser(l, user))
    ensures forall id :: id in DisarmUser(l, user).timeouts <==> id in l.timeouts && l.timeouts[id].user != user
  {
    forall id | id in l.timeouts
      ensures EndsWith(TimerKey(l.timeouts[id].room, l.timeouts[id].user), ":" + user) <==> l.timeouts[id].user == user
    {
      SuffixPicksUser(l.timeouts[id].room, l.timeouts[id].user, user);
    }
  }

  // ---------- Operations on presence and one instance ----------

  /** `user` leaves all of `rooms`, whether listed as member or as moderator. */
  function ExitedAll(p: Presence, rooms: set<Room>, user: User): Presence {
    p.(members := (set pair | pair in p.members && !(pair.1 == user && pair.0 in rooms)),
       moderators := (set pair | pair in p.moderators && !(pair.1 == user && pair.0 in rooms)),
       rooms := (set pair | pair in p.rooms && !(pair.0 == user && pair.1 in rooms)))
  }

  datatype View = View(presence: Presence, local: Local)

  function RegisterStep(v: View, user: User, socket: SocketId): (View, bool) {
    var (p, first) := Connected(v.presence, user, socket);
    (View(p, Track(v.local, user, socket)), first)
  }

  function UnregisterStep(v: View, user: User, socket: SocketId): (View, bool) {
    var (p, last) := Disconnected(v.presence, user, socket);
    (View(if last then ExitedAll(p, RoomsOf(p, user), user) else p,
          ArmAll(Untrack(v.local, user, socket), JoinedRooms(v.local, socket), user)), last)
  }

  function JoinStep(v: View, user: User, socket: SocketId, room: Room, isModerator: bool): View {
    var joined := JoinedRooms(v.local, socket);
    var l := v.local.(activeRooms := v.local.activeRooms[socket := if room in joined then joined else joined + [room]]);
    View(Entered(v.presence, room, user, isModerator), Disarm(l, TimerKey(room, user)))
  }

  function Removed(rooms: seq<Room>, room: Room): (rest: seq<Room>)
    ensures room !in rest && forall r :: r != room ==> (r in rest <==> r in rooms)
  {
    if rooms == [] then []
    else
      var last := rooms[|rooms| - 1];
      Removed(rooms[..|rooms| - 1], room) + if last == room then [] else [last]
  }

  function LeaveStep(v: View, user: User, socket: SocketId, room: Room, isModerator: bool): View {
    var l := if socket in v.local.activeRooms
      then v.local.(activeRooms := v.local.activeRooms[socket := Removed(v.local.activeRooms[socket], room)])
      else v.local;
    View(Exited(v.presence, room, user, isModerator), Disarm(l, TimerKey(room, user)))
  }

  function EjectStep(v: View, user: User): View {
    View(ExitedAll(v.presence, RoomsOf(v.presence, user), user), DisarmUser(v.local, user))
  }

  predicate StillThere(v: View, room: Room, user: User) {
    InRoom(v.presence, room, user) && user in v.local.socketsByUser && v.local.socketsByUser[user] != {}
  }

  function FireStep(v: View, id: nat): View
    requires id in v.local.timeouts
  {
    var t := v.local.timeouts[id];
    View(if StillThere(v, t.room, t.user) then v.presence else ExitedEverywhere(v.presence, t.room, t.user),
         v.local.(timers := v.local.timers - {TimerKey(t.room, t.user)}, timeouts := v.local.timeouts - {id}))
  }

  /** A disconnect forgets the user's room index before the rooms are read from it, so dropping
      the last socket ends no room membership. */
  lemma UnregisterEndsNoMembership(v: View, user: User, socket: SocketId)
    ensures var p := UnregisterStep(v, user, socket).0.presence;
      p.members == v.presence.members && p.moderators == v.presence.moderators
  {
    var (p, last) := Disconnected(v.presence, user, socket);
    if last {
      assert RoomsOf(p, user) == {};
    }
  }

  /** Whether anything will end it later: a grace timer is left behind exactly for the rooms of
      that socket that have a database row. A lobby membership has none and stays. */
  lemma UnregisterTimers(v: View, user: User, socket: SocketId, room: Room)
    requires TimersOk(v.local) && ColonFree(user) && Timeout(room, user) !in v.local.timeouts.Values
    ensures var l := UnregisterStep(v, user, socket).0.local;
      TimersOk(l) && (Timeout(room, user) in l.timeouts.Values <==>
        room in JoinedRooms(v.local, socket) && IsPersistedRoomId(room))
  {
    ArmAllTimers(Untrack(v.local, user, socket), JoinedRooms(v.local, socket), user);
  }

  /** An allowed join, a leave and an immediate ejection disarm; nobody else's timer goes. */
  lemma OperationsDisarm(v: View, user: User, socket: SocketId, room: Room, isModerator: bool)
    requires TimersOk(v.local) && ColonFree(user)
    ensures var joined, left, ejected := JoinStep(v, user, socket, room, isModerator).local,
                                         LeaveStep(v, user, socket, room, isModerator).local, EjectStep(v, user).local;
      && TimersOk(joined) && TimersOk(left) && TimersOk(ejected)
      && forall id :: id in v.local.timeouts ==>
           var t := v.local.timeouts[id];
           (id in joined.timeouts <==> t != Timeout(room, user)) && (id in left.timeouts <==> t != Timeout(room, user))
           && (id in ejected.timeouts <==> t.user != user)
  {
    DisarmTimers(v.local, room, user);
    DisarmUserTimers(v.local, user);
  }

  /** A firing timer leaves presence alone exactly when the user is in the room with a live
      socket on this instance; otherwise it ends with the user in neither presence set. */
  lemma FireExact(v: View, id: nat)
    requires TimersOk(v.local) && id in v.local.timeouts
    ensures var t, next := v.local.timeouts[id], FireStep(v, id);
      && TimersOk(next.local) && id !in next.local.timeouts
      && (StillThere(v, t.room, t.user) ==> next.presence == v.presence && InRoom(next.presence, t.room, t.user))
      && (!StillThere(v, t.room, t.user) ==> !InRoom(next.presence, t.room, t.user))
      && forall r, u :: (r, u) != (t.room, t.user) ==> InRoom(next.presence, r, u) == InRoom(v.presence, r, u)
  {
    var t := v.local.timeouts[id];
    forall other | other in v.local.timeouts && other != id
      ensures TimerKey(v.local.timeouts[other].room, v.local.timeouts[other].user) != TimerKey(t.room, t.user)
    {
    }
  }

  // ---------- All instances ----------

  datatype PresenceChanged = PresenceChanged(user: User, online: bool)

  /** `seen` holds every socket ever registered. */
  datatype World = World(presence: Presence, locals: map<nat, Local>, events: seq<PresenceChanged>, seen: set<SocketId>)

  datatype Step =
    | Register(instance: nat, user: User, socket: SocketId)
    | Unregister(instance: nat, socket: SocketId)
    | Join(instance: nat, socket: SocketId, room: Room, allowed: bool, isModerator: bool)
    | Leave(instance: nat, socket: SocketId, room: Room, isModerator: bool)
    | Eject(instance: nat, user: User)
    | Fire(instance: nat, id: nat)

  /** The acting instance knows the socket or the timeout the step is about. */
  predicate Enabled(l: Local, a: Step) {
    match a
    case Register(_, user, _) => ColonFree(user)
    case Unregister(_, socket) => socket in l.userBySocket
    case Join(_, socket, _, _, _) => socket in l.userBySocket
    case Leave(_, socket, _, _) => socket in l.userBySocket
    case Eject(_, user) => ColonFree(user)
    case Fire(_, id) => id in l.timeouts
  }

  /** Each socket is registered once, and unregistered at most once, by its own instance. */
  predicate Possible(w: World, a: Step) {
    a.instance in w.locals && Enabled(w.locals[a.instance], a) && (a.Register? ==> a.socket !in w.seen)
  }

  /** The presence and the acting instance after a step, and the event it publishes. */
  function StepView(v: View, a: Step): (View, Option<PresenceChanged>)
    requires Enabled(v.local, a)
  {
    match a
    case Register(_, user, socket) =>
      var (next, first) := RegisterStep(v, user, socket);
      (next, if first then Some(PresenceChanged(user, true)) else None)
    case Unregister(_, socket) =>
      var user := v.local.userBySocket[socket];
      var (next, last) := UnregisterStep(v, user, socket);
      (next, if last then Some(PresenceChanged(user, false)) else None)
    case Join(_, socket, room, allowed, isModerator) =>
      (if allowed then JoinStep(v, v.local.userBySocket[socket], socket, room, isModerator) else v, None)
    case Leave(_, socket, room, isModerator) =>
      (LeaveStep(v, v.local.userBySocket[socket], socket, room, isModerator), None)
    case Eject(_, user) => (EjectStep(v, user), None)
    case Fire(_, id) => (FireStep(v, id), None)
  }

  function Apply(w: World, a: Step): World
    requires Possible(w, a)
  {
    var (v, event) := StepView(View(w.presence, w.locals[a.instance]), a);
    World(v.presence, w.locals[a.instance := v.local], if event.Some? then w.events + [event.value] else w.events,
          if a.Register? then w.seen + {a.socket} else w.seen)
  }

  function EventsOf(events: seq<PresenceChanged>, user: User): seq<bool> {
    if events == [] then []
    else
      var last := events[|events| - 1];
      EventsOf(events[..|events| - 1], user) + if last.user == user then [last.online] else []
  }

  lemma EventsAppend(events: seq<PresenceChanged>, event: PresenceChanged, user: User)
    ensures EventsOf(events + [event], user) ==
      EventsOf(events, user) + if event.user == user then [event.online] else []
  {
    assert (events + [event])[..|events|] == events;
  }

  /** Each user's events alternate, online first, and the last one tells whether they are online. */
  ghost predicate EventsOk(p: Presence, events: seq<PresenceChanged>) {
    forall user ::
      && (forall k :: 0 <= k < |EventsOf(events, user)| ==> EventsOf(events, user)[k] == (k % 2 == 0))
      && (user in p.online <==> |EventsOf(events, user)| % 2 == 1)
  }

  predicate Tracks(locals: map<nat, Local>, i: nat, socket: SocketId, user: User) {
    i in locals && socket in locals[i].userBySocket && locals[i].userBySocket[socket] == user
  }

  /** Presence lists exactly the sockets the instances track, each with its user, and no two
      instances track the same one. */
  ghost predicate SocketsAgree(p: Presence, locals: map<nat, Local>, seen: set<SocketId>) {
    && (forall i, s, u :: Tracks(locals, i, s, u) ==> (u, s) in p.sockets && s in seen && ColonFree(u))
    && (forall u, s :: (u, s) in p.sockets ==> exists i :: Tracks(locals, i, s, u))
    && (forall i, j, s, u, u' :: Tracks(locals, i, s, u) && Tracks(locals, j, s, u') ==> i == j)
  }

  ghost predicate LocalsOk(locals: map<nat, Local>) {
    forall i :: i in locals ==> Mirrored(locals[i]) && TimersOk(locals[i])
  }

  ghost predicate WorldOk(w: World) {
    && OnlineOk(w.presence) && EventsOk(w.presence, w.events)
    && SocketsAgree(w.presence, w.locals, w.seen) && LocalsOk(w.locals)
  }

  lemma {:induction false} ArmAllFrame(l: Local, rooms: seq<Room>, user: User)
    ensures ArmAll(l, rooms, user).socketsByUser == l.socketsByUser
      && ArmAll(l, rooms, user).userBySocket == l.userBySocket
    ensures ArmAll(l, rooms, user).activeRooms == l.activeRooms
    decreases |rooms|
  {
    if rooms == [] {
    } else {
      ArmAllFrame(l, rooms[..|rooms| - 1], user);
    }
  }

  /** The user behind each tracked socket after a step. */
  function UsersAfter(l: Local, a: Step): map<SocketId, User> {
    match a
    case Register(_, user, socket) => l.userBySocket[socket := user]
    case Unregister(_, socket) => l.userBySocket - {socket}
    case _ => l.userBySocket
  }

  lemma MirroredFrame(l: Local, l': Local)
    requires Mirrored(l) && l'.socketsByUser == l.socketsByUser && l'.userBySocket == l.userBySocket
    ensures Mirrored(l')
  {
  }

  lemma TimersFrame(l: Local, l': Local)
    requires TimersOk(l) && l'.timers == l.timers && l'.timeouts == l.timeouts && l'.nextTimeout == l.nextTimeout
    ensures TimersOk(l')
  {
  }

  lemma StepLocal(v: View, a: Step)
    requires Mirrored(v.local) && TimersOk(v.local) && Enabled(v.local, a)
    requires forall s :: s in v.local.userBySocket ==> ColonFree(v.local.userBySocket[s])
    requires a.Register? ==> a.socket !in v.local.userBySocket
    ensures var l := StepView(v, a).0.local; Mirrored(l) && TimersOk(l) && l.userBySocket == UsersAfter(v.local, a)
  {
    hide Mirrored, TimersOk, ColonFree, Connected, Disconnected, ExitedAll, Entered, Exited;
    var l, next := v.local, StepView(v, a).0.local;
    match a
    case Register(_, user, socket) =>
      TrackMirrored(l, user, socket);
      TimersFrame(l, next);
    case Unregister(_, socket) =>
      var user, rest := l.userBySocket[socket], Untrack(l, l.userBySocket[socket], socket);
      UntrackMirrored(l, user, socket);
      TimersFrame(l, rest);
      ArmAllTimers(rest, JoinedRooms(l, socket), user);
      ArmAllFrame(rest, JoinedRooms(l, socket), user);
      MirroredFrame(rest, next);
    case Join(_, socket, room, allowed, m) =>
      OperationsDisarm(v, l.userBySocket[socket], socket, room, m);
      MirroredFrame(l, next);
    case Leave(_, socket, room, m) =>
      OperationsDisarm(v, l.userBySocket[socket], socket, room, m);
      MirroredFrame(l, next);
    case Eject(_, user) =>
      OperationsDisarm(v, user, "", "", false);
      MirroredFrame(l, next);
    case Fire(_, id) =>
      FireExact(v, id);
      MirroredFrame(l, next);
  }

  /** An event says exactly how the online set changed, and no event that it did not. */
  predicate EventExplains(online: set<User>, event: Option<PresenceChanged>, online': set<User>) {
    if event.None? then online' == online
    else if event.value.online then event.value.user !in online && online' == online + {event.value.user}
    else event.value.user in online && online' == online - {event.value.user}
  }

  function SocketsAfter(l: Local, sockets: set<(User, SocketId)>, a: Step): set<(User, SocketId)>
    requires Enabled(l, a)
  {
    match a
    case Register(_, user, socket) => sockets + {(user, socket)}
    case Unregister(_, socket) => sockets - {(l.userBySocket[socket], socket)}
    case _ => sockets
  }

  lemma StepPresence(v: View, a: Step)
    requires OnlineOk(v.presence) && Enabled(v.local, a)
    requires a.Register? ==> (a.user, a.socket) !in v.presence.sockets
    requires a.Unregister? ==> (v.local.userBySocket[a.socket], a.socket) in v.presence.sockets
    ensures var (next, event) := StepView(v, a);
      && OnlineOk(next.presence) && EventExplains(v.presence.online, event, next.presence.online)
      && next.presence.sockets == SocketsAfter(v.local, v.presence.sockets, a)
  {
    match a
    case Register(_, user, socket) => ConnectOnline(v.presence, user, socket);
    case Unregister(_, socket) => DisconnectOnline(v.presence, v.local.userBySocket[socket], socket);
    case _ =>
  }

  lemma EventsStep(p: Presence, events: seq<PresenceChanged>, event: Option<PresenceChanged>, p': Presence)
    requires EventsOk(p, events) && EventExplains(p.online, event, p'.online)
    ensures EventsOk(p', if event.Some? then events + [event.value] else events)
  {
    if event.Some? {
      forall user
        ensures var e := EventsOf(events + [event.value], user);
          (forall k :: 0 <= k < |e| ==> e[k] == (k % 2 == 0)) && (user in p'.online <==> |e| % 2 == 1)
      {
        EventsAppend(events, event.value, user);
      }
    }
  }

  lemma SocketsStep(w: World, a: Step, l: Local, p: Presence)
    requires SocketsAgree(w.presence, w.locals, w.seen) && Possible(w, a)
    requires l.userBySocket == UsersAfter(w.locals[a.instance], a)
    requires p.sockets == SocketsAfter(w.locals[a.instance], w.presence.sockets, a)
    ensures SocketsAgree(p, w.locals[a.instance := l], if a.Register? then w.seen + {a.socket} else w.seen)
  {
    var locals, seen := w.locals[a.instance := l], if a.Register? then w.seen + {a.socket} else w.seen;
    forall i, s, u | Tracks(locals, i, s, u)
      ensures Tracks(w.locals, i, s, u) || (a.Register? && i == a.instance && s == a.socket && u == a.user)
      ensures !(a.Unregister? && s == a.socket)
    {
      if a.Unregister? && s == a.socket {
        assert Tracks(w.locals, i, s, u) && Tracks(w.locals, a.instance, s, w.locals[a.instance].userBySocket[s]);
        assert false;
      }
    }
    forall u, s | (u, s) in p.sockets ensures exists i :: Tracks(locals, i, s, u) {
      if a.Register? && s == a.socket && u == a.user {
        assert Tracks(locals, a.instance, s, u);
      } else {
        var i :| Tracks(w.locals, i, s, u);
        assert Tracks(locals, i, s, u);
      }
    }
  }

  /** Everything holds after every possible step. */
  lemma StepWorldOk(w: World, a: Step)
    requires WorldOk(w) && Possible(w, a)
    ensures WorldOk(Apply(w, a))
  {
    var v := View(w.presence, w.locals[a.instance]);
    StepBackground(w, a);
    var (next, event) := StepView(v, a);
    LocalsStep(w.locals, a.instance);
    hide OnlineOk, EventsOk, SocketsAgree, LocalsOk, StepView, Mirrored, TimersOk, ColonFree, UsersAfter,
      SocketsAfter, EventExplains;
    StepLocal(v, a);
    StepPresence(v, a);
    EventsStep(w.presence, w.events, event, next.presence);
    SocketsStep(w, a, next.local, next.presence);
  }

  lemma LocalsStep(locals: map<nat, Local>, i: nat)
    requires LocalsOk(locals) && i in locals
    ensures Mirrored(locals[i]) && TimersOk(locals[i])
    ensures forall l :: Mirrored(l) && TimersOk(l) ==> LocalsOk(locals[i := l])
  {
    hide Mirrored, TimersOk;
  }

  lemma StepBackground(w: World, a: Step)
    requires SocketsAgree(w.presence, w.locals, w.seen) && Possible(w, a)
    ensures var l := w.locals[a.instance];
      && (forall s :: s in l.userBySocket ==> ColonFree(l.userBySocket[s]))
      && (a.Register? ==> a.socket !in l.userBySocket && (a.user, a.socket) !in w.presence.sockets)
      && (a.Unregister? ==> (l.userBySocket[a.socket], a.socket) in w.presence.sockets)
  {
    var l := w.locals[a.instance];
    forall s | s in l.userBySocket
      ensures (l.userBySocket[s], s) in w.presence.sockets && s in w.seen && ColonFree(l.userBySocket[s])
    {
      assert Tracks(w.locals, a.instance, s, l.userBySocket[s]);
    }
  }

  function Start(instances: set<nat>): World {
    World(NOBODY, map i | i in instances :: IDLE, [], {})
  }

  ghost predicate Reaches(instances: set<nat>, steps: seq<Step>, end: World)
    decreases |steps|
  {
    if steps == [] then end == Start(instances)
    else
      var last := steps[|steps| - 1];
      exists w :: Reaches(instances, steps[..|steps| - 1], w) && Possible(w, last) && end == Apply(w, last)
  }

  /** In every serialized run over any number of instances: both indexes of every instance are
      inverse without empty sets, presence lists exactly their sockets, exactly the users with a
      socket are online, each user's events alternate starting with online, and the uncancelled
      grace timeouts are exactly the timer entries. */
  lemma {:induction false} RunWorldOk(instances: set<nat>, steps: seq<Step>, end: World)
    requires Reaches(instances, steps, end)
    ensures WorldOk(end)
    decreases |steps|
  {
    if steps == [] {
    } else {
      var last := steps[|steps| - 1];
      var w :| Reaches(instances, steps[..|steps| - 1], w) && Possible(w, last) && end == Apply(w, last);
      RunWorldOk(instances, steps[..|steps| - 1], w);
      StepWorldOk(w, last);
    }
  }

  /** A timer only knows its own instance: when the user has come back on another one, the
      firing timer still ejects them from the room, although they are online. */
  lemma TimerIgnoresOtherInstances(w: World, i: nat, j: nat, id: nat, socket: SocketId)
    requires WorldOk(w) && i in w.locals && j in w.locals && i != j && id in w.locals[i].timeouts
    requires Tracks(w.locals, j, socket, w.locals[i].timeouts[id].user)
    requires w.locals[i].timeouts[id].user !in w.locals[i].socketsByUser
    ensures var t, next := w.locals[i].timeouts[id], Apply(w, Fire(i, id));
      t.user in next.presence.online && !InRoom(next.presence, t.room, t.user)
  {
    FireExact(View(w.presence, w.locals[i]), id);
    hide SocketsAgree, EventsOk, LocalsOk;
    UserOnline(w, j, socket, w.locals[i].timeouts[id].user);
  }

  lemma UserOnline(w: World, j: nat, socket: SocketId, user: User)
    requires WorldOk(w) && Tracks(w.locals, j, socket, user)
    ensures user in w.presence.online
  {
    assert (user, socket) in w.presence.sockets;
  }

  lemma ReachesNext(instances: set<nat>, steps: seq<Step>, w: World, a: Step)
    requires Reaches(instances, steps, w) && Possible(w, a)
    ensures Reaches(instances, steps + [a], Apply(w, a)) && WorldOk(w) && WorldOk(Apply(w, a))
  {
    hide WorldOk, Apply, Possible;
    var longer := steps + [a];
    assert longer[..|longer| - 1] == steps && longer[|longer| - 1] == a;
    RunWorldOk(instances, steps, w);
    RunWorldOk(instances, steps + [a], Apply(w, a));
  }

  // ---------- Who is listed where ----------

  lemma LastStep(instances: set<nat>, steps: seq<Step>, end: World) returns (w: World)
    requires Reaches(instances, steps, end) && steps != []
    ensures Reaches(instances, steps[..|steps| - 1], w) && WorldOk(w)
    ensures Possible(w, steps[|steps| - 1]) && end == Apply(w, steps[|steps| - 1])
  {
    var rest, last := steps[..|steps| - 1], steps[|steps| - 1];
    w :| Reaches(instances, rest, w) && Possible(w, last) && end == Apply(w, last);
    hide WorldOk;
    RunWorldOk(instances, rest, w);
  }

  /** A firing timer finds its user in the room with a live socket on its instance. */
  predicate Spared(w: World, i: nat, room: Room, user: User) {
    && i in w.locals && user in w.locals[i].socketsByUser && w.locals[i].socketsByUser[user] != {}
    && ((room, user) in w.presence.members || (room, user) in w.presence.moderators)
  }

  /** The public members of a room change only by public joins and leaves, by an ejection that
      finds the room in the index, and by a timer that spares nobody. */
  lemma MembersStep(w: World, a: Step, room: Room, user: User)
    requires Possible(w, a)
    ensures var l, was := w.locals[a.instance], (room, user) in w.presence.members;
      (room, user) in Apply(w, a).presence.members <==>
      match a
      case Register(_, _, _) => was
      case Unregister(_, _) => was
      case Join(_, s, r, allowed, m) => was || (allowed && !m && r == room && l.userBySocket[s] == user)
      case Leave(_, s, r, m) => was && !(!m && r == room && l.userBySocket[s] == user)
      case Eject(_, u) => was && !(u == user && (user, room) in w.presence.rooms)
      case Fire(i, id) => was && !(l.timeouts[id] == Timeout(room, user) && !Spared(w, i, room, user))
  {
    hide IsPersistedRoomId, ColonFree, EndsWith;
    if a.Unregister? {
      var l := w.locals[a.instance];
      UnregisterEndsNoMembership(View(w.presence, l), l.userBySocket[a.socket], a.socket);
    }
  }

  /** And the incognito moderators likewise by joins and leaves as moderator. */
  lemma ModeratorsStep(w: World, a: Step, room: Room, user: User)
    requires Possible(w, a)
    ensures var l, was := w.locals[a.instance], (room, user) in w.presence.moderators;
      (room, user) in Apply(w, a).presence.moderators <==>
      match a
      case Register(_, _, _) => was
      case Unregister(_, _) => was
      case Join(_, s, r, allowed, m) => was || (allowed && m && r == room && l.userBySocket[s] == user)
      case Leave(_, s, r, m) => was && !(m && r == room && l.userBySocket[s] == user)
      case Eject(_, u) => was && !(u == user && (user, room) in w.presence.rooms)
      case Fire(i, id) => was && !(l.timeouts[id] == Timeout(room, user) && !Spared(w, i, room, user))
  {
    hide IsPersistedRoomId, ColonFree, EndsWith;
    if a.Unregister? {
      var l := w.locals[a.instance];
      UnregisterEndsNoMembership(View(w.presence, l), l.userBySocket[a.socket], a.socket);
    }
  }

  /** The index of a user's rooms: joins add, leaves remove, an ejection and a last disconnect empty
      it, and a timer that spares nobody removes its room. */
  lemma IndexStep(w: World, a: Step, room: Room, user: User)
    requires Possible(w, a)
    ensures var l, was := w.locals[a.instance], (user, room) in w.presence.rooms;
      (user, room) in Apply(w, a).presence.rooms <==>
      match a
      case Register(_, _, _) => was
      case Unregister(_, s) =>
        was && !(l.userBySocket[s] == user && forall other :: (user, other) in w.presence.sockets ==> other == s)
      case Join(_, s, r, allowed, _) => was || (allowed && r == room && l.userBySocket[s] == user)
      case Leave(_, s, r, _) => was && !(r == room && l.userBySocket[s] == user)
      case Eject(_, u) => was && u != user
      case Fire(i, id) => was && !(l.timeouts[id] == Timeout(room, user) && !Spared(w, i, room, user))
  {
    hide IsPersistedRoomId, ColonFree, EndsWith;
    if a.Unregister? {
      DropIndex(w.presence, w.locals[a.instance].userBySocket[a.socket], a.socket);
    }
  }

  lemma DropIndex(p: Presence, user: User, socket: SocketId)
    ensures var (q, last) := Disconnected(p, user, socket);
      && (last <==> forall other :: (user, other) in p.sockets ==> other == socket)
      && q.rooms == (if last then Without(p.rooms, user) else p.rooms)
      && (last ==> RoomsOf(q, user) == {})
  {
    var left := SocketsOf(p.(sockets := p.sockets - {(user, socket)}), user);
    if |left| == 0 {
      assert left == {};
      forall other | (user, other) in p.sockets ensures other == socket {
        assert other == socket || other in left;
      }
    } else {
      var other :| other in left;
    }
  }

  predicate Listed(p: Presence, room: Room, user: User, asModerator: bool) {
    (room, user) in (if asModerator then p.moderators else p.members)
  }

  lemma ListedStep(w: World, a: Step, room: Room, user: User, asModerator: bool)
    requires Possible(w, a)
    requires Listed(Apply(w, a).presence, room, user, asModerator) && !Listed(w.presence, room, user, asModerator)
    ensures a.Join? && a.allowed && a.room == room && a.isModerator == asModerator
    ensures w.locals[a.instance].userBySocket[a.socket] == user
  {
    MembersStep(w, a, room, user);
    ModeratorsStep(w, a, room, user);
    hide Apply;
  }

  lemma NobodyListed(instances: set<nat>, w: World, room: Room, user: User, asModerator: bool)
    requires Reaches(instances, [], w)
    ensures !Listed(w.presence, room, user, asModerator)
  {
  }

  /** In every run, whoever is listed in a room got there by a join in that role: an incognito
      moderator never shows up among the public members. */
  lemma {:induction false} ListedByJoin(instances: set<nat>, steps: seq<Step>, end: World, room: Room, user: User,
                                        asModerator: bool)
    returns (k: nat, w: World)
    requires Reaches(instances, steps, end) && Listed(end.presence, room, user, asModerator)
    ensures k < |steps| && Reaches(instances, steps[..k], w) && Possible(w, steps[k])
    ensures var a := steps[k];
      a.Join? && a.allowed && a.room == room && a.isModerator == asModerator
      && w.locals[a.instance].userBySocket[a.socket] == user
    decreases |steps|
  {
    hide *;
    if steps == [] {
      NobodyListed(instances, end, room, user, asModerator);
      assert false;
    } else {
      var rest, last := steps[..|steps| - 1], steps[|steps| - 1];
      w := LastStep(instances, steps, end);
      if Listed(w.presence, room, user, asModerator) {
        k, w := ListedByJoin(instances, rest, w, room, user, asModerator);
        assert rest[..k] == steps[..k];
      } else {
        k := |rest|;
        ListedStep(w, last, room, user, asModerator);
      }
    }
  }

  // ---------- Memberships nobody will end ----------

  predicate SitsHere(l: Local, socket: SocketId, room: Room, user: User) {
    socket in l.userBySocket && l.userBySocket[socket] == user && room in JoinedRooms(l, socket)
  }

  /** A tracked socket of the user is in the room. */
  predicate Sits(locals: map<nat, Local>, i: nat, socket: SocketId, room: Room, user: User) {
    i in locals && SitsHere(locals[i], socket, room, user)
  }

  predicate Pends(locals: map<nat, Local>, i: nat, room: Room, user: User) {
    i in locals && Timeout(room, user) in locals[i].timeouts.Values
  }

  ghost predicate SeatedBut(locals: map<nat, Local>, room: Room, user: User, but: Option<SocketId>) {
    exists i, s :: Sits(locals, i, s, room, user) && but != Some(s)
  }

  ghost predicate PendingBut(locals: map<nat, Local>, room: Room, user: User, but: Option<nat>) {
    exists i: nat :: Pends(locals, i, room, user) && but != Some(i)
  }

  /** A socket in the room or a pending timer stands behind the membership. */
  ghost predicate Backed(w: World, room: Room, user: User) {
    SeatedBut(w.locals, room, user, None) || PendingBut(w.locals, room, user, None)
  }

  ghost predicate Orphan(w: World, room: Room, user: User) {
    InRoom(w.presence, room, user) && !Backed(w, room, user)
  }

  /** The steps that take away the last backing of a membership without ending it: a timer that
      fires while the user has some other socket on its instance, a leave in the other role, and
      an ejection after the room index is gone. */
  ghost predicate Orphans(w: World, a: Step, room: Room, user: User)
    requires Possible(w, a)
  {
    InRoom(w.presence, room, user) && Backed(w, room, user) && !PendingBut(w.locals, room, user, Some(a.instance)) &&
    match a
    case Fire(i, id) =>
      && w.locals[i].timeouts[id] == Timeout(room, user) && user in w.locals[i].socketsByUser
      && !SeatedBut(w.locals, room, user, None)
    case Leave(i, socket, r, isModerator) =>
      && r == room && w.locals[i].userBySocket[socket] == user && !SeatedBut(w.locals, room, user, Some(socket))
      && (room, user) in (if isModerator then w.presence.members else w.presence.moderators)
    case Eject(_, u) =>
      u == user && (user, room) !in w.presence.rooms && !SeatedBut(w.locals, room, user, None)
    case _ => false
  }

  /** Whether a timeout is pending on the acting instance after a step. */
  predicate PendsAfter(l: Local, a: Step, t: Timeout)
    requires Enabled(l, a)
  {
    match a
    case Register(_, _, _) => t in l.timeouts.Values
    case Unregister(_, s) =>
      || t in l.timeouts.Values
      || (t.user == l.userBySocket[s] && t.room in JoinedRooms(l, s) && IsPersistedRoomId(t.room))
    case Join(_, s, r, allowed, _) => t in l.timeouts.Values && !(allowed && t == Timeout(r, l.userBySocket[s]))
    case Leave(_, s, r, _) => t in l.timeouts.Values && t != Timeout(r, l.userBySocket[s])
    case Eject(_, u) => t in l.timeouts.Values && t.user != u
    case Fire(_, id) => t in l.timeouts.Values && t != l.timeouts[id]
  }

  lemma PendsStep(v: View, a: Step, t: Timeout)
    requires TimersOk(v.local) && Enabled(v.local, a)
    requires forall s :: s in v.local.userBySocket ==> ColonFree(v.local.userBySocket[s])
    ensures t in StepView(v, a).0.local.timeouts.Values <==> PendsAfter(v.local, a, t)
  {
    hide Connected, Disconnected, ExitedAll, Entered, Exited, ColonFree, IsPersistedRoomId, EndsWith, TimersOk;
    var l, next := v.local, StepView(v, a).0.local;
    match a
    case Register(_, _, _) =>
    case Unregister(_, s) => ArmAllTimers(Untrack(l, l.userBySocket[s], s), JoinedRooms(l, s), l.userBySocket[s]) by {
      TimersFrame(l, Untrack(l, l.userBySocket[s], s));
    }
    case Join(_, s, r, allowed, m) =>
      OperationsDisarm(v, l.userBySocket[s], s, r, m);
      SubmapValues(l.timeouts, next.timeouts, t);
    case Leave(_, s, r, m) =>
      OperationsDisarm(v, l.userBySocket[s], s, r, m);
      SubmapValues(l.timeouts, next.timeouts, t);
    case Eject(_, u) =>
      OperationsDisarm(v, u, "", "", false);
      SubmapValues(l.timeouts, next.timeouts, t);
    case Fire(_, id) =>
      OneTimeoutEach(l);
      SubmapValues(l.timeouts, next.timeouts, t);
  }

  lemma OneTimeoutEach(l: Local)
    requires TimersOk(l)
    ensures forall id, id' :: id in l.timeouts && id' in l.timeouts && l.timeouts[id] == l.timeouts[id'] ==> id == id'
  {
  }

  lemma SubmapValues(m: map<nat, Timeout>, sub: map<nat, Timeout>, t: Timeout)
    requires forall id :: id in sub ==> id in m && sub[id] == m[id]
    ensures t in sub.Values <==> exists id :: id in m && m[id] == t && id in sub
  {
  }

  /** Whether a socket of the acting instance is in a room after a step. */
  predicate SeatAfter(l: Local, a: Step, s: SocketId, room: Room, user: User)
    requires Enabled(l, a)
  {
    match a
    case Register(_, u, x) => if s == x then u == user && room in JoinedRooms(l, s) else SitsHere(l, s, room, user)
    case Unregister(_, x) => SitsHere(l, s, room, user) && s != x
    case Join(_, x, r, allowed, _) =>
      SitsHere(l, s, room, user) || (allowed && s == x && r == room && l.userBySocket[x] == user)
    case Leave(_, x, r, _) => SitsHere(l, s, room, user) && !(s == x && r == room)
    case _ => SitsHere(l, s, room, user)
  }

  lemma RoomsStep(v: View, a: Step, s: SocketId, room: Room)
    requires Enabled(v.local, a)
    ensures var l := StepView(v, a).0.local;
      && l.userBySocket == UsersAfter(v.local, a)
      && (room in JoinedRooms(l, s) <==>
            (room in JoinedRooms(v.local, s) && !(a.Leave? && a.socket == s && a.room == room))
            || (a.Join? && a.allowed && a.socket == s && a.room == room))
  {
    hide Connected, Disconnected, ExitedAll, Entered, Exited, IsPersistedRoomId, ColonFree, EndsWith;
    var l := v.local;
    match a
    case Register(_, _, _) =>
    case Unregister(_, x) => ArmAllFrame(Untrack(l, l.userBySocket[x], x), JoinedRooms(l, x), l.userBySocket[x]);
    case Join(_, _, _, _, _) =>
    case Leave(_, _, _, _) =>
    case Eject(_, _) =>
    case Fire(_, _) =>
  }

  /** The same for all instances, for steps other than a registration. */
  predicate SitsAfter(w: World, a: Step, i: nat, s: SocketId, room: Room, user: User)
    requires Possible(w, a)
  {
    var sat := Sits(w.locals, i, s, room, user);
    match a
    case Unregister(j, x) => sat && !(i == j && s == x)
    case Join(j, x, r, allowed, _) =>
      sat || (allowed && i == j && s == x && r == room && w.locals[j].userBySocket[x] == user)
    case Leave(j, x, r, _) => sat && !(i == j && s == x && r == room)
    case _ => sat
  }

  lemma SeatStep(v: View, a: Step, s: SocketId, room: Room, user: User)
    requires Enabled(v.local, a)
    ensures SitsHere(StepView(v, a).0.local, s, room, user) <==> SeatAfter(v.local, a, s, room, user)
  {
    RoomsStep(v, a, s, room);
    hide StepView, JoinedRooms;
  }

  lemma SitsStep(w: World, a: Step, i: nat, s: SocketId, room: Room, user: User)
    requires Possible(w, a)
    ensures Sits(Apply(w, a).locals, i, s, room, user) <==>
      if i == a.instance then SeatAfter(w.locals[i], a, s, room, user) else Sits(w.locals, i, s, room, user)
  {
    LocalsAfter(w, a);
    hide StepView, JoinedRooms, Apply, SitsHere, SeatAfter;
    SeatStep(View(w.presence, w.locals[a.instance]), a, s, room, user);
  }

  lemma LocalsAfter(w: World, a: Step)
    requires Possible(w, a)
    ensures Apply(w, a).locals == w.locals[a.instance := StepView(View(w.presence, w.locals[a.instance]), a).0.local]
  {
    hide StepView;
  }

  lemma NewSocket(w: World, a: Step)
    requires WorldOk(w) && Possible(w, a)
    ensures a.Register? ==> a.socket !in w.locals[a.instance].userBySocket
  {
    StepBackground(w, a);
  }

  /** Who is in a room after a step. */
  predicate InRoomAfter(w: World, a: Step, room: Room, user: User)
    requires Possible(w, a)
  {
    var p, l := w.presence, w.locals[a.instance];
    match a
    case Register(_, _, _) => InRoom(p, room, user)
    case Unregister(_, _) => InRoom(p, room, user)
    case Join(_, s, r, allowed, _) => InRoom(p, room, user) || (allowed && r == room && l.userBySocket[s] == user)
    case Leave(_, s, r, isModerator) =>
      if r == room && l.userBySocket[s] == user then (room, user) in (if isModerator then p.members else p.moderators)
      else InRoom(p, room, user)
    case Eject(_, u) => InRoom(p, room, user) && !(u == user && (user, room) in p.rooms)
    case Fire(_, id) =>
      && InRoom(p, room, user)
      && (l.timeouts[id] == Timeout(room, user) ==>
            user in l.socketsByUser && l.socketsByUser[user] != {})
  }

  lemma InRoomStep(w: World, a: Step, room: Room, user: User)
    requires Possible(w, a)
    ensures InRoom(Apply(w, a).presence, room, user) <==> InRoomAfter(w, a, room, user)
  {
    hide IsPersistedRoomId, ColonFree, EndsWith;
    if a.Unregister? {
      var l := w.locals[a.instance];
      UnregisterEndsNoMembership(View(w.presence, l), l.userBySocket[a.socket], a.socket);
    }
  }

  /** What a step does to the pending timers of all instances. */
  lemma PendsEverywhere(w: World, a: Step, i: nat, room: Room, user: User)
    requires WorldOk(w) && Possible(w, a)
    ensures Pends(Apply(w, a).locals, i, room, user) <==>
      if i == a.instance then PendsAfter(w.locals[i], a, Timeout(room, user)) else Pends(w.locals, i, room, user)
  {
    StepBackground(w, a);
    LocalsStep(w.locals, a.instance);
    hide WorldOk, StepView, TimersOk, Mirrored, ColonFree, PendsAfter;
    PendsStep(View(w.presence, w.locals[a.instance]), a, Timeout(room, user));
  }

  lemma PendingNext(w: World, a: Step, room: Room, user: User)
    requires WorldOk(w) && Possible(w, a)
    ensures PendingBut(w.locals, room, user, None) <==>
      PendingBut(w.locals, room, user, Some(a.instance)) || Pends(w.locals, a.instance, room, user)
    ensures PendingBut(Apply(w, a).locals, room, user, None) <==>
      PendingBut(w.locals, room, user, Some(a.instance)) || PendsAfter(w.locals[a.instance], a, Timeout(room, user))
  {
    hide WorldOk, Apply, PendsAfter, Pends;
    PendsEverywhere(w, a, a.instance, room, user);
    forall i: nat | i != a.instance
      ensures Pends(Apply(w, a).locals, i, room, user) <==> Pends(w.locals, i, room, user)
    {
      PendsEverywhere(w, a, i, room, user);
    }
  }

  lemma TracksIfSits(locals: map<nat, Local>, room: Room, user: User)
    ensures forall i, s :: Sits(locals, i, s, room, user) ==> Tracks(locals, i, s, user)
  {
  }

  lemma SeatedNext(w: World, a: Step, room: Room, user: User)
    requires WorldOk(w) && Possible(w, a)
    ensures var next := Apply(w, a).locals;
      && (a.Register? || a.Join? ==> (SeatedBut(w.locals, room, user, None) ==> SeatedBut(next, room, user, None)))
      && (a.Join? && a.allowed && a.room == room && w.locals[a.instance].userBySocket[a.socket] == user ==>
            SeatedBut(next, room, user, None))
      && (a.Unregister? || (a.Leave? && a.room == room) ==>
            (SeatedBut(next, room, user, None) <==> SeatedBut(w.locals, room, user, Some(a.socket))))
      && (a.Eject? || a.Fire? || (a.Leave? && a.room != room) ==>
            (SeatedBut(next, room, user, None) <==> SeatedBut(w.locals, room, user, None)))
  {
    var next := Apply(w, a).locals;
    SocketOnOneInstance(w);
    if a.Unregister? || a.Leave? {
      assert Tracks(w.locals, a.instance, a.socket, w.locals[a.instance].userBySocket[a.socket]);
    }
    NewSocket(w, a);
    hide WorldOk, Apply;
    forall i: nat, s
      ensures !a.Register? ==> (Sits(next, i, s, room, user) <==> SitsAfter(w, a, i, s, room, user))
      ensures a.Register? && Sits(w.locals, i, s, room, user) ==> Sits(next, i, s, room, user)
    {
      hide JoinedRooms;
      SitsStep(w, a, i, s, room, user);
    }
    TracksIfSits(w.locals, room, user);
    hide Sits;
    if a.Join? && a.allowed && a.room == room && w.locals[a.instance].userBySocket[a.socket] == user {
      assert Sits(next, a.instance, a.socket, room, user);
    }
  }

  lemma SocketOnOneInstance(w: World)
    requires WorldOk(w)
    ensures forall i, j, s, u, u' :: Tracks(w.locals, i, s, u) && Tracks(w.locals, j, s, u') ==> i == j
    ensures forall i, u :: i in w.locals && u in w.locals[i].socketsByUser ==> w.locals[i].socketsByUser[u] != {}
  {
  }

  lemma SeatedApart(w: World, room: Room, user: User, i: nat, socket: SocketId)
    requires WorldOk(w) && i in w.locals && socket in w.locals[i].userBySocket
    ensures SeatedBut(w.locals, room, user, None) <==>
      SeatedBut(w.locals, room, user, Some(socket)) || Sits(w.locals, i, socket, room, user)
  {
    SocketOnOneInstance(w);
    hide WorldOk;
    var u := w.locals[i].userBySocket[socket];
    assert Tracks(w.locals, i, socket, u);
    TracksIfSits(w.locals, room, user);
    hide Sits;
  }

  /** Exactly those steps leave a membership of a room with a database row without backing. */
  lemma OrphanStep(w: World, a: Step, room: Room, user: User)
    requires WorldOk(w) && Possible(w, a) && IsPersistedRoomId(room) && !Orphan(w, room, user)
    ensures Orphan(Apply(w, a), room, user) <==> Orphans(w, a, room, user)
  {
    InRoomStep(w, a, room, user);
    PendingNext(w, a, room, user);
    SeatedNext(w, a, room, user);
    SocketOnOneInstance(w);
    OneTimeoutOnInstance(w, a.instance);
    if a.Unregister? || a.Leave? {
      SeatedApart(w, room, user, a.instance, a.socket);
    }
    hide Apply, WorldOk, IsPersistedRoomId, ColonFree, SeatedBut, PendingBut, InRoom, JoinedRooms;
  }

  lemma OneTimeoutOnInstance(w: World, i: nat)
    requires WorldOk(w) && i in w.locals
    ensures forall id :: id in w.locals[i].timeouts ==> w.locals[i].timeouts[id] in w.locals[i].timeouts.Values
  {
  }

  lemma NobodyIn(instances: set<nat>, w: World, room: Room, user: User)
    requires Reaches(instances, [], w)
    ensures !Orphan(w, room, user)
  {
  }

  ghost predicate OrphanAfter(instances: set<nat>, steps: seq<Step>, room: Room, user: User) {
    exists w :: Reaches(instances, steps, w) && Orphan(w, room, user)
  }

  lemma OrphanNow(instances: set<nat>, steps: seq<Step>, w: World, room: Room, user: User)
    requires Reaches(instances, steps, w) && Orphan(w, room, user)
    ensures OrphanAfter(instances, steps, room, user)
  {
  }

  /** In every run, a membership of a room with a database row that neither a socket in the room
      nor a pending timer stands behind goes back to such a step, and has been without backing
      ever since. */
  lemma {:induction false} OrphansArise(instances: set<nat>, steps: seq<Step>, end: World, room: Room, user: User)
    returns (k: nat, w: World)
    requires Reaches(instances, steps, end) && IsPersistedRoomId(room) && Orphan(end, room, user)
    ensures k < |steps| && Reaches(instances, steps[..k], w) && Possible(w, steps[k])
    ensures !Orphan(w, room, user) && Orphans(w, steps[k], room, user)
    ensures forall n :: k < n <= |steps| ==> OrphanAfter(instances, steps[..n], room, user)
    decreases |steps|
  {
    hide *;
    if steps == [] {
      NobodyIn(instances, end, room, user);
      assert false;
    } else {
      var rest, last := steps[..|steps| - 1], steps[|steps| - 1];
      var before := LastStep(instances, steps, end);
      OrphanNow(instances, steps, end, room, user);
      assert steps[..|steps|] == steps;
      if Orphan(before, room, user) {
        k, w := OrphansArise(instances, rest, before, room, user);
        assert forall n: nat :: n <= |rest| ==> rest[..n] == steps[..n];
      } else {
        k, w := |rest|, before;
        OrphanStep(w, last, room, user);
      }
    }
  }

  // ---------- Runs in which it happens ----------

  /** Instance 0 and presence are as in `v`, and no other instance has done anything. */
  ghost predicate Stage(instances: set<nat>, w: World, v: View, seen: set<SocketId>) {
    && 0 in instances && w.seen == seen
    && w.locals == Start(instances).locals[0 := v.local] && w.presence == v.presence
  }

  /** A user's only socket registers, joins a room and drops: the timer is pending, the membership
      is still there, and the index of the user's rooms is gone. */
  function Registered(user: User, socket: SocketId): View {
    View(Presence({(user, socket)}, {user}, {}, {}, {}),
         Local(map[user := {socket}], map[socket := user], map[], map[], map[], 0))
  }

  function Seated(room: Room, user: User, socket: SocketId): View {
    View(Presence({(user, socket)}, {user}, {(room, user)}, {}, {(user, room)}),
         Local(map[user := {socket}], map[socket := user], map[socket := [room]], map[], map[], 0))
  }

  function Gone(room: Room, user: User, socket: SocketId): View {
    View(Presence({}, {}, {(room, user)}, {}, {}),
         Local(map[], map[], map[socket := [room]],
               map[TimerKey(room, user) := 0], map[0 := Timeout(room, user)], 1))
  }

  lemma AfterRegister(user: User, socket: SocketId)
    requires ColonFree(user)
    ensures Enabled(IDLE, Register(0, user, socket))
    ensures StepView(View(NOBODY, IDLE), Register(0, user, socket)).0 == Registered(user, socket)
  {
    assert SocketsOf(NOBODY.(sockets := {(user, socket)}), user) == {socket};
  }

  lemma AfterJoin(room: Room, user: User, socket: SocketId)
    ensures Enabled(Registered(user, socket).local, Join(0, socket, room, true, false))
    ensures StepView(Registered(user, socket), Join(0, socket, room, true, false)).0 == Seated(room, user, socket)
  {
    assert JoinedRooms(Registered(user, socket).local, socket) + [room] == [room];
    assert map[socket := user][socket] == user;
  }

  lemma AfterUnregister(room: Room, user: User, socket: SocketId)
    requires IsPersistedRoomId(room)
    ensures Enabled(Seated(room, user, socket).local, Unregister(0, socket))
    ensures StepView(Seated(room, user, socket), Unregister(0, socket)).0 == Gone(room, user, socket)
  {
    var v := Seated(room, user, socket);
    var (p, last) := Disconnected(v.presence, user, socket);
    assert SocketsOf(v.presence.(sockets := {}), user) == {};
    assert p == Gone(room, user, socket).presence && RoomsOf(p, user) == {};
    NothingLeft(p, user);
    var rest := Untrack(v.local, user, socket);
    assert rest == Local(map[], map[], map[socket := [room]], map[], map[], 0);
    assert [room][..0] == [] && ArmAll(rest, [], user) == rest;
    assert Arm(rest, room, user) == Gone(room, user, socket).local;
  }

  lemma StageNext(instances: set<nat>, steps: seq<Step>, w: World, v: View, seen: set<SocketId>, a: Step)
    returns (steps': seq<Step>, w': World)
    requires Reaches(instances, steps, w) && Stage(instances, w, v, seen)
    requires a.instance == 0 && Enabled(v.local, a) && (a.Register? ==> a.socket !in seen)
    ensures Reaches(instances, steps', w')
    ensures Stage(instances, w', StepView(v, a).0, if a.Register? then seen + {a.socket} else seen)
  {
    hide Reaches, StepView, Enabled;
    assert View(w.presence, w.locals[0]) == v;
    steps', w' := Advance(instances, steps, w, a);
  }

  lemma DropOnce(instances: set<nat>, room: Room, user: User, socket: SocketId) returns (steps: seq<Step>, w: World)
    requires 0 in instances && IsPersistedRoomId(room) && ColonFree(user)
    ensures Reaches(instances, steps, w) && Stage(instances, w, Gone(room, user, socket), {socket})
  {
    hide *;
    AfterRegister(user, socket);
    AfterJoin(room, user, socket);
    AfterUnregister(room, user, socket);
    StageStart(instances);
    var one, w1 := StageNext(instances, [], Start(instances), View(NOBODY, IDLE), {}, Register(0, user, socket));
    var seen := {} + {socket};
    assert seen == {socket};
    var two, w2 := StageNext(instances, one, w1, Registered(user, socket), seen, Join(0, socket, room, true, false));
    steps, w := StageNext(instances, two, w2, Seated(room, user, socket), seen, Unregister(0, socket));
  }

  lemma StageStart(instances: set<nat>)
    requires 0 in instances
    ensures Reaches(instances, [], Start(instances)) && Stage(instances, Start(instances), View(NOBODY, IDLE), {})
  {
  }

  /** One more step of a run. */
  lemma Advance(instances: set<nat>, steps: seq<Step>, w: World, a: Step) returns (steps': seq<Step>, w': World)
    requires Reaches(instances, steps, w) && Possible(w, a)
    ensures Reaches(instances, steps', w') && WorldOk(w')
    ensures var v := StepView(View(w.presence, w.locals[a.instance]), a).0;
      && w'.presence == v.presence && w'.locals == w.locals[a.instance := v.local]
      && w'.seen == if a.Register? then w.seen + {a.socket} else w.seen
  {
    hide Reaches, StepView, WorldOk;
    ReachesNext(instances, steps, w, a);
    steps', w' := steps + [a], Apply(w, a);
  }

  /** What a socket that registers and one that joins leave alone. */
  lemma RegisterLeaves(v: View, user: User, i: nat, socket: SocketId)
    requires ColonFree(user)
    ensures var next := StepView(v, Register(i, user, socket)).0;
      && Enabled(v.local, Register(i, user, socket))
      && next.presence.members == v.presence.members && next.local == Track(v.local, user, socket)
  {
  }

  lemma JoinLeaves(v: View, i: nat, socket: SocketId, room: Room)
    requires socket in v.local.userBySocket
    ensures var next := StepView(v, Join(i, socket, room, true, false)).0;
      && next.presence.members == v.presence.members + {(room, v.local.userBySocket[socket])}
      && next.local.userBySocket == v.local.userBySocket && room in JoinedRooms(next.local, socket)
  {
  }

  /** An ejection during the grace period of a last socket cancels the timer and misses the room. */
  lemma EjectionMisses(room: Room, user: User, socket: SocketId) returns (steps: seq<Step>, w: World)
    requires IsPersistedRoomId(room) && ColonFree(user)
    ensures Reaches({0}, steps, w) && Possible(w, Eject(0, user)) && Orphans(w, Eject(0, user), room, user)
    ensures Orphan(Apply(w, Eject(0, user)), room, user)
  {
    hide *;
    steps, w := DropOnce({0}, room, user, socket);
    OrphanedByEjection(w, room, user, socket, {socket});
    RunWorldOk({0}, steps, w);
    OrphanStep(w, Eject(0, user), room, user);
  }

  lemma OrphanedByEjection(w: World, room: Room, user: User, socket: SocketId, seen: set<SocketId>)
    requires ColonFree(user) && Stage({0}, w, Gone(room, user, socket), seen)
    ensures Possible(w, Eject(0, user)) && Orphans(w, Eject(0, user), room, user) && !Orphan(w, room, user)
  {
    assert w.locals[0].timeouts[0] == Timeout(room, user);
    assert Pends(w.locals, 0, room, user);
  }

  /** So does a timer that fires after the user has reconnected without entering the room again. */
  lemma TimerLapses(room: Room, user: User, socket: SocketId, other: SocketId) returns (steps: seq<Step>, w: World)
    requires IsPersistedRoomId(room) && ColonFree(user) && socket != other
    ensures Reaches({0}, steps, w) && Possible(w, Fire(0, 0)) && Orphans(w, Fire(0, 0), room, user)
    ensures Orphan(Apply(w, Fire(0, 0)), room, user)
  {
    hide *;
    var before, w0 := DropOnce({0}, room, user, socket);
    var v, a := Gone(room, user, socket), Register(0, user, other);
    RegisterLeaves(v, user, 0, other);
    assert !(other in {socket});
    steps, w := StageNext({0}, before, w0, v, {socket}, a);
    OrphanedByTimer(w, room, user, socket, other, {socket} + {other});
    RunWorldOk({0}, steps, w);
    OrphanStep(w, Fire(0, 0), room, user);
  }

  lemma OrphanedByTimer(w: World, room: Room, user: User, socket: SocketId, other: SocketId, seen: set<SocketId>)
    requires ColonFree(user) && socket != other
    requires Stage({0}, w, StepView(Gone(room, user, socket), Register(0, user, other)).0, seen)
    ensures Possible(w, Fire(0, 0)) && Orphans(w, Fire(0, 0), room, user) && !Orphan(w, room, user)
  {
    RegisterLeaves(Gone(room, user, socket), user, 0, other);
    hide StepView;
    assert w.locals[0].timeouts[0] == Timeout(room, user);
    assert Pends(w.locals, 0, room, user);
  }

  /** And a user who is back in the room on another instance is thrown out by the old timer. */
  lemma TimerEjectsReturned(room: Room, user: User, socket: SocketId, other: SocketId)
    returns (steps: seq<Step>, w: World)
    requires IsPersistedRoomId(room) && ColonFree(user) && socket != other
    ensures Reaches({0, 1}, steps, w) && Possible(w, Fire(0, 0))
    ensures InRoom(w.presence, room, user) && !InRoom(Apply(w, Fire(0, 0)).presence, room, user)
    ensures Sits(Apply(w, Fire(0, 0)).locals, 1, other, room, user)
  {
    var before, w0 := DropOnce({0, 1}, room, user, socket);
    hide Reaches, StepView, IsPersistedRoomId, ColonFree, WorldOk, JoinedRooms;
    steps, w := ComeBack(before, w0, room, user, socket, other);
    TimerIgnoresOtherInstances(w, 0, 1, 0, other);
    LocalsAfter(w, Fire(0, 0));
  }

  lemma ComeBack(before: seq<Step>, w0: World, room: Room, user: User, socket: SocketId, other: SocketId)
    returns (steps: seq<Step>, w: World)
    requires Reaches({0, 1}, before, w0) && Stage({0, 1}, w0, Gone(room, user, socket), {socket})
    requires ColonFree(user) && socket != other
    ensures Reaches({0, 1}, steps, w) && WorldOk(w)
    ensures w.locals.Keys == {0, 1} && w.locals[0] == Gone(room, user, socket).local
    ensures Tracks(w.locals, 1, other, user) && room in JoinedRooms(w.locals[1], other)
    ensures (room, user) in w.presence.members
  {
    hide Reaches, StepView, ColonFree, WorldOk, JoinedRooms, Possible, Gone;
    var more, w1 := RegisterThere(before, w0, user, {socket}, other);
    steps, w := JoinThere(more, w1, room, user, other);
  }

  lemma RegisterThere(steps: seq<Step>, w: World, user: User, seen: set<SocketId>, other: SocketId)
    returns (steps': seq<Step>, w': World)
    requires Reaches({0, 1}, steps, w) && w.locals.Keys == {0, 1} && w.locals[1] == IDLE && w.seen == seen
    requires ColonFree(user) && other !in seen
    ensures Reaches({0, 1}, steps', w') && w'.locals.Keys == {0, 1} && w'.locals[0] == w.locals[0]
    ensures Tracks(w'.locals, 1, other, user) && w'.presence.members == w.presence.members
  {
    RegisterLeaves(View(w.presence, IDLE), user, 1, other);
    hide Reaches, StepView, ColonFree, WorldOk;
    steps', w' := Advance({0, 1}, steps, w, Register(1, user, other));
  }

  lemma JoinThere(steps: seq<Step>, w: World, room: Room, user: User, other: SocketId)
    returns (steps': seq<Step>, w': World)
    requires Reaches({0, 1}, steps, w) && w.locals.Keys == {0, 1} && Tracks(w.locals, 1, other, user)
    ensures Reaches({0, 1}, steps', w') && WorldOk(w') && w'.locals.Keys == {0, 1} && w'.locals[0] == w.locals[0]
    ensures Tracks(w'.locals, 1, other, user) && room in JoinedRooms(w'.locals[1], other)
    ensures (room, user) in w'.presence.members
  {
    JoinLeaves(View(w.presence, w.locals[1]), 1, other, room);
    hide Reaches, StepView, WorldOk, JoinedRooms;
    steps', w' := Advance({0, 1}, steps, w, Join(1, other, room, true, false));
  }

  // ---------- The services ----------

  class PresenceService {
    var p: Presence

    constructor ()
      ensures p == NOBODY
    {
      p := NOBODY;
    }

    method Connect(user: User, socket: SocketId) returns (first: bool)
      modifies this
      ensures (p, first) == Connected(old(p), user, socket)
    {
      p := p.(sockets := p.sockets + {(user, socket)});
      var liveSockets := |SocketsOf(p, user)|;
      if liveSockets == 1 {
        p := p.(online := p.online + {user});
        return true;
      }
      return false;
    }

    method Disconnect(user: User, socket: SocketId) returns (last: bool)
      modifies this
      ensures (p, last) == Disconnected(old(p), user, socket)
    {
      p := p.(sockets := p.sockets - {(user, socket)});
      var liveSockets := |SocketsOf(p, user)|;
      if liveSockets == 0 {
        p := p.(sockets := Without(p.sockets, user));
        p := p.(rooms := Without(p.rooms, user));
        p := p.(online := p.online - {user});
        return true;
      }
      return false;
    }

    method JoinRoom(room: Room, user: User, isModerator: bool)
      modifies this
      ensures p == Entered(old(p), room, user, isModerator)
    {
      if isModerator {
        p := p.(moderators := p.moderators + {(room, user)});
      } else {
        p := p.(members := p.members + {(room, user)});
      }
      p := p.(rooms := p.rooms + {(user, room)});
    }

    method LeaveRoom(room: Room, user: User, isModerator: bool)
      modifies this
      ensures p == Exited(old(p), room, user, isModerator)
    {
      if isModerator {
        p := p.(moderators := p.moderators - {(room, user)});
      } else {
        p := p.(members := p.members - {(room, user)});
      }
      p := p.(rooms := p.rooms - {(user, room)});
    }

    method LeaveRoomEverywhere(room: Room, user: User)
      modifies this
      ensures p == ExitedEverywhere(old(p), room, user)
    {
      LeaveRoom(room, user, false);
      LeaveRoom(room, user, true);
    }

    /** The user leaves every one of `rooms`, in any order. */
    method LeaveAll(rooms: set<Room>, user: User)
      modifies this
      ensures p == ExitedAll(old(p), rooms, user)
    {
      var todo := rooms;
      ghost var done: set<Room> := {};
      NothingLeft(p, user);
      while todo != {}
        invariant rooms == done + todo && done !! todo
        invariant p == ExitedAll(old(p), done, user)
        decreases todo
      {
        var room :| room in todo;
        OneMoreLeft(old(p), done, room, user);
        LeaveRoomEverywhere(room, user);
        todo, done := todo - {room}, done + {room};
      }
      assert done == rooms;
    }
  }

  lemma NothingLeft(p: Presence, user: User)
    ensures ExitedAll(p, {}, user) == p
  {
    var q := ExitedAll(p, {}, user);
    assert q.members == p.members && q.moderators == p.moderators && q.rooms == p.rooms;
  }

  lemma OneMoreLeft(p: Presence, done: set<Room>, room: Room, user: User)
    ensures ExitedEverywhere(ExitedAll(p, done, user), room, user) == ExitedAll(p, done + {room}, user)
  {
    var a, b := ExitedEverywhere(ExitedAll(p, done, user), room, user), ExitedAll(p, done + {room}, user);
    assert a.members == b.members && a.moderators == b.moderators && a.rooms == b.rooms;
  }

  lemma OneMoreDisarmed(l: Local, keys: set<string>, key: string)
    requires keys <= l.timers.Keys && key in l.timers && key !in keys
    ensures Disarm(DisarmKeys(l, keys), key) == DisarmKeys(l, keys + {key})
  {
    var a, b := Disarm(DisarmKeys(l, keys), key), DisarmKeys(l, keys + {key});
    assert a.timers == b.timers;
    assert a.timeouts.Keys == b.timeouts.Keys;
  }

  /** After a last disconnect there is no room left in the index. */
  lemma NoRoomsLeft(p: Presence, user: User, socket: SocketId)
    ensures var (q, last) := Disconnected(p, user, socket);
      last ==> RoomsOf(q, user) == {} && ExitedAll(q, {}, user) == q
  {
    NothingLeft(Disconnected(p, user, socket).0, user);
  }

  lemma ForgetAgain(l: Local, user: User, socket: SocketId, rooms: seq<Room>)
    ensures var armed := ArmAll(Untrack(l, user, socket), rooms, user); Untrack(armed, user, socket) == armed
  {
    var once := Untrack(l, user, socket);
    ArmAllFrame(once, rooms, user);
    var armed := ArmAll(once, rooms, user);
    if user in once.socketsByUser {
      assert once.socketsByUser[user] - {socket} == once.socketsByUser[user] != {};
      assert armed.socketsByUser[user := armed.socketsByUser[user]] == armed.socketsByUser;
    } else {
      assert armed.socketsByUser - {user} == armed.socketsByUser;
    }
    assert armed.userBySocket - {socket} == armed.userBySocket;
  }

  datatype Verdict = Allow | Deny | Spectator

  /** Where an unregistration loses its connection to Redis: not at all, before the disconnect is
      recorded, or when it comes to a last socket's rooms. */
  datatype Outage = Nowhere | AtDisconnect | AtRooms

  class SocketManager {
    const presence: PresenceService
    var local: Local

    constructor (presence: PresenceService)
      ensures this.presence == presence && local == IDLE
    {
      this.presence, local := presence, IDLE;
    }

    ghost function Now(): View
      reads this, presence
    {
      View(presence.p, local)
    }

    method Register(user: User, socket: SocketId) returns (first: bool)
      modifies this, presence
      ensures (Now(), first) == RegisterStep(old(Now()), user, socket)
    {
      var sockets := if user in local.socketsByUser then local.socketsByUser[user] else {};
      local := local.(socketsByUser := local.socketsByUser[user := sockets + {socket}]);
      local := local.(userBySocket := local.userBySocket[socket := user]);
      first := presence.Connect(user, socket);
    }

    method Forget(user: User, socket: SocketId)
      modifies this
      ensures local == Untrack(old(local), user, socket)
    {
      if user in local.socketsByUser {
        var sockets := local.socketsByUser[user] - {socket};
        if sockets == {} {
          local := local.(socketsByUser := local.socketsByUser - {user});
        } else {
          local := local.(socketsByUser := local.socketsByUser[user := sockets]);
        }
      } else {
        assert local.socketsByUser - {user} == local.socketsByUser;
      }
      local := local.(userBySocket := local.userBySocket - {socket});
    }

    method ClearTimer(key: string)
      modifies this
      ensures local == Disarm(old(local), key)
    {
      if key in local.timers {
        local := local.(timeouts := local.timeouts - {local.timers[key]});
        local := local.(timers := local.timers - {key});
      }
    }

    /** A dropped socket. Whatever Redis call fails, the local indexes are cleaned up. */
    method Unregister(user: User, socket: SocketId, outage: Outage) returns (last: bool)
      modifies this, presence
      ensures outage == Nowhere ==> (Now(), last) == UnregisterStep(old(Now()), user, socket)
      ensures outage == AtDisconnect ==> !last && Now() == View(old(presence.p), Untrack(old(local), user, socket))
      ensures outage == AtRooms ==> !last && Now() == UnregisterStep(old(Now()), user, socket).0
    {
      var joinedRooms := JoinedRooms(local, socket);
      if outage == AtDisconnect {
        Forget(user, socket);
        return false;
      }
      last := presence.Disconnect(user, socket);
      Forget(user, socket);
      ghost var untracked := local;
      for i := 0 to |joinedRooms|
        invariant local == ArmAll(untracked, joinedRooms[..i], user)
        invariant (presence.p, last) == Disconnected(old(presence.p), user, socket)
      {
        var room := joinedRooms[i];
        assert joinedRooms[..i + 1][..|joinedRooms[..i + 1]| - 1] == joinedRooms[..i];
        if IsPersistedRoomId(room) {
          var timerKey := TimerKey(room, user);
          var id := local.nextTimeout;
          ClearTimer(timerKey);
          local := local.(timers := local.timers[timerKey := id],
            timeouts := local.timeouts[id := Timeout(room, user)], nextTimeout := id + 1);
        }
      }
      assert joinedRooms[..|joinedRooms|] == joinedRooms;
      if last {
        NoRoomsLeft(old(presence.p), user, socket);
        if outage == AtRooms {
          ForgetAgain(old(local), user, socket, joinedRooms);
          Forget(user, socket);
          return false;
        }
        var rooms := RoomsOf(presence.p, user);
        presence.LeaveAll(rooms, user);
      }
    }

    method JoinRoom(user: User, socket: SocketId, room: Room, isModerator: bool, verdict: Verdict)
      returns (joined: bool)
      modifies this, presence
      ensures joined == (verdict != Deny)
      ensures Now() == if joined then JoinStep(old(Now()), user, socket, room, isModerator) else old(Now())
    {
      if verdict == Deny {
        return false;
      }
      var activeRooms := JoinedRooms(local, socket);
      if room !in activeRooms {
        activeRooms := activeRooms + [room];
      }
      local := local.(activeRooms := local.activeRooms[socket := activeRooms]);
      ClearTimer(TimerKey(room, user));
      presence.JoinRoom(room, user, isModerator);
      return true;
    }

    method LeaveRoom(user: User, socket: SocketId, room: Room, isModerator: bool)
      modifies this, presence
      ensures Now() == LeaveStep(old(Now()), user, socket, room, isModerator)
    {
      if socket in local.activeRooms {
        local := local.(activeRooms := local.activeRooms[socket := Removed(local.activeRooms[socket], room)]);
      }
      ClearTimer(TimerKey(room, user));
      presence.LeaveRoom(room, user, isModerator);
    }

    method LeaveUserRoomsImmediately(user: User)
      modifies this, presence
      ensures Now() == EjectStep(old(Now()), user)
    {
      ghost var start, cleared: set<string> := local, {};
      var todo := local.timers.Keys;
      assert DisarmKeys(local, {}) == local;
      while todo != {}
        invariant todo <= start.timers.Keys && cleared <= start.timers.Keys
        invariant cleared == set key | key in start.timers && key !in todo && EndsWith(key, ":" + user)
        invariant local == DisarmKeys(start, cleared)
        invariant presence.p == old(presence.p)
        decreases todo
      {
        var key :| key in todo;
        if EndsWith(key, ":" + user) {
          OneMoreDisarmed(start, cleared, key);
          ClearTimer(key);
          cleared := cleared + {key};
        }
        todo := todo - {key};
      }
      presence.LeaveAll(RoomsOf(presence.p, user), user);
    }

    /** A grace timeout goes off. */
    method TimerFires(id: nat)
      requires id in local.timeouts
      modifies this, presence
      ensures Now() == FireStep(old(Now()), id)
    {
      var t := local.timeouts[id];
      local := local.(timeouts := local.timeouts - {id});
      local := local.(timers := local.timers - {TimerKey(t.room, t.user)});
      var stillActive := InRoom(presence.p, t.room, t.user);
      if stillActive && t.user in local.socketsByUser && local.socketsByUser[t.user] != {} {
        return;
      }
      presence.LeaveRoomEverywhere(t.room, t.user);
    }
  }
}
