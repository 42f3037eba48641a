/** The rooms of the chat server and the regions in which their mutex is held. */
module ChatRooms {

  type User = string
  type Conn = nat
  type Members = map<User, Conn>

  const ROOM_LIMIT := 2
  const NAME_LIMIT := 31
  const TEXT_LIMIT := 255

  datatype Packet =
    | Chat(sender: string, text: string)
    | UserList(first: string, second: string)

  /** What a connection is sent: a packet of a room, or a reply to its own session. */
  datatype Message = Room(packet: Packet) | Reply(text: string)

  type Streams = map<Conn, seq<Message>>

  const ROOM_FULL := "Room is full!"

  /** strncpy into a zeroed array that is one byte longer than `limit`. */
  function Clip(s: string, limit: nat): (r: string)
    ensures |r| <= limit && r <= s
  {
    if |s| <= limit then s else s[..limit]
  }

  function ChatPacket(sender: User, text: string): Packet {
    Chat(Clip(sender, NAME_LIMIT), Clip(text, TEXT_LIMIT))
  }

  function ListPacket(first: User, second: User): Packet {
    UserList(Clip(first, NAME_LIMIT), Clip(second, NAME_LIMIT))
  }

  // ----- what the regions do to the rooms -----

  function MembersOf(rooms: map<int, Members>, room: int): Members {
    if room in rooms then rooms[room] else map[]
  }

  predicate Full(rooms: map<int, Members>, room: int) {
    |MembersOf(rooms, room)| >= ROOM_LIMIT
  }

  function Entered(rooms: map<int, Members>, room: int, user: User, conn: Conn): map<int, Members> {
    rooms[room := MembersOf(rooms, room)[user := conn]]
  }

  function Left(rooms: map<int, Members>, room: int, user: User): map<int, Members> {
    var rest := MembersOf(rooms, room) - {user};
    if rest == map[] then rooms - {room} else rooms[room := rest]
  }

  /** The two names a walk over the members can come up with first. */
  predicate Walk(members: Members, first: User, second: User) {
    if |members| == 0 then first == "" && second == ""
    else if |members| == 1 then first in members && second == ""
    else first in members && second in members && first != second
  }

  // ----- every room has one or two members -----

  ghost predicate RoomsOk(rooms: map<int, Members>) {
    forall r {:trigger rooms[r]} | r in rooms :: 1 <= |rooms[r]| <= ROOM_LIMIT && "" !in rooms[r]
  }

  lemma {:induction false} GrowByOne(m: Members, u: User, c: Conn)
    ensures |m[u := c]| <= |m| + 1 && |m[u := c]| >= 1
  {
    var n := m[u := c];
    if u in m {
      assert n.Keys == m.Keys;
    } else {
      assert n.Keys == m.Keys + {u};
    }
    KeysCount(m);
    KeysCount(n);
  }

  lemma {:induction false} KeysCount(m: Members)
    ensures |m| == |m.Keys|
  {
  }

  lemma {:induction false} EnteredOk(rooms: map<int, Members>, room: int, user: User, conn: Conn)
    requires RoomsOk(rooms) && !Full(rooms, room) && user != ""
    ensures RoomsOk(Entered(rooms, room, user, conn))
  {
    GrowByOne(MembersOf(rooms, room), user, conn);
    forall r | r in Entered(rooms, room, user, conn)
      ensures 1 <= |Entered(rooms, room, user, conn)[r]| <= ROOM_LIMIT && "" !in Entered(rooms, room, user, conn)[r]
    {
      if r in rooms {
        assert 1 <= |rooms[r]|;
      }
    }
  }

  lemma {:induction false} ShrinkByOne(m: Members, u: User)
    ensures |m - {u}| <= |m|
    ensures m - {u} != map[] ==> |m - {u}| >= 1
  {
    var n := m - {u};
    KeysCount(m);
    KeysCount(n);
    assert n.Keys == m.Keys - {u};
    if n != map[] {
      assert n.Keys != {};
    }
  }

  lemma {:induction false} LeftOk(rooms: map<int, Members>, room: int, user: User)
    requires RoomsOk(rooms)
    ensures RoomsOk(Left(rooms, room, user))
  {
    ShrinkByOne(MembersOf(rooms, room), user);
    var next := Left(rooms, room, user);
    forall r | r in next
      ensures 1 <= |next[r]| <= ROOM_LIMIT && "" !in next[r]
    {
      if r in rooms {
        assert 1 <= |rooms[r]|;
      }
    }
  }

  /** Two slots hold every member: the names listed are those of the members, clipped. */
  lemma {:induction false} ListNamesMembers(members: Members, first: User, second: User)
    requires 1 <= |members| <= ROOM_LIMIT && Walk(members, first, second) && "" !in members
    ensures members.Keys == (if second == "" then {first} else {first, second})
  {
    KeysCount(members);
    if second == "" {
      OneKey(members.Keys, first);
    } else {
      TwoKeys(members.Keys, first, second);
    }
  }

  lemma {:induction false} OneKey(s: set<User>, a: User)
    requires |s| == 1 && a in s
    ensures s == {a}
  {
    assert |s - {a}| == 0;
  }

  lemma {:induction false} TwoKeys(s: set<User>, a: User, b: User)
    requires |s| == 2 && a in s && b in s && a != b
    ensures s == {a, b}
  {
    assert |s - {a} - {b}| == 0;
  }

  // ----- delivery -----

  /** The members that sit on a connection. */
  function SeatsOf(members: Members, conn: Conn): set<User> {
    set u | u in members && members[u] == conn
  }

  function Seats(members: Members, conn: Conn): nat {
    |SeatsOf(members, conn)|
  }

  function Repeat<T>(x: T, n: nat): (s: seq<T>)
    ensures |s| == n && forall i | 0 <= i < n :: s[i] == x
  {
    seq(n, _ => x)
  }

  lemma {:induction false} RepeatSnoc<T>(x: T, n: nat)
    ensures Repeat(x, n + 1) == Repeat(x, n) + [x]
  {
  }

  /** The reply is written to one connection. */
  function Told(streams: Streams, conn: Conn, text: string): Streams {
    if conn in streams then streams[conn := streams[conn] + [Reply(text)]] else streams
  }

  /** The packets of rooms in a stream. */
  function RoomPackets(s: seq<Message>): seq<Packet> {
    if s == [] then []
    else RoomPackets(s[..|s| - 1]) + match s[|s| - 1]
                                     case Room(p) => [p]
                                     case Reply(_) => []
  }

  lemma {:induction false} PacketsSnoc(s: seq<Message>, x: Message)
    ensures RoomPackets(s + [x]) == RoomPackets(s) + if x.Room? then [x.packet] else []
  {
    assert (s + [x])[..|s|] == s;
  }

  lemma {:induction false} PacketsRepeat(s: seq<Message>, p: Packet, n: nat)
    ensures RoomPackets(s + Repeat(Room(p), n)) == RoomPackets(s) + Repeat(p, n)
  {
    hide RoomPackets;
    if n == 0 {
      assert s + Repeat(Room(p), 0) == s;
    } else {
      var init := s + Repeat(Room(p), n - 1);
      PacketsRepeat(s, p, n - 1);
      RepeatSnoc(Room(p), n - 1);
      RepeatSnoc(p, n - 1);
      assert s + Repeat(Room(p), n) == init + [Room(p)];
      PacketsSnoc(init, Room(p));
      assert RoomPackets(s) + Repeat(p, n) == RoomPackets(s) + Repeat(p, n - 1) + [p];
    }
  }

  /** Every connection gets one copy for each member that sits on it. */
  function Delivered(streams: Streams, members: Members, p: Packet): Streams {
    map c | c in streams :: streams[c] + Repeat(Room(p), Seats(members, c))
  }

  /** The members among the given ones. */
  function Among(members: Members, users: set<User>): Members {
    map x | x in members && x in users :: members[x]
  }

  lemma {:induction false} NoneYet(streams: Streams, members: Members, p: Packet)
    ensures Delivered(streams, Among(members, {}), p) == streams
  {
    var none := Among(members, {});
    forall c | c in streams
      ensures streams[c] + Repeat(Room(p), Seats(none, c)) == streams[c]
    {
      assert SeatsOf(none, c) == {};
    }
  }

  lemma {:induction false} AllOfThem(members: Members)
    ensures Among(members, members.Keys) == members
  {
  }

  lemma {:induction false} SeatTaken(members: Members, done: set<User>, u: User, conn: Conn)
    requires u in members && u !in done && done <= members.Keys
    ensures var some, more := Among(members, done), Among(members, done + {u});
            Seats(more, conn) == Seats(some, conn) + if members[u] == conn then 1 else 0
  {
    var some, more := Among(members, done), Among(members, done + {u});
    var a, b := SeatsOf(some, conn), SeatsOf(more, conn);
    if members[u] == conn {
      assert b == a + {u};
    } else {
      assert b == a;
    }
  }

  /** The room manager. Connections are numbered; what was written to each is kept in `streams`. */
  class RoomManager {
    var locked: bool
    var rooms: map<int, Members>
    var streams: Streams

    constructor ()
      ensures !locked && rooms == map[] && streams == map[]
    {
      locked, rooms, streams := false, map[], map[];
    }

    method Lock()
      requires !locked
      modifies this`locked
      ensures locked
    {
      locked := true;
    }

    method Unlock()
      requires locked
      modifies this`locked
      ensures !locked
    {
      locked := false;
    }

    /** The region of EnterRoom; a session that is turned away is told so. */
    method Enter(room: int, user: User, conn: Conn) returns (entered: bool)
      requires !locked && conn in streams
      modifies this
      ensures !locked
      ensures entered <==> !Full(old(rooms), room)
      ensures streams == if entered then old(streams) else Told(old(streams), conn, ROOM_FULL)
      ensures rooms == if entered then Entered(old(rooms), room, user, conn) else old(rooms)
    {
      Lock();
      if room !in rooms {
        rooms := rooms[room := map[]];
      }
      if |rooms[room]| >= ROOM_LIMIT {
        streams := streams[conn := streams[conn] + [Reply(ROOM_FULL)]];
        Unlock();
        return false;
      }
      var more: Members := rooms[room][user := conn];
      rooms := rooms[room := more];
      Unlock();
      entered := true;
    }

    /** The region of LeaveRoom. */
    method Leave(room: int, user: User)
      requires !locked
      modifies this`locked, this`rooms
      ensures !locked && rooms == Left(old(rooms), room, user)
    {
      Lock();
      if room !in rooms {
        rooms := rooms[room := map[]];
      }
      var rest: Members := rooms[room] - {user};
      rooms := rooms[room := rest];
      if rooms[room] == map[] {
        rooms := rooms - {room};
      }
      Unlock();
    }

    /** The region of SendUserListToAll: the first two names of a walk in any order. */
    method TwoUsers(room: int) returns (present: bool, first: User, second: User)
      requires !locked
      modifies this`locked
      ensures !locked && (present <==> room in rooms)
      ensures present ==> Walk(rooms[room], first, second)
    {
      Lock();
      present, first, second := room in rooms, "", "";
      if !present {
        Unlock();
        return;
      }
      var left, index := rooms[room].Keys, 0;
      KeysCount(rooms[room]);
      while left != {}
        invariant locked && room in rooms && left <= rooms[room].Keys
        invariant index == |rooms[room]| - |left| && index <= 1
        invariant index == 0 ==> first == "" && second == ""
        invariant index == 1 ==> first in rooms[room] && first !in left && second == ""
        decreases left
      {
        var u :| u in left;
        left := left - {u};
        if index == 0 {
          first := u;
        } else if index == 1 {
          second := u;
          break;
        }
        index := index + 1;
      }
      Unlock();
    }

    /** Broadcast: the packet goes to every member, in any order. */
    method Broadcast(room: int, packet: Packet)
      requires !locked && (forall r, u | r in rooms && u in rooms[r] :: rooms[r][u] in streams)
      modifies this`locked, this`streams
      ensures !locked
      ensures streams == if room in rooms then Delivered(old(streams), rooms[room], packet) else old(streams)
    {
      hide Delivered, Among;
      Lock();
      if room !in rooms {
        Unlock();
        return;
      }
      var members := rooms[room];
      var left := members.Keys;
      ghost var done: set<User> := {};
      NoneYet(streams, members, packet);
      while left != {}
        invariant locked && left == members.Keys - done && done <= members.Keys && streams.Keys == old(streams).Keys
        invariant streams == Delivered(old(streams), Among(members, done), packet)
        decreases left
      {
        var u :| u in left;
        left := left - {u};
        ghost var before := streams;
        streams := streams[members[u] := streams[members[u]] + [Room(packet)]];
        OneMore(old(streams), before, streams, members, done, u, packet);
        done := done + {u};
      }
      assert done == members.Keys;
      AllOfThem(members);
      Unlock();
    }
  }

  lemma {:induction false} OneMore(first: Streams, before: Streams, now: Streams,
                                   members: Members, done: set<User>, u: User, p: Packet)
    requires u in members && u !in done && done <= members.Keys && members[u] in first
    requires before == Delivered(first, Among(members, done), p)
    requires now == before[members[u] := before[members[u]] + [Room(p)]]
    ensures now == Delivered(first, Among(members, done + {u}), p)
  {
    var some, more := Among(members, done), Among(members, done + {u});
    forall c | c in first
      ensures now[c] == first[c] + Repeat(Room(p), Seats(more, c))
    {
      SeatTaken(members, done, u, c);
      if c == members[u] {
        assert Repeat(Room(p), Seats(some, c)) + [Room(p)] == Repeat(Room(p), Seats(more, c));
      }
    }
  }
}
