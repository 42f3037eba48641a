/** The chat server as a transition system: any number of sessions, whose steps are the regions in which the
    room mutex is held, in any interleaving. */
module ChatProtocol {
  import opened ChatRooms

  /** What a session still has to do before it reads again. */
  datatype Task =
    | DoEnter(room: int, user: User)
    | DoList(room: int)
    | DoCast(room: int, packet: Packet)
    | DoLeave(room: int, user: User)
    | DoDelete

  /** A session's variables, its tasks, whether it ever asked to enter a room while logged in, and whether its
      connection has closed. */
  datatype Session = Session(user: User, room: int, todo: seq<Task>, entered: bool, closing: bool)

  /** A broadcast, with the membership it went to. */
  datatype Sent = Sent(room: int, packet: Packet, members: Members)

  /** A user list, with the membership it was taken from. */
  datatype Listing = Listing(users: set<User>, packet: Packet)

  datatype State = State(
    rooms: map<int, Members>,
    sessions: map<Conn, Session>,
    logins: set<(Conn, User)>,
    log: seq<Sent>,
    lists: seq<Listing>,
    streams: Streams)

  const INIT: State := State(map[], map[], {}, [], [], map[])

  /** What can happen next: a connection is accepted, an idle session reads a packet or finds its connection
      closed, or a session carries out its next task. */
  datatype Event =
    | Accept(conn: Conn)
    | Login(conn: Conn, user: User, ok: bool)
    | Name(conn: Conn, room: int)
    | Say(conn: Conn, text: string)
    | Other(conn: Conn)
    | Close(conn: Conn)
    | Run(conn: Conn, first: User, second: User)

  predicate Enabled(s: State, e: Event) {
    match e
    case Accept(c) => c !in s.streams
    case Run(c, first, second) =>
      && c in s.sessions && s.sessions[c].todo != []
      && var task := s.sessions[c].todo[0];
         task.DoList? && task.room in s.rooms ==> Walk(s.rooms[task.room], first, second)
    case _ => e.conn in s.sessions && s.sessions[e.conn].todo == []
  }

  const LOGIN_SUCCESS := "Login Success!"
  const LOGIN_FAILED := "Login Failed!"

  function Joined(user: User): string { user + " has entered the room." }

  function Gone(user: User): string { user + " has left the room." }

  function With(s: State, c: Conn, x: Session): State {
    s.(sessions := s.sessions[c := x])
  }

  /** A task is carried out in one go, the mutex being held. */
  function Perform(s: State, c: Conn, first: User, second: User): State
    requires c in s.sessions && s.sessions[c].todo != []
  {
    var x := s.sessions[c];
    var rest := x.todo[1..];
    match x.todo[0]
    case DoEnter(r, u) =>
      if Full(s.rooms, r) then With(s.(streams := Told(s.streams, c, ROOM_FULL)), c, x.(todo := rest))
      else With(s.(rooms := Entered(s.rooms, r, u, c)), c,
                x.(todo := [DoList(r), DoCast(r, ChatPacket("System", Joined(u)))] + rest))
    case DoList(r) =>
      if r in s.rooms then
        With(s.(lists := s.lists + [Listing(s.rooms[r].Keys, ListPacket(first, second))]), c,
             x.(todo := [DoCast(r, ListPacket(first, second))] + rest))
      else With(s, c, x.(todo := rest))
    case DoCast(r, p) =>
      if r in s.rooms then
        With(s.(log := s.log + [Sent(r, p, s.rooms[r])], streams := Delivered(s.streams, s.rooms[r], p)), c, x.(todo := rest))
      else With(s, c, x.(todo := rest))
    case DoLeave(r, u) =>
      With(s.(rooms := Left(s.rooms, r, u)), c, x.(todo := [DoCast(r, ChatPacket("System", Gone(u))), DoList(r)] + rest))
    case DoDelete =>
      s.(sessions := s.sessions - {c})
  }

  function Next(s: State, e: Event): State
    requires Enabled(s, e)
  {
    match e
    case Accept(c) =>
      s.(sessions := s.sessions[c := Session("", -1, [], false, false)], streams := s.streams[c := []])
    case Login(c, u, ok) =>
      if ok then
        With(s.(logins := s.logins + {(c, u)}, streams := Told(s.streams, c, LOGIN_SUCCESS)), c, s.sessions[c].(user := u))
      else s.(streams := Told(s.streams, c, LOGIN_FAILED))
    case Name(c, r) =>
      var x := s.sessions[c];
      With(s, c, if x.user != "" then x.(room := r, todo := [DoEnter(r, x.user)], entered := true) else x.(room := r))
    case Say(c, text) =>
      var x := s.sessions[c];
      With(s, c, if x.room != -1 && x.user != "" then x.(todo := [DoCast(x.room, ChatPacket(x.user, text))]) else x)
    case Other(_) => s
    case Close(c) =>
      var x := s.sessions[c];
      With(s, c, x.(closing := true,
                    todo := (if x.room != -1 && x.user != "" then [DoLeave(x.room, x.user)] else []) + [DoDelete]))
    case Run(c, first, second) => Perform(s, c, first, second)
  }

  /** The states a run goes through. */
  predicate RunOk(s: State, es: seq<Event>)
    decreases |es|
  {
    es == [] || (Enabled(s, es[0]) && RunOk(Next(s, es[0]), es[1..]))
  }

  function After(s: State, es: seq<Event>): State
    requires RunOk(s, es)
    decreases |es|
  {
    if es == [] then s else After(Next(s, es[0]), es[1..])
  }

  // ----- what every run keeps -----

  /** Room packets a connection should have got: one for each seat at each broadcast, in the order of the log. */
  function Project(log: seq<Sent>, c: Conn): seq<Packet> {
    if log == [] then []
    else Project(log[..|log| - 1], c) + Repeat(log[|log| - 1].packet, Seats(log[|log| - 1].members, c))
  }

  ghost predicate TaskKnown(s: State, c: Conn, t: Task) {
    t.DoEnter? ==> t.user != "" && (c, t.user) in s.logins
  }

  ghost predicate SessionKnown(s: State, c: Conn)
    requires c in s.sessions
  {
    && c in s.streams
    && (s.sessions[c].user != "" ==> (c, s.sessions[c].user) in s.logins)
    && forall t | t in s.sessions[c].todo :: TaskKnown(s, c, t)
  }

  ghost predicate SessionsKnown(s: State) {
    forall c {:trigger s.sessions[c]} | c in s.sessions :: SessionKnown(s, c)
  }

  /** Each entry was made by a session on that connection that had logged in as that user. */
  ghost predicate EntriesKnown(s: State) {
    forall r, u {:trigger s.rooms[r][u]} | r in s.rooms && u in s.rooms[r] :: (s.rooms[r][u], u) in s.logins && s.rooms[r][u] in s.streams
  }

  ghost predicate LogKnown(s: State) {
    forall i, u {:trigger s.log[i].members[u]} | 0 <= i < |s.log| && u in s.log[i].members :: s.log[i].members[u] in s.streams
  }

  /** The room packets in every connection's stream are the projection of the one log. */
  ghost predicate StreamsProject(s: State) {
    forall c {:trigger s.streams[c]} | c in s.streams :: RoomPackets(s.streams[c]) == Project(s.log, c)
  }

  ghost predicate Faithful(l: Listing) {
    || (exists a {:trigger ListPacket(a, "")} :: l.users == {a} && l.packet == ListPacket(a, ""))
    || (exists a, b {:trigger ListPacket(a, b)} :: a != b && l.users == {a, b} && l.packet == ListPacket(a, b))
  }

  /** Every user list names exactly the members at the time it was taken. */
  ghost predicate ListsFaithful(s: State) {
    forall l | l in s.lists :: Faithful(l)
  }

  ghost predicate Invariant(s: State) {
    RoomsOk(s.rooms) && SessionsKnown(s) && EntriesKnown(s) && LogKnown(s) && StreamsProject(s) && ListsFaithful(s)
  }

  lemma {:induction false} KnownStays(s: State, n: State, c: Conn)
    requires c in s.sessions && SessionKnown(s, c) && c in n.sessions && n.sessions[c] == s.sessions[c]
    requires s.logins <= n.logins && s.streams.Keys <= n.streams.Keys
    ensures SessionKnown(n, c)
  {
    forall t | t in n.sessions[c].todo
      ensures TaskKnown(n, c, t)
    {
      assert TaskKnown(s, c, t);
    }
  }

  lemma {:induction false} OtherSessions(s: State, e: Event, c: Conn)
    requires Enabled(s, e) && c != e.conn && c in Next(s, e).sessions
    ensures c in s.sessions && Next(s, e).sessions[c] == s.sessions[c]
  {
    hide Entered, Left, Delivered, Full, ChatPacket, ListPacket;
  }

  lemma {:induction false} MoreKnown(s: State, e: Event)
    requires Enabled(s, e)
    ensures s.logins <= Next(s, e).logins && s.streams.Keys <= Next(s, e).streams.Keys
  {
    hide Entered, Left, Full, ChatPacket, ListPacket;
  }

  lemma {:induction false} OwnSession(s: State, e: Event)
    requires Enabled(s, e) && e.conn in Next(s, e).sessions && (e.conn in s.sessions ==> SessionKnown(s, e.conn))
    ensures SessionKnown(Next(s, e), e.conn)
  {
    hide Entered, Left, Full, ChatPacket, ListPacket, Delivered, Told;
    var n, c := Next(s, e), e.conn;
    MoreKnown(s, e);
    forall t | t in n.sessions[c].todo
      ensures TaskKnown(n, c, t)
    {
      if c in s.sessions && t in s.sessions[c].todo {
        assert TaskKnown(s, c, t);
      }
    }
  }

  lemma {:induction false} KeepsSessions(s: State, e: Event)
    requires Invariant(s) && Enabled(s, e)
    ensures SessionsKnown(Next(s, e))
  {
    hide Next, Enabled;
    var n := Next(s, e);
    MoreKnown(s, e);
    forall c | c in n.sessions
      ensures SessionKnown(n, c)
    {
      assert c in s.sessions ==> SessionKnown(s, c);
      if c == e.conn {
        OwnSession(s, e);
      } else {
        OtherSessions(s, e, c);
        KnownStays(s, n, c);
      }
    }
  }

  /** Only entering and leaving change the rooms. */
  lemma {:induction false} RoomsStep(s: State, e: Event)
    requires Enabled(s, e)
    ensures var n := Next(s, e);
            || n.rooms == s.rooms
            || (e.Run? && var t := s.sessions[e.conn].todo[0];
                && t in s.sessions[e.conn].todo
                && ((t.DoEnter? && !Full(s.rooms, t.room) && n.rooms == Entered(s.rooms, t.room, t.user, e.conn))
                    || (t.DoLeave? && n.rooms == Left(s.rooms, t.room, t.user))))
  {
    hide Entered, Left, Full, ChatPacket, ListPacket, Delivered;
  }

  lemma {:induction false} NextTaskKnown(s: State, e: Event)
    requires SessionsKnown(s) && Enabled(s, e) && e.Run?
    ensures TaskKnown(s, e.conn, s.sessions[e.conn].todo[0])
  {
    assert SessionKnown(s, e.conn);
    assert s.sessions[e.conn].todo[0] in s.sessions[e.conn].todo;
  }

  lemma {:induction false} KeepsRooms(s: State, e: Event)
    requires Invariant(s) && Enabled(s, e)
    ensures RoomsOk(Next(s, e).rooms)
  {
    hide Next, RoomsOk, Entered, Left, Full, SessionsKnown, EntriesKnown, LogKnown, StreamsProject, ListsFaithful;
    RoomsStep(s, e);
    if Next(s, e).rooms != s.rooms {
      NextTaskKnown(s, e);
      var t := s.sessions[e.conn].todo[0];
      if t.DoEnter? {
        EnteredOk(s.rooms, t.room, t.user, e.conn);
      } else {
        LeftOk(s.rooms, t.room, t.user);
      }
    }
  }

  lemma {:induction false} KeepsEntries(s: State, e: Event)
    requires Invariant(s) && Enabled(s, e)
    ensures EntriesKnown(Next(s, e))
  {
    hide Next, Full;
    var n := Next(s, e);
    RoomsStep(s, e);
    MoreKnown(s, e);
    if e.Run? {
      NextTaskKnown(s, e);
    }
    forall r, u | r in n.rooms && u in n.rooms[r]
      ensures (n.rooms[r][u], u) in n.logins && n.rooms[r][u] in n.streams
    {
      if r in s.rooms && u in s.rooms[r] {
        assert (s.rooms[r][u], u) in s.logins;
      }
    }
  }

  /** Only a broadcast to a room that exists is logged. */
  lemma {:induction false} LogStep(s: State, e: Event)
    requires Enabled(s, e)
    ensures var n := Next(s, e);
            || n.log == s.log
            || (exists r, p {:trigger Sent(r, p, s.rooms[r])} :: r in s.rooms && n.log == s.log + [Sent(r, p, s.rooms[r])])
  {
    hide Entered, Left, Full, ChatPacket, ListPacket, Delivered, Told;
    if e.Run? && s.sessions[e.conn].todo[0].DoCast? {
      var t := s.sessions[e.conn].todo[0];
      if t.room in s.rooms {
        assert Next(s, e).log == s.log + [Sent(t.room, t.packet, s.rooms[t.room])];
      }
    }
  }

  lemma {:induction false} KeepsLog(s: State, e: Event)
    requires Invariant(s) && Enabled(s, e)
    ensures LogKnown(Next(s, e))
  {
    hide Next, RoomsOk, SessionsKnown, StreamsProject, ListsFaithful;
    var n := Next(s, e);
    LogStep(s, e);
    MoreKnown(s, e);
    forall i, u | 0 <= i < |n.log| && u in n.log[i].members
      ensures n.log[i].members[u] in n.streams
    {
      if i < |s.log| {
        assert s.log[i].members[u] in s.streams;
      } else {
        var r :| r in s.rooms && n.log[i].members == s.rooms[r];
        assert (s.rooms[r][u], u) in s.logins;
      }
    }
  }

  lemma {:induction false} ProjectSnoc(log: seq<Sent>, x: Sent, c: Conn)
    ensures Project(log + [x], c) == Project(log, c) + Repeat(x.packet, Seats(x.members, c))
  {
    assert (log + [x])[..|log|] == log;
  }

  lemma {:induction false} ProjectNothing(log: seq<Sent>, c: Conn)
    requires forall i, u {:trigger log[i].members[u]} | 0 <= i < |log| && u in log[i].members :: log[i].members[u] != c
    ensures Project(log, c) == []
  {
    if log != [] {
      var init := log[..|log| - 1];
      forall i, u | 0 <= i < |init| && u in init[i].members
        ensures init[i].members[u] != c
      {
        assert init[i] == log[i];
        assert log[i].members[u] != c;
      }
      ProjectNothing(init, c);
      assert SeatsOf(log[|log| - 1].members, c) == {};
    }
  }

  /** Only a broadcast writes room packets to the streams, and it is logged. */
  lemma {:induction false} StreamStep(s: State, e: Event, c: Conn)
    requires Enabled(s, e) && c in Next(s, e).streams && !(e.Accept? && c == e.conn)
    ensures var n := Next(s, e);
            && c in s.streams
            && if n.log == s.log then n.streams[c] == s.streams[c] || exists text :: n.streams[c] == s.streams[c] + [Reply(text)]
               else
                 && |n.log| == |s.log| + 1 && n.log == s.log + [n.log[|s.log|]]
                 && n.streams[c] == s.streams[c] + Repeat(Room(n.log[|s.log|].packet), Seats(n.log[|s.log|].members, c))
  {
    hide Entered, Left, Full, ChatPacket, ListPacket, Seats, Repeat;
  }

  lemma {:induction false} PacketsStep(s: State, e: Event, c: Conn)
    requires Enabled(s, e) && c in Next(s, e).streams && !(e.Accept? && c == e.conn)
    ensures var n := Next(s, e);
            && c in s.streams
            && if n.log == s.log then RoomPackets(n.streams[c]) == RoomPackets(s.streams[c])
               else
                 && |n.log| == |s.log| + 1 && n.log == s.log + [n.log[|s.log|]]
                 && RoomPackets(n.streams[c]) == RoomPackets(s.streams[c]) + Repeat(n.log[|s.log|].packet, Seats(n.log[|s.log|].members, c))
  {
    hide Next, Enabled, Seats, Repeat, RoomPackets;
    StreamStep(s, e, c);
    var n := Next(s, e);
    if n.log != s.log {
      PacketsRepeat(s.streams[c], n.log[|s.log|].packet, Seats(n.log[|s.log|].members, c));
    } else if n.streams[c] != s.streams[c] {
      var text :| n.streams[c] == s.streams[c] + [Reply(text)];
      PacketsSnoc(s.streams[c], Reply(text));
    }
  }

  lemma {:induction false} AcceptStep(s: State, c: Conn)
    requires LogKnown(s) && Enabled(s, Accept(c))
    ensures Next(s, Accept(c)).streams[c] == [] && Project(s.log, c) == [] && Next(s, Accept(c)).log == s.log
  {
    forall i, u | 0 <= i < |s.log| && u in s.log[i].members
      ensures s.log[i].members[u] != c
    {
      assert s.log[i].members[u] in s.streams;
    }
    ProjectNothing(s.log, c);
  }

  lemma {:induction false} KeepsStreams(s: State, e: Event)
    requires Invariant(s) && Enabled(s, e)
    ensures StreamsProject(Next(s, e))
  {
    hide Next, Project, Seats, Repeat;
    var n := Next(s, e);
    forall c | c in n.streams
      ensures RoomPackets(n.streams[c]) == Project(n.log, c)
    {
      if e.Accept? && c == e.conn {
        AcceptStep(s, c);
      } else {
        PacketsStep(s, e, c);
        assert RoomPackets(s.streams[c]) == Project(s.log, c);
        if n.log != s.log {
          ProjectSnoc(s.log, n.log[|s.log|], c);
        }
      }
    }
  }

  lemma {:induction false} KeepsLists(s: State, e: Event)
    requires Invariant(s) && Enabled(s, e)
    ensures ListsFaithful(Next(s, e))
  {
    var n := Next(s, e);
    if n.lists != s.lists {
      var r := s.sessions[e.conn].todo[0].room;
      assert 1 <= |s.rooms[r]|;
      ListNamesMembers(s.rooms[r], e.first, e.second);
      assert Faithful(Listing(s.rooms[r].Keys, ListPacket(e.first, e.second)));
    }
  }

  /** Every run, whatever the interleaving, keeps all of this. */
  lemma {:induction false} RunKeeps(s: State, es: seq<Event>)
    requires Invariant(s) && RunOk(s, es)
    ensures Invariant(After(s, es))
    decreases |es|
  {
    hide RoomsOk, SessionsKnown, EntriesKnown, LogKnown, StreamsProject, ListsFaithful, Next, Enabled;
    if es != [] {
      KeepsRooms(s, es[0]);
      KeepsSessions(s, es[0]);
      KeepsEntries(s, es[0]);
      KeepsLog(s, es[0]);
      KeepsStreams(s, es[0]);
      KeepsLists(s, es[0]);
      RunKeeps(Next(s, es[0]), es[1..]);
    }
  }

  lemma {:induction false} EveryRun(es: seq<Event>)
    requires RunOk(INIT, es)
    ensures Invariant(After(INIT, es))
  {
    assert RoomsOk(INIT.rooms);
    assert SessionsKnown(INIT);
    assert EntriesKnown(INIT);
    assert LogKnown(INIT);
    assert StreamsProject(INIT);
    assert ListsFaithful(INIT);
    RunKeeps(INIT, es);
  }

  // ----- one order for everyone -----

  /** Where the packets of the i-th broadcast begin in a connection's stream. */
  function Place(log: seq<Sent>, i: nat, c: Conn): nat
    requires i <= |log|
  {
    |Project(log[..i], c)|
  }

  lemma {:induction false} PlaceNext(log: seq<Sent>, i: nat, c: Conn)
    requires i < |log|
    ensures Project(log[..i + 1], c) == Project(log[..i], c) + Repeat(log[i].packet, Seats(log[i].members, c))
    ensures Place(log, i + 1, c) == Place(log, i, c) + Seats(log[i].members, c)
  {
    assert log[..i + 1] == log[..i] + [log[i]];
    ProjectSnoc(log[..i], log[i], c);
  }

  lemma {:induction false} ProjectGrows(log: seq<Sent>, i: nat, j: nat, c: Conn)
    requires i <= j <= |log|
    ensures Project(log[..i], c) <= Project(log[..j], c)
    decreases j - i
  {
    if i < j {
      ProjectGrows(log, i, j - 1, c);
      PlaceNext(log, j - 1, c);
    }
  }

  /** Where the copies of the i-th broadcast lie. */
  lemma {:induction false} CopiesAt(log: seq<Sent>, i: nat, c: Conn)
    requires i < |log|
    ensures var a, n := Place(log, i, c), Seats(log[i].members, c);
            a + n <= |Project(log, c)| && forall x | a <= x < a + n :: Project(log, c)[x] == log[i].packet
  {
    hide Project, Seats;
    assert log[..|log|] == log;
    var whole, part := Project(log, c), Project(log[..i + 1], c);
    PlaceNext(log, i, c);
    ProjectGrows(log, i + 1, |log|, c);
    var a, n := Place(log, i, c), Seats(log[i].members, c);
    forall x | a <= x < a + n
      ensures whole[x] == log[i].packet
    {
      assert whole[x] == part[x] == Repeat(log[i].packet, n)[x - a];
    }
  }

  /** In any reachable state: of two broadcasts, a connection that got both has the packets of the earlier one
      before those of the later one, as many of each as it had seats, whatever the connection. */
  lemma {:induction false} SameOrder(s: State, c: Conn, i: nat, j: nat)
    requires Invariant(s) && c in s.streams && i < j < |s.log|
    ensures var a, b, got := Place(s.log, i, c), Place(s.log, j, c), RoomPackets(s.streams[c]);
            && a + Seats(s.log[i].members, c) <= b && b + Seats(s.log[j].members, c) <= |got|
            && (forall x | a <= x < a + Seats(s.log[i].members, c) :: got[x] == s.log[i].packet)
            && (forall x | b <= x < b + Seats(s.log[j].members, c) :: got[x] == s.log[j].packet)
  {
    hide Project, Seats, RoomsOk, SessionsKnown, EntriesKnown, LogKnown, ListsFaithful;
    assert RoomPackets(s.streams[c]) == Project(s.log, c);
    CopiesAt(s.log, i, c);
    CopiesAt(s.log, j, c);
    PlaceNext(s.log, i, c);
    ProjectGrows(s.log, i + 1, j, c);
  }

  // ----- sessions that keep to one identity and one room -----

  /** Once a session has asked to enter while logged in, it logs in as nobody else and names no other room;
      and no session names room -1, from which none ever leaves. */
  predicate Disciplined(s: State, e: Event)
    requires Enabled(s, e)
  {
    match e
    case Login(c, u, ok) => ok && s.sessions[c].entered ==> u == s.sessions[c].user
    case Name(c, r) => r != -1 && (s.sessions[c].entered ==> r == s.sessions[c].room)
    case _ => true
  }

  predicate DisciplinedRun(s: State, es: seq<Event>)
    decreases |es|
  {
    es == [] || (Enabled(s, es[0]) && Disciplined(s, es[0]) && DisciplinedRun(Next(s, es[0]), es[1..]))
  }

  ghost predicate SessionTidy(x: Session) {
    && (x.entered ==> x.user != "" && x.room != -1)
    && (forall t | t in x.todo && t.DoEnter? :: x.entered && !x.closing && t.room == x.room && t.user == x.user)
    && (forall t | t in x.todo && t.DoLeave? :: t.room == x.room && t.user == x.user)
    && (!x.closing ==> DoDelete !in x.todo)
    && (x.closing ==> x.todo != [] && x.todo[|x.todo| - 1] == DoDelete && DoDelete !in x.todo[..|x.todo| - 1])
  }

  /** Who owns an entry: a live session, logged in under that name, in that room, that will still leave it. */
  ghost predicate Owned(s: State, r: int, u: User, c: Conn) {
    c in s.sessions &&
    var x := s.sessions[c];
    x.entered && x.room == r && x.user == u && (x.closing ==> DoLeave(r, u) in x.todo)
  }

  ghost predicate Tidy(s: State) {
    && s.sessions.Keys <= s.streams.Keys
    && (forall c {:trigger s.sessions[c]} | c in s.sessions :: SessionTidy(s.sessions[c]))
    && (forall r, u {:trigger s.rooms[r][u]} | r in s.rooms && u in s.rooms[r] :: Owned(s, r, u, s.rooms[r][u]))
  }

  /** Carrying out a task replaces it by others that are neither entering, leaving nor deleting. */
  lemma {:induction false} TaskDone(x: Session, more: seq<Task>)
    requires SessionTidy(x) && x.todo != [] && x.todo[0] != DoDelete
    requires forall t | t in more :: !t.DoEnter? && !t.DoLeave? && t != DoDelete
    ensures SessionTidy(x.(todo := more + x.todo[1..]))
  {
    var rest, all := x.todo[1..], more + x.todo[1..];
    assert forall t | t in rest :: t in x.todo;
    if x.closing {
      assert x.todo[..|x.todo| - 1][0] == x.todo[0];
      assert |rest| > 0 && all[|all| - 1] == rest[|rest| - 1] == x.todo[|x.todo| - 1];
      assert all[..|all| - 1] == more + rest[..|rest| - 1];
      assert rest[..|rest| - 1] == x.todo[..|x.todo| - 1][1..];
    }
  }

  lemma {:induction false} KeepsSessionTidy(s: State, e: Event, c: Conn)
    requires Tidy(s) && Enabled(s, e) && Disciplined(s, e) && c in Next(s, e).sessions
    ensures SessionTidy(Next(s, e).sessions[c])
  {
    if c != e.conn {
      OtherSessions(s, e, c);
      assert SessionTidy(s.sessions[c]);
    } else if e.Run? {
      RunTidy(s, c, e.first, e.second);
    } else if e.Accept? {
      assert SessionTidy(Session("", -1, [], false, false));
    } else {
      assert SessionTidy(s.sessions[c]);
    }
  }

  lemma {:induction false} RunTidy(s: State, c: Conn, first: User, second: User)
    requires Tidy(s) && c in s.sessions && s.sessions[c].todo != [] && c in Perform(s, c, first, second).sessions
    ensures SessionTidy(Perform(s, c, first, second).sessions[c])
  {
    hide Entered, Left, Full, ChatPacket, ListPacket, Delivered, SessionTidy;
    var x := s.sessions[c];
    assert SessionTidy(x);
    assert [] + x.todo[1..] == x.todo[1..];
    match x.todo[0]
    case DoEnter(r, u) =>
      TaskDone(x, []);
      TaskDone(x, [DoList(r), DoCast(r, ChatPacket("System", Joined(u)))]);
    case DoList(r) =>
      TaskDone(x, []);
      TaskDone(x, [DoCast(r, ListPacket(first, second))]);
    case DoCast(r, p) =>
      TaskDone(x, []);
    case DoLeave(r, u) =>
      TaskDone(x, [DoCast(r, ChatPacket("System", Gone(u))), DoList(r)]);
    case DoDelete =>
  }

  lemma {:induction false} OthersStay(s: State, e: Event, c: Conn)
    requires Enabled(s, e) && c != e.conn && c in s.sessions
    ensures c in Next(s, e).sessions && Next(s, e).sessions[c] == s.sessions[c]
  {
    hide Entered, Left, Delivered, Full, ChatPacket, ListPacket;
  }

  /** A session's own step leaves it the owner of the entries it still has. */
  lemma {:induction false} OwnStays(s: State, e: Event, r: int, u: User)
    requires Tidy(s) && Enabled(s, e) && Disciplined(s, e) && e.conn in s.sessions && Owned(s, r, u, e.conn)
    requires var n := Next(s, e); r in n.rooms && u in n.rooms[r] && n.rooms[r][u] == e.conn
    ensures Owned(Next(s, e), r, u, e.conn)
  {
    hide Entered, Full, ChatPacket, ListPacket, Delivered;
    var x := s.sessions[e.conn];
    assert SessionTidy(x);
    if e.Run? {
      var t, rest := x.todo[0], x.todo[1..];
      assert x.todo == [t] + rest && t in x.todo;
      if x.closing {
        assert DoLeave(r, u) == t || DoLeave(r, u) in rest;
        if |x.todo| > 1 {
          assert x.todo[..|x.todo| - 1][0] == t;
        }
      }
    } else if e.Close? {
      assert ([DoLeave(r, u)] + [DoDelete])[0] == DoLeave(r, u);
    }
  }

  lemma {:induction false} KeepsOwned(s: State, e: Event, r: int, u: User)
    requires Tidy(s) && Enabled(s, e) && Disciplined(s, e)
    requires var n := Next(s, e); r in n.rooms && u in n.rooms[r]
    ensures Owned(Next(s, e), r, u, Next(s, e).rooms[r][u])
  {
    var n := Next(s, e);
    var c := n.rooms[r][u];
    if r in s.rooms && u in s.rooms[r] && s.rooms[r][u] == c {
      assert Owned(s, r, u, c);
      if c == e.conn {
        OwnStays(s, e, r, u);
      } else {
        OthersStay(s, e, c);
      }
    } else {
      NewEntry(s, e, r, u);
    }
  }

  lemma {:induction false} NewEntry(s: State, e: Event, r: int, u: User)
    requires Tidy(s) && Enabled(s, e) && Disciplined(s, e)
    requires var n := Next(s, e);
             r in n.rooms && u in n.rooms[r] && !(r in s.rooms && u in s.rooms[r] && s.rooms[r][u] == n.rooms[r][u])
    ensures Owned(Next(s, e), r, u, Next(s, e).rooms[r][u])
  {
    hide Full, ChatPacket, ListPacket, Delivered;
    if e.Run? {
      assert SessionTidy(s.sessions[e.conn]);
      assert s.sessions[e.conn].todo[0] in s.sessions[e.conn].todo;
    }
  }

  lemma {:induction false} AcceptedKnown(s: State, e: Event)
    requires Enabled(s, e) && s.sessions.Keys <= s.streams.Keys && e.conn in Next(s, e).sessions
    ensures e.conn in Next(s, e).streams
  {
    hide Entered, Left, Full, ChatPacket, ListPacket;
  }

  lemma {:induction false} KeepsTidy(s: State, e: Event)
    requires Tidy(s) && Enabled(s, e) && Disciplined(s, e)
    ensures Tidy(Next(s, e))
  {
    hide Next, Enabled, Disciplined, Owned, SessionTidy;
    var n := Next(s, e);
    MoreKnown(s, e);
    forall c | c in n.sessions
      ensures SessionTidy(n.sessions[c]) && c in n.streams
    {
      KeepsSessionTidy(s, e, c);
      if c == e.conn {
        AcceptedKnown(s, e);
      } else {
        OtherSessions(s, e, c);
      }
    }
    forall r, u | r in n.rooms && u in n.rooms[r]
      ensures Owned(n, r, u, n.rooms[r][u])
    {
      KeepsOwned(s, e, r, u);
    }
  }

  lemma {:induction false} TidyRun(s: State, es: seq<Event>)
    requires Tidy(s) && DisciplinedRun(s, es)
    ensures RunOk(s, es) && Tidy(After(s, es))
    decreases |es|
  {
    hide Tidy, Next, Enabled, Disciplined;
    if es != [] {
      KeepsTidy(s, es[0]);
      TidyRun(Next(s, es[0]), es[1..]);
    }
  }

  /** In every disciplined run no entry refers to a deleted connection, so whatever is broadcast next is written
      to live connections only, to each at most once. */
  lemma {:induction false} NoStaleEntries(es: seq<Event>, r: int)
    requires DisciplinedRun(INIT, es)
    ensures RunOk(INIT, es)
    ensures var s := After(INIT, es);
            r in s.rooms ==>
              && (forall u | u in s.rooms[r] :: s.rooms[r][u] in s.sessions)
              && forall c :: Seats(s.rooms[r], c) <= 1
  {
    TidyRun(INIT, es);
    var s := After(INIT, es);
    if r in s.rooms {
      forall u | u in s.rooms[r]
        ensures Owned(s, r, u, s.rooms[r][u])
      {
        assert s.rooms[r][u] == s.rooms[r][u];
      }
      forall c
        ensures Seats(s.rooms[r], c) <= 1
      {
        OneSeat(s, r, c);
      }
    }
  }

  lemma {:induction false} OneSeat(s: State, r: int, c: Conn)
    requires r in s.rooms && forall u | u in s.rooms[r] :: Owned(s, r, u, s.rooms[r][u])
    ensures Seats(s.rooms[r], c) <= 1
  {
    var seats := SeatsOf(s.rooms[r], c);
    if u :| u in seats {
      assert forall v | v in seats :: v == s.sessions[c].user;
      assert seats == {u};
    }
  }

  // ----- why the discipline is needed -----

  /** The steps of others leave a session where it is. */
  lemma {:induction false} OthersRun(s: State, es: seq<Event>, c: Conn)
    requires c in s.sessions && RunOk(s, es) && forall e | e in es :: e.conn != c
    ensures c in After(s, es).sessions && After(s, es).sessions[c] == s.sessions[c]
    decreases |es|
  {
    hide Next, Enabled;
    if es != [] {
      assert es[0] in es && forall e | e in es[1..] :: e in es;
      OthersStay(s, es[0], c);
      OthersRun(Next(s, es[0]), es[1..], c);
    }
  }

  /** What closing takes out of the rooms, whatever the others do before the session gets to leave: the entry
      for its last room and name, and only if there is a room other than -1 and a name. */
  lemma {:induction false} LeavingRemoves(s: State, c: Conn, es: seq<Event>, r: int, u: User)
    requires c in s.sessions && s.sessions[c].todo == []
    requires RunOk(Next(s, Close(c)), es) && forall e | e in es :: e.conn != c
    requires var m := After(Next(s, Close(c)), es); r in m.rooms && u in m.rooms[r]
    ensures var x, m := s.sessions[c], After(Next(s, Close(c)), es);
            && c in m.sessions && m.sessions[c].todo != []
            && var left := if m.sessions[c].todo[0].DoLeave? then Next(m, Run(c, "", "")).rooms else m.rooms;
               (r in left && u in left[r] && left[r][u] == m.rooms[r][u]) <==> !(x.room != -1 && x.user != "" && r == x.room && u == x.user)
  {
    var x, n := s.sessions[c], Next(s, Close(c));
    OthersRun(n, es, c);
    ClosedTodo(s, c);
    var m := After(n, es);
    if x.room != -1 && x.user != "" {
      LeaveStep(m, c, x.room, x.user);
      LeftRemoves(m.rooms, x.room, x.user, r, u);
    }
  }

  lemma {:induction false} ClosedTodo(s: State, c: Conn)
    requires c in s.sessions && s.sessions[c].todo == []
    ensures var x, n := s.sessions[c], Next(s, Close(c));
            && c in n.sessions
            && n.sessions[c].todo == if x.room != -1 && x.user != "" then [DoLeave(x.room, x.user), DoDelete] else [DoDelete]
  {
  }

  lemma {:induction false} LeaveStep(s: State, c: Conn, r: int, u: User)
    requires c in s.sessions && s.sessions[c].todo != [] && s.sessions[c].todo[0] == DoLeave(r, u)
    ensures Enabled(s, Run(c, "", "")) && Next(s, Run(c, "", "")).rooms == Left(s.rooms, r, u)
  {
  }

  lemma {:induction false} LeftRemoves(rooms: map<int, Members>, room: int, user: User, r: int, u: User)
    requires r in rooms && u in rooms[r]
    ensures var left := Left(rooms, room, user);
            (r in left && u in left[r] && left[r][u] == rooms[r][u]) <==> !(r == room && u == user)
  {
    var rest := MembersOf(rooms, room) - {user};
    if r == room && u != user {
      assert u in rest;
    }
  }

  /** A session that last named room -1 leaves every entry it has made behind, with its connection deleted. */
  lemma {:induction false} StaleEntry(s: State, c: Conn, r: int, u: User)
    requires c in s.sessions && s.sessions[c].todo == [] && s.sessions[c].room == -1
    requires r in s.rooms && u in s.rooms[r] && s.rooms[r][u] == c
    ensures var es := [Close(c), Run(c, "", "")];
            && RunOk(s, es)
            && var n := After(s, es); r in n.rooms && u in n.rooms[r] && n.rooms[r][u] == c && c !in n.sessions
  {
    var es := [Close(c), Run(c, "", "")];
    var s1 := Next(s, Close(c));
    assert s1.sessions[c].todo == [DoDelete];
    assert es[1..] == [Run(c, "", "")] && es[1..][1..] == [];
    var s2 := Next(s1, Run(c, "", ""));
    assert RunOk(s2, []) && After(s2, []) == s2;
    assert RunOk(s1, es[1..]) && After(s1, es[1..]) == s2;
  }

  lemma {:induction false} RunConcat(s: State, es: seq<Event>, more: seq<Event>)
    requires RunOk(s, es) && RunOk(After(s, es), more)
    ensures RunOk(s, es + more) && After(s, es + more) == After(After(s, es), more)
    decreases |es|
  {
    hide Next, Enabled;
    if es == [] {
      assert es + more == more;
    } else {
      assert (es + more)[1..] == es[1..] + more;
      RunConcat(Next(s, es[0]), es[1..], more);
    }
  }

  lemma {:induction false} RunTo(es: seq<Event>, i: nat)
    requires i < |es| && RunOk(INIT, es[..i]) && Enabled(After(INIT, es[..i]), es[i])
    ensures RunOk(INIT, es[..i + 1]) && After(INIT, es[..i + 1]) == Next(After(INIT, es[..i]), es[i])
  {
    hide Next, Enabled;
    var s := After(INIT, es[..i]);
    assert [es[i]][1..] == [];
    assert RunOk(Next(s, es[i]), []) && After(Next(s, es[i]), []) == Next(s, es[i]);
    assert RunOk(s, [es[i]]) && After(s, [es[i]]) == Next(s, es[i]);
    RunConcat(INIT, es[..i], [es[i]]);
    assert es[..i + 1] == es[..i] + [es[i]];
  }

  /** A session logs in, names room -1, and carries out what that brings with it. */
  function MinusOne(c: Conn, u: User): seq<Event> {
    [Accept(c), Login(c, u, true), Name(c, -1), Run(c, "", ""), Run(c, u, ""), Run(c, "", ""), Run(c, "", "")]
  }

  lemma {:induction false} MinusOneNames(c: Conn, u: User)
    requires u != ""
    ensures var es := MinusOne(c, u);
            && RunOk(INIT, es[..3])
            && var s := After(INIT, es[..3]);
               s.rooms == map[] && s.sessions == map[c := Session(u, -1, [DoEnter(-1, u)], true, false)]
  {
    hide Told;
    var es := MinusOne(c, u);
    assert es[..0] == [] && RunOk(INIT, es[..0]) && After(INIT, es[..0]) == INIT;
    RunTo(es, 0);
    assert After(INIT, es[..1]).sessions == map[c := Session("", -1, [], false, false)];
    RunTo(es, 1);
    assert After(INIT, es[..2]).sessions == map[c := Session(u, -1, [], false, false)];
    RunTo(es, 2);
  }

  lemma {:induction false} MinusOneEnters(c: Conn, u: User)
    requires u != ""
    ensures var es := MinusOne(c, u);
            && RunOk(INIT, es[..4])
            && var s := After(INIT, es[..4]);
               && s.rooms == map[-1 := map[u := c]] && c in s.sessions && s.sessions[c].room == -1
               && s.sessions[c].todo == [DoList(-1), DoCast(-1, ChatPacket("System", Joined(u)))]
  {
    hide ChatPacket, Joined, Left, Delivered, Told, After, RunOk;
    var es := MinusOne(c, u);
    MinusOneNames(c, u);
    assert es[3] == Run(c, "", "");
    RunTo(es, 3);
    assert [DoEnter(-1, u)][1..] == [];
    assert Entered(map[], -1, u, c) == map[-1 := map[u := c]];
  }

  /** Once a room holds one member, its list and its messages go out, and the session is idle again. */
  lemma {:induction false} MinusOneIdle(c: Conn, u: User)
    requires u != ""
    ensures var es := MinusOne(c, u);
            && RunOk(INIT, es)
            && var s := After(INIT, es);
               && s.rooms == map[-1 := map[u := c]] && c in s.sessions && s.sessions[c].room == -1 && s.sessions[c].todo == []
  {
    hide ChatPacket, Joined, Delivered, Told, Entered, Left, After, RunOk;
    var es := MinusOne(c, u);
    MinusOneEnters(c, u);
    var join, list := DoCast(-1, ChatPacket("System", Joined(u))), DoCast(-1, ListPacket(u, ""));
    assert [DoList(-1), join][1..] == [join];
    assert Walk(map[u := c], u, "");
    RunTo(es, 4);
    assert ([list] + [join])[1..] == [join];
    RunTo(es, 5);
    assert [join][1..] == [];
    RunTo(es, 6);
    assert es[..7] == es;
  }

  /** So there is a run, from the start, that ends with an entry for a deleted connection. */
  lemma {:induction false} StaleRun(c: Conn, u: User)
    requires u != ""
    ensures var es := MinusOne(c, u) + [Close(c), Run(c, "", "")];
            && RunOk(INIT, es)
            && var s := After(INIT, es); -1 in s.rooms && u in s.rooms[-1] && s.rooms[-1][u] == c && c !in s.sessions
  {
    hide Next, Enabled, After, RunOk, MinusOne;
    MinusOneIdle(c, u);
    StaleEntry(After(INIT, MinusOne(c, u)), c, -1, u);
    RunConcat(INIT, MinusOne(c, u), [Close(c), Run(c, "", "")]);
  }
}
