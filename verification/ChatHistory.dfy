/** Where everything in a run of the chat server comes from: session variables, entries, packets and replies are
    traced back to the events that led to them, and requests forward to what they lead to, whatever the other
    sessions do in between. */
module ChatHistory {
  import opened ChatRooms
  import opened ChatProtocol

  // ----- the states along a run -----

  /** The state after the first `n` events. */
  ghost function At(es: seq<Event>, n: nat): State {
    if n <= |es| && RunOk(INIT, es[..n]) then After(INIT, es[..n]) else INIT
  }

  lemma {:induction false} RunSplit(s: State, es: seq<Event>, n: nat)
    requires RunOk(s, es) && n <= |es|
    ensures RunOk(s, es[..n]) && RunOk(After(s, es[..n]), es[n..])
    ensures After(After(s, es[..n]), es[n..]) == After(s, es)
    decreases |es|
  {
    hide Next, Enabled;
    if n > 0 {
      assert es[..n][0] == es[0] && es[..n][1..] == es[1..][..n - 1] && es[1..][n - 1..] == es[n..];
      RunSplit(Next(s, es[0]), es[1..], n - 1);
    } else {
      assert es[..0] == [] && es[0..] == es;
    }
  }

  lemma {:induction false} OneStep(es: seq<Event>, n: nat)
    requires RunOk(INIT, es) && n < |es|
    ensures RunOk(INIT, es[..n]) && RunOk(INIT, es[..n + 1])
    ensures Enabled(At(es, n), es[n]) && At(es, n + 1) == Next(At(es, n), es[n])
  {
    hide Next, Enabled;
    RunSplit(INIT, es, n);
    RunSplit(INIT, es, n + 1);
    RunSplit(INIT, es[..n + 1], n);
    assert es[..n + 1][..n] == es[..n] && es[..n + 1][n..] == [es[n]];
    var s := After(INIT, es[..n]);
    assert [es[n]][0] == es[n] && [es[n]][1..] == [];
    assert RunOk(s, [es[n]]) && After(s, [es[n]]) == After(Next(s, es[n]), []);
  }

  // ----- what the events say -----

  /** The user the connection has logged in as: the one of its last login that succeeded. */
  function LastUser(es: seq<Event>, c: Conn): User {
    if es == [] then ""
    else
      match es[|es| - 1]
      case Login(d, u, true) => if d == c then u else LastUser(es[..|es| - 1], c)
      case _ => LastUser(es[..|es| - 1], c)
  }

  /** The room the connection has named last. */
  function LastRoom(es: seq<Event>, c: Conn): int {
    if es == [] then -1
    else
      match es[|es| - 1]
      case Name(d, r) => if d == c then r else LastRoom(es[..|es| - 1], c)
      case _ => LastRoom(es[..|es| - 1], c)
  }

  /** A name one goes by is one that was logged in with. */
  lemma {:induction false} LastUserSeen(es: seq<Event>, c: Conn)
    ensures LastUser(es, c) != "" ==> Login(c, LastUser(es, c), true) in es
  {
    if es != [] {
      LastUserSeen(es[..|es| - 1], c);
    }
  }

  /** `r` is `s`, cut off behind `n` characters. */
  predicate Cut(r: string, s: string, n: nat) {
    r <= s && |r| == if |s| < n then |s| else n
  }

  /** The m-th event asks to enter a room, as a user. */
  predicate Asked(es: seq<Event>, m: nat, c: Conn, r: int, u: User) {
    m < |es| && es[m] == Name(c, r) && LastUser(es[..m], c) == u != ""
  }

  predicate Said(es: seq<Event>, m: nat, c: Conn, r: int, u: User, text: string) {
    m < |es| && es[m] == Say(c, text) && LastUser(es[..m], c) == u != "" && LastRoom(es[..m], c) == r != -1
  }

  predicate Parted(es: seq<Event>, m: nat, c: Conn, r: int, u: User) {
    m < |es| && es[m] == Close(c) && LastUser(es[..m], c) == u != "" && LastRoom(es[..m], c) == r != -1
  }

  /** The k-th event makes the entry, the room having less than two members. */
  ghost predicate Made(es: seq<Event>, k: nat, c: Conn, r: int, u: User) {
    && k < |es| && es[k].Run? && es[k].conn == c && (r in At(es, k).rooms ==> |At(es, k).rooms[r]| < 2)
    && var rooms := At(es, k + 1).rooms; r in rooms && u in rooms[r] && rooms[r][u] == c
  }

  /** The k-th event takes down the members of a room. */
  ghost predicate Taken(es: seq<Event>, k: nat, c: Conn, r: int, f: User, g: User) {
    && k < |es| && es[k] == Run(c, f, g) && r in At(es, k).rooms
    && At(es, k).rooms[r].Keys == if g == "" then {f} else {f, g}
  }

  ghost predicate Entering(es: seq<Event>, c: Conn, r: int, u: User) {
    exists m {:trigger Asked(es, m, c, r, u)} :: Asked(es, m, c, r, u)
  }

  ghost predicate Leaving(es: seq<Event>, c: Conn, r: int, u: User) {
    exists m {:trigger Parted(es, m, c, r, u)} :: Parted(es, m, c, r, u)
  }

  /** An entry goes back to a request of its connection and the step that made it. */
  ghost predicate EntryFrom(es: seq<Event>, c: Conn, r: int, u: User) {
    exists m, k {:trigger Asked(es, m, c, r, u), Made(es, k, c, r, u)} :: Asked(es, m, c, r, u) && m < k && Made(es, k, c, r, u)
  }

  ghost predicate ChatFrom(es: seq<Event>, c: Conn, r: int, p: Packet) {
    p.Chat? && exists m, u, text {:trigger Said(es, m, c, r, u, text)} ::
      Said(es, m, c, r, u, text) && Cut(p.sender, u, 31) && Cut(p.text, text, 255)
  }

  ghost predicate JoinFrom(es: seq<Event>, c: Conn, r: int, p: Packet) {
    p.Chat? && p.sender == "System" && exists u {:trigger EntryFrom(es, c, r, u)} ::
      EntryFrom(es, c, r, u) && Cut(p.text, u + " has entered the room.", 255)
  }

  ghost predicate GoneFrom(es: seq<Event>, c: Conn, r: int, p: Packet) {
    p.Chat? && p.sender == "System" && exists u {:trigger Leaving(es, c, r, u)} ::
      Leaving(es, c, r, u) && Cut(p.text, u + " has left the room.", 255)
  }

  ghost predicate ListFrom(es: seq<Event>, c: Conn, r: int, p: Packet) {
    p.UserList? && exists k, f, g {:trigger Taken(es, k, c, r, f, g)} ::
      Taken(es, k, c, r, f, g) && Cut(p.first, f, 31) && Cut(p.second, g, 31)
  }

  /** A packet goes back to what was said, or to somebody coming or going, or to a list of the members. */
  ghost predicate PacketFrom(es: seq<Event>, c: Conn, r: int, p: Packet) {
    ChatFrom(es, c, r, p) || JoinFrom(es, c, r, p) || GoneFrom(es, c, r, p) || ListFrom(es, c, r, p)
  }

  /** The k-th event is the broadcast: to the members the room has then. */
  ghost predicate Sends(es: seq<Event>, k: nat, x: Sent) {
    && k < |es| && es[k].Run? && x.room in At(es, k).rooms && At(es, k).rooms[x.room] == x.members
    && PacketFrom(es[..k], es[k].conn, x.room, x.packet)
  }

  ghost predicate SentFrom(es: seq<Event>, x: Sent) {
    exists k {:trigger Sends(es, k, x)} :: Sends(es, k, x)
  }

  ghost predicate TaskFrom(es: seq<Event>, c: Conn, t: Task) {
    match t
    case DoEnter(r, u) => Entering(es, c, r, u)
    case DoLeave(r, u) => Leaving(es, c, r, u)
    case DoCast(r, p) => PacketFrom(es, c, r, p)
    case _ => true
  }

  // ----- histories only grow -----

  lemma {:induction false} Snoc(es: seq<Event>, e: Event, n: nat)
    requires n <= |es|
    ensures (es + [e])[..n] == es[..n] && At(es + [e], n) == At(es, n)
  {
    assert (es + [e])[..n] == es[..n];
  }

  lemma {:induction false} MadeStays(es: seq<Event>, e: Event, k: nat, c: Conn, r: int, u: User)
    requires Made(es, k, c, r, u)
    ensures Made(es + [e], k, c, r, u)
  {
    hide At;
    Snoc(es, e, k);
    Snoc(es, e, k + 1);
  }

  lemma {:induction false} EntryStays(es: seq<Event>, e: Event, c: Conn, r: int, u: User)
    requires EntryFrom(es, c, r, u)
    ensures EntryFrom(es + [e], c, r, u)
  {
    hide At, Made, LastUser;
    var m, k :| Asked(es, m, c, r, u) && m < k && Made(es, k, c, r, u);
    Snoc(es, e, m);
    assert Asked(es + [e], m, c, r, u);
    MadeStays(es, e, k, c, r, u);
  }

  lemma {:induction false} PartedStays(es: seq<Event>, e: Event, c: Conn, r: int, u: User)
    requires Leaving(es, c, r, u)
    ensures Leaving(es + [e], c, r, u)
  {
    hide At, LastUser, LastRoom;
    var m :| Parted(es, m, c, r, u);
    Snoc(es, e, m);
    assert Parted(es + [e], m, c, r, u);
  }

  lemma {:induction false} AskedStays(es: seq<Event>, e: Event, c: Conn, r: int, u: User)
    requires Entering(es, c, r, u)
    ensures Entering(es + [e], c, r, u)
  {
    hide At, LastUser;
    var m :| Asked(es, m, c, r, u);
    Snoc(es, e, m);
    assert Asked(es + [e], m, c, r, u);
  }

  lemma {:induction false} PacketStays(es: seq<Event>, e: Event, c: Conn, r: int, p: Packet)
    requires PacketFrom(es, c, r, p)
    ensures PacketFrom(es + [e], c, r, p)
  {
    hide At, LastUser, LastRoom, EntryFrom, Leaving;
    if ChatFrom(es, c, r, p) {
      var m, u, text :| Said(es, m, c, r, u, text) && Cut(p.sender, u, 31) && Cut(p.text, text, 255);
      Snoc(es, e, m);
      assert Said(es + [e], m, c, r, u, text);
    } else if JoinFrom(es, c, r, p) {
      var u :| EntryFrom(es, c, r, u) && Cut(p.text, u + " has entered the room.", 255);
      EntryStays(es, e, c, r, u);
    } else if GoneFrom(es, c, r, p) {
      var u :| Leaving(es, c, r, u) && Cut(p.text, u + " has left the room.", 255);
      PartedStays(es, e, c, r, u);
    } else {
      var k, f, g :| Taken(es, k, c, r, f, g) && Cut(p.first, f, 31) && Cut(p.second, g, 31);
      Snoc(es, e, k);
      assert Taken(es + [e], k, c, r, f, g);
    }
  }

  lemma {:induction false} TaskStays(es: seq<Event>, e: Event, c: Conn, t: Task)
    requires TaskFrom(es, c, t)
    ensures TaskFrom(es + [e], c, t)
  {
    hide Entering, Leaving, PacketFrom;
    match t
    case DoEnter(r, u) => AskedStays(es, e, c, r, u);
    case DoLeave(r, u) => PartedStays(es, e, c, r, u);
    case DoCast(r, p) => PacketStays(es, e, c, r, p);
    case _ =>
  }

  lemma {:induction false} SentStays(es: seq<Event>, e: Event, x: Sent)
    requires SentFrom(es, x)
    ensures SentFrom(es + [e], x)
  {
    hide At, PacketFrom;
    var k :| Sends(es, k, x);
    Snoc(es, e, k);
    assert Sends(es + [e], k, x);
  }

  // ----- the variables of a session -----

  ghost predicate LoginsSeen(es: seq<Event>, s: State) {
    forall c: Conn, u: User {:trigger (c, u) in s.logins} :: (c, u) in s.logins <==> Login(c, u, true) in es
  }

  ghost predicate VarsSeen(es: seq<Event>, s: State) {
    forall c {:trigger s.sessions[c]} | c in s.sessions :: s.sessions[c].user == LastUser(es, c) && s.sessions[c].room == LastRoom(es, c)
  }

  /** Nothing is heard of a connection before it is accepted. */
  ghost predicate SilentBefore(es: seq<Event>, s: State) {
    && s.sessions.Keys <= s.streams.Keys
    && forall c {:trigger c in s.streams} | c !in s.streams :: LastUser(es, c) == "" && LastRoom(es, c) == -1
  }

  lemma {:induction false} LoginsStep(es: seq<Event>, s: State, e: Event)
    requires LoginsSeen(es, s) && Enabled(s, e)
    ensures LoginsSeen(es + [e], Next(s, e))
  {
    hide Entered, Left, Full, ChatPacket, ListPacket, Delivered, Told;
    forall c: Conn, u: User
      ensures (c, u) in Next(s, e).logins <==> Login(c, u, true) in es + [e]
    {
      assert (c, u) in s.logins <==> Login(c, u, true) in es;
    }
  }

  lemma {:induction false} LastSnoc(es: seq<Event>, e: Event, c: Conn)
    ensures LastUser(es + [e], c) == if e.Login? && e.conn == c && e.ok then e.user else LastUser(es, c)
    ensures LastRoom(es + [e], c) == if e.Name? && e.conn == c then e.room else LastRoom(es, c)
  {
    assert (es + [e])[..|es|] == es;
  }

  lemma {:induction false} VarsStep(es: seq<Event>, s: State, e: Event)
    requires VarsSeen(es, s) && SilentBefore(es, s) && Enabled(s, e)
    ensures VarsSeen(es + [e], Next(s, e)) && SilentBefore(es + [e], Next(s, e))
  {
    hide Entered, Left, Full, ChatPacket, ListPacket, LastUser, LastRoom, Delivered;
    var n := Next(s, e);
    forall c | c in n.sessions
      ensures n.sessions[c].user == LastUser(es + [e], c) && n.sessions[c].room == LastRoom(es + [e], c)
    {
      LastSnoc(es, e, c);
      if c in s.sessions {
        assert s.sessions[c].user == LastUser(es, c) && s.sessions[c].room == LastRoom(es, c);
      }
    }
    MoreKnown(s, e);
    forall c | c !in n.streams
      ensures LastUser(es + [e], c) == "" && LastRoom(es + [e], c) == -1
    {
      LastSnoc(es, e, c);
      assert c !in s.streams;
    }
  }

  // ----- one step -----

  /** The run has led to `s`, and `e` happens next. */
  ghost predicate Reaches(es: seq<Event>, s: State, e: Event) {
    RunOk(INIT, es) && After(INIT, es) == s && Enabled(s, e) && RunOk(INIT, es + [e])
  }

  lemma {:induction false} LastEvent(es: seq<Event>, e: Event)
    requires RunOk(INIT, es + [e])
    ensures RunOk(INIT, es) && Reaches(es, After(INIT, es), e) && After(INIT, es + [e]) == Next(After(INIT, es), e)
  {
    hide Next, Enabled, After, RunOk;
    var all := es + [e];
    OneStep(all, |es|);
    assert all[..|es|] == es && all[..|es| + 1] == all;
  }

  lemma {:induction false} Now(es: seq<Event>, s: State, e: Event)
    requires Reaches(es, s, e)
    ensures At(es, |es|) == At(es + [e], |es|) == s && At(es + [e], |es| + 1) == Next(s, e)
  {
    hide Next, Enabled, After, RunOk;
    var all := es + [e];
    OneStep(all, |es|);
    assert all[..|es|] == es && es[..|es|] == es && all[..|es| + 1] == all;
  }

  lemma {:induction false} PacketCut(sender: User, text: string, f: User, g: User)
    ensures var p := ChatPacket(sender, text); p.Chat? && Cut(p.sender, sender, 31) && Cut(p.text, text, 255)
    ensures var p := ListPacket(f, g); p.UserList? && Cut(p.first, f, 31) && Cut(p.second, g, 31)
    ensures ChatPacket("System", text).sender == "System"
  {
  }

  /** The tasks a request puts before its session. */
  lemma {:induction false} RequestTasks(es: seq<Event>, s: State, e: Event, t: Task)
    requires Reaches(es, s, e) && !e.Run? && VarsSeen(es, s)
    requires var n := Next(s, e); e.conn in n.sessions && t in n.sessions[e.conn].todo
    ensures TaskFrom(es + [e], e.conn, t)
  {
    hide After, RunOk, At, LastUser, LastRoom, Told, Cut, Clip;
    Now(es, s, e);
    var c, all, m := e.conn, es + [e], |es|;
    assert all[m] == e && all[..m] == es;
    assert e.Accept? || (s.sessions[c].user == LastUser(es, c) && s.sessions[c].room == LastRoom(es, c));
    match e
    case Name(_, r) =>
      assert Asked(all, m, c, r, s.sessions[c].user);
    case Say(_, text) =>
      assert Said(all, m, c, s.sessions[c].room, s.sessions[c].user, text);
      PacketCut(s.sessions[c].user, text, "", "");
    case Close(_) =>
      if t != DoDelete {
        assert Parted(all, m, c, s.sessions[c].room, s.sessions[c].user);
      }
    case _ =>
  }

  /** The entry that a step makes. */
  lemma {:induction false} EnterMakes(es: seq<Event>, s: State, e: Event, r: int, u: User)
    requires Reaches(es, s, e) && e.Run?
    requires e.conn in s.sessions && s.sessions[e.conn].todo != [] && s.sessions[e.conn].todo[0] == DoEnter(r, u)
             && !Full(s.rooms, r) && Entering(es, e.conn, r, u)
    ensures EntryFrom(es + [e], e.conn, r, u)
  {
    hide After, RunOk, At, LastUser, ChatPacket;
    Now(es, s, e);
    var all := es + [e];
    var m :| Asked(es, m, e.conn, r, u);
    Snoc(es, e, m);
    assert Asked(all, m, e.conn, r, u);
    assert Made(all, |es|, e.conn, r, u);
  }

  /** A list that a step takes. */
  lemma {:induction false} ListTakes(es: seq<Event>, s: State, e: Event, r: int)
    requires Reaches(es, s, e) && e.Run?
    requires RoomsOk(s.rooms) && r in s.rooms && Walk(s.rooms[r], e.first, e.second)
    ensures ListFrom(es + [e], e.conn, r, ListPacket(e.first, e.second))
  {
    hide After, RunOk, At, Walk, ListPacket, Cut;
    Now(es, s, e);
    assert 1 <= |s.rooms[r]| <= ROOM_LIMIT && "" !in s.rooms[r];
    ListNamesMembers(s.rooms[r], e.first, e.second);
    PacketCut("", "", e.first, e.second);
    assert Taken(es + [e], |es|, e.conn, r, e.first, e.second);
  }

  /** What a step adds to its session's tasks. */
  lemma {:induction false} TasksAdded(s: State, e: Event, t: Task)
    requires Enabled(s, e) && e.Run?
    ensures var n := Next(s, e);
            e.conn in n.sessions && t in n.sessions[e.conn].todo && t !in s.sessions[e.conn].todo ==>
              match s.sessions[e.conn].todo[0]
              case DoEnter(r, u) => !Full(s.rooms, r) && (t.DoList? || t == DoCast(r, ChatPacket("System", Joined(u))))
              case DoList(r) => r in s.rooms && Walk(s.rooms[r], e.first, e.second) && t == DoCast(r, ListPacket(e.first, e.second))
              case DoLeave(r, u) => t.DoList? || t == DoCast(r, ChatPacket("System", Gone(u)))
              case _ => false
  {
    hide Entered, Left, Full, Delivered, Told, ChatPacket, ListPacket, Walk;
    var rest := s.sessions[e.conn].todo[1..];
    assert forall x | x in rest :: x in s.sessions[e.conn].todo;
  }

  lemma {:induction false} NewTask(es: seq<Event>, s: State, e: Event, t: Task)
    requires Reaches(es, s, e) && e.Run? && RoomsOk(s.rooms)
    requires e.conn in s.sessions && s.sessions[e.conn].todo != [] && TaskFrom(es, e.conn, s.sessions[e.conn].todo[0])
    ensures var n := Next(s, e);
            e.conn in n.sessions && t in n.sessions[e.conn].todo && t !in s.sessions[e.conn].todo ==> TaskFrom(es + [e], e.conn, t)
  {
    hide After, RunOk, Next, Enabled, EntryFrom, Entering, Leaving, Cut, ChatPacket, ListPacket, Full, Walk, ListFrom;
    Now(es, s, e);
    var c := e.conn;
    TasksAdded(s, e, t);
    if c in Next(s, e).sessions && t in Next(s, e).sessions[c].todo && t !in s.sessions[c].todo {
      match s.sessions[c].todo[0]
      case DoEnter(r, u) =>
        EnterMakes(es, s, e, r, u);
        PacketCut("", Joined(u), "", "");
        PacketCut("System", Joined(u), "", "");
      case DoList(r) =>
        ListTakes(es, s, e, r);
      case DoLeave(r, u) =>
        PartedStays(es, e, c, r, u);
        PacketCut("System", Gone(u), "", "");
      case _ =>
    }
  }

  /** The tasks left and added by carrying one out. */
  lemma {:induction false} RunTasks(es: seq<Event>, s: State, e: Event, t: Task)
    requires Reaches(es, s, e) && e.Run?
    requires var n := Next(s, e);
             && RoomsOk(s.rooms) && e.conn in n.sessions && t in n.sessions[e.conn].todo
             && forall x | x in s.sessions[e.conn].todo :: TaskFrom(es, e.conn, x)
    ensures TaskFrom(es + [e], e.conn, t)
  {
    hide After, RunOk, Next, Enabled, TaskFrom;
    Now(es, s, e);
    var c := e.conn;
    StillThere(s, e);
    assert s.sessions[c].todo[0] in s.sessions[c].todo;
    if t in s.sessions[c].todo {
      TaskStays(es, e, c, t);
    } else {
      NewTask(es, s, e, t);
    }
  }

  lemma {:induction false} StillThere(s: State, e: Event)
    requires Enabled(s, e) && e.Run?
    ensures e.conn in s.sessions && s.sessions[e.conn].todo != []
  {
  }

  // ----- tasks, entries and broadcasts -----

  ghost predicate TasksSeen(es: seq<Event>, s: State) {
    forall c {:trigger s.sessions[c]} | c in s.sessions :: forall t | t in s.sessions[c].todo :: TaskFrom(es, c, t)
  }

  ghost predicate EntriesSeen(es: seq<Event>, s: State) {
    forall r, u {:trigger s.rooms[r][u]} | r in s.rooms && u in s.rooms[r] :: EntryFrom(es, s.rooms[r][u], r, u)
  }

  ghost predicate LogSeen(es: seq<Event>, s: State) {
    forall x {:trigger SentFrom(es, x)} | x in s.log :: SentFrom(es, x)
  }

  lemma {:induction false} TasksStep(es: seq<Event>, s: State, e: Event)
    requires Reaches(es, s, e) && VarsSeen(es, s) && TasksSeen(es, s) && RoomsOk(s.rooms)
    ensures TasksSeen(es + [e], Next(s, e))
  {
    hide Reaches, VarsSeen, RoomsOk, TaskFrom, Next;
    ReachesEnabled(es, s, e);
    var n := Next(s, e);
    forall c, t | c in n.sessions && t in n.sessions[c].todo
      ensures TaskFrom(es + [e], c, t)
    {
      if c != e.conn {
        OtherSessions(s, e, c);
        TaskStays(es, e, c, t);
      } else if e.Run? {
        StillThere(s, e);
        RunTasks(es, s, e, t);
      } else {
        RequestTasks(es, s, e, t);
      }
    }
  }

  lemma {:induction false} ReachesEnabled(es: seq<Event>, s: State, e: Event)
    requires Reaches(es, s, e)
    ensures Enabled(s, e)
  {
  }

  lemma {:induction false} EntriesStep(es: seq<Event>, s: State, e: Event)
    requires Reaches(es, s, e) && TasksSeen(es, s) && EntriesSeen(es, s)
    ensures EntriesSeen(es + [e], Next(s, e))
  {
    hide Reaches, Next, Full, EntryFrom, TasksSeen, Enabled;
    ReachesEnabled(es, s, e);
    var n := Next(s, e);
    RoomsStep(s, e);
    if e.Run? {
      NextTaskSeen(es, s, e);
    }
    forall r, u | r in n.rooms && u in n.rooms[r]
      ensures EntryFrom(es + [e], n.rooms[r][u], r, u)
    {
      if r in s.rooms && u in s.rooms[r] && n.rooms[r][u] == s.rooms[r][u] {
        assert EntryFrom(es, s.rooms[r][u], r, u);
        EntryStays(es, e, s.rooms[r][u], r, u);
      } else {
        EnterMakes(es, s, e, r, u);
      }
    }
  }

  lemma {:induction false} NextTaskSeen(es: seq<Event>, s: State, e: Event)
    requires TasksSeen(es, s) && Enabled(s, e) && e.Run?
    ensures e.conn in s.sessions && s.sessions[e.conn].todo != [] && TaskFrom(es, e.conn, s.sessions[e.conn].todo[0])
  {
    hide TaskFrom;
    assert s.sessions[e.conn].todo[0] in s.sessions[e.conn].todo;
  }

  /** What a step logs is the packet it was to cast. */
  lemma {:induction false} Logged(s: State, e: Event)
    requires Enabled(s, e)
    ensures var n := Next(s, e);
            n.log == s.log || (e.Run? && e.conn in s.sessions && s.sessions[e.conn].todo != [] && s.sessions[e.conn].todo[0].DoCast? &&
                               var t := s.sessions[e.conn].todo[0];
                               t.room in s.rooms && n.log == s.log + [Sent(t.room, t.packet, s.rooms[t.room])])
  {
    hide Entered, Left, Full, ChatPacket, ListPacket, Delivered, Told;
  }

  lemma {:induction false} BroadcastsStep(es: seq<Event>, s: State, e: Event)
    requires Reaches(es, s, e) && TasksSeen(es, s) && LogSeen(es, s)
    ensures LogSeen(es + [e], Next(s, e))
  {
    hide Reaches, Next, SentFrom, TasksSeen, Enabled, PacketFrom, At;
    ReachesEnabled(es, s, e);
    var n := Next(s, e);
    Logged(s, e);
    forall x | x in n.log
      ensures SentFrom(es + [e], x)
    {
      if x in s.log {
        SentStays(es, e, x);
      } else {
        NextTaskSeen(es, s, e);
        Casts(es, s, e, x);
      }
    }
  }

  lemma {:induction false} Casts(es: seq<Event>, s: State, e: Event, x: Sent)
    requires Reaches(es, s, e) && e.Run? && x.room in s.rooms && x.members == s.rooms[x.room] && PacketFrom(es, e.conn, x.room, x.packet)
    ensures SentFrom(es + [e], x)
  {
    hide PacketFrom, At;
    Now(es, s, e);
    assert (es + [e])[..|es|] == es;
    assert Sends(es + [e], |es|, x);
  }

  // ----- replies -----

  /** The replies in a stream. */
  function Replies(s: seq<Message>): seq<string> {
    if s == [] then []
    else Replies(s[..|s| - 1]) + match s[|s| - 1]
                                 case Room(_) => []
                                 case Reply(text) => [text]
  }

  /** The session's next step finds the room with two members. */
  predicate TurnedAway(s: State, c: Conn) {
    c in s.sessions && s.sessions[c].todo != [] && s.sessions[c].todo[0].DoEnter? &&
    var r := s.sessions[c].todo[0].room;
    r in s.rooms && |s.rooms[r]| == 2
  }

  /** What a session is told: how each login went, and that a room is full. */
  ghost function Answers(es: seq<Event>, c: Conn): seq<string> {
    if es == [] then []
    else
      var init, e := es[..|es| - 1], es[|es| - 1];
      Answers(init, c) +
      if e.conn != c then []
      else if e.Login? then [if e.ok then "Login Success!" else "Login Failed!"]
      else if e.Run? && TurnedAway(At(es, |init|), c) then ["Room is full!"]
      else []
  }

  ghost predicate RepliesSeen(es: seq<Event>, s: State) {
    forall c: Conn {:trigger Answers(es, c)} :: Answers(es, c) == if c in s.streams then Replies(s.streams[c]) else []
  }

  lemma {:induction false} RepliesSnoc(s: seq<Message>, x: Message)
    ensures Replies(s + [x]) == Replies(s) + if x.Reply? then [x.text] else []
  {
    assert (s + [x])[..|s|] == s;
  }

  lemma {:induction false} RepliesRepeat(s: seq<Message>, p: Packet, n: nat)
    ensures Replies(s + Repeat(Room(p), n)) == Replies(s)
  {
    hide Replies;
    if n == 0 {
      assert s + Repeat(Room(p), 0) == s;
    } else {
      RepliesRepeat(s, p, n - 1);
      RepeatSnoc(Room(p), n - 1);
      assert s + Repeat(Room(p), n) == s + Repeat(Room(p), n - 1) + [Room(p)];
      RepliesSnoc(s + Repeat(Room(p), n - 1), Room(p));
    }
  }

  /** What a step writes to a stream. */
  lemma {:induction false} Written(s: State, e: Event, c: Conn)
    requires Enabled(s, e) && RoomsOk(s.rooms) && c in s.streams && s.sessions.Keys <= s.streams.Keys
    ensures var was, n := s.streams[c], Next(s, e);
            && c in n.streams
            && if e.conn == c && e.Login? then n.streams[c] == was + [Reply(if e.ok then "Login Success!" else "Login Failed!")]
               else if e.conn == c && e.Run? && TurnedAway(s, c) then n.streams[c] == was + [Reply("Room is full!")]
               else n.streams[c] == was || exists p, k: nat {:trigger Repeat(Room(p), k)} :: n.streams[c] == was + Repeat(Room(p), k)
  {
    hide Entered, Left, ChatPacket, ListPacket, Seats, Repeat;
    if e.Run? && s.sessions[e.conn].todo[0].DoEnter? {
      var r := s.sessions[e.conn].todo[0].room;
      assert r in s.rooms ==> 1 <= |s.rooms[r]| <= ROOM_LIMIT;
    }
  }

  lemma {:induction false} RepliesStep(es: seq<Event>, s: State, e: Event)
    requires Reaches(es, s, e) && RepliesSeen(es, s) && RoomsOk(s.rooms) && s.sessions.Keys <= s.streams.Keys
    ensures RepliesSeen(es + [e], Next(s, e))
  {
    hide Next, Enabled, Answers, Replies, TurnedAway, Repeat, RoomsOk, At;
    var all, n := es + [e], Next(s, e);
    Now(es, s, e);
    forall c: Conn
      ensures Answers(all, c) == if c in n.streams then Replies(n.streams[c]) else []
    {
      AnswersSnoc(es, e, c);
      assert Answers(es, c) == if c in s.streams then Replies(s.streams[c]) else [];
      if c in s.streams {
        Written(s, e, c);
        RepliesWritten(s, e, c);
      } else {
        NotYet(s, e, c);
      }
    }
  }

  lemma {:induction false} AnswersSnoc(es: seq<Event>, e: Event, c: Conn)
    ensures Answers(es + [e], c) ==
            Answers(es, c) + if e.conn != c then []
                             else if e.Login? then [if e.ok then "Login Success!" else "Login Failed!"]
                             else if e.Run? && TurnedAway(At(es + [e], |es|), c) then ["Room is full!"]
                             else []
  {
    assert (es + [e])[..|es|] == es;
  }

  lemma {:induction false} RepliesWritten(s: State, e: Event, c: Conn)
    requires Enabled(s, e) && RoomsOk(s.rooms) && c in s.streams && s.sessions.Keys <= s.streams.Keys
    ensures c in Next(s, e).streams
    ensures Replies(Next(s, e).streams[c]) ==
            Replies(s.streams[c]) + if e.conn != c then []
                                    else if e.Login? then [if e.ok then "Login Success!" else "Login Failed!"]
                                    else if e.Run? && TurnedAway(s, c) then ["Room is full!"]
                                    else []
  {
    hide Next, Enabled, Replies, TurnedAway, Repeat, RoomsOk;
    Written(s, e, c);
    var was, now := s.streams[c], Next(s, e).streams[c];
    if e.conn == c && e.Login? {
      RepliesSnoc(was, Reply(if e.ok then "Login Success!" else "Login Failed!"));
    } else if e.conn == c && e.Run? && TurnedAway(s, c) {
      RepliesSnoc(was, Reply("Room is full!"));
    } else if now != was {
      var p, k: nat :| now == was + Repeat(Room(p), k);
      RepliesRepeat(was, p, k);
    }
  }

  lemma {:induction false} NotYet(s: State, e: Event, c: Conn)
    requires Enabled(s, e) && c !in s.streams && s.sessions.Keys <= s.streams.Keys
    ensures c in Next(s, e).streams ==> Next(s, e).streams[c] == []
    ensures e.conn == c ==> e.Accept?
    ensures Replies([]) == []
  {
    hide Entered, Left, Full, ChatPacket, ListPacket;
  }

  // ----- whole runs -----

  /** Everything a reached state holds is traced back to the events of the run. */
  ghost predicate Traced(es: seq<Event>, s: State) {
    && LoginsSeen(es, s) && VarsSeen(es, s) && TasksSeen(es, s) && EntriesSeen(es, s) && LogSeen(es, s) && RepliesSeen(es, s)
    && SilentBefore(es, s)
  }

  lemma {:induction false} TracedAtFirst()
    ensures Traced([], INIT)
  {
    assert forall c: Conn, u: User :: (c, u) !in INIT.logins;
    assert forall c: Conn :: Answers([], c) == [];
  }

  lemma {:induction false} RunTraced(es: seq<Event>)
    requires RunOk(INIT, es)
    ensures Traced(es, After(INIT, es))
    decreases |es|
  {
    hide LoginsSeen, VarsSeen, TasksSeen, EntriesSeen, LogSeen, RepliesSeen, SilentBefore, Invariant, Next, Enabled, Reaches, RunOk;
    if es == [] {
      TracedAtFirst();
    } else {
      var init, e := es[..|es| - 1], es[|es| - 1];
      assert es == init + [e];
      LastEvent(init, e);
      RunTraced(init);
      var s := After(INIT, init);
      EveryRun(init);
      InvariantParts(init, s);
      ReachesEnabled(init, s, e);
      LoginsStep(init, s, e);
      VarsStep(init, s, e);
      TasksStep(init, s, e);
      EntriesStep(init, s, e);
      BroadcastsStep(init, s, e);
      RepliesStep(init, s, e);
    }
  }

  lemma {:induction false} InvariantParts(es: seq<Event>, s: State)
    requires Invariant(s) && SilentBefore(es, s)
    ensures RoomsOk(s.rooms) && s.sessions.Keys <= s.streams.Keys
  {
  }

  /** In every run: who has logged in, whom and where a session takes itself to be. A login that failed counts for
      nothing. */
  lemma {:induction false} WhoAndWhere(es: seq<Event>, c: Conn, u: User)
    requires RunOk(INIT, es)
    ensures var s := After(INIT, es);
            && ((c, u) in s.logins <==> Login(c, u, true) in es)
            && (c in s.sessions ==> s.sessions[c].user == LastUser(es, c) && s.sessions[c].room == LastRoom(es, c))
    ensures LastUser(es, c) != "" ==> Login(c, LastUser(es, c), true) in es
  {
    hide After, RunOk, TasksSeen, EntriesSeen, LogSeen, RepliesSeen;
    RunTraced(es);
    LastUserSeen(es, c);
    assert (c, u) in After(INIT, es).logins <==> Login(c, u, true) in es;
  }

  /** In every run: each entry was made for a connection that had first logged in under that name, with success,
      and had then asked to enter that room; and when it was made, the room had less than two members. */
  lemma {:induction false} EntriesEarned(es: seq<Event>, r: int, u: User) returns (i: nat, m: nat, k: nat)
    requires RunOk(INIT, es) && r in After(INIT, es).rooms && u in After(INIT, es).rooms[r]
    ensures var c := After(INIT, es).rooms[r][u];
            && i < m < k < |es| && u != "" && es[i] == Login(c, u, true) && es[m] == Name(c, r)
            && es[k].Run? && es[k].conn == c && (r in At(es, k).rooms ==> |At(es, k).rooms[r]| < 2)
            && r in At(es, k + 1).rooms && u in At(es, k + 1).rooms[r] && At(es, k + 1).rooms[r][u] == c
  {
    hide After, RunOk, At, LastUser, LoginsSeen, VarsSeen, TasksSeen, LogSeen, RepliesSeen, SilentBefore;
    RunTraced(es);
    var c := After(INIT, es).rooms[r][u];
    assert EntryFrom(es, c, r, u);
    m, k :| Asked(es, m, c, r, u) && m < k && Made(es, k, c, r, u);
    LastUserSeen(es[..m], c);
    i :| 0 <= i < m && es[..m][i] == Login(c, u, true);
  }

  /** In every run: each broadcast goes to the members the room has at that step, and carries what somebody in it
      said, or word of somebody coming or going, or the names of its members. */
  lemma {:induction false} BroadcastsTraced(es: seq<Event>, x: Sent)
    requires RunOk(INIT, es) && x in After(INIT, es).log
    ensures SentFrom(es, x)
  {
    hide After, RunOk, LoginsSeen, VarsSeen, TasksSeen, EntriesSeen, RepliesSeen, SilentBefore, SentFrom;
    RunTraced(es);
    assert SentFrom(es, x);
  }

  /** In every run: the replies a connection has got. */
  lemma {:induction false} RepliesTraced(es: seq<Event>, c: Conn)
    requires RunOk(INIT, es) && c in After(INIT, es).streams
    ensures Replies(After(INIT, es).streams[c]) == Answers(es, c)
  {
    hide After, RunOk, LoginsSeen, VarsSeen, TasksSeen, EntriesSeen, LogSeen, SilentBefore, Replies;
    RunTraced(es);
    assert Answers(es, c) == Replies(After(INIT, es).streams[c]);
  }

  // ----- what a request leads to -----

  /** The others do anything, and then the session carries out its next task: the states right before and after. */
  datatype Pass = Pass(others: seq<Event>, first: User, second: User, m: State, n: State)

  ghost predicate Turn(s: State, c: Conn, t: Pass) {
    && RunOk(s, t.others) && (forall e | e in t.others :: e.conn != c)
    && t.m == After(s, t.others) && Enabled(t.m, Run(c, t.first, t.second)) && t.n == Next(t.m, Run(c, t.first, t.second))
  }

  /** One turn after the other. */
  ghost predicate Turns(s: State, c: Conn, ts: seq<Pass>)
    decreases |ts|
  {
    ts == [] || (Turn(s, c, ts[0]) && Turns(ts[0].n, c, ts[1..]))
  }

  lemma {:induction false} FourTurns(s: State, c: Conn, ts: seq<Pass>)
    requires Turns(s, c, ts) && |ts| == 4
    ensures Turn(s, c, ts[0]) && Turn(ts[0].n, c, ts[1]) && Turn(ts[1].n, c, ts[2]) && Turn(ts[2].n, c, ts[3])
  {
    hide Turn;
    var a, b := ts[1..], ts[1..][1..];
    assert a[0] == ts[1] && b[0] == ts[2] && b[1..][0] == ts[3];
    assert Turns(ts[0].n, c, a) && Turns(ts[1].n, c, b) && Turns(ts[2].n, c, b[1..]);
  }

  /** The room, if it exists, is sent the packet. */
  predicate Adds(t: Pass, r: int, p: Packet) {
    t.n.log == if r in t.m.rooms then t.m.log + [Sent(r, p, t.m.rooms[r])] else t.m.log
  }

  ghost predicate Chats(t: Pass, r: int, sender: string, text: string) {
    exists p: Packet {:trigger Adds(t, r, p)} :: Adds(t, r, p) && p.Chat? && Cut(p.sender, sender, 31) && Cut(p.text, text, 255)
  }

  ghost predicate Lists(t: Pass, r: int, first: User, second: User) {
    exists p: Packet {:trigger Adds(t, r, p)} :: Adds(t, r, p) && p.UserList? && Cut(p.first, first, 31) && Cut(p.second, second, 31)
  }

  lemma {:induction false} TwoNames(members: Members)
    requires |members| >= 2
    ensures exists f, g :: f in members && g in members && f != g
  {
    KeysCount(members);
    var f :| f in members.Keys;
    assert |members.Keys - {f}| == |members.Keys| - 1;
    var g :| g in members.Keys - {f};
    assert f in members && g in members && f != g;
  }

  /** A session that has something to do can always do it: no other session can block it. */
  lemma {:induction false} TurnComes(s: State, c: Conn, es: seq<Event>)
    requires RunOk(s, es) && (forall e | e in es :: e.conn != c) && c in s.sessions && s.sessions[c].todo != []
    ensures exists f, g {:trigger Run(c, f, g)} :: Enabled(After(s, es), Run(c, f, g))
  {
    hide After, RunOk;
    OthersRun(s, es, c);
    var m, t := After(s, es), s.sessions[c].todo[0];
    if t.DoList? && t.room in m.rooms && |m.rooms[t.room]| > 0 {
      var members := m.rooms[t.room];
      if |members| == 1 {
        KeysCount(members);
        var f :| f in members.Keys;
        assert Enabled(m, Run(c, f, ""));
      } else {
        TwoNames(members);
        var f, g :| f in members && g in members && f != g;
        assert Enabled(m, Run(c, f, g));
      }
    } else {
      assert Enabled(m, Run(c, "", ""));
    }
  }

  lemma {:induction false} AtTurn(s: State, c: Conn, t: Pass)
    requires Turn(s, c, t) && c in s.sessions
    ensures c in t.m.sessions && t.m.sessions[c] == s.sessions[c] && t.m.sessions[c].todo != []
    ensures t.n == Perform(t.m, c, t.first, t.second)
  {
    hide After, RunOk, Perform;
    OthersRun(s, t.others, c);
  }

  /** Carrying out a cast. */
  lemma {:induction false} CastTurn(s: State, c: Conn, t: Pass, r: int, p: Packet, rest: seq<Task>)
    requires Turn(s, c, t) && c in s.sessions && s.sessions[c].todo == [DoCast(r, p)] + rest
    ensures Adds(t, r, p) && t.n.rooms == t.m.rooms && c in t.n.sessions && t.n.sessions[c] == s.sessions[c].(todo := rest)
  {
    hide Turn, Delivered;
    AtTurn(s, c, t);
    assert s.sessions[c].todo[0] == DoCast(r, p) && s.sessions[c].todo[1..] == rest;
  }

  /** Taking the members of a room. */
  lemma {:induction false} ListTurn(s: State, c: Conn, t: Pass, r: int, rest: seq<Task>)
    requires Turn(s, c, t) && c in s.sessions && s.sessions[c].todo == [DoList(r)] + rest
    ensures t.n.rooms == t.m.rooms && t.n.log == t.m.log && c in t.n.sessions
    ensures t.n.sessions[c] == s.sessions[c].(todo := if r in t.m.rooms then [DoCast(r, ListPacket(t.first, t.second))] + rest else rest)
  {
    hide Turn, ListPacket;
    AtTurn(s, c, t);
    assert s.sessions[c].todo[0] == DoList(r) && s.sessions[c].todo[1..] == rest;
  }

  /** What a session says is broadcast in its room, once, under its name. */
  lemma {:induction false} Speaks(s: State, c: Conn, text: string, t: Pass)
    requires c in s.sessions && s.sessions[c].todo == [] && s.sessions[c].room != -1 && s.sessions[c].user != ""
    requires Turn(Next(s, Say(c, text)), c, t)
    ensures Chats(t, s.sessions[c].room, s.sessions[c].user, text)
    ensures t.n.rooms == t.m.rooms && c in t.n.sessions && t.n.sessions[c] == s.sessions[c]
  {
    hide Turn, ChatPacket, Cut, Adds;
    var x := s.sessions[c];
    var p := ChatPacket(x.user, text);
    PacketCut(x.user, text, "", "");
    assert [DoCast(x.room, p)] + [] == [DoCast(x.room, p)];
    CastTurn(Next(s, Say(c, text)), c, t, x.room, p, []);
  }

  /** Asking to enter a room, by a session that is logged in: if two are in it, nothing happens to the rooms;
      otherwise the entry is made, and no other is changed. */
  lemma {:induction false} Enters(s: State, c: Conn, r: int, t: Pass)
    requires c in s.sessions && s.sessions[c].todo == [] && s.sessions[c].user != ""
    requires Turn(Next(s, Name(c, r)), c, t)
    ensures var x, m, n := s.sessions[c], t.m.rooms, t.n.rooms;
            if r in m && |m[r]| >= 2 then n == m && c in t.n.sessions && t.n.sessions[c].todo == []
            else
              && r in n && x.user in n[r] && n[r][x.user] == c
              && (forall v | v != x.user :: v in n[r] <==> r in m && v in m[r])
              && (forall v | v != x.user && v in n[r] :: n[r][v] == m[r][v])
              && (forall q | q != r :: q in n <==> q in m) && (forall q | q != r && q in n :: n[q] == m[q])
              && c in t.n.sessions && t.n.sessions[c].todo == [DoList(r)] + [DoCast(r, ChatPacket("System", Joined(x.user)))]
    ensures t.n.log == t.m.log && c in t.n.sessions && t.n.sessions[c].user == s.sessions[c].user && t.n.sessions[c].room == r
  {
    hide ChatPacket, Turn, Joined;
    var x := s.sessions[c];
    AtTurn(Next(s, Name(c, r)), c, t);
    assert t.m.sessions[c].todo == [DoEnter(r, x.user)] && [DoEnter(r, x.user)][1..] == [];
  }

  /** Then the room gets the list of its members, and after it word of who has come. */
  lemma {:induction false} EnterAnnounced(s: State, c: Conn, r: int, ts: seq<Pass>)
    requires c in s.sessions && s.sessions[c].todo == [] && s.sessions[c].user != ""
    requires |ts| == 4 && Turns(Next(s, Name(c, r)), c, ts)
    requires (r in ts[0].m.rooms ==> |ts[0].m.rooms[r]| < 2) && r in ts[1].m.rooms
    ensures ts[1].n.rooms == ts[1].m.rooms && ts[1].n.log == ts[1].m.log
    ensures Lists(ts[2], r, ts[1].first, ts[1].second) && Chats(ts[3], r, "System", s.sessions[c].user + " has entered the room.")
    ensures c in ts[3].n.sessions && var x := ts[3].n.sessions[c]; x.user == s.sessions[c].user && x.room == r && x.todo == []
  {
    hide Turn, Turns, ChatPacket, ListPacket, Cut, Adds, Next;
    var u := s.sessions[c].user;
    var list, word := ListPacket(ts[1].first, ts[1].second), ChatPacket("System", Joined(u));
    FourTurns(Next(s, Name(c, r)), c, ts);
    Enters(s, c, r, ts[0]);
    ListTurn(ts[0].n, c, ts[1], r, [DoCast(r, word)]);
    CastTurn(ts[1].n, c, ts[2], r, list, [DoCast(r, word)]);
    assert [DoCast(r, word)] + [] == [DoCast(r, word)];
    CastTurn(ts[2].n, c, ts[3], r, word, []);
    PacketCut("System", Joined(u), ts[1].first, ts[1].second);
  }

  /** Closing, for a session that was in a room: the room gets word of who has gone, and after it, if anybody is
      left, the list of its members; in the end the session is no more. */
  lemma {:induction false} LeaveAnnounced(s: State, c: Conn, ts: seq<Pass>)
    requires c in s.sessions && s.sessions[c].todo == [] && s.sessions[c].user != "" && s.sessions[c].room != -1
    requires |ts| == 4 && Turns(Next(s, Close(c)), c, ts)
    ensures var r := s.sessions[c].room;
            && Chats(ts[1], r, "System", s.sessions[c].user + " has left the room.")
            && ts[2].n.log == ts[2].m.log
            && if r in ts[2].m.rooms then Lists(ts[3], r, ts[2].first, ts[2].second) && c in ts[3].n.sessions && ts[3].n.sessions[c].todo == [DoDelete]
               else ts[3].n.log == ts[3].m.log && c !in ts[3].n.sessions
  {
    hide Turn, Turns, ChatPacket, ListPacket, Cut, Adds, Next;
    var r, u := s.sessions[c].room, s.sessions[c].user;
    var list, word := ListPacket(ts[2].first, ts[2].second), ChatPacket("System", Gone(u));
    FourTurns(Next(s, Close(c)), c, ts);
    LeaveTurn(s, c, ts[0]);
    CastTurn(ts[0].n, c, ts[1], r, word, [DoList(r), DoDelete]);
    assert [DoList(r), DoDelete] == [DoList(r)] + [DoDelete];
    ListTurn(ts[1].n, c, ts[2], r, [DoDelete]);
    PacketCut("System", Gone(u), ts[2].first, ts[2].second);
    if r in ts[2].m.rooms {
      CastTurn(ts[2].n, c, ts[3], r, list, [DoDelete]);
    } else {
      DeleteTurn(ts[2].n, c, ts[3]);
    }
  }

  lemma {:induction false} LeaveTurn(s: State, c: Conn, t: Pass)
    requires c in s.sessions && s.sessions[c].todo == [] && s.sessions[c].user != "" && s.sessions[c].room != -1
    requires Turn(Next(s, Close(c)), c, t)
    ensures var x := s.sessions[c];
            c in t.n.sessions && t.n.sessions[c].todo == [DoCast(x.room, ChatPacket("System", Gone(x.user)))] + [DoList(x.room), DoDelete]
  {
    hide ChatPacket, Turn, Gone, Left;
    var x := s.sessions[c];
    AtTurn(Next(s, Close(c)), c, t);
    assert t.m.sessions[c].todo == [DoLeave(x.room, x.user), DoDelete];
    assert t.m.sessions[c].todo[1..] == [DoDelete];
  }

  lemma {:induction false} DeleteTurn(s: State, c: Conn, t: Pass)
    requires Turn(s, c, t) && c in s.sessions && s.sessions[c].todo == [DoDelete]
    ensures t.n.log == t.m.log && c !in t.n.sessions
  {
    hide Turn;
    AtTurn(s, c, t);
  }
}
