/**
 `ConnectionManager` of gateway/ws/manager.py. Each lock-protected block is one atomic
 operation; whatever other tasks or threads do while a broadcast awaits a send is an argument.
 */
module RoomManagement {
  import opened Sequences

  datatype ConnId = ConnId(text: string)
  datatype Room = Room(name: string)
  datatype Info = Info(userId: string, rooms: seq<Room>)
  type Socket = int

  /** The connections dictionary comes with the order of its keys, which broadcasts follow. */
  datatype State = State(connections: map<ConnId, Socket>, order: seq<ConnId>,
                         info: map<ConnId, Info>, rooms: map<Room, set<ConnId>>)
  {
    function Members(room: Room): set<ConnId> {
      if room in rooms then rooms[room] else {}
    }
  }

  datatype Op =
    | Connect(id: ConnId, socket: Socket, userId: string)
    | Disconnect(id: ConnId)
    | Join(id: ConnId, room: Room)
    | Leave(id: ConnId, room: Room)

  // ---------------------------------------------------------------------------
  // The room relation
  // ---------------------------------------------------------------------------

  ghost predicate MemberListed(s: State, id: ConnId, room: Room)
    requires id in s.info
  {
    room in s.info[id].rooms <==> id in s.Members(room)
  }

  /** Every connection has its info and the other way round. */
  ghost predicate Paired(s: State) {
    InOrder(s.order, s.connections.Keys) && InOrder(s.order, s.info.Keys)
  }

  lemma PairedKeys(s: State)
    requires Paired(s)
    ensures s.connections.Keys == s.info.Keys
  {
    InOrderIff(s.order, s.connections.Keys);
    InOrderIff(s.order, s.info.Keys);
  }

  /**
   A connection is in a room's set exactly when the room is in its `rooms` tuple; members
   are live, no room is empty and no tuple repeats a room.
   */
  ghost predicate Related(s: State) {
    Paired(s) && RoomsLive(s) && NoRepeats(s) && AllListed(s)
  }

  ghost predicate RoomsLive(s: State) {
    forall room :: room in s.rooms ==> s.rooms[room] != {} && s.rooms[room] <= s.connections.Keys
  }

  ghost predicate NoRepeats(s: State) {
    forall id :: id in s.info ==> Distinct(s.info[id].rooms)
  }

  ghost predicate AllListed(s: State) {
    forall id, room :: id in s.info ==> MemberListed(s, id, room)
  }

  // ---------------------------------------------------------------------------
  // The atomic operations
  // ---------------------------------------------------------------------------

  function Without(rooms: seq<Room>, room: Room): (r: seq<Room>)
    ensures forall x :: x in r <==> x in rooms && x != room
    ensures Distinct(rooms) ==> Distinct(r)
  {
    if rooms == [] then []
    else
      var front, last := rooms[..|rooms| - 1], rooms[|rooms| - 1];
      var rest := Without(front, room);
      assert rooms == front + [last];
      assert Distinct(rooms) ==> last !in front;
      if last == room then rest else rest + [last]
  }

  /** Every room without `id`, and no empty room. */
  function RoomsWithout(rooms: map<Room, set<ConnId>>, id: ConnId): map<Room, set<ConnId>> {
    map room | room in rooms && rooms[room] - {id} != {} :: rooms[room] - {id}
  }

  /** The key order after a connect: a known id keeps its place. */
  function PlusId(s: State, id: ConnId): seq<ConnId> {
    if id in s.connections then s.order else s.order + [id]
  }

  function Apply(s: State, op: Op): State {
    match op
    case Connect(id, socket, userId) =>
      s.(connections := s.connections[id := socket], order := PlusId(s, id), info := s.info[id := Info(userId, [])])
    case Disconnect(id) =>
      if id !in s.connections then s
      else
        var left := s.connections - {id};
        State(left, Restrict(s.order, left.Keys), s.info - {id}, RoomsWithout(s.rooms, id))
    case Join(id, room) =>
      if id !in s.connections || id !in s.info then s
      else
        var current := s.info[id];
        s.(rooms := s.rooms[room := s.Members(room) + {id}],
           info := if room in current.rooms then s.info else s.info[id := current.(rooms := current.rooms + [room])])
    case Leave(id, room) =>
      if room !in s.rooms then s
      else
        var left := s.rooms[room] - {id};
        s.(rooms := if left == {} then s.rooms - {room} else s.rooms[room := left],
           info := if id in s.info && room in s.info[id].rooms
                   then s.info[id := s.info[id].(rooms := Without(s.info[id].rooms, room))] else s.info)
  }

  /** Who is in which room, and who is connected, after an operation: everybody as before, except as the operation says. */
  lemma EffectOf(s: State, op: Op, id: ConnId, room: Room)
    requires Related(s)
    ensures id in Apply(s, op).connections <==> (id in s.connections && op != Disconnect(id)) || (op.Connect? && op.id == id)
    ensures id in Apply(s, op).Members(room) <==>
              || (op == Join(id, room) && id in s.connections)
              || (id in s.Members(room) && op != Leave(id, room) && op != Disconnect(id))
  {
    PairedKeys(s);
    if op.Disconnect? && room in s.rooms && id != op.id && id in s.rooms[room] {
      assert id in s.rooms[room] - {op.id};
    } else if op.Leave? && op.room == room && room in s.rooms && id != op.id && id in s.rooms[room] {
      assert id in s.rooms[room] - {op.id};
    }
  }

  /** Leaving a room takes it out of the tuple and keeps the other rooms in their order. */
  lemma {:induction false} WithoutConcat(a: seq<Room>, b: seq<Room>, room: Room)
    ensures Without(a + b, room) == Without(a, room) + Without(b, room)
  {
    if b == [] {
      assert a + b == a;
    } else {
      WithoutConcat(a, b[..|b| - 1], room);
      assert (a + b)[..|a + b| - 1] == a + b[..|b| - 1];
    }
  }

  lemma WithoutOne(r: Room, room: Room)
    ensures Without([r], room) == if r == room then [] else [r]
  {
    assert [r][..0] == [];
  }

  /** A live connection keeps the socket and user of its connect, and its tuple changes only as the operation says. */
  lemma RecordAfter(s: State, op: Op, id: ConnId)
    requires Related(s) && id in Apply(s, op).connections
    ensures id in Apply(s, op).info
    ensures
      var t := Apply(s, op);
      if op.Connect? && op.id == id
      then t.connections[id] == op.socket && t.info[id] == Info(op.userId, [])
      else
        && id in s.info && t.connections[id] == s.connections[id] && t.info[id].userId == s.info[id].userId
        && t.info[id].rooms ==
           match op
           case Join(c, room) => if c == id && room !in s.info[id].rooms then s.info[id].rooms + [room] else s.info[id].rooms
           case Leave(c, room) => if c == id then Without(s.info[id].rooms, room) else s.info[id].rooms
           case _ => s.info[id].rooms
  {
    PairedKeys(s);
    if op.Leave? && op.id == id && op.room !in s.rooms {
      assert MemberListed(s, id, op.room);
      WithoutAbsent(s.info[id].rooms, op.room);
    } else if op.Leave? && op.id == id && op.room !in s.info[id].rooms {
      WithoutAbsent(s.info[id].rooms, op.room);
    }
  }

  lemma {:induction false} WithoutAbsent(rooms: seq<Room>, room: Room)
    requires room !in rooms
    ensures Without(rooms, room) == rooms
  {
    if rooms != [] {
      WithoutAbsent(rooms[..|rooms| - 1], room);
    }
  }

  /** Connections are kept in the order in which they were first made. */
  lemma OrderAfter(s: State, op: Op, a: ConnId, b: ConnId)
    requires Related(s)
    ensures Before(Apply(s, op).order, a, b) <==>
            || (Before(s.order, a, b) && op != Disconnect(a) && op != Disconnect(b))
            || (op.Connect? && op.id == b && b !in s.connections && a in s.connections)
  {
    PairedKeys(s);
    InOrderIff(s.order, s.connections.Keys);
    forall id ensures id in s.order <==> id in s.connections {
      assert id in ToSet(s.order) <==> id in s.connections.Keys;
    }
    if op.Connect? && op.id !in s.connections {
      BeforeSnoc(s.order, op.id, a, b);
    } else if op.Disconnect? && op.id in s.connections {
      RestrictKeepsBefore(s.order, (s.connections - {op.id}).Keys, a, b);
      BeforeMeansIn(s.order, a, b);
    } else {
      BeforeMeansIn(s.order, a, b);
    }
  }

  lemma BeforeMeansIn(order: seq<ConnId>, a: ConnId, b: ConnId)
    ensures Before(order, a, b) ==> a in order && b in order
  {
  }

  lemma DisconnectKeeps(s: State, id: ConnId)
    requires Related(s)
    ensures Related(Apply(s, Disconnect(id)))
  {
    var t := Apply(s, Disconnect(id));
    PairedKeys(s);
    ApplyKeepsPaired(s, Disconnect(id));
    forall c, room | c in t.info ensures MemberListed(t, c, room) {
      assert MemberListed(s, c, room);
      if room in s.rooms && c in s.rooms[room] {
        assert c in s.rooms[room] - {id};
      }
    }
  }

  lemma JoinKeeps(s: State, id: ConnId, room: Room)
    requires Related(s)
    ensures Related(Apply(s, Join(id, room)))
  {
    var t := Apply(s, Join(id, room));
    PairedKeys(s);
    ApplyKeepsPaired(s, Join(id, room));
    if id in s.connections {
      forall c, r | c in t.info ensures MemberListed(t, c, r) {
        assert MemberListed(s, c, r);
      }
      if room !in s.info[id].rooms {
        DistinctSnoc(s.info[id].rooms, room);
      }
    }
  }

  lemma LeaveKeeps(s: State, id: ConnId, room: Room)
    requires Related(s)
    ensures Related(Apply(s, Leave(id, room)))
  {
    var t := Apply(s, Leave(id, room));
    PairedKeys(s);
    ApplyKeepsPaired(s, Leave(id, room));
    if room in s.rooms {
      forall c, r | c in t.info ensures MemberListed(t, c, r) {
        assert MemberListed(s, c, r);
        if r == room && c != id && c in s.rooms[room] {
          assert c in s.rooms[room] - {id};
        }
      }
    }
  }

  /** `connect` resets the tuple but not the room sets, so it keeps the relation exactly when
      the id is not in any room already. */
  lemma ConnectKeepsIff(s: State, id: ConnId, socket: Socket, userId: string)
    requires Related(s)
    ensures Related(Apply(s, Connect(id, socket, userId))) <==> (id in s.info ==> s.info[id].rooms == [])
  {
    if id in s.info && s.info[id].rooms != [] {
      var t := Apply(s, Connect(id, socket, userId));
      var room := s.info[id].rooms[0];
      assert MemberListed(s, id, room);
      assert !MemberListed(t, id, room);
    } else {
      ConnectKeeps(s, id, socket, userId);
    }
  }

  lemma ConnectKeeps(s: State, id: ConnId, socket: Socket, userId: string)
    requires Related(s) && (id in s.info ==> s.info[id].rooms == [])
    ensures Related(Apply(s, Connect(id, socket, userId)))
  {
    ApplyKeepsPaired(s, Connect(id, socket, userId));
    ConnectKeepsRooms(s, id, socket, userId);
    ConnectKeepsListed(s, id, socket, userId);
  }

  lemma ConnectKeepsRooms(s: State, id: ConnId, socket: Socket, userId: string)
    requires RoomsLive(s) && NoRepeats(s)
    ensures RoomsLive(Apply(s, Connect(id, socket, userId))) && NoRepeats(Apply(s, Connect(id, socket, userId)))
  {
  }

  lemma ConnectKeepsListed(s: State, id: ConnId, socket: Socket, userId: string)
    requires Related(s) && (id in s.info ==> s.info[id].rooms == [])
    ensures AllListed(Apply(s, Connect(id, socket, userId)))
  {
    var t := Apply(s, Connect(id, socket, userId));
    forall c, r | c in t.info ensures MemberListed(t, c, r) {
      NewcomerListed(s, id, userId, c, r);
    }
  }

  lemma NewcomerListed(s: State, id: ConnId, userId: string, c: ConnId, r: Room)
    requires Related(s) && (id in s.info ==> s.info[id].rooms == []) && (c in s.info || c == id)
    ensures r in s.info[id := Info(userId, [])][c].rooms <==> c in s.Members(r)
  {
    PairedKeys(s);
    if c in s.info {
      assert MemberListed(s, c, r);
    }
  }

  function Run(s: State, ops: seq<Op>): State {
    if ops == [] then s else Apply(Run(s, ops[..|ops| - 1]), ops[|ops| - 1])
  }

  /** No connection id is reused while it is still in a room. */
  ghost predicate FreshIds(s: State, ops: seq<Op>) {
    forall i :: 0 <= i < |ops| && ops[i].Connect? ==> NotInRooms(Run(s, ops[..i]), ops[i].id)
  }

  ghost predicate NotInRooms(s: State, id: ConnId) {
    id in s.info ==> s.info[id].rooms == []
  }

  /** Under any interleaving of operations with fresh ids the relation holds throughout. */
  lemma {:induction false} RunKeepsRelation(s: State, ops: seq<Op>)
    requires Related(s) && FreshIds(s, ops)
    ensures Related(Run(s, ops))
  {
    if ops != [] {
      var front, op := ops[..|ops| - 1], ops[|ops| - 1];
      forall i | 0 <= i < |front| && front[i].Connect? ensures NotInRooms(Run(s, front[..i]), front[i].id) {
        assert front[..i] == ops[..i] && front[i] == ops[i];
      }
      RunKeepsRelation(s, front);
      match op
      case Connect(id, socket, userId) =>
        ConnectKeepsIff(Run(s, front), id, socket, userId);
      case Disconnect(id) => DisconnectKeeps(Run(s, front), id);
      case Join(id, room) => JoinKeeps(Run(s, front), id, room);
      case Leave(id, room) => LeaveKeeps(Run(s, front), id, room);
    }
  }

  lemma {:induction false} RunConcat(s: State, a: seq<Op>, b: seq<Op>)
    ensures Run(s, a + b) == Run(Run(s, a), b)
  {
    if b == [] {
      assert a + b == a;
    } else {
      RunConcat(s, a, b[..|b| - 1]);
      assert (a + b)[..|a + b| - 1] == a + b[..|b| - 1];
    }
  }

  lemma ApplyKeepsPaired(s: State, op: Op)
    requires Paired(s)
    ensures Paired(Apply(s, op))
  {
    var t := Apply(s, op);
    PairedKeys(s);
    match op
    case Connect(id, _, _) =>
      assert t.connections.Keys == s.connections.Keys + {id} == t.info.Keys;
      if id in s.connections {
        assert s.connections.Keys + {id} == s.connections.Keys;
      } else {
        AppendInOrder(s.order, s.connections.Keys, id);
      }
    case Disconnect(id) =>
      assert id in s.connections ==> t.connections.Keys == s.connections.Keys - {id} == t.info.Keys;
      RestrictInOrder(s.order, s.connections.Keys, s.connections.Keys - {id});
    case Join(_, _) =>
      assert t.info.Keys == s.info.Keys;
    case Leave(_, _) =>
      assert t.info.Keys == s.info.Keys;
  }

  lemma {:induction false} RunKeepsPaired(s: State, ops: seq<Op>)
    requires Paired(s)
    ensures Paired(Run(s, ops))
  {
    if ops != [] {
      RunKeepsPaired(s, ops[..|ops| - 1]);
      ApplyKeepsPaired(Run(s, ops[..|ops| - 1]), ops[|ops| - 1]);
    }
  }

  // ---------------------------------------------------------------------------
  // What happens during a broadcast
  // ---------------------------------------------------------------------------

  /** What others do at the first `n` suspension points. */
  ghost function Blocks(others: nat -> seq<Op>, n: nat): seq<Op> {
    if n == 0 then [] else Blocks(others, n - 1) + others(n - 1)
  }

  /** The state after `n` sends, with others acting before each. */
  ghost function AfterSends(s: State, others: nat -> seq<Op>, n: nat): State {
    if n == 0 then s else Run(AfterSends(s, others, n - 1), others(n - 1))
  }

  /**
   The state after a broadcast with `sends` targets that finds the connections `dead` dead:
   others act before each send, and again before each disconnection.
   */
  ghost function AfterBroadcast(s: State, others: nat -> seq<Op>, sends: nat, dead: seq<ConnId>): State {
    if dead == [] then AfterSends(s, others, sends)
    else
      var k := |dead| - 1;
      Apply(Run(AfterBroadcast(s, others, sends, dead[..k]), others(sends + k)), Disconnect(dead[k]))
  }

  lemma {:induction false} SendsKeepPaired(s: State, others: nat -> seq<Op>, n: nat)
    requires Paired(s)
    ensures Paired(AfterSends(s, others, n))
  {
    if n > 0 {
      SendsKeepPaired(s, others, n - 1);
      RunKeepsPaired(AfterSends(s, others, n - 1), others(n - 1));
    }
  }

  lemma {:induction false} BroadcastKeepsPaired(s: State, others: nat -> seq<Op>, sends: nat, dead: seq<ConnId>)
    requires Paired(s)
    ensures Paired(AfterBroadcast(s, others, sends, dead))
  {
    if dead == [] {
      SendsKeepPaired(s, others, sends);
    } else {
      var k := |dead| - 1;
      var before := AfterBroadcast(s, others, sends, dead[..k]);
      BroadcastKeepsPaired(s, others, sends, dead[..k]);
      RunKeepsPaired(before, others(sends + k));
      ApplyKeepsPaired(Run(before, others(sends + k)), Disconnect(dead[k]));
    }
  }

  lemma {:induction false} OneMoreGone(s: State, others: nat -> seq<Op>, sends: nat, dead: seq<ConnId>, id: ConnId)
    ensures AfterBroadcast(s, others, sends, dead + [id]) ==
            Apply(Run(AfterBroadcast(s, others, sends, dead), others(sends + |dead|)), Disconnect(id))
  {
    assert (dead + [id])[..|dead|] == dead;
  }

  /** The same as one sequence of operations. */
  ghost function Trace(others: nat -> seq<Op>, sends: nat, dead: seq<ConnId>): seq<Op> {
    if dead == [] then Blocks(others, sends)
    else
      var k := |dead| - 1;
      Trace(others, sends, dead[..k]) + others(sends + k) + [Disconnect(dead[k])]
  }

  lemma RunSnoc(s: State, ops: seq<Op>, op: Op)
    ensures Run(s, ops + [op]) == Apply(Run(s, ops), op)
  {
    assert (ops + [op])[..|ops|] == ops;
  }

  lemma {:induction false} SendsRunBlocks(s: State, others: nat -> seq<Op>, n: nat)
    ensures AfterSends(s, others, n) == Run(s, Blocks(others, n))
  {
    if n > 0 {
      SendsRunBlocks(s, others, n - 1);
      RunConcat(s, Blocks(others, n - 1), others(n - 1));
    }
  }

  lemma {:induction false} BroadcastRunsTrace(s: State, others: nat -> seq<Op>, sends: nat, dead: seq<ConnId>)
    ensures AfterBroadcast(s, others, sends, dead) == Run(s, Trace(others, sends, dead))
  {
    if dead == [] {
      SendsRunBlocks(s, others, sends);
    } else {
      var k := |dead| - 1;
      var shorter, block := Trace(others, sends, dead[..k]), others(sends + k);
      BroadcastRunsTrace(s, others, sends, dead[..k]);
      RunConcat(s, shorter, block);
      RunSnoc(s, shorter + block, Disconnect(dead[k]));
    }
  }

  /** The ids that `ops` connect, in order. */
  ghost function Connected(ops: seq<Op>): seq<ConnId> {
    if ops == [] then []
    else
      var op := ops[|ops| - 1];
      Connected(ops[..|ops| - 1]) + if op.Connect? then [op.id] else []
  }

  /** Every id that `ops` connect is new, and is connected once. */
  ghost predicate NewIds(s: State, ops: seq<Op>) {
    if ops == [] then true
    else
      var front, op := ops[..|ops| - 1], ops[|ops| - 1];
      NewIds(s, front) && (op.Connect? ==> op.id !in s.info && op.id !in Connected(front))
  }

  /** Whether ids are new depends on nothing but the ids connected. */
  lemma {:induction false} NewIdsIff(s: State, ops: seq<Op>)
    ensures NewIds(s, ops) <==> Distinct(Connected(ops)) && ToSet(Connected(ops)) !! s.info.Keys
  {
    if ops != [] {
      var front, op := ops[..|ops| - 1], ops[|ops| - 1];
      NewIdsIff(s, front);
      if op.Connect? {
        NewSnoc(Connected(front), op.id, s.info.Keys);
      } else {
        assert Connected(ops) == Connected(front);
      }
    }
  }

  lemma NewSnoc(ids: seq<ConnId>, id: ConnId, known: set<ConnId>)
    ensures Distinct(ids + [id]) && ToSet(ids + [id]) !! known <==>
            Distinct(ids) && ToSet(ids) !! known && id !in ids && id !in known
  {
    assert ToSet(ids + [id]) == ToSet(ids) + {id};
    if Distinct(ids + [id]) {
      assert (ids + [id])[|ids|] == id;
      forall i, j | 0 <= i < j < |ids| ensures ids[i] != ids[j] {
        assert (ids + [id])[i] != (ids + [id])[j];
      }
      forall i | 0 <= i < |ids| ensures ids[i] != id {
        assert (ids + [id])[i] != (ids + [id])[|ids|];
      }
    }
  }

  lemma {:induction false} ConnectedConcat(a: seq<Op>, b: seq<Op>)
    ensures Connected(a + b) == Connected(a) + Connected(b)
  {
    if b == [] {
      assert a + b == a;
    } else {
      ConnectedConcat(a, b[..|b| - 1]);
      assert (a + b)[..|a + b| - 1] == a + b[..|b| - 1];
    }
  }

  /** The clean-up connects nobody: the trace connects the ids of its blocks. */
  lemma {:induction false} TraceConnects(others: nat -> seq<Op>, sends: nat, dead: seq<ConnId>)
    ensures Connected(Trace(others, sends, dead)) == Connected(Blocks(others, sends + |dead|))
  {
    if dead != [] {
      var k := |dead| - 1;
      var shorter, block := Trace(others, sends, dead[..k]), others(sends + k);
      TraceConnects(others, sends, dead[..k]);
      ConnectedConcat(shorter + block, [Disconnect(dead[k])]);
      ConnectedConcat(shorter, block);
      ConnectedConcat(Blocks(others, sends + k), block);
      assert Connected([Disconnect(dead[k])]) == [];
    }
  }

  lemma {:induction false} KnownIds(s: State, ops: seq<Op>, id: ConnId)
    requires id in Run(s, ops).info
    ensures id in s.info || id in Connected(ops)
  {
    if ops != [] {
      var front := ops[..|ops| - 1];
      if id in Run(s, front).info {
        KnownIds(s, front, id);
      }
    }
  }

  /** Ids that are new to the state and to each other are never reused while in a room. */
  lemma {:induction false} NewIdsAreFresh(s: State, ops: seq<Op>)
    requires NewIds(s, ops)
    ensures FreshIds(s, ops)
  {
    if ops != [] {
      var front, op := ops[..|ops| - 1], ops[|ops| - 1];
      NewIdsAreFresh(s, front);
      if op.Connect? && op.id in Run(s, front).info {
        KnownIds(s, front, op.id);
        assert false;
      }
      forall i | 0 <= i < |ops| && ops[i].Connect? ensures NotInRooms(Run(s, ops[..i]), ops[i].id) {
        if i < |front| {
          assert front[..i] == ops[..i] && front[i] == ops[i];
        }
      }
    }
  }

  /** Whatever new connections others open, join to rooms and close, a broadcast keeps the relation. */
  lemma {:induction false} BroadcastKeepsRelation(s: State, others: nat -> seq<Op>, sends: nat, dead: seq<ConnId>)
    ensures Related(s) && NewIds(s, Blocks(others, sends + |dead|)) ==> Related(AfterBroadcast(s, others, sends, dead))
  {
    var blocks, trace := Blocks(others, sends + |dead|), Trace(others, sends, dead);
    if Related(s) && NewIds(s, blocks) {
      TraceConnects(others, sends, dead);
      NewIdsIff(s, blocks);
      NewIdsIff(s, trace);
      NewIdsAreFresh(s, trace);
      RunKeepsRelation(s, trace);
      BroadcastRunsTrace(s, others, sends, dead);
    }
  }

  /** The state without the connections `gone` and the rooms they leave empty. */
  ghost function Purged(s: State, gone: set<ConnId>): State {
    var left := s.connections - gone;
    State(left, Restrict(s.order, left.Keys), s.info - gone, RoomsLeft(s.rooms, gone))
  }

  ghost function RoomsLeft(rooms: map<Room, set<ConnId>>, gone: set<ConnId>): map<Room, set<ConnId>> {
    map room | room in rooms && rooms[room] - gone != {} :: rooms[room] - gone
  }

  lemma RoomsOneMore(rooms: map<Room, set<ConnId>>, gone: set<ConnId>, id: ConnId)
    ensures RoomsWithout(RoomsLeft(rooms, gone), id) == RoomsLeft(rooms, gone + {id})
  {
    assert forall room :: room in rooms ==> rooms[room] - gone - {id} == rooms[room] - (gone + {id});
  }

  lemma PurgeOneMore(s: State, gone: set<ConnId>, id: ConnId)
    requires id in s.connections && id !in gone
    ensures Apply(Purged(s, gone), Disconnect(id)) == Purged(s, gone + {id})
  {
    var before, after := s.connections - gone, s.connections - (gone + {id});
    assert before - {id} == after && s.info - gone - {id} == s.info - (gone + {id});
    assert after.Keys <= before.Keys;
    RestrictTwice(s.order, before.Keys, after.Keys);
    RoomsOneMore(s.rooms, gone, id);
  }

  /** Others do nothing at the first `n` suspension points. */
  ghost predicate Silent(others: nat -> seq<Op>, n: nat) {
    n == 0 || (Silent(others, n - 1) && |others(n - 1)| == 0)
  }

  lemma {:induction false} SilentSends(s: State, others: nat -> seq<Op>, n: nat)
    requires Silent(others, n)
    ensures AfterSends(s, others, n) == s
  {
    if n > 0 {
      SilentSends(s, others, n - 1);
    }
  }

  /** Without interference a broadcast removes exactly the dead. */
  lemma {:induction false} QuietBroadcast(s: State, others: nat -> seq<Op>, sends: nat, dead: seq<ConnId>)
    requires Paired(s) && NoEmptyRooms(s) && Snapshot(s, dead) && Silent(others, sends + |dead|)
    ensures AfterBroadcast(s, others, sends, dead) == Purged(s, ToSet(dead))
  {
    if dead == [] {
      SilentSends(s, others, sends);
      PurgeNone(s);
      assert ToSet(dead) == {};
    } else {
      var k := |dead| - 1;
      QuietBroadcast(s, others, sends, dead[..k]);
      SnocSet(dead);
      PurgeOneMore(s, ToSet(dead[..k]), dead[k]);
    }
  }

  ghost predicate NoEmptyRooms(s: State) {
    forall room :: room in s.rooms ==> s.rooms[room] != {}
  }

  lemma PurgeNone(s: State)
    requires NoEmptyRooms(s) && Paired(s)
    ensures Purged(s, {}) == s
  {
    assert s.connections - {} == s.connections && s.info - {} == s.info;
    RestrictToAll(s.order, s.connections.Keys);
    assert forall room :: room in s.rooms ==> s.rooms[room] - {} == s.rooms[room];
    assert RoomsLeft(s.rooms, {}) == s.rooms;
  }

  lemma SnocSet(ids: seq<ConnId>)
    requires ids != []
    ensures
      var front, last := ids[..|ids| - 1], ids[|ids| - 1];
      ToSet(ids) == ToSet(front) + {last} && (last !in front ==> last !in ToSet(front))
  {
    assert ids == ids[..|ids| - 1] + [ids[|ids| - 1]];
  }

  /** The unreachable among `targets`, in order. */
  function DeadIn(targets: seq<ConnId>, delivers: ConnId -> bool): seq<ConnId> {
    if targets == [] then []
    else
      var rest, last := DeadIn(targets[..|targets| - 1], delivers), targets[|targets| - 1];
      if delivers(last) then rest else rest + [last]
  }

  /** Some of the connections, each once. */
  ghost predicate Snapshot(s: State, targets: seq<ConnId>) {
    if targets == [] then true
    else
      var front, last := targets[..|targets| - 1], targets[|targets| - 1];
      Snapshot(s, front) && last in s.connections && last !in front
  }

  lemma {:induction false} SnapshotIff(s: State, targets: seq<ConnId>)
    ensures Snapshot(s, targets) <==> Distinct(targets) && ToSet(targets) <= s.connections.Keys
  {
    if targets != [] {
      var front, last := targets[..|targets| - 1], targets[|targets| - 1];
      SnapshotIff(s, front);
      assert targets == front + [last];
      assert ToSet(targets) == ToSet(front) + {last};
    }
  }

  /** The dead are exactly the targets that cannot be reached. */
  lemma {:induction false} DeadAreUnreachable(targets: seq<ConnId>, delivers: ConnId -> bool)
    ensures forall id :: id in DeadIn(targets, delivers) <==> id in targets && !delivers(id)
  {
    if targets != [] {
      DeadAreUnreachable(targets[..|targets| - 1], delivers);
      assert targets == targets[..|targets| - 1] + [targets[|targets| - 1]];
    }
  }

  /** They come in the order of the targets. */
  lemma {:induction false} DeadInConcat(a: seq<ConnId>, b: seq<ConnId>, delivers: ConnId -> bool)
    ensures DeadIn(a + b, delivers) == DeadIn(a, delivers) + DeadIn(b, delivers)
  {
    if b == [] {
      assert a + b == a;
    } else {
      DeadInConcat(a, b[..|b| - 1], delivers);
      assert (a + b)[..|a + b| - 1] == a + b[..|b| - 1];
    }
  }

  lemma {:induction false} DeadAreSnapshot(s: State, targets: seq<ConnId>, delivers: ConnId -> bool)
    requires Snapshot(s, targets)
    ensures Snapshot(s, DeadIn(targets, delivers))
  {
    if targets != [] {
      var front, last := targets[..|targets| - 1], targets[|targets| - 1];
      DeadAreSnapshot(s, front, delivers);
      DeadAreUnreachable(front, delivers);
      var rest := DeadIn(front, delivers);
      assert (rest + [last])[..|rest|] == rest;
    }
  }

  lemma {:induction false} QuietOutcome(s: State, others: nat -> seq<Op>, targets: seq<ConnId>, delivers: ConnId -> bool,
                                        dead: seq<ConnId>, t: State)
    requires Paired(s) && Snapshot(s, targets) && dead == DeadIn(targets, delivers)
    requires t == AfterBroadcast(s, others, |targets|, dead)
    ensures NoEmptyRooms(s) && Silent(others, |targets| + |dead|) ==> t == Purged(s, ToSet(dead))
  {
    DeadAreSnapshot(s, targets, delivers);
    if NoEmptyRooms(s) && Silent(others, |targets| + |dead|) {
      QuietBroadcast(s, others, |targets|, dead);
    }
  }

  // ---------------------------------------------------------------------------
  // The object
  // ---------------------------------------------------------------------------

  class ConnectionManager {
    var connections: map<ConnId, Socket>
    var order: seq<ConnId>
    var info: map<ConnId, Info>
    var rooms: map<Room, set<ConnId>>

    ghost function View(): State
      reads this
    {
      State(connections, order, info, rooms)
    }

    constructor ()
      ensures View() == State(map[], [], map[], map[]) && Related(View())
    {
      connections, order, info, rooms := map[], [], map[], map[];
    }

    method Connect(id: ConnId, socket: Socket, userId: string)
      modifies this
      ensures View() == Apply(old(View()), Op.Connect(id, socket, userId))
    {
      if id !in connections {
        order := order + [id];
      }
      connections := connections[id := socket];
      info := info[id := Info(userId, [])];
    }

    method Disconnect(id: ConnId)
      modifies this
      ensures View() == Apply(old(View()), Op.Disconnect(id))
    {
      if id !in connections {
        return;
      }
      connections := connections - {id};
      order := Restrict(order, connections.Keys);
      info := info - {id};
      var discarded, emptyRooms := DiscardMember(rooms, id);
      rooms := discarded - emptyRooms;
    }

    method JoinRoom(id: ConnId, room: Room)
      requires Paired(View())
      modifies this
      ensures View() == Apply(old(View()), Join(id, room))
    {
      if id !in connections {
        return;
      }
      PairedKeys(View());
      if room !in rooms {
        rooms := rooms[room := {}];
      }
      rooms := rooms[room := rooms[room] + {id}];
      var current := info[id];
      if room !in current.rooms {
        info := info[id := current.(rooms := current.rooms + [room])];
      }
    }

    method LeaveRoom(id: ConnId, room: Room)
      modifies this
      ensures View() == Apply(old(View()), Leave(id, room))
    {
      if room !in rooms {
        return;
      }
      rooms := rooms[room := rooms[room] - {id}];
      if rooms[room] == {} {
        rooms := rooms - {room};
      }
      if id in info && room in info[id].rooms {
        info := info[id := info[id].(rooms := Without(info[id].rooms, room))];
      }
    }

    /** What other tasks and threads do at one suspension point. */
    method Interfere(ops: seq<Op>)
      requires Paired(View())
      modifies this
      ensures View() == Run(old(View()), ops) && Paired(View())
    {
      for i := 0 to |ops|
        invariant View() == Run(old(View()), ops[..i]) && Paired(View())
      {
        assert ops[..i + 1][..i] == ops[..i];
        match ops[i] {
          case Connect(id, socket, userId) => Connect(id, socket, userId);
          case Disconnect(id) => Disconnect(id);
          case Join(id, room) => JoinRoom(id, room);
          case Leave(id, room) => LeaveRoom(id, room);
        }
        RunKeepsPaired(old(View()), ops[..i + 1]);
      }
      assert ops[..|ops|] == ops;
    }

    /**
     The send loop and the clean-up loop shared by `broadcast`, `broadcast_to_room` and
     `_ping_all`: every target is either served or dead, and the dead are disconnected in the
     same order, while others act at every suspension point.
     */
    method SendToAll(targets: seq<ConnId>, delivers: ConnId -> bool, others: nat -> seq<Op>)
      returns (sent: nat, dead: seq<ConnId>)
      requires Paired(View()) && Snapshot(View(), targets)
      modifies this
      ensures dead == DeadIn(targets, delivers) && sent + |dead| == |targets|
      ensures View() == AfterBroadcast(old(View()), others, |targets|, dead)
      ensures Related(old(View())) && NewIds(old(View()), Blocks(others, |targets| + |dead|)) ==> Related(View())
      ensures NoEmptyRooms(old(View())) && Silent(others, |targets| + |dead|) ==>
                View() == Purged(old(View()), ToSet(dead))
    {
      ghost var before := View();
      sent, dead := SendAndDisconnect(targets, delivers, others);
      BroadcastKeepsRelation(before, others, |targets|, dead);
    }

    /** The two loops, and their effect when nobody interferes. */
    method SendAndDisconnect(targets: seq<ConnId>, delivers: ConnId -> bool, others: nat -> seq<Op>)
      returns (sent: nat, dead: seq<ConnId>)
      requires Paired(View()) && Snapshot(View(), targets)
      modifies this
      ensures dead == DeadIn(targets, delivers) && sent + |dead| == |targets|
      ensures View() == AfterBroadcast(old(View()), others, |targets|, dead)
      ensures NoEmptyRooms(old(View())) && Silent(others, |targets| + |dead|) ==>
                View() == Purged(old(View()), ToSet(dead))
    {
      ghost var before := View();
      sent, dead := SendEach(targets, delivers, others);
      DisconnectAll(dead, others, |targets|, before);
      QuietOutcome(before, others, targets, delivers, dead, View());
    }

    method SendEach(targets: seq<ConnId>, delivers: ConnId -> bool, others: nat -> seq<Op>)
      returns (sent: nat, dead: seq<ConnId>)
      requires Paired(View())
      modifies this
      ensures dead == DeadIn(targets, delivers) && sent + |dead| == |targets|
      ensures View() == AfterSends(old(View()), others, |targets|)
    {
      ghost var before := View();
      sent, dead := 0, [];
      for i := 0 to |targets|
        invariant dead == DeadIn(targets[..i], delivers) && sent + |dead| == i
        invariant View() == AfterSends(before, others, i)
      {
        AwaitSend(others(i), before, others, i);
        assert targets[..i + 1][..i] == targets[..i];
        if delivers(targets[i]) {
          sent := sent + 1;
        } else {
          dead := dead + [targets[i]];
        }
      }
      assert targets[..|targets|] == targets;
    }

    /** What others do while one send is awaited. */
    method AwaitSend(ops: seq<Op>, ghost before: State, ghost others: nat -> seq<Op>, ghost i: nat)
      requires Paired(before) && View() == AfterSends(before, others, i) && ops == others(i)
      modifies this
      ensures View() == AfterSends(before, others, i + 1)
    {
      SendsKeepPaired(before, others, i);
      Interfere(ops);
    }

    method DisconnectAll(dead: seq<ConnId>, others: nat -> seq<Op>, sends: nat, ghost before: State)
      requires Paired(before) && View() == AfterSends(before, others, sends)
      modifies this
      ensures View() == AfterBroadcast(before, others, sends, dead)
    {
      for i := 0 to |dead|
        invariant View() == AfterBroadcast(before, others, sends, dead[..i])
      {
        DisconnectNext(dead[i], others(sends + i), before, others, sends, dead[..i]);
        assert dead[..i + 1] == dead[..i] + [dead[i]];
      }
      assert dead[..|dead|] == dead;
    }

    method DisconnectNext(id: ConnId, ops: seq<Op>,
                          ghost before: State, ghost others: nat -> seq<Op>, ghost sends: nat, ghost gone: seq<ConnId>)
      requires Paired(before) && View() == AfterBroadcast(before, others, sends, gone) && ops == others(sends + |gone|)
      modifies this
      ensures View() == AfterBroadcast(before, others, sends, gone + [id])
    {
      BroadcastKeepsPaired(before, others, sends, gone);
      Interfere(ops);
      Disconnect(id);
      OneMoreGone(before, others, sends, gone, id);
    }

    /** Returns how many members received the message; the members are those of the moment of the snapshot. */
    method BroadcastToRoom(room: Room, delivers: ConnId -> bool, others: nat -> seq<Op>)
      returns (sent: nat, ghost targets: seq<ConnId>, ghost dead: seq<ConnId>)
      requires Paired(View())
      modifies this
      ensures targets == Restrict(old(order), old(View()).Members(room))
      ensures Related(old(View())) ==> InOrder(targets, old(View()).Members(room))
      ensures dead == DeadIn(targets, delivers) && sent + |dead| == |targets|
      ensures View() == AfterBroadcast(old(View()), others, |targets|, dead)
      ensures Related(old(View())) && NewIds(old(View()), Blocks(others, |targets| + |dead|)) ==> Related(View())
      ensures NoEmptyRooms(old(View())) && Silent(others, |targets| + |dead|) ==>
                View() == Purged(old(View()), ToSet(dead))
    {
      var memberIds := if room in rooms then rooms[room] else {};
      var present := Restrict(order, memberIds);
      MembersPresent(View(), room);
      var count, unreachable := SendToAll(present, delivers, others);
      sent, targets, dead := count, present, unreachable;
    }

    /** The heartbeat returns the number of dead connections, all of which it disconnects. */
    method PingAll(delivers: ConnId -> bool, others: nat -> seq<Op>)
      returns (removed: nat, ghost targets: seq<ConnId>, ghost dead: seq<ConnId>)
      requires Paired(View())
      modifies this
      ensures targets == old(order)
      ensures dead == DeadIn(targets, delivers) && removed == |dead|
      ensures View() == AfterBroadcast(old(View()), others, |targets|, dead)
      ensures Related(old(View())) && NewIds(old(View()), Blocks(others, |targets| + |dead|)) ==> Related(View())
      ensures NoEmptyRooms(old(View())) && Silent(others, |targets| + |dead|) ==>
                View() == Purged(old(View()), ToSet(dead))
    {
      var present := order;
      AllPresent(View());
      var sent, unreachable := SendToAll(present, delivers, others);
      removed, targets, dead := |unreachable|, present, unreachable;
    }
  }

  lemma MembersPresent(s: State, room: Room)
    requires Paired(s)
    ensures
      var targets := Restrict(s.order, s.Members(room));
      Snapshot(s, targets) && (Related(s) ==> InOrder(targets, s.Members(room)))
  {
    var targets := Restrict(s.order, s.Members(room));
    InOrderIff(s.order, s.connections.Keys);
    RestrictIsSet(s.order, s.Members(room));
    SnapshotIff(s, targets);
    InOrderIff(targets, s.Members(room));
    assert Related(s) ==> s.connections.Keys * s.Members(room) == s.Members(room);
  }

  lemma AllPresent(s: State)
    requires Paired(s)
    ensures Snapshot(s, s.order)
  {
    InOrderIff(s.order, s.connections.Keys);
    SnapshotIff(s, s.order);
  }

  /** The loop of `disconnect` over the rooms. */
  method DiscardMember(rooms: map<Room, set<ConnId>>, id: ConnId)
    returns (discarded: map<Room, set<ConnId>>, emptyRooms: set<Room>)
    ensures discarded - emptyRooms == RoomsWithout(rooms, id)
  {
    var todo := rooms.Keys;
    discarded, emptyRooms := rooms, {};
    while todo != {}
      invariant todo <= rooms.Keys && discarded.Keys == rooms.Keys
      invariant forall r :: r in todo ==> discarded[r] == rooms[r] && r !in emptyRooms
      invariant forall r :: r in rooms && r !in todo ==> discarded[r] == rooms[r] - {id}
      invariant forall r :: r in rooms && r !in todo ==> (r in emptyRooms <==> discarded[r] == {})
      decreases |todo|
    {
      var r :| r in todo;
      todo := todo - {r};
      var members := discarded[r] - {id};
      discarded := discarded[r := members];
      if members == {} {
        emptyRooms := emptyRooms + {r};
      }
    }
  }
}
