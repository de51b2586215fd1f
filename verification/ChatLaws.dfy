/** What every subscriber of the chat is told, over any run. */
module ChatLaws {
  import opened Chat

  datatype Act = Says(message: ChatMessage) | Subscribes(id: nat) | Drops(channel: nat)

  /**
    A room with its whole past: all messages ever registered, and for every channel how many there were when it was
    made and how many when it heard one last.
   */
  datatype Log = Log(room: Room, all: seq<ChatMessage>, joined: seq<nat>, heard: seq<nat>)

  predicate Current(r: Room, channel: nat) {
    channel < |r.channels| && r.channels[channel].open && Listens(r, r.subscribers.Keys, channel)
  }

  function Step(l: Log, act: Act): Log
    requires IsRoom(l.room) && |l.heard| == |l.room.channels|
  {
    match act
    case Says(m) =>
      Log(Register(l.room, m), l.all + [m], l.joined,
          seq(|l.heard|, i requires 0 <= i < |l.heard| => if Current(l.room, i) then |l.all| + 1 else l.heard[i]))
    case Subscribes(id) => Log(Subscribe(l.room, id), l.all, l.joined + [|l.all|], l.heard + [|l.all|])
    case Drops(channel) => if channel < |l.room.channels| then l.(room := Drop(l.room, channel)) else l
  }

  function Last(all: seq<ChatMessage>): seq<ChatMessage> {
    if |all| <= HISTORY_LENGTH then all else all[|all| - HISTORY_LENGTH..]
  }

  function AsEvents(messages: seq<ChatMessage>): seq<Event> {
    seq(|messages|, i requires 0 <= i < |messages| => Message(messages[i]))
  }

  /** The history at the time of joining, the warning, and every message from then on up to number `heard`. */
  function Expected(all: seq<ChatMessage>, joined: nat, heard: nat): seq<Event>
    requires joined <= heard <= |all|
  {
    [MessageHistory(Last(all[..joined])), Message(DEVELOPMENT_WARNING)] + AsEvents(all[joined..heard])
  }

  /** The stream of one channel: no gap and no repetition, and up to date while somebody listens. */
  predicate StreamIsRight(l: Log, channel: nat)
    requires channel < |l.room.channels| == |l.joined| == |l.heard|
  {
    && l.joined[channel] <= l.heard[channel] <= |l.all|
    && l.room.channels[channel].events == Expected(l.all, l.joined[channel], l.heard[channel])
    && (Current(l.room, channel) ==> l.heard[channel] == |l.all|)
  }

  predicate Sound(l: Log) {
    && IsRoom(l.room)
    && |l.room.channels| == |l.joined| == |l.heard|
    && l.room.history == Last(l.all)
    && forall channel :: 0 <= channel < |l.room.channels| ==> StreamIsRight(l, channel)
  }

  // ---------------------------------------------------------------- steps

  lemma {:induction false} TrimmedIsLast(s: seq<ChatMessage>)
    ensures Trimmed(s) == Last(s)
    decreases |s|
  {
    if |s| > HISTORY_LENGTH {
      TrimmedIsLast(s[1..]);
    }
  }

  /** Keeping the last hundred of a list that was already cut is keeping the last hundred of all. */
  lemma LastGrows(all: seq<ChatMessage>, m: ChatMessage)
    ensures Last(Last(all) + [m]) == Last(all + [m])
  {
  }

  lemma ExpectedGrows(all: seq<ChatMessage>, m: ChatMessage, joined: nat)
    requires joined <= |all|
    ensures Expected(all + [m], joined, |all| + 1) == Expected(all, joined, |all|) + [Message(m)]
  {
    assert (all + [m])[joined..|all| + 1] == all[joined..|all|] + [m];
    assert AsEvents(all[joined..|all|] + [m]) == AsEvents(all[joined..|all|]) + [Message(m)];
    assert (all + [m])[..joined] == all[..joined];
  }

  lemma ExpectedStays(all: seq<ChatMessage>, m: ChatMessage, joined: nat, heard: nat)
    requires joined <= heard <= |all|
    ensures Expected(all + [m], joined, heard) == Expected(all, joined, heard)
  {
    assert (all + [m])[joined..heard] == all[joined..heard];
    assert (all + [m])[..joined] == all[..joined];
  }

  lemma SayingIsSound(l: Log, m: ChatMessage)
    requires Sound(l)
    ensures Sound(Step(l, Says(m)))
  {
    hide Trimmed, Expected, IsRoom, Last;
    var l' := Step(l, Says(m));
    var e := Message(m);
    DispatchKeepsRoom(l.room, e, l.room.subscribers.Keys);
    RegisterKeepsRoom(l.room, m);
    TrimmedIsLast(l.room.history + [m]);
    LastGrows(l.all, m);
    forall channel | 0 <= channel < |l'.room.channels|
      ensures StreamIsRight(l', channel)
    {
      assert StreamIsRight(l, channel);
      StillCurrent(l.room, m, channel);
      if Current(l.room, channel) {
        ExpectedGrows(l.all, m, l.joined[channel]);
      } else {
        ExpectedStays(l.all, m, l.joined[channel], l.heard[channel]);
      }
    }
  }

  lemma RegisterKeepsRoom(r: Room, m: ChatMessage)
    requires IsRoom(r)
    ensures IsRoom(Register(r, m)) && |Register(r, m).channels| == |r.channels|
  {
    DispatchKeepsRoom(r, Message(m), r.subscribers.Keys);
  }

  /** Who is current after a message was current before it, and heard it. */
  lemma StillCurrent(r: Room, m: ChatMessage, channel: nat)
    requires IsRoom(r) && channel < |r.channels|
    ensures var r' := Register(r, m);
            && |r'.channels| == |r.channels|
            && (Current(r', channel) ==> Current(r, channel))
            && r'.channels[channel] ==
               if Current(r, channel) then Told(r.channels[channel], Message(m)) else r.channels[channel]
  {
    hide Trimmed;
    var r' := Register(r, m);
    if Listens(r', r'.subscribers.Keys, channel) {
      var id :| id in r'.subscribers && r'.subscribers[id] == channel;
      assert id in r.subscribers && r.subscribers[id] == channel;
    }
  }

  lemma SubscribingIsSound(l: Log, id: nat)
    requires Sound(l)
    ensures Sound(Step(l, Subscribes(id)))
  {
    var l' := Step(l, Subscribes(id));
    forall channel | 0 <= channel < |l'.room.channels|
      ensures StreamIsRight(l', channel)
    {
      if channel < |l.room.channels| {
        assert StreamIsRight(l, channel);
        if Listens(l'.room, l'.room.subscribers.Keys, channel) {
          var other :| other in l'.room.subscribers && l'.room.subscribers[other] == channel;
          assert other in l.room.subscribers && l.room.subscribers[other] == channel;
        }
      } else {
        assert l.all[..|l.all|] == l.all && AsEvents(l.all[|l.all|..|l.all|]) == [];
      }
    }
  }

  lemma DroppingIsSound(l: Log, channel: nat)
    requires Sound(l)
    ensures Sound(Step(l, Drops(channel)))
  {
    hide Expected, IsRoom;
    var l' := Step(l, Drops(channel));
    DropKeepsRoom(l.room, channel);
    forall c | 0 <= c < |l'.room.channels|
      ensures StreamIsRight(l', c)
    {
      assert StreamIsRight(l, c);
      if channel < |l.room.channels| && Listens(l'.room, l'.room.subscribers.Keys, c) {
        var id :| id in l'.room.subscribers && l'.room.subscribers[id] == c;
        assert id in l.room.subscribers && l.room.subscribers[id] == c;
      }
    }
  }

  lemma DropKeepsRoom(r: Room, channel: nat)
    requires IsRoom(r)
    ensures channel < |r.channels| ==> IsRoom(Drop(r, channel))
  {
  }

  // ---------------------------------------------------------------- runs

  lemma StepIsSound(l: Log, act: Act)
    requires Sound(l)
    ensures Sound(Step(l, act))
  {
    match act
    case Says(m) => SayingIsSound(l, m);
    case Subscribes(id) => SubscribingIsSound(l, id);
    case Drops(channel) => DroppingIsSound(l, channel);
  }

  ghost function After(l: Log, acts: seq<Act>): (l': Log)
    requires Sound(l)
    ensures Sound(l')
    decreases |acts|
  {
    if acts == [] then l
    else
      StepIsSound(l, acts[0]);
      After(Step(l, acts[0]), acts[1..])
  }

  function Empty(): Log {
    Log(Room(map[], [], []), [], [], [])
  }

  lemma EmptyIsSound()
    ensures Sound(Empty())
  {
  }

  /** The history is always the last hundred messages, or all of them if there were fewer. */
  lemma HistoryIsTheLastHundred(acts: seq<Act>)
    ensures Sound(Empty())
    ensures var l := After(Empty(), acts);
            && |l.room.history| == (if |l.all| <= HISTORY_LENGTH then |l.all| else HISTORY_LENGTH)
            && l.room.history == l.all[|l.all| - |l.room.history|..]
  {
    EmptyIsSound();
    var l := After(Empty(), acts);
    assert l.room.history == Last(l.all);
  }

  /**
    A live subscriber has been told the history of the moment it joined, the warning, and then every message since,
    in order. What a channel of a former subscriber holds is a front of that.
   */
  lemma StreamsAreContinuous(acts: seq<Act>, channel: nat)
    ensures Sound(Empty())
    ensures var l := After(Empty(), acts);
            channel < |l.room.channels| ==>
              var joined, heard := l.joined[channel], l.heard[channel];
              && joined <= heard <= |l.all|
              && l.room.channels[channel].events == Expected(l.all, joined, heard)
              && (Current(l.room, channel) ==> heard == |l.all|)
  {
    EmptyIsSound();
    var l := After(Empty(), acts);
    if channel < |l.room.channels| {
      assert StreamIsRight(l, channel);
    }
  }

  // ---------------------------------------------------------------- who is listening

  /** A channel with the client that asked for it, and whether that client still listens on it. */
  datatype Seat = Seat(id: nat, live: bool)

  /** A client listens on the channel of its latest subscription until the receiver is dropped. */
  function SeatsAfter(seats: seq<Seat>, acts: seq<Act>): seq<Seat>
    decreases |acts|
  {
    if acts == [] then seats else SeatsAfter(SeatsStep(seats, acts[0]), acts[1..])
  }

  function SeatsStep(seats: seq<Seat>, act: Act): seq<Seat> {
    match act
    case Says(_) => seats
    case Subscribes(id) =>
      seq(|seats|, i requires 0 <= i < |seats| => if seats[i].id == id then Seat(id, false) else seats[i]) + [Seat(id, true)]
    case Drops(channel) => if channel < |seats| then seats[channel := Seat(seats[channel].id, false)] else seats
  }

  predicate Seated(r: Room, seats: seq<Seat>) {
    && IsRoom(r) && |seats| == |r.channels|
    && (forall id :: id in r.subscribers ==> seats[r.subscribers[id]].id == id)
    && (forall channel :: 0 <= channel < |seats| ==> (Current(r, channel) <==> seats[channel].live))
  }

  lemma ListenerIsSeated(r: Room, seats: seq<Seat>, channel: nat)
    requires Seated(r, seats) && channel < |seats|
    ensures Current(r, channel) <==>
              var id := seats[channel].id; id in r.subscribers && r.subscribers[id] == channel && r.channels[channel].open
  {
    var id := seats[channel].id;
    if Current(r, channel) {
      var other :| other in r.subscribers.Keys && other in r.subscribers && r.subscribers[other] == channel;
      assert other == id;
    }
  }

  lemma SayingKeepsSeats(r: Room, seats: seq<Seat>, m: ChatMessage)
    requires Seated(r, seats)
    ensures Seated(Register(r, m), seats)
  {
    hide Trimmed;
    var r' := Register(r, m);
    RegisterKeepsRoom(r, m);
    forall channel | 0 <= channel < |seats|
      ensures Current(r', channel) <==> seats[channel].live
    {
      StillCurrent(r, m, channel);
      ListenerIsSeated(r, seats, channel);
      var id := seats[channel].id;
      if Current(r, channel) {
        assert id in r'.subscribers && r'.subscribers[id] == channel;
      }
    }
  }

  lemma SubscribingKeepsSeats(r: Room, seats: seq<Seat>, id: nat)
    requires Seated(r, seats)
    ensures Seated(Subscribe(r, id), SeatsStep(seats, Subscribes(id)))
  {
    var r', seats' := Subscribe(r, id), SeatsStep(seats, Subscribes(id));
    var last := |seats|;
    assert IsRoom(r') && |seats'| == |r'.channels| == last + 1;
    assert forall other :: other in r'.subscribers ==> other == id || (other in r.subscribers && r.subscribers[other] < last);
    assert forall other :: other in r'.subscribers ==> seats'[r'.subscribers[other]].id == other;
    forall channel | 0 <= channel < |seats'|
      ensures Current(r', channel) <==> seats'[channel].live
    {
      if channel < last {
        SeatAfterSubscribing(r, seats, id, channel);
      } else {
        assert id in r'.subscribers && r'.subscribers[id] == channel;
      }
    }
  }

  lemma SeatAfterSubscribing(r: Room, seats: seq<Seat>, id: nat, channel: nat)
    requires Seated(r, seats) && channel < |seats|
    ensures Current(Subscribe(r, id), channel) <==> seats[channel].id != id && seats[channel].live
  {
    var r' := Subscribe(r, id);
    ListenerIsSeated(r, seats, channel);
    var owner := seats[channel].id;
    if Current(r', channel) {
      var other :| other in r'.subscribers.Keys && other in r'.subscribers && r'.subscribers[other] == channel;
      assert other != id && other in r.subscribers && r.subscribers[other] == channel;
    }
    if owner != id && Current(r, channel) {
      assert owner in r'.subscribers && r'.subscribers[owner] == channel;
    }
  }

  lemma DroppingKeepsSeats(r: Room, seats: seq<Seat>, channel: nat)
    requires Seated(r, seats) && channel < |r.channels|
    ensures Seated(Drop(r, channel), SeatsStep(seats, Drops(channel)))
  {
    var r', seats' := Drop(r, channel), SeatsStep(seats, Drops(channel));
    forall c | 0 <= c < |seats'|
      ensures Current(r', c) <==> seats'[c].live
    {
      ListenerIsSeated(r, seats, c);
      if c != channel && Current(r, c) {
        assert seats[c].id in r'.subscribers && r'.subscribers[seats[c].id] == c;
      }
    }
  }

  lemma {:induction false} RunKeepsSeats(l: Log, seats: seq<Seat>, acts: seq<Act>)
    requires Sound(l) && Seated(l.room, seats)
    ensures Seated(After(l, acts).room, SeatsAfter(seats, acts))
    decreases |acts|
  {
    hide StreamIsRight, Seated, Register, Subscribe, Drop, SeatsStep;
    if acts != [] {
      StepIsSound(l, acts[0]);
      StepKeepsSeats(l, seats, acts[0]);
      RunKeepsSeats(Step(l, acts[0]), SeatsStep(seats, acts[0]), acts[1..]);
    }
  }

  lemma StepKeepsSeats(l: Log, seats: seq<Seat>, act: Act)
    requires Sound(l) && Seated(l.room, seats)
    ensures Seated(Step(l, act).room, SeatsStep(seats, act))
  {
    hide StreamIsRight, Register, Subscribe, Drop;
    match act
    case Says(m) => SayingKeepsSeats(l.room, seats, m);
    case Subscribes(id) => SubscribingKeepsSeats(l.room, seats, id);
    case Drops(channel) =>
      if channel < |l.room.channels| {
        DroppingKeepsSeats(l.room, seats, channel);
      }
  }

  /**
    Over every run a channel is listened to, and so up to date, exactly if its client has not subscribed again since
    and its receiver has not been dropped.
   */
  lemma SubscribersListenIff(acts: seq<Act>, channel: nat)
    ensures Sound(Empty())
    ensures var room := After(Empty(), acts).room;
            var seats := SeatsAfter([], acts);
            |seats| == |room.channels| && (channel < |seats| ==> (Current(room, channel) <==> seats[channel].live))
  {
    EmptyIsSound();
    RunKeepsSeats(Empty(), [], acts);
  }
}
