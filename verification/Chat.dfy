/** The server chat: a bounded history, and a stream of events for every subscriber. */
module Chat {
  datatype ChatMessage = ChatMessage(author: string, system: bool, warning: bool, text: string)

  datatype Event = Message(message: ChatMessage) | MessageHistory(messages: seq<ChatMessage>)

  /** A channel to a subscriber: whether its receiver still exists, and everything that was sent into it. */
  datatype Channel = Channel(open: bool, events: seq<Event>)

  const HISTORY_LENGTH: nat := 100

  const DEVELOPMENT_WARNING := ChatMessage("", true, true,
    "The fost-server is under development.\nDo not expect all features to work properly.\n\n"
    + "Report bugs: https://github.com/WolverinDEV/protanki-protocol-rs")

  /** Subscribers are known by client id; their channels by number. */
  datatype Room = Room(subscribers: map<nat, nat>, channels: seq<Channel>, history: seq<ChatMessage>)

  /** Every subscriber has a channel of its own. */
  predicate IsRoom(r: Room) {
    && (forall id :: id in r.subscribers ==> r.subscribers[id] < |r.channels|)
    && (forall id, id' :: id in r.subscribers && id' in r.subscribers && id != id' ==> r.subscribers[id] != r.subscribers[id'])
  }

  // ---------------------------------------------------------------- the operations as functions

  /** Some client in `ids` listens on the channel. */
  predicate Listens(r: Room, ids: set<nat>, channel: nat) {
    exists id :: id in ids && id in r.subscribers && r.subscribers[id] == channel
  }

  /** A send reaches the receiver if there still is one. */
  function Told(c: Channel, e: Event): Channel {
    if c.open then c.(events := c.events + [e]) else c
  }

  /** The clients in `ids` get the event if they still listen, and are forgotten if they do not. */
  function DispatchTo(r: Room, e: Event, ids: set<nat>): Room
    requires IsRoom(r)
  {
    r.(channels := seq(|r.channels|, i requires 0 <= i < |r.channels| =>
                    if Listens(r, ids, i) then Told(r.channels[i], e) else r.channels[i]),
       subscribers := map id | id in r.subscribers && (id !in ids || r.channels[r.subscribers[id]].open) :: r.subscribers[id])
  }

  function Dispatch(r: Room, e: Event): (r': Room)
    requires IsRoom(r)
  {
    DispatchTo(r, e, r.subscribers.Keys)
  }

  /** One more client. */
  lemma DispatchOneMore(r: Room, e: Event, ids: set<nat>, id: nat)
    requires IsRoom(r) && id in r.subscribers && id !in ids
    ensures var before, after := DispatchTo(r, e, ids), DispatchTo(r, e, ids + {id});
            var i := r.subscribers[id];
            && id in before.subscribers && before.subscribers[id] == i
            && i < |before.channels| == |r.channels| && before.channels[i] == r.channels[i]
            && after == before.(channels := after.channels, subscribers := after.subscribers)
            && after.channels == before.channels[i := Told(r.channels[i], e)]
            && after.subscribers == if r.channels[i].open then before.subscribers else before.subscribers - {id}
  {
    var i := r.subscribers[id];
    forall j | 0 <= j < |r.channels|
      ensures Listens(r, ids + {id}, j) <==> Listens(r, ids, j) || j == i
    {
      if Listens(r, ids, j) {
        var k :| k in ids && k in r.subscribers && r.subscribers[k] == j;
        assert k in ids + {id};
      }
      if j == i {
        assert id in ids + {id};
      }
    }
  }

  lemma DispatchToNobody(r: Room, e: Event)
    requires IsRoom(r)
    ensures DispatchTo(r, e, {}) == r
  {
  }

  lemma DispatchKeepsRoom(r: Room, e: Event, ids: set<nat>)
    requires IsRoom(r)
    ensures IsRoom(DispatchTo(r, e, ids)) && DispatchTo(r, e, ids).history == r.history
  {
  }

  function Trimmed(history: seq<ChatMessage>): seq<ChatMessage> {
    if |history| > HISTORY_LENGTH then Trimmed(history[1..]) else history
  }

  function Register(r: Room, m: ChatMessage): Room
    requires IsRoom(r)
  {
    var r' := Dispatch(r, Message(m));
    r'.(history := Trimmed(r'.history + [m]))
  }

  /** The message list of a subscriber starts with the history and a warning, before anything else can come. */
  function Subscribe(r: Room, id: nat): Room {
    var greeting := [MessageHistory(r.history), Message(DEVELOPMENT_WARNING)];
    r.(subscribers := r.subscribers[id := |r.channels|], channels := r.channels + [Channel(true, greeting)])
  }

  /** The receiver of a channel is dropped. */
  function Drop(r: Room, channel: nat): Room
    requires channel < |r.channels|
  {
    r.(channels := r.channels[channel := r.channels[channel].(open := false)])
  }

  // ---------------------------------------------------------------- the running chat

  class ServerChat {
    var subscribers: map<nat, nat>
    var channels: seq<Channel>
    var history: seq<ChatMessage>

    ghost function State(): Room
      reads this
    {
      Room(subscribers, channels, history)
    }

    constructor ()
      ensures State() == Room(map[], [], []) && IsRoom(State())
    {
      subscribers, channels, history := map[], [], [];
    }

    /** Sends to one subscriber, who is forgotten if the receiver is gone. */
    method Tell(id: nat, e: Event)
      requires id in subscribers && subscribers[id] < |channels|
      modifies this`subscribers, this`channels
      ensures channels == old(channels)[old(subscribers)[id] := Told(old(channels)[old(subscribers)[id]], e)]
      ensures subscribers == if old(channels)[old(subscribers)[id]].open then old(subscribers) else old(subscribers) - {id}
    {
      var i := subscribers[id];
      if channels[i].open {
        channels := channels[i := channels[i].(events := channels[i].events + [e])];
      } else {
        subscribers := subscribers - {id};
      }
    }

    method DispatchServerEvent(e: Event)
      requires IsRoom(State())
      modifies this`subscribers, this`channels
      ensures State() == Dispatch(old(State()), e) && IsRoom(State())
    {
      hide DispatchTo, IsRoom, Listens;
      ghost var before := State();
      var rest := subscribers.Keys;
      ghost var told: set<nat> := {};
      DispatchToNobody(before, e);
      while rest != {}
        invariant rest + told == before.subscribers.Keys && rest !! told
        invariant State() == DispatchTo(before, e, told)
        decreases |rest|
      {
        var id: nat :| id in rest;
        DispatchOneMore(before, e, told, id);
        Tell(id, e);
        rest, told := rest - {id}, told + {id};
      }
      assert told == before.subscribers.Keys;
      DispatchKeepsRoom(before, e, told);
    }

    method RegisterChatMessage(m: ChatMessage)
      requires IsRoom(State())
      modifies this
      ensures State() == Register(old(State()), m) && IsRoom(State())
    {
      hide Dispatch;
      DispatchServerEvent(Message(m));
      history := history + [m];
      while |history| > HISTORY_LENGTH
        invariant Trimmed(history) == Trimmed(old(history) + [m])
        invariant subscribers == Dispatch(old(State()), Message(m)).subscribers
        invariant channels == Dispatch(old(State()), Message(m)).channels
      {
        history := history[1..];
      }
    }

    method RegisterSystemMessage(text: string, warning: bool)
      requires IsRoom(State())
      modifies this
      ensures State() == Register(old(State()), ChatMessage("", true, warning, text)) && IsRoom(State())
    {
      RegisterChatMessage(ChatMessage("", true, warning, text));
    }

    /** The target of a message is not looked at. */
    method RegisterMessage(userId: string, targetUserId: string, message: string)
      requires IsRoom(State())
      modifies this
      ensures State() == Register(old(State()), ChatMessage(userId, false, false, message)) && IsRoom(State())
    {
      RegisterChatMessage(ChatMessage(userId, false, false, message));
    }

    method SendMessageHistory(id: nat)
      requires IsRoom(State())
      modifies this`channels
      ensures IsRoom(State())
      ensures var greeting := [MessageHistory(history), Message(DEVELOPMENT_WARNING)];
              channels == if id in subscribers && old(channels)[subscribers[id]].open
                          then var i := subscribers[id]; old(channels)[i := Channel(true, old(channels)[i].events + greeting)]
                          else old(channels)
    {
      if id !in subscribers {
        return;
      }
      var i := subscribers[id];
      if channels[i].open {
        channels := channels[i := channels[i].(events := channels[i].events + [MessageHistory(history)])];
        channels := channels[i := channels[i].(events := channels[i].events + [Message(DEVELOPMENT_WARNING)])];
        assert channels[i].events == old(channels)[i].events + [MessageHistory(history), Message(DEVELOPMENT_WARNING)];
      }
    }

    /** A component subscribes: its new channel replaces the one it may have had. */
    method SubscribeClient(id: nat) returns (channel: nat)
      requires IsRoom(State())
      modifies this
      ensures IsRoom(State()) && channel == |old(channels)|
      ensures State() == Subscribe(old(State()), id)
    {
      channel := |channels|;
      channels := channels + [Channel(true, [])];
      subscribers := subscribers[id := channel];
      SendMessageHistory(id);
      assert [] + [MessageHistory(history), Message(DEVELOPMENT_WARNING)] == [MessageHistory(history), Message(DEVELOPMENT_WARNING)];
    }

    method DropReceiver(channel: nat)
      requires IsRoom(State()) && channel < |channels|
      modifies this`channels
      ensures State() == Drop(old(State()), channel) && IsRoom(State())
    {
      channels := channels[channel := channels[channel].(open := false)];
    }
  }
}
