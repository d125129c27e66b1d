/** The bus as an object; its channels are kept by their position, so a subscriber can outlive its listing. */
module Bus {
  import opened Wrappers
  import M = BusModel

  class EventBus<T> {
    const bufferSize: nat
    var subscribers: map<M.Topic, seq<M.Subscriber>>
    var channels: seq<M.Channel<T>>
    var handles: seq<M.Handle>
    var nextId: nat
    var dropped: map<M.Topic, nat>

    ghost function View(): M.Bus<T>
      reads this
    {
      M.Bus(bufferSize, subscribers, channels, handles, nextId, dropped, false)
    }

    ghost predicate Valid()
      reads this
    {
      M.BusOk(View())
    }

    constructor (size: int)
      ensures Valid() && View() == M.New(size)
      ensures bufferSize == if size <= 0 then 16 else size
    {
      bufferSize := if size <= 0 then 16 else size;
      subscribers, channels, handles, nextId, dropped := map[], [], [], 0, map[];
      new;
      forall topic ensures M.SubsOk(View(), topic) {}
    }

    /** The channel and the Unsubscribe function are both known by the number returned. */
    method Subscribe(topic: M.Topic) returns (i: nat)
      requires Valid()
      modifies this
      ensures Valid() && i == old(nextId) && View() == M.Subscribe(old(View()), topic)
    {
      M.SubscribeKeeps(View(), topic);
      i := nextId;
      var sub := M.Subscriber(i, |channels|);
      channels := channels + [M.Channel([], false)];
      subscribers := subscribers[topic := (if topic in subscribers then subscribers[topic] else []) + [sub]];
      handles := handles + [M.Handle(topic, i, false)];
      nextId := nextId + 1;
    }

    /** Closing a closed channel would panic; every call shows that it does not happen. */
    method Close(ch: nat)
      requires ch < |channels| && !channels[ch].closed
      modifies this`channels
      ensures channels == old(channels[ch := channels[ch].(closed := true)])
    {
      channels := channels[ch := channels[ch].(closed := true)];
    }

    method Unsubscribe(i: nat)
      requires Valid() && i < |handles|
      modifies this
      ensures Valid() && View() == M.Unsubscribe(old(View()), i)
    {
      hide M.BusOk;
      ghost var was := View();
      M.UnsubscribeKeeps(was, i);
      var h := handles[i];
      if h.used {
        return;
      }
      M.Listed(was, i);
      M.HandleIsOwn(was, i);
      handles := handles[i := h.(used := true)];
      var subs := if h.topic in subscribers then subscribers[h.topic] else [];
      var k := 0;
      while k < |subs|
        invariant k <= M.Find(subs, h.id) && View() == was.(handles := was.handles[i := h.(used := true)])
      {
        assert M.Find(subs, h.id) < |subs|;
        if subs[k].id == h.id {
          subscribers := subscribers[h.topic := subs[..k] + subs[k + 1..]];
          M.SubOpen(was, h.topic, k);
          Close(subs[k].ch);
          return;
        }
        k := k + 1;
      }
    }

    /** Sending on a closed channel would panic; every call shows that it does not happen. */
    method TrySend(ch: nat, event: T) returns (sent: bool)
      requires ch < |channels| && !channels[ch].closed
      modifies this`channels
      ensures sent <==> |old(channels[ch].buffer)| < bufferSize
      ensures channels == if sent then old(channels[ch := channels[ch].(buffer := channels[ch].buffer + [event])])
                          else old(channels)
    {
      sent := |channels[ch].buffer| < bufferSize;
      if sent {
        channels := channels[ch := channels[ch].(buffer := channels[ch].buffer + [event])];
      }
    }

    /** The select statement: a full buffer means that the event is dropped and counted. */
    method Offer(ch: nat, topic: M.Topic, event: T)
      requires ch < |channels| && !channels[ch].closed
      modifies this`channels, this`dropped
      ensures View() == M.Send(old(View()), ch, topic, event)
    {
      var sent := TrySend(ch, event);
      if !sent {
        dropped := dropped[topic := (if topic in dropped then dropped[topic] else 0) + 1];
      }
    }

    method Publish(topic: M.Topic, event: T)
      requires Valid()
      modifies this
      ensures Valid()
      ensures View() == M.Fanout(old(View()), topic, event, |M.SubsOf(old(View()), topic)|)
    {
      hide M.BusOk, M.Send;
      ghost var was := View();
      var subs := if topic in subscribers then subscribers[topic] else [];
      var k := 0;
      while k < |subs|
        invariant k <= |subs| && View() == M.Fanout(was, topic, event, k)
      {
        M.SubOpen(was, topic, k);
        M.FanoutKeeps(was, topic, event, k);
        Offer(subs[k].ch, topic, event);
        k := k + 1;
      }
      M.FanoutKeeps(was, topic, event, k);
    }

    method Receive(ch: nat) returns (event: Option<T>)
      requires Valid() && ch < |channels|
      modifies this`channels
      ensures Valid() && event == M.Head(old(View()), ch) && View() == M.Receive(old(View()), ch)
    {
      M.ReceiveKeeps(View(), ch);
      if channels[ch].buffer == [] {
        return None;
      }
      event := Some(channels[ch].buffer[0]);
      channels := channels[ch := channels[ch].(buffer := channels[ch].buffer[1..])];
    }

    method Dropped(topic: M.Topic) returns (n: nat)
      ensures n == M.DroppedOf(View(), topic)
    {
      n := if topic in dropped then dropped[topic] else 0;
    }

    method SubscriberCount(topic: M.Topic) returns (n: nat)
      ensures n == |M.SubsOf(View(), topic)|
    {
      n := if topic in subscribers then |subscribers[topic]| else 0;
    }
  }
}
