/**
 * The event bus on values. Operations that hold the bus mutex exclude one another; a receiver needs no
 * mutex, so it may take an event between two sends of one Publish.
 */
module BusModel {
  import opened Wrappers

  type Topic = string

  /** `ch` is the position of the subscriber's channel among all channels ever made. */
  datatype Subscriber = Subscriber(id: nat, ch: nat)

  datatype Channel<T> = Channel(buffer: seq<T>, closed: bool)

  /** What an Unsubscribe function has captured; `used` is its sync.Once. */
  datatype Handle = Handle(topic: Topic, id: nat, used: bool)

  /** `panicked` is set by a send on a closed channel and by a second close. */
  datatype Bus<T> = Bus(
    size: nat,
    subscribers: map<Topic, seq<Subscriber>>,
    channels: seq<Channel<T>>,
    handles: seq<Handle>,
    nextId: nat,
    dropped: map<Topic, nat>,
    panicked: bool)

  function SizeFor(bufferSize: int): (n: nat)
    ensures n > 0
  {
    if bufferSize <= 0 then 16 else bufferSize
  }

  function New<T>(bufferSize: int): Bus<T> {
    Bus(SizeFor(bufferSize), map[], [], [], 0, map[], false)
  }

  function SubsOf<T>(b: Bus<T>, topic: Topic): seq<Subscriber> {
    if topic in b.subscribers then b.subscribers[topic] else []
  }

  function DroppedOf<T>(b: Bus<T>, topic: Topic): nat {
    if topic in b.dropped then b.dropped[topic] else 0
  }

  function Subscribe<T>(b: Bus<T>, topic: Topic): Bus<T> {
    b.(subscribers := b.subscribers[topic := SubsOf(b, topic) + [Subscriber(b.nextId, |b.channels|)]],
       channels := b.channels + [Channel([], false)],
       handles := b.handles + [Handle(topic, b.nextId, false)],
       nextId := b.nextId + 1)
  }

  /** The first position that holds the id, or the length. */
  function Find(subs: seq<Subscriber>, id: nat): (k: nat)
    ensures k <= |subs|
    ensures k < |subs| ==> subs[k].id == id
    ensures forall j :: 0 <= j < k ==> subs[j].id != id
  {
    if subs == [] then 0
    else
      var k := Find(subs[..|subs| - 1], id);
      if k < |subs| - 1 then k else if subs[|subs| - 1].id == id then |subs| - 1 else |subs|
  }

  /** Closing a closed channel panics, and so does sending to one. */
  function Close<T>(b: Bus<T>, ch: nat): (b': Bus<T>)
    ensures |b'.channels| == |b.channels|
    ensures b'.panicked <==> b.panicked || ch >= |b.channels| || b.channels[ch].closed
  {
    if ch >= |b.channels| || b.channels[ch].closed then b.(panicked := true)
    else b.(channels := b.channels[ch := b.channels[ch].(closed := true)])
  }

  function Remove<T>(b: Bus<T>, topic: Topic, k: nat): Bus<T>
    requires k < |SubsOf(b, topic)|
  {
    var subs := SubsOf(b, topic);
    Close(b.(subscribers := b.subscribers[topic := subs[..k] + subs[k + 1..]]), subs[k].ch)
  }

  function Unsubscribe<T>(b: Bus<T>, i: nat): (b': Bus<T>)
    requires i < |b.handles|
    ensures |b'.channels| == |b.channels|
  {
    var h := b.handles[i];
    if h.used then b
    else
      var b' := b.(handles := b.handles[i := h.(used := true)]);
      var k := Find(SubsOf(b, h.topic), h.id);
      if k < |SubsOf(b, h.topic)| then Remove(b', h.topic, k) else b'
  }

  /** One send of a Publish: the event is queued, or dropped and counted when the buffer is full. */
  function Send<T>(b: Bus<T>, ch: nat, topic: Topic, event: T): (b': Bus<T>)
    ensures |b'.channels| == |b.channels|
    ensures b'.panicked <==> b.panicked || ch >= |b.channels| || b.channels[ch].closed
  {
    if ch >= |b.channels| || b.channels[ch].closed then b.(panicked := true)
    else if |b.channels[ch].buffer| < b.size
    then b.(channels := b.channels[ch := b.channels[ch].(buffer := b.channels[ch].buffer + [event])])
    else b.(dropped := b.dropped[topic := DroppedOf(b, topic) + 1])
  }

  /** A Publish that no receiver interrupts, after its first k sends. */
  function Fanout<T>(b: Bus<T>, topic: Topic, event: T, k: nat): Bus<T>
    requires k <= |SubsOf(b, topic)|
  {
    if k == 0 then b else Send(Fanout(b, topic, event, k - 1), SubsOf(b, topic)[k - 1].ch, topic, event)
  }

  /** What a receiver finds: the oldest buffered event, if there is one. */
  function Head<T>(b: Bus<T>, ch: nat): Option<T>
    requires ch < |b.channels|
  {
    if b.channels[ch].buffer == [] then None else Some(b.channels[ch].buffer[0])
  }

  function Receive<T>(b: Bus<T>, ch: nat): Bus<T>
    requires ch < |b.channels|
  {
    if b.channels[ch].buffer == [] then b
    else b.(channels := b.channels[ch := b.channels[ch].(buffer := b.channels[ch].buffer[1..])])
  }

  // ---------------------------------------------------------------- no panic

  /** A listed subscriber has an open channel of its own, made for the topic it is listed under. */
  ghost predicate SubOk<T>(b: Bus<T>, topic: Topic, sub: Subscriber) {
    && sub.id == sub.ch < |b.channels| == |b.handles|
    && !b.channels[sub.ch].closed
    && b.handles[sub.ch].topic == topic
    && !b.handles[sub.ch].used
  }

  ghost predicate Increasing(subs: seq<Subscriber>) {
    forall j, k :: 0 <= j < k < |subs| ==> subs[j].id < subs[k].id
  }

  ghost predicate SubsOk<T>(b: Bus<T>, topic: Topic) {
    var subs := SubsOf(b, topic);
    (forall k :: 0 <= k < |subs| ==> SubOk(b, topic, subs[k])) && Increasing(subs)
  }

  ghost predicate HandleOk<T>(b: Bus<T>, i: nat)
    requires i < |b.handles| && i < |b.channels|
  {
    && b.handles[i].id == i
    && b.channels[i].closed == b.handles[i].used
    && (!b.handles[i].used ==> Subscriber(i, i) in SubsOf(b, b.handles[i].topic))
    && |b.channels[i].buffer| <= b.size
  }

  ghost predicate BusOk<T>(b: Bus<T>) {
    && !b.panicked
    && b.size > 0
    && |b.channels| == |b.handles| == b.nextId
    && (forall topic :: SubsOk(b, topic))
    && (forall i :: 0 <= i < |b.handles| ==> HandleOk(b, i))
  }

  lemma SubscribeKeeps<T>(b: Bus<T>, topic: Topic)
    requires BusOk(b)
    ensures BusOk(Subscribe(b, topic))
  {
    var b' := Subscribe(b, topic);
    forall t ensures SubsOk(b', t) {
      assert SubsOk(b, t);
    }
    forall i | 0 <= i < |b'.handles| ensures HandleOk(b', i) {
      if i < |b.handles| {
        assert HandleOk(b, i);
      } else {
        assert SubsOf(b', topic)[|SubsOf(b, topic)|] == Subscriber(i, i);
      }
    }
  }

  function Without(subs: seq<Subscriber>, k: nat): seq<Subscriber> {
    if k < |subs| then subs[..k] + subs[k + 1..] else subs
  }

  /** An Unsubscribe closes its channel, marks its handle and takes its subscriber off the list, once. */
  lemma UnsubscribeEffect<T>(b: Bus<T>, i: nat)
    requires BusOk(b) && i < |b.handles|
    ensures var b', topic := Unsubscribe(b, i), b.handles[i].topic;
            && b'.channels == b.channels[i := b.channels[i].(closed := true)]
            && b'.handles == b.handles[i := b.handles[i].(used := true)]
            && b'.(subscribers := b.subscribers, channels := b.channels, handles := b.handles) == b
            && (forall t :: t != topic ==> SubsOf(b', t) == SubsOf(b, t))
            && SubsOf(b', topic) == if b.handles[i].used then SubsOf(b, topic)
                                    else Without(SubsOf(b, topic), Find(SubsOf(b, topic), i))
  {
    var h, b' := b.handles[i], Unsubscribe(b, i);
    assert HandleOk(b, i);
    if h.used {
      assert b.channels[i := b.channels[i].(closed := true)] == b.channels;
      assert b.handles[i := b.handles[i].(used := true)] == b.handles;
    } else {
      assert SubsOk(b, h.topic);
      var k := Find(SubsOf(b, h.topic), i);
      assert k < |SubsOf(b, h.topic)| && SubsOf(b, h.topic)[k].ch == i;
    }
  }

  lemma WithoutKeepsOrder(subs: seq<Subscriber>, k: nat)
    requires Increasing(subs) && k < |subs|
    ensures Increasing(Without(subs, k))
    ensures forall p :: 0 <= p < |Without(subs, k)| ==>
              Without(subs, k)[p] in subs && Without(subs, k)[p].id != subs[k].id
  {
    var subs' := Without(subs, k);
    assert forall p :: 0 <= p < |subs'| ==> subs'[p] == subs[if p < k then p else p + 1];
  }

  lemma UnsubscribeKeepsSub<T>(b: Bus<T>, i: nat, t: Topic, sub: Subscriber)
    requires BusOk(b) && i < |b.handles| && SubOk(b, t, sub) && sub.id != i
    ensures SubOk(Unsubscribe(b, i), t, sub)
  {
    UnsubscribeEffect(b, i);
    hide BusOk, Unsubscribe;
  }

  lemma UnsubscribeKeepsSubs<T>(b: Bus<T>, i: nat, t: Topic)
    requires BusOk(b) && i < |b.handles|
    ensures SubsOk(Unsubscribe(b, i), t)
  {
    UnsubscribeEffect(b, i);
    TopicOk(b, t);
    hide BusOk, Unsubscribe, Find, SubOk, Increasing;
    var subs, subs' := SubsOf(b, t), SubsOf(Unsubscribe(b, i), t);
    if b.handles[i].used {
      UsedIsDone(b, i);
    } else if t == b.handles[i].topic {
      Listed(b, i);
      WithoutKeepsOrder(subs, Find(subs, i));
      forall p | 0 <= p < |subs'| ensures SubOk(Unsubscribe(b, i), t, subs'[p]) {
        UnsubscribeKeepsSub(b, i, t, subs'[p]);
      }
    } else {
      forall p | 0 <= p < |subs'| ensures SubOk(Unsubscribe(b, i), t, subs'[p]) {
        assert SubOk(b, t, subs[p]);
        TopicOfSub(b, t, subs[p]);
        UnsubscribeKeepsSub(b, i, t, subs'[p]);
      }
    }
  }

  lemma UsedIsDone<T>(b: Bus<T>, i: nat)
    requires i < |b.handles| && b.handles[i].used
    ensures Unsubscribe(b, i) == b
  {}

  lemma TopicOfSub<T>(b: Bus<T>, t: Topic, sub: Subscriber)
    requires SubOk(b, t, sub)
    ensures sub.id < |b.handles| && b.handles[sub.id].topic == t
  {}

  lemma TopicOk<T>(b: Bus<T>, t: Topic)
    requires BusOk(b)
    ensures SubsOk(b, t)
  {}

  lemma Listed<T>(b: Bus<T>, i: nat)
    requires BusOk(b) && i < |b.handles| && !b.handles[i].used
    ensures var subs := SubsOf(b, b.handles[i].topic);
            Find(subs, i) < |subs| && subs[Find(subs, i)] == Subscriber(i, i)
  {
    assert HandleOk(b, i);
    assert SubsOk(b, b.handles[i].topic);
  }

  lemma UnsubscribeKeepsHandle<T>(b: Bus<T>, i: nat, j: nat)
    requires BusOk(b) && i < |b.handles| && j < |b.handles| == |b.channels|
    requires |Unsubscribe(b, i).handles| == |b.handles| == |Unsubscribe(b, i).channels|
    ensures HandleOk(Unsubscribe(b, i), j)
  {
    UnsubscribeEffect(b, i);
    assert HandleOk(b, j) && HandleOk(b, i);
    hide BusOk, Unsubscribe;
    var h := b.handles[i];
    if !h.used && j != i && b.handles[j].topic == h.topic && !b.handles[j].used {
      StillListed(SubsOf(b, h.topic), Find(SubsOf(b, h.topic), i), Subscriber(j, j));
    }
  }

  lemma HandleIsOwn<T>(b: Bus<T>, i: nat)
    requires BusOk(b) && i < |b.handles|
    ensures b.handles[i].id == i
  {
    assert HandleOk(b, i);
  }

  lemma StillListed(subs: seq<Subscriber>, k: nat, sub: Subscriber)
    requires sub in subs && (k < |subs| ==> subs[k] != sub)
    ensures sub in Without(subs, k)
  {
    var at :| 0 <= at < |subs| && subs[at] == sub;
    assert k < |subs| ==> Without(subs, k)[if at < k then at else at - 1] == sub;
  }

  lemma UnsubscribeKeeps<T>(b: Bus<T>, i: nat)
    requires BusOk(b) && i < |b.handles|
    ensures BusOk(Unsubscribe(b, i))
  {
    hide Unsubscribe, SubsOk, HandleOk;
    UnsubscribeEffect(b, i);
    forall t ensures SubsOk(Unsubscribe(b, i), t) {
      UnsubscribeKeepsSubs(b, i, t);
    }
    forall j | 0 <= j < |b.handles| ensures HandleOk(Unsubscribe(b, i), j) {
      UnsubscribeKeepsHandle(b, i, j);
    }
  }

  lemma SendKeeps<T>(b: Bus<T>, ch: nat, topic: Topic, event: T)
    requires BusOk(b) && ch < |b.channels| && !b.channels[ch].closed
    ensures BusOk(Send(b, ch, topic, event))
  {
    var b' := Send(b, ch, topic, event);
    forall t ensures SubsOk(b', t) {
      assert SubsOk(b, t);
    }
    forall i | 0 <= i < |b'.handles| ensures HandleOk(b', i) {
      assert HandleOk(b, i);
    }
  }

  lemma ReceiveKeeps<T>(b: Bus<T>, ch: nat)
    requires BusOk(b) && ch < |b.channels|
    ensures BusOk(Receive(b, ch))
  {
    var b' := Receive(b, ch);
    forall t ensures SubsOk(b', t) {
      assert SubsOk(b, t);
    }
    forall i | 0 <= i < |b'.handles| ensures HandleOk(b', i) {
      assert HandleOk(b, i);
    }
  }

  /** No send of an uninterrupted Publish meets a closed channel. */
  lemma {:induction false} FanoutKeeps<T>(b: Bus<T>, topic: Topic, event: T, k: nat)
    requires BusOk(b) && k <= |SubsOf(b, topic)|
    ensures var b' := Fanout(b, topic, event, k);
            && BusOk(b') && b'.subscribers == b.subscribers && |b'.channels| == |b.channels|
            && b'.(channels := b.channels, dropped := b.dropped) == b
            && (forall i :: 0 <= i < |b.channels| ==> b'.channels[i].closed == b.channels[i].closed)
    decreases k
  {
    hide BusOk;
    if k > 0 {
      FanoutKeeps(b, topic, event, k - 1);
      var before, sub := Fanout(b, topic, event, k - 1), SubsOf(b, topic)[k - 1];
      SubOpen(b, topic, k - 1);
      SendKeeps(before, sub.ch, topic, event);
    }
  }

  lemma SubOpen<T>(b: Bus<T>, topic: Topic, k: nat)
    requires BusOk(b) && k < |SubsOf(b, topic)|
    ensures var ch := SubsOf(b, topic)[k].ch; ch < |b.channels| && !b.channels[ch].closed
    ensures var ch := SubsOf(b, topic)[k].ch; ch < |b.handles| && b.handles[ch].topic == topic
  {
    assert SubsOk(b, topic);
  }
}
