/** Every run of the bus, with a record of what each subscriber was offered and what it received. */
module BusHistory {
  import opened Wrappers
  import opened BusModel

  /** A Publish under way: it holds the mutex and has served its first `next` subscribers. */
  datatype Publishing<T> = Publishing(topic: Topic, event: T, next: nat)

  /**
   * For each subscriber, `offered` holds the events published on its topic while it was subscribed and
   * `received` the events it has taken; `asked` sums the subscriber counts over a topic's publishes.
   */
  datatype Trace<T> = Trace(
    bus: Bus<T>,
    busy: Option<Publishing<T>>,
    offered: seq<seq<T>>,
    received: seq<seq<T>>,
    asked: map<Topic, nat>)

  datatype Event<T> =
    | SubscribeEvent(topic: Topic)
    | UnsubscribeEvent(i: nat)
    | PublishEvent(topic: Topic, event: T)
    | SendEvent
    | ReceiveEvent(ch: nat)

  predicate Subscribed<T>(b: Bus<T>, i: nat, topic: Topic) {
    i < |b.handles| && b.handles[i].topic == topic && !b.handles[i].used
  }

  function AskedOf<T>(h: Trace<T>, topic: Topic): nat {
    if topic in h.asked then h.asked[topic] else 0
  }

  /** One event; what needs the mutex waits, and so changes nothing, while a Publish holds it. */
  function Step<T>(h: Trace<T>, e: Event<T>): (h': Trace<T>)
    requires |h.received| == |h.bus.channels|
    ensures |h'.received| == |h'.bus.channels|
  {
    match e
    case SubscribeEvent(topic) =>
      if h.busy.Some? then h
      else h.(bus := Subscribe(h.bus, topic), offered := h.offered + [[]], received := h.received + [[]])
    case UnsubscribeEvent(i) =>
      if h.busy.Some? || i >= |h.bus.handles| then h else h.(bus := Unsubscribe(h.bus, i))
    case PublishEvent(topic, event) =>
      if h.busy.Some? then h
      else
        h.(busy := Some(Publishing(topic, event, 0)),
           offered := seq(|h.offered|, i requires 0 <= i < |h.offered| =>
             h.offered[i] + if Subscribed(h.bus, i, topic) then [event] else []),
           asked := h.asked[topic := AskedOf(h, topic) + |SubsOf(h.bus, topic)|])
    case SendEvent =>
      if h.busy.None? then h
      else
        var p := h.busy.value;
        if p.next < |SubsOf(h.bus, p.topic)|
        then h.(bus := Send(h.bus, SubsOf(h.bus, p.topic)[p.next].ch, p.topic, p.event),
                busy := Some(p.(next := p.next + 1)))
        else h.(busy := None)
    case ReceiveEvent(ch) =>
      if ch >= |h.bus.channels| || Head(h.bus, ch).None? then h
      else h.(bus := Receive(h.bus, ch), received := h.received[ch := h.received[ch] + [Head(h.bus, ch).value]])
  }

  // ---------------------------------------------------------------- subsequences

  predicate IsSubseq<T(==)>(a: seq<T>, b: seq<T>) {
    || a == []
    || (b != [] && ((a[|a| - 1] == b[|b| - 1] && IsSubseq(a[..|a| - 1], b[..|b| - 1])) || IsSubseq(a, b[..|b| - 1])))
  }

  lemma SubseqGrows<T>(a: seq<T>, b: seq<T>, x: T)
    requires IsSubseq(a, b)
    ensures IsSubseq(a, b + [x]) && IsSubseq(a + [x], b + [x])
  {
    assert (b + [x])[..|b|] == b && (a + [x])[..|a|] == a;
  }

  /** What the definition means: an increasing choice of positions in b that spells a. */
  lemma {:induction false} SubseqPositions<T>(a: seq<T>, b: seq<T>) returns (at: seq<nat>)
    requires IsSubseq(a, b)
    ensures |at| == |a| && forall k :: 0 <= k < |a| ==> at[k] < |b| && b[at[k]] == a[k]
    ensures forall j, k :: 0 <= j < k < |a| ==> at[j] < at[k]
    decreases |b|
  {
    if a == [] {
      at := [];
    } else if a[|a| - 1] == b[|b| - 1] && IsSubseq(a[..|a| - 1], b[..|b| - 1]) {
      at := SubseqPositions(a[..|a| - 1], b[..|b| - 1]);
      at := at + [|b| - 1];
    } else {
      at := SubseqPositions(a, b[..|b| - 1]);
    }
  }

  // ---------------------------------------------------------------- what every run keeps

  ghost predicate Shape<T>(h: Trace<T>) {
    && BusOk(h.bus)
    && |h.offered| == |h.received| == |h.bus.channels|
    && (h.busy.Some? ==> h.busy.value.next <= |SubsOf(h.bus, h.busy.value.topic)|)
  }

  /** What has reached a subscriber: what it received, then what waits in its channel. */
  function Got<T>(h: Trace<T>, i: nat): seq<T>
    requires i < |h.received| == |h.bus.channels|
  {
    h.received[i] + h.bus.channels[i].buffer
  }

  /** The Publish under way has yet to serve this subscriber. */
  ghost predicate Pending<T>(h: Trace<T>, i: nat) {
    h.busy.Some? &&
    var subs := SubsOf(h.bus, h.busy.value.topic);
    exists k :: h.busy.value.next <= k < |subs| && subs[k].ch == i
  }

  ghost predicate GotOk<T>(h: Trace<T>, i: nat)
    requires i < |h.offered| == |h.received| == |h.bus.channels|
  {
    if Pending(h, i)
    then
      && h.offered[i] != []
      && h.offered[i][|h.offered[i]| - 1] == h.busy.value.event
      && IsSubseq(Got(h, i), h.offered[i][..|h.offered[i]| - 1])
    else IsSubseq(Got(h, i), h.offered[i])
  }

  /** How many events of a topic have reached the first n subscribers. */
  function Delivered<T>(h: Trace<T>, topic: Topic, n: nat): nat
    requires n <= |h.received| == |h.bus.channels| == |h.bus.handles|
  {
    if n == 0 then 0
    else Delivered(h, topic, n - 1) + if h.bus.handles[n - 1].topic == topic then |Got(h, n - 1)| else 0
  }

  function Remaining<T>(h: Trace<T>, topic: Topic): int {
    if h.busy.Some? && h.busy.value.topic == topic then |SubsOf(h.bus, topic)| - h.busy.value.next else 0
  }

  ghost predicate Balanced<T>(h: Trace<T>, topic: Topic)
    requires |h.received| == |h.bus.channels| == |h.bus.handles|
  {
    AskedOf(h, topic) == Delivered(h, topic, |h.received|) + DroppedOf(h.bus, topic) + Remaining(h, topic)
  }

  ghost predicate Inv<T>(h: Trace<T>) {
    && Shape(h)
    && (forall i :: 0 <= i < |h.offered| ==> GotOk(h, i))
    && (forall topic :: Balanced(h, topic))
  }

  // ---------------------------------------------------------------- counting

  /** Two traces agree on the first n subscribers, except that one got an event more in the second. */
  ghost predicate OneMore<T>(h: Trace<T>, h': Trace<T>, n: nat, ch: int)
    requires n <= |h.received| == |h.bus.channels| == |h.bus.handles|
    requires n <= |h'.received| == |h'.bus.channels| == |h'.bus.handles|
  {
    forall i :: 0 <= i < n ==>
      && h'.bus.handles[i].topic == h.bus.handles[i].topic
      && |Got(h', i)| == |Got(h, i)| + if i == ch then 1 else 0
  }

  lemma {:induction false} DeliveredOneMore<T>(h: Trace<T>, h': Trace<T>, topic: Topic, n: nat, ch: int)
    requires n <= |h.received| == |h.bus.channels| == |h.bus.handles|
    requires n <= |h'.received| == |h'.bus.channels| == |h'.bus.handles|
    requires OneMore(h, h', n, ch)
    ensures Delivered(h', topic, n) == Delivered(h, topic, n)
                                     + if 0 <= ch < n && h.bus.handles[ch].topic == topic then 1 else 0
  {
    if n > 0 {
      DeliveredOneMore(h, h', topic, n - 1, ch);
    }
  }

  // ---------------------------------------------------------------- one step

  lemma SubscribedIsListed<T>(b: Bus<T>, i: nat, topic: Topic)
    requires BusOk(b) && i < |b.channels|
    ensures Subscribed(b, i, topic) <==> exists k :: 0 <= k < |SubsOf(b, topic)| && SubsOf(b, topic)[k].ch == i
  {
    assert SubsOk(b, topic) && HandleOk(b, i);
    if Subscribed(b, i, topic) {
      var k :| 0 <= k < |SubsOf(b, topic)| && SubsOf(b, topic)[k] == Subscriber(i, i);
      assert SubsOf(b, topic)[k].ch == i;
    }
    if k :| 0 <= k < |SubsOf(b, topic)| && SubsOf(b, topic)[k].ch == i {
      assert SubOk(b, topic, SubsOf(b, topic)[k]);
    }
  }

  lemma SubscribeStep<T>(h: Trace<T>, topic: Topic)
    requires Inv(h) && h.busy.None?
    ensures Inv(Step(h, SubscribeEvent(topic)))
  {
    SubscribeKeeps(h.bus, topic);
    var h' := Step(h, SubscribeEvent(topic));
    hide BusOk, IsSubseq;
    forall i | 0 <= i < |h'.offered| ensures GotOk(h', i) {
      if i < |h.offered| {
        assert GotOk(h, i);
      } else {
        assert Got(h', i) == [];
        NothingIsSubseq(h'.offered[i]);
      }
    }
    forall t ensures Balanced(h', t) {
      assert Balanced(h, t);
      assert |h.bus.handles| == |h.bus.channels| by { SameLengths(h.bus); }
      DeliveredOneMore(h, h', t, |h.received|, -1);
    }
  }

  lemma SameLengths<T>(b: Bus<T>)
    requires BusOk(b)
    ensures |b.channels| == |b.handles|
  {}

  lemma NothingIsSubseq<T>(b: seq<T>)
    ensures IsSubseq([], b)
  {}

  /** An unsubscribe closes a channel and leaves everything that was received, buffered and offered. */
  lemma UnsubscribeLeaves<T>(h: Trace<T>, i: nat)
    requires Shape(h) && h.busy.None? && i < |h.bus.handles|
    ensures var h' := Step(h, UnsubscribeEvent(i));
            && h'.busy.None? && h'.offered == h.offered && h'.received == h.received && h'.asked == h.asked
            && |h'.bus.channels| == |h.bus.channels| == |h'.bus.handles| == |h.bus.handles|
            && h'.bus.dropped == h.bus.dropped
            && (forall j :: 0 <= j < |h.bus.channels| ==>
                  && h'.bus.channels[j].buffer == h.bus.channels[j].buffer
                  && h'.bus.handles[j].topic == h.bus.handles[j].topic)
  {
    UnsubscribeEffect(h.bus, i);
    SameLengths(h.bus);
    hide BusOk, Unsubscribe;
  }

  lemma UnsubscribeStep<T>(h: Trace<T>, i: nat)
    requires Inv(h) && h.busy.None? && i < |h.bus.handles|
    ensures Inv(Step(h, UnsubscribeEvent(i)))
  {
    UnsubscribeKeeps(h.bus, i);
    var h' := Step(h, UnsubscribeEvent(i));
    assert h'.bus == Unsubscribe(h.bus, i);
    UnsubscribeLeaves(h, i);
    hide BusOk, IsSubseq, Unsubscribe, Step;
    forall j | 0 <= j < |h'.offered| ensures GotOk(h', j) {
      assert GotOk(h, j);
      assert Got(h', j) == Got(h, j);
    }
    forall t ensures Balanced(h', t) {
      assert Balanced(h, t);
      DeliveredOneMore(h, h', t, |h.received|, -1);
    }
  }

  lemma PublishStep<T>(h: Trace<T>, topic: Topic, event: T)
    requires Inv(h) && h.busy.None?
    ensures Inv(Step(h, PublishEvent(topic, event)))
  {
    SameLengths(h.bus);
    var h' := Step(h, PublishEvent(topic, event));
    forall i | 0 <= i < |h'.offered| ensures GotOk(h', i) {
      assert GotOk(h, i);
      SubscribedIsListed(h.bus, i, topic);
      if Subscribed(h.bus, i, topic) {
        assert Pending(h', i);
        assert h'.offered[i][..|h'.offered[i]| - 1] == h.offered[i];
      } else {
        assert !Pending(h', i);
        assert h'.offered[i] == h.offered[i];
      }
    }
    forall t ensures Balanced(h', t) {
      assert Balanced(h, t);
      DeliveredOneMore(h, h', t, |h.received|, -1);
    }
  }

  /** The mutex is released once every subscriber has been served. */
  lemma ReleaseStep<T>(h: Trace<T>)
    requires Inv(h) && h.busy.Some? && h.busy.value.next == |SubsOf(h.bus, h.busy.value.topic)|
    ensures Inv(Step(h, SendEvent))
  {
    SameLengths(h.bus);
    var h' := Step(h, SendEvent);
    hide BusOk, IsSubseq;
    forall i | 0 <= i < |h'.offered| ensures GotOk(h', i) {
      assert GotOk(h, i);
    }
    forall t ensures Balanced(h', t) {
      assert Balanced(h, t);
      DeliveredOneMore(h, h', t, |h.received|, -1);
    }
  }

  lemma SendStep<T>(h: Trace<T>)
    requires Inv(h) && h.busy.Some? && h.busy.value.next < |SubsOf(h.bus, h.busy.value.topic)|
    ensures Inv(Step(h, SendEvent))
  {
    var p := h.busy.value;
    var ch := SubsOf(h.bus, p.topic)[p.next].ch;
    SubOpen(h.bus, p.topic, p.next);
    SendKeeps(h.bus, ch, p.topic, p.event);
    SameLengths(h.bus);
    var h' := Step(h, SendEvent);
    forall i | 0 <= i < |h'.offered| ensures GotOk(h', i) {
      assert GotOk(h, i);
      SendGot(h, i);
    }
    forall t ensures Balanced(h', t) {
      assert Balanced(h, t);
      DeliveredOneMore(h, h', t, |h.received|, if |h.bus.channels[ch].buffer| < h.bus.size then ch else -1);
    }
  }

  lemma SendEffect<T>(b: Bus<T>, ch: nat, topic: Topic, event: T)
    requires ch < |b.channels| && !b.channels[ch].closed
    ensures var b' := Send(b, ch, topic, event);
            && b'.subscribers == b.subscribers && |b'.channels| == |b.channels|
            && (forall i :: 0 <= i < |b.channels| && i != ch ==> b'.channels[i] == b.channels[i])
            && b'.channels[ch].buffer
               == b.channels[ch].buffer + if |b.channels[ch].buffer| < b.size then [event] else []
  {}

  /** Later positions of a listed subscriber's channel do not occur. */
  lemma ListedOnce<T>(b: Bus<T>, topic: Topic, j: nat, k: nat)
    requires BusOk(b) && j < k < |SubsOf(b, topic)|
    ensures SubsOf(b, topic)[j].ch != SubsOf(b, topic)[k].ch
  {
    assert SubsOk(b, topic);
    assert SubOk(b, topic, SubsOf(b, topic)[j]) && SubOk(b, topic, SubsOf(b, topic)[k]);
  }

  /** What a send leaves alone, and what it may do to the channel that it serves. */
  lemma SendChanges<T>(h: Trace<T>)
    requires Shape(h) && h.busy.Some? && h.busy.value.next < |SubsOf(h.bus, h.busy.value.topic)|
    ensures var p, h' := h.busy.value, Step(h, SendEvent);
            var ch := SubsOf(h.bus, p.topic)[p.next].ch;
            && h'.offered == h.offered && h'.received == h.received
            && h'.busy == Some(p.(next := p.next + 1))
            && SubsOf(h'.bus, p.topic) == SubsOf(h.bus, p.topic)
            && ch < |h.bus.channels| == |h'.bus.channels|
            && (forall i :: 0 <= i < |h.bus.channels| && i != ch ==> h'.bus.channels[i] == h.bus.channels[i])
            && h'.bus.channels[ch].buffer
               == h.bus.channels[ch].buffer + if |h.bus.channels[ch].buffer| < h.bus.size then [p.event] else []
  {
    var p := h.busy.value;
    SubOpen(h.bus, p.topic, p.next);
    SendEffect(h.bus, SubsOf(h.bus, p.topic)[p.next].ch, p.topic, p.event);
    hide BusOk, Send;
  }

  /** The subscriber served just now: the event it waited for reaches it or is dropped. */
  lemma SendGotServed<T>(h: Trace<T>)
    requires Shape(h) && h.busy.Some? && h.busy.value.next < |SubsOf(h.bus, h.busy.value.topic)|
    requires var ch := SubsOf(h.bus, h.busy.value.topic)[h.busy.value.next].ch; ch < |h.offered| && GotOk(h, ch)
    ensures |Step(h, SendEvent).bus.channels| == |h.bus.channels|
    ensures GotOk(Step(h, SendEvent), SubsOf(h.bus, h.busy.value.topic)[h.busy.value.next].ch)
  {
    hide BusOk, IsSubseq, Step;
    var p, h' := h.busy.value, Step(h, SendEvent);
    var ch := SubsOf(h.bus, p.topic)[p.next].ch;
    SendChanges(h);
    ServedNow(h);
    hide Pending;
    var front := h.offered[ch][..|h.offered[ch]| - 1];
    assert front + [p.event] == h.offered[ch];
    SubseqGrows(Got(h, ch), front, p.event);
    assert Got(h', ch) == Got(h, ch) + if |h.bus.channels[ch].buffer| < h.bus.size then [p.event] else [];
    assert Got(h, ch) + [] == Got(h, ch);
  }

  /** Any other subscriber is as before. */
  lemma SendGotOther<T>(h: Trace<T>, i: nat)
    requires Shape(h) && h.busy.Some? && h.busy.value.next < |SubsOf(h.bus, h.busy.value.topic)|
    requires i < |h.offered| && i != SubsOf(h.bus, h.busy.value.topic)[h.busy.value.next].ch
    ensures |Step(h, SendEvent).bus.channels| == |h.bus.channels| && |Step(h, SendEvent).received| == |h.received|
    ensures Step(h, SendEvent).offered == h.offered && Got(Step(h, SendEvent), i) == Got(h, i)
    ensures Pending(Step(h, SendEvent), i) <==> Pending(h, i)
    ensures Step(h, SendEvent).busy.Some? && Step(h, SendEvent).busy.value.event == h.busy.value.event
  {
    hide BusOk, Step;
    SendChanges(h);
  }

  lemma SendGot<T>(h: Trace<T>, i: nat)
    requires Shape(h) && i < |h.offered| && GotOk(h, i)
    requires h.busy.Some? && h.busy.value.next < |SubsOf(h.bus, h.busy.value.topic)|
    ensures |Step(h, SendEvent).bus.channels| == |h.bus.channels| && |Step(h, SendEvent).received| == |h.received|
    ensures |Step(h, SendEvent).offered| == |h.offered| && GotOk(Step(h, SendEvent), i)
  {
    hide BusOk, IsSubseq, Step, Got, Pending;
    SendChanges(h);
    if i == SubsOf(h.bus, h.busy.value.topic)[h.busy.value.next].ch {
      SendGotServed(h);
    } else {
      SendGotOther(h, i);
    }
  }

  lemma ServedNow<T>(h: Trace<T>)
    requires Shape(h) && h.busy.Some? && h.busy.value.next < |SubsOf(h.bus, h.busy.value.topic)|
    ensures var ch := SubsOf(h.bus, h.busy.value.topic)[h.busy.value.next].ch;
            Pending(h, ch) && !Pending(Step(h, SendEvent), ch)
  {
    var p := h.busy.value;
    var ch := SubsOf(h.bus, p.topic)[p.next].ch;
    SubOpen(h.bus, p.topic, p.next);
    SendEffect(h.bus, ch, p.topic, p.event);
    hide BusOk, Send;
    var h' := Step(h, SendEvent);
    assert SubsOf(h'.bus, p.topic) == SubsOf(h.bus, p.topic);
    if k :| p.next < k < |SubsOf(h.bus, p.topic)| && SubsOf(h.bus, p.topic)[k].ch == ch {
      ListedOnce(h.bus, p.topic, p.next, k);
    }
  }

  /** A receive moves the oldest buffered event to the received ones. */
  lemma ReceiveGot<T>(h: Trace<T>, ch: nat, i: nat)
    requires Shape(h) && ch < |h.bus.channels| && Head(h.bus, ch).Some? && i < |h.bus.channels|
    ensures var h' := Step(h, ReceiveEvent(ch));
            i < |h'.received| == |h'.bus.channels| && Got(h', i) == Got(h, i)
  {
    hide BusOk;
  }

  lemma ReceiveStep<T>(h: Trace<T>, ch: nat)
    requires Inv(h) && ch < |h.bus.channels| && Head(h.bus, ch).Some?
    ensures Inv(Step(h, ReceiveEvent(ch)))
  {
    ReceiveKeeps(h.bus, ch);
    SameLengths(h.bus);
    var h' := Step(h, ReceiveEvent(ch));
    forall i | 0 <= i < |h'.offered| ensures Got(h', i) == Got(h, i) {
      ReceiveGot(h, ch, i);
    }
    hide BusOk, IsSubseq, Got;
    forall i | 0 <= i < |h'.offered| ensures GotOk(h', i) {
      assert GotOk(h, i);
    }
    forall t ensures Balanced(h', t) {
      assert Balanced(h, t);
      DeliveredOneMore(h, h', t, |h.received|, -1);
    }
  }

  lemma StepKeeps<T>(h: Trace<T>, e: Event<T>)
    requires Inv(h)
    ensures Inv(Step(h, e))
  {
    match e
    case SubscribeEvent(topic) => if h.busy.None? { SubscribeStep(h, topic); }
    case UnsubscribeEvent(i) => if h.busy.None? && i < |h.bus.handles| { UnsubscribeStep(h, i); }
    case PublishEvent(topic, event) => if h.busy.None? { PublishStep(h, topic, event); }
    case SendEvent =>
      if h.busy.Some? {
        if h.busy.value.next < |SubsOf(h.bus, h.busy.value.topic)| { SendStep(h); } else { ReleaseStep(h); }
      }
    case ReceiveEvent(ch) => if ch < |h.bus.channels| && Head(h.bus, ch).Some? { ReceiveStep(h, ch); }
  }

  // ---------------------------------------------------------------- every run

  function Start<T>(bufferSize: int): Trace<T> {
    Trace(New(bufferSize), None, [], [], map[])
  }

  lemma StartInv<T>(bufferSize: int)
    ensures Inv(Start<T>(bufferSize))
  {
    var h := Start<T>(bufferSize);
    forall topic ensures SubsOk(h.bus, topic) && Balanced(h, topic) {}
  }

  function Run<T>(bufferSize: int, events: seq<Event<T>>): (h: Trace<T>)
    ensures |h.received| == |h.bus.channels|
  {
    if events == [] then Start(bufferSize)
    else Step(Run(bufferSize, events[..|events| - 1]), events[|events| - 1])
  }

  lemma {:induction false} RunInv<T>(bufferSize: int, events: seq<Event<T>>)
    ensures Inv(Run(bufferSize, events))
    decreases |events|
  {
    hide Inv, Step;
    if events == [] {
      StartInv<T>(bufferSize);
    } else {
      RunInv(bufferSize, events[..|events| - 1]);
      StepKeeps(Run(bufferSize, events[..|events| - 1]), events[|events| - 1]);
    }
  }

  /** No send ever meets a closed channel and no channel is closed twice. */
  lemma NeverPanics<T>(bufferSize: int, events: seq<Event<T>>)
    ensures !Run(bufferSize, events).bus.panicked
  {
    hide Run;
    RunInv(bufferSize, events);
  }

  lemma {:induction false} SizeNeverChanges<T>(bufferSize: int, events: seq<Event<T>>)
    ensures Run(bufferSize, events).bus.size == SizeFor(bufferSize)
  {
    if events != [] {
      SizeNeverChanges(bufferSize, events[..|events| - 1]);
      StepKeepsSize(Run(bufferSize, events[..|events| - 1]), events[|events| - 1]);
    }
  }

  lemma StepKeepsSize<T>(h: Trace<T>, e: Event<T>)
    requires |h.received| == |h.bus.channels|
    ensures Step(h, e).bus.size == h.bus.size
  {}

  lemma GotInOrder<T>(h: Trace<T>, i: nat)
    requires i < |h.offered| == |h.received| == |h.bus.channels| && GotOk(h, i)
    ensures IsSubseq(Got(h, i), h.offered[i])
  {
    hide IsSubseq, Got;
    if Pending(h, i) {
      var front := h.offered[i][..|h.offered[i]| - 1];
      SubseqGrows(Got(h, i), front, h.busy.value.event);
      assert front + [h.busy.value.event] == h.offered[i];
    }
  }

  lemma OneIsReceived<T>(h: Trace<T>, ch: nat)
    requires |h.received| == |h.bus.channels| && ch < |h.bus.channels| && h.bus.channels[ch].buffer != []
    ensures var h' := Step(h, ReceiveEvent(ch));
            && |h'.received| == |h.received| && |h'.bus.channels| == |h.bus.channels|
            && h'.received[ch] == h.received[ch] + [h.bus.channels[ch].buffer[0]]
            && h'.bus.channels[ch].buffer == h.bus.channels[ch].buffer[1..]
  {}

  lemma RunSnoc<T>(bufferSize: int, events: seq<Event<T>>, e: Event<T>)
    ensures Run(bufferSize, events + [e]) == Step(Run(bufferSize, events), e)
  {
    assert (events + [e])[..|events|] == events;
  }

  /** Taking an event once more, for each event that waits, receives them all in the order in which they wait. */
  lemma {:induction false} WaitingIsReceived<T>(bufferSize: int, events: seq<Event<T>>, ch: nat, n: nat)
    requires ch < |Run(bufferSize, events).bus.channels| && n <= |Run(bufferSize, events).bus.channels[ch].buffer|
    ensures var h, h' := Run(bufferSize, events), Run(bufferSize, events + seq(n, _ => ReceiveEvent(ch)));
            && |h'.received| == |h.received| && |h'.bus.channels| == |h.bus.channels|
            && h'.received[ch] == h.received[ch] + h.bus.channels[ch].buffer[..n]
            && h'.bus.channels[ch].buffer == h.bus.channels[ch].buffer[n..]
  {
    hide Run, Step;
    var h := Run(bufferSize, events);
    if n == 0 {
      assert events + seq(0, _ => ReceiveEvent(ch)) == events;
      assert h.received[ch] + [] == h.received[ch];
    } else {
      WaitingIsReceived(bufferSize, events, ch, n - 1);
      var before := events + seq(n - 1, _ => ReceiveEvent(ch));
      assert before + [ReceiveEvent(ch)] == events + seq(n, _ => ReceiveEvent(ch));
      RunSnoc(bufferSize, before, ReceiveEvent(ch));
      OneIsReceived(Run(bufferSize, before), ch);
      var waiting := h.bus.channels[ch].buffer;
      assert waiting[..n] == waiting[..n - 1] + [waiting[n - 1]];
    }
  }

  /**
   * What a subscriber received, followed by what waits for it, is a subsequence of the events published
   * on its topic while it was subscribed, and no more than the buffer size waits.
   */
  lemma ReceivesInOrder<T>(bufferSize: int, events: seq<Event<T>>, i: nat)
    requires i < |Run(bufferSize, events).bus.channels|
    ensures var h := Run(bufferSize, events);
            && |h.offered| == |h.received| == |h.bus.channels|
            && IsSubseq(h.received[i] + h.bus.channels[i].buffer, h.offered[i])
            && |h.bus.channels[i].buffer| <= SizeFor(bufferSize)
  {
    hide Run, Step, IsSubseq, Pending, Balanced, SizeFor;
    var h := Run(bufferSize, events);
    RunInv(bufferSize, events);
    assert GotOk(h, i) && HandleOk(h.bus, i);
    hide GotOk, BusOk, SubsOk;
    SizeNeverChanges(bufferSize, events);
    GotInOrder(h, i);
  }

  /**
   * Per topic, when no Publish is under way, the subscriber counts summed over all publishes are the
   * events that reached a subscriber plus the events counted as dropped.
   */
  lemma NothingIsLostUncounted<T>(bufferSize: int, events: seq<Event<T>>, topic: Topic)
    requires Run(bufferSize, events).busy.None?
    ensures var h := Run(bufferSize, events);
            && |h.received| == |h.bus.channels| == |h.bus.handles|
            && AskedOf(h, topic) == Delivered(h, topic, |h.received|) + DroppedOf(h.bus, topic)
  {
    var h := Run(bufferSize, events);
    hide Run;
    RunInv(bufferSize, events);
    assert Balanced(h, topic);
  }

  lemma StepKeepsUsed<T>(h: Trace<T>, e: Event<T>, i: nat)
    requires Inv(h) && i < |h.offered| && h.bus.handles[i].used
    ensures var h' := Step(h, e);
            i < |h'.offered| && i < |h'.bus.handles| && h'.bus.handles[i].used && h'.offered[i] == h.offered[i]
  {
    SameLengths(h.bus);
    if e.UnsubscribeEvent? && e.i < |h.bus.handles| {
      UnsubscribeEffect(h.bus, e.i);
      hide Unsubscribe;
    }
    hide BusOk, GotOk, Balanced;
    assert h.offered[i] + [] == h.offered[i];
  }

  lemma {:induction false} StaysUsed<T>(bufferSize: int, events: seq<Event<T>>, more: seq<Event<T>>, i: nat)
    requires i < |Run(bufferSize, events).offered| == |Run(bufferSize, events).bus.handles|
    requires Run(bufferSize, events).bus.handles[i].used
    ensures var h := Run(bufferSize, events + more);
            && i < |h.offered| && i < |h.bus.handles| && h.bus.handles[i].used
            && h.offered[i] == Run(bufferSize, events).offered[i]
    decreases |more|
  {
    hide Step, Inv;
    var all := events + more;
    if more == [] {
      assert all == events;
    } else {
      var n := |more| - 1;
      assert all[..|all| - 1] == events + more[..n];
      StaysUsed(bufferSize, events, more[..n], i);
      RunInv(bufferSize, events + more[..n]);
      StepKeepsUsed(Run(bufferSize, events + more[..n]), more[n], i);
    }
  }

  lemma UsedIsClosed<T>(h: Trace<T>, i: nat, topic: Topic)
    requires Inv(h) && i < |h.offered| && h.bus.handles[i].used
    ensures h.bus.channels[i].closed
    ensures forall k :: 0 <= k < |SubsOf(h.bus, topic)| ==> SubsOf(h.bus, topic)[k].ch != i
  {
    assert HandleOk(h.bus, i);
    assert SubsOk(h.bus, topic);
    forall k | 0 <= k < |SubsOf(h.bus, topic)| ensures SubsOf(h.bus, topic)[k].ch != i {
      assert SubOk(h.bus, topic, SubsOf(h.bus, topic)[k]);
    }
  }

  /**
   * From the moment its Unsubscribe function was called, whatever happens later, a subscriber's channel is
   * closed, it is listed nowhere, and it is offered nothing more.
   */
  lemma UnsubscribedForGood<T>(bufferSize: int, events: seq<Event<T>>, more: seq<Event<T>>, i: nat, topic: Topic)
    requires Run(bufferSize, events).busy.None? && i < |Run(bufferSize, events).bus.handles|
    ensures var h := Run(bufferSize, events + [UnsubscribeEvent(i)] + more);
            && i < |h.bus.channels| && h.bus.channels[i].closed
            && (forall k :: 0 <= k < |SubsOf(h.bus, topic)| ==> SubsOf(h.bus, topic)[k].ch != i)
            && i < |h.offered| && i < |Run(bufferSize, events).offered|
            && h.offered[i] == Run(bufferSize, events).offered[i]
  {
    var h := Run(bufferSize, events);
    var called := events + [UnsubscribeEvent(i)];
    assert called[..|events|] == events;
    assert Run(bufferSize, called) == Step(h, UnsubscribeEvent(i));
    hide Run;
    RunInv(bufferSize, events);
    RunInv(bufferSize, called);
    RunInv(bufferSize, called + more);
    UnsubscribeEffect(h.bus, i);
    SameLengths(h.bus);
    hide Unsubscribe, BusOk, GotOk, Balanced;
    StaysUsed(bufferSize, called, more, i);
    UsedIsClosed(Run(bufferSize, called + more), i, topic);
    SameLengths(Run(bufferSize, called + more).bus);
  }

  // ---------------------------------------------------------------- a receiver that keeps up

  /** Nothing was dropped for this subscriber: it got all it was offered, up to an event still to be sent. */
  ghost predicate GotAll<T>(h: Trace<T>, i: nat)
    requires i < |h.offered| == |h.received| == |h.bus.channels|
  {
    if Pending(h, i)
    then h.offered[i] == Got(h, i) + [h.busy.value.event]
    else h.offered[i] == Got(h, i)
  }

  /** The event is a send to this subscriber while its buffer is full. */
  predicate MeetsFull<T>(h: Trace<T>, e: Event<T>, i: nat) {
    && e.SendEvent? && h.busy.Some?
    && h.busy.value.next < |SubsOf(h.bus, h.busy.value.topic)|
    && SubsOf(h.bus, h.busy.value.topic)[h.busy.value.next].ch == i < |h.bus.channels|
    && |h.bus.channels[i].buffer| >= h.bus.size
  }

  /** No send of the run met a full buffer of this subscriber. */
  ghost predicate KeepsUp<T>(bufferSize: int, events: seq<Event<T>>, i: nat) {
    forall k :: 0 <= k < |events| ==> !MeetsFull(Run(bufferSize, events[..k]), events[k], i)
  }

  /** How many sends of the run met a full buffer of this subscriber. */
  function FullSends<T>(bufferSize: int, events: seq<Event<T>>, i: nat): nat {
    if events == [] then 0
    else
      var front, last := events[..|events| - 1], events[|events| - 1];
      FullSends(bufferSize, front, i) + if MeetsFull(Run(bufferSize, front), last, i) then 1 else 0
  }

  /** How many of the events offered to a subscriber have neither reached it nor are still to be sent. */
  ghost function Missed<T>(h: Trace<T>, i: nat): int
    requires i < |h.offered| == |h.received| == |h.bus.channels|
  {
    |h.offered[i]| - |Got(h, i)| - if Pending(h, i) then 1 else 0
  }

  lemma SendMisses<T>(h: Trace<T>, i: nat)
    requires Inv(h) && i < |h.offered|
    requires h.busy.Some? && h.busy.value.next < |SubsOf(h.bus, h.busy.value.topic)|
    ensures var h' := Step(h, SendEvent);
            && |h'.offered| == |h.offered| && |h'.received| == |h'.bus.channels| == |h.bus.channels|
            && Missed(h', i) == Missed(h, i) + if MeetsFull(h, SendEvent, i) then 1 else 0
  {
    hide BusOk, Step, GotOk, Balanced;
    SendChanges(h);
    if i == SubsOf(h.bus, h.busy.value.topic)[h.busy.value.next].ch {
      ServedNow(h);
      hide Pending;
    } else {
      SendGotOther(h, i);
      hide Pending, Got;
    }
  }

  lemma PublishMisses<T>(h: Trace<T>, topic: Topic, event: T, i: nat)
    requires Inv(h) && i < |h.offered| && h.busy.None?
    ensures var h' := Step(h, PublishEvent(topic, event));
            && |h'.offered| == |h.offered| && |h'.received| == |h'.bus.channels| == |h.bus.channels|
            && Missed(h', i) == Missed(h, i)
  {
    SameLengths(h.bus);
    SubscribedIsListed(h.bus, i, topic);
    hide BusOk, GotOk, Balanced;
    var h' := Step(h, PublishEvent(topic, event));
    if Subscribed(h.bus, i, topic) {
      assert Pending(h', i);
    } else {
      assert !Pending(h', i);
    }
  }

  lemma ReceiveMisses<T>(h: Trace<T>, ch: nat, i: nat)
    requires Inv(h) && i < |h.offered| && ch < |h.bus.channels| && Head(h.bus, ch).Some?
    ensures var h' := Step(h, ReceiveEvent(ch));
            && |h'.offered| == |h.offered| && |h'.received| == |h'.bus.channels| == |h.bus.channels|
            && Missed(h', i) == Missed(h, i)
  {
    hide BusOk, GotOk, Balanced;
    ReceiveLeaves(h, ch);
    PendingSame(h, Step(h, ReceiveEvent(ch)), i);
    ReceiveGot(h, ch, i);
    hide Step, Pending, Got;
  }

  lemma PendingSame<T>(h: Trace<T>, h': Trace<T>, i: nat)
    requires h'.busy == h.busy && h'.bus.subscribers == h.bus.subscribers
    ensures Pending(h', i) <==> Pending(h, i)
  {
    if h.busy.Some? {
      assert SubsOf(h'.bus, h.busy.value.topic) == SubsOf(h.bus, h.busy.value.topic);
    }
  }

  lemma ReceiveLeaves<T>(h: Trace<T>, ch: nat)
    requires |h.received| == |h.bus.channels| && ch < |h.bus.channels| && Head(h.bus, ch).Some?
    ensures var h' := Step(h, ReceiveEvent(ch));
            && h'.busy == h.busy && h'.offered == h.offered && h'.bus.subscribers == h.bus.subscribers
            && |h'.received| == |h.received| && |h'.bus.channels| == |h.bus.channels|
  {}

  lemma UnsubscribeMisses<T>(h: Trace<T>, j: nat, i: nat)
    requires Inv(h) && i < |h.offered| && h.busy.None? && j < |h.bus.handles|
    ensures var h' := Step(h, UnsubscribeEvent(j));
            && |h'.offered| == |h.offered| && |h'.received| == |h'.bus.channels| == |h.bus.channels|
            && Missed(h', i) == Missed(h, i)
  {
    hide BusOk, GotOk, Balanced, Step;
    UnsubscribeLeaves(h, j);
  }

  /** A new subscriber has missed nothing, and an old one misses nothing by it. */
  lemma SubscribeMisses<T>(h: Trace<T>, topic: Topic, i: nat)
    requires Inv(h) && i <= |h.offered| && h.busy.None?
    ensures var h' := Step(h, SubscribeEvent(topic));
            && |h'.offered| == |h'.received| == |h'.bus.channels| == |h.offered| + 1
            && Missed(h', i) == if i < |h.offered| then Missed(h, i) else 0
  {
    hide BusOk, GotOk, Balanced;
  }

  lemma ReleaseMisses<T>(h: Trace<T>, i: nat)
    requires Inv(h) && i < |h.offered| && h.busy.Some? && h.busy.value.next >= |SubsOf(h.bus, h.busy.value.topic)|
    ensures var h' := Step(h, SendEvent);
            && |h'.offered| == |h.offered| && |h'.received| == |h'.bus.channels| == |h.bus.channels|
            && Missed(h', i) == Missed(h, i)
  {
    hide BusOk, GotOk, Balanced;
  }

  lemma StepMisses<T>(h: Trace<T>, e: Event<T>, i: nat)
    requires Inv(h) && i < |h.offered|
    ensures var h' := Step(h, e);
            && i < |h'.offered| == |h'.received| == |h'.bus.channels|
            && Missed(h', i) == Missed(h, i) + if MeetsFull(h, e, i) then 1 else 0
  {
    hide BusOk, GotOk, Balanced, Missed;
    match e {
      case PublishEvent(topic, event) => if h.busy.None? { PublishMisses(h, topic, event, i); }
      case UnsubscribeEvent(j) => if h.busy.None? && j < |h.bus.handles| { UnsubscribeMisses(h, j, i); }
      case SubscribeEvent(topic) => if h.busy.None? { SubscribeMisses(h, topic, i); }
      case SendEvent =>
        if h.busy.Some? {
          if h.busy.value.next < |SubsOf(h.bus, h.busy.value.topic)| {
            SendMisses(h, i);
          } else {
            ReleaseMisses(h, i);
          }
        }
      case ReceiveEvent(ch) => if ch < |h.bus.channels| && Head(h.bus, ch).Some? { ReceiveMisses(h, ch, i); }
    }
  }

  /** Only a subscribe makes a new subscriber. */
  lemma StepSubscribes<T>(h: Trace<T>, e: Event<T>)
    requires Inv(h)
    ensures var h' := Step(h, e);
            |h'.offered| == |h.offered| + if e.SubscribeEvent? && h.busy.None? then 1 else 0
  {
    hide BusOk, GotOk, Balanced, Unsubscribe, Send;
  }

  /** Each event that a subscriber missed is a send that met its full buffer. */
  lemma {:induction false} MissedIsFullSends<T>(bufferSize: int, events: seq<Event<T>>, i: nat)
    ensures var h := Run(bufferSize, events);
            && |h.offered| == |h.received| == |h.bus.channels|
            && (if i < |h.offered| then Missed(h, i) else 0) == FullSends(bufferSize, events, i)
    decreases |events|
  {
    hide Step, Inv, Missed, MeetsFull;
    RunInv(bufferSize, events);
    LengthsOf(Run(bufferSize, events));
    if events != [] {
      var front, last := events[..|events| - 1], events[|events| - 1];
      MissedIsFullSends(bufferSize, front, i);
      RunInv(bufferSize, front);
      var h := Run(bufferSize, front);
      StepSubscribes(h, last);
      if i < |h.offered| {
        StepMisses(h, last, i);
      } else {
        NotYetFull(h, last, i);
      }
    }
  }

  lemma LengthsOf<T>(h: Trace<T>)
    requires Inv(h)
    ensures |h.offered| == |h.received| == |h.bus.channels|
  {}

  lemma NotYetFull<T>(h: Trace<T>, e: Event<T>, i: nat)
    requires Inv(h) && i >= |h.offered|
    ensures !MeetsFull(h, e, i)
    ensures var h' := Step(h, e);
            |h'.offered| == |h'.received| == |h'.bus.channels| && i < |h'.offered| ==> Missed(h', i) == 0
  {
    StepSubscribes(h, e);
    if e.SubscribeEvent? && h.busy.None? && i == |h.offered| {
      SubscribeMisses(h, e.topic, i);
    }
    hide BusOk, GotOk, Balanced, Step, Missed;
  }

  lemma {:induction false} KeepsUpExactly<T>(bufferSize: int, events: seq<Event<T>>, i: nat)
    ensures KeepsUp(bufferSize, events, i) <==> FullSends(bufferSize, events, i) == 0
    decreases |events|
  {
    hide Run, MeetsFull;
    if events != [] {
      var n := |events| - 1;
      var front := events[..n];
      KeepsUpExactly(bufferSize, front, i);
      assert forall k :: 0 <= k < n ==> front[..k] == events[..k] && front[k] == events[k];
      if KeepsUp(bufferSize, events, i) {
        forall k | 0 <= k < n ensures !MeetsFull(Run(bufferSize, front[..k]), front[k], i) {
          assert front[..k] == events[..k];
        }
        assert !MeetsFull(Run(bufferSize, events[..n]), events[n], i);
      } else {
        var k :| 0 <= k < |events| && MeetsFull(Run(bufferSize, events[..k]), events[k], i);
        if k < n {
          assert front[..k] == events[..k];
        }
      }
    }
  }

  lemma {:induction false} SubseqShorter<T>(a: seq<T>, b: seq<T>)
    requires IsSubseq(a, b)
    ensures |a| <= |b| && (|a| == |b| ==> a == b)
    decreases |b|
  {
    if a != [] {
      var m, n := |a| - 1, |b| - 1;
      if a[m] == b[n] && IsSubseq(a[..m], b[..n]) {
        SubseqShorter(a[..m], b[..n]);
        assert a == a[..m] + [a[m]] && b == b[..n] + [b[n]];
      } else {
        SubseqShorter(a, b[..n]);
      }
    }
  }

  lemma MissedNothing<T>(h: Trace<T>, i: nat)
    requires i < |h.offered| == |h.received| == |h.bus.channels| && GotOk(h, i)
    ensures GotAll(h, i) <==> Missed(h, i) == 0
  {
    hide IsSubseq, Got;
    if Pending(h, i) {
      var front := h.offered[i][..|h.offered[i]| - 1];
      SubseqShorter(Got(h, i), front);
      assert front + [h.busy.value.event] == h.offered[i];
    } else {
      SubseqShorter(Got(h, i), h.offered[i]);
    }
  }

  /**
   * A subscriber gets every event published while it is subscribed, in order, if and only if no send to it
   * met a full buffer; in any case it misses exactly one event for each such send.
   */
  lemma KeepingUpMissesNothing<T>(bufferSize: int, events: seq<Event<T>>, i: nat)
    requires i < |Run(bufferSize, events).bus.channels|
    ensures var h := Run(bufferSize, events);
            && |h.offered| == |h.received| == |h.bus.channels|
            && (GotAll(h, i) <==> KeepsUp(bufferSize, events, i))
            && Missed(h, i) == FullSends(bufferSize, events, i)
  {
    hide Run, GotAll, Missed, KeepsUp, FullSends, BusOk, Balanced, Pending;
    RunInv(bufferSize, events);
    MissedIsFullSends(bufferSize, events, i);
    KeepsUpExactly(bufferSize, events, i);
    assert GotOk(Run(bufferSize, events), i);
    MissedNothing(Run(bufferSize, events), i);
  }

  // ---------------------------------------------------------------- a Publish that is not interrupted

  function Sends<T>(h: Trace<T>, k: nat): (h': Trace<T>)
    requires |h.received| == |h.bus.channels|
    ensures |h'.received| == |h'.bus.channels|
  {
    if k == 0 then h else Step(Sends(h, k - 1), SendEvent)
  }

  lemma FanoutListed<T>(b: Bus<T>, topic: Topic, event: T, k: nat)
    requires BusOk(b) && k <= |SubsOf(b, topic)|
    ensures SubsOf(Fanout(b, topic, event, k), topic) == SubsOf(b, topic)
  {
    FanoutKeeps(b, topic, event, k);
    hide BusOk, Fanout;
  }

  /** Its sends in a row are the fan-out, and the mutex is free again after one more step. */
  lemma SendsAreFanout<T>(h: Trace<T>, topic: Topic, event: T, k: nat)
    requires Inv(h) && h.busy.None? && k <= |SubsOf(h.bus, topic)|
    ensures var h' := Sends(Step(h, PublishEvent(topic, event)), k);
            && h'.bus == Fanout(h.bus, topic, event, k) && h'.busy == Some(Publishing(topic, event, k))
    ensures k == |SubsOf(h.bus, topic)| ==> Sends(Step(h, PublishEvent(topic, event)), k + 1).busy.None?
  {
    hide GotOk, Balanced, Step, BusOk;
    FirstSends(h, topic, event, k);
    FanoutListed(h.bus, topic, event, k);
    var begun := Step(h, PublishEvent(topic, event));
    OneSend(Sends(begun, k));
    assert Sends(begun, k + 1) == Step(Sends(begun, k), SendEvent);
  }

  lemma PublishBegins<T>(h: Trace<T>, topic: Topic, event: T)
    requires |h.received| == |h.bus.channels| && h.busy.None?
    ensures var begun := Step(h, PublishEvent(topic, event));
            begun.bus == h.bus && begun.busy == Some(Publishing(topic, event, 0))
  {}

  lemma {:induction false} FirstSends<T>(h: Trace<T>, topic: Topic, event: T, k: nat)
    requires BusOk(h.bus) && |h.received| == |h.bus.channels| && h.busy.None? && k <= |SubsOf(h.bus, topic)|
    ensures var h' := Sends(Step(h, PublishEvent(topic, event)), k);
            h'.bus == Fanout(h.bus, topic, event, k) && h'.busy == Some(Publishing(topic, event, k))
    decreases k
  {
    hide BusOk, Step, Send;
    PublishBegins(h, topic, event);
    if k > 0 {
      var before := Sends(Step(h, PublishEvent(topic, event)), k - 1);
      FirstSends(h, topic, event, k - 1);
      FanoutListed(h.bus, topic, event, k - 1);
      OneSend(before);
    }
  }

  lemma OneSend<T>(h: Trace<T>)
    requires |h.received| == |h.bus.channels| && h.busy.Some?
    ensures var p, h' := h.busy.value, Step(h, SendEvent);
            if p.next < |SubsOf(h.bus, p.topic)|
            then h'.bus == Send(h.bus, SubsOf(h.bus, p.topic)[p.next].ch, p.topic, p.event)
                 && h'.busy == Some(p.(next := p.next + 1))
            else h'.busy.None?
  {
    hide Send;
  }
}
