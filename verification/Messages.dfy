/** What one destination is sent: identifiers gathered in chunks, with the indices of their documents. */
module Messages {
  import opened Wrappers

  /** A document to announce, and the index that holds it. */
  datatype Item = Item(id: string, index: Option<string>)

  /** The identifiers and the indices waiting for a full chunk. */
  datatype Buffer = Buffer(ids: seq<string>, indices: seq<string>)

  datatype Payload = Payload(ids: seq<string>, indices: set<string>)

  const EMPTY := Buffer([], [])

  function SetOf(indices: seq<string>): set<string> {
    set index | index in indices
  }

  /** The first `count` elements, or all of them when there are fewer. */
  function Take<T>(s: seq<T>, count: nat): seq<T> {
    if count <= |s| then s[..count] else s
  }

  function Drop<T>(s: seq<T>, count: nat): seq<T> {
    if count <= |s| then s[count..] else []
  }

  function Add(buffer: Buffer, item: Item): Buffer {
    Buffer(
      buffer.ids + [item.id],
      if item.index.Some? && item.index.value !in buffer.indices then buffer.indices + [item.index.value]
      else buffer.indices)
  }

  /** Sends full chunks while there is one: what is sent, and what waits. */
  function Drain(buffer: Buffer, size: nat): (r: (seq<Payload>, Buffer))
    requires size > 0
    decreases |buffer.ids|
  {
    if |buffer.ids| < size then ([], buffer)
    else
      var rest := Drain(Buffer(buffer.ids[size..], Drop(buffer.indices, size)), size);
      ([Payload(buffer.ids[..size], SetOf(Take(buffer.indices, size)))] + rest.0, rest.1)
  }

  /** Handling an item: sent at once without a chunk size, else gathered. */
  function Handled(buffer: Buffer, chunk: Option<nat>, item: Item): (r: (seq<Payload>, Buffer))
    requires chunk.Some? ==> chunk.value > 0
  {
    match chunk
    case None => ([Payload([item.id], if item.index.Some? then {item.index.value} else {})], buffer)
    case Some(size) => Drain(Add(buffer, item), size)
  }

  function Flushed(buffer: Buffer): seq<Payload> {
    if buffer.ids == [] then [] else [Payload(buffer.ids, SetOf(buffer.indices))]
  }

  // ---------- a run ----------

  datatype Event = Handle(item: Item) | Flush | Resize(size: nat)

  /** The buffer of the destination, its chunk size, and all it was sent. */
  datatype Channel = Channel(buffer: Buffer, chunk: Option<nat>, sent: seq<Payload>)

  predicate PositiveSizes(events: seq<Event>) {
    forall event :: event in events && event.Resize? ==> event.size > 0
  }

  function Next(channel: Channel, event: Event): Channel
    requires channel.chunk.Some? ==> channel.chunk.value > 0
  {
    match event
    case Handle(item) =>
      var r := Handled(channel.buffer, channel.chunk, item);
      Channel(r.1, channel.chunk, channel.sent + r.0)
    case Flush => Channel(EMPTY, channel.chunk, channel.sent + Flushed(channel.buffer))
    case Resize(size) => channel.(chunk := Some(size))
  }

  function After(events: seq<Event>): (r: Channel)
    requires PositiveSizes(events)
    ensures r.chunk.Some? ==> r.chunk.value > 0
  {
    if events == [] then Channel(EMPTY, None, [])
    else
      assert forall event :: event in events[..|events| - 1] ==> event in events;
      Next(After(events[..|events| - 1]), events[|events| - 1])
  }

  function ItemsOf(event: Event): seq<Item> {
    if event.Handle? then [event.item] else []
  }

  /** The items handled, in order. */
  function Items(events: seq<Event>): seq<Item> {
    if events == [] then [] else Items(events[..|events| - 1]) + ItemsOf(events[|events| - 1])
  }

  lemma Unroll(events: seq<Event>)
    requires events != [] && PositiveSizes(events)
    ensures var before, last := events[..|events| - 1], events[|events| - 1];
            && PositiveSizes(before)
            && After(events) == Next(After(before), last)
            && Items(events) == Items(before) + ItemsOf(last)
  {
    assert forall event :: event in events[..|events| - 1] ==> event in events;
  }

  function Ids(items: seq<Item>): (r: seq<string>)
    ensures |r| == |items|
  {
    seq(|items|, i requires 0 <= i < |items| => items[i].id)
  }

  function Indices(items: seq<Item>): set<string> {
    set item | item in items && item.index.Some? :: item.index.value
  }

  function SentIds(sent: seq<Payload>): seq<string> {
    if sent == [] then [] else sent[0].ids + SentIds(sent[1..])
  }

  lemma {:induction false} SentIdsConcat(a: seq<Payload>, b: seq<Payload>)
    ensures SentIds(a + b) == SentIds(a) + SentIds(b)
  {
    if a == [] {
      assert a + b == b;
    } else {
      assert (a + b)[1..] == a[1..] + b;
      SentIdsConcat(a[1..], b);
    }
  }

  // ---------- conservation ----------

  lemma Regroup<T>(a: seq<T>, b: seq<T>, c: seq<T>)
    ensures a + (b + c) == (a + b) + c
  {
  }

  lemma {:induction false} DrainConserves(buffer: Buffer, size: nat)
    requires size > 0
    ensures var r := Drain(buffer, size);
            && SentIds(r.0) + r.1.ids == buffer.ids
            && |r.1.ids| < size
            && forall payload :: payload in r.0 ==> |payload.ids| == size
    decreases |buffer.ids|
  {
    if |buffer.ids| >= size {
      var rest := Buffer(buffer.ids[size..], Drop(buffer.indices, size));
      DrainConserves(rest, size);
      var sent := Drain(rest, size).0;
      assert SentIds(Drain(buffer, size).0) == buffer.ids[..size] + SentIds(sent);
      Regroup(buffer.ids[..size], SentIds(sent), Drain(rest, size).1.ids);
      assert buffer.ids[..size] + rest.ids == buffer.ids;
    }
  }

  lemma HandledConserves(buffer: Buffer, chunk: Option<nat>, item: Item)
    requires chunk.Some? ==> chunk.value > 0
    ensures var r := Handled(buffer, chunk, item);
            if chunk.Some? then
              && SentIds(r.0) + r.1.ids == buffer.ids + [item.id]
              && |r.1.ids| < chunk.value
              && forall payload :: payload in r.0 ==> |payload.ids| == chunk.value
            else SentIds(r.0) == [item.id] && r.1 == buffer
  {
    if chunk.Some? {
      DrainConserves(Add(buffer, item), chunk.value);
    }
  }

  lemma {:induction false} NoChunkNoBuffer(events: seq<Event>)
    requires PositiveSizes(events)
    ensures After(events).chunk.None? ==> After(events).buffer == EMPTY
  {
    if events != [] {
      assert forall event :: event in events[..|events| - 1] ==> event in events;
      NoChunkNoBuffer(events[..|events| - 1]);
    }
  }

  lemma StepConserves(channel: Channel, event: Event)
    requires if channel.chunk.Some? then channel.chunk.value > 0 else channel.buffer == EMPTY
    ensures var after := Next(channel, event);
            SentIds(after.sent) + after.buffer.ids
            == SentIds(channel.sent) + channel.buffer.ids + Ids(ItemsOf(event))
  {
    match event {
      case Handle(item) =>
        var r := Handled(channel.buffer, channel.chunk, item);
        HandledConserves(channel.buffer, channel.chunk, item);
        SentIdsConcat(channel.sent, r.0);
        Regroup(SentIds(channel.sent), SentIds(r.0), r.1.ids);
        Regroup(SentIds(channel.sent), channel.buffer.ids, [item.id]);
        assert Ids(ItemsOf(event)) == [item.id];
      case Flush =>
        SentIdsConcat(channel.sent, Flushed(channel.buffer));
      case Resize(size) =>
    }
  }

  /**
   Nothing is lost, repeated or reordered: what was sent followed by what waits is what was handled,
   whatever the sizes, the changes of size and the flushes.
   */
  lemma {:induction false} IdsConserved(events: seq<Event>)
    requires PositiveSizes(events)
    ensures SentIds(After(events).sent) + After(events).buffer.ids == Ids(Items(events))
  {
    if events != [] {
      var last := events[|events| - 1];
      var before := events[..|events| - 1];
      Unroll(events);
      IdsConserved(before);
      NoChunkNoBuffer(before);
      StepConserves(After(before), last);
      assert Ids(Items(before) + ItemsOf(last)) == Ids(Items(before)) + Ids(ItemsOf(last));
    }
  }

  // ---------- indices ----------

  /** Each message has the identifiers and the indices of its own items, and all the items are covered. */
  predicate Exact(sent: seq<Payload>, items: seq<Item>) {
    if sent == [] then items == []
    else
      var count := |sent[0].ids|;
      && count <= |items| && sent[0].ids == Ids(items[..count]) && sent[0].indices == Indices(items[..count])
      && Exact(sent[1..], items[count..])
  }

  /** A size lowered below the backlog breaks it: the last identifier is sent without its index. */
  lemma LoweredSizeLosesIndex()
    ensures var a, b, c := Item("a", Some("x")), Item("b", Some("y")), Item("c", Some("x"));
            var events := [Resize(3), Handle(a), Handle(b), Resize(1), Handle(c)];
            && PositiveSizes(events)
            && After(events).sent == [Payload(["a"], {"x"}), Payload(["b"], {"y"}), Payload(["c"], {})]
  {
    var a, b, c := Item("a", Some("x")), Item("b", Some("y")), Item("c", Some("x"));
    var e1 := [Resize(3)];
    var e2 := [Resize(3), Handle(a)];
    var e3 := [Resize(3), Handle(a), Handle(b)];
    var e4 := [Resize(3), Handle(a), Handle(b), Resize(1)];
    var e5 := [Resize(3), Handle(a), Handle(b), Resize(1), Handle(c)];
    assert e1[..0] == [] && e2[..1] == e1 && e3[..2] == e2 && e4[..3] == e3 && e5[..4] == e4;
    assert After([]) == Channel(EMPTY, None, []);
    assert After(e1) == Channel(EMPTY, Some(3), []);
    GatheredTwo(a, b, e1, e2, e3);
    assert After(e4) == Channel(Buffer(["a", "b"], ["x", "y"]), Some(1), []);
    DrainedThree();
  }

  lemma GatheredTwo(a: Item, b: Item, e1: seq<Event>, e2: seq<Event>, e3: seq<Event>)
    requires a == Item("a", Some("x")) && b == Item("b", Some("y"))
    requires e1 == [Resize(3)] && e2 == e1 + [Handle(a)] && e3 == e2 + [Handle(b)]
    requires After(e1) == Channel(EMPTY, Some(3), [])
    ensures PositiveSizes(e3) && After(e3) == Channel(Buffer(["a", "b"], ["x", "y"]), Some(3), [])
  {
    assert e2[..1] == e1 && e3[..2] == e2;
    assert Add(EMPTY, a) == Buffer(["a"], ["x"]);
    assert After(e2) == Channel(Buffer(["a"], ["x"]), Some(3), []);
    assert Add(Buffer(["a"], ["x"]), b) == Buffer(["a", "b"], ["x", "y"]);
  }

  lemma DrainedThree()
    ensures Handled(Buffer(["a", "b"], ["x", "y"]), Some(1), Item("c", Some("x")))
            == ([Payload(["a"], {"x"}), Payload(["b"], {"y"}), Payload(["c"], {})], EMPTY)
  {
    var all := Buffer(["a", "b", "c"], ["x", "y"]);
    assert Add(Buffer(["a", "b"], ["x", "y"]), Item("c", Some("x"))) == all;
    assert all.ids[1..] == ["b", "c"] && Drop(all.indices, 1) == ["y"] && Take(all.indices, 1) == ["x"];
    var two := Buffer(["b", "c"], ["y"]);
    assert two.ids[1..] == ["c"] && Drop(two.indices, 1) == [] && Take(two.indices, 1) == ["y"];
    var one := Buffer(["c"], []);
    assert one.ids[1..] == [] && Drop(one.indices, 1) == [] && Take(one.indices, 1) == [];
    assert all.ids[..1] == ["a"] && two.ids[..1] == ["b"] && one.ids[..1] == ["c"];
    assert SetOf(["x"]) == {"x"} && SetOf(["y"]) == {"y"} && SetOf([]) == {};
    assert Buffer(all.ids[1..], Drop(all.indices, 1)) == two;
    assert Buffer(two.ids[1..], Drop(two.indices, 1)) == one;
    assert Buffer(one.ids[1..], Drop(one.indices, 1)) == EMPTY;
    assert Drain(EMPTY, 1) == ([], EMPTY);
    var p1, p2, p3 := Payload(["a"], {"x"}), Payload(["b"], {"y"}), Payload(["c"], {});
    assert Drain(one, 1) == ([p3] + [], EMPTY);
    assert Drain(two, 1) == ([p2] + ([p3] + []), EMPTY);
    assert Drain(all, 1) == ([p1] + ([p2] + ([p3] + [])), EMPTY);
    assert [p1] + ([p2] + ([p3] + [])) == [p1, p2, p3];
  }
}
