/** When the messages of a destination name the indices of their own documents, over chunk sizes that change. */
module ChunkIndices {
  import opened Wrappers
  import opened Messages

  // ---------- the indices of a list of items ----------

  /** The indices in order of first mention, but for those already seen. */
  function Fresh(seen: set<string>, items: seq<Item>): seq<string> {
    if items == [] then []
    else
      var before, last := items[..|items| - 1], items[|items| - 1];
      if last.index.Some? && last.index.value !in seen && last.index.value !in Indices(before)
      then Fresh(seen, before) + [last.index.value]
      else Fresh(seen, before)
  }

  lemma IndicesConcat(a: seq<Item>, b: seq<Item>)
    ensures Indices(a + b) == Indices(a) + Indices(b)
  {
    assert forall x :: x in a + b <==> x in a || x in b;
  }

  predicate Distinct(indices: seq<string>) {
    forall i, j :: 0 <= i < j < |indices| ==> indices[i] != indices[j]
  }

  lemma {:induction false} FreshIs(seen: set<string>, items: seq<Item>)
    ensures SetOf(Fresh(seen, items)) == Indices(items) - seen && Distinct(Fresh(seen, items))
    ensures |Fresh(seen, items)| <= |items|
  {
    if items != [] {
      var before, last := items[..|items| - 1], items[|items| - 1];
      FreshIs(seen, before);
      assert items == before + [last];
      IndicesConcat(before, [last]);
      var known := Fresh(seen, before);
      assert forall x :: x in SetOf(known) <==> x in known;
      if last.index.Some? {
        assert SetOf(known + [last.index.value]) == SetOf(known) + {last.index.value};
        assert Indices([last]) == {last.index.value};
      } else {
        assert Indices([last]) == {};
      }
    }
  }

  lemma {:induction false} DistinctCount(indices: seq<string>)
    requires Distinct(indices)
    ensures |SetOf(indices)| == |indices|
  {
    if indices != [] {
      var before, last := indices[..|indices| - 1], indices[|indices| - 1];
      DistinctCount(before);
      assert SetOf(indices) == SetOf(before) + {last};
      assert last !in SetOf(before);
    }
  }

  lemma {:induction false} FreshConcat(seen: set<string>, a: seq<Item>, b: seq<Item>)
    ensures Fresh(seen, a + b) == Fresh(seen, a) + Fresh(seen + Indices(a), b)
  {
    if b == [] {
      assert a + b == a;
    } else {
      var before, last := b[..|b| - 1], b[|b| - 1];
      assert (a + b)[..|a + b| - 1] == a + before;
      FreshConcat(seen, a, before);
      IndicesConcat(a, before);
    }
  }

  /** Nothing seen is met again. */
  lemma {:induction false} FreshApart(seen: set<string>, items: seq<Item>)
    requires Indices(items) !! seen
    ensures Fresh(seen, items) == Fresh({}, items)
  {
    if items != [] {
      var before, last := items[..|items| - 1], items[|items| - 1];
      assert items == before + [last];
      IndicesConcat(before, [last]);
      FreshApart(seen, before);
      assert last.index.Some? ==> last.index.value in Indices([last]);
    }
  }

  // ---------- what a buffer holds ----------

  /** The buffer of items gathered one after the other. */
  function Gathered(items: seq<Item>): Buffer {
    Buffer(Ids(items), Fresh({}, items))
  }

  lemma GatheredAdd(items: seq<Item>, item: Item)
    ensures Add(Gathered(items), item) == Gathered(items + [item])
  {
    FreshIs({}, items);
    assert (items + [item])[..|items|] == items;
    assert forall x :: x in Fresh({}, items) <==> x in SetOf(Fresh({}, items));
  }

  /** A buffer holds the identifiers and the indices of the items, as a flush would send them. */
  predicate Holds(buffer: Buffer, items: seq<Item>) {
    buffer.ids == Ids(items) && SetOf(buffer.indices) == Indices(items)
  }

  lemma GatheredHolds(items: seq<Item>)
    ensures Holds(Gathered(items), items)
  {
    FreshIs({}, items);
  }

  // ---------- draining ----------

  /** The messages drained name the indices of their own items, and what is left those of its own. */
  predicate Harmless(buffer: Buffer, items: seq<Item>, size: nat)
    requires size > 0
  {
    var r := Drain(buffer, size);
    |r.1.ids| <= |items| && var n := |items| - |r.1.ids|; Exact(r.0, items[..n]) && Holds(r.1, items[n..])
  }

  lemma DrainStep(buffer: Buffer, size: nat)
    requires 0 < size <= |buffer.ids|
    ensures var rest := Drain(Buffer(buffer.ids[size..], Drop(buffer.indices, size)), size);
            Drain(buffer, size) == ([Payload(buffer.ids[..size], SetOf(Take(buffer.indices, size)))] + rest.0, rest.1)
  {
  }

  lemma ChunkSlices(items: seq<Item>, size: nat, left: nat)
    requires size <= |items| && left <= |items[size..]|
    ensures var n, m := |items| - left, |items[size..]| - left;
            && items[..n][..size] == items[..size] && items[..n][size..] == items[size..][..m]
            && items[n..] == items[size..][m..]
  {
  }

  lemma HarmlessStep(buffer: Buffer, items: seq<Item>, size: nat)
    requires 0 < size <= |items| && buffer.ids == Ids(items)
    ensures Harmless(buffer, items, size) <==>
              && SetOf(Take(buffer.indices, size)) == Indices(items[..size])
              && Harmless(Buffer(Ids(items[size..]), Drop(buffer.indices, size)), items[size..], size)
  {
    var rest := Buffer(buffer.ids[size..], Drop(buffer.indices, size));
    assert buffer.ids[size..] == Ids(items[size..]) && buffer.ids[..size] == Ids(items[..size]);
    DrainStep(buffer, size);
    DrainConserves(rest, size);
    var r := Drain(rest, size);
    assert |r.1.ids| <= |items[size..]|;
    ChunkSlices(items, size, |r.1.ids|);
    assert ([Payload(buffer.ids[..size], SetOf(Take(buffer.indices, size)))] + r.0)[1..] == r.0;
  }

  /** Harmless draining needs every index of the items in the buffer. */
  lemma {:induction false} HarmlessCovers(buffer: Buffer, items: seq<Item>, size: nat)
    requires size > 0 && buffer.ids == Ids(items) && Harmless(buffer, items, size)
    ensures Indices(items) <= SetOf(buffer.indices)
    decreases |items|
  {
    if size <= |items| {
      HarmlessStep(buffer, items, size);
      HarmlessCovers(Buffer(Ids(items[size..]), Drop(buffer.indices, size)), items[size..], size);
      assert items == items[..size] + items[size..];
      IndicesConcat(items[..size], items[size..]);
    } else {
      assert Drain(buffer, size) == ([], buffer) && items[0..] == items;
    }
  }

  /**
   The condition on what waits and a size: no index is shared by two chunks, nor by a chunk and what is left, and a
   chunk that is followed by an index has as many indices as documents.
   */
  predicate Fits(items: seq<Item>, size: nat)
    requires size > 0
    decreases |items|
  {
    |items| < size
    || var chunk, rest := items[..size], items[size..];
       && Indices(chunk) !! Indices(rest)
       && (Indices(rest) != {} ==> |Indices(chunk)| == size)
       && Fits(rest, size)
  }

  /** What a chunk takes of the indices gathered, and what it leaves. */
  lemma ChunkTakes(chunk: seq<Item>, rest: seq<Item>)
    ensures var a, b := Fresh({}, chunk), Fresh(Indices(chunk), rest);
            && Fresh({}, chunk + rest) == a + b && |a| == |Indices(chunk)| <= |chunk|
            && SetOf(a) == Indices(chunk) && SetOf(b) == Indices(rest) - Indices(chunk)
  {
    FreshConcat({}, chunk, rest);
    assert {} + Indices(chunk) == Indices(chunk);
    FreshIs({}, chunk);
    FreshIs(Indices(chunk), rest);
    DistinctCount(Fresh({}, chunk));
  }

  lemma TakeOver(a: seq<string>, b: seq<string>, size: nat)
    requires |a| <= size && SetOf(a) !! SetOf(b)
    ensures SetOf(Take(a + b, size)) == SetOf(a) <==> |a| == size || b == []
    ensures |a| == size || b == [] ==> Drop(a + b, size) == b
  {
    if |a| < size && b != [] {
      var taken := Take(a + b, size);
      assert taken[|a|] == b[0] && b[0] in SetOf(b);
      assert b[0] in SetOf(taken);
    } else if b == [] {
      assert a + b == a;
    } else {
      assert Take(a + b, size) == a;
    }
  }

  /** Draining what was gathered is harmless exactly when the items fit the size, and then leaves what is gathered of the rest. */
  lemma {:induction false} HarmlessExactly(items: seq<Item>, size: nat)
    requires size > 0
    ensures Harmless(Gathered(items), items, size) <==> Fits(items, size)
    decreases |items|, 0
  {
    GatheredHolds(items);
    if |items| < size {
      assert items[..0] == [] && items[0..] == items;
    } else {
      var chunk, rest := items[..size], items[size..];
      assert items == chunk + rest;
      ChunkTakes(chunk, rest);
      HarmlessStep(Gathered(items), items, size);
      TakeOver(Fresh({}, chunk), Fresh(Indices(chunk), rest), size);
      NoFresh(chunk, rest);
      HarmlessRest(chunk, rest, size);
    }
  }

  lemma NoFresh(chunk: seq<Item>, rest: seq<Item>)
    ensures Fresh(Indices(chunk), rest) == [] <==> Indices(rest) <= Indices(chunk)
  {
    var b := Fresh(Indices(chunk), rest);
    FreshIs(Indices(chunk), rest);
    assert b != [] ==> b[0] in SetOf(b);
    assert b == [] ==> SetOf(b) == {};
    if Indices(rest) <= Indices(chunk) {
      assert Indices(rest) - Indices(chunk) == {};
    }
  }

  /** One chunk taken: harmless from there on exactly when it shares no index and took all it could. */
  lemma {:induction false} HarmlessRest(chunk: seq<Item>, rest: seq<Item>, size: nat)
    requires |chunk| == size > 0
    ensures Harmless(Buffer(Ids(rest), Fresh(Indices(chunk), rest)), rest, size)
            <==> Indices(chunk) !! Indices(rest) && Fits(rest, size)
    decreases |rest|, 1
  {
    var b := Fresh(Indices(chunk), rest);
    FreshIs(Indices(chunk), rest);
    if Indices(chunk) !! Indices(rest) {
      FreshApart(Indices(chunk), rest);
      HarmlessExactly(rest, size);
    } else if Harmless(Buffer(Ids(rest), b), rest, size) {
      HarmlessCovers(Buffer(Ids(rest), b), rest, size);
    }
  }

  /** Past a chunk of items that fit, the buffer is what is gathered of the rest. */
  lemma FitsStep(items: seq<Item>, size: nat)
    requires 0 < size <= |items| && Fits(items, size)
    ensures Buffer(Gathered(items).ids[size..], Drop(Gathered(items).indices, size)) == Gathered(items[size..])
  {
    var chunk, rest := items[..size], items[size..];
    assert items == chunk + rest;
    ChunkTakes(chunk, rest);
    FreshApart(Indices(chunk), rest);
    NoFresh(chunk, rest);
    assert Indices(rest) == {} ==> Fresh({}, rest) == [];
    TakeOver(Fresh({}, chunk), Fresh({}, rest), size);
    assert Gathered(items).ids[size..] == Ids(rest);
  }

  /** The buffer is what is gathered of the last items. */
  predicate Leaves(items: seq<Item>, r: Buffer) {
    |r.ids| <= |items| && r == Gathered(items[|items| - |r.ids|..])
  }

  lemma LeavesMore(items: seq<Item>, size: nat, r: Buffer)
    requires size <= |items| && Leaves(items[size..], r)
    ensures Leaves(items, r)
  {
    assert items[size..][|items[size..]| - |r.ids|..] == items[|items| - |r.ids|..];
  }

  lemma LeavesAll(items: seq<Item>)
    ensures Leaves(items, Gathered(items))
  {
    assert items[0..] == items;
  }

  lemma DrainRest(items: seq<Item>, size: nat)
    requires 0 < size <= |items| && Fits(items, size)
    ensures Drain(Gathered(items), size).1 == Drain(Gathered(items[size..]), size).1
  {
    FitsStep(items, size);
    DrainStep(Gathered(items), size);
  }

  /** Items that fit leave what is gathered of the last ones. */
  lemma {:induction false} FitsLeaves(items: seq<Item>, size: nat)
    requires size > 0 && Fits(items, size)
    ensures Leaves(items, Drain(Gathered(items), size).1)
    decreases |items|
  {
    if |items| < size {
      LeavesAll(items);
    } else {
      DrainRest(items, size);
      FitsLeaves(items[size..], size);
      LeavesMore(items, size, Drain(Gathered(items[size..]), size).1);
    }
  }

  // ---------- a run ----------

  /** The last items, as many as `count`. */
  function Last(items: seq<Item>, count: nat): seq<Item> {
    if count <= |items| then items[|items| - count..] else items
  }

  function Left(events: seq<Event>): seq<Item>
    requires PositiveSizes(events)
  {
    Last(Items(events), |After(events).buffer.ids|)
  }

  /** Every message sent names exactly the indices of its own documents, and so would a flush. */
  predicate Truthful(channel: Channel, items: seq<Item>) {
    && |channel.buffer.ids| <= |items|
    && var n := |items| - |channel.buffer.ids|; Exact(channel.sent, items[..n]) && Holds(channel.buffer, items[n..])
  }

  predicate Prior(events: seq<Event>) {
    events != [] && PositiveSizes(events[..|events| - 1])
  }

  predicate EverTruthful(events: seq<Event>)
    requires PositiveSizes(events)
  {
    && Truthful(After(events), Items(events))
    && (events != [] ==> Prior(events) && EverTruthful(events[..|events| - 1]))
  }

  /** Each document gathered fits the chunk size with what waits: a caller can look before it hands it over. */
  predicate EverFits(events: seq<Event>)
    requires PositiveSizes(events)
  {
    events != [] ==>
      && Prior(events)
      && var before, last := events[..|events| - 1], events[|events| - 1];
         && EverFits(before)
         && (last.Handle? && After(before).chunk.Some? ==> Fits(Left(before) + [last.item], After(before).chunk.value))
  }

  lemma {:induction false} ExactSplit(a: seq<Payload>, x: seq<Item>, b: seq<Payload>, y: seq<Item>)
    requires Exact(a, x)
    ensures Exact(a + b, x + y) <==> Exact(b, y)
  {
    if a == [] {
      assert a + b == b && x + y == y;
    } else {
      var count := |a[0].ids|;
      assert (a + b)[1..] == a[1..] + b;
      assert (x + y)[..count] == x[..count] && (x + y)[count..] == x[count..] + y;
      ExactSplit(a[1..], x[count..], b, y);
    }
  }

  /** The channel, with exact messages for all but `waiting`, which is what it has gathered. */
  predicate Settled(channel: Channel, done: seq<Item>, waiting: seq<Item>) {
    Exact(channel.sent, done) && channel.buffer == Gathered(waiting)
  }

  lemma SettledIsTruthful(channel: Channel, done: seq<Item>, waiting: seq<Item>)
    requires Settled(channel, done, waiting)
    ensures Truthful(channel, done + waiting) && Last(done + waiting, |channel.buffer.ids|) == waiting
  {
    GatheredHolds(waiting);
    assert (done + waiting)[..|done|] == done && (done + waiting)[|done|..] == waiting;
  }

  /** Messages sent for items of their own, and a buffer, after a settled channel. */
  lemma TruthfulAfter(
      channel: Channel, done: seq<Item>, items: seq<Item>, sent: seq<Payload>, buffer: Buffer, chunk: Option<nat>)
    requires Exact(channel.sent, done) && SentIds(sent) + buffer.ids == Ids(items)
    ensures Truthful(Channel(buffer, chunk, channel.sent + sent), done + items) <==>
              var n := |items| - |buffer.ids|; Exact(sent, items[..n]) && Holds(buffer, items[n..])
  {
    var n := |items| - |buffer.ids|;
    assert |SentIds(sent)| == n;
    var all := done + items;
    assert all[..|done| + n] == done + items[..n] && all[|done| + n..] == items[n..];
    ExactSplit(channel.sent, done, sent, items[..n]);
  }

  lemma GatheredOnly(channel: Channel, done: seq<Item>, waiting: seq<Item>, item: Item)
    requires channel.chunk.Some? && channel.chunk.value > 0 && Settled(channel, done, waiting)
    ensures Truthful(Next(channel, Handle(item)), done + (waiting + [item]))
            <==> Fits(waiting + [item], channel.chunk.value)
  {
    var size, items := channel.chunk.value, waiting + [item];
    GatheredAdd(waiting, item);
    HarmlessExactly(items, size);
    DrainConserves(Gathered(items), size);
    var r := Drain(Gathered(items), size);
    TruthfulAfter(channel, done, items, r.0, r.1, channel.chunk);
  }

  lemma FitsDrains(items: seq<Item>, size: nat) returns (more: seq<Item>, left: seq<Item>)
    requires size > 0 && Fits(items, size)
    ensures items == more + left
    ensures var r := Drain(Gathered(items), size); Exact(r.0, more) && r.1 == Gathered(left)
  {
    HarmlessExactly(items, size);
    FitsLeaves(items, size);
    var n := |items| - |Drain(Gathered(items), size).1.ids|;
    more, left := items[..n], items[n..];
  }

  lemma GatheredSettles(channel: Channel, done: seq<Item>, waiting: seq<Item>, item: Item)
    returns (more: seq<Item>, left: seq<Item>)
    requires channel.chunk.Some? && channel.chunk.value > 0 && Settled(channel, done, waiting)
    requires Fits(waiting + [item], channel.chunk.value)
    ensures waiting + [item] == more + left && Settled(Next(channel, Handle(item)), done + more, left)
  {
    var size, items := channel.chunk.value, waiting + [item];
    GatheredAdd(waiting, item);
    more, left := FitsDrains(items, size);
    ExactSplit(channel.sent, done, Drain(Gathered(items), size).0, more);
  }

  lemma SingleSettles(channel: Channel, done: seq<Item>, item: Item)
    requires channel.chunk.None? && Settled(channel, done, [])
    ensures Settled(Next(channel, Handle(item)), done + [item], [])
  {
    var sent := Handled(channel.buffer, None, item).0;
    assert [item][..1] == [item] && [item][1..] == [];
    assert Indices([item]) == (if item.index.Some? then {item.index.value} else {});
    assert Exact(sent, [item]);
    ExactSplit(channel.sent, done, sent, [item]);
  }

  lemma FlushSettles(channel: Channel, done: seq<Item>, waiting: seq<Item>)
    requires channel.chunk.Some? ==> channel.chunk.value > 0
    requires Settled(channel, done, waiting)
    ensures Settled(Next(channel, Flush), done + waiting, [])
  {
    GatheredHolds(waiting);
    assert waiting[..|waiting|] == waiting && waiting[|waiting|..] == [];
    assert Exact(Flushed(channel.buffer), waiting);
    ExactSplit(channel.sent, done, Flushed(channel.buffer), waiting);
  }

  /** A run whose documents fit leaves its channel settled. */
  lemma {:induction false} FitsSettles(events: seq<Event>) returns (done: seq<Item>, waiting: seq<Item>)
    requires PositiveSizes(events) && EverFits(events)
    ensures Items(events) == done + waiting && waiting == Left(events) && Settled(After(events), done, waiting)
  {
    if events == [] {
      done, waiting := [], [];
    } else {
      var before, last := events[..|events| - 1], events[|events| - 1];
      Unroll(events);
      var d, w := FitsSettles(before);
      NoChunkNoBuffer(before);
      assert |Ids(w)| == |w|;
      done, waiting := StepSettles(After(before), d, w, last);
      assert Items(events) == done + waiting;
      SettledIsTruthful(After(events), done, waiting);
    }
  }

  lemma StepSettles(channel: Channel, done: seq<Item>, waiting: seq<Item>, event: Event)
    returns (d: seq<Item>, w: seq<Item>)
    requires channel.chunk.Some? ==> channel.chunk.value > 0
    requires Settled(channel, done, waiting)
    requires event.Handle? && channel.chunk.None? ==> waiting == []
    requires event.Handle? && channel.chunk.Some? ==> Fits(waiting + [event.item], channel.chunk.value)
    ensures done + waiting + ItemsOf(event) == d + w && Settled(Next(channel, event), d, w)
  {
    match event {
      case Handle(item) =>
        if channel.chunk.None? {
          SingleSettles(channel, done, item);
          d, w := done + [item], [];
        } else {
          var more;
          more, w := GatheredSettles(channel, done, waiting, item);
          d := done + more;
          assert done + (waiting + [item]) == done + waiting + [item];
          assert done + (more + w) == done + more + w;
        }
      case Flush =>
        FlushSettles(channel, done, waiting);
        d, w := done + waiting, [];
      case Resize(size) =>
        d, w := done, waiting;
    }
  }

  /**
   Over a run, every message names exactly the indices of its own documents, and so would a flush at any time, if
   and only if each document gathered fitted the chunk size with what waited.
   */
  lemma {:induction false} IndicesExact(events: seq<Event>)
    requires PositiveSizes(events)
    ensures EverTruthful(events) <==> EverFits(events)
  {
    if events == [] {
      assert Truthful(After(events), Items(events));
    } else {
      var before, last := events[..|events| - 1], events[|events| - 1];
      Unroll(events);
      IndicesExact(before);
      if EverFits(before) {
        var done, waiting := FitsSettles(before);
        if last.Handle? && After(before).chunk.Some? {
          GatheredOnly(After(before), done, waiting, last.item);
          assert Items(events) == done + (waiting + [last.item]);
        } else {
          NoChunkNoBuffer(before);
          var d, w := StepSettles(After(before), done, waiting, last);
          SettledIsTruthful(After(events), d, w);
        }
      }
    }
  }

  /** After a flush nothing waits: the messages cover everything that was handled. */
  lemma FlushedExact(events: seq<Event>)
    requires PositiveSizes(events) && PositiveSizes(events + [Flush]) && EverFits(events)
    ensures After(events + [Flush]).buffer == EMPTY && Exact(After(events + [Flush]).sent, Items(events))
  {
    var done, waiting := FitsSettles(events);
    FlushSettles(After(events), done, waiting);
    assert (events + [Flush])[..|events|] == events;
  }

  /** No change of size goes to or below what is waiting. */
  predicate NeverBelowBacklog(events: seq<Event>)
    requires PositiveSizes(events)
  {
    events != [] ==>
      && Prior(events)
      && NeverBelowBacklog(events[..|events| - 1])
      && (events[|events| - 1].Resize? ==> |After(events[..|events| - 1]).buffer.ids| < events[|events| - 1].size)
  }

  /** Such a run always fits, and less waits than a chunk. */
  lemma {:induction false} BacklogFits(events: seq<Event>)
    requires PositiveSizes(events) && NeverBelowBacklog(events)
    ensures EverFits(events)
    ensures After(events).chunk.Some? ==> |After(events).buffer.ids| < After(events).chunk.value
  {
    if events != [] {
      var before, last := events[..|events| - 1], events[|events| - 1];
      Unroll(events);
      BacklogFits(before);
      if last.Handle? && After(before).chunk.Some? {
        HandledConserves(After(before).buffer, After(before).chunk, last.item);
        SmallFits(Left(before) + [last.item], After(before).chunk.value);
      }
    }
  }

  lemma SmallFits(items: seq<Item>, size: nat)
    requires 0 < size && |items| <= size
    ensures Fits(items, size)
  {
    assert |items| == size ==> items[size..] == [] && Indices(items[size..]) == {};
  }
}
