/** The messenger: chunk sizes read from the configuration, and one buffer per destination. */
module Messenger {
  import opened Wrappers
  import opened Messages

  // ---------- chunk sizes ----------

  /** What the configuration holds for a routing key. */
  datatype Setting = NotAnObject | NoSize | NotAnInteger | Size(size: int)

  predicate IsBad(setting: Setting) {
    setting.NotAnObject? || setting.NotAnInteger? || (setting.Size? && setting.size <= 0)
  }

  /** The size of a routing key: the last one given. */
  function SizeOf(settings: seq<(string, Setting)>, key: string): Option<int> {
    if settings == [] then None
    else
      var last := settings[|settings| - 1];
      if last.0 == key && last.1.Size? then Some(last.1.size) else SizeOf(settings[..|settings| - 1], key)
  }

  /** Reads the sizes: refused exactly when a setting is bad, so that every size read is positive. */
  method ParseChunkConfig(settings: seq<(string, Setting)>) returns (r: Result<map<string, nat>, string>)
    ensures r.Failure? <==> exists i :: 0 <= i < |settings| && IsBad(settings[i].1)
    ensures r.Failure? ==> exists i :: 0 <= i < |settings| && IsBad(settings[i].1) && r.error == settings[i].0
                                       && forall j :: 0 <= j < i ==> !IsBad(settings[j].1)
    ensures r.Success? ==> forall key :: key in r.value <==> SizeOf(settings, key).Some?
    ensures r.Success? ==> forall key :: key in r.value ==> SizeOf(settings, key) == Some(r.value[key]) && r.value[key] > 0
  {
    var sizes: map<string, nat> := map[];
    for k := 0 to |settings|
      invariant forall i :: 0 <= i < k ==> !IsBad(settings[i].1)
      invariant forall key :: key in sizes <==> SizeOf(settings[..k], key).Some?
      invariant forall key :: key in sizes ==> SizeOf(settings[..k], key) == Some(sizes[key]) && sizes[key] > 0
    {
      assert settings[..k + 1][..k] == settings[..k];
      var (key, setting) := settings[k];
      if IsBad(setting) {
        return Failure(key);
      }
      if setting.Size? {
        sizes := sizes[key := setting.size];
      }
    }
    assert settings[..|settings|] == settings;
    return Success(sizes);
  }

  // ---------- sending ----------

  /** Where the documents of a configuration go; an empty routing key is nowhere. */
  datatype Destination = Destination(exchange: string, routingKey: string, model: string)

  /** What was sent to a destination, in order. */
  function SentTo(sent: seq<(Destination, Payload)>, destination: Destination): seq<Payload> {
    if sent == [] then []
    else
      SentTo(sent[..|sent| - 1], destination)
      + if sent[|sent| - 1].0 == destination then [sent[|sent| - 1].1] else []
  }

  lemma SentOneMore(sent: seq<(Destination, Payload)>, to: Destination, payload: Payload)
    ensures forall d :: SentTo(sent + [(to, payload)], d) == SentTo(sent, d) + if d == to then [payload] else []
  {
    assert (sent + [(to, payload)])[..|sent|] == sent;
  }

  /** The broker took the first messages, `count` of them; what is not all right is the next one, which it refused. */
  predicate Took(broker: nat -> bool, before: nat, after: nat, ok: bool, count: nat) {
    after == before + count && (forall i :: 0 <= i < count ==> broker(i)) && (!ok ==> !broker(count))
  }

  class Messenger {
    const exchangeName: string
    var chunkConfig: map<string, nat>
    var groups: map<Destination, Buffer>
    /** What the broker accepted. */
    var sent: seq<(Destination, Payload)>

    constructor (exchangeName: string)
      ensures Valid() && this.exchangeName == exchangeName
      ensures chunkConfig == map[] && groups == map[] && sent == []
    {
      this.exchangeName := exchangeName;
      chunkConfig, groups, sent := map[], map[], [];
    }

    ghost predicate Valid()
      reads this
    {
      forall key :: key in chunkConfig ==> chunkConfig[key] > 0
    }

    function Chunk(destination: Destination): (r: Option<nat>)
      requires Valid()
      reads this
      ensures r.Some? ==> r.value > 0
    {
      if destination.routingKey in chunkConfig then Some(chunkConfig[destination.routingKey]) else None
    }

    function Waits(destination: Destination): Buffer
      reads this
    {
      if destination in groups then groups[destination] else EMPTY
    }

    /** All there is about a destination. */
    function At(destination: Destination): Channel
      requires Valid()
      reads this
    {
      Channel(Waits(destination), Chunk(destination), SentTo(sent, destination))
    }

    /** Reads the sizes of a configuration: its keys take the sizes it gives, the others keep theirs. */
    method LoadConfig(settings: seq<(string, Setting)>) returns (ok: bool)
      requires Valid()
      modifies this`chunkConfig
      ensures Valid()
      ensures ok <==> forall i :: 0 <= i < |settings| ==> !IsBad(settings[i].1)
      ensures !ok ==> chunkConfig == old(chunkConfig)
      ensures ok ==> forall d: Destination ::
                       if SizeOf(settings, d.routingKey).Some?
                       then Chunk(d).Some? && Chunk(d).value == SizeOf(settings, d.routingKey).value
                       else Chunk(d) == old(Chunk(d))
    {
      var parsed := ParseChunkConfig(settings);
      if parsed.Failure? {
        return false;
      }
      chunkConfig := chunkConfig + parsed.value;
      return true;
    }

    /** Sends a payload, when the broker takes it. */
    method Send(to: Destination, payload: Payload, accepted: bool)
      requires Valid()
      modifies this`sent
      ensures forall d :: SentTo(sent, d) == old(SentTo(sent, d)) + if accepted && d == to then [payload] else []
      ensures !accepted ==> sent == old(sent)
      ensures |sent| == |old(sent)| + if accepted then 1 else 0
    {
      if accepted {
        SentOneMore(sent, to, payload);
        sent := sent + [(to, payload)];
      }
    }

    /** The destination of a configuration: its own exchange, or the default one. */
    function DestinationOf(config: Destination): Destination {
      if config.exchange == "" then config.(exchange := exchangeName) else config
    }

    /**
     Announces a document. Other destinations see nothing of it; this one goes through one step of its own
     run, or, when the broker fails, keeps every identifier that was not sent. It fails only at a message the broker
     refuses, once the ones before it are sent.
     */
    method Announce(config: Destination, item: Item, broker: nat -> bool) returns (ok: bool, ghost count: nat)
      requires Valid()
      modifies this`groups, this`sent
      ensures Valid()
      ensures config.routingKey == "" ==> ok && groups == old(groups) && sent == old(sent)
      ensures config.routingKey != "" ==>
                && (forall d :: d != DestinationOf(config) ==> At(d) == old(At(d)))
                && var to := DestinationOf(config);
                   && At(to).sent <= Next(old(At(to)), Handle(item)).sent
                   && (ok ==> At(to) == Next(old(At(to)), Handle(item)))
                   && (!ok ==> SentIds(At(to).sent) + At(to).buffer.ids
                               == SentIds(old(At(to)).sent) + old(At(to)).buffer.ids
                                  + if Chunk(to).Some? then [item.id] else [])
      ensures Took(broker, |old(sent)|, |sent|, ok, count)
    {
      if config.routingKey == "" {
        return true, 0;
      }
      var to := DestinationOf(config);
      if to.routingKey !in chunkConfig {
        Send(to, Payload([item.id], if item.index.Some? then {item.index.value} else {}), broker(0));
        return broker(0), if broker(0) then 1 else 0;
      }
      ok, count := Gather(to, item, broker);
    }

    /** Adds an identifier to the buffer of a destination, and sends its full chunks. */
    method Gather(to: Destination, item: Item, broker: nat -> bool) returns (ok: bool, ghost count: nat)
      requires Valid() && Chunk(to).Some?
      modifies this`groups, this`sent
      ensures Valid()
      ensures forall d :: d != to ==> At(d) == old(At(d))
      ensures ok ==> At(to) == Next(old(At(to)), Handle(item))
      ensures At(to).sent <= Next(old(At(to)), Handle(item)).sent
      ensures SentIds(At(to).sent) + At(to).buffer.ids
              == SentIds(old(At(to)).sent) + old(At(to)).buffer.ids + [item.id]
      ensures Took(broker, |old(sent)|, |sent|, ok, count)
    {
      var size := chunkConfig[to.routingKey];
      ghost var start := Add(Waits(to), item);
      ghost var before := SentTo(sent, to);
      groups := groups[to := Add(Waits(to), item)];
      Regroup(SentIds(before), Waits(to).ids, []);
      Regroup(SentIds(before), old(Waits(to)).ids, [item.id]);
      assert before + Drain(start, size).0 == before + Drain(groups[to], size).0;
      var attempt := 0;
      count := 0;
      while |groups[to].ids| >= size
        invariant attempt == count && Took(broker, |old(sent)|, |sent|, true, count)
        invariant Valid() && to in groups && chunkConfig[to.routingKey] == size
        invariant forall d :: d != to ==> Waits(d) == old(Waits(d)) && SentTo(sent, d) == old(SentTo(sent, d))
        invariant SentTo(sent, to) + Drain(groups[to], size).0 == before + Drain(start, size).0
        invariant Drain(groups[to], size).1 == Drain(start, size).1
        invariant SentIds(SentTo(sent, to)) + groups[to].ids == SentIds(before) + start.ids
        decreases |groups[to].ids|
      {
        var buffer := groups[to];
        var payload := Payload(buffer.ids[..size], SetOf(Take(buffer.indices, size)));
        if !broker(attempt) {
          return false, count;
        }
        ghost var sentBefore := SentTo(sent, to);
        Send(to, payload, true);
        groups := groups[to := Buffer(buffer.ids[size..], Drop(buffer.indices, size))];
        ChunkSent(sentBefore, buffer, size, payload);
        attempt := attempt + 1;
        count := count + 1;
      }
      assert Drain(groups[to], size) == ([], groups[to]);
      assert SentTo(sent, to) + [] == SentTo(sent, to);
      return true, count;
    }

    /** Sends what waits, then forgets it; when the broker fails, nothing is forgotten. */
    method FlushGroups(broker: nat -> bool) returns (ok: bool, ghost count: nat)
      requires Valid()
      modifies this`groups, this`sent
      ensures Valid()
      ensures ok ==> groups == map[] && forall d :: At(d) == Next(old(At(d)), Flush)
      ensures !ok ==>
                && groups == old(groups)
                && forall d :: SentTo(sent, d) == old(SentTo(sent, d))
                               || SentTo(sent, d) == old(SentTo(sent, d)) + Flushed(old(Waits(d)))
      ensures Took(broker, |old(sent)|, |sent|, ok, count)
    {
      var left := groups.Keys;
      var attempt := 0;
      count := 0;
      while left != {}
        invariant attempt == count && Took(broker, |old(sent)|, |sent|, true, count)
        invariant Valid() && groups == old(groups) && left <= groups.Keys
        invariant forall d :: SentTo(sent, d) ==
                              old(SentTo(sent, d)) + if d in groups && d !in left then Flushed(groups[d]) else []
        decreases left
      {
        var to :| to in left;
        var buffer := groups[to];
        if buffer.ids != [] {
          if !broker(attempt) {
            return false, count;
          }
          Send(to, Payload(buffer.ids, SetOf(buffer.indices)), true);
          attempt := attempt + 1;
          count := count + 1;
        }
        left := left - {to};
      }
      groups := map[];
      return true, count;
    }
  }

  /** Sending one full chunk leaves what is still to send, and loses no identifier. */
  lemma ChunkSent(sent: seq<Payload>, buffer: Buffer, size: nat, payload: Payload)
    requires 0 < size <= |buffer.ids| && payload == Payload(buffer.ids[..size], SetOf(Take(buffer.indices, size)))
    ensures var rest := Buffer(buffer.ids[size..], Drop(buffer.indices, size));
            && (sent + [payload]) + Drain(rest, size).0 == sent + Drain(buffer, size).0
            && Drain(rest, size).1 == Drain(buffer, size).1
            && SentIds(sent + [payload]) + rest.ids == SentIds(sent) + buffer.ids
  {
    var rest := Drain(Buffer(buffer.ids[size..], Drop(buffer.indices, size)), size);
    Regroup(sent, [payload], rest.0);
    ChunkIds(sent, payload, buffer.ids, size);
  }

  lemma ChunkIds(sent: seq<Payload>, payload: Payload, ids: seq<string>, size: nat)
    requires size <= |ids| && payload.ids == ids[..size]
    ensures SentIds(sent + [payload]) + ids[size..] == SentIds(sent) + ids
  {
    SentIdsConcat(sent, [payload]);
    assert SentIds([payload]) == payload.ids + SentIds([]) == payload.ids;
    Regroup(SentIds(sent), payload.ids, ids[size..]);
    assert payload.ids + ids[size..] == ids;
  }
}
