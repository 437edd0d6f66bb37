/** The DataBroadcaster (data_broadcaster.go) taken one locked step at a time:
    a ring caching the latest rows, the live subscriber channels, and what
    every channel has been sent. A channel is known by its identity; sending
    on it appends to its entry of `delivered`. */
module DataBroadcaster {
  import opened Utils
  import opened ReadErrors
  import opened Encoding
  import opened DataReader

  /** A subscriber channel, by identity. */
  type Channel = nat

  /** What channel c has been sent so far. */
  function Received(delivered: map<Channel, seq<DataRow>>, c: Channel): seq<DataRow>
  {
    if c in delivered then delivered[c] else []
  }

  /** Send row on each channel of chans, in order. */
  function Broadcast(delivered: map<Channel, seq<DataRow>>, chans: seq<Channel>, row: DataRow): (r: map<Channel, seq<DataRow>>)
    decreases |chans|
  {
    if chans == [] then delivered
    else Broadcast(delivered[chans[0] := Received(delivered, chans[0]) + [row]], chans[1..], row)
  }

  predicate NoDuplicates(chans: seq<Channel>)
  {
    forall i, j :: 0 <= i < j < |chans| ==> chans[i] != chans[j]
  }

  /** The tail of a list without duplicates has none, and lacks the head. */
  lemma NoDuplicatesTail(chans: seq<Channel>)
    requires chans != [] && NoDuplicates(chans)
    ensures NoDuplicates(chans[1..]) && chans[0] !in chans[1..]
  {
    var tail := chans[1..];
    forall i, j | 0 <= i < j < |tail| ensures tail[i] != tail[j] {
      assert tail[i] == chans[i + 1] && tail[j] == chans[j + 1];
    }
    forall k | 0 <= k < |tail| ensures tail[k] != chans[0] {
      assert tail[k] == chans[k + 1];
    }
  }

  /** With every channel listed once, a listed channel receives the row
      exactly once and any other channel receives nothing. */
  lemma {:induction false} BroadcastOne(delivered: map<Channel, seq<DataRow>>, chans: seq<Channel>,
                                        row: DataRow, c: Channel)
    requires NoDuplicates(chans)
    ensures Received(Broadcast(delivered, chans, row), c) ==
            if c in chans then Received(delivered, c) + [row] else Received(delivered, c)
    decreases |chans|
  {
    if chans != [] {
      var next := delivered[chans[0] := Received(delivered, chans[0]) + [row]];
      NoDuplicatesTail(chans);
      BroadcastOne(next, chans[1..], row, c);
      assert c in chans <==> c == chans[0] || c in chans[1..];
    }
  }

  /** BroadcastOne for every channel at once. */
  lemma BroadcastEach(delivered: map<Channel, seq<DataRow>>, chans: seq<Channel>, row: DataRow)
    requires NoDuplicates(chans)
    ensures forall c :: Received(Broadcast(delivered, chans, row), c) ==
                        if c in chans then Received(delivered, c) + [row] else Received(delivered, c)
  {
    forall c ensures Received(Broadcast(delivered, chans, row), c) ==
                     if c in chans then Received(delivered, c) + [row] else Received(delivered, c)
    {
      BroadcastOne(delivered, chans, row, c);
    }
  }

  /** Appending a channel that is not listed keeps the list free of duplicates. */
  lemma NoDuplicatesAppend(chans: seq<Channel>, c: Channel)
    requires NoDuplicates(chans) && c !in chans
    ensures NoDuplicates(chans + [c])
  {
    var all := chans + [c];
    forall i, j | 0 <= i < j < |all| ensures all[i] != all[j] {
      if j == |chans| {
        assert all[i] == chans[i];
      } else {
        assert all[i] == chans[i] && all[j] == chans[j];
      }
    }
  }

  /** Removing channels from a list without duplicates leaves none. */
  lemma {:induction false} FilteredNoDuplicates(chans: seq<Channel>, keep: Channel -> bool)
    requires NoDuplicates(chans)
    ensures NoDuplicates(Filtered(chans, keep))
  {
    if chans != [] {
      var tail := chans[1..];
      NoDuplicatesTail(chans);
      FilteredNoDuplicates(tail, keep);
      FilteredMembers(tail, keep);
      var rest := Filtered(tail, keep);
      if keep(chans[0]) {
        forall i, j | 0 <= i < j < |[chans[0]] + rest|
          ensures ([chans[0]] + rest)[i] != ([chans[0]] + rest)[j]
        {
          if i == 0 {
            assert ([chans[0]] + rest)[j] == rest[j - 1];
            assert rest[j - 1] in rest;
          } else {
            assert ([chans[0]] + rest)[i] == rest[i - 1] && ([chans[0]] + rest)[j] == rest[j - 1];
          }
        }
      } else {
        assert Filtered(chans, keep) == rest;
      }
    }
  }

  /** The row cached and broadcast when the run loop ends: no data, the
      stream-ended flag, and the run's error. */
  function EndMarker(err: Option<ReadError>): (r: DataRow)
    ensures r.streamEnded && r.streamErr == err && r.ys == []
  {
    DataRow(0, [], true, err)
  }

  /** The read results that end the run loop: io.EOF and any error other
      than errIgnoreThisRow. */
  predicate Stops(result: ReadResult<DataRow>)
  {
    result.Error? && result.err != IgnoreThisRow
  }

  /** What input.Read returns next; an exhausted reader keeps returning io.EOF. */
  function NextRead(inputs: seq<ReadResult<DataRow>>): ReadResult<DataRow>
  {
    if inputs == [] then Error(Eof) else inputs[0]
  }

  /** The rows the run loop broadcasts, in read order: every row read before
      the first stopping result, ignored rows skipped. */
  function Accepted(inputs: seq<ReadResult<DataRow>>): seq<DataRow>
  {
    if inputs == [] || Stops(inputs[0]) then []
    else (if inputs[0].Value? then [inputs[0].value] else []) + Accepted(inputs[1..])
  }

  /** What run returns: nil at io.EOF (or the end of input), the error
      otherwise. */
  function RunError(inputs: seq<ReadResult<DataRow>>): (r: Option<ReadError>)
    ensures r != Some(Eof) && r != Some(IgnoreThisRow)
  {
    if inputs == [] then None
    else if Stops(inputs[0]) then (if inputs[0].err == Eof then None else Some(inputs[0].err))
    else RunError(inputs[1..])
  }

  /** The input left once the run loop has stopped. */
  function Unread(inputs: seq<ReadResult<DataRow>>): seq<ReadResult<DataRow>>
  {
    if inputs == [] then []
    else if Stops(inputs[0]) then inputs[1..]
    else Unread(inputs[1..])
  }

  /** One turn of the run loop: a stopping result ends it, anything else is
      consumed, its row (if any) accepted, and the loop goes on. */
  lemma ReadStep(inputs: seq<ReadResult<DataRow>>)
    ensures Stops(NextRead(inputs)) ==>
              && Accepted(inputs) == []
              && RunError(inputs) == (if NextRead(inputs).err == Eof then None else Some(NextRead(inputs).err))
              && Unread(inputs) == (if inputs == [] then [] else inputs[1..])
    ensures !Stops(NextRead(inputs)) ==>
              && inputs != []
              && Accepted(inputs) == (if inputs[0].Value? then [inputs[0].value] else []) + Accepted(inputs[1..])
              && RunError(inputs) == RunError(inputs[1..])
              && Unread(inputs) == Unread(inputs[1..])
  {
  }

  /** The rows among read results, in order. */
  function Values(results: seq<ReadResult<DataRow>>): seq<DataRow>
  {
    if results == [] then []
    else (if results[0].Value? then [results[0].value] else []) + Values(results[1..])
  }

  /** The run loop over a prefix of rows and ignored rows that ends with a
      stopping result: it broadcasts exactly the prefix's rows, in order, and
      returns nil for io.EOF and the error otherwise. Nothing after the stop
      is read. */
  lemma {:induction false} RunStopsAt(prefix: seq<ReadResult<DataRow>>, stop: ReadResult<DataRow>,
                                      rest: seq<ReadResult<DataRow>>)
    requires forall i :: 0 <= i < |prefix| ==> !Stops(prefix[i])
    requires Stops(stop)
    ensures Accepted(prefix + [stop] + rest) == Values(prefix)
    ensures RunError(prefix + [stop] + rest) == if stop.err == Eof then None else Some(stop.err)
    ensures Unread(prefix + [stop] + rest) == rest
  {
    var all := prefix + [stop] + rest;
    if prefix == [] {
      assert all == [stop] + rest;
      assert all[1..] == rest;
    } else {
      assert all[0] == prefix[0] && all[1..] == prefix[1..] + [stop] + rest;
      RunStopsAt(prefix[1..], stop, rest);
    }
  }

  /** No gap, no duplicate: every live channel c has been sent what it had
      before registering, then exactly the cached rows from since[c] on. */
  ghost predicate Synced(delivered: map<Channel, seq<DataRow>>, chans: seq<Channel>,
                         before: map<Channel, seq<DataRow>>, since: map<Channel, nat>, emitted: seq<DataRow>)
  {
    forall c :: c in chans ==>
      && c in before && c in since && since[c] <= |emitted|
      && Received(delivered, c) == before[c] + emitted[since[c]..]
  }

  /** Caching a row and sending it on every live channel keeps them in step. */
  lemma SyncedBroadcast(delivered: map<Channel, seq<DataRow>>, chans: seq<Channel>,
                        before: map<Channel, seq<DataRow>>, since: map<Channel, nat>,
                        emitted: seq<DataRow>, row: DataRow)
    requires NoDuplicates(chans) && Synced(delivered, chans, before, since, emitted)
    ensures Synced(Broadcast(delivered, chans, row), chans, before, since, emitted + [row])
  {
    var after := Broadcast(delivered, chans, row);
    forall c | c in chans
      ensures c in before && c in since && since[c] <= |emitted + [row]|
      ensures Received(after, c) == before[c] + (emitted + [row])[since[c]..]
    {
      BroadcastOne(delivered, chans, row, c);
      assert Received(after, c) == Received(delivered, c) + [row];
      assert Received(delivered, c) == before[c] + emitted[since[c]..];
      assert (emitted + [row])[since[c]..] == emitted[since[c]..] + [row];
    }
  }

  /** A new channel replayed the last n cached rows joins the live channels
      in step, from |emitted| - n on. */
  lemma SyncedRegister(delivered: map<Channel, seq<DataRow>>, chans: seq<Channel>,
                       before: map<Channel, seq<DataRow>>, since: map<Channel, nat>,
                       emitted: seq<DataRow>, c: Channel, n: nat, replayed: map<Channel, seq<DataRow>>)
    requires Synced(delivered, chans, before, since, emitted) && c !in chans && n <= |emitted|
    requires forall ch :: Received(replayed, ch) ==
                          if ch == c then Received(delivered, c) + emitted[|emitted| - n..] else Received(delivered, ch)
    ensures Synced(replayed, chans + [c], before[c := Received(delivered, c)],
                   since[c := |emitted| - n], emitted)
  {
  }

  /** Dropping channels leaves the rest in step. */
  lemma SyncedFilter(delivered: map<Channel, seq<DataRow>>, chans: seq<Channel>,
                     before: map<Channel, seq<DataRow>>, since: map<Channel, nat>,
                     emitted: seq<DataRow>, keep: Channel -> bool)
    requires Synced(delivered, chans, before, since, emitted)
    ensures Synced(delivered, Filtered(chans, keep), before, since, emitted)
  {
    FilteredMembers(chans, keep);
  }

  /** Between two states in step over the same live channels, each live
      channel has been sent exactly the rows cached in between, in order. */
  lemma SyncedExtend(delivered: map<Channel, seq<DataRow>>, later: map<Channel, seq<DataRow>>,
                     chans: seq<Channel>, before: map<Channel, seq<DataRow>>, since: map<Channel, nat>,
                     emitted: seq<DataRow>, added: seq<DataRow>)
    requires Synced(delivered, chans, before, since, emitted)
    requires Synced(later, chans, before, since, emitted + added)
    ensures forall c :: c in chans ==> Received(later, c) == Received(delivered, c) + added
  {
    forall c | c in chans
      ensures Received(later, c) == Received(delivered, c) + added
    {
      assert (emitted + added)[since[c]..] == emitted[since[c]..] + added;
    }
  }

  /** A channel that registered, with nothing sent to it before, when the
      cached stream was emitted has since been sent the last capacity rows
      of emitted as a replay, then every row cached after them. */
  lemma LateSubscriberReceives(later: map<Channel, seq<DataRow>>, chans: seq<Channel>,
                               before: map<Channel, seq<DataRow>>, since: map<Channel, nat>,
                               emitted: seq<DataRow>, added: seq<DataRow>, c: Channel, capacity: nat)
    requires Synced(later, chans, before, since, emitted + added) && c in chans
    requires c in before && before[c] == []
    requires c in since && since[c] == |emitted| - Min(|emitted|, capacity)
    ensures Received(later, c) == LastN(emitted, capacity) + added
  {
    assert (emitted + added)[since[c]..] == emitted[since[c]..] + added;
  }

  /** Channels that were each sent added, then sent row in one broadcast,
      have been sent added followed by row. */
  lemma SentThenBroadcast(delivered: map<Channel, seq<DataRow>>, later: map<Channel, seq<DataRow>>,
                          chans: seq<Channel>, added: seq<DataRow>, row: DataRow)
    requires NoDuplicates(chans)
    requires forall c :: c in chans ==> Received(later, c) == Received(delivered, c) + added
    ensures forall c :: c in chans ==>
              Received(Broadcast(later, chans, row), c) == Received(delivered, c) + added + [row]
  {
    forall c | c in chans
      ensures Received(Broadcast(later, chans, row), c) == Received(delivered, c) + added + [row]
    {
      BroadcastOne(later, chans, row, c);
    }
  }

  /** The predicate Filter keeps for DeregisterChannel(c). */
  function Except(c: Channel): Channel -> bool
  {
    ch => ch != c
  }

  /** How a turn of the run loop ends: go on reading, or stop with run's result. */
  datatype Turn = Continue | Stop(result: Option<ReadError>)

  class DataBroadcaster {
    /** What input.Read will return, in order; afterwards it returns io.EOF. */
    var input: seq<ReadResult<DataRow>>
    var streamEnded: bool
    var err: Option<ReadError>
    var channelsForLiveUpdate: seq<Channel>
    const dataBuffer: Ring<DataRow>
    var numDataRowsEmitted: nat
    /** Every row sent on each channel so far. */
    var delivered: map<Channel, seq<DataRow>>

    /** For a live channel: what it had been sent before it registered, and
        the index in the cached stream from which it has been sent every row. */
    ghost var Before: map<Channel, seq<DataRow>>
    ghost var Since: map<Channel, nat>

    /** Every row ever cached, oldest first. */
    ghost function Emitted(): seq<DataRow>
      reads this, dataBuffer
    {
      dataBuffer.Pushed
    }

    /** No gap, no duplicate: since registering, every live channel has been
        sent exactly the cached rows from some point on, in order. */
    ghost predicate Valid()
      reads this, dataBuffer, dataBuffer.slots
    {
      && dataBuffer.Valid()
      && numDataRowsEmitted == |Emitted()|
      && NoDuplicates(channelsForLiveUpdate)
      && Synced(delivered, channelsForLiveUpdate, Before, Since, Emitted())
    }

    /** NewDataBroadcaster. A ring of capacity 0 panics on its first Push. */
    constructor (input: seq<ReadResult<DataRow>>, bufferCapacity: nat)
      requires bufferCapacity >= 1
      ensures Valid() && fresh(dataBuffer) && fresh(dataBuffer.slots)
      ensures this.input == input && dataBuffer.capacity == bufferCapacity
      ensures channelsForLiveUpdate == [] && Emitted() == [] && delivered == map[]
      ensures !streamEnded && err.None?
    {
      this.input := input;
      streamEnded := false;
      err := None;
      channelsForLiveUpdate := [];
      dataBuffer := new Ring<DataRow>(bufferCapacity);
      numDataRowsEmitted := 0;
      delivered := map[];
      Before := map[];
      Since := map[];
    }

    /** pushBufferedDataToChannel: send every cached row on c, oldest first;
        no other channel is sent anything. */
    method PushBufferedDataToChannel(c: Channel)
      requires dataBuffer.Valid()
      modifies this`delivered
      ensures forall ch :: Received(delivered, ch) ==
                if ch == c then Received(old(delivered), c) + LastN(Emitted(), dataBuffer.capacity)
                else Received(old(delivered), ch)
    {
      var bufferedData := dataBuffer.ReadAllOrdered();
      for i := 0 to |bufferedData|
        invariant forall ch :: Received(delivered, ch) ==
                    if ch == c then Received(old(delivered), c) + bufferedData[..i] else Received(old(delivered), ch)
      {
        assert bufferedData[..i + 1] == bufferedData[..i] + [bufferedData[i]];
        delivered := delivered[c := Received(delivered, c) + [bufferedData[i]]];
      }
      assert bufferedData[..|bufferedData|] == bufferedData;
    }

    /** RegisterChannel: replay the cache on c, then make c live. A channel
        not yet live joins the no-gap, no-duplicate invariant, in step from
        the oldest cached row on. */
    method RegisterChannel(c: Channel)
      requires Valid()
      modifies this`delivered, this`channelsForLiveUpdate, this`Before, this`Since
      ensures channelsForLiveUpdate == old(channelsForLiveUpdate) + [c]
      ensures forall ch :: Received(delivered, ch) ==
                if ch == c then Received(old(delivered), c) + LastN(Emitted(), dataBuffer.capacity)
                else Received(old(delivered), ch)
      ensures c !in old(channelsForLiveUpdate) ==> Valid()
      ensures Before == old(Before)[c := Received(old(delivered), c)]
      ensures Since == old(Since)[c := |Emitted()| - Min(|Emitted()|, dataBuffer.capacity)]
    {
      ghost var emitted := Emitted();
      ghost var n := Min(|emitted|, dataBuffer.capacity);
      ghost var old_delivered := delivered;
      PushBufferedDataToChannel(c);
      channelsForLiveUpdate := channelsForLiveUpdate + [c];
      if c !in old(channelsForLiveUpdate) {
        SyncedRegister(old_delivered, old(channelsForLiveUpdate), Before, Since, emitted, c, n, delivered);
        NoDuplicatesAppend(old(channelsForLiveUpdate), c);
      }
      Before := Before[c := Received(old_delivered, c)];
      Since := Since[c := |emitted| - n];
    }

    /** DeregisterChannel: drop c from the live list, keeping the others in
        order. Deregistering a channel that is not live changes nothing. */
    method DeregisterChannel(c: Channel)
      requires Valid()
      modifies this`channelsForLiveUpdate
      ensures channelsForLiveUpdate == Filtered(old(channelsForLiveUpdate), Except(c))
      ensures forall ch :: ch in channelsForLiveUpdate <==> ch in old(channelsForLiveUpdate) && ch != c
      ensures c !in old(channelsForLiveUpdate) ==> channelsForLiveUpdate == old(channelsForLiveUpdate)
      ensures Valid()
    {
      var keep := Except(c);
      ghost var live := channelsForLiveUpdate;
      channelsForLiveUpdate := Filter(channelsForLiveUpdate, keep);
      FilteredMembers(live, keep);
      FilteredNoDuplicates(live, keep);
      SyncedFilter(delivered, live, Before, Since, Emitted(), keep);
      if c !in live {
        FilteredAll(live, keep);
      }
    }

    /** The send loop of cacheAndBroadcastData. */
    method SendToLiveChannels(row: DataRow)
      modifies this`delivered
      ensures delivered == Broadcast(old(delivered), channelsForLiveUpdate, row)
    {
      for i := 0 to |channelsForLiveUpdate|
        invariant Broadcast(delivered, channelsForLiveUpdate[i..], row) ==
                  Broadcast(old(delivered), channelsForLiveUpdate, row)
      {
        var chans := channelsForLiveUpdate[i..];
        assert chans[0] == channelsForLiveUpdate[i] && chans[1..] == channelsForLiveUpdate[i + 1..];
        var c := channelsForLiveUpdate[i];
        delivered := delivered[c := Received(delivered, c) + [row]];
      }
    }

    /** cacheAndBroadcastData: count the row, cache it, and send it once on
        every live channel, in registration order. */
    method CacheAndBroadcastData(row: DataRow)
      requires Valid()
      modifies this`numDataRowsEmitted, this`delivered, dataBuffer, dataBuffer.slots
      ensures Valid()
      ensures Emitted() == old(Emitted()) + [row]
      ensures numDataRowsEmitted == old(numDataRowsEmitted) + 1
      ensures delivered == Broadcast(old(delivered), channelsForLiveUpdate, row)
    {
      ghost var emitted, oldDelivered := Emitted(), delivered;
      assert Synced(Broadcast(oldDelivered, channelsForLiveUpdate, row), channelsForLiveUpdate,
                    Before, Since, emitted + [row]) by {
        SyncedBroadcast(oldDelivered, channelsForLiveUpdate, Before, Since, emitted, row);
      }
      numDataRowsEmitted := numDataRowsEmitted + 1;
      dataBuffer.Push(row);
      SendToLiveChannels(row);
    }

    /** One turn of the run loop: read one result; a stopping one ends the
        loop with run's result, an ignored row is skipped, and any other row
        is cached and broadcast. */
    method RunTurn() returns (turn: Turn)
      requires Valid()
      modifies this`input, this`numDataRowsEmitted, this`delivered, dataBuffer, dataBuffer.slots
      ensures Valid()
      ensures input == if old(input) == [] then [] else old(input)[1..]
      ensures turn.Stop? <==> Stops(NextRead(old(input)))
      ensures turn.Stop? ==> && turn.result == RunError(old(input))
                             && Emitted() == old(Emitted()) + Accepted(old(input))
                             && input == Unread(old(input))
      ensures turn.Continue? ==> && old(input) != []
                                 && Emitted() + Accepted(input) == old(Emitted()) + Accepted(old(input))
                                 && RunError(input) == RunError(old(input))
                                 && Unread(input) == Unread(old(input))
      ensures forall c :: c !in channelsForLiveUpdate ==> Received(delivered, c) == Received(old(delivered), c)
    {
      var dataRow := NextRead(input);
      ReadStep(input);
      ghost var emitted, accepted, delivered0 := Emitted(), Accepted(input), delivered;
      if input != [] {
        input := input[1..];
      }
      if dataRow == Error(IgnoreThisRow) {
        return Continue;
      } else if dataRow == Error(Eof) {
        return Stop(None);
      } else if dataRow.Error? {
        return Stop(Some(dataRow.err));
      }
      assert accepted == [dataRow.value] + Accepted(input);
      CacheAndBroadcastData(dataRow.value);
      BroadcastEach(delivered0, channelsForLiveUpdate, dataRow.value);
      assert Emitted() == emitted + [dataRow.value];
      assert emitted + accepted == Emitted() + Accepted(input);
      return Continue;
    }

    /** run: read until io.EOF or an error, skipping ignored rows and caching
        and broadcasting every other row; each live channel is sent exactly
        the rows cached. */
    method Run() returns (result: Option<ReadError>)
      requires Valid()
      modifies this`input, this`numDataRowsEmitted, this`delivered, dataBuffer, dataBuffer.slots
      ensures Valid()
      ensures Emitted() == old(Emitted()) + Accepted(old(input))
      ensures result == RunError(old(input))
      ensures input == Unread(old(input))
      ensures forall c :: c in channelsForLiveUpdate ==>
                Received(delivered, c) == Received(old(delivered), c) + Accepted(old(input))
      ensures forall c :: c !in channelsForLiveUpdate ==> Received(delivered, c) == Received(old(delivered), c)
    {
      ghost var delivered0, emitted0, input0 := delivered, Emitted(), input;
      assert Synced(delivered0, channelsForLiveUpdate, Before, Since, emitted0);
      while true
        invariant Valid()
        invariant Emitted() + Accepted(input) == emitted0 + Accepted(input0)
        invariant RunError(input) == RunError(input0)
        invariant Unread(input) == Unread(input0)
        invariant forall c :: c !in channelsForLiveUpdate ==> Received(delivered, c) == Received(delivered0, c)
        decreases |input|
      {
        var turn := RunTurn();
        if turn.Stop? {
          result := turn.result;
          break;
        }
      }
      SyncedExtend(delivered0, delivered, channelsForLiveUpdate, Before, Since, emitted0, Accepted(input0));
    }

    /** The body of Start's goroutine: run, record the error, mark the stream
        ended, then cache and broadcast the end marker. A channel that
        registers afterwards is replayed the last capacity - 1 rows and then
        the marker. */
    method Start()
      requires Valid()
      modifies this`input, this`numDataRowsEmitted, this`delivered, this`err, this`streamEnded,
               dataBuffer, dataBuffer.slots
      ensures Valid() && streamEnded && err == RunError(old(input))
      ensures Emitted() == old(Emitted()) + Accepted(old(input)) + [EndMarker(err)]
      ensures LastN(Emitted(), dataBuffer.capacity) ==
              LastN(old(Emitted()) + Accepted(old(input)), dataBuffer.capacity - 1) + [EndMarker(err)]
      ensures forall c :: c in channelsForLiveUpdate ==>
                Received(delivered, c) == Received(old(delivered), c) + Accepted(old(input)) + [EndMarker(err)]
      ensures forall c :: c !in channelsForLiveUpdate ==> Received(delivered, c) == Received(old(delivered), c)
    {
      ghost var emitted0, input0 := Emitted(), input;
      var runErr := Run();
      ghost var delivered1 := delivered;
      err := runErr;
      streamEnded := true;
      CacheAndBroadcastData(EndMarker(runErr));
      BroadcastEach(delivered1, channelsForLiveUpdate, EndMarker(runErr));
      LastNPush(emitted0 + Accepted(input0), EndMarker(runErr), dataBuffer.capacity);
      SentThenBroadcast(old(delivered), delivered1, channelsForLiveUpdate, Accepted(input0), EndMarker(runErr));
    }
  }

  /** Two channels registered before any row was cached, each for the first
      time, have been sent the same rows: the whole cached stream. */
  lemma EarlySubscribersAgree(b: DataBroadcaster, c1: Channel, c2: Channel)
    requires b.Valid() && c1 in b.channelsForLiveUpdate && c2 in b.channelsForLiveUpdate
    requires b.Since[c1] == 0 && b.Before[c1] == [] && b.Since[c2] == 0 && b.Before[c2] == []
    ensures Received(b.delivered, c1) == Received(b.delivered, c2) == b.Emitted()
  {
  }
}
