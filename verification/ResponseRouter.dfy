// The Teams client (teams.py): responses arrive in interleaved chunks and are put together per request.
module ResponseRouter {
  import opened Prelude
  import opened Text

  // ----- The callback data "request_id::callback::cb_data" -----

  datatype Parts = Parts(id: string, callback: string, data: string)

  /** `data.split("::", 2)`, when it gives three parts. */
  function SplitData(s: string): Option<Parts>
  {
    match SplitPair(s, ':')
    case None => None
    case Some((id, more)) =>
      match SplitPair(more, ':')
      case None => None
      case Some((callback, data)) => Some(Parts(id, callback, data))
  }

  predicate NoColon(s: string) { ':' !in s }

  function JoinData(id: nat, callback: string, data: string): string
  {
    Decimal(id) + "::" + callback + "::" + data
  }

  /** The three parts come back, whatever the data holds, "::" included. */
  lemma SplitJoined(id: nat, callback: string, data: string)
    requires NoColon(callback)
    ensures SplitData(JoinData(id, callback, data)) == Some(Parts(Decimal(id), callback, data))
  {
    assert NoColon(Decimal(id)) by {
      assert forall c :: c in Decimal(id) ==> IsDigit(c);
    }
    assert JoinData(id, callback, data) == Decimal(id) + [':', ':'] + (callback + [':', ':'] + data);
    SplitPairOf(Decimal(id), callback + [':', ':'] + data, ':');
    SplitPairOf(callback, data, ':');
  }

  // ----- The router -----

  const RUNNING := -1

  datatype Buffer = Buffer(out: string, err: string)

  datatype Outcome =
    | Malformed
    | Buffered
    | NoCallback
    | Called(callback: string, data: string, rc: int, out: string, err: string)

  type Buffers = map<string, Buffer>

  function Held(buffers: Buffers, id: string): Buffer
  {
    if id in buffers then buffers[id] else Buffer("", "")
  }

  function Handled(buffers: Buffers, callbacks: set<string>, data: string, rc: int, out: string, err: string)
    : (Buffers, Outcome)
  {
    match SplitData(data)
    case None => (buffers, Malformed)
    case Some(parts) =>
      var b := Held(buffers, parts.id);
      var grown := Buffer(b.out + out, b.err + err);
      if rc == RUNNING then (buffers[parts.id := grown], Buffered)
      else
        (buffers - {parts.id},
         if parts.callback in callbacks then Called(parts.callback, parts.data, rc, grown.out, grown.err) else NoCallback)
  }

  class EventRouter {
    const callbacks: set<string>
    var requestCounter: nat
    var responseBuffers: Buffers

    constructor (callbacks: set<string>)
      ensures this.callbacks == callbacks && requestCounter == 0 && responseBuffers == map[]
    {
      this.callbacks := callbacks;
      requestCounter := 0;
      responseBuffers := map[];
    }

    /** `build_buffer_cb_data`: a new id for every request. */
    method BuildBufferCbData(callback: string, cbData: string) returns (data: string)
      modifies this
      ensures requestCounter == old(requestCounter) + 1 && responseBuffers == old(responseBuffers)
      ensures data == JoinData(requestCounter, callback, cbData)
    {
      requestCounter := requestCounter + 1;
      data := Decimal(requestCounter) + "::" + callback + "::" + cbData;
    }

    method BufferedResponse(data: string, rc: int, out: string, err: string) returns (outcome: Outcome)
      modifies this
      ensures (responseBuffers, outcome) == Handled(old(responseBuffers), callbacks, data, rc, out, err)
      ensures requestCounter == old(requestCounter)
    {
      var parts := SplitData(data);
      if parts.None? {
        return Malformed;
      }
      var id := parts.value.id;
      if id !in responseBuffers {
        responseBuffers := responseBuffers[id := Buffer("", "")];
      }
      if rc == RUNNING {
        responseBuffers := responseBuffers[id := Buffer(responseBuffers[id].out + out, responseBuffers[id].err)];
        responseBuffers := responseBuffers[id := Buffer(responseBuffers[id].out, responseBuffers[id].err + err)];
        ghost var held := Held(old(responseBuffers), id);
        assert responseBuffers == old(responseBuffers)[id := Buffer(held.out + out, held.err + err)];
        return Buffered;
      }
      var response := responseBuffers[id].out + out;
      var fullErr := responseBuffers[id].err + err;
      responseBuffers := responseBuffers - {id};
      assert responseBuffers == old(responseBuffers) - {id};
      if parts.value.callback in callbacks {
        outcome := Called(parts.value.callback, parts.value.data, rc, response, fullErr);
      } else {
        outcome := NoCallback;
      }
    }
  }

  // ----- Interleavings -----

  /** Request k (numbered from 1 by the counter) and the callback data it was made with. */
  datatype Request = Request(callback: string, data: string)

  /** One chunk of request `id`; any rc but RUNNING is its last. */
  datatype Chunk = Chunk(id: nat, rc: int, out: string, err: string) {
    predicate Final() { rc != RUNNING }
  }

  ghost predicate GoodRequests(requests: seq<Request>, callbacks: set<string>)
  {
    forall k :: 0 <= k < |requests| ==> NoColon(requests[k].callback) && requests[k].callback in callbacks
  }

  /** Chunks belong to made requests, and no request gets a chunk after its last one. */
  ghost predicate GoodChunks(requests: seq<Request>, chunks: seq<Chunk>)
  {
    && (forall i :: 0 <= i < |chunks| ==> 1 <= chunks[i].id <= |requests|)
    && (forall i, j :: 0 <= i < j < |chunks| && chunks[i].Final() ==> chunks[i].id != chunks[j].id)
  }

  datatype Routed = Routed(buffers: Buffers, calls: seq<Outcome>)

  function DataOf(requests: seq<Request>, id: nat): string
    requires 1 <= id <= |requests|
  {
    JoinData(id, requests[id - 1].callback, requests[id - 1].data)
  }

  /** The buffers and the callback runs after all the chunks. */
  ghost function Route(requests: seq<Request>, callbacks: set<string>, chunks: seq<Chunk>): Routed
    requires GoodChunks(requests, chunks)
  {
    if chunks == [] then Routed(map[], [])
    else
      var n := |chunks| - 1;
      var before := Route(requests, callbacks, chunks[..n]);
      var c := chunks[n];
      var (buffers, outcome) := Handled(before.buffers, callbacks, DataOf(requests, c.id), c.rc, c.out, c.err);
      Routed(buffers, if outcome == Buffered then before.calls else before.calls + [outcome])
  }

  /** The chunks of one request, in order. */
  function Own(chunks: seq<Chunk>, id: nat): seq<Chunk>
  {
    if chunks == [] then []
    else Own(chunks[..|chunks| - 1], id) + (if chunks[|chunks| - 1].id == id then [chunks[|chunks| - 1]] else [])
  }

  function Outs(chunks: seq<Chunk>): string
  {
    if chunks == [] then "" else Outs(chunks[..|chunks| - 1]) + chunks[|chunks| - 1].out
  }

  function Errs(chunks: seq<Chunk>): string
  {
    if chunks == [] then "" else Errs(chunks[..|chunks| - 1]) + chunks[|chunks| - 1].err
  }

  /** The requests in the order in which they finished. */
  function Finished(chunks: seq<Chunk>): seq<nat>
  {
    if chunks == [] then []
    else
      var c := chunks[|chunks| - 1];
      Finished(chunks[..|chunks| - 1]) + (if c.Final() then [c.id] else [])
  }

  /** The one run of the callback that request `id` should get: its own data and exactly its own chunks. */
  function ExpectedCall(requests: seq<Request>, chunks: seq<Chunk>, id: nat): Outcome
    requires 1 <= id <= |requests| && Own(chunks, id) != []
  {
    var own := Own(chunks, id);
    var request := requests[id - 1];
    Called(request.callback, request.data, own[|own| - 1].rc, Outs(own), Errs(own))
  }

  ghost predicate Open(chunks: seq<Chunk>, id: nat)
  {
    Own(chunks, id) != [] && id !in Finished(chunks)
  }

  ghost predicate Distinct(ids: seq<nat>)
  {
    forall i, j :: 0 <= i < j < |ids| ==> ids[i] != ids[j]
  }

  ghost predicate GoodCall(requests: seq<Request>, chunks: seq<Chunk>, id: nat, call: Outcome)
  {
    1 <= id <= |requests| && Own(chunks, id) != [] && call == ExpectedCall(requests, chunks, id)
  }

  /** Each finished request had its callback run once, and with what it should get. */
  ghost predicate CallsGood(requests: seq<Request>, chunks: seq<Chunk>, calls: seq<Outcome>)
  {
    var done := Finished(chunks);
    && |calls| == |done| && Distinct(done)
    && forall k :: 0 <= k < |done| ==> GoodCall(requests, chunks, done[k], calls[k])
  }

  ghost predicate HasBuffer(chunks: seq<Chunk>, buffers: Buffers, id: nat)
  {
    Decimal(id) in buffers && buffers[Decimal(id)] == Buffer(Outs(Own(chunks, id)), Errs(Own(chunks, id)))
  }

  ghost predicate OfOpen(chunks: seq<Chunk>, key: string)
  {
    exists id :: Open(chunks, id) && key == Decimal(id)
  }

  /** Exactly the unfinished requests have a buffer, and it holds their chunks. */
  ghost predicate BuffersGood(chunks: seq<Chunk>, buffers: Buffers)
  {
    && (forall id :: Open(chunks, id) ==> HasBuffer(chunks, buffers, id))
    && (forall key :: key in buffers ==> OfOpen(chunks, key))
  }

  lemma {:induction false} FinishedHasChunk(chunks: seq<Chunk>, id: nat)
    requires id in Finished(chunks)
    ensures exists i :: 0 <= i < |chunks| && chunks[i].Final() && chunks[i].id == id
  {
    var n := |chunks| - 1;
    if id in Finished(chunks[..n]) {
      FinishedHasChunk(chunks[..n], id);
      var i :| 0 <= i < n && chunks[..n][i].Final() && chunks[..n][i].id == id;
      assert chunks[i].Final() && chunks[i].id == id;
    }
  }

  lemma OwnPush(chunks: seq<Chunk>)
    requires chunks != []
    ensures var n := |chunks| - 1;
            forall id :: Own(chunks, id) == if id == chunks[n].id then Own(chunks[..n], id) + [chunks[n]] else Own(chunks[..n], id)
  {
  }

  lemma OutsPush(chunks: seq<Chunk>, c: Chunk)
    ensures Outs(chunks + [c]) == Outs(chunks) + c.out && Errs(chunks + [c]) == Errs(chunks) + c.err
  {
    assert (chunks + [c])[..|chunks|] == chunks;
  }

  lemma NotYetFinished(requests: seq<Request>, chunks: seq<Chunk>)
    requires chunks != [] && GoodChunks(requests, chunks)
    ensures chunks[|chunks| - 1].id !in Finished(chunks[..|chunks| - 1])
  {
    var n := |chunks| - 1;
    if chunks[n].id in Finished(chunks[..n]) {
      FinishedHasChunk(chunks[..n], chunks[n].id);
    }
  }

  /** The buffer of a request holds what its chunks brought so far. */
  lemma HeldIsOwn(chunks: seq<Chunk>, buffers: Buffers, id: nat)
    requires BuffersGood(chunks, buffers) && id !in Finished(chunks)
    ensures Held(buffers, Decimal(id)) == Buffer(Outs(Own(chunks, id)), Errs(Own(chunks, id)))
  {
    if Own(chunks, id) != [] {
      assert Open(chunks, id) && HasBuffer(chunks, buffers, id);
    } else if Decimal(id) in buffers {
      assert OfOpen(chunks, Decimal(id));
      var other :| Open(chunks, other) && Decimal(id) == Decimal(other);
      DecimalInjective(id, other);
    }
  }

  /** What one chunk does, in terms of the chunks so far. */
  lemma ChunkHandled(requests: seq<Request>, callbacks: set<string>, chunks: seq<Chunk>, buffers: Buffers, c: Chunk)
    requires GoodRequests(requests, callbacks) && 1 <= c.id <= |requests|
    requires BuffersGood(chunks, buffers) && c.id !in Finished(chunks)
    ensures var own, request, key := Own(chunks, c.id) + [c], requests[c.id - 1], Decimal(c.id);
            Handled(buffers, callbacks, DataOf(requests, c.id), c.rc, c.out, c.err) ==
            if c.Final() then
              (buffers - {key}, Called(request.callback, request.data, c.rc, Outs(own), Errs(own)))
            else (buffers[key := Buffer(Outs(own), Errs(own))], Buffered)
  {
    SplitJoined(c.id, requests[c.id - 1].callback, requests[c.id - 1].data);
    OutsPush(Own(chunks, c.id), c);
    HeldIsOwn(chunks, buffers, c.id);
  }

  lemma BuffersStep(chunks: seq<Chunk>, before: Buffers, after: Buffers, c: Chunk)
    requires BuffersGood(chunks, before) && c.id !in Finished(chunks)
    requires var own := Own(chunks, c.id) + [c];
             after == if c.Final() then before - {Decimal(c.id)} else before[Decimal(c.id) := Buffer(Outs(own), Errs(own))]
    ensures BuffersGood(chunks + [c], after)
  {
    var now := chunks + [c];
    OwnPush(now);
    assert now[..|chunks|] == chunks;
    forall id | Open(now, id)
      ensures HasBuffer(now, after, id)
    {
      if id != c.id {
        assert Open(chunks, id) && HasBuffer(chunks, before, id);
        if Decimal(id) == Decimal(c.id) { DecimalInjective(id, c.id); }
      }
    }
    forall key | key in after
      ensures OfOpen(now, key)
    {
      if key == Decimal(c.id) {
        assert Open(now, c.id);
      } else {
        assert OfOpen(chunks, key);
        var id :| Open(chunks, id) && key == Decimal(id);
        assert Open(now, id);
      }
    }
  }

  lemma OwnAfter(chunks: seq<Chunk>, c: Chunk, id: nat)
    ensures Own(chunks + [c], id) == if id == c.id then Own(chunks, id) + [c] else Own(chunks, id)
  {
    assert (chunks + [c])[..|chunks|] == chunks;
  }

  lemma SameCall(requests: seq<Request>, chunks: seq<Chunk>, c: Chunk, id: nat, call: Outcome)
    requires GoodCall(requests, chunks, id, call) && id != c.id
    ensures GoodCall(requests, chunks + [c], id, call)
  {
    OwnAfter(chunks, c, id);
  }

  lemma OwnCall(requests: seq<Request>, chunks: seq<Chunk>, c: Chunk)
    requires 1 <= c.id <= |requests|
    ensures var own, request := Own(chunks, c.id) + [c], requests[c.id - 1];
            GoodCall(requests, chunks + [c], c.id, Called(request.callback, request.data, c.rc, Outs(own), Errs(own)))
  {
    OwnAfter(chunks, c, c.id);
  }

  lemma CallsStep(requests: seq<Request>, chunks: seq<Chunk>, calls: seq<Outcome>, c: Chunk, after: seq<Outcome>)
    requires CallsGood(requests, chunks, calls) && c.id !in Finished(chunks) && 1 <= c.id <= |requests|
    requires var own, request := Own(chunks, c.id) + [c], requests[c.id - 1];
             after == if c.Final() then calls + [Called(request.callback, request.data, c.rc, Outs(own), Errs(own))] else calls
    ensures CallsGood(requests, chunks + [c], after)
  {
    var done := Finished(chunks);
    OwnCall(requests, chunks, c);
    assert Finished(chunks + [c]) == done + (if c.Final() then [c.id] else []) by {
      assert (chunks + [c])[..|chunks|] == chunks;
    }
    forall k | 0 <= k < |done|
      ensures GoodCall(requests, chunks + [c], done[k], calls[k])
    {
      SameCall(requests, chunks, c, done[k], calls[k]);
    }
  }

  lemma OneMoreChunk(requests: seq<Request>, callbacks: set<string>, chunks: seq<Chunk>, before: Routed, after: Routed)
    requires chunks != [] && GoodRequests(requests, callbacks) && GoodChunks(requests, chunks)
    requires var n := |chunks| - 1; CallsGood(requests, chunks[..n], before.calls) && BuffersGood(chunks[..n], before.buffers)
    requires var c := chunks[|chunks| - 1];
             var (buffers, outcome) := Handled(before.buffers, callbacks, DataOf(requests, c.id), c.rc, c.out, c.err);
             after == Routed(buffers, if outcome == Buffered then before.calls else before.calls + [outcome])
    ensures CallsGood(requests, chunks, after.calls) && BuffersGood(chunks, after.buffers)
  {
    hide CallsGood, BuffersGood, Handled, GoodRequests, DataOf;
    var front, c := chunks[..|chunks| - 1], chunks[|chunks| - 1];
    NotYetFinished(requests, chunks);
    ChunkHandled(requests, callbacks, front, before.buffers, c);
    BuffersStep(front, before.buffers, after.buffers, c);
    CallsStep(requests, front, before.calls, c, after.calls);
    assert chunks == front + [c];
  }

  /** For every interleaving of partial and final chunks: each finished request's callback ran exactly once, with its
      own data and the in-order concatenation of exactly its own chunks; only unfinished requests keep a buffer. */
  lemma {:induction false} RouterDemultiplexes(requests: seq<Request>, callbacks: set<string>, chunks: seq<Chunk>)
    requires GoodRequests(requests, callbacks) && GoodChunks(requests, chunks)
    ensures CallsGood(requests, chunks, Route(requests, callbacks, chunks).calls)
    ensures BuffersGood(chunks, Route(requests, callbacks, chunks).buffers)
  {
    if chunks == [] {
    } else {
      var front := chunks[..|chunks| - 1];
      RouterDemultiplexes(requests, callbacks, front);
      OneMoreChunk(requests, callbacks, chunks, Route(requests, callbacks, front), Route(requests, callbacks, chunks));
    }
  }
}
