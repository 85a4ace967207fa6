/** The gRPC transport: EncodeProto on the agent, SendMetrics on the server. */
module Transport {
  import opened Wrappers
  import opened Int64
  import opened Models
  import opened Stores
  import opened Postgres
  import opened MemoryStorage
  import opened Retrier
  import opened RetriedBatch

  /** A proto message has no nil fields: what was not set is zero. */
  datatype ProtoMetric = ProtoMetric(mtype: string, id: string, delta: int64, value: Gauge)

  function Encode(m: Metric): seq<ProtoMetric> {
    if m.mtype == COUNTER_TYPE && m.delta.Some? then [ProtoMetric(m.mtype, m.id, m.delta.value, 0)]
    else if m.mtype == GAUGE_TYPE && m.value.Some? then [ProtoMetric(m.mtype, m.id, 0, m.value.value)]
    else []
  }

  function EncodeAll(ms: seq<Metric>): seq<ProtoMetric> {
    if ms == [] then [] else Encode(ms[0]) + EncodeAll(ms[1..])
  }

  /** The server takes the address of both numbers, so neither pointer is nil. */
  function Decode(p: ProtoMetric): Metric {
    Metric(Some(p.delta), Some(p.value), p.id, p.mtype)
  }

  function DecodeAll(ps: seq<ProtoMetric>): seq<Metric> {
    if ps == [] then [] else [Decode(ps[0])] + DecodeAll(ps[1..])
  }

  /** What is encoded from entry i on starts with the entry's own message, if it has one. */
  lemma EncodeNext(req: seq<ProtoMetric>, metrics: seq<Metric>, i: nat)
    requires i < |metrics|
    ensures req + EncodeAll(metrics[i..]) == (req + Encode(metrics[i])) + EncodeAll(metrics[i + 1..])
    ensures Encode(metrics[i]) == [] ==> req + EncodeAll(metrics[i..]) == req + EncodeAll(metrics[i + 1..])
  {
    hide Encode;
    assert metrics[i..][0] == metrics[i] && metrics[i..][1..] == metrics[i + 1..];
    var (m, rest) := (Encode(metrics[i]), EncodeAll(metrics[i + 1..]));
    assert (req + m) + rest == req + (m + rest);
    assert m == [] ==> m + rest == rest;
  }

  method EncodeProto(metrics: seq<Metric>) returns (req: seq<ProtoMetric>)
    ensures req == EncodeAll(metrics)
  {
    hide EncodeAll;
    req := [];
    var i := 0;
    assert metrics[0..] == metrics && [] + EncodeAll(metrics) == EncodeAll(metrics);
    while i < |metrics|
      invariant 0 <= i <= |metrics|
      invariant req + EncodeAll(metrics[i..]) == EncodeAll(metrics)
    {
      var v := metrics[i];
      EncodeNext(req, metrics, i);
      i := i + 1;
      if v.mtype == "counter" {
        if v.delta == None {
          continue;
        }
        req := req + [ProtoMetric(v.mtype, v.id, v.delta.value, 0)];
      } else if v.mtype == "gauge" {
        if v.value == None {
          continue;
        }
        req := req + [ProtoMetric(v.mtype, v.id, 0, v.value.value)];
      }
    }
    EncodeNothing(req);
    assert metrics[i..] == [];
  }

  lemma EncodeNothing(req: seq<ProtoMetric>)
    ensures req + EncodeAll([]) == req
  {}

  method DecodeRequest(req: seq<ProtoMetric>) returns (metrics: seq<Metric>)
    ensures metrics == DecodeAll(req)
  {
    metrics := [];
    var i := 0;
    while i < |req|
      invariant 0 <= i <= |req|
      invariant metrics + DecodeAll(req[i..]) == DecodeAll(req)
    {
      assert req[i..][0] == req[i] && req[i..][1..] == req[i + 1..];
      metrics := metrics + [Metric(Some(req[i].delta), Some(req[i].value), req[i].id, req[i].mtype)];
      i := i + 1;
    }
  }

  /** The message of an entry, field by field: the number that does not belong to its type is zero. */
  lemma MessageIff(m: Metric, p: ProtoMetric)
    ensures p in Encode(m) <==>
            && p.id == m.id && p.mtype == m.mtype
            && (if m.mtype == "counter" then m.delta == Some(p.delta) && p.value == 0
                else m.mtype == "gauge" && m.value == Some(p.value) && p.delta == 0)
    ensures |Encode(m)| <= 1
  {}

  /** The server's entries, one per message and in their order; the number that was not set is there as well. */
  lemma {:induction false} DecodedAt(ps: seq<ProtoMetric>, i: nat)
    requires i < |ps|
    ensures |DecodeAll(ps)| == |ps|
    ensures DecodeAll(ps)[i] == Metric(Some(ps[i].delta), Some(ps[i].value), ps[i].id, ps[i].mtype)
  {
    if |ps| > 1 {
      DecodedAt(ps[1..], if i > 0 then i - 1 else 0);
    } else {
      assert ps[1..] == [];
    }
  }

  lemma {:induction false} DecodeAllConcat(a: seq<ProtoMetric>, b: seq<ProtoMetric>)
    ensures DecodeAll(a + b) == DecodeAll(a) + DecodeAll(b)
  {
    if a == [] {
      assert a + b == b;
    } else {
      assert (a + b)[1..] == a[1..] + b;
      DecodeAllConcat(a[1..], b);
    }
  }

  /** One entry: sent and received it asks for the same updates, and an entry not sent asks for none. */
  lemma EntryPreserved(m: Metric)
    ensures BatchUpdates(DecodeAll(Encode(m))) == EntryUpdates(m)
  {
    if Encode(m) != [] {
      assert DecodeAll(Encode(m)) == [Decode(Encode(m)[0])];
      assert BatchUpdates([Decode(Encode(m)[0])]) == EntryUpdates(Decode(Encode(m)[0])) + BatchUpdates([]);
    }
  }

  /** The transport drops and adds entries, but never an update. */
  lemma {:induction false} UpdatesPreserved(ms: seq<Metric>)
    ensures BatchUpdates(DecodeAll(EncodeAll(ms))) == BatchUpdates(ms)
  {
    if ms == [] {
    } else {
      EntryPreserved(ms[0]);
      UpdatesPreserved(ms[1..]);
      DecodeAllConcat(Encode(ms[0]), EncodeAll(ms[1..]));
      BatchUpdatesConcat(DecodeAll(Encode(ms[0])), DecodeAll(EncodeAll(ms[1..])));
    }
  }

  /** A batch leaves the same store, and the same table, whether it came over gRPC or not. */
  lemma TransportPreservesMeaning(ms: seq<Metric>, s: Store, t: Table)
    ensures Apply(s, BatchUpdates(DecodeAll(EncodeAll(ms)))) == Apply(s, BatchUpdates(ms))
    ensures UpsertAll(t, BatchUpdates(DecodeAll(EncodeAll(ms)))) == UpsertAll(t, BatchUpdates(ms))
  {
    UpdatesPreserved(ms);
  }

  datatype GrpcAnswer = PermissionDenied | OK

  /**
   * The agent's batch into an in-memory store over gRPC, subnet check included. The write goes through the retrier
   * under the server's own context: once that is done there is no attempt, and the answer is OK all the same.
   */
  method SendToMemory(agent: seq<Metric>, permitted: bool, cancelled: bool, store: MemStorage)
    returns (answer: GrpcAnswer)
    modifies store
    ensures answer == if permitted then OK else PermissionDenied
    ensures store.Contents() ==
            if permitted && !cancelled then Apply(old(store.Contents()), BatchUpdates(agent))
            else old(store.Contents())
  {
    var req := EncodeProto(agent);
    if !permitted {
      return PermissionDenied;
    }
    var metrics := DecodeRequest(req);
    UpdatesPreserved(agent);
    if !cancelled {
      store.WriteBatchMetrics(metrics);
    }
    return OK;
  }

  /** Over the database the answer is OK even when nothing was stored: the error is only logged. */
  method SendToDatabase(agent: seq<Metric>, permitted: bool, db: PgDB, max: nat, base: int64, w: World)
    returns (answer: GrpcAnswer)
    modifies db
    ensures answer == if permitted then OK else PermissionDenied
    ensures var (t, us) := (old(db.table), BatchUpdates(agent));
            var attempts := Do(NewBackoff(max, base), Rounds(t, us, w), 0).attempts;
            db.table == if permitted then TableAt(t, us, w, attempts) else t
  {
    var req := EncodeProto(agent);
    if !permitted {
      return PermissionDenied;
    }
    var metrics := DecodeRequest(req);
    UpdatesPreserved(agent);
    var _, _ := UseRetrierWMB(db, metrics, max, base, w);
    return OK;
  }

  /** A batch the database can never take: one counter past the top of int64. */
  lemma SomeBatchIsNeverStored(t: Table, id: string, max: nat, base: int64, w: World)
    requires id in t && t[id].delta == Some(MAX) && |id| <= 64 && id != ""
    ensures var agent := [Metric(Some(1), None, id, COUNTER_TYPE)];
            Do(NewBackoff(max, base), Rounds(t, BatchUpdates(agent), w), 0).outcome != Success
  {
    var agent := [Metric(Some(1), None, id, COUNTER_TYPE)];
    assert agent[1..] == [];
    assert BatchUpdates(agent) == EntryUpdates(agent[0]) == [AddCounter(id, 1)];
    assert UpsertAll(t, [AddCounter(id, 1)]) == None;
    if Do(NewBackoff(max, base), Rounds(t, BatchUpdates(agent), w), 0).outcome == Success {
      SuccessGoesThrough(t, BatchUpdates(agent), w, max, base);
    }
  }
}
