/** The HTTP handlers: plain-text single metrics, and JSON batches acknowledged only after the store has them. */
module Server {
  import opened Wrappers
  import opened Int64
  import opened Strconv
  import opened Models
  import opened Stores
  import opened MetricJson
  import opened Postgres
  import opened MemoryStorage
  import opened Retrier
  import opened RetriedBatch

  datatype Response = Response(status: nat, body: string)

  const STATUS_OK: nat := 200
  const BAD_REQUEST: nat := 400
  const NOT_FOUND: nat := 404
  const INTERNAL_ERROR: nat := 500

  // Text handlers. With the in-memory store a write the handler makes can only fail by cancellation.

  /** The update a POST asks for. */
  function PostUpdate(mtype: string, name: string, value: string, text: GaugeText): Option<Update> {
    if mtype == GAUGE_TYPE then
      match text.parse(value) case None => None case Some(g) => Some(SetGauge(name, g))
    else if mtype == COUNTER_TYPE then
      match ParseInt(value) case None => None case Some(d) => Some(AddCounter(name, d))
    else None
  }

  method UpdateMetrics(
      store: MemStorage, contentType: string, mtype: string, name: string, value: string,
      cancelled: bool, text: GaugeText)
    returns (resp: Response)
    modifies store
    ensures var u := if contentType == "" || contentType == "text/plain" then PostUpdate(mtype, name, value, text)
                     else None;
            if u.Some? && !cancelled
            then resp == Response(200, "OK") && store.Contents() == ApplyUpdate(old(store.Contents()), u.value)
            else resp.status == (if u.Some? then 500 else 400) && store.Contents() == old(store.Contents())
    ensures (contentType == "" || contentType == "text/plain") && !cancelled && mtype == "counter" ==>
            match ParseInt(value)
            case None => resp.status == 400 && store.Contents() == old(store.Contents())
            case Some(d) =>
              resp.status == 200 && store.gauge == old(store.gauge)
              && store.counter == old(store.counter)[name := Wrap(CounterAt(old(store.Contents()), name) + d)]
    ensures (contentType == "" || contentType == "text/plain") && !cancelled && mtype == "gauge" ==>
            match text.parse(value)
            case None => resp.status == 400 && store.Contents() == old(store.Contents())
            case Some(g) =>
              resp.status == 200 && store.counter == old(store.counter)
              && store.gauge == old(store.gauge)[name := g]
    ensures mtype != "counter" && mtype != "gauge" ==> resp.status == 400
  {
    if contentType != "" && contentType != "text/plain" {
      return Response(BAD_REQUEST, "wrong content type: " + contentType + "\n");
    }
    if mtype == GAUGE_TYPE {
      var fl64 := text.parse(value);
      if fl64 == None {
        return Response(BAD_REQUEST, "can't parse gauge metric\n");
      }
      if cancelled {
        return Response(INTERNAL_ERROR, "can't store gauge metric\n");
      }
      var _ := store.WriteMetric(mtype, name, GaugeValue(fl64.value));
    } else if mtype == COUNTER_TYPE {
      var i64 := ParseInt(value);
      if i64 == None {
        return Response(BAD_REQUEST, "can't parse counter metric\n");
      }
      if cancelled {
        return Response(INTERNAL_ERROR, "can't store counter metric\n");
      }
      var _ := store.WriteMetric(mtype, name, CounterValue(i64.value));
    } else {
      return Response(BAD_REQUEST, "metric_type not found\n");
    }
    return Response(STATUS_OK, "OK");
  }

  /** A value is answered as its text and a newline. */
  function ValueAnswer(v: Value, text: GaugeText): Response {
    match v
    case GaugeValue(g) => Response(STATUS_OK, text.plain(g) + "\n")
    case CounterValue(c) => Response(STATUS_OK, FormatInt(c) + "\n")
    case OtherValue => Response(STATUS_OK, "\n")
  }

  function GetResponse(s: Store, mtype: string, name: string, text: GaugeText): Response {
    match Lookup(s, mtype, name)
    case Ok(v) => ValueAnswer(v, text)
    case Err(NoVal) => Response(NOT_FOUND, mtype + " not found\n")
    case _ => Response(BAD_REQUEST, "metric_type not found\n")
  }

  /** A read that is cancelled is answered like a missing metric. */
  method GetMetrics(store: MemStorage, mtype: string, name: string, cancelled: bool, text: GaugeText)
    returns (resp: Response)
    ensures resp == GetResponse(if cancelled then EMPTY_STORE else store.Contents(), mtype, name, text)
    ensures mtype == "counter" ==>
            resp == if !cancelled && name in store.counter then Response(200, FormatInt(store.counter[name]) + "\n")
                    else Response(404, "counter not found\n")
    ensures mtype == "gauge" ==>
            resp == if !cancelled && name in store.gauge then Response(200, text.plain(store.gauge[name]) + "\n")
                    else Response(404, "gauge not found\n")
    ensures mtype != "counter" && mtype != "gauge" ==> resp.status == 400
  {
    if mtype == GAUGE_TYPE {
      var val := store.GetMetric(GAUGE_TYPE, name);
      if cancelled || val.Err? {
        return Response(NOT_FOUND, "gauge not found\n");
      }
      return Response(STATUS_OK, text.plain(val.value.g) + "\n");
    } else if mtype == COUNTER_TYPE {
      var val := store.GetMetric(COUNTER_TYPE, name);
      if cancelled || val.Err? {
        return Response(NOT_FOUND, "counter not found\n");
      }
      return Response(STATUS_OK, FormatInt(val.value.c) + "\n");
    } else {
      return Response(BAD_REQUEST, "metric_type not found\n");
    }
  }

  // The same handlers over Postgres, through the retrier.

  /** The answer to a write that parsed. */
  function WriteAnswer(mtype: string, stored: bool): Response {
    if stored then Response(STATUS_OK, "OK") else Response(INTERNAL_ERROR, "can't store " + mtype + " metric\n")
  }

  /** What the database refuses, a counter out of range or an id too long, is answered 500 and changes nothing. */
  method UpdateMetricsInDatabase(
      db: PgDB, contentType: string, mtype: string, name: string, value: string, max: nat, base: int64, w: World,
      text: GaugeText)
    returns (resp: Response)
    modifies db
    ensures var u := if contentType == "" || contentType == "text/plain" then PostUpdate(mtype, name, value, text)
                     else None;
            if u.None? then resp.status == 400 && db.table == old(db.table)
            else
              var (t, us) := (old(db.table), [u.value]);
              var d := Do(NewBackoff(max, base), Rounds(t, us, w), 0);
              && resp == WriteAnswer(mtype, d.outcome == Success) && db.table == TableAt(t, us, w, d.attempts)
              && (resp.status == 200 <==> d.outcome == Success) && (resp.status == 500 <==> d.outcome != Success)
              && (Upsert(t, u.value).None? ==> resp.status == 500 && db.table == t)
  {
    hide Do, Rounds, TableAt, Upsert, ParseInt;
    if contentType != "" && contentType != "text/plain" {
      return Response(BAD_REQUEST, "wrong content type: " + contentType + "\n");
    }
    var val;
    if mtype == GAUGE_TYPE {
      var fl64 := text.parse(value);
      if fl64 == None {
        return Response(BAD_REQUEST, "can't parse gauge metric\n");
      }
      val := GaugeValue(fl64.value);
    } else if mtype == COUNTER_TYPE {
      var i64 := ParseInt(value);
      if i64 == None {
        return Response(BAD_REQUEST, "can't parse counter metric\n");
      }
      val := CounterValue(i64.value);
    } else {
      return Response(BAD_REQUEST, "metric_type not found\n");
    }
    ghost var (t, u) := (db.table, PostUpdate(mtype, name, value, text).value);
    var outcome, attempts := UseRetrierWM(db, mtype, name, val, max, base, w);
    if Upsert(t, u).None? {
      RefusedWrite(t, u, w, max, base, attempts);
    }
    return WriteAnswer(mtype, outcome == Success);
  }

  lemma RefusedWrite(t: Table, u: Update, w: World, max: nat, base: int64, n: nat)
    requires Upsert(t, u).None?
    ensures Do(NewBackoff(max, base), Rounds(t, [u], w), 0).outcome != Success && TableAt(t, [u], w, n) == t
  {
    hide Do, Rounds, TableAt, UpsertAll;
    OneUpdate(t, u);
    RefusedChangesNothing(t, [u], w, n);
    if Do(NewBackoff(max, base), Rounds(t, [u], w), 0).outcome == Success {
      SuccessGoesThrough(t, [u], w, max, base);
    }
  }

  /** A missing row, a NULL column, a broken connection and cancellation are all answered alike. */
  method GetMetricsFromDatabase(
      db: PgDB, mtype: string, name: string, max: nat, base: int64, w: World, text: GaugeText)
    returns (resp: Response)
    ensures if mtype != GAUGE_TYPE && mtype != COUNTER_TYPE
            then resp == Response(400, "metric_type not found\n")
            else if Do(NewBackoff(max, base), ReadRounds(db.table, mtype, name, w), 0).outcome == Success
            then TableLookup(db.table, mtype, name).Ok?
                 && resp == ValueAnswer(TableLookup(db.table, mtype, name).value, text)
            else resp == Response(404, mtype + " not found\n")
  {
    hide Do, ReadRounds, TableLookup;
    if mtype == GAUGE_TYPE {
      var outcome, val := UseRetrierGetMetric(db, GAUGE_TYPE, name, max, base, w);
      if outcome != Success {
        return Response(NOT_FOUND, "gauge not found\n");
      }
      return ValueAnswer(val, text);
    } else if mtype == COUNTER_TYPE {
      var outcome, val := UseRetrierGetMetric(db, COUNTER_TYPE, name, max, base, w);
      if outcome != Success {
        return Response(NOT_FOUND, "counter not found\n");
      }
      return ValueAnswer(val, text);
    } else {
      return Response(BAD_REQUEST, "metric_type not found\n");
    }
  }

  // Posting counters as text.

  /** The updates that a sequence of counter POSTs leads to; texts that do not parse lead to none. */
  function PostedUpdates(name: string, values: seq<string>, text: GaugeText): seq<Update> {
    if values == [] then []
    else
      (match PostUpdate(COUNTER_TYPE, name, values[0], text) case None => [] case Some(u) => [u])
      + PostedUpdates(name, values[1..], text)
  }

  /** The unbounded sum of the texts that parse. */
  function ParsedSum(values: seq<string>): int {
    if values == [] then 0
    else (match ParseInt(values[0]) case None => 0 case Some(d) => d) + ParsedSum(values[1..])
  }

  predicate SomeParse(values: seq<string>) {
    exists i :: 0 <= i < |values| && ParseInt(values[i]).Some?
  }

  lemma {:induction false} SomeParseStep(values: seq<string>)
    requires values != []
    ensures SomeParse(values) <==> ParseInt(values[0]).Some? || SomeParse(values[1..])
  {
    hide ParseInt;
    if SomeParse(values[1..]) {
      var i :| 0 <= i < |values[1..]| && ParseInt(values[1..][i]).Some?;
      assert ParseInt(values[i + 1]).Some?;
    }
    assert forall i :: 1 <= i < |values| ==> values[i] == values[1..][i - 1];
  }

  lemma {:induction false} PostedSum(name: string, values: seq<string>, text: GaugeText)
    ensures DeltaSum(PostedUpdates(name, values, text), name) == ParsedSum(values)
    ensures Counts(PostedUpdates(name, values, text), name) <==> SomeParse(values)
  {
    hide ParseInt, SomeParse, Counts;
    if values == [] {
      NothingPosted(name);
    } else {
      var (us, rest) := (PostedUpdates(name, values, text), PostedUpdates(name, values[1..], text));
      PostedSum(name, values[1..], text);
      SomeParseStep(values);
      if ParseInt(values[0]).Some? {
        assert us[1..] == rest;
        CountsCons(us, name);
      } else {
        assert us == rest;
      }
    }
  }

  lemma NothingPosted(name: string)
    ensures !SomeParse([]) && !Counts([], name)
  {}

  /** Any texts posted to a fresh counter: GET gives the canonical decimal of the wrapped sum of those that parse. */
  lemma TextCounterPath(s: Store, name: string, values: seq<string>, text: GaugeText)
    requires name !in s.counter
    ensures GetResponse(Apply(s, PostedUpdates(name, values, text)), COUNTER_TYPE, name, text) ==
            if SomeParse(values) then Response(200, FormatInt(Wrap(ParsedSum(values))) + "\n")
            else Response(404, "counter not found\n")
  {
    hide ParseInt, Wrap, FormatInt, SomeParse, Counts, ParsedSum, PostedUpdates, Apply, DeltaSum;
    PostedSum(name, values, text);
    CounterOutcome(s, PostedUpdates(name, values, text), name);
  }

  // Batches.

  /** The batch of a request; None is a wrong content type or a body that does not decode. */
  function BatchOfRequest(contentType: string, body: string, text: GaugeText): Option<seq<Metric>> {
    if contentType != "application/json" then None else DecodeBatch(body, text)
  }

  /** The answer to a batch that has been decoded; a nil slice is written back as null. */
  function BatchAnswer(body: string, batch: seq<Metric>, stored: bool, text: GaugeText): Response {
    if !stored then Response(INTERNAL_ERROR, "error to store batch metrics\n")
    else if IsNullBody(body) then Response(STATUS_OK, "null\n")
    else
      match EncodeBatch(batch, text)
      case Some(json) => Response(STATUS_OK, json + "\n")
      case None => Response(STATUS_OK, "can't encode json\n")
  }

  /** The body of a batch that was encoded decodes to it, and is no null. */
  lemma PostedBatch(body: string, text: GaugeText)
    ensures ValidText(text) ==>
            forall ms :: EncodeBatch(ms, text) == Some(body) ==>
              DecodeBatch(body, text) == Some(ms) && !IsNullBody(body)
  {
    hide ValidText, EncodeBatch, DecodeBatch, IsNullBody;
    if ValidText(text) {
      forall ms | EncodeBatch(ms, text) == Some(body)
        ensures DecodeBatch(body, text) == Some(ms) && !IsNullBody(body)
      {
        BatchRoundTrip(ms, text);
        EncodedIsArray(ms, text);
      }
    }
  }

  method DecodeRequestBody(contentType: string, body: string, text: GaugeText)
    returns (batch: Option<seq<Metric>>, refusal: Response)
    ensures batch == BatchOfRequest(contentType, body, text)
    ensures batch.None? ==> refusal.status == BAD_REQUEST
  {
    refusal := Response(BAD_REQUEST, "error to pasrse json request\n");
    if contentType != "application/json" {
      return None, Response(BAD_REQUEST, "wrong content type: " + contentType + "\n");
    }
    batch := DecodeBatch(body, text);
  }

  /**
   * Over Postgres the answer is 200 exactly when the retried batch succeeded. Unless a commit goes unseen the table
   * then has the whole batch, once, and with any other answer it is as it was.
   */
  method UpdateBatchMetricsJSON(
      db: PgDB, contentType: string, body: string, max: nat, base: int64, w: World, text: GaugeText)
    returns (resp: Response)
    modifies db
    ensures match BatchOfRequest(contentType, body, text)
            case None => resp.status == 400 && db.table == old(db.table)
            case Some(batch) =>
              var (t, us) := (old(db.table), BatchUpdates(batch));
              var d := Do(NewBackoff(max, base), Rounds(t, us, w), 0);
              resp == BatchAnswer(body, batch, d.outcome == Success, text) && db.table == TableAt(t, us, w, d.attempts)
    ensures (forall i: nat :: w.fault(i) != CommitUnseen) ==>
            if resp.status == 200
            then Some(db.table) ==
                 UpsertAll(old(db.table), BatchUpdates(BatchOfRequest(contentType, body, text).value))
            else db.table == old(db.table)
    ensures contentType != "application/json" ==> resp.status == 400 && db.table == old(db.table)
    ensures contentType == "application/json" && ValidText(text) ==>
            forall ms :: EncodeBatch(ms, text) == Some(body) ==>
              var (t, us) := (old(db.table), BatchUpdates(ms));
              var d := Do(NewBackoff(max, base), Rounds(t, us, w), 0);
              && (resp.status == 200 <==> d.outcome == Success) && (resp.status == 500 <==> d.outcome != Success)
              && db.table == TableAt(t, us, w, d.attempts)
  {
    hide Do, Rounds, TableAt, UpsertAll, EncodeBatch, DecodeBatch, ValidText;
    PostedBatch(body, text);
    var batch, refusal := DecodeRequestBody(contentType, body, text);
    if batch == None {
      return refusal;
    }
    ghost var (t, us) := (db.table, BatchUpdates(batch.value));
    var outcome, _ := UseRetrierWMB(db, batch.value, max, base, w);
    if forall i: nat :: w.fault(i) != CommitUnseen {
      AllOrNothing(t, us, w, max, base);
    }
    return BatchAnswer(body, batch.value, outcome == Success, text);
  }

  /**
   * In memory the batch is stored, once, exactly when the answer is 200; only a server that is stopping refuses
   * it.
   */
  method UpdateBatchInMemory(
      store: MemStorage, contentType: string, body: string, cancelled: bool, text: GaugeText)
    returns (resp: Response)
    modifies store
    ensures match BatchOfRequest(contentType, body, text)
            case None => resp.status == 400 && store.Contents() == old(store.Contents())
            case Some(batch) =>
              && resp == BatchAnswer(body, batch, !cancelled, text)
              && store.Contents() ==
                 if resp.status == 200 then Apply(old(store.Contents()), BatchUpdates(batch))
                 else old(store.Contents())
    ensures contentType != "application/json" ==> resp.status == 400 && store.Contents() == old(store.Contents())
    ensures contentType == "application/json" && ValidText(text) ==>
            forall ms :: EncodeBatch(ms, text) == Some(body) ==>
              if cancelled then resp.status == 500 && store.Contents() == old(store.Contents())
              else resp == Response(200, body + "\n")
                   && store.Contents() == Apply(old(store.Contents()), BatchUpdates(ms))
  {
    hide EncodeBatch, DecodeBatch, Apply, ValidText;
    PostedBatch(body, text);
    var batch, refusal := DecodeRequestBody(contentType, body, text);
    if batch == None {
      return refusal;
    }
    if !cancelled {
      store.WriteBatchMetrics(batch.value);
    }
    return BatchAnswer(body, batch.value, !cancelled, text);
  }
}
