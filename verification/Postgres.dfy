/** storage.PgDB over the table it creates: the six statements, transactions, and engine errors. */
module Postgres {
  import opened Wrappers
  import opened Int64
  import opened Models
  import opened Listing

  /** A row of `monitoring`; the primary key is the map key, None is NULL. */
  datatype Row = Row(mtype: string, delta: Option<int64>, value: Option<Gauge>)

  type Table = map<string, Row>

  const ID_WIDTH: nat := 64

  /** INSERT ... ON CONFLICT DO UPDATE SET value; None is an engine error. The type column keeps its first value. */
  function UpsertGauge(t: Table, id: string, g: Gauge): Option<Table> {
    if |id| > ID_WIDTH then None
    else if id in t then Some(t[id := t[id].(value := Some(g))])
    else Some(t[id := Row(GAUGE_TYPE, None, Some(g))])
  }

  /** bigint addition: NULL if the column is NULL, an engine error if the sum does not fit. */
  function UpsertCounter(t: Table, id: string, d: int64): Option<Table> {
    if |id| > ID_WIDTH then None
    else if id !in t then Some(t[id := Row(COUNTER_TYPE, Some(d), None)])
    else if t[id].delta.None? then Some(t)
    else
      var sum := d + t[id].delta.value;
      if MIN <= sum <= MAX then Some(t[id := t[id].(delta := Some(sum))]) else None
  }

  function Upsert(t: Table, u: Update): Option<Table> {
    match u
    case SetGauge(id, g) => UpsertGauge(t, id, g)
    case AddCounter(id, d) => UpsertCounter(t, id, d)
  }

  /** The statements of one transaction; None when one of them fails. */
  function UpsertAll(t: Table, us: seq<Update>): Option<Table>
    decreases us
  {
    if us == [] then Some(t)
    else
      match Upsert(t, us[0])
      case None => None
      case Some(t1) => UpsertAll(t1, us[1..])
  }

  lemma OneUpdate(t: Table, u: Update)
    ensures UpsertAll(t, [u]) == Upsert(t, u)
  {
    assert [u][1..] == [];
  }

  /** SELECT by id and a scan into a Go value: NULL does not fit into one. */
  function TableLookup(t: Table, mtype: string, name: string): Result<Value, Error> {
    if mtype == GAUGE_TYPE then
      if name !in t then Err(NoVal)
      else if t[name].value.None? then Err(DbFailure)
      else Ok(GaugeValue(t[name].value.value))
    else if mtype == COUNTER_TYPE then
      if name !in t then Err(NoVal)
      else if t[name].delta.None? then Err(DbFailure)
      else Ok(CounterValue(t[name].delta.value))
    else
      Err(BadMetricType)
  }

  /** One attempt to read, over a connection that may break. */
  function ReadOnce(t: Table, mtype: string, name: string, broken: bool): Result<Value, Error> {
    if broken && (mtype == GAUGE_TYPE || mtype == COUNTER_TYPE) then Err(DbFailure) else TableLookup(t, mtype, name)
  }

  /** The ids of the rows of one type. */
  function IdsOf(t: Table, mtype: string): set<string> {
    set id | id in t && t[id].mtype == mtype
  }

  /** Rows are visited in the order of the ids given; a NULL ends the listing with an error. */
  function CounterRows(ids: seq<string>, t: Table): Option<string>
    requires forall id :: id in ids ==> id in t
  {
    if ids == [] then Some("")
    else
      match (t[ids[0]].delta, CounterRows(ids[1..], t))
      case (Some(d), Some(rest)) => Some(CounterLine(ids[0], d) + rest)
      case _ => None
  }

  function GaugeRows(ids: seq<string>, t: Table, text: GaugeText): Option<string>
    requires forall id :: id in ids ==> id in t
  {
    if ids == [] then Some("")
    else
      match (t[ids[0]].value, GaugeRows(ids[1..], t, text))
      case (Some(g), Some(rest)) => Some(GaugeLine(ids[0], g, text) + rest)
      case _ => None
  }

  ghost function TableListing(t: Table, text: GaugeText): Result<string, Error> {
    match (CounterRows(SortedKeys(IdsOf(t, COUNTER_TYPE)), t), GaugeRows(SortedKeys(IdsOf(t, GAUGE_TYPE)), t, text))
    case (Some(c), Some(g)) => Ok(COUNTERS_HEAD + c + GAUGES_HEAD + g)
    case _ => Err(DbFailure)
  }

  /**
   * What happens to the connection: nothing, it breaks at some interaction with the engine (0 is Begin, then the
   * statements, then Commit), or the engine commits and the connection breaks before it can say so.
   */
  datatype Fault = NoFault | Broken(at: nat) | CommitUnseen

  /** The transaction is committed. */
  predicate TakesEffect(t: Table, us: seq<Update>, fault: Fault) {
    !(fault.Broken? && fault.at <= |us| + 1) && UpsertAll(t, us).Some?
  }

  /** One attempt at the updates: the table it leaves, and whether it is reported as a success. */
  function Attempt(t: Table, us: seq<Update>, fault: Fault): (Table, bool) {
    if TakesEffect(t, us, fault) then (UpsertAll(t, us).value, fault != CommitUnseen) else (t, false)
  }

  class PgDB {
    var table: Table

    constructor ()
      ensures table == map[]
    {
      table := map[];
    }

    /** A single statement is a transaction of its own. */
    method WriteMetric(mtype: string, name: string, val: Value, fault: Fault) returns (err: Option<Error>)
      modifies this
      ensures match WriteUpdate(mtype, name, val)
              case Err(e) => err == Some(e) && table == old(table)
              case Ok(u) =>
                (table, err == None) == Attempt(old(table), [u], fault) && (err == None || err == Some(DbFailure))
    {
      if mtype == GAUGE_TYPE {
        if val.GaugeValue? {
          OneUpdate(table, SetGauge(name, val.g));
          var r := UpsertGauge(table, name, val.g);
          err := Execute(r, fault);
          return;
        }
        return Some(WrongMetricValueType);
      } else if mtype == COUNTER_TYPE {
        if val.CounterValue? {
          OneUpdate(table, AddCounter(name, val.c));
          var r := UpsertCounter(table, name, val.c);
          err := Execute(r, fault);
          return;
        }
        return Some(WrongMetricValueType);
      } else {
        return Some(WrongMetricType);
      }
    }

    /** The engine's answer to one statement, given what the statement would leave. */
    method Execute(r: Option<Table>, fault: Fault) returns (err: Option<Error>)
      modifies this
      ensures if (fault.Broken? && fault.at <= 2) || r.None? then err == Some(DbFailure) && table == old(table)
              else Some(table) == r && err == if fault == CommitUnseen then Some(DbFailure) else None
    {
      if (fault.Broken? && fault.at <= 2) || r == None {
        return Some(DbFailure);
      }
      table := r.value;
      return if fault == CommitUnseen then Some(DbFailure) else None;
    }

    /** All the statements take effect, or none: the deferred Rollback undoes a transaction not committed. */
    method WriteBatchMetrics(metrics: seq<Metric>, fault: Fault) returns (err: Option<Error>)
      modifies this
      ensures (table, err == None) == Attempt(old(table), BatchUpdates(metrics), fault)
      ensures err == None || err == Some(DbFailure)
    {
      if fault == Broken(0) {
        return Some(DbFailure);
      }
      var tx := table;
      var step: nat := 1;
      var i := 0;
      while i < |metrics|
        invariant 0 <= i <= |metrics| && table == old(table) && step >= 1
        invariant UpsertAll(tx, BatchUpdates(metrics[i..])) == UpsertAll(table, BatchUpdates(metrics))
        invariant step + |BatchUpdates(metrics[i..])| == 1 + |BatchUpdates(metrics)|
        invariant fault.Broken? ==> fault.at >= step
      {
        var v := metrics[i];
        ghost var us := BatchUpdates(metrics[i..]);
        assert metrics[i..][0] == v && metrics[i..][1..] == metrics[i + 1..];
        i := i + 1;
        assert EntryUpdates(v) == [] ==> us == BatchUpdates(metrics[i..]);
        if v.mtype == GAUGE_TYPE {
          if v.value == None || v.id == "" {
            continue;
          }
          var r := UpsertGauge(tx, v.id, v.value.value);
          assert us[0] == SetGauge(v.id, v.value.value) && us[1..] == BatchUpdates(metrics[i..]);
          if fault == Broken(step) || r == None {
            return Some(DbFailure);
          }
          tx, step := r.value, step + 1;
        } else if v.mtype == COUNTER_TYPE {
          if v.delta == None || v.id == "" {
            continue;
          }
          var r := UpsertCounter(tx, v.id, v.delta.value);
          assert us[0] == AddCounter(v.id, v.delta.value) && us[1..] == BatchUpdates(metrics[i..]);
          if fault == Broken(step) || r == None {
            return Some(DbFailure);
          }
          tx, step := r.value, step + 1;
        }
      }
      if fault == Broken(step) {
        return Some(DbFailure);
      }
      table := tx;
      return if fault == CommitUnseen then Some(DbFailure) else None;
    }

    method GetMetric(mtype: string, name: string, broken: bool) returns (r: Result<Value, Error>)
      ensures r == ReadOnce(table, mtype, name, broken)
    {
      if mtype == GAUGE_TYPE {
        if broken {
          return Err(DbFailure);
        }
        if name !in table {
          return Err(NoVal);
        }
        if table[name].value == None {
          return Err(DbFailure);
        }
        return Ok(GaugeValue(table[name].value.value));
      } else if mtype == COUNTER_TYPE {
        if broken {
          return Err(DbFailure);
        }
        if name !in table {
          return Err(NoVal);
        }
        if table[name].delta == None {
          return Err(DbFailure);
        }
        return Ok(CounterValue(table[name].delta.value));
      } else {
        return Err(BadMetricType);
      }
    }

    /** The engine's answers to the two ORDER BY queries are given as the ids of their rows; each may break off. */
    method GetAllMetricsTxt(
        counterIds: seq<string>, countersBroken: bool, gaugeIds: seq<string>, gaugesBroken: bool, text: GaugeText)
      returns (r: Result<string, Error>)
      requires Sorted(counterIds) && Enumerates(counterIds, IdsOf(table, COUNTER_TYPE))
      requires Sorted(gaugeIds) && Enumerates(gaugeIds, IdsOf(table, GAUGE_TYPE))
      ensures r == if countersBroken || gaugesBroken then Err(DbFailure) else TableListing(table, text)
    {
      SortedUnique(counterIds, SortedKeys(IdsOf(table, COUNTER_TYPE)));
      SortedUnique(gaugeIds, SortedKeys(IdsOf(table, GAUGE_TYPE)));
      var c := ScanCounters(counterIds);
      if c == None || countersBroken {
        return Err(DbFailure);
      }
      var g := ScanGauges(gaugeIds, text);
      if g == None || gaugesBroken {
        return Err(DbFailure);
      }
      return Ok(COUNTERS_HEAD + c.value + GAUGES_HEAD + g.value);
    }

    method ScanCounters(ids: seq<string>) returns (r: Option<string>)
      requires forall id :: id in ids ==> id in table
      ensures r == CounterRows(ids, table)
    {
      hide CounterLine;
      var s := "";
      var i := 0;
      assert ids[0..] == ids && forall rest: string :: "" + rest == rest;
      while i < |ids|
        invariant 0 <= i <= |ids|
        invariant CounterRows(ids, table) ==
                  match CounterRows(ids[i..], table) case None => None case Some(rest) => Some(s + rest)
      {
        assert ids[i..][0] == ids[i] && ids[i..][1..] == ids[i + 1..];
        var row := table[ids[i]];
        if row.delta == None {
          return None;
        }
        var line := CounterLine(ids[i], row.delta.value);
        assert forall rest: string :: (s + line) + rest == s + (line + rest);
        s := s + line;
        i := i + 1;
      }
      assert s + "" == s;
      return Some(s);
    }

    method ScanGauges(ids: seq<string>, text: GaugeText) returns (r: Option<string>)
      requires forall id :: id in ids ==> id in table
      ensures r == GaugeRows(ids, table, text)
    {
      hide GaugeLine;
      var s := "";
      var i := 0;
      assert ids[0..] == ids && forall rest: string :: "" + rest == rest;
      while i < |ids|
        invariant 0 <= i <= |ids|
        invariant GaugeRows(ids, table, text) ==
                  match GaugeRows(ids[i..], table, text) case None => None case Some(rest) => Some(s + rest)
      {
        assert ids[i..][0] == ids[i] && ids[i..][1..] == ids[i + 1..];
        var row := table[ids[i]];
        if row.value == None {
          return None;
        }
        var line := GaugeLine(ids[i], row.value.value, text);
        assert forall rest: string :: (s + line) + rest == s + (line + rest);
        s := s + line;
        i := i + 1;
      }
      assert s + "" == s;
      return Some(s);
    }
  }
}
