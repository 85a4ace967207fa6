/** storage.MemStorage. Every method holds the lock from start to end, so each is one atomic step. */
module MemoryStorage {
  import opened Wrappers
  import opened Int64
  import opened Models
  import opened Stores
  import opened Listing
  import opened Snapshot

  class MemStorage {
    var gauge: map<string, Gauge>
    var counter: map<string, int64>

    function Contents(): Store
      reads this
    {
      Store(gauge, counter)
    }

    constructor ()
      ensures Contents() == EMPTY_STORE
    {
      gauge, counter := map[], map[];
    }

    method WriteMetric(mtype: string, name: string, val: Value) returns (err: Option<Error>)
      modifies this
      ensures match WriteUpdate(mtype, name, val)
              case Ok(u) => err == None && Contents() == ApplyUpdate(old(Contents()), u)
              case Err(e) => err == Some(e) && Contents() == old(Contents())
      ensures mtype == "gauge" && val.GaugeValue? ==>
              err == None && gauge == old(gauge)[name := val.g] && counter == old(counter)
      ensures mtype == "counter" && val.CounterValue? ==>
              && err == None && gauge == old(gauge)
              && counter == old(counter)[name := Wrap((if name in old(counter) then old(counter)[name] else 0) + val.c)]
    {
      if mtype == GAUGE_TYPE {
        if val.GaugeValue? {
          gauge := gauge[name := val.g];
          return None;
        }
        return Some(WrongMetricValueType);
      } else if mtype == COUNTER_TYPE {
        if val.CounterValue? {
          counter := counter[name := Wrap((if name in counter then counter[name] else 0) + val.c)];
          return None;
        }
        return Some(WrongMetricValueType);
      } else {
        return Some(WrongMetricType);
      }
    }

    /** Entries that cannot be stored are skipped; the batch never fails. */
    method WriteBatchMetrics(metrics: seq<Metric>)
      modifies this
      ensures Contents() == Apply(old(Contents()), BatchUpdates(metrics))
    {
      var i := 0;
      while i < |metrics|
        invariant 0 <= i <= |metrics|
        invariant Apply(Contents(), BatchUpdates(metrics[i..])) == Apply(old(Contents()), BatchUpdates(metrics))
      {
        var v := metrics[i];
        ghost var (s, rest) := (Contents(), metrics[i + 1..]);
        assert metrics[i..][0] == v && metrics[i..][1..] == rest;
        ApplyConcat(s, EntryUpdates(v), BatchUpdates(rest));
        i := i + 1;
        if v.mtype == GAUGE_TYPE {
          if v.value == None || v.id == "" {
            continue;
          }
          gauge := gauge[v.id := v.value.value];
          assert Contents() == ApplyUpdate(s, EntryUpdates(v)[0]);
        } else if v.mtype == COUNTER_TYPE {
          if v.delta == None || v.id == "" {
            continue;
          }
          counter := counter[v.id := Wrap((if v.id in counter then counter[v.id] else 0) + v.delta.value)];
          assert Contents() == ApplyUpdate(s, EntryUpdates(v)[0]);
        }
      }
    }

    method GetMetric(mtype: string, name: string) returns (r: Result<Value, Error>)
      ensures r == Lookup(Contents(), mtype, name)
      ensures mtype == "gauge" ==> r == if name in gauge then Ok(GaugeValue(gauge[name])) else Err(NoVal)
      ensures mtype == "counter" ==> r == if name in counter then Ok(CounterValue(counter[name])) else Err(NoVal)
      ensures mtype != "gauge" && mtype != "counter" ==> r == Err(BadMetricType)
    {
      if mtype == GAUGE_TYPE {
        if name in gauge {
          return Ok(GaugeValue(gauge[name]));
        }
      } else if mtype == COUNTER_TYPE {
        if name in counter {
          return Ok(CounterValue(counter[name]));
        }
      } else {
        return Err(BadMetricType);
      }
      return Err(NoVal);
    }

    /** The loop over the sorted counter names. */
    method AddCounterLines(s: string, ks: seq<string>) returns (t: string)
      requires forall k :: k in ks ==> k in counter
      ensures t == s + CounterLines(ks, counter)
    {
      hide CounterLine;
      t := s;
      var i := 0;
      while i < |ks|
        invariant 0 <= i <= |ks|
        invariant t + CounterLines(ks[i..], counter) == s + CounterLines(ks, counter)
      {
        ghost var rest := ks[i + 1..];
        assert ks[i..][0] == ks[i] && ks[i..][1..] == rest;
        var line := CounterLine(ks[i], counter[ks[i]]);
        assert t + (line + CounterLines(rest, counter)) == (t + line) + CounterLines(rest, counter);
        t := t + line;
        i := i + 1;
      }
    }

    /** The loop over the sorted gauge names. */
    method AddGaugeLines(s: string, ks: seq<string>, text: GaugeText) returns (t: string)
      requires forall k :: k in ks ==> k in gauge
      ensures t == s + GaugeLines(ks, gauge, text)
    {
      hide GaugeLine;
      t := s;
      var i := 0;
      while i < |ks|
        invariant 0 <= i <= |ks|
        invariant t + GaugeLines(ks[i..], gauge, text) == s + GaugeLines(ks, gauge, text)
      {
        ghost var rest := ks[i + 1..];
        assert ks[i..][0] == ks[i] && ks[i..][1..] == rest;
        var line := GaugeLine(ks[i], gauge[ks[i]], text);
        assert t + (line + GaugeLines(rest, gauge, text)) == (t + line) + GaugeLines(rest, gauge, text);
        t := t + line;
        i := i + 1;
      }
    }

    /** The two orders are those in which Go happens to range over the maps. */
    method GetAllMetricsTxt(counterOrder: seq<string>, gaugeOrder: seq<string>, text: GaugeText) returns (s: string)
      requires Enumerates(counterOrder, counter.Keys) && Enumerates(gaugeOrder, gauge.Keys)
      ensures s == ListingText(Contents(), text)
    {
      ListingIgnoresMapOrder(Contents(), text, counterOrder, gaugeOrder);
      s := AddCounterLines(COUNTERS_HEAD, SortStrings(counterOrder));
      s := AddGaugeLines(s + GAUGES_HEAD, SortStrings(gaugeOrder), text);
    }

    /** The loop that encodes the counters. */
    method SaveCounters(s: string, ks: seq<string>, text: GaugeText) returns (t: string)
      requires forall k :: k in ks ==> k in counter
      ensures t == s + CounterFile(ks, counter, text)
    {
      hide EncodeLine;
      t := s;
      var i := 0;
      while i < |ks|
        invariant 0 <= i <= |ks|
        invariant t + CounterFile(ks[i..], counter, text) == s + CounterFile(ks, counter, text)
      {
        ghost var rest := ks[i + 1..];
        assert ks[i..][0] == ks[i] && ks[i..][1..] == rest;
        var line := EncodeLine(CounterMetric(ks[i], counter[ks[i]]), text);
        assert t + (line + CounterFile(rest, counter, text)) == (t + line) + CounterFile(rest, counter, text);
        t := t + line;
        i := i + 1;
      }
    }

    /** The loop that encodes the gauges. */
    method SaveGauges(s: string, ks: seq<string>, text: GaugeText) returns (t: string)
      requires forall k :: k in ks ==> k in gauge
      ensures t == s + GaugeFile(ks, gauge, text)
    {
      hide EncodeLine;
      t := s;
      var i := 0;
      while i < |ks|
        invariant 0 <= i <= |ks|
        invariant t + GaugeFile(ks[i..], gauge, text) == s + GaugeFile(ks, gauge, text)
      {
        ghost var rest := ks[i + 1..];
        assert ks[i..][0] == ks[i] && ks[i..][1..] == rest;
        var line := EncodeLine(GaugeMetric(ks[i], gauge[ks[i]]), text);
        assert t + (line + GaugeFile(rest, gauge, text)) == (t + line) + GaugeFile(rest, gauge, text);
        t := t + line;
        i := i + 1;
      }
    }

    /** The file is created empty, then the maps are visited in some order. */
    method SaveToFile(counterOrder: seq<string>, gaugeOrder: seq<string>, text: GaugeText) returns (content: string)
      requires Enumerates(counterOrder, counter.Keys) && Enumerates(gaugeOrder, gauge.Keys)
      ensures content == FileContent(Contents(), counterOrder, gaugeOrder, text)
    {
      hide CounterFile, GaugeFile;
      content := SaveCounters("", counterOrder, text);
      content := SaveGauges(content, gaugeOrder, text);
    }

    method ReadFromFile(content: string, text: GaugeText) returns (outcome: ReadOutcome)
      modifies this
      ensures (Contents(), outcome) == ReadLines(old(Contents()), content, text)
    {
      var rest := content;
      while rest != ""
        invariant ReadLines(Contents(), rest, text) == ReadLines(old(Contents()), content, text)
        decreases |rest|
      {
        var line := rest[..LineLength(rest)];
        if ByteLength(line) >= MAX_TOKEN {
          return LineTooLong;
        }
        var metric := Unmarshal(DropReturn(line), text);
        if metric == None {
          return BadLine;
        }
        var m := metric.value;
        if m.mtype == COUNTER_TYPE {
          if m.delta == None {
            return NilDereference;
          }
          counter := counter[m.id := m.delta.value];
        } else if m.mtype == GAUGE_TYPE {
          if m.value == None {
            return NilDereference;
          }
          gauge := gauge[m.id := m.value.value];
        }
        rest := AfterLine(rest);
      }
      return Done;
    }
  }
}
