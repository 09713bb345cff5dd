/**
 The plotter (bin/graph_1wire.py): select the `(timestamp, temperature)`
 pairs of one named sensor whose timestamp lies, as text, between a start
 bound `days` days back and a bound for now, both rendered at minute
 precision, and turn them into the x and y series of the chart. The two
 clock readings the bounds are made from are parameters.
 */
module Plotter {
  import opened Results
  import opened Collation
  import opened Stamps
  import opened Collector

  /** One row of the query's result: `(timestamp, temperature)`. */
  datatype Sample = Sample(timestamp: string, temperature: Cell)

  /**
   The WHERE clause `name = <name> AND timestamp BETWEEN <start> AND <now>`,
   compared as text; a NULL name or timestamp never matches, and no row
   matches when the bounds are in the wrong order.
   */
  predicate Matches(row: Row, name: string, start: string, now: string): (r: bool)
    ensures r ==> row.name == Text(name) && row.timestamp.Text? && LessEq(start, now)
  {
    && row.name == Text(name)
    && row.timestamp.Text?
    && Between(row.timestamp.text, start, now)
  }

  /** The selected columns of a row. */
  function Project(row: Row): Sample
    requires row.timestamp.Text?
  {
    Sample(row.timestamp.text, row.temperature)
  }

  /**
   The rows the query returns, as the projections of the matching rows of
   `table`. SQL promises no order; this lists them in table order, and
   SelectPermutation shows that, as a multiset, the result depends only on
   the table's multiset of rows.
   */
  function Select(table: seq<Row>, name: string, start: string, now: string): (r: seq<Sample>)
    ensures |r| <= |table|
    ensures forall s :: s in r ==> exists row :: row in table && Matches(row, name, start, now) && Project(row) == s
  {
    if table == [] then []
    else
      var rest := Select(table[1..], name, start, now);
      assert forall row :: row in table[1..] ==> row in table;
      if Matches(table[0], name, start, now) then [Project(table[0])] + rest else rest
  }

  /** Every matching row is returned. */
  lemma {:induction false} SelectComplete(table: seq<Row>, name: string, start: string, now: string, i: nat)
    requires i < |table| && Matches(table[i], name, start, now)
    ensures Project(table[i]) in Select(table, name, start, now)
  {
    if i > 0 {
      SelectComplete(table[1..], name, start, now, i - 1);
    }
  }

  /** Selection distributes over concatenating tables. */
  lemma {:induction false} SelectAppend(t1: seq<Row>, t2: seq<Row>, name: string, start: string, now: string)
    ensures Select(t1 + t2, name, start, now) == Select(t1, name, start, now) + Select(t2, name, start, now)
  {
    if t1 == [] {
      assert t1 + t2 == t2;
    } else {
      assert (t1 + t2)[0] == t1[0];
      assert (t1 + t2)[1..] == t1[1..] + t2;
      SelectAppend(t1[1..], t2, name, start, now);
    }
  }

  /** Removing the row at `k` removes one occurrence of it. */
  lemma MultisetRemove(t: seq<Row>, k: nat)
    requires k < |t|
    ensures multiset(t[..k] + t[k + 1..]) == multiset(t) - multiset{t[k]}
  {
    assert t == t[..k] + [t[k]] + t[k + 1..];
  }

  /** Selecting from a table is selecting from the row at `k` and from the other rows. */
  lemma SelectRemove(t: seq<Row>, k: nat, name: string, start: string, now: string)
    requires k < |t|
    ensures multiset(Select(t, name, start, now))
         == multiset(Select([t[k]], name, start, now)) + multiset(Select(t[..k] + t[k + 1..], name, start, now))
  {
    assert t == t[..k] + ([t[k]] + t[k + 1..]);
    SelectAppend(t[..k], [t[k]] + t[k + 1..], name, start, now);
    SelectAppend([t[k]], t[k + 1..], name, start, now);
    SelectAppend(t[..k], t[k + 1..], name, start, now);
  }

  /** The multiset of selected pairs does not depend on the order of the table's rows. */
  lemma {:induction false} SelectPermutation(t1: seq<Row>, t2: seq<Row>, name: string, start: string, now: string)
    requires multiset(t1) == multiset(t2)
    ensures multiset(Select(t1, name, start, now)) == multiset(Select(t2, name, start, now))
  {
    if t1 == [] {
      assert |t2| == |multiset(t2)| == 0;
    } else {
      var x := t1[0];
      assert x in multiset(t2);
      var k :| 0 <= k < |t2| && t2[k] == x;
      MultisetRemove(t1, 0);
      MultisetRemove(t2, k);
      assert t1[..0] + t1[1..] == t1[1..];
      SelectPermutation(t1[1..], t2[..k] + t2[k + 1..], name, start, now);
      SelectRemove(t1, 0, name, start, now);
      SelectRemove(t2, k, name, start, now);
    }
  }

  /** Every matching row is returned, for all rows at once. */
  lemma SelectCompleteAll(table: seq<Row>, name: string, start: string, now: string)
    ensures forall i :: 0 <= i < |table| && Matches(table[i], name, start, now) ==> Project(table[i]) in Select(table, name, start, now)
  {
    forall i | 0 <= i < |table| && Matches(table[i], name, start, now)
      ensures Project(table[i]) in Select(table, name, start, now)
    {
      SelectComplete(table, name, start, now, i);
    }
  }

  /**
   `temperature_readings(name, c, days)`: `now` is the clock read by
   `current_time()`, `past` the clock read by `date_days_ago(days)` moved
   back `days` days; both bounds are rendered with '%Y-%m-%d %H:%M'. The
   result holds the `(timestamp, temperature)` pair of exactly the rows of
   that name whose timestamp lies between the bounds.
   */
  function TemperatureReadings(table: seq<Row>, name: string, now: DateTime, past: DateTime): (r: seq<Sample>)
    ensures forall s :: s in r ==>
      && Between(s.timestamp, FormatMinutes(past), FormatMinutes(now))
      && exists row :: row in table && row.name == Text(name) && row.timestamp == Text(s.timestamp) && row.temperature == s.temperature
    ensures forall i :: 0 <= i < |table| && Matches(table[i], name, FormatMinutes(past), FormatMinutes(now)) ==> Project(table[i]) in r
  {
    var start, end := FormatMinutes(past), FormatMinutes(now);
    SelectCompleteAll(table, name, start, end);
    Select(table, name, start, end)
  }

  /**
   What `datetime.now() - timedelta(days=days)` guarantees of `past` when
   the clock read `clock`: the same time of day, and a date that is the
   same for no days, earlier for a positive count and later for a negative one.
   */
  predicate DaysBefore(past: DateTime, clock: DateTime, days: int): (r: bool)
    ensures r ==> Sign(SecondKey(clock) - SecondKey(past)) == Sign(days)
  {
    && past.hour == clock.hour && past.minute == clock.minute && past.second == clock.second
    && (days == 0 ==> past == clock)
    && (days > 0 ==> SecondKey(past) < SecondKey(clock))
    && (days < 0 ==> SecondKey(clock) < SecondKey(past))
  }

  /**
   A second-precision stamp lies in the window exactly when its minute is
   no earlier than the start bound's minute and strictly earlier than the
   now bound's minute: a stamp in the start minute is in, a stamp in the
   current minute is out.
   */
  lemma StampInWindow(t: DateTime, start: DateTime, now: DateTime)
    ensures Between(FormatSeconds(t), FormatMinutes(start), FormatMinutes(now))
        <==> MinuteKey(start) <= MinuteKey(t) < MinuteKey(now)
  {
    MinuteAgainstSecond(start, t);
    MinuteAgainstSecond(now, t);
    CmpFlip(FormatMinutes(now), FormatSeconds(t));
  }

  /** A reading stored during the current minute is not plotted. */
  lemma CurrentMinuteExcluded(table: seq<Row>, name: string, now: DateTime, past: DateTime, i: nat, t: DateTime)
    requires i < |table| && table[i].timestamp == Text(FormatSeconds(t))
    requires MinuteKey(t) == MinuteKey(now)
    ensures !Matches(table[i], name, FormatMinutes(past), FormatMinutes(now))
  {
    StampInWindow(t, past, now);
  }

  /** A reading stored during the start bound's minute is plotted, provided that minute is before now's. */
  lemma StartMinuteIncluded(table: seq<Row>, name: string, now: DateTime, past: DateTime, i: nat, t: DateTime)
    requires i < |table| && table[i].timestamp == Text(FormatSeconds(t)) && table[i].name == Text(name)
    requires MinuteKey(t) == MinuteKey(past) < MinuteKey(now)
    ensures Project(table[i]) in TemperatureReadings(table, name, now, past)
  {
    StampInWindow(t, past, now);
    SelectComplete(table, name, FormatMinutes(past), FormatMinutes(now), i);
  }

  /** Moving back `days` days moves the date back, and only the date. */
  lemma DaysBeforeDate(past: DateTime, clock: DateTime, days: int)
    requires DaysBefore(past, clock, days)
    ensures Sign(DateKey(clock) - DateKey(past)) == Sign(days)
  {
    SameTimeOfDay(clock, past);
  }

  /** Two clock readings on the same calendar date. */
  predicate SameDate(a: DateTime, b: DateTime) {
    a.year == b.year && a.month == b.month && a.day == b.day
  }

  /**
   With a non-negative day count the start bound sorts no later than the
   now bound. `now` is read first and `clock` second: for no days the two
   readings must fall in minutes no later than `now`'s (the same minute, as
   `now` comes first); for one day or more it is enough that they fall on
   the same date.
   */
  lemma WindowOrdered(now: DateTime, clock: DateTime, past: DateTime, days: int)
    requires days >= 0 && DaysBefore(past, clock, days)
    requires days == 0 ==> MinuteKey(clock) <= MinuteKey(now)
    requires days > 0 ==> SameDate(clock, now)
    ensures LessEq(FormatMinutes(past), FormatMinutes(now))
  {
    MinutesOrder(past, now);
    if days > 0 {
      DaysBeforeDate(past, clock, days);
      EarlierDate(past, now);
    }
  }

  /**
   With `days = 0` the start bound is the now bound, or later when the
   clock moved on to the next minute between the two readings; either way
   the only timestamp that can be selected is the now bound itself, so no
   row stored with seconds is.
   */
  lemma ZeroDays(table: seq<Row>, name: string, now: DateTime, clock: DateTime, past: DateTime)
    requires DaysBefore(past, clock, 0) && MinuteKey(now) <= MinuteKey(clock)
    ensures forall s :: s in TemperatureReadings(table, name, now, past) ==> s.timestamp == FormatMinutes(now)
    ensures forall t: DateTime :: !Between(FormatSeconds(t), FormatMinutes(past), FormatMinutes(now))
  {
    var start, end := FormatMinutes(past), FormatMinutes(now);
    MinutesOrder(past, now);
    forall s | s in Select(table, name, start, end)
      ensures s.timestamp == end
    {
      var row :| row in table && Matches(row, name, start, end) && Project(row) == s;
      LessEqTrans(start, s.timestamp, end);
      LessEqAntisym(start, end);
      LessEqAntisym(s.timestamp, end);
    }
    forall t: DateTime
      ensures !Between(FormatSeconds(t), start, end)
    {
      StampInWindow(t, past, now);
    }
  }

  // ---------------------------------------------------------------------------
  // The chart's series.

  /** The x and y data of the chart, index by index. */
  datatype Series = Series(times: seq<string>, values: seq<string>)

  /**
   `[float(value) for (timestamp, value) in rows]`, the text kept as it is:
   a NULL temperature makes `float(None)` raise, reported here with the
   index of the first one.
   */
  function Values(samples: seq<Sample>): (r: Result<seq<string>, nat>)
    ensures r.Ok? <==> forall i :: 0 <= i < |samples| ==> samples[i].temperature.Text?
    ensures r.Ok? ==> |r.value| == |samples| && forall i :: 0 <= i < |samples| ==> samples[i].temperature == Text(r.value[i])
    ensures r.Err? ==> r.error < |samples| && samples[r.error].temperature == Null
    ensures r.Err? ==> forall i :: 0 <= i < r.error ==> samples[i].temperature.Text?
  {
    if samples == [] then Ok([])
    else
      match samples[0].temperature
      case Null => Err(0)
      case Text(v) =>
        match Values(samples[1..])
        case Ok(vs) => Ok([v] + vs)
        case Err(i) => Err(i + 1)
  }

  /**
   The series `plot_temperature` builds from the selected rows: y values
   first, then the timestamps, one per row.
   */
  function PlotSeries(samples: seq<Sample>): (r: Result<Series, nat>)
    ensures r.Ok? ==> |r.value.times| == |r.value.values| == |samples|
    ensures r.Ok? ==> forall i :: 0 <= i < |samples| ==> samples[i] == Sample(r.value.times[i], Text(r.value.values[i]))
    ensures r.Err? <==> exists i :: 0 <= i < |samples| && samples[i].temperature == Null
  {
    match Values(samples)
    case Err(i) => Err(i)
    case Ok(values) =>
      var times := seq(|samples|, i requires 0 <= i < |samples| => samples[i].timestamp);
      Ok(Series(times, values))
  }

  /**
   Plotting a sensor name fails whenever the window holds a row of that
   name whose temperature is NULL, as every row stored from a humidity
   descriptor is.
   */
  lemma NullTemperatureBreaksPlot(table: seq<Row>, name: string, now: DateTime, past: DateTime, i: nat)
    requires i < |table| && table[i].temperature == Null
    requires Matches(table[i], name, FormatMinutes(past), FormatMinutes(now))
    ensures PlotSeries(TemperatureReadings(table, name, now, past)).Err?
  {
    var samples := TemperatureReadings(table, name, now, past);
    SelectComplete(table, name, FormatMinutes(past), FormatMinutes(now), i);
    var j :| 0 <= j < |samples| && samples[j] == Project(table[i]);
  }

  /**
   The collector's row for a humidity descriptor, stored at a minute inside
   the window, makes the plot of that descriptor's name fail.
   */
  lemma HumidityReadingBreaksPlot(table: seq<Row>, i: nat, d: Descriptor, files: map<string, string>,
                                  clock: DateTime, now: DateTime, past: DateTime)
    requires i < |table| && d.kind == HumidityKey && SensorFile(d) in files
    requires table[i] == ExpectedRow(d, files[SensorFile(d)], clock)
    requires MinuteKey(past) <= MinuteKey(clock) < MinuteKey(now)
    ensures PlotSeries(TemperatureReadings(table, d.name, now, past)).Err?
  {
    StampInWindow(clock, past, now);
    NullTemperatureBreaksPlot(table, d.name, now, past, i);
  }
}
