# 1-wire sensor logging, modelled in Dafny

Two small scripts run a home 1-wire sensor setup, and this project models both.

`bin/poll_1wire.py` is the collector. For each descriptor `'<sensor_id>:<type>:<name>'` in its fixed list it:
- reads the sensor's file under the OWFS mount `/mnt/1wire/`;
- builds a reading dictionary stamped with the local time (`'%Y-%m-%d %H:%M:%S'`);
- fills in the missing measurement key with `None`;
- inserts the dictionary as one row of the SQLite table `sensors`.

The inserts stay in the open transaction until the single commit after the loop. The table is created only when the database file did not exist before connecting.

`bin/graph_1wire.py` is the plotter. It selects the `(timestamp, temperature)` pairs of one sensor name whose timestamp lies, as text, between two bounds:
- a start bound `days` days back;
- a bound for now.

Both bounds are rendered with minute precision (`'%Y-%m-%d %H:%M'`). The plotter then turns the pairs into the x and y series of a chart.

## Modules

- `Results` (`results.dfy`): the `Result` datatype that stands in for a raised exception.
- `Collation` (`collation.dfy`): SQLite's BINARY comparison of TEXT values (`Cmp`, `LessEq`, `Between`) and its order laws.
- `Stamps` (`stamps.dfy`): date-times and the two zero-padded `strftime` renderings. It proves two things:
  - for one format, text order is the order of the fields (year, month, day, hour, minute, second), most significant first;
  - a minute-precision bound sorts before every second-precision stamp of the same minute.
- `Collector` (`poll_1wire.dfy`): the collector. Its parts are:
  - the pure descriptor split;
  - the reading dictionary as a `Device` class whose `entries` map `update_db` changes in place;
  - the database connection as a `Database` class holding committed and pending rows;
  - `main` as the method `Collect`; its loop `PollAll` is proved against `Run`, a recursive specification over the outcomes of the descriptors' steps.
- `Plotter` (`graph_1wire.dfy`): the plotter's query as a filter over the table, the window lemmas, and the series.

The wall clock, the sensor files' contents and whether the database file exists are parameters:
- `clock` and `clocks` are the instants the clock is read;
- `files` maps each mounted path to its contents;
- `Database`'s constructor takes the state found on disk.

## Model

| member | source | states |
|---|---|---|
| Collation.LessEq | bin/graph_1wire.py:66-68 | SQL `<=` on text is total: of any two strings, one is no greater than the other |
| Collation.Between | bin/graph_1wire.py:66-68 | `x BETWEEN lo AND hi` holds only when `lo <= hi`, so bounds in the wrong order select nothing |
| Collation.Cmp | bin/graph_1wire.py:66-68 | The text comparison behind `BETWEEN` is a three-way result, and it is 0 exactly when the strings are equal |
| Collation.CmpAppend | bin/graph_1wire.py:66-68 | For two strings with equal-length first parts, the first parts decide the order and the rest only breaks a tie |
| Collation.LessEqTrans | bin/graph_1wire.py:66-68 | Text `<=` is transitive |
| Collation.LessEqAntisym | bin/graph_1wire.py:66-68 | Text `<=` both ways means the strings are equal |
| Stamps.ZeroPad | bin/poll_1wire.py:59 | A `%Y`/`%m`/`%d`/`%H`/`%M`/`%S` field is exactly `width` decimal digits |
| Stamps.ZeroPadValue | bin/poll_1wire.py:59 | Reading a zero-padded field's digits back gives the number, so padding loses nothing |
| Stamps.ZeroPadOrder | bin/graph_1wire.py:40 | Equal-width zero-padded numbers compare as text exactly as they compare as numbers |
| Stamps.FormatMinutes | bin/graph_1wire.py:36-41 | A bound is a fixed-width 16-character string shaped `####-##-## ##:##`, with a digit at every `#` |
| Stamps.FormatSeconds | bin/poll_1wire.py:59 | A stored stamp is shaped `####-##-## ##:##:##`, and its first 16 characters are the minute rendering of the same instant |
| Stamps.MinutesOrder | bin/graph_1wire.py:47-49 | For bounds, text order is field order: the comparison's sign is the sign of the difference of the two `MinuteKey`s, a mixed-radix key of year, month, day, hour and minute |
| Stamps.SecondsOrder | bin/poll_1wire.py:59 | For stored stamps, text order is field order down to the second (`SecondKey`) |
| Stamps.SameTimeOfDay | bin/graph_1wire.py:48 | Two date-times with the same time of day are ordered as their dates are |
| Stamps.EarlierDate | bin/graph_1wire.py:48 | Every time of an earlier date sorts before every time of a later date |
| Stamps.MinuteAgainstSecond | bin/graph_1wire.py:78 | A bound compared with a stamp: their minutes decide, and in the same minute the bound sorts first |
| Collector.Split | bin/poll_1wire.py:54 | `str.split(':')` gives one more field than there are separators, no field contains one, and joining the fields gives back the input |
| Collector.SplitJoin | bin/poll_1wire.py:54 | Splitting undoes joining separator-free fields |
| Collector.ParseDescriptor | bin/poll_1wire.py:54 | The three-name unpacking succeeds exactly when there are two colons; otherwise it fails with the field count, which is never 3; on success the fields rejoin to the descriptor |
| Collector.SensorListPlain | bin/poll_1wire.py:69-72 | Each of the four descriptors `main` polls is the text form of a descriptor whose fields hold no colon, so each parses back to its fields |
| Collector.ParseDescriptorText | bin/poll_1wire.py:54 | Every descriptor whose fields have no colon parses back to itself |
| Collector.SensorFile | bin/poll_1wire.py:55 | The file read lies under `/mnt/1wire/`, and the sensor id is followed by `/` and then the type |
| Collector.SensorFileDistinct | bin/poll_1wire.py:55 | For ids without `/`, two descriptors read the same file exactly when their ids and types agree |
| Collector.Record | bin/poll_1wire.py:58-64 | The dictionary holds `sensor_id` and `name` from the descriptor and the second-precision stamp. It has `temperature` exactly when the type is temperature and `humidity` exactly when it is humidity; a measurement key holds the raw file contents |
| Collector.ReadRecord | bin/poll_1wire.py:53-65 | A wrong field count fails whatever the files are, since no file is opened. Otherwise the read succeeds exactly when `sensor_path + sensor_id + '/' + sensor_type` exists, and a failure names that missing path |
| Collector.ReadSensor | bin/poll_1wire.py:47-65 | The imperative dictionary build returns a fresh dictionary equal to `ReadRecord`'s, or the same error |
| Collector.Device.Normalize | bin/poll_1wire.py:33-36 | The dictionary, changed in place, becomes `Normalized` of its old contents |
| Collector.Normalized | bin/poll_1wire.py:33-36 | Both measurement keys exist afterwards, present keys keep their values, and only absent keys become `None` |
| Collector.NormalizedIdempotent | bin/poll_1wire.py:33-36 | Normalising twice equals normalising once |
| Collector.RowOf | bin/poll_1wire.py:40-44 | The parameter tuple is `(sensor_id, name, timestamp, temperature, humidity)` in that order. It exists exactly when all five keys do; a missing key raises, and the reported key is absent |
| Collector.RowOfNormalized | bin/poll_1wire.py:33-44 | After normalisation only a missing identity, name or timestamp key can make the tuple fail |
| Collector.Database.constructor | bin/poll_1wire.py:15-28 | The on-disk state before a run: no table without a file, no rows without a table, nothing pending |
| Collector.Database.Connect | bin/poll_1wire.py:18-27 | The schema is created exactly when the file did not exist before connecting; afterwards the file exists, committed rows are untouched and nothing is pending |
| Collector.Database.Insert | bin/poll_1wire.py:37-39 | An insert without the table fails and changes nothing; otherwise exactly one row is appended to the pending rows |
| Collector.Database.Commit | bin/poll_1wire.py:77 | The pending rows are appended to the committed rows in insertion order |
| Collector.UpdateDb | bin/poll_1wire.py:31-44 | The caller's dictionary is normalised in place. On success exactly one row is appended and earlier rows are unchanged; on a missing key or missing table nothing is appended |
| Collector.Insertion | bin/poll_1wire.py:37-44 | An insert succeeds exactly when the tuple can be built and the table exists |
| Collector.Step | bin/poll_1wire.py:75-76 | A failed read ends the step with that read's error; a stored row needs a successful read and the table |
| Collector.ExpectedRow | bin/poll_1wire.py:58-64 | The stored row has the descriptor's id, name and the second-precision stamp. The temperature column is set exactly for a temperature descriptor and the humidity column exactly for a humidity one, so at most one is set |
| Collector.StepRow | bin/poll_1wire.py:54-64 | One descriptor stores a row exactly when its read succeeds and the table exists. The row has the descriptor's id and name and the stamp; the type's column holds the raw contents and the other measurement column is NULL, so at most one is set |
| Collector.DescriptorStep | bin/poll_1wire.py:54-65 | A colon-free descriptor whose file exists stores its expected row |
| Collector.Run | bin/poll_1wire.py:74-76 | A completed loop yields one row per step; an aborted one yields fewer rows than steps |
| Collector.RunExtend | bin/poll_1wire.py:74-76 | A step that succeeds after a completed prefix appends exactly its row |
| Collector.RunFail | bin/poll_1wire.py:74-76 | A step that fails after a completed prefix ends the whole loop with that prefix's rows and its own error |
| Collector.RunAbortSticks | bin/poll_1wire.py:74-76 | Once a prefix of the loop raises, the whole loop ends with that error and those rows |
| Collector.RunSteps | bin/poll_1wire.py:74-76 | The i-th row is the i-th step's row, in list order. An aborted loop holds the rows of the steps before the failing one, and its error is that step's |
| Collector.RunCompletes | bin/poll_1wire.py:74-77 | The loop reaches the commit exactly when every step succeeds |
| Collector.PollOne | bin/poll_1wire.py:75-76 | One pass of the loop body ends as the descriptor's step says; on success it adds exactly that step's row to the pending rows, and otherwise nothing |
| Collector.PollAll | bin/poll_1wire.py:74-76 | Starting from no pending rows, the loop leaves pending exactly the rows of `Run` over the descriptors' steps, and it returns the error that stopped it |
| Collector.Collect | bin/poll_1wire.py:68-77 | After connecting, the table exists when it existed before or the file was new. A completed loop commits exactly its rows, in list order; a raised error leaves the committed table unchanged, with the rows read so far still pending |
| Plotter.Matches | bin/graph_1wire.py:66-68 | A matching row has the requested name and a non-NULL timestamp, and the bounds are in order |
| Plotter.TemperatureReadings | bin/graph_1wire.py:53-71 | Every returned pair lies between the two minute-precision bounds and is the timestamp and temperature of a stored row with that name; every stored row of that name between the bounds is returned |
| Plotter.Select | bin/graph_1wire.py:66-71 | Every returned pair is the `(timestamp, temperature)` projection of a stored row with that name and a timestamp between the bounds; there are no more pairs than rows |
| Plotter.SelectComplete | bin/graph_1wire.py:66-71 | Every stored row with that name and a timestamp between the bounds is returned |
| Plotter.SelectAppend | bin/graph_1wire.py:66-71 | Selecting from two tables one after the other gives the selection from both |
| Plotter.SelectPermutation | bin/graph_1wire.py:69-70 | The multiset of returned pairs depends only on the multiset of stored rows, not on their order |
| Plotter.DaysBefore | bin/graph_1wire.py:48 | Moving `days` days back from the clock reading puts the result before, at or after it by the sign of `days` |
| Plotter.DaysBeforeDate | bin/graph_1wire.py:48 | Moving `days` days back changes only the date, in the direction given by the sign of `days` |
| Plotter.StampInWindow | bin/graph_1wire.py:68 | A stored stamp is between the bounds exactly when its minute is no earlier than the start's minute and strictly earlier than now's minute |
| Plotter.CurrentMinuteExcluded | bin/graph_1wire.py:61-68 | A row stored in the current minute is not selected |
| Plotter.StartMinuteIncluded | bin/graph_1wire.py:61-68 | A row of that name stored in the start bound's minute is selected, provided that minute precedes now's |
| Plotter.WindowOrdered | bin/graph_1wire.py:44-50 | With `days >= 0` the start bound sorts no later than the now bound. For no days this needs the second clock read to fall in a minute no later than the first's; for one day or more it is enough that both reads fall on the same date |
| Plotter.ZeroDays | bin/graph_1wire.py:48 | With `days = 0` every selected timestamp equals the now bound, and no second-precision stamp is selected |
| Plotter.Values | bin/graph_1wire.py:79 | The y data exists exactly when no temperature is NULL, and then its i-th value is the i-th row's text. Otherwise the error is the index of the first NULL |
| Plotter.PlotSeries | bin/graph_1wire.py:77-80 | The x and y series have the selection's length and match it index by index; the plot fails exactly when some selected temperature is NULL |
| Plotter.NullTemperatureBreaksPlot | bin/graph_1wire.py:77-79 | A NULL temperature in the window makes the plot of that name fail |
| Plotter.HumidityReadingBreaksPlot | bin/graph_1wire.py:79 | A humidity row the collector stored inside the window makes the plot of its sensor name fail, because the row's temperature is NULL |

## Where the model follows the code

- The plotter's window has minute-precision bounds, but stored stamps carry seconds.
  - A stamp in the current minute sorts after the now bound, so it is not plotted (`Plotter.CurrentMinuteExcluded`).
  - A stamp in the start minute is plotted (`Plotter.StartMinuteIncluded`).
  - A reading taken at the very instant the plot is made is therefore left out, although the docstring of `temperature_readings` promises all readings "going back the specified number of days" (`bin/graph_1wire.py:58-59`). The model follows the code.
- The plotter reads the clock twice, once in `current_time` and once in `date_days_ago`. Each read is its own parameter (`now`, and `clock` from which `past` is derived). With `days = 0` the two bounds can therefore differ by a minute.
- One sensor name, `garage`, has two descriptors: the temperature and the humidity of sensor `26.B9D2BC000000`. Its humidity rows have a NULL temperature, so `float(None)` raises when `garage` is plotted (`Plotter.HumidityReadingBreaksPlot`). The script's own `main` plots `carport`, which has only a temperature descriptor.

## Left out

- SQLite connections, cursors, `os.path.isfile` and `db.close`: these are I/O. The table is a sequence of rows, and file existence is a boolean input.
- Reading the OWFS files and the wall clock (`open`/`read`, `time.strftime`, `datetime.now`): the contents and the instants are parameters.
- Plotter.DaysBefore: `timedelta` subtraction is stated only partly. The time of day is the same, and the date is earlier, equal or later by the sign of `days`. The Gregorian calendar is not modelled, so day-of-month values are not checked against month lengths.
- Stamps.DateTime: years are limited to 1000 to 9999, where `%Y` renders four digits.
- Stamps.DateTime: both scripts read local wall-clock time. The order proved is the order of the fields (year, month, day, hour, minute, second), not of real instants. When daylight saving time ends an hour repeats, and then text order and the order of events disagree; this is not modelled. `Plotter.ZeroDays` assumes that the second clock read is no earlier in field order than the first, which can fail in that repeated hour.
- Plotter.WindowOrdered: for one day or more it needs the two clock reads on the same date. When midnight passes between them, the bounds are still in order in the script, but showing it needs calendar arithmetic, which is not modelled.
- Plotter.Values: `float()` parsing is not modelled. The y values stay as text, and only the failure of `float(None)` is captured. `strptime` on the timestamps is left out as well.
- matplotlib and numpy rendering, axis formatting, `savefig` and the hostname-based output path: these are rendering and environment.
- The double-quoted values in the plotter's SQL are modelled as string literals. SQLite would resolve a name equal to a column name as an identifier; that case is not modelled.
- `db_list_sensors`: it is unused, because its call is commented out.
- `connect_to_database` in the plotter returns nothing when the file is missing, and `main` then fails unpacking that result. The model starts from a table that exists.
- The plotter's `main`, which plots `carport` over one day: it is covered by the general lemmas about `TemperatureReadings` and `PlotSeries`.
- Plotter.Select: SQL guarantees no row order. The selection lists rows in table order, and `Plotter.SelectPermutation` shows that only the multiset matters.
- Collector.Collect: when the loop raises, the pending rows are discarded at process exit. The model stops with them still pending.
- Collector.Collect: the loop runs over any descriptor list. For `main`'s own list, `Collector.SensorListPlain` gives each descriptor's fields, and `Collector.DescriptorStep` gives the row each one stores.
