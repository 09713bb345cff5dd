/**
 The collector (bin/poll_1wire.py): for each descriptor
 '<sensor_id>:<type>:<name>' it reads the sensor's file under the OWFS
 mount, builds a reading record, normalises it and inserts it as one row of
 the `sensors` table; the inserts stay pending until the one commit after
 the loop. File contents and clock readings are parameters.
 */
module Collector {
  import opened Results
  import opened Stamps

  const SensorPath: string := "/mnt/1wire/"

  /** The descriptors `main` polls, in order. */
  const SensorList: seq<string> := [
    "26.B9D2BC000000:temperature:garage",
    "26.B9D2BC000000:humidity:garage",
    "28.B0A295040000:temperature:freezer",
    "28.2A9FB9010000:temperature:carport"
  ]

  /** The descriptors of `SensorList`, field by field. */
  const ListedDescriptors: seq<Descriptor> := [
    Descriptor("26.B9D2BC000000", "temperature", "garage"),
    Descriptor("26.B9D2BC000000", "humidity", "garage"),
    Descriptor("28.B0A295040000", "temperature", "freezer"),
    Descriptor("28.2A9FB9010000", "temperature", "carport")
  ]

  /** `main`'s first descriptor: the garage temperature. */
  lemma ListedGarageTemperature()
    ensures Plain(ListedDescriptors[0]) && DescriptorText(ListedDescriptors[0]) == SensorList[0]
  {
  }

  /** `main`'s second descriptor: the garage humidity. */
  lemma ListedGarageHumidity()
    ensures Plain(ListedDescriptors[1]) && DescriptorText(ListedDescriptors[1]) == SensorList[1]
  {
  }

  /** `main`'s third descriptor: the freezer temperature. */
  lemma ListedFreezer()
    ensures Plain(ListedDescriptors[2]) && DescriptorText(ListedDescriptors[2]) == SensorList[2]
  {
  }

  /** `main`'s fourth descriptor: the carport temperature. */
  lemma ListedCarport()
    ensures Plain(ListedDescriptors[3]) && DescriptorText(ListedDescriptors[3]) == SensorList[3]
  {
  }

  /**
   Every descriptor `main` polls is the text form of the listed descriptor
   at the same position, whose fields hold no colon; so each parses back to
   it (ParseDescriptorText) and stores its expected row when its file exists
   (DescriptorStep).
   */
  lemma SensorListPlain()
    ensures |ListedDescriptors| == |SensorList|
    ensures forall i :: 0 <= i < |SensorList| ==> Plain(ListedDescriptors[i]) && DescriptorText(ListedDescriptors[i]) == SensorList[i]
  {
    ListedGarageTemperature();
    ListedGarageHumidity();
    ListedFreezer();
    ListedCarport();
  }

  const SensorIdKey: string := "sensor_id"
  const NameKey: string := "name"
  const TimestampKey: string := "timestamp"
  const TemperatureKey: string := "temperature"
  const HumidityKey: string := "humidity"

  /** The five dictionary keys are distinct. */
  lemma KeysDistinct()
    ensures |{SensorIdKey, NameKey, TimestampKey, TemperatureKey, HumidityKey}| == 5
  {
    assert SensorIdKey[0] != TimestampKey[0];
  }

  /** A dictionary value or a table cell: text, or Python's None / SQL NULL. */
  datatype Cell = Null | Text(text: string)

  // ---------------------------------------------------------------------------
  // Splitting a descriptor: Python's str.split with an explicit separator.

  function Occurrences(s: string, c: char): nat {
    if s == [] then 0 else (if s[0] == c then 1 else 0) + Occurrences(s[1..], c)
  }

  /** The fields glued back together with the separator between neighbours. */
  function Join(fields: seq<string>, sep: char): string
    requires |fields| > 0
  {
    if |fields| == 1 then fields[0] else fields[0] + [sep] + Join(fields[1..], sep)
  }

  /** `s.split(sep)`: one more field than there are separators, none containing it. */
  function Split(s: string, sep: char): (fields: seq<string>)
    ensures |fields| == Occurrences(s, sep) + 1
    ensures forall i :: 0 <= i < |fields| ==> sep !in fields[i]
    ensures Join(fields, sep) == s
  {
    if s == [] then [""]
    else
      var rest := Split(s[1..], sep);
      if s[0] == sep then
        assert Join([""] + rest, sep) == [sep] + Join(rest, sep);
        [""] + rest
      else
        var fields := [[s[0]] + rest[0]] + rest[1..];
        assert fields[1..] == rest[1..];
        fields
  }

  /** Splitting text that starts with a separator-free piece `a`. */
  lemma {:induction false} SplitPrefix(a: string, r: string, sep: char)
    requires sep !in a
    ensures Split(a + r, sep) == [a + Split(r, sep)[0]] + Split(r, sep)[1..]
  {
    if a != [] {
      assert (a + r)[1..] == a[1..] + r;
      assert (a + r)[0] == a[0];
      SplitPrefix(a[1..], r, sep);
      assert [a[0]] + (a[1..] + Split(r, sep)[0]) == a + Split(r, sep)[0];
    } else {
      var fields := Split(r, sep);
      assert a + r == r && a + fields[0] == fields[0];
      assert fields == [fields[0]] + fields[1..];
    }
  }

  /** Text that starts with the separator splits into an empty field and the rest's fields. */
  lemma SplitAfterSep(r: string, sep: char)
    ensures Split([sep] + r, sep) == [""] + Split(r, sep)
  {
    assert ([sep] + r)[1..] == r;
  }

  /** Splitting undoes joining fields that do not contain the separator. */
  lemma {:induction false} SplitJoin(fields: seq<string>, sep: char)
    requires |fields| > 0
    requires forall i :: 0 <= i < |fields| ==> sep !in fields[i]
    ensures Split(Join(fields, sep), sep) == fields
  {
    if |fields| == 1 {
      SplitPrefix(fields[0], [], sep);
      assert fields[0] + [] == fields[0];
    } else {
      var tail := Join(fields[1..], sep);
      SplitJoin(fields[1..], sep);
      SplitAfterSep(tail, sep);
      var rest := [sep] + tail;
      SplitPrefix(fields[0], rest, sep);
      assert Join(fields, sep) == fields[0] + rest;
      assert fields[0] + Split(rest, sep)[0] == fields[0];
      assert fields == [fields[0]] + Split(rest, sep)[1..];
    }
  }

  // ---------------------------------------------------------------------------
  // Descriptors.

  datatype Descriptor = Descriptor(sensorId: string, kind: string, name: string)

  /** The descriptor in its '<sensor_id>:<type>:<name>' form. */
  function DescriptorText(d: Descriptor): string {
    d.sensorId + ":" + d.kind + ":" + d.name
  }

  /** No field contains the separator, so the text form splits back into the three fields. */
  predicate Plain(d: Descriptor) {
    ':' !in d.sensorId && ':' !in d.kind && ':' !in d.name
  }

  /**
   `sensor_id, sensor_type, name = sensor.split(':')`: exactly three fields
   unpack; any other count fails, reported with the count.
   */
  function ParseDescriptor(s: string): (r: Result<Descriptor, nat>)
    ensures r.Ok? <==> Occurrences(s, ':') == 2
    ensures r.Err? ==> r.error == Occurrences(s, ':') + 1 && r.error != 3
    ensures r.Ok? ==> Plain(r.value) && DescriptorText(r.value) == s
  {
    var fields := Split(s, ':');
    if |fields| == 3 then
      assert Join(fields[2..], ':') == fields[2];
      assert fields[1..][1..] == fields[2..];
      assert Join(fields[1..], ':') == fields[1] + ":" + fields[2];
      assert Join(fields, ':') == fields[0] + ":" + (fields[1] + ":" + fields[2]);
      Ok(Descriptor(fields[0], fields[1], fields[2]))
    else Err(|fields|)
  }

  /** Every plain descriptor survives the trip through its text form. */
  lemma ParseDescriptorText(d: Descriptor)
    requires Plain(d)
    ensures ParseDescriptor(DescriptorText(d)) == Ok(d)
  {
    var fields := [d.sensorId, d.kind, d.name];
    assert fields[1..][1..] == fields[2..] == [d.name];
    assert Join(fields[1..], ':') == d.kind + ":" + d.name;
    assert Join(fields, ':') == DescriptorText(d);
    SplitJoin(fields, ':');
  }

  // ---------------------------------------------------------------------------
  // Reading one sensor.

  datatype ReadError = BadDescriptor(fields: nat) | NoSuchFile(path: string)

  /** `sensor_path + sensor_id + '/' + sensor_type`. */
  function SensorFile(d: Descriptor): (p: string)
    ensures |p| == |SensorPath| + |d.sensorId| + 1 + |d.kind|
    ensures p[..|SensorPath|] == SensorPath && p[|SensorPath| + |d.sensorId|] == '/'
  {
    var p := SensorPath + d.sensorId + "/" + d.kind;
    assert p == SensorPath + (d.sensorId + "/" + d.kind);
    p
  }

  /** The index of the first `c` in `s`, or `|s|` when there is none. */
  function Find(s: string, c: char): (k: nat)
    ensures k <= |s|
  {
    if s == [] || s[0] == c then 0 else 1 + Find(s[1..], c)
  }

  /** In `a + [c] + r`, with no `c` in `a`, the first `c` is the one after `a`. */
  lemma {:induction false} FindAfter(a: string, c: char, r: string)
    requires c !in a
    ensures Find(a + [c] + r, c) == |a|
  {
    if a != [] {
      assert (a + [c] + r)[1..] == a[1..] + [c] + r;
      FindAfter(a[1..], c, r);
    }
  }

  /**
   Sensor ids hold no '/', so two descriptors read the same file exactly
   when they name the same sensor and the same type.
   */
  lemma SensorFileDistinct(d1: Descriptor, d2: Descriptor)
    requires '/' !in d1.sensorId && '/' !in d2.sensorId
    ensures SensorFile(d1) == SensorFile(d2) <==> d1.sensorId == d2.sensorId && d1.kind == d2.kind
  {
    var s1, s2 := d1.sensorId + "/" + d1.kind, d2.sensorId + "/" + d2.kind;
    assert SensorFile(d1) == SensorPath + s1 && SensorFile(d2) == SensorPath + s2;
    if SensorFile(d1) == SensorFile(d2) {
      assert s1 == SensorFile(d1)[|SensorPath|..] == s2;
      FindAfter(d1.sensorId, '/', d1.kind);
      FindAfter(d2.sensorId, '/', d2.kind);
      assert d1.sensorId == s1[..|d1.sensorId|];
      assert d2.sensorId == s2[..|d2.sensorId|];
      assert d1.kind == s1[|d1.sensorId| + 1..];
      assert d2.kind == s2[|d2.sensorId| + 1..];
    }
  }

  /**
   The dictionary `read_sensor` returns: identity, name and timestamp, plus
   the one measurement key its type names, holding the raw file contents.
   */
  function Record(d: Descriptor, value: string, clock: DateTime): (m: map<string, Cell>)
    ensures SensorIdKey in m && m[SensorIdKey] == Text(d.sensorId)
    ensures NameKey in m && m[NameKey] == Text(d.name)
    ensures TimestampKey in m && m[TimestampKey] == Text(FormatSeconds(clock))
    ensures TemperatureKey in m <==> d.kind == TemperatureKey
    ensures HumidityKey in m <==> d.kind == HumidityKey
    ensures forall k :: k in m && k != SensorIdKey && k != NameKey && k != TimestampKey ==> m[k] == Text(value)
    ensures |m| == 3 + (if d.kind in {TemperatureKey, HumidityKey} then 1 else 0)
  {
    KeysDistinct();
    var m := map[SensorIdKey := Text(d.sensorId), TimestampKey := Text(FormatSeconds(clock)), NameKey := Text(d.name)];
    var m := if d.kind == TemperatureKey then m[TemperatureKey := Text(value)] else m;
    if d.kind == HumidityKey then m[HumidityKey := Text(value)] else m
  }

  /**
   What `read_sensor(sensor)` yields when the mounted files are `files` and
   the clock reads `clock`. The descriptor is split before any file is
   opened, so a bad field count fails whatever the files and the clock are.
   */
  function ReadRecord(sensor: string, files: map<string, string>, clock: DateTime): (r: Result<map<string, Cell>, ReadError>)
    ensures Occurrences(sensor, ':') != 2 ==> r == Err(BadDescriptor(Occurrences(sensor, ':') + 1))
    ensures r.Ok? <==> Occurrences(sensor, ':') == 2 && SensorFile(ParseDescriptor(sensor).value) in files
    ensures r.Err? && r.error.NoSuchFile? ==> r.error.path == SensorFile(ParseDescriptor(sensor).value) && r.error.path !in files
  {
    match ParseDescriptor(sensor)
    case Err(n) => Err(BadDescriptor(n))
    case Ok(d) =>
      var path := SensorFile(d);
      if path in files then Ok(Record(d, files[path], clock)) else Err(NoSuchFile(path))
  }

  /** A reading record: a Python dict that `update_db` changes in place. */
  class Device {
    var entries: map<string, Cell>

    constructor ()
      ensures entries == map[]
    {
      entries := map[];
    }

    /** `update_db`'s first step: give each missing measurement key the value None. */
    method Normalize()
      modifies this
      ensures entries == Normalized(old(entries))
    {
      if HumidityKey !in entries {
        entries := entries[HumidityKey := Null];
      }
      if TemperatureKey !in entries {
        entries := entries[TemperatureKey := Null];
      }
    }
  }

  /** `read_sensor`: split, open and read the file, then fill the dict key by key. */
  method ReadSensor(sensor: string, files: map<string, string>, clock: DateTime) returns (r: Result<Device, ReadError>)
    ensures r.Ok? ==> fresh(r.value) && ReadRecord(sensor, files, clock) == Ok(r.value.entries)
    ensures r.Err? ==> ReadRecord(sensor, files, clock) == Err(r.error)
  {
    var fields := Split(sensor, ':');
    if |fields| != 3 {
      return Err(BadDescriptor(|fields|));
    }
    var sensorId, kind, name := fields[0], fields[1], fields[2];
    var path := SensorPath + sensorId + "/" + kind;
    if path !in files {
      return Err(NoSuchFile(path));
    }
    var value := files[path];
    var device := new Device();
    device.entries := device.entries[SensorIdKey := Text(sensorId)];
    device.entries := device.entries[TimestampKey := Text(FormatSeconds(clock))];
    device.entries := device.entries[NameKey := Text(name)];
    if kind == TemperatureKey {
      device.entries := device.entries[TemperatureKey := Text(value)];
    }
    if kind == HumidityKey {
      device.entries := device.entries[HumidityKey := Text(value)];
    }
    return Ok(device);
  }

  // ---------------------------------------------------------------------------
  // Normalising and inserting.

  /** The dict after `update_db` has filled in the missing measurement keys. */
  function Normalized(m: map<string, Cell>): (n: map<string, Cell>)
    ensures n.Keys == m.Keys + {TemperatureKey, HumidityKey}
    ensures forall k :: k in m ==> n[k] == m[k]
    ensures forall k :: k in n && k !in m ==> n[k] == Null
  {
    var m1 := if HumidityKey !in m then m[HumidityKey := Null] else m;
    if TemperatureKey !in m1 then m1[TemperatureKey := Null] else m1
  }

  /** Normalising twice is normalising once. */
  lemma NormalizedIdempotent(m: map<string, Cell>)
    ensures Normalized(Normalized(m)) == Normalized(m)
  {
    var n := Normalized(m);
    assert Normalized(n).Keys == n.Keys;
  }

  /** A row of the `sensors` table, its five text columns in schema order. */
  datatype Row = Row(sensorId: Cell, name: Cell, timestamp: Cell, temperature: Cell, humidity: Cell)

  /**
   The parameter tuple `update_db` builds, `(sensor_id, name, timestamp,
   temperature, humidity)`; a missing key raises KeyError, reported here
   with the first key looked up that is absent.
   */
  function RowOf(m: map<string, Cell>): (r: Result<Row, string>)
    ensures r.Ok? <==> SensorIdKey in m && NameKey in m && TimestampKey in m && TemperatureKey in m && HumidityKey in m
    ensures r.Err? ==> r.error !in m
    ensures r.Ok? ==> r.value == Row(m[SensorIdKey], m[NameKey], m[TimestampKey], m[TemperatureKey], m[HumidityKey])
  {
    if SensorIdKey !in m then Err(SensorIdKey)
    else if NameKey !in m then Err(NameKey)
    else if TimestampKey !in m then Err(TimestampKey)
    else if TemperatureKey !in m then Err(TemperatureKey)
    else if HumidityKey !in m then Err(HumidityKey)
    else Ok(Row(m[SensorIdKey], m[NameKey], m[TimestampKey], m[TemperatureKey], m[HumidityKey]))
  }

  /** After normalisation only a missing `sensor_id`, `name` or `timestamp` key can make building the tuple fail. */
  lemma RowOfNormalized(m: map<string, Cell>)
    ensures RowOf(Normalized(m)).Ok? <==> SensorIdKey in m && NameKey in m && TimestampKey in m
  {
  }

  datatype CollectError = ReadFailed(error: ReadError) | MissingKey(key: string) | NoSuchTable

  /**
   The database file and the collector's connection to it: whether the file
   exists, whether it holds the `sensors` table, the rows committed to it
   and the rows inserted in the open transaction.
   */
  class Database {
    var fileExists: bool
    var hasTable: bool
    var committed: seq<Row>
    var pending: seq<Row>

    /** No table without a file, and no rows without a table. */
    ghost predicate Valid()
      reads this
    {
      && (!fileExists ==> !hasTable)
      && (!hasTable ==> committed == [] && pending == [])
    }

    /** The database as found on disk before a run. */
    constructor (fileExists: bool, hasTable: bool, committed: seq<Row>)
      requires !fileExists ==> !hasTable
      requires !hasTable ==> committed == []
      ensures Valid()
      ensures this.fileExists == fileExists && this.hasTable == hasTable
      ensures this.committed == committed && pending == []
    {
      this.fileExists := fileExists;
      this.hasTable := hasTable;
      this.committed := committed;
      pending := [];
    }

    /**
     `connect_db`: the schema is created exactly when the file did not exist
     before connecting (connecting creates the file). CREATE TABLE is not
     part of a transaction, so the table is durable at once.
     */
    method Connect() returns (created: bool)
      requires Valid()
      modifies this
      ensures Valid()
      ensures created == !old(fileExists)
      ensures fileExists && hasTable == (old(hasTable) || created)
      ensures committed == old(committed) && pending == []
    {
      var createTables := false;
      if !fileExists {
        createTables := true;
      }
      fileExists := true;
      pending := [];
      if createTables {
        hasTable := true;
      }
      created := createTables;
    }

    /** INSERT INTO sensors: fails without the table; otherwise one more pending row. */
    method Insert(row: Row) returns (ok: bool)
      requires Valid()
      modifies this`pending
      ensures Valid()
      ensures ok == hasTable
      ensures pending == if ok then old(pending) + [row] else old(pending)
    {
      ok := hasTable;
      if ok {
        pending := pending + [row];
      }
    }

    /** `db.commit()`: the pending rows become durable, in insertion order. */
    method Commit()
      requires Valid()
      modifies this`committed, this`pending
      ensures Valid()
      ensures committed == old(committed) + old(pending) && pending == []
    {
      committed := committed + pending;
      pending := [];
    }
  }

  /**
   `update_db(c, device)`: normalise the caller's dict in place, then insert
   its row. A failure leaves the table as it was.
   */
  method UpdateDb(db: Database, device: Device) returns (r: Result<(), CollectError>)
    requires db.Valid()
    modifies db`pending, device
    ensures db.Valid()
    ensures device.entries == Normalized(old(device.entries))
    ensures r == Insertion(device.entries, db.hasTable)
    ensures db.pending == if r.Ok? then old(db.pending) + [RowOf(device.entries).value] else old(db.pending)
  {
    device.Normalize();
    var row := RowOf(device.entries);
    if row.Err? {
      return Err(MissingKey(row.error));
    }
    var ok := db.Insert(row.value);
    if !ok {
      return Err(NoSuchTable);
    }
    return Ok(());
  }

  /** How inserting a normalised dict ends. */
  function Insertion(m: map<string, Cell>, hasTable: bool): (r: Result<(), CollectError>)
    ensures r.Ok? <==> RowOf(m).Ok? && hasTable
  {
    match RowOf(m)
    case Err(k) => Err(MissingKey(k))
    case Ok(_) => if hasTable then Ok(()) else Err(NoSuchTable)
  }

  // ---------------------------------------------------------------------------
  // One run of `main`.

  /**
   The row one descriptor contributes, or the error that ends the run
   there: a failed read ends it with the read's error, and a row needs the
   table.
   */
  function Step(sensor: string, files: map<string, string>, clock: DateTime, hasTable: bool): (r: Result<Row, CollectError>)
    ensures ReadRecord(sensor, files, clock).Err? ==> r == Err(ReadFailed(ReadRecord(sensor, files, clock).error))
    ensures r.Ok? ==> ReadRecord(sensor, files, clock).Ok? && hasTable
  {
    match ReadRecord(sensor, files, clock)
    case Err(e) => Err(ReadFailed(e))
    case Ok(m) =>
      match Insertion(Normalized(m), hasTable)
      case Err(e) => Err(e)
      case Ok(_) => Ok(RowOf(Normalized(m)).value)
  }

  /**
   The row the collector stores for descriptor `d` whose file holds `value`,
   read at `clock`: the column of the descriptor's type holds the raw value
   and every other measurement column is NULL.
   */
  function ExpectedRow(d: Descriptor, value: string, clock: DateTime): (row: Row)
    ensures row.sensorId == Text(d.sensorId) && row.name == Text(d.name) && row.timestamp == Text(FormatSeconds(clock))
    ensures row.temperature != Null <==> d.kind == TemperatureKey
    ensures row.humidity != Null <==> d.kind == HumidityKey
    ensures row.temperature == Null || row.humidity == Null
  {
    Row(Text(d.sensorId), Text(d.name), Text(FormatSeconds(clock)),
        if d.kind == TemperatureKey then Text(value) else Null,
        if d.kind == HumidityKey then Text(value) else Null)
  }

  /**
   One descriptor's contribution: it succeeds exactly when the descriptor
   has three fields, its file exists and the table exists, and then the row
   is the expected one, with at most one measurement column set.
   */
  lemma StepRow(sensor: string, files: map<string, string>, clock: DateTime, hasTable: bool)
    ensures Step(sensor, files, clock, hasTable).Ok? <==> ReadRecord(sensor, files, clock).Ok? && hasTable
    ensures Step(sensor, files, clock, hasTable).Ok? ==>
      var d := ParseDescriptor(sensor).value;
      var row := Step(sensor, files, clock, hasTable).value;
      && row == ExpectedRow(d, files[SensorFile(d)], clock)
      && (row.temperature == Null || row.humidity == Null)
  {
    if ReadRecord(sensor, files, clock).Ok? {
      var d := ParseDescriptor(sensor).value;
      var m := Record(d, files[SensorFile(d)], clock);
      RowOfNormalized(m);
    }
  }

  /** A plain descriptor whose file exists yields its expected row. */
  lemma DescriptorStep(d: Descriptor, files: map<string, string>, clock: DateTime)
    requires Plain(d) && SensorFile(d) in files
    ensures Step(DescriptorText(d), files, clock, true) == Ok(ExpectedRow(d, files[SensorFile(d)], clock))
  {
    ParseDescriptorText(d);
    StepRow(DescriptorText(d), files, clock, true);
  }

  datatype RunOutcome = Completed(rows: seq<Row>) | Aborted(inserted: seq<Row>, error: CollectError)

  /** The outcome of each descriptor's step, in list order, the i-th read at clock `clocks[i]`. */
  function Steps(sensors: seq<string>, files: map<string, string>, clocks: seq<DateTime>, hasTable: bool): (steps: seq<Result<Row, CollectError>>)
    requires |clocks| == |sensors|
    ensures |steps| == |sensors|
    ensures forall i :: 0 <= i < |sensors| ==> steps[i] == Step(sensors[i], files, clocks[i], hasTable)
  {
    seq(|sensors|, i requires 0 <= i < |sensors| => Step(sensors[i], files, clocks[i], hasTable))
  }

  /**
   The loop of `main` over the steps' outcomes: the rows inserted so far,
   and the error if one was raised, which ends the loop.
   */
  function Run(steps: seq<Result<Row, CollectError>>): (o: RunOutcome)
    ensures o.Completed? ==> |o.rows| == |steps|
    ensures o.Aborted? ==> |o.inserted| < |steps|
  {
    if steps == [] then Completed([])
    else
      var n := |steps| - 1;
      match Run(steps[..n])
      case Aborted(inserted, e) => Aborted(inserted, e)
      case Completed(rows) =>
        match steps[n]
        case Err(e) => Aborted(rows, e)
        case Ok(row) => Completed(rows + [row])
  }

  /** Once a prefix of the loop aborts, the whole loop aborts the same way. */
  lemma {:induction false} RunAbortSticks(steps: seq<Result<Row, CollectError>>, i: nat)
    requires i <= |steps| && Run(steps[..i]).Aborted?
    ensures Run(steps) == Run(steps[..i])
  {
    if i < |steps| {
      var n := |steps| - 1;
      assert steps[..n][..i] == steps[..i];
      RunAbortSticks(steps[..n], i);
    } else {
      assert steps[..i] == steps;
    }
  }

  /** A step that succeeds after a completed prefix adds its row. */
  lemma RunExtend(steps: seq<Result<Row, CollectError>>, i: nat, rows: seq<Row>)
    requires i < |steps| && Run(steps[..i]) == Completed(rows) && steps[i].Ok?
    ensures Run(steps[..i + 1]) == Completed(rows + [steps[i].value])
  {
    assert steps[..i + 1][..i] == steps[..i];
  }

  /** A step that fails after a completed prefix ends the whole loop with its error. */
  lemma RunFail(steps: seq<Result<Row, CollectError>>, i: nat, rows: seq<Row>)
    requires i < |steps| && Run(steps[..i]) == Completed(rows) && steps[i].Err?
    ensures Run(steps) == Aborted(rows, steps[i].error)
  {
    var prefix := steps[..i + 1];
    assert prefix[..i] == steps[..i] && prefix[i] == steps[i];
    assert Run(prefix) == Aborted(rows, steps[i].error);
    RunAbortSticks(steps, i + 1);
  }

  /**
   A completed loop yields one row per descriptor, in list order; an aborted
   one inserted the rows of the descriptors before the failing one, and the
   failing descriptor's error is the loop's.
   */
  lemma {:induction false} RunSteps(steps: seq<Result<Row, CollectError>>)
    ensures match Run(steps)
      case Completed(rows) => forall i :: 0 <= i < |steps| ==> steps[i] == Ok(rows[i])
      case Aborted(inserted, e) =>
        && (forall i :: 0 <= i < |inserted| ==> steps[i] == Ok(inserted[i]))
        && steps[|inserted|] == Err(e)
  {
    if steps != [] {
      var n := |steps| - 1;
      RunSteps(steps[..n]);
      assert forall i :: 0 <= i < n ==> steps[..n][i] == steps[i];
    }
  }

  /** The loop completes, and so reaches the commit, exactly when every step succeeds. */
  lemma RunCompletes(steps: seq<Result<Row, CollectError>>)
    ensures Run(steps).Completed? <==> forall i :: 0 <= i < |steps| ==> steps[i].Ok?
  {
    RunSteps(steps);
  }

  /**
   One pass of `main`'s loop body, `read_sensor` then `update_db`: it ends
   as the descriptor's step says, and a stored row is the one pending row
   it adds.
   */
  method PollOne(db: Database, sensor: string, files: map<string, string>, clock: DateTime) returns (r: Result<Row, CollectError>)
    requires db.Valid()
    modifies db`pending
    ensures db.Valid()
    ensures r == Step(sensor, files, clock, db.hasTable)
    ensures db.pending == if r.Ok? then old(db.pending) + [r.value] else old(db.pending)
  {
    var read := ReadSensor(sensor, files, clock);
    if read.Err? {
      return Err(ReadFailed(read.error));
    }
    var device := read.value;
    var inserted := UpdateDb(db, device);
    if inserted.Err? {
      return Err(inserted.error);
    }
    return Ok(RowOf(device.entries).value);
  }

  /**
   The `for` loop of `main`: read and insert each descriptor in list order,
   stopping at the first one that raises. The inserted rows are pending.
   */
  method PollAll(db: Database, sensors: seq<string>, files: map<string, string>, clocks: seq<DateTime>)
    returns (r: Result<(), CollectError>)
    requires db.Valid() && db.pending == [] && |clocks| == |sensors|
    modifies db`pending
    ensures db.Valid()
    ensures match Run(Steps(sensors, files, clocks, db.hasTable))
      case Completed(rows) => r.Ok? && db.pending == rows
      case Aborted(inserted, e) => r == Err(e) && db.pending == inserted
  {
    ghost var steps := Steps(sensors, files, clocks, db.hasTable);
    var i := 0;
    while i < |sensors|
      invariant 0 <= i <= |sensors|
      invariant db.Valid()
      invariant Run(steps[..i]) == Completed(db.pending)
    {
      ghost var rows := db.pending;
      var step := PollOne(db, sensors[i], files, clocks[i]);
      if step.Err? {
        RunFail(steps, i, rows);
        return Err(step.error);
      }
      RunExtend(steps, i, rows);
      i := i + 1;
    }
    assert steps[..i] == steps;
    return Ok(());
  }

  /**
   `main`: connect, run the loop, and commit once after it. When a read or
   an insert raises, the run stops there: the committed table is unchanged
   and the rows inserted so far are still pending, to be discarded when the
   process exits.
   */
  method Collect(db: Database, sensors: seq<string>, files: map<string, string>, clocks: seq<DateTime>)
    returns (r: Result<(), CollectError>)
    requires db.Valid() && |clocks| == |sensors|
    modifies db
    ensures db.Valid()
    ensures db.fileExists && db.hasTable == (old(db.hasTable) || !old(db.fileExists))
    ensures match Run(Steps(sensors, files, clocks, db.hasTable))
      case Completed(rows) => r.Ok? && db.committed == old(db.committed) + rows && db.pending == []
      case Aborted(inserted, e) => r == Err(e) && db.committed == old(db.committed) && db.pending == inserted
  {
    var _ := db.Connect();
    r := PollAll(db, sensors, files, clocks);
    if r.Ok? {
      db.Commit();
    }
  }
}
