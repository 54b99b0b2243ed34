/** The rename-based state store (`zdx_storage.py`): saves and loads that may be cut anywhere, with
    recovery from the backup and migration of older files. */
module StateStore {
  import opened Basics
  import opened AtomicFile

  type Data = Bytes

  /** A file: an intact envelope, an object from before there were envelopes, or bytes that fail the checks. */
  datatype File =
    | Good(version: nat, created: int, log: seq<nat>, data: Data)
    | Legacy(data: Data)
    | Bad(bytes: Bytes)

  /** What a file says about itself; a legacy object counts as version zero, created just now. */
  datatype Contents = Contents(version: nat, created: int, log: seq<nat>, data: Data)

  function Decode(file: File, now: int): (r: Option<Contents>)
    ensures r.None? <==> file.Bad?
  {
    match file
    case Good(version, created, log, data) => Some(Contents(version, created, log, data))
    case Legacy(data) => Some(Contents(0, now, [], data))
    case Bad(_) => None
  }

  type Disk = Files<File>

  const NO_FILES: Disk := Files(None, None, 0)

  // ---------------------------------------------------------------- migrations

  /** One step for each version it starts from; a step may raise. */
  type Migrations = map<nat, Data -> Option<Data>>

  datatype MigrationError = Newer | Missing(version: nat) | Raised(version: nat)

  /** `MigrationRegistry.upgrade`. */
  function Upgrade(ms: Migrations, data: Data, source: nat, target: nat): (r: Result<Data, MigrationError>)
    decreases target - source
  {
    if source > target then Err(Newer)
    else if source == target then Ok(data)
    else if source !in ms then Err(Missing(source))
    else
      var next := ms[source](data);
      if next.None? then Err(Raised(source)) else Upgrade(ms, next.value, source + 1, target)
  }

  /** The schema version a store writes, and how older data is brought up to it. */
  datatype Schema = Schema(version: nat, migrations: Migrations)

  /** The data of a file as this store understands it; version zero becomes one by being enveloped. */
  function Understood(c: Schema, version: nat, data: Data): (r: Result<Data, MigrationError>) {
    Upgrade(c.migrations, data, if version == 0 && c.version > 0 then 1 else version, c.version)
  }

  /** The versions passed on the way up. */
  function Passed(from: nat, to: nat): (log: seq<nat>)
    decreases to - from
  {
    if from >= to then [] else [from] + Passed(from + 1, to)
  }

  // ---------------------------------------------------------------- saving and loading

  /** The envelope a save writes: created and migrated when the old primary was. */
  function Envelope(c: Schema, f: Disk, data: Data, now: int): (file: File) {
    var was := if f.target.Some? then Decode(f.target.value, now) else None;
    Good(c.version, if was.Some? then was.value.created else now, if was.Some? then was.value.log else [], data)
  }

  /** A primary that does not decode is moved out of the way before a save. */
  function SaveNext(c: Schema, f: Disk, data: Data, now: int, quarantines: bool, cut: Cut): (r: (Disk, End)) {
    var file := Envelope(c, f, data, now);
    if f.target.Some? && f.target.value.Bad? then
      if quarantines then WriteNext(f.(target := None), file, true, cut) else (f, Interrupted)
    else WriteNext(f, file, true, cut)
  }

  datatype Loaded = Value(data: Data) | Default | Corrupt | Unusable(why: MigrationError) | Failed

  /** What surrounds a load: whether the caller gave a default, whether it migrates, how many
      quarantine renames go through, and where the recovery and the migration are cut. */
  datatype Circumstances = Circumstances(
    hasDefault: bool, migrate: bool, now: int, quarantines: nat, recovery: Cut, migration: Cut)

  /** The end of a load: bring what was found up to date. */
  function MigrateNext(c: Schema, f: Disk, found: Contents, w: Circumstances): (r: (Disk, Loaded)) {
    if found.version > c.version then (f, Unusable(Newer))
    else if found.version == c.version || !w.migrate then (f, Value(found.data))
    else
      var up := Understood(c, found.version, found.data);
      if up.Err? then (f, Unusable(up.error))
      else
        var file := Good(c.version, found.created, found.log + Passed(found.version, c.version), up.value);
        var (g, end) := WriteNext(f, file, true, w.migration);
        (g, if end.Done? then Value(up.value) else Failed)
  }

  function LoadNext(c: Schema, f: Disk, w: Circumstances): (r: (Disk, Loaded)) {
    var f := f.(temporaries := 0);
    match (f.target, f.backup)
    case (None, None) => (f, Default)
    case (None, Some(b)) =>
      var found := Decode(b, w.now);
      if found.Some? then MigrateNext(c, f, found.value, w)
      else if w.quarantines == 0 then (f, Failed)
      else (f.(backup := None), if w.hasDefault then Default else Corrupt)
    case (Some(t), backup) =>
      var found := Decode(t, w.now);
      if found.Some? then MigrateNext(c, f, found.value, w)
      else if w.quarantines == 0 then (f, Failed)
      else if backup.None? then (f.(target := None), if w.hasDefault then Default else Corrupt)
      else
        var was := Decode(backup.value, w.now);
        if was.None? then
          if w.quarantines == 1 then (f.(target := None), Failed) else (Files(None, None, 0), Corrupt)
        else
          var (g, end) := WriteNext(f.(target := None), backup.value, true, w.recovery);
          if end.Done? then MigrateNext(c, g, was.value, w) else (g, Failed)
  }

  // ---------------------------------------------------------------- the store object

  class Store {
    const schema: Schema
    const folder: Folder<File>

    ghost function Disk(): (f: Disk)
      reads this, folder
    {
      folder.Disk()
    }

    constructor (schema: Schema)
      ensures this.schema == schema && Disk() == NO_FILES && fresh(folder)
    {
      this.schema := schema;
      folder := new Folder(NO_FILES);
    }

    method Save(data: Data, now: int, quarantines: bool, cut: Cut) returns (end: End)
      modifies folder
      ensures (Disk(), end) == SaveNext(schema, old(Disk()), data, now, quarantines, cut)
    {
      var created, log := now, [];
      if folder.target.Some? {
        var was := Decode(folder.target.value, now);
        if was.Some? {
          created, log := was.value.created, was.value.log;
        } else {
          if !quarantines {
            return Interrupted;
          }
          folder.target := None;
        }
      }
      end := folder.Replace(Good(schema.version, created, log, data), true, cut);
    }

    /** The loop of `upgrade`. */
    method UpgradeData(start: Data, source: nat, goal: nat) returns (r: Result<Data, MigrationError>)
      ensures r == Upgrade(schema.migrations, start, source, goal)
    {
      if source > goal {
        return Err(Newer);
      }
      var data, at := start, source;
      while at < goal
        invariant at <= goal
        invariant Upgrade(schema.migrations, start, source, goal) == Upgrade(schema.migrations, data, at, goal)
      {
        if at !in schema.migrations {
          return Err(Missing(at));
        }
        var next := schema.migrations[at](data);
        if next.None? {
          return Err(Raised(at));
        }
        data, at := next.value, at + 1;
      }
      return Ok(data);
    }

    method Migrate(found: Contents, w: Circumstances) returns (r: Loaded)
      modifies folder
      ensures (Disk(), r) == MigrateNext(schema, old(Disk()), found, w)
    {
      if found.version > schema.version {
        return Unusable(Newer);
      }
      if found.version == schema.version || !w.migrate {
        return Value(found.data);
      }
      var up := UpgradeData(found.data, if found.version == 0 then 1 else found.version, schema.version);
      if up.Err? {
        return Unusable(up.error);
      }
      var file := Good(schema.version, found.created, found.log + Passed(found.version, schema.version), up.value);
      var end := folder.Replace(file, true, w.migration);
      return if end.Done? then Value(up.value) else Failed;
    }

    method Load(w: Circumstances) returns (r: Loaded)
      modifies folder
      ensures (Disk(), r) == LoadNext(schema, old(Disk()), w)
    {
      folder.temporaries := 0;
      var fromBackup := folder.target.None? && folder.backup.Some?;
      var source := if fromBackup then folder.backup else folder.target;
      if source.None? {
        return Default;
      }
      var found := Decode(source.value, w.now);
      if found.None? {
        if w.quarantines == 0 {
          return Failed;
        }
        if fromBackup {
          folder.backup := None;
          return if w.hasDefault then Default else Corrupt;
        }
        folder.target := None;
        if folder.backup.None? {
          return if w.hasDefault then Default else Corrupt;
        }
        found := Decode(folder.backup.value, w.now);
        if found.None? {
          if w.quarantines == 1 {
            return Failed;
          }
          folder.backup := None;
          return Corrupt;
        }
        var end := folder.Replace(folder.backup.value, true, w.recovery);
        if end.Interrupted? {
          return Failed;
        }
      }
      r := Migrate(found.value, w);
    }
  }
}
