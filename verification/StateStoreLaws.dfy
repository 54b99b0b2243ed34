/** What survives: a load returns the newest save whose final rename happened. */
module StateStoreLaws {
  import opened Basics
  import opened StateStore
  import opened AtomicFile

  /** What a load would find: the primary, or else the backup, whichever is intact first. */
  function Newest(f: Disk): (file: Option<File>)
    ensures file.Some? ==> !file.value.Bad?
  {
    if f.target.Some? && !f.target.value.Bad? then f.target
    else if f.backup.Some? && !f.backup.value.Bad? then f.backup
    else None
  }

  function Meaning(c: Schema, file: File): (r: Result<Data, MigrationError>)
    requires !file.Bad?
  {
    Understood(c, if file.Good? then file.version else 0, file.data)
  }

  /** The data a migrating load would give, or why it could not. */
  function Shown(c: Schema, f: Disk): (r: Option<Result<Data, MigrationError>>) {
    var file := Newest(f);
    if file.None? then None else Some(Meaning(c, file.value))
  }

  /** Upgrading in two stages is upgrading in one. */
  lemma {:induction false} UpgradeComposes(ms: Migrations, data: Data, a: nat, b: nat, c: nat)
    requires a <= b <= c
    ensures var half := Upgrade(ms, data, a, b);
      Upgrade(ms, data, a, c) == if half.Ok? then Upgrade(ms, half.value, b, c) else half
    decreases b - a
  {
    if a < b && a in ms && ms[a](data).Some? {
      UpgradeComposes(ms, ms[a](data).value, a + 1, b, c);
    }
  }

  /** One stage gives what its migration makes of the data, and fails if there is none or it raises. */
  lemma OneStage(ms: Migrations, data: Data, v: nat)
    ensures v in ms && ms[v](data).Some? ==> Upgrade(ms, data, v, v + 1) == Ok(ms[v](data).value)
    ensures v in ms && ms[v](data).None? ==> Upgrade(ms, data, v, v + 1) == Err(Raised(v))
    ensures v !in ms ==> Upgrade(ms, data, v, v + 1) == Err(Missing(v))
    ensures Upgrade(ms, data, v, v) == Ok(data)
  {
  }

  /** An upgrade that fails stopped at the first version whose migration is missing or raises on what the
      stages before made of the data. */
  lemma {:induction false} FailsAtFirst(ms: Migrations, data: Data, a: nat, c: nat) returns (v: nat)
    requires a <= c && Upgrade(ms, data, a, c).Err?
    ensures a <= v < c && Upgrade(ms, data, a, v).Ok?
    ensures var reached := Upgrade(ms, data, a, v).value;
      if v in ms then ms[v](reached).None? && Upgrade(ms, data, a, c) == Err(Raised(v))
      else Upgrade(ms, data, a, c) == Err(Missing(v))
    decreases c - a
  {
    if a in ms && ms[a](data).Some? {
      v := FailsAtFirst(ms, ms[a](data).value, a + 1, c);
    } else {
      v := a;
    }
  }

  /** A save over an intact primary keeps the time it was created and its migration log; any other starts
      a new record. */
  lemma SaveKeepsRecord(c: Schema, f: Disk, data: Data, now: int, quarantines: bool, cut: Cut)
    requires Saved(f, quarantines, cut)
    ensures var g := SaveNext(c, f, data, now, quarantines, cut).0.target;
      && g.Some? && g.value.Good? && g.value.version == c.version && g.value.data == data
      && (f.target.Some? && f.target.value.Good? ==>
           g.value.created == f.target.value.created && g.value.log == f.target.value.log)
      && (f.target.None? || !f.target.value.Good? ==> g.value.created == now && g.value.log == [])
  {
  }

  lemma {:induction false} PassedCounts(a: nat, b: nat)
    requires a <= b
    ensures |Passed(a, b)| == b - a && forall i :: 0 <= i < b - a ==> Passed(a, b)[i] == a + i
    decreases b - a
  {
    if a < b {
      PassedCounts(a + 1, b);
    }
  }

  /** A load that migrates writes the upgraded data with the old creation time, and logs every version it
      passed, in order, after what was logged before. */
  lemma MigrationKeepsRecord(c: Schema, f: Disk, w: Circumstances)
    requires Smooth(w) && f.target.Some? && f.target.value.Good? && f.target.value.version < c.version
    requires Meaning(c, f.target.value).Ok?
    ensures var (g, r) := LoadNext(c, f, w); var was, made := f.target.value, g.target;
      && r == Value(Meaning(c, was).value) && g.backup == Some(was)
      && made.Some? && made.value.Good? && made.value.version == c.version && made.value.data == r.data
      && made.value.created == was.created
      && |made.value.log| == |was.log| + (c.version - was.version) && was.log <= made.value.log
      && forall k :: |was.log| <= k < |made.value.log| ==> made.value.log[k] == was.version + (k - |was.log|)
  {
    PassedCounts(f.target.value.version, c.version);
    hide Passed, Upgrade;
  }

  /** The final rename of a save happened. */
  predicate Saved(f: Disk, quarantines: bool, cut: Cut) {
    Renames(cut) && (f.target.Some? && f.target.value.Bad? ==> quarantines)
  }

  /** A save replaces what a load finds if its final rename happened, and otherwise leaves it,
      wherever it is cut and whatever is already damaged. */
  lemma SaveIsAtomic(c: Schema, f: Disk, data: Data, now: int, quarantines: bool, cut: Cut)
    ensures var (g, end) := SaveNext(c, f, data, now, quarantines, cut);
      && Newest(g) == (if Saved(f, quarantines, cut) then Some(Envelope(c, f, data, now)) else Newest(f))
      && Shown(c, g) == (if Saved(f, quarantines, cut) then Some(Ok(data)) else Shown(c, f))
      && (end.Done? ==> Saved(f, quarantines, cut))
  {
  }

  /** Nothing is cut, and every file that has to move moves. */
  predicate Smooth(w: Circumstances) {
    w.migrate && w.quarantines >= 2 && w.recovery.point.Nowhere? && w.migration.point.Nowhere?
  }

  lemma WriteShows(c: Schema, f: Disk, file: File, cut: Cut)
    requires !file.Bad? && (f.target.Some? ==> !f.target.value.Bad?)
    requires Newest(f).Some? && Meaning(c, Newest(f).value) == Meaning(c, file)
    ensures Shown(c, WriteNext(f, file, true, cut).0) == Shown(c, f)
  {
    hide Meaning;
  }

  /** Migrating changes the file but not what it shows. */
  lemma MigrationShows(c: Schema, f: Disk, found: Contents, w: Circumstances)
    requires Newest(f).Some? && Decode(Newest(f).value, w.now) == Some(found)
    requires (f.target.Some? ==> !f.target.value.Bad?)
    ensures var (g, r) := MigrateNext(c, f, found, w);
      && Shown(c, g) == Shown(c, f)
      && (r.Value? && w.migrate ==> Shown(c, f) == Some(Ok(r.data)))
      && (r.Value? && !w.migrate ==> r.data == Newest(f).value.data)
      && (r.Unusable? ==> Shown(c, f).value.Err?)
      && (Smooth(w) && Shown(c, f).value.Ok? ==> r.Value?)
      && !r.Default? && !r.Corrupt?
  {
    if w.migrate && found.version < c.version && Understood(c, found.version, found.data).Ok? {
      var up := Understood(c, found.version, found.data).value;
      var file := Good(c.version, found.created, found.log + Passed(found.version, c.version), up);
      assert Meaning(c, file) == Ok(up);
      hide Understood, Upgrade;
      WriteShows(c, f, file, w.migration);
    }
  }

  /** A load, cut anywhere, never changes what the next load finds, and returns it; a default or a
      report of damage means that nothing intact was there. */
  lemma LoadFindsNewest(c: Schema, f: Disk, w: Circumstances)
    ensures var (g, r) := LoadNext(c, f, w);
      && Shown(c, g) == Shown(c, f)
      && (r.Value? && w.migrate ==> Shown(c, f) == Some(Ok(r.data)))
      && (r.Value? && !w.migrate ==> Newest(f).Some? && r.data == Newest(f).value.data)
      && (r.Unusable? ==> Shown(c, f).Some? && Shown(c, f).value.Err?)
      && (Smooth(w) && Shown(c, f).Some? && Shown(c, f).value.Ok? ==> r.Value?)
      && (r.Default? || r.Corrupt? ==> Newest(f).None?)
  {
    hide Meaning, MigrateNext;
    var s := f.(temporaries := 0);
    if Newest(f).Some? {
      var found := Decode(Newest(f).value, w.now).value;
      if s.target.Some? && s.target.value.Bad? {
        MigrationShows(c, WriteNext(s.(target := None), s.backup.value, true, UNCUT).0, found, w);
        MigrationShows(c, WriteNext(s.(target := None), s.backup.value, true, w.recovery).0, found, w);
      } else {
        MigrationShows(c, s, found, w);
      }
    }
  }

  /** With nothing to load, a load gives the default if there is no file at all; with a single damaged file
      it gives the default the caller offered, or reports the damage; with two it always reports it. */
  lemma NothingToLoad(c: Schema, f: Disk, w: Circumstances)
    requires Newest(f).None? && w.quarantines >= 2
    ensures var r := LoadNext(c, f, w).1;
      if f.target.None? && f.backup.None? then r == Default
      else if f.target.Some? && f.backup.Some? then r == Corrupt
      else r == if w.hasDefault then Default else Corrupt
  {
  }

  /** What an uncut load reports when it finds a file it cannot use: that the file is newer, or which
      migration is missing or raised. */
  lemma UnusableMeans(c: Schema, f: Disk, w: Circumstances)
    requires Smooth(w) && Newest(f).Some? && c.version >= 1
    ensures var file := Newest(f).value; var version := if file.Good? then file.version else 0;
      var r := LoadNext(c, f, w).1;
      && (r == Unusable(Newer) <==> version > c.version)
      && (r.Unusable? <==> Meaning(c, file).Err?)
      && (r.Unusable? ==> r.why == Meaning(c, file).error)
  {
    hide Upgrade;
    UpgradeNewer(c.migrations, Newest(f).value.data, if Newest(f).value.Good? then Newest(f).value.version else 0,
      c.version);
    UpgradeNewer(c.migrations, Newest(f).value.data, 1, c.version);
  }

  lemma {:induction false} UpgradeNewer(ms: Migrations, data: Data, a: nat, b: nat)
    ensures Upgrade(ms, data, a, b) == Err(Newer) <==> a > b
    ensures a == b ==> Upgrade(ms, data, a, b) == Ok(data)
    decreases b - a
  {
    if a < b && a in ms && ms[a](data).Some? {
      UpgradeNewer(ms, ms[a](data).value, a + 1, b);
    }
  }

  // ---------------------------------------------------------------- whole runs

  datatype Op = Saves(data: Data, now: int, quarantines: bool, cut: Cut) | Loads(w: Circumstances)

  function Apply(c: Schema, f: Disk, op: Op): (g: Disk) {
    match op
    case Saves(data, now, quarantines, cut) => SaveNext(c, f, data, now, quarantines, cut).0
    case Loads(w) => LoadNext(c, f, w).0
  }

  function Run(c: Schema, f: Disk, ops: seq<Op>): (g: Disk) {
    if ops == [] then f else Apply(c, Run(c, f, ops[..|ops| - 1]), ops[|ops| - 1])
  }

  predicate Commits(f: Disk, op: Op) {
    op.Saves? && Saved(f, op.quarantines, op.cut)
  }

  /** The data of the saves whose final rename happened, in order. */
  function Committed(c: Schema, f: Disk, ops: seq<Op>): (ds: seq<Data>) {
    if ops == [] then [] else
      var before, op := ops[..|ops| - 1], ops[|ops| - 1];
      Committed(c, f, before) + if Commits(Run(c, f, before), op) then [op.data] else []
  }

  /** Across any saves and loads, each cut anywhere by a crash or an exception, and from any state of
      the files, a load finds the newest save whose final rename happened, or what was there at first. */
  lemma {:induction false} RunKeepsNewest(c: Schema, f: Disk, ops: seq<Op>)
    ensures var ds := Committed(c, f, ops);
      Shown(c, Run(c, f, ops)) == if ds == [] then Shown(c, f) else Some(Ok(ds[|ds| - 1]))
  {
    hide SaveNext, LoadNext, Shown, Saved;
    if ops != [] {
      var before, op := ops[..|ops| - 1], ops[|ops| - 1];
      RunKeepsNewest(c, f, before);
      match op
      case Saves(data, now, quarantines, cut) => SaveIsAtomic(c, Run(c, f, before), data, now, quarantines, cut);
      case Loads(w) => LoadFindsNewest(c, Run(c, f, before), w);
    }
  }

  /** The same, read as what the next undisturbed load returns. */
  lemma LoadReturnsNewestSave(c: Schema, f: Disk, ops: seq<Op>, w: Circumstances)
    requires Smooth(w)
    ensures var ds := Committed(c, f, ops); ds != [] ==> LoadNext(c, Run(c, f, ops), w).1 == Value(ds[|ds| - 1])
  {
    RunKeepsNewest(c, f, ops);
    hide Run, Committed, LoadNext, Shown;
    LoadFindsNewest(c, Run(c, f, ops), w);
  }

  // ---------------------------------------------------------------- damage to the primary

  /** The file holds this data under the current version. */
  predicate Holds(c: Schema, file: File, data: Data) {
    file.Good? && file.version == c.version && file.data == data
  }

  /** The newest commit is in the primary, or in the backup when there is no primary; with both, the
      backup is the commit before. */
  ghost predicate Kept(c: Schema, f: Disk, ds: seq<Data>) {
    && (f.target.Some? ==> ds != [] && Holds(c, f.target.value, ds[|ds| - 1]))
    && (f.target.None? && f.backup.Some? ==> ds != [] && Holds(c, f.backup.value, ds[|ds| - 1]))
    && (f.target.Some? && f.backup.Some? ==> |ds| >= 2 && Holds(c, f.backup.value, ds[|ds| - 2]))
    && (f.target.None? && f.backup.None? ==> ds == [])
  }

  lemma KeptStep(c: Schema, f: Disk, ds: seq<Data>, op: Op)
    requires Kept(c, f, ds)
    ensures Kept(c, Apply(c, f, op), ds + if Commits(f, op) then [op.data] else [])
  {
  }

  lemma {:induction false} RunKept(c: Schema, ops: seq<Op>)
    ensures Kept(c, Run(c, NO_FILES, ops), Committed(c, NO_FILES, ops))
  {
    if ops != [] {
      RunKept(c, ops[..|ops| - 1]);
      hide Kept, Apply, Saved;
      KeptStep(c, Run(c, NO_FILES, ops[..|ops| - 1]), Committed(c, NO_FILES, ops[..|ops| - 1]), ops[|ops| - 1]);
    }
  }

  /** A save of which the exception handler put the old primary back, over the older backup. */
  predicate RollsBack(f: Disk, op: Op) {
    op.Saves? && f.target.Some? && !f.target.value.Bad? && op.cut == Cut(Moved, false, false)
  }

  /** Some save was rolled back since the last one that was committed. */
  function Rolled(c: Schema, f: Disk, ops: seq<Op>): (b: bool) {
    ops != [] && (
      var before, op := Run(c, f, ops[..|ops| - 1]), ops[|ops| - 1];
      RollsBack(before, op) || (!Commits(before, op) && Rolled(c, f, ops[..|ops| - 1])))
  }

  /** With a primary there is a backup exactly after two commits with no rollback since the last. */
  ghost predicate BackedUp(f: Disk, n: nat, rolled: bool) {
    f.target.Some? ==> (f.backup.Some? <==> n >= 2 && !rolled)
  }

  lemma BackedUpStep(c: Schema, f: Disk, ds: seq<Data>, rolled: bool, op: Op)
    requires Kept(c, f, ds) && BackedUp(f, |ds|, rolled)
    ensures BackedUp(Apply(c, f, op), |ds| + (if Commits(f, op) then 1 else 0), RollsBack(f, op)
      || (!Commits(f, op) && rolled))
  {
  }

  lemma {:induction false} RunBackedUp(c: Schema, ops: seq<Op>)
    ensures BackedUp(Run(c, NO_FILES, ops), |Committed(c, NO_FILES, ops)|, Rolled(c, NO_FILES, ops))
  {
    if ops != [] {
      var before := ops[..|ops| - 1];
      RunBackedUp(c, before);
      RunKept(c, before);
      hide Kept, BackedUp, Apply, Commits, RollsBack;
      BackedUpStep(c, Run(c, NO_FILES, before), Committed(c, NO_FILES, before), Rolled(c, NO_FILES, before),
        ops[|ops| - 1]);
    }
  }

  /** Over every run from empty files that leaves a primary: damage to the primary leaves something to
      load exactly when two saves were committed and none was rolled back since the last; and what is
      left is the save before the last, however often later recoveries are cut. */
  lemma DamagedPrimaryFallsBack(c: Schema, ops: seq<Op>, junk: Bytes, loads: seq<Op>)
    requires Run(c, NO_FILES, ops).target.Some? && forall op :: op in loads ==> op.Loads?
    ensures var ds := Committed(c, NO_FILES, ops); var f := Run(c, NO_FILES, ops).(target := Some(Bad(junk)));
      && (Newest(f).Some? <==> |ds| >= 2 && !Rolled(c, NO_FILES, ops))
      && (Newest(f).Some? ==> Shown(c, Run(c, f, loads)) == Some(Ok(ds[|ds| - 2])))
  {
    RunKept(c, ops);
    RunBackedUp(c, ops);
    var f := Run(c, NO_FILES, ops).(target := Some(Bad(junk)));
    hide Run, Apply, Rolled, Committed;
    RunKeepsNewest(c, f, loads);
    LoadsCommitNothing(c, f, loads);
  }

  lemma {:induction false} LoadsCommitNothing(c: Schema, f: Disk, loads: seq<Op>)
    requires forall op :: op in loads ==> op.Loads?
    ensures Committed(c, f, loads) == []
  {
    if loads != [] {
      LoadsCommitNothing(c, f, loads[..|loads| - 1]);
      assert loads[|loads| - 1] in loads;
    }
  }

  /** A save that is rolled back by its exception handler loses the older backup: damage to the
      primary is then fatal, although it was not before. */
  lemma RollbackLosesBackup(c: Schema, older: File, newer: File, next: Data, now: int, junk: Bytes)
    requires !older.Bad? && !newer.Bad?
    ensures var f := Files(Some(newer), Some(older), 0);
      var g := SaveNext(c, f, next, now, true, Cut(Moved, false, false)).0;
      && Newest(g) == Newest(f)
      && Newest(f.(target := Some(Bad(junk)))) == Some(older) && Newest(g.(target := Some(Bad(junk)))) == None
  {
  }
}
