/** Replacing a file by renaming (`atomic_write_bytes` in `zdx_storage.py`), cut anywhere. */
module AtomicFile {
  import opened Basics

  /** The primary, its backup, and how many temporaries are lying about. */
  datatype Files<+F> = Files(target: Option<F>, backup: Option<F>, temporaries: nat)

  /** Where a write is cut: before it starts, with the temporary written, with the old primary moved
      aside, after the final rename, or nowhere. */
  datatype Point = Start | Written | Moved | Renamed | Nowhere

  /** A crash leaves things as they are; an exception runs the handlers, and the handler's own rename
      may fail. */
  datatype Cut = Cut(point: Point, crash: bool, rollbackFails: bool)

  datatype End = Done | Interrupted

  const UNCUT: Cut := Cut(Nowhere, false, false)

  /** The final rename happens. */
  predicate Renames(cut: Cut) {
    cut.point.Renamed? || cut.point.Nowhere?
  }

  /** A primary that is moved aside stays there. */
  predicate Tears(cut: Cut) {
    cut.point.Moved? && (cut.crash || cut.rollbackFails)
  }

  /** The write up to its cut; the old primary is moved aside only if it is to be kept. */
  function WriteNext<F>(f: Files<F>, file: F, keepBackup: bool, cut: Cut): (r: (Files<F>, End))
    ensures Renames(cut) ==> r.0.target == Some(file)
    ensures r.1.Done? <==> cut.point.Nowhere?
  {
    var gone := if cut.crash then 1 else 0;
    var moves := f.target.Some? && keepBackup;
    if cut.point.Start? then (f, Interrupted)
    else if cut.point.Written? then (f.(temporaries := f.temporaries + gone), Interrupted)
    else if cut.point.Moved? then
      if moves && (cut.crash || cut.rollbackFails) then (Files(None, f.target, f.temporaries + gone), Interrupted)
      else if moves then (Files(f.target, None, f.temporaries), Interrupted)
      else (f.(temporaries := f.temporaries + gone), Interrupted)
    else
      (Files(Some(file), if moves then f.target else f.backup, f.temporaries),
       if cut.point.Renamed? then Interrupted else Done)
  }

  /** A directory with the file, its backup and its temporaries. */
  class Folder<F> {
    var target: Option<F>
    var backup: Option<F>
    var temporaries: nat

    function Disk(): (f: Files<F>)
      reads this
    {
      Files(target, backup, temporaries)
    }

    constructor (f: Files<F>)
      ensures Disk() == f
    {
      target, backup, temporaries := f.target, f.backup, f.temporaries;
    }

    /** `atomic_write_bytes`. */
    method Replace(file: F, keepBackup: bool, cut: Cut) returns (end: End)
      modifies this
      ensures (Disk(), end) == WriteNext(old(Disk()), file, keepBackup, cut)
    {
      end := Interrupted;
      if cut.point.Start? {
        return;
      }
      temporaries := temporaries + 1;
      if cut.point.Written? {
        if !cut.crash {
          temporaries := temporaries - 1;
        }
        return;
      }
      var movedOld := false;
      if target.Some? && keepBackup {
        backup, target, movedOld := target, None, true;
      }
      if cut.point.Moved? {
        if !cut.crash {
          if movedOld && target.None? && backup.Some? && !cut.rollbackFails {
            target, backup := backup, None;
          }
          temporaries := temporaries - 1;
        }
        return;
      }
      target, temporaries := Some(file), temporaries - 1;
      end := if cut.point.Renamed? then Interrupted else Done;
    }
  }
}
