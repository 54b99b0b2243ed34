/** `SpatialPixelStore`: the memory document kept in one region of a frame file. */
module SpatialStore {
  import opened Basics
  import opened Codec
  import opened Document
  import opened AtomicFile
  import opened Isa
  import Frame
  import Raster
  import DocumentLaws

  // ---------------------------------------------------------------- files and recovery

  /** A frame file: a raster of the layout, or something that does not open as one. */
  datatype Artwork = Unreadable | Picture(image: Grid<Pixel>)

  /** What a store is bound to. */
  datatype Setting = Setting(layout: Raster.Layout, region: Option<string>, target: Raster.Region, sha: Hash)

  ghost predicate Proper(st: Setting) {
    && Raster.Accepted(st.layout) && Raster.Find(st.layout, st.region) == Ok(st.target)
    && HEADER_SIZE < Raster.Capacity(st.target)
  }

  ghost predicate Drawn(st: Setting, a: Option<Artwork>) {
    a.Some? && a.value.Picture? ==> Raster.Fits(a.value.image, st.layout)
  }

  function Memo(st: Setting, image: Grid<Pixel>): (r: Result<(Memory, nat), StoreError>)
    requires Proper(st) && Raster.Fits(image, st.layout)
  {
    DecodeDocument(st.sha, Raster.ReadSpan(image, st.target, 0, Raster.Capacity(st.target)))
  }

  /** What a file holds, if it opens and its document decodes. */
  function Held(st: Setting, a: Option<Artwork>): (r: Option<(Grid<Pixel>, Memory, nat)>)
    requires Proper(st) && Drawn(st, a)
    ensures r.Some? ==> a == Some(Picture(r.value.0))
  {
    if a.None? || a.value.Unreadable? then None else
      var memo := Memo(st, a.value.image);
      if memo.Err? then None else Some((a.value.image, memo.value.0, memo.value.1))
  }

  /** `_execution_plane_matches`: the executable rows have the same digest. */
  function SamePlane(st: Setting, a: Grid<Pixel>, b: Grid<Pixel>): (same: bool)
    requires Proper(st) && Raster.Fits(a, st.layout) && Raster.Fits(b, st.layout)
  {
    var plane := Raster.Execution(st.layout);
    st.layout.executionRows == 0 ||
    st.sha(Raster.ReadSpan(a, plane, 0, Raster.Capacity(plane)))
      == st.sha(Raster.ReadSpan(b, plane, 0, Raster.Capacity(plane)))
  }

  /** The backup may stand in for the file. */
  predicate Compatible(st: Setting, file: Option<Artwork>, backup: Option<Artwork>)
    requires Proper(st) && Drawn(st, file) && Drawn(st, backup)
  {
    && Held(st, backup).Some?
    && (st.layout.executionRows == 0
        || (file.Some? && file.value.Picture? && SamePlane(st, file.value.image, Held(st, backup).value.0)))
  }

  type Disk = Files<Artwork>

  ghost predicate AllDrawn(st: Setting, d: Disk) {
    Drawn(st, d.target) && Drawn(st, d.backup)
  }

  /** The files after a read, and what it gave. */
  datatype Reading = Reading(disk: Disk, outcome: Result<(Grid<Pixel>, Memory, nat), StoreError>)

  /** `_read_frame_unlocked`: a file that cannot be read is put away, and a compatible backup takes its
      place; the quarantine may fail, and the recovery may be cut. */
  function ReadNext(st: Setting, d: Disk, quarantines: bool, cut: Cut): (r: Reading)
    requires Proper(st) && AllDrawn(st, d)
    ensures AllDrawn(st, r.disk) && (r.outcome.Ok? ==> Held(st, r.disk.target) == Some(r.outcome.value))
  {
    var held := Held(st, d.target);
    var away := d.(target := None);
    if held.Some? then Reading(d, Ok(held.value))
    else if d.target.Some? && !quarantines then Reading(d, Err(Cancelled))
    else if !Compatible(st, d.target, d.backup) then Reading(away, Err(Corrupt))
    else
      var (recovered, end) := WriteNext(away, d.backup.value, false, cut);
      Reading(recovered, if end.Done? then Ok(Held(st, d.backup).value) else Err(Cancelled))
  }

  /** `_write_frame_unlocked`: the frame with the memory of the next generation drawn into its region. */
  function Rendered(st: Setting, image: Grid<Pixel>, m: Memory, generation: nat): (r: Result<Grid<Pixel>, StoreError>)
    requires Proper(st) && Raster.Fits(image, st.layout)
    ensures r.Ok? ==> Raster.Fits(r.value, st.layout)
  {
    var doc :- EncodeDocument(Raster.Capacity(st.target), st.sha, m, generation + 1);
    var blanked := Raster.WriteSpan(image, st.target, 0, Zeros(Raster.Capacity(st.target)));
    Ok(Raster.WriteSpan(blanked, st.target, 0, doc))
  }

  /** What may go wrong on the way of a change. */
  datatype Chances = Chances(quarantines: bool, recovery: Cut, commit: Cut)

  datatype Answer = Changed | Absent | Refused(why: StoreError)

  predicate KeysAllowed(op: DocumentLaws.Op) {
    (op.Write? ==> op.key != []) && (op.Update? ==> [] !in op.data)
  }

  /** Replace the file by a drawn frame, if the drawing succeeded. */
  function PutNext(st: Setting, d: Disk, drawn: Result<Grid<Pixel>, StoreError>, cut: Cut): (r: (Disk, Answer))
    requires Proper(st) && AllDrawn(st, d) && (drawn.Ok? ==> Raster.Fits(drawn.value, st.layout))
    ensures AllDrawn(st, r.0)
  {
    if drawn.Err? then (d, Refused(drawn.error))
    else
      var (next, end) := WriteNext(d, Picture(drawn.value), true, cut);
      (next, if end.Done? then Changed else Refused(Cancelled))
  }

  /** Draw the memory over the frame that was read and replace the file. */
  function StoreNext(st: Setting, d: Disk, image: Grid<Pixel>, m: Memory, generation: nat,
                     cut: Cut): (r: (Disk, Answer))
    requires Proper(st) && AllDrawn(st, d) && Raster.Fits(image, st.layout)
    ensures AllDrawn(st, r.0)
  {
    PutNext(st, d, Rendered(st, image, m, generation), cut)
  }

  /** `write`, `update`, `delete` and `clear`. */
  function ChangeNext(st: Setting, d: Disk, op: DocumentLaws.Op, ch: Chances): (r: (Disk, Answer))
    requires Proper(st) && AllDrawn(st, d)
    ensures AllDrawn(st, r.0)
  {
    if !KeysAllowed(op) then (d, Refused(BadKey))
    else
      var r := ReadNext(st, d, ch.quarantines, ch.recovery);
      if r.outcome.Err? then (r.disk, Refused(r.outcome.error))
      else
        var (image, m, generation) := r.outcome.value;
        var wanted := DocumentLaws.Wanted(m, op);
        if wanted.None? then (r.disk, Absent) else StoreNext(st, r.disk, image, wanted.value, generation, ch.commit)
  }

  /** The end of construction: a missing file is replaced by a blank frame with an empty memory. */
  function OpenNext(st: Setting, d: Disk, cut: Cut): (r: (Disk, Answer))
    requires Proper(st) && AllDrawn(st, d)
    ensures AllDrawn(st, r.0)
  {
    if d.target.Some? then (d, Absent) else StoreNext(st, d, Raster.BlankFrame(st.layout), map[], 0, cut)
  }

  /** The compare-and-swap test of a commit. */
  predicate ParentAgrees(file: Option<Artwork>, expected: Option<Bytes>, digest: Artwork -> Bytes) {
    expected.None? || (file.Some? && digest(file.value) == expected.value)
  }

  /** The generation a commit counts on from; an unreadable file counts as zero. */
  function StoredGeneration(st: Setting, file: Option<Artwork>): (g: nat)
    requires Proper(st) && Drawn(st, file)
  {
    var held := Held(st, file);
    if held.Some? then held.value.2 else 0
  }

  // ---------------------------------------------------------------- the store

  class PixelStore {
    const st: Setting
    /** The frame file and its backup; a PNG stores a raster without loss. */
    const folder: Folder<Artwork>

    ghost function Disk(): (d: Disk)
      reads this, folder
    {
      folder.Disk()
    }

    ghost predicate Valid()
      reads this, folder
    {
      Proper(st) && AllDrawn(st, Disk())
    }

    constructor (st: Setting, d: Disk)
      requires Proper(st) && AllDrawn(st, d)
      ensures Valid() && this.st == st && Disk() == d && fresh(folder)
    {
      this.st := st;
      folder := new Folder(d);
    }

    /** `_decode_document` of an open frame. */
    method DecodeFrame(image: Grid<Pixel>) returns (r: Result<(Memory, nat), StoreError>)
      requires Proper(st) && Raster.Fits(image, st.layout)
      ensures r == Memo(st, image)
    {
      var frame := new Frame.SpatialFrame(image, st.layout);
      var raw := frame.ReadBytes(Raster.Capacity(st.target), st.region, 0);
      r := DecodeDocument(st.sha, raw.value);
    }

    /** Open a file and decode its document. */
    method OpenHeld(a: Option<Artwork>) returns (r: Option<(Grid<Pixel>, Memory, nat)>)
      requires Proper(st) && Drawn(st, a)
      ensures r == Held(st, a)
    {
      hide DecodeDocument;
      if a.None? || a.value.Unreadable? {
        return None;
      }
      var memo := DecodeFrame(a.value.image);
      return if memo.Err? then None else Some((a.value.image, memo.value.0, memo.value.1));
    }

    /** `_read_frame_unlocked`. */
    method ReadFrame(quarantines: bool, cut: Cut) returns (r: Result<(Grid<Pixel>, Memory, nat), StoreError>)
      requires Valid()
      modifies folder
      ensures Valid() && Reading(Disk(), r) == ReadNext(st, old(Disk()), quarantines, cut)
    {
      hide Held, SamePlane;
      var held := OpenHeld(folder.target);
      if held.Some? {
        return Ok(held.value);
      }
      var recovered := OpenHeld(folder.backup);
      if recovered.Some? && st.layout.executionRows != 0 {
        if folder.target.None? || folder.target.value.Unreadable?
          || !SamePlane(st, folder.target.value.image, recovered.value.0)
        {
          recovered := None;
        }
      }
      if folder.target.Some? {
        if !quarantines {
          return Err(Cancelled);
        }
        folder.target := None;
      }
      if recovered.None? {
        return Err(Corrupt);
      }
      var end := folder.Replace(folder.backup.value, false, cut);
      return if end.Done? then Ok(recovered.value) else Err(Cancelled);
    }

    /** `_write_frame_unlocked`: blank the region of a frame and write the document there. */
    method DrawMemory(frame: Frame.SpatialFrame, m: Memory, generation: nat) returns (e: Option<StoreError>)
      requires Proper(st) && frame.Valid() && frame.layout == st.layout
      modifies frame`image, frame`dirty
      ensures frame.Valid()
      ensures match Rendered(st, old(frame.image), m, generation)
        case Ok(image) => e == None && frame.image == image
        case Err(why) => e == Some(why) && frame.image == old(frame.image)
    {
      hide EncodeDocument, Raster.WriteSpan;
      var doc := EncodeDocument(Raster.Capacity(st.target), st.sha, m, generation + 1);
      if doc.Err? {
        return Some(doc.error);
      }
      var _ := frame.WriteBytes(Zeros(Raster.Capacity(st.target)), st.region, 0);
      var _ := frame.WriteBytes(doc.value, st.region, 0);
      e := None;
    }

    /** `_write_unlocked` over the frame that was read. */
    method Store(image: Grid<Pixel>, m: Memory, generation: nat, cut: Cut) returns (a: Answer)
      requires Valid() && Raster.Fits(image, st.layout)
      modifies folder
      ensures Valid() && (Disk(), a) == StoreNext(st, old(Disk()), image, m, generation, cut)
    {
      hide Rendered;
      var frame := new Frame.SpatialFrame(image, st.layout);
      var e := DrawMemory(frame, m, generation);
      if e.Some? {
        return Refused(e.value);
      }
      var end := folder.Replace(Picture(frame.image), true, cut);
      return if end.Done? then Changed else Refused(Cancelled);
    }

    /** The end of construction. */
    method EnsureFile(cut: Cut) returns (a: Answer)
      requires Valid()
      modifies folder
      ensures Valid() && (Disk(), a) == OpenNext(st, old(Disk()), cut)
    {
      hide StoreNext;
      if folder.target.Some? {
        return Absent;
      }
      a := Store(Raster.BlankFrame(st.layout), map[], 0, cut);
    }

    /** `write`. */
    method Write(key: Text, value: Value, ch: Chances) returns (a: Answer)
      requires Valid()
      modifies folder
      ensures Valid() && (Disk(), a) == ChangeNext(st, old(Disk()), DocumentLaws.Write(key, value), ch)
    {
      hide StoreNext, ReadNext;
      if key == [] {
        return Refused(BadKey);
      }
      var r := ReadFrame(ch.quarantines, ch.recovery);
      if r.Err? {
        return Refused(r.error);
      }
      a := Store(r.value.0, r.value.1[key := value], r.value.2, ch.commit);
    }

    /** `update`. */
    method Update(data: Memory, ch: Chances) returns (a: Answer)
      requires Valid()
      modifies folder
      ensures Valid() && (Disk(), a) == ChangeNext(st, old(Disk()), DocumentLaws.Update(data), ch)
    {
      hide StoreNext, ReadNext;
      if [] in data {
        return Refused(BadKey);
      }
      var r := ReadFrame(ch.quarantines, ch.recovery);
      if r.Err? {
        return Refused(r.error);
      }
      a := Store(r.value.0, r.value.1 + data, r.value.2, ch.commit);
    }

    /** `delete`. */
    method Delete(key: Text, ch: Chances) returns (a: Answer)
      requires Valid()
      modifies folder
      ensures Valid() && (Disk(), a) == ChangeNext(st, old(Disk()), DocumentLaws.Delete(key), ch)
    {
      hide StoreNext, ReadNext;
      var r := ReadFrame(ch.quarantines, ch.recovery);
      if r.Err? {
        return Refused(r.error);
      }
      if key !in r.value.1 {
        return Absent;
      }
      a := Store(r.value.0, r.value.1 - {key}, r.value.2, ch.commit);
    }

    /** `clear`. */
    method Clear(ch: Chances) returns (a: Answer)
      requires Valid()
      modifies folder
      ensures Valid() && (Disk(), a) == ChangeNext(st, old(Disk()), DocumentLaws.Clear, ch)
    {
      hide StoreNext, ReadNext;
      var r := ReadFrame(ch.quarantines, ch.recovery);
      if r.Err? {
        return Refused(r.error);
      }
      a := Store(r.value.0, map[], r.value.2, ch.commit);
    }

    /** `read`. */
    method Read(key: Text, quarantines: bool, cut: Cut) returns (v: Result<Option<Value>, StoreError>)
      requires Valid()
      modifies folder
      ensures Valid()
      ensures var r := ReadNext(st, old(Disk()), quarantines, cut);
        && Disk() == r.disk
        && v == if r.outcome.Err? then Err(r.outcome.error)
                else Ok(if key in r.outcome.value.1 then Some(r.outcome.value.1[key]) else None)
    {
      hide ReadNext;
      var r := ReadFrame(quarantines, cut);
      if r.Err? {
        return Err(r.error);
      }
      return Ok(if key in r.value.1 then Some(r.value.1[key]) else None);
    }

    /** `commit_snapshot`: the resident frame with the memory drawn into it replaces the file, if the
        file still has the expected digest. A cut leaves the frame drawn and the file as the cut says. */
    method CommitSnapshot(frame: Frame.SpatialFrame, m: Memory, expected: Option<Bytes>, digest: Artwork -> Bytes,
                          cut: Cut)
      returns (r: Result<Bytes, StoreError>)
      requires Valid() && frame.Valid() && frame.layout == st.layout
      modifies folder, frame`image, frame`dirty
      ensures Valid() && frame.Valid()
      ensures !ParentAgrees(old(folder.target), expected, digest) ==>
        r == Err(ParentChanged) && Disk() == old(Disk()) && frame.image == old(frame.image)
      ensures ParentAgrees(old(folder.target), expected, digest) ==>
        match Rendered(st, old(frame.image), m, StoredGeneration(st, old(folder.target)))
        case Err(why) => r == Err(why) && Disk() == old(Disk()) && frame.image == old(frame.image)
        case Ok(image) =>
          && frame.image == image && Disk() == WriteNext(old(Disk()), Picture(image), true, cut).0
          && r == if cut.point.Nowhere? then Ok(digest(Picture(image))) else Err(Cancelled)
      ensures r.Ok? && expected.Some? ==> old(folder.target).Some? && digest(old(folder.target).value) == expected.value
      ensures r.Ok? ==> folder.target == Some(Picture(frame.image)) && r.value == digest(folder.target.value)
    {
      hide Rendered, Held;
      if expected.Some? && (folder.target.None? || digest(folder.target.value) != expected.value) {
        return Err(ParentChanged);
      }
      var held := OpenHeld(folder.target);
      var e := DrawMemory(frame, m, if held.Some? then held.value.2 else 0);
      if e.Some? {
        return Err(e.value);
      }
      var end := folder.Replace(Picture(frame.image), true, cut);
      return if end.Done? then Ok(digest(Picture(frame.image))) else Err(Cancelled);
    }

    /** `load_resident_snapshot`. */
    method LoadResident(digest: Artwork -> Bytes, quarantines: bool, cut: Cut)
      returns (r: Result<(Grid<Pixel>, Memory, nat, Bytes), StoreError>)
      requires Valid()
      modifies folder
      ensures Valid()
      ensures var now := ReadNext(st, old(Disk()), quarantines, cut);
        && Disk() == now.disk && (r.Ok? <==> now.outcome.Ok?)
        && (r.Ok? ==> (r.value.0, r.value.1, r.value.2) == now.outcome.value)
        && (r.Ok? ==> r.value.3 == digest(now.disk.target.value))
    {
      hide ReadNext;
      var now := ReadFrame(quarantines, cut);
      if now.Err? {
        return Err(now.error);
      }
      return Ok((now.value.0, now.value.1, now.value.2, digest(folder.target.value)));
    }
  }
}
