/** What a store holds over whole histories of changes, reads and reopenings, cut anywhere. */
module SpatialStoreLaws {
  import opened Basics
  import opened Codec
  import opened Document
  import opened AtomicFile
  import opened Isa
  import opened SpatialStore
  import Raster
  import DocumentLaws
  import CodecLaws
  import CodecSizes
  import Lex

  /** Blanking the region and writing a document leaves the document followed by zeros. */
  lemma TwoWrites(image: Grid<Pixel>, r: Raster.Region, doc: Bytes)
    requires image.Rectangular() && r.Inside(image.width, |image.rows|) && |doc| <= Raster.Capacity(r)
    ensures var n := Raster.Capacity(r);
      var blanked := Raster.WriteSpan(image, r, 0, Zeros(n));
      Raster.ReadSpan(Raster.WriteSpan(blanked, r, 0, doc), r, 0, n) == Splice(Zeros(n), 0, doc)
  {
    hide Raster.WriteSpan, Raster.ReadSpan;
    var n := Raster.Capacity(r);
    Raster.ReadAfterWrite(image, r, 0, Zeros(n));
    Raster.ReadAfterWrite(Raster.WriteSpan(image, r, 0, Zeros(n)), r, 0, doc);
    var before := Raster.ReadSpan(image, r, 0, n);
    assert before[..0] + Zeros(n) + before[n..] == Zeros(n);
  }

  /** The document of the next generation exists exactly when there is room, and reads back. */
  lemma DocumentRead(sha: Hash, n: nat, m: Memory, generation: nat)
    requires HEADER_SIZE < n < U32
    ensures var doc := EncodeDocument(n, sha, m, generation + 1);
      && (doc.Ok? <==> DocumentLaws.Room(n, m, generation))
      && (doc.Ok? ==> DecodeDocument(sha, Splice(Zeros(n), 0, doc.value)) == Ok((m, generation + 1)))
  {
    hide DecodeDocument, EncodeDocument, Encode;
    DocumentLaws.CommitWhen(sha, Zeros(n), m, generation);
    if Commit(sha, Zeros(n), m, generation).Ok? {
      DocumentLaws.CommitReads(sha, Zeros(n), m, generation);
    }
  }

  /** What was read from a region fits it. */
  lemma ReadHasRoom(sha: Hash, raw: Bytes, m: Memory, generation: nat)
    requires |raw| >= HEADER_SIZE && DecodeDocument(sha, raw) == Ok((m, generation)) && m != map[]
    ensures Encode(Dict(m)).Ok? && HEADER_SIZE + |Encode(Dict(m)).value| <= |raw|
  {
    hide Encode, Decode;
    var payload := raw[HEADER_SIZE..HEADER_SIZE + Field(raw, 20, 4)];
    CodecLaws.ReencodeAccepted(payload, 0);
  }

  /** Deleting from a memory that was read always fits; only the generation can run out. */
  lemma RemovalHasRoom(sha: Hash, raw: Bytes, m: Memory, generation: nat, key: Text)
    requires |raw| >= HEADER_SIZE && DecodeDocument(sha, raw) == Ok((m, generation)) && key in m
    ensures DocumentLaws.Room(|raw|, m - {key}, generation) <==> generation + 1 < U64
  {
    hide DecodeDocument, Encode;
    ReadHasRoom(sha, raw, m, generation);
    CodecSizes.RemoveShrinks(m, key);
  }

  lemma NothingIsFive()
    ensures Encode(Dict(map[])).Ok? && |Encode(Dict(map[])).value| == 5
  {
    Lex.NothingSorted();
  }

  /** No cell outside the region changed. */
  ghost predicate OnlyRegion(a: Grid<Pixel>, b: Grid<Pixel>, r: Raster.Region) {
    && a.Rectangular() && b.Rectangular() && a.width == b.width && |a.rows| == |b.rows|
    && forall y, x :: 0 <= y < |a.rows| && 0 <= x < a.width && !r.Contains(x, y) ==> a.rows[y][x] == b.rows[y][x]
  }

  /** Drawing succeeds exactly when there is room, is read back, and touches nothing outside the region. */
  lemma RenderedReads(st: Setting, image: Grid<Pixel>, m: Memory, generation: nat)
    requires Proper(st) && Raster.Fits(image, st.layout)
    ensures var r := Rendered(st, image, m, generation);
      && (r.Ok? <==> DocumentLaws.Room(Raster.Capacity(st.target), m, generation))
      && (r.Ok? ==> Memo(st, r.value) == Ok((m, generation + 1)) && OnlyRegion(image, r.value, st.target))
  {
    hide DecodeDocument, EncodeDocument, DocumentLaws.Room;
    var n := Raster.Capacity(st.target);
    Raster.CapacityBounded(st.layout, st.region);
    DocumentRead(st.sha, n, m, generation);
    var doc := EncodeDocument(n, st.sha, m, generation + 1);
    if doc.Ok? {
      TwoWrites(image, st.target, doc.value);
    }
  }

  /** A key of what a file holds can be removed as long as there are generations left. */
  lemma HeldRemoval(st: Setting, a: Option<Artwork>, key: Text)
    requires Proper(st) && Drawn(st, a) && Held(st, a).Some? && key in Held(st, a).value.1
    ensures var (image, m, generation) := Held(st, a).value;
      && Raster.Fits(image, st.layout)
      && (DocumentLaws.Room(Raster.Capacity(st.target), m - {key}, generation) <==> generation + 1 < U64)
  {
    hide DecodeDocument, DocumentLaws.Room;
    var (image, m, generation) := Held(st, a).value;
    RemovalHasRoom(st.sha, Raster.ReadSpan(image, st.target, 0, Raster.Capacity(st.target)), m, generation, key);
  }

  // ---------------------------------------------------------------- what is loaded and what is recovered

  /** What a commit left is loaded: that memory, the next generation, and the resident frame's cells
      outside the region. */
  lemma CommittedIsLoaded(st: Setting, image: Grid<Pixel>, m: Memory, generation: nat, d: Disk, q: bool, cut: Cut)
    requires Proper(st) && AllDrawn(st, d) && Raster.Fits(image, st.layout) && Rendered(st, image, m, generation).Ok?
    requires d.target == Some(Picture(Rendered(st, image, m, generation).value))
    ensures var r := ReadNext(st, d, q, cut);
      && r.disk == d && r.outcome.Ok? && (r.outcome.value.1, r.outcome.value.2) == (m, generation + 1)
      && OnlyRegion(image, r.outcome.value.0, st.target)
  {
    hide DecodeDocument, Rendered;
    RenderedReads(st, image, m, generation);
  }

  /** A snapshot is committed under the generation after the one the file holds; over a file that is missing
      or cannot be read it is the first. */
  lemma SnapshotGeneration(st: Setting, file: Option<Artwork>, image: Grid<Pixel>, m: Memory)
    requires Proper(st) && Drawn(st, file) && Raster.Fits(image, st.layout)
    ensures var r := Rendered(st, image, m, StoredGeneration(st, file));
      r.Ok? ==> Memo(st, r.value) == Ok((m, if Held(st, file).Some? then Held(st, file).value.2 + 1 else 1))
  {
    hide Memo, Rendered;
    RenderedReads(st, image, m, StoredGeneration(st, file));
  }

  /** Rasters that agree outside a data region have the same executable rows. */
  lemma PlaneUntouched(st: Setting, a: Grid<Pixel>, b: Grid<Pixel>)
    requires Proper(st) && st.region != Some("execution") && Raster.Fits(a, st.layout) && Raster.Fits(b, st.layout)
    requires OnlyRegion(a, b, st.target)
    ensures SamePlane(st, a, b)
  {
    hide Raster.Place, Raster.Index;
    var plane := Raster.Execution(st.layout);
    var n := Raster.Capacity(plane);
    forall k | 0 <= k < n ensures Raster.ByteAt(a, plane, k) == Raster.ByteAt(b, plane, k) {
      Raster.IndexOfPlace(plane, k);
    }
    assert st.layout.executionRows != 0 ==> Raster.ReadSpan(a, plane, 0, n) == Raster.ReadSpan(b, plane, 0, n);
  }

  lemma OnlyRegionJoins(a: Grid<Pixel>, b: Grid<Pixel>, c: Grid<Pixel>, r: Raster.Region)
    requires OnlyRegion(a, b, r) && OnlyRegion(b, c, r)
    ensures OnlyRegion(a, c, r) && OnlyRegion(c, a, r)
  {
  }

  /** After a committed change, damage confined to the region costs exactly that change: the next read
      recovers the memory, generation and raster from before it. */
  lemma DamagedRegionFallsBack(st: Setting, d: Disk, wanted: Memory, damaged: Grid<Pixel>)
    requires Proper(st) && st.region != Some("execution") && AllDrawn(st, d) && Held(st, d.target).Some?
    requires Rendered(st, Held(st, d.target).value.0, wanted, Held(st, d.target).value.2).Ok?
    requires Raster.Fits(damaged, st.layout) && Memo(st, damaged).Err?
    requires OnlyRegion(Rendered(st, Held(st, d.target).value.0, wanted, Held(st, d.target).value.2).value, damaged,
      st.target)
    ensures var (image, m, g) := Held(st, d.target).value;
      var after := StoreNext(st, d, image, wanted, g, UNCUT).0;
      ReadNext(st, after.(target := Some(Picture(damaged))), true, UNCUT).outcome == Ok((image, m, g))
  {
    hide DecodeDocument, SamePlane, OnlyRegion, Rendered;
    var (image, m, g) := Held(st, d.target).value;
    RenderedReads(st, image, wanted, g);
    OnlyRegionJoins(image, Rendered(st, image, wanted, g).value, damaged, st.target);
    PlaneUntouched(st, damaged, image);
  }

  /** What a file's executable rows hash to. */
  function PlaneDigest(st: Setting, image: Grid<Pixel>): (d: Bytes)
    requires Proper(st) && Raster.Fits(image, st.layout) && st.layout.executionRows > 0
  {
    var plane := Raster.Execution(st.layout);
    Raster.IndexOfPlace(plane, 0);
    st.sha(Raster.ReadSpan(image, plane, 0, Raster.Capacity(plane)))
  }

  /** The backup holds the same program as a file that still opens. */
  ghost predicate SameProgram(st: Setting, d: Disk)
    requires Proper(st) && AllDrawn(st, d)
  {
    st.layout.executionRows == 0 ||
    (d.target.Some? && d.target.value.Picture? && d.backup.Some? && d.backup.value.Picture?
      && PlaneDigest(st, d.target.value.image) == PlaneDigest(st, d.backup.value.image))
  }

  /** A read gives what the file holds; if it holds nothing it gives what the backup holds, exactly when
      the damaged file could be put away, the backup holds the same program, and the recovery is not cut. */
  lemma ReadGivesExactlyWhen(st: Setting, d: Disk, quarantines: bool, cut: Cut)
    requires Proper(st) && AllDrawn(st, d)
    ensures var r, file, backup := ReadNext(st, d, quarantines, cut).outcome, Held(st, d.target), Held(st, d.backup);
      && (file.Some? ==> r == Ok(file.value))
      && (file.None? ==>
           (r.Ok? <==>
             && backup.Some? && SameProgram(st, d) && cut.point.Nowhere?
             && (d.target.Some? ==> quarantines)))
      && (file.None? && r.Ok? ==> r == Ok(backup.value))
  {
    hide Memo;
  }

  /** What one key holds after a change. */
  function KeyAfter(op: DocumentLaws.Op, key: Text, before: Option<Value>): (after: Option<Value>) {
    match op
    case Write(k, v) => if key == k then Some(v) else before
    case Update(data) => if key in data then Some(data[key]) else before
    case Delete(k) => if key == k then None else before
    case Clear => None
  }

  /** A change that reports success is what the next read finds, key by key: the next generation, the
      cells outside the region as they were, and every key as the change says. */
  lemma ChangeThenRead(st: Setting, d: Disk, op: DocumentLaws.Op, ch: Chances, key: Text)
    requires Proper(st) && AllDrawn(st, d) && ChangeNext(st, d, op, ch).1 == Changed
    ensures var before := ReadNext(st, d, ch.quarantines, ch.recovery).outcome;
      var after := ReadNext(st, ChangeNext(st, d, op, ch).0, true, UNCUT).outcome;
      && before.Ok? && after.Ok? && after.value.2 == before.value.2 + 1
      && Lookup(after.value.1, key) == KeyAfter(op, key, Lookup(before.value.1, key))
      && OnlyRegion(before.value.0, after.value.0, st.target)
  {
    hide Memo, Rendered, OnlyRegion, SamePlane;
    var r := ReadNext(st, d, ch.quarantines, ch.recovery);
    var (image, m, g) := r.outcome.value;
    var wanted := DocumentLaws.Wanted(m, op).value;
    RenderedReads(st, image, wanted, g);
    var drawn := Rendered(st, image, wanted, g);
    assert drawn.Ok? && ChangeNext(st, d, op, ch).0.target == Some(Picture(drawn.value));
    CommittedIsLoaded(st, image, wanted, g, ChangeNext(st, d, op, ch).0, true, UNCUT);
  }

  /** A change is refused without one exactly for a bad key, a failed read, no room, or a cut; deleting
      what is not there changes nothing. */
  lemma ChangedExactlyWhen(st: Setting, d: Disk, op: DocumentLaws.Op, ch: Chances)
    requires Proper(st) && AllDrawn(st, d)
    ensures var before := ReadNext(st, d, ch.quarantines, ch.recovery).outcome;
      ChangeNext(st, d, op, ch).1 == Changed <==>
        && KeysAllowed(op) && before.Ok? && (op.Delete? ==> op.key in before.value.1)
        && DocumentLaws.Room(Raster.Capacity(st.target), DocumentLaws.Wanted(before.value.1, op).value, before.value.2)
        && ch.commit.point.Nowhere?
  {
    hide Memo, Rendered, OnlyRegion, SamePlane, DocumentLaws.Room, ReadNext;
    var r := ReadNext(st, d, ch.quarantines, ch.recovery);
    if KeysAllowed(op) && r.outcome.Ok? && DocumentLaws.Wanted(r.outcome.value.1, op).Some? {
      var (image, m, g) := r.outcome.value;
      RenderedReads(st, image, DocumentLaws.Wanted(m, op).value, g);
    }
  }

  // ---------------------------------------------------------------- the store as a map

  /** A map with a generation and the cells around it; torn when the file is missing and only the
      backup has it. */
  datatype View = Whole(base: Grid<Pixel>, m: Memory, g: nat) | Torn(base: Grid<Pixel>, m: Memory, g: nat)

  ghost predicate Holds(st: Setting, a: Option<Artwork>, v: View)
    requires Proper(st) && Drawn(st, a)
  {
    var held := Held(st, a);
    held.Some? && (held.value.1, held.value.2) == (v.m, v.g) && OnlyRegion(v.base, held.value.0, st.target)
  }

  ghost predicate Represents(st: Setting, d: Disk, v: View)
    requires Proper(st)
  {
    && AllDrawn(st, d)
    && (v.Whole? ==> Holds(st, d.target, v))
    && (v.Torn? ==> d.target.None? && Holds(st, d.backup, v))
  }

  datatype Event = Changes(op: DocumentLaws.Op, ch: Chances) | Reads(quarantines: bool, cut: Cut) | Opens(cut: Cut)

  function Apply(st: Setting, d: Disk, e: Event): (next: Disk)
    requires Proper(st) && AllDrawn(st, d)
    ensures AllDrawn(st, next)
  {
    match e
    case Changes(op, ch) => ChangeNext(st, d, op, ch).0
    case Reads(quarantines, cut) => ReadNext(st, d, quarantines, cut).disk
    case Opens(cut) => OpenNext(st, d, cut).0
  }

  /** An empty memory fits the region. */
  predicate EmptyFits(st: Setting) {
    HEADER_SIZE + 5 <= Raster.Capacity(st.target)
  }

  /** A read mends a torn store if there are no executable rows and it gets as far as its rename. */
  function ReadView(st: Setting, v: View, cut: Cut): (w: View) {
    if v.Torn? && st.layout.executionRows == 0 && Renames(cut) then Whole(v.base, v.m, v.g) else v
  }

  /** A change commits, tears the store, or leaves it. */
  function StoreView(st: Setting, v: View, op: DocumentLaws.Op, cut: Cut): (w: View)
    requires Proper(st)
  {
    var wanted := DocumentLaws.Wanted(v.m, op);
    if wanted.None? || !DocumentLaws.Room(Raster.Capacity(st.target), wanted.value, v.g) then v
    else if Renames(cut) then Whole(v.base, wanted.value, v.g + 1)
    else if Tears(cut) then Torn(v.base, v.m, v.g)
    else v
  }

  /** The read at the head of a change went through. */
  predicate Proceeds(st: Setting, v: View, op: DocumentLaws.Op, ch: Chances) {
    KeysAllowed(op) && (v.Whole? || (st.layout.executionRows == 0 && ch.recovery.point.Nowhere?))
  }

  function EventView(st: Setting, v: View, e: Event): (w: View)
    requires Proper(st)
  {
    match e
    case Changes(op, ch) =>
      if !KeysAllowed(op) then v
      else if Proceeds(st, v, op, ch) then StoreView(st, ReadView(st, v, ch.recovery), op, ch.commit)
      else ReadView(st, v, ch.recovery)
    case Reads(_, cut) => ReadView(st, v, cut)
    case Opens(cut) => if Blanks(st, v, cut) then Whole(Raster.BlankFrame(st.layout), map[], 1) else v
  }

  /** Reopening a torn store writes an empty memory over it. */
  predicate Blanks(st: Setting, v: View, cut: Cut) {
    v.Torn? && EmptyFits(st) && Renames(cut)
  }

  /** A read gives what the store holds, and fails only on a torn store that it does not mend. */
  lemma ReadRefines(st: Setting, d: Disk, v: View, quarantines: bool, cut: Cut)
    requires Proper(st) && Represents(st, d, v)
    ensures var r := ReadNext(st, d, quarantines, cut);
      && Represents(st, r.disk, ReadView(st, v, cut))
      && (r.outcome.Ok? <==> v.Whole? || (st.layout.executionRows == 0 && cut.point.Nowhere?))
      && (r.outcome.Ok? ==> Held(st, r.disk.target) == Some(r.outcome.value) && Holds(st, r.disk.target, v))
  {
    hide Memo, SamePlane, OnlyRegion;
  }

  lemma StoreRefines(st: Setting, d: Disk, v: View, op: DocumentLaws.Op, cut: Cut)
    requires Proper(st) && Represents(st, d, v) && v.Whole? && DocumentLaws.Wanted(v.m, op).Some?
    ensures var (image, m, g) := Held(st, d.target).value;
      Represents(st, StoreNext(st, d, image, DocumentLaws.Wanted(v.m, op).value, g, cut).0, StoreView(st, v, op, cut))
  {
    hide DecodeDocument, SamePlane, OnlyRegion, Rendered, DocumentLaws.Wanted, DocumentLaws.Room;
    var (image, m, g) := Held(st, d.target).value;
    var wanted := DocumentLaws.Wanted(v.m, op).value;
    RenderedReads(st, image, wanted, g);
    if Rendered(st, image, wanted, g).Ok? {
      OnlyRegionJoins(v.base, image, Rendered(st, image, wanted, g).value, st.target);
    }
  }

  lemma ChangeRefines(st: Setting, d: Disk, v: View, op: DocumentLaws.Op, ch: Chances)
    requires Proper(st) && Represents(st, d, v)
    ensures Represents(st, ChangeNext(st, d, op, ch).0, EventView(st, v, Changes(op, ch)))
  {
    hide Represents, StoreNext, ReadNext, StoreView, DocumentLaws.Wanted, Held;
    if KeysAllowed(op) {
      RepresentsDrawn(st, d, v);
      ReadRefines(st, d, v, ch.quarantines, ch.recovery);
      var r := ReadNext(st, d, ch.quarantines, ch.recovery);
      if r.outcome.Ok? {
        var w := ReadView(st, v, ch.recovery);
        if DocumentLaws.Wanted(w.m, op).Some? {
          StoreRefines(st, r.disk, w, op, ch.commit);
        } else {
          NothingWanted(st, w, op, ch.commit);
        }
      }
    }
  }

  lemma RepresentsDrawn(st: Setting, d: Disk, v: View)
    requires Proper(st) && Represents(st, d, v)
    ensures AllDrawn(st, d)
  {
  }

  lemma NothingWanted(st: Setting, v: View, op: DocumentLaws.Op, cut: Cut)
    requires Proper(st) && DocumentLaws.Wanted(v.m, op).None?
    ensures StoreView(st, v, op, cut) == v
  {
  }

  lemma OpenRefines(st: Setting, d: Disk, v: View, cut: Cut)
    requires Proper(st) && Represents(st, d, v)
    ensures Represents(st, OpenNext(st, d, cut).0, EventView(st, v, Opens(cut)))
  {
    hide DecodeDocument, SamePlane, OnlyRegion, Rendered, Encode;
    var blank := Raster.BlankFrame(st.layout);
    RenderedReads(st, blank, map[], 0);
    NothingIsFive();
  }

  lemma EventRefines(st: Setting, d: Disk, v: View, e: Event)
    requires Proper(st) && Represents(st, d, v)
    ensures AllDrawn(st, d) && Represents(st, Apply(st, d, e), EventView(st, v, e))
  {
    hide Represents, ChangeNext, ReadNext, OpenNext, EventView;
    RepresentsDrawn(st, d, v);
    match e
    case Changes(op, ch) => ChangeRefines(st, d, v, op, ch);
    case Reads(quarantines, cut) =>
      ReadRefines(st, d, v, quarantines, cut);
      ReadEvent(st, v, e);
    case Opens(cut) => OpenRefines(st, d, v, cut);
  }

  lemma ReadEvent(st: Setting, v: View, e: Event)
    requires Proper(st) && e.Reads?
    ensures EventView(st, v, e) == ReadView(st, v, e.cut)
  {
  }

  // ---------------------------------------------------------------- histories

  function Run(st: Setting, d: Disk, h: seq<Event>): (next: Disk)
    requires Proper(st) && AllDrawn(st, d)
    ensures AllDrawn(st, next)
  {
    if h == [] then d else Apply(st, Run(st, d, h[..|h| - 1]), h[|h| - 1])
  }

  function RunView(st: Setting, v: View, h: seq<Event>): (w: View)
    requires Proper(st)
  {
    if h == [] then v else EventView(st, RunView(st, v, h[..|h| - 1]), h[|h| - 1])
  }

  /** Over every history of changes, reads and reopenings, each cut anywhere, the files hold what the
      map with its generation and its surrounding cells says. */
  lemma {:induction false} RunRefines(st: Setting, d: Disk, v: View, h: seq<Event>)
    requires Proper(st) && Represents(st, d, v)
    ensures AllDrawn(st, d) && Represents(st, Run(st, d, h), RunView(st, v, h))
  {
    hide Represents, Apply, EventView;
    RepresentsDrawn(st, d, v);
    if h != [] {
      RunRefines(st, d, v, h[..|h| - 1]);
      EventRefines(st, Run(st, d, h[..|h| - 1]), RunView(st, v, h[..|h| - 1]), h[|h| - 1]);
    }
  }

  /** Nothing is cut. */
  predicate Smooth(e: Event) {
    match e
    case Changes(_, ch) => ch.commit.point.Nowhere?
    case _ => true
  }

  /** The same history on a plain map with a counter and a size limit. */
  function MapRun(capacity: nat, s: (Memory, nat), h: seq<Event>): (t: (Memory, nat)) {
    if h == [] then s else
      var before, e := MapRun(capacity, s, h[..|h| - 1]), h[|h| - 1];
      if e.Changes? then DocumentLaws.OnMap(capacity, before, e.op) else before
  }

  lemma SmoothChange(st: Setting, v: View, e: Event)
    requires Proper(st) && v.Whole? && Smooth(e)
    ensures EventView(st, v, e) ==
      if e.Changes? then
        var (m, g) := DocumentLaws.OnMap(Raster.Capacity(st.target), (v.m, v.g), e.op); Whole(v.base, m, g)
      else v
  {
    hide DocumentLaws.Room;
  }

  lemma {:induction false} SmoothRun(st: Setting, v: View, h: seq<Event>)
    requires Proper(st) && v.Whole? && forall e :: e in h ==> Smooth(e)
    ensures var (m, g) := MapRun(Raster.Capacity(st.target), (v.m, v.g), h); RunView(st, v, h) == Whole(v.base, m, g)
  {
    hide EventView, DocumentLaws.OnMap;
    if h != [] {
      assert h[|h| - 1] in h;
      SmoothRun(st, v, h[..|h| - 1]);
      var w := RunView(st, v, h[..|h| - 1]);
      assert MapRun(Raster.Capacity(st.target), (v.m, v.g), h[..|h| - 1]) == (w.m, w.g);
      SmoothChange(st, w, h[|h| - 1]);
    }
  }

  /** Over every uncut history on a readable file, the file holds the plain map that the same changes
      give, the generation counts the committed ones, and every cell outside the region is the one that
      was there at first. */
  lemma StoreIsMap(st: Setting, d: Disk, h: seq<Event>)
    requires Proper(st) && AllDrawn(st, d) && Held(st, d.target).Some? && forall e :: e in h ==> Smooth(e)
    ensures var (image, m, g) := Held(st, d.target).value; var held := Held(st, Run(st, d, h).target);
      && held.Some? && (held.value.1, held.value.2) == MapRun(Raster.Capacity(st.target), (m, g), h)
      && OnlyRegion(image, held.value.0, st.target)
  {
    var (image, m, g) := Held(st, d.target).value;
    var v := Whole(image, m, g);
    hide Run, RunView, MapRun, Held, Smooth, OnlyRegion;
    RegionItself(st, d);
    RunRefines(st, d, v, h);
    SmoothRun(st, v, h);
  }

  lemma RegionItself(st: Setting, d: Disk)
    requires Proper(st) && AllDrawn(st, d) && Held(st, d.target).Some?
    ensures var (image, m, g) := Held(st, d.target).value; Represents(st, d, Whole(image, m, g))
  {
    hide DecodeDocument;
  }

  // ---------------------------------------------------------------- cut commits

  /** The final rename of a change happened. */
  predicate Commits(st: Setting, v: View, e: Event)
    requires Proper(st)
  {
    e.Changes? && Proceeds(st, v, e.op, e.ch) && Renames(e.ch.commit) &&
    var wanted := DocumentLaws.Wanted(v.m, e.op);
    wanted.Some? && DocumentLaws.Room(Raster.Capacity(st.target), wanted.value, v.g)
  }

  /** The memory and generation of the last committed change. */
  function Last(st: Setting, v: View, h: seq<Event>): (s: (Memory, nat))
    requires Proper(st)
  {
    if h == [] then (v.m, v.g) else
      var before, e := RunView(st, v, h[..|h| - 1]), h[|h| - 1];
      if Commits(st, before, e) then (DocumentLaws.Wanted(before.m, e.op).value, before.g + 1)
      else Last(st, v, h[..|h| - 1])
  }

  /** A reopening that writes an empty memory over something else. */
  predicate Loses(st: Setting, v: View, e: Event) {
    e.Opens? && Blanks(st, v, e.cut) && (v.m, v.g) != (map[], 1)
  }

  ghost predicate NothingLost(st: Setting, v: View, h: seq<Event>)
    requires Proper(st)
  {
    h == [] || (NothingLost(st, v, h[..|h| - 1]) && !Loses(st, RunView(st, v, h[..|h| - 1]), h[|h| - 1]))
  }

  /** What the files hold: the file, or the backup of a missing one. */
  function Found(st: Setting, d: Disk): (s: Option<(Memory, nat)>)
    requires Proper(st) && AllDrawn(st, d)
  {
    var held := Held(st, if d.target.None? then d.backup else d.target);
    if held.Some? then Some((held.value.1, held.value.2)) else None
  }

  lemma RepresentedIsFound(st: Setting, d: Disk, v: View)
    requires Proper(st) && Represents(st, d, v)
    ensures AllDrawn(st, d) && Found(st, d) == Some((v.m, v.g))
  {
    hide Memo, OnlyRegion;
  }

  /** At every moment of the history the files hold the last committed change. */
  ghost predicate KeptThroughout(st: Setting, d: Disk, v: View, h: seq<Event>)
    requires Proper(st) && AllDrawn(st, d)
  {
    Found(st, Run(st, d, h)) == Some(Last(st, v, h)) && (h == [] || KeptThroughout(st, d, v, h[..|h| - 1]))
  }

  /** An event changes what is held exactly by committing or by losing. */
  lemma EventHolds(st: Setting, v: View, e: Event)
    requires Proper(st)
    ensures var w := EventView(st, v, e);
      if Commits(st, v, e) then (w.m, w.g) == (DocumentLaws.Wanted(v.m, e.op).value, v.g + 1)
      else (w.m, w.g) == (v.m, v.g) <==> !Loses(st, v, e)
    ensures Commits(st, v, e) ==> !Loses(st, v, e)
  {
    hide DocumentLaws.Room;
  }

  lemma {:induction false} KeptView(st: Setting, d: Disk, v: View, h: seq<Event>)
    requires Proper(st) && Represents(st, d, v) && AllDrawn(st, d)
    ensures Found(st, Run(st, d, h)) == Some((RunView(st, v, h).m, RunView(st, v, h).g))
  {
    hide Represents, Found, Run, RunView;
    RunRefines(st, d, v, h);
    RepresentedIsFound(st, Run(st, d, h), RunView(st, v, h));
  }

  /** Over every history of changes, reads and reopenings, cut anywhere, the files hold the last
      committed change at every moment, exactly when no store is reopened while a torn commit has left
      its file missing, unless what is wiped was a first empty memory. */
  lemma {:induction false} KeptExactlyWhen(st: Setting, d: Disk, v: View, h: seq<Event>)
    requires Proper(st) && Represents(st, d, v) && AllDrawn(st, d)
    ensures KeptThroughout(st, d, v, h) <==> NothingLost(st, v, h)
  {
    hide Represents, Found, Run, Commits, Loses, EventView;
    KeptView(st, d, v, h);
    if h != [] {
      var before := h[..|h| - 1];
      KeptExactlyWhen(st, d, v, before);
      KeptView(st, d, v, before);
      EventHolds(st, RunView(st, v, before), h[|h| - 1]);
      if NothingLost(st, v, before) {
        KeptLast(st, d, v, before);
      }
    }
  }

  lemma KeptLast(st: Setting, d: Disk, v: View, h: seq<Event>)
    requires Proper(st) && AllDrawn(st, d) && KeptThroughout(st, d, v, h)
    ensures Found(st, Run(st, d, h)) == Some(Last(st, v, h))
  {
    hide Found, Run, Last;
  }

  /** With the file missing, a read by a store that is still open recovers the memory exactly when
      there are no executable rows. */
  lemma TornReadRecovers(st: Setting, d: Disk, v: View)
    requires Proper(st) && Represents(st, d, v) && v.Torn? && AllDrawn(st, d)
    ensures var r := ReadNext(st, d, true, UNCUT).outcome;
      && (r.Ok? <==> st.layout.executionRows == 0)
      && (r.Ok? ==> (r.value.1, r.value.2) == (v.m, v.g))
  {
    hide ReadNext, Represents, Held;
    ReadRefines(st, d, v, true, UNCUT);
  }

  /** A store that is reopened there never recovers: it reads an empty memory of the first generation,
      or, if not even that fits, stays without a file. */
  lemma TornReopenBlanks(st: Setting, d: Disk, v: View)
    requires Proper(st) && Represents(st, d, v) && v.Torn? && AllDrawn(st, d)
    ensures var (after, a) := OpenNext(st, d, UNCUT); var r := ReadNext(st, after, true, UNCUT).outcome;
      if EmptyFits(st) then a == Changed && r.Ok? && (r.value.1, r.value.2) == (map[], 1) else a.Refused? && after == d
  {
    hide ReadNext, Represents, Held, Rendered, Encode, DocumentLaws.Room;
    RenderedReads(st, Raster.BlankFrame(st.layout), map[], 0);
    EmptyHasRoom(st);
    OpenRefines(st, d, v, UNCUT);
    var after := OpenNext(st, d, UNCUT).0;
    ReadRefines(st, after, EventView(st, v, Opens(UNCUT)), true, UNCUT);
    RepresentsTarget(st, d, v);
  }

  lemma EmptyHasRoom(st: Setting)
    requires Proper(st)
    ensures DocumentLaws.Room(Raster.Capacity(st.target), map[], 0) <==> EmptyFits(st)
  {
    hide Encode;
    NothingIsFive();
  }

  lemma RepresentsTarget(st: Setting, d: Disk, v: View)
    requires Proper(st) && Represents(st, d, v) && v.Torn?
    ensures d.target.None?
  {
  }

  /** So every store that holds anything can lose it: tear any change that has room, and reopen. */
  lemma CrashThenReopenLoses(st: Setting, d: Disk, v: View, op: DocumentLaws.Op, ch: Chances)
    requires Proper(st) && Represents(st, d, v) && v.Whole? && (v.m, v.g) != (map[], 1) && EmptyFits(st)
    requires KeysAllowed(op) && DocumentLaws.Wanted(v.m, op).Some? && Tears(ch.commit)
    requires DocumentLaws.Room(Raster.Capacity(st.target), DocumentLaws.Wanted(v.m, op).value, v.g)
    ensures AllDrawn(st, d) && Found(st, d) == Some((v.m, v.g))
    ensures Found(st, Apply(st, d, Changes(op, ch))) == Some((v.m, v.g))
    ensures Found(st, Apply(st, Apply(st, d, Changes(op, ch)), Opens(UNCUT))) == Some((map[], 1))
  {
    hide Represents, Found, Apply, DocumentLaws.Room, DocumentLaws.Wanted;
    RepresentedIsFound(st, d, v);
    EventRefines(st, d, v, Changes(op, ch));
    var torn := Torn(v.base, v.m, v.g);
    assert EventView(st, v, Changes(op, ch)) == torn;
    var d1 := Apply(st, d, Changes(op, ch));
    RepresentedIsFound(st, d1, torn);
    EventRefines(st, d1, torn, Opens(UNCUT));
    RepresentedIsFound(st, Apply(st, d1, Opens(UNCUT)), EventView(st, torn, Opens(UNCUT)));
  }

  // ---------------------------------------------------------------- a history that loses its memory

  /** A small store without executable rows. */
  function Sample(sha: Hash): (st: Setting) {
    var l := Raster.Layout(16, 16, 0, []);
    Setting(l, None, Raster.Storage(l), sha)
  }

  lemma SampleIsProper(sha: Hash)
    ensures Proper(Sample(sha)) && Raster.Capacity(Sample(sha).target) == 768
  {
  }

  const SAMPLE_KEY: Text := [107]

  lemma SampleHasRoom(generation: nat)
    requires generation <= 2
    ensures DocumentLaws.Room(768, map[SAMPLE_KEY := Null], generation)
  {
    hide Encode;
    var m := map[SAMPLE_KEY := Null];
    CodecSizes.NullIsSmall();
    assert |m| == 1;
    CodecSizes.SmallDict(m, 1, 1);
  }

  /** Opening where there is nothing gives an empty memory. */
  lemma OpenedIsEmpty(st: Setting)
    requires Proper(st) && EmptyFits(st)
    ensures Represents(st, OpenNext(st, Files(None, None, 0), UNCUT).0, Whole(Raster.BlankFrame(st.layout), map[], 1))
  {
    hide DecodeDocument, Rendered, Encode, DocumentLaws.Room;
    RenderedReads(st, Raster.BlankFrame(st.layout), map[], 0);
    EmptyHasRoom(st);
  }

  /** The store after one value was written, and after a crash in the middle of writing it again. */
  function Holding(st: Setting): (d: Disk)
    requires Proper(st)
    ensures AllDrawn(st, d)
  {
    var write := DocumentLaws.Write(SAMPLE_KEY, Null);
    Apply(st, Apply(st, Files(None, None, 0), Opens(UNCUT)), Changes(write, Chances(true, UNCUT, UNCUT)))
  }

  function Crashed(st: Setting): (d: Disk)
    requires Proper(st)
    ensures AllDrawn(st, d)
  {
    Apply(st, Holding(st), Changes(DocumentLaws.Write(SAMPLE_KEY, Null), Chances(true, UNCUT, Cut(Moved, true, false))))
  }

  lemma HoldingHolds(st: Setting)
    requires Proper(st) && Raster.Capacity(st.target) == 768
    ensures Represents(st, Holding(st), Whole(Raster.BlankFrame(st.layout), map[SAMPLE_KEY := Null], 2))
  {
    var v := Whole(Raster.BlankFrame(st.layout), map[], 1);
    var d := Apply(st, Files(None, None, 0), Opens(UNCUT));
    OpenedIsEmpty(st);
    hide Represents, ChangeNext, OpenNext, DocumentLaws.Room;
    SampleHasRoom(1);
    var write := Changes(DocumentLaws.Write(SAMPLE_KEY, Null), Chances(true, UNCUT, UNCUT));
    EventRefines(st, d, v, write);
    assert v.m[SAMPLE_KEY := Null] == map[SAMPLE_KEY := Null];
  }

  /** Open a new store, write a value, crash in the middle of writing it again, and open the store
      again: the value is gone, although a read by a store still open would have found it. */
  lemma LosingHistory(st: Setting)
    requires Proper(st) && Raster.Capacity(st.target) == 768 && st.layout.executionRows == 0
    ensures Found(st, Holding(st)) == Some((map[SAMPLE_KEY := Null], 2))
    ensures var r := ReadNext(st, Crashed(st), true, UNCUT).outcome;
      r.Ok? && (r.value.1, r.value.2) == (map[SAMPLE_KEY := Null], 2)
    ensures Found(st, Apply(st, Crashed(st), Opens(UNCUT))) == Some((map[], 1))
  {
    var v := Whole(Raster.BlankFrame(st.layout), map[SAMPLE_KEY := Null], 2);
    HoldingHolds(st);
    SampleHasRoom(2);
    hide Represents, Found, Apply, ReadNext, Holding, DocumentLaws.Room;
    var write, ch := DocumentLaws.Write(SAMPLE_KEY, Null), Chances(true, UNCUT, Cut(Moved, true, false));
    assert v.m[SAMPLE_KEY := Null] == v.m;
    CrashThenReopenLoses(st, Holding(st), v, write, ch);
    EventRefines(st, Holding(st), v, Changes(write, ch));
    TornReadRecovers(st, Crashed(st), Torn(v.base, v.m, v.g));
  }

  /** There is such a store. */
  lemma SampleLoses(sha: Hash)
    ensures Proper(Sample(sha)) && Found(Sample(sha), Holding(Sample(sha))) == Some((map[SAMPLE_KEY := Null], 2))
    ensures Found(Sample(sha), Apply(Sample(sha), Crashed(Sample(sha)), Opens(UNCUT))) == Some((map[], 1))
  {
    SampleIsProper(sha);
    hide Found, Apply, Holding, Crashed, Proper;
    LosingHistory(Sample(sha));
  }
}
