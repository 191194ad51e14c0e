/** The uploaded-files list of the project-creation screen and the table of
    interval handles that drive its simulated progress.  The document picker,
    `setInterval`/`clearInterval` and `Math.random()` are outside the model:
    a pick arrives as a `PickResult`, a timer callback is a call to `Tick`
    with the random increment as a parameter, and an interval handle is a
    positive number chosen by the caller. */
module Uploads {
  import opened Effects

  /** Timer handles are positive, so a stored handle is always truthy. */
  type IntervalId = h: int | h > 0 witness 1

  datatype FileEntry = FileEntry(id: string, name: string, mimeType: string, progress: real, uploading: bool)

  /** What the document picker hands back. */
  datatype PickResult =
    | Success(name: string, mimeType: Option<string>)
    | Cancelled
    | PickerError

  const OctetStream := "application/octet-stream"

  /** The three example entries the list starts with; they are not
      uploading although their progress is below 1. */
  const InitialFiles: seq<FileEntry> := [
    FileEntry("f1", "Website templates.psd", "image/vnd.adobe.photoshop", 0.7, false),
    FileEntry("f2", "Logo vector.ai", "application/postscript", 0.45, false),
    FileEntry("f3", "Wireframe for team.figma", OctetStream, 0.3, false)
  ]

  /** The longest per-tick increment is excluded: `Math.random() * 0.12`. */
  const MaxIncrement: real := 0.12

  /** Progress lies in [0, 1], and a finished entry is not uploading. */
  predicate WellFormed(f: FileEntry)
  {
    0.0 <= f.progress <= 1.0 && (f.progress >= 1.0 ==> !f.uploading)
  }

  predicate AllWellFormed(files: seq<FileEntry>)
  {
    forall i :: 0 <= i < |files| ==> WellFormed(files[i])
  }

  function Ids(files: seq<FileEntry>): (ids: set<string>)
  {
    set f | f in files :: f.id
  }

  /** Ids of the entries whose progress has reached 1. */
  function CompletedIds(files: seq<FileEntry>): (ids: set<string>)
  {
    set f | f in files && f.progress >= 1.0 :: f.id
  }

  /** Appending one entry adds its id to the completed ids exactly when it
      has finished. */
  lemma CompletedIdsSnoc(files: seq<FileEntry>, f: FileEntry)
    ensures CompletedIds(files + [f]) == CompletedIds(files) + (if f.progress >= 1.0 then {f.id} else {})
  {
    assert forall g :: g in files + [f] <==> g in files || g == f;
  }

  /** One step of the sweep: dropping a finished entry's interval from the
      table swept so far gives the table swept one entry further. */
  lemma SweepStep(m: map<string, IntervalId>, done: set<string>, f: FileEntry)
    ensures (if f.progress >= 1.0 && f.id in m - done then (m - done) - {f.id} else m - done)
            == m - (done + (if f.progress >= 1.0 then {f.id} else {}))
  {
  }

  /** The entry a successful pick creates. */
  function NewEntry(id: string, name: string, mimeType: Option<string>): (e: FileEntry)
    ensures e.id == id && e.name == name
    ensures e.progress == 0.0 && e.uploading
    ensures mimeType.Some? && mimeType.value != "" ==> e.mimeType == mimeType.value
    ensures mimeType.None? || mimeType.value == "" ==> e.mimeType == OctetStream
    ensures WellFormed(e)
  {
    FileEntry(id, name, OrElse(mimeType, OctetStream), 0.0, true)
  }

  function Min(a: real, b: real): (m: real)
  {
    if a <= b then a else b
  }

  /** One entry advanced by increment `d`, clamped at 1. */
  function TickEntry(f: FileEntry, d: real): (g: FileEntry)
    ensures g.id == f.id && g.name == f.name && g.mimeType == f.mimeType
  {
    var next := Min(1.0, f.progress + d);
    f.(progress := next, uploading := next < 1.0)
  }

  /** The state updater a timer callback passes to `setFiles`: every entry
      with the callback's id is advanced, the others are returned as they are. */
  function Ticked(files: seq<FileEntry>, id: string, d: real): (r: seq<FileEntry>)
    ensures |r| == |files|
    ensures forall i :: 0 <= i < |files| ==> r[i].id == files[i].id
  {
    seq(|files|, i requires 0 <= i < |files| =>
      if files[i].id != id then files[i] else TickEntry(files[i], d))
  }

  /** A tick touches only the entries with its id; length, order and
      every other entry stay as they were. */
  lemma TickIsLocal(files: seq<FileEntry>, id: string, d: real, i: int)
    requires 0 <= i < |files|
    ensures files[i].id != id ==> Ticked(files, id, d)[i] == files[i]
    ensures Ticked(files, id, d)[i].name == files[i].name
    ensures Ticked(files, id, d)[i].mimeType == files[i].mimeType
  {
  }

  /** A tick for an id that is not in the list changes nothing. */
  lemma TickUnknownIdIsNoop(files: seq<FileEntry>, id: string, d: real)
    requires id !in Ids(files)
    ensures Ticked(files, id, d) == files
  {
    forall i | 0 <= i < |files| ensures Ticked(files, id, d)[i] == files[i] {
      assert files[i] in files;
    }
  }

  /** A tick with an increment in [0, 0.12) never lowers progress and never
      takes it past 1; the ticked entry is uploading exactly when its new
      progress is below 1, and it lands on exactly 1 once the sum reaches 1. */
  lemma TickMonotoneAndBounded(files: seq<FileEntry>, id: string, d: real, i: int)
    requires 0.0 <= d < MaxIncrement
    requires 0 <= i < |files| && WellFormed(files[i])
    ensures files[i].progress <= Ticked(files, id, d)[i].progress <= 1.0
    ensures WellFormed(Ticked(files, id, d)[i])
    ensures files[i].id == id ==>
              && (Ticked(files, id, d)[i].uploading <==> Ticked(files, id, d)[i].progress < 1.0)
              && (files[i].progress + d >= 1.0 ==> Ticked(files, id, d)[i].progress == 1.0)
              && (files[i].progress + d < 1.0 ==> Ticked(files, id, d)[i].progress == files[i].progress + d)
  {
  }

  lemma TickPreservesWellFormed(files: seq<FileEntry>, id: string, d: real)
    requires 0.0 <= d < MaxIncrement && AllWellFormed(files)
    ensures AllWellFormed(Ticked(files, id, d))
    ensures Ids(Ticked(files, id, d)) == Ids(files)
  {
    var r := Ticked(files, id, d);
    forall i | 0 <= i < |files| ensures WellFormed(r[i]) {
      TickMonotoneAndBounded(files, id, d, i);
    }
    forall x | x in Ids(files) ensures x in Ids(r) {
      var i :| 0 <= i < |files| && files[i].id == x;
      assert r[i] in r;
    }
    forall x | x in Ids(r) ensures x in Ids(files) {
      var i :| 0 <= i < |r| && r[i].id == x;
      assert files[i] in files;
    }
  }

  /** `prev.filter((p) => p.id !== id)`. */
  function Without(files: seq<FileEntry>, id: string): (r: seq<FileEntry>)
    ensures |r| <= |files|
    ensures forall f :: f in r <==> f in files && f.id != id
  {
    if files == [] then []
    else if files[0].id == id then Without(files[1..], id)
    else [files[0]] + Without(files[1..], id)
  }

  /** Filtering distributes over concatenation, so the entries that remain
      keep their original relative order. */
  lemma {:induction false} WithoutAppend(a: seq<FileEntry>, b: seq<FileEntry>, id: string)
    ensures Without(a + b, id) == Without(a, id) + Without(b, id)
  {
    if a == [] {
      assert a + b == b;
    } else {
      assert (a + b)[1..] == a[1..] + b;
      WithoutAppend(a[1..], b, id);
    }
  }

  /** Removing an id that no entry has leaves the list as it is. */
  lemma {:induction false} WithoutAbsentIsNoop(files: seq<FileEntry>, id: string)
    requires forall f :: f in files ==> f.id != id
    ensures Without(files, id) == files
  {
    if files != [] {
      assert files[0] in files;
      assert forall f :: f in files[1..] ==> f in files;
      WithoutAbsentIsNoop(files[1..], id);
    }
  }

  /** Removing twice is removing once. */
  lemma {:induction false} RemoveIsIdempotent(files: seq<FileEntry>, id: string)
    ensures Without(Without(files, id), id) == Without(files, id)
  {
    WithoutAbsentIsNoop(Without(files, id), id);
  }

  lemma WithoutWellFormed(files: seq<FileEntry>, id: string)
    requires AllWellFormed(files)
    ensures AllWellFormed(Without(files, id))
    ensures Ids(Without(files, id)) == Ids(files) - {id}
  {
    var r := Without(files, id);
    forall i | 0 <= i < |r| ensures WellFormed(r[i]) {
      assert r[i] in files;
      var j :| 0 <= j < |files| && files[j] == r[i];
    }
  }

  /** A tick that arrives after its entry was removed changes nothing. */
  lemma TickAfterRemoveIsNoop(files: seq<FileEntry>, id: string, d: real)
    ensures Ticked(Without(files, id), id, d) == Without(files, id)
  {
    TickUnknownIdIsNoop(Without(files, id), id, d);
  }

  /** The tick updater works entry by entry: on a list with a head it is the
      head's tick followed by the rest's. */
  lemma TickedCons(x: FileEntry, rest: seq<FileEntry>, id: string, d: real)
    ensures Ticked([x] + rest, id, d) == Ticked([x], id, d) + Ticked(rest, id, d)
  {
  }

  /** Filtering a list with a head drops the head exactly when it has the id. */
  lemma WithoutCons(x: FileEntry, rest: seq<FileEntry>, id: string)
    ensures Without([x] + rest, id) == if x.id == id then Without(rest, id) else [x] + Without(rest, id)
  {
    assert ([x] + rest)[0] == x && ([x] + rest)[1..] == rest;
  }

  /** A tick of one id and the removal of another commute: operations on
      one upload do not disturb another. */
  lemma {:induction false} TickRemoveCommute(files: seq<FileEntry>, id: string, other: string, d: real)
    requires id != other
    ensures Ticked(Without(files, other), id, d) == Without(Ticked(files, id, d), other)
  {
    if files != [] {
      var x, rest := files[0], files[1..];
      var tx, trest := Ticked([x], id, d), Ticked(rest, id, d);
      assert files == [x] + rest;
      TickedCons(x, rest, id, d);
      assert tx == [tx[0]];
      WithoutCons(tx[0], trest, other);
      WithoutCons(x, rest, other);
      TickRemoveCommute(rest, id, other, d);
      if x.id != other {
        TickedCons(x, Without(rest, other), id, d);
      }
    }
  }

  /** The screen's upload state: the rendered list and the `uploadIntervals`
      ref that maps an entry id to its running interval. */
  class UploadList {
    var files: seq<FileEntry>
    var intervals: map<string, IntervalId>

    /** Every entry is well formed and every running interval belongs to an
        entry still in the list. */
    ghost predicate Valid()
      reads this
    {
      AllWellFormed(files) && intervals.Keys <= Ids(files)
    }

    constructor ()
      ensures Valid()
      ensures files == InitialFiles && intervals == map[]
    {
      files := InitialFiles;
      intervals := map[];
    }

    /** `pickDocument`: on success the new entry goes to the front of the
        list and its interval is recorded under its id; a cancelled pick or
        a picker error changes nothing. */
    method Pick(result: PickResult, id: string, handle: IntervalId)
      requires Valid()
      modifies this
      ensures Valid()
      ensures result.Success? ==>
                && files == [NewEntry(id, result.name, result.mimeType)] + old(files)
                && intervals == old(intervals)[id := handle]
      ensures !result.Success? ==> files == old(files) && intervals == old(intervals)
    {
      if result.Success? {
        var entry := NewEntry(id, result.name, result.mimeType);
        files := [entry] + files;
        intervals := intervals[id := handle];
        assert entry in files;
        assert forall f :: f in old(files) ==> f in files;
      }
    }

    /** One firing of the interval started for `id`, with `d` standing for
        `Math.random() * 0.12`. */
    method Tick(id: string, d: real)
      requires Valid()
      requires 0.0 <= d < MaxIncrement
      modifies this`files
      ensures Valid()
      ensures files == Ticked(old(files), id, d)
    {
      TickPreservesWellFormed(files, id, d);
      files := Ticked(files, id, d);
    }

    /** The effect body: for each entry whose progress reached 1 and which
        still has an interval, clear it and delete its key. */
    method Sweep()
      requires Valid()
      modifies this`intervals
      ensures Valid()
      ensures intervals == old(intervals) - CompletedIds(files)
      ensures forall f :: f in files && f.progress >= 1.0 ==> f.id !in intervals
    {
      var i := 0;
      while i < |files|
        invariant 0 <= i <= |files|
        invariant intervals == old(intervals) - CompletedIds(files[..i])
        invariant intervals.Keys <= old(intervals).Keys
      {
        var f := files[i];
        assert files[..i + 1] == files[..i] + [f];
        CompletedIdsSnoc(files[..i], f);
        SweepStep(old(intervals), CompletedIds(files[..i]), f);
        if f.progress >= 1.0 && f.id in intervals {
          intervals := intervals - {f.id};
        }
        i := i + 1;
      }
      assert files[..i] == files;
      forall f | f in files && f.progress >= 1.0 ensures f.id !in intervals {
        assert f.id in CompletedIds(files);
      }
    }

    /** The effect's cleanup: clear every interval and reset the table. */
    method Unmount()
      modifies this`intervals
      ensures intervals == map[]
    {
      intervals := map[];
    }

    /** `removeFile`: clear and forget the id's interval, then drop every
        entry with that id, keeping the others in order. */
    method Remove(id: string)
      requires Valid()
      modifies this
      ensures Valid()
      ensures intervals == old(intervals) - {id}
      ensures files == Without(old(files), id)
    {
      if id in intervals {
        intervals := intervals - {id};
      }
      WithoutWellFormed(files, id);
      files := Without(files, id);
    }

    /** What a change of `files` triggers once the cleanup is kept for
        unmount only: the sweep alone. */
    method FilesChanged()
      requires Valid()
      modifies this`intervals
      ensures Valid()
      ensures intervals == old(intervals) - CompletedIds(files)
    {
      Sweep();
    }

    /** What a change of `files` triggers as the screen is written: the
        effect depends on `[files]`, so React first runs the previous run's
        cleanup (meant for unmount) and then the body again.  Every interval
        is gone afterwards, including those of unfinished uploads. */
    method FilesChangedAsWritten()
      requires Valid()
      modifies this`intervals
      ensures Valid()
      ensures intervals == map[]
    {
      Unmount();
      Sweep();
    }
  }

  /** With the cleanup as written, a freshly picked file loses its interval
      at the first re-render, so its progress stays at 0. */
  method PickThenRerenderAsWritten(name: string, id: string, handle: IntervalId) returns (list: UploadList)
    ensures fresh(list) && list.Valid()
    ensures |list.files| > 0 && list.files[0] == NewEntry(id, name, None) && list.files[0].progress < 1.0
    ensures id !in list.intervals
  {
    list := new UploadList();
    list.Pick(Success(name, None), id, handle);
    list.FilesChangedAsWritten();
  }

  /** With the cleanup kept for unmount, the sweep leaves an unfinished
      upload's interval in place. */
  method PickThenRerender(name: string, id: string, handle: IntervalId) returns (list: UploadList)
    ensures fresh(list) && list.Valid()
    ensures |list.files| > 0 && list.files[0] == NewEntry(id, name, None)
    ensures id in list.intervals && list.intervals[id] == handle
  {
    list := new UploadList();
    list.Pick(Success(name, None), id, handle);
    assert forall f :: f in list.files ==> f.progress < 1.0;
    assert id !in CompletedIds(list.files);
    list.FilesChanged();
  }

  /** The sweep keeps the interval of any id none of whose entries has
      finished, and drops the interval of every id one of whose entries has. */
  lemma SweepKeepsExactlyUnfinished(m: map<string, IntervalId>, files: seq<FileEntry>, id: string)
    requires id in m
    ensures id in m - CompletedIds(files) <==> forall f :: f in files && f.id == id ==> f.progress < 1.0
  {
  }
}
