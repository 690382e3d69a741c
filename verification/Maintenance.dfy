// Background work on the two-tier store: moving large blobs into files
// (migrations.go) and sweeping files that no row names (filestore.go).

module Maintenance {
  import opened Types
  import opened Paths
  import opened StoreModel
  import opened Refinement
  import opened Sums

  // ----- Migration -----

  datatype MigrateFault = Fine | ScanFails | StoreFails | UpdateFails(removeFails: bool)

  /** WHERE mail IS NOT NULL AND mail_file IS NULL AND LENGTH(mail) > threshold */
  predicate IsLarge(s: Store, k: Key, threshold: nat) {
    k in s.mails && s.mails[k].mail.Some? && s.mails[k].mailFile.None? && |s.mails[k].mail.value| > threshold
  }

  function LargeSizes(s: Store, threshold: nat): map<Key, nat> {
    map k | k in s.mails && IsLarge(s, k, threshold) :: |s.mails[k].mail.value|
  }

  /** EstimateMigrationSize. */
  ghost function Estimate(s: Store, threshold: nat): (nat, nat) {
    (|LargeSizes(s, threshold)|, Sum(LargeSizes(s, threshold)))
  }

  datatype Migration = Migration(store: Store, count: nat, bytes: nat)

  /** One row of the cursor: store the file, point the row at it, and on a failed update remove the file again. */
  function MigrateRow(m: Migration, k: Key, threshold: nat, f: MigrateFault): Migration {
    if !IsLarge(m.store, k, threshold) then m
    else
      var s, row := m.store, m.store.mails[k];
      var data := row.mail.value;
      var stored := s.(files := s.files[PathOf(k) := data]);
      match f
      case Fine =>
        var filed := row.(mail := None, mailFile := Some(PathOf(k)), size := |data|);
        Migration(stored.(mails := s.mails[k := filed]), m.count + 1, m.bytes + |data|)
      case UpdateFails(removeFails) =>
        m.(store := if removeFails then stored else stored.(files := stored.files - {PathOf(k)}))
      case _ => m
  }

  function MigrateRows(s: Store, rows: seq<Key>, threshold: nat, faults: seq<MigrateFault>): Migration
    requires |rows| == |faults|
  {
    if rows == [] then Migration(s, 0, 0)
    else
      var n := |rows| - 1;
      MigrateRow(MigrateRows(s, rows[..n], threshold, faults[..n]), rows[n], threshold, faults[n])
  }

  /** One row, whatever fails, changes no message. */
  lemma MigrateRowRefines(m: Migration, names: set<string>, k: Key, threshold: nat, f: MigrateFault)
    requires Valid(m.store) && Fits(m.store, names)
    ensures var r := MigrateRow(m, k, threshold, f).store;
      Valid(r) && Fits(r, names) && ViewOf(r) == ViewOf(m.store)
  {
    hide RelPath;
    var s := m.store;
    if IsLarge(s, k, threshold) {
      var data := s.mails[k].mail.value;
      PathsOwned(s, names, k);
      if f.Fine? {
        FiledRow(s, k, data, MigrateRow(m, k, threshold, f).store);
      } else if f.UpdateFails? {
        SpareFileRefines(s, PathOf(k), data);
        SpareFileRefines(s.(files := s.files[PathOf(k) := data]), PathOf(k), data);
      }
    }
  }

  lemma MigrateRowSizes(m: Migration, k: Key, threshold: nat, f: MigrateFault)
    ensures LargeSizes(MigrateRow(m, k, threshold, f).store, threshold)
         == LargeSizes(m.store, threshold) - (if f.Fine? then {k} else {})
  {
    hide RelPath;
    var r := MigrateRow(m, k, threshold, f);
    var after := LargeSizes(r.store, threshold);
    var expected := LargeSizes(m.store, threshold) - (if f.Fine? then {k} else {});
    assert r.store.mails.Keys == m.store.mails.Keys;
    forall j ensures j in after <==> j in expected {
      assert j in r.store.mails && j != k ==> r.store.mails[j] == m.store.mails[j];
    }
    assert after == expected;
  }

  /** One row takes itself, and only itself, off the estimate, and is counted for exactly that. */
  lemma MigrateRowCounts(m: Migration, k: Key, threshold: nat, f: MigrateFault)
    ensures var r := MigrateRow(m, k, threshold, f);
      && r.count + Estimate(r.store, threshold).0 == m.count + Estimate(m.store, threshold).0
      && r.bytes + Estimate(r.store, threshold).1 == m.bytes + Estimate(m.store, threshold).1
  {
    hide RelPath;
    MigrateRowSizes(m, k, threshold, f);
    var before := LargeSizes(m.store, threshold);
    if k in before && f.Fine? {
      assert (before - {k}).Keys == before.Keys - {k};
      SumSplit(before, k);
    } else {
      assert k !in before ==> before - {k} == before;
    }
  }

  lemma FiledRow(s: Store, k: Key, data: Bytes, r: Store)
    requires Valid(s) && k in s.mails && s.mails[k].mail == Some(data) && data != []
    requires forall j :: j in s.mails ==> s.mails[j].mailFile != Some(PathOf(k))
    requires r == s.(files := s.files[PathOf(k) := data],
      mails := s.mails[k := s.mails[k].(mail := None, mailFile := Some(PathOf(k)), size := |data|)])
    ensures Valid(r) && ViewOf(r) == ViewOf(s)
  {
    hide RelPath;
    assert r.mails.Keys == s.mails.Keys;
    forall j | j in r.mails ensures RowOk(r, j) && MessageOf(r, j) == MessageOf(s, j) {
      if j != k {
        SameRow(s, r, j);
      } else {
        assert RowOk(s, k);
      }
    }
    forall i, j | i in r.mails && j in r.mails && i != j ensures !ShareFile(r, i, j) {
      assert !ShareFile(s, i, j);
    }
    SameView(r, ViewOf(s));
  }

  /** The rows whose migration goes through. */
  function Done(rows: seq<Key>, faults: seq<MigrateFault>): set<Key>
    requires |rows| == |faults|
  {
    set i | 0 <= i < |rows| && faults[i].Fine? :: rows[i]
  }

  /** For every cursor and every mix of failures no message changes. */
  lemma {:induction false} MigrationRefines(s: Store, names: set<string>, rows: seq<Key>, threshold: nat,
                                            faults: seq<MigrateFault>)
    requires Valid(s) && Fits(s, names) && |rows| == |faults|
    ensures var r := MigrateRows(s, rows, threshold, faults).store;
      Valid(r) && Fits(r, names) && ViewOf(r) == ViewOf(s)
  {
    if rows != [] {
      var n := |rows| - 1;
      MigrationRefines(s, names, rows[..n], threshold, faults[..n]);
      MigrateRowRefines(MigrateRows(s, rows[..n], threshold, faults[..n]), names, rows[n], threshold, faults[n]);
    }
  }

  lemma DoneStep(rows: seq<Key>, faults: seq<MigrateFault>)
    requires |rows| == |faults| && rows != []
    ensures var n := |rows| - 1;
      Done(rows, faults) == Done(rows[..n], faults[..n]) + (if faults[n].Fine? then {rows[n]} else {})
  {
    var n := |rows| - 1;
    var gs, fs := rows[..n], faults[..n];
    var last := if faults[n].Fine? then {rows[n]} else {};
    forall k | k in Done(rows, faults) ensures k in Done(gs, fs) + last {
      var i :| 0 <= i < |rows| && faults[i].Fine? && rows[i] == k;
      assert i < n ==> gs[i] == k && fs[i].Fine?;
    }
    forall k | k in Done(gs, fs) ensures k in Done(rows, faults) {
      var i :| 0 <= i < n && fs[i].Fine? && gs[i] == k;
      assert rows[i] == k && faults[i].Fine?;
    }
  }

  /** What is left above the threshold is what did not go through. */
  lemma {:induction false} MigrationLeaves(s: Store, rows: seq<Key>, threshold: nat, faults: seq<MigrateFault>)
    requires |rows| == |faults|
    ensures LargeSizes(MigrateRows(s, rows, threshold, faults).store, threshold)
         == LargeSizes(s, threshold) - Done(rows, faults)
  {
    if rows != [] {
      var n := |rows| - 1;
      MigrationLeaves(s, rows[..n], threshold, faults[..n]);
      MigrateRowSizes(MigrateRows(s, rows[..n], threshold, faults[..n]), rows[n], threshold, faults[n]);
      DoneStep(rows, faults);
    }
  }

  /** The counters report exactly the difference the migration made to its own estimate. */
  lemma {:induction false} MigrationCounts(s: Store, rows: seq<Key>, threshold: nat, faults: seq<MigrateFault>)
    requires |rows| == |faults|
    ensures var r := MigrateRows(s, rows, threshold, faults);
      && r.count + Estimate(r.store, threshold).0 == Estimate(s, threshold).0
      && r.bytes + Estimate(r.store, threshold).1 == Estimate(s, threshold).1
  {
    if rows != [] {
      var n := |rows| - 1;
      MigrationCounts(s, rows[..n], threshold, faults[..n]);
      MigrateRowCounts(MigrateRows(s, rows[..n], threshold, faults[..n]), rows[n], threshold, faults[n]);
    }
  }

  /** The rows the migration's SELECT returns, ORDER BY LENGTH(mail) DESC. */
  ghost predicate IsCursor(rows: seq<Key>, sizes: map<Key, nat>) {
    && (forall k :: k in rows <==> k in sizes)
    && (forall i, j :: 0 <= i < j < |rows| ==> rows[i] != rows[j])
    && (forall i, j :: 0 <= i < j < |rows| ==> sizes[rows[i]] >= sizes[rows[j]])
  }

  lemma NothingLarge(s: Store, threshold: nat)
    requires LargeSizes(s, threshold) == map[]
    ensures forall k :: !IsLarge(s, k, threshold)
    ensures Estimate(s, threshold).0 == 0 && Estimate(s, threshold).1 == 0
  {
    forall k ensures !IsLarge(s, k, threshold) {
      assert k !in LargeSizes(s, threshold);
    }
  }

  lemma CursorIsDone(s: Store, rows: seq<Key>, threshold: nat, faults: seq<MigrateFault>)
    requires |rows| == |faults|
    requires IsCursor(rows, LargeSizes(s, threshold)) && forall i :: 0 <= i < |faults| ==> faults[i].Fine?
    ensures LargeSizes(s, threshold) - Done(rows, faults) == map[]
  {
    forall k | k in LargeSizes(s, threshold) ensures k in Done(rows, faults) {
      assert k in rows;
      var i :| 0 <= i < |rows| && rows[i] == k;
      assert faults[i].Fine?;
    }
  }

  lemma CursorOfNothing(rows: seq<Key>, sizes: map<Key, nat>)
    requires IsCursor(rows, sizes)
    ensures rows != [] ==> sizes != map[]
  {
    if rows != [] {
      var k := rows[0];
      assert k in rows;
    }
  }

  /** Without failures nothing above the threshold stays in a row, the report equals the estimate,
      and a second migration has nothing to do. */
  lemma MigrationCompletes(s: Store, rows: seq<Key>, threshold: nat, faults: seq<MigrateFault>, again: seq<Key>)
    requires |rows| == |faults|
    requires IsCursor(rows, LargeSizes(s, threshold)) && forall i :: 0 <= i < |faults| ==> faults[i].Fine?
    requires IsCursor(again, LargeSizes(MigrateRows(s, rows, threshold, faults).store, threshold))
    ensures var r := MigrateRows(s, rows, threshold, faults);
      && (forall k :: k in r.store.mails && r.store.mails[k].mail.Some? && r.store.mails[k].mailFile.None? ==>
            |r.store.mails[k].mail.value| <= threshold)
      && r.count == Estimate(s, threshold).0 && r.bytes == Estimate(s, threshold).1
      && again == []
  {
    var r := MigrateRows(s, rows, threshold, faults);
    MigrationLeaves(s, rows, threshold, faults);
    MigrationCounts(s, rows, threshold, faults);
    CursorIsDone(s, rows, threshold, faults);
    NothingLarge(r.store, threshold);
    CursorOfNothing(again, LargeSizes(r.store, threshold));
    forall k | k in r.store.mails && r.store.mails[k].mail.Some? && r.store.mails[k].mailFile.None?
      ensures |r.store.mails[k].mail.value| <= threshold
    {
      assert !IsLarge(r.store, k, threshold);
    }
  }

  /** Row i got a file: it was migrated, or its update failed and so did the removal of the file. */
  predicate LeavesFile(s: Store, rows: seq<Key>, threshold: nat, faults: seq<MigrateFault>, i: int)
    requires |rows| == |faults|
  {
    && 0 <= i < |rows| && rows[i] in s.mails && s.mails[rows[i]].mail.Some? && s.mails[rows[i]].mailFile.None?
    && |s.mails[rows[i]].mail.value| > threshold
    && (faults[i] == Fine || faults[i] == UpdateFails(true))
  }

  /** Rows outside the cursor are left alone. */
  lemma {:induction false} OtherRowsStay(s: Store, rows: seq<Key>, threshold: nat, faults: seq<MigrateFault>, k: Key)
    requires |rows| == |faults| && k !in rows
    ensures var r := MigrateRows(s, rows, threshold, faults).store;
      (k in r.mails <==> k in s.mails) && (k in s.mails ==> r.mails[k] == s.mails[k])
  {
    hide RelPath;
    if rows != [] {
      OtherRowsStay(s, rows[..|rows| - 1], threshold, faults[..|rows| - 1], k);
    }
  }

  predicate PathsDiffer(rows: seq<Key>) {
    forall i, j :: 0 <= i < j < |rows| ==> PathOf(rows[i]) != PathOf(rows[j])
  }

  /** What row n of the cursor does to the files. */
  lemma LastFile(s: Store, rows: seq<Key>, threshold: nat, faults: seq<MigrateFault>)
    requires |rows| == |faults| && rows != [] && PathsDiffer(rows)
    ensures var n := |rows| - 1;
      var before := MigrateRows(s, rows[..n], threshold, faults[..n]).store.files;
      var after := MigrateRows(s, rows, threshold, faults).store.files;
      && (LeavesFile(s, rows, threshold, faults, n) ==> after == before[PathOf(rows[n]) := s.mails[rows[n]].mail.value])
      && (!LeavesFile(s, rows, threshold, faults, n) ==> after == before || after == before - {PathOf(rows[n])})
  {
    hide PathOf, RelPath;
    var n := |rows| - 1;
    assert forall i :: 0 <= i < n ==> rows[..n][i] != rows[n];
    OtherRowsStay(s, rows[..n], threshold, faults[..n], rows[n]);
    var before := MigrateRows(s, rows[..n], threshold, faults[..n]).store;
    var path := PathOf(rows[n]);
    if IsLarge(s, rows[n], threshold) && faults[n] == UpdateFails(false) {
      assert before.files[path := s.mails[rows[n]].mail.value] - {path} == before.files - {path};
    }
  }

  /** A migration leaves exactly the files of such rows behind, and each holds what its row held. */
  lemma {:induction false} MigrationFiles(s: Store, rows: seq<Key>, threshold: nat, faults: seq<MigrateFault>,
                                          p: string)
    requires |rows| == |faults| && PathsDiffer(rows) && p !in s.files
    ensures p in MigrateRows(s, rows, threshold, faults).store.files
      <==> exists i :: LeavesFile(s, rows, threshold, faults, i) && PathOf(rows[i]) == p
    ensures forall i :: LeavesFile(s, rows, threshold, faults, i) && PathOf(rows[i]) == p ==>
      p in MigrateRows(s, rows, threshold, faults).store.files
      && MigrateRows(s, rows, threshold, faults).store.files[p] == s.mails[rows[i]].mail.value
  {
    hide PathOf, MigrateRow;
    if rows != [] {
      var n := |rows| - 1;
      MigrationFiles(s, rows[..n], threshold, faults[..n], p);
      LastFile(s, rows, threshold, faults);
      forall i | 0 <= i < n
        ensures LeavesFile(s, rows, threshold, faults, i) <==> LeavesFile(s, rows[..n], threshold, faults[..n], i)
        ensures PathOf(rows[i]) == PathOf(rows[..n][i]) && PathOf(rows[i]) != PathOf(rows[n])
      {
      }
      if LeavesFile(s, rows, threshold, faults, n) && PathOf(rows[n]) == p {
      } else if i :| 0 <= i < n && LeavesFile(s, rows[..n], threshold, faults[..n], i) && PathOf(rows[..n][i]) == p {
        assert LeavesFile(s, rows, threshold, faults, i) && PathOf(rows[i]) == p;
      }
    }
  }

  /** And what is no longer than the threshold, or a file already, is left as it is, whatever fails. */
  lemma {:induction false} SmallRowsStay(s: Store, rows: seq<Key>, threshold: nat, faults: seq<MigrateFault>, k: Key)
    requires |rows| == |faults| && k in s.mails
    requires s.mails[k].mail.Some? && s.mails[k].mailFile.None? ==> |s.mails[k].mail.value| <= threshold
    ensures var r := MigrateRows(s, rows, threshold, faults).store; k in r.mails && r.mails[k] == s.mails[k]
  {
    hide RelPath;
    if rows != [] {
      SmallRowsStay(s, rows[..|rows| - 1], threshold, faults[..|rows| - 1], k);
    }
  }

  // ----- Cleaning up -----

  /** MailGetAllFilePaths. */
  function AllFilePaths(s: Store): set<string> {
    FilesOf(s, s.mails.Keys)
  }

  datatype Cleaned = Cleaned(files: map<string, Bytes>, count: nat, bytes: nat, failed: bool)

  predicate Orphan(files: map<string, Bytes>, valid: set<string>, path: string) {
    path in files && IsEml(path) && path !in valid
  }

  /** One visited file; the walk ends at the first file that cannot be removed. */
  function CleanFile(c: Cleaned, valid: set<string>, path: string, stuck: set<string>): Cleaned {
    if c.failed || !Orphan(c.files, valid, path) then c
    else if path in stuck then c.(failed := true)
    else Cleaned(c.files - {path}, c.count + 1, c.bytes + |c.files[path]|, false)
  }

  function CleanFiles(files: map<string, Bytes>, valid: set<string>, walk: seq<string>, stuck: set<string>): Cleaned {
    if walk == [] then Cleaned(files, 0, 0, false)
    else CleanFile(CleanFiles(files, valid, walk[..|walk| - 1], stuck), valid, walk[|walk| - 1], stuck)
  }

  function EmlSizes(files: map<string, Bytes>): map<string, nat> {
    map p | p in files && IsEml(p) :: |files[p]|
  }

  /** GetTotalSize. */
  ghost function TotalSize(files: map<string, Bytes>): nat {
    Sum(EmlSizes(files))
  }

  function FileRowSizes(s: Store): map<Key, nat> {
    map k | k in s.mails && s.mails[k].mailFile.Some? && s.mails[k].mail.None? :: s.mails[k].size
  }

  /** FileSize in GetStorageStats. */
  ghost function StatsFileSize(s: Store): nat {
    Sum(FileRowSizes(s))
  }

  /** However far the walk gets, only orphans go, and it fails exactly at an orphan it cannot remove. */
  lemma {:induction false} CleanRemoves(files: map<string, Bytes>, valid: set<string>, walk: seq<string>,
                                        stuck: set<string>)
    ensures var c := CleanFiles(files, valid, walk, stuck);
      && (forall p :: p in c.files ==> p in files && c.files[p] == files[p])
      && (forall p :: p in files && p !in c.files ==> Orphan(files, valid, p) && p in walk && p !in stuck)
      && (!c.failed ==> forall p :: p in walk ==> !Orphan(c.files, valid, p))
      && (c.failed <==> exists p :: p in walk && p in stuck && Orphan(files, valid, p))
  {
    if walk != [] {
      var n := |walk| - 1;
      CleanRemoves(files, valid, walk[..n], stuck);
      assert walk == walk[..n] + [walk[n]];
      var b, c := CleanFiles(files, valid, walk[..n], stuck), CleanFiles(files, valid, walk, stuck);
      if !b.failed && c.failed {
        assert Orphan(files, valid, walk[n]);
      }
    }
  }

  /** The report is exactly what went. */
  lemma {:induction false} CleanReports(files: map<string, Bytes>, valid: set<string>, walk: seq<string>,
                                        stuck: set<string>)
    ensures var c := CleanFiles(files, valid, walk, stuck);
      && c.count + |c.files| == |files|
      && c.bytes + TotalSize(c.files) == TotalSize(files)
  {
    if walk != [] {
      var n := |walk| - 1;
      CleanReports(files, valid, walk[..n], stuck);
      var b, path := CleanFiles(files, valid, walk[..n], stuck), walk[n];
      var c := CleanFile(b, valid, path, stuck);
      if !b.failed && Orphan(b.files, valid, path) && path !in stuck {
        assert EmlSizes(c.files) == EmlSizes(b.files) - {path};
        SumSplit(EmlSizes(b.files), path);
        assert c.files.Keys == b.files.Keys - {path};
      }
    }
  }

  /** Cleaning with the paths the table reports never touches a message. */
  lemma CleanRefines(s: Store, walk: seq<string>, stuck: set<string>)
    requires Valid(s)
    ensures var r := s.(files := CleanFiles(s.files, AllFilePaths(s), walk, stuck).files);
      Valid(r) && ViewOf(r) == ViewOf(s)
  {
    var c := CleanFiles(s.files, AllFilePaths(s), walk, stuck);
    CleanRemoves(s.files, AllFilePaths(s), walk, stuck);
    forall j | j in s.mails && s.mails[j].mailFile.Some?
      ensures var p := s.mails[j].mailFile.value; p in c.files && p in s.files && c.files[p] == s.files[p]
    {
      assert RowOk(s, j);
      assert s.mails[j].mailFile.value in AllFilePaths(s);
    }
    OtherFilesRefine(s, c.files);
  }

  /** After a complete sweep the files on disk are the files in the table, and the two size reports agree. */
  lemma CleanAgrees(s: Store, walk: seq<string>, stuck: set<string>)
    requires Valid(s) && forall p :: p in s.files ==> p in walk
    requires !CleanFiles(s.files, AllFilePaths(s), walk, stuck).failed
    ensures var r := s.(files := CleanFiles(s.files, AllFilePaths(s), walk, stuck).files);
      && EmlSizes(r.files).Keys == AllFilePaths(r)
      && TotalSize(r.files) == StatsFileSize(r)
  {
    var c := CleanFiles(s.files, AllFilePaths(s), walk, stuck);
    var r := s.(files := c.files);
    CleanRemoves(s.files, AllFilePaths(s), walk, stuck);
    CleanRefines(s, walk, stuck);
    assert AllFilePaths(r) == AllFilePaths(s);
    forall p | p in EmlSizes(r.files) ensures p in AllFilePaths(r) {
      assert !Orphan(c.files, AllFilePaths(s), p);
    }
    FilesMatchRows(r);
  }

  /** When every message file belongs to a row, sizes on disk and sizes in the table add up alike. */
  lemma FilesMatchRows(r: Store)
    requires Valid(r) && EmlSizes(r.files).Keys <= AllFilePaths(r)
    ensures EmlSizes(r.files).Keys == AllFilePaths(r)
    ensures TotalSize(r.files) == StatsFileSize(r)
  {
    hide RelPath;
    var m, n := FileRowSizes(r), EmlSizes(r.files);
    var name := map k | k in m :: r.mails[k].mailFile.value;
    forall k | k in r.mails && r.mails[k].mailFile.Some?
      ensures k in m && name[k] in n && n[name[k]] == m[k]
    {
      RowFileSize(r, k);
    }
    NamedFiles(r, n.Keys, name);
    SumRenamed(m, n, name);
  }

  lemma NamedFiles(r: Store, paths: set<string>, name: map<Key, string>)
    requires Exclusive(r) && paths <= AllFilePaths(r)
    requires forall k :: k in name ==> k in r.mails && r.mails[k].mailFile == Some(name[k]) && name[k] in paths
    requires forall k :: k in r.mails && r.mails[k].mailFile.Some? ==> k in name
    ensures paths == AllFilePaths(r) == name.Values
    ensures forall j, k :: j in name && k in name && name[j] == name[k] ==> j == k
  {
    forall p | p in AllFilePaths(r) ensures p in name.Values && p in paths {
      var k :| k in r.mails && r.mails[k].mailFile == Some(p);
      assert name[k] == p;
    }
    NamesDiffer(r, name);
  }

  lemma NamesDiffer(r: Store, name: map<Key, string>)
    requires Exclusive(r)
    requires forall k :: k in name ==> k in r.mails && r.mails[k].mailFile == Some(name[k])
    ensures forall j, k :: j in name && k in name && name[j] == name[k] ==> j == k
  {
    forall j, k | j in name && k in name && name[j] == name[k] ensures j == k {
      assert j != k ==> !ShareFile(r, j, k);
    }
  }

  lemma RowFileSize(r: Store, k: Key)
    requires Valid(r) && k in r.mails && r.mails[k].mailFile.Some?
    ensures var p := r.mails[k].mailFile.value;
      k in FileRowSizes(r) && p in EmlSizes(r.files) && EmlSizes(r.files)[p] == FileRowSizes(r)[k]
  {
    hide RelPath;
    assert RowOk(r, k);
    RelPathAccepted(k.mailbox, k.id);
  }
}
