// SQLite3Storage: the tables, statement by statement, over one FileStore. Every
// method is proved to compute the store function of the same name.

module Storage {
  import opened Types
  import opened Paths
  import opened StoreModel
  import opened Maintenance
  import opened FileStorage
  import opened Sequence
  import opened Streams

  class SQLite3Storage {
    const disk: FileStore
    var mailboxes: set<string>
    var mails: map<Key, Row>
    var queue: map<QueueKey, Envelope>

    ghost function State(): Store
      reads this, disk
    {
      Store(mailboxes, mails, queue, disk.files)
    }

    constructor (disk: FileStore)
      ensures this.disk == disk
      ensures State() == Store({}, map[], map[], disk.files)
    {
      this.disk := disk;
      mailboxes, mails, queue := {}, map[], map[];
    }

    // ----- mailboxes -----

    /** How every write comes back to its caller: a task whose transaction could not begin is not run,
        and its caller is told nothing. */
    method Enter(fault: Write) returns (runs: bool, r: Result<()>)
      ensures runs == fault.Succeeds?
      ensures !runs ==> r == if fault.Fails? then Err(StorageError) else Ok(())
    {
      runs := fault.Succeeds?;
      r := if fault.Fails? then Err(StorageError) else Ok(());
    }

    method MailboxCreate(name: string, fault: Write) returns (r: Result<()>)
      modifies this
      ensures Step(State(), r) == Task(old(State()), CreateMailbox(old(State()), name), fault)
    {
      var runs;
      runs, r := Enter(fault);
      if runs {
        mailboxes := mailboxes + {name};
        r := Ok(());
      }
    }

    method MailboxDelete(name: string, fault: Write) returns (r: Result<()>)
      modifies this
      ensures Step(State(), r) == Task(old(State()), DeleteMailbox(old(State()), name), fault)
    {
      var runs;
      runs, r := Enter(fault);
      if runs {
        DeleteWhere(set k | k in mails && k.mailbox == name);
        mailboxes := mailboxes - {name};
        r := Ok(());
      }
    }

    // ----- mails -----

    /** DELETE FROM mails, cascading into queue. */
    method DeleteWhere(ks: set<Key>)
      modifies this
      ensures State() == DeleteMails(old(State()), ks)
    {
      mails := mails - ks;
      queue := map q | q in queue && q.mail !in ks :: queue[q];
    }

    /** INSERT INTO mails ... RETURNING id. */
    method InsertRow(mailbox: string, row: Row, fault: bool) returns (r: Result<nat>)
      modifies this
      ensures State() == InsertMail(old(State()), mailbox, row, fault).store
      ensures r == InsertMail(old(State()), mailbox, row, fault).result
    {
      if fault || mailbox !in mailboxes {
        return Err(StorageError);
      }
      var id := NextId(mails.Keys, mailbox);
      mails := mails[Key(mailbox, id) := row];
      return Ok(id);
    }

    method MailNextID(mailbox: string) returns (id: nat)
      ensures id == FreshKey(State(), mailbox).id
    {
      id := NextId(mails.Keys, mailbox);
    }

    /** The writer task around an INSERT: skipped, it leaves the caller's id at 0. */
    method InsertInTask(mailbox: string, row: Row, fault: Write) returns (r: Result<nat>)
      modifies this
      ensures Step(State(), r) == InsertTask(old(State()), mailbox, row, fault)
    {
      if fault.Skipped? {
        return Ok(0);
      }
      r := InsertRow(mailbox, row, fault.Fails?);
    }

    method MailCreate(mailbox: string, data: Bytes, now: int, fault: Write) returns (r: Result<nat>)
      modifies this
      ensures State() == Create(old(State()), mailbox, data, now, fault).store
      ensures r == Create(old(State()), mailbox, data, now, fault).result
    {
      r := InsertInTask(mailbox, Row(Some(data), None, |data|, now, NO_FLAGS), fault);
    }

    /** Reads ahead to choose the tier, then reassembles the message for it. A reader that fails in the
        middle of a large message fails StoreMail instead, with the same effect. */
    method MailCreateFromStream(mailbox: string, reader: Reader, fs: FileStore, now: int, f: StreamFaults)
      returns (r: Result<nat>)
      requires fs == disk && !f.read
      modifies this, fs, reader
      ensures var step := CreateFromStream(old(State()), mailbox, old(reader.Rest()), now, f.(read := reader.fails));
        && State() == step.store
        && r.Ok? == step.result.Ok?
        && (!reader.fails ==> r == step.result)
    {
      hide RelPath;
      ghost var data := reader.Rest();
      var peekBuf, peeked := ReadLimited(reader, SMALL_MESSAGE_THRESHOLD + 1);
      if !peeked {
        return Err(ReadError);
      }
      if |peekBuf| < SMALL_MESSAGE_THRESHOLD {
        var remaining, ok := ReadAll(reader, CHUNK_SIZE);
        if !ok {
          return Err(ReadError);
        }
        assert peekBuf + remaining == data;
        r := MailCreate(mailbox, peekBuf + remaining, now, f.insert);
        return;
      }
      reader.PutBack(peekBuf);
      assert reader.Rest() == data;
      r := CreateFile(mailbox, reader, fs, now, f);
    }

    /** The file half: store the stream under the next id, insert the row, remove the file if that fails. */
    method CreateFile(mailbox: string, reader: Reader, fs: FileStore, now: int, f: StreamFaults)
      returns (r: Result<nat>)
      requires fs == disk && !f.read && |reader.Rest()| >= SMALL_MESSAGE_THRESHOLD
      modifies this, fs, reader
      ensures reader.fails ==> State() == old(State()) && r.Err?
      ensures !reader.fails ==> State() == CreateFromStream(old(State()), mailbox, old(reader.Rest()), now, f).store
      ensures !reader.fails ==> r == CreateFromStream(old(State()), mailbox, old(reader.Rest()), now, f).result
    {
      hide RelPath;
      ghost var before := State();
      if f.nextId {
        return Err(StorageError);
      }
      var nextId := MailNextID(mailbox);
      var content, copied := ReadAll(reader, CHUNK_SIZE);
      var stored := fs.StoreMail(nextId, mailbox, content, f.store || !copied);
      if stored.Err? {
        return Err(FileError);
      }
      var filePath, fileSize := stored.value.0, stored.value.1;
      RelPathAccepted(mailbox, nextId);
      assert State() == before.(files := before.files[PathOf(FreshKey(before, mailbox)) := content]);
      r := InsertInTask(mailbox, FileRow(filePath, fileSize, now), f.insert);
      if r.Err? {
        var _ := fs.DeleteMail(filePath, f.remove);
      }
    }

    /** One row of the `inboxes` view: its sequence number and its columns. */
    method MailSelect(mailbox: string, id: nat) returns (n: nat, r: Result<Row>)
      ensures r == if Key(mailbox, id) in mails then Ok(mails[Key(mailbox, id)]) else Err(NotFound)
      ensures r.Ok? ==>
        n == SeqOf(IdsIn(mails.Keys, mailbox), id) && IdForSeq(IdsIn(mails.Keys, mailbox), n) == Some(id)
    {
      if Key(mailbox, id) !in mails {
        return 0, Err(NotFound);
      }
      SeqAndIdAreInverse(IdsIn(mails.Keys, mailbox));
      return SeqOf(IdsIn(mails.Keys, mailbox), id), Ok(mails[Key(mailbox, id)]);
    }

    method MailIDForSeq(mailbox: string, n: nat) returns (r: Result<nat>)
      ensures r == match IdForSeq(IdsIn(mails.Keys, mailbox), n) case Some(id) => Ok(id) case None => Err(NotFound)
    {
      var id := IdForSeq(IdsIn(mails.Keys, mailbox), n);
      if id.None? {
        return Err(NotFound);
      }
      return Ok(id.value);
    }

    /** The bytes of a selected row, from whichever tier holds them. */
    method ReadContent(row: Row, fault: bool) returns (r: Result<Bytes>)
      ensures forall k :: k in mails && mails[k] == row && Valid(State()) ==>
        r == if fault && row.mailFile.Some? then Err(FileError) else Ok(ContentOf(State(), k))
    {
      hide RelPath;
      if row.mailFile.Some? {
        r := disk.ReadMail(row.mailFile.value, fault);
      } else if row.mail.Some? {
        r := Ok(row.mail.value);
      } else {
        r := Err(NoContent);
      }
      forall k | k in mails && mails[k] == row && Valid(State())
        ensures r == if fault && row.mailFile.Some? then Err(FileError) else Ok(ContentOf(State(), k))
      {
        assert RowOk(State(), k);
        RelPathAccepted(k.mailbox, k.id);
      }
    }

    method MailUpdateFlags(mailbox: string, id: nat, flags: Flags, fault: Write) returns (r: Result<()>)
      modifies this
      ensures Step(State(), r) == Task(old(State()), SetFlags(old(State()), Key(mailbox, id), flags), fault)
    {
      var runs, k;
      runs, r := Enter(fault);
      k := Key(mailbox, id);
      if runs {
        if k in mails {
          mails := mails[k := mails[k].(flags := flags)];
        }
        r := Ok(());
      }
    }

    method MailDelete(mailbox: string, id: nat, fault: Write) returns (r: Result<()>)
      modifies this
      ensures Step(State(), r) == Task(old(State()), MarkDeleted(old(State()), Key(mailbox, id)), fault)
    {
      var runs, k;
      runs, r := Enter(fault);
      k := Key(mailbox, id);
      if runs {
        if k in mails {
          mails := mails[k := mails[k].(flags := mails[k].flags.(deleted := true))];
        }
        r := Ok(());
      }
    }

    method MailExpunge(mailbox: string, f: ExpungeFaults) returns (r: Result<()>)
      modifies this
      ensures State() == Expunge(old(State()), mailbox, false, f).store
      ensures r == Expunge(old(State()), mailbox, false, f).result
    {
      if f.begin {
        return Ok(());
      }
      var ks := set k | k in mails && k.mailbox == mailbox && mails[k].flags.deleted;
      assert ks == DeletedIn(State(), mailbox);
      if f.delete {
        return Err(StorageError);
      }
      DeleteWhere(ks);
      return Ok(());
    }

    /** A file that cannot be removed is only warned about. */
    method DeleteFiles(filesToDelete: set<string>, fs: FileStore, stuck: set<string>)
      modifies fs
      ensures fs.files == old(fs.files) - Removable(filesToDelete, stuck)
    {
      var rest := filesToDelete;
      while rest != {}
        invariant rest <= filesToDelete
        invariant fs.files == old(fs.files) - Removable(filesToDelete - rest, stuck)
      {
        var filePath :| filePath in rest;
        var _ := fs.DeleteMail(filePath, filePath in stuck);
        rest := rest - {filePath};
      }
      assert filesToDelete - rest == filesToDelete;
    }

    method MailExpungeWithFileStore(mailbox: string, fs: FileStore, f: ExpungeFaults) returns (r: Result<()>)
      requires fs == disk
      modifies this, fs
      ensures State() == Expunge(old(State()), mailbox, true, f).store
      ensures r == Expunge(old(State()), mailbox, true, f).result
    {
      if f.begin {
        return Ok(());
      }
      if f.query {
        return Err(StorageError);
      }
      var ks := set k | k in mails && k.mailbox == mailbox && mails[k].flags.deleted;
      assert ks == DeletedIn(State(), mailbox);
      var filesToDelete := set k | k in ks && mails[k].mailFile.Some? :: mails[k].mailFile.value;
      assert filesToDelete == FilesOf(State(), ks);
      DeleteFiles(filesToDelete, fs, f.stuck);
      if f.delete {
        return Err(StorageError);
      }
      DeleteWhere(ks);
      return Ok(());
    }

    method MailMoveWithFileStore(mailbox: string, id: nat, destination: string, fs: FileStore?, f: MoveFaults)
      returns (r: Result<nat>)
      requires fs == null || fs == disk
      modifies this, disk
      ensures State() == Move(old(State()), Key(mailbox, id), destination, fs != null, f).store
      ensures r == Move(old(State()), Key(mailbox, id), destination, fs != null, f).result
    {
      hide RelPath;
      var k := Key(mailbox, id);
      if f.begin {
        return Ok(0);
      }
      if f.read {
        return Err(StorageError);
      }
      if k !in mails {
        return Err(NotFound);
      }
      var row := mails[k];
      var newFilePath := None;
      if fs != null && row.mailFile.Some? && row.mailFile.value != "" {
        if f.nextId {
          return Err(StorageError);
        }
        var nextId := MailNextID(destination);
        var moved := fs.MoveMail(row.mailFile.value, destination, nextId, f.rename);
        if moved.Err? {
          return Err(FileError);
        }
        newFilePath := Some(moved.value);
      }
      if row.mail.Some? && row.mail.value != [] {
        r := InsertRow(destination, row.(mailFile := None), f.insert);
      } else if newFilePath.Some? {
        r := InsertRow(destination, row.(mail := None, mailFile := newFilePath), f.insert);
      } else {
        return Err(NoContent);
      }
      if r.Err? {
        if newFilePath.Some? {
          RelPathAccepted(destination, FreshKey(old(State()), destination).id);
          var _ := fs.MoveMail(newFilePath.value, mailbox, id, f.renameBack);
        }
        return;
      }
      if f.delete {
        return Err(SourceKept);
      }
      DeleteWhere({k});
    }

    method MailGetAllFilePaths() returns (validPaths: set<string>)
      ensures validPaths == AllFilePaths(State())
    {
      validPaths := {};
      var rest := mails.Keys;
      while rest != {}
        invariant rest <= mails.Keys
        invariant validPaths == FilesOf(State(), mails.Keys - rest)
      {
        var k :| k in rest;
        rest := rest - {k};
        if mails[k].mailFile.Some? {
          validPaths := validPaths + {mails[k].mailFile.value};
        }
      }
      assert mails.Keys - rest == mails.Keys;
    }

    // ----- queue -----

    method QueueInsertDestinationForID(destination: string, id: nat, from: string, rcpt: string, fault: Write)
      returns (r: Result<()>)
      modifies this
      ensures State() == InsertQueue(old(State()), destination, id, Envelope(from, rcpt), fault).store
      ensures r == InsertQueue(old(State()), destination, id, Envelope(from, rcpt), fault).result
    {
      var q := QueueKey(destination, Key(OUTBOX, id));
      var runs;
      runs, r := Enter(fault);
      if runs {
        if q in queue || q.mail !in mails {
          return Err(StorageError);
        }
        queue := queue[q := Envelope(from, rcpt)];
        r := Ok(());
      }
    }

    method QueueDeleteDestinationForID(destination: string, id: nat, fault: Write) returns (r: Result<()>)
      modifies this
      ensures Step(State(), r) == Task(old(State()), DeleteQueue(old(State()), destination, id), fault)
    {
      var runs;
      runs, r := Enter(fault);
      if runs {
        queue := queue - {QueueKey(destination, Key(OUTBOX, id))};
        r := Ok(());
      }
    }

    /** SELECT COUNT(*) > 0 */
    method QueueSelectIsMessagePendingSend(mailbox: string, id: nat) returns (pending: bool)
      ensures pending <==> exists q :: q in queue && q.mail == Key(mailbox, id)
    {
      var rows := set q | q in queue && q.mail == Key(mailbox, id);
      pending := |rows| > 0;
      if pending {
        var q :| q in rows;
      } else {
        assert forall q :: q in queue && q.mail == Key(mailbox, id) ==> q in rows;
      }
    }

    /** ORDER BY id DESC; the other columns of each row come with its id. */
    method QueueMailIDsForDestination(destination: string) returns (refs: seq<nat>, envelopes: seq<Envelope>)
      ensures forall i :: i in refs <==> exists q :: q in queue && q.destination == destination && q.mail.id == i
      ensures forall i, j :: 0 <= i < j < |refs| ==> refs[i] > refs[j]
      ensures |envelopes| == |refs|
      ensures forall i :: 0 <= i < |refs| && QueueKey(destination, Key(OUTBOX, refs[i])) in queue ==>
        envelopes[i] == queue[QueueKey(destination, Key(OUTBOX, refs[i]))]
    {
      refs := QueueIDs(destination);
      envelopes := [];
      for n := 0 to |refs|
        invariant |envelopes| == n
        invariant forall i :: 0 <= i < n && QueueKey(destination, Key(OUTBOX, refs[i])) in queue ==>
          envelopes[i] == queue[QueueKey(destination, Key(OUTBOX, refs[i]))]
      {
        assert refs[n] in refs;
        var q :| q in queue && q.destination == destination && q.mail.id == refs[n];
        var own := QueueKey(destination, Key(OUTBOX, refs[n]));
        envelopes := envelopes + [queue[if own in queue then own else q]];
      }
    }

    method QueueIDs(destination: string) returns (refs: seq<nat>)
      ensures forall i :: i in refs <==> exists q :: q in queue && q.destination == destination && q.mail.id == i
      ensures forall i, j :: 0 <= i < j < |refs| ==> refs[i] > refs[j]
    {
      refs := [];
      var rest := set q | q in queue && q.destination == destination :: q.mail.id;
      ghost var all := rest;
      while rest != {}
        invariant rest <= all
        invariant forall i :: i in refs <==> i in all && i !in rest
        invariant forall i, j :: i in refs && j in rest ==> i > j
        invariant forall i, j :: 0 <= i < j < |refs| ==> refs[i] > refs[j]
      {
        MaxExists(rest);
        var top :| top in rest && forall i :: i in rest ==> i <= top;
        rest := rest - {top};
        assert forall i :: 0 <= i < |refs| ==> refs[i] in refs;
        refs := refs + [top];
      }
    }

    // ----- migration -----

    /** The cursor of the migration: large blobs, longest first. */
    method SelectLarge(threshold: nat) returns (rows: seq<Key>)
      ensures IsCursor(rows, LargeSizes(State(), threshold))
    {
      rows := [];
      var sizes := map k | k in mails && mails[k].mail.Some? && mails[k].mailFile.None?
        && |mails[k].mail.value| > threshold :: |mails[k].mail.value|;
      assert sizes == LargeSizes(State(), threshold);
      var rest := sizes.Keys;
      while rest != {}
        invariant rest <= sizes.Keys
        invariant forall k :: k in rows <==> k in sizes && k !in rest
        invariant forall i, j :: 0 <= i < j < |rows| ==> rows[i] != rows[j]
        invariant forall i, j :: 0 <= i < j < |rows| ==> sizes[rows[i]] >= sizes[rows[j]]
        invariant forall j, k :: j in rows && k in rest ==> sizes[j] >= sizes[k]
      {
        LongestExists(sizes, rest);
        var k :| k in rest && forall j :: j in rest ==> sizes[k] >= sizes[j];
        rest := rest - {k};
        rows := rows + [k];
      }
    }

    /** The loop body of the migration: file first, then the row; a failed update removes the file again. */
    method MigrateMessage(k: Key, fs: FileStore, threshold: nat, f: MigrateFault, count: nat, total: nat)
      returns (migratedCount: nat, totalSize: nat)
      requires fs == disk && IsLarge(State(), k, threshold)
      modifies this, fs
      ensures Migration(State(), migratedCount, totalSize)
           == MigrateRow(Migration(old(State()), count, total), k, threshold, f)
    {
      hide RelPath;
      migratedCount, totalSize := count, total;
      if f.ScanFails? {
        return;
      }
      var data := mails[k].mail.value;
      var stored := fs.StoreMail(k.id, k.mailbox, data, f.StoreFails?);
      if stored.Err? {
        return;
      }
      var filePath, fileSize := stored.value.0, stored.value.1;
      if f.UpdateFails? {
        RelPathAccepted(k.mailbox, k.id);
        var _ := fs.DeleteMail(filePath, f.removeFails);
        return;
      }
      mails := mails[k := mails[k].(mail := None, mailFile := Some(filePath), size := fileSize)];
      migratedCount := migratedCount + 1;
      totalSize := totalSize + |data|;
    }

    method MigrateLargeMessagesToFiles(fs: FileStore, threshold: nat, fault: Key -> MigrateFault)
      returns (migratedCount: nat, totalSize: nat, ghost rows: seq<Key>)
      requires fs == disk
      modifies this, fs
      ensures IsCursor(rows, LargeSizes(old(State()), threshold))
      ensures Migration(State(), migratedCount, totalSize)
           == MigrateRows(old(State()), rows, threshold, seq(|rows|, i requires 0 <= i < |rows| => fault(rows[i])))
    {
      hide RelPath, MigrateRow, IsCursor, LargeSizes, IsLarge;
      migratedCount, totalSize := 0, 0;
      var cursor := SelectLarge(threshold);
      rows := cursor;
      ghost var faults := seq(|rows|, i requires 0 <= i < |rows| => fault(rows[i]));
      CursorIsLarge(State(), rows, threshold);
      for i := 0 to |cursor|
        invariant Migration(State(), migratedCount, totalSize)
             == MigrateRows(old(State()), cursor[..i], threshold, faults[..i])
        invariant forall j :: i <= j < |cursor| ==> IsLarge(State(), cursor[j], threshold)
      {
        assert cursor[..i + 1][..i] == cursor[..i] && faults[..i + 1][..i] == faults[..i];
        ghost var before := Migration(State(), migratedCount, totalSize);
        migratedCount, totalSize := MigrateMessage(cursor[i], fs, threshold, fault(cursor[i]), migratedCount,
                                                   totalSize);
        forall j | i < j < |cursor| ensures IsLarge(State(), cursor[j], threshold) {
          OtherRowStays(before, cursor[i], threshold, fault(cursor[i]), cursor[j]);
        }
      }
      assert cursor[..|cursor|] == cursor && faults[..|cursor|] == faults;
    }
  }

  lemma CursorIsLarge(s: Store, rows: seq<Key>, threshold: nat)
    requires IsCursor(rows, LargeSizes(s, threshold))
    ensures forall i, j :: 0 <= i < j < |rows| ==> rows[i] != rows[j]
    ensures forall j :: 0 <= j < |rows| ==> IsLarge(s, rows[j], threshold)
  {
    assert forall j :: 0 <= j < |rows| ==> rows[j] in rows;
  }

  lemma OtherRowStays(m: Migration, k: Key, threshold: nat, f: MigrateFault, j: Key)
    requires j != k && IsLarge(m.store, j, threshold)
    ensures IsLarge(MigrateRow(m, k, threshold, f).store, j, threshold)
  {
  }

  lemma {:induction false} LongestExists(sizes: map<Key, nat>, rest: set<Key>)
    requires rest != {} && rest <= sizes.Keys
    ensures exists k :: k in rest && forall j :: j in rest ==> sizes[k] >= sizes[j]
  {
    var x :| x in rest;
    var less := rest - {x};
    if less == {} {
      assert rest == {x};
    } else {
      LongestExists(sizes, less);
      var k :| k in less && forall j :: j in less ==> sizes[k] >= sizes[j];
      var top := if sizes[k] >= sizes[x] then k else x;
      forall j | j in rest ensures sizes[top] >= sizes[j] {
        assert j == x || j in less;
      }
      assert top in rest;
    }
  }
}
