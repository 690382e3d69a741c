// The two-tier store refines a plain map (mailbox, id) -> message: each
// operation keeps the store well formed and has the plain operation's effect
// on what the store stands for, whatever single step of it fails.

module Refinement {
  import opened Types
  import opened Paths
  import opened StoreModel
  import opened Text

  // ----- Who owns a path -----

  /** With directories that are not shared, only the row with key k can name k's path. */
  lemma PathOwner(s: Store, names: set<string>, j: Key, k: Key)
    requires j in s.mails && RowOk(s, j) && s.mails[j].mailFile.Some?
    requires j.mailbox in names && k.mailbox in names && Distinct(names)
    ensures s.mails[j].mailFile.value == PathOf(k) <==> j == k
  {
    RelPathInjective(j.mailbox, j.id, k.mailbox, k.id);
  }

  lemma PathsOwned(s: Store, names: set<string>, k: Key)
    requires Valid(s) && Fits(s, names) && k.mailbox in names
    ensures forall j :: j in s.mails && j != k ==> s.mails[j].mailFile != Some(PathOf(k))
  {
    forall j | j in s.mails && j != k ensures s.mails[j].mailFile != Some(PathOf(k)) {
      if s.mails[j].mailFile.Some? {
        PathOwner(s, names, j, k);
      }
    }
  }

  /** Where the first large message of each protected mailbox lies. */
  lemma FirstPaths()
    ensures PathOf(Key(INBOX, 1)) == "INBOX/1.eml"
    ensures PathOf(Key(OUTBOX, 1)) == "Outbox/1.eml"
    ensures PathOf(Key(SENT, 1)) == "Sent/1.eml"
  {
    hide RelPath;
    PlainPath("INBOX", 1);
    PlainPath("Outbox", 1);
    PlainPath("Sent", 1);
    assert Decimal(1) == "1";
  }

  // ----- One table statement -----

  /** A row whose columns and file are the same in two stores stands for the same message in both. */
  lemma SameRow(s: Store, r: Store, k: Key)
    requires k in s.mails && RowOk(s, k)
    requires k in r.mails && r.mails[k].(flags := s.mails[k].flags) == s.mails[k]
    requires s.mails[k].mailFile.Some? ==>
      var p := s.mails[k].mailFile.value; p in r.files && r.files[p] == s.files[p]
    ensures RowOk(r, k) && MessageOf(r, k) == MessageOf(s, k).(flags := r.mails[k].flags)
  {
    hide RelPath;
  }

  /** Views are equal when their tables have the same keys and stand for the same messages. */
  lemma SameView(s: Store, v: View)
    requires Valid(s)
    requires v.mailboxes == s.mailboxes && v.queue == s.queue
    requires v.mail.Keys == s.mails.Keys
    requires forall k :: k in s.mails ==> v.mail[k] == MessageOf(s, k)
    ensures ViewOf(s) == v
  {
    hide RelPath;
    assert ViewOf(s).mail == v.mail;
  }

  /** Adding a row that is right about its own content adds that message and nothing else. */
  lemma InsertRefines(s: Store, mailbox: string, row: Row, fault: bool)
    requires Valid(s)
    requires var k := FreshKey(s, mailbox); RowOk(s.(mails := s.mails[k := row]), k)
    requires row.mailFile.Some? ==> forall j :: j in s.mails ==> s.mails[j].mailFile != row.mailFile
    ensures var r := InsertMail(s, mailbox, row, fault);
      && r.result.Ok? == (!fault && mailbox in s.mailboxes)
      && Valid(r.store)
      && var k := FreshKey(s, mailbox);
      && k == Fresh(ViewOf(s), mailbox)
      && (r.result.Ok? ==> r.result.value == k.id && ViewOf(r.store) == Put(ViewOf(s), mailbox, MessageOf(r.store, k)))
      && (r.result.Err? ==> r.store == s)
  {
    hide RelPath;
    var r := InsertMail(s, mailbox, row, fault);
    var k := FreshKey(s, mailbox);
    assert ViewOf(s).mail.Keys == s.mails.Keys;
    if r.result.Ok? {
      forall j | j in s.mails ensures RowOk(r.store, j) && MessageOf(r.store, j) == MessageOf(s, j) {
        SameRow(s, r.store, j);
      }
      SameRow(s.(mails := s.mails[k := row]), r.store, k);
      forall i, j | i in r.store.mails && j in r.store.mails && i != j ensures !ShareFile(r.store, i, j) {
        assert i in s.mails && j in s.mails ==> !ShareFile(s, i, j);
      }
      SameView(r.store, Put(ViewOf(s), mailbox, MessageOf(r.store, k)));
    }
  }

  lemma DeleteRefines(s: Store, ks: set<Key>)
    requires Valid(s)
    ensures Valid(DeleteMails(s, ks))
    ensures ViewOf(DeleteMails(s, ks)) == Drop(ViewOf(s), ks)
  {
    hide RelPath;
    var r := DeleteMails(s, ks);
    forall j | j in r.mails ensures RowOk(r, j) && MessageOf(r, j) == MessageOf(s, j) {
      SameRow(s, r, j);
    }
    forall i, j | i in r.mails && j in r.mails && i != j ensures !ShareFile(r, i, j) {
      assert !ShareFile(s, i, j);
    }
    SameView(r, Drop(ViewOf(s), ks));
  }

  lemma FlagsRefine(s: Store, k: Key, flags: Flags)
    requires Valid(s)
    ensures Valid(SetFlags(s, k, flags))
    ensures ViewOf(SetFlags(s, k, flags)) == Flag(ViewOf(s), k, flags)
    ensures Valid(MarkDeleted(s, k))
    ensures ViewOf(MarkDeleted(s, k)) == Marked(ViewOf(s), k)
  {
    SetFlagsRefines(s, k, flags);
    if k in s.mails {
      SetFlagsRefines(s, k, s.mails[k].flags.(deleted := true));
    }
  }

  lemma SetFlagsRefines(s: Store, k: Key, flags: Flags)
    requires Valid(s)
    ensures Valid(SetFlags(s, k, flags))
    ensures ViewOf(SetFlags(s, k, flags)) == Flag(ViewOf(s), k, flags)
  {
    hide RelPath;
    if k in s.mails {
      var r := SetFlags(s, k, flags);
      assert r.mails.Keys == s.mails.Keys;
      forall j | j in s.mails ensures RowOk(r, j) && MessageOf(r, j) == MessageOf(s, j).(flags := r.mails[j].flags) {
        SameRow(s, r, j);
      }
      forall i, j | i in r.mails && j in r.mails && i != j ensures !ShareFile(r, i, j) {
        assert !ShareFile(s, i, j);
      }
      SameView(r, Flag(ViewOf(s), k, flags));
    }
  }

  /** Writing or removing a file that no row names changes no message. */
  lemma SpareFileRefines(s: Store, path: string, data: Bytes)
    requires Valid(s)
    requires forall j :: j in s.mails ==> s.mails[j].mailFile != Some(path)
    ensures Valid(s.(files := s.files[path := data])) && ViewOf(s.(files := s.files[path := data])) == ViewOf(s)
    ensures Valid(s.(files := s.files - {path})) && ViewOf(s.(files := s.files - {path})) == ViewOf(s)
  {
    OtherFilesRefine(s, s.files[path := data]);
    OtherFilesRefine(s, s.files - {path});
  }

  /** Only the files that rows name matter. */
  lemma OtherFilesRefine(s: Store, files: map<string, Bytes>)
    requires Valid(s)
    requires forall j :: j in s.mails && s.mails[j].mailFile.Some? ==>
      var p := s.mails[j].mailFile.value; p in files && p in s.files && files[p] == s.files[p]
    ensures Valid(s.(files := files)) && ViewOf(s.(files := files)) == ViewOf(s)
  {
    hide RelPath;
    var r := s.(files := files);
    forall j | j in r.mails ensures RowOk(r, j) && MessageOf(r, j) == MessageOf(s, j) {
      SameRow(s, r, j);
    }
    forall i, j | i in r.mails && j in r.mails && i != j ensures !ShareFile(r, i, j) {
      assert !ShareFile(s, i, j);
    }
    SameView(r, ViewOf(s));
  }

  // ----- Creating -----

  /** Both ways of creating a message add it to the plain map, whichever tier it lands in; a skipped insert
      reports success with id 0 and stores nothing. */
  lemma CreateRefines(s: Store, mailbox: string, data: Bytes, now: int, fault: Write)
    requires Valid(s)
    ensures var r := Create(s, mailbox, data, now, fault);
      var stored := fault.Succeeds? && mailbox in s.mailboxes;
      && Valid(r.store)
      && r.result.Ok? == (stored || fault.Skipped?)
      && (r.result.Ok? ==> r.result.value == if stored then Fresh(ViewOf(s), mailbox).id else 0)
      && ViewOf(r.store) == (if stored then Put(ViewOf(s), mailbox, Message(data, now, NO_FLAGS)) else ViewOf(s))
  {
    InsertRefines(s, mailbox, BlobRow(data, now), fault.Fails?);
  }

  lemma CreateFromStreamRefines(s: Store, names: set<string>, mailbox: string, data: Bytes, now: int, f: StreamFaults)
    requires Valid(s) && Fits(s, names) && mailbox in names
    ensures var r := CreateFromStream(s, mailbox, data, now, f);
      var stored := r.result.Ok? && !f.insert.Skipped?;
      && Valid(r.store)
      && (f == NO_STREAM_FAULTS ==> r.result.Ok? == (mailbox in s.mailboxes))
      && (r.result.Ok? ==> r.result.value == if stored then Fresh(ViewOf(s), mailbox).id else 0)
      && ViewOf(r.store) == (if stored then Put(ViewOf(s), mailbox, Message(data, now, NO_FLAGS)) else ViewOf(s))
  {
    CreateRefines(s, mailbox, data, now, f.insert);
    var k := FreshKey(s, mailbox);
    var path := PathOf(k);
    var stored := s.(files := s.files[path := data]);
    if !f.read && |data| >= SMALL_MESSAGE_THRESHOLD && !f.nextId && !f.store {
      PathsOwned(s, names, k);
      SpareFileRefines(s, path, data);
      InsertRefines(stored, mailbox, FileRow(path, |data|, now), f.insert.Fails?);
      SpareFileRefines(stored, path, data);
    }
  }

  lemma StreamAccepted(s: Store, mailbox: string, data: Bytes, now: int, insert: Write)
    ensures CreateFromStream(s, mailbox, data, now, NO_STREAM_FAULTS.(insert := insert)).result.Ok?
      <==> insert.Skipped? || (insert.Succeeds? && mailbox in s.mailboxes)
  {
  }

  /** A stored message is a file exactly from the threshold up. */
  lemma StreamTier(s: Store, mailbox: string, data: Bytes, now: int, f: StreamFaults)
    ensures var r := CreateFromStream(s, mailbox, data, now, f);
      r.result.Ok? && !f.insert.Skipped? ==>
        && FreshKey(s, mailbox) in r.store.mails
        && (r.store.mails[FreshKey(s, mailbox)].mailFile.Some? <==> |data| >= SMALL_MESSAGE_THRESHOLD)
  {
  }

  /** Every failing step fails the whole, and the only file it can leave behind is the one whose removal fails too. */
  lemma FailedStreamLeaves(s: Store, mailbox: string, data: Bytes, now: int, f: StreamFaults)
    ensures var r := CreateFromStream(s, mailbox, data, now, f);
      var large := |data| >= SMALL_MESSAGE_THRESHOLD;
      && (r.result.Ok? <==>
            !f.read && (large ==> !f.nextId && !f.store) &&
            (f.insert.Skipped? || (f.insert.Succeeds? && mailbox in s.mailboxes)))
      && (r.result.Err? ==> r.store.mails == s.mails)
      && (r.result.Err? && !f.remove ==>
            forall p :: p in r.store.files ==> p in s.files && r.store.files[p] == s.files[p])
      && (r.result.Err? && f.remove && large && !f.read && !f.nextId && !f.store ==>
            r.store.files == s.files[PathOf(FreshKey(s, mailbox)) := data])
      && (r.result.Ok? && large ==> r.store.files == s.files[PathOf(FreshKey(s, mailbox)) := data])
  {
    hide RelPath;
  }

  // ----- Moving -----

  /** The errors for which MailMoveWithFileStore has no compensation left. */
  predicate MoveLosesFile(s: Store, k: Key, destination: string, withFiles: bool, f: MoveFaults) {
    && !f.begin && !f.read && k in s.mails && withFiles && s.mails[k].mailFile.Some? && !f.nextId && !f.rename
    && (if f.insert || destination !in s.mailboxes then f.renameBack else f.delete)
  }

  /** Which moves are accepted when nothing fails. */
  predicate Movable(s: Store, k: Key, destination: string, withFiles: bool) {
    && k in s.mails && destination in s.mailboxes
    && (if s.mails[k].mail.Some? then s.mails[k].mail.value != [] else withFiles)
  }

  /** Renaming k's file to the path of an unused key leaves every other message alone. */
  lemma RenameEffect(s: Store, names: set<string>, k: Key, to: Key)
    requires Valid(s) && Fits(s, names) && k in s.mails && s.mails[k].mailFile.Some?
    requires to.mailbox in names && to !in s.mails
    ensures s.mails[k].mailFile == Some(PathOf(k)) && PathOf(k) in s.files && !HasDotDot(PathOf(k)) && PathOf(k) != ""
    ensures var r := RenameFile(s, PathOf(k), PathOf(to));
      && PathOf(k) !in r.files
      && PathOf(to) in r.files && r.files[PathOf(to)] == ContentOf(s, k)
      && (forall j :: j in s.mails && j != k ==> RowOk(r, j) && MessageOf(r, j) == MessageOf(s, j))
      && (forall j :: j in s.mails ==> s.mails[j].mailFile != Some(PathOf(to)))
  {
    hide RelPath;
    assert RowOk(s, k);
    RelPathAccepted(k.mailbox, k.id);
    PathsOwned(s, names, to);
    PathsOwned(s, names, k);
    RelPathInjective(k.mailbox, k.id, to.mailbox, to.id);
    var r := RenameFile(s, PathOf(k), PathOf(to));
    forall j | j in s.mails && j != k ensures RowOk(r, j) && MessageOf(r, j) == MessageOf(s, j) {
      SameRow(s, r, j);
    }
  }

  lemma FileMoveRefines(s: Store, names: set<string>, k: Key, destination: string)
    requires Valid(s) && Fits(s, names) && k in s.mails && s.mails[k].mailFile.Some?
    requires destination in s.mailboxes
    ensures var to := FreshKey(s, destination);
      var renamed := RenameFile(s, PathOf(k), PathOf(to));
      var row := s.mails[k].(mail := None, mailFile := Some(PathOf(to)));
      var r := DeleteMails(InsertMail(renamed, destination, row, false).store, {k});
      && s.mails[k].mailFile == Some(PathOf(k)) && PathOf(k) in s.files
      && Valid(r) && ViewOf(r) == Transfer(ViewOf(s), k, destination)
  {
    hide RelPath;
    var to := FreshKey(s, destination);
    RenameEffect(s, names, k, to);
    var renamed := RenameFile(s, PathOf(k), PathOf(to));
    var row := s.mails[k].(mail := None, mailFile := Some(PathOf(to)));
    var inserted := InsertMail(renamed, destination, row, false).store;
    var r := DeleteMails(inserted, {k});
    assert r == Store(s.mailboxes, s.mails[to := row] - {k}, DeleteMails(s, {k}).queue, renamed.files);
    assert RowOk(r, to) && MessageOf(r, to) == MessageOf(s, k);
    MovedStore(s, renamed, k, to, row, r);
    assert Fresh(ViewOf(s), destination) == to by {
      assert ViewOf(s).mail.Keys == s.mails.Keys;
    }
  }

  /** No row that stays names the file of the one that is new. */
  lemma StillExclusive(s: Store, r: Store, k: Key, to: Key, row: Row)
    requires Exclusive(s) && to !in s.mails && r.mails == s.mails[to := row] - {k}
    requires forall j :: j in s.mails ==> s.mails[j].mailFile != row.mailFile
    ensures Exclusive(r)
  {
    forall i, j | i in r.mails && j in r.mails && i != j ensures !ShareFile(r, i, j) {
      assert i in s.mails && j in s.mails ==> !ShareFile(s, i, j);
    }
  }

  /** The table half of a file move: one row replaced by one row that stands for the same message. */
  lemma MovedStore(s: Store, renamed: Store, k: Key, to: Key, row: Row, r: Store)
    requires Valid(s) && k in s.mails && to !in s.mails && to.mailbox in s.mailboxes
    requires renamed.mails == s.mails
    requires r == Store(s.mailboxes, s.mails[to := row] - {k}, DeleteMails(s, {k}).queue, renamed.files)
    requires forall j :: j in s.mails && j != k ==> RowOk(renamed, j) && MessageOf(renamed, j) == MessageOf(s, j)
    requires forall j :: j in s.mails ==> s.mails[j].mailFile != row.mailFile
    requires RowOk(r, to) && MessageOf(r, to) == MessageOf(s, k)
    ensures Valid(r)
    ensures ViewOf(r) == Drop(ViewOf(s).(mail := ViewOf(s).mail[to := MessageOf(s, k)]), {k})
  {
    hide RelPath, Exclusive;
    forall j | j in r.mails
      ensures RowOk(r, j) && MessageOf(r, j) == if j == to then MessageOf(s, k) else MessageOf(s, j)
    {
      if j != to {
        SameRow(renamed, r, j);
      }
    }
    StillExclusive(s, r, k, to, row);
    SameView(r, Drop(ViewOf(s).(mail := ViewOf(s).mail[to := MessageOf(s, k)]), {k}));
  }

  lemma BlobMoveRefines(s: Store, k: Key, destination: string, f: MoveFaults)
    requires Valid(s) && k in s.mails && s.mails[k].mail.Some?
    ensures var r := FinishMove(s, k, destination, s.mails[k].(mailFile := None), f, false, "");
      var inserted := destination in s.mailboxes && !f.insert;
      && Valid(r.store)
      && r.result == (if !inserted then Err(StorageError) else if f.delete then Err(SourceKept)
                      else Ok(Fresh(ViewOf(s), destination).id))
      && ViewOf(r.store) == MovedView(ViewOf(s), k, destination, r.result)
  {
    hide RelPath;
    var row := s.mails[k].(mailFile := None);
    assert RowOk(s, k);
    InsertRefines(s, destination, row, f.insert);
    var inserted := InsertMail(s, destination, row, f.insert);
    if inserted.result.Ok? {
      DeleteRefines(inserted.store, {k});
      assert inserted.store.mails[FreshKey(s, destination)] == row;
    }
  }

  /** What a move that was not skipped makes of the messages, by its answer. */
  function MovedView(v: View, k: Key, destination: string, r: Result<nat>): View
    requires k in v.mail
  {
    if r.Ok? then Transfer(v, k, destination)
    else if r.error == SourceKept then Put(v, destination, v.mail[k])
    else v
  }

  /** A successful move takes the message, unchanged, to a fresh id of the destination and touches no other
      message. If only the final DELETE fails the message is in both mailboxes. Every other failing move that has
      not lost the file changes no message: moving the file back works because the path it came from was the one
      its key names. A skipped move reports success and changes nothing. */
  lemma MoveRefines(s: Store, names: set<string>, k: Key, destination: string, withFiles: bool, f: MoveFaults)
    requires Valid(s) && Fits(s, names) && destination in names
    requires !MoveLosesFile(s, k, destination, withFiles, f)
    ensures var r := Move(s, k, destination, withFiles, f);
      && Valid(r.store)
      && (f.begin ==> r.result == Ok(0) && r.store == s)
      && (!f.begin && r.result.Ok? ==>
            Movable(s, k, destination, withFiles) && r.result.value == Fresh(ViewOf(s), destination).id)
      && (f == NO_MOVE_FAULTS ==> (r.result.Ok? <==> Movable(s, k, destination, withFiles)))
      && (r.result == Err(SourceKept) <==>
            && !f.begin && !f.read && !f.insert && f.delete && Movable(s, k, destination, withFiles)
            && s.mails[k].mail.Some?)
      && ViewOf(r.store) == (if k in s.mails && !f.begin then MovedView(ViewOf(s), k, destination, r.result)
                             else ViewOf(s))
  {
    MoveBranches(s, k, destination, withFiles, f);
    if k in s.mails && !f.read && !f.begin {
      if s.mails[k].mail.Some? {
        BlobMoveRefines(s, k, destination, f);
      } else if withFiles && !f.nextId && !f.rename {
        FileMoveOutcome(s, names, k, destination, f);
      }
    }
  }

  /** The move that fails at its very end: the error is reported, and what was inserted stays. */
  lemma MoveDuplicates(s: Store, names: set<string>, k: Key, destination: string, withFiles: bool)
    requires Valid(s) && Fits(s, names) && destination in names
    requires Movable(s, k, destination, withFiles) && s.mails[k].mail.Some?
    ensures var r, msg := Move(s, k, destination, withFiles, NO_MOVE_FAULTS.(delete := true)), MessageOf(s, k);
      && Valid(r.store) && r.result.Err?
      && ViewOf(r.store) == Put(ViewOf(s), destination, msg)
      && ViewOf(r.store).mail[k] == msg && ViewOf(r.store).mail[Fresh(ViewOf(s), destination)] == msg
  {
    var f := NO_MOVE_FAULTS.(delete := true);
    NotLost(s, k, destination, withFiles, f);
    MoveRefines(s, names, k, destination, withFiles, f);
    assert Fresh(ViewOf(s), destination) !in ViewOf(s).mail.Keys;
  }

  lemma NotLost(s: Store, k: Key, destination: string, withFiles: bool, f: MoveFaults)
    requires Valid(s) && k in s.mails && s.mails[k].mail.Some?
    ensures !MoveLosesFile(s, k, destination, withFiles, f)
  {
    assert RowOk(s, k);
  }

  /** Where a move goes, by the tier of the row and the steps that fail. */
  lemma MoveBranches(s: Store, k: Key, destination: string, withFiles: bool, f: MoveFaults)
    requires Valid(s)
    ensures var r := Move(s, k, destination, withFiles, f);
      if f.begin then r == Step(s, Ok(0))
      else if f.read || k !in s.mails then r.store == s && r.result.Err? && r.result.error != SourceKept
      else if s.mails[k].mail.Some? then
        if s.mails[k].mail.value == [] then r.store == s && r.result.Err? && r.result.error != SourceKept
        else r == FinishMove(s, k, destination, s.mails[k].(mailFile := None), f, false, "")
      else (withFiles && !f.nextId && !f.rename) || (r.store == s && r.result.Err? && r.result.error != SourceKept)
  {
    hide RelPath;
    if k in s.mails {
      assert RowOk(s, k);
      var row, path := s.mails[k], PathOf(FreshKey(s, destination));
      assert FinishMove(s, k, destination, row.(mailFile := None), f, false, path)
          == FinishMove(s, k, destination, row.(mailFile := None), f, false, "");
    }
  }

  /** Moving a file row once the file has been renamed: done, put back, or lost. */
  lemma FileMoveOutcome(s: Store, names: set<string>, k: Key, destination: string, f: MoveFaults)
    requires Valid(s) && Fits(s, names) && destination in names
    requires k in s.mails && s.mails[k].mailFile.Some? && !f.begin && !f.read && !f.nextId && !f.rename
    ensures var r := Move(s, k, destination, true, f);
      var refused := f.insert || destination !in s.mailboxes;
      && r.result.Ok? == (!refused && !f.delete)
      && (refused ==> r.result.Err? && r.result.error != SourceKept)
      && (Valid(r.store) <==> !(if refused then f.renameBack else f.delete))
      && (r.result.Ok? ==> r.result.value == Fresh(ViewOf(s), destination).id)
      && (Valid(r.store) ==> ViewOf(r.store) == if refused then ViewOf(s) else Transfer(ViewOf(s), k, destination))
  {
    hide RelPath;
    var to := FreshKey(s, destination);
    RenameEffect(s, names, k, to);
    assert RowOk(s, k);
    var r := Move(s, k, destination, true, f);
    var renamed := RenameFile(s, PathOf(k), PathOf(to));
    if f.insert || destination !in s.mailboxes {
      if f.renameBack {
        assert r.store == renamed;
        assert !RowOk(r.store, k);
      } else {
        var files := RenameFile(renamed, PathOf(to), PathOf(k)).files;
        assert r.store == s.(files := files);
        OtherFilesRefine(s, files);
      }
    } else if f.delete {
      assert !RowOk(r.store, k);
    } else {
      FileMoveRefines(s, names, k, destination);
    }
  }

  /** Exactly when a move, with any combination of failing steps, leaves a well-formed store. */
  lemma MoveKeepsValid(s: Store, names: set<string>, k: Key, destination: string, withFiles: bool, f: MoveFaults)
    requires Valid(s) && Fits(s, names) && destination in names
    ensures Valid(Move(s, k, destination, withFiles, f).store) <==> !MoveLosesFile(s, k, destination, withFiles, f)
  {
    MoveBranches(s, k, destination, withFiles, f);
    if k in s.mails && !f.read && !f.begin {
      if s.mails[k].mail.Some? {
        BlobMoveRefines(s, k, destination, f);
      } else if withFiles && !f.nextId && !f.rename {
        FileMoveOutcome(s, names, k, destination, f);
      }
    }
  }

  lemma MoveMailboxes(s: Store, k: Key, destination: string, withFiles: bool, f: MoveFaults)
    ensures Move(s, k, destination, withFiles, f).store.mailboxes == s.mailboxes
  {
    hide RelPath;
  }

  // ----- Removing -----

  /** The files that expunging removes belong to no row that stays. */
  lemma ClearedFiles(s: Store, ks: set<Key>, files: map<string, Bytes>)
    requires Valid(s)
    requires forall p :: p in s.files && p !in FilesOf(s, ks) ==> p in files && files[p] == s.files[p]
    ensures Valid(DeleteMails(s.(files := files), ks))
    ensures ViewOf(DeleteMails(s.(files := files), ks)) == Drop(ViewOf(s), ks)
  {
    hide RelPath;
    var r := DeleteMails(s.(files := files), ks);
    forall j | j in r.mails ensures RowOk(r, j) && MessageOf(r, j) == MessageOf(s, j) {
      assert RowOk(s, j);
      if s.mails[j].mailFile.Some? {
        forall i | i in ks && i in s.mails && s.mails[i].mailFile.Some?
          ensures s.mails[i].mailFile != s.mails[j].mailFile
        {
          assert !ShareFile(s, i, j);
        }
      }
      SameRow(s, r, j);
    }
    forall i, j | i in r.mails && j in r.mails && i != j ensures !ShareFile(r, i, j) {
      assert !ShareFile(s, i, j);
    }
    SameView(r, Drop(ViewOf(s), ks));
  }

  /** Where a failing DELETE leaves rows without their files. */
  predicate ExpungeLosesFile(s: Store, mailbox: string, withFiles: bool, f: ExpungeFaults) {
    withFiles && !f.begin && !f.query && f.delete && !(FilesOf(s, DeletedIn(s, mailbox)) <= f.stuck)
  }

  /** Expunging removes exactly the messages marked deleted in that mailbox, with or without their files, and
      whichever files cannot be removed; failing without losing a file, or skipped, it changes no message. */
  lemma ExpungeRefines(s: Store, mailbox: string, withFiles: bool, f: ExpungeFaults)
    requires Valid(s) && !ExpungeLosesFile(s, mailbox, withFiles, f)
    ensures var r := Expunge(s, mailbox, withFiles, f);
      var failed := !f.begin && ((withFiles && f.query) || f.delete);
      && Valid(r.store)
      && r.result.Ok? == !failed
      && ViewOf(r.store) == (if failed || f.begin then ViewOf(s) else Expunged(ViewOf(s), mailbox))
  {
    var ks := DeletedIn(s, mailbox);
    assert ks == (set k | k in ViewOf(s).mail && k.mailbox == mailbox && ViewOf(s).mail[k].flags.deleted);
    var cleared := if withFiles then s.files - Removable(FilesOf(s, ks), f.stuck) else s.files;
    ClearedFiles(s, ks, cleared);
    assert s.(files := s.files) == s;
    if f.delete && withFiles && FilesOf(s, ks) <= f.stuck {
      assert Removable(FilesOf(s, ks), f.stuck) == {};
      assert cleared == s.files;
    }
  }

  /** The files are removed before the rows: a failing DELETE leaves rows without their file, exactly
      when there was a file to remove. */
  lemma ExpungeKeepsValid(s: Store, mailbox: string, withFiles: bool, f: ExpungeFaults)
    requires Valid(s)
    ensures Valid(Expunge(s, mailbox, withFiles, f).store) <==> !ExpungeLosesFile(s, mailbox, withFiles, f)
  {
    if ExpungeLosesFile(s, mailbox, withFiles, f) {
      var ks, r := DeletedIn(s, mailbox), Expunge(s, mailbox, withFiles, f).store;
      var p :| p in FilesOf(s, ks) && p !in f.stuck;
      var k :| k in ks && k in s.mails && s.mails[k].mailFile == Some(p);
      assert RowOk(s, k);
      RelPathAccepted(k.mailbox, k.id);
      assert !RowOk(r, k);
    } else {
      ExpungeRefines(s, mailbox, withFiles, f);
    }
  }

  /** Any set of names that covers the rows does as well as another. */
  lemma MailboxNamesRefine(s: Store, mailboxes: set<string>)
    requires Valid(s) && forall k :: k in s.mails ==> k.mailbox in mailboxes
    ensures Valid(s.(mailboxes := mailboxes))
    ensures ViewOf(s.(mailboxes := mailboxes)) == ViewOf(s).(mailboxes := mailboxes)
  {
    hide RelPath;
    var r := s.(mailboxes := mailboxes);
    forall j | j in r.mails ensures RowOk(r, j) && MessageOf(r, j) == MessageOf(s, j) {
      SameRow(s, r, j);
    }
    forall i, j | i in r.mails && j in r.mails && i != j ensures !ShareFile(r, i, j) {
      assert !ShareFile(s, i, j);
    }
    SameView(r, ViewOf(s).(mailboxes := mailboxes));
  }

  lemma MailboxesRefine(s: Store, names: set<string>, name: string)
    requires Valid(s) && Fits(s, names) && name in names
    ensures Valid(CreateMailbox(s, name)) && Fits(CreateMailbox(s, name), names)
    ensures ViewOf(CreateMailbox(s, name)) == ViewOf(s).(mailboxes := s.mailboxes + {name})
    ensures Valid(DeleteMailbox(s, name)) && Fits(DeleteMailbox(s, name), names)
    ensures ViewOf(DeleteMailbox(s, name)) == Emptied(ViewOf(s), name)
  {
    hide RelPath, RowOk, Exclusive, Distinct;
    MailboxNamesRefine(s, s.mailboxes + {name});
    var ks := set k | k in s.mails && k.mailbox == name;
    assert ks == (set k | k in ViewOf(s).mail && k.mailbox == name);
    DeleteRefines(s, ks);
    MailboxNamesRefine(DeleteMails(s, ks), s.mailboxes - {name});
  }

  lemma QueueRefines(s: Store, destination: string, id: nat, envelope: Envelope, fault: Write)
    requires Valid(s)
    ensures var r := InsertQueue(s, destination, id, envelope, fault);
      var q := QueueKey(destination, Key(OUTBOX, id));
      var stored := fault.Succeeds? && q !in s.queue && q.mail in s.mails;
      && Valid(r.store)
      && r.result.Ok? == (stored || fault.Skipped?)
      && ViewOf(r.store) == (if stored then ViewOf(s).(queue := s.queue[q := envelope]) else ViewOf(s))
    ensures Valid(DeleteQueue(s, destination, id))
    ensures ViewOf(DeleteQueue(s, destination, id)) ==
      ViewOf(s).(queue := s.queue - {QueueKey(destination, Key(OUTBOX, id))})
  {
    QueueOnlyRefines(s, InsertQueue(s, destination, id, envelope, fault).store.queue);
    QueueOnlyRefines(s, DeleteQueue(s, destination, id).queue);
  }

  lemma QueueOnlyRefines(s: Store, queue: map<QueueKey, Envelope>)
    requires Valid(s)
    requires forall q :: q in queue ==> q.mail in s.mails && q.mail.mailbox == OUTBOX
    ensures Valid(s.(queue := queue)) && ViewOf(s.(queue := queue)) == ViewOf(s).(queue := queue)
  {
    hide RelPath;
    var r := s.(queue := queue);
    forall j | j in r.mails ensures RowOk(r, j) && MessageOf(r, j) == MessageOf(s, j) {
      SameRow(s, r, j);
    }
    forall i, j | i in r.mails && j in r.mails && i != j ensures !ShareFile(r, i, j) {
      assert !ShareFile(s, i, j);
    }
    SameView(r, ViewOf(s).(queue := queue));
  }

  // ----- Shared directories -----

  /** Without assuming anything about mailbox names: storing a large message damages the store exactly
      when some row already names the file it is written to. */
  lemma StreamKeepsValid(s: Store, mailbox: string, data: Bytes, now: int)
    requires Valid(s) && |data| >= SMALL_MESSAGE_THRESHOLD
    requires mailbox in s.mailboxes
    ensures Valid(CreateFromStream(s, mailbox, data, now, NO_STREAM_FAULTS).store) <==>
      PathOf(FreshKey(s, mailbox)) !in FilesOf(s, s.mails.Keys)
  {
    var k := FreshKey(s, mailbox);
    var path := PathOf(k);
    var r := CreateFromStream(s, mailbox, data, now, NO_STREAM_FAULTS).store;
    if path in FilesOf(s, s.mails.Keys) {
      var j :| j in s.mails && s.mails[j].mailFile == Some(path);
      assert ShareFile(r, j, k);
    } else {
      SpareFileRefines(s, path, data);
      InsertRefines(s.(files := s.files[path := data]), mailbox, FileRow(path, |data|, now), false);
    }
  }

  /** Such a pair of mailboxes: a large message for "A/B" replaces the first large message of "A_B". */
  lemma NestedMailboxOverwrites(first: Bytes, second: Bytes, now: int)
    requires |first| >= SMALL_MESSAGE_THRESHOLD && |second| >= SMALL_MESSAGE_THRESHOLD && first != second
    ensures var empty := Store({"A/B", "A_B"}, map[], map[], map[]);
      var one := CreateFromStream(empty, "A_B", first, now, NO_STREAM_FAULTS).store;
      var two := CreateFromStream(one, "A/B", second, now, NO_STREAM_FAULTS).store;
      && Valid(one) && !Valid(two)
      && Key("A_B", 1) in two.mails && two.mails[Key("A_B", 1)].mailFile.Some?
      && ContentOf(one, Key("A_B", 1)) == first
      && two.mails[Key("A_B", 1)].mailFile.value in two.files
      && two.files[two.mails[Key("A_B", 1)].mailFile.value] == second
  {
    hide RelPath, ViewOf;
    var empty := Store({"A/B", "A_B"}, map[], map[], map[]);
    var j, k := Key("A_B", 1), Key("A/B", 1);
    SamePath();
    FirstLarge(empty, j, first, now);
    StreamKeepsValid(empty, "A_B", first, now);
    var one := CreateFromStream(empty, "A_B", first, now, NO_STREAM_FAULTS).store;
    FirstLarge(one, k, second, now);
    assert PathOf(k) in FilesOf(one, one.mails.Keys) by {
      assert j in one.mails && one.mails[j].mailFile.value == PathOf(k);
    }
    StreamKeepsValid(one, "A/B", second, now);
  }

  lemma SamePath()
    ensures PathOf(Key("A_B", 1)) == PathOf(Key("A/B", 1))
  {
    SanitizeCollides();
    RelPathInjective("A/B", 1, "A_B", 1);
  }

  /** The first large message of an empty mailbox. */
  lemma FirstLarge(s: Store, k: Key, data: Bytes, now: int)
    requires |data| >= SMALL_MESSAGE_THRESHOLD && k.mailbox in s.mailboxes && k.id == 1
    requires forall j :: j in s.mails ==> j.mailbox != k.mailbox
    ensures FreshKey(s, k.mailbox) == k
    ensures CreateFromStream(s, k.mailbox, data, now, NO_STREAM_FAULTS).store
         == s.(files := s.files[PathOf(k) := data], mails := s.mails[k := FileRow(PathOf(k), |data|, now)])
  {
    hide RelPath;
    assert forall i: nat :: Key(k.mailbox, i) !in s.mails.Keys;
  }
}
