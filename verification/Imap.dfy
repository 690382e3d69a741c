// mailbox.go: an IMAP mailbox over the storage classes.

module Imap {
  import opened Types
  import opened Paths
  import opened StoreModel
  import opened Refinement
  import opened Sequence
  import opened Streams
  import opened FileStorage
  import opened Storage
  import opened Bulk

  ghost predicate Ready(s: Store, names: set<string>, mailbox: string) {
    Valid(s) && Fits(s, names) && mailbox in names
  }

  /** One flag name; names other than the four below set nothing. */
  function OneFlag(flag: string): Flags {
    Flags(flag == "\\Seen", flag == "\\Answered", flag == "\\Flagged", flag == "\\Deleted")
  }

  function Union(a: Flags, b: Flags): Flags {
    Flags(a.seen || b.seen, a.answered || b.answered, a.flagged || b.flagged, a.deleted || b.deleted)
  }

  /** What a client asks for. */
  function AllFlags(flags: seq<string>): Flags {
    if flags == [] then NO_FLAGS else Union(AllFlags(flags[..|flags| - 1]), OneFlag(flags[|flags| - 1]))
  }

  /** A flag is asked for exactly by its own name. */
  lemma {:induction false} AskedFor(flags: seq<string>)
    ensures AllFlags(flags).seen <==> "\\Seen" in flags
    ensures AllFlags(flags).answered <==> "\\Answered" in flags
    ensures AllFlags(flags).flagged <==> "\\Flagged" in flags
    ensures AllFlags(flags).deleted <==> "\\Deleted" in flags
  {
    if flags != [] {
      AskedFor(flags[..|flags| - 1]);
      assert flags == flags[..|flags| - 1] + [flags[|flags| - 1]];
    }
  }

  /** What the last of several writes leaves: each replaces the one before. */
  function LastFlag(flags: seq<string>): Flags {
    if flags == [] then NO_FLAGS else OneFlag(flags[|flags| - 1])
  }

  /** A new message gets the flags asked for exactly when the last of them adds the others nothing to say. */
  lemma {:induction false} FlagsHonoured(flags: seq<string>)
    ensures LastFlag(flags) == AllFlags(flags) <==>
      forall i :: 0 <= i < |flags| ==> OneFlag(flags[i]) == NO_FLAGS || OneFlag(flags[i]) == LastFlag(flags)
  {
    hide OneFlag;
    FlagsCollected(flags);
    if i :| 0 <= i < |flags| && OneFlag(flags[i]) != NO_FLAGS && OneFlag(flags[i]) != LastFlag(flags) {
      SingleFlags(flags[i], flags[|flags| - 1]);
    } else {
      FlagsLeast(flags, LastFlag(flags));
      if flags != [] {
        assert Includes(AllFlags(flags), OneFlag(flags[|flags| - 1]));
      }
    }
  }

  datatype Flagging = Flagging(flags: Flags, ok: bool)

  /** One UPDATE per flag on a row that has the flags `first`; the first that fails ends the loop. */
  function WriteFlags(first: Flags, flags: seq<string>, writes: nat -> Write): Flagging {
    if flags == [] then Flagging(first, true)
    else
      var n := |flags| - 1;
      var before := WriteFlags(first, flags[..n], writes);
      if !before.ok then before
      else
        match writes(n)
        case Fails => Flagging(before.flags, false)
        case Skipped => before
        case Succeeds => Flagging(OneFlag(flags[n]), true)
  }

  /** Write n is the first that fails, or there is none and n is their number. */
  ghost predicate StopsAt(flags: seq<string>, writes: nat -> Write, n: nat) {
    n <= |flags| && (forall i: nat :: i < n ==> !writes(i).Fails?) && (n < |flags| ==> writes(n).Fails?)
  }

  /** Write j is the last of the first n that is carried out. */
  ghost predicate IsLastWrite(writes: nat -> Write, j: nat, n: nat) {
    j < n && writes(j).Succeeds? && forall i: nat :: j < i < n ==> !writes(i).Succeeds?
  }

  /** The row is left with the flag of the last write carried out before the first failing one; that one is reported. */
  lemma {:induction false} FlagsWritten(first: Flags, flags: seq<string>, writes: nat -> Write, n: nat)
    requires StopsAt(flags, writes, n)
    ensures WriteFlags(first, flags, writes).ok <==> n == |flags|
    ensures forall j: nat :: IsLastWrite(writes, j, n) ==> WriteFlags(first, flags, writes).flags == OneFlag(flags[j])
    ensures (forall i: nat :: i < n ==> writes(i).Skipped?) ==> WriteFlags(first, flags, writes).flags == first
    ensures n > 0 && n == |flags| && writes(n - 1).Succeeds? ==>
      WriteFlags(first, flags, writes).flags == LastFlag(flags)
  {
    hide OneFlag;
    if n < |flags| {
      WritesStop(first, flags, writes, n);
      FlagsWritten(first, flags[..n], writes, n);
    } else if n > 0 {
      FlagsWritten(first, flags[..n - 1], writes, n - 1);
      forall j: nat | IsLastWrite(writes, j, n) ensures WriteFlags(first, flags, writes).flags == OneFlag(flags[j]) {
        if j < n - 1 {
          assert IsLastWrite(writes, j, n - 1);
        }
      }
    }
  }

  /** Once a write has failed the rest are not tried. */
  lemma {:induction false} WriteStops(first: Flags, flags: seq<string>, writes: nat -> Write, n: nat)
    requires n <= |flags| && !WriteFlags(first, flags[..n], writes).ok
    ensures WriteFlags(first, flags, writes) == WriteFlags(first, flags[..n], writes)
  {
    hide OneFlag;
    if n == |flags| {
      assert flags[..n] == flags;
    } else {
      var last := |flags| - 1;
      assert flags[..last][..n] == flags[..n];
      WriteStops(first, flags[..last], writes, n);
    }
  }

  lemma WritesStop(first: Flags, flags: seq<string>, writes: nat -> Write, n: nat)
    requires StopsAt(flags, writes, n) && n < |flags|
    ensures WriteFlags(first, flags, writes) == WriteFlags(first, flags[..n], writes).(ok := false)
  {
    hide OneFlag;
    AllWritten(first, flags[..n], writes);
    assert flags[..n + 1][..n] == flags[..n];
    WriteStops(first, flags, writes, n + 1);
  }

  lemma {:induction false} AllWritten(first: Flags, flags: seq<string>, writes: nat -> Write)
    requires forall i: nat :: i < |flags| ==> !writes(i).Fails?
    ensures WriteFlags(first, flags, writes).ok
  {
    hide OneFlag;
    if flags != [] {
      AllWritten(first, flags[..|flags| - 1], writes);
    }
  }

  predicate Includes(a: Flags, b: Flags) {
    Union(a, b) == a
  }

  lemma {:induction false} FlagsCollected(flags: seq<string>)
    ensures forall i :: 0 <= i < |flags| ==> Includes(AllFlags(flags), OneFlag(flags[i]))
  {
    hide OneFlag;
    if flags != [] {
      var n := |flags| - 1;
      FlagsCollected(flags[..n]);
      assert forall i :: 0 <= i < n ==> flags[..n][i] == flags[i];
    }
  }

  lemma {:induction false} FlagsLeast(flags: seq<string>, f: Flags)
    requires forall i :: 0 <= i < |flags| ==> Includes(f, OneFlag(flags[i]))
    ensures Includes(f, AllFlags(flags))
  {
    hide OneFlag;
    if flags != [] {
      FlagsLeast(flags[..|flags| - 1], f);
    }
  }

  lemma SingleFlags(a: string, b: string)
    requires OneFlag(a) != NO_FLAGS && OneFlag(a) != OneFlag(b)
    ensures !Includes(OneFlag(b), OneFlag(a))
  {
  }

  class Mailbox {
    const name: string
    const storage: SQLite3Storage
    const fs: FileStore

    constructor (name: string, storage: SQLite3Storage, fs: FileStore)
      ensures this.name == name && this.storage == storage && this.fs == fs
    {
      this.name, this.storage, this.fs := name, storage, fs;
    }

    /** getIDsFromSeqSet. */
    method GetIDsFromSeqSet(uid: bool, seqSet: seq<Range>) returns (r: Result<seq<nat>>)
      ensures var ids := Resolve(uid, storage.mails.Keys, name, seqSet);
        r == if ids.Some? then Ok(ids.value) else Err(NotFound)
    {
      hide IdForSeq, LookupAll, Numbers, Span, IdsIn, NextId;
      var ids: seq<nat> := [];
      ghost var live, next := IdsIn(storage.mails.Keys, name), NextId(storage.mails.Keys, name);
      NothingToLookUp(uid, live, next);
      for k := 0 to |seqSet|
        invariant LookupAll(uid, live, Numbers(seqSet[..k], next)) == Some(ids)
      {
        NumbersSnoc(seqSet, next, k);
        ghost var before := Numbers(seqSet[..k], next);
        ghost var span := Span(seqSet[k].start, Stop(seqSet[k], next));
        var stop: int := seqSet[k].stop;
        if stop == 0 {
          var nextId := storage.MailNextID(name);
          stop := nextId - 1;
        }
        var i := seqSet[k].start;
        assert before + span[..0] == before;
        while i <= stop
          invariant seqSet[k].start <= i && (i <= stop + 1 || i == seqSet[k].start)
          invariant LookupAll(uid, live, before + span[..i - seqSet[k].start]) == Some(ids)
        {
          ghost var j := i - seqSet[k].start;
          assert before + span[..j + 1] == before + span[..j] + [i];
          LookupSnoc(uid, live, before + span[..j], i);
          if !uid {
            var pid := storage.MailIDForSeq(name, i);
            if pid.Err? {
              ResolveFails(uid, live, seqSet, next, k, j + 1);
              return Err(NotFound);
            }
            ids := ids + [pid.value];
          } else {
            ids := ids + [i];
          }
          i := i + 1;
        }
        assert span[..i - seqSet[k].start] == span;
      }
      assert seqSet[..|seqSet|] == seqSet;
      return Ok(ids);
    }

    /** CopyMessages: blobs are inserted as they are, files copied through a stream; then the flags. */
    method CopyMessages(uid: bool, seqSet: seq<Range>, destName: string, attempts: nat -> Attempt,
                        ghost names: set<string>)
      returns (r: Result<()>)
      requires Ready(storage.State(), names, destName) && fs == storage.disk
      modifies storage, storage.disk
      ensures Ready(storage.State(), names, destName)
      ensures var v, ids := old(ViewOf(storage.State())), Resolve(uid, old(storage.mails.Keys), name, seqSet);
        if destName == OUTBOX || ids.None? then r.Err? && ViewOf(storage.State()) == v
        else Copied(ViewOf(storage.State()), r.Ok?) == CopyAll(v, name, ids.value, destName, attempts)
    {
      hide RelPath, Fits, Resolve, CopyOne;
      if destName == OUTBOX {
        return Err(Refused);
      }
      var resolved := GetIDsFromSeqSet(uid, seqSet);
      if resolved.Err? {
        return Err(resolved.error);
      }
      var ids := resolved.value;
      ghost var v := ViewOf(storage.State());
      for i := 0 to |ids|
        invariant Ready(storage.State(), names, destName)
        invariant Copied(ViewOf(storage.State()), true) == CopyAll(v, name, ids[..i], destName, attempts)
      {
        assert ids[..i + 1][..i] == ids[..i];
        r := CopyMessage(ids[i], destName, attempts(i), names);
        if r.Err? {
          CopyStops(v, name, ids, destName, attempts, i + 1);
          return;
        }
      }
      assert ids[..|ids|] == ids;
      return Ok(());
    }

    method CopyMessage(id: nat, destName: string, a: Attempt, ghost names: set<string>) returns (r: Result<()>)
      requires Ready(storage.State(), names, destName) && fs == storage.disk
      modifies storage, storage.disk
      ensures Ready(storage.State(), names, destName)
      ensures Copied(ViewOf(storage.State()), r.Ok?)
           == CopyOne(old(ViewOf(storage.State())), Key(name, id), destName, a)
    {
      hide Valid, ViewOf, RelPath, Fits, Flag, Put;
      SameFresh(storage.State(), destName);
      ghost var s, k := storage.State(), Key(name, id);
      var _, selected := storage.MailSelect(name, id);
      if selected.Err? {
        return Err(selected.error);
      }
      var row := selected.value;
      SelectedMessage(s, k);
      var created := StoreCopy(row, destName, a.now, a.create, k, names);
      if created.Err? {
        return Err(created.error);
      }
      FlagsRefine(storage.State(), Key(destName, created.value), row.flags);
      StillFits(storage.State(), Key(destName, created.value), row.flags, names);
      r := storage.MailUpdateFlags(destName, created.value, row.flags, a.flags);
    }

    /** The content of a selected row, under a new id. A file that cannot be opened ends the copy before anything is
        stored, as a failing INSERT does. */
    method StoreCopy(row: Row, destName: string, now: int, create: Write, ghost k: Key, ghost names: set<string>)
      returns (r: Result<nat>)
      requires Ready(storage.State(), names, destName) && fs == storage.disk && k in storage.mails
      requires storage.mails[k] == row
      modifies storage, storage.disk
      ensures Ready(storage.State(), names, destName)
      ensures var v := old(ViewOf(storage.State()));
        var stored := create.Succeeds? && destName in v.mailboxes;
        && k in v.mail
        && r.Ok? == (stored || create.Skipped?)
        && (r.Ok? ==> r.value == if stored then Fresh(v, destName).id else 0)
        && ViewOf(storage.State()) == if stored then Put(v, destName, Message(v.mail[k].content, now, NO_FLAGS)) else v
    {
      hide RelPath, References, Exclusive, Distinct, Fresh;
      ghost var s := storage.State();
      assert RowOk(s, k);
      if row.mailFile.Some? {
        var content := storage.ReadContent(row, false);
        var file := new Reader.OfBytes(content.value);
        var f := NO_STREAM_FAULTS.(insert := create);
        CreateFromStreamRefines(s, names, destName, content.value, now, f);
        StreamAccepted(s, destName, content.value, now, create);
        r := storage.MailCreateFromStream(destName, file, fs, now, f);
      } else {
        CreateRefines(s, destName, row.mail.value, now, create);
        r := storage.MailCreate(destName, row.mail.value, now, create);
      }
    }

    /** MoveMessages: MailMove has no file store. */
    method MoveMessages(uid: bool, seqSet: seq<Range>, dest: string, faults: MoveFault) returns (r: Result<()>)
      modifies storage, storage.disk
      ensures var s, ids := old(storage.State()), Resolve(uid, old(storage.mails.Keys), name, seqSet);
        if dest == OUTBOX || ids.None? then r.Err? && storage.State() == s
        else Step(storage.State(), r) == MoveAll(s, name, ids.value, dest, faults)
    {
      hide Resolve, Move;
      if dest == OUTBOX {
        return Err(Refused);
      }
      var resolved := GetIDsFromSeqSet(uid, seqSet);
      if resolved.Err? {
        return Err(resolved.error);
      }
      var ids := resolved.value;
      ghost var s := storage.State();
      for i := 0 to |ids|
        invariant Step(storage.State(), Ok(())) == MoveAll(s, name, ids[..i], dest, faults)
      {
        assert ids[..i + 1][..i] == ids[..i];
        var moved := storage.MailMoveWithFileStore(name, ids[i], dest, null, faults(i));
        if moved.Err? {
          MoveStops(s, name, ids, dest, faults, i + 1);
          return Err(moved.error);
        }
      }
      assert ids[..|ids|] == ids;
      return Ok(());
    }

    /** CreateMessage: streamed to a file only when more than the threshold can be read ahead. A flag write that
        fails is reported, but the message is stored by then, and stays with the flags written so far. */
    method CreateMessage(flags: seq<string>, body: Reader, now: int, create: Write, writes: nat -> Write,
                         ghost names: set<string>)
      returns (r: Result<nat>)
      requires Ready(storage.State(), names, name) && fs == storage.disk
      modifies storage, storage.disk, body
      ensures Ready(storage.State(), names, name)
      ensures r.Ok? <==>
        && !body.fails && (create.Skipped? || (create.Succeeds? && name in old(storage.mailboxes)))
        && WriteFlags(NO_FLAGS, flags, writes).ok
      ensures !body.fails && create.Succeeds? && name in old(storage.mailboxes) ==>
        var v, k := old(ViewOf(storage.State())), Key(name, FreshKey(old(storage.State()), name).id);
        && k == Fresh(v, name) && (r.Ok? ==> r.value == k.id)
        && ViewOf(storage.State())
           == Put(v, name, Message(old(body.Rest()), now, WriteFlags(NO_FLAGS, flags, writes).flags))
        && k in storage.mails
        && (storage.mails[k].mailFile.Some? <==> |old(body.Rest())| > SMALL_MESSAGE_THRESHOLD)
      ensures body.fails || create.Fails? || (create.Succeeds? && name !in old(storage.mailboxes)) ==>
        ViewOf(storage.State()) == old(ViewOf(storage.State()))
      ensures create.Skipped? && Key(name, 0) !in old(storage.mails) ==>
        ViewOf(storage.State()) == old(ViewOf(storage.State()))
    {
      hide Valid, ViewOf, Put, Flag, WriteFlags, Fits;
      ghost var s := storage.State();
      SameFresh(s, name);
      r := StoreBody(body, now, create, names);
      if r.Ok? {
        SameAnswer(FlagsOf(storage.State(), Key(name, r.value)), NO_FLAGS, flags, writes);
        if create.Skipped? {
          forall f ensures Key(name, 0) !in s.mails ==> Flag(ViewOf(s), Key(name, 0), f) == ViewOf(s) {
            if Key(name, 0) !in s.mails {
              FlagNothing(ViewOf(s), Key(name, 0), f);
            }
          }
        } else {
          ghost var msg := Message(old(body.Rest()), now, NO_FLAGS);
          StoredUnflagged(storage.State(), ViewOf(s), name, msg);
          PutThenFlag(ViewOf(s), name, msg, WriteFlags(NO_FLAGS, flags, writes).flags);
        }
        var written := SetEachFlag(r.value, flags, writes, names);
        if written.Err? {
          r := Err(written.error);
        }
      }
    }

    method StoreBody(body: Reader, now: int, create: Write, ghost names: set<string>) returns (r: Result<nat>)
      requires Ready(storage.State(), names, name) && fs == storage.disk
      modifies storage, storage.disk, body
      ensures Ready(storage.State(), names, name)
      ensures r.Ok? <==> !body.fails && (create.Skipped? || (create.Succeeds? && name in old(storage.mailboxes)))
      ensures r.Err? || create.Skipped? ==> ViewOf(storage.State()) == old(ViewOf(storage.State()))
      ensures r.Ok? && create.Skipped? ==> r.value == 0
      ensures r.Ok? && create.Succeeds? ==>
        && Key(name, r.value) == Fresh(old(ViewOf(storage.State())), name)
        && ViewOf(storage.State()) == Put(old(ViewOf(storage.State())), name, Message(old(body.Rest()), now, NO_FLAGS))
        && Key(name, r.value) in storage.mails
        && (storage.mails[Key(name, r.value)].mailFile.Some? <==> |old(body.Rest())| > SMALL_MESSAGE_THRESHOLD)
    {
      hide RelPath, References, Exclusive, Distinct;
      ghost var s, data := storage.State(), body.Rest();
      var peekBuf, err := ReadFull(body, SMALL_MESSAGE_THRESHOLD + 1);
      if err == Fine {
        body.PutBack(peekBuf);
        var f := NO_STREAM_FAULTS.(insert := create);
        CreateFromStreamRefines(s, names, name, data, now, f.(read := body.fails));
        StreamAccepted(s, name, data, now, create);
        StreamTier(s, name, data, now, f);
        r := storage.MailCreateFromStream(name, body, fs, now, f);
      } else if err == UnexpectedEof || err == Eof {
        CreateRefines(s, name, peekBuf, now, create);
        r := storage.MailCreate(name, peekBuf, now, create);
      } else {
        return Err(ReadError);
      }
    }

    /** One UPDATE per flag. */
    method SetEachFlag(id: nat, flags: seq<string>, writes: nat -> Write, ghost names: set<string>)
      returns (r: Result<()>)
      requires Ready(storage.State(), names, name)
      modifies storage
      ensures Ready(storage.State(), names, name)
      ensures var s, k := old(storage.State()), Key(name, id);
        var written := WriteFlags(FlagsOf(s, k), flags, writes);
        && storage.State() == SetFlags(s, k, written.flags)
        && ViewOf(storage.State()) == Flag(ViewOf(s), k, written.flags)
        && r.Ok? == written.ok
    {
      hide RelPath, References, Exclusive, Distinct, Flag, OneFlag;
      ghost var s, k := storage.State(), Key(name, id);
      SameFlags(s, k);
      for i := 0 to |flags|
        invariant var written := WriteFlags(FlagsOf(s, k), flags[..i], writes);
          written.ok && storage.State() == SetFlags(s, k, written.flags)
      {
        assert flags[..i + 1][..i] == flags[..i];
        r := storage.MailUpdateFlags(name, id, OneFlag(flags[i]), writes(i));
        SetTwice(s, k, WriteFlags(FlagsOf(s, k), flags[..i], writes).flags, OneFlag(flags[i]));
        if r.Err? {
          WriteStops(FlagsOf(s, k), flags, writes, i + 1);
          FlagsRefine(s, k, WriteFlags(FlagsOf(s, k), flags, writes).flags);
          return;
        }
      }
      assert flags[..|flags|] == flags;
      FlagsRefine(s, k, WriteFlags(FlagsOf(s, k), flags, writes).flags);
      return Ok(());
    }
  }

  function FlagsOf(s: Store, k: Key): Flags {
    if k in s.mails then s.mails[k].flags else NO_FLAGS
  }

  lemma SameFlags(s: Store, k: Key)
    ensures SetFlags(s, k, FlagsOf(s, k)) == s
  {
    if k in s.mails {
      assert SetFlags(s, k, FlagsOf(s, k)).mails == s.mails;
    }
  }

  lemma SetTwice(s: Store, k: Key, a: Flags, b: Flags)
    ensures SetFlags(SetFlags(s, k, a), k, b) == SetFlags(s, k, b)
  {
    if k in s.mails {
      assert SetFlags(SetFlags(s, k, a), k, b).mails == SetFlags(s, k, b).mails;
    }
  }

  lemma {:induction false} SameAnswer(first: Flags, other: Flags, flags: seq<string>, writes: nat -> Write)
    ensures WriteFlags(first, flags, writes).ok == WriteFlags(other, flags, writes).ok
  {
    hide OneFlag;
    if flags != [] {
      SameAnswer(first, other, flags[..|flags| - 1], writes);
    }
  }

  lemma FlagNothing(v: View, k: Key, flags: Flags)
    requires k !in v.mail
    ensures Flag(v, k, flags) == v
  {
  }

  lemma PutThenFlag(v: View, mailbox: string, msg: Message, flags: Flags)
    ensures Flag(Put(v, mailbox, msg), Fresh(v, mailbox), flags) == Put(v, mailbox, msg.(flags := flags))
  {
    assert Flag(Put(v, mailbox, msg), Fresh(v, mailbox), flags).mail
         == v.mail[Fresh(v, mailbox) := msg.(flags := flags)];
  }

  lemma SelectedMessage(s: Store, k: Key)
    requires Valid(s) && k in s.mails
    ensures k in ViewOf(s).mail && ViewOf(s).mail[k].flags == s.mails[k].flags
  {
  }

  lemma StillFits(s: Store, k: Key, flags: Flags, names: set<string>)
    requires Fits(s, names)
    ensures Fits(SetFlags(s, k, flags), names)
  {
  }

  /** A message just put has no flags in its row either. */
  lemma StoredUnflagged(s: Store, v: View, mailbox: string, msg: Message)
    requires Valid(s) && ViewOf(s) == Put(v, mailbox, msg)
    ensures FlagsOf(s, Fresh(v, mailbox)) == msg.flags
  {
    assert ViewOf(s).mail.Keys == s.mails.Keys && Fresh(v, mailbox) in ViewOf(s).mail;
  }

  lemma SameFresh(s: Store, mailbox: string)
    requires Valid(s)
    ensures FreshKey(s, mailbox) == Fresh(ViewOf(s), mailbox) && ViewOf(s).mail.Keys == s.mails.Keys
  {
    assert ViewOf(s).mail.Keys == s.mails.Keys;
  }

  lemma ResolveFails(uid: bool, ids: set<nat>, ranges: seq<Range>, next: nat, k: nat, j: nat)
    requires k < |ranges|
    requires var span := Span(ranges[k].start, Stop(ranges[k], next));
      j <= |span| && LookupAll(uid, ids, Numbers(ranges[..k], next) + span[..j]).None?
    ensures LookupAll(uid, ids, Numbers(ranges, next)).None?
  {
    hide LookupAll, Numbers, Span;
    var more := NumbersSplit(ranges, next, k);
    var before, span := Numbers(ranges[..k], next), Span(ranges[k].start, Stop(ranges[k], next));
    assert before + span + more == (before + span[..j]) + (span[j..] + more);
    LookupFails(uid, ids, before + span[..j], span[j..] + more);
  }
}
