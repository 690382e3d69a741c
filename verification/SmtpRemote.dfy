// session_remote.go: mail arriving from another node, and the size limit of
// section 6.1 of RFC 1870.

module SmtpRemote {
  import opened Types
  import opened Paths
  import opened StoreModel
  import opened Refinement
  import opened Streams
  import opened FileStorage
  import opened Storage
  import Address

  /** Header rewriting is a library: from the bytes read ahead to what replaces them, or a parse error. */
  type Rewrite = Bytes -> Option<Bytes>

  /** The limit as each of the two reads of the configuration returns it (None when it cannot be read),
      and how each storage statement fares. */
  datatype Surroundings = Surroundings(
    now: int, earlyLimit: Option<int>, lateLimit: Option<int>,
    create: StreamFaults, selectFails: bool, mark: Write, expunge: ExpungeFaults)

  /** One DATA command. */
  datatype Incoming = Incoming(data: Bytes, readFails: bool, rewrite: Rewrite, w: Surroundings)

  predicate Exceeds(size: int, limit: Option<int>) {
    limit.Some? && size > limit.value
  }

  function Peeked(data: Bytes): Bytes {
    FirstBytes(data, SMALL_MESSAGE_THRESHOLD + 1)
  }

  /** What is stored of a message: the rewritten part read ahead, then the rest of the stream. */
  function Stored(data: Bytes, rewrite: Rewrite): Option<Bytes> {
    match rewrite(Peeked(data))
    case None => None
    case Some(head) => Some(head + data[|Peeked(data)|..])
  }

  /** Mark the message and expunge INBOX; both errors are ignored. */
  function Withdraw(s: Store, id: nat, withFiles: bool, w: Surroundings): Store {
    Expunge(Task(s, MarkDeleted(s, Key(INBOX, id)), w.mark).store, INBOX, withFiles, w.expunge).store
  }

  /** The streaming path: the size column is read back once the file is there. */
  function StreamIn(s: Store, stored: Bytes, readFails: bool, w: Surroundings): Step<nat> {
    var c := CreateFromStream(s, INBOX, stored, w.now, w.create.(read := readFails));
    if c.result.Err? then c
    else
      var k := Key(INBOX, c.result.value);
      if w.selectFails || k !in c.store.mails then Step(c.store, Err(NotFound))
      else if Exceeds(c.store.mails[k].size, w.lateLimit) then Step(Withdraw(c.store, k.id, true, w), Err(TooLarge))
      else c
  }

  /** The in-memory path. */
  function BufferIn(s: Store, stored: Bytes, readFails: bool, w: Surroundings): Step<nat> {
    if readFails then Step(s, Err(ReadError))
    else
      var c := Create(s, INBOX, stored, w.now, w.create.insert);
      if c.result.Ok? && Exceeds(|stored|, w.lateLimit)
      then Step(Withdraw(c.store, c.result.value, false, w), Err(TooLarge))
      else c
  }

  predicate IsStreamed(d: Incoming, streams: bool) {
    streams && |d.data| > SMALL_MESSAGE_THRESHOLD
  }

  /** Data. `streams` says that large messages go through a file store. */
  function Receive(s: Store, d: Incoming, streams: bool): Step<nat> {
    var stored := Stored(d.data, d.rewrite);
    if Exceeds(|Peeked(d.data)|, d.w.earlyLimit) || stored.None? then Step(s, Err(Refused))
    else if IsStreamed(d, streams) then StreamIn(s, stored.value, d.readFails, d.w)
    else BufferIn(s, stored.value, d.readFails, d.w)
  }

  // ----- One DATA: what becomes of the message, and of all others -----

  /** The message can be read to its end and its header parsed, and no early limit stops it. */
  predicate Arrives(d: Incoming) {
    && !d.readFails && Stored(d.data, d.rewrite).Some?
    && (d.w.earlyLimit.Some? ==> |Peeked(d.data)| <= d.w.earlyLimit.value)
  }

  /** The message read ahead is its first 10485761 bytes, and rewriting changes nothing behind them. */
  lemma StoredIs(data: Bytes, rewrite: Rewrite, ahead: Bytes, rest: Bytes)
    requires data == ahead + rest && |ahead| == (if |data| <= 10485760 then |data| else 10485761)
    ensures Peeked(data) == ahead
    ensures Stored(data, rewrite) == if rewrite(ahead).None? then None else Some(rewrite(ahead).value + rest)
  {
    assert Peeked(data) == ahead;
    assert data[|ahead|..] == rest;
  }

  function Size(d: Incoming): nat
    requires Arrives(d)
  {
    |Stored(d.data, d.rewrite).value|
  }

  /** A file is needed, and cannot be named or written. */
  predicate FileFails(d: Incoming, streams: bool)
    requires Arrives(d)
  {
    IsStreamed(d, streams) && Size(d) >= SMALL_MESSAGE_THRESHOLD && (d.w.create.nextId || d.w.create.store)
  }

  /** The message is stored, for now. */
  predicate Stores(s: Store, d: Incoming, streams: bool) {
    Arrives(d) && INBOX in s.mailboxes && d.w.create.insert.Succeeds? && !FileFails(d, streams)
  }

  /** The in-memory path cannot tell an INSERT that never ran from one that worked. */
  predicate Unnoticed(d: Incoming, streams: bool) {
    Arrives(d) && d.w.create.insert.Skipped? && !IsStreamed(d, streams)
  }

  /** It comes to the size check at the end. */
  predicate Checks(s: Store, d: Incoming, streams: bool) {
    (Stores(s, d, streams) && !(IsStreamed(d, streams) && d.w.selectFails)) || Unnoticed(d, streams)
  }

  predicate Accepts(s: Store, d: Incoming, streams: bool) {
    Checks(s, d, streams) && (d.w.lateLimit.Some? ==> Size(d) <= d.w.lateLimit.value)
  }

  predicate Withdraws(s: Store, d: Incoming, streams: bool) {
    Checks(s, d, streams) && d.w.lateLimit.Some? && Size(d) > d.w.lateLimit.value
  }

  /** The DELETE of an expunge is reached and works. */
  predicate Expunges(w: Surroundings, withFiles: bool) {
    !w.expunge.begin && !(withFiles && w.expunge.query) && !w.expunge.delete
  }

  /** Stored, over the limit or not, and rejected without being withdrawn. */
  predicate Leaks(s: Store, d: Incoming, streams: bool) {
    && Stores(s, d, streams)
    && (if Withdraws(s, d, streams) then !(d.w.mark.Succeeds? && Expunges(d.w, IsStreamed(d, streams)))
        else IsStreamed(d, streams) && d.w.selectFails)
  }

  /** Every path is the one its key names, ids start at 1, and no two mailboxes share a directory. */
  ghost predicate Placed(s: Store, names: set<string>) {
    && Distinct(names) && INBOX in names && Key(INBOX, 0) !in s.mails
    && forall k :: k in s.mails ==> k.mailbox in names && OwnPath(s.mails[k], k)
  }

  predicate OwnPath(row: Row, k: Key) {
    row.mailFile.Some? ==> row.mailFile == Some(PathOf(k))
  }

  /** What withdrawing one message may take with it. */
  predicate IsDoomed(s: Store, k: Key)
    requires k in s.mails
  {
    k.mailbox == INBOX && s.mails[k].flags.deleted
  }

  /** The row is as it was, and so is its file, if it had one. */
  predicate Intact(s: Store, t: Store, k: Key)
    requires k in s.mails
  {
    && k in t.mails && t.mails[k] == s.mails[k]
    && (s.mails[k].mailFile.Some? ==> SameFile(s, t, s.mails[k].mailFile.value))
  }

  predicate SameFile(s: Store, t: Store, path: string) {
    path in s.files ==> path in t.files && t.files[path] == s.files[path]
  }

  /** The message, whole, in either tier, and not marked deleted. */
  predicate Holds(s: Store, k: Key, msg: Message) {
    k in s.mails && RowOk(s, k) && MessageOf(s, k) == msg && !msg.flags.deleted
  }

  /** A message as it is first stored. */
  function NewMessage(d: Incoming): Message
    requires Arrives(d)
  {
    Message(Stored(d.data, d.rewrite).value, d.w.now, NO_FLAGS)
  }

  /** A path belongs to one key only. */
  lemma OtherPath(s: Store, names: set<string>, j: Key, k: Key)
    requires Placed(s, names) && j in s.mails && k.mailbox in names && j != k
    ensures s.mails[j].mailFile != Some(PathOf(k))
  {
    RelPathInjective(j.mailbox, j.id, k.mailbox, k.id);
  }

  lemma FreshInbox(s: Store)
    ensures FreshKey(s, INBOX) !in s.mails && FreshKey(s, INBOX).mailbox == INBOX && FreshKey(s, INBOX).id >= 1
  {
    assert FreshKey(s, INBOX) !in s.mails.Keys;
  }

  /** Adding a row under a new key, and changing no file but the one that key names. */
  lemma Added(s: Store, t: Store, names: set<string>, k: Key, row: Row)
    requires Placed(s, names) && k !in s.mails && k.mailbox in names && k.id >= 1 && OwnPath(row, k)
    requires t.mails == s.mails || t.mails == s.mails[k := row]
    requires forall p :: p in s.files && p != PathOf(k) ==> p in t.files && t.files[p] == s.files[p]
    ensures Placed(t, names) && forall j :: j in s.mails ==> Intact(s, t, j)
  {
    hide RelPath, Distinct;
    forall j | j in s.mails ensures Intact(s, t, j) {
      OtherPath(s, names, j, k);
    }
  }

  lemma NewHolds(s: Store, k: Key, data: Bytes, now: int)
    requires k in s.mails
    requires s.mails[k] == BlobRow(data, now)
      || (s.mails[k] == FileRow(PathOf(k), |data|, now)
          && PathOf(k) in s.files && s.files[PathOf(k)] == data && data != [])
    ensures Holds(s, k, Message(data, now, NO_FLAGS))
  {
    hide RelPath;
  }

  /** What creating a message in INBOX does to the tables and the files. */
  lemma CreatedIn(s: Store, names: set<string>, data: Bytes, now: int, f: StreamFaults)
    requires Placed(s, names)
    ensures var c, k := CreateFromStream(s, INBOX, data, now, f), FreshKey(s, INBOX);
      var stored := !f.read && f.insert.Succeeds? && INBOX in s.mailboxes
                    && !(|data| >= SMALL_MESSAGE_THRESHOLD && (f.nextId || f.store));
      && Placed(c.store, names) && c.store.mailboxes == s.mailboxes
      && (forall j :: j in s.mails ==> Intact(s, c.store, j))
      && (stored ==> c.result == Ok(k.id) && c.store.mails.Keys == s.mails.Keys + {k}
                     && Holds(c.store, k, Message(data, now, NO_FLAGS))
                     && (c.store.mails[k].mailFile.Some? <==> |data| >= 10485760))
      && (!stored ==> c.store.mails == s.mails && (c.result.Ok? ==> f.insert.Skipped? && c.result.value == 0))
  {
    hide RelPath, Distinct, Placed, Intact, Holds, RowOk;
    FreshInbox(s);
    var c, k := CreateFromStream(s, INBOX, data, now, f), FreshKey(s, INBOX);
    InboxIsNamed(s, names);
    var row := if |data| < SMALL_MESSAGE_THRESHOLD then BlobRow(data, now) else FileRow(PathOf(k), |data|, now);
    Added(s, c.store, names, k, row);
    if k in c.store.mails {
      NewHolds(c.store, k, data, now);
    }
  }

  lemma InboxIsNamed(s: Store, names: set<string>)
    requires Placed(s, names)
    ensures INBOX in names && Key(INBOX, 0) !in s.mails
  {
  }

  /** The same for a message created from memory. */
  lemma BufferedIn(s: Store, names: set<string>, data: Bytes, now: int, fault: Write)
    requires Placed(s, names)
    ensures var c, k := Create(s, INBOX, data, now, fault), FreshKey(s, INBOX);
      var stored := fault.Succeeds? && INBOX in s.mailboxes;
      && Placed(c.store, names) && c.store.mailboxes == s.mailboxes
      && (forall j :: j in s.mails ==> Intact(s, c.store, j))
      && (c.result.Ok? <==> stored || fault.Skipped?)
      && (stored ==> c.result == Ok(k.id) && c.store.mails.Keys == s.mails.Keys + {k}
                     && Holds(c.store, k, Message(data, now, NO_FLAGS))
                     && c.store.mails[k].mailFile.None?)
      && (!stored ==> c.store == s && (c.result.Ok? ==> c.result.value == 0))
  {
    hide RelPath, Distinct, Placed, Intact;
    FreshInbox(s);
    InboxIsNamed(s, names);
    Added(s, Create(s, INBOX, data, now, fault).store, names, FreshKey(s, INBOX), BlobRow(data, now));
  }

  /** Marking one message doomed changes its row only. */
  lemma MarkedOne(s: Store, names: set<string>, k: Key, mark: Write)
    requires Placed(s, names) && k.mailbox == INBOX
    ensures var t := Task(s, MarkDeleted(s, k), mark).store;
      && Placed(t, names) && t.mails.Keys == s.mails.Keys && t.mailboxes == s.mailboxes && t.files == s.files
      && (forall j :: j in s.mails && j != k ==> Intact(s, t, j) && (IsDoomed(t, j) <==> IsDoomed(s, j)))
      && (k in s.mails ==> t.mails[k].(flags := s.mails[k].flags) == s.mails[k]
                           && (IsDoomed(t, k) <==> mark.Succeeds? || IsDoomed(s, k)))
  {
    hide RelPath, Distinct;
    assert Task(s, MarkDeleted(s, k), mark).store.mails.Keys == s.mails.Keys;
  }

  lemma DoomedRows(s: Store)
    ensures forall k :: k in DeletedIn(s, INBOX) <==> k in s.mails && IsDoomed(s, k)
  {
  }

  /** Expunging INBOX takes the doomed rows if its DELETE works, and no file but theirs in any case. */
  lemma ExpungedInbox(s: Store, names: set<string>, withFiles: bool, w: Surroundings)
    requires Placed(s, names)
    ensures var t := Expunge(s, INBOX, withFiles, w.expunge).store;
      && Placed(t, names) && t.mailboxes == s.mailboxes
      && (forall j :: j in t.mails ==> j in s.mails && t.mails[j] == s.mails[j])
      && (forall j :: j in s.mails && !IsDoomed(s, j) ==> Intact(s, t, j))
      && (forall j :: j in s.mails && IsDoomed(s, j) ==> (j in t.mails <==> !Expunges(w, withFiles)))
  {
    hide RelPath, Distinct, IsDoomed;
    DoomedRows(s);
    var ks, t := DeletedIn(s, INBOX), Expunge(s, INBOX, withFiles, w.expunge).store;
    forall j | j in s.mails && !IsDoomed(s, j) ensures Intact(s, t, j) {
      if s.mails[j].mailFile.Some? && s.mails[j].mailFile.value in FilesOf(s, ks) {
        var i :| i in ks && i in s.mails && s.mails[i].mailFile == s.mails[j].mailFile;
        OtherPath(s, names, j, i);
      }
    }
  }

  lemma IntactTwice(s: Store, t: Store, u: Store, k: Key)
    requires k in s.mails && Intact(s, t, k) && Intact(t, u, k)
    ensures Intact(s, u, k)
  {
  }

  lemma IntactAlways(s: Store, k: Key)
    requires k in s.mails
    ensures Intact(s, s, k)
  {
  }

  lemma HoldsStill(s: Store, t: Store, k: Key, msg: Message)
    requires Holds(s, k, msg) && Intact(s, t, k)
    ensures Holds(t, k, msg)
  {
  }

  lemma HeldIsSafe(s: Store, k: Key, msg: Message)
    requires Holds(s, k, msg)
    ensures k in s.mails && !IsDoomed(s, k) && s.mails[k].size == |msg.content|
  {
    hide RelPath;
  }

  lemma IntactIsSafe(s: Store, t: Store, k: Key)
    requires k in s.mails && Intact(s, t, k)
    ensures k in t.mails && t.mails[k] == s.mails[k] && (IsDoomed(t, k) <==> IsDoomed(s, k))
  {
  }

  /** A message that is whole stays whole, the same. */
  lemma IntactMessage(s: Store, t: Store, k: Key)
    requires k in s.mails && RowOk(s, k) && Intact(s, t, k)
    ensures RowOk(t, k) && MessageOf(t, k) == MessageOf(s, k)
  {
    hide RelPath;
  }

  lemma ValidIsPlaced(s: Store, names: set<string>)
    requires Valid(s) && Fits(s, names) && INBOX in names && Key(INBOX, 0) !in s.mails
    ensures Placed(s, names)
  {
    hide RelPath;
    forall k | k in s.mails ensures k.mailbox in names && OwnPath(s.mails[k], k) {
      assert RowOk(s, k);
    }
  }

  /** Withdrawing a message. */
  lemma Withdrawn(s: Store, names: set<string>, id: nat, withFiles: bool, w: Surroundings)
    requires Placed(s, names)
    ensures var t, k := Withdraw(s, id, withFiles, w), Key(INBOX, id);
      && Placed(t, names) && t.mailboxes == s.mailboxes
      && (forall j :: j in t.mails ==>
            j in s.mails && (j != k ==> t.mails[j] == s.mails[j]) && t.mails[j].size == s.mails[j].size)
      && (forall j :: j in s.mails && j != k && !IsDoomed(s, j) ==> Intact(s, t, j))
      && (forall j :: j in s.mails && (j != k || !w.mark.Succeeds?) ==>
            (j in t.mails <==> !(IsDoomed(s, j) && Expunges(w, withFiles))))
      && (k in s.mails && w.mark.Succeeds? ==> (k in t.mails <==> !Expunges(w, withFiles)))
  {
    hide RelPath, Distinct, Placed, IsDoomed, Intact, Expunges, Expunge, MarkDeleted;
    var k := Key(INBOX, id);
    MarkedOne(s, names, k, w.mark);
    var m := Task(s, MarkDeleted(s, k), w.mark).store;
    ExpungedInbox(m, names, withFiles, w);
    var t := Expunge(m, INBOX, withFiles, w.expunge).store;
    forall j | j in s.mails && j != k ensures m.mails[j] == s.mails[j] {
      IntactIsSafe(s, m, j);
    }
    forall j | j in m.mails && !IsDoomed(m, j) ensures j in t.mails {
      IntactIsSafe(m, t, j);
    }
    forall j | j in s.mails && j != k && !IsDoomed(s, j) ensures Intact(s, t, j) {
      IntactTwice(s, m, t, j);
    }
  }

  /** A file exactly when files are used, the message is larger than 10 MB, and what is stored of it still is that
      large. */
  predicate InRightTier(s: Store, d: Incoming, streams: bool, k: Key)
    requires Arrives(d)
  {
    k in s.mails && (s.mails[k].mailFile.Some? <==> streams && |d.data| > 10485760 && Size(d) >= 10485760)
  }

  /** One DATA: what becomes of its own message, under k. */
  ghost predicate OwnOutcome(s: Store, d: Incoming, streams: bool, r: Step<nat>, k: Key) {
    && (r.result.Ok? <==> Accepts(s, d, streams))
    && (r.result.Ok? && Stores(s, d, streams) ==>
          && r.result.value == k.id && Holds(r.store, k, NewMessage(d))
          && (d.w.lateLimit.Some? ==> Size(d) <= d.w.lateLimit.value) && InRightTier(r.store, d, streams, k))
    && (r.result.Ok? && !Stores(s, d, streams) ==> r.result.value == 0 && r.store == s)
    && (k in r.store.mails <==> (r.result.Ok? && Stores(s, d, streams)) || Leaks(s, d, streams))
    && (Leaks(s, d, streams) ==> r.result.Err?)
    && (k in r.store.mails ==> r.store.mails[k].size == Size(d))
  }

  /** And of the rows that were there before. */
  ghost predicate OthersOutcome(s: Store, d: Incoming, streams: bool, r: Step<nat>, k: Key) {
    && (forall j :: j in s.mails && !IsDoomed(s, j) ==> Intact(s, r.store, j))
    && (forall j :: j in s.mails && IsDoomed(s, j) ==>
          (j in r.store.mails <==> !(Withdraws(s, d, streams) && Expunges(d.w, IsStreamed(d, streams)))))
    && (forall j :: j in r.store.mails ==> j == k || (j in s.mails && r.store.mails[j] == s.mails[j]))
  }

  /** The size check at the end: what it leaves of a message that has been stored. */
  function Checked(c: Store, d: Incoming, streams: bool, k: Key): Step<nat>
    requires Arrives(d)
  {
    if IsStreamed(d, streams) && d.w.selectFails then Step(c, Err(NotFound))
    else if Exceeds(Size(d), d.w.lateLimit) then Step(Withdraw(c, k.id, IsStreamed(d, streams), d.w), Err(TooLarge))
    else Step(c, Ok(k.id))
  }

  lemma StoredOwn(s: Store, c: Store, names: set<string>, d: Incoming, streams: bool, k: Key)
    requires Stores(s, d, streams) && Placed(c, names) && k.mailbox == INBOX
    requires Holds(c, k, NewMessage(d)) && InRightTier(c, d, streams, k)
    ensures OwnOutcome(s, d, streams, Checked(c, d, streams, k), k)
  {
    hide RelPath, Placed, Stored, Peeked, Distinct, Intact, IsDoomed, Holds, Withdraw, Expunges;
    HeldIsSafe(c, k, NewMessage(d));
    if Withdraws(s, d, streams) {
      Withdrawn(c, names, k.id, IsStreamed(d, streams), d.w);
    }
  }

  lemma StoredOthers(s: Store, c: Store, names: set<string>, d: Incoming, streams: bool, k: Key)
    requires Stores(s, d, streams) && Placed(c, names) && k.mailbox == INBOX && k !in s.mails
    requires c.mails.Keys == s.mails.Keys + {k} && c.mailboxes == s.mailboxes
    requires forall j :: j in s.mails ==> Intact(s, c, j)
    ensures var r := Checked(c, d, streams, k);
      Placed(r.store, names) && r.store.mailboxes == s.mailboxes && OthersOutcome(s, d, streams, r, k)
  {
    hide RelPath, Placed, Stored, Peeked, Distinct, Intact, IsDoomed, Withdraw, Expunges;
    forall j | j in s.mails
      ensures j in c.mails && c.mails[j] == s.mails[j] && (IsDoomed(c, j) <==> IsDoomed(s, j))
    {
      IntactIsSafe(s, c, j);
    }
    if Withdraws(s, d, streams) {
      Withdrawn(c, names, k.id, IsStreamed(d, streams), d.w);
      var t := Withdraw(c, k.id, IsStreamed(d, streams), d.w);
      forall j | j in s.mails && !IsDoomed(s, j) ensures Intact(s, t, j) {
        IntactTwice(s, c, t, j);
      }
    }
  }

  /** Nothing stored: at most, the doomed rows go. */
  lemma UnstoredOutcome(s: Store, t: Store, d: Incoming, streams: bool, k: Key, e: Error)
    requires !Stores(s, d, streams) && !Unnoticed(d, streams) && k !in s.mails
    requires t.mails == s.mails && forall j :: j in s.mails ==> Intact(s, t, j)
    ensures OwnOutcome(s, d, streams, Step(t, Err(e)), k) && OthersOutcome(s, d, streams, Step(t, Err(e)), k)
  {
  }

  /** An INSERT that never ran, from memory: accepted as if stored, or found too large and withdrawn. */
  lemma UnnoticedOutcome(s: Store, names: set<string>, d: Incoming, streams: bool, k: Key)
    requires Unnoticed(d, streams) && Placed(s, names) && k !in s.mails
    ensures var r := if Withdraws(s, d, streams) then Step(Withdraw(s, 0, false, d.w), Err(TooLarge))
                     else Step(s, Ok(0));
      && Placed(r.store, names) && r.store.mailboxes == s.mailboxes
      && OwnOutcome(s, d, streams, r, k) && OthersOutcome(s, d, streams, r, k)
  {
    hide RelPath, Placed, Stored, Peeked, Distinct, Intact, IsDoomed, Withdraw, Expunges;
    InboxIsNamed(s, names);
    forall j | j in s.mails ensures Intact(s, s, j) {
      IntactAlways(s, j);
    }
    if Withdraws(s, d, streams) {
      Withdrawn(s, names, 0, false, d.w);
    }
  }

  lemma StreamOutcome(s: Store, names: set<string>, d: Incoming)
    requires Placed(s, names) && IsStreamed(d, true)
    requires !Exceeds(|Peeked(d.data)|, d.w.earlyLimit) && Stored(d.data, d.rewrite).Some?
    ensures var r, k := StreamIn(s, Stored(d.data, d.rewrite).value, d.readFails, d.w), FreshKey(s, INBOX);
      && Placed(r.store, names) && r.store.mailboxes == s.mailboxes
      && OwnOutcome(s, d, true, r, k) && OthersOutcome(s, d, true, r, k)
  {
    hide RelPath, Placed, Stored, Peeked, Intact, Holds, Withdraw, CreateFromStream, FreshKey, OwnOutcome,
      OthersOutcome;
    FreshInbox(s);
    var stored, k, f := Stored(d.data, d.rewrite).value, FreshKey(s, INBOX), d.w.create.(read := d.readFails);
    CreatedIn(s, names, stored, d.w.now, f);
    var c := CreateFromStream(s, INBOX, stored, d.w.now, f);
    InboxIsNamed(c.store, names);
    if Stores(s, d, true) {
      HeldIsSafe(c.store, k, NewMessage(d));
      StoredOwn(s, c.store, names, d, true, k);
      StoredOthers(s, c.store, names, d, true, k);
    } else {
      UnstoredOutcome(s, c.store, d, true, k, if c.result.Err? then c.result.error else NotFound);
    }
  }

  lemma BufferOutcome(s: Store, names: set<string>, d: Incoming, streams: bool)
    requires Placed(s, names) && !IsStreamed(d, streams)
    requires !Exceeds(|Peeked(d.data)|, d.w.earlyLimit) && Stored(d.data, d.rewrite).Some?
    ensures var r, k := BufferIn(s, Stored(d.data, d.rewrite).value, d.readFails, d.w), FreshKey(s, INBOX);
      && Placed(r.store, names) && r.store.mailboxes == s.mailboxes
      && OwnOutcome(s, d, streams, r, k) && OthersOutcome(s, d, streams, r, k)
  {
    hide RelPath, Placed, Stored, Peeked, Intact, Holds, Withdraw, Create, FreshKey, OwnOutcome, OthersOutcome;
    FreshInbox(s);
    var stored, k := Stored(d.data, d.rewrite).value, FreshKey(s, INBOX);
    BufferedIn(s, names, stored, d.w.now, d.w.create.insert);
    var c := Create(s, INBOX, stored, d.w.now, d.w.create.insert);
    if Stores(s, d, streams) {
      StoredOwn(s, c.store, names, d, streams, k);
      StoredOthers(s, c.store, names, d, streams, k);
    } else if Unnoticed(d, streams) {
      UnnoticedOutcome(s, names, d, streams, k);
    } else {
      forall j | j in s.mails ensures Intact(s, s, j) {
        IntactAlways(s, j);
      }
      UnstoredOutcome(s, s, d, streams, k, if d.readFails then ReadError else c.result.error);
    }
  }

  /** Whatever fails: an accepted message is in INBOX under the next id, whole, unmarked and no larger than a readable
      limit, unless its INSERT never ran; a rejected one stays exactly if it leaks; and of the other messages only those
      marked deleted in INBOX may go, exactly when a withdrawal gets through. */
  lemma DataOutcome(s: Store, names: set<string>, d: Incoming, streams: bool)
    requires Placed(s, names)
    ensures var r, k := Receive(s, d, streams), FreshKey(s, INBOX);
      && Placed(r.store, names) && r.store.mailboxes == s.mailboxes
      && OwnOutcome(s, d, streams, r, k) && OthersOutcome(s, d, streams, r, k)
  {
    hide RelPath, Placed, Stored, Peeked, Intact, FreshKey, StreamIn, BufferIn, OwnOutcome, OthersOutcome;
    FreshInbox(s);
    if Exceeds(|Peeked(d.data)|, d.w.earlyLimit) || Stored(d.data, d.rewrite).None? {
      forall j | j in s.mails ensures Intact(s, s, j) {
        IntactAlways(s, j);
      }
      UnstoredOutcome(s, s, d, streams, FreshKey(s, INBOX), Refused);
    } else if IsStreamed(d, streams) {
      StreamOutcome(s, names, d);
    } else {
      BufferOutcome(s, names, d, streams);
    }
  }

  // ----- What a withdrawal can damage -----

  /** The files are gone when the DELETE fails, and there was one. */
  predicate LosesFiles(s: Store, d: Incoming, streams: bool) {
    && Withdraws(s, d, streams) && IsStreamed(d, streams)
    && !d.w.expunge.begin && !d.w.expunge.query && d.w.expunge.delete
    && (!(FilesOf(s, DeletedIn(s, INBOX)) <= d.w.expunge.stuck)
        || (d.w.mark.Succeeds? && Size(d) >= SMALL_MESSAGE_THRESHOLD
            && PathOf(FreshKey(s, INBOX)) !in d.w.expunge.stuck))
  }

  lemma WithdrawKeepsValid(s: Store, id: nat, withFiles: bool, w: Surroundings)
    requires Valid(s)
    ensures Valid(Withdraw(s, id, withFiles, w)) <==>
      !ExpungeLosesFile(Task(s, MarkDeleted(s, Key(INBOX, id)), w.mark).store, INBOX, withFiles, w.expunge)
  {
    hide Valid, Expunge, ExpungeLosesFile, MarkDeleted;
    FlagsRefine(s, Key(INBOX, id), NO_FLAGS);
    ExpungeKeepsValid(Task(s, MarkDeleted(s, Key(INBOX, id)), w.mark).store, INBOX, withFiles, w.expunge);
  }

  /** The files that expunging would remove, after marking a message just stored. */
  lemma MarkedFiles(s: Store, c: Store, k: Key, row: Row, mark: Write)
    requires k !in s.mails && k.mailbox == INBOX && c.mails == s.mails[k := row] && !row.flags.deleted
    ensures var m := Task(c, MarkDeleted(c, k), mark).store;
      FilesOf(m, DeletedIn(m, INBOX)) ==
      FilesOf(s, DeletedIn(s, INBOX)) + if mark.Succeeds? && row.mailFile.Some? then {row.mailFile.value} else {}
  {
    hide RelPath;
    var m := Task(c, MarkDeleted(c, k), mark).store;
    assert DeletedIn(m, INBOX) == DeletedIn(s, INBOX) + if mark.Succeeds? then {k} else {};
    assert forall j :: j in s.mails ==> m.mails[j] == s.mails[j];
    var all := FilesOf(m, DeletedIn(m, INBOX));
    forall p | p in FilesOf(s, DeletedIn(s, INBOX)) ensures p in all {
      var j :| j in DeletedIn(s, INBOX) && j in s.mails && s.mails[j].mailFile == Some(p);
      assert j in DeletedIn(m, INBOX) && m.mails[j].mailFile == Some(p);
    }
    if mark.Succeeds? && row.mailFile.Some? {
      assert k in DeletedIn(m, INBOX) && m.mails[k].mailFile == row.mailFile;
    }
  }

  lemma StreamedRow(s: Store, data: Bytes, now: int, f: StreamFaults)
    requires !f.read && f.insert.Succeeds? && INBOX in s.mailboxes
    requires |data| >= SMALL_MESSAGE_THRESHOLD ==> !f.nextId && !f.store
    ensures var c, k := CreateFromStream(s, INBOX, data, now, f), FreshKey(s, INBOX);
      && c.result == Ok(k.id)
      && c.store.mails == s.mails[k := if |data| < SMALL_MESSAGE_THRESHOLD then BlobRow(data, now)
                                       else FileRow(PathOf(k), |data|, now)]
  {
    hide RelPath;
  }

  /** The store stays well formed exactly when no withdrawal fails between the files and the rows. */
  lemma DataKeepsValid(s: Store, names: set<string>, d: Incoming, streams: bool)
    requires Valid(s) && Fits(s, names) && INBOX in names && Key(INBOX, 0) !in s.mails
    ensures Valid(Receive(s, d, streams).store) <==> !LosesFiles(s, d, streams)
  {
    hide Valid, RelPath, Stored, Peeked, Distinct, StreamIn, BufferIn;
    if Arrives(d) && IsStreamed(d, streams) {
      StreamKeepsWhole(s, names, d);
    } else if Arrives(d) {
      BufferKeepsWhole(s, d, streams);
    } else if Stored(d.data, d.rewrite).Some? && d.readFails {
      NothingRead(s, Stored(d.data, d.rewrite).value, d.w);
    }
  }

  lemma NothingRead(s: Store, stored: Bytes, w: Surroundings)
    ensures StreamIn(s, stored, true, w) == Step(s, Err(ReadError)) == BufferIn(s, stored, true, w)
  {
  }

  lemma BufferKeepsWhole(s: Store, d: Incoming, streams: bool)
    requires Valid(s) && Arrives(d)
    ensures Valid(BufferIn(s, Stored(d.data, d.rewrite).value, d.readFails, d.w).store)
  {
    hide Valid, RelPath, Stored, Peeked, Create, Withdraw;
    var stored, w := Stored(d.data, d.rewrite).value, d.w;
    CreateRefines(s, INBOX, stored, w.now, w.create.insert);
    var c := Create(s, INBOX, stored, w.now, w.create.insert);
    if c.result.Ok? {
      WithdrawKeepsValid(c.store, c.result.value, false, w);
    }
  }

  lemma StreamKeepsWhole(s: Store, names: set<string>, d: Incoming)
    requires Valid(s) && Fits(s, names) && INBOX in names && Key(INBOX, 0) !in s.mails
    requires Arrives(d) && IsStreamed(d, true)
    ensures Valid(StreamIn(s, Stored(d.data, d.rewrite).value, d.readFails, d.w).store) <==> !LosesFiles(s, d, true)
  {
    hide Valid, RelPath, Stored, Peeked, Distinct, CreateFromStream, Withdraw, FreshKey, DeletedIn, MarkDeleted;
    FreshInbox(s);
    var stored, w, f, k := Stored(d.data, d.rewrite).value, d.w, d.w.create.(read := d.readFails), FreshKey(s, INBOX);
    CreateFromStreamRefines(s, names, INBOX, stored, w.now, f);
    var c := CreateFromStream(s, INBOX, stored, w.now, f);
    if Stores(s, d, true) {
      StreamedRow(s, stored, w.now, f);
      WithdrawKeepsValid(c.store, k.id, true, w);
      MarkedFiles(s, c.store, k, c.store.mails[k], w.mark);
    } else {
      NotStored(s, d);
    }
  }

  lemma NotStored(s: Store, d: Incoming)
    requires Key(INBOX, 0) !in s.mails && Arrives(d) && IsStreamed(d, true) && !Stores(s, d, true)
    ensures var r := StreamIn(s, Stored(d.data, d.rewrite).value, d.readFails, d.w);
      var f := d.w.create.(read := d.readFails);
      r.store == CreateFromStream(s, INBOX, Stored(d.data, d.rewrite).value, d.w.now, f).store
  {
    hide RelPath, Stored, Peeked;
  }

  // ----- Any number of sessions -----

  datatype Command = Mail(sender: string, size: int, limit: Option<int>) | Data(d: Incoming)

  /** One command of one of the sessions. */
  datatype Entry = Entry(session: nat, command: Command)

  /** The address at the other end of each session's connection. */
  type Remotes = nat -> Option<string>

  datatype Node = Node(store: Store, from: map<nat, string>, answers: seq<Result<nat>>)

  /** The sender's key is that of the other end, and the declared size is within a readable limit. */
  predicate MailAccepted(remote: Option<string>, sender: string, size: int, limit: Option<int>) {
    && Address.ParseAddress(sender).Ok?
    && remote == Some(Address.Encode(Address.ParseAddress(sender).value))
    && !(size > 0 && Exceeds(size, limit))
  }

  /** The store, each session's sender and all the answers, after the commands of any number of sessions in any
      order. */
  function Serve(s: Store, remotes: Remotes, streams: bool, trace: seq<Entry>): (n: Node)
    ensures |n.answers| == |trace|
  {
    if trace == [] then Node(s, map[], [])
    else
      var last := trace[|trace| - 1];
      var n := Serve(s, remotes, streams, trace[..|trace| - 1]);
      match last.command
      case Mail(sender, size, limit) =>
        if MailAccepted(remotes(last.session), sender, size, limit)
        then n.(from := n.from[last.session := sender], answers := n.answers + [Ok(0)])
        else n.(answers := n.answers + [Err(Refused)])
      case Data(d) =>
        var r := Receive(n.store, d, streams);
        n.(store := r.store, answers := n.answers + [r.result])
  }

  /** Every message of t that is not marked deleted in INBOX is in u, with its file. */
  ghost predicate Stay(t: Store, u: Store) {
    forall k :: k in t.mails && !IsDoomed(t, k) ==> Intact(t, u, k)
  }

  lemma StayTwice(t: Store, m: Store, u: Store)
    requires Stay(t, m) && Stay(m, u)
    ensures Stay(t, u)
  {
    hide Intact, IsDoomed;
    forall k | k in t.mails && !IsDoomed(t, k) ensures Intact(t, u, k) {
      IntactIsSafe(t, m, k);
      IntactTwice(t, m, u, k);
    }
  }

  /** One command. */
  lemma EntryStays(s: Store, names: set<string>, remotes: Remotes, streams: bool, trace: seq<Entry>)
    requires trace != [] && Placed(Serve(s, remotes, streams, trace[..|trace| - 1]).store, names)
    ensures var m, u := Serve(s, remotes, streams, trace[..|trace| - 1]).store, Serve(s, remotes, streams, trace).store;
      Placed(u, names) && u.mailboxes == m.mailboxes && Stay(m, u)
  {
    hide Placed, Intact, IsDoomed, Receive, MailAccepted, OwnOutcome;
    var m := Serve(s, remotes, streams, trace[..|trace| - 1]).store;
    if trace[|trace| - 1].command.Data? {
      DataOutcome(m, names, trace[|trace| - 1].command.d, streams);
    } else {
      forall k | k in m.mails ensures Intact(m, m, k) {
        IntactAlways(m, k);
      }
    }
  }

  /** From any point of a history on: every message that is not marked deleted in INBOX stays, with its file. */
  lemma {:induction false} MessagesStay(s: Store, names: set<string>, remotes: Remotes, streams: bool,
                                        trace: seq<Entry>, i: nat)
    requires Placed(s, names) && i <= |trace|
    ensures var t, u := Serve(s, remotes, streams, trace[..i]).store, Serve(s, remotes, streams, trace).store;
      Placed(t, names) && Placed(u, names) && u.mailboxes == s.mailboxes && Stay(t, u)
    decreases |trace|
  {
    hide Placed, Receive, MailAccepted, Intact, IsDoomed;
    var t := Serve(s, remotes, streams, trace[..i]).store;
    forall k | k in t.mails ensures Intact(t, t, k) {
      IntactAlways(t, k);
    }
    assert trace[..|trace|] == trace;
    if trace != [] {
      var n := |trace| - 1;
      assert trace[..n][..n] == trace[..n];
      MessagesStay(s, names, remotes, streams, trace[..n], if i < n then i else n);
      EntryStays(s, names, remotes, streams, trace);
      if i < |trace| {
        assert trace[..n][..i] == trace[..i];
        StayTwice(t, Serve(s, remotes, streams, trace[..n]).store, Serve(s, remotes, streams, trace).store);
      }
    }
  }

  /** In a well-formed store: through any history, whatever fails, every message not marked deleted in INBOX keeps its
      content, its date and its flags, and stays readable from its own tier. */
  lemma MessagesSurvive(s: Store, names: set<string>, remotes: Remotes, streams: bool, trace: seq<Entry>, k: Key)
    requires Valid(s) && Fits(s, names) && INBOX in names && Key(INBOX, 0) !in s.mails
    requires k in s.mails && !IsDoomed(s, k)
    ensures var t := Serve(s, remotes, streams, trace).store;
      k in t.mails && RowOk(t, k) && MessageOf(t, k) == MessageOf(s, k) && MessageOf(s, k) == ViewOf(s).mail[k]
  {
    hide RelPath, Placed, IsDoomed, Receive, MailAccepted, Exclusive, Distinct;
    ValidIsPlaced(s, names);
    MessagesStay(s, names, remotes, streams, trace, 0);
    assert trace[..0] == [];
    IntactMessage(s, Serve(s, remotes, streams, trace).store, k);
  }

  lemma {:induction false} AnswersStay(s: Store, remotes: Remotes, streams: bool, trace: seq<Entry>, i: nat)
    requires i <= |trace|
    ensures Serve(s, remotes, streams, trace[..i]).answers == Serve(s, remotes, streams, trace).answers[..i]
  {
    hide Receive, MailAccepted;
    if i == |trace| {
      assert trace[..i] == trace;
    } else {
      var n := |trace| - 1;
      assert trace[..n][..i] == trace[..i];
      AnswersStay(s, remotes, streams, trace[..n], i);
    }
  }

  /** DATA number i was answered with success, and its INSERT was carried out. */
  predicate Accepted(s: Store, remotes: Remotes, streams: bool, trace: seq<Entry>, i: nat) {
    && i < |trace| && trace[i].command.Data? && trace[i].command.d.w.create.insert.Succeeds?
    && Serve(s, remotes, streams, trace).answers[i].Ok?
  }

  /** The DATA of entry i, at its own point of the history. */
  lemma AtEntry(s: Store, names: set<string>, remotes: Remotes, streams: bool, trace: seq<Entry>, i: nat)
    requires Placed(s, names) && i < |trace| && trace[i].command.Data?
    ensures var t, d := Serve(s, remotes, streams, trace[..i]).store, trace[i].command.d;
      var r, k := Receive(t, d, streams), FreshKey(t, INBOX);
      && Placed(t, names) && k !in t.mails
      && Serve(s, remotes, streams, trace[..i + 1]).store == r.store
      && Serve(s, remotes, streams, trace).answers[i] == r.result
      && OwnOutcome(t, d, streams, r, k) && OthersOutcome(t, d, streams, r, k)
  {
    hide Placed, Receive, MailAccepted, OwnOutcome, OthersOutcome;
    MessagesStay(s, names, remotes, streams, trace, i);
    AnswersStay(s, remotes, streams, trace, i + 1);
    assert trace[..i + 1][..i] == trace[..i] && trace[..i + 1][i] == trace[i];
    DataOutcome(Serve(s, remotes, streams, trace[..i]).store, names, trace[i].command.d, streams);
    FreshInbox(Serve(s, remotes, streams, trace[..i]).store);
    AnswersStay(s, remotes, streams, trace[..i + 1], i);
  }

  /** What was accepted stays: whatever any session sends before or after, and whatever fails, the message is in INBOX
      at the end, whole, in one of the tiers, not marked deleted, and no larger than the limit that could be read. */
  lemma AcceptedStays(s: Store, names: set<string>, remotes: Remotes, streams: bool, trace: seq<Entry>, i: nat)
    requires Placed(s, names) && Accepted(s, remotes, streams, trace, i)
    ensures var k, d := Key(INBOX, Serve(s, remotes, streams, trace).answers[i].value), trace[i].command.d;
      && k !in Serve(s, remotes, streams, trace[..i]).store.mails
      && Arrives(d) && Holds(Serve(s, remotes, streams, trace).store, k, NewMessage(d))
      && (d.w.lateLimit.Some? ==> Size(d) <= d.w.lateLimit.value)
  {
    hide Placed, Receive, Serve, FileFails, Unnoticed, Intact, Holds, Stored, Peeked, IsDoomed, RelPath;
    var k, d := Key(INBOX, Serve(s, remotes, streams, trace).answers[i].value), trace[i].command.d;
    AtEntry(s, names, remotes, streams, trace, i);
    MessagesStay(s, names, remotes, streams, trace, i + 1);
    var t, u := Serve(s, remotes, streams, trace[..i + 1]).store, Serve(s, remotes, streams, trace).store;
    OnlyStored(Serve(s, remotes, streams, trace[..i]).store, d, streams);
    HeldIsSafe(t, k, NewMessage(d));
    HoldsStill(t, u, k, NewMessage(d));
  }

  lemma OnlyStored(s: Store, d: Incoming, streams: bool)
    requires Accepts(s, d, streams) && d.w.create.insert.Succeeds?
    ensures Stores(s, d, streams)
  {
  }

  /** Different messages, so none of them has taken the place of another. */
  lemma AcceptedDiffer(s: Store, names: set<string>, remotes: Remotes, streams: bool, trace: seq<Entry>, i: nat, j: nat)
    requires Placed(s, names) && Accepted(s, remotes, streams, trace, i) && Accepted(s, remotes, streams, trace, j)
    requires i < j
    ensures Serve(s, remotes, streams, trace).answers[i] != Serve(s, remotes, streams, trace).answers[j]
  {
    hide Placed, Receive, Serve, Holds, Stored, Peeked;
    assert trace[..j][i] == trace[i] && trace[..j][..i] == trace[..i];
    AnswersStay(s, remotes, streams, trace, j);
    AcceptedStays(s, names, remotes, streams, trace[..j], i);
    AcceptedStays(s, names, remotes, streams, trace, j);
    HeldIsSafe(Serve(s, remotes, streams, trace[..j]).store,
               Key(INBOX, Serve(s, remotes, streams, trace).answers[i].value), NewMessage(trace[i].command.d));
  }

  /** The message under k came with entry i, accepted or leaked. */
  ghost predicate Origin(s: Store, remotes: Remotes, streams: bool, trace: seq<Entry>, i: nat, k: Key) {
    && i < |trace| && trace[i].command.Data?
    && var t, d := Serve(s, remotes, streams, trace[..i]).store, trace[i].command.d;
       && k == FreshKey(t, INBOX) && Stores(t, d, streams)
       && (Accepts(t, d, streams) || Leaks(t, d, streams))
       && k in Serve(s, remotes, streams, trace).store.mails
       && Serve(s, remotes, streams, trace).store.mails[k].size == Size(d)
  }

  /** Nothing else comes in: what is new at the end was accepted, or rejected and leaked. */
  lemma {:induction false} NothingElse(s: Store, names: set<string>, remotes: Remotes, streams: bool, trace: seq<Entry>,
                                       k: Key)
    requires Placed(s, names) && k in Serve(s, remotes, streams, trace).store.mails && k !in s.mails
    ensures exists i: nat :: Origin(s, remotes, streams, trace, i, k)
  {
    hide Placed, Receive, MailAccepted, FreshKey, Origin, OwnOutcome, OthersOutcome;
    var n := |trace| - 1;
    var before := trace[..n];
    var m, u := Serve(s, remotes, streams, before).store, Serve(s, remotes, streams, trace).store;
    if trace[n].command.Data? {
      AtEntry(s, names, remotes, streams, trace, n);
      assert trace[..n + 1] == trace;
      OldOrNew(m, trace[n].command.d, streams, Receive(m, trace[n].command.d, streams), FreshKey(m, INBOX), k);
    }
    if k in m.mails && u.mails[k] == m.mails[k] {
      NothingElse(s, names, remotes, streams, before, k);
      var i: nat :| Origin(s, remotes, streams, before, i, k);
      OriginStays(s, remotes, streams, before, trace, i, k);
    } else {
      OriginNow(s, remotes, streams, trace, k);
    }
  }

  lemma OldOrNew(s: Store, d: Incoming, streams: bool, r: Step<nat>, own: Key, k: Key)
    requires OwnOutcome(s, d, streams, r, own) && OthersOutcome(s, d, streams, r, own) && k in r.store.mails
    ensures || (k in s.mails && r.store.mails[k] == s.mails[k])
      || (k == own && Stores(s, d, streams) && (Accepts(s, d, streams) || Leaks(s, d, streams))
          && r.store.mails[k].size == Size(d))
  {
    hide Stored, Peeked, Intact, Holds, IsDoomed;
  }

  lemma OriginStays(s: Store, remotes: Remotes, streams: bool, before: seq<Entry>, trace: seq<Entry>, i: nat, k: Key)
    requires Origin(s, remotes, streams, before, i, k) && |before| <= |trace| && before == trace[..|before|]
    requires var m, u := Serve(s, remotes, streams, before).store, Serve(s, remotes, streams, trace).store;
      k in m.mails && k in u.mails && u.mails[k] == m.mails[k]
    ensures Origin(s, remotes, streams, trace, i, k)
  {
    hide Serve, FreshKey, Stores, Accepts, Leaks, Stored, Peeked;
    assert before[..i] == trace[..i];
  }

  lemma OriginNow(s: Store, remotes: Remotes, streams: bool, trace: seq<Entry>, k: Key)
    requires trace != [] && trace[|trace| - 1].command.Data?
    requires var m := Serve(s, remotes, streams, trace[..|trace| - 1]).store;
      var u := Serve(s, remotes, streams, trace).store;
      var d := trace[|trace| - 1].command.d;
      && k == FreshKey(m, INBOX) && Stores(m, d, streams) && (Accepts(m, d, streams) || Leaks(m, d, streams))
      && k in u.mails && u.mails[k].size == Size(d)
    ensures Origin(s, remotes, streams, trace, |trace| - 1, k)
  {
    hide Serve, FreshKey, Accepts, Leaks, Stored, Peeked;
  }

  // ----- The limit -----

  predicate InInbox(k: Key) {
    k.mailbox == INBOX
  }

  /** Every message of INBOX is within the limit. */
  predicate Within(s: Store, limit: int) {
    forall k :: k in s.mails && InInbox(k) ==> s.mails[k].size <= limit
  }

  predicate LeaksOver(s: Store, d: Incoming, streams: bool, limit: int) {
    Leaks(s, d, streams) && Size(d) > limit
  }

  lemma OneWithin(s: Store, names: set<string>, d: Incoming, streams: bool, limit: int)
    requires Placed(s, names) && Within(s, limit) && d.w.lateLimit == Some(limit)
    ensures Within(Receive(s, d, streams).store, limit) <==> !LeaksOver(s, d, streams, limit)
  {
    hide Stored, Peeked, FreshKey, Receive, Placed, Intact, Holds, IsDoomed, InInbox, RelPath;
    var r, k := Receive(s, d, streams), FreshKey(s, INBOX);
    DataOutcome(s, names, d, streams);
    FreshIsInInbox(s);
    if Leaks(s, d, streams) {
      assert k in r.store.mails && r.store.mails[k].size == Size(d);
    } else if k in r.store.mails {
      assert Accepts(s, d, streams);
    }
  }

  lemma FreshIsInInbox(s: Store)
    ensures InInbox(FreshKey(s, INBOX))
  {
  }

  ghost predicate AlwaysWithin(s: Store, remotes: Remotes, streams: bool, trace: seq<Entry>, limit: int) {
    forall i :: 0 <= i <= |trace| ==> Within(Serve(s, remotes, streams, trace[..i]).store, limit)
  }

  ghost predicate NeverLeaks(s: Store, remotes: Remotes, streams: bool, trace: seq<Entry>, limit: int) {
    forall i :: 0 <= i < |trace| && trace[i].command.Data? ==>
      !LeaksOver(Serve(s, remotes, streams, trace[..i]).store, trace[i].command.d, streams, limit)
  }

  lemma WithinSnoc(s: Store, remotes: Remotes, streams: bool, trace: seq<Entry>, before: seq<Entry>, limit: int)
    requires trace != [] && before == trace[..|trace| - 1]
    ensures AlwaysWithin(s, remotes, streams, trace, limit)
      <==> AlwaysWithin(s, remotes, streams, before, limit) && Within(Serve(s, remotes, streams, trace).store, limit)
  {
    hide Serve, Within;
    assert trace[..|trace|] == trace;
    assert forall i :: 0 <= i < |trace| ==> before[..i] == trace[..i];
  }

  lemma LeaksSnoc(s: Store, remotes: Remotes, streams: bool, trace: seq<Entry>, before: seq<Entry>, limit: int)
    requires trace != [] && before == trace[..|trace| - 1]
    ensures NeverLeaks(s, remotes, streams, trace, limit)
      <==> NeverLeaks(s, remotes, streams, before, limit)
           && (trace[|trace| - 1].command.Data? ==>
                 !LeaksOver(Serve(s, remotes, streams, before).store, trace[|trace| - 1].command.d, streams, limit))
  {
    hide Serve, LeaksOver;
    assert forall i :: 0 <= i < |before| ==> before[..i] == trace[..i] && before[i] == trace[i];
  }

  lemma WithinNow(s: Store, remotes: Remotes, streams: bool, trace: seq<Entry>, limit: int)
    requires AlwaysWithin(s, remotes, streams, trace, limit)
    ensures Within(Serve(s, remotes, streams, trace).store, limit)
  {
    hide Serve, Within;
    assert trace[..|trace|] == trace;
  }

  /** With a fixed readable limit, whatever is sent, INBOX stays within it exactly as long as no DATA leaks a message
      over it. */
  lemma {:induction false} InboxStaysWithin(s: Store, names: set<string>, remotes: Remotes, streams: bool,
                                            trace: seq<Entry>, limit: int)
    requires Placed(s, names) && Within(s, limit)
    requires forall i :: 0 <= i < |trace| && trace[i].command.Data? ==> trace[i].command.d.w.lateLimit == Some(limit)
    ensures AlwaysWithin(s, remotes, streams, trace, limit) <==> NeverLeaks(s, remotes, streams, trace, limit)
  {
    hide Within, LeaksOver, Receive, Placed, MailAccepted, AlwaysWithin, NeverLeaks;
    if trace == [] {
      NothingServed(s, remotes, streams, limit);
    } else {
      var n := |trace| - 1;
      var before := trace[..n];
      InboxStaysWithin(s, names, remotes, streams, before, limit);
      WithinSnoc(s, remotes, streams, trace, before, limit);
      LeaksSnoc(s, remotes, streams, trace, before, limit);
      if AlwaysWithin(s, remotes, streams, before, limit) {
        WithinNow(s, remotes, streams, before, limit);
        MessagesStay(s, names, remotes, streams, before, n);
        if trace[n].command.Data? {
          OneWithin(Serve(s, remotes, streams, before).store, names, trace[n].command.d, streams, limit);
        }
      }
    }
  }

  lemma NothingServed(s: Store, remotes: Remotes, streams: bool, limit: int)
    requires Within(s, limit)
    ensures AlwaysWithin(s, remotes, streams, [], limit) && NeverLeaks(s, remotes, streams, [], limit)
  {
  }

  // ----- The sender -----

  /** Entry i is the last accepted MAIL of the session. */
  ghost predicate LastMail(remotes: Remotes, trace: seq<Entry>, session: nat, i: nat) {
    && i < |trace| && AcceptedMail(remotes, trace[i], session)
    && forall j :: i < j < |trace| ==> !AcceptedMail(remotes, trace[j], session)
  }

  predicate AcceptedMail(remotes: Remotes, e: Entry, session: nat) {
    && e.session == session && e.command.Mail?
    && MailAccepted(remotes(session), e.command.sender, e.command.size, e.command.limit)
  }

  /** MAIL is decided by the key at the other end and by the declared size alone: one that declares more than a readable
      limit is refused and changes no session's sender; one from the right key that does not is accepted and becomes
      it. */
  lemma MailDecides(s: Store, remotes: Remotes, streams: bool, trace: seq<Entry>, i: nat)
    requires i < |trace| && trace[i].command.Mail?
    ensures var e, r := trace[i], Serve(s, remotes, streams, trace).answers[i];
      var before := Serve(s, remotes, streams, trace[..i]).from;
      var after := Serve(s, remotes, streams, trace[..i + 1]).from;
      var size, limit := e.command.size, e.command.limit;
      var own := Address.ParseAddress(e.command.sender).Ok?
        && remotes(e.session) == Some(Address.Encode(Address.ParseAddress(e.command.sender).value));
      && (size > 0 && limit.Some? && size > limit.value ==> r.Err? && after == before)
      && (!own ==> r.Err? && after == before)
      && (own && (size <= 0 || limit.None? || size <= limit.value) ==>
            r.Ok? && after == before[e.session := e.command.sender])
  {
    hide Receive, Address.ParseAddress, Address.Encode;
    assert trace[..i + 1][..i] == trace[..i] && trace[..i + 1][i] == trace[i];
    AnswersStay(s, remotes, streams, trace, i + 1);
    assert Serve(s, remotes, streams, trace).answers[i] == Serve(s, remotes, streams, trace[..i + 1]).answers[i];
  }

  /** Each session's sender is that of its last accepted MAIL, and its key is that of the node at the other end: no
      other command, of this session or another, changes it. */
  lemma {:induction false} SenderIsRemote(s: Store, remotes: Remotes, streams: bool, trace: seq<Entry>, session: nat)
    ensures var from := Serve(s, remotes, streams, trace).from;
      && (session in from <==> exists i: nat :: LastMail(remotes, trace, session, i))
      && (forall i: nat :: LastMail(remotes, trace, session, i) ==>
            session in from && from[session] == trace[i].command.sender)
      && (session in from ==> MailAccepted(remotes(session), from[session], 0, None))
  {
    hide MailAccepted, Receive;
    if trace != [] {
      var n := |trace| - 1;
      SenderIsRemote(s, remotes, streams, trace[..n], session);
      if AcceptedMail(remotes, trace[n], session) {
        assert LastMail(remotes, trace, session, n);
        AnySize(remotes(session), trace[n].command.sender, trace[n].command.size, trace[n].command.limit);
      } else {
        forall i: nat ensures LastMail(remotes, trace, session, i) <==> LastMail(remotes, trace[..n], session, i) {
          assert forall j :: 0 <= j < n ==> trace[..n][j] == trace[j];
        }
      }
    }
  }

  lemma AnySize(remote: Option<string>, sender: string, size: int, limit: Option<int>)
    requires MailAccepted(remote, sender, size, limit)
    ensures MailAccepted(remote, sender, 0, None)
  {
  }

  // ----- The session -----

  class SessionRemote {
    const storage: SQLite3Storage
    const fs: FileStore?
    const logsLargeMail: bool          // LargeMailLogger is set
    const publicKey: Bytes             // of this node
    const remoteAddr: Option<string>   // of the connection
    var from: string

    constructor (storage: SQLite3Storage, fs: FileStore?, logsLargeMail: bool, publicKey: Bytes,
                 remoteAddr: Option<string>)
      ensures this.storage == storage && this.fs == fs && this.logsLargeMail == logsLargeMail
      ensures this.publicKey == publicKey && this.remoteAddr == remoteAddr && from == ""
    {
      this.storage, this.fs, this.logsLargeMail := storage, fs, logsLargeMail;
      this.publicKey, this.remoteAddr, from := publicKey, remoteAddr, "";
    }

    /** MAIL FROM: only the node at the other end may be the sender, and a declared size may not exceed a readable
        limit. */
    method Mail(sender: string, size: int, limit: Option<int>) returns (r: Result<()>)
      modifies this
      ensures r.Ok? <==> MailAccepted(remoteAddr, sender, size, limit)
      ensures size > 0 && limit.Some? && size > limit.value ==> r.Err?
      ensures (&& Address.ParseAddress(sender).Ok?
               && remoteAddr == Some(Address.Encode(Address.ParseAddress(sender).value))
               && (size <= 0 || limit.None? || size <= limit.value))
        ==> r.Ok?
      ensures from == if r.Ok? then sender else old(from)
      ensures r == Err(TooLarge) ==> size > 0 && limit.Some? && size > limit.value
    {
      hide Address.ParseAddress, Address.Encode;
      var pk := Address.ParseAddress(sender);
      if pk.Err? {
        return Err(BadAddress);
      }
      if remoteAddr.None? || remoteAddr.value != Address.Encode(pk.value) {
        return Err(Refused);
      }
      if size > 0 && limit.Some? && size > limit.value {
        return Err(TooLarge);
      }
      from := sender;
      return Ok(());
    }

    /** RCPT TO: mail for this node's key only. */
    method Rcpt(to: string) returns (r: Result<()>)
      ensures r.Ok? <==> Address.ParseAddress(to) == Ok(publicKey)
    {
      var pk := Address.ParseAddress(to);
      if pk.Err? {
        return Err(BadAddress);
      }
      if pk.value != publicKey {
        return Err(Refused);
      }
      return Ok(());
    }

    predicate Streams() {
      fs != null && logsLargeMail
    }

    /** DATA. */
    method Data(reader: Reader, rewrite: Rewrite, w: Surroundings) returns (r: Result<nat>)
      requires fs == null || fs == storage.disk
      modifies storage, storage.disk, reader
      ensures var step := Receive(old(storage.State()), Incoming(old(reader.Rest()), reader.fails, rewrite, w),
                                  Streams());
        && storage.State() == step.store
        && r.Ok? == step.result.Ok? && (r.Ok? ==> r == step.result)
    {
      hide RelPath, StreamIn, BufferIn;
      ghost var data := reader.Rest();
      var peekedData, err := ReadFull(reader, SMALL_MESSAGE_THRESHOLD + 1);
      if err == ReadFailed {
        if Stored(data, rewrite).Some? {
          NothingRead(storage.State(), Stored(data, rewrite).value, w);
        }
        return Err(ReadError);
      }
      var isLarge := |peekedData| > SMALL_MESSAGE_THRESHOLD;
      if w.earlyLimit.Some? && |peekedData| > w.earlyLimit.value {
        return Err(TooLarge);
      }
      var head := rewrite(peekedData);
      if head.None? {
        return Err(ReadError);
      }
      assert reader.Rest() == data[|peekedData|..];
      reader.PutBack(head.value);
      assert Some(reader.Rest()) == Stored(data, rewrite);
      if isLarge && fs != null && logsLargeMail {
        r := StoreLarge(reader, w);
      } else {
        r := StoreSmall(reader, w);
      }
    }

    /** The streaming path: the size is checked once the file is there. */
    method StoreLarge(fullReader: Reader, w: Surroundings) returns (r: Result<nat>)
      requires fs != null && fs == storage.disk
      modifies storage, storage.disk, fullReader
      ensures var step := StreamIn(old(storage.State()), old(fullReader.Rest()), fullReader.fails, w);
        && storage.State() == step.store
        && r.Ok? == step.result.Ok? && (r.Ok? ==> r == step.result)
    {
      hide RelPath, CreateFromStream, Withdraw;
      ghost var stored := fullReader.Rest();
      if fullReader.fails {
        NothingRead(storage.State(), stored, w);
      }
      r := storage.MailCreateFromStream(INBOX, fullReader, fs, w.now, w.create.(read := false));
      assert w.create.(read := false).(read := fullReader.fails) == w.create.(read := fullReader.fails);
      if r.Err? {
        return;
      }
      var id := r.value;
      if w.selectFails {
        return Err(StorageError);
      }
      var _, storedMail := storage.MailSelect(INBOX, id);
      if storedMail.Err? {
        return Err(storedMail.error);
      }
      if w.lateLimit.Some? && storedMail.value.size > w.lateLimit.value {
        WithdrawMessage(id, true, w);
        return Err(TooLarge);
      }
    }

    /** The in-memory path: rows only. */
    method StoreSmall(fullReader: Reader, w: Surroundings) returns (r: Result<nat>)
      modifies storage, storage.disk, fullReader
      ensures var step := BufferIn(old(storage.State()), old(fullReader.Rest()), fullReader.fails, w);
        && storage.State() == step.store
        && r.Ok? == step.result.Ok? && (r.Ok? ==> r == step.result)
    {
      hide RelPath, Create, Withdraw;
      var b, copied := ReadAll(fullReader, CHUNK_SIZE);
      if !copied {
        return Err(ReadError);
      }
      r := storage.MailCreate(INBOX, b, w.now, w.create.insert);
      if r.Err? {
        return;
      }
      if w.lateLimit.Some? && |b| > w.lateLimit.value {
        WithdrawMessage(r.value, false, w);
        return Err(TooLarge);
      }
    }

    /** MailDelete, then MailExpunge with or without the file store. */
    method WithdrawMessage(id: nat, withFiles: bool, w: Surroundings)
      modifies storage, storage.disk
      ensures storage.State() == Withdraw(old(storage.State()), id, withFiles, w)
    {
      hide Expunge, MarkDeleted;
      var _ := storage.MailDelete(INBOX, id, w.mark);
      if withFiles {
        var _ := storage.MailExpungeWithFileStore(INBOX, storage.disk, w.expunge);
      } else {
        var _ := storage.MailExpunge(INBOX, w.expunge);
      }
    }
  }
}
