// The values every other module works on: the rows of the `mailboxes`, `mails`
// and `queue` tables, the file map under the store's base directory, and the
// plain map of messages that the tables and files together stand for.

module Types {

  datatype Option<+T> = None | Some(value: T)

  datatype Error =
    | NotFound | NoContent | StorageError | FileError | ReadError | BadAddress | Refused | TooLarge | SourceKept

  datatype Result<+T> = Ok(value: T) | Err(error: Error)

  /** How a writer task fares: carried out, ended by an error, or never run because its transaction could
      not begin. The caller of a skipped task gets no error. */
  datatype Write = Succeeds | Fails | Skipped

  type byte = b: int | 0 <= b < 256
  type Bytes = seq<byte>

  const SMALL_MESSAGE_THRESHOLD: nat := 10 * 1024 * 1024
  const CHUNK_SIZE: nat := 128 * 1024

  const INBOX := "INBOX"
  const OUTBOX := "Outbox"
  const SENT := "Sent"

  datatype Flags = Flags(seen: bool, answered: bool, flagged: bool, deleted: bool)

  const NO_FLAGS := Flags(false, false, false, false)

  /** The primary key of a row of `mails`. */
  datatype Key = Key(mailbox: string, id: nat)

  /** A row of `mails`: a NULL column is `None`. */
  datatype Row = Row(mail: Option<Bytes>, mailFile: Option<string>, size: nat, date: int, flags: Flags)

  /** The primary key of a row of `queue`, and the columns it determines. */
  datatype QueueKey = QueueKey(destination: string, mail: Key)
  datatype Envelope = Envelope(from: string, rcpt: string)

  /** Everything the node keeps on disk: three tables and the files, by relative path. */
  datatype Store = Store(
    mailboxes: set<string>,
    mails: map<Key, Row>,
    queue: map<QueueKey, Envelope>,
    files: map<string, Bytes>)

  /** What a store stands for: messages by key, wherever their bytes live. */
  datatype Message = Message(content: Bytes, date: int, flags: Flags)
  datatype View = View(mailboxes: set<string>, mail: map<Key, Message>, queue: map<QueueKey, Envelope>)

  predicate AllDifferent(ids: seq<nat>) {
    forall i, j :: 0 <= i < j < |ids| ==> ids[i] != ids[j]
  }

  /** The ids in use in one mailbox. */
  function IdsIn(keys: set<Key>, mailbox: string): (ids: set<nat>)
    ensures forall i: nat :: i in ids <==> Key(mailbox, i) in keys
  {
    set k | k in keys && k.mailbox == mailbox :: k.id
  }

  lemma {:induction false} MaxExists(ids: set<nat>)
    requires ids != {}
    ensures exists m :: m in ids && forall i :: i in ids ==> i <= m
  {
    var x :| x in ids;
    var rest := ids - {x};
    if rest == {} {
      assert ids == rest + {x};
    } else {
      MaxExists(rest);
      var m :| m in rest && forall i :: i in rest ==> i <= m;
      var top := if m < x then x else m;
      assert top in ids;
      forall i | i in ids ensures i <= top {
        assert i == x || i in rest;
      }
    }
  }

  /** IFNULL(MAX(id) + 1, 1) over one mailbox. */
  function NextId(keys: set<Key>, mailbox: string): (next: nat)
    ensures next >= 1
    ensures forall i: nat :: Key(mailbox, i) in keys ==> i < next
    ensures next == 1 || Key(mailbox, next - 1) in keys
  {
    var ids := IdsIn(keys, mailbox);
    if ids == {} then 1
    else
      MaxExists(ids);
      var m :| m in ids && forall i :: i in ids ==> i <= m;
      m + 1
  }
}
