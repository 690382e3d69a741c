// session_local.go: mail submitted by the node's own user, from the first command
// of a session to the rows of the queue.

module SmtpLocal {
  import opened Types
  import opened Paths
  import opened StoreModel
  import opened Streams
  import opened Sender
  import Address
  import Conservation
  import Enqueue

  datatype Command = Mail(sender: string) | Rcpt(to: string) | Reset | Data

  /** The fields of a session. */
  datatype Fields = Fields(from: string, rcpt: seq<string>)

  predicate IsOwn(publicKey: Bytes, address: string) {
    Address.ParseAddress(address) == Ok(publicKey)
  }

  /** The fields after a history of commands. */
  function After(publicKey: Bytes, trace: seq<Command>): Fields {
    if trace == [] then Fields("", [])
    else
      var f := After(publicKey, trace[..|trace| - 1]);
      match trace[|trace| - 1]
      case Mail(sender) => Fields(if IsOwn(publicKey, sender) then sender else f.from, [])
      case Rcpt(to) => f.(rcpt := f.rcpt + [to])
      case Reset => Fields("", [])
      case Data => f
  }

  // ----- What the fields mean, in terms of the history -----

  /** Command i cleared the recipients and none did since. */
  predicate LastClear(trace: seq<Command>, i: nat) {
    && i <= |trace|
    && (i > 0 ==> trace[i - 1].Mail? || trace[i - 1].Reset?)
    && forall j :: i <= j < |trace| ==> trace[j].Rcpt? || trace[j].Data?
  }

  /** The recipients named in a list of commands, in order. */
  function Recipients(commands: seq<Command>): seq<string> {
    if commands == [] then []
    else if commands[0].Rcpt? then [commands[0].to] + Recipients(commands[1..])
    else Recipients(commands[1..])
  }

  lemma {:induction false} RecipientsSnoc(commands: seq<Command>, c: Command)
    ensures Recipients(commands + [c]) == Recipients(commands) + if c.Rcpt? then [c.to] else []
  {
    if commands == [] {
      assert commands + [c] == [c];
    } else {
      assert (commands + [c])[1..] == commands[1..] + [c];
      RecipientsSnoc(commands[1..], c);
    }
  }

  /** The recipients are exactly those given since the last MAIL, accepted or not, or RSET. */
  lemma {:induction false} RecipientsSinceClear(publicKey: Bytes, trace: seq<Command>, i: nat)
    requires LastClear(trace, i)
    ensures After(publicKey, trace).rcpt == Recipients(trace[i..])
  {
    hide IsOwn;
    if i < |trace| {
      var n := |trace| - 1;
      assert LastClear(trace[..n], i) by {
        assert forall j :: 0 <= j < n ==> trace[..n][j] == trace[j];
      }
      RecipientsSinceClear(publicKey, trace[..n], i);
      assert trace[i..] == trace[..n][i..] + [trace[n]];
      RecipientsSnoc(trace[..n][i..], trace[n]);
    } else {
      assert trace[i..] == [];
    }
  }

  /** There is always one such point. */
  lemma {:induction false} ClearedOnce(trace: seq<Command>) returns (i: nat)
    ensures forall j: nat :: LastClear(trace, j) <==> j == i
  {
    if trace == [] {
      i := 0;
    } else {
      var n := |trace| - 1;
      if trace[n].Mail? || trace[n].Reset? {
        i := n + 1;
        assert forall j: nat :: j <= n ==> !LastClear(trace, j);
      } else {
        i := ClearedOnce(trace[..n]);
        forall j: nat ensures LastClear(trace, j) <==> LastClear(trace[..n], j) {
          assert forall k :: 0 <= k < n ==> trace[..n][k] == trace[k];
        }
      }
    }
  }

  /** Command i was an accepted MAIL, and neither another nor a RSET came since. */
  predicate LastSender(publicKey: Bytes, trace: seq<Command>, i: nat) {
    && i < |trace| && trace[i].Mail? && IsOwn(publicKey, trace[i].sender)
    && forall j :: i < j < |trace| ==> !trace[j].Reset? && !(trace[j].Mail? && IsOwn(publicKey, trace[j].sender))
  }

  /** The sender is that of the last accepted MAIL since the last RSET, and none otherwise: a refused MAIL clears
      the recipients but keeps the sender. */
  lemma {:induction false} SenderSinceReset(publicKey: Bytes, trace: seq<Command>)
    ensures var from := After(publicKey, trace).from;
      || (from == "" && forall i: nat :: !LastSender(publicKey, trace, i))
      || (IsOwn(publicKey, from) && exists i: nat :: LastSender(publicKey, trace, i) && trace[i].sender == from)
  {
    hide IsOwn;
    if trace != [] {
      var n := |trace| - 1;
      var before := trace[..n];
      SenderSinceReset(publicKey, before);
      assert forall j :: 0 <= j < n ==> before[j] == trace[j];
      var accepted := trace[n].Mail? && IsOwn(publicKey, trace[n].sender);
      if accepted {
        assert LastSender(publicKey, trace, n);
      } else if !trace[n].Reset? {
        forall i: nat ensures LastSender(publicKey, trace, i) <==> LastSender(publicKey, before, i) {
          SameLastSender(publicKey, trace, i);
        }
      }
    }
  }

  lemma SameLastSender(publicKey: Bytes, trace: seq<Command>, i: nat)
    requires trace != [] && !trace[|trace| - 1].Reset?
    requires !(trace[|trace| - 1].Mail? && IsOwn(publicKey, trace[|trace| - 1].sender))
    ensures LastSender(publicKey, trace, i) <==> LastSender(publicKey, trace[..|trace| - 1], i)
  {
    hide IsOwn;
    var before := trace[..|trace| - 1];
    assert forall j :: 0 <= j < |before| ==> before[j] == trace[j];
  }

  /** What a successful DATA queues: one message and, for every recipient since the last clear whose INSERT is carried
      out, exactly one row, under the hex of its key and from the sender. */
  ghost predicate Submitted(v: View, w: View, content: Bytes, now: int, from: string, rcpts: seq<string>,
                            unwrap: Enqueue.Unwrap, inserts: Enqueue.Inserts) {
    var k := Fresh(v, OUTBOX);
    && (forall i :: 0 <= i < |rcpts| ==> Enqueue.Parses(unwrap, rcpts[i]))
    && w.mailboxes == v.mailboxes
    && w.mail == v.mail[k := Message(content, now, NO_FLAGS)]
    && (forall q :: q in v.queue ==> q in w.queue && w.queue[q] == v.queue[q])
    && (forall i :: 0 <= i < |rcpts| && inserts(i).Succeeds? ==> Enqueue.RowFor(w, k.id, from, rcpts[i], unwrap))
    && (forall i, j :: 0 <= i < j < |rcpts| && inserts(i).Succeeds? && inserts(j).Succeeds? ==>
          !Enqueue.SameKey(unwrap, rcpts[i], rcpts[j]))
    && (forall q :: q in w.queue && q !in v.queue ==>
          q.mail == k
          && exists i :: 0 <= i < |rcpts| && inserts(i).Succeeds? && Enqueue.IsHostOf(unwrap, rcpts[i], q.destination))
  }

  class SessionLocal {
    const queues: Queues
    const publicKey: Bytes
    var from: string
    var rcpt: seq<string>
    ghost var trace: seq<Command>

    ghost predicate Valid()
      reads this
    {
      Fields(from, rcpt) == After(publicKey, trace)
    }

    constructor (queues: Queues, publicKey: Bytes)
      ensures this.queues == queues && this.publicKey == publicKey
      ensures Valid() && trace == []
    {
      this.queues, this.publicKey := queues, publicKey;
      from, rcpt, trace := "", [], [];
    }

    method Mail(sender: string) returns (r: Result<()>)
      requires Valid()
      modifies this
      ensures Valid() && trace == old(trace) + [Command.Mail(sender)]
      ensures r.Ok? <==> IsOwn(publicKey, sender)
    {
      hide Address.ParseAddress;
      trace := trace + [Command.Mail(sender)];
      assert trace[..|trace| - 1] == old(trace);
      rcpt := [];
      var pk := Address.ParseAddress(sender);
      if pk.Err? {
        return Err(BadAddress);
      }
      if pk.value != publicKey {
        return Err(Refused);
      }
      from := sender;
      return Ok(());
    }

    method Rcpt(to: string)
      requires Valid()
      modifies this
      ensures Valid() && trace == old(trace) + [Command.Rcpt(to)]
    {
      trace := trace + [Command.Rcpt(to)];
      assert trace[..|trace| - 1] == old(trace);
      rcpt := rcpt + [to];
    }

    method Reset()
      requires Valid()
      modifies this
      ensures Valid() && trace == old(trace) + [Command.Reset]
    {
      trace := trace + [Command.Reset];
      assert trace[..|trace| - 1] == old(trace);
      rcpt, from := [], "";
    }

    /** DATA: the whole message is read, its header rewritten, and the result queued. If storing it never begins,
        nothing is queued, and that passes for success only when no row's INSERT begins either. */
    method Data(reader: Reader, rewrite: Bytes -> Option<Bytes>, unwrap: Enqueue.Unwrap, now: int, create: Write,
                inserts: Enqueue.Inserts, ghost names: set<string>)
      returns (r: Result<()>)
      requires Valid()
      requires Ready(queues.storage.State(), names) && (queues.fs == null || queues.fs == queues.storage.disk)
      modifies this, queues.storage, queues.storage.disk, reader
      ensures Valid() && trace == old(trace) + [Command.Data] && from == old(from) && rcpt == old(rcpt)
      ensures Ready(queues.storage.State(), names)
      ensures create.Succeeds? ==>
        (r.Ok? <==>
          && !reader.fails && rewrite(old(reader.Rest())).Some? && OUTBOX in old(queues.storage.mailboxes)
          && Enqueue.Deliverable(rcpt, unwrap, inserts))
      ensures forall i: nat :: LastClear(trace, i) ==> rcpt == Recipients(trace[i..])
      ensures from != "" ==> IsOwn(publicKey, from)
      ensures r.Ok? && create.Succeeds? ==>
        Submitted(old(ViewOf(queues.storage.State())), ViewOf(queues.storage.State()),
                  rewrite(old(reader.Rest())).value,
                  now, from, rcpt, unwrap, inserts)
      ensures !create.Succeeds? && Key(OUTBOX, 0) !in old(queues.storage.mails) ==>
        && ViewOf(queues.storage.State()) == old(ViewOf(queues.storage.State()))
        && (r.Ok? <==>
              && create.Skipped? && !reader.fails && rewrite(old(reader.Rest())).Some?
              && Enqueue.AllLost(rcpt, unwrap, inserts))
    {
      hide RelPath, StoreModel.Valid, Fits, ViewOf, Enqueue.QueueFor, Enqueue.Deliverable, Submitted, After,
        Enqueue.AllLost;
      AfterData(publicKey, trace);
      trace := trace + [Command.Data];
      forall i: nat | LastClear(trace, i) ensures rcpt == Recipients(trace[i..]) {
        RecipientsSinceClear(publicKey, trace, i);
      }
      SenderSinceReset(publicKey, trace);
      hide LastClear, Recipients, IsOwn;
      ghost var v := ViewOf(queues.storage.State());
      var b, copied := ReadAll(reader, CHUNK_SIZE);
      if !copied {
        return Err(ReadError);
      }
      var finalData := rewrite(b);
      if finalData.None? {
        return Err(ReadError);
      }
      ViewQueueOk(queues.storage.State());
      QueuedIsSubmitted(v, from, rcpt, finalData.value, now, unwrap, inserts);
      if !create.Succeeds? && Key(OUTBOX, 0) !in v.mail {
        Enqueue.QueueForLost(v, from, rcpt, finalData.value, now, unwrap, create, inserts);
      }
      r := queues.QueueFor(from, rcpt, finalData.value, unwrap, now, create, inserts, names);
    }
  }

  lemma AfterData(publicKey: Bytes, trace: seq<Command>)
    ensures After(publicKey, trace + [Command.Data]) == After(publicKey, trace)
  {
    var all := trace + [Command.Data];
    assert all[..|all| - 1] == trace;
  }

  lemma QueuedIsSubmitted(v: View, from: string, rcpts: seq<string>, content: Bytes, now: int, unwrap: Enqueue.Unwrap,
                          inserts: Enqueue.Inserts)
    requires Conservation.QueueOk(v)
    ensures var q := Enqueue.QueueFor(v, from, rcpts, content, now, unwrap, Succeeds, inserts);
      && (q.ok <==> OUTBOX in v.mailboxes && Enqueue.Deliverable(rcpts, unwrap, inserts))
      && (q.ok ==> Submitted(v, q.view, content, now, from, rcpts, unwrap, inserts))
  {
    hide Enqueue.QueueFor, Enqueue.Parses, Enqueue.SameKey, Enqueue.IsHostOf, Enqueue.RowFor;
    Enqueue.QueueForExact(v, from, rcpts, content, now, unwrap, inserts);
  }

  lemma ViewQueueOk(s: Store)
    requires StoreModel.Valid(s)
    ensures Conservation.QueueOk(ViewOf(s)) && ViewOf(s).mailboxes == s.mailboxes && ViewOf(s).mail.Keys == s.mails.Keys
  {
  }

  /** A DATA that succeeds after an accepted MAIL sends in the node's own name. */
  lemma SubmittedByOwner(publicKey: Bytes, trace: seq<Command>, i: nat)
    requires LastSender(publicKey, trace, i)
    ensures Address.ParseAddress(After(publicKey, trace).from) == Ok(publicKey)
  {
    hide Address.ParseAddress;
    SenderSinceReset(publicKey, trace);
  }
}
