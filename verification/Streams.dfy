// Byte streams, as io.Reader promises them: each read may return fewer bytes than
// asked for, and the end may come with the last bytes or after them.

module Streams {
  import opened Types

  datatype Outcome = Fine | Eof | UnexpectedEof | ReadFailed

  /** io.MultiReader of bytes held in memory and a source. `script` bounds the size of each coming read of
      the source; `eager` sources report their end together with their last bytes; failing ones end in an error. */
  class Reader {
    var front: Bytes
    var source: Bytes
    var script: seq<nat>
    const eager: bool
    const fails: bool

    constructor (front: Bytes, source: Bytes, script: seq<nat>, eager: bool, fails: bool)
      ensures this.front == front && this.source == source
      ensures this.script == script && this.eager == eager && this.fails == fails
    {
      this.front, this.source, this.script := front, source, script;
      this.eager, this.fails := eager, fails;
    }

    /** bytes.NewReader. */
    constructor OfBytes(data: Bytes)
      ensures Rest() == data && !fails
    {
      front, source, script := data, [], [];
      eager, fails := false, false;
    }

    /** What is still to be read. */
    function Rest(): Bytes
      reads this
    {
      front + source
    }

    function End(): Outcome {
      if fails then ReadFailed else Eof
    }

    function Left(): nat
      reads this
    {
      |front| + |source| + |script|
    }

    method Read(n: nat) returns (p: Bytes, err: Outcome)
      requires n > 0
      modifies this
      ensures p + Rest() == old(Rest()) && |p| <= n
      ensures err == Fine || (err == End() && Rest() == [])
      ensures err == Fine ==> Left() < old(Left())
    {
      if front != [] {
        var k := if n < |front| then n else |front|;
        p, front := front[..k], front[k..];
        return p, Fine;
      }
      if source == [] {
        return [], End();
      }
      var k := if n < |source| then n else |source|;
      if script != [] {
        if script[0] < k {
          k := script[0];
        }
        script := script[1..];
      }
      p, source := source[..k], source[k..];
      err := if source == [] && eager && k > 0 then End() else Fine;
    }

    /** bytes.NewReader(data) put in front, as io.MultiReader does. */
    method PutBack(data: Bytes)
      modifies this
      ensures Rest() == data + old(Rest())
    {
      front := data + front;
    }
  }

  function FirstBytes(data: Bytes, n: nat): Bytes {
    if n <= |data| then data[..n] else data
  }

  lemma Split(p: Bytes, rest: Bytes, whole: Bytes)
    requires p + rest == whole
    ensures p == whole[..|p|] && rest == whole[|p|..]
  {
    assert whole[..|p|] == p && whole[|p|..] == rest;
  }

  /** io.ReadFull; on a limited reader with the same limit it does the same. */
  method ReadFull(r: Reader, n: nat) returns (p: Bytes, err: Outcome)
    requires n > 0
    modifies r
    ensures p == FirstBytes(old(r.Rest()), n) && p + r.Rest() == old(r.Rest())
    ensures err == if n <= |old(r.Rest())| then Fine
                   else if r.fails then ReadFailed
                   else if old(r.Rest()) == [] then Eof else UnexpectedEof
  {
    p, err := [], Fine;
    ghost var whole := r.Rest();
    while |p| < n && err == Fine
      invariant p + r.Rest() == whole && |p| <= n
      invariant err == Fine || (err == r.End() && r.Rest() == [])
      decreases err == Fine, r.Left()
    {
      var more;
      more, err := r.Read(n - |p|);
      p := p + more;
    }
    Split(p, r.Rest(), whole);
    if |p| == n {
      err := Fine;
    } else if |p| > 0 && err == Eof {
      err := UnexpectedEof;
    }
  }

  /** bytes.Buffer.ReadFrom of an io.LimitReader. */
  method ReadLimited(r: Reader, limit: nat) returns (p: Bytes, ok: bool)
    modifies r
    ensures p == FirstBytes(old(r.Rest()), limit) && p + r.Rest() == old(r.Rest())
    ensures !ok ==> r.fails && r.Rest() == []
    ensures r.fails && |old(r.Rest())| < limit ==> !ok
  {
    p := [];
    var err := Fine;
    ghost var whole := r.Rest();
    while |p| < limit && err == Fine
      invariant p + r.Rest() == whole && |p| <= limit
      invariant err == Fine || (err == r.End() && r.Rest() == [])
      decreases err == Fine, r.Left()
    {
      var more;
      more, err := r.Read(limit - |p|);
      p := p + more;
    }
    Split(p, r.Rest(), whole);
    ok := err != ReadFailed;
  }

  /** io.ReadAll and io.Copy. */
  method ReadAll(r: Reader, chunk: nat) returns (p: Bytes, ok: bool)
    requires chunk > 0
    modifies r
    ensures p == old(r.Rest()) && r.Rest() == [] && ok == !r.fails
  {
    p := [];
    var err := Fine;
    while err == Fine
      invariant p + r.Rest() == old(r.Rest())
      invariant err == Fine || (err == r.End() && r.Rest() == [])
      decreases err == Fine, r.Left()
    {
      var more;
      more, err := r.Read(chunk);
      p := p + more;
    }
    ok := err != ReadFailed;
  }

  /** The DATA writer of an SMTP client; it may break after any number of writes. */
  class DataWriter {
    var written: Bytes
    var writes: nat
    const capacity: Option<nat>

    constructor (capacity: Option<nat>)
      ensures written == [] && writes == 0 && this.capacity == capacity
    {
      written, writes, this.capacity := [], 0, capacity;
    }

    predicate Broken()
      reads this
    {
      capacity.Some? && writes >= capacity.value
    }

    method Write(p: Bytes) returns (ok: bool)
      modifies this
      ensures ok == !old(Broken())
      ensures written == if ok then old(written) + p else old(written)
    {
      ok := !Broken();
      if ok {
        written, writes := written + p, writes + 1;
      }
    }
  }

  /** The send loop of Queue.run: reads at most one chunk at a time and writes it on at once. */
  method SendChunks(r: Reader, writer: DataWriter) returns (ok: bool, totalSent: nat)
    modifies r, writer
    ensures writer.written <= old(writer.written) + old(r.Rest())
    ensures |writer.written| == |old(writer.written)| + totalSent
    ensures ok ==> writer.written == old(writer.written) + old(r.Rest()) && !r.fails
    ensures writer.capacity.None? ==> ok == !r.fails
  {
    ghost var before, whole := writer.written, r.Rest();
    totalSent := 0;
    var readErr := Fine;
    while readErr == Fine
      invariant writer.written + r.Rest() == before + whole
      invariant |writer.written| == |before| + totalSent
      invariant readErr == Fine || (readErr == r.End() && r.Rest() == [])
      decreases readErr == Fine, r.Left()
    {
      ghost var sent, rest := writer.written, r.Rest();
      var chunk;
      chunk, readErr := r.Read(CHUNK_SIZE);
      assert sent + chunk + r.Rest() == sent + rest;
      if chunk != [] {
        var wrote := writer.Write(chunk);
        if !wrote {
          return false, totalSent;
        }
        totalSent := totalSent + |chunk|;
      }
    }
    ok := readErr != ReadFailed;
  }
}
