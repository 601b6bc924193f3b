/**
  The bounded producer/consumer ring between the MTP thread and the installer.

  Each method below is one critical section of the source, entered when its wait condition holds.
  `Interleaving` runs a producer thread and a consumer thread under an arbitrary schedule of such
  sections.
 */
module InstallStream {
  import opened Bytes

  function Min(a: nat, b: nat): nat { if a < b then a else b }

  /** x % c for the sums that occur here. */
  function Wrapped(x: nat, c: nat): nat
    requires x < 2 * c
  {
    if x < c then x else x - c
  }

  lemma WrappedIsModulo(x: nat, c: nat)
    requires x < 2 * c
    ensures x % c == Wrapped(x, c)
  {
    if x >= c {
      assert x == c * 1 + (x - c);
    }
  }

  /** The circular buffer holds the given bytes from position r on. */
  ghost predicate Holds(buf: Bytes, r: nat, waiting: Bytes) {
    && r < |buf| && |waiting| <= |buf|
    && forall k :: 0 <= k < |waiting| ==> waiting[k] == buf[Wrapped(r + k, |buf|)]
  }

  /** Storing a contiguous chunk after the waiting bytes appends it to them. */
  lemma HoldsPush(buf: Bytes, buf': Bytes, r: nat, waiting: Bytes, data: Bytes)
    requires Holds(buf, r, waiting) && |buf'| == |buf| && |waiting| + |data| <= |buf|
    requires var w := Wrapped(r + |waiting|, |buf|);
             w + |data| <= |buf| && buf' == buf[..w] + data + buf[w + |data|..]
    ensures Holds(buf', r, waiting + data)
  {
  }

  /** Taking a contiguous chunk yields the first waiting bytes and leaves the rest. */
  lemma HoldsRead(buf: Bytes, r: nat, waiting: Bytes, n: nat)
    requires Holds(buf, r, waiting) && n <= |waiting| && r + n <= |buf|
    ensures buf[r..r + n] == waiting[..n]
    ensures Holds(buf, Wrapped(r + n, |buf|), waiting[n..])
  {
  }

  class Stream {
    const capacity: nat
    const buffer: array<byte>
    var readPos: nat
    var writePos: nat
    var used: nat
    var producerDone: bool
    var consumerDone: bool
    var cancelled: bool
    var pushed: nat
    var consumed: nat
    ghost var accepted: Bytes   // every byte ever stored in the ring, in order
    ghost var delivered: Bytes  // every byte ever copied out of the ring, in order
    ghost var waiting: Bytes    // the bytes in between

    ghost predicate Valid()
      reads this, buffer
    {
      && 0 < capacity == buffer.Length
      && readPos < capacity && writePos < capacity && used <= capacity
      && writePos == Wrapped(readPos + used, capacity)
      && consumed == |delivered|
      && delivered <= accepted
      && (!consumerDone ==>
            && used == pushed - consumed
            && pushed == |accepted|
            && accepted == delivered + waiting
            && |waiting| == used && Holds(buffer[..], readPos, waiting))
    }

    constructor (capacityBytes: nat)
      ensures Valid() && fresh(buffer) && capacity >= 65536
      ensures accepted == delivered == [] && used == 0
      ensures !producerDone && !consumerDone && !cancelled
    {
      capacity := if capacityBytes > 65536 then capacityBytes else 65536;
      readPos, writePos, used, pushed, consumed := 0, 0, 0, 0, 0;
      producerDone, consumerDone, cancelled := false, false, false;
      accepted, delivered, waiting := [], [], [];
      var c := if capacityBytes > 65536 then capacityBytes else 65536;
      buffer := new byte[c](_ => 0);
    }

    predicate CanPush()
      reads this
    {
      cancelled || consumerDone || used < capacity
    }

    predicate CanRead()
      reads this
    {
      cancelled || used > 0 || producerDone
    }

    /** The producer and the consumer are never both waiting. */
    lemma NeverBothBlocked()
      requires Valid()
      ensures CanPush() || CanRead()
    {
    }

    /** The counters and positions, as the source keeps them. */
    lemma Counters()
      requires Valid()
      ensures !consumerDone ==> used == pushed - consumed <= capacity
      ensures writePos == (readPos + used) % capacity
    {
      WrappedIsModulo(readPos + used, capacity);
    }

    method Advance(pos: nat, n: nat) returns (p: nat)
      requires pos < capacity && n <= capacity
      ensures p == Wrapped(pos + n, capacity)
    {
      WrappedIsModulo(pos + n, capacity);
      p := (pos + n) % capacity;
    }

    method Store(pos: nat, data: Bytes)
      requires pos + |data| <= buffer.Length
      modifies buffer
      ensures buffer[..] == old(buffer[..pos]) + data + old(buffer[pos + |data|..])
    {
      forall i | 0 <= i < |data| {
        buffer[pos + i] := data[i];
      }
    }

    method Append(data: Bytes)
      requires Valid() && !consumerDone
      requires |data| <= capacity - used && |data| <= capacity - writePos
      modifies this`writePos, this`used, this`pushed, this`accepted, this`waiting, buffer
      ensures Valid() && accepted == old(accepted) + data && pushed == old(pushed) + |data| && used == old(used) + |data|
    {
      ghost var before := buffer[..];
      Store(writePos, data);
      HoldsPush(before, buffer[..], readPos, waiting, data);
      assert accepted + data == delivered + (waiting + data);
      writePos := Advance(writePos, |data|);
      used := used + |data|;
      pushed := pushed + |data|;
      accepted, waiting := accepted + data, waiting + data;
    }

    /** One turn of the loop in `push`: `done` bytes of `src` are already in. */
    method PushChunk(src: Bytes, done: nat) returns (result: Option<bool>, done': nat)
      requires Valid() && CanPush() && done < |src|
      modifies this, buffer
      ensures Valid() && delivered == old(delivered) && used >= old(used)
      ensures producerDone == old(producerDone) && consumerDone == old(consumerDone) && cancelled == old(cancelled)
      ensures result == (if cancelled then Some(false) else if consumerDone then Some(true) else None)
      ensures result.None? ==> done < done' <= |src| && accepted == old(accepted) + src[done..done']
      // as much as fits before the end of the buffer
      ensures result.None? ==> done' == |src| || used == capacity || old(writePos) + (done' - done) == capacity
      ensures result.Some? ==> accepted == old(accepted) && done' == done
      ensures pushed == old(pushed) + (match result case None => done' - done case Some(true) => |src| - done case Some(false) => 0)
    {
      result, done' := None, done;
      if cancelled {
        result := Some(false);
      } else if consumerDone {
        pushed := pushed + (|src| - done);
        result := Some(true);
      } else {
        var room := capacity - used;
        var contiguous := Min(capacity - writePos, room);
        var chunk := Min(|src| - done, contiguous);
        done' := done + chunk;
        Append(src[done..done']);
      }
    }

    method Take(n: nat) returns (chunk: Bytes)
      requires Valid() && !consumerDone
      requires n <= used && n <= capacity - readPos
      modifies this`readPos, this`used, this`consumed, this`delivered, this`waiting
      ensures Valid() && |chunk| == n && delivered == old(delivered) + chunk && used == old(used) - n
    {
      chunk := buffer[readPos..readPos + n];
      HoldsRead(buffer[..], readPos, waiting, n);
      assert chunk == waiting[..n];
      assert accepted == (delivered + chunk) + waiting[n..];
      readPos := Advance(readPos, n);
      used := used - n;
      consumed := consumed + n;
      delivered, waiting := delivered + chunk, waiting[n..];
    }

    /** One turn of the loop in `readExact`. */
    method ReadChunk(want: nat) returns (result: Option<bool>, chunk: Bytes)
      requires Valid() && CanRead() && !consumerDone && want > 0
      modifies this
      ensures Valid() && accepted == old(accepted)
      ensures producerDone == old(producerDone) && consumerDone == old(consumerDone) && cancelled == old(cancelled)
      ensures result == (if cancelled || old(used) == 0 then Some(false) else None)
      ensures delivered == old(delivered) + chunk && used == old(used) - |chunk|
      ensures if result.None? then 0 < |chunk| <= want else chunk == []
      ensures result.None? ==> |chunk| == want || used == 0 || old(readPos) + |chunk| == capacity
    {
      result, chunk := None, [];
      if cancelled || (used == 0 && producerDone) {
        result := Some(false);
      } else {
        var contiguous := Min(capacity - readPos, used);
        var n := Min(want, contiguous);
        chunk := Take(n);
      }
    }

    method CloseProducer()
      requires Valid()
      modifies this`producerDone
      ensures Valid() && producerDone && CanRead()
    {
      producerDone := true;
    }

    method Cancel()
      requires Valid()
      modifies this`cancelled
      ensures Valid() && cancelled && CanPush() && CanRead()
    {
      cancelled := true;
    }

    method FinishConsumer()
      requires Valid()
      modifies this`consumerDone, this`used, this`readPos
      ensures Valid() && consumerDone && used == 0 && readPos == writePos && CanPush()
    {
      consumerDone := true;
      used := 0;
      readPos := writePos;
    }

    /**
      `readExact` once the producer has closed (no other thread changes the ring any more): it fails
      exactly when too few bytes remain, and otherwise returns the next bytes in order.
     */
    method ReadExactClosed(size: nat) returns (ok: bool, out: Bytes)
      requires Valid() && producerDone && !consumerDone && !cancelled
      modifies this
      ensures Valid() && accepted == old(accepted)
      ensures ok <==> size <= old(used)
      ensures ok ==> |out| == size
      ensures delivered == old(delivered) + out
    {
      out := [];
      while |out| < size
        invariant Valid() && producerDone && !consumerDone && !cancelled
        invariant accepted == old(accepted) && delivered == old(delivered) + out
        invariant |out| <= size && used == old(used) - |out|
        decreases size - |out|
      {
        var result, chunk := ReadChunk(size - |out|);
        if result.Some? {
          return false, out;
        }
        out := out + chunk;
      }
      ok := true;
    }
  }

  /** The bytes in the pushes from number p on. */
  ghost function BytesFrom(pushes: seq<Bytes>, p: nat): nat
    requires p <= |pushes|
    ensures p < |pushes| ==> BytesFrom(pushes, p) == |pushes[p]| + BytesFrom(pushes, p + 1)
    decreases |pushes| - p
  {
    if p == |pushes| then 0 else |pushes[p]| + BytesFrom(pushes, p + 1)
  }

  ghost function SizesFrom(sizes: seq<nat>, r: nat): nat
    requires r <= |sizes|
    decreases |sizes| - r
  {
    if r == |sizes| then 0 else sizes[r] + SizesFrom(sizes, r + 1)
  }

  datatype Turn = Producer | Consumer | Canceller

  /** A thread that pushes buffers and closes, a thread that reads sizes and finishes, one stream. */
  class Threads {
    const s: Stream
    const pushes: seq<Bytes>
    const sizes: seq<nat>
    var p: nat       // the producer is in push number p ...
    var done: nat    // ... with this many bytes accepted
    var outs: seq<Bytes>  // results of the consumer's completed reads
    var partial: Bytes    // what its current read has copied so far
    var failed: bool      // a read has returned false

    ghost predicate Valid()
      reads this, s, s.buffer
    {
      && s.Valid()
      && p <= |pushes| && done <= (if p < |pushes| then |pushes[p]| else 0)
      && s.accepted <= Concat(pushes)
      && (!s.consumerDone ==>
            s.accepted == Concat(pushes[..p]) + (if p < |pushes| then pushes[p][..done] else []))
      && (s.producerDone && !s.cancelled ==> p == |pushes|)
      && s.delivered == Concat(outs) + partial
      && |outs| <= |sizes| && (forall i :: 0 <= i < |outs| ==> |outs[i]| == sizes[i])
      && (|outs| < |sizes| ==> |partial| <= sizes[|outs|]) && (|outs| == |sizes| ==> partial == [])
      && (failed ==> s.consumerDone) && (s.consumerDone ==> failed || |outs| == |sizes|)
      && (failed && !s.cancelled ==>
            && s.accepted == s.delivered == Concat(pushes)
            && |outs| < |sizes| && |partial| < sizes[|outs|])
    }

    constructor (s: Stream, pushes: seq<Bytes>, sizes: seq<nat>)
      requires s.Valid() && s.accepted == s.delivered == []
      requires !s.producerDone && !s.consumerDone && !s.cancelled
      ensures Valid() && this.s == s && this.pushes == pushes && this.sizes == sizes
      ensures Work() == 2 + |pushes| + BytesFrom(pushes, 0) + |sizes| + SizesFrom(sizes, 0)
    {
      this.s, this.pushes, this.sizes := s, pushes, sizes;
      p, done, outs, partial, failed := 0, 0, [], [], false;
    }

    // ----- Progress -----

    /** The producer does not have to wait. */
    ghost predicate ProducerEnabled()
      requires p <= |pushes|
      reads this, s
    {
      !s.producerDone && (p == |pushes| || done == |pushes[p]| || s.CanPush())
    }

    ghost predicate ConsumerEnabled()
      requires |outs| <= |sizes|
      reads this, s
    {
      !s.consumerDone && (|outs| == |sizes| || |partial| == sizes[|outs|] || s.CanRead())
    }

    /** What the producer still has to do: bytes to push, pushes to end, and closing. */
    ghost function ProducerWork(): int
      requires p <= |pushes|
      reads this, s
    {
      if s.producerDone then 0 else 1 + (|pushes| - p) + BytesFrom(pushes, p) - done
    }

    ghost function ConsumerWork(): int
      requires |outs| <= |sizes|
      reads this, s
    {
      if s.consumerDone then 0 else 1 + (|sizes| - |outs|) + SizesFrom(sizes, |outs|) - |partial|
    }

    ghost function Work(): int
      requires p <= |pushes| && |outs| <= |sizes|
      reads this, s
    {
      ProducerWork() + ConsumerWork()
    }

    lemma WorkIsNatural()
      requires Valid()
      ensures Work() >= 0 && (Work() == 0 <==> s.producerDone && s.consumerDone)
    {
    }

    /** Until both are done, one of them can go on. */
    lemma OneEnabled()
      requires Valid() && !(s.producerDone && s.consumerDone)
      ensures ProducerEnabled() || ConsumerEnabled()
    {
    }

    /** One turn of the producer: nothing while it has to wait. */
    method ProducerTurn()
      requires Valid()
      modifies this`p, this`done, s, s.buffer
      ensures Valid() && s.consumerDone == old(s.consumerDone) && s.cancelled == old(s.cancelled)
      ensures ProducerWork() <= old(ProducerWork()) && (old(ProducerEnabled()) ==> ProducerWork() < old(ProducerWork()))
      ensures old(ConsumerEnabled()) ==> ConsumerEnabled()
    {
      if s.producerDone {
        return;
      }
      if p == |pushes| {
        s.CloseProducer();
      } else if done == |pushes[p]| {
        NextPush(p);
        p, done := p + 1, 0;
      } else if s.CanPush() {
        PushTurn();
      }
    }

    method PushTurn()
      requires Valid() && !s.producerDone && p < |pushes| && done < |pushes[p]| && s.CanPush()
      modifies this`done, s, s.buffer
      ensures Valid() && s.consumerDone == old(s.consumerDone) && s.cancelled == old(s.cancelled)
      ensures s.producerDone || done > old(done)
      ensures old(s.CanRead()) ==> s.CanRead()
    {
      var result, d' := s.PushChunk(pushes[p], done);
      if result == Some(false) {
        s.CloseProducer();
      } else if result == Some(true) {
        done := |pushes[p]|;  // the rest of this push was drained
      } else {
        PushedSoFar(p, done, d');
        done := d';
      }
    }

    lemma NextPush(p: nat)
      requires p < |pushes|
      ensures Concat(pushes[..p]) + pushes[p][..|pushes[p]|] == Concat(pushes[..p + 1])
      ensures p + 1 < |pushes| ==> pushes[p + 1][..0] == []
    {
      ConcatSnoc(pushes[..p], pushes[p]);
      assert pushes[..p + 1] == pushes[..p] + [pushes[p]];
      assert pushes[p][..|pushes[p]|] == pushes[p];
    }

    lemma PushedSoFar(p: nat, d: nat, d': nat)
      requires p < |pushes| && d <= d' <= |pushes[p]|
      ensures Concat(pushes[..p]) + pushes[p][..d] + pushes[p][d..d'] == Concat(pushes[..p]) + pushes[p][..d']
      ensures Concat(pushes[..p]) + pushes[p][..d'] <= Concat(pushes)
    {
      assert pushes[p][..d'] == pushes[p][..d] + pushes[p][d..d'];
      NextPush(p);
      assert pushes[p][..|pushes[p]|] == pushes[p];
      ConcatPrefix(pushes, p + 1);
      assert Concat(pushes[..p]) + pushes[p][..d'] <= Concat(pushes[..p]) + pushes[p];
    }

    /** One turn of the consumer: nothing while it has to wait. */
    method ConsumerTurn()
      requires Valid()
      modifies this`outs, this`partial, this`failed, s
      ensures Valid() && s.producerDone == old(s.producerDone) && s.cancelled == old(s.cancelled)
      ensures ConsumerWork() <= old(ConsumerWork()) && (old(ConsumerEnabled()) ==> ConsumerWork() < old(ConsumerWork()))
      ensures old(ProducerEnabled()) ==> ProducerEnabled()
    {
      if s.consumerDone {
        return;
      }
      if |outs| == |sizes| {
        s.FinishConsumer();
      } else if |partial| == sizes[|outs|] {
        ConcatSnoc(outs, partial);
        outs, partial := outs + [partial], [];
      } else if s.CanRead() {
        ReadTurn();
      }
    }

    method ReadTurn()
      requires Valid() && !s.consumerDone && s.CanRead()
      requires |outs| < |sizes| && |partial| < sizes[|outs|]
      modifies this`partial, this`failed, s
      ensures Valid() && s.producerDone == old(s.producerDone) && s.cancelled == old(s.cancelled)
      ensures s.consumerDone || |partial| > |old(partial)|
      ensures old(s.CanPush()) ==> s.CanPush()
    {
      var result, chunk := s.ReadChunk(sizes[|outs|] - |partial|);
      if result.Some? {
        assert pushes[..|pushes|] == pushes;
        s.FinishConsumer();
        failed := true;
      } else {
        assert Concat(outs) + partial + chunk == Concat(outs) + (partial + chunk);
        partial := partial + chunk;
      }
    }
  }

  /**
    Any schedule of critical sections.  At its end (so at every point of every run) the bytes
    delivered are a prefix of the bytes pushed, split exactly as the consumer asked for them; a read
    has failed only because of a cancellation, or because all bytes were delivered and more wanted.
   */
  method Interleaving(s: Stream, pushes: seq<Bytes>, sizes: seq<nat>, schedule: seq<Turn>)
    returns (outs: seq<Bytes>, partial: Bytes, failed: bool)
    requires s.Valid() && s.accepted == s.delivered == []
    requires !s.producerDone && !s.consumerDone && !s.cancelled
    modifies s, s.buffer
    ensures s.Valid() && s.delivered == Concat(outs) + partial
    ensures s.delivered <= s.accepted <= Concat(pushes)
    ensures |outs| <= |sizes| && forall i :: 0 <= i < |outs| ==> |outs[i]| == sizes[i]
    ensures s.producerDone && !s.cancelled && !s.consumerDone ==> s.accepted == Concat(pushes)
    ensures failed && !s.cancelled ==>
              s.delivered == Concat(pushes) && |outs| < |sizes| && |partial| < sizes[|outs|]
  {
    var threads := new Threads(s, pushes, sizes);
    for t := 0 to |schedule|
      invariant threads.Valid() && fresh(threads)
      invariant threads.s == s && threads.pushes == pushes && threads.sizes == sizes
    {
      match schedule[t]
      case Producer => threads.ProducerTurn();
      case Consumer => threads.ConsumerTurn();
      case Canceller => s.Cancel();
    }
    assert pushes[..|pushes|] == pushes;
    outs, partial, failed := threads.outs, threads.partial, threads.failed;
  }

  // ----- Every fair schedule ends -----

  /** Both threads get a turn. */
  predicate FairRound(round: seq<Turn>) { Producer in round && Consumer in round }

  /** One turn of a thread, or a cancellation. */
  method TakeTurn(threads: Threads, turn: Turn)
    requires threads.Valid()
    modifies threads`p, threads`done, threads`outs, threads`partial, threads`failed, threads.s, threads.s.buffer
    ensures threads.Valid() && threads.s.cancelled == (old(threads.s.cancelled) || turn == Canceller)
    ensures threads.Work() <= old(threads.Work())
    ensures turn == Producer && old(threads.ProducerEnabled()) ==> threads.Work() < old(threads.Work())
    ensures turn == Consumer && old(threads.ConsumerEnabled()) ==> threads.Work() < old(threads.Work())
    ensures turn != Producer && old(threads.ProducerEnabled()) ==> threads.ProducerEnabled()
    ensures turn != Consumer && old(threads.ConsumerEnabled()) ==> threads.ConsumerEnabled()
  {
    match turn
    case Producer => threads.ProducerTurn();
    case Consumer => threads.ConsumerTurn();
    case Canceller => threads.s.Cancel();
  }

  /** A fair round gets something done, unless all is done. */
  method TakeRound(threads: Threads, round: seq<Turn>)
    requires threads.Valid() && FairRound(round)
    modifies threads`p, threads`done, threads`outs, threads`partial, threads`failed, threads.s, threads.s.buffer
    ensures threads.Valid() && (threads.s.cancelled ==> old(threads.s.cancelled) || Canceller in round)
    ensures threads.Work() <= old(threads.Work())
    ensures old(threads.Work()) > 0 ==> threads.Work() < old(threads.Work())
  {
    ghost var before := threads.Work();
    ghost var finished := before == 0;
    threads.WorkIsNatural();
    if !finished {
      threads.OneEnabled();
    }
    for t := 0 to |round|
      invariant threads.Valid() && threads.Work() <= before
      invariant threads.s.cancelled ==> old(threads.s.cancelled) || Canceller in round
      invariant finished || threads.Work() < before
                || (threads.ProducerEnabled() && Producer in round[t..]) || (threads.ConsumerEnabled() && Consumer in round[t..])
    {
      assert round[t..] == [round[t]] + round[t + 1..];
      TakeTurn(threads, round[t]);
    }
  }

  /**
    Under every fair schedule that is long enough, cancelled or not, both threads come to their end: every
    read has been served, or one has failed; without a cancellation only the first one for which too few
    bytes were pushed.
   */
  method FairSchedule(s: Stream, pushes: seq<Bytes>, sizes: seq<nat>, rounds: seq<seq<Turn>>)
    returns (outs: seq<Bytes>, partial: Bytes, failed: bool)
    requires s.Valid() && s.accepted == s.delivered == []
    requires !s.producerDone && !s.consumerDone && !s.cancelled
    requires forall r :: r in rounds ==> FairRound(r)
    requires |rounds| >= 2 + |pushes| + BytesFrom(pushes, 0) + |sizes| + SizesFrom(sizes, 0)
    modifies s, s.buffer
    ensures s.producerDone && s.consumerDone
    ensures s.delivered == Concat(outs) + partial && s.delivered <= Concat(pushes)
    ensures |outs| <= |sizes| && forall i :: 0 <= i < |outs| ==> |outs[i]| == sizes[i]
    ensures !failed ==> |outs| == |sizes| && partial == []
    ensures failed && !s.cancelled ==> s.delivered == Concat(pushes) && |outs| < |sizes| && |partial| < sizes[|outs|]
    ensures s.cancelled ==> exists r :: r in rounds && Canceller in r
  {
    var threads := new Threads(s, pushes, sizes);
    TakeRounds(threads, rounds);
    threads.WorkIsNatural();
    outs, partial, failed := threads.outs, threads.partial, threads.failed;
  }

  method TakeRounds(threads: Threads, rounds: seq<seq<Turn>>)
    requires threads.Valid() && forall r :: r in rounds ==> FairRound(r)
    modifies threads`p, threads`done, threads`outs, threads`partial, threads`failed, threads.s, threads.s.buffer
    ensures threads.Valid()
    ensures threads.s.cancelled ==> old(threads.s.cancelled) || exists r :: r in rounds && Canceller in r
    ensures |rounds| >= old(threads.Work()) ==> threads.Work() <= 0
  {
    for t := 0 to |rounds|
      invariant threads.Valid()
      invariant threads.s.cancelled ==> old(threads.s.cancelled) || exists r :: r in rounds && Canceller in r
      invariant threads.Work() <= 0 || threads.Work() <= old(threads.Work()) - t
    {
      assert rounds[t] in rounds;
      TakeRound(threads, rounds[t]);
    }
  }
}
