/** Readiness of an owned inference server.

    The server sends one receipt line on a private channel.  The owner polls that channel,
    reading at most 4096 bytes at a time.  The verdict is a function of the bytes sent: how
    the reads split them does not matter. */
module Readiness {
  import opened Prelude

  const RECEIPT_MAX: nat := 1536
  const CHUNK: nat := 4096
  const GRACE_MS: int := 4000
  const LOAD_MS: int := 120000
  const NEWLINE: byte := 10

  // ----- The verdict on a stream -----

  datatype Verdict = Waiting | Ready | Failed

  /** What the bytes sent so far decide: nothing yet, one matching line, or anything else. */
  function Decide(sent: bytes, matches: bytes -> bool): Verdict {
    if 0 in sent || |sent| >= RECEIPT_MAX then Failed
    else if NEWLINE !in sent then Waiting
    else if NEWLINE !in sent[..|sent| - 1] && matches(sent) then Ready
    else Failed
  }

  /** After its line a ready server has nothing more to say. */
  lemma ReadyIsFinal(sent: bytes, more: bytes, matches: bytes -> bool)
    requires Decide(sent, matches).Ready? && more != []
    ensures Decide(sent + more, matches).Failed?
  {
    var all := sent + more;
    var line, last := sent[..|sent| - 1], sent[|sent| - 1];
    assert sent == line + [last];
    assert last == NEWLINE;
    assert all[..|all| - 1][|sent| - 1] == NEWLINE;
  }

  /** A failed verdict is final. */
  lemma FailedIsFinal(sent: bytes, more: bytes, matches: bytes -> bool)
    requires Decide(sent, matches).Failed? && more != []
    ensures Decide(sent + more, matches).Failed?
  {
    var all := sent + more;
    if NEWLINE in sent {
      var i :| 0 <= i < |sent| && sent[i] == NEWLINE;
      assert all[..|all| - 1][i] == NEWLINE;
    }
  }

  // ----- The owner's record -----

  /** Chunks read so far and what has become of the process. */
  class Server {
    var running: bool
    var ready: bool
    var stopping: bool
    var killed: bool
    var channel: bool
    var receipt: bytes
    var deadline: int
    var failed: bool
    const matches: bytes -> bool

    // every byte read from the channel, and whether only those bytes have decided so far
    ghost var sent: bytes
    ghost var undisturbed: bool

    ghost predicate Valid()
      reads this
    {
      && (ready ==> running && !stopping && channel)
      && (channel ==> running && !stopping)
      && (running && !stopping ==> channel && receipt == sent && !failed
                                   && Decide(sent, matches) == if ready then Ready else Waiting)
      && (undisturbed ==> (Decide(sent, matches).Failed? <==> stopping || !running))
    }

    constructor (matches: bytes -> bool, now: int)
      ensures Valid() && running && !ready && !stopping && !killed && sent == [] && undisturbed && this.matches == matches
      ensures deadline == now + LOAD_MS
    {
      running, ready, stopping, killed, channel := true, false, false, false, true;
      receipt, deadline, failed := [], now + LOAD_MS, false;
      this.matches := matches;
      sent, undisturbed := [], true;
    }

    /** Stop: readiness is revoked at once and the channel closes. */
    method RequestStop(now: int)
      requires Valid() && (undisturbed ==> Decide(sent, matches).Failed? || !running || stopping)
      modifies this`stopping, this`ready, this`deadline, this`channel
      ensures Valid() && !ready && (running ==> stopping)
      ensures old(!running || stopping) ==> stopping == old(stopping) && deadline == old(deadline)
      ensures old(running && !stopping) ==> stopping && deadline == now + GRACE_MS
    {
      if !running || stopping { return; }
      stopping, ready, deadline, channel := true, false, now + GRACE_MS, false;
    }

    /** The user or a later launch stops the server. */
    method Stop(now: int)
      requires Valid()
      modifies this
      ensures Valid() && !ready && (running ==> stopping) && running == old(running) && sent == old(sent)
    {
      undisturbed := false;
      RequestStop(now);
    }

    method Fail(now: int)
      requires Valid() && (undisturbed ==> Decide(sent, matches).Failed? || !running || stopping)
      modifies this`failed, this`stopping, this`ready, this`deadline, this`channel
      ensures Valid() && !ready && failed && (running ==> stopping)
      ensures deadline == if old(running && !stopping) then now + GRACE_MS else old(deadline)
    {
      RequestStop(now);
      failed := true;
    }

    /** One read of the owner channel: some bytes, nothing yet, or its end. */
    method ReadChannel(chunk: bytes, end: bool, now: int)
      requires Valid() && running && !stopping && |chunk| <= CHUNK
      modifies this
      ensures Valid() && running
      ensures if end then stopping && !undisturbed && sent == old(sent)
              else sent == old(sent) + chunk && undisturbed == old(undisturbed)
      ensures !end ==>
                ready == Decide(sent, matches).Ready? && stopping == Decide(sent, matches).Failed?
      ensures deadline == (if stopping then now + GRACE_MS else old(deadline)) && killed == old(killed)
    {
      if end {
        undisturbed := false;
        Fail(now);
        return;
      }
      if chunk == [] {
        assert sent == old(sent) + chunk;
        return;
      }
      ghost var before := sent;
      sent := sent + chunk;
      if ready || |receipt| + |chunk| >= RECEIPT_MAX || 0 in chunk {
        if ready { ReadyIsFinal(before, chunk, matches); }
        assert forall i :: 0 <= i < |chunk| ==> sent[|before| + i] == chunk[i];
        Refuse(now);
        return;
      }
      receipt := receipt + chunk;
      WaitingHasNoNewline(before, matches);
      if NEWLINE in receipt {
        if NEWLINE in receipt[..|receipt| - 1] || !matches(receipt) {
          Refuse(now);
        } else {
          ready := true;
        }
      }
    }

    /** The bytes read have decided against the server. */
    method Refuse(now: int)
      requires running && !stopping && channel && Decide(sent, matches).Failed?
      modifies this`failed, this`stopping, this`ready, this`deadline, this`channel
      ensures Valid() && stopping && !ready && running && deadline == now + GRACE_MS
    {
      stopping, ready, deadline, channel, failed := true, false, now + GRACE_MS, false, true;
    }

    /** One poll: the channel, the deadline, and the process itself. */
    method Tick(chunk: bytes, end: bool, gone: bool, now: int)
      requires Valid() && |chunk| <= CHUNK
      modifies this
      ensures Valid()
      ensures ready ==> running && !stopping && Decide(sent, matches).Ready?
      ensures old(running && !stopping) && !end && !gone && (now < old(deadline) || Decide(sent, matches).Ready?) ==>
                sent == old(sent) + chunk && undisturbed == old(undisturbed)
                && ready == Decide(sent, matches).Ready? && stopping == Decide(sent, matches).Failed?
      ensures old(running) && gone ==> !running && !ready
      ensures old(running) ==>
                var said := Decide(old(sent) + chunk, matches);
                var lost := !old(stopping) && (end || said.Failed? || (!said.Ready? && now >= old(deadline)));
                && (killed <==> old(killed) || (old(stopping) && now >= old(deadline)))
                && (!gone ==> running && stopping == (old(stopping) || lost) && deadline == if lost then now + GRACE_MS else old(deadline))
    {
      if !running { return; }
      if !stopping { ReadChannel(chunk, end, now); }
      if !ready && !stopping && now >= deadline {
        undisturbed := false;
        Fail(now);
      }
      if stopping && !killed && now >= deadline { killed := true; }
      if !gone { return; }
      if !stopping {
        undisturbed := false;
        Fail(now);
      }
      running, channel, ready := false, false, false;
    }
  }

  lemma WaitingHasNoNewline(sent: bytes, matches: bytes -> bool)
    ensures Decide(sent, matches).Waiting? ==> NEWLINE !in sent && 0 !in sent
  {
  }

  // ----- Fragmentation -----

  function Concat(chunks: seq<bytes>): bytes {
    if chunks == [] then [] else Concat(chunks[..|chunks| - 1]) + chunks[|chunks| - 1]
  }

  /** Read the chunks one by one, until the server is given up. */
  method Feed(server: Server, chunks: seq<bytes>, now: int)
    requires server.Valid() && server.running && !server.stopping && server.sent == [] && server.undisturbed
    requires forall i :: 0 <= i < |chunks| ==> |chunks[i]| <= CHUNK
    modifies server
    ensures server.Valid() && server.running
    ensures server.ready == Decide(Concat(chunks), server.matches).Ready?
    ensures server.stopping == Decide(Concat(chunks), server.matches).Failed?
  {
    for k := 0 to |chunks|
      invariant server.Valid() && server.running
      invariant !server.stopping ==> server.sent == Concat(chunks[..k])
      invariant server.ready == Decide(Concat(chunks[..k]), server.matches).Ready?
      invariant server.stopping == Decide(Concat(chunks[..k]), server.matches).Failed?
    {
      assert chunks[..k + 1][..k] == chunks[..k];
      if !server.stopping {
        server.ReadChannel(chunks[k], false, now);
      } else if chunks[k] != [] {
        FailedIsFinal(Concat(chunks[..k]), chunks[k], server.matches);
      } else {
        assert Concat(chunks[..k]) + [] == Concat(chunks[..k]);
      }
    }
    assert chunks[..|chunks|] == chunks;
  }
}
