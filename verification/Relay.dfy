/** The model relay: one worker pipe, one runtime pipe, and the epoch fence between them.

    `Owner` holds the admitted relay, at most one queued relay and the epoch.  What the
    pipes answer, call by call, the clock, process starts and exits are the `World` a pass
    is given, so every contract here holds for every fragmentation, failure point and
    interleaving, and says what is done for each answer.  Ghost logs record what the worker
    pipe gave (`consumed`), what each pipe took (`delivered`, `uploaded`), the signals sent
    and the whole byte stream of the runtime pipe (`log`). */
module Relay {
  import opened Prelude
  import opened Frames
  import WireString
  import BodyDecoder

  const PASS_BYTES: nat := 65536
  const STAGE_SIZE: nat := 16384
  const METADATA_SIZE: nat := 4096
  const DEADLINE_MS := 1800 * 1000
  const DELIVERY_MS := 30000
  const GRACE_MS := 1000

  // ----- The environment -----

  /** What a pipe does with a write: nothing now, nothing any more, or take at most so many
      bytes. */
  datatype Answer = Full | Gone | Takes(most: nat)

  /** What a pipe gives to a read. */
  datatype Supply = Dry | Ended | Gives(data: bytes)

  datatype Spawn = NotStarted | Started(pid: int, ready: bool)

  /** All that a pass finds outside: whether the worker has exited, how a new worker starts,
      and what each pipe answers, one call after the other.  A pipe with no answer left is
      not ready. */
  datatype World = World(exited: bool, spawn: Spawn, toWorker: seq<Answer>, toRuntime: seq<Answer>, fromWorker: seq<Supply>)

  function AnswerAt(answers: seq<Answer>, call: nat): Answer {
    if call < |answers| then answers[call] else Full
  }

  function SupplyAt(supplies: seq<Supply>, call: nat): Supply {
    if call < |supplies| then supplies[call] else Dry
  }

  datatype ReadResult = Again | Closed | Data(data: bytes)

  datatype WriteResult = Blocked | Refused | Wrote(count: nat)

  /** One nonblocking read of at most `max` bytes. */
  function PipeRead(supply: Supply, max: nat): (r: ReadResult)
    requires max > 0
    ensures r.Data? ==> supply.Gives? && 1 <= |r.data| <= max && r.data <= supply.data
  {
    match supply
    case Dry => Again
    case Ended => Closed
    case Gives(data) => if data == [] then Closed else Data(if |data| <= max then data else data[..max])
  }

  /** One nonblocking write that offers `offered` bytes. */
  function PipeWrite(answer: Answer, offered: nat): (r: WriteResult)
    requires offered > 0
    ensures r.Wrote? ==> answer.Takes? && 1 <= r.count <= offered && r.count <= answer.most
  {
    match answer
    case Full => Blocked
    case Gone => Refused
    case Takes(most) => if most == 0 then Refused else Wrote(if most <= offered then most else offered)
  }

  // ----- Receipts -----

  function SignedDecimal(n: int): bytes {
    if n < 0 then [0x2d] + Decimal(-n) else Decimal(n)
  }

  const RECORD_MARK: byte := 0x1e

  /** No byte that starts or ends a record. */
  predicate Inside(s: bytes) { forall i :: 0 <= i < |s| ==> s[i] >= 0x20 }

  function TypeHead(): (head: bytes)
    ensures |head| == 15 && Inside(head)
  {
    Ascii("{\"type\":\"model_")
  }

  /** What a failure receipt begins with. */
  function ErrorHead(): (head: bytes)
    ensures |head| == 23 && head[0] == NEWLINE && head[1] == RECORD_MARK && Inside(head[2..]) && head[17] == 0x65
  {
    var word := Ascii("error\"");
    var head := [NEWLINE, RECORD_MARK] + TypeHead() + word;
    assert head[2..] == TypeHead() + word && head[17] == word[0];
    head
  }

  /** What a success receipt begins with. */
  function DoneHead(): (head: bytes)
    ensures |head| == 21 && head[0] == RECORD_MARK && Inside(head[1..]) && head[16] == 0x64
  {
    var word := Ascii("done\"");
    var head := [RECORD_MARK] + TypeHead() + word;
    assert head[1..] == TypeHead() + word && head[16] == word[0];
    head
  }

  /** The failure receipt.  Its leading newline also ends a partially delivered record. */
  function ErrorReceipt(id: int, reason: bytes): (receipt: bytes)
    ensures ErrorHead() <= receipt
  {
    ErrorHead() + (Ascii(",\"id\":") + SignedDecimal(id) + Ascii(",\"error\":\"")
                   + WireString.Escape(reason) + Ascii("\"}")) + [NEWLINE]
  }

  const REASON_MAX: nat := 512

  /** A composed failure is the receipt of some reason, never anything else. */
  ghost predicate Announced(id: int, failure: Option<bytes>) {
    failure.Some? ==> exists reason: bytes :: |reason| <= REASON_MAX && failure.value == ErrorReceipt(id, reason)
  }

  predicate IsInt32(n: int) { -0x8000_0000 <= n < 0x8000_0000 }

  lemma {:induction false} EscapeLength(s: bytes)
    ensures |WireString.Escape(s)| <= 6 * |s|
  {
    if s != [] { EscapeLength(s[1..]); }
  }

  /** The text of a failure receipt. */
  lemma ReceiptText(id: int, reason: bytes)
    ensures ErrorReceipt(id, reason)
            == [NEWLINE, 0x1e] + Ascii("{\"type\":\"model_error\",\"id\":") + SignedDecimal(id)
               + Ascii(",\"error\":\"") + WireString.Escape(reason) + Ascii("\"}") + [NEWLINE]
  {
    var a, b, c, d := Ascii(",\"id\":"), SignedDecimal(id), Ascii(",\"error\":\""), WireString.Escape(reason) + Ascii("\"}");
    assert ErrorHead() + a == [NEWLINE, 0x1e] + Ascii("{\"type\":\"model_error\",\"id\":");
  }

  /** Every failure receipt fits its buffer, so a failure is always announced. */
  lemma ReceiptFits(id: int, reason: bytes)
    requires IsInt32(id) && |reason| <= REASON_MAX
    ensures |ErrorReceipt(id, reason)| < FINAL_SIZE
  {
    EscapeLength(reason);
    assert PowerOfTen(10) == 10000000000;
    DecimalLength(if id < 0 then -id else id, 10, PowerOfTen(10));
  }

  // ----- One relay, as records -----

  /** Request side: metadata first, then the body, or for an encoded request the bytes
      staged from the runtime's frame. */
  datatype Upload = Upload(metadata: bytes, metadataSent: nat, body: bytes, bodySent: nat, encoded: bool,
                           stage: bytes, stageSent: nat, wireBytes: nat, complete: bool)
  {
    predicate Pending() {
      metadataSent < |metadata| || bodySent < |body| || stageSent < |stage|
    }

    /** The buffer that is being written now, and how much of it is gone. */
    function Current(): bytes {
      if metadataSent < |metadata| then metadata else if encoded then stage else body
    }

    function CurrentSent(): nat {
      if metadataSent < |metadata| then metadataSent else if encoded then stageSent else bodySent
    }

    function Advance(n: nat): Upload {
      if metadataSent < |metadata| then this.(metadataSent := metadataSent + n)
      else if encoded then this.(stageSent := stageSent + n)
      else this.(bodySent := bodySent + n)
    }

    /** Room left in the stage; a stage that is all gone starts afresh. */
    function Room(): nat
      requires |stage| <= STAGE_SIZE
    {
      if |stage| == stageSent then STAGE_SIZE else STAGE_SIZE - |stage|
    }

    function Staged(chunk: bytes): Upload {
      var fresh' := if |stage| == stageSent then this.(stage := [], stageSent := 0) else this;
      fresh'.(stage := fresh'.stage + chunk, wireBytes := wireBytes + |chunk|,
              complete := complete || (chunk != [] && chunk[|chunk| - 1] == NEWLINE))
    }

    /** Bytes accepted for the worker but not yet taken by it, in order. */
    ghost function Rest(): bytes
      requires UploadShape(this)
    {
      metadata[metadataSent..] + if encoded then stage[stageSent..] else body[bodySent..]
    }
  }

  /** Response side: the frame reader, the delivery stage and the terminal receipt. */
  datatype Download = Download(header: bytes, frameLeft: nat, finalFrame: bool, haveFinal: bool,
                               staged: bytes, stagedSent: nat, final: bytes, finalSent: nat)

  /** The worker process and its clocks; `worker > 0` while the child is unreaped. */
  datatype Process = Process(worker: int, input: bool, output: bool, stopping: bool, canceled: bool,
                             deadline: int, stopDeadline: Option<int>, deliveryDeadline: int)

  /** A process told to stop: both pipes closed, and from the first time on its clocks run. */
  function Stopped(p: Process, now: int): Process {
    p.(stopping := true, input := false, output := false,
       deliveryDeadline := if p.stopping then p.deliveryDeadline else now + DELIVERY_MS,
       stopDeadline := if !p.stopping && p.worker > 0 then Some(now + GRACE_MS) else p.stopDeadline)
  }

  /** The grace of a stopping worker is over. */
  predicate Overdue(p: Process, now: int) {
    p.worker > 0 && p.stopDeadline.Some? && now >= p.stopDeadline.value
  }

  /** A stopping worker after one look at it. */
  function Watched(p: Process, now: int, exited: bool): Process {
    if p.worker <= 0 then p
    else p.(stopDeadline := if Overdue(p, now) then None else p.stopDeadline, worker := if exited then -1 else p.worker)
  }

  datatype SignalKind = Terminate | Kill

  ghost predicate ProcessOk(p: Process) {
    (p.canceled ==> p.stopping) && (p.stopping ==> !p.input && !p.output)
  }

  ghost predicate UploadShape(up: Upload) {
    && up.metadataSent <= |up.metadata| < METADATA_SIZE
    && up.bodySent <= |up.body| && up.stageSent <= |up.stage| <= STAGE_SIZE
    && (if up.encoded then up.body == [] else up.stage == [])
    && (up.metadataSent < |up.metadata| ==> up.stageSent == 0 && up.bodySent == 0)
  }

  ghost predicate Conserved(request: bytes, taken: bytes, rest: bytes) {
    request == taken + rest
  }

  /** Request bytes are conserved: what was accepted for the worker is what the worker took
      followed by what is still staged. */
  ghost predicate UploadOk(up: Upload, uploaded: bytes, admitted: bytes) {
    && UploadShape(up)
    && up.wireBytes == |admitted| <= BodyDecoder.WIRE_MAX
    && (!up.encoded ==> admitted == [])
    && Conserved(up.metadata + if up.encoded then admitted else up.body, uploaded, up.Rest())
  }

  /** The pipe only ever gets more. */
  ghost predicate Extends(before: bytes, after: bytes) { before <= after }

  lemma SplitFront(a: bytes, i: nat, n: nat, b: bytes)
    requires i + n <= |a|
    ensures a[i..] + b == a[i..i + n] + (a[i + n..] + b)
  {
  }

  lemma CutOnce(a: bytes, i: nat, n: nat)
    requires i + n <= |a|
    ensures a[i..] == a[i..i + n] + a[i + n..]
  {
  }

  lemma PendingHasRoom(up: Upload)
    requires UploadShape(up) && up.Pending()
    ensures up.CurrentSent() < |up.Current()|
  {
  }

  lemma MetadataAdvances(up: Upload, n: nat)
    requires UploadShape(up) && up.metadataSent < |up.metadata| && up.metadataSent + n <= |up.metadata|
    ensures UploadShape(up.Advance(n))
    ensures up.Rest() == up.metadata[up.metadataSent..up.metadataSent + n] + up.Advance(n).Rest()
  {
    SplitFront(up.metadata, up.metadataSent, n, if up.encoded then up.stage[up.stageSent..] else up.body[up.bodySent..]);
  }

  lemma OnlyPayloadLeft(up: Upload)
    requires UploadShape(up) && up.metadataSent == |up.metadata|
    ensures up.Rest() == up.Current()[up.CurrentSent()..]
  {
    NoFront(up.metadata, up.metadataSent, up.Current()[up.CurrentSent()..]);
  }

  lemma PayloadShape(up: Upload, n: nat)
    requires UploadShape(up) && up.metadataSent == |up.metadata| && up.CurrentSent() + n <= |up.Current()|
    ensures var after := up.Advance(n);
            && UploadShape(after) && after.metadataSent == |after.metadata|
            && after.Current() == up.Current() && after.CurrentSent() == up.CurrentSent() + n
  {
  }

  lemma PayloadAdvances(up: Upload, n: nat)
    requires UploadShape(up) && up.metadataSent == |up.metadata|
    requires up.CurrentSent() + n <= |up.Current()|
    ensures UploadShape(up.Advance(n))
    ensures up.Rest() == up.Current()[up.CurrentSent()..up.CurrentSent() + n] + up.Advance(n).Rest()
  {
    hide *;
    PayloadShape(up, n);
    OnlyPayloadLeft(up);
    OnlyPayloadLeft(up.Advance(n));
    CutOnce(up.Current(), up.CurrentSent(), n);
  }

  /** A write takes the front of the staged request and keeps the order. */
  lemma UploadAdvances(up: Upload, uploaded: bytes, admitted: bytes, n: nat)
    requires UploadOk(up, uploaded, admitted) && up.Pending()
    requires up.CurrentSent() + n <= |up.Current()|
    ensures UploadOk(up.Advance(n), uploaded + up.Current()[up.CurrentSent()..up.CurrentSent() + n], admitted)
  {
    if up.metadataSent < |up.metadata| { MetadataAdvances(up, n); } else { PayloadAdvances(up, n); }
    ConservedStep(up.metadata + if up.encoded then admitted else up.body, uploaded,
                  up.Current()[up.CurrentSent()..up.CurrentSent() + n], up.Advance(n).Rest());
  }

  lemma ConservedStep(request: bytes, taken: bytes, chunk: bytes, rest: bytes)
    requires Conserved(request, taken, chunk + rest)
    ensures Conserved(request, taken + chunk, rest)
  {
    Associate(taken, chunk, rest);
  }

  lemma ChunkStaged(up: Upload, uploaded: bytes, admitted: bytes, chunk: bytes)
    requires UploadOk(up, uploaded, admitted) && up.encoded
    requires |chunk| <= up.Room() && up.wireBytes + |chunk| <= BodyDecoder.WIRE_MAX
    ensures UploadOk(up.Staged(chunk), uploaded, admitted + chunk)
  {
    var after := up.Staged(chunk);
    assert up.stage[up.stageSent..] + chunk == after.stage[after.stageSent..];
    Associate(up.metadata[up.metadataSent..], up.stage[up.stageSent..], chunk);
    Associate(uploaded, up.Rest(), chunk);
    Associate(up.metadata, admitted, chunk);
  }

  lemma NoFront(a: bytes, i: nat, b: bytes)
    requires i == |a|
    ensures a[i..] + b == b
  {
  }

  ghost predicate DownloadShape(d: Download) {
    && |d.staged| <= STAGE_SIZE && d.stagedSent <= |d.staged|
    && |d.final| <= FINAL_SIZE && d.finalSent <= |d.final|
    && |d.header| < HEADER_SIZE
  }

  /** While frames are read: what the reader fields mean and where the data is. */
  ghost predicate Streaming(d: Download, consumed: bytes, delivered: bytes)
    requires DownloadShape(d)
  {
    && !d.haveFinal && d.finalSent == 0
    && match Parse(consumed)
       case Header(data, h) =>
         d.header == h && d.frameLeft == 0 && d.final == [] && delivered + d.staged[d.stagedSent..] == data
       case InData(data, left) =>
         d.header == [] && d.frameLeft == left && 0 < left && !d.finalFrame && d.final == []
         && delivered + d.staged[d.stagedSent..] == data
       case InFinal(data, receipt, left) =>
         d.header == [] && d.frameLeft == left && 0 < left && d.finalFrame && d.final == receipt
         && |receipt| + left <= FINAL_SIZE && d.stagedSent == |d.staged| && delivered == data
       case Terminal(_, _) => false
       case Broken(_) => false
  }

  /** While the terminal receipt is delivered: the worker's own, after all data, or a
      composed failure, after a prefix of the data. */
  ghost predicate Closing(d: Download, consumed: bytes, delivered: bytes, failure: Option<bytes>)
    requires DownloadShape(d)
  {
    && d.haveFinal && d.final != []
    && match failure
       case None =>
         Parse(consumed).Terminal? && Parse(consumed).receipt == d.final
         && delivered == Parse(consumed).data + d.final[..d.finalSent]
       case Some(receipt) =>
         d.final == receipt
         && exists front :: front <= Parse(consumed).data && Appended(delivered, front, d.final, d.finalSent)
  }

  ghost predicate Delivering(canceled: bool, stopping: bool, d: Download, consumed: bytes, delivered: bytes, failure: Option<bytes>)
    requires DownloadShape(d)
  {
    if canceled then DeliveryOk(consumed, delivered, failure)
    else if stopping then Closing(d, consumed, delivered, failure)
    else failure.None? && Streaming(d, consumed, delivered)
  }

  /** In every stage the runtime holds data followed by at most one terminal receipt. */
  lemma DeliveringOk(canceled: bool, stopping: bool, d: Download, consumed: bytes, delivered: bytes, failure: Option<bytes>)
    requires DownloadShape(d) && Delivering(canceled, stopping, d, consumed, delivered, failure)
    ensures DeliveryOk(consumed, delivered, failure)
  {
    if !canceled && !stopping {
      assert delivered <= delivered + d.staged[d.stagedSent..];
    } else if !canceled && failure.None? {
      assert Appended(delivered, Parse(consumed).data, Parse(consumed).receipt, d.finalSent);
    }
  }

  /** Until a terminal byte is written the runtime holds data only. */
  lemma UntouchedIsData(stopping: bool, d: Download, consumed: bytes, delivered: bytes, failure: Option<bytes>)
    requires DownloadShape(d) && Delivering(false, stopping, d, consumed, delivered, failure)
    requires d.finalSent == 0
    ensures delivered <= Parse(consumed).data
  {
    if !stopping { assert delivered <= delivered + d.staged[d.stagedSent..]; }
  }

  lemma FreshFailure(consumed: bytes, delivered: bytes, receipt: bytes, d: Download)
    requires delivered <= Parse(consumed).data && receipt != []
    requires DownloadShape(d) && d.haveFinal && d.final == receipt && d.finalSent == 0
    ensures Closing(d, consumed, delivered, Some(receipt))
  {
    assert Appended(delivered, delivered, receipt, 0);
  }

  // ----- Reading frames, on values -----

  /** Everything read before has been delivered, so the next read may be staged. */
  predicate Flushed(d: Download) { d.stagedSent == |d.staged| }

  /** Why a header is refused, and why a pipe may not end yet. */
  function HeaderFault(d: Download): (reason: bytes)
    ensures |reason| <= REASON_MAX
  {
    if |d.header| + 1 >= HEADER_SIZE then Ascii("Invalid model worker frame header")
    else Ascii("Invalid model worker frame size")
  }

  function EndFault(d: Download): (reason: bytes)
    ensures |reason| <= REASON_MAX
  {
    if d.frameLeft == 0 then Ascii("Model worker exited without a terminal receipt")
    else Ascii("Model worker exited during a frame")
  }

  function DeadlineFault(): (reason: bytes)
    ensures |reason| <= REASON_MAX
  {
    Ascii("Model request exceeded its 30 minute deadline")
  }

  function SpawnFault(): (reason: bytes)
    ensures |reason| <= REASON_MAX
  {
    Ascii("Could not start the model transport worker")
  }

  function BodyFault(): (reason: bytes)
    ensures |reason| <= REASON_MAX
  {
    Ascii("Internal model request exceeds the 16 MiB body limit")
  }

  function MetadataFault(): (reason: bytes)
    ensures |reason| <= REASON_MAX
  {
    Ascii("Internal model request metadata is invalid or too large")
  }

  function WireFault(): (reason: bytes)
    ensures |reason| <= REASON_MAX
  {
    Ascii("Internal model request exceeds its encoded wire limit")
  }

  /** One header byte; None when the header is too long or malformed. */
  function HeaderByte(d: Download, c: byte): Option<Download> {
    if |d.header| + 1 >= HEADER_SIZE then None
    else if c != NEWLINE then Some(d.(header := d.header + [c]))
    else
      match HeaderFrame(d.header + [c])
      case None => None
      case Some((final, count)) => Some(d.(header := [], frameLeft := count, finalFrame := final))
  }

  lemma HeaderByteStreams(d: Download, consumed: bytes, delivered: bytes, c: byte)
    requires DownloadShape(d) && Streaming(d, consumed, delivered) && d.frameLeft == 0 && Flushed(d)
    ensures delivered <= Parse(consumed + [c]).data
    ensures HeaderByte(d, c).None? ==> Parse(consumed + [c]).Broken?
    ensures HeaderByte(d, c).Some? ==>
              DownloadShape(HeaderByte(d, c).value) && Streaming(HeaderByte(d, c).value, consumed + [c], delivered)
  {
    ParseAppend(Header([], []), consumed, [c]);
    ParseOne(Parse(consumed), c);
    assert d.staged[d.stagedSent..] == [] && delivered + [] == delivered;
  }

  /** Room for the next payload read. */
  function PayloadRoom(d: Download): nat
    requires |d.final| <= FINAL_SIZE
  {
    var capacity := if d.finalFrame then FINAL_SIZE - |d.final| else STAGE_SIZE;
    if d.frameLeft > capacity then capacity else d.frameLeft
  }

  function PayloadRead(d: Download, chunk: bytes): Download
    requires |chunk| <= d.frameLeft
  {
    var left := d.frameLeft - |chunk|;
    if d.finalFrame then d.(final := d.final + chunk, frameLeft := left, haveFinal := left == 0)
    else d.(staged := chunk, stagedSent := 0, frameLeft := left)
  }

  lemma PayloadStreams(d: Download, consumed: bytes, delivered: bytes, chunk: bytes)
    requires DownloadShape(d) && Streaming(d, consumed, delivered) && d.frameLeft > 0 && Flushed(d)
    requires 1 <= |chunk| <= PayloadRoom(d)
    ensures var after := PayloadRead(d, chunk);
            && DownloadShape(after)
            && if after.haveFinal then Closing(after, consumed + chunk, delivered, None)
               else Streaming(after, consumed + chunk, delivered)
  {
    ParseAppend(Header([], []), consumed, chunk);
    assert d.staged[d.stagedSent..] == [] && delivered + [] == delivered;
    match Parse(consumed)
    case InData(data, left) => ParseData(data, left, chunk);
    case InFinal(data, receipt, left) => ParseFinal(data, receipt, left, chunk);
  }

  /** A frame reader in the middle of a frame or receipt always has room to read. */
  lemma PayloadHasRoom(d: Download, consumed: bytes, delivered: bytes)
    requires DownloadShape(d) && Streaming(d, consumed, delivered) && d.frameLeft > 0
    ensures PayloadRoom(d) > 0
  {
  }

  lemma StagedDelivered(d: Download, consumed: bytes, delivered: bytes, now: nat)
    requires DownloadShape(d) && Streaming(d, consumed, delivered) && d.stagedSent <= now <= |d.staged|
    ensures Streaming(d.(stagedSent := now), consumed, delivered + d.staged[d.stagedSent..now])
  {
    var chunk, rest := d.staged[d.stagedSent..now], d.staged[now..];
    assert d.staged[d.stagedSent..] == chunk + rest;
    Associate(delivered, chunk, rest);
    if d.stagedSent == |d.staged| { assert chunk == [] && delivered + chunk == delivered; }
  }

  lemma StagedInStep(p: Process, d: Download, consumed: bytes, delivered: bytes, failure: Option<bytes>, overwritten: bool, now: nat)
    requires DownloadShape(d) && !p.stopping && ResponseInStep(p, d, consumed, delivered, failure, overwritten)
    requires d.stagedSent <= now <= |d.staged|
    ensures DownloadShape(d.(stagedSent := now))
    ensures ResponseInStep(p, d.(stagedSent := now), consumed, delivered + d.staged[d.stagedSent..now], failure, overwritten)
  {
    StagedDelivered(d, consumed, delivered, now);
  }

  lemma FinalDelivered(d: Download, consumed: bytes, delivered: bytes, failure: Option<bytes>, now: nat)
    requires DownloadShape(d) && Closing(d, consumed, delivered, failure) && d.finalSent <= now <= |d.final|
    ensures Closing(d.(finalSent := now), consumed, delivered + d.final[d.finalSent..now], failure)
  {
    assert d.final[..d.finalSent] + d.final[d.finalSent..now] == d.final[..now];
    if failure.None? {
      Associate(Parse(consumed).data, d.final[..d.finalSent], d.final[d.finalSent..now]);
    } else {
      var front :| front <= Parse(consumed).data && Appended(delivered, front, d.final, d.finalSent);
      Associate(front, d.final[..d.finalSent], d.final[d.finalSent..now]);
      assert Appended(delivered + d.final[d.finalSent..now], front, d.final, now);
    }
  }

  /** The same for the relay as a whole; with the last byte out only the delivery is left. */
  lemma FinalInStep(p: Process, d: Download, consumed: bytes, delivered: bytes, failure: Option<bytes>, overwritten: bool, now: nat)
    requires DownloadShape(d) && p.stopping && !p.canceled && ResponseInStep(p, d, consumed, delivered, failure, overwritten)
    requires d.finalSent <= now <= |d.final|
    ensures DownloadShape(d.(finalSent := now))
    ensures !overwritten ==> DeliveryOk(consumed, delivered + d.final[d.finalSent..now], failure)
    ensures now < |d.final| ==> ResponseInStep(p, d.(finalSent := now), consumed, delivered + d.final[d.finalSent..now], failure, overwritten)
  {
    if !overwritten {
      FinalDelivered(d, consumed, delivered, failure, now);
      DeliveringOk(false, true, d.(finalSent := now), consumed, delivered + d.final[d.finalSent..now], failure);
    }
  }

  // ----- One relay -----

  /** What both pipes had taken. */
  datatype Cut = Cut(delivered: bytes, uploaded: bytes)

  ghost predicate WorkerOk(p: Process, reaped: bool) {
    ProcessOk(p) && (p.worker > 0 ==> !reaped)
  }

  /** Neither pipe gets anything after the revocation. */
  ghost predicate RevokedOk(p: Process, delivered: bytes, uploaded: bytes, revoked: Option<Cut>) {
    (p.canceled <==> revoked.Some?) && (revoked.Some? ==> revoked.value == Cut(delivered, uploaded))
  }

  /** The response fields agree with each other and with what the pipes gave and took. */
  ghost predicate ResponseInStep(p: Process, d: Download, consumed: bytes, delivered: bytes, failure: Option<bytes>, overwritten: bool)
    requires DownloadShape(d)
  {
    && (p.stopping <==> p.canceled || d.haveFinal)
    && (overwritten || failure.Some? ==> p.stopping)
    && (d.haveFinal && !p.canceled ==> d.finalSent < |d.final|)
    && (overwritten || Delivering(p.canceled, p.stopping, d, consumed, delivered, failure))
  }

  class Relay {
    const id: int
    const epoch: nat
    const runtime: int
    const runtimeFd: int
    const resident: Option<(int, int)>   // pinned local endpoint and its generation
    var process: Process
    var up: Upload
    var down: Download

    ghost var consumed: bytes            // everything read from the worker pipe
    ghost var delivered: bytes           // everything the runtime pipe took from this relay
    ghost var uploaded: bytes            // everything the worker pipe took
    ghost var admitted: bytes            // encoded request bytes accepted from the runtime
    ghost var failure: Option<bytes>     // the failure receipt, once one was composed
    ghost var overwritten: bool          // a failure replaced a receipt already being written
    ghost var reaped: bool
    ghost var signals: seq<SignalKind>   // what the worker group was sent
    ghost var revoked: Option<Cut>       // what both pipes had when this relay was revoked

    ghost predicate Sound()
      reads this
    {
      && WorkerOk(process, reaped) && RevokedOk(process, delivered, uploaded, revoked)
      && UploadOk(up, uploaded, admitted)
      && DownloadShape(down) && IsInt32(id) && Announced(id, failure)
    }

    ghost predicate Valid()
      reads this
    {
      Sound() && ResponseInStep(process, down, consumed, delivered, failure, overwritten)
    }

    /** The runtime holds data only, so a failure can still be announced cleanly. */
    ghost predicate Untouched()
      reads this
    {
      down.finalSent == 0 && delivered <= Parse(consumed).data
    }

    constructor (id: int, epoch: nat, runtime: int, runtimeFd: int, resident: Option<(int, int)>,
                 encoded: bool, body: bytes, now: int)
      requires IsInt32(id)
      requires encoded ==> body == []
      ensures Valid() && !overwritten && signals == []
      ensures process == Process(-1, false, false, false, false, now + DEADLINE_MS, None, 0)
      ensures this.id == id && this.epoch == epoch && this.runtime == runtime && this.runtimeFd == runtimeFd
      ensures this.resident == resident
      ensures up == Upload([], 0, body, 0, encoded, [], 0, 0, false)
      ensures delivered == [] && uploaded == [] && consumed == [] && failure == None
      ensures down == Download([], 0, false, false, [], 0, [], 0)
    {
      this.id, this.epoch, this.runtime, this.runtimeFd, this.resident := id, epoch, runtime, runtimeFd, resident;
      process := Process(-1, false, false, false, false, now + DEADLINE_MS, None, 0);
      up := Upload([], 0, body, 0, encoded, [], 0, 0, false);
      down := Download([], 0, false, false, [], 0, [], 0);
      consumed, delivered, uploaded, admitted := [], [], [], [];
      failure, overwritten, reaped, signals, revoked := None, false, false, [], None;
    }

    /** Describe the request to the worker; nothing has been sent yet. */
    method SetMetadata(text: bytes)
      requires Valid() && !process.stopping && up.metadata == [] && |text| < METADATA_SIZE
      requires up.bodySent == 0 && up.stageSent == 0 && uploaded == []
      modifies this`up
      ensures Valid() && up == old(up).(metadata := text)
    {
      ghost var payload := if up.encoded then admitted else up.body;
      assert [] + payload == payload;
      up := up.(metadata := text);
      assert text[0..] == text && Conserved(text + payload, [], up.Rest());
    }

    /** Accept at most `chunk` more bytes of an encoded request. */
    method Stage(chunk: bytes)
      requires Valid() && up.encoded && |chunk| <= up.Room() && up.wireBytes + |chunk| <= BodyDecoder.WIRE_MAX
      modifies this`up, this`admitted
      ensures Valid() && admitted == old(admitted) + chunk
      ensures up == old(up).Staged(chunk)
    {
      hide ErrorReceipt, Delivering;
      ChunkStaged(up, uploaded, admitted, chunk);
      up, admitted := up.Staged(chunk), admitted + chunk;
    }

    method CloseInput()
      requires Valid()
      modifies this`process
      ensures Valid() && process == old(process).(input := false)
    {
      process := process.(input := false);
    }

    /** The worker's pipe took `n` more bytes of the request. */
    method Taken(n: nat)
      requires Valid() && !process.canceled && up.Pending() && up.CurrentSent() + n <= |up.Current()|
      modifies this`up, this`uploaded
      ensures Valid() && up == old(up).Advance(n)
      ensures uploaded == old(uploaded + up.Current()[up.CurrentSent()..up.CurrentSent() + n])
    {
      hide ErrorReceipt, Delivering, UploadOk;
      UploadAdvances(up, uploaded, admitted, n);
      var what, from := up.Current(), up.CurrentSent();
      up, uploaded := up.Advance(n), uploaded + what[from..from + n];
    }

    /** One byte of a frame header came from the worker. */
    method TakeHeaderByte(c: byte, now: int)
      requires Valid() && !process.stopping && Flushed(down) && down.frameLeft == 0
      modifies this`process, this`down, this`failure, this`overwritten, this`consumed, this`signals
      ensures Valid() && !process.canceled && consumed == old(consumed) + [c] && !overwritten
      ensures HeaderByte(old(down), c).None? ==> FailedWith(HeaderFault(old(down)), now) && Parse(consumed).Broken?
      ensures HeaderByte(old(down), c).Some? ==> process == old(process) && Some(down) == HeaderByte(old(down), c) && unchanged(`failure, `signals)
    {
      hide ErrorReceipt, UploadOk;
      HeaderByteStreams(down, consumed, delivered, c);
      consumed := consumed + [c];
      match HeaderByte(down, c) {
        case Some(after) => down := after;
        case None =>
          Fail(HeaderFault(down), now);
      }
    }

    /** A piece of frame payload came from the worker.  The last byte of the terminal frame
        ends the response. */
    method TakePayload(chunk: bytes, now: int)
      requires Valid() && !process.stopping && Flushed(down) && down.frameLeft > 0
      requires 1 <= |chunk| <= PayloadRoom(down)
      modifies this`process, this`down, this`consumed, this`signals
      ensures Valid() && !process.canceled && consumed == old(consumed) + chunk
      ensures down == PayloadRead(old(down), chunk)
      ensures down.haveFinal ==> failure.None? && Parse(consumed).Terminal? && Parse(consumed).receipt == down.final && down.finalSent == 0
      ensures process == if down.haveFinal then Stopped(old(process), now) else old(process)
      ensures signals == (if down.haveFinal && process.worker > 0 then old(signals) + [Terminate] else old(signals))
    {
      hide ErrorReceipt, UploadOk;
      PayloadStreams(down, consumed, delivered, chunk);
      consumed := consumed + chunk;
      down := PayloadRead(down, chunk);
      if down.haveFinal { StopWorker(now); }
    }

    /** The response was ended by the failure receipt of this reason. */
    twostate predicate FailedWith(reason: bytes, now: int)
      reads this
    {
      && down == old(down).(staged := [], stagedSent := 0, final := ErrorReceipt(id, reason), finalSent := 0, haveFinal := true)
      && failure == Some(down.final)
      && process == Stopped(old(process), now)
      && signals == (if old(!process.stopping && process.worker > 0) then old(signals) + [Terminate] else old(signals))
    }

    /** Fail a relay whose response is still being read. */
    method FailStreaming(reason: bytes, now: int)
      requires Valid() && !process.stopping && |reason| <= REASON_MAX
      modifies this`process, this`down, this`failure, this`overwritten, this`signals
      ensures Valid() && !process.canceled && !overwritten && FailedWith(reason, now)
    {
      hide ErrorReceipt, UploadOk;
      UntouchedIsData(process.stopping, down, consumed, delivered, failure);
      Fail(reason, now);
    }

    /** The worker pipe ended before a terminal receipt. */
    method PipeEnded(now: int)
      requires Valid() && !process.stopping
      modifies this`process, this`down, this`failure, this`overwritten, this`signals
      ensures Valid() && !process.canceled && !overwritten && FailedWith(EndFault(old(down)), now)
    {
      FailStreaming(EndFault(down), now);
    }

    /** Signal the worker group, once, and close both pipes. */
    method StopWorker(now: int)
      requires process.worker > 0 ==> !reaped
      modifies this`process, this`signals
      ensures process == Stopped(old(process), now)
      ensures signals == (if old(!process.stopping && process.worker > 0) then old(signals) + [Terminate] else old(signals))
    {
      var deliveryDeadline, stopDeadline := process.deliveryDeadline, process.stopDeadline;
      if !process.stopping {
        deliveryDeadline := now + DELIVERY_MS;
        if process.worker > 0 {
          Signal(Terminate);
          stopDeadline := Some(now + GRACE_MS);
        }
      }
      process := process.(stopping := true, input := false, output := false,
                          deliveryDeadline := deliveryDeadline, stopDeadline := stopDeadline);
    }

    /** A signal reaches the worker group only while the child is unreaped. */
    method Signal(kind: SignalKind)
      requires process.worker > 0 && !reaped
      modifies this`signals
      ensures signals == old(signals) + [kind]
    {
      signals := signals + [kind];
    }

    /** Nothing is left to forward, and what both pipes had is remembered once. */
    twostate predicate RevokedNow(now: int)
      reads this
    {
      && process == Stopped(old(process).(canceled := true), now)
      && down == old(down).(staged := [], stagedSent := 0, final := [], finalSent := 0)
      && revoked == (if old(process.canceled) then old(revoked) else Some(Cut(delivered, uploaded)))
      && signals == (if old(!process.stopping && process.worker > 0) then old(signals) + [Terminate] else old(signals))
      && unchanged(`up, `consumed, `delivered, `uploaded, `admitted, `failure, `overwritten, `reaped)
    }

    /** Nothing of this relay is forwarded from here on. */
    method Cancel(now: int)
      requires Valid()
      modifies this`process, this`down, this`revoked, this`signals
      ensures Valid() && RevokedNow(now)
    {
      hide ErrorReceipt, UploadOk, Announced, DeliveryOk, Closing, Streaming;
      if !overwritten { DeliveringOk(process.canceled, process.stopping, down, consumed, delivered, failure); }
      if !process.canceled { revoked := Some(Cut(delivered, uploaded)); }
      process := process.(canceled := true);
      down := down.(staged := [], stagedSent := 0, final := [], finalSent := 0);
      StopWorker(now);
    }

    /** End the response with an explicit failure.  Replacing a receipt whose first byte
        was already written is recorded in `overwritten`. */
    method Fail(reason: bytes, now: int)
      requires Sound() && !process.canceled && |reason| <= REASON_MAX
      requires overwritten || down.finalSent > 0 || Untouched()
      modifies this`process, this`down, this`failure, this`overwritten, this`signals
      ensures Valid() && !process.canceled && FailedWith(reason, now)
      ensures overwritten <==> old(overwritten || down.finalSent > 0)
    {
      hide ErrorReceipt, UploadOk;
      overwritten := overwritten || down.finalSent > 0;
      StopWorker(now);
      ReceiptFits(id, reason);
      var receipt := ErrorReceipt(id, reason);
      down := down.(staged := [], stagedSent := 0, final := receipt, finalSent := 0, haveFinal := true);
      failure := Some(receipt);
      if !overwritten { FreshFailure(consumed, delivered, receipt, down); }
    }
  }

  // ----- Responses that are over -----

  /** What is left of a relay: what its worker gave, what the runtime took, the failure
      composed for it, and what both pipes had when it was revoked. */
  datatype Response = Response(id: int, epoch: nat, consumed: bytes, delivered: bytes, uploaded: bytes,
                               failure: Option<bytes>, overwritten: bool, revoked: Option<Cut>)

  /** A revoked response ends where it was revoked; one that was not overwritten is data and
      at most one terminal receipt. */
  ghost predicate ResponseOk(r: Response) {
    && Announced(r.id, r.failure)
    && (r.revoked.Some? ==> r.revoked.value == Cut(r.delivered, r.uploaded))
    && (!r.overwritten ==> DeliveryOk(r.consumed, r.delivered, r.failure))
  }

  ghost predicate AllOk(rs: seq<Response>) { forall i :: 0 <= i < |rs| ==> ResponseOk(rs[i]) }

  ghost predicate InEpochOrder(rs: seq<Response>) { forall i, j :: 0 <= i < j < |rs| ==> rs[i].epoch < rs[j].epoch }

  ghost predicate Before(rs: seq<Response>, epoch: nat) { forall i :: 0 <= i < |rs| ==> rs[i].epoch < epoch }

  /** The pipe bytes of a sequence of responses. */
  ghost function Written(rs: seq<Response>): bytes {
    if rs == [] then [] else Written(rs[..|rs| - 1]) + rs[|rs| - 1].delivered
  }

  lemma RetireOne(rs: seq<Response>, r: Response)
    requires AllOk(rs) && InEpochOrder(rs) && Before(rs, r.epoch) && ResponseOk(r)
    ensures AllOk(rs + [r]) && InEpochOrder(rs + [r]) && Before(rs + [r], r.epoch + 1)
    ensures Written(rs + [r]) == Written(rs) + r.delivered
  {
    hide ResponseOk;
    assert (rs + [r])[..|rs|] == rs;
  }

  /** The bytes of one response stand together, between those of the others. */
  lemma {:induction false} WrittenAt(rs: seq<Response>, k: nat)
    requires k < |rs|
    ensures Written(rs) == Written(rs[..k]) + rs[k].delivered + Written(rs[k + 1..])
  {
    var front := rs[..|rs| - 1];
    if k == |front| {
      assert rs[k + 1..] == [];
    } else {
      WrittenAt(front, k);
      assert front[..k] == rs[..k];
      assert rs[k + 1..][..|rs[k + 1..]| - 1] == front[k + 1..];
    }
  }

  // ----- What one pass does -----

  /** Why a pass stopped moving response bytes: it did not, the runtime pipe took too little or
      is gone, the worker pipe is silent or ended, a header was refused, or the receipt is in. */
  datatype End = Budget | RuntimeFull | RuntimeGone | Silent | WorkerEnded | BadHeader | Complete

  /** How often each pipe took or gave something in a pass, and whether the worker's input
      stayed open; the next answer of a pipe is the one that ended its part of the pass. */
  datatype Calls = Calls(uploads: nat, input: bool, writes: nat, draws: nat, end: End)

  predicate Accepts(answer: Answer) { answer.Takes? && answer.most > 0 }

  predicate Refuses(answer: Answer) { answer.Gone? || (answer.Takes? && answer.most == 0) }

  predicate Closes(supply: Supply) { supply.Ended? || (supply.Gives? && supply.data == []) }

  /** `text` is one nonempty front piece of each of the first `draws` supplies, in order. */
  ghost predicate Drawn(supplies: seq<Supply>, draws: nat, text: bytes) {
    if draws == 0 then text == []
    else exists k: nat :: Piece(SupplyAt(supplies, draws - 1), text, k) && Drawn(supplies, draws - 1, text[..k])
  }

  ghost predicate Piece(supply: Supply, text: bytes, k: nat) {
    k < |text| && supply.Gives? && text[k..] <= supply.data
  }

  lemma DrawnNothing(supplies: seq<Supply>)
    ensures Drawn(supplies, 0, [])
  {
  }

  lemma DrawOne(supplies: seq<Supply>, draws: nat, text: bytes, more: bytes)
    requires Drawn(supplies, draws, text)
    requires SupplyAt(supplies, draws).Gives? && more != [] && more <= SupplyAt(supplies, draws).data
    ensures Drawn(supplies, draws + 1, text + more)
  {
    assert (text + more)[..|text|] == text && (text + more)[|text|..] == more;
    assert Piece(SupplyAt(supplies, draws), text + more, |text|);
  }

  // ----- Looking after a worker -----

  /** From one pass to the next the worker group is told to end when the relay stops, killed
      once when its grace is over, and left alone after it is reaped; clocks start when the
      relay stops, and a worker is looked for only while its relay is stopping. */
  ghost predicate Attended(p: Process, q: Process, before: seq<SignalKind>, after: seq<SignalKind>, now: int, exited: bool,
                           fenced: bool, stuck: bool)
  {
    && q.deadline == p.deadline
    && if p.stopping then
         var kill := !stuck && p.worker > 0 && p.stopDeadline.Some? && now >= p.stopDeadline.value;
         && q.deliveryDeadline == p.deliveryDeadline
         && after == (if kill then before + [Kill] else before)
         && q.stopDeadline == (if kill then None else p.stopDeadline)
         && q.worker == (if p.worker > 0 && exited && !stuck then -1 else p.worker)
       else if q.stopping then
         && after == before + [Terminate]
         && q.deliveryDeadline == now + DELIVERY_MS && q.stopDeadline == Some(now + GRACE_MS)
         && q.worker == (if exited && (now >= p.deadline || !fenced) then -1 else p.worker)
       else after == before && q.worker == p.worker
  }

  /** The clocks and the worker of two processes are the same. */
  predicate SameClocks(p: Process, q: Process) {
    q.worker == p.worker && q.deadline == p.deadline && q.deliveryDeadline == p.deliveryDeadline && q.stopDeadline == p.stopDeadline
  }

  lemma AttendedWhenStuck(p: Process, signals: seq<SignalKind>, now: int, exited: bool)
    requires p.stopping
    ensures Attended(p, Stopped(p.(canceled := true), now), signals, signals, now, exited, true, true)
  {
  }

  lemma AttendedInTheEnd(p: Process, m: Process, q: Process, before: seq<SignalKind>, told: seq<SignalKind>, after: seq<SignalKind>,
                         now: int, exited: bool, fenced: bool)
    requires if p.stopping then SameClocks(p, m) && told == before
             else p.worker > 0 && m == Stopped(p.(canceled := m.canceled), now) && told == before + [Terminate] && (now >= p.deadline || !fenced)
    requires q.stopping && SameClocks(Watched(m, now, exited), q)
    requires after == if Overdue(m, now) then told + [Kill] else told
    ensures Attended(p, q, before, after, now, exited, fenced, false)
  {
  }

  lemma AttendedAlive(p: Process, q: Process, input: bool, before: seq<SignalKind>, after: seq<SignalKind>, now: int, exited: bool)
    requires !p.stopping && p.worker > 0 && now < p.deadline
    requires var m := p.(input := input);
             q == Stopped(m.(canceled := true), now) || q == Stopped(m, now) || q == m
    requires after == if q.stopping then before + [Terminate] else before
    ensures Attended(p, q, before, after, now, exited, true, false)
  {
  }

  // ----- The owner of both relays -----

  class Owner {
    var relay: Relay?
    var next: Relay?
    var epoch: nat
    var child: int                       // the runtime process, and its input pipe
    var inFd: int
    var live: Option<(int, int)>         // the ready local endpoint bound to this runtime
    var localUrl: bytes
    var remoteUrl: bytes
    var remoteKey: bytes

    ghost var log: bytes                 // every byte the runtime pipe took
    ghost var retired: seq<Response>     // the responses of relays that are gone, in order
    ghost var stopRequests: nat

    /** The fence every write passes. */
    predicate Matches(j: Relay)
      reads this
    {
      j.epoch == epoch && j.runtime == child && j.runtimeFd == inFd && inFd >= 0
      && (j.resident.None? || j.resident == live)
    }

    /** A relay keeps its runtime exactly as long as nothing was revoked since it was admitted,
        process and input pipe are the same and open, and the local endpoint it was pinned to,
        if any, is the live one. */
    lemma FenceIs(j: Relay)
      ensures Matches(j) <==>
                && epoch == j.epoch && child == j.runtime && inFd == j.runtimeFd && !(inFd < 0)
                && (j.resident.Some? ==> live.Some? && live.value == j.resident.value)
    {
    }

    /** No response had its receipt replaced after it was begun. */
    ghost predicate Clean()
      reads this, relay
    {
      (relay != null ==> !relay.overwritten) && forall i :: 0 <= i < |retired| ==> !retired[i].overwritten
    }

    /** The pipe and the list of finished responses only grow. */
    twostate predicate Recorded()
      reads this
    {
      Extends(old(log), log) && old(retired) <= retired
    }

    /** A revoked relay stays revoked, and nothing of it is forwarded any more. */
    twostate predicate StaysRevoked(j: Relay?)
      reads j
    {
      j != null && old(j.process.canceled) ==>
        && j.process.canceled && j.revoked == old(j.revoked)
        && j.delivered == old(j.delivered) && j.uploaded == old(j.uploaded)
    }

    /** The relays in place were there before, or are new. */
    twostate predicate NoneButNew(before: Relay?, queued: Relay?)
      reads this
    {
      && (relay == null || relay == before || relay == queued || fresh(relay))
      && (next == null || next == before || next == queued || fresh(next))
    }

    ghost function ResponseOf(j: Relay): Response
      reads j
    {
      Response(j.id, j.epoch, j.consumed, j.delivered, j.uploaded, j.failure, j.overwritten, j.revoked)
    }

    /** A relay that has not begun to talk to either pipe. */
    ghost predicate Idle(j: Relay)
      reads j
    {
      && j.Valid() && !j.process.canceled && !j.overwritten && j.process.worker <= 0
      && j.delivered == [] && j.consumed == [] && j.uploaded == [] && j.down.finalSent == 0
      && !j.process.input && !j.process.output
    }

    ghost predicate Valid()
      reads this, relay, next
    {
      && (relay != null ==>
            && relay.Valid() && relay.epoch <= epoch && (relay.epoch == epoch || relay.process.canceled)
            && (relay.process.stopping || (relay.process.worker > 0 && relay.process.output)))
      && (next != null ==>
            && relay != null && relay != next && relay.process.canceled
            && relay.epoch < next.epoch == epoch && Idle(next))
      && log == Written(retired) + (if relay != null then relay.delivered else [])
      && AllOk(retired) && InEpochOrder(retired) && Before(retired, if relay != null then relay.epoch else epoch + 1)
    }

    /** All responses so far: the finished ones, and the current one as far as it is. */
    ghost function Responses(): seq<Response>
      reads this, relay
    {
      retired + if relay != null then [ResponseOf(relay)] else []
    }

    /** The runtime pipe holds nothing but the responses, one after the other; each is data
        and at most one terminal receipt unless its receipt was replaced, and a revoked one
        ends where it was revoked. */
    lemma PipeHoldsResponses()
      requires Valid()
      ensures log == Written(Responses()) && AllOk(Responses()) && InEpochOrder(Responses())
      ensures Clean() ==> forall r :: r in Responses() ==> DeliveryOk(r.consumed, r.delivered, r.failure)
    {
      hide ErrorReceipt, UploadOk, ResponseOk, Announced, DeliveryOk, WorkerOk, ResponseInStep;
      if relay != null {
        CurrentIsOk();
        ResponseIsOk(relay);
        RetireOne(retired, ResponseOf(relay));
      } else {
        assert retired + [] == retired;
      }
      if Clean() {
        forall r | r in Responses() ensures DeliveryOk(r.consumed, r.delivered, r.failure) { CleanIsDelivered(r); }
      }
    }

    /** End to end: when worker `k` writes payloads and then its receipt, and the owner has read
        `n` bytes of that, its segment of the pipe is a prefix of just the payloads and the
        receipt, or data of the payloads and then the failure the owner composed. */
    lemma WorkerOutputArrives(k: nat, payloads: seq<bytes>, receipt: bytes, n: nat)
      requires Valid() && Clean() && k < |Responses()|
      requires forall i :: 0 <= i < |payloads| ==> 0 < |payloads[i]| <= FRAME_MAX
      requires 0 < |receipt| <= FINAL_SIZE && n <= |Output(payloads, receipt)|
      requires Responses()[k].consumed == Output(payloads, receipt)[..n]
      ensures var r := Responses()[k];
              && log == Written(Responses()[..k]) + r.delivered + Written(Responses()[k + 1..])
              && (|| (r.delivered <= Payload(payloads) + receipt
                      && (|r.delivered| > |Payload(payloads)| ==> n == |Output(payloads, receipt)|))
                  || (r.failure.Some? && exists front, sent ::
                        front <= Payload(payloads) && Appended(r.delivered, front, r.failure.value, sent)))
    {
      hide ErrorReceipt, UploadOk, ResponseOk, Announced, WorkerOk, ResponseInStep, Owner.Valid;
      PipeHoldsResponses();
      var r, out := Responses()[k], Output(payloads, receipt);
      WrittenAt(Responses(), k);
      assert r in Responses();
      if DeliveryOk(r.consumed, r.delivered, None) {
        DeliveredIsWorkerOutput(payloads, receipt, n, r.delivered);
      } else {
        ParsePrefixOfOutput(payloads, receipt, n);
        var front, sent :| front <= Parse(r.consumed).data && Appended(r.delivered, front, r.failure.value, sent);
        assert front <= Payload(payloads);
      }
    }

    lemma CleanIsDelivered(r: Response)
      requires ResponseOk(r) && !r.overwritten
      ensures DeliveryOk(r.consumed, r.delivered, r.failure)
    {
    }

    /** At most one relay passes the fence. */
    lemma AtMostOneMatches(a: Relay, b: Relay)
      requires Valid() && {a, b} <= {relay, next}
      requires Matches(a) && Matches(b)
      ensures a == b
    {
    }

    /** Revoke everything admitted so far. */
    method Cancel(now: int)
      requires Valid()
      modifies this`epoch, this`next, relay
      ensures Valid() && next == null && epoch == old(epoch) + 1 && StaysRevoked(relay)
      ensures relay != null ==> relay.RevokedNow(now) && !Matches(relay)
      ensures old(Clean()) ==> Clean()
    {
      hide ErrorReceipt, UploadOk, Delivering, DeliveryOk, Announced, ResponseOk;
      epoch := epoch + 1;
      next := null;
      if relay != null { relay.Cancel(now); }
    }

    method RequestChildStop(now: int)
      requires Valid()
      modifies this`epoch, this`next, this`stopRequests, relay
      ensures Valid() && next == null && epoch == old(epoch) + 1 && StaysRevoked(relay)
      ensures stopRequests == old(stopRequests) + 1
      ensures relay != null ==> relay.RevokedNow(now) && !Matches(relay)
      ensures old(Clean()) ==> Clean()
    {
      Cancel(now);
      stopRequests := stopRequests + 1;
    }

    /** What a write of this relay to the runtime pipe comes to. */
    ghost function Reply(j: Relay, answer: Answer, offered: nat): WriteResult
      requires offered > 0
      reads this, j
    {
      if Matches(j) && !j.process.canceled then PipeWrite(answer, offered) else Refused
    }

    /** One write to the runtime pipe: -1 refused, 0 unfinished, 1 finished. */
    method Deliver(j: Relay, what: bytes, sent: nat, answer: Answer) returns (status: int, done: nat)
      requires sent < |what|
      modifies this`log, j`delivered
      ensures var reply := old(Reply(j, answer, |what| - sent));
              && done == (if reply.Wrote? then sent + reply.count else sent) <= |what|
              && status == (if reply.Refused? then -1 else if done == |what| then 1 else 0)
              && (!reply.Wrote? ==> unchanged(this, j))
      ensures j.delivered == old(j.delivered) + what[sent..done]
      ensures log == old(log) + what[sent..done]
    {
      done := sent;
      if !Matches(j) || j.process.canceled { return -1, done; }
      var r := PipeWrite(answer, |what| - sent);
      match r {
        case Blocked => return 0, done;
        case Refused => return -1, done;
        case Wrote(n) =>
          done := sent + n;
          j.delivered := j.delivered + what[sent..done];
          log := log + what[sent..done];
          return if done == |what| then 1 else 0, done;
      }
    }

    /** One write of request bytes: at most `budget` of what is pending. */
    method UploadOnce(j: Relay, budget: nat, answer: Answer) returns (sent: nat)
      requires j.Valid() && !j.process.stopping && j.process.input && j.up.Pending() && budget > 0
      modifies j`up, j`uploaded, j`process
      ensures j.Valid() && sent <= budget
      ensures var left := old(|j.up.Current()| - j.up.CurrentSent());
              left > 0 && match PipeWrite(answer, if left > budget then budget else left)
                          case Blocked => sent == 0 && unchanged(j)
                          case Refused => sent == 0 && unchanged(j`up, j`uploaded) && j.process == old(j.process).(input := false)
                          case Wrote(n) =>
                            && sent == n && j.process == old(j.process) && j.up == old(j.up).Advance(n)
                            && j.uploaded == old(j.uploaded + j.up.Current()[j.up.CurrentSent()..j.up.CurrentSent() + n])
    {
      hide ErrorReceipt, Delivering;
      PendingHasRoom(j.up);
      var left := |j.up.Current()| - j.up.CurrentSent();
      var r := PipeWrite(answer, if left > budget then budget else left);
      match r {
        case Blocked => return 0;
        case Refused => j.CloseInput(); return 0;
        case Wrote(n) => j.Taken(n); return n;
      }
    }

    /** Length of the request as far as it was admitted: its description, and its body or the
        input staged so far. */
    ghost function Size(j: Relay): nat
      reads j
    {
      |j.up.metadata| + if j.up.encoded then |j.admitted| else |j.up.body|
    }

    lemma PendingIsMissing(j: Relay)
      requires j.Valid()
      ensures j.up.Pending() <==> |j.uploaded| < Size(j)
    {
      hide ErrorReceipt, Delivering, DeliveryOk, Announced;
      var payload := if j.up.encoded then j.admitted else j.up.body;
      assert |j.up.metadata + payload| == |j.uploaded + j.up.Rest()|;
    }

    /** The upload of a pass: every answer before the last was a piece taken, and it ends with
        nothing missing, with the budget used, or with an answer that took nothing; only a
        refusal closes the input. */
    twostate predicate Uploaded(j: Relay, answers: seq<Answer>, uploads: nat, input: bool)
      reads j
    {
      var sent := |j.uploaded| - |old(j.uploaded)|;
      && old(j.uploaded) <= j.uploaded && uploads <= sent <= PASS_BYTES
      && (forall i :: 0 <= i < uploads ==> Accepts(AnswerAt(answers, i)))
      && (sent > 0 ==> old(j.process.input))
      && if old(j.process.input) && |j.uploaded| < Size(j) && sent < PASS_BYTES
         then !Accepts(AnswerAt(answers, uploads)) && (input <==> AnswerAt(answers, uploads) == Full)
         else input == old(j.process.input)
    }

    /** Forward request bytes until the pass budget, a full pipe or the end of what is
        staged.  A refused write stops the upload and leaves the worker's own receipt to
        be read. */
    method PumpUpload(j: Relay, answers: seq<Answer>) returns (uploads: nat)
      requires j.Valid() && !j.process.stopping
      modifies j`up, j`uploaded, j`process
      ensures j.Valid() && j.process == old(j.process).(input := j.process.input)
      ensures Uploaded(j, answers, uploads, j.process.input)
    {
      hide ErrorReceipt, UploadOk, Delivering, DeliveryOk, Announced;
      var budget, going := PASS_BYTES, true;
      uploads := 0;
      while budget > 0 && j.process.input && j.up.Pending() && going
        invariant 0 <= budget <= PASS_BYTES
        invariant j.Valid() && j.process == old(j.process).(input := j.process.input)
        invariant old(j.uploaded) <= j.uploaded && |j.uploaded| == |old(j.uploaded)| + PASS_BYTES - budget
        invariant uploads <= PASS_BYTES - budget && forall i :: 0 <= i < uploads ==> Accepts(AnswerAt(answers, i))
        invariant budget < PASS_BYTES ==> old(j.process.input)
        invariant going && j.process.input ==> old(j.process.input)
        invariant going ==> j.process.input == old(j.process.input)
        invariant !going ==> old(j.process.input) && j.up.Pending() && budget > 0 && !Accepts(AnswerAt(answers, uploads))
                             && (j.process.input <==> AnswerAt(answers, uploads) == Full)
        decreases budget, going
      {
        var sent := UploadOnce(j, budget, AnswerAt(answers, uploads));
        budget := budget - sent;
        if sent > 0 { uploads := uploads + 1; } else { going := false; }
      }
      PendingIsMissing(j);
    }

    /** What a pass may rely on. */
    lemma Situation()
      requires Valid() && relay != null
      ensures var p, d := relay.process, relay.down;
              && (p.stopping <==> p.canceled || d.haveFinal) && (!p.stopping ==> p.worker > 0)
              && (d.haveFinal && !p.canceled ==> d.finalSent < |d.final|)
              && (next != null ==> next != relay && p.canceled && relay.epoch < next.epoch)
              && (!relay.overwritten ==> DeliveryOk(relay.consumed, relay.delivered, relay.failure))
    {
      CurrentIsOk();
    }

    lemma QueuedIsLive()
      requires Valid()
      ensures next != null ==> next != relay && !next.process.canceled
    {
    }

    /** Push staged data to the runtime.  True when all of it is gone. */
    method FlushStaged(j: Relay, answer: Answer, now: int) returns (flushed: bool)
      requires Valid() && j == relay && !j.process.stopping && !Flushed(j.down)
      modifies this`log, this`epoch, this`next, j
      ensures Valid() && relay == j && next == null && unchanged(j`uploaded, j`up, j`admitted, j`consumed, j`overwritten, j`failure)
      ensures match old(Reply(j, answer, |j.down.staged| - j.down.stagedSent))
              case Blocked => !flushed && unchanged(this, j)
              case Refused => !flushed && log == old(log) && j.RevokedNow(now) && epoch == old(epoch) + 1
              case Wrote(n) =>
                && (flushed <==> Flushed(j.down)) && epoch == old(epoch) && j.process == old(j.process) && j.signals == old(j.signals)
                && j.down == old(j.down).(stagedSent := old(j.down.stagedSent) + n)
                && log == old(log) + old(j.down.staged)[old(j.down.stagedSent)..old(j.down.stagedSent) + n]
                && j.delivered == old(j.delivered) + old(j.down.staged)[old(j.down.stagedSent)..old(j.down.stagedSent) + n]
    {
      hide ErrorReceipt, UploadOk, ResponseOk, Announced, DeliveryOk, Delivering, AllOk, InEpochOrder, Before, Written, Idle;
      var status, done := Deliver(j, j.down.staged, j.down.stagedSent, answer);
      StagedInStep(j.process, j.down, j.consumed, old(j.delivered), j.failure, j.overwritten, done);
      j.down := j.down.(stagedSent := done);
      if status < 0 {
        assert j.delivered == old(j.delivered) && j.down == old(j.down);
        Cancel(now);
      }
      return status > 0;
    }

    lemma CanRead(j: Relay)
      requires j.Valid() && !j.process.stopping
      ensures !j.process.canceled && !j.overwritten && |j.down.final| <= FINAL_SIZE
      ensures j.down.frameLeft > 0 ==> PayloadRoom(j.down) > 0
    {
      if j.down.frameLeft > 0 { PayloadHasRoom(j.down, j.consumed, j.delivered); }
    }

    /** One read of the worker pipe, header byte or payload. */
    method ReadOnce(j: Relay, budget: nat, supply: Supply, now: int) returns (used: nat, end: End)
      requires j.Valid() && !j.process.stopping && Flushed(j.down) && budget > 0
      modifies j`process, j`down, j`failure, j`overwritten, j`consumed, j`signals
      ensures j.Valid() && !j.process.canceled && !j.overwritten && used <= budget
      ensures (used > 0 <==> !Closes(supply) && !supply.Dry?) && end !in {RuntimeFull, RuntimeGone}
      ensures used > 0 ==> supply.Gives? && used <= |supply.data| && j.consumed == old(j.consumed) + supply.data[..used]
      ensures used > 0 ==> end in {Budget, BadHeader, Complete}
      ensures used == 0 ==> j.consumed == old(j.consumed) && end == if supply.Dry? then Silent else WorkerEnded
      ensures used > 0 ==>
                if old(j.down.frameLeft) == 0 then used == 1
                else used in {|supply.data|, budget, old(j.down.frameLeft), if old(j.down.finalFrame) then FINAL_SIZE - |old(j.down.final)| else STAGE_SIZE}
      ensures EndMeans(j, end, Full, supply)
      ensures j.process == if j.process.stopping then Stopped(old(j.process), now) else old(j.process)
      ensures j.signals == (if j.process.stopping && old(j.process.worker) > 0 then old(j.signals) + [Terminate] else old(j.signals))
    {
      hide ErrorReceipt, Parse, Relay.Valid, Relay.Sound;
      CanRead(j);
      var room := 1;
      if j.down.frameLeft > 0 {
        room := PayloadRoom(j.down);
        if room > budget { room := budget; }
      }
      var r := PipeRead(supply, room);
      match r {
        case Again => return 0, Silent;
        case Closed => j.PipeEnded(now); return 0, WorkerEnded;
        case Data(data) =>
          if j.down.frameLeft == 0 {
            assert data == [data[0]];
            var bad := HeaderByte(j.down, data[0]).None?;
            j.TakeHeaderByte(data[0], now);
            return 1, if bad then BadHeader else Budget;
          } else {
            j.TakePayload(data, now);
            return |data|, if j.down.haveFinal then Complete else Budget;
          }
      }
    }

    /** What each end of a pass says about the relay: a full runtime pipe and a silent worker
        revoke and fail nothing; a refusal revokes; the end of the worker pipe and a bad header
        become the failure receipt of their reason; a complete response keeps its own. */
    ghost predicate EndMeans(j: Relay, end: End, answer: Answer, supply: Supply)
      reads j
    {
      match end
      case Budget => !j.process.stopping
      case RuntimeFull =>
        && !j.process.stopping && !Flushed(j.down)
        && (answer == Full || (Accepts(answer) && answer.most <= j.down.stagedSent))
      case RuntimeGone => j.process.canceled && Refuses(answer)
      case Silent => !j.process.stopping && Flushed(j.down) && supply == Dry
      case WorkerEnded =>
        && Closes(supply)
        && Failed(j, if j.down.frameLeft > 0 then Ascii("Model worker exited during a frame")
                     else Ascii("Model worker exited without a terminal receipt"))
      case BadHeader => Parse(j.consumed).Broken? && Failed(j, HeaderFault(j.down))
      case Complete =>
        && !j.process.canceled && j.process.stopping && j.failure.None?
        && Parse(j.consumed).Terminal? && j.down.final == Parse(j.consumed).receipt && j.down.finalSent == 0 && j.down.haveFinal
    }

    lemma EndKept(j: Relay, end: End, answer: Answer, supply: Supply, answer': Answer, supply': Supply)
      requires EndMeans(j, end, answer, supply)
      requires end in {RuntimeFull, RuntimeGone} ==> answer' == answer
      requires end in {Silent, WorkerEnded} ==> supply' == supply
      ensures EndMeans(j, end, answer', supply')
      ensures end == Budget ==> !j.process.stopping
    {
    }

    lemma StillGoing(j: Relay, answer: Answer, supply: Supply)
      requires !j.process.stopping
      ensures EndMeans(j, Budget, answer, supply)
    {
    }

    /** The response is the failure receipt of this reason, none of which is written. */
    ghost predicate Failed(j: Relay, reason: bytes)
      reads j
    {
      && !j.process.canceled && j.process.stopping && j.down.haveFinal && j.down.finalSent == 0
      && j.down.final == ErrorReceipt(j.id, reason) && j.failure == Some(j.down.final)
    }

    /** Deliver what is staged, then read once. */
    method OutputOnce(j: Relay, budget: nat, answer: Answer, supply: Supply, now: int) returns (used: nat, wrote: bool, end: End)
      requires Valid() && j == relay && !j.process.stopping && budget > 0
      modifies this`log, this`epoch, this`next, j
      ensures Valid() && relay == j && next == null && Extends(old(log), log) && used <= budget
      ensures old(j.delivered) <= j.delivered && unchanged(j`uploaded, j`up, j`admitted, j`overwritten)
      ensures !old(Matches(j)) ==> j.delivered == old(j.delivered)
      ensures wrote <==> old(!Flushed(j.down)) && end !in {RuntimeFull, RuntimeGone}
      ensures wrote ==> Accepts(answer) && |j.delivered| > |old(j.delivered)|
      ensures used > 0 ==> supply.Gives? && used <= |supply.data| && j.consumed == old(j.consumed) + supply.data[..used]
      ensures used > 0 ==> end in {Budget, BadHeader, Complete}
      ensures used == 0 ==> j.consumed == old(j.consumed) && end !in {Budget, BadHeader, Complete}
      ensures EndMeans(j, end, if old(Matches(j)) then answer else Gone, supply)
      ensures end != RuntimeGone ==> epoch == old(epoch)
      ensures j.process == if end == RuntimeGone then Stopped(old(j.process).(canceled := true), now)
                           else if j.process.stopping then Stopped(old(j.process), now) else old(j.process)
      ensures j.signals == (if j.process.stopping && old(j.process.worker) > 0 then old(j.signals) + [Terminate] else old(j.signals))
    {
      hide ErrorReceipt, UploadOk, Delivering, Announced, WorkerOk;
      wrote := false;
      if !Flushed(j.down) {
        wrote := FlushStaged(j, answer, now);
        if !wrote { return 0, false, if j.process.canceled then RuntimeGone else RuntimeFull; }
      }
      used, end := ReadOnce(j, budget, supply, now);
    }

    /** The response side of a pass: what was read is what the worker pipe gave, piece by piece,
        and the pass ends with its budget used or with the next answer of one of the pipes. */
    twostate predicate Forwarded(j: Relay, world: World, writes: nat, draws: nat, end: End)
      reads this, j
    {
      var answer := if old(Matches(j)) then AnswerAt(world.toRuntime, writes) else Gone;
      && old(j.consumed) <= j.consumed && |j.consumed| <= |old(j.consumed)| + PASS_BYTES
      && old(j.delivered) <= j.delivered && writes <= |j.delivered| - |old(j.delivered)|
      && (!old(Matches(j)) ==> j.delivered == old(j.delivered))
      && Drawn(world.fromWorker, draws, j.consumed[|old(j.consumed)|..])
      && (forall i :: 0 <= i < writes ==> Accepts(AnswerAt(world.toRuntime, i)))
      && EndMeans(j, end, answer, SupplyAt(world.fromWorker, draws))
      && (end == Budget ==> |j.consumed| == |old(j.consumed)| + PASS_BYTES)
    }

    /** Move response bytes from the worker to the runtime until the pass budget is used,
        a pipe is not ready, the response ends, or the relay is revoked. */
    method PumpOutput(j: Relay, world: World, now: int) returns (writes: nat, draws: nat, end: End)
      requires Valid() && j == relay && !j.process.stopping
      modifies this`log, this`epoch, this`next, j
      ensures Valid() && relay == j && next == null && Extends(old(log), log)
      ensures unchanged(j`uploaded, j`up, j`admitted, j`overwritten) && (end != RuntimeGone ==> epoch == old(epoch))
      ensures Forwarded(j, world, writes, draws, end)
      ensures j.process == if end == RuntimeGone then Stopped(old(j.process).(canceled := true), now)
                           else if j.process.stopping then Stopped(old(j.process), now) else old(j.process)
      ensures j.signals == (if j.process.stopping && old(j.process.worker) > 0 then old(j.signals) + [Terminate] else old(j.signals))
    {
      hide ErrorReceipt, Parse, EndMeans, Drawn, Owner.Valid;
      Situation();
      var budget := PASS_BYTES;
      writes, draws, end := 0, 0, Budget;
      StillGoing(j, if old(Matches(j)) then AnswerAt(world.toRuntime, 0) else Gone, SupplyAt(world.fromWorker, 0));
      DrawnNothing(world.fromWorker);
      assert j.consumed[|old(j.consumed)|..] == [];
      while budget > 0 && end == Budget
        invariant 0 <= budget <= PASS_BYTES
        invariant Valid() && relay == j && next == null && Extends(old(log), log)
        invariant unchanged(j`uploaded, j`up, j`admitted, j`overwritten) && (end != RuntimeGone ==> epoch == old(epoch))
        invariant old(j.consumed) <= j.consumed && |j.consumed| == |old(j.consumed)| + PASS_BYTES - budget
        invariant old(j.delivered) <= j.delivered && writes <= |j.delivered| - |old(j.delivered)|
        invariant !old(Matches(j)) ==> j.delivered == old(j.delivered)
        invariant Drawn(world.fromWorker, draws, j.consumed[|old(j.consumed)|..])
        invariant forall i :: 0 <= i < writes ==> Accepts(AnswerAt(world.toRuntime, i))
        invariant EndMeans(j, end, if old(Matches(j)) then AnswerAt(world.toRuntime, writes) else Gone, SupplyAt(world.fromWorker, draws))
        invariant end == Budget ==> !j.process.stopping
        invariant j.process == if end == RuntimeGone then Stopped(old(j.process).(canceled := true), now)
                               else if j.process.stopping then Stopped(old(j.process), now) else old(j.process)
        invariant j.signals == (if j.process.stopping && old(j.process.worker) > 0 then old(j.signals) + [Terminate] else old(j.signals))
        decreases budget, end == Budget
      {
        ghost var seen := j.consumed;
        ghost var answer, supply := if old(Matches(j)) then AnswerAt(world.toRuntime, writes) else Gone, SupplyAt(world.fromWorker, draws);
        var used, wrote;
        used, wrote, end := OutputOnce(j, budget, AnswerAt(world.toRuntime, writes), SupplyAt(world.fromWorker, draws), now);
        budget := budget - used;
        if wrote { writes := writes + 1; }
        if used > 0 {
          DrawOne(world.fromWorker, draws, seen[|old(j.consumed)|..], j.consumed[|seen|..]);
          assert j.consumed[|old(j.consumed)|..] == seen[|old(j.consumed)|..] + j.consumed[|seen|..];
          draws := draws + 1;
        }
        EndKept(j, end, answer, supply, if old(Matches(j)) then AnswerAt(world.toRuntime, writes) else Gone, SupplyAt(world.fromWorker, draws));
      }
    }

    /** The worker of an idle relay runs, or the relay carries the failure to start it; one
        already failed is only announced. */
    twostate predicate Begun(j: Relay, spawn: Spawn)
      reads this, j
    {
      if old(j.down.haveFinal) then unchanged(j)
      else if old(Matches(j)) && spawn.Started? && spawn.pid > 0 && spawn.ready then
        && j.process == old(j.process).(worker := spawn.pid, input := true, output := true)
        && unchanged(j`up, j`down, j`failure, j`signals, j`delivered, j`consumed, j`uploaded, j`overwritten)
      else
        && Failed(j, SpawnFault()) && j.process.deadline == old(j.process.deadline)
        && unchanged(j`up, j`delivered, j`consumed, j`uploaded, j`overwritten)
    }

    /** Start the worker of the current relay, if the fence still admits it. */
    method SpawnWorker(j: Relay, spawn: Spawn, now: int) returns (ok: bool)
      requires j.Valid() && !j.process.stopping && j.process.worker <= 0
      modifies j`process, j`reaped, j`signals
      ensures j.Sound() && !j.process.canceled && j.process.deadline == old(j.process.deadline)
      ensures ok <==> Matches(j) && spawn.Started? && spawn.pid > 0 && spawn.ready
      ensures ok ==> j.Valid() && j.process == old(j.process).(worker := spawn.pid, input := true, output := true) && unchanged(j`signals)
    {
      hide ErrorReceipt, UploadOk, Delivering;
      if !Matches(j) || spawn.NotStarted? || spawn.pid <= 0 { return false; }
      j.reaped := false;
      j.process := j.process.(worker := spawn.pid, input := true, output := true);
      if !spawn.ready { j.StopWorker(now); }
      return spawn.ready;
    }

    /** Start the worker of an idle relay. */
    method Launch(j: Relay, spawn: Spawn, now: int)
      requires Idle(j)
      modifies j
      ensures j.Valid() && !j.process.canceled && Begun(j, spawn)
      ensures j.process.stopping || (j.process.worker > 0 && j.process.output)
    {
      hide ErrorReceipt, UploadOk, DeliveryOk, Parse, Announced, RevokedOk;
      if !j.down.haveFinal {
        var ok := SpawnWorker(j, spawn, now);
        if !ok { j.Fail(SpawnFault(), now); }
      }
    }

    method Activate(j: Relay, spawn: Spawn, now: int)
      requires Valid() && relay == null && Idle(j) && j.epoch == epoch && Before(retired, j.epoch)
      modifies this`relay, j
      ensures Valid() && relay == j && !j.overwritten && !j.process.canceled && Begun(j, spawn)
    {
      hide ErrorReceipt, UploadOk, DeliveryOk, ResponseInStep, WorkerOk, RevokedOk, Announced, ResponseOk, AllOk,
           InEpochOrder, Before, Written;
      Launch(j, spawn, now);
      relay := j;
    }

    lemma CurrentInStep(j: Relay)
      requires j.Valid()
      ensures ResponseInStep(j.process, j.down, j.consumed, j.delivered, j.failure, j.overwritten)
      ensures j.process.stopping && !j.process.canceled ==> j.down.haveFinal && j.down.finalSent < |j.down.final|
    {
    }

    /** All that is needed to remember the current response and to go on. */
    ghost predicate Recordable()
      reads this, relay, next
    {
      && relay != null && log == Written(retired) + relay.delivered && relay.epoch <= epoch
      && relay.Sound() && (!relay.overwritten ==> DeliveryOk(relay.consumed, relay.delivered, relay.failure))
      && AllOk(retired) && InEpochOrder(retired) && Before(retired, relay.epoch)
      && (next != null ==> next != relay && relay.epoch < next.epoch == epoch && Idle(next))
    }

    lemma IsRecordable()
      requires Valid() && relay != null
      ensures Recordable()
    {
      hide ErrorReceipt, UploadOk, DeliveryOk, Written, AllOk, InEpochOrder, Before, Idle, Announced;
      CurrentIsOk();
    }

    /** One write of the terminal receipt. */
    method DeliverFinal(j: Relay, answer: Answer) returns (status: int)
      requires Valid() && j == relay && j.process.stopping && !j.process.canceled
      modifies this`log, j`delivered, j`down
      ensures old(j.delivered) <= j.delivered && Extends(old(log), log)
      ensures (status <= 0 ==> Valid()) && Recordable()
      ensures match old(Reply(j, answer, |j.down.final| - j.down.finalSent))
              case Blocked => status == 0 && unchanged(this, j)
              case Refused => status < 0 && unchanged(this, j)
              case Wrote(n) =>
                && status == (if old(j.down.finalSent) + n == |j.down.final| then 1 else 0)
                && j.down == old(j.down).(finalSent := old(j.down.finalSent) + n)
                && log == old(log) + j.down.final[old(j.down.finalSent)..j.down.finalSent]
    {
      hide ErrorReceipt, UploadOk, AllOk, InEpochOrder, Before, Announced, ResponseOk, ResponseInStep, DeliveryOk, Written, Idle;
      CurrentInStep(j);
      var done;
      status, done := Deliver(j, j.down.final, j.down.finalSent, answer);
      FinalInStep(j.process, j.down, j.consumed, old(j.delivered), j.failure, j.overwritten, done);
      j.down := j.down.(finalSent := done);
    }

    /** The relay stays where it is, with `sent` bytes of this receipt written. */
    twostate predicate Announces(j: Relay, receipt: bytes, sent: nat)
      reads this, j
    {
      && relay == j && next == old(next) && epoch == old(epoch) && retired == old(retired)
      && j.process.stopping && !j.process.canceled && j.down.haveFinal && j.down.final == receipt && j.down.finalSent == sent
    }

    /** The relay is gone and the queued one, if there is one, begins. */
    twostate predicate MovedOn(j: Relay, queued: Relay?, spawn: Spawn)
      reads this, j, queued
    {
      && relay == queued && next == null && retired == old(retired) + [ResponseOf(j)]
      && (queued != null ==> Begun(queued, spawn))
    }

    /** What the runtime pipe takes of a receipt is its next bytes, in order; the relay goes
        when all of it is taken, or when the pipe refuses it, and stays otherwise. */
    twostate predicate ReceiptWritten(j: Relay, queued: Relay?, receipt: bytes, sent: nat, answer: Answer, spawn: Spawn)
      requires sent < |receipt|
      reads this, j, queued
    {
      match PipeWrite(answer, |receipt| - sent)
      case Blocked => log == old(log) && Announces(j, receipt, sent)
      case Refused => log == old(log) && j.process.canceled && MovedOn(j, queued, spawn)
      case Wrote(n) =>
        && log == old(log) + receipt[sent..sent + n]
        && if sent + n == |receipt| then !j.process.canceled && MovedOn(j, queued, spawn) else Announces(j, receipt, sent + n)
    }

    /** The worker is gone: finish the receipt, or drop a revoked relay, and start the
        queued one. */
    method Retire(now: int, world: World)
      requires Valid() && relay != null && relay.process.stopping && relay.process.worker <= 0
      modifies this`log, this`retired, this`epoch, this`relay, this`next, relay, next
      ensures Valid() && Extends(old(log), log) && (relay == old(relay) || relay == old(next))
      ensures ClosedBook(old(relay), old(relay.delivered), relay != old(relay))
      ensures unchanged(old(relay)`uploaded, old(relay)`consumed, old(relay)`failure, old(relay)`up, old(relay)`signals)
      ensures old(next) != null ==> unchanged(old(next)`delivered, old(next)`uploaded, old(next)`consumed)
      ensures relay != old(relay) && relay != null ==> !relay.overwritten
      ensures old(relay.process.canceled) ==> old(relay).revoked == old(relay.revoked) && old(relay).process == old(relay.process)
      ensures old(relay.process.canceled || !Matches(relay)) ==>
                log == old(log) && old(relay).delivered == old(relay.delivered) && old(relay).process.canceled && MovedOn(old(relay), old(next), world.spawn)
      ensures old(Matches(relay) && !relay.process.canceled) ==>
                ReceiptWritten(old(relay), old(next), old(relay.down.final), old(relay.down.finalSent), AnswerAt(world.toRuntime, 0), world.spawn)
      ensures var p, q := old(relay.process), old(relay).process;
              q.stopping && SameClocks(p, q)
    {
      hide ErrorReceipt, DeliveryOk, Owner.Valid, Relay.Valid, Relay.Sound, Recordable, Written;
      var j := relay;
      Situation();
      IsRecordable();
      if !j.process.canceled {
        var status := DeliverFinal(j, AnswerAt(world.toRuntime, 0));
        DeliveredSoFar();
        if status == 0 { return; }
        if status < 0 { Cancel(now); IsRecordable(); }
      }
      Drop(world.spawn, now);
    }

    lemma DeliveredSoFar()
      requires Recordable()
      ensures !relay.overwritten ==> DeliveryOk(relay.consumed, relay.delivered, relay.failure)
      ensures next != null ==> next != relay
    {
    }

    lemma ResponseIsOk(j: Relay)
      requires j.Sound() && (!j.overwritten ==> DeliveryOk(j.consumed, j.delivered, j.failure))
      ensures ResponseOk(ResponseOf(j))
    {
      hide ErrorReceipt, UploadOk, Announced, DeliveryOk;
    }

    /** Forget the current relay and activate the queued one. */
    method Drop(spawn: Spawn, now: int)
      requires Recordable()
      modifies this`retired, this`relay, this`next, next
      ensures Valid() && MovedOn(old(relay), old(next), spawn)
      ensures relay != null ==> !relay.overwritten
    {
      hide ErrorReceipt, UploadOk, ResponseInStep, DeliveryOk, Announced, ResponseOk, RevokedOk, WorkerOk, InEpochOrder, AllOk, Written;
      var queued := next;
      ResponseIsOk(relay);
      RetireOne(retired, ResponseOf(relay));
      retired, relay, next := retired + [ResponseOf(relay)], null, null;
      if queued != null { Activate(queued, spawn, now); }
    }

    /** A relay that is dropped is remembered, and nothing else is. */
    twostate predicate Archived(j: Relay)
      reads this, j
    {
      retired == if relay == j then old(retired) else old(retired) + [ResponseOf(j)]
    }

    /** What a relay has written, and, once it is dropped, why it may be dropped. */
    twostate predicate ClosedBook(j: Relay, before: bytes, dropped: bool)
      reads j
    {
      && before <= j.delivered && j.overwritten == old(j.overwritten)
      && (!j.overwritten ==> DeliveryOk(j.consumed, j.delivered, j.failure))
      && (dropped ==> j.process.canceled || j.down.finalSent == |j.down.final|)
    }

    /** Escalate and reap a stopping worker. */
    method Reap(j: Relay, now: int, exited: bool)
      requires Valid() && j == relay && j.process.stopping && j.process.worker > 0
      modifies j`process, j`reaped, j`signals
      ensures Valid() && j.process == Watched(old(j.process), now, exited)
      ensures j.signals == (if Overdue(old(j.process), now) then old(j.signals) + [Kill] else old(j.signals))
    {
      hide ErrorReceipt, UploadOk, Delivering, Announced, ResponseOk, DeliveryOk, AllOk, InEpochOrder, Before, Written, Idle;
      if j.process.stopDeadline.Some? && now >= j.process.stopDeadline.value {
        j.Signal(Kill);
        j.process := j.process.(stopDeadline := None);
      }
      if exited {
        j.process := j.process.(worker := -1);
        j.reaped := true;
      }
    }

    /** Nobody took the receipt of the current relay in time. */
    ghost predicate Stuck(j: Relay, now: int)
      reads this, j
    {
      Matches(j) && !j.process.canceled && j.down.haveFinal && now >= j.process.deliveryDeadline
    }

    /** A response that is over: watch the worker, and once it is gone finish the receipt or
        drop a revoked relay, and start the queued one. */
    method Settle(j: Relay, now: int, world: World)
      requires Valid() && j == relay && j.process.stopping
      modifies this`log, this`retired, this`epoch, this`relay, this`next, j, next
      ensures Valid() && Extends(old(log), log) && (relay == j || relay == old(next))
      ensures ClosedBook(j, old(j.delivered), relay != j)
      ensures Archived(j) && (next == old(next) || next == null)
      ensures relay != j && relay != null ==> !relay.overwritten
      ensures unchanged(j`uploaded, j`consumed, j`up)
      ensures old(next) != null ==> unchanged(old(next)`delivered, old(next)`uploaded, old(next)`consumed)
      ensures var gone := old(j.process.worker) <= 0 || world.exited;
              if old(j.process.canceled || !Matches(j)) then
                && log == old(log) && j.delivered == old(j.delivered) && (gone || old(j.process.canceled) ==> j.process.canceled)
                && (old(j.process.canceled) ==> j.revoked == old(j.revoked))
                && if gone then MovedOn(j, old(next), world.spawn) else relay == j && next == old(next) && retired == old(retired)
              else if gone then
                ReceiptWritten(j, old(next), old(j.down.final), old(j.down.finalSent), AnswerAt(world.toRuntime, 0), world.spawn)
              else log == old(log) && Announces(j, old(j.down.final), old(j.down.finalSent))
      ensures var p, q := Watched(old(j.process), now, world.exited), j.process;
              q.stopping && SameClocks(p, q)
      ensures j.signals == (if Overdue(old(j.process), now) then old(j.signals) + [Kill] else old(j.signals))
    {
      hide ErrorReceipt, DeliveryOk, Parse, Owner.Valid, Relay.Valid, Relay.Sound;
      Situation();
      if j.process.worker > 0 { Reap(j, now, world.exited); }
      Situation();
      if j.process.worker <= 0 { Retire(now, world); }
    }

    /** Both directions of a live relay. */
    method Pump(j: Relay, now: int, world: World) returns (calls: Calls)
      requires Valid() && j == relay && !j.process.stopping
      modifies this`log, this`epoch, this`next, j
      ensures Valid() && relay == j && next == null && Extends(old(log), log) && ClosedBook(j, old(j.delivered), false)
      ensures j.process.canceled || epoch == old(epoch)
      ensures Uploaded(j, world.toWorker, calls.uploads, calls.input)
      ensures Forwarded(j, world, calls.writes, calls.draws, calls.end)
      ensures var p := old(j.process).(input := calls.input);
              j.process == if calls.end == RuntimeGone then Stopped(p.(canceled := true), now)
                           else if j.process.stopping then Stopped(p, now) else p
      ensures j.signals == (if j.process.stopping && old(j.process.worker) > 0 then old(j.signals) + [Terminate] else old(j.signals))
    {
      hide ErrorReceipt, UploadOk;
      var uploads := PumpUpload(j, world.toWorker);
      var input := j.process.input;
      var writes, draws, end := PumpOutput(j, world, now);
      calls := Calls(uploads, input, writes, draws, end);
      CurrentIsOk();
    }

    /** A receipt nobody took in time revokes everything and stops the runtime; no other
        relay does. */
    twostate predicate Halted(j: Relay, now: int)
      reads this, j
    {
      if old(Stuck(j, now)) then
        && relay == j && next == null && retired == old(retired) && log == old(log)
        && epoch == old(epoch) + 1 && stopRequests == old(stopRequests) + 1 && j.RevokedNow(now)
      else stopRequests == old(stopRequests)
    }

    /** A relay that is revoked, or loses its runtime now, forwards nothing in either direction
        and goes when its worker is gone. */
    twostate predicate Dropped(j: Relay, queued: Relay?, world: World)
      reads this, j, queued
    {
      old(j.process.canceled || !Matches(j)) ==>
        && log == old(log) && j.delivered == old(j.delivered) && j.uploaded == old(j.uploaded) && j.process.canceled
        && (old(j.process.canceled) ==> j.revoked == old(j.revoked))
        && if old(j.process.worker) <= 0 || world.exited then MovedOn(j, queued, world.spawn)
           else relay == j && next == old(next) && retired == old(retired)
    }

    /** A response that is over, or fails now at its deadline, is told to the runtime once its
        worker is gone, and waits until then. */
    twostate predicate Told(j: Relay, queued: Relay?, now: int, world: World)
      reads this, j, queued
    {
      old(Matches(j) && !j.process.canceled && (if j.down.haveFinal then now < j.process.deliveryDeadline else now >= j.process.deadline)) ==>
        var receipt := if old(j.down.haveFinal) then old(j.down.final) else ErrorReceipt(j.id, DeadlineFault());
        var sent := if old(j.down.haveFinal) then old(j.down.finalSent) else 0;
        if old(j.process.worker) <= 0 || world.exited
        then sent < |receipt| && ReceiptWritten(j, queued, receipt, sent, AnswerAt(world.toRuntime, 0), world.spawn)
        else log == old(log) && Announces(j, receipt, sent)
    }

    /** A live relay moves bytes both ways as far as the pipes allow in one pass, and no other
        relay takes or gives anything. */
    twostate predicate Moved(j: Relay, now: int, world: World, calls: Calls)
      reads this, j
    {
      if old(Matches(j) && !j.process.stopping) && now < old(j.process.deadline) then
        && relay == j && retired == old(retired) && next == null
        && Uploaded(j, world.toWorker, calls.uploads, calls.input)
        && Forwarded(j, world, calls.writes, calls.draws, calls.end)
        && (!j.process.stopping ==> j.process == old(j.process).(input := calls.input))
      else j.uploaded == old(j.uploaded) && j.consumed == old(j.consumed)
    }

    /** The worker of the relay was attended to as its clocks say. */
    twostate predicate Watches(j: Relay, now: int, exited: bool)
      reads this, j
    {
      Attended(old(j.process), j.process, old(j.signals), j.signals, now, exited, old(Matches(j)), old(Stuck(j, now)))
    }

    /** The current relay lost its runtime: revoke it, and let it go as soon as its worker is gone. */
    method Lose(j: Relay, now: int, world: World)
      requires Valid() && j == relay && !j.process.canceled && !Matches(j)
      modifies this`log, this`retired, this`epoch, this`relay, this`next, j
      ensures Valid() && Extends(old(log), log) && (relay == j || relay == null)
      ensures ClosedBook(j, old(j.delivered), relay != j)
      ensures Archived(j) && next == null
      ensures unchanged(j`consumed, j`up)
      ensures Dropped(j, null, world)
      ensures Attended(old(j.process), j.process, old(j.signals), j.signals, now, world.exited, false, false)
    {
      hide ErrorReceipt, DeliveryOk, Parse, Owner.Valid, Relay.Valid, Relay.Sound, Attended, Watched, Overdue;
      Situation();
      ghost var p, before := j.process, j.signals;
      Cancel(now);
      ghost var q, told := j.process, j.signals;
      Settle(j, now, world);
      AttendedInTheEnd(p, q, j.process, before, told, j.signals, now, world.exited, false);
    }

    /** The response of the current relay did not end in time: it fails, and is told as any
        other once its worker is gone. */
    method Expire(j: Relay, now: int, world: World)
      requires Valid() && j == relay && !j.process.stopping && Matches(j) && now >= j.process.deadline
      modifies this`log, this`retired, this`epoch, this`relay, this`next, j
      ensures Valid() && Extends(old(log), log) && (relay == j || relay == null)
      ensures ClosedBook(j, old(j.delivered), relay != j)
      ensures Archived(j) && next == null
      ensures unchanged(j`uploaded, j`consumed, j`up)
      ensures Told(j, null, now, world)
      ensures Attended(old(j.process), j.process, old(j.signals), j.signals, now, world.exited, true, false)
    {
      hide ErrorReceipt, DeliveryOk, Parse, Owner.Valid, Relay.Valid, Relay.Sound, Attended, Watched, Overdue;
      Situation();
      ghost var p, before := j.process, j.signals;
      FailCurrent(j, now);
      ghost var q, told := j.process, j.signals;
      Situation();
      Settle(j, now, world);
      AttendedInTheEnd(p, q, j.process, before, told, j.signals, now, world.exited, true);
    }

    method FailCurrent(j: Relay, now: int)
      requires Valid() && j == relay && !j.process.stopping
      modifies j
      ensures Valid() && unchanged(j`delivered, j`uploaded, j`consumed, j`up, j`overwritten, j`revoked)
      ensures j.FailedWith(DeadlineFault(), now)
    {
      hide ErrorReceipt, UploadOk, Delivering, Announced, ResponseOk, DeliveryOk, AllOk, InEpochOrder, Before, Written, Idle;
      j.FailStreaming(DeadlineFault(), now);
    }

    method TickRelay(j: Relay, now: int, world: World) returns (calls: Calls)
      requires Valid() && j == relay
      modifies this`log, this`retired, this`epoch, this`relay, this`next, this`stopRequests, j, next
      ensures Valid() && Extends(old(log), log) && (relay == j || relay == old(next))
      ensures ClosedBook(j, old(j.delivered), relay != j)
      ensures Archived(j) && (next == old(next) || next == null)
      ensures relay != j && relay != null ==> !relay.overwritten
      ensures Halted(j, now) && Dropped(j, old(next), world) && Told(j, old(next), now, world)
      ensures Moved(j, now, world, calls) && Watches(j, now, world.exited)
      ensures old(next) != null ==> unchanged(old(next)`delivered, old(next)`uploaded, old(next)`consumed)
    {
      hide ErrorReceipt, DeliveryOk, Parse, Owner.Valid, Relay.Valid, Relay.Sound, Matches, Uploaded, Forwarded,
           Attended, Watched, Overdue, MovedOn, ReceiptWritten, Announces;
      calls := Calls(0, j.process.input, 0, 0, Silent);
      Situation();
      ghost var p, before := j.process, j.signals;
      if !j.process.canceled && !Matches(j) {
        Lose(j, now, world);
      } else if !j.process.canceled && j.down.haveFinal && now >= j.process.deliveryDeadline {
        RequestChildStop(now);
        Situation();
        AttendedWhenStuck(p, before, now, world.exited);
      } else if !j.process.canceled && !j.down.haveFinal && now >= j.process.deadline {
        Expire(j, now, world);
      } else if j.process.stopping {
        Settle(j, now, world);
        AttendedInTheEnd(p, p, j.process, before, before, j.signals, now, world.exited, old(Matches(j)));
      } else {
        calls := Pump(j, now, world);
        AttendedAlive(p, j.process, calls.input, before, j.signals, now, world.exited);
      }
    }

    /** One pass of the owner loop.  The clock is read once. */
    method Tick(now: int, world: World) returns (calls: Calls)
      requires Valid()
      modifies this`log, this`retired, this`epoch, this`relay, this`next, this`stopRequests, relay, next
      ensures Valid() && Extends(old(log), log) && (relay == old(relay) || relay == old(next))
      ensures old(relay) == null ==> unchanged(this)
      ensures old(relay) != null ==>
                && ClosedBook(old(relay), old(relay.delivered), relay != old(relay))
                && Archived(old(relay)) && (next == old(next) || next == null)
                && (relay != old(relay) && relay != null ==> !relay.overwritten)
                && Halted(old(relay), now) && Dropped(old(relay), old(next), world) && Told(old(relay), old(next), now, world)
                && Moved(old(relay), now, world, calls) && Watches(old(relay), now, world.exited)
      ensures Recorded() && StaysRevoked(old(relay)) && (old(Clean()) ==> Clean())
      ensures log != old(log) ==>
                && old(relay) != null && old(relay).runtime == child && old(relay).runtimeFd == inFd >= 0
                && old(relay).epoch == old(epoch) && (old(relay).resident.Some? ==> old(relay).resident == live)
      ensures old(next) != null ==> unchanged(old(next)`delivered, old(next)`uploaded, old(next)`consumed)
    {
      hide ErrorReceipt, UploadOk, Delivering, ResponseOk, WorkerOk, RevokedOk, Announced, DeliveryOk, ResponseInStep,
           Halted, Told, Moved, Watches, MovedOn;
      calls := Calls(0, false, 0, 0, Silent);
      if relay != null { calls := TickRelay(relay, now, world); }
    }

    lemma CurrentIsOk()
      requires Valid() && relay != null
      ensures !relay.overwritten ==> DeliveryOk(relay.consumed, relay.delivered, relay.failure)
    {
      var j := relay;
      if !j.overwritten { DeliveringOk(j.process.canceled, j.process.stopping, j.down, j.consumed, j.delivered, j.failure); }
    }

    // ----- Admission -----

    /** A relay for the present runtime and a new epoch. */
    method NewRelay(id: int, resident: Option<(int, int)>, encoded: bool, body: bytes, now: int) returns (j: Relay)
      requires Valid() && IsInt32(id) && (encoded ==> body == [])
      requires next == null && (relay != null ==> relay.process.canceled)
      modifies this`epoch
      ensures Valid() && fresh(j) && Idle(j) && epoch == old(epoch) + 1 == j.epoch && (relay == null ==> Before(retired, epoch))
      ensures j.process == Process(-1, false, false, false, false, now + DEADLINE_MS, None, 0)
      ensures j.id == id && j.runtime == child && j.runtimeFd == inFd && j.resident == resident
      ensures j.up == Upload([], 0, body, 0, encoded, [], 0, 0, false) && j.failure == None && j.signals == [] && !j.down.haveFinal
    {
      hide ErrorReceipt, UploadOk, Delivering, ResponseOk;
      epoch := epoch + 1;
      j := new Relay(id, epoch, child, inFd, resident, encoded, body, now);
    }

    /** Put a new relay behind a revoked one, or make it current. */
    method Enqueue(j: Relay, spawn: Spawn, now: int)
      requires Valid() && Idle(j) && j.epoch == epoch && next == null
      requires relay != null ==> relay.process.canceled && relay.epoch < j.epoch && relay != j
      requires relay == null ==> Before(retired, epoch)
      modifies this`relay, this`next, j
      ensures Valid() && !j.overwritten && !j.process.canceled
      ensures if old(relay) == null then relay == j && next == null && Begun(j, spawn)
              else relay == old(relay) && next == j && unchanged(j)
    {
      hide ErrorReceipt, UploadOk, Delivering;
      if relay != null { next := j; } else { Activate(j, spawn, now); }
    }

    /** The runtime is there, a model can be reached, and nothing but a revoked relay is in
        the way. */
    ghost predicate Free()
      reads this, relay
    {
      inFd >= 0 && child > 0 && next == null && (live.Some? || remoteUrl != []) && (relay != null ==> relay.process.canceled)
    }

    /** Admit a model request of the runtime; null when it is refused. */
    method Start(id: int, body: bytes, encoded: bool, now: int, world: World, spawn: Spawn) returns (admitted: Relay?)
      requires Valid() && IsInt32(id) && (encoded ==> body == [])
      modifies this`log, this`retired, this`epoch, this`relay, this`next, this`stopRequests, relay, next
      ensures Valid() && (admitted == null ==> !Free())
      ensures Recorded() && StaysRevoked(old(relay)) && (old(Clean()) ==> Clean())
      ensures NoneButNew(old(relay), old(next))
      ensures admitted != null ==>
                && fresh(admitted) && admitted in {relay, next} && IsNew(admitted, id, now)
                && (relay == admitted || relay.process.canceled)
                && child > 0 && inFd >= 0 && (live.Some? || remoteUrl != [])
                && Accepted(admitted, body, encoded, spawn)
    {
      hide ErrorReceipt, UploadOk, Delivering, ResponseOk, RevokedOk, Announced, DeliveryOk, WorkerOk, ResponseInStep,
           AllOk, InEpochOrder, Before, Written, Idle, ClosedBook, Archived, Halted, Dropped, Told, Moved, Watches,
           Accepted, IsNew;
      var calls := Tick(now, world);
      if inFd < 0 || child <= 0 || next != null || (live.None? && remoteUrl == [])
         || (relay != null && !relay.process.canceled) {
        return null;
      }
      admitted := Admit(id, body, encoded, spawn, now);
    }

    /** A relay of the present epoch, runtime and endpoint, of which nothing was delivered. */
    ghost predicate IsNew(j: Relay, id: int, now: int)
      reads this, j
    {
      && j.id == id && j.epoch == epoch && j.runtime == child && j.runtimeFd == inFd && j.resident == live
      && j.delivered == [] && j.uploaded == [] && j.consumed == [] && j.process.deadline == now + DEADLINE_MS
    }

    /** Why a request fails before any worker is started. */
    function RequestFault(id: int, body: bytes, encoded: bool): Option<bytes>
      reads `live, `localUrl, `remoteUrl, `remoteKey
    {
      if !encoded && !(1 <= |body| <= BodyDecoder.BODY_MAX) then Some(BodyFault())
      else if |Description(id, |body|, encoded)| >= METADATA_SIZE then Some(MetadataFault())
      else None
    }

    /** An admitted request fails at once, is described to the worker that runs for it, or
        waits, described, behind the revoked relay; a local endpoint never sees the remote
        credential. */
    ghost predicate Accepted(j: Relay, body: bytes, encoded: bool, spawn: Spawn)
      reads this, j
    {
      if RequestFault(j.id, body, encoded).Some? then Failed(j, RequestFault(j.id, body, encoded).value)
      else
        && j.up == Upload(j.up.metadata, 0, body, 0, encoded, [], 0, 0, false)
        && j.up.metadata == (if live.Some? then Metadata(j.id, |body|, encoded, localUrl, [], true)
                             else Metadata(j.id, |body|, encoded, remoteUrl, remoteKey, false))
        && if relay != j then j.failure.None? && !j.process.stopping && j.process.worker <= 0
           else if inFd >= 0 && spawn.Started? && spawn.pid > 0 && spawn.ready then
             && j.failure.None? && !j.process.stopping && j.process.worker == spawn.pid
             && j.process.input && j.process.output && j.signals == []
           else Failed(j, SpawnFault())
    }

    method Admit(id: int, body: bytes, encoded: bool, spawn: Spawn, now: int) returns (j: Relay)
      requires Valid() && IsInt32(id) && (encoded ==> body == [])
      requires next == null && (relay != null ==> relay.process.canceled)
      modifies this`epoch, this`relay, this`next
      ensures Valid() && fresh(j) && j in {relay, next} && !j.overwritten
      ensures (relay == old(relay) || relay == j) && (next == null || next == j)
      ensures relay == j || relay.process.canceled
      ensures IsNew(j, id, now) && Accepted(j, body, encoded, spawn)
    {
      hide ErrorReceipt, Before, Idle, Owner.Valid, Relay.Valid, Relay.Sound, RequestFault, Metadata, SpawnFault;
      j := Prepare(id, body, encoded, now);
      Enqueue(j, spawn, now);
    }

    /** A new relay with its request described, or already failed. */
    method Prepare(id: int, body: bytes, encoded: bool, now: int) returns (j: Relay)
      requires Valid() && IsInt32(id) && (encoded ==> body == [])
      requires next == null && (relay != null ==> relay.process.canceled)
      modifies this`epoch
      ensures Valid() && fresh(j) && Idle(j) && epoch == old(epoch) + 1 && IsNew(j, id, now) && j.signals == []
      ensures if relay == null then Before(retired, epoch) else relay.epoch < epoch && relay != j
      ensures match RequestFault(id, body, encoded)
              case Some(reason) => Failed(j, reason)
              case None => j.up == FreshUpload(j, body, encoded) && j.failure.None? && !j.process.stopping && j.process.worker <= 0 && !j.down.haveFinal
    {
      hide ErrorReceipt, Metadata, Relay.Valid, Relay.Sound, AllOk, InEpochOrder, Written, ResponseOk;
      j := NewRelay(id, live, encoded, body, now);
      Describe(j, now);
    }

    /** The description this owner gives the worker. */
    function Description(id: int, size: nat, encoded: bool): bytes
      reads `live, `localUrl, `remoteUrl, `remoteKey
    {
      Metadata(id, size, encoded, if live.Some? then localUrl else remoteUrl, if live.Some? then [] else remoteKey, live.Some?)
    }

    /** A described request of which nothing was sent. */
    ghost function FreshUpload(j: Relay, body: bytes, encoded: bool): Upload
      reads `live, `localUrl, `remoteUrl, `remoteKey
    {
      Upload(Description(j.id, |body|, encoded), 0, body, 0, encoded, [], 0, 0, false)
    }

    /** Metadata for the worker, or an explicit failure of the request. */
    method Describe(j: Relay, now: int)
      requires Idle(j) && !j.process.stopping && j.failure.None?
      requires j.up.metadata == [] && j.up.bodySent == 0 && j.up.stageSent == 0
      modifies j
      ensures Idle(j) && j.process.deadline == old(j.process.deadline) && j.signals == old(j.signals)
      ensures match RequestFault(j.id, old(j.up.body), old(j.up.encoded))
              case Some(reason) => Failed(j, reason)
              case None => j.up == old(j.up).(metadata := Description(j.id, |j.up.body|, j.up.encoded))
                           && j.process == old(j.process) && j.down == old(j.down) && j.failure.None?
    {
      hide ErrorReceipt, Metadata, Relay.Valid, Relay.Sound;
      if !j.up.encoded && (|j.up.body| == 0 || |j.up.body| > BodyDecoder.BODY_MAX) {
        j.FailStreaming(BodyFault(), now);
        return;
      }
      var text := Description(j.id, |j.up.body|, j.up.encoded);
      if |text| < METADATA_SIZE {
        j.SetMetadata(text);
      } else {
        j.FailStreaming(MetadataFault(), now);
      }
    }

    /** The response a start error would fail has not begun its receipt. */
    ghost predicate Replaceable()
      reads this, relay, next
    {
      var j := if next != null then next else relay;
      j != null && !j.process.canceled ==> j.down.finalSent == 0
    }

    /** Report a request that could not be admitted: fail the pending relay, or queue a
        relay that only carries the failure. */
    method SendStartError(id: int, message: bytes, now: int)
      requires Valid() && IsInt32(id) && |message| <= REASON_MAX
      modifies this`epoch, this`relay, this`next, relay, next
      ensures Valid() && StaysRevoked(old(relay)) && NoneButNew(old(relay), old(next))
      ensures old(Clean() && Replaceable()) ==> Clean()
      ensures inFd < 0 ==> unchanged(this) && (relay != null ==> unchanged(relay)) && (next != null ==> unchanged(next))
      ensures var j := old(if next != null then next else relay);
              inFd >= 0 && j != null && !old(j.process.canceled) ==>
                && relay == old(relay) && next == old(next) && epoch == old(epoch)
                && (j.overwritten <==> old(j.overwritten || j.down.finalSent > 0))
                && j.FailedWith(message, now) && j.delivered == old(j.delivered)
      ensures var j := old(if next != null then next else relay);
              inFd >= 0 && (j == null || old(j.process.canceled)) ==>
                && relay != null && (old(relay) != null ==> relay == old(relay) && next != null)
                && (var k := if next != null then next else relay;
                    fresh(k) && k.id == id && k.epoch == epoch && k.runtime == child && k.runtimeFd == inFd && k.resident == None
                    && Failed(k, message))
    {
      hide ErrorReceipt, UploadOk, Delivering, Announced, ResponseOk, DeliveryOk;
      if inFd < 0 { return; }
      var j := if next != null then next else relay;
      if j == null || j.process.canceled {
        j := NewRelay(id, None, false, [], now);
        j.FailStreaming(message, now);
        Enqueue(j, NotStarted, now);
      } else {
        Refail(j, message, now);
      }
    }

    method CanReplace() returns (yes: bool)
      requires Valid()
      ensures yes <==> Replaceable()
    {
      var j := if next != null then next else relay;
      yes := j == null || j.process.canceled || j.down.finalSent == 0;
    }

    /** Fail a relay that is already admitted. */
    method Refail(j: Relay, message: bytes, now: int)
      requires Valid() && (j == relay || j == next) && !j.process.canceled && |message| <= REASON_MAX
      modifies j
      ensures Valid() && (j.overwritten <==> old(j.overwritten || j.down.finalSent > 0))
      ensures j.FailedWith(message, now) && j.delivered == old(j.delivered)
    {
      hide ErrorReceipt, UploadOk;
      if !j.overwritten && j.down.finalSent == 0 {
        UntouchedIsData(j.process.stopping, j.down, j.consumed, j.delivered, j.failure);
      }
      j.Fail(message, now);
    }

    /** The runtime, its pipe and the local endpoint may change between passes; the fence
        then revokes the relay at the next pass. */
    method RuntimeChanged(child: int, inFd: int, live: Option<(int, int)>)
      requires Valid()
      modifies this`child, this`inFd, this`live
      ensures Valid() && this.child == child && this.inFd == inFd && this.live == live
      ensures old(Clean()) ==> Clean()
    {
      this.child, this.inFd, this.live := child, inFd, live;
    }

    /** The relay an epoch of request input still belongs to. */
    function InputOwner(inputEpoch: nat): Relay?
      reads this, relay, next
    {
      var j := if next != null then next else relay;
      if j != null && j.epoch == inputEpoch && Matches(j) && j.up.encoded
         && !j.process.canceled && !j.process.stopping && !j.up.complete then j else null
    }

    /** Room for request input; None once it was revoked, and then it is discarded. */
    function InputRoom(inputEpoch: nat): Option<nat>
      reads this, relay, next
      requires Valid()
    {
      var j := InputOwner(inputEpoch);
      if j == null then None else Some(j.up.Room())
    }

    /** Take request input from the runtime; `count` bytes are used up. */
    method InputAppend(inputEpoch: nat, data: bytes, now: int) returns (count: nat)
      requires Valid()
      modifies relay, next
      ensures Valid() && count <= |data| && StaysRevoked(old(relay)) && (old(Clean()) ==> Clean())
      ensures var j := old(if next != null then next else relay);
              if j != null && j.epoch == inputEpoch && old(Matches(j) && j.up.encoded && !j.process.canceled && !j.process.stopping && !j.up.complete) then
                && (var room := if old(|j.up.stage| == j.up.stageSent) then STAGE_SIZE else STAGE_SIZE - old(|j.up.stage|);
                    count == if |data| < room then |data| else room)
                && j.delivered == old(j.delivered) && j.uploaded == old(j.uploaded)
                && if |old(j.admitted)| + count > BodyDecoder.WIRE_MAX then j.FailedWith(WireFault(), now)
                   else
                     && j.admitted == old(j.admitted) + data[..count] && j.process == old(j.process)
                     && (j.up.complete <==> count > 0 && data[count - 1] == NEWLINE)
              else count == |data| && (relay != null ==> unchanged(relay)) && (next != null ==> unchanged(next))
      ensures relay != null && relay != old(if next != null then next else relay) ==> unchanged(relay)
    {
      hide ErrorReceipt, Delivering, AllOk, InEpochOrder, Before, Written, ResponseOk, Announced, DeliveryOk;
      var j := InputOwner(inputEpoch);
      if j == null { return |data|; }
      count := |data|;
      if count > j.up.Room() { count := j.up.Room(); }
      if count > BodyDecoder.WIRE_MAX - j.up.wireBytes {
        j.FailStreaming(WireFault(), now);
      } else {
        j.Stage(data[..count]);
      }
    }
  }

  // ----- Runs -----

  /** A receipt is told to a runtime that takes some of it in every pass: within as many passes
      as it has bytes left it is in the pipe whole, and the relay is gone. */
  method Announce(o: Owner, now: int, worlds: seq<World>) returns (passes: nat)
    requires o.Valid() && o.relay != null && o.Matches(o.relay) && !o.relay.process.canceled && o.relay.down.haveFinal
    requires o.relay.process.worker <= 0 && now < o.relay.process.deliveryDeadline
    requires |worlds| >= |o.relay.down.final| - o.relay.down.finalSent
    requires forall i :: 0 <= i < |worlds| ==> Accepts(AnswerAt(worlds[i].toRuntime, 0))
    modifies o, o.relay
    ensures o.Valid() && o.relay == null && passes <= old(|o.relay.down.final| - o.relay.down.finalSent)
    ensures o.log == old(o.log) + old(o.relay.down.final[o.relay.down.finalSent..])
    ensures |o.retired| == |old(o.retired)| + 1 && o.retired[..|old(o.retired)|] == old(o.retired)
    ensures o.retired[|old(o.retired)|] == o.ResponseOf(old(o.relay))
  {
    hide ErrorReceipt, Parse, DeliveryOk, Owner.Valid, Relay.Valid, Relay.Sound, Owner.Begun, Owner.Clean,
         Owner.Recorded, Owner.StaysRevoked, Owner.Halted, Owner.Dropped, Owner.Moved, Owner.ClosedBook, Owner.Archived;
    var j := o.relay;
    o.Situation();
    ghost var receipt, first := j.down.final, j.down.finalSent;
    passes := 0;
    while o.relay != null
      invariant o.Valid() && (o.relay == null || o.relay == j) && o.next == null
      invariant o.relay == j ==>
                  && o.Matches(j) && !j.process.canceled && j.down.haveFinal && j.down.final == receipt
                  && j.process.worker <= 0 && now < j.process.deliveryDeadline
                  && passes <= j.down.finalSent - first && first <= j.down.finalSent < |receipt|
                  && o.log == old(o.log) + receipt[first..j.down.finalSent] && o.retired == old(o.retired)
      invariant o.relay == null ==>
                  && passes <= |receipt| - first && o.log == old(o.log) + receipt[first..]
                  && o.retired == old(o.retired) + [o.ResponseOf(j)]
      decreases if o.relay == null then 0 else 1 + |receipt| - j.down.finalSent
    {
      ghost var sent := j.down.finalSent;
      ghost var log := o.log;
      var calls := o.Tick(now, worlds[passes]);
      passes := passes + 1;
    }
  }

  datatype Request =
    | TickRequest(now: int, world: World)
    | StartRequest(id: int, body: bytes, encoded: bool, now: int, world: World, spawn: Spawn)
    | InputRequest(epoch: nat, data: bytes, now: int)
    | StartErrorRequest(id: int, message: bytes, now: int)
    | CancelRequest(now: int)
    | StopRequest(now: int)
    | RuntimeRequest(child: int, inFd: int, live: Option<(int, int)>)

  method NextRequest() returns (request: Request) { request := *; }

  method ServeStartError(o: Owner, id: int, message: bytes, now: int, careful: bool)
    requires o.Valid() && IsInt32(id) && |message| <= REASON_MAX
    modifies o, o.relay, o.next
    ensures o.Valid() && o.Recorded() && o.NoneButNew(old(o.relay), old(o.next)) && o.StaysRevoked(old(o.relay))
    ensures careful && old(o.Clean()) ==> o.Clean()
  {
    hide ErrorReceipt, Owner.Valid, Relay.Valid, Relay.Sound, Owner.Failed, Relay.FailedWith, Relay.RevokedNow,
         Owner.InputOwner, Owner.InputRoom, Owner.Clean, Owner.Replaceable, Owner.Matches, Owner.ClosedBook,
         Owner.Archived, Owner.Halted, Owner.Dropped, Owner.Told, Owner.Moved, Owner.Watches, Owner.Accepted,
         Owner.IsNew;
    var safe := o.CanReplace();
    if safe || !careful { o.SendStartError(id, message, now); }
  }

  /** A request that is not a pass of the owner. */
  method ServeOther(o: Owner, request: Request, careful: bool)
    requires o.Valid() && !request.TickRequest? && !request.StartRequest?
    modifies o, o.relay, o.next
    ensures o.Valid() && o.Recorded() && o.NoneButNew(old(o.relay), old(o.next)) && o.StaysRevoked(old(o.relay))
    ensures careful && old(o.Clean()) ==> o.Clean()
  {
    hide ErrorReceipt, Owner.Valid, Relay.Valid, Relay.Sound, Owner.Failed, Relay.FailedWith, Relay.RevokedNow,
         Owner.InputOwner, Owner.InputRoom, Owner.Clean, Owner.Replaceable, Owner.Matches, Owner.ClosedBook,
         Owner.Archived, Owner.Halted, Owner.Dropped, Owner.Told, Owner.Moved, Owner.Watches, Owner.Accepted,
         Owner.IsNew;
    match request {
      case InputRequest(epoch, data, now) =>
        var count := o.InputAppend(epoch, data, now);
      case StartErrorRequest(id, message, now) =>
        if IsInt32(id) && |message| <= REASON_MAX { ServeStartError(o, id, message, now, careful); }
      case CancelRequest(now) =>
        o.Cancel(now);
      case StopRequest(now) =>
        o.RequestChildStop(now);
      case RuntimeRequest(child, inFd, live) =>
        o.RuntimeChanged(child, inFd, live);
    }
  }

  method Serve(o: Owner, request: Request, careful: bool)
    requires o.Valid()
    modifies o, o.relay, o.next
    ensures o.Valid() && o.Recorded() && o.NoneButNew(old(o.relay), old(o.next)) && o.StaysRevoked(old(o.relay))
    ensures careful && old(o.Clean()) ==> o.Clean()
  {
    hide ErrorReceipt, Owner.Valid, Relay.Valid, Relay.Sound, Owner.Failed, Relay.FailedWith, Relay.RevokedNow,
         Owner.InputOwner, Owner.InputRoom, Owner.Clean, Owner.Replaceable, Owner.Matches, Owner.ClosedBook,
         Owner.Archived, Owner.Halted, Owner.Dropped, Owner.Told, Owner.Moved, Owner.Watches, Owner.Accepted,
         Owner.IsNew;
    match request {
      case TickRequest(now, world) =>
        var calls := o.Tick(now, world);
      case StartRequest(id, body, encoded, now, world, spawn) =>
        if IsInt32(id) && (encoded ==> body == []) { var admitted := o.Start(id, body, encoded, now, world, spawn); }
      case other =>
        ServeOther(o, other, careful);
    }
  }

  /** Any run of passes, requests, input, cancellations and changes of the runtime.  The pipe
      and the list of finished responses only grow; a relay revoked at any time forwards
      nothing more; and if no start error hits a receipt already begun, none is overwritten. */
  method Run(o: Owner, steps: nat, careful: bool)
    requires o.Valid()
    modifies o, o.relay, o.next
    ensures o.Valid() && o.Recorded() && o.StaysRevoked(old(o.relay))
    ensures careful && old(o.Clean()) ==> o.Clean()
  {
    hide ErrorReceipt, Owner.Valid, Relay.Valid, Relay.Sound, Owner.Clean;
    for i := 0 to steps
      invariant o.Valid() && o.Recorded() && o.NoneButNew(old(o.relay), old(o.next)) && o.StaysRevoked(old(o.relay))
      invariant careful && old(o.Clean()) ==> o.Clean()
    {
      var request := NextRequest();
      o.QueuedIsLive();
      Serve(o, request, careful);
    }
  }

  // ----- What a receipt looks like -----

  ghost predicate StandsAt(whole: bytes, part: bytes, at: nat) {
    at + |part| <= |whole| && whole[at..at + |part|] == part
  }

  lemma {:induction false} EscapeInside(s: bytes)
    ensures Inside(WireString.Escape(s))
  {
    if s != [] { EscapeInside(s[1..]); }
  }

  lemma JoinInside(a: bytes, b: bytes)
    requires Inside(a) && Inside(b)
    ensures Inside(a + b)
  {
  }

  /** A failure receipt is one record after a newline: its mark stands at 1 only, and its
      newlines are its first and last byte. */
  lemma ReceiptShape(id: int, reason: bytes)
    ensures var f := ErrorReceipt(id, reason);
            forall i :: 0 <= i < |f| ==>
              && (f[i] == RECORD_MARK <==> i == 1)
              && (f[i] == NEWLINE <==> i == 0 || i == |f| - 1)
  {
    var a, b, c, d, e := Ascii(",\"id\":"), SignedDecimal(id), Ascii(",\"error\":\""), WireString.Escape(reason), Ascii("\"}");
    EscapeInside(reason);
    assert Inside(b);
    assert Inside(a) && Inside(c) && Inside(e);
    hide ErrorHead, Ascii, SignedDecimal, WireString.Escape;
    JoinInside(a, b);
    JoinInside(a + b, c);
    JoinInside(a + b + c, d);
    JoinInside(a + b + c + d, e);
    var f, head, middle := ErrorReceipt(id, reason), ErrorHead(), a + b + c + d + e;
    assert f == head + middle + [NEWLINE];
    forall i | 2 <= i < |f| - 1 ensures f[i] >= 0x20 {
      if i < |head| { assert f[i] == head[2..][i - 2]; } else { assert f[i] == middle[i - |head|]; }
    }
  }

  lemma StandsInPrefix(short: bytes, long: bytes, part: bytes, at: nat)
    requires short <= long && StandsAt(short, part, at)
    ensures StandsAt(long, part, at)
  {
    assert long[at..at + |part|] == short[at..at + |part|];
  }

  /** A success receipt cannot begin in a failure receipt, nor reach into it. */
  lemma NoSuccessInFailure(front: bytes, id: int, reason: bytes, k: nat, at: nat)
    requires k <= |ErrorReceipt(id, reason)|
    requires StandsAt(front + ErrorReceipt(id, reason)[..k], DoneHead(), at)
    ensures at + |DoneHead()| <= |front|
  {
    var f, h := ErrorReceipt(id, reason), DoneHead();
    ReceiptShape(id, reason);
    assert f[17] == ErrorHead()[17];
    hide ErrorReceipt, DoneHead, ErrorHead;
    NotAcross(front, f, k, h, at);
    NotInside(front, f, k, h, at);
  }

  lemma NotAcross(front: bytes, f: bytes, k: nat, h: bytes, at: nat)
    requires k <= |f| && StandsAt(front + f[..k], h, at)
    requires h != [] && Inside(h[1..]) && (f != [] ==> f[0] == NEWLINE)
    ensures !(at < |front| < at + |h|)
  {
    var whole := front + f[..k];
    assert forall i :: 0 <= i < |h| ==> whole[at + i] == whole[at..at + |h|][i] == h[i];
    assert forall i :: 0 < i < |h| ==> h[i] == h[1..][i - 1] >= 0x20;
    assert |front| < |whole| ==> whole[|front|] == f[0];
    assert forall j :: at < j < at + |h| ==> whole[j] == h[j - at] >= 0x20;
  }

  lemma NotInside(front: bytes, f: bytes, k: nat, h: bytes, at: nat)
    requires k <= |f| && StandsAt(front + f[..k], h, at)
    requires |h| > 16 && h[0] == RECORD_MARK && h[16] == 0x64 && (|f| > 17 ==> f[17] == 0x65)
    requires forall i :: 0 <= i < |f| ==> (f[i] == RECORD_MARK <==> i == 1)
    ensures at < |front|
  {
    var whole := front + f[..k];
    assert whole[at] == whole[at..at + |h|][0] == h[0];
    assert whole[at + 16] == whole[at..at + |h|][16] == h[16];
    assert forall i :: |front| <= i < |whole| ==> whole[i] == f[i - |front|];
  }

  /** An owner failure adds one failure receipt after delivered payload bytes, and a success
      receipt in what the runtime got is the worker's own data. */
  lemma FailureIsNeverSuccess(payloads: seq<bytes>, receipt: bytes, n: nat, delivered: bytes, id: int, reason: bytes)
    requires forall i :: 0 <= i < |payloads| ==> 0 < |payloads[i]| <= FRAME_MAX
    requires 0 < |receipt| <= FINAL_SIZE
    requires n < |Output(payloads, receipt)|
    requires DeliveryOk(Output(payloads, receipt)[..n], delivered, Some(ErrorReceipt(id, reason)))
    ensures delivered <= Payload(payloads)
            || exists front, k :: front <= Payload(payloads) && Appended(delivered, front, ErrorReceipt(id, reason), k)
    ensures forall at: nat :: StandsAt(delivered, DoneHead(), at) ==> StandsAt(Payload(payloads), DoneHead(), at)
  {
    FailureFollowsData(payloads, receipt, n, delivered, ErrorReceipt(id, reason));
    hide ErrorReceipt, DoneHead;
    forall at: nat | StandsAt(delivered, DoneHead(), at) ensures StandsAt(Payload(payloads), DoneHead(), at) {
      if delivered <= Payload(payloads) {
        StandsInPrefix(delivered, Payload(payloads), DoneHead(), at);
      } else {
        var front, k :| front <= Payload(payloads) && Appended(delivered, front, ErrorReceipt(id, reason), k);
        NoSuccessInFailure(front, id, reason, k, at);
        assert front[at..at + |DoneHead()|] == delivered[at..at + |DoneHead()|];
        StandsInPrefix(front, Payload(payloads), DoneHead(), at);
      }
    }
  }

  // ----- Replacing a response that was begun -----

  /** What the worker said in full: its data, and its receipt if that came. */
  ghost function Spoken(consumed: bytes): bytes {
    match Parse(consumed)
    case Terminal(data, receipt) => data + receipt
    case other => other.data
  }

  /** The runtime holds `before`, and a failure receipt is written from there.  From its
      record mark on, for every number of bytes written, the delivery is correct exactly when
      nothing but data was written before, or the worker itself had said the same. */
  lemma ReplacingIsCleanExactly(consumed: bytes, before: bytes, id: int, reason: bytes, m: nat)
    requires 2 <= m <= |ErrorReceipt(id, reason)|
    ensures var f := ErrorReceipt(id, reason);
            DeliveryOk(consumed, before + f[..m], Some(f))
            <==> before <= Parse(consumed).data || before + f[..m] <= Spoken(consumed)
  {
    var f := ErrorReceipt(id, reason);
    var delivered := before + f[..m];
    if before <= Parse(consumed).data {
      assert Appended(delivered, before, f, m);
    } else if delivered <= Spoken(consumed) {
      SpokenIsDelivery(consumed, delivered);
    }
    forall front, k: nat | front <= Parse(consumed).data && Appended(delivered, front, f, k)
      ensures before <= Parse(consumed).data
    {
      MarkFixesFront(before, front, id, reason, m, k);
    }
    if Parse(consumed).Terminal? {
      forall k: nat | Appended(delivered, Parse(consumed).data, Parse(consumed).receipt, k)
        ensures delivered <= Spoken(consumed)
      {
        assert Parse(consumed).receipt == Parse(consumed).receipt[..k] + Parse(consumed).receipt[k..];
        Associate(Parse(consumed).data, Parse(consumed).receipt[..k], Parse(consumed).receipt[k..]);
      }
    }
  }

  lemma SpokenIsDelivery(consumed: bytes, delivered: bytes)
    requires delivered <= Spoken(consumed)
    ensures delivered <= Parse(consumed).data
            || (Parse(consumed).Terminal? && exists k :: Appended(delivered, Parse(consumed).data, Parse(consumed).receipt, k))
  {
    var s := Parse(consumed);
    if s.Terminal? && |delivered| > |s.data| {
      assert Appended(delivered, s.data, s.receipt, |delivered| - |s.data|);
    }
  }

  /** The record mark of a receipt shows where it was begun. */
  lemma MarkFixesFront(before: bytes, front: bytes, id: int, reason: bytes, m: nat, k: nat)
    requires 2 <= m <= |ErrorReceipt(id, reason)|
    requires Appended(before + ErrorReceipt(id, reason)[..m], front, ErrorReceipt(id, reason), k)
    ensures before <= front
  {
    var f := ErrorReceipt(id, reason);
    var whole := before + f[..m];
    ReceiptShape(id, reason);
    hide ErrorReceipt;
    assert whole == front + f[..k];
    assert whole[|before| + 1] == f[1] == RECORD_MARK;
    assert forall i :: |front| <= i < |whole| ==> whole[i] == f[i - |front|];
    if |front| < |before| {
      assert false;
    }
    assert before == whole[..|before|] == front[..|before|];
  }

  /** The receipt that ends a worker run: one record, so its only newline is the last byte. */
  ghost predicate OneRecord(receipt: bytes) {
    |receipt| > 0 && forall i :: 0 <= i < |receipt| ==> (receipt[i] == NEWLINE <==> i == |receipt| - 1)
  }

  lemma PieceAgrees(data: bytes, receipt: bytes, k: nat, piece: bytes)
    requires k <= |receipt| && data + receipt[..k] + piece <= data + receipt
    ensures k + |piece| <= |receipt| && forall i :: 0 <= i < |piece| ==> receipt[k + i] == piece[i]
  {
    forall i | 0 <= i < |piece| ensures receipt[k + i] == piece[i] {
      assert (data + receipt)[|data| + k + i] == (data + receipt[..k] + piece)[|data| + k + i];
    }
  }

  /** Replacing a worker's receipt of which `k` bytes were written is clean exactly when k is
      0: the guard a caller of the failure can check. */
  lemma ReplacingIsCleanExactlyWhenUntouched(consumed: bytes, k: nat, id: int, reason: bytes, m: nat)
    requires Parse(consumed).Terminal? && OneRecord(Parse(consumed).receipt) && k < |Parse(consumed).receipt|
    requires 2 <= m <= |ErrorReceipt(id, reason)|
    ensures var f := ErrorReceipt(id, reason);
            DeliveryOk(consumed, Parse(consumed).data + Parse(consumed).receipt[..k] + f[..m], Some(f)) <==> k == 0
  {
    var data, receipt, f := Parse(consumed).data, Parse(consumed).receipt, ErrorReceipt(id, reason);
    var before := data + receipt[..k];
    ReplacingIsCleanExactly(consumed, before, id, reason, m);
    hide ErrorReceipt;
    if k == 0 {
      assert before == data;
    } else if before + f[..m] <= data + receipt {
      PieceAgrees(data, receipt, k, f[..m]);
      assert false;
    }
  }

  lemma HeadStands(front: bytes, rest: bytes, head: bytes, k: nat)
    requires head <= rest && |head| <= k <= |rest|
    ensures StandsAt(front + rest[..k], head, |front|)
  {
    assert (front + rest[..k])[|front|..|front| + |head|] == rest[..|head|];
  }

  /** The same for a failure receipt of which `k` bytes were written: clean when k is 0, and
      not clean once its head is out, whatever the two reasons are, if the worker itself never
      said such a head.  In between it depends on what the worker said. */
  lemma ReplacingBegunFailureIsNotClean(consumed: bytes, front: bytes, id: int, first: bytes, reason: bytes, k: nat, m: nat)
    requires front <= Parse(consumed).data && (forall at: nat :: !StandsAt(Spoken(consumed), ErrorHead(), at))
    requires k <= |ErrorReceipt(id, first)| && 2 <= m <= |ErrorReceipt(id, reason)|
    ensures var f := ErrorReceipt(id, reason);
            var clean := DeliveryOk(consumed, front + ErrorReceipt(id, first)[..k] + f[..m], Some(f));
            (k == 0 ==> clean) && (k >= |ErrorHead()| ==> !clean)
  {
    var f, old' := ErrorReceipt(id, reason), ErrorReceipt(id, first);
    var before := front + old'[..k];
    ReplacingIsCleanExactly(consumed, before, id, reason, m);
    hide ErrorReceipt, ErrorHead;
    if k == 0 {
      assert before == front;
    } else if k >= |ErrorHead()| {
      HeadStands(front, old', ErrorHead(), k);
      if before <= Parse(consumed).data {
        assert Parse(consumed).data <= Spoken(consumed);
        StandsInPrefix(before, Spoken(consumed), ErrorHead(), |front|);
      } else if before + f[..m] <= Spoken(consumed) {
        assert before <= before + f[..m];
        StandsInPrefix(before, Spoken(consumed), ErrorHead(), |front|);
      }
    }
  }

  /** The one-line description of a request that precedes its body. */
  function Metadata(id: int, size: nat, encoded: bool, url: bytes, key: bytes, local: bool): bytes {
    Ascii("{\"id\":") + SignedDecimal(id) + Ascii(",\"bytes\":") + Decimal(size)
    + Ascii(",\"encoded\":") + Decimal(if encoded then 1 else 0)
    + Ascii(",\"url\":\"") + WireString.Escape(url) + Ascii("\",\"key\":\"") + WireString.Escape(key)
    + Ascii("\",\"expectedModel\":\"") + (if local then Ascii("qwen3.8-27b") else []) + Ascii("\"}\n")
  }
}
