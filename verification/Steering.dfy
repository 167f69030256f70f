/** Steering a running turn: the browser posts inputs, the inference runtime pulls them one
    at a time and acknowledges each after appending it to the conversation.

    Requests may be lost, repeated or reordered.  Still every input is handed out at most
    once, the echoed transcript is exactly the applied inputs in order of admission, and a
    turn closes only when nothing admitted is left. */
module Steering {
  import opened Prelude
  import Frames

  const OUTSTANDING_MAX: nat := 16
  const TOTAL_MAX: nat := 128
  const ID_MAX: nat := 64
  const TEXT_MAX: nat := 16384

  datatype State = Pending | Delivered | Applied

  datatype Input = Input(id: bytes, text: bytes, state: State)

  /** A transcript line. */
  datatype Echo = Echo(turn: nat, id: bytes, text: bytes)

  function Echoes(turn: nat, s: seq<Input>): (r: seq<Echo>)
    ensures |r| == |s| && forall i :: 0 <= i < |s| ==> r[i] == Echo(turn, s[i].id, s[i].text)
  {
    seq(|s|, i requires 0 <= i < |s| => Echo(turn, s[i].id, s[i].text))
  }

  predicate Has(s: seq<Input>, id: bytes) {
    exists i :: 0 <= i < |s| && s[i].id == id
  }

  /** `applied` inputs, then at most one that is delivered, then pending ones. */
  ghost predicate InOrder(s: seq<Input>, applied: nat, inFlight: bool) {
    && applied + (if inFlight then 1 else 0) <= |s|
    && (forall i :: 0 <= i < applied ==> s[i].state == Applied)
    && (inFlight ==> s[applied].state == Delivered)
    && (forall i :: applied + (if inFlight then 1 else 0) <= i < |s| ==> s[i].state == Pending)
  }

  ghost predicate Distinct(s: seq<Input>) {
    forall i, j :: 0 <= i < j < |s| ==> s[i].id != s[j].id
  }

  /** The indices 0, 1, ..., n - 1. */
  function UpTo(n: nat): (r: seq<nat>)
    ensures |r| == n && forall i :: 0 <= i < n ==> r[i] == i
  {
    seq(n, i => i)
  }

  /** The serial numbers first, first + 1, ... of `n` inputs. */
  function Serials(first: nat, n: nat): (r: seq<nat>)
    ensures |r| == n && forall i :: 0 <= i < n ==> r[i] == first + i
  {
    seq(n, i => first + i)
  }

  ghost predicate Increasing(s: seq<nat>) { forall i, j :: 0 <= i < j < |s| ==> s[i] < s[j] }

  /** The lines are the admitted inputs with these serial numbers, each number once and in
      order, and each was handed out, also once and in order. */
  ghost predicate Faithful(admitted: seq<Echo>, handed: seq<nat>, echoed: seq<nat>, lines: seq<Echo>) {
    && Increasing(handed) && (forall k :: 0 <= k < |handed| ==> handed[k] < |admitted|)
    && Increasing(echoed) && (forall k :: 0 <= k < |echoed| ==> echoed[k] in handed)
    && |lines| == |echoed| && (forall k :: 0 <= k < |echoed| ==> echoed[k] < |admitted| && lines[k] == admitted[echoed[k]])
  }

  /** One more turn: all inputs `more`, the first `given` of them handed out, the first
      `done` echoed. */
  lemma TurnAdded(admitted: seq<Echo>, handed: seq<nat>, echoed: seq<nat>, lines: seq<Echo>, more: seq<Echo>, given: nat, done: nat)
    requires Faithful(admitted, handed, echoed, lines) && done <= given <= |more|
    ensures Faithful(admitted + more, handed + Serials(|admitted|, given), echoed + Serials(|admitted|, done), lines + more[..done])
  {
    var first, all := |admitted|, handed + Serials(|admitted|, given);
    var ech := echoed + Serials(first, done);
    forall k | 0 <= k < |ech| ensures ech[k] in all && ech[k] < |admitted + more| && (lines + more[..done])[k] == (admitted + more)[ech[k]] {
      if k < |echoed| {
        assert echoed[k] in handed;
      } else {
        assert all[|handed| + k - |echoed|] == ech[k];
      }
    }
    assert forall k :: 0 <= k < |handed| ==> handed[k] < first;
    assert forall k :: 0 <= k < |echoed| ==> echoed[k] < first;
  }

  function Outstanding(s: seq<Input>): nat {
    if s == [] then 0 else Outstanding(s[..|s| - 1]) + if s[|s| - 1].state == Applied then 0 else 1
  }

  lemma {:induction false} OutstandingInOrder(s: seq<Input>, applied: nat, inFlight: bool)
    requires InOrder(s, applied, inFlight)
    ensures Outstanding(s) == |s| - applied
  {
    if s != [] {
      var last := |s| - 1;
      if applied == |s| {
        OutstandingInOrder(s[..last], last, false);
      } else if inFlight && applied == last {
        OutstandingInOrder(s[..last], applied, false);
      } else {
        OutstandingInOrder(s[..last], applied, inFlight);
      }
    }
  }

  datatype PostReply = BadRequest | NoSuchTurn | OtherText | TurnClosed | TooMany | NoMemory | Repeated | Admitted

  datatype PullReply =
    | Forbidden | Inactive | Stale | BadAck | Unconfirmed | Turn(turn: nat) | Handed(number: nat, text: bytes) | Nothing | OutOfMemory

  lemma NothingYet(admitted: seq<Echo>, serials: seq<nat>, lines: seq<Echo>, turn: nat, none: seq<Input>)
    requires none == []
    ensures Echoes(turn, none) == [] && admitted + [] == admitted && lines + [] == lines
    ensures serials + Serials(|admitted|, 0) == serials && UpTo(0) == []
    ensures InOrder(none, 0, false) && Distinct(none)
  {
  }

  class Desk {
    const inputs: array<Input>
    var key: Option<nat>
    var turn: nat
    var open: bool
    var count: nat

    // the host's view of the current turn
    var activeTurn: nat
    var interrupted: bool
    var piped: bool
    var child: bool
    var working: bool
    var transcript: seq<Echo>

    // the inputs admitted before this turn, which of them were handed out and which echoed,
    // and the transcript they make
    ghost var earlier: seq<Echo>
    ghost var handedBefore: seq<nat>
    ghost var echoedBefore: seq<nat>
    ghost var past: seq<Echo>
    // how far this turn has come
    ghost var applied: nat
    ghost var inFlight: bool
    ghost var handed: seq<nat>

    function Contents(): seq<Input>
      requires count <= inputs.Length
      reads this, inputs
    {
      inputs[..count]
    }

    /** Every input ever admitted, in order; the place in it is the input's serial number. */
    ghost function Admissions(): seq<Echo>
      requires count <= inputs.Length
      reads this, inputs
    {
      earlier + Echoes(turn, Contents())
    }

    /** The serial numbers of all inputs handed out, in order, and of those echoed. */
    ghost function HandOuts(): seq<nat>
      reads this
    {
      handedBefore + Serials(|earlier|, |handed|)
    }

    ghost function Echoed(): seq<nat>
      reads this
    {
      echoedBefore + Serials(|earlier|, applied)
    }

    ghost predicate Valid()
      reads this, inputs
    {
      && Faithful(earlier, handedBefore, echoedBefore, past)
      && inputs.Length == TOTAL_MAX && count <= TOTAL_MAX
      && InOrder(Contents(), applied, inFlight) && Distinct(Contents())
      && count - applied <= OUTSTANDING_MAX
      && (forall i :: 0 <= i < count ==> 0 < |inputs[i].text| <= TEXT_MAX && |inputs[i].id| <= ID_MAX)
      && (!open ==> applied == count)
      && (turn == 0 ==> count == 0 && !open)
      && handed == UpTo(applied + if inFlight then 1 else 0)
      && transcript == past + Echoes(turn, Contents()[..applied])
    }

    constructor ()
      ensures Valid() && fresh(inputs) && transcript == [] && turn == 0
    {
      inputs := new Input[TOTAL_MAX](_ => Input([], [], Pending));
      key, turn, open, count := None, 0, false, 0;
      activeTurn, interrupted, piped, child, working := 0, false, false, false, false;
      transcript, past, applied, inFlight, handed := [], [], 0, false, [];
      earlier, handedBefore, echoedBefore := [], [], [];
    }

    /** Over all turns: nothing is handed out twice or out of order, and the transcript is the
        confirmed inputs, each once, in order of admission. */
    lemma EverythingOnce()
      requires Valid()
      ensures Faithful(Admissions(), HandOuts(), Echoed(), transcript)
    {
      TurnAdded(earlier, handedBefore, echoedBefore, past, Echoes(turn, Contents()), |handed|, applied);
      assert Echoes(turn, Contents())[..applied] == Echoes(turn, Contents()[..applied]);
    }

    /** The turn is over: its inputs join the earlier ones. */
    method CloseBooks(newTurn: nat, nowOpen: bool)
      requires Valid() && (newTurn == 0 ==> !nowOpen)
      modifies this`earlier, this`handedBefore, this`echoedBefore, this`past, this`applied, this`inFlight, this`handed,
               this`count, this`turn, this`open
      ensures Valid() && Contents() == [] && handed == [] && turn == newTurn && open == nowOpen
      ensures Admissions() == old(Admissions()) && HandOuts() == old(HandOuts()) && Echoed() == old(Echoed())
    {
      hide Faithful, Echoes, Serials, InOrder, Distinct, UpTo;
      EverythingOnce();
      earlier, handedBefore, echoedBefore := Admissions(), HandOuts(), Echoed();
      count, turn, open := 0, newTurn, nowOpen;
      past, applied, inFlight, handed := transcript, 0, false, [];
      NothingYet(earlier, handedBefore, transcript, turn, Contents());
      NothingYet(earlier, echoedBefore, transcript, turn, Contents()[..applied]);
    }

    predicate Active()
      reads this
    {
      turn != 0 && turn == activeTurn && piped && child && working && !interrupted
    }

    ghost predicate Unchanged(c: seq<Input>, t: seq<Echo>, h: seq<nat>, o: bool)
      requires count <= inputs.Length
      reads this, inputs
    {
      Contents() == c && transcript == t && handed == h && open == o
    }

    /** A new runtime starts: whatever was not applied is dropped, never replayed. */
    method Prepare(newKey: Option<nat>)
      requires Valid()
      modifies this
      ensures Valid() && transcript == old(transcript) && Contents() == [] && !open && handed == [] && turn == 0
      ensures Admissions() == old(Admissions()) && HandOuts() == old(HandOuts()) && Echoed() == old(Echoed())
    {
      CloseBooks(0, false);
      key := newKey;
    }

    /** A posted input.  It is admitted once; repeating the request adds nothing. */
    method Post(wellFormed: bool, expectedTurn: bytes, id: bytes, text: bytes, memory: bool) returns (r: PostReply)
      requires Valid()
      modifies this`count, inputs
      ensures Valid()
      ensures r.BadRequest? <==> !wellFormed || text == [] || |text| > TEXT_MAX || |id| > ID_MAX
      ensures !r.BadRequest? ==>
                r == if expectedTurn != Frames.Decimal(turn) || turn == 0 || turn != activeTurn || !piped || !child || !working || interrupted
                     then NoSuchTurn
                     else if Has(old(Contents()), id) then
                       if exists i :: 0 <= i < old(count) && old(Contents())[i].id == id && old(Contents())[i].text == text
                       then Repeated else OtherText
                     else if !open then TurnClosed
                     else if Outstanding(old(Contents())) >= OUTSTANDING_MAX || old(count) == TOTAL_MAX then TooMany
                     else if !memory then NoMemory else Admitted
      ensures Contents() == if r.Admitted? then old(Contents()) + [Input(id, text, Pending)] else old(Contents())
      ensures Admissions() == old(Admissions()) + if r.Admitted? then [Echo(turn, id, text)] else []
    {
      hide Faithful, Serials, InOrder, Outstanding, Frames.Decimal;
      if !wellFormed || text == [] || |text| > TEXT_MAX || |id| > ID_MAX { return BadRequest; }
      if expectedTurn != Frames.Decimal(turn) || !Active() { return NoSuchTurn; }
      for i := 0 to count
        invariant Valid() && forall j :: 0 <= j < i ==> inputs[j].id != id
      {
        if inputs[i].id == id {
          assert Contents()[i].id == id;
          assert forall j :: 0 <= j < count && Contents()[j].id == id ==> j == i;
          if inputs[i].text != text { return OtherText; }
          return Repeated;
        }
      }
      assert !Has(Contents(), id);
      if !open { return TurnClosed; }
      var pending := CountOutstanding();
      OutstandingInOrder(Contents(), applied, inFlight);
      if pending >= OUTSTANDING_MAX || count == TOTAL_MAX { return TooMany; }
      if !memory { return NoMemory; }
      Append(Input(id, text, Pending));
      return Admitted;
    }

    method CountOutstanding() returns (pending: nat)
      requires Valid()
      ensures pending == Outstanding(Contents())
    {
      pending := 0;
      for i := 0 to count
        invariant pending == Outstanding(inputs[..i])
      {
        assert inputs[..i + 1][..i] == inputs[..i];
        if inputs[i].state != Applied { pending := pending + 1; }
      }
    }

    method Append(input: Input)
      requires Valid() && open && turn != 0 && count < TOTAL_MAX && count - applied < OUTSTANDING_MAX
      requires input.state == Pending && !Has(Contents(), input.id) && 0 < |input.text| <= TEXT_MAX && |input.id| <= ID_MAX
      modifies this`count, inputs
      ensures Valid() && Contents() == old(Contents()) + [input]
    {
      hide Faithful;
      inputs[count] := input;
      count := count + 1;
      assert Contents() == old(Contents()) + [input];
      assert Contents()[..applied] == old(Contents())[..applied];
    }

    /** The runtime asks which turn it belongs to; a new turn starts empty and open. */
    method OpenTurn() returns (r: PullReply)
      requires Valid()
      modifies this
      ensures Valid() && transcript == old(transcript)
      ensures r == if old(activeTurn == 0 || interrupted || !piped) then Inactive else Turn(old(activeTurn))
      ensures if r.Inactive? || old(turn) == old(activeTurn) then Unchanged(old(Contents()), old(transcript), old(handed), old(open))
              else turn == old(activeTurn) && open && Contents() == [] && handed == []
      ensures Admissions() == old(Admissions()) && HandOuts() == old(HandOuts()) && Echoed() == old(Echoed())
      ensures r.Inactive? ==> turn == old(turn)
    {
      if activeTurn == 0 || interrupted || !piped { return Inactive; }
      if turn != activeTurn { CloseBooks(activeTurn, true); }
      return Turn(turn);
    }

    /** The runtime confirms that it appended an input.  Only the first confirmation of a
        delivered input is echoed; anything not handed out is refused. */
    method Acknowledge(ack: nat) returns (ok: bool)
      requires Valid() && ack > 0
      modifies this`transcript, this`applied, this`inFlight, inputs
      ensures Valid() && handed == old(handed)
      ensures Echoed() == old(Echoed()) + (if ok && old(inFlight) && ack == old(applied) + 1 then [|earlier| + ack - 1] else [])
      ensures Echoes(turn, Contents()) == old(Echoes(turn, Contents()))
      ensures ok <==> ack <= count && ack - 1 in old(handed)
      ensures old(inFlight) && ack == old(applied) + 1 ==> ok
      ensures if ok && old(inFlight) && ack == old(applied) + 1
              then transcript == old(transcript) + [Echo(turn, old(Contents())[ack - 1].id, old(Contents())[ack - 1].text)]
                   && applied == old(applied) + 1 && !inFlight
              else Contents() == old(Contents()) && transcript == old(transcript)
                   && applied == old(applied) && inFlight == old(inFlight)
      ensures forall i :: 0 <= i < count ==> Contents()[i].(state := Pending) == old(Contents()[i]).(state := Pending)
    {
      hide Faithful;
      assert inFlight ==> handed[applied] == applied;
      if ack > count || inputs[ack - 1].state == Pending {
        assert ack <= count ==> ack - 1 >= |handed|;
        return false;
      }
      assert handed[ack - 1] == ack - 1;
      ok := true;
      if inputs[ack - 1].state != Applied { Apply(ack - 1); }
    }

    /** The input in flight becomes the next line of the transcript. */
    method Apply(k: nat)
      requires Valid() && inFlight && k == applied
      modifies this`transcript, this`applied, this`inFlight, inputs
      ensures Valid() && !inFlight && applied == k + 1
      ensures transcript == old(transcript) + [Echo(turn, old(Contents())[k].id, old(Contents())[k].text)]
      ensures Contents() == old(Contents())[k := old(Contents())[k].(state := Applied)]
    {
      hide Faithful;
      ghost var before := Contents();
      inputs[k] := inputs[k].(state := Applied);
      transcript := transcript + [Echo(turn, inputs[k].id, inputs[k].text)];
      applied, inFlight := applied + 1, false;
      assert Contents() == before[k := before[k].(state := Applied)];
      assert Echoes(turn, Contents()[..applied]) == Echoes(turn, before[..k]) + [Echo(turn, before[k].id, before[k].text)];
    }

    /** Hand out the next input, or close the turn when nothing is left and the runtime is
        finished. */
    method HandOut(finish: bool, memory: bool) returns (r: PullReply)
      requires Valid()
      modifies this`open, this`inFlight, this`handed, inputs
      ensures Valid()
      ensures r.Unconfirmed? <==> old(inFlight)
      ensures r.Handed? ==>
                && r.number == applied + 1 && applied < count && r.text == inputs[applied].text
                && handed == old(handed) + [applied] && open == old(open)
                && Contents() == old(Contents())[applied := old(Contents())[applied].(state := Delivered)]
      ensures r.Nothing? ==> applied == count && open == (old(open) && !finish)
      ensures !r.Handed? ==> Contents() == old(Contents()) && handed == old(handed) && (!r.Nothing? ==> open == old(open))
      ensures r.Unconfirmed? || r.Handed? || r.Nothing? || (r.OutOfMemory? && !memory)
      ensures (r.Nothing? <==> !old(inFlight) && applied == count) && (r.Handed? <==> !old(inFlight) && applied < count && memory)
      ensures Echoes(turn, Contents()) == old(Echoes(turn, Contents()))
      ensures HandOuts() == old(HandOuts()) + if r.Handed? then [|earlier| + r.number - 1] else []
      ensures (r.Handed? ==> r.number - 1 !in old(handed)) && (r.Nothing? ==> !inFlight) && (r.Unconfirmed? ==> inFlight)
      ensures r.Handed? ==> 1 <= r.number <= count && r.text == Contents()[r.number - 1].text
    {
      hide Faithful;
      for i := 0 to count
        invariant Valid() && i <= applied && Contents() == old(Contents())
      {
        if inputs[i].state != Applied {
          if inputs[i].state == Delivered { return Unconfirmed; }
          if !memory { return OutOfMemory; }
          Deliver(i);
          return Handed(i + 1, inputs[i].text);
        }
      }
      if finish { open := false; }
      return Nothing;
    }

    method Deliver(k: nat)
      requires Valid() && !inFlight && k == applied && k < count
      modifies this`inFlight, this`handed, inputs
      ensures Valid() && inFlight && handed == old(handed) + [k]
      ensures Contents() == old(Contents())[k := old(Contents())[k].(state := Delivered)]
    {
      hide Faithful;
      ghost var before := Contents();
      inputs[k] := inputs[k].(state := Delivered);
      inFlight, handed := true, handed + [k];
      assert Contents() == before[k := before[k].(state := Delivered)];
      assert Contents()[..applied] == before[..applied];
    }

    /** A request of the runtime: credential, turn, acknowledgement, and whether it is done. */
    method Pull(given: Option<nat>, asked: nat, ack: nat, finish: bool, memory: bool) returns (r: PullReply)
      requires Valid()
      modifies this, inputs
      ensures Valid() && old(transcript) <= transcript && |transcript| <= |old(transcript)| + 1
      ensures Admissions() == old(Admissions())
      ensures HandOuts() == old(HandOuts()) + if r.Handed? then [|earlier| + r.number - 1] else []
      ensures r.Handed? ==> 1 <= r.number <= count && r.text == Contents()[r.number - 1].text
      ensures asked != 0 && !r.Forbidden? && !r.Stale? ==>
                && (r.BadAck? <==> ack != 0 && (ack > count || ack - 1 !in old(handed)))
                && (!r.BadAck? ==>
                      && (r.Unconfirmed? <==> old(inFlight) && ack != old(applied) + 1)
                      && (r.Nothing? <==> !r.Unconfirmed? && applied == count)
                      && (r.Handed? <==> !r.Unconfirmed? && applied < count && memory) && (r.Handed? ==> r.number == applied + 1))
      ensures asked == 0 && !r.Forbidden? ==> r == if old(activeTurn == 0 || interrupted || !piped) then Inactive else Turn(old(activeTurn))
      ensures var heard := && given.Some? && given == old(key) && asked != 0 && asked == old(turn)
                           && old(turn == activeTurn && piped && child && working && !interrupted);
              && Echoed() == old(Echoed()) + (if heard && old(inFlight) && ack == old(applied) + 1 then [|earlier| + ack - 1] else [])
              && (heard <==> asked != 0 && !r.Forbidden? && !r.Stale?)
      ensures asked != 0 ==>
                && turn == old(turn) && Echoes(turn, Contents()) == old(Echoes(turn, Contents())) && old(handed) <= handed
                && (open ==> old(open)) && (r.Handed? || handed == old(handed))
      ensures asked != 0 && r.Nothing? ==> applied == count && !inFlight && open == (old(open) && !finish)
      ensures asked != 0 && !r.Nothing? ==> open == old(open)
      ensures r.Unconfirmed? ==> inFlight
      ensures given.None? || given != old(key) <==> r == Forbidden
      ensures r.Handed? ==> asked == turn && old(turn) == turn && r.number - 1 !in old(handed) && r.number - 1 in handed
      ensures r.Forbidden? || r.Stale? || r.BadAck? ==> Unchanged(old(Contents()), old(transcript), old(handed), old(open))
      ensures old(open) && !open ==> finish && applied == count
    {
      hide Faithful, InOrder, Distinct, Serials, UpTo, Echoes;
      if given.None? || given != key { return Forbidden; }
      if asked == 0 {
        r := OpenTurn();
        return;
      }
      if asked != turn || !Active() { return Stale; }
      r := Continue(ack, finish, memory);
    }

    /** A request for the current turn: first the acknowledgement, then the next input. */
    method Continue(ack: nat, finish: bool, memory: bool) returns (r: PullReply)
      requires Valid()
      modifies this`transcript, this`applied, this`inFlight, this`open, this`handed, inputs
      ensures Valid() && old(transcript) <= transcript && |transcript| <= |old(transcript)| + 1
      ensures r.BadAck? || r.Unconfirmed? || r.Handed? || r.Nothing? || r.OutOfMemory?
      ensures Echoes(turn, Contents()) == old(Echoes(turn, Contents()))
      ensures handed == old(handed) + if r.Handed? then [r.number - 1] else []
      ensures HandOuts() == old(HandOuts()) + if r.Handed? then [|earlier| + r.number - 1] else []
      ensures r.Handed? ==> 1 <= r.number <= count && r.text == Contents()[r.number - 1].text
      ensures Echoed() == old(Echoed()) + (if old(inFlight) && ack == old(applied) + 1 then [|earlier| + ack - 1] else [])
      ensures r.Nothing? ==> applied == count && !inFlight && open == (old(open) && !finish)
      ensures !r.Nothing? ==> open == old(open)
      ensures r.Unconfirmed? ==> inFlight
      ensures r.Handed? ==> r.number - 1 !in old(handed)
      ensures r.BadAck? ==> Unchanged(old(Contents()), old(transcript), old(handed), old(open))
      ensures r.BadAck? <==> ack != 0 && (ack > count || ack - 1 !in old(handed))
      ensures !r.BadAck? ==>
                && (r.Unconfirmed? <==> old(inFlight) && ack != old(applied) + 1)
                && (r.Nothing? <==> !r.Unconfirmed? && applied == count)
                && (r.Handed? <==> !r.Unconfirmed? && applied < count && memory) && (r.Handed? ==> r.number == applied + 1)
    {
      hide Faithful, InOrder, Distinct, Echoes, Serials, UpTo;
      if ack != 0 {
        var ok := Acknowledge(ack);
        if !ok { return BadAck; }
      }
      r := HandOut(finish, memory);
    }

    /** The host's turn changes as it likes. */
    method HostChanges()
      requires Valid()
      modifies this`activeTurn, this`interrupted, this`piped, this`child, this`working
      ensures Valid()
    {
      hide Faithful, InOrder, Distinct;
      activeTurn, interrupted, piped, child, working := *, *, *, *, *;
    }
  }

  /** In a closed turn every admitted input was handed out once and echoed once, in order
      of admission, and no two lines carry the same input. */
  lemma ClosedTurnIsComplete(desk: Desk)
    requires desk.Valid() && !desk.open
    ensures desk.handed == UpTo(desk.count) && !desk.inFlight
    ensures desk.transcript == desk.past + Echoes(desk.turn, desk.Contents())
    ensures forall i, j :: |desk.past| <= i < j < |desk.transcript| ==> desk.transcript[i].id != desk.transcript[j].id
    ensures Outstanding(desk.Contents()) == 0
  {
    assert desk.Contents()[..desk.applied] == desk.Contents();
    OutstandingInOrder(desk.Contents(), desk.applied, desk.inFlight);
  }

  /** In an open turn the echoed lines are the applied inputs, and never more than sixteen
      inputs wait. */
  lemma OpenTurnIsAPrefix(desk: Desk)
    requires desk.Valid()
    ensures desk.transcript == desk.past + Echoes(desk.turn, desk.Contents()[..desk.applied])
    ensures Outstanding(desk.Contents()) == desk.count - desk.applied <= OUTSTANDING_MAX
    ensures desk.applied <= |desk.handed| <= desk.applied + 1
  {
    OutstandingInOrder(desk.Contents(), desk.applied, desk.inFlight);
  }

  // ----- Runs -----

  datatype Request =
    | PostRequest(wellFormed: bool, expectedTurn: bytes, id: bytes, text: bytes)
    | PullRequest(key: Option<nat>, turn: nat, ack: nat, finish: bool)
    | RuntimeStarts(key: Option<nat>)

  method NextRequest() returns (request: Request, memory: bool) { request, memory := *, *; }

  method Answer(desk: Desk, request: Request, memory: bool)
    requires desk.Valid()
    modifies desk, desk.inputs
    ensures desk.Valid() && old(desk.transcript) <= desk.transcript
    ensures old(desk.Admissions()) <= desk.Admissions() && old(desk.HandOuts()) <= desk.HandOuts() && old(desk.Echoed()) <= desk.Echoed()
  {
    hide Faithful, InOrder, Distinct, Echoes, Serials, UpTo, Outstanding, Has, Desk.Active;
    match request {
      case PostRequest(wellFormed, expectedTurn, id, text) =>
        var r := desk.Post(wellFormed, expectedTurn, id, text, memory);
      case PullRequest(key, turn, ack, finish) =>
        var r := desk.Pull(key, turn, ack, finish, memory);
      case RuntimeStarts(key) =>
        desk.Prepare(key);
    }
  }

  /** Any requests in any order, repeated or not, over any number of turns and runtimes: the
      histories only grow, every input is handed out at most once and in order, and the
      transcript is the confirmed inputs, each once, in order of admission. */
  method Serve(desk: Desk, steps: nat)
    requires desk.Valid()
    modifies desk, desk.inputs
    ensures desk.Valid() && old(desk.transcript) <= desk.transcript
    ensures old(desk.Admissions()) <= desk.Admissions() && old(desk.HandOuts()) <= desk.HandOuts() && old(desk.Echoed()) <= desk.Echoed()
    ensures Faithful(desk.Admissions(), desk.HandOuts(), desk.Echoed(), desk.transcript)
  {
    hide Faithful, InOrder, Distinct, Echoes, Serials, UpTo;
    for i := 0 to steps
      invariant desk.Valid() && old(desk.transcript) <= desk.transcript
      invariant old(desk.Admissions()) <= desk.Admissions() && old(desk.HandOuts()) <= desk.HandOuts() && old(desk.Echoed()) <= desk.Echoed()
    {
      desk.HostChanges();
      var request, memory := NextRequest();
      Answer(desk, request, memory);
    }
    desk.EverythingOnce();
  }
}
