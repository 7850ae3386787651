/** Whole runs of any number of MIDI event builders on one event store. */
module MidiRuns {

  import opened Sequences
  import opened MidiGeneration

  datatype Call =
    | NoteOn(note: int, velocity: int, channel: int)
    | NoteOff(note: int, velocity: int, channel: int)
    | Controller(controller: int, value: int, channel: int)
    | PitchBend(valueLsb: int, valueMsb: int, channel: int)
    | SkipBy(length: int)
    | Use(b: array?<Node?>, size: int)
    | Finish

  /** A call on one of the builders. */
  datatype Step = Step(who: nat, call: Call)

  /** The event that a call queues, if it is a queue call. */
  function Queued(c: Call): seq<Event> {
    match c
    case NoteOn(a, b, channel) => [Event(3, 0x90 + channel % 16, a % 256, b % 256)]
    case NoteOff(a, b, channel) => [Event(3, 0x80 + channel % 16, a % 256, b % 256)]
    case Controller(a, b, channel) => [Event(3, 0xb0 + channel % 16, a % 256, b % 256)]
    case PitchBend(a, b, channel) => [Event(3, 0xe0 + channel % 16, a % 256, b % 256)]
    case _ => []
  }

  /** The events that the steps queue on builder i, in order. */
  ghost function History(steps: seq<Step>, i: nat): seq<Event> {
    if steps == [] then []
    else History(steps[..|steps| - 1], i) + (if steps[|steps| - 1].who == i then Queued(steps[|steps| - 1].call) else [])
  }

  lemma HistoryNext(steps: seq<Step>, k: nat, i: nat)
    requires k < |steps|
    ensures History(steps[..k + 1], i) == History(steps[..k], i) + (if steps[k].who == i then Queued(steps[k].call) else [])
  {
    assert steps[..k + 1][..k] == steps[..k];
  }

  ghost function Team(bs: seq<MidiEventBuilder>): set<MidiEventBuilder> {
    set b | b in bs
  }

  /** The builders share the store; each has had a buffer, and any buffer now in use is one of bufs. */
  ghost predicate Running(p: Controller, bs: seq<MidiEventBuilder>, bufs: set<array<Node?>>)
    reads *
  {
    && World(p, Team(bs)) && Distinct(bs)
    && (forall i :: 0 <= i < |bs| ==> bs[i].ready && (bs[i].buffer != null ==> bs[i].buffer in bufs))
  }

  /** What the World says about the footprints of builder i. */
  lemma Footprint(p: Controller, bs: seq<MidiEventBuilder>, i: nat)
    requires World(p, Team(bs)) && i < |bs|
    ensures bs[i] in Team(bs) && bs[i].pool == p
    ensures Distinct(bs) ==> forall j :: 0 <= j < |bs| && j != i ==> bs[j] != bs[i]
    ensures forall n <- bs[i].remaining.nodes :: n in p.all
    ensures forall n <- bs[i].freeable.nodes :: n in p.all
    ensures forall n <- p.free :: n in p.all
  {
    assert Attached(bs[i], p);
  }

  /** Whether no other builder uses the buffer. */
  method IsFreeBuffer(bs: seq<MidiEventBuilder>, who: nat, b: array?<Node?>) returns (ok: bool)
    requires who < |bs| && Distinct(bs)
    ensures ok <==> forall d <- Team(bs) :: d != bs[who] ==> d.buffer != b
  {
    for j := 0 to |bs|
      invariant forall k :: 0 <= k < j ==> k == who || bs[k].buffer != b
    {
      if j != who && bs[j].buffer == b {
        assert bs[j] in Team(bs) && bs[j] != bs[who];
        return false;
      }
    }
    ok := true;
  }

  /** The buffer is large enough and no other builder uses it. */
  ghost predicate Usable(bs: seq<MidiEventBuilder>, who: nat, buf: array?<Node?>, size: int)
    requires who < |bs|
    reads (set b | b in bs)`buffer
  {
    && (size > 0 ==> buf != null && size <= buf.Length)
    && (buf != null ==> forall d <- bs :: d != bs[who] ==> d.buffer != buf)
  }

  /** One step; a use_buffer with too small a buffer, or one that another builder is using, is not made. */
  method TakeStep(p: Controller, bs: seq<MidiEventBuilder>, step: Step, ghost bufs: set<array<Node?>>)
    requires Running(p, bs, bufs) && step.who < |bs|
    requires step.call.Use? && step.call.b != null ==> step.call.b in bufs
    modifies p, (set b | b in bs), (set b | b in bs :: b.remaining), (set b | b in bs :: b.freeable), p.all, bufs
    ensures Running(p, bs, bufs)
    ensures old(p.all) <= p.all && fresh(p.all - old(p.all))
    ensures forall i :: 0 <= i < |bs| ==>
              bs[i].queued == old(bs[i].queued) + (if i == step.who then Queued(step.call) else [])
    ensures forall i :: 0 <= i < |bs| && i != step.who ==> unchanged(bs[i])
    ensures var b := bs[step.who];
            match step.call
            case SkipBy(length) =>
              && b.bufferPLastSkip == old(b.bufferPLastSkip) + length && b.placed == old(b.placed)
              && b.bufferPosition == (if b.bufferPLastSkip > old(b.bufferPosition) then b.bufferPLastSkip else old(b.bufferPosition))
            case Finish =>
              b.buffer == null && b.bufferSize == 0 && b.bufferPosition == 1 && b.slots == [] && b.freeable.nodes == []
            case Use(buf, size) =>
              && (old(Usable(bs, step.who, buf, size)) ==>
                    && b.buffer == buf && b.bufferSize == size && b.bufferPLastSkip == 0
                    && b.bufferPosition == |b.slots| && (b.remaining.nodes != [] ==> b.bufferPosition >= size))
              && (!old(Usable(bs, step.who, buf, size)) ==> unchanged(b))
            case _ =>
              Recorded(old(b.Books()), b.Books(), Queued(step.call)[0])
  {
    hide *;
    var b := bs[step.who];
    ghost var team := Team(bs);
    RunningParts(p, bs, bufs);
    Footprint(p, bs, step.who);
    QueuedIs(step.call);
    match step.call {
    case NoteOn(_, _, _) => QueueStep(p, b, step.call, team);
    case NoteOff(_, _, _) => QueueStep(p, b, step.call, team);
    case Controller(_, _, _) => QueueStep(p, b, step.call, team);
    case PitchBend(_, _, _) => QueueStep(p, b, step.call, team);
    case SkipBy(length) => var more := b.Skip(team, length);
    case Finish => b.FinishCurrentBuffer(team);
    case Use(buf, size) => UseStep(p, bs, step.who, b, buf, size, team);
    }
    IsRunning(p, bs, bufs);
  }

  method UseStep(p: Controller, bs: seq<MidiEventBuilder>, who: nat, b: MidiEventBuilder, buf: array?<Node?>, size: int, ghost team: set<MidiEventBuilder>)
    requires World(p, team) && team == Team(bs) && Distinct(bs) && who < |bs| && b == bs[who] && b in team && b.pool == p
    modifies b`buffer, b`bufferSize, b`bufferPosition, b`bufferPLastSkip
    modifies b`ready, b`slots, b`placed, buf
    modifies b.remaining`head, b.remaining`nodes, b.freeable`head, b.freeable`nodes
    modifies (set x | x in b.remaining.nodes), (set x | x in b.freeable.nodes)
    ensures World(p, team) && (old(b.ready) ==> b.ready)
    ensures b.buffer == old(b.buffer) || b.buffer == buf
    ensures b.queued == old(b.queued)
    ensures old(Usable(bs, who, buf, size)) ==>
              && b.buffer == buf && b.bufferSize == size && b.bufferPLastSkip == 0
              && b.bufferPosition == |b.slots| && (b.remaining.nodes != [] ==> b.bufferPosition >= size)
    ensures !old(Usable(bs, who, buf, size)) ==> unchanged(b)
  {
    hide World;
    var ok := buf == null;
    if buf != null {
      ok := IsFreeBuffer(bs, who, buf);
    }
    assert ok && (size <= 0 || (buf != null && size <= buf.Length)) <==> Usable(bs, who, buf, size);
    hide Usable, Opened, MidiEventBuilder.Books;
    if ok && (size <= 0 || (buf != null && size <= buf.Length)) {
      b.BooksAre();
      ghost var was, held := b.Books(), b.freeable.nodes;
      b.UseBuffer(team, buf, size);
      b.BooksAre();
      OpenedIs(was, b.Books(), held, b.freeable.nodes);
    }
  }

  lemma OpenedIs(was: Account, now: Account, heldBefore: seq<Node>, held: seq<Node>)
    requires Opened(was, now, heldBefore, held)
    ensures now.queued == was.queued && now.position == |now.slots| && (now.waiting != [] ==> now.position >= now.size)
  {
  }

  /** The steps that queue an event. */
  method QueueStep(p: Controller, b: MidiEventBuilder, call: Call, ghost team: set<MidiEventBuilder>)
    requires World(p, team) && b in team && b.pool == p && b.ready
    requires Queued(call) != []
    modifies b`bufferPosition, b`slots, b`placed, b`queued, b.buffer
    modifies b.remaining`head, b.remaining`nodes, b.freeable`head, b.freeable`nodes
    modifies (set x | x in b.remaining.nodes), (set x | x in b.freeable.nodes)
    modifies p`nextFree, p`free, p`all, (set x | x in p.free)
    ensures World(p, team) && old(p.all) <= p.all && fresh(p.all - old(p.all))
    ensures b.queued == old(b.queued) + Queued(call)
    ensures Recorded(old(b.Books()), b.Books(), Queued(call)[0])
  {
    hide World, Recorded, MidiEventBuilder.Books;
    b.BooksAre();
    ghost var was := b.Books();
    match call {
      case NoteOn(x, y, channel) => b.QueueNoteOn(team, x, y, channel);
      case NoteOff(x, y, channel) => b.QueueNoteOff(team, x, y, channel);
      case Controller(x, y, channel) => b.QueueController(team, x, y, channel);
      case PitchBend(x, y, channel) => b.QueuePitchBend(team, x, y, channel);
    }
    b.BooksAre();
    OneMore(was, b.Books(), Queued(call)[0]);
  }

  lemma OneMore(was: Account, now: Account, e: Event)
    requires Recorded(was, now, e)
    ensures now.queued == was.queued + [e]
  {
  }

  lemma QueuedIs(c: Call)
    ensures Queued(c) != [] <==> c.NoteOn? || c.NoteOff? || c.Controller? || c.PitchBend?
  {
  }

  lemma IsRunning(p: Controller, bs: seq<MidiEventBuilder>, bufs: set<array<Node?>>)
    requires World(p, Team(bs)) && Distinct(bs)
    requires forall i :: 0 <= i < |bs| ==> bs[i].ready && (bs[i].buffer != null ==> bs[i].buffer in bufs)
    ensures Running(p, bs, bufs)
  {
  }

  lemma RunningParts(p: Controller, bs: seq<MidiEventBuilder>, bufs: set<array<Node?>>)
    requires Running(p, bs, bufs)
    ensures World(p, Team(bs)) && Distinct(bs)
    ensures forall i :: 0 <= i < |bs| ==> bs[i].ready && (bs[i].buffer != null ==> bs[i].buffer in bufs)
  {
  }

  /**
   * Any interleaving of calls on any number of builders: each builder's events
   * are its queued ones, in order, split into those placed in buffers and
   * those that wait; and every node of the store is in one place.
   */
  method Interleave(p: Controller, bs: seq<MidiEventBuilder>, steps: seq<Step>, ghost bufs: set<array<Node?>>)
    requires Running(p, bs, bufs)
    requires forall s <- steps :: s.who < |bs| && (s.call.Use? && s.call.b != null ==> s.call.b in bufs)
    modifies p, (set b | b in bs), (set b | b in bs :: b.remaining), (set b | b in bs :: b.freeable), p.all, bufs
    ensures Running(p, bs, bufs)
    ensures forall i :: 0 <= i < |bs| ==>
              bs[i].placed + Events(bs[i].remaining.nodes) == old(bs[i].queued) + History(steps, i)
    ensures forall n <- p.all ::
              n in p.free || exists i :: 0 <= i < |bs| && (n in bs[i].remaining.nodes || n in bs[i].freeable.nodes)
  {
    hide *;
    NoHistory(steps, bs);
    for k := 0 to |steps|
      invariant Running(p, bs, bufs)
      invariant old(p.all) <= p.all && fresh(p.all - old(p.all))
      invariant forall i :: 0 <= i < |bs| ==> bs[i].queued == old(bs[i].queued) + History(steps[..k], i)
    {
      assert steps[k] in steps;
      TakeStep(p, bs, steps[k], bufs);
      forall i | 0 <= i < |bs| ensures bs[i].queued == old(bs[i].queued) + History(steps[..k + 1], i) {
        HistoryNext(steps, k, i);
      }
    }
    assert steps[..|steps|] == steps;
    RunningParts(p, bs, bufs);
    AllPlaces(p, bs);
  }

  lemma NoHistory(steps: seq<Step>, bs: seq<MidiEventBuilder>)
    ensures forall i :: 0 <= i < |bs| ==> bs[i].queued == bs[i].queued + History(steps[..0], i)
  {
  }

  lemma AllPlaces(p: Controller, bs: seq<MidiEventBuilder>)
    requires World(p, Team(bs))
    ensures forall i :: 0 <= i < |bs| ==> bs[i].queued == bs[i].placed + Events(bs[i].remaining.nodes)
    ensures forall n <- p.all ::
              n in p.free || exists i :: 0 <= i < |bs| && (n in bs[i].remaining.nodes || n in bs[i].freeable.nodes)
  {
    hide World;
    forall i | 0 <= i < |bs| ensures bs[i].queued == bs[i].placed + Events(bs[i].remaining.nodes) {
      NothingLost(p, Team(bs), bs[i]);
    }
    forall n <- p.all
      ensures n in p.free || exists i :: 0 <= i < |bs| && (n in bs[i].remaining.nodes || n in bs[i].freeable.nodes)
    {
      ExactlyOnePlace(p, Team(bs), n);
    }
  }
}
