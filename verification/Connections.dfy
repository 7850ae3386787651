/**
 * The connection table of a machine on the server, and its copies on the
 * clients. Each client has a queue of messages of which one at a time is being
 * written; what has been written arrives in order.
 */
module Connections {

  import opened ConnectionText

  datatype Update = Create(connections: string) | Attach(c: Connection) | Detach(c: Connection)

  /** The connections other than c. */
  function Without(t: seq<Connection>, c: Connection): (r: seq<Connection>)
    ensures forall d :: multiset(r)[d] == if d == c then 0 else multiset(t)[d]
  {
    if t == [] then [] else
      assert t == [t[0]] + t[1..];
      if t[0] == c then Without(t[1..], c) else [t[0]] + Without(t[1..], c)
  }

  lemma {:induction false} WithoutOrdered(t: seq<Connection>, c: Connection)
    requires Ordered(t)
    ensures Ordered(Without(t, c))
    ensures forall d <- Without(t, c) :: d in t
  {
    if t != [] {
      WithoutOrdered(t[1..], c);
      var r := Without(t[1..], c);
      forall i | 0 <= i < |r| ensures t[0].source <= r[i].source {
        assert r[i] in t[1..];
      }
    }
  }

  lemma {:induction false} WithoutConcat(a: seq<Connection>, b: seq<Connection>, c: Connection)
    ensures Without(a + b, c) == Without(a, c) + Without(b, c)
  {
    if a == [] {
      assert a + b == b;
    } else {
      assert (a + b)[1..] == a[1..] + b;
      WithoutConcat(a[1..], b, c);
    }
  }

  lemma {:induction false} WithoutOthers(t: seq<Connection>, c: Connection)
    requires forall d <- t :: d != c
    ensures Without(t, c) == t
  {
    if t != [] {
      assert t[0] in t && forall d <- t[1..] :: d in t;
      WithoutOthers(t[1..], c);
    }
  }

  /** What a client's table is after a message; a snapshot that cannot be read leaves an empty one. */
  function Applied(t: seq<Connection>, u: Update): (r: seq<Connection>)
  {
    match u
    case Create(text) => (match ParsedText(text) case Table(s) => s case Exception => [])
    case Attach(c) => WithConnection(t, c)
    case Detach(c) => Without(t, c)
  }

  function AllApplied(t: seq<Connection>, us: seq<Update>): seq<Connection>
    decreases |us|
  {
    if us == [] then t else AllApplied(Applied(t, us[0]), us[1..])
  }

  lemma {:induction false} AppliedLast(t: seq<Connection>, us: seq<Update>, u: Update)
    ensures AllApplied(t, us + [u]) == Applied(AllApplied(t, us), u)
    decreases |us|
  {
    if us != [] {
      assert (us + [u])[1..] == us[1..] + [u];
      AppliedLast(Applied(t, us[0]), us[1..], u);
    } else {
      assert us + [u] == [u];
    }
  }

  lemma WithoutErased(a: seq<Connection>, c: Connection, b: seq<Connection>)
    ensures Without(a + [c] + b, c) == Without(a + b, c)
  {
    WithoutConcat(a, b, c);
    WithoutConcat(a + [c], b, c);
    WithoutConcat(a, [c], c);
  }

  /** Every message leaves a table in order; so does a snapshot. */
  lemma AppliedOrdered(t: seq<Connection>, u: Update)
    requires Ordered(t)
    ensures Ordered(Applied(t, u))
  {
    match u
    case Create(text) =>
      var first := GetLine(Stream(text, false), "", '@');
      ParseOrdered(first.left, first.text, "", "", []);
    case Attach(c) => WithConnectionOrdered(t, c);
    case Detach(c) => WithoutOrdered(t, c);
  }

  lemma {:induction false} ParseOrdered(from: Stream, srcid: string, srcName: string, dstName: string, t: seq<Connection>)
    requires Ordered(t)
    ensures var r := ParseFrom(from, srcid, srcName, dstName, t); r.Table? ==> Ordered(r.t)
    decreases |from.rest|, if from.eof then 0 else 1
  {
    if !from.eof && srcid != "" {
      var src := GetLine(from, srcName, '{');
      var dst := GetLine(src.left, dstName, '}');
      var next := GetLine(dst.left, srcid, '@');
      if src.text == "" || dst.text == "" {
        ParseOrdered(next.left, next.text, src.text, dst.text, t);
      } else if !Stol(srcid).InvalidArgument? {
        var c := Connection(ToInt32(Stol(srcid).v), src.text, dst.text);
        WithConnectionOrdered(t, c);
        ParseOrdered(next.left, next.text, src.text, dst.text, WithConnection(t, c));
      }
    }
  }

  lemma WithConnectionInt32(t: seq<Connection>, c: Connection)
    requires IsInt32(c.source) && forall d <- t :: IsInt32(d.source)
    ensures forall d <- WithConnection(t, c) :: IsInt32(d.source)
  {
    WithConnectionElements(t, c);
    assert forall d <- WithConnection(t, c) :: d in multiset(WithConnection(t, c)) && (d == c || d in t);
  }

  lemma SnapshotApplied(text: string, t: seq<Connection>)
    requires Ordered(t) && (forall c <- t :: IsInt32(c.source)) && text == Serialized(t)
    ensures AllApplied([], [Create(text)]) == t <==> forall c <- t :: Carried(c)
  {
    RoundTrip(t);
    assert AllApplied([], [Create(text)]) == Applied([], Create(text));
  }

  /** Where the loop over equal_range stands: nothing that equals c before k, nothing of its source from `last` on. */
  ghost predicate Ranged(t: seq<Connection>, c: Connection, first: nat, k: nat, last: nat)
    requires first <= k <= last <= |t|
  {
    && (forall i :: 0 <= i < first ==> t[i].source != c.source)
    && (forall i :: first <= i < k ==> t[i] != c)
    && (forall i :: k <= i < last ==> t[i].source == c.source)
    && (forall i :: last <= i < |t| ==> t[i].source != c.source)
  }

  /** The next pass of the loop: element k is kept, or erased. */
  lemma RangedAt(t: seq<Connection>, c: Connection, first: nat, k: nat, last: nat)
    requires first <= k < last <= |t| && Ranged(t, c, first, k, last)
    ensures t[k].source == c.source
    ensures t[k] != c ==> Ranged(t, c, first, k + 1, last)
    ensures Ranged(t[..k] + t[k + 1..], c, first, k, last - 1)
  {
  }

  lemma RangedStart(t: seq<Connection>, c: Connection, first: nat, last: nat)
    requires first <= last <= |t|
    requires forall i :: 0 <= i < first ==> t[i].source < c.source
    requires forall i :: first <= i < last ==> t[i].source == c.source
    requires forall i :: last <= i < |t| ==> t[i].source > c.source
    ensures Ranged(t, c, first, first, last)
  {
  }

  lemma RangedOthers(t: seq<Connection>, c: Connection, first: nat, k: nat, last: nat)
    requires first <= k <= last <= |t| && Ranged(t, c, first, k, last) && k == last
    ensures forall d <- t :: d != c
  {
  }

  /** A machine's table: RIMachine::connection_data, on either side. */
  class RIMachine {
    var connectionData: seq<Connection>

    constructor ()
      ensures connectionData == []
    {
      connectionData := [];
    }

    /** The loop over equal_range in detach_input and process_detach_message. */
    method EraseAll(c: Connection)
      requires Ordered(connectionData)
      modifies this
      ensures Ordered(connectionData) && connectionData == Without(old(connectionData), c)
    {
      hide *;
      ghost var was := connectionData;
      WithoutOrdered(was, c);
      var k, last := Range(connectionData, c.source);
      ghost var first := k;
      RangedStart(connectionData, c, first, last);
      while k < last
        invariant first <= k <= last <= |connectionData| && Ranged(connectionData, c, first, k, last)
        invariant Without(connectionData, c) == Without(was, c)
        decreases last - k
      {
        RangedAt(connectionData, c, first, k, last);
        if connectionData[k].output == c.output && connectionData[k].input == c.input {
          WithoutErased(connectionData[..k], c, connectionData[k + 1..]);
          assert connectionData == connectionData[..k] + [c] + connectionData[k + 1..];
          connectionData := connectionData[..k] + connectionData[k + 1..];
          last := last - 1;
        } else {
          k := k + 1;
        }
      }
      RangedOthers(connectionData, c, first, k, last);
      WithoutOthers(connectionData, c);
    }

    /** What the client does with a message: object creation, process_attach_message, process_detach_message. */
    method ProcessMessageClient(u: Update)
      requires Ordered(connectionData)
      modifies this
      ensures connectionData == Applied(old(connectionData), u) && Ordered(connectionData)
    {
      AppliedOrdered(connectionData, u);
      match u
      case Create(text) =>
        var r := Parse(text);
        connectionData := if r.Table? then r.t else [];
      case Attach(c) =>
        connectionData := WithConnection(connectionData, c);
      case Detach(c) =>
        EraseAll(c);
    }
  }

  /** The server's end of the link to one client. */
  class MessageHandler {
    var writeMsgs: seq<Update>
    var writing: bool       // an asynchronous write is outstanding
    var wire: seq<Update>   // handed to the transport and not yet received
    const peer: RIMachine   // the machine's object on the client

    ghost predicate Valid()
      reads this, peer
    {
      && (writing <==> writeMsgs != [])
      && Ordered(peer.connectionData)
    }

    /** What the client has still to receive: the front of the queue is on its way already. */
    ghost function Undelivered(): seq<Update>
      reads this
    {
      wire + (if writeMsgs == [] then [] else writeMsgs[1..])
    }

    /** The client will agree with the table once everything has arrived. */
    ghost predicate InStep(t: seq<Connection>)
      reads this, peer
    {
      AllApplied(peer.connectionData, Undelivered()) == t
    }

    constructor (client: RIMachine)
      ensures writeMsgs == [] && wire == [] && !writing && peer == client
    {
      writeMsgs, wire, writing, peer := [], [], false, client;
    }

    /** do_write: the front of the queue is written. */
    method DoWrite()
      requires writeMsgs != [] && !writing
      modifies this`wire, this`writing
      ensures writing && wire == old(wire) + [writeMsgs[0]]
    {
      writing := true;
      wire := wire + [writeMsgs[0]];
    }

    /** deliver_message: a write is started only when none is under way. */
    method DeliverMessage(msg: Update)
      requires Valid()
      modifies this`writeMsgs, this`wire, this`writing
      ensures Valid() && writeMsgs == old(writeMsgs) + [msg]
      ensures wire == if old(writeMsgs) == [] then old(wire) + [msg] else old(wire)
      ensures Undelivered() == old(Undelivered()) + [msg]
    {
      var writeInProgress := writeMsgs != [];
      writeMsgs := writeMsgs + [msg];
      if !writeInProgress {
        DoWrite();
      }
    }

    /** The completion of an asynchronous write. */
    method WriteCompleted()
      requires Valid() && writing
      modifies this`writeMsgs, this`wire, this`writing
      ensures Valid() && writeMsgs == old(writeMsgs)[1..]
      ensures wire == if old(|writeMsgs|) > 1 then old(wire) + [old(writeMsgs)[1]] else old(wire)
      ensures Undelivered() == old(Undelivered())
    {
      writing := false;
      writeMsgs := writeMsgs[1..];
      if writeMsgs != [] {
        DoWrite();
      }
    }

    /** The client receives the next message. */
    method Receive()
      requires Valid() && wire != []
      modifies this`wire, peer
      ensures Valid() && wire == old(wire)[1..] && writeMsgs == old(writeMsgs)
      ensures peer.connectionData == Applied(old(peer.connectionData), old(wire[0]))
      ensures forall t :: old(InStep(t)) ==> InStep(t)
    {
      var u := wire[0];
      ghost var was := Undelivered();
      wire := wire[1..];
      assert was[1..] == Undelivered();
      peer.ProcessMessageClient(u);
    }
  }

  /** What can happen next: the server's table is edited, a write completes, a message arrives. */
  datatype Step = Attaching(c: Connection) | Detaching(c: Connection) | Written(agent: nat) | Received(agent: nat)

  function Edit(t: seq<Connection>, step: Step): seq<Connection> {
    match step
    case Attaching(c) => WithConnection(t, c)
    case Detaching(c) => Without(t, c)
    case _ => t
  }

  function Edited(t: seq<Connection>, steps: seq<Step>): seq<Connection> {
    if steps == [] then t else Edit(Edited(t, steps[..|steps| - 1]), steps[|steps| - 1])
  }

  lemma Unedited(t: seq<Connection>)
    ensures Edited(t, []) == t
  {
  }

  lemma EditedLast(t: seq<Connection>, steps: seq<Step>, step: Step)
    ensures Edited(t, steps + [step]) == Edit(Edited(t, steps), step)
  {
    var all := steps + [step];
    assert all[..|all| - 1] == steps;
  }

  /** The server's side: the machine and the agents of its clients. */
  class Server {
    const machine: RIMachine
    var clientAgents: seq<MessageHandler>

    /** The parts are distinct and well formed. */
    ghost predicate Valid()
      reads *
    {
      && Ordered(machine.connectionData) && (forall c <- machine.connectionData :: IsInt32(c.source))
      && (forall h <- clientAgents :: h.Valid() && h.peer != machine)
      && (forall i, j :: 0 <= i < j < |clientAgents| ==>
            clientAgents[i] != clientAgents[j] && clientAgents[i].peer != clientAgents[j].peer)
    }

    /** Agent h will bring its client to the machine's table. */
    ghost predicate Following(h: MessageHandler)
      reads h, h.peer, machine
    {
      h.InStep(machine.connectionData)
    }

    constructor (m: RIMachine)
      requires m.connectionData == []
      ensures Valid() && machine == m && clientAgents == []
    {
      machine := m;
      clientAgents := [];
    }

    /** distribute_message, right after the table has changed by the same update. */
    method DistributeMessage(msg: Update, ghost was: seq<Connection>)
      requires Valid() && machine.connectionData == Applied(was, msg)
      modifies (set h | h in clientAgents)
      ensures Valid()
      ensures forall h <- clientAgents :: old(h.InStep(was)) ==> Following(h)
      ensures forall h <- clientAgents :: h.Undelivered() == old(h.Undelivered()) + [msg]
      ensures forall h <- clientAgents :: h.writeMsgs == old(h.writeMsgs) + [msg]
      ensures forall h <- clientAgents :: h.wire == if old(h.writeMsgs) == [] then old(h.wire) + [msg] else old(h.wire)
    {
      hide *;
      for i := 0 to |clientAgents|
        invariant Valid()
        invariant forall j :: 0 <= j < i ==> clientAgents[j].Undelivered() == old(clientAgents[j].Undelivered()) + [msg]
        invariant forall j :: 0 <= j < i ==> old(clientAgents[j].InStep(was)) ==> Following(clientAgents[j])
        invariant forall j :: 0 <= j < i ==> clientAgents[j].writeMsgs == old(clientAgents[j].writeMsgs) + [msg]
        invariant forall j :: 0 <= j < i ==>
                    clientAgents[j].wire == if old(clientAgents[j].writeMsgs) == [] then old(clientAgents[j].wire) + [msg]
                                            else old(clientAgents[j].wire)
        invariant forall j :: i <= j < |clientAgents| ==> unchanged(clientAgents[j])
      {
        OneAgent(i);
        DeliverOne(clientAgents[i], msg, was);
      }
    }

    lemma OneAgent(i: nat)
      requires Valid() && i < |clientAgents|
      ensures forall j :: 0 <= j < |clientAgents| && j != i ==>
                clientAgents[j] != clientAgents[i] && clientAgents[j].peer != clientAgents[i].peer
    {
    }

    /** The part of distribute_message for one client. */
    method DeliverOne(h: MessageHandler, msg: Update, ghost was: seq<Connection>)
      requires Valid() && h in clientAgents && machine.connectionData == Applied(was, msg)
      modifies h
      ensures Valid() && h.Undelivered() == old(h.Undelivered()) + [msg]
      ensures h.writeMsgs == old(h.writeMsgs) + [msg]
      ensures h.wire == if old(h.writeMsgs) == [] then old(h.wire) + [msg] else old(h.wire)
      ensures old(h.InStep(was)) ==> Following(h)
    {
      AppliedLast(h.peer.connectionData, h.Undelivered(), msg);
      hide Ordered, MessageHandler.Undelivered, Applied, AllApplied;
      h.DeliverMessage(msg);
    }

    /** attach_input on the server: into the table, and out to every client. */
    method AttachInput(c: Connection)
      requires Valid() && IsInt32(c.source)
      modifies machine, (set h | h in clientAgents)
      ensures Valid() && machine.connectionData == WithConnection(old(machine.connectionData), c)
      ensures forall h <- clientAgents :: old(Following(h)) ==> Following(h)
      ensures forall h <- clientAgents :: h.writeMsgs == old(h.writeMsgs) + [Attach(c)]
      ensures forall h <- clientAgents :: h.wire == if old(h.writeMsgs) == [] then old(h.wire) + [Attach(c)] else old(h.wire)
    {
      hide Ordered, WithConnection, IsInt32, MessageHandler.Valid;
      ghost var was := machine.connectionData;
      WithConnectionOrdered(was, c);
      WithConnectionInt32(was, c);
      machine.connectionData := WithConnection(machine.connectionData, c);
      DistributeMessage(Attach(c), was);
    }

    /** detach_input on the server. */
    method DetachInput(c: Connection)
      requires Valid()
      modifies machine, (set h | h in clientAgents)
      ensures Valid() && machine.connectionData == Without(old(machine.connectionData), c)
      ensures forall h <- clientAgents :: old(Following(h)) ==> Following(h)
      ensures forall h <- clientAgents :: h.writeMsgs == old(h.writeMsgs) + [Detach(c)]
      ensures forall h <- clientAgents :: h.wire == if old(h.writeMsgs) == [] then old(h.wire) + [Detach(c)] else old(h.wire)
    {
      ghost var was := machine.connectionData;
      WithoutOrdered(was, c);
      machine.EraseAll(c);
      DistributeMessage(Detach(c), was);
    }

    /** The write to one client completes. */
    method WriteCompletedAt(i: nat)
      requires Valid() && i < |clientAgents| && clientAgents[i].writing
      modifies clientAgents[i]
      ensures Valid() && forall h <- clientAgents :: old(Following(h)) ==> Following(h)
      ensures var h := clientAgents[i];
              && h.writeMsgs == old(h.writeMsgs)[1..]
              && h.wire == if old(|h.writeMsgs|) > 1 then old(h.wire) + [old(h.writeMsgs)[1]] else old(h.wire)
    {
      OneAgent(i);
      clientAgents[i].WriteCompleted();
    }

    /** One client receives the next message. */
    method ReceiveAt(i: nat)
      requires Valid() && i < |clientAgents| && clientAgents[i].wire != []
      modifies clientAgents[i], clientAgents[i].peer
      ensures Valid() && forall h <- clientAgents :: old(Following(h)) ==> Following(h)
      ensures var h := clientAgents[i];
              && h.wire == old(h.wire)[1..] && h.writeMsgs == old(h.writeMsgs)
              && h.peer.connectionData == Applied(old(h.peer.connectionData), old(h.wire)[0])
    {
      OneAgent(i);
      clientAgents[i].Receive();
    }

    /**
     * Any interleaving of the four kinds of step; a completion or an arrival
     * that is not pending does not happen. Every client that followed still does.
     */
    method Interleave(steps: seq<Step>)
      requires Valid() && forall s <- steps :: s.Attaching? ==> IsInt32(s.c.source)
      modifies machine, (set h | h in clientAgents), (set h | h in clientAgents :: h.peer)
      ensures Valid() && forall h <- clientAgents :: old(Following(h)) ==> Following(h)
      ensures machine.connectionData == Edited(old(machine.connectionData), steps)
    {
      hide *;
      assert steps[..0] == [];
      Unedited(machine.connectionData);
      for i := 0 to |steps|
        invariant Valid() && forall h <- clientAgents :: old(Following(h)) ==> Following(h)
        invariant machine.connectionData == Edited(old(machine.connectionData), steps[..i])
      {
        assert steps[..i + 1] == steps[..i] + [steps[i]] && steps[i] in steps;
        EditedLast(old(machine.connectionData), steps[..i], steps[i]);
        TakeStep(steps[i]);
      }
      assert steps[..|steps|] == steps;
    }

    method TakeStep(step: Step)
      requires Valid() && (step.Attaching? ==> IsInt32(step.c.source))
      modifies machine, (set h | h in clientAgents), (set h | h in clientAgents :: h.peer)
      ensures Valid() && forall h <- clientAgents :: old(Following(h)) ==> Following(h)
      ensures machine.connectionData == Edit(old(machine.connectionData), step)
      ensures match step
              case Attaching(c) => forall h <- clientAgents :: h.writeMsgs == old(h.writeMsgs) + [Attach(c)]
              case Detaching(c) => forall h <- clientAgents :: h.writeMsgs == old(h.writeMsgs) + [Detach(c)]
              case Written(i) =>
                i < |clientAgents| ==>
                  var h := clientAgents[i];
                  && unchanged(h.peer) && h.writeMsgs == (if old(h.writing) then old(h.writeMsgs)[1..] else old(h.writeMsgs))
                  && h.wire == if old(h.writing) && old(|h.writeMsgs|) > 1 then old(h.wire) + [old(h.writeMsgs)[1]] else old(h.wire)
              case Received(i) =>
                i < |clientAgents| ==>
                  var h := clientAgents[i];
                  if old(h.wire) == [] then unchanged(h, h.peer)
                  else
                    && h.wire == old(h.wire)[1..] && h.writeMsgs == old(h.writeMsgs)
                    && h.peer.connectionData == Applied(old(h.peer.connectionData), old(h.wire)[0])
    {
      match step
      case Attaching(c) => AttachInput(c);
      case Detaching(c) => DetachInput(c);
      case Written(i) =>
        if i < |clientAgents| && clientAgents[i].writing {
          WriteCompletedAt(i);
        }
      case Received(i) =>
        if i < |clientAgents| && clientAgents[i].wire != [] {
          PeerIsNotMachine(i);
          ReceiveAt(i);
        }
    }

    lemma PeerIsNotMachine(i: nat)
      requires Valid() && i < |clientAgents|
      ensures clientAgents[i].peer != machine
    {
    }

    /** A new client gets a snapshot first. It will follow exactly if the snapshot can carry all names. */
    method AcceptClient(client: RIMachine) returns (h: MessageHandler)
      requires Valid() && client != machine && client.connectionData == []
      requires forall g <- clientAgents :: g.peer != client
      modifies this`clientAgents
      ensures Valid() && fresh(h) && clientAgents == old(clientAgents) + [h] && h.peer == client
      ensures Following(h) <==> forall c <- machine.connectionData :: Carried(c)
      ensures forall g <- old(clientAgents) :: old(Following(g)) ==> Following(g)
    {
      hide Ordered, Carried, IsInt32, Following, MessageHandler.Valid;
      h := Greet(client);
      clientAgents := clientAgents + [h];
    }

    /** send_all_objects_to_new_client, for this machine: the snapshot is the first message to the new client. */
    method Greet(client: RIMachine) returns (h: MessageHandler)
      requires Ordered(machine.connectionData) && (forall c <- machine.connectionData :: IsInt32(c.source))
      requires client.connectionData == []
      ensures fresh(h) && h.peer == client && h.Valid()
      ensures Following(h) <==> forall c <- machine.connectionData :: Carried(c)
    {
      h := new MessageHandler(client);
      var text := Serialize(machine.connectionData);
      h.DeliverMessage(Create(text));
      assert h.Undelivered() == [Create(text)];
      SnapshotApplied(text, machine.connectionData);
    }
  }

  /** equal_range */
  method Range(t: seq<Connection>, source: int) returns (first: nat, last: nat)
    requires Ordered(t)
    ensures first <= last <= |t|
    ensures forall i :: 0 <= i < first ==> t[i].source < source
    ensures forall i :: first <= i < last ==> t[i].source == source
    ensures forall i :: last <= i < |t| ==> t[i].source > source
  {
    first := 0;
    while first < |t| && t[first].source < source
      invariant first <= |t| && forall i :: 0 <= i < first ==> t[i].source < source
    {
      first := first + 1;
    }
    last := first;
    while last < |t| && t[last].source == source
      invariant first <= last <= |t| && forall i :: first <= i < last ==> t[i].source == source
    {
      last := last + 1;
    }
  }
}
