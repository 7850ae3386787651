/**
 * The event store of midi_generation.cc: nodes that are either in the free
 * list shared by all builders or in one builder's chain. A chain's length is
 * nowhere stored; `last` is only meaningful in a chain's first node.
 */
module MidiGeneration {

  import opened Sequences

  const DEFAULT_MAX_FREE_CHAIN := 256

  /** A MidiEvent: its length and the three data bytes that builders fill. */
  datatype Event = Event(length: nat, status: int, data1: int, data2: int)

  const MIDI_NOTE_OFF := 0x80
  const MIDI_NOTE_ON := 0x90
  const MIDI_CONTROL_CHANGE := 0xb0
  const MIDI_PITCH_BEND := 0xe0

  class Node {
    var data: Event
    var next: Node?
    var last: Node?
    ghost var home: object?  // the chain or free list that holds the node; null while it is in hand

    constructor ()
      ensures next == null && last == null && home == null
      ensures data == Event(0, 0, 0, 0)
    {
      data := Event(0, 0, 0, 0);
      next, last, home := null, null, null;
    }
  }

  /** s is laid out along the next pointers and leads to `end`. */
  ghost predicate LinkedTo(s: seq<Node>, end: Node?)
    reads (set n | n in s)`next
  {
    s != [] ==>
      && s[0].next == (if |s| > 1 then s[1] else end)
      && LinkedTo(s[1..], end)
  }

  /** The events held by the nodes of s. */
  ghost function Events(s: seq<Node>): (e: seq<Event>)
    reads s
    ensures |e| == |s|
  {
    seq(|s|, i requires 0 <= i < |s| reads s => s[i].data)
  }

  lemma {:induction false} LinkedAppend(a: seq<Node>, b: seq<Node>, end: Node?)
    requires LinkedTo(a, if b == [] then end else b[0]) && LinkedTo(b, end)
    ensures LinkedTo(a + b, end)
  {
    if a == [] {
      assert a + b == b;
    } else {
      LinkedAppend(a[1..], b, end);
      assert (a + b)[1..] == a[1..] + b;
    }
  }

  lemma {:induction false} LinkedSplit(a: seq<Node>, b: seq<Node>, end: Node?)
    requires LinkedTo(a + b, end)
    ensures LinkedTo(a, if b == [] then end else b[0]) && LinkedTo(b, end)
  {
    if a == [] {
      assert a + b == b;
    } else {
      assert (a + b)[1..] == a[1..] + b;
      LinkedSplit(a[1..], b, end);
    }
  }

  /** A chain of nodes held by `owner`: what a MidiEventChain* variable points to. */
  ghost predicate IsChain(owner: object, head: Node?, s: seq<Node>)
    reads s
  {
    && LinkedTo(s, null)
    && Distinct(s)
    && (head == null <==> s == [])
    && (s != [] ==> head == s[0])
    && (forall n <- s :: n.home == owner)
  }

  class Chain {
    var head: Node?
    ghost var nodes: seq<Node>
    ghost var owner: MidiEventBuilder?  // the builder whose chain it is

    ghost predicate Valid()
      reads this`head, this`nodes, nodes
    {
      && IsChain(this, head, nodes)
      && (nodes != [] ==> nodes[0].last == nodes[|nodes| - 1])
    }

    constructor ()
      ensures Valid() && nodes == []
    {
      head, nodes, owner := null, [], null;
    }

    /** get_chain_head: unlink the first node; the next one inherits the tail pointer. */
    method GetHead() returns (n: Node?)
      requires Valid()
      modifies this`head, this`nodes, nodes
      ensures Valid()
      ensures n == null <==> old(nodes) == []
      ensures n == null ==> nodes == []
      ensures n != null ==> n == old(nodes)[0] && nodes == old(nodes)[1..]
      ensures n != null ==> n.home == null && n.next == null && n.last == n
      ensures forall m <- old(nodes) :: m.data == old(m.data)
    {
      if head == null {
        return null;
      }
      n := head;
      ghost var rest := nodes[1..];
      assert forall m <- rest :: m != n;
      if n.next != null {
        n.next.last := n.last;
      }
      head := n.next;
      n.next := null;
      n.last := n;
      n.home := null;
      nodes := rest;
    }

    /** join_chains: all of the source goes behind this chain, in constant time. */
    method Join(source: Node?, ghost s: seq<Node>)
      requires Valid()
      requires LinkedTo(s, null) && Distinct(s) && (forall n <- s :: n.home == null)
      requires source == null <==> s == []
      requires s != [] ==> source == s[0] && s[0].last == s[|s| - 1]
      modifies this`head, this`nodes, nodes, s
      ensures Valid() && nodes == old(nodes) + s
      ensures forall m <- nodes :: m.data == old(m.data)
    {
      hide *;
      if source == null {
        return;
      }
      ghost var a := nodes;
      Parts(s);
      DistinctJoin(a, s);
      if head == null {
        head := source;
        assert a + s == s;
      } else {
        Append(head, source, a, s);
      }
      nodes := a + s;
      Claim(s);
      IsValid();
    }

    lemma Parts(s: seq<Node>)
      requires Valid() && forall n <- s :: n.home == null
      ensures LinkedTo(nodes, null) && Distinct(nodes) && (forall n <- nodes :: n.home == this && n !in s)
      ensures head == null <==> nodes == []
      ensures nodes != [] ==> head == nodes[0] && nodes[0].last == nodes[|nodes| - 1]
    {
    }

    /** The branch of join_chains for a destination that is not empty. */
    static method Append(head: Node, source: Node, ghost a: seq<Node>, ghost s: seq<Node>)
      requires a != [] && s != [] && head == a[0] && source == s[0]
      requires head.last == a[|a| - 1] && source.last == s[|s| - 1]
      requires LinkedTo(a, null) && LinkedTo(s, null) && Distinct(a + s)
      modifies (set n | n in a)`next, head`last
      ensures LinkedTo(a + s, null) && head.last == s[|s| - 1]
    {
      hide *;
      var lastEntry := head.last;
      RelinkTail(a, s, lastEntry, source);
      head.last := source.last;
    }

    /** The nodes of s, now part of the chain, get it as their home. */
    ghost method Claim(s: seq<Node>)
      requires forall n <- nodes :: n.home == this || n in s
      modifies (set n | n in s)`home
      ensures forall n <- nodes :: n.home == this
    {
      forall n <- s {
        n.home := this;
      }
    }

    lemma IsValid()
      requires LinkedTo(nodes, null) && Distinct(nodes) && (forall n <- nodes :: n.home == this)
      requires nodes != [] && head == nodes[0] && head.last == nodes[|nodes| - 1]
      ensures Valid()
    {
    }
  }

  /** Pointing the last node of a at the first of s makes the two one chain. */
  method RelinkTail(ghost a: seq<Node>, ghost s: seq<Node>, lastEntry: Node, source: Node)
    requires a != [] && s != [] && lastEntry == a[|a| - 1] && source == s[0]
    requires LinkedTo(a, null) && LinkedTo(s, null) && Distinct(a + s)
    modifies lastEntry`next
    ensures LinkedTo(a + s, null)
  {
    ghost var b := a[..|a| - 1];
    assert a == b + [lastEntry];
    LinkedSplit(b, [lastEntry], null);
    assert forall n <- b :: n != lastEntry by {
      assert forall i :: 0 <= i < |b| ==> (a + s)[i] == b[i];
      assert (a + s)[|a| - 1] == lastEntry;
    }
    assert lastEntry !in s by {
      assert forall i :: 0 <= i < |s| ==> (a + s)[|a| + i] == s[i];
      assert (a + s)[|a| - 1] == lastEntry;
    }
    lastEntry.next := source;
    LinkedAppend(b, [lastEntry], source);
    LinkedAppend(a, s, null);
  }

  /** MidiEventChainControler: the free list, and every chain that is fed from it. */
  class Controller {
    var nextFree: Node?
    ghost var free: seq<Node>
    ghost var all: set<Node>
    ghost var chains: set<Chain>

    /**
     * Every node ever allocated is in hand, in the free list or in one chain,
     * and all of these are well formed. Nothing maintains `last` in the free list.
     */
    ghost predicate Inv()
      reads this, all, chains
    {
      && (forall n <- free :: n in all)
      && (forall c <- chains, n <- c.nodes :: n in all)
      && IsChain(this, nextFree, free)
      && (forall c <- chains :: c.Valid())
      && (forall n <- all :: n.home == this ==> n in free)
      && (forall n <- all, c <- chains :: n.home == c ==> n in c.nodes)
      && (forall n <- all :: n.home == null || n.home == this || n.home in chains)
    }

    constructor ()
      ensures Inv() && free == [] && chains == {} && all == {}
    {
      nextFree, free, all, chains := null, [], {}, {};
    }

    /** An empty chain joins the ones that are fed from this store. */
    ghost method Admit(c: Chain)
      requires Inv() && c.Valid() && c.nodes == [] && forall n <- all :: n.home != c
      modifies this`chains
      ensures Inv() && chains == old(chains) + {c}
    {
      hide IsChain, Chain.Valid;
      chains := chains + {c};
    }

    /** init_free_midi_event_chain: a fresh block of nodes, linked in order. */
    method InitFreeMidiEventChain()
      requires Inv() && free == []
      modifies this`nextFree, this`free, this`all
      ensures Inv() && |free| == 256
      ensures fresh(free) && all == old(all) + (set n | n in free)
    {
      ghost var block;
      nextFree, block := NewBlock();
      free := block;
      all := all + (set n | n in block);
    }

    method NewBlock() returns (next: Node?, ghost block: seq<Node>)
      ensures |block| == DEFAULT_MAX_FREE_CHAIN && fresh(block)
      ensures IsChain(this, next, block)
    {
      next, block := null, [];
      for k := 0 to DEFAULT_MAX_FREE_CHAIN
        invariant |block| == k && fresh(block)
        invariant IsChain(this, next, block)
      {
        var n := new Node();
        n.next := next;
        n.home := this;
        assert n !in block;
        assert ([n] + block)[1..] == block;
        block := [n] + block;
        next := n;
      }
    }

    /** pop_next_free_midi: the head of the free list, refilled when empty. Sizes over four are refused. */
    method PopNextFreeMidi(size: nat) returns (n: Node?)
      requires Inv()
      modifies this`nextFree, this`free, this`all, (set x | x in free)
      ensures Inv()
      ensures n == null <==> size > 4
      ensures n == null ==> free == old(free) && all == old(all)
      ensures n != null ==>
                && n in all && n.home == null && n.next == null && n.last == n && n.data.length == size
                && (n in old(free) || fresh(n))
                && (forall m <- old(free) :: m != n ==> m.home == this)
                && (forall m <- all - old(all) :: fresh(m) && (m == n || m.home == this))
                && old(all) <= all
    {
      if size > 4 {
        return null;
      }
      if nextFree == null {
        InitFreeMidiEventChain();
      }
      n := TakeFree(size);
    }

    method TakeFree(size: nat) returns (n: Node)
      requires Inv() && free != []
      modifies this`nextFree, this`free, (set x | x in free)
      ensures Inv()
      ensures n == old(free)[0] && free == old(free)[1..]
      ensures n in all && n.home == null && n.next == null && n.last == n && n.data.length == size
      ensures forall m <- old(free) :: m != n ==> m.home == this
    {
      hide *;
      FirstFree();
      n := nextFree;
      ghost var rest := free[1..];
      nextFree := n.next;
      free := rest;
      n.next := null;
      n.last := n;
      n.home := null;
      n.data := n.data.(length := size);
      InvTaken(n);
    }

    /** The first free node, its successor, and where else nodes are. */
    lemma FirstFree()
      requires Inv() && free != []
      ensures nextFree == free[0] && free[0] in all
      ensures IsChain(this, free[0].next, free[1..])
      ensures forall m <- free[1..] :: m != free[0]
      ensures forall m <- free :: m.home == this
    {
      FirstIsAlone(free);
    }

    /** The invariant with the first free node in hand. */
    twostate lemma InvTaken(new n: Node)
      requires old(Inv()) && old(free) != [] && n == old(free)[0]
      requires all == old(all) && chains == old(chains) && free == old(free)[1..] && nextFree == old(n.next)
      requires n.home == null
      requires forall m <- all :: m == n || unchanged(m)
      requires forall c <- chains :: unchanged(c)
      ensures Inv() && n in all
      ensures forall m <- old(free) :: m != n ==> m.home == this
    {
      FirstIsAlone(old(free));
      assert forall c <- chains, m <- c.nodes :: m != n by {
        assert forall c <- chains, m <- c.nodes :: old(m.home) == c;
      }
      assert IsChain(this, nextFree, free) by {
        assert old(IsChain(this, n.next, free[1..]));
      }
      hide IsChain, Chain.Valid;
      forall d <- chains ensures d.Valid() {
        assert forall m <- d.nodes :: m in all && unchanged(m);
        assert d.nodes != [] ==> d.nodes[0] in d.nodes;
        assert old(d.Valid());
      }
    }

    lemma FirstIsAlone(s: seq<Node>)
      requires s != [] && Distinct(s)
      ensures forall m <- s[1..] :: m != s[0]
      ensures forall m <- s :: m == s[0] || m in s[1..]
    {
    }

    /** SET_MIDI_DATA_3 on an event in hand. */
    method SetMidiData(n: Node, status: int, data1: int, data2: int)
      requires Inv() && n in all && n.home == null && n.next == null && n.last == n
      modifies n`data
      ensures Inv() && n.data == Event(old(n.data.length), status, data1, data2)
    {
      assert forall c <- chains, m <- c.nodes :: m != n;
      n.data := Event(n.data.length, status, data1, data2);
      hide IsChain;
      assert IsChain(this, nextFree, free);
      forall d <- chains ensures d.Valid() {
        assert d.nodes != [] ==> d.nodes[0] in d.nodes;
        assert old(d.Valid());
      }
    }

    /** pop_next_free_midi(3) and SET_MIDI_DATA_3 on what it returns. */
    method NewEvent(status: int, data1: int, data2: int) returns (n: Node)
      requires Inv() && forall m <- all :: m.home != null
      modifies this`nextFree, this`free, this`all, (set x | x in free)
      ensures Inv()
      ensures n in all && n.home == null && n.next == null && n.last == n
      ensures n.data == Event(3, status, data1, data2)
      ensures n in old(free) || fresh(n)
      ensures forall m <- all - {n} :: m.home != null
      ensures old(all) <= all && fresh(all - old(all))
    {
      hide IsChain, Chain.Valid;
      ghost var was := free;
      n := PopNextFreeMidi(3);
      ghost var others := all - {n};
      assert forall m <- others :: m.home != null by {
        assert forall m <- others :: m.home == this || (m in old(all) && m !in was);
      }
      hide Inv;
      SetMidiData(n, status, data1, data2);
      assert forall m <- others :: m.home != null;
    }

    /** push_next_free_midi: back to the front of the free list. */
    method PushNextFreeMidi(n: Node)
      requires Inv() && n in all && n.home == null
      modifies this`nextFree, this`free, n`next, n`last, n`home
      ensures Inv() && free == [n] + old(free) && n.home == this
    {
      hide *;
      if nextFree != null {
        n.last := nextFree.last;
      } else {
        n.last := n;
      }
      n.next := nextFree;
      n.home := this;
      nextFree := n;
      free := [n] + free;
      InvPushed(n);
    }

    /** The invariant with a node from hand in front of the free list. */
    twostate lemma InvPushed(new n: Node)
      requires old(Inv()) && n in old(all) && old(n.home) == null
      requires all == old(all) && chains == old(chains) && free == [n] + old(free)
      requires nextFree == n && n.next == old(nextFree) && n.home == this
      requires forall m <- all :: m == n || unchanged(m)
      requires forall c <- chains :: unchanged(c)
      ensures Inv()
    {
      forall d <- chains ensures d.Valid() && forall m <- d.nodes :: m != n && m in all {
        assert old(d.Valid());
        forall m <- d.nodes ensures m in all && m != n && unchanged(m) {
          assert m in old(d.nodes) && old(m.home) == d;
        }
        assert d.nodes != [] ==> d.nodes[0] in d.nodes;
        assert old(d.Valid());
      }
      assert free[1..] == old(free);
      assert forall m <- old(free) :: m != n && m in all;
      assert IsChain(this, nextFree, free);
      hide IsChain, Chain.Valid;
    }

    /** get_chain_head on one of the chains. */
    method GetChainHead(c: Chain) returns (n: Node?)
      requires Inv() && c in chains
      modifies c`head, c`nodes, (set x | x in c.nodes)
      ensures Inv()
      ensures n == null <==> old(c.nodes) == []
      ensures n == null ==> c.nodes == []
      ensures n != null ==> n == old(c.nodes)[0] && c.nodes == old(c.nodes)[1..]
      ensures n != null ==> n in all && n.home == null && n.next == null && n.last == n
      ensures forall m <- old(c.nodes) :: m.data == old(m.data)
    {
      OthersDisjoint(c, c.nodes);
      ghost var was := c.nodes;
      n := c.GetHead();
      assert forall m <- was :: m == n || m in c.nodes;
      InvChanged(c, was);
    }

    /** What is in c, or in hand, is in no other chain and not free. */
    lemma OthersDisjoint(c: Chain, s: seq<Node>)
      requires Inv() && c in chains && forall n <- s :: n.home == c || n.home == null
      ensures forall n <- s :: n !in free
      ensures forall d <- chains, n <- s :: d != c ==> n !in d.nodes
    {
    }

    lemma FreeDisjoint()
      requires Inv()
      ensures forall c <- chains, n <- c.nodes :: n !in free
    {
    }

    /** chain_to_tail: one event in hand goes behind the chain. */
    method ChainToTail(c: Chain, n: Node)
      requires Inv() && c in chains && n in all
      requires n.home == null && n.next == null && n.last == n
      modifies c`head, c`nodes, (set x | x in c.nodes), n
      ensures Inv() && c.nodes == old(c.nodes) + [n] && n.home == c
      ensures forall m <- c.nodes :: m.data == old(m.data)
    {
      OthersDisjoint(c, c.nodes);
      OthersDisjoint(c, [n]);
      ghost var was := c.nodes + [n];
      c.Join(n, [n]);
      InvChanged(c, was);
    }

    /** Work on chain c with the nodes s, which were in it or in hand and are so now. */
    twostate lemma InvChanged(new c: Chain, new s: seq<Node>)
      requires old(Inv()) && unchanged(this) && c in old(chains)
      requires forall m <- s :: m in old(all) && (old(m.home) == null || old(m.home) == c)
      requires forall m <- s :: m in c.nodes || m.home == null
      requires c.Valid() && forall m <- old(c.nodes) + c.nodes :: m in s
      requires forall d <- chains :: d != c ==> unchanged(d)
      requires forall m <- all :: m in s || unchanged(m)
      ensures Inv()
    {
      forall d <- chains | d != c ensures d.Valid() {
        assert forall m <- d.nodes :: m in all && unchanged(m) by {
          assert forall m <- d.nodes :: old(m.home) == d;
        }
        assert d.nodes != [] ==> d.nodes[0] in d.nodes;
        assert old(d.Valid());
      }
      assert IsChain(this, nextFree, free) by {
        assert forall m <- free :: unchanged(m) by {
          assert forall m <- free :: old(m.home) == this;
        }
      }
    }
  }

  /**
   * The filled slots increase, lie below the cursor and inside the buffer,
   * and point to the last nodes of the freeable chain, which still hold the
   * events that were placed last.
   */
  ghost predicate Filled(slots: seq<int>, buffer: seq<Node?>, nodes: seq<Node>, events: seq<Event>, placed: seq<Event>,
                         position: int, size: int)
  {
    && |slots| <= |nodes| == |events|
    && |slots| <= |placed|
    && (forall i, j :: 0 <= i < j < |slots| ==> slots[i] < slots[j])
    && (slots != [] ==> size <= |buffer|)
    && (forall i :: 0 <= i < |slots| ==>
          && 0 <= slots[i] < position
          && slots[i] < size
          && buffer[slots[i]] == nodes[|nodes| - |slots| + i])
    && events[|nodes| - |slots|..] == placed[|placed| - |slots|..]
  }

  lemma FilledLater(slots: seq<int>, buffer: seq<Node?>, nodes: seq<Node>, events: seq<Event>, placed: seq<Event>,
                    position: int, size: int, later: int)
    requires Filled(slots, buffer, nodes, events, placed, position, size) && position <= later
    ensures Filled(slots, buffer, nodes, events, placed, later, size)
  {
  }

  lemma FilledStep(slots: seq<int>, buffer: seq<Node?>, nodes: seq<Node>, events: seq<Event>, placed: seq<Event>,
                   position: int, size: int, n: Node, e: Event)
    requires Filled(slots, buffer, nodes, events, placed, position, size)
    requires 0 <= position < size <= |buffer|
    ensures Filled(slots + [position], buffer[position := n], nodes + [n], events + [e], placed + [e], position + 1, size)
  {
    var k, l := |nodes| - |slots|, |placed| - |slots|;
    assert (events + [e])[k..] == events[k..] + [e];
    assert (placed + [e])[l..] == placed[l..] + [e];
  }

  /** A builder's account: all events, those placed, the filled slots, the cursor, the waiting nodes. */
  datatype Account = Account(queued: seq<Event>, placed: seq<Event>, slots: seq<int>,
                             position: int, size: int, waiting: seq<Node>)

  /** The cells of a buffer that are not among `from` up to `to` hold what they held. */
  ghost predicate KeptOutside(was: seq<Node?>, now: seq<Node?>, from: int, to: int) {
    |now| == |was| && forall x :: 0 <= x < |was| && !(from <= x < to) ==> now[x] == was[x]
  }

  lemma KeptTwice(a: seq<Node?>, b: seq<Node?>, c: seq<Node?>, i: int, j: int, k: int)
    requires i <= j <= k && KeptOutside(a, b, i, j) && KeptOutside(b, c, j, k)
    ensures KeptOutside(a, c, i, k)
  {
  }

  /** As many increasing numbers as there are below their number are 0, 1, 2 and so on. */
  lemma {:induction false} FirstSlots(s: seq<int>)
    requires forall i, j :: 0 <= i < j < |s| ==> s[i] < s[j]
    requires forall i :: 0 <= i < |s| ==> 0 <= s[i] < |s|
    ensures forall i :: 0 <= i < |s| ==> s[i] == i
  {
    if s != [] {
      var t := s[..|s| - 1];
      assert forall i :: 0 <= i < |t| ==> t[i] < s[|s| - 1];
      FirstSlots(t);
      assert t != [] ==> t[|t| - 1] == |t| - 1;
      assert forall i :: 0 <= i < |t| ==> s[i] == t[i];
    }
  }

  lemma KeptAll(a: seq<Node?>)
    ensures forall i, j :: KeptOutside(a, a, i, j)
  {
  }

  /** What a queue call records: where the event went, and that nothing else moved. */
  ghost predicate Recorded(was: Account, now: Account, e: Event) {
    if was.position < was.size then
      now == was.(queued := was.queued + [e], placed := was.placed + [e],
                  slots := was.slots + [was.position], position := was.position + 1)
    else
      && now == was.(queued := was.queued + [e], waiting := now.waiting)
      && |now.waiting| == |was.waiting| + 1
      && now.waiting[..|was.waiting|] == was.waiting
  }

  lemma RecordedIs(was: Account, now: Account, e: Event)
    requires Recorded(was, now, e)
    ensures now.queued == was.queued + [e] && now.size == was.size
    ensures now.position == was.position + if was.position < was.size then 1 else 0
    ensures was.position < was.size ==> now.waiting == was.waiting
    ensures was.position >= was.size ==> |now.waiting| == |was.waiting| + 1 && now.waiting[..|was.waiting|] == was.waiting
  {
  }

  lemma OnlyForward(was: Account, now: Account, e: Event)
    requires Recorded(was, now, e)
    ensures now.position >= was.position && now.size == was.size
  {
  }

  /** What use_buffer leaves: the events that waited, packed from slot 0, as far as they fit. */
  ghost predicate Opened(was: Account, now: Account, heldBefore: seq<Node>, held: seq<Node>) {
    && now.queued == was.queued
    && now.position == |now.slots| == |held| - |heldBefore|
    && held + now.waiting == heldBefore + was.waiting
    && (now.waiting != [] ==> now.position >= now.size)
  }

  class MidiEventBuilder {
    const pool: Controller
    const remaining: Chain  // events still to be transmitted
    const freeable: Chain   // events whose nodes go back when the buffer is finished
    var buffer: array?<Node?>
    var bufferSize: int
    var bufferPosition: int
    var bufferPLastSkip: int
    ghost var ready: bool         // some buffer has been in use: the cursor fields are set
    ghost var queued: seq<Event>  // every event ever queued here
    ghost var placed: seq<Event>  // every event ever put in a buffer, in the order of placing
    ghost var slots: seq<int>     // the slots filled in the open buffer

    /** What the reader of the open buffer finds. */
    ghost function Cells(): (cells: seq<Node?>)
      reads this`buffer, buffer
    {
      if buffer == null then [] else buffer[..]
    }

    /** The open buffer's slots that were filled since it was opened. */
    ghost predicate InBuffer()
      reads this, buffer, freeable, freeable.nodes
    {
      Filled(slots, Cells(), freeable.nodes, Events(freeable.nodes), placed,
             bufferPosition, bufferSize)
    }

    ghost predicate Valid()
      reads this, buffer, remaining, freeable, remaining.nodes, freeable.nodes
    {
      && remaining != freeable
      && queued == placed + Events(remaining.nodes)
      && InBuffer()
      && (ready ==>
            && bufferPosition >= 0
            && (bufferSize > 0 ==> buffer != null && bufferSize <= buffer.Length && bufferPosition >= bufferPLastSkip)
            && (remaining.nodes != [] ==> bufferPosition >= bufferSize))
      && (!ready ==> remaining.nodes == [] && slots == [])
    }

    constructor (p: Controller)
      ensures Valid() && pool == p && !ready && buffer == null
      ensures queued == [] && placed == []
      ensures fresh(remaining) && remaining.Valid() && remaining.nodes == [] && remaining.owner == this
      ensures fresh(freeable) && freeable.Valid() && freeable.nodes == [] && freeable.owner == this
    {
      pool := p;
      remaining := new Chain();
      freeable := new Chain();
      buffer := null;
      ready, queued, placed, slots := false, [], [], [];
      new;
      remaining.owner, freeable.owner := this, this;
    }

    /** One pass of the loop of process_freeable_chain. */
    method FreeOne()
      requires pool.Inv() && freeable in pool.chains && freeable.nodes != []
      modifies freeable`head, freeable`nodes, (set x | x in freeable.nodes), pool`nextFree, pool`free
      ensures pool.Inv() && freeable.nodes == old(freeable.nodes)[1..]
      ensures forall n <- old(freeable.nodes) :: n.home == pool || n in freeable.nodes
      ensures forall n <- freeable.nodes :: n.home == freeable && n in old(freeable.nodes)
      ensures freeable.head == null <==> freeable.nodes == []
    {
      hide IsChain;
      var mev := pool.GetChainHead(freeable);
      assert freeable.Valid();
      pool.PushNextFreeMidi(mev);
      assert freeable.Valid();
      HomesOf(freeable);
    }

    lemma HomesOf(c: Chain)
      requires c.Valid()
      ensures forall n <- c.nodes :: n.home == c
      ensures c.head == null <==> c.nodes == []
    {
    }

    /** process_freeable_chain: every node of the chain goes back to the free list. */
    method ProcessFreeableChain()
      requires pool.Inv() && freeable in pool.chains
      modifies freeable`head, freeable`nodes, (set x | x in freeable.nodes), pool`nextFree, pool`free
      ensures pool.Inv() && freeable.nodes == []
      ensures forall n <- old(freeable.nodes) :: n.home == pool
    {
      ghost var was := freeable.nodes;
      HomesOf(freeable);
      while freeable.head != null
        invariant pool.Inv()
        invariant freeable.head == null <==> freeable.nodes == []
        invariant forall n <- freeable.nodes :: n.home == freeable && n in was
        invariant forall n <- was :: n.home == pool || n in freeable.nodes
        decreases |freeable.nodes|
      {
        hide IsChain, Chain.Valid, Controller.Inv;
        FreeOne();
      }
    }

    /** The cursor stands inside a buffer of its own size. */
    ghost predicate Open()
      reads this, buffer
    {
      0 <= bufferPosition < bufferSize && buffer != null && bufferSize <= buffer.Length
    }

    /** The event in hand goes into the slot under the cursor, and its node into the freeable chain. */
    method Place(n: Node)
      requires pool.Inv() && freeable in pool.chains && Open() && InBuffer()
      requires n in pool.all && n.home == null && n.next == null && n.last == n
      modifies this`bufferPosition, this`slots, this`placed, buffer
      modifies freeable`head, freeable`nodes, (set x | x in freeable.nodes), n
      ensures pool.Inv() && InBuffer()
      ensures bufferPosition == old(bufferPosition) + 1
      ensures slots == old(slots) + [old(bufferPosition)]
      ensures freeable.nodes == old(freeable.nodes) + [n] && n.home == freeable && n.data == old(n.data)
      ensures placed == old(placed) + [n.data]
      ensures buffer[old(bufferPosition)] == n
      ensures KeptOutside(old(Cells()), Cells(), old(bufferPosition), bufferPosition)
      ensures forall x :: 0 <= x < buffer.Length && x != old(bufferPosition) ==> buffer[x] == old(buffer[x])
    {
      hide *;
      Step(n);
      AppendPlaced(n);
      StillInBuffer();
    }

    /** buffer[buffer_position++] = mev */
    method Step(n: Node)
      requires Open() && InBuffer()
      modifies this`bufferPosition, this`slots, this`placed, buffer
      ensures bufferPosition == old(bufferPosition) + 1
      ensures slots == old(slots) + [old(bufferPosition)]
      ensures placed == old(placed) + [n.data]
      ensures buffer != null && 0 <= old(bufferPosition) < buffer.Length && buffer[old(bufferPosition)] == n
      ensures forall x :: 0 <= x < buffer.Length && x != old(bufferPosition) ==> buffer[x] == old(buffer[x])
      ensures KeptOutside(old(Cells()), Cells(), old(bufferPosition), bufferPosition)
      ensures Filled(slots, buffer[..], freeable.nodes + [n], Events(freeable.nodes) + [n.data], placed, bufferPosition, bufferSize)
    {
      ghost var b := buffer[..];
      FilledStep(slots, b, freeable.nodes, Events(freeable.nodes), placed, bufferPosition, bufferSize, n, n.data);
      hide Filled, Events;
      buffer[bufferPosition] := n;
      assert buffer[..] == b[bufferPosition := n];
      slots := slots + [bufferPosition];
      placed := placed + [n.data];
      bufferPosition := bufferPosition + 1;
    }

    lemma StillInBuffer()
      requires buffer != null
      requires Filled(slots, buffer[..], freeable.nodes, Events(freeable.nodes), placed, bufferPosition, bufferSize)
      ensures InBuffer()
    {
    }

    /** chain_to_tail on the freeable chain, as it shows in the events held there. */
    method AppendPlaced(n: Node)
      requires pool.Inv() && freeable in pool.chains
      requires n in pool.all && n.home == null && n.next == null && n.last == n
      modifies freeable`head, freeable`nodes, (set x | x in freeable.nodes), n
      ensures pool.Inv() && freeable.nodes == old(freeable.nodes) + [n] && n.home == freeable && n.data == old(n.data)
      ensures Events(freeable.nodes) == old(Events(freeable.nodes)) + [n.data]
    {
      hide IsChain, Chain.Valid, Controller.Inv;
      ghost var was := freeable.nodes;
      pool.ChainToTail(freeable, n);
      assert n in freeable.nodes;
      assert forall i :: 0 <= i < |was| ==> freeable.nodes[i] in freeable.nodes;
    }

    /** The chains are in the store, and the books between calls balance. */
    ghost predicate Balanced()
      reads this, buffer, pool`chains, remaining, freeable, remaining.nodes, freeable.nodes
    {
      && remaining in pool.chains && freeable in pool.chains && remaining != freeable
      && InBuffer()
      && queued == placed + Events(remaining.nodes)
      && bufferPosition >= 0
      && (bufferSize > 0 ==> buffer != null && bufferSize <= buffer.Length)
    }

    /** The events of a chain that loses its first node. */
    method TakeRemaining() returns (n: Node)
      requires pool.Inv() && remaining in pool.chains && remaining.nodes != []
      modifies remaining`head, remaining`nodes, (set x | x in remaining.nodes)
      ensures pool.Inv() && n == old(remaining.nodes)[0] && remaining.nodes == old(remaining.nodes)[1..]
      ensures n in pool.all && n.home == null && n.next == null && n.last == n
      ensures [n.data] + Events(remaining.nodes) == old(Events(remaining.nodes))
    {
      hide IsChain, Chain.Valid, Controller.Inv;
      ghost var was := remaining.nodes;
      n := pool.GetChainHead(remaining);
      assert forall i :: 0 <= i < |was| ==> was[i] in was;
    }

    /** One pass of the loop of process_remaining_chain. */
    method TransmitOne()
      requires pool.Inv() && Balanced() && Open() && remaining.nodes != []
      modifies this`bufferPosition, this`slots, this`placed, buffer
      modifies remaining`head, remaining`nodes, (set x | x in remaining.nodes)
      modifies freeable`head, freeable`nodes, (set x | x in freeable.nodes)
      ensures pool.Inv() && Balanced()
      ensures KeptOutside(old(Cells()), Cells(), old(bufferPosition), bufferPosition)
      ensures bufferPosition == old(bufferPosition) + 1 && |slots| == |old(slots)| + 1
      ensures remaining.nodes == old(remaining.nodes)[1..]
      ensures freeable.nodes == old(freeable.nodes) + [old(remaining.nodes)[0]]
    {
      pool.OthersDisjoint(remaining, remaining.nodes);
      hide IsChain, Chain.Valid, Controller.Inv, Filled;
      var mev := TakeRemaining();
      pool.OthersDisjoint(remaining, [mev]);
      assert InBuffer();
      Deliver(mev);
    }

    /** An event taken from the remaining chain goes into the buffer. */
    method Deliver(mev: Node)
      requires pool.Inv() && remaining in pool.chains && freeable in pool.chains && remaining != freeable
      requires Open() && InBuffer() && queued == placed + ([mev.data] + Events(remaining.nodes))
      requires mev in pool.all && mev.home == null && mev.next == null && mev.last == mev
      modifies this`bufferPosition, this`slots, this`placed, buffer
      modifies freeable`head, freeable`nodes, (set x | x in freeable.nodes), mev
      ensures pool.Inv() && Balanced()
      ensures KeptOutside(old(Cells()), Cells(), old(bufferPosition), bufferPosition)
      ensures bufferPosition == old(bufferPosition) + 1 && |slots| == |old(slots)| + 1
      ensures freeable.nodes == old(freeable.nodes) + [mev]
    {
      hide *;
      NotInRemaining(mev);
      ghost var p, e, rest := placed, mev.data, Events(remaining.nodes);
      OpenIsOpen();
      EventsAre(remaining.nodes);
      Place(mev);
      EventsAre(remaining.nodes);
      assert Events(remaining.nodes) == rest;
      assert p + ([e] + rest) == (p + [e]) + rest;
      NowBalanced();
    }

    lemma OpenIsOpen()
      requires Open()
      ensures bufferPosition >= 0 && buffer != null && bufferSize <= buffer.Length
    {
    }

    /** What Place touches is not in the remaining chain. */
    lemma NotInRemaining(mev: Node)
      requires pool.Inv() && remaining in pool.chains && freeable in pool.chains && remaining != freeable && mev.home == null
      ensures forall n <- remaining.nodes :: n !in freeable.nodes && n != mev
    {
      pool.OthersDisjoint(freeable, freeable.nodes) by {
        HomesOfMine();
      }
      pool.OthersDisjoint(freeable, [mev]);
    }

    lemma NowBalanced()
      requires remaining in pool.chains && freeable in pool.chains && remaining != freeable && InBuffer()
      requires queued == placed + Events(remaining.nodes)
      requires bufferPosition >= 0 && (bufferSize > 0 ==> buffer != null && bufferSize <= buffer.Length)
      ensures Balanced()
    {
    }

    /** Nodes of s sit in one of this builder's chains. */
    ghost predicate Mine(s: seq<Node>)
      reads s
    {
      forall n <- s :: n.home == remaining || n.home == freeable
    }

    lemma HomesOfMine()
      requires pool.Inv() && remaining in pool.chains && freeable in pool.chains
      ensures Mine(remaining.nodes) && Mine(freeable.nodes)
      ensures remaining.head == null <==> remaining.nodes == []
    {
    }

    /** process_remaining_chain: as many remaining events as the buffer takes. */
    method ProcessRemainingChain()
      requires pool.Inv() && Balanced()
      modifies this`bufferPosition, this`slots, this`placed, buffer
      modifies remaining`head, remaining`nodes, freeable`head, freeable`nodes
      modifies (set x | x in remaining.nodes), (set x | x in freeable.nodes)
      ensures pool.Inv() && Balanced()
      ensures remaining.nodes != [] ==> bufferPosition >= bufferSize
      ensures KeptOutside(old(Cells()), Cells(), old(bufferPosition), bufferPosition)
      ensures bufferPosition - |slots| == old(bufferPosition - |slots|)
      ensures |freeable.nodes| - |slots| == old(|freeable.nodes| - |slots|)
      ensures freeable.nodes + remaining.nodes == old(freeable.nodes + remaining.nodes)
    {
      ghost var all := freeable.nodes + remaining.nodes;
      HomesOfMine();
      KeptAll(Cells());
      while bufferPosition < bufferSize && remaining.head != null
        invariant pool.Inv() && Balanced()
        invariant bufferPosition >= old(bufferPosition)
        invariant KeptOutside(old(Cells()), Cells(), old(bufferPosition), bufferPosition)
        invariant bufferPosition - |slots| == old(bufferPosition - |slots|)
        invariant |freeable.nodes| - |slots| == old(|freeable.nodes| - |slots|)
        invariant freeable.nodes + remaining.nodes == all
        invariant remaining.head == null <==> remaining.nodes == []
        decreases |remaining.nodes|
      {
        assert Open() && remaining.nodes != [];
        InAll(remaining.nodes, freeable.nodes, all);
        hide *;
        ghost var cells, position := Cells(), bufferPosition;
        TransmitOne();
        KeptTwice(old(Cells()), cells, Cells(), old(bufferPosition), position, bufferPosition);
        BalancedChains();
        HomesOfMine();
        assert freeable.nodes + remaining.nodes == all;
      }
    }

    lemma InAll(r: seq<Node>, f: seq<Node>, all: seq<Node>)
      requires f + r == all
      ensures forall n <- r :: n in all
      ensures forall n <- f :: n in all
      ensures r != [] ==> (f + [r[0]]) + r[1..] == all
    {
    }

    lemma BalancedChains()
      requires Balanced()
      ensures remaining in pool.chains && freeable in pool.chains && bufferPosition >= 0
    {
    }

    /** chain_to_tail on the remaining chain, as it shows in the events held there. */
    method Postpone(n: Node)
      requires pool.Inv() && remaining in pool.chains && freeable in pool.chains && remaining != freeable && InBuffer()
      requires n in pool.all && n.home == null && n.next == null && n.last == n
      modifies remaining`head, remaining`nodes, (set x | x in remaining.nodes), n
      ensures pool.Inv() && InBuffer()
      ensures remaining.nodes == old(remaining.nodes) + [n] && n.data == old(n.data)
      ensures Events(remaining.nodes) == old(Events(remaining.nodes)) + [n.data]
      ensures forall m <- remaining.nodes + freeable.nodes :: m.home != null
    {
      hide *;
      ghost var was, r := remaining.nodes, Events(remaining.nodes);
      NotInFreeable(n);
      EventsAre(was);
      pool.ChainToTail(remaining, n);
      HomesOfMine();
      InMine();
      EventsMore(was, n, r);
    }

    /** What goes into the remaining chain is not in the freeable one. */
    lemma NotInFreeable(n: Node)
      requires pool.Inv() && remaining in pool.chains && freeable in pool.chains && remaining != freeable && n.home == null
      ensures forall m <- freeable.nodes :: m !in remaining.nodes && m != n
    {
      pool.OthersDisjoint(freeable, freeable.nodes) by {
        HomesOfMine();
      }
    }

    static lemma EventsAre(s: seq<Node>)
      ensures |Events(s)| == |s| && forall i :: 0 <= i < |s| ==> Events(s)[i] == s[i].data && s[i] in s
    {
    }

    static lemma EventsMore(s: seq<Node>, n: Node, r: seq<Event>)
      requires |r| == |s| && forall i :: 0 <= i < |s| ==> r[i] == s[i].data
      ensures Events(s + [n]) == r + [n.data]
    {
    }

    lemma InMine()
      requires Mine(remaining.nodes) && Mine(freeable.nodes)
      ensures forall m <- remaining.nodes + freeable.nodes :: m.home != null
    {
    }

    /** The nodes of both chains. */
    ghost function Held(): (s: seq<Node>)
      reads remaining`nodes, freeable`nodes
    {
      remaining.nodes + freeable.nodes
    }

    lemma AfterPostpone(n: Node, r: seq<Event>)
      requires queued == placed + r + [n.data] && Events(remaining.nodes) == r + [n.data]
      ensures queued == placed + Events(remaining.nodes)
    {
      assert placed + r + [n.data] == placed + (r + [n.data]);
    }

    /** chain_event: into the buffer if there is room, else behind the remaining events. */
    method ChainEvent(n: Node)
      requires pool.Inv() && Balanced() && (remaining.nodes != [] ==> bufferPosition >= bufferSize)
      requires n in pool.all && n.home == null && n.next == null && n.last == n
      modifies this`bufferPosition, this`slots, this`placed, this`queued, buffer, n
      modifies remaining`head, remaining`nodes, freeable`head, freeable`nodes
      modifies (set x | x in remaining.nodes), (set x | x in freeable.nodes)
      ensures pool.Inv() && Balanced() && (remaining.nodes != [] ==> bufferPosition >= bufferSize)
      ensures Recorded(old(Books()), Books(), n.data)
      ensures KeptOutside(old(Cells()), Cells(), old(bufferPosition), bufferPosition)
      ensures queued == old(queued) + [n.data]
      ensures old(bufferPosition) < bufferSize ==>
                && bufferPosition == old(bufferPosition) + 1
                && buffer != null && 0 <= old(bufferPosition) < buffer.Length && buffer[old(bufferPosition)] == n
                && forall x :: 0 <= x < buffer.Length && x != old(bufferPosition) ==> buffer[x] == old(buffer[x])
      ensures old(bufferPosition) >= bufferSize ==>
                && bufferPosition == old(bufferPosition) && (buffer != null ==> buffer[..] == old(buffer[..]))
                && remaining.nodes == old(remaining.nodes) + [n]
      ensures n.home != null && n.data == old(n.data)
      ensures forall m <- old(Held()) :: m.home != null
    {
      hide IsChain, Chain.Valid, Controller.Inv, Filled, InBuffer, Balanced;
      if bufferPosition >= bufferSize {
        PostponeQueued(n);
      } else {
        PlaceQueued(n);
      }
    }

    method PostponeQueued(n: Node)
      requires pool.Inv() && Balanced() && bufferPosition >= bufferSize
      requires n in pool.all && n.home == null && n.next == null && n.last == n
      modifies this`queued, remaining`head, remaining`nodes, (set x | x in remaining.nodes), n
      ensures pool.Inv() && Balanced()
      ensures Recorded(old(Books()), Books(), n.data)
      ensures KeptOutside(old(Cells()), Cells(), old(bufferPosition), bufferPosition)
      ensures queued == old(queued) + [n.data] && remaining.nodes == old(remaining.nodes) + [n]
      ensures n.home != null && n.data == old(n.data)
      ensures forall m <- old(Held()) :: m.home != null
    {
      hide IsChain, Chain.Valid, Controller.Inv, Filled;
      KeptAll(Cells());
      ghost var r, held := Events(remaining.nodes), remaining.nodes;
      Postpone(n);
      queued := queued + [n.data];
      AfterPostpone(n, r);
      assert remaining.nodes[..|held|] == held;
      assert forall m <- held :: m in remaining.nodes + freeable.nodes;
      assert forall m <- freeable.nodes :: m in remaining.nodes + freeable.nodes;
      assert n in remaining.nodes + freeable.nodes;
    }

    method PlaceQueued(n: Node)
      requires pool.Inv() && Balanced() && bufferPosition < bufferSize && remaining.nodes == []
      requires n in pool.all && n.home == null && n.next == null && n.last == n
      modifies this`bufferPosition, this`slots, this`placed, this`queued, buffer
      modifies freeable`head, freeable`nodes, (set x | x in freeable.nodes), n
      ensures pool.Inv() && Balanced()
      ensures Recorded(old(Books()), Books(), n.data)
      ensures KeptOutside(old(Cells()), Cells(), old(bufferPosition), bufferPosition)
      ensures queued == old(queued) + [n.data] && bufferPosition == old(bufferPosition) + 1
      ensures buffer != null && 0 <= old(bufferPosition) < buffer.Length && buffer[old(bufferPosition)] == n
      ensures forall x :: 0 <= x < buffer.Length && x != old(bufferPosition) ==> buffer[x] == old(buffer[x])
      ensures n.home != null && n.data == old(n.data)
      ensures forall m <- old(Held()) :: m.home != null
    {
      hide IsChain, Chain.Valid, Controller.Inv, Filled;
      assert queued == placed;
      ghost var held := freeable.nodes;
      Place(n);
      HomesOfMine();
      assert forall m <- held :: m in freeable.nodes;
      queued := queued + [n.data];
      assert Events(remaining.nodes) == [];
    }

    /* The calls of the owner. */

    /** Nothing that this builder may touch is part of builder d. */
    ghost predicate ApartFrom(d: MidiEventBuilder)
      reads this, d, remaining, freeable, d.remaining, d.freeable, pool
    {
      && d.remaining != remaining && d.remaining != freeable && d.freeable != remaining && d.freeable != freeable
      && (buffer != null ==> d.buffer != buffer)
      && (forall n <- d.remaining.nodes :: n !in remaining.nodes && n !in freeable.nodes && n !in pool.free)
      && (forall n <- d.freeable.nodes :: n !in remaining.nodes && n !in freeable.nodes && n !in pool.free)
    }

    lemma Apart(builders: set<MidiEventBuilder>)
      requires World(pool, builders) && this in builders
      ensures forall d <- builders :: d != this ==> ApartFrom(d)
    {
      forall d <- builders | d != this ensures ApartFrom(d) {
        assert Attached(this, pool) && Attached(d, pool);
      }
    }

    /** This builder's account of its events. */
    ghost function Books(): (a: Account)
      reads this, remaining`nodes
    {
      Account(queued, placed, slots, bufferPosition, bufferSize, remaining.nodes)
    }

    /** pop_next_free_midi, SET_MIDI_DATA_3 and chain_event, as every queue call runs them. */
    method PopAndChain(status: int, data1: int, data2: int)
      requires pool.Inv() && Balanced() && (remaining.nodes != [] ==> bufferPosition >= bufferSize)
      requires forall m <- pool.all :: m.home != null
      modifies this`bufferPosition, this`slots, this`placed, this`queued, buffer
      modifies remaining`head, remaining`nodes, freeable`head, freeable`nodes
      modifies (set x | x in remaining.nodes), (set x | x in freeable.nodes)
      modifies pool`nextFree, pool`free, pool`all, (set x | x in pool.free)
      ensures pool.Inv() && Balanced() && (remaining.nodes != [] ==> bufferPosition >= bufferSize)
      ensures Recorded(old(Books()), Books(), Event(3, status, data1, data2))
      ensures KeptOutside(old(Cells()), Cells(), old(bufferPosition), bufferPosition)
      ensures forall m <- pool.all :: m.home != null
      ensures old(pool.all) <= pool.all && fresh(pool.all - old(pool.all))
    {
      hide *;
      NothingFree();
      ghost var was := Books();
      BooksAre();
      var n := TakeEvent(status, data1, data2);
      BooksAre();
      assert Books() == was;
      KeepEvent(n);
    }

    lemma NothingFree()
      requires pool.Inv() && Balanced()
      ensures forall m <- remaining.nodes :: m !in pool.free
      ensures forall m <- freeable.nodes :: m !in pool.free
    {
      pool.FreeDisjoint();
    }

    lemma BooksAre()
      ensures Books() == Account(queued, placed, slots, bufferPosition, bufferSize, remaining.nodes)
    {
    }

    /** chain_event, with every node of the store then in some chain. */
    method KeepEvent(n: Node)
      requires pool.Inv() && Balanced() && (remaining.nodes != [] ==> bufferPosition >= bufferSize)
      requires n in pool.all && n.home == null && n.next == null && n.last == n
      requires forall m <- pool.all - {n} :: m.home != null
      modifies this`bufferPosition, this`slots, this`placed, this`queued, buffer, n
      modifies remaining`head, remaining`nodes, freeable`head, freeable`nodes
      modifies (set x | x in remaining.nodes), (set x | x in freeable.nodes)
      ensures pool.Inv() && Balanced() && (remaining.nodes != [] ==> bufferPosition >= bufferSize)
      ensures Recorded(old(Books()), Books(), old(n.data))
      ensures KeptOutside(old(Cells()), Cells(), old(bufferPosition), bufferPosition)
      ensures forall m <- pool.all :: m.home != null
    {
      hide IsChain, Chain.Valid, Controller.Inv, Balanced, Recorded, Books;
      ghost var others, held := pool.all - {n}, Held();
      ChainEvent(n);
      assert forall m <- others :: m in held || m.home != null;
    }

    /** A new event in hand leaves this builder's books as they were. */
    method TakeEvent(status: int, data1: int, data2: int) returns (n: Node)
      requires pool.Inv() && Balanced()
      requires forall m <- remaining.nodes :: m !in pool.free
      requires forall m <- freeable.nodes :: m !in pool.free
      requires forall m <- pool.all :: m.home != null
      modifies pool`nextFree, pool`free, pool`all, (set x | x in pool.free)
      ensures pool.Inv() && Balanced()
      ensures n in pool.all && n.home == null && n.next == null && n.last == n
      ensures n.data == Event(3, status, data1, data2)
      ensures n in old(pool.free) || fresh(n)
      ensures forall m <- pool.all - {n} :: m.home != null
      ensures old(pool.all) <= pool.all && fresh(pool.all - old(pool.all))
    {
      hide *;
      hide Controller.Inv, Filled;
      n := pool.NewEvent(status, data1, data2);
      SameBooks();
    }

    twostate lemma SameBooks()
      requires old(Balanced())
      requires unchanged(this, remaining, freeable, pool`chains)
      requires buffer != null ==> unchanged(buffer)
      requires forall m <- remaining.nodes :: m.data == old(m.data)
      requires forall m <- freeable.nodes :: m.data == old(m.data)
      ensures Balanced()
    {
      hide Filled;
      assert forall i :: 0 <= i < |remaining.nodes| ==> remaining.nodes[i] in remaining.nodes;
      assert forall i :: 0 <= i < |freeable.nodes| ==> freeable.nodes[i] in freeable.nodes;
      assert Events(remaining.nodes) == old(Events(remaining.nodes));
      assert Events(freeable.nodes) == old(Events(freeable.nodes));
      assert buffer != null ==> buffer[..] == old(buffer[..]);
      assert InBuffer();
    }

    /** What the invariant of all builders means for this one, whose cursor is set. */
    lemma OpenBooks(builders: set<MidiEventBuilder>)
      requires World(pool, builders) && this in builders
      ensures pool.Inv() && Valid() && (ready ==> Balanced()) && remaining in pool.chains && freeable in pool.chains
      ensures (forall m <- pool.all :: m.home != null)
      ensures ready && remaining.nodes != [] ==> bufferPosition >= bufferSize
      ensures ready ==> bufferPosition >= 0
      ensures ready && bufferSize > 0 ==> bufferPosition >= bufferPLastSkip
      ensures forall m <- remaining.nodes :: m !in pool.free
      ensures forall m <- freeable.nodes :: m !in pool.free
    {
      hide IsChain, Chain.Valid, Filled;
      pool.FreeDisjoint();
      assert Attached(this, pool);
    }

    /** One builder's step that leaves the others alone keeps the invariant of all. */
    twostate lemma WorldAgain(builders: set<MidiEventBuilder>)
      requires old(World(pool, builders)) && this in builders
      requires unchanged(pool`chains) && (forall c <- pool.chains :: c.owner == old(c.owner))
      requires forall d <- builders :: d != this ==> unchanged(d) && old(d.Valid()) && d.Valid()
      requires buffer == null || buffer == old(buffer) || forall d <- builders :: d != this ==> d.buffer != buffer
      requires pool.Inv() && Valid() && forall m <- pool.all :: m.home != null
      ensures World(pool, builders)
    {
      hide IsChain, Chain.Valid, Controller.Inv, Filled, Valid;
      forall d <- builders ensures Attached(d, pool) {
        assert old(Attached(d, pool));
      }
      forall c <- pool.chains ensures Owned(c, builders) {
        assert old(Owned(c, builders));
      }
    }

    /** PopAndChain disturbs no builder that is apart from this one. */
    method PopAndChainApart(ghost builders: set<MidiEventBuilder>, status: int, data1: int, data2: int)
      requires pool.Inv() && Balanced() && (remaining.nodes != [] ==> bufferPosition >= bufferSize)
      requires forall m <- pool.all :: m.home != null
      requires forall d <- builders :: d != this ==> ApartFrom(d) && d.Valid()
      modifies this`bufferPosition, this`slots, this`placed, this`queued, buffer
      modifies remaining`head, remaining`nodes, freeable`head, freeable`nodes
      modifies (set x | x in remaining.nodes), (set x | x in freeable.nodes)
      modifies pool`nextFree, pool`free, pool`all, (set x | x in pool.free)
      ensures pool.Inv() && Balanced() && (remaining.nodes != [] ==> bufferPosition >= bufferSize)
      ensures Recorded(old(Books()), Books(), Event(3, status, data1, data2))
      ensures KeptOutside(old(Cells()), Cells(), old(bufferPosition), bufferPosition)
      ensures forall m <- pool.all :: m.home != null
      ensures forall d <- builders :: d != this ==> unchanged(d) && d.Valid()
      ensures old(pool.all) <= pool.all && fresh(pool.all - old(pool.all))
    {
      hide IsChain, Chain.Valid, Controller.Inv, Filled, InBuffer, Balanced, Valid, Recorded;
      PopAndChain(status, data1, data2);
      forall d <- builders | d != this ensures d.Valid() {
        assert old(ApartFrom(d)) && old(d.Valid());
      }
    }

    /** A queue call on a builder that is apart from the others. */
    method Record(ghost builders: set<MidiEventBuilder>, status: int, data1: int, data2: int)
      requires pool.Inv() && Valid() && Balanced() && ready && (remaining.nodes != [] ==> bufferPosition >= bufferSize)
      requires bufferSize > 0 ==> bufferPosition >= bufferPLastSkip
      requires forall m <- pool.all :: m.home != null
      requires forall d <- builders :: d != this ==> ApartFrom(d) && d.Valid()
      modifies this`bufferPosition, this`slots, this`placed, this`queued, buffer
      modifies remaining`head, remaining`nodes, freeable`head, freeable`nodes
      modifies (set x | x in remaining.nodes), (set x | x in freeable.nodes)
      modifies pool`nextFree, pool`free, pool`all, (set x | x in pool.free)
      ensures pool.Inv() && Valid() && forall m <- pool.all :: m.home != null
      ensures Recorded(old(Books()), Books(), Event(3, status, data1, data2))
      ensures KeptOutside(old(Cells()), Cells(), old(bufferPosition), bufferPosition)
      ensures forall d <- builders :: d != this ==> unchanged(d) && d.Valid()
      ensures old(pool.all) <= pool.all && fresh(pool.all - old(pool.all))
    {
      ghost var a := Books();
      hide Valid, IsChain, Chain.Valid, Controller.Inv, Balanced, ApartFrom, InBuffer;
      PopAndChainApart(builders, status, data1, data2);
      OnlyForward(a, Books(), Event(3, status, data1, data2));
      ValidAgain();
    }

    /** Every queue call, with the event's three bytes. */
    method QueueEvent(ghost builders: set<MidiEventBuilder>, status: int, data1: int, data2: int)
      requires World(pool, builders) && this in builders && ready
      modifies this`bufferPosition, this`slots, this`placed, this`queued, buffer
      modifies remaining`head, remaining`nodes, freeable`head, freeable`nodes
      modifies (set x | x in remaining.nodes), (set x | x in freeable.nodes)
      modifies pool`nextFree, pool`free, pool`all, (set x | x in pool.free)
      ensures queued == old(queued) + [Event(3, status, data1, data2)]
      ensures old(bufferPosition) < bufferSize ==>
                && bufferPosition == old(bufferPosition) + 1 && remaining.nodes == old(remaining.nodes)
                && buffer != null && 0 <= old(bufferPosition) < buffer.Length && buffer[old(bufferPosition)] != null
                && buffer[old(bufferPosition)].data == Event(3, status, data1, data2)
                && forall x :: 0 <= x < buffer.Length && x != old(bufferPosition) ==> buffer[x] == old(buffer[x])
      ensures old(bufferPosition) >= bufferSize ==>
                && bufferPosition == old(bufferPosition) && (buffer != null ==> buffer[..] == old(buffer[..]))
                && |remaining.nodes| == old(|remaining.nodes|) + 1 && remaining.nodes[..old(|remaining.nodes|)] == old(remaining.nodes)
                && remaining.nodes[old(|remaining.nodes|)].data == Event(3, status, data1, data2)
      ensures World(pool, builders) && Recorded(old(Books()), Books(), Event(3, status, data1, data2))
      ensures old(bufferPosition) < bufferSize ==> bufferPLastSkip <= old(bufferPosition)
      ensures old(pool.all) <= pool.all && fresh(pool.all - old(pool.all))
    {
      hide *;
      Apart(builders);
      OpenBooks(builders);
      OthersValid(builders);
      BooksAre();
      CellsAre();
      ghost var was, cells := Books(), Cells();
      Record(builders, status, data1, data2);
      WorldAgain(builders);
      BooksAre();
      CellsAre();
      RecordedIs(was, Books(), Event(3, status, data1, data2));
      OneCell(builders, was, cells, Event(3, status, data1, data2));
    }

    /** In a buffer just opened the filled slots are the first ones, and hold the nodes that waited first. */
    lemma InBuffersStart(f: seq<Node>, r: seq<Node>)
      requires Balanced() && bufferPosition == |slots| == |freeable.nodes| - |f| && freeable.nodes + remaining.nodes == f + r
      ensures |slots| <= |r| && (slots != [] ==> buffer != null && |slots| <= bufferSize <= buffer.Length)
      ensures forall x :: 0 <= x < |slots| ==> buffer[x] == r[x]
    {
      hide Events;
      FirstSlots(slots);
      assert |freeable.nodes| + |remaining.nodes| == |f| + |r|;
      assert slots != [] ==> slots[|slots| - 1] == |slots| - 1;
      forall x | 0 <= x < |slots| ensures buffer[x] == r[x] {
        assert buffer[slots[x]] == freeable.nodes[|f| + x] == (freeable.nodes + remaining.nodes)[|f| + x] == (f + r)[|f| + x];
      }
    }

    lemma CellsAre()
      ensures buffer == null ==> Cells() == []
      ensures buffer != null ==> Cells() == buffer[..]
    {
    }

    lemma SlotAt(i: nat)
      requires InBuffer() && i < |slots|
      ensures buffer != null && 0 <= slots[i] < bufferSize && slots[i] < buffer.Length && (i > 0 ==> slots[i - 1] < slots[i])
      ensures |slots| <= |placed|
      ensures var n := buffer[slots[i]];
              n != null && n in freeable.nodes && n.data == placed[|placed| - |slots| + i]
    {
      var m, k, l := freeable.nodes, |freeable.nodes| - |slots|, |placed| - |slots|;
      assert Events(m)[k..][i] == placed[l..][i];
      assert m[k + i] in m;
    }

    /** Where the reader finds the event of a queue call, or where it waits. */
    lemma OneCell(builders: set<MidiEventBuilder>, was: Account, cells: seq<Node?>, e: Event)
      requires World(pool, builders) && this in builders && Recorded(was, Books(), e)
      requires bufferSize == was.size && KeptOutside(cells, Cells(), was.position, bufferPosition)
      requires was.position >= was.size || was.waiting == remaining.nodes
      ensures was.position < was.size ==>
                && buffer != null && 0 <= was.position < buffer.Length && buffer[was.position] != null
                && buffer[was.position].data == e
                && |cells| == |Cells()| && forall x :: 0 <= x < |cells| && x != was.position ==> Cells()[x] == cells[x]
      ensures was.position >= was.size ==> Cells() == cells && |remaining.nodes| > |was.waiting| && remaining.nodes[|was.waiting|].data == e
    {
      if was.position < was.size {
        hide World;
        SlotsHoldEvents(pool, builders, this, |slots| - 1);
      } else {
        hide World;
        NothingLost(pool, builders, this);
        var r := Events(remaining.nodes);
        assert (placed + r)[|placed + r| - 1] == r[|r| - 1];
      }
    }

    lemma OthersValid(builders: set<MidiEventBuilder>)
      requires World(pool, builders)
      ensures forall d <- builders :: d.Valid()
    {
    }

    lemma ValidAgain()
      requires Balanced() && ready && (bufferSize > 0 ==> bufferPosition >= bufferPLastSkip)
      requires remaining.nodes != [] ==> bufferPosition >= bufferSize
      ensures Valid()
    {
      hide Filled;
    }

    /** queue_note_on */
    method QueueNoteOn(ghost builders: set<MidiEventBuilder>, note: int, velocity: int, channel: int)
      requires World(pool, builders) && this in builders && ready
      modifies this`bufferPosition, this`slots, this`placed, this`queued, buffer
      modifies remaining`head, remaining`nodes, freeable`head, freeable`nodes
      modifies (set x | x in remaining.nodes), (set x | x in freeable.nodes)
      modifies pool`nextFree, pool`free, pool`all, (set x | x in pool.free)
      ensures queued == old(queued) + [Event(3, 0x90 + channel % 16, note % 256, velocity % 256)]
      ensures old(bufferPosition) < bufferSize ==>
                && bufferPosition == old(bufferPosition) + 1 && remaining.nodes == old(remaining.nodes)
                && buffer != null && 0 <= old(bufferPosition) < buffer.Length && buffer[old(bufferPosition)] != null
                && buffer[old(bufferPosition)].data == Event(3, 0x90 + channel % 16, note % 256, velocity % 256)
                && forall x :: 0 <= x < buffer.Length && x != old(bufferPosition) ==> buffer[x] == old(buffer[x])
      ensures old(bufferPosition) >= bufferSize ==>
                && bufferPosition == old(bufferPosition) && (buffer != null ==> buffer[..] == old(buffer[..]))
                && |remaining.nodes| == old(|remaining.nodes|) + 1 && remaining.nodes[..old(|remaining.nodes|)] == old(remaining.nodes)
                && remaining.nodes[old(|remaining.nodes|)].data == Event(3, 0x90 + channel % 16, note % 256, velocity % 256)
      ensures World(pool, builders) && Recorded(old(Books()), Books(), Event(3, 0x90 + channel % 16, note % 256, velocity % 256))
      ensures old(pool.all) <= pool.all && fresh(pool.all - old(pool.all))
    {
      hide World, Recorded;
      QueueEvent(builders, MIDI_NOTE_ON + channel % 16, note % 256, velocity % 256);
    }

    /** queue_note_off */
    method QueueNoteOff(ghost builders: set<MidiEventBuilder>, note: int, velocity: int, channel: int)
      requires World(pool, builders) && this in builders && ready
      modifies this`bufferPosition, this`slots, this`placed, this`queued, buffer
      modifies remaining`head, remaining`nodes, freeable`head, freeable`nodes
      modifies (set x | x in remaining.nodes), (set x | x in freeable.nodes)
      modifies pool`nextFree, pool`free, pool`all, (set x | x in pool.free)
      ensures queued == old(queued) + [Event(3, 0x80 + channel % 16, note % 256, velocity % 256)]
      ensures old(bufferPosition) < bufferSize ==>
                && bufferPosition == old(bufferPosition) + 1 && remaining.nodes == old(remaining.nodes)
                && buffer != null && 0 <= old(bufferPosition) < buffer.Length && buffer[old(bufferPosition)] != null
                && buffer[old(bufferPosition)].data == Event(3, 0x80 + channel % 16, note % 256, velocity % 256)
                && forall x :: 0 <= x < buffer.Length && x != old(bufferPosition) ==> buffer[x] == old(buffer[x])
      ensures old(bufferPosition) >= bufferSize ==>
                && bufferPosition == old(bufferPosition) && (buffer != null ==> buffer[..] == old(buffer[..]))
                && |remaining.nodes| == old(|remaining.nodes|) + 1 && remaining.nodes[..old(|remaining.nodes|)] == old(remaining.nodes)
                && remaining.nodes[old(|remaining.nodes|)].data == Event(3, 0x80 + channel % 16, note % 256, velocity % 256)
      ensures World(pool, builders) && Recorded(old(Books()), Books(), Event(3, 0x80 + channel % 16, note % 256, velocity % 256))
      ensures old(pool.all) <= pool.all && fresh(pool.all - old(pool.all))
    {
      hide World, Recorded;
      QueueEvent(builders, MIDI_NOTE_OFF + channel % 16, note % 256, velocity % 256);
    }

    /** queue_controller */
    method QueueController(ghost builders: set<MidiEventBuilder>, controller: int, value: int, channel: int)
      requires World(pool, builders) && this in builders && ready
      modifies this`bufferPosition, this`slots, this`placed, this`queued, buffer
      modifies remaining`head, remaining`nodes, freeable`head, freeable`nodes
      modifies (set x | x in remaining.nodes), (set x | x in freeable.nodes)
      modifies pool`nextFree, pool`free, pool`all, (set x | x in pool.free)
      ensures queued == old(queued) + [Event(3, 0xb0 + channel % 16, controller % 256, value % 256)]
      ensures old(bufferPosition) < bufferSize ==>
                && bufferPosition == old(bufferPosition) + 1 && remaining.nodes == old(remaining.nodes)
                && buffer != null && 0 <= old(bufferPosition) < buffer.Length && buffer[old(bufferPosition)] != null
                && buffer[old(bufferPosition)].data == Event(3, 0xb0 + channel % 16, controller % 256, value % 256)
                && forall x :: 0 <= x < buffer.Length && x != old(bufferPosition) ==> buffer[x] == old(buffer[x])
      ensures old(bufferPosition) >= bufferSize ==>
                && bufferPosition == old(bufferPosition) && (buffer != null ==> buffer[..] == old(buffer[..]))
                && |remaining.nodes| == old(|remaining.nodes|) + 1 && remaining.nodes[..old(|remaining.nodes|)] == old(remaining.nodes)
                && remaining.nodes[old(|remaining.nodes|)].data == Event(3, 0xb0 + channel % 16, controller % 256, value % 256)
      ensures World(pool, builders) && Recorded(old(Books()), Books(), Event(3, 0xb0 + channel % 16, controller % 256, value % 256))
      ensures old(pool.all) <= pool.all && fresh(pool.all - old(pool.all))
    {
      hide World, Recorded;
      QueueEvent(builders, MIDI_CONTROL_CHANGE + channel % 16, controller % 256, value % 256);
    }

    /** queue_pitch_bend */
    method QueuePitchBend(ghost builders: set<MidiEventBuilder>, valueLsb: int, valueMsb: int, channel: int)
      requires World(pool, builders) && this in builders && ready
      modifies this`bufferPosition, this`slots, this`placed, this`queued, buffer
      modifies remaining`head, remaining`nodes, freeable`head, freeable`nodes
      modifies (set x | x in remaining.nodes), (set x | x in freeable.nodes)
      modifies pool`nextFree, pool`free, pool`all, (set x | x in pool.free)
      ensures queued == old(queued) + [Event(3, 0xe0 + channel % 16, valueLsb % 256, valueMsb % 256)]
      ensures old(bufferPosition) < bufferSize ==>
                && bufferPosition == old(bufferPosition) + 1 && remaining.nodes == old(remaining.nodes)
                && buffer != null && 0 <= old(bufferPosition) < buffer.Length && buffer[old(bufferPosition)] != null
                && buffer[old(bufferPosition)].data == Event(3, 0xe0 + channel % 16, valueLsb % 256, valueMsb % 256)
                && forall x :: 0 <= x < buffer.Length && x != old(bufferPosition) ==> buffer[x] == old(buffer[x])
      ensures old(bufferPosition) >= bufferSize ==>
                && bufferPosition == old(bufferPosition) && (buffer != null ==> buffer[..] == old(buffer[..]))
                && |remaining.nodes| == old(|remaining.nodes|) + 1 && remaining.nodes[..old(|remaining.nodes|)] == old(remaining.nodes)
                && remaining.nodes[old(|remaining.nodes|)].data == Event(3, 0xe0 + channel % 16, valueLsb % 256, valueMsb % 256)
      ensures World(pool, builders) && Recorded(old(Books()), Books(), Event(3, 0xe0 + channel % 16, valueLsb % 256, valueMsb % 256))
      ensures old(pool.all) <= pool.all && fresh(pool.all - old(pool.all))
    {
      hide World, Recorded;
      QueueEvent(builders, MIDI_PITCH_BEND + channel % 16, valueLsb % 256, valueMsb % 256);
    }

    /** The first part of use_buffer: a buffer in which nothing is filled yet. */
    method Point(ghost builders: set<MidiEventBuilder>, b: array?<Node?>, size: int)
      requires Valid() && pool.Inv() && remaining in pool.chains && freeable in pool.chains
      requires size > 0 ==> b != null && size <= b.Length
      requires forall d <- builders :: d != this ==> ApartFrom(d) && d.Valid() && (b != null ==> d.buffer != b)
      modifies this`buffer, this`bufferSize, this`bufferPosition, this`bufferPLastSkip, this`ready, this`slots
      ensures Balanced() && pool.Inv() && bufferPosition == 0 && bufferPLastSkip == 0 && slots == [] && ready
      ensures buffer == b && bufferSize == size
      ensures forall d <- builders :: d != this ==> ApartFrom(d) && d.Valid() && unchanged(d)
    {
      hide IsChain, Chain.Valid, Controller.Inv;
      SetCursor(b, size);
      forall d <- builders | d != this ensures ApartFrom(d) && d.Valid() {
        assert old(ApartFrom(d)) && old(d.Valid());
      }
    }

    method SetCursor(b: array?<Node?>, size: int)
      requires Valid() && remaining in pool.chains && freeable in pool.chains
      requires size > 0 ==> b != null && size <= b.Length
      modifies this`buffer, this`bufferSize, this`bufferPosition, this`bufferPLastSkip, this`ready, this`slots
      ensures Balanced() && bufferPosition == 0 && bufferPLastSkip == 0 && slots == [] && ready
      ensures buffer == b && bufferSize == size
    {
      buffer := b;
      bufferSize := size;
      bufferPosition := 0;
      bufferPLastSkip := 0;
      ready := true;
      slots := [];
    }

    /** process_remaining_chain in a new buffer disturbs no other builder. */
    method FillApart(ghost builders: set<MidiEventBuilder>)
      requires pool.Inv() && Balanced() && slots == [] && bufferPosition == 0
      requires forall m <- pool.all :: m.home != null
      requires forall d <- builders :: d != this ==> ApartFrom(d) && d.Valid()
      modifies this`bufferPosition, this`slots, this`placed, buffer
      modifies remaining`head, remaining`nodes, freeable`head, freeable`nodes
      modifies (set x | x in remaining.nodes), (set x | x in freeable.nodes)
      ensures pool.Inv() && Balanced()
      ensures remaining.nodes != [] ==> bufferPosition >= bufferSize
      ensures forall m <- pool.all :: m.home != null
      ensures bufferPosition == |slots| == |freeable.nodes| - |old(freeable.nodes)|
      ensures KeptOutside(old(Cells()), Cells(), old(bufferPosition), bufferPosition)
      ensures freeable.nodes + remaining.nodes == old(freeable.nodes + remaining.nodes)
      ensures forall d <- builders :: d != this ==> unchanged(d) && d.Valid()
    {
      hide IsChain, Chain.Valid, Controller.Inv, Filled, InBuffer, Balanced, Valid;
      ghost var all := freeable.nodes + remaining.nodes;
      InAll(remaining.nodes, freeable.nodes, all);
      ProcessRemainingChain();
      BalancedChains();
      HomesOfMine();
      assert forall m <- all :: m in freeable.nodes || m in remaining.nodes;
      forall d <- builders | d != this ensures d.Valid() {
        assert old(ApartFrom(d)) && old(d.Valid());
      }
    }

    /** use_buffer on a builder that is apart from the others. */
    method Refill(ghost builders: set<MidiEventBuilder>, b: array?<Node?>, size: int)
      requires Valid() && pool.Inv() && remaining in pool.chains && freeable in pool.chains
      requires size > 0 ==> b != null && size <= b.Length
      requires forall m <- pool.all :: m.home != null
      requires forall d <- builders :: d != this ==> ApartFrom(d) && d.Valid() && (b != null ==> d.buffer != b)
      modifies this`buffer, this`bufferSize, this`bufferPosition, this`bufferPLastSkip, this`ready, this`slots, this`placed, b
      modifies remaining`head, remaining`nodes, freeable`head, freeable`nodes
      modifies (set x | x in remaining.nodes), (set x | x in freeable.nodes)
      ensures pool.Inv() && Valid() && forall m <- pool.all :: m.home != null
      ensures buffer == b && bufferSize == size && ready && bufferPLastSkip == 0
      ensures bufferPosition == |slots| == |freeable.nodes| - old(|freeable.nodes|)
      ensures freeable.nodes + remaining.nodes == old(freeable.nodes + remaining.nodes)
      ensures remaining.nodes != [] ==> bufferPosition >= size
      ensures |slots| <= old(|remaining.nodes|) && (slots != [] ==> b != null && |slots| <= size <= b.Length)
      ensures forall x :: 0 <= x < |slots| ==> b[x] == old(remaining.nodes)[x]
      ensures b != null ==> forall x :: |slots| <= x < b.Length ==> b[x] == old(b[x])
      ensures Opened(old(Books()), Books(), old(freeable.nodes), freeable.nodes)
      ensures forall d <- builders :: d != this ==> unchanged(d) && d.Valid()
    {
      hide IsChain, Chain.Valid, Controller.Inv, Filled, InBuffer, Balanced, Valid, ApartFrom;
      Point(builders, b, size);
      CellsAre();
      ghost var cells := Cells();
      FillApart(builders);
      CellsAre();
      assert b != null ==> forall x :: |slots| <= x < b.Length ==> b[x] == cells[x];
      InBuffersStart(old(freeable.nodes), old(remaining.nodes));
      ValidAgain();
    }

    /** use_buffer: waiting events go first, from slot 0 on. No other builder may be using the buffer. */
    method UseBuffer(ghost builders: set<MidiEventBuilder>, b: array?<Node?>, size: int)
      requires World(pool, builders) && this in builders
      requires size > 0 ==> b != null && size <= b.Length
      requires b != null ==> forall d <- builders :: d != this ==> d.buffer != b
      modifies this`buffer, this`bufferSize, this`bufferPosition, this`bufferPLastSkip, this`ready, this`slots, this`placed, b
      modifies remaining`head, remaining`nodes, freeable`head, freeable`nodes
      modifies (set x | x in remaining.nodes), (set x | x in freeable.nodes)
      ensures World(pool, builders) && buffer == b && bufferSize == size && ready && bufferPLastSkip == 0
      ensures bufferPosition == |slots| == |freeable.nodes| - old(|freeable.nodes|)
      ensures freeable.nodes + remaining.nodes == old(freeable.nodes + remaining.nodes)
      ensures remaining.nodes != [] ==> bufferPosition >= size
      ensures |slots| <= old(|remaining.nodes|) && (slots != [] ==> b != null && |slots| <= size <= b.Length)
      ensures forall x :: 0 <= x < |slots| ==> b[x] == old(remaining.nodes)[x]
      ensures b != null ==> forall x :: |slots| <= x < b.Length ==> b[x] == old(b[x])
      ensures Opened(old(Books()), Books(), old(freeable.nodes), freeable.nodes)
    {
      hide *;
      Apart(builders);
      OpenBooks(builders);
      OthersValid(builders);
      Refill(builders, b, size);
      WorldAgain(builders);
    }

    /** skip: on to a later slot, and whether there is one. */
    method Skip(ghost builders: set<MidiEventBuilder>, skipLength: int) returns (more: bool)
      requires World(pool, builders) && this in builders && ready
      modifies this`bufferPosition, this`bufferPLastSkip
      ensures World(pool, builders)
      ensures bufferPLastSkip == old(bufferPLastSkip) + skipLength
      ensures bufferPosition == if bufferPLastSkip > old(bufferPosition) then bufferPLastSkip else old(bufferPosition)
      ensures more <==> bufferPosition < bufferSize
    {
      OpenBooks(builders);
      OthersValid(builders);
      hide IsChain, Chain.Valid, Controller.Inv, World, Valid;
      more := Advance(skipLength);
      WorldAgain(builders);
    }

    /** The cursor part of skip. */
    method Advance(skipLength: int) returns (more: bool)
      requires Valid() && ready
      modifies this`bufferPosition, this`bufferPLastSkip
      ensures Valid()
      ensures bufferPLastSkip == old(bufferPLastSkip) + skipLength
      ensures bufferPosition == if bufferPLastSkip > old(bufferPosition) then bufferPLastSkip else old(bufferPosition)
      ensures more <==> bufferPosition < bufferSize
    {
      ghost var b := if buffer == null then [] else buffer[..];
      ghost var p := bufferPosition;
      assert Filled(slots, b, freeable.nodes, Events(freeable.nodes), placed, p, bufferSize);
      hide Filled;
      bufferPLastSkip := bufferPLastSkip + skipLength;
      bufferPosition := if bufferPLastSkip > bufferPosition then bufferPLastSkip else bufferPosition;
      more := bufferPosition < bufferSize;
      FilledLater(slots, b, freeable.nodes, Events(freeable.nodes), placed, p, bufferSize, bufferPosition);
    }

    /** process_freeable_chain, in terms of the free list. */
    method ReleaseAll()
      requires pool.Inv() && freeable in pool.chains
      requires forall m <- pool.all :: m.home != null
      modifies freeable`head, freeable`nodes, (set x | x in freeable.nodes), pool`nextFree, pool`free
      ensures pool.Inv() && freeable.nodes == []
      ensures forall n <- old(freeable.nodes) :: n in pool.free
      ensures forall m <- pool.all :: m.home != null
    {
      ghost var was := freeable.nodes;
      assert forall n <- was :: n in pool.all;
      hide IsChain, Chain.Valid;
      ProcessFreeableChain();
      assert forall n <- was :: n in pool.free;
      assert forall m <- pool.all :: m in was || m.home == old(m.home);
    }

    lemma EmptyValid()
      requires remaining != freeable && freeable.nodes == [] && slots == [] && buffer == null
      requires queued == placed + Events(remaining.nodes)
      requires ready ==> bufferPosition >= 0 && bufferSize <= 0 && (remaining.nodes != [] ==> bufferPosition >= bufferSize)
      requires !ready ==> remaining.nodes == []
      ensures Valid()
    {
    }

    /** process_freeable_chain without an open buffer, beside other builders. */
    method ReleaseApart(ghost builders: set<MidiEventBuilder>)
      requires pool.Inv() && Valid() && remaining in pool.chains && freeable in pool.chains
      requires slots == [] && buffer == null
      requires forall m <- pool.all :: m.home != null
      requires forall d <- builders :: d != this ==> ApartFrom(d) && d.Valid()
      modifies freeable`head, freeable`nodes, (set x | x in freeable.nodes), pool`nextFree, pool`free
      ensures pool.Inv() && Valid()
      ensures freeable.nodes == [] && forall n <- old(freeable.nodes) :: n in pool.free
      ensures forall m <- pool.all :: m.home != null
      ensures forall d <- builders :: d != this ==> unchanged(d) && d.Valid()
    {
      pool.OthersDisjoint(freeable, freeable.nodes) by {
        HomesOfMine();
      }
      ghost var p, r := placed, Events(remaining.nodes);
      assert queued == p + r;
      assert forall n <- remaining.nodes :: n !in freeable.nodes;
      hide IsChain, Chain.Valid, Controller.Inv, Valid, Filled;
      ReleaseAll();
      assert Events(remaining.nodes) == r;
      EmptyValid();
      forall d <- builders | d != this ensures d.Valid() {
        assert old(ApartFrom(d)) && old(d.Valid());
      }
    }

    /** The first part of finish_current_buffer. */
    method Close(ghost builders: set<MidiEventBuilder>)
      requires Valid() && pool.Inv()
      requires forall d <- builders :: d != this ==> ApartFrom(d) && d.Valid()
      modifies this`buffer, this`bufferSize, this`bufferPosition, this`slots
      ensures Valid() && pool.Inv()
      ensures buffer == null && bufferSize == 0 && bufferPosition == 1 && slots == []
      ensures forall d <- builders :: d != this ==> ApartFrom(d) && d.Valid() && unchanged(d)
    {
      hide IsChain, Chain.Valid, Controller.Inv, Valid;
      ResetCursor();
      forall d <- builders | d != this ensures ApartFrom(d) && d.Valid() {
        assert old(ApartFrom(d)) && old(d.Valid());
      }
    }

    method ResetCursor()
      requires Valid()
      modifies this`buffer, this`bufferSize, this`bufferPosition, this`slots
      ensures Valid()
      ensures buffer == null && bufferSize == 0 && bufferPosition == 1 && slots == []
    {
      bufferSize := 0;
      bufferPosition := 1;
      buffer := null;
      slots := [];
    }

    /** finish_current_buffer: what was placed goes back to the free list, what waits keeps waiting. */
    method FinishCurrentBuffer(ghost builders: set<MidiEventBuilder>)
      requires World(pool, builders) && this in builders
      modifies this`buffer, this`bufferSize, this`bufferPosition, this`slots
      modifies freeable`head, freeable`nodes, (set x | x in freeable.nodes), pool`nextFree, pool`free
      ensures World(pool, builders)
      ensures buffer == null && bufferSize == 0 && bufferPosition == 1 && slots == []
      ensures freeable.nodes == [] && forall n <- old(freeable.nodes) :: n in pool.free
    {
      hide *;
      Apart(builders);
      OpenBooks(builders);
      OthersValid(builders);
      Close(builders);
      ReleaseApart(builders);
      WorldAgain(builders);
    }
  }

  /** b's chains belong to the store p and to b alone. */
  ghost predicate Attached(b: MidiEventBuilder, p: Controller)
    reads b.remaining`owner, b.freeable`owner, p`chains
  {
    && b.pool == p
    && b.remaining in p.chains && b.remaining.owner == b
    && b.freeable in p.chains && b.freeable.owner == b
  }

  ghost predicate Owned(c: Chain, builders: set<MidiEventBuilder>)
    reads c`owner
  {
    c.owner != null && c.owner in builders && (c == c.owner.remaining || c == c.owner.freeable)
  }

  /** The builders share the store p, each with its own chains and its own buffer. */
  ghost predicate Shared(p: Controller, builders: set<MidiEventBuilder>)
    reads *
  {
    && p.Inv()
    && (forall b <- builders :: Attached(b, p))
    && (forall c <- p.chains :: Owned(c, builders))
    && (forall b <- builders, d <- builders :: b != d && b.buffer != null ==> b.buffer != d.buffer)
    && (forall b <- builders :: b.Valid())
  }

  /** In addition no node is in hand. */
  ghost predicate World(p: Controller, builders: set<MidiEventBuilder>)
    reads *
  {
    Shared(p, builders) && forall n <- p.all :: n.home != null
  }

  /** A new builder takes its place beside the others. */
  ghost method Enroll(b: MidiEventBuilder, p: Controller, builders: set<MidiEventBuilder>)
    requires World(p, builders) && b.pool == p && b !in builders
    requires b.Valid() && b.buffer == null
    requires b.remaining.Valid() && b.remaining.nodes == [] && b.remaining.owner == b
    requires b.freeable.Valid() && b.freeable.nodes == [] && b.freeable.owner == b
    requires forall n <- p.all :: n.home != b.remaining && n.home != b.freeable
    modifies p`chains
    ensures World(p, builders + {b})
  {
    hide *;
    EnrollApart(b, p, builders);
    p.Admit(b.remaining);
    p.Admit(b.freeable);
    Enrolled(b, p, builders, p.chains - {b.remaining, b.freeable});
  }

  lemma EnrollApart(b: MidiEventBuilder, p: Controller, builders: set<MidiEventBuilder>)
    requires World(p, builders) && b !in builders && b.Valid()
    requires b.remaining.owner == b && b.freeable.owner == b
    ensures p.Inv() && b.remaining !in p.chains && b.freeable !in p.chains && b.remaining != b.freeable
    ensures forall d <- builders :: d.pool == p && d.remaining in p.chains && d.remaining.owner == d
                                      && d.freeable in p.chains && d.freeable.owner == d && d.Valid()
    ensures forall c <- p.chains :: Owned(c, builders)
    ensures forall n <- p.all :: n.home != null
    ensures forall d <- builders, e <- builders :: d != e && d.buffer != null ==> d.buffer != e.buffer
  {
    assert forall c <- p.chains :: Owned(c, builders);
    assert forall d <- builders :: Attached(d, p);
  }

  lemma Enrolled(b: MidiEventBuilder, p: Controller, builders: set<MidiEventBuilder>, chains: set<Chain>)
    requires p.Inv() && b.Valid() && b.buffer == null && b.pool == p && b.remaining.owner == b && b.freeable.owner == b
    requires p.chains == chains + {b.remaining} + {b.freeable} && forall c <- chains :: Owned(c, builders)
    requires forall d <- builders :: d.pool == p && d.remaining in p.chains && d.remaining.owner == d
                                       && d.freeable in p.chains && d.freeable.owner == d && d.Valid()
    requires forall n <- p.all :: n.home != null
    requires forall d <- builders, e <- builders :: d != e && d.buffer != null ==> d.buffer != e.buffer
    ensures World(p, builders + {b})
  {
    hide Controller.Inv, MidiEventBuilder.Valid;
    forall c <- p.chains ensures Owned(c, builders + {b}) {
      assert c in chains ==> Owned(c, builders);
    }
  }

  /** Conservation: each node is in exactly one of the free list, a freeable chain or a remaining chain. */
  lemma {:induction false} ExactlyOnePlace(p: Controller, builders: set<MidiEventBuilder>, n: Node)
    requires World(p, builders) && n in p.all
    ensures n in p.free || exists b <- builders :: n in b.remaining.nodes || n in b.freeable.nodes
    ensures n in p.free ==> forall b <- builders :: n !in b.remaining.nodes && n !in b.freeable.nodes
    ensures forall b <- builders :: n in b.remaining.nodes ==> n !in b.freeable.nodes
    ensures forall b <- builders, d <- builders :: b != d && (n in b.remaining.nodes || n in b.freeable.nodes) ==>
              n !in d.remaining.nodes && n !in d.freeable.nodes
    ensures Distinct(p.free) && forall b <- builders :: Distinct(b.remaining.nodes) && Distinct(b.freeable.nodes)
  {
    assert forall b <- builders :: Attached(b, p);
    if n.home != p {
      assert exists c <- p.chains :: n.home == c && n in c.nodes;
      var c :| c in p.chains && n.home == c && n in c.nodes;
      assert Owned(c, builders);
    }
  }

  /** A chain's first node knows the true last one, and the next pointers lead there without a cycle. */
  lemma HeadKnowsTail(p: Controller, builders: set<MidiEventBuilder>, b: MidiEventBuilder)
    requires World(p, builders) && b in builders
    ensures forall c <- {b.remaining, b.freeable} ::
              && (c.head == null <==> c.nodes == [])
              && LinkedTo(c.nodes, null) && Distinct(c.nodes)
              && (c.head != null ==> c.head == c.nodes[0] && c.head.last == c.nodes[|c.nodes| - 1])
  {
    assert Attached(b, p);
  }

  /** Each filled slot still holds the event placed there, in a node that is not free. */
  lemma SlotsHoldEvents(p: Controller, builders: set<MidiEventBuilder>, b: MidiEventBuilder, i: nat)
    requires World(p, builders) && b in builders && i < |b.slots|
    ensures b.buffer != null && 0 <= b.slots[i] < b.bufferSize && b.slots[i] < b.buffer.Length
    ensures i > 0 ==> b.slots[i - 1] < b.slots[i]
    ensures |b.slots| <= |b.placed|
    ensures var n := b.buffer[b.slots[i]];
            && n != null && n in b.freeable.nodes && n !in p.free
            && n.data == b.placed[|b.placed| - |b.slots| + i]
  {
    HasBuffer(p, builders, b);
    hide *;
    p.FreeDisjoint();
    b.SlotAt(i);
  }

  lemma HasBuffer(p: Controller, builders: set<MidiEventBuilder>, b: MidiEventBuilder)
    requires World(p, builders) && b in builders
    ensures p.Inv() && b.InBuffer() && b.freeable in p.chains
  {
    hide Controller.Inv;
    assert Attached(b, p) && b.Valid();
  }

  /** Nothing lost, duplicated or reordered; what waits has found no room. */
  lemma NothingLost(p: Controller, builders: set<MidiEventBuilder>, b: MidiEventBuilder)
    requires World(p, builders) && b in builders
    ensures b.queued == b.placed + Events(b.remaining.nodes)
    ensures b.ready && b.remaining.nodes != [] ==> b.bufferPosition >= b.bufferSize
  {
  }
}
