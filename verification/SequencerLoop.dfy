/**
 * MachineSequencer::Loop: a doubly linked list of notes in order of on_at, a
 * playback cursor into it, and the slots of the notes that sound.
 */
module SequencerLoop {

  import opened Sequences
  import opened NoteOrder
  import opened Playback

  const MAX_ACTIVE_NOTES := 16

  datatype NoteData = NoteData(channel: int, program: int, velocity: int, note: int, onAt: int, length: int)

  /** set_to keeps four bits of the channel and seven of the others. */
  function Masked(d: NoteData): (m: NoteData)
    ensures m.onAt == d.onAt && m.length == d.length
    ensures 0 <= m.channel < 16 && 0 <= m.program < 128 && 0 <= m.velocity < 128 && 0 <= m.note < 128
    ensures 0 <= d.channel < 16 && 0 <= d.program < 128 && 0 <= d.velocity < 128 && 0 <= d.note < 128 ==> m == d
  {
    NoteData(d.channel % 16, d.program % 128, d.velocity % 128, d.note % 128, d.onAt, d.length)
  }

  /** What reaches the MIDI builder. */
  datatype Message = QueueNoteOn(note: int, velocity: int, channel: int) | QueueNoteOff(note: int, velocity: int, channel: int)

  class NoteEntry {
    var data: NoteData
    var prev: NoteEntry?
    var next: NoteEntry?
    var ticks2off: int

    constructor Blank()
      ensures data == NoteData(0, 0, 0x7f, 0, -1, -1)
    {
      data := NoteData(0, 0, 0x7f, 0, -1, -1);
      ticks2off := 0;
    }

    constructor (d: NoteData)
      ensures data == Masked(d) && prev == null && next == null
    {
      data := Masked(d);
      prev, next := null, null;
      ticks2off := 0;
    }
  }

  /** The first element, or what follows an empty sequence. */
  function First(s: seq<NoteEntry>, after: NoteEntry?): NoteEntry? {
    if s == [] then after else s[0]
  }

  /** The last element, or what precedes an empty sequence. */
  function Last(s: seq<NoteEntry>, before: NoteEntry?): NoteEntry? {
    if s == [] then before else s[|s| - 1]
  }

  /** s is linked in both directions, between `before` and `after`. */
  ghost predicate Linked(s: seq<NoteEntry>, before: NoteEntry?, after: NoteEntry?)
    reads (set x | x in s)`next, (set x | x in s)`prev
  {
    s != [] ==>
      && s[0].prev == before
      && s[0].next == First(s[1..], after)
      && Linked(s[1..], s[0], after)
  }

  lemma {:induction false} LinkedJoin(a: seq<NoteEntry>, b: seq<NoteEntry>, before: NoteEntry?, after: NoteEntry?)
    requires Linked(a, before, First(b, after)) && Linked(b, Last(a, before), after)
    ensures Linked(a + b, before, after)
  {
    if a == [] {
      assert a + b == b;
    } else {
      assert (a + b)[1..] == a[1..] + b;
      LinkedJoin(a[1..], b, a[0], after);
    }
  }

  lemma {:induction false} LinkedSplit(a: seq<NoteEntry>, b: seq<NoteEntry>, before: NoteEntry?, after: NoteEntry?)
    requires Linked(a + b, before, after)
    ensures Linked(a, before, First(b, after)) && Linked(b, Last(a, before), after)
  {
    if a == [] {
      assert a + b == b;
    } else {
      assert (a + b)[1..] == a[1..] + b;
      LinkedSplit(a[1..], b, a[0], after);
    }
  }

  /** The last note of a piece of the list points to something else. */
  method SetLastNext(e: NoteEntry, v: NoteEntry?, ghost a: seq<NoteEntry>, ghost before: NoteEntry?, ghost after: NoteEntry?)
    requires a != [] && e == a[|a| - 1] && Distinct(a) && Linked(a, before, after)
    modifies e`next
    ensures Linked(a, before, v)
  {
    ghost var b := a[..|a| - 1];
    assert a == b + [e];
    LinkedSplit(b, [e], before, after);
    assert e !in b;
    hide Distinct;
    e.next := v;
    assert Linked(b, before, e);
    assert Linked([e], Last(b, before), v);
    hide Linked;
    LinkedJoin(b, [e], before, v);
  }

  /** The first note of a piece of the list points back to something else. */
  method SetFirstPrev(e: NoteEntry, v: NoteEntry?, ghost b: seq<NoteEntry>, ghost before: NoteEntry?, ghost after: NoteEntry?)
    requires b != [] && e == b[0] && Distinct(b) && Linked(b, before, after)
    modifies e`prev
    ensures Linked(b, v, after)
  {
    assert e !in b[1..];
    e.prev := v;
  }

  ghost function Data(s: seq<NoteEntry>): (d: seq<NoteData>)
    reads (set x | x in s)`data
    ensures |d| == |s| && forall i :: 0 <= i < |s| ==> d[i] == s[i].data
  {
    if s == [] then [] else [s[0].data] + Data(s[1..])
  }

  ghost function Keys(s: seq<NoteEntry>): (k: seq<int>)
    reads (set x | x in s)`data
    ensures |k| == |s| && forall i :: 0 <= i < |s| ==> k[i] == s[i].data.onAt
  {
    if s == [] then [] else [s[0].data.onAt] + Keys(s[1..])
  }

  lemma FirstAboveParts(a: seq<NoteEntry>, b: seq<NoteEntry>, x: int)
    requires (forall n <- a :: n.data.onAt <= x) && (b != [] ==> b[0].data.onAt > x)
    ensures FirstAbove(Keys(a + b), x) == |a|
  {
    var keys := Keys(a + b);
    assert forall i :: 0 <= i < |a| ==> keys[i] == a[i].data.onAt;
    FirstAboveUnique(keys, x, |a|);
  }

  lemma CursorInserted(a: seq<NoteEntry>, b: seq<NoteEntry>, n: NoteEntry, cursor: nat)
    requires cursor <= |a + b|
    ensures First((a + [n] + b)[if |a| <= cursor then cursor + 1 else cursor..], null) == First((a + b)[cursor..], null)
  {
  }

  lemma CursorRemoved(a: seq<NoteEntry>, b: seq<NoteEntry>, n: NoteEntry, cursor: nat)
    requires cursor <= |a + b| + 1
    ensures First((a + b)[CursorAfterRemove(cursor, |a|)..], null)
         == if cursor == |a| then First(b, null) else First((a + [n] + b)[cursor..], null)
  {
  }

  lemma KeysOne(n: NoteEntry)
    ensures Keys([n]) == [n.data.onAt]
  {
  }

  lemma KeysInserted(a: seq<NoteEntry>, b: seq<NoteEntry>, n: NoteEntry)
    ensures InsertAt(a + b, |a|, n) == a + [n] + b
    ensures Keys(a + [n] + b) == InsertAt(Keys(a + b), |a|, n.data.onAt)
  {
    KeysOne(n);
    hide *;
    KeysConcat(a, b);
    KeysConcat(a + [n], b);
    KeysConcat(a, [n]);
    InsertParts(a, b, n);
    InsertParts(Keys(a), Keys(b), n.data.onAt);
  }

  lemma KeysRemoved(a: seq<NoteEntry>, b: seq<NoteEntry>, n: NoteEntry)
    ensures RemoveAt(a + [n] + b, |a|) == a + b
    ensures Keys(a + b) == RemoveAt(Keys(a + [n] + b), |a|)
  {
    KeysOne(n);
    hide *;
    KeysConcat(a, b);
    KeysConcat(a + [n], b);
    KeysConcat(a, [n]);
    RemoveParts(a, b, n);
    RemoveParts(Keys(a), Keys(b), n.data.onAt);
  }

  lemma {:induction false} KeysConcat(a: seq<NoteEntry>, b: seq<NoteEntry>)
    ensures Keys(a + b) == Keys(a) + Keys(b)
  {
    if a == [] {
      assert a + b == b;
    } else {
      assert (a + b)[1..] == a[1..] + b;
      KeysConcat(a[1..], b);
    }
  }

  /* What sounds, as in module Playback. */

  function SlotOf(n: NoteEntry?): Slot<NoteEntry> {
    if n == null then Empty else (var e: NoteEntry := n; Held(e))
  }

  ghost function SlotsOf(a: seq<NoteEntry?>): (s: seq<Slot<NoteEntry>>)
    ensures |s| == |a| && forall i :: 0 <= i < |a| ==> s[i] == SlotOf(a[i])
  {
    seq(|a|, i requires 0 <= i < |a| => SlotOf(a[i]))
  }

  ghost predicate AllHeldIn(slots: seq<Slot<NoteEntry>>, dom: set<NoteEntry>) {
    forall i :: 0 <= i < |slots| && slots[i].Held? ==> slots[i].entry in dom
  }

  ghost function TicksOf(dom: set<NoteEntry>): map<NoteEntry, int>
    reads dom`ticks2off
  {
    map n | n in dom :: n.ticks2off
  }

  ghost function DueOf(s: seq<NoteEntry>, data: map<NoteEntry, NoteData>): (d: seq<Due<NoteEntry>>)
    requires forall n <- s :: n in data
    ensures |d| == |s| && forall i :: 0 <= i < |s| ==> d[i] == Due(s[i], data[s[i]].length)
  {
    seq(|s|, i requires 0 <= i < |s| => Due(s[i], data[s[i]].length))
  }

  ghost function KeysIn(s: seq<NoteEntry>, data: map<NoteEntry, NoteData>): (k: seq<int>)
    requires forall n <- s :: n in data
    ensures |k| == |s| && forall i :: 0 <= i < |s| ==> k[i] == data[s[i]].onAt
  {
    seq(|s|, i requires 0 <= i < |s| => data[s[i]].onAt)
  }

  /** After the given events, what is left of the work of Starts is to start `due` from p. */
  ghost predicate Leads(p0: Playing<NoteEntry>, due0: seq<Due<NoteEntry>>, events: seq<Event<NoteEntry>>,
                        p: Playing<NoteEntry>, due: seq<Due<NoteEntry>>)
  {
    Starts(p0, due0) == Outcome(Starts(p, due).after, events + Starts(p, due).events)
  }

  lemma LeadsFirst(p: Playing<NoteEntry>, d: Due<NoteEntry>, rest: seq<Due<NoteEntry>>)
    ensures Leads(p, [d] + rest, StartOne(p, d).events, StartOne(p, d).after, rest)
  {
    var due := [d] + rest;
    assert due[1..] == rest && due[0] == d;
  }

  lemma LeadsOn(p0: Playing<NoteEntry>, due0: seq<Due<NoteEntry>>, events: seq<Event<NoteEntry>>,
                p: Playing<NoteEntry>, due: seq<Due<NoteEntry>>, more: seq<Event<NoteEntry>>,
                q: Playing<NoteEntry>, rest: seq<Due<NoteEntry>>)
    requires Leads(p0, due0, events, p, due) && Leads(p, due, more, q, rest)
    ensures Leads(p0, due0, events + more, q, rest)
  {
    hide Starts;
    assert events + (more + Starts(q, rest).events) == events + more + Starts(q, rest).events;
  }

  lemma LeadsEnds(p: Playing<NoteEntry>, due: seq<Due<NoteEntry>>)
    ensures Leads(p, due, [], p, due)
    ensures forall p0, due0, events :: Leads(p0, due0, events, p, []) ==> Starts(p0, due0) == Outcome(p, events)
  {
    assert [] + Starts(p, due).events == Starts(p, due).events;
    forall p0, due0, events | Leads(p0, due0, events, p, []) ensures Starts(p0, due0) == Outcome(p, events) {
      assert events + Starts(p, []).events == events;
    }
  }

  /** After the given events, what is left of the work of Stops is slots k and up of p. */
  ghost predicate Wanes(p0: Playing<NoteEntry>, k0: nat, events: seq<Event<NoteEntry>>, p: Playing<NoteEntry>, k: nat)
    requires Counted(p0) && Counted(p)
  {
    Stops(p0, k0) == Outcome(Stops(p, k).after, events + Stops(p, k).events)
  }

  lemma StopWanes(p: Playing<NoteEntry>, k: nat)
    requires Counted(p) && k < |p.slots|
    ensures Wanes(p, k, StopOne(p, k).events, StopOne(p, k).after, k + 1)
    ensures p.slots[k] == Empty ==> StopOne(p, k) == Outcome(p, [])
  {
  }

  lemma FirstHolds(slots: seq<Slot<NoteEntry>>, k: nat, n: NoteEntry)
    requires k < |slots| && slots[k] == SlotOf(n)
    ensures FirstSlot(slots, Held(n)) < |slots| && slots[k].Held? && slots[k].entry == n
  {
  }

  lemma WanesOn(p0: Playing<NoteEntry>, k0: nat, events: seq<Event<NoteEntry>>, p: Playing<NoteEntry>, k: nat,
                more: seq<Event<NoteEntry>>, q: Playing<NoteEntry>, j: nat)
    requires Counted(p0) && Counted(p) && Counted(q)
    requires Wanes(p0, k0, events, p, k) && Wanes(p, k, more, q, j)
    ensures Wanes(p0, k0, events + more, q, j)
  {
    hide Stops;
    assert events + (more + Stops(q, j).events) == events + more + Stops(q, j).events;
  }

  lemma WanesStart(p: Playing<NoteEntry>)
    requires Counted(p)
    ensures Wanes(p, 0, [], p, 0)
  {
    assert [] + Stops(p, 0).events == Stops(p, 0).events;
  }

  lemma WanesEnd(p0: Playing<NoteEntry>, events: seq<Event<NoteEntry>>, p: Playing<NoteEntry>)
    requires Counted(p0) && Counted(p) && Wanes(p0, 0, events, p, |p.slots|)
    ensures Stops(p0, 0) == Outcome(p, events)
  {
    assert events + Stops(p, |p.slots|).events == events;
  }

  /** The call on the MIDI builder that an event stands for. */
  function MessageOf(on: bool, d: NoteData): Message {
    if on then QueueNoteOn(d.note, d.velocity, d.channel) else QueueNoteOff(d.note, 0x80, d.channel)
  }

  ghost predicate Sent(messages: seq<Message>, events: seq<Event<NoteEntry>>, data: map<NoteEntry, NoteData>) {
    && |messages| == |events|
    && forall i :: 0 <= i < |events| ==>
         events[i].entry in data && messages[i] == MessageOf(events[i].On?, data[events[i].entry])
  }

  lemma SentIs(messages: seq<Message>, events: seq<Event<NoteEntry>>, data: map<NoteEntry, NoteData>)
    requires Sent(messages, events, data)
    ensures |messages| == |events| && forall i :: 0 <= i < |events| ==>
              && events[i].entry in data
              && var d := data[events[i].entry];
                 messages[i] == if events[i].On? then QueueNoteOn(d.note, d.velocity, d.channel)
                                else QueueNoteOff(d.note, 0x80, d.channel)
  {
  }

  lemma AllSent(m: seq<Message>, e: seq<Event<NoteEntry>>, n: seq<Message>, f: seq<Event<NoteEntry>>,
                data: map<NoteEntry, NoteData>)
    requires Sent(m, e, data) && Sent(n, f, data)
    ensures Sent(m + n, e + f, data)
  {
  }

  /** Each clone holds what its original holds, within the widths of the fields. */
  ghost predicate AreClones(clones: seq<NoteEntry>, s: seq<NoteEntry>)
    reads (set x | x in clones)`data, (set x | x in s)`data
  {
    |clones| == |s| && forall i :: 0 <= i < |s| ==> clones[i].data == Masked(s[i].data)
  }

  lemma CloneFields(clones: seq<NoteEntry>, s: seq<NoteEntry>)
    requires AreClones(clones, s)
    ensures |clones| == |s|
    ensures forall i :: 0 <= i < |clones| ==>
              var d := s[i].data;
              clones[i].data == NoteData(d.channel % 16, d.program % 128, d.velocity % 128, d.note % 128, d.onAt, d.length)
  {
  }

  lemma SameKeys(clones: seq<NoteEntry>, s: seq<NoteEntry>)
    requires AreClones(clones, s)
    ensures Keys(clones) == Keys(s) && |clones| == |s|
  {
  }

  /** What is due in tick t of an unedited list that is played from its start. */
  ghost function DueAt(s: seq<NoteEntry>, data: map<NoteEntry, NoteData>, t: nat): seq<Due<NoteEntry>>
    requires forall n <- s :: n in data
  {
    var keys := KeysIn(s, data);
    var next := Passed(keys, CursorAt(keys, t), t);
    DueOf(s[CursorAt(keys, t)..next], data)
  }

  ghost function Dues(s: seq<NoteEntry>, data: map<NoteEntry, NoteData>, ticks: nat): (d: seq<seq<Due<NoteEntry>>>)
    requires forall n <- s :: n in data
    ensures |d| == ticks && forall t :: 0 <= t < ticks ==> d[t] == DueAt(s, data, t)
  {
    seq(ticks, t requires t >= 0 => DueAt(s, data, t))
  }

  /** Note i of the list is due in the tick of its on_at, once, and in no other. */
  lemma DueOnce(s: seq<NoteEntry>, data: map<NoteEntry, NoteData>, i: nat, t: nat)
    requires (forall n <- s :: n in data) && Distinct(s) && i < |s|
    requires Sorted(KeysIn(s, data)) && NonNegative(KeysIn(s, data))
    ensures t != data[s[i]].onAt ==> !IsDue(DueAt(s, data, t), s[i])
    ensures t == data[s[i]].onAt ==>
              var k := i - CursorAt(KeysIn(s, data), t);
              && 0 <= k < |DueAt(s, data, t)| && DueAt(s, data, t)[k] == Due(s[i], data[s[i]].length)
              && forall j :: 0 <= j < |DueAt(s, data, t)| && j != k ==> DueAt(s, data, t)[j].entry != s[i]
  {
    hide *;
    var keys, due := KeysIn(s, data), DueAt(s, data, t);
    EachAtItsTick(keys, t);
    DueEntries(s, data, t);
    assert s[i] in s;
    if t != data[s[i]].onAt {
      NotAmong(s, data, due, CursorAt(keys, t), t, s[i]);
    } else {
      OnlyAmong(s, due, CursorAt(keys, t), i);
    }
  }

  lemma DueEntries(s: seq<NoteEntry>, data: map<NoteEntry, NoteData>, t: nat)
    requires forall n <- s :: n in data
    ensures var keys, due := KeysIn(s, data), DueAt(s, data, t);
            && |due| == CursorAt(keys, t + 1) - CursorAt(keys, t)
            && forall j :: 0 <= j < |due| ==>
                 var n := s[CursorAt(keys, t) + j];
                 due[j] == Due(n, data[n].length) && keys[CursorAt(keys, t) + j] == data[n].onAt
  {
    var keys := KeysIn(s, data);
    CursorNext(keys, t);
    hide CursorAt, Passed, KeysIn, DueOf;
    assert DueAt(s, data, t) == DueOf(s[CursorAt(keys, t)..CursorAt(keys, t + 1)], data);
  }

  lemma NotAmong(s: seq<NoteEntry>, data: map<NoteEntry, NoteData>, due: seq<Due<NoteEntry>>, c: nat, t: nat, n: NoteEntry)
    requires c + |due| <= |s| && (forall m <- s :: m in data) && n in data && data[n].onAt != t
    requires forall j :: 0 <= j < |due| ==> due[j].entry == s[c + j] && data[s[c + j]].onAt == t
    ensures !IsDue(due, n)
  {
  }

  lemma OnlyAmong(s: seq<NoteEntry>, due: seq<Due<NoteEntry>>, c: nat, i: nat)
    requires c + |due| <= |s| && Distinct(s) && c <= i < c + |due|
    requires forall j :: 0 <= j < |due| ==> due[j].entry == s[c + j]
    ensures forall j :: 0 <= j < |due| && j != i - c ==> due[j].entry != s[i]
  {
  }

  /**
   * In an unedited loop with all notes at 0 or later, note i is played at its
   * own on_at if it did not sound before and there is a slot for every note of
   * that tick, and ends length + 1 ticks later: no other message is about it.
   */
  lemma NoteOnAndOff(s: seq<NoteEntry>, data: map<NoteEntry, NoteData>, p: Playing<NoteEntry>, i: nat, ticks: nat)
    requires (forall n <- s :: n in data) && Distinct(s) && i < |s|
    requires Sorted(KeysIn(s, data)) && NonNegative(KeysIn(s, data))
    requires Counted(p) && Silent(p, s[i]) && ticks > data[s[i]].onAt >= 0
    ensures var a, length := data[s[i]].onAt, data[s[i]].length;
            var all, before := Run(p, Dues(s, data, ticks)).events, Run(p, Dues(s, data, ticks)[..a]);
            && Times(before.events, On(s[i])) == 0 == Times(before.events, Off(s[i]))
            && Times(all, On(s[i])) <= 1
            && (Occupied(before.after.slots) + |DueAt(s, data, a)| <= |p.slots| ==> Times(all, On(s[i])) == 1)
            && Times(all, Off(s[i])) == if Times(all, On(s[i])) == 1 && ticks > a + length + 1 then 1 else 0
  {
    var a := data[s[i]].onAt;
    var dues, k := Dues(s, data, ticks), i - CursorAt(KeysIn(s, data), a);
    forall t | 0 <= t < ticks && t != a ensures !IsDue(dues[t], s[i]) {
      DueOnce(s, data, i, t);
    }
    DueOnce(s, data, i, a);
    hide *;
    LifeOfNote(p, dues, s[i], a, k);
  }

  class Loop {
    var loopPosition: int
    var note: NoteEntry?
    var nextNoteToPlay: NoteEntry?
    const activeNote: array<NoteEntry?>
    ghost var notes: seq<NoteEntry>
    ghost var cursor: nat

    /** The list alone. */
    ghost predicate List()
      reads this`note, this`notes, (set x | x in notes)`next, (set x | x in notes)`prev
    {
      note == First(notes, null) && Distinct(notes) && Linked(notes, null, null)
    }

    /** The cursor stands on a note of the list or at its end. */
    ghost predicate Pointing()
      reads this`nextNoteToPlay, this`cursor, this`notes
    {
      cursor <= |notes| && nextNoteToPlay == First(notes[cursor..], null)
    }

    constructor ()
      ensures List() && Pointing() && notes == []
      ensures activeNote.Length == 16 && fresh(activeNote)
      ensures forall i :: 0 <= i < 16 ==> activeNote[i] == null
    {
      note, nextNoteToPlay, notes, cursor := null, null, [], 0;
      activeNote := new NoteEntry?[MAX_ACTIVE_NOTES](_ => null);
    }

    /** internal_insert_note: before the first note with a greater on_at. The cursor stays on its note. */
    method InternalInsertNote(newOne: NoteEntry)
      requires List() && newOne !in notes
      modifies this`note, this`notes, this`cursor, newOne`next, newOne`prev
      modifies (set x | x in notes)`next, (set x | x in notes)`prev
      ensures List()
      ensures notes == InsertAt(old(notes), FirstAbove(Keys(old(notes)), newOne.data.onAt), newOne)
      ensures Keys(notes) == Inserted(Keys(old(notes)), newOne.data.onAt)
      ensures cursor == CursorAfterInsert(Keys(old(notes)), old(cursor), newOne.data.onAt)
      ensures old(Pointing()) ==> Pointing()
    {
      ghost var c := cursor;
      hide List, Keys, InsertAt, First, FirstAbove, Inserted, CursorAfterInsert, Linked, Distinct;
      cursor := CursorAfterInsert(Keys(notes), c, newOne.data.onAt);
      ghost var a, b := EnterInOrder(newOne);
      EntryFacts(a, b, newOne, c);
    }

    lemma EntryFacts(a: seq<NoteEntry>, b: seq<NoteEntry>, n: NoteEntry, c: nat)
      requires |a| == FirstAbove(Keys(a + b), n.data.onAt)
      ensures InsertAt(a + b, FirstAbove(Keys(a + b), n.data.onAt), n) == a + [n] + b
      ensures Keys(a + [n] + b) == Inserted(Keys(a + b), n.data.onAt)
      ensures var later := CursorAfterInsert(Keys(a + b), c, n.data.onAt);
              c <= |a + b| ==> later <= |a + [n] + b| && First((a + [n] + b)[later..], null) == First((a + b)[c..], null)
    {
      KeysInserted(a, b, n);
      if c <= |a + b| {
        CursorInserted(a, b, n, c);
      }
    }

    /** One step along the list, whose part a is behind. */
    lemma Walk(a: seq<NoteEntry>, b: seq<NoteEntry>)
      requires List() && notes == a + b && b != []
      ensures b[0].next == First(b[1..], null) && (b[0].next == null ==> b == b[..1])
      ensures First(b, null) == b[0] && b[..1] == [b[0]]
      ensures (a + b[..1]) + b[1..] == a + b
      ensures b[1..] == [] ==> a + b == a + b[..1] && First(b[1..], null) == null
    {
      LinkedSplit(a, b, null, null);
      assert b == b[..1] + b[1..];
    }

    /** The loop of internal_insert_note. */
    method EnterInOrder(newOne: NoteEntry) returns (ghost a: seq<NoteEntry>, ghost b: seq<NoteEntry>)
      requires List() && newOne !in notes
      modifies this`note, this`notes, newOne`next, newOne`prev
      modifies (set x | x in notes)`next, (set x | x in notes)`prev
      ensures List() && old(notes) == a + b && |a| == FirstAbove(Keys(a + b), newOne.data.onAt)
      ensures notes == a + [newOne] + b
    {
      hide *;
      ghost var was, x := notes, newOne.data.onAt;
      a, b := [], was;
      var crnt := note;
      AtStart(x);
      while crnt != null
        invariant List() && notes == was && newOne !in was && newOne.data.onAt == x
        invariant Before(a, b, x, was, crnt)
        decreases |b|
      {
        NextStep(a, b, x, was, crnt);
        if crnt.data.onAt > newOne.data.onAt {
          LinkBefore(newOne, crnt, a, b);
          FirstAboveParts(a, b, x);
          return;
        }
        if crnt.next == null {
          a, b := was, [];
          LinkLast(newOne, crnt);
          FirstAboveParts(a, b, x);
          assert notes == a + [newOne] + b;
          return;
        }
        a, b := a + b[..1], b[1..];
        crnt := crnt.next;
      }
      NothingThere(a, b, x, was, crnt);
      EnterEmpty(newOne);
      FirstAboveParts([], [], x);
      a, b := [], [];
    }

    /** a is behind, and holds nothing later than x; crnt is the first of the rest b. */
    ghost predicate Before(a: seq<NoteEntry>, b: seq<NoteEntry>, x: int, was: seq<NoteEntry>, crnt: NoteEntry?)
      reads (set n | n in a)`data
    {
      was == a + b && crnt == First(b, null) && (was != [] ==> b != []) && forall n <- a :: n.data.onAt <= x
    }

    lemma AtStart(x: int)
      requires List()
      ensures Before([], notes, x, notes, note)
    {
    }

    lemma NextStep(a: seq<NoteEntry>, b: seq<NoteEntry>, x: int, was: seq<NoteEntry>, crnt: NoteEntry?)
      requires List() && notes == was && Before(a, b, x, was, crnt) && crnt != null
      ensures was == a + b && b != [] && b[0] == crnt && forall n <- a :: n.data.onAt <= x
      ensures crnt.data.onAt <= x && crnt.next != null ==> Before(a + b[..1], b[1..], x, was, crnt.next)
      ensures crnt.data.onAt <= x && crnt.next == null ==> crnt == was[|was| - 1] && forall n <- was :: n.data.onAt <= x
    {
      Walk(a, b);
      assert b == b[..1] + b[1..];
    }

    lemma NothingThere(a: seq<NoteEntry>, b: seq<NoteEntry>, x: int, was: seq<NoteEntry>, crnt: NoteEntry?)
      requires Before(a, b, x, was, crnt) && crnt == null
      ensures was == []
    {
    }

    /** internal_insert_note into an empty list. */
    method EnterEmpty(newOne: NoteEntry)
      requires notes == []
      modifies this`note, this`notes, newOne`next, newOne`prev
      ensures List() && notes == [newOne]
    {
      note := newOne;
      newOne.next := null;
      newOne.prev := null;
      notes := [newOne];
      assert Linked([newOne], null, null);
    }

    /** The branch of internal_insert_note that finds a later note. */
    method LinkBefore(newOne: NoteEntry, crnt: NoteEntry, ghost a: seq<NoteEntry>, ghost b: seq<NoteEntry>)
      requires List() && notes == a + b && newOne !in notes && b != [] && crnt == b[0]
      modifies this`note, this`notes, newOne`next, newOne`prev
      modifies (set x | x in notes)`next, (set x | x in notes)`prev
      ensures List() && notes == a + [newOne] + b
    {
      hide *;
      RoomBefore(newOne, a, b);
      FirstBefore(newOne, a, b);
      newOne.prev := crnt.prev;
      newOne.next := crnt;
      if crnt.prev != null {
        SetLastNext(crnt.prev, newOne, a, null, crnt);
      } else {
        note := newOne;
      }
      SetFirstPrev(crnt, newOne, b, Last(a, null), null);
      JoinAround(newOne, a, b);
      notes := a + [newOne] + b;
      IsList();
    }

    static lemma JoinAround(n: NoteEntry, a: seq<NoteEntry>, b: seq<NoteEntry>)
      requires b != [] && n.prev == Last(a, null) && n.next == b[0]
      requires Linked(a, null, n) && Linked(b, n, null)
      ensures Linked(a + [n] + b, null, null)
    {
      LinkedJoin([n], b, Last(a, null), null);
      LinkedJoin(a, [n] + b, null, null);
      assert a + ([n] + b) == a + [n] + b;
    }

    lemma IsList()
      requires note == First(notes, null) && Distinct(notes) && Linked(notes, null, null)
      ensures List()
    {
    }

    lemma FirstBefore(newOne: NoteEntry, a: seq<NoteEntry>, b: seq<NoteEntry>)
      requires b != []
      ensures First(a + [newOne] + b, null) == if a == [] then newOne else a[0]
      ensures First(a + b, null) == if a == [] then b[0] else a[0]
    {
    }

    lemma RoomBefore(newOne: NoteEntry, a: seq<NoteEntry>, b: seq<NoteEntry>)
      requires List() && notes == a + b && newOne !in notes && b != []
      ensures Linked(a, null, b[0]) && Linked(b, Last(a, null), null) && b[0].prev == Last(a, null)
      ensures Distinct(a) && Distinct(b) && Distinct(a + [newOne] + b) && newOne !in a && newOne !in b
      ensures forall n <- a :: n !in b
      ensures a == [] <==> Last(a, null) == null
      ensures a != [] ==> Last(a, null) == a[|a| - 1] && note == a[0]
      ensures First([newOne] + b, null) == newOne && First(b, null) == b[0] && Last([newOne], Last(a, null)) == newOne
    {
      LinkedSplit(a, b, null, null);
      DistinctParts(a, b);
      DistinctJoin([newOne], b);
      DistinctJoin(a, [newOne] + b);
      assert a + ([newOne] + b) == a + [newOne] + b;
    }

    /** The branch of internal_insert_note at the end of the line. */
    method LinkLast(newOne: NoteEntry, crnt: NoteEntry)
      requires List() && newOne !in notes && notes != [] && crnt == notes[|notes| - 1]
      modifies this`notes, crnt`next, newOne`next, newOne`prev
      ensures List() && notes == old(notes) + [newOne]
    {
      DistinctJoin(notes, [newOne]);
      SetLastNext(crnt, newOne, notes, null, null);
      newOne.prev := crnt;
      newOne.next := null;
      LinkedJoin(notes, [newOne], null, null);
      notes := notes + [newOne];
    }

    /** internal_delete_note: the cursor moves on if it stands on the note. */
    method InternalDeleteNote(net: NoteEntry) returns (found: NoteEntry?, ghost k: nat)
      requires List() && Pointing()
      modifies this`note, this`notes, this`cursor, this`nextNoteToPlay
      modifies (set x | x in notes)`next, (set x | x in notes)`prev
      ensures List() && Pointing()
      ensures net !in old(notes) ==> found == null && notes == old(notes) && cursor == old(cursor)
      ensures net in old(notes) ==>
                && found == net && k < |old(notes)| && old(notes)[k] == net
                && notes == RemoveAt(old(notes), k)
                && Keys(notes) == RemoveAt(Keys(old(notes)), k)
                && cursor == CursorAfterRemove(old(cursor), k)
    {
      ghost var was: seq<NoteEntry>, a: seq<NoteEntry>, b: seq<NoteEntry> := notes, [], notes;
      var crnt := note;
      while crnt != null
        invariant List() && Pointing() && notes == was && cursor == old(cursor)
        invariant was == a + b && crnt == First(b, null) && net !in a
        decreases |b|
      {
        Walk(a, b);
        hide *;
        if crnt == net {
          Unlink(crnt, a, b[1..]);
          k := |a|;
          RemovalFacts(a, b[1..], net);
          assert net in was;
          return crnt, k;
        }
        a, b := a + b[..1], b[1..];
        crnt := crnt.next;
      }
      return null, 0;
    }

    lemma RemovalFacts(a: seq<NoteEntry>, b: seq<NoteEntry>, n: NoteEntry)
      ensures RemoveAt(a + [n] + b, |a|) == a + b
      ensures Keys(a + b) == RemoveAt(Keys(a + [n] + b), |a|)
      ensures (a + [n] + b)[|a|] == n
    {
      KeysRemoved(a, b, n);
    }

    method Unlink(crnt: NoteEntry, ghost a: seq<NoteEntry>, ghost b: seq<NoteEntry>)
      requires List() && Pointing() && notes == a + [crnt] + b
      modifies this`note, this`notes, this`cursor, this`nextNoteToPlay
      modifies (set x | x in notes)`next, (set x | x in notes)`prev
      ensures List() && Pointing()
      ensures notes == a + b && cursor == CursorAfterRemove(old(cursor), |a|)
    {
      AroundNote(crnt, a, b);
      CursorRemoved(a, b, crnt, cursor);
      hide CursorAfterRemove, First, Last, Linked, Distinct, List;
      if nextNoteToPlay == crnt {
        nextNoteToPlay := crnt.next;
      }
      Detach(crnt, a, b);
      cursor := CursorAfterRemove(cursor, |a|);
    }

    /** The part of internal_delete_note that concerns the list. */
    method Detach(crnt: NoteEntry, ghost a: seq<NoteEntry>, ghost b: seq<NoteEntry>)
      requires List() && notes == a + [crnt] + b
      modifies this`note, this`notes
      modifies (set x | x in notes)`next, (set x | x in notes)`prev
      ensures List() && notes == a + b
    {
      hide *;
      AroundNote(crnt, a, b);
      Bypass(crnt, a, b);
      if crnt == note {
        note := crnt.next;
      }
      LinkedJoin(a, b, null, null);
      notes := a + b;
      IsList();
    }

    lemma AroundNote(crnt: NoteEntry, a: seq<NoteEntry>, b: seq<NoteEntry>)
      requires List() && notes == a + [crnt] + b
      ensures crnt.prev == Last(a, null) && crnt.next == First(b, null)
      ensures Linked(a, null, crnt) && Linked(b, crnt, null)
      ensures Distinct(a) && Distinct(b) && Distinct(a + b)
      ensures crnt !in a && crnt !in b && forall n <- a :: n !in b
      ensures First(a + b, null) == if crnt == note then First(b, null) else note
      ensures Pointing() ==> (nextNoteToPlay == crnt <==> cursor == |a|)
      ensures cursor <= |notes| ==> CursorAfterRemove(cursor, |a|) <= |a + b|
    {
      LinkedSplit(a + [crnt], b, null, null);
      LinkedSplit(a, [crnt], null, First(b, null));
      DistinctParts(a + [crnt], b);
      DistinctParts(a, [crnt]);
      DistinctJoin(a, b);
      assert notes[|a|] == crnt;
      if cursor < |notes| {
        assert notes[cursor..][0] == notes[cursor];
      }
    }

    /** internal_clear: the list is handed out. The cursor keeps its note, which is in no list then. */
    method InternalClear() returns (handedOut: NoteEntry?)
      modifies this`note, this`notes
      ensures handedOut == old(note) && List() && notes == []
    {
      handedOut := note;
      note := null;
      notes := [];
    }

    /** The first notes of the source, as many as a has, have been entered. */
    ghost predicate Entered(source: seq<NoteEntry>, a: seq<NoteEntry>)
      reads this`notes, (set x | x in source)`data, (set x | x in notes)`data
    {
      && |a| <= |source|
      && (forall n <- notes :: n in a)
      && Keys(notes) == Rebuilt(Keys(source), |a|)
      && (Sorted(Keys(source)) ==> notes == a)
    }

    /** internal_insert_notes: the list is replaced by the new notes, entered one by one. */
    method InternalInsertNotes(newNotes: NoteEntry?, ghost source: seq<NoteEntry>) returns (toDelete: NoteEntry?)
      requires newNotes == First(source, null) && Distinct(source) && Linked(source, null, null)
      modifies this`note, this`notes, this`cursor
      modifies (set x | x in source)`next, (set x | x in source)`prev
      ensures toDelete == old(note) && List()
      ensures Keys(notes) == Rebuilt(Keys(source), |source|)
      ensures Sorted(Keys(source)) ==> notes == source
    {
      toDelete := InternalClear();
      var tmp := newNotes;
      ghost var a, b: seq<NoteEntry> := source[..0], source;
      assert Entered(source, a);
      assert InSource(source, a, b, tmp);
      hide *;
      while tmp != null
        invariant InSource(source, a, b, tmp) && Linked(b, Last(a, null), null)
        invariant List() && Entered(source, a)
        decreases |b|
      {
        var crnt := tmp;
        SourceStep(source, a, b, tmp);
        tmp := tmp.next;
        EnterNext(crnt, source, a, b);
        a, b := a + b[..1], b[1..];
      }
      SourceDone(source, a, b, tmp);
    }

    ghost predicate InSource(source: seq<NoteEntry>, a: seq<NoteEntry>, b: seq<NoteEntry>, tmp: NoteEntry?) {
      Distinct(source) && source == a + b && tmp == First(b, null)
    }

    lemma SourceStep(source: seq<NoteEntry>, a: seq<NoteEntry>, b: seq<NoteEntry>, tmp: NoteEntry?)
      requires InSource(source, a, b, tmp) && tmp != null && Linked(b, Last(a, null), null)
      ensures b != [] && b[0] == tmp && InSource(source, a + b[..1], b[1..], tmp.next)
      ensures Last(a + b[..1], null) == tmp
    {
      assert b == b[..1] + b[1..];
    }

    lemma SourceDone(source: seq<NoteEntry>, a: seq<NoteEntry>, b: seq<NoteEntry>, tmp: NoteEntry?)
      requires InSource(source, a, b, tmp) && tmp == null && Entered(source, a)
      ensures a == source && Keys(notes) == Rebuilt(Keys(source), |source|)
      ensures Sorted(Keys(source)) ==> notes == source
    {
    }

    /** One of the new notes is entered; those behind it stay linked. */
    method EnterNext(crnt: NoteEntry, ghost source: seq<NoteEntry>, ghost a: seq<NoteEntry>, ghost b: seq<NoteEntry>)
      requires Distinct(source) && source == a + b && b != [] && crnt == b[0] && Linked(b, Last(a, null), null)
      requires List() && Entered(source, a)
      modifies this`note, this`notes, this`cursor, crnt`next, crnt`prev
      modifies (set x | x in notes)`next, (set x | x in notes)`prev
      ensures List() && Entered(source, a + b[..1])
      ensures Linked(b[1..], crnt, null)
    {
      hide *;
      ghost var was := notes;
      NotYet(source, a, b);
      RestLinked(b, Last(a, null));
      SoFar(source, a);
      InternalInsertNote(crnt);
      EnteredOneMore(was, source, a, b);
    }

    static lemma RestLinked(b: seq<NoteEntry>, before: NoteEntry?)
      requires b != [] && Linked(b, before, null)
      ensures Linked(b[1..], b[0], null)
    {
    }

    lemma SoFar(source: seq<NoteEntry>, a: seq<NoteEntry>)
      requires Entered(source, a)
      ensures (forall n <- notes :: n in a) && |a| <= |source| && Keys(notes) == Rebuilt(Keys(source), |a|)
      ensures Sorted(Keys(source)) ==> notes == a
    {
    }

    lemma NotYet(source: seq<NoteEntry>, a: seq<NoteEntry>, b: seq<NoteEntry>)
      requires Distinct(source) && source == a + b && b != [] && Entered(source, a)
      ensures b[0] !in notes && forall n <- b[1..] :: n !in notes && n != b[0]
    {
      DistinctParts(a, b);
      assert b == b[..1] + b[1..];
      DistinctParts(b[..1], b[1..]);
      assert b[0] in b[..1];
      assert forall n <- b[1..] :: n in b;
    }

    lemma EnteredOneMore(was: seq<NoteEntry>, source: seq<NoteEntry>, a: seq<NoteEntry>, b: seq<NoteEntry>)
      requires source == a + b && b != [] && (forall n <- was :: n in a)
      requires Keys(was) == Rebuilt(Keys(source), |a|) && (Sorted(Keys(source)) ==> was == a)
      requires notes == InsertAt(was, FirstAbove(Keys(was), b[0].data.onAt), b[0])
      requires Keys(notes) == Inserted(Keys(was), b[0].data.onAt)
      ensures Entered(source, a + b[..1])
    {
      hide *;
      var keys, n := Keys(source), b[0];
      KeyOfNext(a, b);
      InsertElements(was, FirstAbove(Keys(was), n.data.onAt), n);
      RebuiltNext(keys, |a|);
      if Sorted(keys) {
        RebuiltSame(keys, |a|);
        InsertParts(was, [], n);
        assert was + [] == was;
      }
      NowEntered(source, a + [n]);
    }

    static lemma KeyOfNext(a: seq<NoteEntry>, b: seq<NoteEntry>)
      requires b != []
      ensures a + b[..1] == a + [b[0]] && |Keys(a + b)| == |a + b| && Keys(a + b)[|a|] == b[0].data.onAt
    {
      assert (a + b)[|a|] == b[0];
    }

    lemma NowEntered(source: seq<NoteEntry>, a: seq<NoteEntry>)
      requires |a| <= |source| && (forall n <- notes :: n in a)
      requires Keys(notes) == Rebuilt(Keys(source), |a|) && (Sorted(Keys(source)) ==> notes == a)
      ensures Entered(source, a)
    {
    }

    /** The first loop of copy_loop: a new note for each note of src. */
    static method CloneNotes(src: Loop) returns (newOnes: NoteEntry?, ghost clones: seq<NoteEntry>)
      requires src.List()
      ensures fresh(clones) && Distinct(clones) && Linked(clones, null, null) && newOnes == First(clones, null)
      ensures src.List() && AreClones(clones, src.notes)
    {
      hide *;
      var original := src.note;
      var clone: NoteEntry? := null;
      newOnes, clones := null, [];
      ghost var s, a, b: seq<NoteEntry> := src.notes, [], src.notes;
      NoClones(src);
      while original != null
        invariant src.List() && src.notes == s == old(src.notes) && s == a + b && original == First(b, null)
        invariant AreClones(clones, a) && fresh(clones) && Distinct(clones) && Linked(clones, null, null)
        invariant newOnes == First(clones, null) && clone == Last(clones, null) && (clone != null ==> fresh(clone))
        decreases |b|
      {
        FirstOfRest(b, original);
        src.Walk(a, b);
        var next := original.next;
        ghost var was := clones;
        newOnes, clone, clones := CloneOne(newOnes, clone, original.data, clones);
        OneMoreClone(was, a, b, clone);
        a, b := a + b[..1], b[1..];
        original := next;
      }
      NoRest(a, b, original);
    }

    static lemma NoClones(src: Loop)
      requires src.List()
      ensures src.note == First(src.notes, null) && [] + src.notes == src.notes
      ensures AreClones([], []) && Linked([], null, null) && Distinct<NoteEntry>([]) && First([], null) == null == Last([], null)
    {
    }

    static lemma FirstOfRest(b: seq<NoteEntry>, original: NoteEntry?)
      requires original == First(b, null) && original != null
      ensures b != [] && b[0] == original
    {
    }

    static lemma NoRest(a: seq<NoteEntry>, b: seq<NoteEntry>, original: NoteEntry?)
      requires original == First(b, null) && original == null
      ensures a + b == a
    {
    }

    static lemma OneMoreClone(clones: seq<NoteEntry>, a: seq<NoteEntry>, b: seq<NoteEntry>, clone: NoteEntry)
      requires AreClones(clones, a) && b != [] && clone.data == Masked(b[0].data)
      ensures AreClones(clones + [clone], a + b[..1])
    {
    }

    /** One clone goes behind the others. */
    static method CloneOne(newOnes: NoteEntry?, clone: NoteEntry?, d: NoteData, ghost clones: seq<NoteEntry>)
      returns (first: NoteEntry?, last: NoteEntry, ghost more: seq<NoteEntry>)
      requires Distinct(clones) && Linked(clones, null, null)
      requires newOnes == First(clones, null) && clone == Last(clones, null)
      modifies (if clone == null then {} else {clone})`next
      ensures fresh(last) && last.data == Masked(d) && more == clones + [last]
      ensures Distinct(more) && Linked(more, null, null)
      ensures first == First(more, null) && last == Last(more, null)
    {
      last := new NoteEntry(d);
      first := newOnes;
      more := clones + [last];
      DistinctJoin(clones, [last]);
      if clone == null {
        first := last;
        assert Linked([last], null, null);
        assert more == [last];
      } else {
        SetLastNext(clone, last, clones, null, null);
        last.prev := clone;
        assert Linked([last], clone, null);
        LinkedJoin(clones, [last], null, null);
      }
    }

    /** copy_loop: clones of the notes of src, in their order if that is by on_at. The old list is handed out. */
    method CopyLoop(src: Loop) returns (toDelete: NoteEntry?, ghost clones: seq<NoteEntry>)
      requires src.List()
      modifies this`note, this`notes, this`cursor
      ensures List() && toDelete == old(note)
      ensures fresh(clones) && |clones| == |old(src.notes)|
      ensures forall i :: 0 <= i < |clones| ==>
                var d := old(src.notes[i].data);
                clones[i].data == NoteData(d.channel % 16, d.program % 128, d.velocity % 128, d.note % 128, d.onAt, d.length)
      ensures Keys(notes) == Rebuilt(Keys(old(src.notes)), |old(src.notes)|)
      ensures Sorted(Keys(old(src.notes))) ==> notes == clones && Keys(notes) == Keys(old(src.notes))
    {
      var newOnes;
      hide *;
      ghost var s := src.notes;
      newOnes, clones := CloneNotes(src);
      toDelete := InternalInsertNotes(newOnes, clones);
      SameKeys(clones, s);
      CloneFields(clones, s);
    }

    /** start_to_play */
    method StartToPlay()
      requires List()
      modifies this`loopPosition, this`nextNoteToPlay, this`cursor
      ensures List() && Pointing() && loopPosition == 0 && cursor == 0
    {
      loopPosition := 0;
      nextNoteToPlay := note;
      cursor := 0;
    }

    /** data holds what every note of the list and every sounding one contains. */
    ghost predicate Playable(data: map<NoteEntry, NoteData>)
      reads activeNote, this`notes, data.Keys`data
    {
      && activeNote.Length == MAX_ACTIVE_NOTES
      && AllHeldIn(SlotsOf(activeNote[..]), data.Keys)
      && (forall n <- notes :: n in data)
      && (forall n <- data.Keys :: n.data == data[n])
    }

    /** The slots, and the countdowns of all entries in dom. */
    ghost function Sounding(dom: set<NoteEntry>): Playing<NoteEntry>
      reads activeNote, dom`ticks2off
    {
      Playing(SlotsOf(activeNote[..]), TicksOf(dom))
    }

    /** The keys that a tick goes by are those that insertion and deletion keep in order. */
    lemma SameOrder(data: map<NoteEntry, NoteData>)
      requires Playable(data)
      ensures KeysIn(notes, data) == Keys(notes)
    {
      assert forall i :: 0 <= i < |notes| ==> notes[i] in notes;
    }

    lemma InList(data: map<NoteEntry, NoteData>)
      requires Pointing() && Playable(data)
      ensures cursor <= |notes| && forall n <- notes :: n in data
    {
    }

    lemma SoundingCounted(data: map<NoteEntry, NoteData>)
      requires Playable(data)
      ensures Counted(Sounding(data.Keys)) && |Sounding(data.Keys).slots| == MAX_ACTIVE_NOTES
    {
    }

    method ActivateNote(n: NoteEntry) returns (ok: bool)
      modifies activeNote
      ensures var was, f := SlotsOf(old(activeNote[..])), FirstSlot(SlotsOf(old(activeNote[..])), Empty);
              && (ok <==> f < |was|)
              && SlotsOf(activeNote[..]) == if ok then was[f := Held(n)] else was
      ensures ok <==> exists i :: 0 <= i < activeNote.Length && old(activeNote[i]) == null
      ensures ok ==> exists k :: 0 <= k < activeNote.Length && old(activeNote[k]) == null
                                 && (forall i :: 0 <= i < k ==> old(activeNote[i]) != null)
                                 && activeNote[..] == old(activeNote[..])[k := n]
      ensures !ok ==> activeNote[..] == old(activeNote[..])
    {
      ghost var was := SlotsOf(activeNote[..]);
      for x := 0 to activeNote.Length
        invariant activeNote[..] == old(activeNote[..])
        invariant forall i :: 0 <= i < x ==> activeNote[i] != null && was[i] != Empty
      {
        if activeNote[x] == null {
          activeNote[x] := n;
          assert SlotsOf(activeNote[..]) == was[x := Held(n)];
          return true;
        }
      }
      return false;
    }

    method DeactivateNote(n: NoteEntry)
      modifies activeNote
      ensures var was, f := SlotsOf(old(activeNote[..])), FirstSlot(SlotsOf(old(activeNote[..])), Held(n));
              SlotsOf(activeNote[..]) == if f < |was| then was[f := Empty] else was
      ensures n !in old(activeNote[..]) ==> activeNote[..] == old(activeNote[..])
      ensures n in old(activeNote[..]) ==>
                exists k :: 0 <= k < activeNote.Length && old(activeNote[k]) == n
                            && (forall i :: 0 <= i < k ==> old(activeNote[i]) != n)
                            && activeNote[..] == old(activeNote[..])[k := null]
    {
      ghost var was := SlotsOf(activeNote[..]);
      for x := 0 to activeNote.Length
        invariant activeNote[..] == old(activeNote[..])
        invariant forall i :: 0 <= i < x ==> activeNote[i] != n && was[i] != Held(n)
      {
        if activeNote[x] == n {
          activeNote[x] := null;
          assert SlotsOf(activeNote[..]) == was[x := Empty];
          return;
        }
      }
    }

    /** The note is started if there is a slot for it. */
    method StartNote(n: NoteEntry, ghost data: map<NoteEntry, NoteData>, ghost rest: seq<Due<NoteEntry>>)
      returns (messages: seq<Message>, ghost events: seq<Event<NoteEntry>>)
      requires Playable(data) && n in data
      modifies activeNote, n`ticks2off
      ensures Playable(data) && Sent(messages, events, data)
      ensures Leads(old(Sounding(data.Keys)), [Due(n, data[n].length)] + rest, events, Sounding(data.Keys), rest)
    {
      hide *;
      messages, events := [], [];
      ghost var p := Sounding(data.Keys);
      LeadsFirst(p, Due(n, data[n].length), rest);
      NothingSent(data);
      IsKnown(n, data);
      var active := ActivateNote(n);
      if active {
        n.ticks2off := n.data.length + 1;
        messages, events := [QueueNoteOn(n.data.note, n.data.velocity, n.data.channel)], [On(n)];
        OnSent(n, data);
      }
      StillPlayable(n, data, p, active);
    }

    lemma IsKnown(n: NoteEntry, data: map<NoteEntry, NoteData>)
      requires Playable(data) && n in data
      ensures n.data == data[n] && (forall m <- notes :: m in data) && (forall m <- data.Keys :: m.data == data[m])
      ensures activeNote.Length == MAX_ACTIVE_NOTES
      ensures var p := Sounding(data.Keys);
              && p.slots == SlotsOf(activeNote[..]) && AllHeldIn(p.slots, data.Keys)
              && p.ticks.Keys == data.Keys && forall m <- data.Keys :: m.ticks2off == p.ticks[m]
    {
    }

    static lemma OnSent(n: NoteEntry, data: map<NoteEntry, NoteData>)
      requires n in data && n.data == data[n]
      ensures Sent([QueueNoteOn(n.data.note, n.data.velocity, n.data.channel)], [On(n)], data)
    {
    }

    /** After activate_note on n, and the countdown set if it found a slot. */
    lemma StillPlayable(n: NoteEntry, data: map<NoteEntry, NoteData>, p: Playing<NoteEntry>, active: bool)
      requires n in data && activeNote.Length == MAX_ACTIVE_NOTES && AllHeldIn(p.slots, data.Keys) && p.ticks.Keys == data.Keys
      requires (forall m <- notes :: m in data) && forall m <- data.Keys :: m.data == data[m]
      requires forall m <- data.Keys :: m.ticks2off == if m == n && active then data[n].length + 1 else p.ticks[m]
      requires var f := FirstSlot(p.slots, Empty);
               (active <==> f < |p.slots|) && SlotsOf(activeNote[..]) == if active then p.slots[f := Held(n)] else p.slots
      ensures Playable(data)
      ensures StartOne(p, Due(n, data[n].length)) == Outcome(Sounding(data.Keys), if active then [On(n)] else [])
    {
      hide FirstSlot, SlotsOf;
      assert TicksOf(data.Keys) == if active then p.ticks[n := data[n].length + 1] else p.ticks;
    }

    /** What is due from the cursor up to `end`. */
    ghost function DueUpTo(sound: bool, from: nat, end: nat, data: map<NoteEntry, NoteData>): seq<Due<NoteEntry>>
      requires from <= end <= |notes| && forall n <- notes :: n in data
      reads this`notes
    {
      if sound then DueOf(notes[from..end], data) else []
    }

    /** One pass of the loop of process_note_on. */
    method Consider(sound: bool, ghost end: nat, ghost data: map<NoteEntry, NoteData>)
      returns (messages: seq<Message>, ghost events: seq<Event<NoteEntry>>)
      requires List() && Pointing() && Playable(data) && cursor < end <= |notes|
      modifies this`nextNoteToPlay, this`cursor, activeNote, data.Keys`ticks2off
      ensures List() && Pointing() && Playable(data) && cursor == old(cursor) + 1
      ensures Leads(old(Sounding(data.Keys)), DueUpTo(sound, old(cursor), end, data), events,
                    Sounding(data.Keys), DueUpTo(sound, cursor, end, data))
      ensures Sent(messages, events, data)
    {
      hide List, Playable, Sounding, First, Linked, Distinct, Leads, DueOf, Pointing, Sent;
      messages, events := [], [];
      var n := nextNoteToPlay;
      InList(data);
      NextOne(end, data);
      LeadsEnds(Sounding(data.Keys), []);
      assert Sent([], [], data) by {
        NothingSent(data);
      }
      if sound {
        messages, events := StartNote(n, data, DueOf(notes[cursor + 1..end], data));
      }
      Step(n.next);
    }

    lemma NothingSent(data: map<NoteEntry, NoteData>)
      ensures Sent([], [], data)
    {
    }

    method Step(next: NoteEntry?)
      requires Pointing() && cursor < |notes| && next == First(notes[cursor + 1..], null)
      modifies this`nextNoteToPlay, this`cursor
      ensures Pointing() && cursor == old(cursor) + 1
    {
      nextNoteToPlay := next;
      cursor := cursor + 1;
    }

    /** The note under the cursor and the one after it. */
    lemma NextOne(end: nat, data: map<NoteEntry, NoteData>)
      requires List() && Pointing() && Playable(data) && cursor < end <= |notes|
      ensures nextNoteToPlay == notes[cursor] && notes[cursor] in data
      ensures notes[cursor].next == First(notes[cursor + 1..], null)
      ensures DueOf(notes[cursor..end], data)
           == [Due(notes[cursor], data[notes[cursor]].length)] + DueOf(notes[cursor + 1..end], data)
    {
      var a, b := notes[..cursor], notes[cursor..];
      assert notes == a + b && notes[cursor] == b[0] && b[0] in notes && b[1..] == notes[cursor + 1..];
      DueFirst(notes, cursor, end, data);
      hide DueOf, List, Linked, Distinct, DueOf;
      Walk(a, b);
    }

    static lemma DueFirst(s: seq<NoteEntry>, from: nat, end: nat, data: map<NoteEntry, NoteData>)
      requires from < end <= |s| && forall n <- s :: n in data
      ensures s[from] in data
      ensures DueOf(s[from..end], data) == [Due(s[from], data[s[from]].length)] + DueOf(s[from + 1..end], data)
    {
      assert s[from] in s;
    }

    /** Where the loop of process_note_on stands. */
    lemma AtCursor(end: nat, data: map<NoteEntry, NoteData>)
      requires Pointing() && Playable(data) && end == Passed(KeysIn(notes, data), cursor, loopPosition)
      ensures nextNoteToPlay != null && nextNoteToPlay.data.onAt == loopPosition
         <==> cursor < end
      ensures cursor < end ==> end == Passed(KeysIn(notes, data), cursor + 1, loopPosition)
      ensures cursor <= end <= |notes|
    {
      if cursor < |notes| {
        assert notes[cursor..][0] == notes[cursor];
        assert notes[cursor] in notes;
      }
    }

    /** What holds during the loop of process_note_on, which started with p0 and due0. */
    ghost predicate Considering(sound: bool, end: nat, data: map<NoteEntry, NoteData>, p0: Playing<NoteEntry>,
                                due0: seq<Due<NoteEntry>>, messages: seq<Message>, events: seq<Event<NoteEntry>>)
      reads this, activeNote, data.Keys`data, data.Keys`ticks2off, (set x | x in notes)`next, (set x | x in notes)`prev
    {
      && List() && Pointing() && Playable(data)
      && cursor <= end <= |notes| && end == Passed(KeysIn(notes, data), cursor, loopPosition)
      && Leads(p0, due0, events, Sounding(data.Keys), DueUpTo(sound, cursor, end, data))
      && Sent(messages, events, data)
    }

    /** One pass of the loop, with what was sent before it. */
    method ConsiderNext(sound: bool, ghost end: nat, ghost data: map<NoteEntry, NoteData>, ghost p0: Playing<NoteEntry>,
                        ghost due0: seq<Due<NoteEntry>>, was: seq<Message>, ghost before: seq<Event<NoteEntry>>)
      returns (messages: seq<Message>, ghost events: seq<Event<NoteEntry>>)
      requires Considering(sound, end, data, p0, due0, was, before) && cursor < end
      modifies this`nextNoteToPlay, this`cursor, activeNote, data.Keys`ticks2off
      ensures Considering(sound, end, data, p0, due0, messages, events) && cursor == old(cursor) + 1
    {
      hide *;
      WhileConsidering(sound, end, data, p0, due0, was, before);
      ghost var p, due := Sounding(data.Keys), DueUpTo(sound, cursor, end, data);
      var message, event := Consider(sound, end, data);
      AllSent(was, before, message, event, data);
      messages, events := was + message, before + event;
      LeadsOn(p0, due0, before, p, due, event, Sounding(data.Keys), DueUpTo(sound, cursor, end, data));
      AgainConsidering(sound, end, data, p0, due0, messages, events);
    }

    lemma WhileConsidering(sound: bool, end: nat, data: map<NoteEntry, NoteData>, p0: Playing<NoteEntry>,
                           due0: seq<Due<NoteEntry>>, messages: seq<Message>, events: seq<Event<NoteEntry>>)
      requires Considering(sound, end, data, p0, due0, messages, events) && cursor < end
      ensures List() && Pointing() && Playable(data) && (forall n <- notes :: n in data) && cursor < end <= |notes|
      ensures end == Passed(KeysIn(notes, data), cursor + 1, loopPosition)
      ensures Leads(p0, due0, events, Sounding(data.Keys), DueUpTo(sound, cursor, end, data))
      ensures Sent(messages, events, data)
    {
      AtCursor(end, data);
    }

    lemma AgainConsidering(sound: bool, end: nat, data: map<NoteEntry, NoteData>, p0: Playing<NoteEntry>,
                           due0: seq<Due<NoteEntry>>, messages: seq<Message>, events: seq<Event<NoteEntry>>)
      requires List() && Pointing() && Playable(data) && (forall n <- notes :: n in data) && cursor <= end <= |notes|
      requires end == Passed(KeysIn(notes, data), cursor, loopPosition)
      requires Leads(p0, due0, events, Sounding(data.Keys), DueUpTo(sound, cursor, end, data))
      requires Sent(messages, events, data)
      ensures Considering(sound, end, data, p0, due0, messages, events)
    {
    }

    /** process_note_on: every note at the loop position is passed, and started if there is sound and a slot. */
    method ProcessNoteOn(isPlaying: bool, mute: bool, ghost data: map<NoteEntry, NoteData>)
      returns (messages: seq<Message>, ghost events: seq<Event<NoteEntry>>)
      requires List() && Pointing() && Playable(data)
      modifies this`nextNoteToPlay, this`cursor, activeNote, data.Keys`ticks2off
      ensures List() && Pointing() && Playable(data)
      ensures cursor == Passed(KeysIn(notes, data), old(cursor), loopPosition)
      ensures !isPlaying || mute ==> messages == [] && events == [] && Sounding(data.Keys) == old(Sounding(data.Keys))
      ensures isPlaying && !mute ==>
                && old(cursor) <= cursor <= |notes| && (forall n <- notes :: n in data)
                && Outcome(Sounding(data.Keys), events)
                   == Starts(old(Sounding(data.Keys)), DueOf(notes[old(cursor)..cursor], data))
      ensures Sent(messages, events, data)
      ensures |messages| == |events| && forall i :: 0 <= i < |events| ==>
                && events[i].entry in data
                && var d := data[events[i].entry];
                   messages[i] == if events[i].On? then QueueNoteOn(d.note, d.velocity, d.channel)
                                  else QueueNoteOff(d.note, 0x80, d.channel)
    {
      hide *;
      InList(data);
      ghost var end, sound, c := Passed(KeysIn(notes, data), cursor, loopPosition), isPlaying && !mute, cursor;
      ghost var p0, due0 := Sounding(data.Keys), DueUpTo(sound, cursor, end, data);
      messages, events := [], [];
      StartConsidering(sound, end, data);
      StillConsidering(sound, end, data, p0, due0, messages, events);
      while nextNoteToPlay != null && nextNoteToPlay.data.onAt == loopPosition
        invariant Considering(sound, end, data, p0, due0, messages, events)
        invariant nextNoteToPlay != null && nextNoteToPlay.data.onAt == loopPosition <==> cursor < end
        decreases end - cursor
      {
        messages, events := ConsiderNext(isPlaying && !mute, end, data, p0, due0, messages, events);
        StillConsidering(sound, end, data, p0, due0, messages, events);
      }
      DoneConsidering(sound, end, data, p0, due0, messages, events);
      SoundIs(sound, c, cursor, data, p0, Outcome(Sounding(data.Keys), events));
      SentIs(messages, events, data);
    }

    /** What the due notes come to: nothing without sound, otherwise all between the two cursors. */
    lemma SoundIs(sound: bool, from: nat, end: nat, data: map<NoteEntry, NoteData>, p: Playing<NoteEntry>, r: Outcome<NoteEntry>)
      requires from <= end <= |notes| && forall n <- notes :: n in data
      requires r == Starts(p, DueUpTo(sound, from, end, data))
      ensures r == if sound then Starts(p, DueOf(notes[from..end], data)) else Outcome(p, [])
    {
      hide DueOf;
    }

    lemma StartConsidering(sound: bool, end: nat, data: map<NoteEntry, NoteData>)
      requires List() && Pointing() && Playable(data) && (forall n <- notes :: n in data)
      requires end == Passed(KeysIn(notes, data), cursor, loopPosition)
      ensures cursor <= end <= |notes|
      ensures Considering(sound, end, data, Sounding(data.Keys), DueUpTo(sound, cursor, end, data), [], [])
    {
      AtCursor(end, data);
      NothingSent(data);
      LeadsEnds(Sounding(data.Keys), DueUpTo(sound, cursor, end, data));
      hide List, Pointing, Playable, Sounding, DueUpTo, Leads, Sent, Passed, KeysIn;
    }

    lemma StillConsidering(sound: bool, end: nat, data: map<NoteEntry, NoteData>, p0: Playing<NoteEntry>,
                           due0: seq<Due<NoteEntry>>, messages: seq<Message>, events: seq<Event<NoteEntry>>)
      requires Considering(sound, end, data, p0, due0, messages, events)
      ensures nextNoteToPlay != null && nextNoteToPlay.data.onAt == loopPosition <==> cursor < end
    {
      AtCursor(end, data);
    }

    lemma DoneConsidering(sound: bool, end: nat, data: map<NoteEntry, NoteData>, p0: Playing<NoteEntry>,
                          due0: seq<Due<NoteEntry>>, messages: seq<Message>, events: seq<Event<NoteEntry>>)
      requires Considering(sound, end, data, p0, due0, messages, events) && cursor >= end
      ensures List() && Pointing() && Playable(data) && Sent(messages, events, data) && cursor == end
      ensures Outcome(Sounding(data.Keys), events) == Starts(p0, due0)
    {
      NothingDue(sound, end, data);
      LeadsEnds(Sounding(data.Keys), []);
    }

    lemma NothingDue(sound: bool, end: nat, data: map<NoteEntry, NoteData>)
      requires end <= |notes| && forall n <- notes :: n in data
      ensures DueUpTo(sound, end, end, data) == []
    {
    }

    /** One slot of process_note_off. */
    method StopAt(k: nat, ghost data: map<NoteEntry, NoteData>)
      returns (messages: seq<Message>, ghost events: seq<Event<NoteEntry>>)
      requires Playable(data) && Counted(Sounding(data.Keys)) && k < MAX_ACTIVE_NOTES
      modifies activeNote, data.Keys`ticks2off
      ensures Playable(data) && Counted(Sounding(data.Keys))
      ensures Wanes(old(Sounding(data.Keys)), k, events, Sounding(data.Keys), k + 1)
      ensures Sent(messages, events, data)
    {
      hide *;
      ghost var p := Sounding(data.Keys);
      messages, events := [], [];
      NothingSent(data);
      SlotKnown(k, data);
      StopWanes(p, k);
      if activeNote[k] != null {
        var n := activeNote[k];
        IsKnown(n, data);
        if n.ticks2off > 0 {
          n.ticks2off := n.ticks2off - 1;
        } else {
          DeactivateNote(n);
          messages, events := [QueueNoteOff(n.data.note, 0x80, n.data.channel)], [Off(n)];
          OffSent(n, data);
        }
        StillPlaying(n, data, p, k);
      }
    }

    lemma SlotKnown(k: nat, data: map<NoteEntry, NoteData>)
      requires Playable(data) && k < MAX_ACTIVE_NOTES
      ensures activeNote.Length == MAX_ACTIVE_NOTES && k < |Sounding(data.Keys).slots|
      ensures activeNote[k] == null <==> Sounding(data.Keys).slots[k] == Empty
      ensures activeNote[k] != null ==> activeNote[k] in data && Sounding(data.Keys).slots[k] == SlotOf(activeNote[k])
    {
      assert SlotsOf(activeNote[..])[k] == SlotOf(activeNote[..][k]);
    }

    static lemma OffSent(n: NoteEntry, data: map<NoteEntry, NoteData>)
      requires n in data && n.data == data[n]
      ensures Sent([QueueNoteOff(n.data.note, 0x80, n.data.channel)], [Off(n)], data)
    {
    }

    /** After slot k, which held n, has counted down or been emptied. */
    lemma StillPlaying(n: NoteEntry, data: map<NoteEntry, NoteData>, p: Playing<NoteEntry>, k: nat)
      requires n in data && activeNote.Length == MAX_ACTIVE_NOTES && AllHeldIn(p.slots, data.Keys) && p.ticks.Keys == data.Keys
      requires k < |p.slots| && p.slots[k] == SlotOf(n) && Counted(p)
      requires (forall m <- notes :: m in data) && forall m <- data.Keys :: m.data == data[m]
      requires forall m <- data.Keys :: m.ticks2off == if m == n && p.ticks[n] > 0 then p.ticks[n] - 1 else p.ticks[m]
      requires var f := FirstSlot(p.slots, Held(n));
               SlotsOf(activeNote[..]) == if p.ticks[n] > 0 || f >= |p.slots| then p.slots else p.slots[f := Empty]
      ensures Playable(data) && Counted(Sounding(data.Keys))
      ensures Sounding(data.Keys) == StopOne(p, k).after && StopOne(p, k).events == if p.ticks[n] > 0 then [] else [Off(n)]
    {
      hide SlotsOf;
      FirstHolds(p.slots, k, n);
      hide FirstSlot;
      assert TicksOf(data.Keys) == if p.ticks[n] > 0 then p.ticks[n := p.ticks[n] - 1] else p.ticks;
    }

    /** process_note_off: every occupied slot counts down or ends. */
    method ProcessNoteOff(ghost data: map<NoteEntry, NoteData>)
      returns (messages: seq<Message>, ghost events: seq<Event<NoteEntry>>)
      requires Playable(data) && Counted(Sounding(data.Keys))
      modifies activeNote, data.Keys`ticks2off
      ensures Playable(data) && Counted(Sounding(data.Keys))
      ensures Outcome(Sounding(data.Keys), events) == Stops(old(Sounding(data.Keys)), 0)
      ensures Sent(messages, events, data)
      ensures |messages| == |events| && forall i :: 0 <= i < |events| ==>
                && events[i].entry in data
                && var d := data[events[i].entry];
                   messages[i] == if events[i].On? then QueueNoteOn(d.note, d.velocity, d.channel)
                                  else QueueNoteOff(d.note, 0x80, d.channel)
    {
      ghost var p0 := Sounding(data.Keys);
      messages, events := [], [];
      WanesStart(p0);
      hide *;
      for k := 0 to MAX_ACTIVE_NOTES
        invariant Playable(data) && Counted(Sounding(data.Keys))
        invariant Wanes(p0, 0, events, Sounding(data.Keys), k)
        invariant Sent(messages, events, data)
      {
        ghost var p := Sounding(data.Keys);
        var message, event := StopAt(k, data);
        AllSent(messages, events, message, event, data);
        WanesOn(p0, 0, events, p, k, event, Sounding(data.Keys), k + 1);
        messages, events := messages + message, events + event;
      }
      SoundingCounted(data);
      WanesEnd(p0, events, Sounding(data.Keys));
      SentIs(messages, events, data);
    }

    static lemma TickIs(p: Playing<NoteEntry>, due: seq<Due<NoteEntry>>)
      requires Counted(p)
      ensures Counted(Starts(p, due).after)
      ensures var started := Starts(p, due);
              var stopped := Stops(started.after, 0);
              Tick(p, due) == Outcome(stopped.after, started.events + stopped.events)
    {
    }

    static lemma TickSilent(p: Playing<NoteEntry>)
      requires Counted(p)
      ensures forall e: seq<Event<NoteEntry>> :: [] + e == e
    {
    }

    /** process: one tick of the loop. Without sound only the countdowns run. */
    method Process(isPlaying: bool, mute: bool, ghost data: map<NoteEntry, NoteData>)
      returns (messages: seq<Message>, ghost events: seq<Event<NoteEntry>>)
      requires List() && Pointing() && Playable(data) && Counted(Sounding(data.Keys))
      modifies this`loopPosition, this`nextNoteToPlay, this`cursor, activeNote, data.Keys`ticks2off
      ensures List() && Pointing() && Playable(data) && Counted(Sounding(data.Keys))
      ensures loopPosition == old(loopPosition) + 1
      ensures cursor == Passed(KeysIn(notes, data), old(cursor), old(loopPosition))
      ensures !isPlaying || mute ==> Outcome(Sounding(data.Keys), events) == Stops(old(Sounding(data.Keys)), 0)
      ensures isPlaying && !mute ==>
                && old(cursor) <= cursor <= |notes| && (forall n <- notes :: n in data)
                && Outcome(Sounding(data.Keys), events)
                   == Tick(old(Sounding(data.Keys)), DueOf(notes[old(cursor)..cursor], data))
      ensures Sent(messages, events, data)
      ensures |messages| == |events| && forall i :: 0 <= i < |events| ==>
                && events[i].entry in data
                && var d := data[events[i].entry];
                   messages[i] == if events[i].On? then QueueNoteOn(d.note, d.velocity, d.channel)
                                  else QueueNoteOff(d.note, 0x80, d.channel)
    {
      hide *;
      InList(data);
      ghost var p, c := Sounding(data.Keys), cursor;
      var on, ons := ProcessNoteOn(isPlaying, mute, data);
      InList(data);
      ghost var due := if isPlaying && !mute then DueOf(notes[c..cursor], data) else [];
      var off, offs := ProcessNoteOff(data);
      TickIs(p, due);
      TickSilent(p);
      AllSent(on, ons, off, offs, data);
      messages, events := on + off, ons + offs;
      SentIs(messages, events, data);
      loopPosition := loopPosition + 1;
    }

    /** start_to_play and then ticks of process with sound on: the run that the due notes of each tick make. */
    method PlayFor(ticks: nat, ghost data: map<NoteEntry, NoteData>)
      returns (messages: seq<Message>, ghost events: seq<Event<NoteEntry>>)
      requires List() && Playable(data) && Counted(Sounding(data.Keys))
      modifies this`loopPosition, this`nextNoteToPlay, this`cursor, activeNote, data.Keys`ticks2off
      ensures List() && Pointing() && Playable(data) && Counted(Sounding(data.Keys))
      ensures loopPosition == ticks && cursor == CursorAt(KeysIn(notes, data), ticks)
      ensures Outcome(Sounding(data.Keys), events) == Run(old(Sounding(data.Keys)), Dues(notes, data, ticks))
      ensures Sent(messages, events, data)
      ensures |messages| == |events| && forall i :: 0 <= i < |events| ==>
                && events[i].entry in data
                && var d := data[events[i].entry];
                   messages[i] == if events[i].On? then QueueNoteOn(d.note, d.velocity, d.channel)
                                  else QueueNoteOff(d.note, 0x80, d.channel)
    {
      hide *;
      ghost var p := Sounding(data.Keys);
      StartToPlay();
      messages, events := [], [];
      InList(data);
      NoTicks(p, data);
      for t := 0 to ticks
        invariant List() && Pointing() && Playable(data) && Counted(Sounding(data.Keys))
        invariant loopPosition == t && cursor == CursorAt(KeysIn(notes, data), t)
        invariant Outcome(Sounding(data.Keys), events) == Run(p, Dues(notes, data, t))
        invariant Sent(messages, events, data)
      {
        InList(data);
        ghost var q := Sounding(data.Keys);
        var message, event := Process(true, false, data);
        OneMoreTick(p, q, data, t, events, Sounding(data.Keys), event);
        AllSent(messages, events, message, event, data);
        messages, events := messages + message, events + event;
      }
      SentIs(messages, events, data);
    }

    lemma NoTicks(p: Playing<NoteEntry>, data: map<NoteEntry, NoteData>)
      requires Counted(p) && Playable(data)
      ensures Run(p, Dues(notes, data, 0)) == Outcome(p, []) && Sent([], [], data)
      ensures CursorAt(KeysIn(notes, data), 0) == 0
    {
    }

    lemma OneMoreTick(p: Playing<NoteEntry>, q: Playing<NoteEntry>, data: map<NoteEntry, NoteData>, t: nat,
                      events: seq<Event<NoteEntry>>, after: Playing<NoteEntry>, event: seq<Event<NoteEntry>>)
      requires Counted(p) && Counted(q) && Playable(data)
      requires Outcome(q, events) == Run(p, Dues(notes, data, t))
      requires cursor == Passed(KeysIn(notes, data), CursorAt(KeysIn(notes, data), t), t) && cursor <= |notes|
      requires Outcome(after, event) == Tick(q, DueOf(notes[CursorAt(KeysIn(notes, data), t)..cursor], data))
      ensures Run(p, Dues(notes, data, t + 1)) == Outcome(after, events + event)
      ensures cursor == CursorAt(KeysIn(notes, data), t + 1)
    {
      InNotes(data);
      hide *;
      var due := DueAt(notes, data, t);
      DuesNext(data, t);
      RunConcat(p, Dues(notes, data, t), [due]);
      RunOne(q, due);
    }

    lemma InNotes(data: map<NoteEntry, NoteData>)
      requires Playable(data)
      ensures forall n <- notes :: n in data
    {
    }

    lemma RunOne(q: Playing<NoteEntry>, due: seq<Due<NoteEntry>>)
      requires Counted(q)
      ensures Run(q, [due]) == Tick(q, due)
    {
      hide Tick;
      TickBalance(q, due);
      assert Tick(q, due).events + [] == Tick(q, due).events;
    }

    lemma DuesNext(data: map<NoteEntry, NoteData>, t: nat)
      requires Playable(data) && cursor <= |notes|
      requires cursor == Passed(KeysIn(notes, data), CursorAt(KeysIn(notes, data), t), t)
      ensures Dues(notes, data, t + 1) == Dues(notes, data, t) + [DueAt(notes, data, t)]
      ensures DueAt(notes, data, t) == DueOf(notes[CursorAt(KeysIn(notes, data), t)..cursor], data)
      ensures cursor == CursorAt(KeysIn(notes, data), t + 1)
    {
      CursorNext(KeysIn(notes, data), t);
      hide Passed, CursorAt, KeysIn, DueOf;
      DuesMore(notes, data, t);
    }

    static lemma DuesMore(s: seq<NoteEntry>, data: map<NoteEntry, NoteData>, t: nat)
      requires forall n <- s :: n in data
      ensures Dues(s, data, t + 1) == Dues(s, data, t) + [DueAt(s, data, t)]
    {
      hide DueAt, Dues;
    }
  }

  /** The neighbours of crnt are linked to each other. */
  method Bypass(crnt: NoteEntry, ghost a: seq<NoteEntry>, ghost b: seq<NoteEntry>)
    requires crnt.prev == Last(a, null) && crnt.next == First(b, null)
    requires Linked(a, null, crnt) && Linked(b, crnt, null) && Distinct(a) && Distinct(b)
    requires crnt !in a && crnt !in b && forall n <- a :: n !in b
    modifies (set x | x in a)`next, (set x | x in b)`prev
    ensures Linked(a, null, First(b, null)) && Linked(b, Last(a, null), null)
  {
    if crnt.prev != null {
      SetLastNext(crnt.prev, crnt.next, a, null, crnt);
    }
    if crnt.next != null {
      SetFirstPrev(crnt.next, crnt.prev, b, crnt, null);
    }
  }
}
