/**
 * PadMidiExportBuilder: what a pad plays is turned into notes of a loop. A
 * note is open from its note-on until its note-off, which gives it its length
 * and enters it into the loop.
 */
module PadExport {

  import opened Sequences
  import opened NoteOrder
  import opened SequencerLoop

  /** A note whose note-off has come, with the pitch that was asked for and the tick of the note-off. */
  datatype Finished = Finished(pitch: int, data: NoteData, offTick: int)

  /** What the builder has done: its tick, the open note of each pitch, the finished notes in order, the accepted note-ons. */
  datatype Export = Export(tick: int, open: map<int, NoteData>, finished: seq<Finished>, accepted: nat)

  datatype Call = NoteOn(note: int, velocity: int, channel: int) | NoteOff(note: int) | StepTick | Ignored

  /** The note that a note-on opens; the fields are bytes. */
  function Opened(tick: int, note: int, velocity: int, channel: int): NoteData {
    NoteData(channel % 256, 0, velocity % 256, note % 256, tick, 0)
  }

  function Called(x: Export, c: Call): Export {
    match c
    case NoteOn(note, velocity, channel) =>
      if note in x.open then x
      else x.(open := x.open[note := Opened(x.tick, note, velocity, channel)], accepted := x.accepted + 1)
    case NoteOff(note) =>
      if note in x.open then
        x.(open := x.open - {note},
           finished := x.finished + [Finished(note, x.open[note].(length := x.tick - x.open[note].onAt), x.tick)])
      else x
    case StepTick => x.(tick := x.tick + 1)
    case Ignored => x
  }

  function AllCalled(x: Export, calls: seq<Call>): Export
    decreases |calls|
  {
    if calls == [] then x else AllCalled(Called(x, calls[0]), calls[1..])
  }

  function End(f: Finished): int {
    f.data.onAt + f.data.length
  }

  /** Finished notes of one pitch follow each other without overlap, and any open one comes after them. */
  ghost predicate Apart(x: Export) {
    && (forall i, j :: 0 <= i < j < |x.finished| && x.finished[i].pitch == x.finished[j].pitch ==>
          End(x.finished[i]) <= x.finished[j].data.onAt)
    && (forall i :: 0 <= i < |x.finished| && x.finished[i].pitch in x.open ==>
          End(x.finished[i]) <= x.open[x.finished[i].pitch].onAt)
  }

  ghost predicate Good(x: Export) {
    && x.tick >= 0 && x.accepted == |x.finished| + |x.open|
    && (forall p <- x.open :: 0 <= x.open[p].onAt <= x.tick && x.open[p].note == p % 256)
    && (forall f <- x.finished :: 0 <= f.data.onAt && f.data.length >= 0 && End(f) == f.offTick <= x.tick)
    && Apart(x)
  }

  lemma StartGood()
    ensures Good(Export(0, map[], [], 0))
  {
  }

  lemma CalledGood(x: Export, c: Call)
    requires Good(x)
    ensures Good(Called(x, c))
  {
    hide Good;
    match c
    case NoteOn(note, velocity, channel) =>
      if note !in x.open {
        OpeningGood(x, note, Opened(x.tick, note, velocity, channel));
      }
    case NoteOff(note) =>
      if note in x.open {
        FinishingGood(x, note);
      }
    case StepTick => TickGood(x);
    case Ignored =>
  }

  lemma TickGood(x: Export)
    requires Good(x)
    ensures Good(x.(tick := x.tick + 1))
  {
  }

  lemma OpeningGood(x: Export, note: int, d: NoteData)
    requires Good(x) && note !in x.open
    requires d.onAt == x.tick && d.note == note % 256
    ensures Good(x.(open := x.open[note := d], accepted := x.accepted + 1))
  {
    var y := x.(open := x.open[note := d], accepted := x.accepted + 1);
    assert y.open.Keys == x.open.Keys + {note} && |y.open.Keys| == |x.open.Keys| + 1;
    hide Apart, End;
    assert Apart(y) by {
      OpeningApart(x, note, d);
    }
  }

  lemma OpeningApart(x: Export, note: int, d: NoteData)
    requires Apart(x) && d.onAt == x.tick && forall f <- x.finished :: End(f) <= x.tick
    ensures Apart(x.(open := x.open[note := d], accepted := x.accepted + 1))
  {
    assert forall i :: 0 <= i < |x.finished| ==> x.finished[i] in x.finished;
  }

  lemma FinishingGood(x: Export, note: int)
    requires Good(x) && note in x.open
    ensures Good(Called(x, NoteOff(note)))
  {
    hide *;
    var f := Finished(note, x.open[note].(length := x.tick - x.open[note].onAt), x.tick);
    var y := x.(open := x.open - {note}, finished := x.finished + [f]);
    GoodParts(x, note);
    FinishingApart(x, note, f);
    OneFewer(x.open, note);
    FinishedGood(x, f, y);
    CallOff(x, note, y);
  }

  lemma CallOff(x: Export, note: int, y: Export)
    requires note in x.open
    requires var d := x.open[note].(length := x.tick - x.open[note].onAt);
             y == x.(open := x.open - {note}, finished := x.finished + [Finished(note, d, x.tick)])
    ensures Called(x, NoteOff(note)) == y
  {
  }

  lemma GoodParts(x: Export, note: int)
    requires Good(x) && note in x.open
    ensures Apart(x) && x.tick >= 0 && x.accepted == |x.finished| + |x.open| && 0 <= x.open[note].onAt <= x.tick
    ensures forall p <- x.open :: 0 <= x.open[p].onAt <= x.tick && x.open[p].note == p % 256
    ensures forall f <- x.finished :: 0 <= f.data.onAt && f.data.length >= 0 && End(f) == f.offTick <= x.tick
  {
    hide Apart, End;
  }

  lemma FinishedGood(x: Export, f: Finished, y: Export)
    requires y == x.(open := y.open, finished := x.finished + [f]) && Apart(y) && x.tick >= 0
    requires x.accepted == |x.finished| + 1 + |y.open|
    requires forall p <- y.open :: 0 <= y.open[p].onAt <= x.tick && y.open[p].note == p % 256
    requires forall g <- x.finished :: 0 <= g.data.onAt && g.data.length >= 0 && End(g) == g.offTick <= x.tick
    requires 0 <= f.data.onAt <= x.tick && f.data.length == x.tick - f.data.onAt && f.offTick == x.tick
    ensures Good(y)
  {
    hide Apart;
    assert forall g <- y.finished :: g in x.finished || g == f;
  }

  lemma OneFewer(m: map<int, NoteData>, k: int)
    requires k in m
    ensures |m - {k}| == |m| - 1
  {
    assert m.Keys == (m - {k}).Keys + {k};
    assert |m.Keys| == |(m - {k}).Keys| + 1;
  }

  lemma FinishingApart(x: Export, note: int, f: Finished)
    requires Apart(x) && note in x.open && f.pitch == note && f.data.onAt == x.open[note].onAt
    ensures Apart(x.(open := x.open - {note}, finished := x.finished + [f]))
  {
  }

  /**
   * In every run: note-ons accepted are notes finished or open; each finished
   * note ends at the tick of its note-off; notes of one pitch do not overlap.
   */
  lemma {:induction false} RunGood(x: Export, calls: seq<Call>)
    requires Good(x)
    ensures Good(AllCalled(x, calls))
    decreases |calls|
  {
    if calls != [] {
      CalledGood(x, calls[0]);
      RunGood(Called(x, calls[0]), calls[1..]);
    }
  }

  /** Finished notes stay as they are. */
  lemma {:induction false} RunKeeps(x: Export, calls: seq<Call>)
    ensures |AllCalled(x, calls).finished| >= |x.finished|
    ensures AllCalled(x, calls).finished[..|x.finished|] == x.finished
    decreases |calls|
  {
    if calls != [] {
      var y := Called(x, calls[0]);
      RunKeeps(y, calls[1..]);
      assert y.finished[..|x.finished|] == x.finished;
    }
  }

  /* Where the notes come from, in terms of the calls alone. */

  /** The ticks that have passed. */
  ghost function Ticks(calls: seq<Call>): (t: nat) {
    if calls == [] then 0 else Ticks(calls[..|calls| - 1]) + (if calls[|calls| - 1].StepTick? then 1 else 0)
  }

  ghost predicate IsOn(c: Call, p: int) {
    c.NoteOn? && c.note == p
  }

  /** Before call k, every note-on of pitch p has been followed by a note-off. */
  ghost predicate Closed(calls: seq<Call>, p: int, k: nat)
    requires k <= |calls|
  {
    forall i :: 0 <= i < k && IsOn(calls[i], p) ==> exists m :: i < m < k && calls[m] == NoteOff(p)
  }

  /** Call j is the first note-on of pitch p since its last note-off before call k. */
  ghost predicate Since(calls: seq<Call>, p: int, j: nat, k: nat)
    requires k <= |calls|
  {
    j < k && IsOn(calls[j], p) && Closed(calls, p, j) && forall i :: j < i < k ==> calls[i] != NoteOff(p)
  }

  /** Each open note was opened by call from[p]; all other pitches are closed. */
  ghost predicate OpenTraced(calls: seq<Call>, open: map<int, NoteData>, from: map<int, nat>) {
    && from.Keys == open.Keys
    && (forall p <- from :: Since(calls, p, from[p], |calls|) && open[p] == NoteOf(calls, p, from[p], 0))
    && (forall p :: p !in from ==> Closed(calls, p, |calls|))
  }

  /** The note that the note-on at j makes. */
  ghost function NoteOf(calls: seq<Call>, p: int, j: nat, length: int): NoteData
    requires j < |calls| && IsOn(calls[j], p)
  {
    NoteData(calls[j].channel % 256, 0, calls[j].velocity % 256, p % 256, Ticks(calls[..j]), length)
  }

  /** Finished note f was opened by call j and ended by call k. */
  ghost predicate Made(calls: seq<Call>, f: Finished, j: nat, k: nat) {
    && k < |calls| && calls[k] == NoteOff(f.pitch) && Since(calls, f.pitch, j, k)
    && f.data == NoteOf(calls, f.pitch, j, Ticks(calls[..k]) - Ticks(calls[..j])) && f.offTick == Ticks(calls[..k])
  }

  ghost predicate FinishedTraced(calls: seq<Call>, finished: seq<Finished>, ons: seq<nat>, offs: seq<nat>) {
    && |ons| == |offs| == |finished|
    && Increasing(offs)
    && (forall i :: 0 <= i < |offs| ==> Made(calls, finished[i], ons[i], offs[i]))
    && AllEnds(calls, offs)
  }

  ghost predicate Increasing(s: seq<nat>) {
    forall i, j :: 0 <= i < j < |s| ==> s[i] < s[j]
  }

  /** Every note-off of a pitch that is not closed is one of ks. */
  ghost predicate AllEnds(calls: seq<Call>, ks: seq<nat>) {
    forall k :: 0 <= k < |calls| && calls[k].NoteOff? && !Closed(calls, calls[k].note, k) ==> k in ks
  }

  lemma EndsMore(pre: seq<Call>, c: Call, ks: seq<nat>)
    requires AllEnds(pre, ks)
    ensures AllEnds(pre + [c], ks + [|pre|])
    ensures (c.NoteOff? ==> Closed(pre, c.note, |pre|)) ==> AllEnds(pre + [c], ks)
  {
    Longer(pre, c);
    hide Closed;
    assert (ks + [|pre|])[|ks|] == |pre| && forall k <- ks :: k in ks + [|pre|];
  }

  /** What was true of the first k calls is not changed by one more. */
  lemma Longer(calls: seq<Call>, c: Call)
    ensures forall p, k :: 0 <= k <= |calls| ==> Closed(calls + [c], p, k) == Closed(calls, p, k)
    ensures forall p, j, k :: 0 <= j < k <= |calls| ==> Since(calls + [c], p, j, k) == Since(calls, p, j, k)
    ensures forall k :: 0 <= k <= |calls| ==> (calls + [c])[..k] == calls[..k]
    ensures Ticks(calls + [c]) == Ticks(calls) + if c.StepTick? then 1 else 0
  {
    var all := calls + [c];
    assert all[..|all| - 1] == calls;
    forall p, k | 0 <= k <= |calls| ensures Closed(all, p, k) == Closed(calls, p, k) {
      assert forall i :: 0 <= i < k ==> all[i] == calls[i];
    }
  }

  /** The same at the last call itself. */
  lemma AtLast(calls: seq<Call>, c: Call, p: int)
    ensures var all := calls + [c];
            && (c == NoteOff(p) ==> Closed(all, p, |all|))
            && (c != NoteOff(p) && !IsOn(c, p) && Closed(calls, p, |calls|) ==> Closed(all, p, |all|))
            && (IsOn(c, p) && Closed(calls, p, |calls|) ==> Since(all, p, |calls|, |all|))
            && (forall j :: c != NoteOff(p) && 0 <= j < |calls| && Since(calls, p, j, |calls|) ==> Since(all, p, j, |all|))
  {
    Longer(calls, c);
    var all := calls + [c];
    if c != NoteOff(p) && !IsOn(c, p) && Closed(calls, p, |calls|) {
      forall i | 0 <= i < |all| && IsOn(all[i], p) ensures exists m :: i < m < |all| && all[m] == NoteOff(p) {
        assert IsOn(calls[i], p);
        var m :| i < m < |calls| && calls[m] == NoteOff(p);
        assert all[m] == NoteOff(p);
      }
    }
    if c == NoteOff(p) {
      assert all[|calls|] == NoteOff(p);
    }
  }

  lemma {:induction false} CalledLast(x: Export, calls: seq<Call>, c: Call)
    ensures AllCalled(x, calls + [c]) == Called(AllCalled(x, calls), c)
    decreases |calls|
  {
    if calls == [] {
      assert [c][1..] == [];
    } else {
      assert (calls + [c])[1..] == calls[1..] + [c];
      CalledLast(Called(x, calls[0]), calls[1..], c);
    }
  }

  /**
   * In every run from an empty builder: finished note i was opened by call
   * ons[i], the first note-on of its pitch since the last note-off, has the
   * channel and velocity of that call, and was ended by call offs[i]; every
   * note-off of an open pitch finishes a note, and the others finish none.
   */
  lemma {:induction false} Provenance(calls: seq<Call>) returns (from: map<int, nat>, ons: seq<nat>, offs: seq<nat>)
    ensures var x := AllCalled(Export(0, map[], [], 0), calls);
            x.tick == Ticks(calls) && OpenTraced(calls, x.open, from) && FinishedTraced(calls, x.finished, ons, offs)
  {
    if calls == [] {
      from, ons, offs := map[], [], [];
    } else {
      var pre, c := calls[..|calls| - 1], calls[|calls| - 1];
      assert calls == pre + [c];
      from, ons, offs := Provenance(pre);
      CalledLast(Export(0, map[], [], 0), pre, c);
      from, ons, offs := OneMoreCall(pre, c, AllCalled(Export(0, map[], [], 0), pre), from, ons, offs);
    }
  }

  lemma OneMoreCall(pre: seq<Call>, c: Call, x: Export, from: map<int, nat>, ons: seq<nat>, offs: seq<nat>)
    returns (after: map<int, nat>, onsAfter: seq<nat>, offsAfter: seq<nat>)
    requires x.tick == Ticks(pre) && OpenTraced(pre, x.open, from) && FinishedTraced(pre, x.finished, ons, offs)
    ensures var y := Called(x, c);
            && y.tick == Ticks(pre + [c]) && OpenTraced(pre + [c], y.open, after)
            && FinishedTraced(pre + [c], y.finished, onsAfter, offsAfter)
  {
    after, onsAfter, offsAfter := from, ons, offs;
    hide Closed, Since, Made, NoteOf, Ticks, FinishedTraced;
    Longer(pre, c);
    OpenKept(pre, c, x.open, from);
    if !(c.NoteOff? && c.note in x.open) {
      FinishedKept(pre, c, x.finished, ons, offs);
    }
    match c {
      case NoteOn(p, v, ch) =>
        if p !in x.open {
          after := from[p := |pre|];
          JustOpened(pre, c, p);
        }
      case NoteOff(p) =>
        if p in x.open {
          after, onsAfter, offsAfter := from - {p}, ons + [from[p]], offs + [|pre|];
          var f := Finished(p, x.open[p].(length := x.tick - x.open[p].onAt), x.tick);
          JustEnded(pre, p, x.open[p], from[p], f);
          FinishedMore(pre, c, x.finished, ons, offs, f, from[p]);
        }
      case StepTick =>
      case Ignored =>
    }
  }

  lemma JustOpened(pre: seq<Call>, c: Call, p: int)
    requires IsOn(c, p)
    ensures NoteOf(pre + [c], p, |pre|, 0) == NoteData(c.channel % 256, 0, c.velocity % 256, p % 256, Ticks(pre), 0)
  {
    assert (pre + [c])[..|pre|] == pre;
  }

  lemma JustEnded(pre: seq<Call>, p: int, d: NoteData, j: nat, f: Finished)
    requires Since(pre, p, j, |pre|) && d == NoteOf(pre, p, j, 0)
    requires f == Finished(p, d.(length := Ticks(pre) - d.onAt), Ticks(pre))
    ensures Made(pre + [NoteOff(p)], f, j, |pre|)
  {
    Longer(pre, NoteOff(p));
    assert pre[..|pre|] == pre;
    hide Closed, Since, Ticks;
  }

  lemma OpenKept(pre: seq<Call>, c: Call, open: map<int, NoteData>, from: map<int, nat>)
    requires OpenTraced(pre, open, from)
    ensures var all := pre + [c];
            && (forall q <- from :: c != NoteOff(q) ==>
                  Since(all, q, from[q], |all|) && from[q] < |all| && IsOn(all[from[q]], q) && open[q] == NoteOf(all, q, from[q], 0))
            && (forall q :: q !in from && !IsOn(c, q) ==> Closed(all, q, |all|))
            && (forall q :: c == NoteOff(q) ==> Closed(all, q, |all|))
            && (forall q :: q !in from && IsOn(c, q) ==> Since(all, q, |pre|, |all|))
  {
    Longer(pre, c);
    forall q ensures q in from && c != NoteOff(q) ==>
                       Since(pre + [c], q, from[q], |pre| + 1) && open[q] == NoteOf(pre + [c], q, from[q], 0)
      ensures (q !in from && !IsOn(c, q)) || c == NoteOff(q) ==> Closed(pre + [c], q, |pre| + 1)
      ensures q !in from && IsOn(c, q) ==> Since(pre + [c], q, |pre|, |pre| + 1)
    {
      AtLast(pre, c, q);
    }
  }

  lemma FinishedKept(pre: seq<Call>, c: Call, finished: seq<Finished>, ons: seq<nat>, offs: seq<nat>)
    requires FinishedTraced(pre, finished, ons, offs) && (c.NoteOff? ==> Closed(pre, c.note, |pre|))
    ensures FinishedTraced(pre + [c], finished, ons, offs)
  {
    hide Closed, Since, Ticks, Made, AllEnds, Increasing;
    EndsMore(pre, c, offs);
    forall i | 0 <= i < |offs| ensures Made(pre + [c], finished[i], ons[i], offs[i]) {
      MadeLonger(pre, c, finished[i], ons[i], offs[i]);
    }
  }

  lemma MadeLonger(pre: seq<Call>, c: Call, f: Finished, j: nat, k: nat)
    requires Made(pre, f, j, k)
    ensures Made(pre + [c], f, j, k) && k < |pre|
  {
    Longer(pre, c);
    hide Closed, Ticks;
    assert (pre + [c])[..j] == pre[..j] && (pre + [c])[..k] == pre[..k];
  }

  lemma FinishedMore(pre: seq<Call>, c: Call, finished: seq<Finished>, ons: seq<nat>, offs: seq<nat>, f: Finished, j: nat)
    requires FinishedTraced(pre, finished, ons, offs) && Made(pre + [c], f, j, |pre|)
    ensures FinishedTraced(pre + [c], finished + [f], ons + [j], offs + [|pre|])
  {
    hide Closed, Since, Ticks, Made, AllEnds, Increasing;
    EndsMore(pre, c, offs);
    forall i | 0 <= i < |offs| ensures Made(pre + [c], finished[i], ons[i], offs[i]) && offs[i] < |pre| {
      MadeLonger(pre, c, finished[i], ons[i], offs[i]);
    }
    IncreasingMore(offs, |pre|);
  }

  lemma IncreasingMore(s: seq<nat>, n: nat)
    requires Increasing(s) && forall i :: 0 <= i < |s| ==> s[i] < n
    ensures Increasing(s + [n])
  {
  }

  /** The same for one finished note, written out. */
  lemma FinishedFrom(calls: seq<Call>, i: nat) returns (j: nat, k: nat)
    requires i < |AllCalled(Export(0, map[], [], 0), calls).finished|
    ensures var f := AllCalled(Export(0, map[], [], 0), calls).finished[i];
            && j < k < |calls| && calls[j].NoteOn? && calls[j].note == f.pitch && calls[k] == NoteOff(f.pitch)
            && (forall m :: j < m < k ==> calls[m] != NoteOff(f.pitch))
            && (forall m :: 0 <= m < j && calls[m].NoteOn? && calls[m].note == f.pitch ==>
                  exists n :: m < n < j && calls[n] == NoteOff(f.pitch))
            && f.data == NoteData(calls[j].channel % 256, 0, calls[j].velocity % 256, f.pitch % 256,
                                  Ticks(calls[..j]), Ticks(calls[..k]) - Ticks(calls[..j]))
  {
    var from, ons, offs := Provenance(calls);
    hide AllCalled, Ticks;
    j, k := ons[i], offs[i];
  }

  ghost function DataOf(fs: seq<Finished>): multiset<NoteData> {
    if fs == [] then multiset{} else DataOf(fs[..|fs| - 1]) + multiset{fs[|fs| - 1].data}
  }

  lemma {:induction false} DataConcat(a: seq<NoteEntry>, b: seq<NoteEntry>)
    ensures Data(a + b) == Data(a) + Data(b)
  {
    if a == [] {
      assert a + b == b;
    } else {
      assert (a + b)[1..] == a[1..] + b;
      DataConcat(a[1..], b);
    }
  }

  lemma DataInserted(s: seq<NoteEntry>, k: nat, n: NoteEntry)
    requires k <= |s|
    ensures multiset(Data(InsertAt(s, k, n))) == multiset(Data(s)) + multiset{n.data}
  {
    var a, b := s[..k], s[k..];
    assert s == a + b;
    DataConcat(a, b);
    DataConcat(a + [n], b);
    DataConcat(a, [n]);
  }

  class PadMidiExportBuilder {
    var activeNotes: map<int, NoteEntry>
    const cnt: Loop
    var exportTick: int
    var currentTick: int
    ghost var finished: seq<Finished>
    ghost var accepted: nat

    /** The loop holds the finished notes, in order. */
    ghost predicate InLoop()
      reads this`finished, cnt`note, cnt`notes
      reads (set x | x in cnt.notes)`next, (set x | x in cnt.notes)`prev, (set x | x in cnt.notes)`data
    {
      cnt.List() && Sorted(Keys(cnt.notes)) && multiset(Data(cnt.notes)) == DataOf(finished)
    }

    /** The open notes are not in the loop yet. */
    ghost predicate OpenApart()
      reads this`activeNotes, cnt`notes
    {
      && (forall p <- activeNotes :: activeNotes[p] !in cnt.notes)
      && (forall p <- activeNotes, q <- activeNotes :: p != q ==> activeNotes[p] != activeNotes[q])
    }

    ghost predicate Valid()
      reads this`finished, this`activeNotes, cnt`note, cnt`notes
      reads (set x | x in cnt.notes)`next, (set x | x in cnt.notes)`prev, (set x | x in cnt.notes)`data
    {
      InLoop() && OpenApart()
    }

    ghost function Open(): (open: map<int, NoteData>)
      ensures forall p :: p in open <==> p in activeNotes
      reads this`activeNotes, activeNotes.Values`data
    {
      map p | p in activeNotes :: activeNotes[p].data
    }

    ghost function Done(): Export
      reads this`activeNotes, this`exportTick, this`finished, this`accepted, activeNotes.Values`data
    {
      Export(exportTick, Open(), finished, accepted)
    }

    constructor (container: Loop, startTick: int)
      requires container.List() && container.notes == []
      ensures Valid() && cnt == container && currentTick == startTick
      ensures Done() == Export(0, map[], [], 0)
    {
      cnt, exportTick, currentTick, activeNotes := container, 0, startTick, map[];
      finished, accepted := [], 0;
    }

    /** queue_note_on: a note that is open already stays as it is. */
    method QueueNoteOn(note: int, velocity: int, channel: int)
      requires Valid()
      modifies this`activeNotes, this`accepted
      ensures Valid() && Done() == Called(old(Done()), NoteOn(note, velocity, channel))
      ensures note in old(activeNotes) ==> activeNotes == old(activeNotes)
      ensures note !in old(activeNotes) ==>
                && note in activeNotes && fresh(activeNotes[note]) && activeNotes - {note} == old(activeNotes)
                && var d := activeNotes[note].data;
                   && d.channel == channel % 256 && d.program == 0 && d.velocity == velocity % 256
                   && d.note == note % 256 && d.onAt == exportTick && d.length == 0
    {
      hide InLoop, OpenApart, Open;
      if note !in activeNotes {
        var nptr := new NoteEntry.Blank();
        nptr.data := NoteData(channel % 256, 0, velocity % 256, note % 256, exportTick, 0);
        accepted := accepted + 1;
        OpenNote(note, nptr);
      }
    }

    /** active_notes[note] = nptr */
    method OpenNote(note: int, nptr: NoteEntry)
      requires OpenApart() && note !in activeNotes && nptr !in cnt.notes && nptr !in activeNotes.Values
      modifies this`activeNotes
      ensures OpenApart() && Open() == old(Open())[note := nptr.data]
      ensures activeNotes == old(activeNotes)[note := nptr]
    {
      activeNotes := activeNotes[note := nptr];
    }

    /** queue_note_off: the open note gets its length and goes into the loop. */
    method QueueNoteOff(note: int, velocity: int, channel: int)
      requires Valid()
      modifies this`activeNotes, this`finished, activeNotes.Values`data
      modifies activeNotes.Values`next, activeNotes.Values`prev
      modifies cnt`note, cnt`notes, cnt`cursor, (set x | x in cnt.notes)`next, (set x | x in cnt.notes)`prev
      ensures Valid() && Done() == Called(old(Done()), NoteOff(note))
      ensures activeNotes == old(activeNotes) - {note}
      ensures forall p <- activeNotes :: activeNotes[p].data == old(activeNotes[p].data)
      ensures note !in old(activeNotes) ==> cnt.notes == old(cnt.notes) && finished == old(finished)
      ensures note in old(activeNotes) ==>
                var n := old(activeNotes[note]);
                && n.data == old(n.data).(length := exportTick - old(n.data.onAt))
                && (forall m :: m in cnt.notes <==> m == n || m in old(cnt.notes))
                && finished == old(finished) + [Finished(note, n.data, exportTick)]
    {
      hide *;
      ghost var x := Done();
      DoneIs();
      AreValid();
      if note in activeNotes {
        var nptr := activeNotes[note];
        SetLength(note, nptr);
        FinalizeNote(note, nptr);
        CloseNote(note, nptr);
      }
      AreValid();
      DoneIs();
      CalledOff(x, note);
    }

    lemma AreValid()
      ensures Valid() <==> InLoop() && OpenApart()
    {
    }

    lemma DoneIs()
      ensures Done() == Export(exportTick, Open(), finished, accepted)
      ensures forall p :: p in Open() <==> p in activeNotes
    {
    }

    lemma CalledOff(x: Export, note: int)
      ensures note !in x.open ==> Called(x, NoteOff(note)) == x
      ensures note in x.open ==> var d := x.open[note].(length := x.tick - x.open[note].onAt);
                                 Called(x, NoteOff(note))
                                 == Export(x.tick, x.open[note := d] - {note}, x.finished + [Finished(note, d, x.tick)], x.accepted)
    {
    }

    method SetLength(note: int, nptr: NoteEntry)
      requires InLoop() && OpenApart() && note in activeNotes && activeNotes[note] == nptr
      modifies nptr`data
      ensures InLoop() && nptr.data == old(nptr.data).(length := exportTick - old(nptr.data.onAt))
      ensures old(Open())[note] == old(nptr.data) && Open() == old(Open())[note := nptr.data]
      ensures note in Open() && nptr !in cnt.notes
      ensures forall p <- activeNotes :: p != note ==> activeNotes[p].data == old(activeNotes[p].data)
    {
      assert nptr !in cnt.notes;
      assert forall p <- activeNotes :: p != note ==> activeNotes[p] != nptr;
      hide InLoop, OpenApart;
      nptr.data := nptr.data.(length := exportTick - nptr.data.onAt);
    }

    /** active_notes.erase */
    method CloseNote(note: int, nptr: NoteEntry)
      requires note in activeNotes && activeNotes[note] == nptr
      requires forall p <- activeNotes :: activeNotes[p] in cnt.notes ==> p == note
      requires forall p <- activeNotes, q <- activeNotes :: p != q ==> activeNotes[p] != activeNotes[q]
      modifies this`activeNotes
      ensures OpenApart() && Open() == old(Open()) - {note}
      ensures activeNotes == old(activeNotes) - {note}
    {
      activeNotes := activeNotes - {note};
    }

    /** finalize_note, as the sequencer gives it: into the loop. */
    method FinalizeNote(note: int, nptr: NoteEntry)
      requires InLoop() && OpenApart() && note in activeNotes && activeNotes[note] == nptr
      modifies this`finished, nptr`next, nptr`prev
      modifies cnt`note, cnt`notes, cnt`cursor, (set x | x in cnt.notes)`next, (set x | x in cnt.notes)`prev
      ensures InLoop() && finished == old(finished) + [Finished(note, nptr.data, exportTick)]
      ensures forall m :: m in cnt.notes <==> m == nptr || m in old(cnt.notes)
      ensures forall p <- activeNotes :: activeNotes[p] in cnt.notes ==> p == note
      ensures forall p <- activeNotes, q <- activeNotes :: p != q ==> activeNotes[p] != activeNotes[q]
    {
      hide *;
      ghost var was := cnt.notes;
      BeforeEntry(note, nptr);
      finished := finished + [Finished(note, nptr.data, exportTick)];
      cnt.InternalInsertNote(nptr);
      Entered(was, nptr);
      AfterEntry();
    }

    /** The loop's list with one more note. */
    lemma Entered(was: seq<NoteEntry>, nptr: NoteEntry)
      requires Sorted(Keys(was)) && cnt.notes == InsertAt(was, FirstAbove(Keys(was), nptr.data.onAt), nptr)
      requires Keys(cnt.notes) == Inserted(Keys(was), nptr.data.onAt)
      ensures Sorted(Keys(cnt.notes)) && multiset(Data(cnt.notes)) == multiset(Data(was)) + multiset{nptr.data}
      ensures forall n :: n in cnt.notes <==> n == nptr || n in was
    {
      hide *;
      var k := FirstAbove(Keys(was), nptr.data.onAt);
      InsertedSorted(Keys(was), nptr.data.onAt);
      DataInserted(was, k, nptr);
      InsertElements(was, k, nptr);
    }

    lemma BeforeEntry(note: int, nptr: NoteEntry)
      requires InLoop() && OpenApart() && note in activeNotes && activeNotes[note] == nptr
      ensures cnt.List() && Sorted(Keys(cnt.notes)) && multiset(Data(cnt.notes)) == DataOf(finished)
      ensures nptr !in cnt.notes
      ensures forall p <- activeNotes :: activeNotes[p] !in cnt.notes && (p != note ==> activeNotes[p] != nptr)
      ensures forall p <- activeNotes, q <- activeNotes :: p != q ==> activeNotes[p] != activeNotes[q]
      ensures DataOf(finished + [Finished(note, nptr.data, exportTick)]) == DataOf(finished) + multiset{nptr.data}
    {
      var more := finished + [Finished(note, nptr.data, exportTick)];
      assert more[..|more| - 1] == finished;
    }

    lemma AfterEntry()
      requires cnt.List() && Sorted(Keys(cnt.notes)) && multiset(Data(cnt.notes)) == DataOf(finished)
      ensures InLoop()
    {
    }

    /** Controllers and pitch bend are not exported. */
    method QueueController(controller: int, value: int, channel: int)
      ensures Done() == Called(Done(), Ignored)
    {
    }

    method QueuePitchBend(valueLsb: int, valueMsb: int, channel: int)
      ensures Done() == Called(Done(), Ignored)
    {
    }

    method StepTickOnce()
      requires Valid()
      modifies this`currentTick, this`exportTick
      ensures Valid() && Done() == Called(old(Done()), StepTick)
      ensures currentTick == old(currentTick) + 1 && exportTick == old(exportTick) + 1
    {
      hide InLoop, OpenApart, Open;
      currentTick := currentTick + 1;
      exportTick := exportTick + 1;
    }
  }
}
