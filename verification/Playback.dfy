/**
 * What a loop plays, apart from its note list: a fixed number of slots for
 * sounding notes, a countdown per note, and the note-on and note-off events of
 * a tick. The slots hold note entries of some type N; one entry may sit in more
 * than one slot when it is started again while it sounds.
 */
module Playback {

  datatype Slot<N> = Empty | Held(entry: N)

  datatype Due<N> = Due(entry: N, length: int)

  datatype Event<N> = On(entry: N) | Off(entry: N)

  datatype Playing<N> = Playing(slots: seq<Slot<N>>, ticks: map<N, int>)

  datatype Outcome<N> = Outcome(after: Playing<N>, events: seq<Event<N>>)

  /** Every held entry has a countdown. */
  ghost predicate Counted<N>(p: Playing<N>) {
    forall i :: 0 <= i < |p.slots| ==> p.slots[i].Held? ==> p.slots[i].entry in p.ticks
  }

  /** The first slot with this content, or the number of slots. */
  function FirstSlot<N(==)>(slots: seq<Slot<N>>, s: Slot<N>): (r: nat)
    ensures r <= |slots|
    ensures r < |slots| ==> slots[r] == s
    ensures forall i :: 0 <= i < r ==> slots[i] != s
  {
    if slots == [] then 0 else if slots[0] == s then 0 else 1 + FirstSlot(slots[1..], s)
  }

  /** activate_note, and the countdown of a note that found a slot; one that finds none makes no sound. */
  ghost function StartOne<N>(p: Playing<N>, d: Due<N>): (r: Outcome<N>)
    ensures |r.after.slots| == |p.slots| && (Counted(p) ==> Counted(r.after))
  {
    var f := FirstSlot(p.slots, Empty);
    if f < |p.slots| then
      Outcome(Playing(p.slots[f := Held(d.entry)], p.ticks[d.entry := d.length + 1]), [On(d.entry)])
    else
      Outcome(p, [])
  }

  /** The due notes are started in turn. */
  ghost function Starts<N>(p: Playing<N>, due: seq<Due<N>>): (r: Outcome<N>)
    ensures |r.after.slots| == |p.slots| && (Counted(p) ==> Counted(r.after))
    decreases |due|
  {
    if due == [] then
      Outcome(p, [])
    else
      var one := StartOne(p, due[0]);
      var rest := Starts(one.after, due[1..]);
      Outcome(rest.after, one.events + rest.events)
  }

  /** Slot k counts down or stops. The slot that is emptied is the first one that holds the note. */
  ghost function StopOne<N>(p: Playing<N>, k: nat): (r: Outcome<N>)
    requires Counted(p) && k < |p.slots|
    ensures |r.after.slots| == |p.slots| && Counted(r.after)
  {
    if p.slots[k].Empty? then
      Outcome(p, [])
    else
      var n := p.slots[k].entry;
      if p.ticks[n] > 0 then
        Outcome(Playing(p.slots, p.ticks[n := p.ticks[n] - 1]), [])
      else
        Outcome(Playing(p.slots[FirstSlot(p.slots, Held(n)) := Empty], p.ticks), [Off(n)])
  }

  /** process_note_off from slot k on. */
  ghost function Stops<N>(p: Playing<N>, k: nat): (r: Outcome<N>)
    requires Counted(p)
    ensures |r.after.slots| == |p.slots| && Counted(r.after)
    decreases |p.slots| - k
  {
    if k >= |p.slots| then
      Outcome(p, [])
    else
      var one := StopOne(p, k);
      var rest := Stops(one.after, k + 1);
      Outcome(rest.after, one.events + rest.events)
  }

  /** One tick: what is due starts, then the countdowns run. */
  ghost function Tick<N>(p: Playing<N>, due: seq<Due<N>>): Outcome<N>
    requires Counted(p)
  {
    var started := Starts(p, due);
    var stopped := Stops(started.after, 0);
    Outcome(stopped.after, started.events + stopped.events)
  }

  ghost function Occupied<N>(slots: seq<Slot<N>>): (c: nat)
    ensures c <= |slots|
  {
    if slots == [] then 0 else (if slots[0].Held? then 1 else 0) + Occupied(slots[1..])
  }

  /** Note-ons minus note-offs. */
  ghost function Balance<N>(events: seq<Event<N>>): int {
    if events == [] then 0 else (if events[0].On? then 1 else -1) + Balance(events[1..])
  }

  /** How often the event occurs. */
  ghost function Times<N>(events: seq<Event<N>>, e: Event<N>): nat {
    if events == [] then 0 else (if events[0] == e then 1 else 0) + Times(events[1..], e)
  }

  lemma {:induction false} OccupiedUpdate<N>(slots: seq<Slot<N>>, k: nat, s: Slot<N>)
    requires k < |slots|
    ensures Occupied(slots[k := s]) - (if s.Held? then 1 else 0) == Occupied(slots) - (if slots[k].Held? then 1 else 0)
  {
    if k > 0 {
      assert slots[k := s][1..] == slots[1..][k - 1 := s];
      OccupiedUpdate(slots[1..], k - 1, s);
    } else {
      assert slots[k := s][1..] == slots[1..];
    }
  }

  lemma {:induction false} BalanceConcat<N>(a: seq<Event<N>>, b: seq<Event<N>>)
    ensures Balance(a + b) == Balance(a) + Balance(b)
  {
    if a == [] {
      assert a + b == b;
    } else {
      assert (a + b)[1..] == a[1..] + b;
      BalanceConcat(a[1..], b);
    }
  }

  lemma {:induction false} TimesConcat<N>(a: seq<Event<N>>, b: seq<Event<N>>, e: Event<N>)
    ensures Times(a + b, e) == Times(a, e) + Times(b, e)
  {
    if a == [] {
      assert a + b == b;
    } else {
      assert (a + b)[1..] == a[1..] + b;
      TimesConcat(a[1..], b, e);
    }
  }

  lemma StartOneBalance<N>(p: Playing<N>, d: Due<N>)
    ensures Balance(StartOne(p, d).events) == Occupied(StartOne(p, d).after.slots) - Occupied(p.slots)
  {
    var f := FirstSlot(p.slots, Empty);
    if f < |p.slots| {
      OccupiedUpdate(p.slots, f, Held(d.entry));
    }
  }

  lemma {:induction false} StartsBalance<N>(p: Playing<N>, due: seq<Due<N>>)
    ensures Balance(Starts(p, due).events) == Occupied(Starts(p, due).after.slots) - Occupied(p.slots)
    decreases |due|
  {
    if due != [] {
      hide StartOne, Occupied;
      var one := StartOne(p, due[0]);
      StartOneBalance(p, due[0]);
      StartsBalance(one.after, due[1..]);
      BalanceConcat(one.events, Starts(one.after, due[1..]).events);
    }
  }

  lemma StopOneBalance<N>(p: Playing<N>, k: nat)
    requires Counted(p) && k < |p.slots|
    ensures Balance(StopOne(p, k).events) == Occupied(StopOne(p, k).after.slots) - Occupied(p.slots)
  {
    if p.slots[k].Held? {
      var f := FirstSlot(p.slots, Held(p.slots[k].entry));
      OccupiedUpdate(p.slots, f, Empty);
    }
  }

  lemma {:induction false} StopsBalance<N>(p: Playing<N>, k: nat)
    requires Counted(p)
    ensures Balance(Stops(p, k).events) == Occupied(Stops(p, k).after.slots) - Occupied(p.slots)
    decreases |p.slots| - k
  {
    if k < |p.slots| {
      hide StopOne, Occupied, Counted;
      var one := StopOne(p, k);
      StopOneBalance(p, k);
      StopsBalance(one.after, k + 1);
      BalanceConcat(one.events, Stops(one.after, k + 1).events);
    }
  }

  /** Each tick, note-ons minus note-offs is what the number of occupied slots gains. */
  lemma TickBalance<N>(p: Playing<N>, due: seq<Due<N>>)
    requires Counted(p)
    ensures Counted(Tick(p, due).after) && |Tick(p, due).after.slots| == |p.slots|
    ensures Balance(Tick(p, due).events) == Occupied(Tick(p, due).after.slots) - Occupied(p.slots)
  {
    hide Counted, Starts, Stops, Balance, Occupied;
    StartsBalance(p, due);
    StopsBalance(Starts(p, due).after, 0);
    BalanceConcat(Starts(p, due).events, Stops(Starts(p, due).after, 0).events);
  }

  /* The life of one note. */

  ghost predicate Silent<N>(p: Playing<N>, n: N) {
    forall j :: 0 <= j < |p.slots| ==> p.slots[j] != Held(n)
  }

  /** n sits in slot i only, with t ticks to go. */
  ghost predicate Sounds<N>(p: Playing<N>, n: N, i: nat, t: int) {
    && i < |p.slots| && p.slots[i] == Held(n)
    && (forall j :: 0 <= j < |p.slots| && j != i ==> p.slots[j] != Held(n))
    && n in p.ticks && p.ticks[n] == t
  }

  ghost predicate InOneSlot<N>(p: Playing<N>, n: N, t: int) {
    exists i :: Sounds(p, n, i, t)
  }

  ghost predicate IsDue<N>(due: seq<Due<N>>, n: N) {
    exists d <- due :: d.entry == n
  }

  lemma NotDue<N>(due: seq<Due<N>>, n: N)
    requires due != [] && !IsDue(due, n)
    ensures due[0].entry != n && !IsDue(due[1..], n)
  {
    assert due[0] in due && forall d <- due[1..] :: d in due;
  }

  lemma StartOneOther<N>(p: Playing<N>, d: Due<N>, n: N)
    requires d.entry != n
    ensures Times(StartOne(p, d).events, On(n)) == 0 == Times(StartOne(p, d).events, Off(n))
    ensures Silent(p, n) ==> Silent(StartOne(p, d).after, n)
    ensures forall i, t :: Sounds(p, n, i, t) ==> Sounds(StartOne(p, d).after, n, i, t)
  {
  }

  /** Notes that are not due neither start nor lose their slot while others start. */
  lemma {:induction false} StartsOthers<N>(p: Playing<N>, due: seq<Due<N>>, n: N)
    requires !IsDue(due, n)
    ensures Times(Starts(p, due).events, On(n)) == 0 == Times(Starts(p, due).events, Off(n))
    ensures Silent(p, n) ==> Silent(Starts(p, due).after, n)
    ensures forall i, t :: Sounds(p, n, i, t) ==> Sounds(Starts(p, due).after, n, i, t)
    decreases |due|
  {
    if due != [] {
      hide StartOne, Silent, Sounds, IsDue;
      NotDue(due, n);
      var one := StartOne(p, due[0]);
      StartOneOther(p, due[0], n);
      StartsOthers(one.after, due[1..], n);
      TimesConcat(one.events, Starts(one.after, due[1..]).events, On(n));
      TimesConcat(one.events, Starts(one.after, due[1..]).events, Off(n));
    }
  }

  lemma StartOneSilent<N>(p: Playing<N>, d: Due<N>)
    requires Silent(p, d.entry)
    ensures var one, n := StartOne(p, d), d.entry;
            && Times(one.events, Off(n)) == 0 && Times(one.events, On(n)) <= 1
            && (Times(one.events, On(n)) == 0 ==> one.after == p)
            && (Times(one.events, On(n)) == 1 ==> Sounds(one.after, n, FirstSlot(p.slots, Empty), d.length + 1))
  {
  }

  /** A silent note that is due once starts in one slot with its whole length ahead, if there is a slot. */
  lemma {:induction false} StartsOne<N>(p: Playing<N>, due: seq<Due<N>>, k: nat, n: N)
    requires k < |due| && due[k].entry == n && Silent(p, n)
    requires forall j :: 0 <= j < |due| && j != k ==> due[j].entry != n
    ensures Times(Starts(p, due).events, Off(n)) == 0
    ensures Times(Starts(p, due).events, On(n)) <= 1
    ensures Times(Starts(p, due).events, On(n)) == 0 ==> Silent(Starts(p, due).after, n)
    ensures Times(Starts(p, due).events, On(n)) == 1 ==> InOneSlot(Starts(p, due).after, n, due[k].length + 1)
    decreases |due|
  {
    hide *;
    var one, rest := StartOne(p, due[0]), due[1..];
    DueIn(due, k, n);
    StartsNext(p, due);
    if k == 0 {
      StartOneSilent(p, due[0]);
      StartsOthers(one.after, rest, n);
      SlotFound(p, due[0], one.after, Starts(one.after, rest).after);
    } else {
      StartOneOther(p, due[0], n);
      StartsOne(one.after, rest, k - 1, n);
    }
    TimesConcat(one.events, Starts(one.after, rest).events, On(n));
    TimesConcat(one.events, Starts(one.after, rest).events, Off(n));
  }

  lemma DueIn<N>(due: seq<Due<N>>, k: nat, n: N)
    requires k < |due| && due[k].entry == n
    requires forall j :: 0 <= j < |due| && j != k ==> due[j].entry != n
    ensures k == 0 ==> !IsDue(due[1..], n)
    ensures k > 0 ==> due[1..][k - 1] == due[k] && due[0].entry != n
  {
  }

  lemma SlotFound<N>(p: Playing<N>, d: Due<N>, q: Playing<N>, r: Playing<N>)
    requires forall i, t :: Sounds(q, d.entry, i, t) ==> Sounds(r, d.entry, i, t)
    ensures Sounds(q, d.entry, FirstSlot(p.slots, Empty), d.length + 1) ==> InOneSlot(r, d.entry, d.length + 1)
  {
  }

  lemma StartsNext<N>(p: Playing<N>, due: seq<Due<N>>)
    requires due != []
    ensures var one := StartOne(p, due[0]);
            Starts(p, due) == Outcome(Starts(one.after, due[1..]).after, one.events + Starts(one.after, due[1..]).events)
  {
  }

  lemma StopsNext<N>(p: Playing<N>, k: nat)
    requires Counted(p) && k < |p.slots|
    ensures var one := StopOne(p, k);
            Stops(p, k) == Outcome(Stops(one.after, k + 1).after, one.events + Stops(one.after, k + 1).events)
  {
  }

  lemma StopOneOther<N>(p: Playing<N>, k: nat, n: N)
    requires Counted(p) && k < |p.slots| && p.slots[k] != Held(n)
    ensures Times(StopOne(p, k).events, Off(n)) == 0 == Times(StopOne(p, k).events, On(n))
    ensures Silent(p, n) ==> Silent(StopOne(p, k).after, n)
    ensures forall i, t :: Sounds(p, n, i, t) ==> Sounds(StopOne(p, k).after, n, i, t)
  {
  }

  lemma StopOneSounding<N>(p: Playing<N>, n: N, i: nat, t: int)
    requires Counted(p) && Sounds(p, n, i, t)
    ensures var one := StopOne(p, i);
            && Times(one.events, On(n)) == 0 && Times(one.events, Off(n)) == (if t > 0 then 0 else 1)
            && (t > 0 ==> Sounds(one.after, n, i, t - 1)) && (t <= 0 ==> Silent(one.after, n))
  {
  }

  /** While the countdowns run, a silent note stays silent. */
  lemma {:induction false} StopsSilent<N>(p: Playing<N>, k: nat, n: N)
    requires Counted(p) && Silent(p, n)
    ensures Times(Stops(p, k).events, Off(n)) == 0 == Times(Stops(p, k).events, On(n))
    ensures Silent(Stops(p, k).after, n)
    decreases |p.slots| - k
  {
    if k < |p.slots| {
      var one := StopOne(p, k);
      StopOneOther(p, k, n);
      hide StopOne, Silent, Counted;
      StopsSilent(one.after, k + 1, n);
      TimesConcat(one.events, Stops(one.after, k + 1).events, Off(n));
      TimesConcat(one.events, Stops(one.after, k + 1).events, On(n));
    }
  }

  /** Slots before k are done with: what happens later does not concern a note that sits there. */
  lemma {:induction false} StopsPassed<N>(p: Playing<N>, k: nat, n: N, i: nat, t: int)
    requires Counted(p) && Sounds(p, n, i, t) && i < k
    ensures Times(Stops(p, k).events, Off(n)) == 0 == Times(Stops(p, k).events, On(n))
    ensures Sounds(Stops(p, k).after, n, i, t)
    decreases |p.slots| - k
  {
    if k < |p.slots| {
      var one := StopOne(p, k);
      StopOneOther(p, k, n);
      hide StopOne, Sounds, Counted;
      StopsPassed(one.after, k + 1, n, i, t);
      TimesConcat(one.events, Stops(one.after, k + 1).events, Off(n));
      TimesConcat(one.events, Stops(one.after, k + 1).events, On(n));
    }
  }

  /** A note in one slot counts down by one, or stops with a single note-off. */
  lemma {:induction false} StopsOne<N>(p: Playing<N>, k: nat, n: N, i: nat, t: int)
    requires Counted(p) && Sounds(p, n, i, t) && k <= i
    ensures Times(Stops(p, k).events, On(n)) == 0
    ensures Times(Stops(p, k).events, Off(n)) == if t > 0 then 0 else 1
    ensures t > 0 ==> Sounds(Stops(p, k).after, n, i, t - 1)
    ensures t <= 0 ==> Silent(Stops(p, k).after, n)
    decreases |p.slots| - k
  {
    hide *;
    SoundsAt(p, n, i, t, k);
    StopsNext(p, k);
    var one := StopOne(p, k);
    if k < i {
      StopOneOther(p, k, n);
      StopsOne(one.after, k + 1, n, i, t);
    } else {
      StopOneSounding(p, n, i, t);
      if t > 0 {
        StopsPassed(one.after, k + 1, n, i, t - 1);
      } else {
        StopsSilent(one.after, k + 1, n);
      }
    }
    TimesConcat(one.events, Stops(one.after, k + 1).events, On(n));
    TimesConcat(one.events, Stops(one.after, k + 1).events, Off(n));
  }

  lemma SoundsAt<N>(p: Playing<N>, n: N, i: nat, t: int, k: nat)
    requires Sounds(p, n, i, t)
    ensures i < |p.slots| && (k < |p.slots| && k != i ==> p.slots[k] != Held(n))
  {
  }

  /* Runs: one list of due notes per tick. */

  ghost function Run<N>(p: Playing<N>, dues: seq<seq<Due<N>>>): (r: Outcome<N>)
    requires Counted(p)
    ensures Counted(r.after)
    decreases |dues|
  {
    if dues == [] then
      Outcome(p, [])
    else
      TickBalance(p, dues[0]);
      var first := Tick(p, dues[0]);
      var rest := Run(first.after, dues[1..]);
      Outcome(rest.after, first.events + rest.events)
  }

  /**
   * In every run, whatever is started or started again: note-ons minus
   * note-offs is the number of occupied slots, which is at most all of them.
   */
  lemma {:induction false} RunBalance<N>(p: Playing<N>, dues: seq<seq<Due<N>>>)
    requires Counted(p)
    ensures |Run(p, dues).after.slots| == |p.slots|
    ensures Occupied(p.slots) + Balance(Run(p, dues).events) == Occupied(Run(p, dues).after.slots) <= |p.slots|
    decreases |dues|
  {
    if dues != [] {
      TickBalance(p, dues[0]);
      var first := Tick(p, dues[0]);
      RunBalance(first.after, dues[1..]);
      BalanceConcat(first.events, Run(first.after, dues[1..]).events);
    }
  }

  /** A silent note that is never due stays silent. */
  lemma {:induction false} RunSilent<N>(p: Playing<N>, dues: seq<seq<Due<N>>>, n: N)
    requires Counted(p) && Silent(p, n)
    requires forall due <- dues :: !IsDue(due, n)
    ensures Times(Run(p, dues).events, Off(n)) == 0 == Times(Run(p, dues).events, On(n)) && Silent(Run(p, dues).after, n)
    decreases |dues|
  {
    if dues != [] {
      TickBalance(p, dues[0]);
      StartsOthers(p, dues[0], n);
      StopsSilent(Starts(p, dues[0]).after, 0, n);
      var started := Starts(p, dues[0]);
      TimesConcat(started.events, Stops(started.after, 0).events, Off(n));
      TimesConcat(started.events, Stops(started.after, 0).events, On(n));
      var first := Tick(p, dues[0]);
      RunSilent(first.after, dues[1..], n);
      TimesConcat(first.events, Run(first.after, dues[1..]).events, Off(n));
      TimesConcat(first.events, Run(first.after, dues[1..]).events, On(n));
    }
  }

  /** A sounding note that is not due again ends once its ticks have run out, and not before. */
  lemma {:induction false} RunSounds<N>(p: Playing<N>, dues: seq<seq<Due<N>>>, n: N, i: nat, t: int)
    requires Counted(p) && Sounds(p, n, i, t) && t >= 0
    requires forall due <- dues :: !IsDue(due, n)
    ensures Times(Run(p, dues).events, On(n)) == 0
    ensures Times(Run(p, dues).events, Off(n)) == if |dues| > t then 1 else 0
    ensures |dues| <= t ==> Sounds(Run(p, dues).after, n, i, t - |dues|)
    ensures |dues| > t ==> Silent(Run(p, dues).after, n)
    decreases |dues|
  {
    hide *;
    if dues == [] {
      NoTicks(p);
    } else {
      assert dues[0] in dues;
      RunFirst(p, dues);
      SoundingTick(p, dues[0], n, i, t);
      var first := Tick(p, dues[0]);
      if t > 0 {
        RunSounds(first.after, dues[1..], n, i, t - 1);
      } else {
        RunSilent(first.after, dues[1..], n);
      }
      TimesConcat(first.events, Run(first.after, dues[1..]).events, Off(n));
      TimesConcat(first.events, Run(first.after, dues[1..]).events, On(n));
    }
  }

  lemma NoTicks<N>(p: Playing<N>)
    requires Counted(p)
    ensures Run(p, []) == Outcome(p, []) && forall e: Event<N> :: Times([], e) == 0
  {
  }

  /** A tick in which a sounding note is not due. */
  lemma SoundingTick<N>(p: Playing<N>, due: seq<Due<N>>, n: N, i: nat, t: int)
    requires Counted(p) && Sounds(p, n, i, t) && !IsDue(due, n)
    ensures Times(Tick(p, due).events, On(n)) == 0
    ensures Times(Tick(p, due).events, Off(n)) == if t > 0 then 0 else 1
    ensures t > 0 ==> Sounds(Tick(p, due).after, n, i, t - 1)
    ensures t <= 0 ==> Silent(Tick(p, due).after, n)
  {
    hide Starts, Stops, Times, Silent, Counted, Sounds, IsDue;
    StartsOthers(p, due, n);
    var started := Starts(p, due);
    StopsOne(started.after, 0, n, i, t);
    TimesConcat(started.events, Stops(started.after, 0).events, Off(n));
    TimesConcat(started.events, Stops(started.after, 0).events, On(n));
  }

  /**
   * A silent note of length L that starts in the first tick of a run and is
   * not due again: exactly one note-off, in the tick L + 1 after the one that
   * started it, or in that same tick if L is negative.
   */
  lemma {:induction false} SingleNoteOff<N>(p: Playing<N>, dues: seq<seq<Due<N>>>, n: N, k: nat)
    requires Counted(p) && Silent(p, n) && dues != []
    requires k < |dues[0]| && dues[0][k].entry == n
    requires forall j :: 0 <= j < |dues[0]| && j != k ==> dues[0][j].entry != n
    requires forall due <- dues[1..] :: !IsDue(due, n)
    ensures Times(Run(p, dues).events, On(n)) == Times(Tick(p, dues[0]).events, On(n)) <= 1
    ensures Times(Run(p, dues).events, Off(n))
         == if Times(Run(p, dues).events, On(n)) == 1 && |dues| > dues[0][k].length + 1 then 1 else 0
  {
    hide *;
    var due, rest := dues[0], dues[1..];
    FirstTick(p, due, k, n);
    RunFirst(p, dues);
    var first := Tick(p, due);
    if Times(first.events, On(n)) == 0 || due[k].length < 0 {
      RunSilent(first.after, rest, n);
    } else {
      var i := SoundingSlot(first.after, n, due[k].length);
      RunSounds(first.after, rest, n, i, due[k].length);
    }
    TimesConcat(first.events, Run(first.after, rest).events, Off(n));
    TimesConcat(first.events, Run(first.after, rest).events, On(n));
  }

  lemma SoundingSlot<N>(p: Playing<N>, n: N, t: int) returns (i: nat)
    requires InOneSlot(p, n, t)
    ensures Sounds(p, n, i, t)
  {
    i :| Sounds(p, n, i, t);
  }

  lemma RunFirst<N>(p: Playing<N>, dues: seq<seq<Due<N>>>)
    requires Counted(p) && dues != []
    ensures var first := Tick(p, dues[0]);
            && Counted(first.after)
            && Run(p, dues) == Outcome(Run(first.after, dues[1..]).after, first.events + Run(first.after, dues[1..]).events)
  {
    TickBalance(p, dues[0]);
  }

  /** The tick in which a silent note is due once. */
  lemma FirstTick<N>(p: Playing<N>, due: seq<Due<N>>, k: nat, n: N)
    requires Counted(p) && Silent(p, n) && k < |due| && due[k].entry == n
    requires forall j :: 0 <= j < |due| && j != k ==> due[j].entry != n
    ensures var tick, length := Tick(p, due), due[k].length;
            && Times(tick.events, On(n)) <= 1
            && Times(tick.events, Off(n)) == (if Times(tick.events, On(n)) == 1 && length < 0 then 1 else 0)
            && (Times(tick.events, On(n)) == 1 && length >= 0 ==> InOneSlot(tick.after, n, length))
            && (Times(tick.events, On(n)) == 0 || length < 0 ==> Silent(tick.after, n))
  {
    StartsOne(p, due, k, n);
    var started, length := Starts(p, due), due[k].length;
    hide Starts, Stops, Times, Silent, Counted;
    var stopped := Stops(started.after, 0);
    TimesConcat(started.events, stopped.events, On(n));
    TimesConcat(started.events, stopped.events, Off(n));
    if Times(started.events, On(n)) == 0 {
      StopsSilent(started.after, 0, n);
    } else {
      var i := SoundingSlot(started.after, n, length + 1);
      StopsOne(started.after, 0, n, i, length + 1);
    }
  }

  /** With a free slot for every note that is due, each of them starts. */
  lemma {:induction false} StartsAll<N>(p: Playing<N>, due: seq<Due<N>>, k: nat)
    requires Occupied(p.slots) + |due| <= |p.slots| && k < |due|
    ensures Times(Starts(p, due).events, On(due[k].entry)) > 0
    decreases |due|
  {
    FreeSlot(p.slots);
    var one := StartOne(p, due[0]);
    StartOneBalance(p, due[0]);
    OneStarted(p, due[0]);
    hide StartOne, Occupied, FirstSlot;
    TimesConcat(one.events, Starts(one.after, due[1..]).events, On(due[k].entry));
    if k > 0 {
      StartsAll(one.after, due[1..], k - 1);
    }
  }

  lemma OneStarted<N>(p: Playing<N>, d: Due<N>)
    requires FirstSlot(p.slots, Empty) < |p.slots|
    ensures Times(StartOne(p, d).events, On(d.entry)) == 1 && Balance(StartOne(p, d).events) == 1
  {
  }

  lemma {:induction false} FreeSlot<N>(slots: seq<Slot<N>>)
    requires Occupied(slots) < |slots|
    ensures FirstSlot(slots, Empty) < |slots|
  {
    if slots[0].Held? {
      FreeSlot(slots[1..]);
    }
  }

  lemma {:induction false} RunConcat<N>(p: Playing<N>, a: seq<seq<Due<N>>>, b: seq<seq<Due<N>>>)
    requires Counted(p)
    ensures var first := Run(p, a);
            Run(p, a + b) == Outcome(Run(first.after, b).after, first.events + Run(first.after, b).events)
    decreases |a|
  {
    if a == [] {
      assert a + b == b;
      assert [] + Run(p, b).events == Run(p, b).events;
    } else {
      assert (a + b)[1..] == a[1..] + b;
      TickBalance(p, a[0]);
      var first := Tick(p, a[0]);
      RunConcat(first.after, a[1..], b);
      var second := Run(first.after, a[1..]);
      assert first.events + (second.events + Run(second.after, b).events) == first.events + second.events + Run(second.after, b).events;
    }
  }

  /**
   * The life of a note that is due in tick a only: nothing before that tick;
   * one note-on then, certainly if every note due then finds a slot; and, with
   * a length of at least -1, one note-off in tick a + length + 1.
   */
  lemma LifeOfNote<N>(p: Playing<N>, dues: seq<seq<Due<N>>>, n: N, a: nat, k: nat)
    requires Counted(p) && Silent(p, n) && a < |dues|
    requires k < |dues[a]| && dues[a][k].entry == n
    requires forall j :: 0 <= j < |dues[a]| && j != k ==> dues[a][j].entry != n
    requires forall t :: 0 <= t < |dues| && t != a ==> !IsDue(dues[t], n)
    ensures Times(Run(p, dues[..a]).events, On(n)) == 0 == Times(Run(p, dues[..a]).events, Off(n))
    ensures Times(Run(p, dues).events, On(n)) <= 1
    ensures Occupied(Run(p, dues[..a]).after.slots) + |dues[a]| <= |p.slots| ==> Times(Run(p, dues).events, On(n)) == 1
    ensures Times(Run(p, dues).events, Off(n))
         == if Times(Run(p, dues).events, On(n)) == 1 && |dues| > a + dues[a][k].length + 1 then 1 else 0
  {
    hide *;
    var before, rest := dues[..a], dues[a..];
    assert dues == before + rest && rest[0] == dues[a];
    NotDueElsewhere(dues, n, a);
    RunConcat(p, before, rest);
    RunSilent(p, before, n);
    RunBalance(p, before);
    var q := Run(p, before).after;
    SingleNoteOff(q, rest, n, k);
    TimesConcat(Run(p, before).events, Run(q, rest).events, On(n));
    TimesConcat(Run(p, before).events, Run(q, rest).events, Off(n));
    if Occupied(q.slots) + |dues[a]| <= |p.slots| {
      TickStarts(q, rest[0], k);
    }
  }

  lemma NotDueElsewhere<N>(dues: seq<seq<Due<N>>>, n: N, a: nat)
    requires a < |dues| && forall t :: 0 <= t < |dues| && t != a ==> !IsDue(dues[t], n)
    ensures (forall due <- dues[..a] :: !IsDue(due, n)) && forall due <- dues[a..][1..] :: !IsDue(due, n)
  {
    forall due | due in dues[a..][1..] ensures !IsDue(due, n) {
      var t :| 0 <= t < |dues[a..][1..]| && dues[a..][1..][t] == due;
      assert dues[a + 1 + t] == due;
    }
  }

  lemma TickStarts<N>(q: Playing<N>, due: seq<Due<N>>, k: nat)
    requires Counted(q) && Occupied(q.slots) + |due| <= |q.slots| && k < |due|
    ensures Times(Tick(q, due).events, On(due[k].entry)) > 0
  {
    hide Starts, Stops, Times, Counted, Occupied;
    StartsAll(q, due, k);
    TimesConcat(Starts(q, due).events, Stops(Starts(q, due).after, 0).events, On(due[k].entry));
  }
}
