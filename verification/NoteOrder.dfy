/**
 * Where notes stand in a loop's list, by their on_at alone: insertion order,
 * and the playback cursor against the loop position.
 */
module NoteOrder {

  import opened Sequences

  /** The index of the first key greater than x, or the number of keys. */
  function FirstAbove(keys: seq<int>, x: int): (r: nat)
    ensures r <= |keys|
    ensures forall i :: 0 <= i < r ==> keys[i] <= x
    ensures r < |keys| ==> keys[r] > x
  {
    if keys == [] then 0 else if keys[0] > x then 0 else 1 + FirstAbove(keys[1..], x)
  }

  ghost predicate NonNegative(keys: seq<int>) {
    forall i :: 0 <= i < |keys| ==> keys[i] >= 0
  }

  ghost predicate Sorted(keys: seq<int>) {
    forall i, j :: 0 <= i < j < |keys| ==> keys[i] <= keys[j]
  }

  /** What insertion makes of the keys. */
  ghost function Inserted(keys: seq<int>, x: int): seq<int> {
    InsertAt(keys, FirstAbove(keys, x), x)
  }

  lemma FirstAboveUnique(keys: seq<int>, x: int, r: nat)
    requires r <= |keys|
    requires forall i :: 0 <= i < r ==> keys[i] <= x
    requires r < |keys| ==> keys[r] > x
    ensures FirstAbove(keys, x) == r
  {
  }

  /** Insertion keeps the order, and puts equal keys in order of arrival. */
  lemma InsertedSorted(keys: seq<int>, x: int)
    requires Sorted(keys)
    ensures Sorted(Inserted(keys, x))
    ensures var k := FirstAbove(keys, x); forall i :: 0 <= i < |keys| ==> (keys[i] <= x <==> i < k)
  {
    var k := FirstAbove(keys, x);
    InsertPointwise(keys, k, x);
    hide InsertAt;
    var r := Inserted(keys, x);
    assert forall i :: k <= i < |keys| ==> keys[k] <= keys[i];
    forall i, j | 0 <= i < j < |r| ensures r[i] <= r[j] {
      var a, b := if i < k then i else i - 1, if j < k then j else j - 1;
      if i != k && j != k {
        assert keys[a] <= keys[b];
      }
    }
  }

  lemma InsertedNonNegative(keys: seq<int>, x: int)
    requires NonNegative(keys)
    ensures NonNegative(Inserted(keys, x)) <==> x >= 0
  {
    var k, r := FirstAbove(keys, x), Inserted(keys, x);
    assert r[k] == x;
    assert forall i :: 0 <= i < |r| && i != k ==> r[i] == keys[if i < k then i else i - 1];
  }

  /** Deletion keeps the order. */
  lemma RemovedSorted(keys: seq<int>, k: nat)
    requires Sorted(keys) && k < |keys|
    ensures Sorted(RemoveAt(keys, k))
  {
  }

  /** The keys of a list rebuilt by inserting its elements one after the other. */
  ghost function Rebuilt(keys: seq<int>, n: nat): (r: seq<int>)
    requires n <= |keys|
  {
    if n == 0 then [] else Inserted(Rebuilt(keys, n - 1), keys[n - 1])
  }

  lemma RebuiltNext(keys: seq<int>, n: nat)
    requires n < |keys|
    ensures Rebuilt(keys, n + 1) == Inserted(Rebuilt(keys, n), keys[n])
  {
  }

  /** Inserting a sorted list one by one into an empty one puts every element last. */
  lemma {:induction false} RebuiltSame(keys: seq<int>, n: nat)
    requires Sorted(keys) && n <= |keys|
    ensures Rebuilt(keys, n) == keys[..n]
    ensures n < |keys| ==> FirstAbove(keys[..n], keys[n]) == n
  {
    hide *;
    if n > 0 {
      RebuiltSame(keys, n - 1);
      var before, x := keys[..n - 1], keys[n - 1];
      assert keys[..n] == before + [x] && before + [] == before;
      InsertParts(before, [], x);
      RebuiltNext(keys, n - 1);
      InsertedAt(before, x);
    } else {
      RebuiltNone(keys);
    }
    LastInOrder(keys, n);
  }

  lemma RebuiltNone(keys: seq<int>)
    ensures Rebuilt(keys, 0) == keys[..0]
  {
  }

  lemma InsertedAt(keys: seq<int>, x: int)
    ensures Inserted(keys, x) == InsertAt(keys, FirstAbove(keys, x), x)
  {
  }

  lemma LastInOrder(keys: seq<int>, n: nat)
    requires Sorted(keys) && n <= |keys|
    ensures n < |keys| ==> FirstAbove(keys[..n], keys[n]) == n
  {
    if n < |keys| {
      FirstAboveUnique(keys[..n], keys[n], n);
    }
  }

  /* The cursor. */

  /** The cursor stands at the first note that is not before the position. */
  ghost predicate OnTrack(keys: seq<int>, cursor: nat, position: int) {
    cursor == FirstAbove(keys, position - 1)
  }

  /** Where the loop of process_note_on leaves the cursor. */
  function Passed(keys: seq<int>, cursor: nat, position: int): (r: nat)
    requires cursor <= |keys|
    ensures cursor <= r <= |keys|
    ensures forall i :: cursor <= i < r ==> keys[i] == position
    ensures r < |keys| ==> keys[r] != position
    decreases |keys| - cursor
  {
    if cursor < |keys| && keys[cursor] == position then Passed(keys, cursor + 1, position) else cursor
  }

  /** start_to_play is on track exactly if no note lies before 0. */
  lemma StartOnTrack(keys: seq<int>)
    requires Sorted(keys)
    ensures OnTrack(keys, 0, 0) <==> NonNegative(keys)
  {
    assert keys != [] ==> forall i :: 0 <= i < |keys| ==> keys[0] <= keys[i];
  }

  /** A tick that starts on track considers exactly the notes of its own position, and ends on track. */
  lemma TickOnTrack(keys: seq<int>, cursor: nat, position: int)
    requires Sorted(keys) && OnTrack(keys, cursor, position)
    ensures var next := Passed(keys, cursor, position);
            && OnTrack(keys, next, position + 1)
            && forall i :: 0 <= i < |keys| ==> (keys[i] == position <==> cursor <= i < next)
  {
    var next := Passed(keys, cursor, position);
    assert next < |keys| ==> keys[cursor] <= keys[next];
    FirstAboveUnique(keys, position, next);
    assert forall i :: 0 <= i < cursor ==> keys[i] <= position - 1;
    assert forall i :: next < i < |keys| ==> keys[next] <= keys[i];
  }

  /** A cursor on a note that already lies behind is stuck: it considers nothing at any later tick. */
  lemma BehindIsStuck(keys: seq<int>, cursor: nat, position: int)
    requires cursor < |keys| && keys[cursor] < position
    ensures forall later :: later >= position ==> Passed(keys, cursor, later) == cursor
  {
  }

  /** The cursor after an insertion, which does not move it off its note. */
  function CursorAfterInsert(keys: seq<int>, cursor: nat, x: int): nat {
    if FirstAbove(keys, x) <= cursor then cursor + 1 else cursor
  }

  /**
   * Insertion while playing: the cursor stays on track exactly if the new note
   * lies before the position, or not before the note under the cursor.
   */
  lemma InsertOnTrack(keys: seq<int>, cursor: nat, position: int, x: int)
    requires Sorted(keys) && OnTrack(keys, cursor, position)
    ensures OnTrack(Inserted(keys, x), CursorAfterInsert(keys, cursor, x), position)
       <==> x < position || (cursor < |keys| && keys[cursor] <= x)
  {
    var r := Inserted(keys, x);
    if x < position {
      InsertedSorted(keys, x);
      assert FirstAbove(keys, x) <= cursor;
      FirstAboveInserted(keys, x, position - 1, cursor + 1);
    } else {
      if cursor < |keys| && keys[cursor] <= x {
        InsertedSorted(keys, x);
        assert FirstAbove(keys, x) > cursor;
      } else {
        FirstAboveUnique(keys, x, cursor);
      }
      FirstAboveInserted(keys, x, position - 1, cursor);
    }
  }

  /** Where the first key above y is after an insertion. */
  lemma FirstAboveInserted(keys: seq<int>, x: int, y: int, r: nat)
    requires r == FirstAbove(keys, y) + if x <= y then 1 else 0
    requires x <= y ==> FirstAbove(keys, x) < r
    requires x > y ==> FirstAbove(keys, x) >= r
    ensures FirstAbove(Inserted(keys, x), y) == r
  {
    InsertPointwise(keys, FirstAbove(keys, x), x);
    hide InsertAt;
    FirstAboveUnique(Inserted(keys, x), y, r);
  }

  /** The cursor after the deletion of element k: the next note takes its place. */
  function CursorAfterRemove(cursor: nat, k: nat): nat {
    if k < cursor then cursor - 1 else cursor
  }

  /** Deletion keeps the cursor on track. */
  lemma RemoveOnTrack(keys: seq<int>, cursor: nat, position: int, k: nat)
    requires Sorted(keys) && OnTrack(keys, cursor, position) && k < |keys|
    ensures OnTrack(RemoveAt(keys, k), CursorAfterRemove(cursor, k), position)
  {
    var r, c := RemoveAt(keys, k), CursorAfterRemove(cursor, k);
    assert c < |r| ==> keys[cursor] <= r[c];
    FirstAboveUnique(r, position - 1, c);
  }

  /** The cursor after T ticks from the start. */
  ghost function CursorAt(keys: seq<int>, t: nat): (c: nat)
    ensures c <= |keys|
  {
    if t == 0 then 0 else Passed(keys, CursorAt(keys, t - 1), t - 1)
  }

  lemma CursorNext(keys: seq<int>, t: nat)
    ensures CursorAt(keys, t + 1) == Passed(keys, CursorAt(keys, t), t) && CursorAt(keys, 0) == 0
  {
  }

  /**
   * With no note before 0, in an unedited list: tick t considers exactly the
   * notes with on_at t, in list order, and after t ticks exactly the notes
   * before t have been considered.
   */
  lemma {:induction false} EachAtItsTick(keys: seq<int>, t: nat)
    requires Sorted(keys) && NonNegative(keys)
    ensures OnTrack(keys, CursorAt(keys, t), t)
    ensures forall i :: 0 <= i < |keys| ==> (i < CursorAt(keys, t) <==> keys[i] < t)
    ensures forall i :: 0 <= i < |keys| ==> (CursorAt(keys, t) <= i < CursorAt(keys, t + 1) <==> keys[i] == t)
  {
    if t == 0 {
      StartOnTrack(keys);
    } else {
      EachAtItsTick(keys, t - 1);
      TickOnTrack(keys, CursorAt(keys, t - 1), t - 1);
    }
    var c := CursorAt(keys, t);
    TickOnTrack(keys, c, t);
    assert forall i :: c < i < |keys| ==> keys[c] <= keys[i];
  }

  /* Runs with edits. */

  datatype State = State(keys: seq<int>, cursor: nat, position: int)

  datatype Step = Start | Pass | Insert(onAt: int) | Delete(index: nat)

  /** One step on a loop's list and cursor; deletion of what is not in the list does nothing. */
  ghost function Next(s: State, step: Step): State
    requires s.cursor <= |s.keys|
  {
    match step
    case Start => State(s.keys, 0, 0)
    case Pass => State(s.keys, Passed(s.keys, s.cursor, s.position), s.position + 1)
    case Insert(x) => State(Inserted(s.keys, x), CursorAfterInsert(s.keys, s.cursor, x), s.position)
    case Delete(k) =>
      if k < |s.keys| then State(RemoveAt(s.keys, k), CursorAfterRemove(s.cursor, k), s.position) else s
  }

  ghost predicate Good(s: State) {
    && s.cursor <= |s.keys| && Sorted(s.keys)
    && NonNegative(s.keys)
    && OnTrack(s.keys, s.cursor, s.position)
  }

  /** An insertion that the running playback takes in. */
  ghost predicate Timely(s: State, step: Step) {
    step.Insert? ==>
      && step.onAt >= 0
      && (step.onAt < s.position || (s.cursor < |s.keys| && s.keys[s.cursor] <= step.onAt))
  }

  lemma InsertGood(s: State, x: int)
    requires Good(s)
    ensures Good(Next(s, Insert(x))) <==> Timely(s, Insert(x))
  {
    InsertedSorted(s.keys, x);
    InsertOnTrack(s.keys, s.cursor, s.position, x);
    InsertedNonNegative(s.keys, x);
  }

  lemma DeleteGood(s: State, k: nat)
    requires Good(s)
    ensures Good(Next(s, Delete(k)))
  {
    if k < |s.keys| {
      var r := RemoveAt(s.keys, k);
      RemovedSorted(s.keys, k);
      RemoveOnTrack(s.keys, s.cursor, s.position, k);
      assert forall i :: 0 <= i < |r| ==> r[i] == s.keys[if i < k then i else i + 1];
    }
  }

  /** A step from a good state leads to a good one exactly if its insertion is timely. */
  lemma StepGood(s: State, step: Step)
    requires Good(s)
    ensures Good(Next(s, step)) <==> Timely(s, step)
  {
    match step
    case Start =>
      StartOnTrack(s.keys);
    case Pass =>
      TickOnTrack(s.keys, s.cursor, s.position);
    case Insert(x) =>
      InsertGood(s, x);
    case Delete(k) =>
      DeleteGood(s, k);
  }

  ghost function After(s: State, steps: seq<Step>): (r: State)
    requires s.cursor <= |s.keys|
    ensures r.cursor <= |r.keys|
    decreases |steps|
  {
    if steps == [] then s else After(Next(s, steps[0]), steps[1..])
  }

  ghost predicate AllTimely(s: State, steps: seq<Step>)
    requires s.cursor <= |s.keys|
    decreases |steps|
  {
    steps == [] || (Timely(s, steps[0]) && AllTimely(Next(s, steps[0]), steps[1..]))
  }

  /** In every run whose insertions are timely the cursor is on track, from the empty loop on. */
  lemma {:induction false} RunGood(s: State, steps: seq<Step>)
    requires Good(s) && AllTimely(s, steps)
    ensures Good(After(s, steps))
    decreases |steps|
  {
    if steps != [] {
      StepGood(s, steps[0]);
      RunGood(Next(s, steps[0]), steps[1..]);
    }
  }

  lemma EmptyGood()
    ensures Good(State([], 0, 0))
  {
  }

  /* One note through a run with edits. */

  /** The index of note i after a step, which does not delete it. */
  ghost function Moved(s: State, i: nat, step: Step): nat {
    match step
    case Insert(x) => if FirstAbove(s.keys, x) <= i then i + 1 else i
    case Delete(k) => if k < i then i - 1 else i
    case _ => i
  }

  /** The steps go on without a restart and do not delete note i. */
  ghost predicate Keeps(s: State, i: nat, steps: seq<Step>)
    requires s.cursor <= |s.keys|
    decreases |steps|
  {
    steps != [] ==>
      && !steps[0].Start? && steps[0] != Delete(i)
      && Keeps(Next(s, steps[0]), Moved(s, i, steps[0]), steps[1..])
  }

  /** How many ticks of the run consider note i. */
  ghost function Considered(s: State, i: nat, steps: seq<Step>): nat
    requires s.cursor <= |s.keys|
    decreases |steps|
  {
    if steps == [] then 0
    else (if steps[0].Pass? && s.cursor <= i < Passed(s.keys, s.cursor, s.position) then 1 else 0)
         + Considered(Next(s, steps[0]), Moved(s, i, steps[0]), steps[1..])
  }

  lemma BehindStays(s: State, i: nat, step: Step)
    requires i < s.cursor <= |s.keys| && !step.Start? && step != Delete(i)
    ensures Moved(s, i, step) < Next(s, step).cursor
  {
    hide InsertAt, RemoveAt;
  }

  /** A note behind the cursor is not considered at any tick before a restart, whatever is edited. */
  lemma {:induction false} BehindNotConsidered(s: State, i: nat, steps: seq<Step>)
    requires i < s.cursor <= |s.keys| && Keeps(s, i, steps)
    ensures Considered(s, i, steps) == 0
    decreases |steps|
  {
    if steps != [] {
      BehindStays(s, i, steps[0]);
      BehindNotConsidered(Next(s, steps[0]), Moved(s, i, steps[0]), steps[1..]);
    }
  }

  /** An untimely insertion: the new note is not considered before a restart, although its tick is still to come. */
  lemma InsertMissed(s: State, x: int, steps: seq<Step>)
    requires Good(s) && !Timely(s, Insert(x)) && x >= 0
    requires Keeps(Next(s, Insert(x)), FirstAbove(s.keys, x), steps)
    ensures x >= s.position && Next(s, Insert(x)).keys[FirstAbove(s.keys, x)] == x
    ensures Considered(Next(s, Insert(x)), FirstAbove(s.keys, x), steps) == 0
  {
    FirstAboveUnique(s.keys, x, s.cursor);
    InsertPointwise(s.keys, s.cursor, x);
    BehindNotConsidered(Next(s, Insert(x)), FirstAbove(s.keys, x), steps);
  }

  /** A step keeps the key of a note that it does not delete. */
  lemma MovedKey(s: State, i: nat, step: Step)
    requires s.cursor <= |s.keys| && i < |s.keys| && step != Delete(i)
    ensures Moved(s, i, step) < |Next(s, step).keys|
    ensures Next(s, step).keys[Moved(s, i, step)] == s.keys[i]
  {
    match step
    case Insert(x) => InsertPointwise(s.keys, FirstAbove(s.keys, x), x);
    case Delete(k) =>
    case _ =>
  }

  lemma AheadStays(s: State, i: nat, step: Step)
    requires Good(s) && Timely(s, step) && s.cursor <= i < |s.keys| && !step.Start? && step != Delete(i)
    ensures step.Pass? && s.keys[i] == s.position ==> i < Next(s, step).cursor
    ensures !(step.Pass? && s.keys[i] == s.position) ==> Next(s, step).cursor <= Moved(s, i, step)
  {
    hide InsertAt, RemoveAt;
    TickOnTrack(s.keys, s.cursor, s.position);
  }

  /**
   * Exactly once: in a run whose insertions are timely, a note ahead of the
   * cursor is considered in one tick, which is its own, as soon as that tick
   * has passed; a note behind it in none.
   */
  lemma {:induction false} ConsideredOnce(s: State, i: nat, steps: seq<Step>)
    requires Good(s) && i < |s.keys| && AllTimely(s, steps) && Keeps(s, i, steps)
    ensures Considered(s, i, steps) == if s.cursor <= i && s.keys[i] < After(s, steps).position then 1 else 0
    decreases |steps|
  {
    if i < s.cursor {
      BehindNotConsidered(s, i, steps);
    } else if steps != [] {
      var step := steps[0];
      var n, j := Next(s, step), Moved(s, i, step);
      StepGood(s, step);
      MovedKey(s, i, step);
      AheadStays(s, i, step);
      TickOnTrack(s.keys, s.cursor, s.position);
      ConsideredOnce(n, j, steps[1..]);
      LaterPosition(n, steps[1..], j);
    } else {
      AtOrAfter(s, i);
    }
  }

  /** Without a restart the position only grows. */
  lemma {:induction false} LaterPosition(s: State, steps: seq<Step>, i: nat)
    requires s.cursor <= |s.keys| && Keeps(s, i, steps)
    ensures After(s, steps).position >= s.position
    decreases |steps|
  {
    if steps != [] {
      LaterPosition(Next(s, steps[0]), steps[1..], Moved(s, i, steps[0]));
    }
  }

  lemma AtOrAfter(s: State, i: nat)
    requires Good(s) && s.cursor <= i < |s.keys|
    ensures s.keys[i] >= s.position
  {
    assert s.keys[s.cursor] <= s.keys[i];
  }
}
