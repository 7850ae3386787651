/**
 * The loops of one MachineSequencer: a store of Loop objects that doubles when
 * it is full, and a sequence of positions that refer to the store by index.
 */
module LoopStore {

  import opened SequencerLoop

  const NOTE_NOT_SET := -1
  const INITIAL_SEQUENCE_LENGTH := 16
  const MAX_LOOPS := 100

  datatype Answer = Done | ParameterOutOfSpec | NoFreeLoopsAvailable | NoSuchLoop

  /* The contents of the two arrays. */

  /** Each position is unset or refers to a loop of the store. */
  ghost predicate Referring(store: seq<Loop?>, sequence: seq<int>) {
    forall p :: 0 <= p < |sequence| ==> sequence[p] == NOTE_NOT_SET || IsLoop(store, sequence[p])
  }

  predicate IsLoop(store: seq<Loop?>, id: int) {
    0 <= id < |store| && store[id] != null
  }

  /** What a position plays. */
  function LoopAt(store: seq<Loop?>, sequence: seq<int>, p: nat): Loop?
    requires p < |sequence|
  {
    if 0 <= sequence[p] < |store| then store[sequence[p]] else null
  }

  /** Exactly the first n slots hold loops. */
  ghost predicate Packed(store: seq<Loop?>, n: int) {
    0 <= n <= |store| && forall k :: 0 <= k < |store| ==> (store[k] != null <==> k < n)
  }

  /** The loops of the store, each under one index only. */
  ghost predicate Separate(store: seq<Loop?>) {
    forall i, j :: 0 <= i < j < |store| && store[i] != null ==> store[i] != store[j]
  }

  function Emptied<T>(n: nat, x: T): (s: seq<T>)
    ensures |s| == n && forall i :: 0 <= i < n ==> s[i] == x
  {
    seq(n, _ => x)
  }

  /** delete_loop on the store: everything above id moves down one slot, but nothing clears the last slot. */
  function StoreWithout(store: seq<Loop?>, id: nat): (s: seq<Loop?>)
    ensures |s| == |store|
  {
    if id >= |store| then store else store[..id] + store[id + 1..] + [store[|store| - 1]]
  }

  function Renumbered(entry: int, id: int): int {
    if entry == id then NOTE_NOT_SET else if entry > id then entry - 1 else entry
  }

  function SequenceWithout(sequence: seq<int>, id: int): (s: seq<int>)
    ensures |s| == |sequence| && forall p :: 0 <= p < |s| ==> s[p] == Renumbered(sequence[p], id)
  {
    seq(|sequence|, p requires 0 <= p < |sequence| => Renumbered(sequence[p], id))
  }

  /**
   * Deleting the loop with index id: every position plays what it played
   * before, except that those that referred to id play nothing.
   */
  lemma DeleteKeepsLoops(store: seq<Loop?>, sequence: seq<int>, id: nat)
    requires Referring(store, sequence)
    ensures Referring(StoreWithout(store, id), SequenceWithout(sequence, id))
    ensures forall p :: 0 <= p < |sequence| ==>
              LoopAt(StoreWithout(store, id), SequenceWithout(sequence, id), p)
              == (if sequence[p] == id then null else LoopAt(store, sequence, p))
  {
    var s := StoreWithout(store, id);
    assert forall k :: 0 <= k < id && k < |store| ==> s[k] == store[k];
    assert forall k :: id <= k < |store| - 1 ==> s[k] == store[k + 1];
    forall p | 0 <= p < |sequence| && sequence[p] != NOTE_NOT_SET && sequence[p] != id
      ensures s[Renumbered(sequence[p], id)] == store[sequence[p]]
    {
      assert IsLoop(store, sequence[p]);
    }
  }

  /** Deletion leaves one loop less exactly if the store was not full: a full store keeps its last slot. */
  lemma DeletePacked(store: seq<Loop?>, n: nat, id: nat)
    requires Packed(store, n) && id < n
    ensures Packed(StoreWithout(store, id), n - 1) <==> n < |store|
    ensures n == |store| ==> Packed(StoreWithout(store, id), n)
  {
    var s := StoreWithout(store, id);
    assert forall k :: 0 <= k < id ==> s[k] == store[k];
    assert forall k :: id <= k < |store| - 1 ==> s[k] == store[k + 1];
    assert s[|s| - 1] == store[|s| - 1];
  }

  /** With every loop under one index before, the same holds after a deletion exactly if the store was not full or its last slot was meant. */
  lemma DeleteSeparate(store: seq<Loop?>, n: nat, id: nat)
    requires Packed(store, n) && id < n && Separate(store)
    ensures Separate(StoreWithout(store, id)) <==> n < |store| || id == |store| - 1
  {
    var s, last := StoreWithout(store, id), |store| - 1;
    assert forall k :: 0 <= k < id ==> s[k] == store[k];
    assert forall k :: id <= k < last ==> s[k] == store[k + 1];
    assert s[last] == store[last];
    if n == |store| && id < last {
      assert s[last - 1] == s[last] && s[last] != null;
    }
    if n < |store| || id == last {
      forall i, j | 0 <= i < j < |s| && s[i] != null ensures s[i] != s[j] {
        var a, b := if i < id then i else if i < last then i + 1 else i, if j < id then j else if j < last then j + 1 else j;
        assert s[i] == store[a] && s[j] == store[b];
      }
    }
  }

  /** A store that grows keeps what every position plays. */
  lemma GrowthKeepsLoops(store: seq<Loop?>, more: seq<Loop?>, sequence: seq<int>)
    requires Referring(store, sequence)
    ensures Referring(store + more, sequence)
    ensures forall p :: 0 <= p < |sequence| ==> LoopAt(store + more, sequence, p) == LoopAt(store, sequence, p)
  {
    forall p | 0 <= p < |sequence| && sequence[p] != NOTE_NOT_SET ensures IsLoop(store, sequence[p]) {
    }
  }

  /** Filling an empty slot changes what no position plays. */
  lemma AddKeepsLoops(store: seq<Loop?>, k: nat, l: Loop, sequence: seq<int>)
    requires Referring(store, sequence) && k < |store| && store[k] == null
    ensures Referring(store[k := l], sequence)
    ensures forall p :: 0 <= p < |sequence| ==> LoopAt(store[k := l], sequence, p) == LoopAt(store, sequence, p)
  {
    forall p | 0 <= p < |sequence| && sequence[p] != NOTE_NOT_SET
      ensures IsLoop(store, sequence[p]) && sequence[p] != k
    {
    }
  }

  /** The first empty slot of a packed store of n loops is slot n; filling it, after doubling if need be, packs n + 1. */
  lemma AddPacked(store: seq<Loop?>, n: nat, k: nat, l: Loop)
    requires Packed(store, n) && k <= |store| && |store| > 0
    requires (forall i :: 0 <= i < k ==> store[i] != null) && (k < |store| ==> store[k] == null)
    ensures k == n
    ensures k < |store| ==> Packed(store[k := l], n + 1)
    ensures k == |store| ==> Packed((store + Emptied(k, null))[k := l], n + 1)
  {
    assert n < |store| ==> store[n] == null;
  }

  /** The static sequence_length, which all sequencers share. */
  class SequenceLength {
    var value: int
    constructor ()
      ensures value == 16
    {
      value := INITIAL_SEQUENCE_LENGTH;
    }
  }

  class MachineSequencer {
    var loopStore: array<Loop?>
    var lastFreeLoopStorePosition: int
    var loopSequence: array<int>
    const sequenceLength: SequenceLength

    ghost predicate Valid()
      reads this, loopStore, loopSequence
    {
      loopStore.Length > 0 && Referring(loopStore[..], loopSequence[..])
    }

    /** What the object plays at each position. */
    ghost function Plays(): (s: seq<Loop?>)
      reads this, loopStore, loopSequence
      ensures |s| == loopSequence.Length
    {
      seq(loopSequence.Length, p requires 0 <= p < loopSequence.Length reads this, loopStore, loopSequence =>
        LoopAt(loopStore[..], loopSequence[..], p))
    }

    constructor (length: SequenceLength)
      requires length.value >= 0
      ensures Valid() && fresh(loopStore) && fresh(loopSequence) && sequenceLength == length
      ensures loopStore.Length == 16
      ensures Packed(loopStore[..], lastFreeLoopStorePosition) && lastFreeLoopStorePosition == 1
      ensures loopSequence.Length == length.value
      ensures forall p :: 0 <= p < loopSequence.Length ==> loopSequence[p] == -1
    {
      sequenceLength := length;
      loopStore := new Loop?[INITIAL_SEQUENCE_LENGTH](_ => null);
      lastFreeLoopStorePosition := 0;
      loopSequence := new int[length.value](_ => NOTE_NOT_SET);
      new;
      assert loopSequence[..] == Emptied(length.value, NOTE_NOT_SET);
      assert Packed(loopStore[..], 0);
      var r, k := InternalAddNewLoop();
    }

    /** internal_get_loop_id_at */
    method InternalGetLoopIdAt(position: int) returns (id: int)
      requires Valid()
      ensures id == if 0 <= position < loopSequence.Length then loopSequence[position] else -1
      ensures id == -1 || (0 <= id < loopStore.Length && loopStore[id] != null)
    {
      if !(0 <= position < loopSequence.Length) {
        return NOTE_NOT_SET;
      }
      id := loopSequence[position];
      assert loopSequence[..][position] == id;
      assert id != NOTE_NOT_SET ==> IsLoop(loopStore[..], id);
    }

    /** get_loop */
    method GetLoop(loopId: int) returns (r: Answer, l: Loop?)
      ensures r == if 0 <= loopId < loopStore.Length && loopStore[loopId] != null then Done else NoSuchLoop
      ensures r == Done ==> l == loopStore[loopId]
      ensures r != Done ==> l == null
    {
      l := if !(0 <= loopId < loopStore.Length) then null else loopStore[loopId];
      r := if l == null then NoSuchLoop else Done;
    }

    /** double_loop_store */
    method DoubleLoopStore()
      modifies this`loopStore
      ensures fresh(loopStore) && loopStore[..] == old(loopStore[..]) + Emptied(old(loopStore.Length), null)
      ensures loopStore.Length == 2 * old(loopStore.Length)
      ensures forall k :: 0 <= k < loopStore.Length ==>
                loopStore[k] == if k < old(loopStore.Length) then old(loopStore[k]) else null
    {
      var newStore := new Loop?[loopStore.Length * 2](_ => null);
      for k := 0 to loopStore.Length
        invariant loopStore == old(loopStore) && newStore.Length == 2 * loopStore.Length && newStore[..k] == loopStore[..k]
        invariant forall i :: k <= i < newStore.Length ==> newStore[i] == null
      {
        newStore[k] := loopStore[k];
      }
      assert newStore[..] == loopStore[..] + Emptied(loopStore.Length, null);
      loopStore := newStore;
    }

    /** refresh_length: never shorter, and what is new is unset. */
    method RefreshLength()
      modifies this`loopSequence
      ensures var was, length := old(loopSequence[..]), sequenceLength.value;
              if |was| >= length then
                loopSequence == old(loopSequence)
              else
                fresh(loopSequence) && loopSequence[..] == was + Emptied(length - |was|, NOTE_NOT_SET)
      ensures loopSequence.Length == if old(loopSequence.Length) >= sequenceLength.value then old(loopSequence.Length)
                                     else sequenceLength.value
      ensures forall p :: 0 <= p < loopSequence.Length ==>
                loopSequence[p] == if p < old(loopSequence.Length) then old(loopSequence[p]) else -1
    {
      if loopSequence.Length >= sequenceLength.value {
        return;
      }
      var newSize := sequenceLength.value;
      var newSeq := new int[newSize];
      var midTerm := if newSize < loopSequence.Length then newSize else loopSequence.Length;
      for k := 0 to midTerm
        invariant loopSequence == old(loopSequence) && newSeq[..k] == loopSequence[..k]
      {
        newSeq[k] := loopSequence[k];
      }
      for k := midTerm to newSize
        invariant loopSequence == old(loopSequence) && newSeq[..midTerm] == loopSequence[..midTerm]
        invariant forall i :: midTerm <= i < k ==> newSeq[i] == NOTE_NOT_SET
      {
        newSeq[k] := NOTE_NOT_SET;
      }
      assert newSeq[..] == loopSequence[..] + Emptied(newSize - loopSequence.Length, NOTE_NOT_SET);
      loopSequence := newSeq;
    }

    /** set_sequence_length, as far as this sequencer is concerned. */
    method SetSequenceLength(newv: int)
      modifies sequenceLength, this`loopSequence
      ensures sequenceLength.value == newv
      ensures if old(loopSequence.Length) >= newv then
                loopSequence == old(loopSequence)
              else
                && fresh(loopSequence)
                && loopSequence[..] == old(loopSequence[..]) + Emptied(newv - old(loopSequence.Length), NOTE_NOT_SET)
    {
      sequenceLength.value := newv;
      RefreshLength();
    }

    /** The positions after internal_set_loop_id_at has made room for `position`. */
    static function Extended(sequence: seq<int>, position: nat): (s: seq<int>)
      ensures |s| > position && |s| >= |sequence| && s[..|sequence|] == sequence
      ensures forall p :: |sequence| <= p < |s| ==> s[p] == NOTE_NOT_SET
    {
      if position < |sequence| then sequence else sequence + Emptied(position + 16 - |sequence|, NOTE_NOT_SET)
    }

    /**
     * internal_set_loop_id_at. A negative position changes nothing; an id that
     * is not in the store is refused, but the sequence has grown by then.
     */
    method InternalSetLoopIdAt(position: int, loopId: int) returns (r: Answer)
      requires Valid()
      modifies sequenceLength, this`loopSequence, loopSequence
      ensures Valid()
      ensures r == if position >= 0 && (loopId == -1 || (0 <= loopId < loopStore.Length && loopStore[loopId] != null))
                   then Done else ParameterOutOfSpec
      ensures sequenceLength.value == if position >= old(loopSequence.Length) then position + 16 else old(sequenceLength.value)
      ensures loopSequence.Length == if position >= old(loopSequence.Length) then position + 16 else old(loopSequence.Length)
      ensures forall p :: 0 <= p < loopSequence.Length ==>
                loopSequence[p] == if p == position && r == Done then loopId
                                   else if p < old(loopSequence.Length) then old(loopSequence[p]) else -1
      ensures loopSequence[..] ==
              if position < 0 then old(loopSequence[..])
              else if r == Done then Extended(old(loopSequence[..]), position)[position := loopId]
              else Extended(old(loopSequence[..]), position)
    {
      if position < 0 {
        return ParameterOutOfSpec;
      }
      if !(0 <= position < loopSequence.Length) {
        SetSequenceLength(position + 16);
        RefreshLength();
      }
      if loopId != NOTE_NOT_SET && (loopId < 0 || loopId >= loopStore.Length || loopStore[loopId] == null) {
        return ParameterOutOfSpec;
      }
      loopSequence[position] := loopId;
      r := Done;
    }

    /** internal_add_new_loop: the first empty slot, in a store twice as large if there is none. */
    method InternalAddNewLoop() returns (r: Answer, k: nat)
      requires Valid()
      modifies this`loopStore, this`lastFreeLoopStorePosition, loopStore
      ensures Valid() && Plays() == old(Plays())
      ensures r == if old(lastFreeLoopStorePosition) == 100 then NoFreeLoopsAvailable else Done
      ensures r != Done ==> loopStore[..] == old(loopStore[..]) && lastFreeLoopStorePosition == old(lastFreeLoopStorePosition)
      ensures r == Done ==>
                && k < loopStore.Length && lastFreeLoopStorePosition == k + 1
                && loopStore[k] != null && fresh(loopStore[k])
                && (forall i :: 0 <= i < k && i < old(loopStore.Length) ==> old(loopStore[i]) != null)
                && (k < old(loopStore.Length) ==>
                      loopStore[..] == old(loopStore[..])[k := loopStore[k]] && old(loopStore[..])[k] == null)
                && (k >= old(loopStore.Length) ==>
                      && k == old(loopStore.Length)
                      && loopStore[..] == (old(loopStore[..]) + Emptied(k, null))[k := loopStore[k]])
                && (forall n :: Packed(old(loopStore[..]), n) ==> k == n && Packed(loopStore[..], n + 1))
    {
      k := 0;
      if lastFreeLoopStorePosition == MAX_LOOPS {
        return NoFreeLoopsAvailable, k;
      }
      var newLoop := new Loop();
      ghost var was, sequence := loopStore[..], loopSequence[..];
      while k < loopStore.Length
        invariant 0 <= k <= loopStore.Length
        invariant loopStore == old(loopStore) && loopStore[..] == was
        invariant forall i :: 0 <= i < k ==> loopStore[i] != null
      {
        if loopStore[k] == null {
          AddKeepsLoops(was, k, newLoop, sequence);
          forall n | Packed(was, n) ensures k == n && Packed(was[k := newLoop], n + 1) {
            AddPacked(was, n, k, newLoop);
          }
          loopStore[k] := newLoop;
          lastFreeLoopStorePosition := k + 1;
          assert loopStore[..] == was[k := newLoop];
          return Done, k;
        }
        k := k + 1;
      }
      DoubleLoopStore();
      GrowthKeepsLoops(was, Emptied(|was|, null), sequence);
      AddKeepsLoops(was + Emptied(|was|, null), k, newLoop, sequence);
      forall n | Packed(was, n) ensures k == n && Packed((was + Emptied(k, null))[k := newLoop], n + 1) {
        AddPacked(was, n, k, newLoop);
      }
      loopStore[k] := newLoop;
      lastFreeLoopStorePosition := k + 1;
      assert loopStore[..] == (was + Emptied(|was|, null))[k := newLoop];
      r := Done;
    }

    /** delete_loop, for an index that is not negative. One beyond the store leaves everything but the count. */
    method DeleteLoop(id: nat)
      requires Valid()
      modifies loopStore, loopSequence, this`lastFreeLoopStorePosition
      ensures Valid()
      ensures loopStore[..] == StoreWithout(old(loopStore[..]), id)
      ensures loopSequence[..] == SequenceWithout(old(loopSequence[..]), id)
      ensures forall k :: 0 <= k < loopStore.Length ==>
                loopStore[k] == if id <= k < loopStore.Length - 1 then old(loopStore[k + 1]) else old(loopStore[k])
      ensures forall p :: 0 <= p < loopSequence.Length ==>
                loopSequence[p] == if old(loopSequence[p]) == id then -1
                                   else if old(loopSequence[p]) > id then old(loopSequence[p]) - 1 else old(loopSequence[p])
      ensures forall p :: 0 <= p < loopSequence.Length ==>
                Plays()[p] == if old(loopSequence[p]) == id then null else old(Plays())[p]
      ensures lastFreeLoopStorePosition == old(lastFreeLoopStorePosition) - 1
    {
      ghost var store, sequence := loopStore[..], loopSequence[..];
      for k := 0 to loopSequence.Length
        invariant loopStore[..] == store && lastFreeLoopStorePosition == old(lastFreeLoopStorePosition)
        invariant forall i :: 0 <= i < k ==> loopSequence[i] == Renumbered(sequence[i], id)
        invariant forall i :: k <= i < loopSequence.Length ==> loopSequence[i] == sequence[i]
      {
        if loopSequence[k] == id {
          loopSequence[k] := NOTE_NOT_SET;
        }
        if loopSequence[k] > id {
          loopSequence[k] := loopSequence[k] - 1;
        }
      }
      assert loopSequence[..] == SequenceWithout(sequence, id);
      var k := id;
      while k < loopStore.Length - 1
        invariant id <= k && (k < loopStore.Length || k == id)
        invariant loopSequence[..] == SequenceWithout(sequence, id)
        invariant lastFreeLoopStorePosition == old(lastFreeLoopStorePosition)
        invariant forall i :: 0 <= i < id && i < loopStore.Length ==> loopStore[i] == store[i]
        invariant forall i :: id <= i < k ==> loopStore[i] == store[i + 1]
        invariant forall i :: k <= i < loopStore.Length ==> loopStore[i] == store[i]
      {
        loopStore[k] := loopStore[k + 1];
        k := k + 1;
      }
      assert loopStore[..] == StoreWithout(store, id);
      DeleteKeepsLoops(store, sequence, id);
      lastFreeLoopStorePosition := lastFreeLoopStorePosition - 1;
    }
  }
}
