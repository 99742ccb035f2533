/** The slice filter object: stacks and keyed maps updated in place over the callstack table. */
module SliceFilterObject {
  import opened MachineWords
  import opened NestedMaps
  import opened SliceFilter
  import opened SliceKeyed
  import SliceRun

  lemma EmptyInRange()
    ensures SliceRun.EMPTY.InRange()
  {
  }

  class Filter {
    var rows: seq<SliceRow>
    var sliceStackMap: map<U32, seq<nat>>
    const asyncEventMap: TripleMap<U32, int, DataIndex, nat>
    var asyncEventFilterMap: map<nat, nat>
    var asyncEventSize: nat
    const gEventMap: TripleMap<U32, int, DataIndex, seq<nat>>
    var gEventFilterMap: map<nat, nat>
    var gEventSize: nat

    ghost function StackView(): Stacks reads this { Stacks(rows, sliceStackMap) }
    ghost function PairView(): Pairs reads this, asyncEventMap {
      Pairs(asyncEventMap.Flat(), asyncEventFilterMap, asyncEventSize)
    }
    ghost function PileView(): Piles reads this, gEventMap { Piles(gEventMap.Flat(), gEventFilterMap, gEventSize) }

    ghost function View(): SliceRun.State reads this, asyncEventMap, gEventMap {
      SliceRun.State(StackView(), PairView(), PileView())
    }

    /** The all-ones word marks a miss in `asyncEventMap`, so it is no id; a list kept for a key is not empty. */
    ghost predicate Valid() reads this, asyncEventMap, gEventMap {
      && asyncEventMap as object != gEventMap as object
      && asyncEventMap.Valid() && asyncEventMap.invalidValue == INVALID_U64
      && gEventMap.Valid() && gEventMap.invalidValue == []
      && View().InRange()
      && asyncEventSize < INVALID_U64
      && (forall key <- PairView().id :: PairView().id[key] <= asyncEventSize)
    }

    constructor ()
      ensures Valid() && View() == SliceRun.EMPTY && fresh(asyncEventMap) && fresh(gEventMap)
    {
      rows, sliceStackMap := [], map[];
      asyncEventMap := new TripleMap(INVALID_U64);
      asyncEventFilterMap, asyncEventSize := map[], 0;
      gEventMap := new TripleMap([]);
      gEventFilterMap, gEventSize := map[], 0;
      new;
      assert View() == SliceRun.EMPTY;
      assert SliceRun.EMPTY.InRange() by { EmptyInRange(); }
    }

    method CloseUnMatchedSlice(ts: nat, given: seq<nat>) returns (stack: seq<nat>)
      requires RowNumbers(rows, given)
      modifies this`rows
      ensures rows == old(rows)
      ensures stack == CloseUnmatched(rows, given, ts)
    {
      stack := given;
      var incomplete := false;
      var i := |stack| - 1;
      while i >= 0
        invariant rows == old(rows)
        invariant -1 <= i < |stack| && RowNumbers(rows, stack)
        invariant CloseFrom(rows, stack, ts, i, incomplete) == CloseUnmatched(rows, given, ts)
      {
        var row := rows[stack[i]];
        var endTs := row.End();
        if row.IsOpen() {
          incomplete := true;
        } else if incomplete {
          if ts > endTs {
            ghost var before := stack;
            while |stack| > i + 1
              invariant i < |stack| <= |before| && stack == before[..|stack|] && rows == old(rows)
            {
              // The child index is taken at i, so this writes the duration that row i has already.
              var child := stack[i];
              rows := rows[child := rows[child].(dur := endTs - rows[child].ts)];
              stack := stack[..|stack| - 1];
            }
            stack := stack[..|stack| - 1];
            assert stack == before[..i];
            incomplete := false;
          }
        } else if endTs <= ts {
          stack := stack[..|stack| - 1];
        }
        i := i - 1;
      }
    }

    method MatchingIncompleteSliceIndex(stack: seq<nat>, cat: DataIndex, name: DataIndex) returns (i: int)
      requires RowNumbers(rows, stack)
      ensures i == Match(rows, stack, cat, name)
    {
      i := |stack| - 1;
      while i >= 0
        invariant -1 <= i < |stack|
        invariant forall k | i < k < |stack| :: !Matches(rows[stack[k]], cat, name)
      {
        if Matches(rows[stack[i]], cat, name) {
          return;
        }
        i := i - 1;
      }
    }

    method StartSlice(ts: nat, dur: int, t: U32, cat: DataIndex, name: DataIndex) returns (index: Option<nat>)
      requires StackView().InRange()
      modifies this`rows, this`sliceStackMap
      ensures (StackView(), index) == old(StackView()).Start(ts, dur, t, cat, name)
    {
      var given := if t in sliceStackMap then sliceStackMap[t] else [];
      var stack := CloseUnMatchedSlice(ts, given);
      var depth := |stack|;
      var parent := if depth == 0 then None else Some(stack[depth - 1]);
      rows := rows + [SliceRow(ts, dur, t, cat, name, 0, parent, None)];
      if depth >= MAX_DEPTH {
        sliceStackMap := sliceStackMap[t := stack];
        return None;
      }
      rows := rows[|rows| - 1 := rows[|rows| - 1].(depth := depth)];
      assert rows == old(rows) + [SliceRow(ts, dur, t, cat, name, depth, parent, None)];
      sliceStackMap := sliceStackMap[t := stack + [|rows| - 1]];
      return Some(|rows| - 1);
    }

    method CompleteSlice(ts: nat, t: U32, cat: DataIndex, name: DataIndex) returns (closed: Option<nat>)
      requires StackView().InRange()
      modifies this`rows, this`sliceStackMap
      ensures (StackView(), closed) == old(StackView()).Complete(ts, t, cat, name)
    {
      if t !in sliceStackMap {
        return None;
      }
      var stack := CloseUnMatchedSlice(ts, sliceStackMap[t]);
      sliceStackMap := sliceStackMap[t := stack];
      if stack == [] {
        return None;
      }
      var i := MatchingIncompleteSliceIndex(stack, cat, name);
      if i < 0 {
        return None;
      }
      var lastRow := stack[i];
      rows := rows[lastRow := rows[lastRow].(dur := ts - rows[lastRow].ts)];
      if i == |stack| - 1 {
        sliceStackMap := sliceStackMap[t := stack[..|stack| - 1]];
        assert sliceStackMap == old(sliceStackMap)[t := stack[..i]];
      }
      return Some(lastRow);
    }

    method AddArgs(t: U32, cat: DataIndex, name: DataIndex) returns (row: Option<nat>)
      requires StackView().InRange()
      ensures row == StackView().ArgsRow(t, cat, name)
    {
      if t !in sliceStackMap {
        return None;
      }
      var i := MatchingIncompleteSliceIndex(sliceStackMap[t], cat, name);
      return if i < 0 then None else Some(sliceStackMap[t][i]);
    }

    /** `cat` and `parent` are what the caller looks up for the name and the calling thread. */
    method StartAsyncSlice(ts: nat, key: Key, cat: DataIndex, parent: nat) returns (index: Option<nat>)
      requires Valid() && asyncEventSize + 1 < INVALID_U64
      modifies this`rows, this`asyncEventFilterMap, this`asyncEventSize, asyncEventMap
      ensures Valid() && View() == SliceRun.Step(old(View()), SliceRun.S(ts, key, cat, parent))
      ensures index == if key in old(PairView()).id then None else Some(|old(rows)|)
    {
      hide FlatOf;
      var lastFilterId := asyncEventMap.Find(key.first, key.second, key.third);
      if lastFilterId != INVALID_U64 {
        return None;
      }
      asyncEventSize := asyncEventSize + 1;
      asyncEventMap.Insert(key.first, key.second, key.third, asyncEventSize);
      rows := rows + [AsyncRow(ts, key, cat, key.third, Some(parent))];
      asyncEventFilterMap := asyncEventFilterMap[asyncEventSize := |rows| - 1];
      return Some(|rows| - 1);
    }

    method FinishAsyncSlice(ts: nat, key: Key) returns (closed: Option<nat>)
      requires Valid()
      modifies this`rows, this`asyncEventFilterMap, asyncEventMap
      ensures Valid() && View() == SliceRun.Step(old(View()), SliceRun.F(ts, key))
      ensures closed == old(PairView()).Find(key)
    {
      hide FlatOf;
      var lastFilterId := asyncEventMap.Find(key.first, key.second, key.third);
      if lastFilterId == INVALID_U64 {
        return None;
      }
      if lastFilterId !in asyncEventFilterMap {
        return None;
      }
      var lastRow := asyncEventFilterMap[lastFilterId];
      rows := rows[lastRow := rows[lastRow].(dur := ts - rows[lastRow].ts)];
      asyncEventFilterMap := asyncEventFilterMap - {lastFilterId};
      asyncEventMap.Erase(key.first, key.second, key.third);
      return Some(lastRow);
    }

    /** `cat` and `name` are the two halves of the key's name. */
    method StartGEvent(ts: nat, key: Key, cat: DataIndex, name: DataIndex)
      requires Valid()
      modifies this`rows, this`gEventFilterMap, this`gEventSize, gEventMap
      ensures Valid() && View() == SliceRun.Step(old(View()), SliceRun.G(ts, key, cat, name))
    {
      hide FlatOf;
      var ids := gEventMap.Find(key.first, key.second, key.third);
      gEventSize := gEventSize + 1;
      gEventMap.Insert(key.first, key.second, key.third, ids + [gEventSize]);
      rows := rows + [AsyncRow(ts, key, cat, name, None)];
      gEventFilterMap := gEventFilterMap[gEventSize := |rows| - 1];
    }

    method FinishHEvent(ts: nat, key: Key) returns (closed: Option<nat>)
      requires Valid()
      modifies this`rows, this`gEventFilterMap, gEventMap
      ensures Valid() && View() == SliceRun.Step(old(View()), SliceRun.H(ts, key))
      ensures closed == old(PileView()).Find(key)
    {
      hide FlatOf;
      var ids := gEventMap.Find(key.first, key.second, key.third);
      if ids == [] {
        return None;
      }
      var id := ids[|ids| - 1];
      if id !in gEventFilterMap {
        return None;
      }
      var lastRow := gEventFilterMap[id];
      rows := rows[lastRow := rows[lastRow].(dur := ts - rows[lastRow].ts)];
      gEventFilterMap := gEventFilterMap - {id};
      if |ids| == 1 {
        gEventMap.Erase(key.first, key.second, key.third);
      } else {
        gEventMap.Insert(key.first, key.second, key.third, ids[..|ids| - 1]);
      }
      return Some(lastRow);
    }
  }
}
