/** What S, F, G and H events do, told without the filter's ids: a ledger of rows opened and ended. */
module SliceLedger {
  import opened MachineWords
  import opened SliceFilter
  import opened SliceForest
  import opened SliceKeyed
  import opened SliceRun

  /** The open S row of each key, the open G rows of each key (oldest first), the rows ended, all rows. */
  datatype Ledger = Ledger(s: map<Key, nat>, g: map<Key, seq<nat>>, ended: set<nat>, count: nat)
  {
    function Pile(key: Key): seq<nat> {
      if key in g then g[key] else []
    }
  }

  const BLANK := Ledger(map[], map[], {}, 0)

  function LedgerStep(l: Ledger, e: Event): Ledger {
    match e
    case Begin(_, _, _, _) => l.(count := l.count + 1)
    case Point(_, _, _, _) => l.(count := l.count + 1)
    case End(_, _) => l
    case S(_, key, _, _) => if key in l.s then l else l.(s := l.s[key := l.count], count := l.count + 1)
    case F(_, key) => if key in l.s then l.(s := l.s - {key}, ended := l.ended + {l.s[key]}) else l
    case G(_, key, _, _) => l.(g := l.g[key := l.Pile(key) + [l.count]], count := l.count + 1)
    case H(_, key) =>
      var p := l.Pile(key);
      if p == [] then l else l.(g := l.g[key := p[..|p| - 1]], ended := l.ended + {p[|p| - 1]})
  }

  function LedgerOf(events: seq<Event>): Ledger {
    if events == [] then BLANK else LedgerStep(LedgerOf(events[..|events| - 1]), events[|events| - 1])
  }

  ghost predicate StartsOnce(l: Ledger) {
    && (forall key <- l.s :: l.s[key] < l.count && l.s[key] !in l.ended)
    && (forall a, b | a in l.s && b in l.s && l.s[a] == l.s[b] :: a == b)
    && (forall r <- l.ended :: r < l.count)
  }

  ghost predicate PilesOnce(l: Ledger) {
    && (forall key, i | 0 <= i < |l.Pile(key)| :: l.Pile(key)[i] < l.count && l.Pile(key)[i] !in l.ended)
    && (forall a, b, i, j | 0 <= i < |l.Pile(a)| && 0 <= j < |l.Pile(b)| && a != b :: l.Pile(a)[i] != l.Pile(b)[j])
    && (forall key, i, j | 0 <= i < j < |l.Pile(key)| :: l.Pile(key)[i] < l.Pile(key)[j])
  }

  /** No row is listed twice: it is open under one key, or ended; and a pile lists rows oldest first. */
  ghost predicate NoneTwice(l: Ledger) {
    && StartsOnce(l) && PilesOnce(l)
    && (forall a, b, j | a in l.s && 0 <= j < |l.Pile(b)| :: l.s[a] != l.Pile(b)[j])
  }

  lemma PushOnce(l: Ledger, e: Event)
    requires NoneTwice(l) && e.G?
    ensures NoneTwice(LedgerStep(l, e))
  {
    var out := LedgerStep(l, e);
    assert forall key :: out.Pile(key) == if key == e.key then l.Pile(key) + [l.count] else l.Pile(key);
    assert out.s == l.s && out.ended == l.ended && out.count == l.count + 1;
    hide Ledger.Pile, LedgerStep;
  }

  lemma PopOnce(l: Ledger, e: Event)
    requires NoneTwice(l) && e.H?
    ensures NoneTwice(LedgerStep(l, e))
  {
    var p := l.Pile(e.key);
    if p != [] {
      var out := LedgerStep(l, e);
      assert forall key :: out.Pile(key) == if key == e.key then p[..|p| - 1] else l.Pile(key);
      assert out.s == l.s && out.ended == l.ended + {p[|p| - 1]} && out.count == l.count;
      hide Ledger.Pile, LedgerStep;
    }
  }

  lemma OtherOnce(l: Ledger, e: Event)
    requires NoneTwice(l) && !e.G? && !e.H?
    ensures NoneTwice(LedgerStep(l, e))
  {
    hide StartsOnce;
    OtherStarts(l, e);
    var out := LedgerStep(l, e);
    assert forall key :: out.Pile(key) == l.Pile(key);
    OtherLists(l, e);
    hide Ledger.Pile, LedgerStep;
  }

  lemma OtherStarts(l: Ledger, e: Event)
    requires StartsOnce(l) && !e.G? && !e.H?
    ensures StartsOnce(LedgerStep(l, e))
  {
  }

  lemma OtherLists(l: Ledger, e: Event)
    requires !e.G? && !e.H?
    ensures var out := LedgerStep(l, e);
            && out.count >= l.count
            && (forall r <- out.ended :: r in l.ended || (exists key :: key in l.s && l.s[key] == r))
            && (forall key <- out.s :: (key in l.s && out.s[key] == l.s[key]) || out.s[key] == l.count)
  {
  }

  lemma NoneTwiceStep(l: Ledger, e: Event)
    requires NoneTwice(l)
    ensures NoneTwice(LedgerStep(l, e))
  {
    hide NoneTwice;
    match e
    case G(_, _, _, _) => PushOnce(l, e);
    case H(_, _) => PopOnce(l, e);
    case _ => OtherOnce(l, e);
  }

  lemma {:induction false} LedgerNoneTwice(events: seq<Event>)
    ensures NoneTwice(LedgerOf(events))
  {
    if events != [] {
      LedgerNoneTwice(events[..|events| - 1]);
      NoneTwiceStep(LedgerOf(events[..|events| - 1]), events[|events| - 1]);
    }
  }

  // ---------- the table against the ledger ----------

  ghost predicate OpenUnder(rows: seq<SliceRow>, r: nat, key: Key) {
    r < |rows| && rows[r].cookie == Some(key.second) && rows[r].itid == key.first && rows[r].IsOpen()
  }

  /** Rows the ledger lists as open are open rows with their key's thread and cookie. */
  ghost predicate OpenRows(rows: seq<SliceRow>, l: Ledger) {
    && (forall key <- l.s :: OpenUnder(rows, l.s[key], key) && rows[l.s[key]].name == key.third)
    && (forall key, i | 0 <= i < |l.Pile(key)| :: OpenUnder(rows, l.Pile(key)[i], key))
  }

  ghost predicate Listed(l: Ledger, r: nat) {
    r in l.ended || (exists key :: key in l.s && l.s[key] == r) || (exists key :: r in l.Pile(key))
  }

  /** The ledger lists every keyed row. */
  ghost predicate AllListed(rows: seq<SliceRow>, l: Ledger) {
    |rows| == l.count && forall r | 0 <= r < |rows| && !rows[r].IsSync() :: Listed(l, r)
  }

  ghost predicate StacksSync(s: Stacks)
    requires s.InRange()
  {
    forall t, k | t in s.stackOf && 0 <= k < |s.stackOf[t]| :: s.rows[s.stackOf[t][k]].IsSync()
  }

  ghost predicate MapsAgree(s: State, l: Ledger) {
    PairsOk(s.pairs) && PilesOk(s.piles) && OpenRow(s.pairs) == l.s
    && forall key :: OpenPile(s.piles, key) == l.Pile(key)
  }

  ghost predicate Keeps(s: State, l: Ledger) {
    s.InRange() && MapsAgree(s, l) && OpenRows(s.stacks.rows, l) && AllListed(s.stacks.rows, l) && StacksSync(s.stacks)
  }

  /** A stacked event appends or closes a stacked row only. */
  ghost predicate OnlySync(rows: seq<SliceRow>, out: seq<SliceRow>) {
    && |rows| <= |out|
    && (forall r | 0 <= r < |rows| :: out[r].IsSync() == rows[r].IsSync() && (!rows[r].IsSync() ==> out[r] == rows[r]))
    && (forall r | |rows| <= r < |out| :: out[r].IsSync())
  }

  lemma StartOnlySync(s: Stacks, ts: nat, dur: int, t: U32, cat: DataIndex, name: DataIndex)
    requires s.InRange() && StacksSync(s)
    ensures var out := s.Start(ts, dur, t, cat, name).0;
            OnlySync(s.rows, out.rows) && |out.rows| == |s.rows| + 1 && StacksSync(out)
  {
    var stack := CloseUnmatched(s.rows, s.Stack(t), ts);
    assert forall k | 0 <= k < |stack| :: stack[k] == s.Stack(t)[k] && s.rows[stack[k]].IsSync();
    hide CloseUnmatched;
  }

  lemma CompleteOnlySync(s: Stacks, ts: nat, t: U32, cat: DataIndex, name: DataIndex)
    requires s.InRange() && StacksSync(s)
    ensures var out := s.Complete(ts, t, cat, name).0;
            OnlySync(s.rows, out.rows) && |out.rows| == |s.rows| && StacksSync(out)
  {
  }

  lemma SyncKeeps(s: State, l: Ledger, out: Stacks)
    requires Keeps(s, l) && out.InRange() && OnlySync(s.stacks.rows, out.rows) && StacksSync(out)
    ensures Keeps(s.(stacks := out), l.(count := |out.rows|))
  {
    hide PairsOk, PilesOk, StacksSync;
    var l' := l.(count := |out.rows|);
    assert forall key :: l'.Pile(key) == l.Pile(key);
    hide Ledger.Pile;
    forall r | 0 <= r < |out.rows| && !out.rows[r].IsSync() ensures Listed(l', r) {
      assert Listed(l, r);
    }
  }

  lemma StackedKeeps(s: State, l: Ledger, e: Event)
    requires Keeps(s, l) && (e.Begin? || e.End? || e.Point?)
    ensures Keeps(Step(s, e), LedgerStep(l, e))
  {
    hide MapsAgree, OpenRows, StacksSync;
    match e {
      case Begin(ts, t, cat, name) => StartOnlySync(s.stacks, ts, OPEN, t, cat, name);
      case Point(ts, t, cat, name) => StartOnlySync(s.stacks, ts, 0, t, cat, name);
      case End(ts, t) => CompleteOnlySync(s.stacks, ts, t, INVALID_U64, INVALID_U64);
    }
    SyncKeeps(s, l, Step(s, e).stacks);
  }

  // ---------- keyed events: the table ----------

  /** A new keyed row is open under its key, and the old ones stay as they were. */
  lemma AppendListed(rows: seq<SliceRow>, l: Ledger, e: Event, row: SliceRow)
    requires OpenRows(rows, l) && AllListed(rows, l)
    requires (e.S? && e.key !in l.s && row.name == e.key.third) || e.G?
    requires row.cookie == Some(e.key.second) && row.itid == e.key.first && row.IsOpen()
    ensures OpenRows(rows + [row], LedgerStep(l, e)) && AllListed(rows + [row], LedgerStep(l, e))
  {
    var out, l' := rows + [row], LedgerStep(l, e);
    assert forall key :: l'.Pile(key) == if e.G? && key == e.key then l.Pile(key) + [l.count] else l.Pile(key);
    assert l'.s == (if e.S? then l.s[e.key := l.count] else l.s) && l'.ended == l.ended && l'.count == l.count + 1;
    hide Ledger.Pile, LedgerStep;
    forall r | 0 <= r < |out| && !out[r].IsSync() ensures Listed(l', r) {
      if r < |rows| {
        assert Listed(l, r);
        if exists key :: r in l.Pile(key) {
          var key :| r in l.Pile(key);
          assert r in l'.Pile(key);
        } else if exists key :: key in l.s && l.s[key] == r {
          var key :| key in l.s && l.s[key] == r;
          assert l'.s[key] == r;
        }
      } else {
        assert if e.S? then l'.s[e.key] == r else l'.Pile(e.key)[|l.Pile(e.key)|] == r;
      }
    }
  }

  /** The row that an F or H event closes. */
  ghost predicate Ends(l: Ledger, e: Event, r: nat) {
    (e.F? && e.key in l.s && l.s[e.key] == r)
    || (e.H? && l.Pile(e.key) != [] && l.Pile(e.key)[|l.Pile(e.key)| - 1] == r)
  }

  lemma LedgerEnds(l: Ledger, e: Event, r: nat)
    requires Ends(l, e, r)
    ensures var l' := LedgerStep(l, e);
            l'.s == (if e.F? then l.s - {e.key} else l.s) && l'.ended == l.ended + {r} && l'.count == l.count
            && forall key :: l'.Pile(key) == if e.H? && key == e.key then l.Pile(key)[..|l.Pile(key)| - 1]
                 else l.Pile(key)
  {
  }

  /** After the close the row is listed open nowhere, and no other open row has changed. */
  lemma CloseOpenRows(rows: seq<SliceRow>, l: Ledger, e: Event, r: nat)
    requires OpenRows(rows, l) && NoneTwice(l) && Ends(l, e, r)
    ensures r < |rows| && OpenRows(Closed(rows, r, e.ts), LedgerStep(l, e))
  {
    LedgerEnds(l, e, r);
    hide Ledger.Pile, LedgerStep;
  }

  lemma CloseAllListed(rows: seq<SliceRow>, l: Ledger, e: Event, r: nat)
    requires r < |rows| && AllListed(rows, l) && Ends(l, e, r)
    ensures AllListed(Closed(rows, r, e.ts), LedgerStep(l, e))
  {
    var out, l' := Closed(rows, r, e.ts), LedgerStep(l, e);
    LedgerEnds(l, e, r);
    hide Ledger.Pile, LedgerStep;
    forall x | 0 <= x < |out| && !out[x].IsSync() ensures Listed(l', x) {
      assert Listed(l, x);
      if x != r && exists key :: x in l.Pile(key) {
        var key :| x in l.Pile(key);
        assert x in l'.Pile(key);
      } else if x != r && exists key :: key in l.s && l.s[key] == x {
        var key :| key in l.s && l.s[key] == x;
        assert l'.s[key] == x;
      }
    }
  }

  // ---------- keyed events: the maps ----------

  lemma AppendStacksSync(s: Stacks, row: SliceRow)
    requires s.InRange() && StacksSync(s)
    ensures StacksSync(AppendRow(s, row))
  {
  }

  lemma SKeeps(s: State, l: Ledger, e: Event)
    requires Keeps(s, l) && e.S?
    ensures Keeps(Step(s, e), LedgerStep(l, e))
  {
    assert |s.stacks.rows| == l.count;
    hide PilesOk, OpenRows, AllListed, StacksSync;
    assert e.key in s.pairs.id <==> e.key in l.s;
    if e.key !in l.s {
      PairsOpenRefines(s.pairs, e.key, |s.stacks.rows|);
      AppendListed(s.stacks.rows, l, e, AsyncRow(e.ts, e.key, e.cat, e.key.third, Some(e.parent)));
      assert forall key :: LedgerStep(l, e).Pile(key) == l.Pile(key);
      AppendStacksSync(s.stacks, AsyncRow(e.ts, e.key, e.cat, e.key.third, Some(e.parent)));
    }
  }

  lemma FKeeps(s: State, l: Ledger, e: Event)
    requires Keeps(s, l) && NoneTwice(l) && e.F?
    ensures Keeps(Step(s, e), LedgerStep(l, e))
    ensures s.pairs.Find(e.key) == if e.key in l.s then Some(l.s[e.key]) else None
  {
    hide PairsOk, PilesOk, OpenRows, AllListed, NoneTwice, OpenPile, OpenRow;
    PairsCloseRefines(s.pairs, e.key);
    if e.key in l.s {
      CloseOpenRows(s.stacks.rows, l, e, l.s[e.key]);
      CloseAllListed(s.stacks.rows, l, e, l.s[e.key]);
    }
  }

  lemma GKeeps(s: State, l: Ledger, e: Event)
    requires Keeps(s, l) && e.G?
    ensures Keeps(Step(s, e), LedgerStep(l, e))
  {
    hide PairsOk, PilesOk, OpenRows, Listed, OpenPile, Ledger.Pile, Piles.Open;
    AppendListed(s.stacks.rows, l, e, AsyncRow(e.ts, e.key, e.cat, e.name, None));
    GPiles(s, l, e);
  }

  lemma GPiles(s: State, l: Ledger, e: Event)
    requires PilesOk(s.piles) && (forall key :: OpenPile(s.piles, key) == l.Pile(key)) && e.G?
    requires |s.stacks.rows| == l.count
    ensures var p := s.piles.Open(e.key, |s.stacks.rows|);
            PilesOk(p) && forall x :: OpenPile(p, x) == LedgerStep(l, e).Pile(x)
  {
    hide PilesOk, OpenPile, Piles.Open;
    var p := s.piles.Open(e.key, |s.stacks.rows|);
    PilesOpenRefines(s.piles, e.key, |s.stacks.rows|, e.key);
    forall x ensures OpenPile(p, x) == LedgerStep(l, e).Pile(x) {
      PilesOpenRefines(s.piles, e.key, |s.stacks.rows|, x);
    }
  }

  lemma HKeeps(s: State, l: Ledger, e: Event)
    requires Keeps(s, l) && NoneTwice(l) && e.H?
    ensures Keeps(Step(s, e), LedgerStep(l, e))
    ensures s.piles.Find(e.key) == if l.Pile(e.key) == [] then None else Some(l.Pile(e.key)[|l.Pile(e.key)| - 1])
  {
    hide PairsOk, PilesOk, OpenRows, AllListed, NoneTwice, OpenPile, OpenRow;
    PilesCloseRefines(s.piles, e.key, e.key);
    var p := l.Pile(e.key);
    if p != [] {
      CloseOpenRows(s.stacks.rows, l, e, p[|p| - 1]);
      CloseAllListed(s.stacks.rows, l, e, p[|p| - 1]);
      forall x ensures OpenPile(s.piles.Close(e.key), x) == LedgerStep(l, e).Pile(x) {
        PilesCloseRefines(s.piles, e.key, x);
      }
    }
  }

  lemma {:induction false} RunKeeps(events: seq<Event>)
    ensures Keeps(Run(events), LedgerOf(events))
  {
    if events != [] {
      var rest, e := events[..|events| - 1], events[|events| - 1];
      RunKeeps(rest);
      LedgerNoneTwice(rest);
      hide Keeps, NoneTwice;
      match e
      case S(_, _, _, _) => SKeeps(Run(rest), LedgerOf(rest), e);
      case F(_, _) => FKeeps(Run(rest), LedgerOf(rest), e);
      case G(_, _, _, _) => GKeeps(Run(rest), LedgerOf(rest), e);
      case H(_, _) => HKeeps(Run(rest), LedgerOf(rest), e);
      case _ => StackedKeeps(Run(rest), LedgerOf(rest), e);
    }
  }

  // ---------- theorems ----------

  /**
   * Over every run, F closes the row opened by the S event that holds its key, which has not been closed
   * before; without such an S it changes nothing. An id always leads to a row.
   */
  lemma FClosesItsS(events: seq<Event>, ts: nat, key: Key)
    ensures var s, l, out := Run(events), LedgerOf(events), Step(Run(events), F(ts, key));
            && (key in s.pairs.id ==> s.pairs.id[key] in s.pairs.row)
            && if key in l.s then
                 var r := l.s[key];
                 OpenUnder(s.stacks.rows, r, key) && s.stacks.rows[r].name == key.third && r !in l.ended
                 && out.stacks.rows == Closed(s.stacks.rows, r, ts)
               else out == s
  {
    RunKeeps(events);
    LedgerNoneTwice(events);
    FKeeps(Run(events), LedgerOf(events), F(ts, key));
  }

  /** H closes the newest row of its key's pile. */
  ghost predicate ClosesNewest(s: State, l: Ledger, ts: nat, key: Key)
    requires s.InRange()
  {
    var p, out := l.Pile(key), Step(s, H(ts, key));
    if p != [] then
      var r := p[|p| - 1];
      OpenUnder(s.stacks.rows, r, key) && r !in l.ended && (forall i | 0 <= i < |p| :: p[i] <= r)
      && out.stacks.rows == Closed(s.stacks.rows, r, ts)
    else out == s
  }

  lemma HCloses(s: State, l: Ledger, ts: nat, key: Key)
    requires Keeps(s, l) && NoneTwice(l)
    ensures ClosesNewest(s, l, ts, key)
  {
    HKeeps(s, l, H(ts, key));
    hide StacksSync, AllListed, PairsOk, PilesOk, StartsOnce, Ledger.Pile;
  }

  /** Over every run, H closes the most recently opened of the open G rows of its key, which has not been closed
    * before. */
  lemma HClosesLatestG(events: seq<Event>, ts: nat, key: Key)
    ensures ClosesNewest(Run(events), LedgerOf(events), ts, key)
    ensures var piles := Run(events).piles;
            key in piles.id ==> piles.id[key] != [] && piles.id[key][|piles.id[key]| - 1] in piles.row
  {
    RunKeeps(events);
    LedgerNoneTwice(events);
    HCloses(Run(events), LedgerOf(events), ts, key);
    hide ClosesNewest, NoneTwice;
  }

  /** Every keyed row is open under exactly one key or has been ended, and none is ended twice. */
  lemma KeyedRowsAccounted(events: seq<Event>, r: nat)
    requires r < |Run(events).stacks.rows| && !Run(events).stacks.rows[r].IsSync()
    ensures Listed(LedgerOf(events), r) && NoneTwice(LedgerOf(events))
  {
    RunKeeps(events);
    LedgerNoneTwice(events);
  }
}
