/** Conversion of timestamps between clocks through snapshots. */
module ClockFilter {
  import opened MachineWords
  import opened Decimal

  /** An ordered map from source time to a signed 64-bit offset, as its entries in key order. */
  datatype Entry = Entry(ts: U64, offset: int)

  type Maps = map<string, seq<Entry>>

  ghost predicate Ordered(m: seq<Entry>) {
    forall i, j | 0 <= i < j < |m| :: m[i].ts < m[j].ts
  }

  /** std::map::insert: an entry already there stays. */
  function Insert(m: seq<Entry>, e: Entry): (r: seq<Entry>) {
    if m == [] || e.ts < m[0].ts then [e] + m
    else if e.ts == m[0].ts then m
    else [m[0]] + Insert(m[1..], e)
  }

  /** std::map::upper_bound: the first entry with a later key. */
  function UpperBound(m: seq<Entry>, ts: U64): (k: nat)
    ensures k <= |m| && (forall i | 0 <= i < k :: m[i].ts <= ts) && (k < |m| ==> m[k].ts > ts)
  {
    if m == [] || m[0].ts > ts then 0 else 1 + UpperBound(m[1..], ts)
  }

  function GenClockKey(src: U32, des: U32): string {
    Printed(src) + ("," + Printed(des))
  }

  /** The unsigned difference stored as a signed number. */
  function Signed64(x: U64): int {
    if x < 0x8000_0000_0000_0000 then x else x - TWO64
  }

  /** Adding a non-negative offset or subtracting the negated one, in unsigned arithmetic. */
  function Shift(ts: U64, offset: int): U64
    requires -0x8000_0000_0000_0000 <= offset < 0x8000_0000_0000_0000
  {
    if offset >= 0 then Add64(ts, offset) else Sub64(ts, -offset)
  }

  ghost predicate Narrow(m: seq<Entry>) {
    forall i | 0 <= i < |m| :: -0x8000_0000_0000_0000 <= m[i].offset < 0x8000_0000_0000_0000
  }

  /** Every ordered map has at least one entry and signed 64-bit offsets. */
  ghost predicate Valid(maps: Maps) {
    forall key <- maps :: maps[key] != [] && Narrow(maps[key])
  }

  function Convert(maps: Maps, src: U32, ts: U64, des: U32): (r: U64)
    requires Valid(maps)
  {
    var key := GenClockKey(src, des);
    if key !in maps then ts
    else
      var k := UpperBound(maps[key], ts);
      Shift(ts, maps[key][if k > 0 then k - 1 else 0].offset)
  }

  /** One AddConvertClockMap call. */
  datatype Link = Link(src: U32, des: U32, srcTs: U64, desTs: U64)

  function Add(maps: Maps, l: Link): (r: Maps) {
    var key := GenClockKey(l.src, l.des);
    maps[key := Insert(if key in maps then maps[key] else [], Entry(l.srcTs, Signed64(Sub64(l.desTs, l.srcTs))))]
  }

  function AddAll(maps: Maps, ls: seq<Link>): (r: Maps)
    decreases |ls|
  {
    if ls == [] then maps else AddAll(Add(maps, ls[0]), ls[1..])
  }

  datatype SnapShot = SnapShot(clock: U32, ts: U64)

  function Between(a: SnapShot, b: SnapShot): Link {
    Link(a.clock, b.clock, a.ts, b.ts)
  }

  /** The calls that the nested loops of AddClockSnapshot still make from position (i, j). */
  function LinksFrom(snap: seq<SnapShot>, i: nat, j: nat): (ls: seq<Link>)
    requires i < j
    decreases |snap| - i, |snap| - j
  {
    if i + 1 >= |snap| then []
    else if j >= |snap| then LinksFrom(snap, i + 1, i + 2)
    else [Between(snap[i], snap[j]), Between(snap[j], snap[i])] + LinksFrom(snap, i, j + 1)
  }

  function Links(snap: seq<SnapShot>): seq<Link> {
    LinksFrom(snap, 0, 1)
  }

  function LinksOf(snaps: seq<seq<SnapShot>>): seq<Link> {
    if snaps == [] then [] else Links(snaps[0]) + LinksOf(snaps[1..])
  }

  // ---------- shifting is addition modulo 2^64 ----------

  lemma ShiftAdds(ts: U64, x: U64)
    ensures Shift(ts, Signed64(x)) == Add64(ts, x)
  {
  }

  lemma KeysApart(a: U32, b: U32, a': U32, b': U32)
    requires GenClockKey(a, b) == GenClockKey(a', b')
    ensures a == a' && b == b'
  {
    PrintedApart(a, a', "," + Printed(b), "," + Printed(b'));
    assert Printed(b) == ("," + Printed(b))[1..] && Printed(b') == ("," + Printed(b'))[1..];
    ValueOfDigits(b);
    ValueOfDigits(b');
  }

  // ---------- the entry a lookup finds ----------

  lemma HeadLeast(m: seq<Entry>)
    requires Ordered(m) && m != []
    ensures Ordered(m[1..]) && forall x <- m[1..] :: x.ts > m[0].ts
  {
  }

  lemma Prepend(e: Entry, m: seq<Entry>)
    requires Ordered(m) && forall x <- m :: x.ts > e.ts
    ensures Ordered([e] + m)
  {
  }

  ghost predicate HasTs(m: seq<Entry>, ts: U64) {
    exists x <- m :: x.ts == ts
  }

  lemma {:induction false} InsertMembers(m: seq<Entry>, e: Entry)
    ensures forall x <- Insert(m, e) :: x in m || x == e
    ensures forall x <- m :: x in Insert(m, e)
    ensures HasTs(Insert(m, e), e.ts)
    decreases |m|
  {
    if m == [] || e.ts < m[0].ts {
      assert e in [e] + m;
    } else if e.ts == m[0].ts {
      assert m[0] in m;
    } else {
      InsertMembers(m[1..], e);
      var x :| x in Insert(m[1..], e) && x.ts == e.ts;
      assert x in Insert(m, e);
      assert m == [m[0]] + m[1..];
    }
  }

  lemma {:induction false} InsertOrdered(m: seq<Entry>, e: Entry)
    requires Ordered(m)
    ensures Ordered(Insert(m, e))
    decreases |m|
  {
    if m != [] {
      HeadLeast(m);
      if e.ts < m[0].ts {
        assert m == [m[0]] + m[1..];
        Prepend(e, m);
      } else if e.ts > m[0].ts {
        InsertOrdered(m[1..], e);
        InsertMembers(m[1..], e);
        Prepend(m[0], Insert(m[1..], e));
      }
    }
  }

  // ---------- what a run of calls leaves behind ----------

  function EntryOf(l: Link): Entry {
    Entry(l.srcTs, Signed64(Sub64(l.desTs, l.srcTs)))
  }

  /** The map of one pair of clocks holds entries of links between them, one for each source time. */
  ghost predicate Holds(maps: Maps, ls: seq<Link>, a: U32, b: U32) {
    var m := Table(maps, a, b);
    && Ordered(m)
    && (forall e <- m :: exists l <- ls :: l.src == a && l.des == b && e == EntryOf(l))
    && (forall l <- ls | l.src == a && l.des == b :: HasTs(m, l.srcTs))
  }

  function Table(maps: Maps, a: U32, b: U32): seq<Entry> {
    var key := GenClockKey(a, b);
    if key in maps then maps[key] else []
  }

  lemma TableAdd(maps: Maps, l: Link, a: U32, b: U32)
    ensures Table(Add(maps, l), a, b)
         == if l.src == a && l.des == b then Insert(Table(maps, a, b), EntryOf(l)) else Table(maps, a, b)
  {
    hide GenClockKey;
    if GenClockKey(l.src, l.des) == GenClockKey(a, b) {
      KeysApart(l.src, l.des, a, b);
    }
  }

  lemma AddHolds(maps: Maps, done: seq<Link>, l: Link, a: U32, b: U32)
    requires Holds(maps, done, a, b)
    ensures Holds(Add(maps, l), done + [l], a, b)
  {
    hide Ordered, HasTs, Add, Table, EntryOf;
    TableAdd(maps, l, a, b);
    var m := Table(maps, a, b);
    if l.src == a && l.des == b {
      InsertOrdered(m, EntryOf(l));
      InsertMembers(m, EntryOf(l));
      HoldsInsert(m, done, l, a, b);
    } else {
      assert forall e <- m :: exists k <- done + [l] :: k.src == a && k.des == b && e == EntryOf(k);
    }
  }

  lemma HoldsInsert(m: seq<Entry>, done: seq<Link>, l: Link, a: U32, b: U32)
    requires forall e <- m :: exists k <- done :: k.src == a && k.des == b && e == EntryOf(k)
    requires forall k <- done | k.src == a && k.des == b :: HasTs(m, k.srcTs)
    requires l.src == a && l.des == b
    ensures var r := Insert(m, EntryOf(l));
            && (forall e <- r :: exists k <- done + [l] :: k.src == a && k.des == b && e == EntryOf(k))
            && (forall k <- done + [l] | k.src == a && k.des == b :: HasTs(r, k.srcTs))
  {
    InsertMembers(m, EntryOf(l));
    var r := Insert(m, EntryOf(l));
    hide Insert;
    forall e <- r ensures exists k <- done + [l] :: k.src == a && k.des == b && e == EntryOf(k) {
      if e == EntryOf(l) {
        assert l in done + [l];
      } else {
        var k :| k in done && k.src == a && k.des == b && e == EntryOf(k);
        assert k in done + [l];
      }
    }
    forall k <- done + [l] | k.src == a && k.des == b ensures HasTs(r, k.srcTs) {
      if k in done {
        var x :| x in m && x.ts == k.srcTs;
        assert x in r;
      }
    }
  }

  lemma {:induction false} AddAllHolds(maps: Maps, done: seq<Link>, ls: seq<Link>, a: U32, b: U32)
    requires Holds(maps, done, a, b)
    ensures Holds(AddAll(maps, ls), done + ls, a, b)
    decreases |ls|
  {
    hide Holds, Add;
    if ls == [] {
      assert done + ls == done;
    } else {
      AddHolds(maps, done, ls[0], a, b);
      AddAllHolds(Add(maps, ls[0]), done + [ls[0]], ls[1..], a, b);
      assert done + ls == done + [ls[0]] + ls[1..];
    }
  }

  lemma AddValid(maps: Maps, l: Link)
    requires Valid(maps)
    ensures Valid(Add(maps, l))
  {
    var key := GenClockKey(l.src, l.des);
    var m := if key in maps then maps[key] else [];
    InsertMembers(m, EntryOf(l));
    var r := Insert(m, EntryOf(l));
    hide Insert;
    assert forall i | 0 <= i < |r| :: r[i] in r;
    assert Narrow(m);
    assert Narrow(r);
  }

  lemma {:induction false} AddAllValid(maps: Maps, ls: seq<Link>)
    requires Valid(maps)
    ensures Valid(AddAll(maps, ls))
    decreases |ls|
  {
    if ls != [] {
      AddValid(maps, ls[0]);
      AddAllValid(Add(maps, ls[0]), ls[1..]);
    }
  }

  /** Link l is the latest one from a to b not after ts or, when all of them are after it, the earliest. */
  ghost predicate Governs(ls: seq<Link>, a: U32, b: U32, ts: U64, l: Link) {
    && l in ls && l.src == a && l.des == b
    && if l.srcTs <= ts then
         forall k <- ls | k.src == a && k.des == b && k != l :: k.srcTs < l.srcTs || k.srcTs > ts
       else
         forall k <- ls | k.src == a && k.des == b :: k.srcTs > ts && (k != l ==> k.srcTs > l.srcTs)
  }

  lemma ConvertUses(ls: seq<Link>, a: U32, b: U32, ts: U64, l: Link)
    requires Governs(ls, a, b, ts, l)
    ensures Valid(AddAll(map[], ls))
    ensures Convert(AddAll(map[], ls), a, ts, b) == Add64(ts, Sub64(l.desTs, l.srcTs))
  {
    hide AddAll, GenClockKey;
    var maps := AddAll(map[], ls);
    AddAllValid(map[], ls);
    AddAllHolds(map[], [], ls, a, b);
    assert [] + ls == ls;
    PicksGoverning(Table(maps, a, b), ls, a, b, ts, l);
    ShiftAdds(ts, Sub64(l.desTs, l.srcTs));
  }

  lemma PicksGoverning(m: seq<Entry>, ls: seq<Link>, a: U32, b: U32, ts: U64, l: Link)
    requires Governs(ls, a, b, ts, l) && Ordered(m)
    requires forall e <- m :: exists k <- ls :: k.src == a && k.des == b && e == EntryOf(k)
    requires HasTs(m, l.srcTs)
    ensures m != [] && var k := UpperBound(m, ts); m[if k > 0 then k - 1 else 0] == EntryOf(l)
  {
    hide UpperBound, Ordered, HasTs;
    Position(m, ts, l.srcTs);
    var k := UpperBound(m, ts);
    var e := m[if k > 0 then k - 1 else 0];
    var l' :| l' in ls && l'.src == a && l'.des == b && e == EntryOf(l');
    assert l'.srcTs == e.ts;
    assert l' == l;
  }

  /** The entry before the upper bound is the last one not after ts; without one the first entry is taken. */
  lemma Position(m: seq<Entry>, ts: U64, x: U64)
    requires Ordered(m) && HasTs(m, x)
    ensures m != [] && var k := UpperBound(m, ts);
            var e := m[if k > 0 then k - 1 else 0];
            e in m && (x <= ts ==> x <= e.ts <= ts) && (e.ts > ts ==> e.ts <= x)
  {
    var y :| y in m && y.ts == x;
    var i :| 0 <= i < |m| && m[i] == y;
    var k := UpperBound(m, ts);
    hide UpperBound;
    assert x <= ts ==> i < k by {
      if k < |m| && k < i { assert m[k].ts < m[i].ts; }
    }
  }

  // ---------- snapshots ----------

  ghost predicate DistinctClocks(snap: seq<SnapShot>) {
    forall p, q | 0 <= p < q < |snap| :: snap[p].clock != snap[q].clock
  }

  ghost predicate Linked(snap: seq<SnapShot>, l: Link) {
    exists p, q | 0 <= p < |snap| && 0 <= q < |snap| && p != q :: l == Between(snap[p], snap[q])
  }

  lemma {:induction false} LinksSound(snap: seq<SnapShot>, i: nat, j: nat)
    requires i < j
    ensures forall l <- LinksFrom(snap, i, j) :: Linked(snap, l)
    decreases |snap| - i, |snap| - j
  {
    if i + 1 < |snap| {
      if j >= |snap| {
        LinksSound(snap, i + 1, i + 2);
      } else {
        LinksSound(snap, i, j + 1);
        assert Linked(snap, Between(snap[i], snap[j])) && Linked(snap, Between(snap[j], snap[i]));
      }
    }
  }

  lemma {:induction false} LinksComplete(snap: seq<SnapShot>, i: nat, j: nat, p: nat, q: nat)
    requires i < j && p < q < |snap| && (p > i || (p == i && q >= j))
    ensures Between(snap[p], snap[q]) in LinksFrom(snap, i, j) && Between(snap[q], snap[p]) in LinksFrom(snap, i, j)
    decreases |snap| - i, |snap| - j
  {
    if j >= |snap| {
      LinksComplete(snap, i + 1, i + 2, p, q);
    } else if p > i || q > j {
      LinksComplete(snap, i, j + 1, p, q);
    }
  }

  /** The time a snapshot gives for a clock. */
  ghost predicate Shows(snap: seq<SnapShot>, clock: U32, ts: U64) {
    SnapShot(clock, ts) in snap
  }

  lemma ShowsOne(snap: seq<SnapShot>, clock: U32, ts: U64, ts': U64)
    requires DistinctClocks(snap) && Shows(snap, clock, ts) && Shows(snap, clock, ts')
    ensures ts == ts'
  {
  }

  lemma LinksAreShown(snap: seq<SnapShot>, l: Link)
    requires DistinctClocks(snap)
    ensures l in Links(snap) <==> l.src != l.des && Shows(snap, l.src, l.srcTs) && Shows(snap, l.des, l.desTs)
  {
    LinksSound(snap, 0, 1);
    hide LinksFrom;
    if l in Links(snap) {
      assert Linked(snap, l);
    }
    if l.src != l.des && Shows(snap, l.src, l.srcTs) && Shows(snap, l.des, l.desTs) {
      var p :| 0 <= p < |snap| && snap[p] == SnapShot(l.src, l.srcTs);
      var q :| 0 <= q < |snap| && snap[q] == SnapShot(l.des, l.desTs);
      if p < q { LinksComplete(snap, 0, 1, p, q); } else { LinksComplete(snap, 0, 1, q, p); }
    }
  }

  lemma OwnClock(snap: seq<SnapShot>, a: U32, ts: U64)
    requires DistinctClocks(snap)
    ensures Valid(AddAll(map[], Links(snap))) && Convert(AddAll(map[], Links(snap)), a, ts, a) == ts
  {
    hide AddAll, Links, DistinctClocks, Shows, GenClockKey, EntryOf;
    var ls := Links(snap);
    AddAllValid(map[], ls);
    AddAllHolds(map[], [], ls, a, a);
    assert [] + ls == ls;
    forall l | l in ls ensures l.src != l.des {
      LinksAreShown(snap, l);
    }
    TableFromLinks(Table(AddAll(map[], ls), a, a), ls, a);
  }

  /** With one snapshot a conversion adds the difference of the two clocks, modulo 2^64. */
  lemma OneSnapshot(snap: seq<SnapShot>, a: SnapShot, b: SnapShot, ts: U64)
    requires DistinctClocks(snap) && a in snap && b in snap
    ensures Valid(AddAll(map[], Links(snap)))
    ensures Convert(AddAll(map[], Links(snap)), a.clock, ts, b.clock) == Add64(ts, Sub64(b.ts, a.ts))
  {
    hide AddAll, Links, DistinctClocks, Convert;
    if a.clock == b.clock {
      ShowsOne(snap, a.clock, a.ts, b.ts);
      OwnClock(snap, a.clock, ts);
    } else {
      var ls, l := Links(snap), Between(a, b);
      LinksAreShown(snap, l);
      forall k <- ls | k.src == a.clock && k.des == b.clock ensures k == l {
        LinksAreShown(snap, k);
        ShowsOne(snap, a.clock, a.ts, k.srcTs);
        ShowsOne(snap, b.clock, b.ts, k.desTs);
      }
      ConvertUses(ls, a.clock, b.clock, ts, l);
    }
  }

  lemma TableFromLinks(m: seq<Entry>, ls: seq<Link>, a: U32)
    requires forall e <- m :: exists k <- ls :: k.src == a && k.des == a && e == EntryOf(k)
    ensures m == [] || exists k <- ls :: k.src == a && k.des == a
  {
    if m != [] {
      assert m[0] in m;
    }
  }

  /** There and back is the identity, and going by way of a third clock changes nothing. */
  lemma OneSnapshotComposes(snap: seq<SnapShot>, a: SnapShot, b: SnapShot, c: SnapShot, ts: U64)
    requires DistinctClocks(snap) && a in snap && b in snap && c in snap
    ensures Valid(AddAll(map[], Links(snap)))
    ensures var maps := AddAll(map[], Links(snap));
            var there := Convert(maps, a.clock, ts, b.clock);
            && Convert(maps, b.clock, there, a.clock) == ts
            && Convert(maps, b.clock, there, c.clock) == Convert(maps, a.clock, ts, c.clock)
  {
    hide AddAll, Convert, Links;
    OneSnapshot(snap, a, b, ts);
    OneSnapshot(snap, a, c, ts);
    var there := Add64(ts, Sub64(b.ts, a.ts));
    OneSnapshot(snap, b, a, there);
    OneSnapshot(snap, b, c, there);
  }

  // ---------- several snapshots ----------

  /** Adding snapshots one after the other makes the calls of all of them in turn. */
  lemma {:induction false} SnapshotsInTurn(maps: Maps, ls: seq<Link>, ms: seq<Link>)
    ensures AddAll(AddAll(maps, ls), ms) == AddAll(maps, ls + ms)
    decreases |ls|
  {
    hide Add;
    if ls == [] {
      assert ls + ms == ms;
    } else {
      assert (ls + ms)[1..] == ls[1..] + ms;
      SnapshotsInTurn(Add(maps, ls[0]), ls[1..], ms);
    }
  }

  /** Snapshot k shows clock a at x and clock b at y. */
  ghost predicate Pairs(snaps: seq<seq<SnapShot>>, k: nat, a: U32, b: U32, x: U64, y: U64) {
    k < |snaps| && Shows(snaps[k], a, x) && Shows(snaps[k], b, y)
  }

  lemma PairsOne(snaps: seq<seq<SnapShot>>, k: nat, j: nat, a: U32, b: U32, x: U64, y: U64, x': U64, y': U64)
    requires forall i | 0 <= i < |snaps| :: DistinctClocks(snaps[i])
    requires Pairs(snaps, k, a, b, x, y) && Pairs(snaps, j, a, b, x', y')
    ensures j == k ==> x == x' && y == y'
  {
    if j == k {
      ShowsOne(snaps[k], a, x, x');
      ShowsOne(snaps[k], b, y, y');
    }
  }

  lemma {:induction false} LinksOfMembers(snaps: seq<seq<SnapShot>>, l: Link)
    requires forall k | 0 <= k < |snaps| :: DistinctClocks(snaps[k])
    ensures l in LinksOf(snaps) <==> l.src != l.des && exists k :: Pairs(snaps, k, l.src, l.des, l.srcTs, l.desTs)
    decreases |snaps|
  {
    if snaps != [] {
      LinksAreShown(snaps[0], l);
      LinksOfMembers(snaps[1..], l);
      hide Links, Shows;
      if k: nat :| Pairs(snaps[1..], k, l.src, l.des, l.srcTs, l.desTs) {
        assert Pairs(snaps, k + 1, l.src, l.des, l.srcTs, l.desTs);
      }
      if k: nat :| Pairs(snaps, k, l.src, l.des, l.srcTs, l.desTs) {
        if k > 0 { assert Pairs(snaps[1..], k - 1, l.src, l.des, l.srcTs, l.desTs); }
      }
      if l in Links(snaps[0]) {
        assert Pairs(snaps, 0, l.src, l.des, l.srcTs, l.desTs);
      }
    }
  }

  /** Snapshot k is the latest one not after ts on clock a, or the earliest when all are after it. */
  ghost predicate Latest(snaps: seq<seq<SnapShot>>, a: U32, b: U32, ts: U64, k: nat, x: U64, y: U64) {
    && Pairs(snaps, k, a, b, x, y)
    && forall k': nat, x': U64, y': U64 | Pairs(snaps, k', a, b, x', y') && k' != k ::
         if x <= ts then x' < x || x' > ts else x' > ts && x' > x
  }

  /** With several snapshots a conversion uses the latest one. */
  lemma LatestSnapshot(snaps: seq<seq<SnapShot>>, a: U32, b: U32, ts: U64, k: nat, x: U64, y: U64)
    requires (forall i | 0 <= i < |snaps| :: DistinctClocks(snaps[i])) && a != b && Latest(snaps, a, b, ts, k, x, y)
    ensures Valid(AddAll(map[], LinksOf(snaps)))
    ensures Convert(AddAll(map[], LinksOf(snaps)), a, ts, b) == Add64(ts, Sub64(y, x))
  {
    var ls, l := LinksOf(snaps), Link(a, b, x, y);
    LinksOfMembers(snaps, l);
    hide LinksOf, Shows, DistinctClocks;
    forall m <- ls | m.src == a && m.des == b && m != l
      ensures if x <= ts then m.srcTs < x || m.srcTs > ts else m.srcTs > ts && m.srcTs > x
    {
      LinksOfMembers(snaps, m);
      var k' :| Pairs(snaps, k', a, b, m.srcTs, m.desTs);
      PairsOne(snaps, k, k', a, b, x, y, m.srcTs, m.desTs);
    }
    ConvertUses(ls, a, b, ts, l);
  }

  /** The snapshot's own time is converted to its partner. */
  lemma PartnersHit(snaps: seq<seq<SnapShot>>, a: U32, b: U32, k: nat, x: U64, y: U64)
    requires (forall i | 0 <= i < |snaps| :: DistinctClocks(snaps[i])) && a != b && Pairs(snaps, k, a, b, x, y)
    requires forall k': nat, x': U64, y': U64 | Pairs(snaps, k', a, b, x', y') && k' != k :: x' != x
    ensures Valid(AddAll(map[], LinksOf(snaps)))
    ensures Convert(AddAll(map[], LinksOf(snaps)), a, x, b) == y
  {
    LatestSnapshot(snaps, a, b, x, k, x, y);
  }

  /** Going there by snapshot k and back by snapshot j returns to the start exactly when both give the same offset;
    * in particular whenever j is k. */
  lemma SegmentRoundTrip(snaps: seq<seq<SnapShot>>, a: U32, b: U32, ts: U64, k: nat, x: U64, y: U64,
                         j: nat, x': U64, y': U64)
    requires (forall i | 0 <= i < |snaps| :: DistinctClocks(snaps[i])) && a != b
    requires Latest(snaps, a, b, ts, k, x, y) && Latest(snaps, b, a, Add64(ts, Sub64(y, x)), j, y', x')
    ensures Valid(AddAll(map[], LinksOf(snaps)))
    ensures var maps := AddAll(map[], LinksOf(snaps));
            Convert(maps, b, Convert(maps, a, ts, b), a) == ts <==> Sub64(y, x) == Sub64(y', x')
    ensures j == k ==> x == x' && y == y'
  {
    LatestSnapshot(snaps, a, b, ts, k, x, y);
    LatestSnapshot(snaps, b, a, Add64(ts, Sub64(y, x)), j, y', x');
    PairsOne(snaps, k, j, a, b, x, y, x', y');
  }

  /** When every snapshot shows both clocks and the first one increases, some snapshot is the latest for every time. */
  lemma {:induction false} LatestExists(snaps: seq<seq<SnapShot>>, a: U32, b: U32, xs: seq<U64>, ys: seq<U64>, ts: U64)
    returns (k: nat)
    requires |snaps| == |xs| == |ys| > 0 && forall i | 0 <= i < |snaps| :: DistinctClocks(snaps[i])
    requires forall i | 0 <= i < |snaps| :: Pairs(snaps, i, a, b, xs[i], ys[i])
    requires forall i, j | 0 <= i < j < |xs| :: xs[i] < xs[j]
    ensures k < |snaps| && Latest(snaps, a, b, ts, k, xs[k], ys[k])
    ensures xs[0] <= ts ==> xs[k] <= ts && forall i | k < i < |xs| :: xs[i] > ts
    ensures xs[0] > ts ==> k == 0
  {
    k := 0;
    while k + 1 < |xs| && xs[k + 1] <= ts
      invariant k < |xs| && (k > 0 ==> xs[k] <= ts)
    {
      k := k + 1;
    }
    forall k': nat, x': U64, y': U64 | Pairs(snaps, k', a, b, x', y') && k' != k
      ensures if xs[k] <= ts then x' < xs[k] || x' > ts else x' > ts && x' > xs[k]
    {
      ShowsOne(snaps[k'], a, x', xs[k']);
    }
  }
}
