/** Keyed slices: S/F pairs matched by key, G/H pairs matched last-in first-out per key. */
module SliceKeyed {
  import opened MachineWords
  import opened NestedMaps
  import opened SliceFilter

  /** Thread, cookie and name. */
  type Key = Triple<U32, int, DataIndex>

  /** The S/F maps: keys lead to event ids, event ids to rows. */
  datatype Pairs = Pairs(id: map<Key, nat>, row: map<nat, nat>, size: nat)
  {
    ghost predicate InRange(n: nat) { forall x <- row :: row[x] < n }

    /** StartAsyncSlice on a free key, for a row about to be appended as number n. */
    function Open(key: Key, n: nat): Pairs {
      Pairs(id[key := size + 1], row[size + 1 := n], size + 1)
    }

    /** FinishAsyncSlice: the row to close, if the key leads to one. */
    function Find(key: Key): Option<nat> {
      if key in id && id[key] in row then Some(row[id[key]]) else None
    }

    function Close(key: Key): Pairs
      requires Find(key).Some?
    {
      Pairs(id - {key}, row - {id[key]}, size)
    }
  }

  /** The G/H maps: keys lead to lists of event ids, event ids to rows. */
  datatype Piles = Piles(id: map<Key, seq<nat>>, row: map<nat, nat>, size: nat)
  {
    ghost predicate InRange(n: nat) { forall x <- row :: row[x] < n }

    function Ids(key: Key): seq<nat> {
      if key in id then id[key] else []
    }

    /** StartGEvent, for a row about to be appended as number n. */
    function Open(key: Key, n: nat): Piles {
      Piles(id[key := Ids(key) + [size + 1]], row[size + 1 := n], size + 1)
    }

    /** FinishHEvent: the row to close, if the last id of the key leads to one. */
    function Find(key: Key): Option<nat> {
      var ids := Ids(key);
      if ids != [] && ids[|ids| - 1] in row then Some(row[ids[|ids| - 1]]) else None
    }

    function Close(key: Key): Piles
      requires Find(key).Some?
    {
      var ids := Ids(key);
      Piles(if |ids| == 1 then id - {key} else id[key := ids[..|ids| - 1]], row - {ids[|ids| - 1]}, size)
    }
  }

  function AsyncRow(ts: nat, key: Key, cat: DataIndex, name: DataIndex, parent: Option<nat>): SliceRow {
    SliceRow(ts, OPEN, key.first, cat, name, 0, parent, Some(key.second))
  }

  // ---------- S/F refine a map from keys to open rows ----------

  /** Ids in use have rows, no id is used twice, and none is still to be handed out. */
  ghost predicate PairsOk(p: Pairs) {
    && (forall key <- p.id :: p.id[key] in p.row)
    && (forall a, b | a in p.id && b in p.id && p.id[a] == p.id[b] :: a == b)
    && (forall x <- p.row :: x <= p.size)
  }

  /** The open S row of each key. */
  ghost function OpenRow(p: Pairs): map<Key, nat>
    requires PairsOk(p)
  {
    map key <- p.id :: p.row[p.id[key]]
  }

  lemma PairsOpenRefines(p: Pairs, key: Key, n: nat)
    requires PairsOk(p) && key !in p.id
    ensures PairsOk(p.Open(key, n)) && OpenRow(p.Open(key, n)) == OpenRow(p)[key := n]
  {
  }

  /** A key in the map always leads to a row: the branch for an id without a row is unreachable. */
  lemma PairsCloseRefines(p: Pairs, key: Key)
    requires PairsOk(p)
    ensures p.Find(key) == if key in OpenRow(p) then Some(OpenRow(p)[key]) else None
    ensures key in p.id <==> p.Find(key).Some?
    ensures p.Find(key).Some? ==> PairsOk(p.Close(key)) && OpenRow(p.Close(key)) == OpenRow(p) - {key}
  {
  }

  // ---------- G/H refine a map from keys to stacks of open rows ----------

  ghost predicate PilesOk(p: Piles) {
    && (forall key <- p.id :: p.id[key] != [])
    && (forall key, i | key in p.id && 0 <= i < |p.id[key]| :: p.id[key][i] in p.row)
    && (forall a, b, i, j | a in p.id && b in p.id && 0 <= i < |p.id[a]| && 0 <= j < |p.id[b]|
                            && p.id[a][i] == p.id[b][j] ::
          a == b && i == j)
    && (forall x <- p.row :: x <= p.size)
  }

  ghost function RowsOf(ids: seq<nat>, row: map<nat, nat>): (out: seq<nat>)
    requires forall i | 0 <= i < |ids| :: ids[i] in row
    ensures |out| == |ids| && forall i | 0 <= i < |ids| :: out[i] == row[ids[i]]
  {
    seq(|ids|, i requires 0 <= i < |ids| => row[ids[i]])
  }

  /** The stack of open G rows of a key. */
  ghost function OpenPile(p: Piles, key: Key): seq<nat>
    requires PilesOk(p)
  {
    RowsOf(p.Ids(key), p.row)
  }

  lemma PilesOpenRefines(p: Piles, key: Key, n: nat, x: Key)
    requires PilesOk(p)
    ensures PilesOk(p.Open(key, n))
    ensures OpenPile(p.Open(key, n), x) == if x == key then OpenPile(p, key) + [n] else OpenPile(p, x)
  {
  }

  /** A nonempty list always leads to a row: the branch for an id without a row is unreachable. */
  lemma PilesCloseOk(p: Piles, key: Key)
    requires PilesOk(p) && key in p.id
    ensures p.Find(key).Some? && PilesOk(p.Close(key))
  {
    var ids := p.id[key];
    var n := |ids| - 1;
    assert ids[n] in p.row;
    var out := p.Close(key);
    forall x, i | x in out.id && 0 <= i < |out.id[x]|
      ensures x in p.id && i < |p.id[x]| && out.id[x][i] == p.id[x][i] && out.id[x][i] != ids[n]
    {
      assert x == key ==> i < n;
    }
  }

  lemma PilesCloseRefines(p: Piles, key: Key, x: Key)
    requires PilesOk(p)
    ensures p.Find(key) == if OpenPile(p, key) == [] then None else Some(OpenPile(p, key)[|OpenPile(p, key)| - 1])
    ensures key in p.id <==> p.Find(key).Some?
    ensures p.Find(key).Some? ==>
              PilesOk(p.Close(key))
              && OpenPile(p.Close(key), x) == if x == key then OpenPile(p, key)[..|OpenPile(p, key)| - 1]
                   else OpenPile(p, x)
  {
    if key in p.id {
      PilesCloseOk(p, key);
      var out := p.Close(key);
      assert forall i | 0 <= i < |p.Ids(x)| && (x != key || i < |p.Ids(x)| - 1) :: p.Ids(x)[i] in out.row;
    }
  }
}
