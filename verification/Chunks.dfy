/** `_relative_action_chunks`: the training statistics see exactly the deltas that serving computes. */
module Chunks {
  import opened Wrappers
  import opened Integers
  import opened Layout
  import opened Packing
  import opened Deltas

  const STATE_DIM := 14
  const ACTION_DIM := 16

  function BimanualPairs(): seq<Pair> { [Pair(0, 7, 0, 7), Pair(7, 14, 8, 15)] }

  /** The pairs of the deployed layout. */
  lemma BimanualPairsAre()
    ensures PairsOf(BIMANUAL, 2) == BimanualPairs() && LayoutOk(BIMANUAL)
  {
    assert PairOf(BIMANUAL, BIMANUAL.slots[0]) == Some(Pair(0, 7, 0, 7));
    assert BIMANUAL.state[1..] == [Block(Key("right", "q"), 7, 14)];
    assert PairOf(BIMANUAL, BIMANUAL.slots[1]) == Some(Pair(7, 14, 8, 15));
    assert PairsOf(BIMANUAL, 1) == [Pair(0, 7, 0, 7)];
  }

  lemma BimanualShift(state: seq<real>, i: nat)
    requires |state| == STATE_DIM
    ensures Usable(BimanualPairs(), |state|)
    ensures Shift(BimanualPairs(), 2, state, i) ==
            if i < 7 then state[i] else if 8 <= i < 15 then state[i - 1] else 0.0
  {
    var pairs := BimanualPairs();
    assert Shift(pairs, 0, state, i) == 0.0;
    assert Shift(pairs, 1, state, i) == if i < 7 then state[i] else 0.0;
  }

  // ---- One row ------------------------------------------------------------------------------------------------

  /** `chunk[..., 0:7] -= state[0:7]; chunk[..., 8:15] -= state[7:14]` on one row. */
  method RelativeRow(action: seq<real>, state: seq<real>) returns (row: seq<real>)
    requires |action| == ACTION_DIM && |state| == STATE_DIM
    ensures Usable(BimanualPairs(), |state|) && row == DeltaRow(BimanualPairs(), false, state, action)
  {
    var chunk := new real[ACTION_DIM](i requires 0 <= i < |action| => action[i]);
    SubtractSlice(chunk, 0, state[0..7]);
    SubtractSlice(chunk, 8, state[7..14]);
    row := chunk[..];
    RelativeRowIsDelta(action, state, row);
  }

  /** numpy's `a[start : start + |v|] -= v`. */
  method SubtractSlice(a: array<real>, start: nat, v: seq<real>)
    requires start + |v| <= a.Length
    modifies a
    ensures forall p :: 0 <= p < a.Length ==> a[p] == if start <= p < start + |v| then old(a[p]) - v[p - start] else old(a[p])
  {
    for i := start to start + |v|
      invariant forall p :: 0 <= p < a.Length ==> a[p] == if start <= p < i then old(a[p]) - v[p - start] else old(a[p])
    {
      a[i] := a[i] - v[i - start];
    }
  }

  lemma RelativeRowIsDelta(action: seq<real>, state: seq<real>, row: seq<real>)
    requires |action| == |row| == ACTION_DIM && |state| == STATE_DIM
    requires forall i :: 0 <= i < 7 ==> row[i] == action[i] - state[i]
    requires forall i :: 8 <= i < 15 ==> row[i] == action[i] - state[i - 1]
    requires row[7] == action[7] && row[15] == action[15]
    ensures Usable(BimanualPairs(), |state|) && row == DeltaRow(BimanualPairs(), false, state, action)
  {
    BimanualShift(state, 0);
    var delta := DeltaRow(BimanualPairs(), false, state, action);
    forall i | 0 <= i < ACTION_DIM ensures row[i] == delta[i] {
      BimanualShift(state, i);
      assert i < 7 || i == 7 || 8 <= i < 15 || i == 15;
    }
  }

  // ---- Episodes -----------------------------------------------------------------------------------------------

  method Include(ids: seq<int>, x: int) returns (ids': seq<int>)
    requires Increasing(ids)
    ensures Increasing(ids') && forall y :: y in ids' <==> y in ids || y == x
  {
    var i := 0;
    while i < |ids| && ids[i] < x
      invariant i <= |ids| && forall k :: 0 <= k < i ==> ids[k] < x
    {
      i := i + 1;
    }
    if i < |ids| && ids[i] == x {
      return ids;
    }
    assert ids == ids[..i] + ids[i..];
    ids' := ids[..i] + [x] + ids[i..];
  }

  /** `np.unique`. */
  method Unique(xs: seq<int>) returns (ids: seq<int>)
    ensures Increasing(ids) && forall x :: x in ids <==> x in xs
  {
    ids := [];
    for n := 0 to |xs|
      invariant Increasing(ids) && forall x :: x in ids <==> x in xs[..n]
    {
      assert xs[..n + 1] == xs[..n] + [xs[n]];
      ids := Include(ids, xs[n]);
    }
    assert xs[..|xs|] == xs;
  }

  /** `np.flatnonzero(episode == id)`. */
  method RowsOfEpisode(episode: seq<int>, id: int) returns (rows: seq<int>)
    ensures Increasing(rows) && forall j :: j in rows <==> 0 <= j < |episode| && episode[j] == id
  {
    rows := [];
    for n := 0 to |episode|
      invariant Increasing(rows) && forall j :: j in rows <==> 0 <= j < n && episode[j] == id
    {
      if episode[n] == id {
        assert forall k :: 0 <= k < |rows| ==> rows[k] in rows;
        rows := rows + [n];
      }
    }
  }

  /** No other episode's row stands between two rows of one episode. */
  ghost predicate Contiguous(episode: seq<int>, id: int) {
    forall i, k {:trigger Solid(episode, id, i, k)} ::
      0 <= i <= k < |episode| && episode[i] == id && episode[k] == id ==> Solid(episode, id, i, k)
  }

  ghost predicate AllContiguous(episode: seq<int>) {
    forall k :: 0 <= k < |episode| ==> Contiguous(episode, episode[k])
  }

  ghost predicate Solid(episode: seq<int>, id: int, from: int, last: int)
    requires 0 <= from <= last < |episode|
  {
    forall j :: from <= j <= last ==> episode[j] == id
  }

  lemma ContiguousIffRange(episode: seq<int>, id: int, rows: seq<int>)
    requires Increasing(rows) && rows != [] && forall j :: j in rows <==> 0 <= j < |episode| && episode[j] == id
    ensures rows[0] <= rows[|rows| - 1]
    ensures Contiguous(episode, id) <==> rows == Range(rows[0], rows[|rows| - 1] + 1)
  {
    var first, last := rows[0], rows[|rows| - 1];
    assert first in rows && last in rows;
    assert forall j :: j in rows ==> first <= j <= last;
    RangeMembers(first, last + 1);
    if Contiguous(episode, id) {
      assert Solid(episode, id, first, last);
      IncreasingUnique(rows, Range(first, last + 1));
    }
    if rows == Range(first, last + 1) {
      forall i, k | 0 <= i <= k < |episode| && episode[i] == id && episode[k] == id ensures Solid(episode, id, i, k) {
        assert i in rows && k in rows;
        forall j | i <= j <= k ensures episode[j] == id { assert j in rows; }
      }
    }
  }

  /** The last row of the run of equal ids that row `i` stands in. */
  function LastOf(episode: seq<int>, i: nat): (last: nat)
    requires i < |episode|
    ensures i <= last < |episode| && forall j :: i <= j <= last ==> episode[j] == episode[i]
    ensures last + 1 < |episode| ==> episode[last + 1] != episode[i]
    decreases |episode| - i
  {
    if i + 1 < |episode| && episode[i + 1] == episode[i] then LastOf(episode, i + 1) else i
  }

  /** What serving would compute for row `g`: deltas of the next `horizon` actions, clamped at the episode's end. */
  ghost function ChunkAt(state: seq<seq<real>>, action: seq<seq<real>>, episode: seq<int>, horizon: nat, g: nat): (c: seq<seq<real>>)
    requires g < |episode| == |state| == |action| && Usable(BimanualPairs(), |state[g]|)
    ensures |c| == horizon
  {
    seq(horizon, h requires 0 <= h < horizon =>
      DeltaRow(BimanualPairs(), false, state[g], action[if g + h <= LastOf(episode, g) then g + h else LastOf(episode, g)]))
  }

  /** Rows of the widths the loader checks; such states are wide enough for the deployed pairs. */
  ghost predicate DataOk(state: seq<seq<real>>, action: seq<seq<real>>, episode: seq<int>) {
    && |state| == |action| == |episode|
    && forall i :: 0 <= i < |episode| ==> |state[i]| == STATE_DIM && |action[i]| == ACTION_DIM && Usable(BimanualPairs(), |state[i]|)
  }

  /** One episode's chunks, for its rows `first..last`. */
  method EpisodeChunks(state: seq<seq<real>>, action: seq<seq<real>>, ghost episode: seq<int>, horizon: nat, first: nat, last: nat)
    returns (chunks: seq<seq<seq<real>>>)
    requires DataOk(state, action, episode) && first <= last < |episode|
    requires forall j :: first <= j <= last ==> LastOf(episode, j) == last
    ensures |chunks| == last + 1 - first
    ensures forall i :: 0 <= i < |chunks| ==> chunks[i] == ChunkAt(state, action, episode, horizon, first + i)
  {
    chunks := [];
    for g := first to last + 1
      invariant |chunks| == g - first && forall i :: 0 <= i < |chunks| ==> chunks[i] == ChunkAt(state, action, episode, horizon, first + i)
    {
      var rows := [];
      for h := 0 to horizon
        invariant |rows| == h && forall k :: 0 <= k < h ==> rows[k] == ChunkAt(state, action, episode, horizon, g)[k]
      {
        var future := if g + h <= last then g + h else last;
        var row := RelativeRow(action[future], state[g]);
        rows := rows + [row];
      }
      chunks := chunks + [rows];
    }
  }

  /** Rows in output order: by episode id, then by position. */
  ghost predicate ByEpisode(episode: seq<int>, order: seq<int>) {
    && (forall k :: 0 <= k < |order| ==> 0 <= order[k] < |episode|)
    && forall k, m :: 0 <= k < m < |order| ==>
         episode[order[k]] < episode[order[m]] || (episode[order[k]] == episode[order[m]] && order[k] < order[m])
  }

  ghost predicate ChunksAre(chunks: seq<seq<seq<real>>>, state: seq<seq<real>>, action: seq<seq<real>>, episode: seq<int>, horizon: nat, order: seq<int>)
    requires DataOk(state, action, episode) && forall k :: 0 <= k < |order| ==> 0 <= order[k] < |episode|
  {
    |chunks| == |order| && forall k :: 0 <= k < |order| ==> chunks[k] == ChunkAt(state, action, episode, horizon, order[k])
  }

  lemma EpisodeEnds(episode: seq<int>, id: int, rows: seq<int>, j: int)
    requires Increasing(rows) && rows != [] && (forall i :: i in rows <==> 0 <= i < |episode| && episode[i] == id)
    requires rows[0] <= j <= rows[|rows| - 1] && rows == Range(rows[0], rows[|rows| - 1] + 1)
    ensures 0 <= j < |episode| && LastOf(episode, j) == rows[|rows| - 1]
  {
    var last := rows[|rows| - 1];
    RangeMembers(rows[0], last + 1);
    assert last in rows && rows[0] in rows && j in rows;
    var e := LastOf(episode, j);
    assert e in rows;
    assert e < last ==> e + 1 in rows;
  }

  /** `order` lists exactly the rows of the given episodes. */
  ghost predicate Lists(order: seq<int>, episode: seq<int>, ids: seq<int>) {
    && (forall k :: 0 <= k < |order| ==> 0 <= order[k] < |episode| && episode[order[k]] in ids)
    && (forall j :: 0 <= j < |episode| && episode[j] in ids ==> j in order)
  }

  /** An episode without gaps is the rows from its first to its last. */
  lemma EpisodeRows(episode: seq<int>, id: int, rows: seq<int>)
    requires Increasing(rows) && rows != [] && (forall i :: i in rows <==> 0 <= i < |episode| && episode[i] == id)
    requires rows[0] <= rows[|rows| - 1] && rows == Range(rows[0], rows[|rows| - 1] + 1)
    ensures 0 <= rows[0] && rows[|rows| - 1] < |episode|
    ensures forall j :: 0 <= j < |episode| ==> (rows[0] <= j <= rows[|rows| - 1] <==> episode[j] == id)
    ensures forall j :: rows[0] <= j <= rows[|rows| - 1] ==> LastOf(episode, j) == rows[|rows| - 1]
  {
    var first, last := rows[0], rows[|rows| - 1];
    assert first in rows && last in rows;
    RangeMembers(first, last + 1);
    forall j | 0 <= j < |episode| ensures first <= j <= last <==> episode[j] == id { assert j in rows <==> first <= j <= last; }
    forall j | first <= j <= last ensures 0 <= j < |episode| && LastOf(episode, j) == last { EpisodeEnds(episode, id, rows, j); }
  }

  lemma OrderExtends(episode: seq<int>, order: seq<int>, ids: seq<int>, n: nat, first: nat, last: nat)
    requires Increasing(ids) && n < |ids| && first <= last < |episode|
    requires ByEpisode(episode, order) && Lists(order, episode, ids[..n])
    requires forall j :: 0 <= j < |episode| ==> (first <= j <= last <==> episode[j] == ids[n])
    ensures var more := order + Range(first, last + 1); ByEpisode(episode, more) && Lists(more, episode, ids[..n + 1])
  {
    assert ids[..n + 1] == ids[..n] + [ids[n]];
    RangeMembers(first, last + 1);
    forall k | 0 <= k < |order| ensures episode[order[k]] < ids[n] {
      var i :| 0 <= i < n && ids[..n][i] == episode[order[k]];
      assert ids[i] < ids[n];
    }
  }

  /** The episodes `ids` are done. */
  ghost predicate EpisodesAdded(chunks: seq<seq<seq<real>>>, state: seq<seq<real>>, action: seq<seq<real>>, episode: seq<int>,
                           horizon: nat, order: seq<int>, ids: seq<int>) {
    && DataOk(state, action, episode) && ByEpisode(episode, order) && Lists(order, episode, ids)
    && ChunksAre(chunks, state, action, episode, horizon, order)
    && forall k :: 0 <= k < |ids| ==> Contiguous(episode, ids[k])
  }

  lemma EpisodeAdded(chunks: seq<seq<seq<real>>>, more: seq<seq<seq<real>>>, state: seq<seq<real>>, action: seq<seq<real>>, episode: seq<int>,
                     horizon: nat, order: seq<int>, ids: seq<int>, n: nat, first: nat, last: nat)
    requires Increasing(ids) && n < |ids| && first <= last < |episode| && EpisodesAdded(chunks, state, action, episode, horizon, order, ids[..n])
    requires (forall j :: 0 <= j < |episode| ==> (first <= j <= last <==> episode[j] == ids[n])) && Contiguous(episode, ids[n])
    requires |more| == last + 1 - first && forall i :: 0 <= i < |more| ==> more[i] == ChunkAt(state, action, episode, horizon, first + i)
    ensures EpisodesAdded(chunks + more, state, action, episode, horizon, order + Range(first, last + 1), ids[..n + 1])
  {
    OrderExtends(episode, order, ids, n, first, last);
    ChunksExtend(chunks, more, state, action, episode, horizon, order, first, last);
  }

  /** Every dataset row contributes exactly one chunk, equal to the serving-side delta of its end-clamped
      future; a split episode, or no data at all, is an error. */
  method RelativeActionChunks(state: seq<seq<real>>, action: seq<seq<real>>, episode: seq<int>, horizon: nat)
    returns (r: Option<seq<seq<seq<real>>>>, ghost order: seq<int>)
    requires DataOk(state, action, episode)
    ensures r.Some? <==> |episode| > 0 && AllContiguous(episode)
    ensures r.Some? ==>
              && ByEpisode(episode, order) && (forall j :: 0 <= j < |episode| ==> j in order)
              && ChunksAre(r.value, state, action, episode, horizon, order)
  {
    var ok, chunks, visited, ids := Gather(state, action, episode, horizon);
    order := visited;
    if !ok {
      return None, order;
    }
    EpisodesComplete(chunks, state, action, episode, horizon, order, ids);
    r := if |chunks| == 0 then None else Some(chunks);
  }

  /** The loop over episodes. */
  method Gather(state: seq<seq<real>>, action: seq<seq<real>>, episode: seq<int>, horizon: nat)
    returns (ok: bool, chunks: seq<seq<seq<real>>>, ghost order: seq<int>, ids: seq<int>)
    requires DataOk(state, action, episode)
    ensures !ok ==> !AllContiguous(episode)
    ensures ok ==> (forall x :: x in ids <==> x in episode) && EpisodesAdded(chunks, state, action, episode, horizon, order, ids[..|ids|])
  {
    ok, chunks, order := true, [], [];
    ids := Unique(episode);
    for n := 0 to |ids|
      invariant ok && EpisodesAdded(chunks, state, action, episode, horizon, order, ids[..n])
    {
      ok, chunks, order := AddEpisode(chunks, state, action, episode, horizon, order, ids, n);
      if !ok {
        return;
      }
    }
  }

  /** One turn of the loop over episodes. */
  method AddEpisode(chunks: seq<seq<seq<real>>>, state: seq<seq<real>>, action: seq<seq<real>>, episode: seq<int>, horizon: nat,
                    ghost order: seq<int>, ids: seq<int>, n: nat)
    returns (ok: bool, chunks': seq<seq<seq<real>>>, ghost order': seq<int>)
    requires Increasing(ids) && (forall x :: x in ids <==> x in episode) && n < |ids|
    requires EpisodesAdded(chunks, state, action, episode, horizon, order, ids[..n])
    ensures !ok ==> !AllContiguous(episode)
    ensures ok ==> EpisodesAdded(chunks', state, action, episode, horizon, order', ids[..n + 1])
  {
    ok, chunks', order' := true, chunks, order;
    var id := ids[n];
    assert id in ids;
    var bounds := Bounds(episode, id);
    if bounds.None? {
      ok := false;
      return;
    }
    var first, last := bounds.value.0, bounds.value.1;
    var more := EpisodeChunks(state, action, episode, horizon, first, last);
    EpisodeAdded(chunks, more, state, action, episode, horizon, order, ids, n, first, last);
    chunks' := chunks + more;
    order' := order + Range(first, last + 1);
  }

  lemma EpisodesComplete(chunks: seq<seq<seq<real>>>, state: seq<seq<real>>, action: seq<seq<real>>, episode: seq<int>,
                     horizon: nat, order: seq<int>, ids: seq<int>)
    requires (forall x :: x in ids <==> x in episode) && EpisodesAdded(chunks, state, action, episode, horizon, order, ids[..|ids|])
    ensures forall j :: 0 <= j < |episode| ==> j in order
    ensures |chunks| == 0 <==> |episode| == 0
    ensures AllContiguous(episode)
  {
    assert ids[..|ids|] == ids;
    AllListed(episode, ids, order);
  }

  lemma ChunksExtend(chunks: seq<seq<seq<real>>>, more: seq<seq<seq<real>>>, state: seq<seq<real>>, action: seq<seq<real>>, episode: seq<int>,
                     horizon: nat, order: seq<int>, first: nat, last: nat)
    requires DataOk(state, action, episode) && first <= last < |episode| && forall k :: 0 <= k < |order| ==> 0 <= order[k] < |episode|
    requires ChunksAre(chunks, state, action, episode, horizon, order) && |more| == last + 1 - first
    requires forall i :: 0 <= i < |more| ==> more[i] == ChunkAt(state, action, episode, horizon, first + i)
    ensures ChunksAre(chunks + more, state, action, episode, horizon, order + Range(first, last + 1))
  {
  }

  lemma AllListed(episode: seq<int>, ids: seq<int>, order: seq<int>)
    requires (forall x :: x in ids <==> x in episode) && Lists(order, episode, ids)
    ensures forall j :: 0 <= j < |episode| ==> j in order
    ensures |order| == 0 <==> |episode| == 0
  {
    forall j | 0 <= j < |episode| ensures j in order {
      var x := episode[j];
      assert x in episode && x in ids;
      assert episode[j] in ids;
    }
    assert |episode| > 0 ==> 0 in order;
    assert |order| > 0 ==> 0 <= order[0] < |episode|;
  }

  /** First and last row of an episode, unless other rows stand between. */
  method Bounds(episode: seq<int>, id: int) returns (r: Option<(nat, nat)>)
    requires id in episode
    ensures r.Some? <==> Contiguous(episode, id)
    ensures r.Some? ==>
              && r.value.0 <= r.value.1 < |episode|
              && (forall j :: 0 <= j < |episode| ==> (r.value.0 <= j <= r.value.1 <==> episode[j] == id))
              && forall j :: r.value.0 <= j <= r.value.1 ==> LastOf(episode, j) == r.value.1
  {
    var rows := RowsOfEpisode(episode, id);
    var k :| 0 <= k < |episode| && episode[k] == id;
    assert k in rows;
    ContiguousIffRange(episode, id, rows);
    var first, last := rows[0], rows[|rows| - 1];
    if rows != Range(first, last + 1) {
      return None;
    }
    EpisodeRows(episode, id, rows);
    r := Some((first, last));
  }

  /** Row `h` of the chunk of dataset row `g`, entry by entry: the action `h` steps on, or the last of the episode if
      that comes first, less the joints measured at `g`; grippers stay absolute. */
  lemma ChunkEntries(state: seq<seq<real>>, action: seq<seq<real>>, episode: seq<int>, horizon: nat, g: nat, h: nat, f: nat)
    requires DataOk(state, action, episode) && g <= f < |episode| && h < horizon && Solid(episode, episode[g], g, f)
    requires f == g + h || (f < g + h && (f + 1 == |episode| || episode[f + 1] != episode[g]))
    ensures var row := ChunkAt(state, action, episode, horizon, g)[h];
            && |row| == 16 && row[7] == action[f][7] && row[15] == action[f][15]
            && (forall i :: 0 <= i < 7 ==> row[i] == action[f][i] - state[g][i])
            && (forall i :: 8 <= i < 15 ==> row[i] == action[f][i] - state[g][i - 1])
  {
    EndIs(episode, g, f, h);
    var row := ChunkAt(state, action, episode, horizon, g)[h];
    assert row == DeltaRow(BimanualPairs(), false, state[g], action[f]);
    BimanualShift(state[g], 7);
    BimanualShift(state[g], 15);
    forall i | 0 <= i < 7 ensures row[i] == action[f][i] - state[g][i] { BimanualShift(state[g], i); }
    forall i | 8 <= i < 15 ensures row[i] == action[f][i] - state[g][i - 1] { BimanualShift(state[g], i); }
  }

  lemma EndIs(episode: seq<int>, g: nat, f: nat, h: nat)
    requires g <= f < |episode| && Solid(episode, episode[g], g, f)
    requires f == g + h || (f < g + h && (f + 1 == |episode| || episode[f + 1] != episode[g]))
    ensures f == if g + h <= LastOf(episode, g) then g + h else LastOf(episode, g)
  {
  }
}
