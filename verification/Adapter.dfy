/** The OpenPI endpoint adapter: projecting vectors through configured index lists that must cover the
    target exactly once. */
module Adapter {
  import opened Wrappers
  import opened Reals
  import opened Sequences

  /** One configured index: an integer, or something else that the adapter refuses. */
  type Index = Option<int>

  datatype Copy = Copy(source: seq<Index>, target: seq<Index>)
  datatype Constant = Constant(target: seq<Index>, value: real)

  /** Where a piece of the output comes from: the vector being mapped, the last measured state, or a number. */
  datatype Source = FromVector(ix: seq<Index>) | FromState(ix: seq<Index>) | Fixed(value: real)

  datatype Piece = Piece(target: seq<Index>, from: Source)

  /** The three configured lists in the order the adapter applies them. */
  function Pieces(slices: seq<Copy>, holds: seq<Copy>, constants: seq<Constant>): (ps: seq<Piece>)
    ensures |ps| == |slices| + |holds| + |constants|
  {
    seq(|slices|, i requires 0 <= i < |slices| => Piece(slices[i].target, FromVector(slices[i].source)))
    + seq(|holds|, i requires 0 <= i < |holds| => Piece(holds[i].target, FromState(holds[i].source)))
    + seq(|constants|, i requires 0 <= i < |constants| => Piece(constants[i].target, Fixed(constants[i].value)))
  }

  // ---- Index lists ---------------------------------------------------------------------------------

  predicate InRange(ix: seq<Index>, size: nat) {
    forall i :: 0 <= i < |ix| ==> ix[i].Some? && 0 <= ix[i].value < size
  }

  ghost predicate GoodIndices(ix: seq<Index>, size: nat) { InRange(ix, size) && Distinct(ix) }

  method Indices(ix: seq<Index>, size: nat) returns (r: Option<seq<nat>>)
    ensures r.Some? <==> GoodIndices(ix, size)
    ensures r.Some? ==> |r.value| == |ix| && forall i :: 0 <= i < |ix| ==> ix[i] == Some(r.value[i])
  {
    var indices: seq<nat> := [];
    var seen: set<nat> := {};
    var repeated := false;
    for k := 0 to |ix|
      invariant |indices| == k && forall i :: 0 <= i < k ==> ix[i] == Some(indices[i])
      invariant forall i :: 0 <= i < k ==> indices[i] < size
      invariant forall x :: x in seen <==> x in indices
      invariant repeated <==> exists i, j :: 0 <= i < j < k && indices[i] == indices[j]
    {
      match ix[k]
      case None => return None;
      case Some(value) =>
        if value < 0 || value >= size {
          return None;
        }
        if value in seen {
          repeated := true;
          assert exists i :: 0 <= i < k && indices[i] == value;
        }
        indices := indices + [value];
        seen := seen + {value};
    }
    r := if repeated then None else Some(indices);
  }

  /** The sources of a piece exist and pair up with its targets. */
  ghost predicate SourceOk(p: Piece, width: nat, held: nat) {
    match p.from
    case FromVector(ix) => GoodIndices(ix, width) && |ix| == |p.target|
    case FromState(ix) => GoodIndices(ix, held) && |ix| == |p.target|
    case Fixed(_) => true
  }

  ghost predicate Fits(p: Piece, width: nat, held: nat, dim: nat) {
    SourceOk(p, width, held) && InRange(p.target, dim)
  }

  /** The number a piece asks for at its `i`-th target. */
  function ValueOf(p: Piece, i: nat, vector: seq<real>, state: seq<real>): real
    requires SourceOk(p, |vector|, |state|) && i < |p.target|
  {
    match p.from
    case FromVector(ix) => vector[ix[i].value]
    case FromState(ix) => state[ix[i].value]
    case Fixed(value) => value
  }

  function Elements(ix: seq<nat>): set<int> { set i | 0 <= i < |ix| :: ix[i] }

  // ---- Claims ----------------------------------------------------------------------------------------

  function Occurrences(ix: seq<Index>, t: int): (n: nat) {
    if ix == [] then 0 else Occurrences(ix[..|ix| - 1], t) + (if ix[|ix| - 1] == Some(t) then 1 else 0)
  }

  /** How often target `t` is claimed in all. */
  function Claims(ps: seq<Piece>, t: int): (n: nat) {
    if ps == [] then 0 else Claims(ps[..|ps| - 1], t) + Occurrences(ps[|ps| - 1].target, t)
  }

  lemma {:induction false} OccurrencesPositive(ix: seq<Index>, t: int)
    ensures Occurrences(ix, t) > 0 <==> Some(t) in ix
    decreases |ix|
  {
    if ix != [] {
      var init := ix[..|ix| - 1];
      OccurrencesPositive(init, t);
      assert ix == init + [ix[|ix| - 1]];
    }
  }

  lemma {:induction false} OccurrencesDistinct(ix: seq<Index>, t: int)
    requires Distinct(ix)
    ensures Occurrences(ix, t) <= 1
    decreases |ix|
  {
    if ix != [] {
      OccurrencesDistinct(ix[..|ix| - 1], t);
      OccurrencesPositive(ix[..|ix| - 1], t);
    }
  }

  lemma {:induction false} OccurrencesRepeated(ix: seq<Index>, i: nat, j: nat, t: int)
    requires i < j < |ix| && ix[i] == ix[j] == Some(t)
    ensures Occurrences(ix, t) >= 2
    decreases |ix|
  {
    var init := ix[..|ix| - 1];
    if j < |ix| - 1 {
      OccurrencesRepeated(init, i, j, t);
    } else {
      assert init[i] == Some(t);
      OccurrencesPositive(init, t);
    }
  }

  lemma {:induction false} ClaimsGrow(ps: seq<Piece>, n: nat, t: int)
    requires n <= |ps|
    ensures Claims(ps[..n], t) <= Claims(ps, t)
    decreases |ps| - n
  {
    if n < |ps| {
      ClaimsGrow(ps, n + 1, t);
      assert ps[..n + 1][..n] == ps[..n];
    } else {
      assert ps[..n] == ps;
    }
  }

  lemma ClaimsStep(ps: seq<Piece>, n: nat, t: int)
    requires n < |ps|
    ensures Claims(ps[..n + 1], t) == Claims(ps[..n], t) + Occurrences(ps[n].target, t)
  {
    assert ps[..n + 1][..n] == ps[..n];
  }

  /** The configuration is an exact cover of `dim` targets. */
  ghost predicate ExactCover(ps: seq<Piece>, width: nat, held: nat, dim: nat) {
    && (forall k :: 0 <= k < |ps| ==> Fits(ps[k], width, held, dim))
    && (forall t :: 0 <= t < dim ==> Claims(ps, t) == 1)
  }

  /** `row` carries at each target of `p` the value `p` asks for. */
  ghost predicate Honours(row: seq<real>, p: Piece, vector: seq<real>, state: seq<real>) {
    Fits(p, |vector|, |state|, |row|) &&
    forall i :: 0 <= i < |p.target| ==> row[p.target[i].value] == ValueOf(p, i, vector, state)
  }

  ghost predicate RowFollows(row: seq<real>, ps: seq<Piece>, n: nat, vector: seq<real>, state: seq<real>, dim: nat)
    requires n <= |ps|
  {
    |row| == dim && forall k :: 0 <= k < n ==> Honours(row, ps[k], vector, state)
  }

  /** The targets taken by the first `n` pieces, each once. */
  ghost predicate Claimed(mapped: set<int>, ps: seq<Piece>, n: nat, width: nat, held: nat, dim: nat)
    requires n <= |ps|
  {
    && (forall k :: 0 <= k < n ==> Fits(ps[k], width, held, dim))
    && (forall t :: t in mapped ==> 0 <= t < dim)
    && (forall t :: 0 <= t < dim ==> Claims(ps[..n], t) == if t in mapped then 1 else 0)
  }

  lemma ClaimedOnce(mapped: set<int>, ps: seq<Piece>, n: nat, width: nat, held: nat, dim: nat, target: seq<nat>)
    requires n < |ps| && Claimed(mapped, ps, n, width, held, dim) && Fits(ps[n], width, held, dim) && Distinct(ps[n].target)
    requires |target| == |ps[n].target| && forall i :: 0 <= i < |target| ==> ps[n].target[i] == Some(target[i])
    requires forall x :: x in target ==> x !in mapped
    ensures Claimed(mapped + Elements(target), ps, n + 1, width, held, dim)
  {
    forall t | 0 <= t < dim
      ensures Claims(ps[..n + 1], t) == if t in mapped + Elements(target) then 1 else 0
    {
      ClaimsStep(ps, n, t);
      OccurrencesPositive(ps[n].target, t);
      OccurrencesDistinct(ps[n].target, t);
      assert t in target <==> Some(t) in ps[n].target;
    }
  }

  /** A refused piece means the configuration is no exact cover. */
  lemma RefusalIsRight(mapped: set<int>, ps: seq<Piece>, n: nat, width: nat, held: nat, dim: nat)
    requires n < |ps| && Claimed(mapped, ps, n, width, held, dim)
    requires !Fits(ps[n], width, held, dim) || !Distinct(ps[n].target) || exists t :: t in mapped && Some(t) in ps[n].target
    ensures !ExactCover(ps, width, held, dim)
  {
    if ExactCover(ps, width, held, dim) {
      if i, j :| 0 <= i < j < |ps[n].target| && ps[n].target[i] == ps[n].target[j] {
        var t := ps[n].target[i].value;
        OccurrencesRepeated(ps[n].target, i, j, t);
        ClaimsStep(ps, n, t);
        ClaimsGrow(ps, n + 1, t);
      } else {
        var t :| t in mapped && Some(t) in ps[n].target;
        OccurrencesPositive(ps[n].target, t);
        ClaimsStep(ps, n, t);
        ClaimsGrow(ps, n + 1, t);
      }
    }
  }

  // ---- Writing -----------------------------------------------------------------------------------------

  /** numpy's `row[target] = values` for distinct targets. */
  function Written(row: seq<real>, target: seq<nat>, values: seq<real>): (r: seq<real>)
    requires |target| == |values| && forall i :: 0 <= i < |target| ==> target[i] < |row|
    ensures |r| == |row|
    ensures forall t :: 0 <= t < |row| && t !in target ==> r[t] == row[t]
    ensures (forall i, j :: 0 <= i < j < |target| ==> target[i] != target[j]) ==> forall i :: 0 <= i < |target| ==> r[target[i]] == values[i]
    decreases |target|
  {
    if target == [] then row else
      var n := |target| - 1;
      var prior := Written(row, target[..n], values[..n]);
      prior[target[n] := values[n]]
  }

  function Gathered(p: Piece, vector: seq<real>, state: seq<real>): (v: seq<real>)
    requires SourceOk(p, |vector|, |state|)
    ensures |v| == |p.target| && forall i :: 0 <= i < |v| ==> v[i] == ValueOf(p, i, vector, state)
  {
    seq(|p.target|, i requires 0 <= i < |p.target| => ValueOf(p, i, vector, state))
  }

  lemma RowStep(row: seq<real>, ps: seq<Piece>, n: nat, vector: seq<real>, state: seq<real>, dim: nat, mapped: set<int>, target: seq<nat>)
    requires n < |ps| && Claimed(mapped, ps, n, |vector|, |state|, dim) && Fits(ps[n], |vector|, |state|, dim) && Distinct(ps[n].target)
    requires RowFollows(row, ps, n, vector, state, dim)
    requires |target| == |ps[n].target| && forall i :: 0 <= i < |target| ==> ps[n].target[i] == Some(target[i])
    requires forall x :: x in target ==> x !in mapped
    ensures RowFollows(Written(row, target, Gathered(ps[n], vector, state)), ps, n + 1, vector, state, dim)
  {
    var row' := Written(row, target, Gathered(ps[n], vector, state));
    forall k | 0 <= k < n ensures Honours(row', ps[k], vector, state) {
      forall i | 0 <= i < |ps[k].target| ensures row'[ps[k].target[i].value] == row[ps[k].target[i].value] {
        ClaimantIsMapped(mapped, ps, n, |vector|, |state|, dim, k, i);
      }
    }
    assert Honours(row', ps[n], vector, state);
  }

  lemma ClaimantIsMapped(mapped: set<int>, ps: seq<Piece>, n: nat, width: nat, held: nat, dim: nat, k: nat, i: nat)
    requires n <= |ps| && Claimed(mapped, ps, n, width, held, dim) && k < n && i < |ps[k].target|
    ensures ps[k].target[i].value in mapped
  {
    var t := ps[k].target[i].value;
    OccurrencesPositive(ps[k].target, t);
    var done := ps[..n];
    assert done[..k + 1] == ps[..k + 1];
    ClaimsStep(ps, k, t);
    ClaimsGrow(done, k + 1, t);
  }

  /** The rows of a projection while it is under way. */
  ghost predicate RowsFollow(rows: seq<seq<real>>, ps: seq<Piece>, n: nat, raw: seq<seq<real>>, state: seq<real>, dim: nat)
    requires n <= |ps|
  {
    |rows| == |raw| && forall r :: 0 <= r < |rows| ==> RowFollows(rows[r], ps, n, raw[r], state, dim)
  }

  /** One loop body of `encode_request` / `decode_actions`: validate, claim, write every row. */
  method ApplyPiece(ghost ps: seq<Piece>, ghost n: nat, p: Piece, mapped: set<int>, rows: seq<seq<real>>,
                    raw: seq<seq<real>>, width: nat, state: seq<real>, dim: nat)
    returns (r: Option<(set<int>, seq<seq<real>>)>)
    requires forall r :: 0 <= r < |raw| ==> |raw[r]| == width
    requires n < |ps| && p == ps[n] && Claimed(mapped, ps, n, width, |state|, dim)
    requires RowsFollow(rows, ps, n, raw, state, dim)
    ensures r.None? ==> !ExactCover(ps, width, |state|, dim)
    ensures r.Some? ==> Claimed(r.value.0, ps, n + 1, width, |state|, dim) && RowsFollow(r.value.1, ps, n + 1, raw, state, dim)
  {
    if !p.from.Fixed? {
      var source := Indices(p.from.ix, if p.from.FromVector? then width else |state|);
      if source.None? || |p.from.ix| != |p.target| {
        RefusalIsRight(mapped, ps, n, width, |state|, dim);
        return None;
      }
    }
    var target := Indices(p.target, dim);
    if target.None? {
      RefusalIsRight(mapped, ps, n, width, |state|, dim);
      return None;
    }
    if exists x :: x in target.value && x in mapped {
      assert forall i :: 0 <= i < |target.value| ==> p.target[i] in p.target;
      RefusalIsRight(mapped, ps, n, width, |state|, dim);
      return None;
    }
    ClaimedOnce(mapped, ps, n, width, |state|, dim, target.value);
    forall r | 0 <= r < |rows|
      ensures RowFollows(Written(rows[r], target.value, Gathered(p, raw[r], state)), ps, n + 1, raw[r], state, dim)
    {
      RowStep(rows[r], ps, n, raw[r], state, dim, mapped, target.value);
    }
    r := Some((mapped + Elements(target.value),
               seq(|rows|, r requires 0 <= r < |rows| => Written(rows[r], target.value, Gathered(p, raw[r], state)))));
  }

  /** All pieces in order, then the check for unmapped targets. Succeeds exactly on an exact cover. */
  method Project(ps: seq<Piece>, raw: seq<seq<real>>, width: nat, state: seq<real>, dim: nat) returns (r: Option<seq<seq<real>>>)
    requires forall r :: 0 <= r < |raw| ==> |raw[r]| == width
    ensures r.Some? <==> ExactCover(ps, width, |state|, dim)
    ensures r.Some? ==> RowsFollow(r.value, ps, |ps|, raw, state, dim)
  {
    var rows := seq(|raw|, r requires 0 <= r < |raw| => Zeros(dim));
    var mapped: set<int> := {};
    assert forall r :: 0 <= r < |rows| ==> rows[r] == Zeros(dim);
    for n := 0 to |ps|
      invariant Claimed(mapped, ps, n, width, |state|, dim) && RowsFollow(rows, ps, n, raw, state, dim)
    {
      var step := ApplyPiece(ps, n, ps[n], mapped, rows, raw, width, state, dim);
      if step.None? {
        return None;
      }
      mapped, rows := step.value.0, step.value.1;
    }
    assert ps[..|ps|] == ps;
    if exists t :: 0 <= t < dim && t !in mapped {
      return None;
    }
    r := Some(rows);
  }

  // ---- What a projection means -----------------------------------------------------------------------

  /** A claimed target is claimed by some piece at some place. */
  lemma {:induction false} ClaimantExists(ps: seq<Piece>, t: int)
    requires Claims(ps, t) > 0
    ensures exists k, i :: 0 <= k < |ps| && 0 <= i < |ps[k].target| && ps[k].target[i] == Some(t)
    decreases |ps|
  {
    var init, last := ps[..|ps| - 1], ps[|ps| - 1];
    if Claims(init, t) > 0 {
      ClaimantExists(init, t);
      var k, i :| 0 <= k < |init| && 0 <= i < |init[k].target| && init[k].target[i] == Some(t);
      assert ps[k] == init[k];
    } else {
      OccurrencesPositive(last.target, t);
      var i :| 0 <= i < |last.target| && last.target[i] == Some(t);
      assert ps[|ps| - 1].target[i] == Some(t);
    }
  }

  /** In an exact cover a target has one claimant only. */
  lemma ClaimantIsUnique(ps: seq<Piece>, k: nat, i: nat, l: nat, j: nat, t: int)
    requires k < |ps| && i < |ps[k].target| && l < |ps| && j < |ps[l].target|
    requires ps[k].target[i] == ps[l].target[j] == Some(t) && Claims(ps, t) == 1
    ensures k == l && i == j
  {
    if k == l && i != j {
      OccurrencesRepeated(ps[k].target, if i < j then i else j, if i < j then j else i, t);
      ClaimsStep(ps, k, t);
      ClaimsGrow(ps, k + 1, t);
    } else if k < l {
      TwoClaimants(ps, k, l, t);
    } else if l < k {
      TwoClaimants(ps, l, k, t);
    }
  }

  lemma TwoClaimants(ps: seq<Piece>, k: nat, l: nat, t: int)
    requires k < l < |ps| && Some(t) in ps[k].target && Some(t) in ps[l].target
    ensures Claims(ps, t) >= 2
  {
    OccurrencesPositive(ps[k].target, t);
    OccurrencesPositive(ps[l].target, t);
    ClaimsStep(ps, k, t);
    ClaimsStep(ps, l, t);
    assert ps[..l][..k + 1] == ps[..k + 1];
    ClaimsGrow(ps[..l], k + 1, t);
    ClaimsGrow(ps, l + 1, t);
  }

  /** The projected row is determined: at each index it holds the value of that index's claimant. */
  lemma ProjectionIsDetermined(row: seq<real>, row': seq<real>, ps: seq<Piece>, vector: seq<real>, state: seq<real>, dim: nat)
    requires ExactCover(ps, |vector|, |state|, dim)
    requires RowFollows(row, ps, |ps|, vector, state, dim) && RowFollows(row', ps, |ps|, vector, state, dim)
    ensures row == row'
  {
    forall t | 0 <= t < dim ensures row[t] == row'[t] {
      ClaimantExists(ps, t);
      var k, i :| 0 <= k < |ps| && 0 <= i < |ps[k].target| && ps[k].target[i] == Some(t);
      assert Honours(row, ps[k], vector, state) && Honours(row', ps[k], vector, state);
    }
  }

  lemma {:induction false} ClaimsWithout(ps: seq<Piece>, k: nat, t: int)
    requires k < |ps|
    ensures Claims(ps, t) == Claims(ps[..k] + ps[k + 1..], t) + Occurrences(ps[k].target, t)
    decreases |ps|
  {
    var init, last := ps[..|ps| - 1], ps[|ps| - 1];
    if k < |init| {
      ClaimsWithout(init, k, t);
      var rest := ps[..k] + ps[k + 1..];
      assert rest[..|rest| - 1] == init[..k] + init[k + 1..] && rest[|rest| - 1] == last;
    } else {
      assert ps[..k] + ps[k + 1..] == init;
    }
  }

  function Without(ps: seq<Piece>, k: nat): seq<Piece>
    requires k < |ps|
  {
    ps[..k] + ps[k + 1..]
  }

  lemma WithoutOne(ps: seq<Piece>, k: nat)
    requires k < |ps|
    ensures multiset(Without(ps, k)) == multiset(ps) - multiset{ps[k]}
  {
    assert ps == ps[..k] + [ps[k]] + ps[k + 1..];
  }

  /** Every element of a list stands somewhere in a permutation of it. */
  lemma Elsewhere(ps: seq<Piece>, ps': seq<Piece>, k: nat) returns (l: nat)
    requires multiset(ps) == multiset(ps') && k < |ps|
    ensures l < |ps'| && ps'[l] == ps[k]
  {
    assert ps[k] in multiset(ps);
    assert ps[k] in ps';
    l :| 0 <= l < |ps'| && ps'[l] == ps[k];
  }

  lemma RemovalKeepsPermutation(ps: seq<Piece>, ps': seq<Piece>, k: nat)
    requires multiset(ps) == multiset(ps') && ps != [] && k < |ps'| && ps'[k] == ps[|ps| - 1]
    ensures multiset(Without(ps', k)) == multiset(ps[..|ps| - 1])
  {
    WithoutOne(ps', k);
    WithoutOne(ps, |ps| - 1);
    assert Without(ps, |ps| - 1) == ps[..|ps| - 1];
  }

  lemma {:induction false} ClaimsPermute(ps: seq<Piece>, ps': seq<Piece>, t: int)
    requires multiset(ps) == multiset(ps')
    ensures Claims(ps, t) == Claims(ps', t)
    decreases |ps|
  {
    if ps == [] {
      assert |multiset(ps')| == 0;
    } else {
      var k := Elsewhere(ps, ps', |ps| - 1);
      RemovalKeepsPermutation(ps, ps', k);
      ClaimsPermute(ps[..|ps| - 1], Without(ps', k), t);
      ClaimsWithout(ps', k, t);
    }
  }

  /** The order in which items are configured never matters: neither to success nor to the result. */
  lemma OrderIsIrrelevant(ps: seq<Piece>, ps': seq<Piece>, width: nat, held: nat, dim: nat, row: seq<real>, vector: seq<real>, state: seq<real>)
    requires multiset(ps) == multiset(ps')
    ensures ExactCover(ps, width, held, dim) <==> ExactCover(ps', width, held, dim)
    ensures RowFollows(row, ps, |ps|, vector, state, dim) <==> RowFollows(row, ps', |ps'|, vector, state, dim)
  {
    forall t ensures Claims(ps, t) == Claims(ps', t) { ClaimsPermute(ps, ps', t); }
    ReorderedPieces(ps, ps', width, held, dim, row, vector, state);
    ReorderedPieces(ps', ps, width, held, dim, row, vector, state);
  }

  lemma ReorderedPieces(ps: seq<Piece>, ps': seq<Piece>, width: nat, held: nat, dim: nat, row: seq<real>, vector: seq<real>, state: seq<real>)
    requires multiset(ps) == multiset(ps')
    ensures (forall k :: 0 <= k < |ps'| ==> Fits(ps'[k], width, held, dim)) ==> forall k :: 0 <= k < |ps| ==> Fits(ps[k], width, held, dim)
    ensures RowFollows(row, ps', |ps'|, vector, state, dim) ==> RowFollows(row, ps, |ps|, vector, state, dim)
  {
    forall k | 0 <= k < |ps|
      ensures (forall l :: 0 <= l < |ps'| ==> Fits(ps'[l], width, held, dim)) ==> Fits(ps[k], width, held, dim)
      ensures RowFollows(row, ps', |ps'|, vector, state, dim) ==> Honours(row, ps[k], vector, state)
    {
      var l := Elsewhere(ps, ps', k);
    }
  }

  // ---- The adapter -----------------------------------------------------------------------------------------

  datatype Config = Config(
    requestDim: int, requestSlices: seq<Copy>, requestConstants: seq<Constant>,
    actionDim: int, actionSlices: seq<Copy>, stateHolds: seq<Copy>, actionConstants: seq<Constant>)

  function RequestPieces(cfg: Config): seq<Piece> { Pieces(cfg.requestSlices, [], cfg.requestConstants) }

  function ActionPieces(cfg: Config): seq<Piece> { Pieces(cfg.actionSlices, cfg.stateHolds, cfg.actionConstants) }

  /** The actions a response carries, by shape. */
  datatype Payload = Absent | Flat(values: seq<real>) | Grid(rows: seq<seq<real>>, width: nat) | OtherShape

  ghost predicate WellShaped(p: Payload) {
    p.Grid? ==> forall r :: 0 <= r < |p.rows| ==> |p.rows[r]| == p.width
  }

  function RowsOf(p: Payload): seq<seq<real>> { if p.Flat? then [p.values] else if p.Grid? then p.rows else [] }

  function WidthOf(p: Payload): nat { if p.Flat? then |p.values| else if p.Grid? then p.width else 0 }

  class OpenPIEndpointAdapter {
    const cfg: Config
    var lastState: Option<seq<real>>

    constructor (cfg: Config)
      ensures this.cfg == cfg && lastState == None
    {
      this.cfg, lastState := cfg, None;
    }

    /** Map a measured state into the request. `rest` says whether images and prompt could be encoded.
        The state is remembered exactly when the whole request was. */
    method EncodeRequest(observed: Option<seq<real>>, rest: bool) returns (r: Option<seq<real>>)
      modifies this
      ensures lastState == if r.Some? then observed else old(lastState)
      ensures r.Some? <==> observed.Some? && rest && cfg.requestDim >= 0
                           && (cfg.requestDim == 0 || ExactCover(RequestPieces(cfg), |observed.value|, 0, cfg.requestDim))
      ensures r.Some? && cfg.requestDim == 0 ==> r == observed
      ensures r.Some? && cfg.requestDim > 0 ==>
                RowFollows(r.value, RequestPieces(cfg), |RequestPieces(cfg)|, observed.value, [], cfg.requestDim)
    {
      if observed.None? || cfg.requestDim < 0 {
        return None;
      }
      var state := observed.value;
      if cfg.requestDim > 0 {
        var projected := Project(RequestPieces(cfg), [observed.value], |observed.value|, [], cfg.requestDim);
        if projected.None? {
          return None;
        }
        state := projected.value[0];
      }
      if !rest {
        return None;
      }
      lastState := observed;
      r := Some(state);
    }

    /** Map the response's rows into actions. */
    method DecodeActions(response: Payload) returns (r: Option<seq<seq<real>>>)
      requires WellShaped(response)
      ensures r.Some? <==> |RowsOf(response)| > 0 && cfg.actionDim >= 0
                           && (cfg.actionDim == 0 ||
                               (&& (cfg.stateHolds == [] || lastState.Some?)
                                && ExactCover(ActionPieces(cfg), WidthOf(response), |Held(lastState)|, cfg.actionDim)))
      ensures r.Some? && cfg.actionDim == 0 ==>
                (response.Flat? && r.value == [response.values]) || (response.Grid? && r.value == response.rows)
      ensures r.Some? && cfg.actionDim > 0 ==>
                RowsFollow(r.value, ActionPieces(cfg), |ActionPieces(cfg)|, RowsOf(response), Held(lastState), cfg.actionDim)
    {
      var raw := RowsOf(response);
      if raw == [] || cfg.actionDim < 0 {
        return None;
      }
      if cfg.actionDim == 0 {
        return Some(raw);
      }
      if cfg.stateHolds != [] && lastState.None? {
        return None;
      }
      r := Project(ActionPieces(cfg), raw, WidthOf(response), Held(lastState), cfg.actionDim);
    }
  }

  function Held(state: Option<seq<real>>): seq<real> { if state.Some? then state.value else [] }

  /** A request copy `s -> t` undone by a response copy `t -> s` returns the measured value, whatever else
      either side maps, if the policy echoes that entry. */
  lemma CopiesUndo(cfg: Config, x: seq<real>, sent: seq<real>, echoed: seq<real>, action: seq<real>, held: seq<real>,
                   k: nat, i: nat, l: nat, j: nat, s: nat, t: nat)
    requires cfg.requestDim >= 0 && cfg.actionDim >= 0
    requires RowFollows(sent, RequestPieces(cfg), |RequestPieces(cfg)|, x, [], cfg.requestDim)
    requires RowFollows(action, ActionPieces(cfg), |ActionPieces(cfg)|, echoed, held, cfg.actionDim)
    requires k < |cfg.requestSlices| && Pairs(cfg.requestSlices[k], i, s, t)
    requires l < |cfg.actionSlices| && Pairs(cfg.actionSlices[l], j, t, s)
    requires t < |sent| && t < |echoed| && echoed[t] == sent[t]
    ensures s < |x| && s < |action| && action[s] == x[s]
  {
    assert Honours(sent, RequestPieces(cfg)[k], x, []);
    assert Honours(action, ActionPieces(cfg)[l], echoed, held);
  }

  predicate Pairs(c: Copy, i: nat, s: nat, t: nat) {
    i < |c.source| && i < |c.target| && c.source[i] == Some(s) && c.target[i] == Some(t)
  }

  /** A response that only swaps the request's copies is its inverse. */
  lemma SwappedConfigIsInverse(cfg: Config, x: seq<real>, sent: seq<real>, action: seq<real>, held: seq<real>)
    requires cfg.stateHolds == [] && cfg.actionConstants == [] && |cfg.actionSlices| == |cfg.requestSlices|
    requires forall k :: 0 <= k < |cfg.actionSlices| ==>
               cfg.actionSlices[k] == Copy(cfg.requestSlices[k].target, cfg.requestSlices[k].source)
    requires cfg.actionDim == |x| && cfg.requestDim >= 0
    requires RowFollows(sent, RequestPieces(cfg), |RequestPieces(cfg)|, x, [], cfg.requestDim)
    requires ExactCover(ActionPieces(cfg), |sent|, |held|, cfg.actionDim)
    requires RowFollows(action, ActionPieces(cfg), |ActionPieces(cfg)|, sent, held, cfg.actionDim)
    ensures action == x
  {
    forall s | 0 <= s < |x| ensures action[s] == x[s] {
      ClaimantExists(ActionPieces(cfg), s);
      var k, i :| 0 <= k < |ActionPieces(cfg)| && 0 <= i < |ActionPieces(cfg)[k].target| && ActionPieces(cfg)[k].target[i] == Some(s);
      assert Honours(action, ActionPieces(cfg)[k], sent, held);
      CopiesUndo(cfg, x, sent, sent, action, held, k, i, k, i, s, cfg.requestSlices[k].target[i].value);
    }
  }

  /** What a request carries: each copied entry the measured value, each constant entry its number. */
  lemma RequestCarries(cfg: Config, x: seq<real>, sent: seq<real>, k: nat, i: nat, s: nat, t: nat)
    requires cfg.requestDim >= 0 && RowFollows(sent, RequestPieces(cfg), |RequestPieces(cfg)|, x, [], cfg.requestDim)
    ensures k < |cfg.requestSlices| && Pairs(cfg.requestSlices[k], i, s, t) ==> s < |x| && t < |sent| && sent[t] == x[s]
    ensures k < |cfg.requestConstants| && i < |cfg.requestConstants[k].target| && cfg.requestConstants[k].target[i] == Some(t) ==>
              t < |sent| && sent[t] == cfg.requestConstants[k].value
  {
    var ps := RequestPieces(cfg);
    if k < |cfg.requestSlices| { assert Honours(sent, ps[k], x, []); }
    if k < |cfg.requestConstants| { assert Honours(sent, ps[|cfg.requestSlices| + k], x, []); }
  }

  /** What an action carries: each copied entry the policy's value, each held entry the measured one, each constant
      entry its number. */
  lemma ActionCarries(cfg: Config, raw: seq<real>, held: seq<real>, action: seq<real>, k: nat, i: nat, s: nat, t: nat)
    requires cfg.actionDim >= 0 && RowFollows(action, ActionPieces(cfg), |ActionPieces(cfg)|, raw, held, cfg.actionDim)
    ensures k < |cfg.actionSlices| && Pairs(cfg.actionSlices[k], i, s, t) ==> s < |raw| && t < |action| && action[t] == raw[s]
    ensures k < |cfg.stateHolds| && Pairs(cfg.stateHolds[k], i, s, t) ==> s < |held| && t < |action| && action[t] == held[s]
    ensures k < |cfg.actionConstants| && i < |cfg.actionConstants[k].target| && cfg.actionConstants[k].target[i] == Some(t) ==>
              t < |action| && action[t] == cfg.actionConstants[k].value
  {
    var ps := ActionPieces(cfg);
    if k < |cfg.actionSlices| { assert Honours(action, ps[k], raw, held); }
    if k < |cfg.stateHolds| { assert Honours(action, ps[|cfg.actionSlices| + k], raw, held); }
    if k < |cfg.actionConstants| { assert Honours(action, ps[|cfg.actionSlices| + |cfg.stateHolds| + k], raw, held); }
  }
}
