/** The setpoint channel: streamed command fields packed into one vector and sliced again. */
module Channel {
  import opened Wrappers
  import opened Reals
  import opened Layout

  /** Every streamed field is there. */
  predicate Has(streamed: seq<Field>, fields: map<Field, seq<real>>) {
    forall i :: 0 <= i < |streamed| ==> streamed[i] in fields
  }

  /** `pack_streamed`: the fields end to end, in streamed order. */
  function Streamed(streamed: seq<Field>, fields: map<Field, seq<real>>): (v: seq<real>)
    requires Has(streamed, fields)
    decreases |streamed|
  {
    if streamed == [] then [] else Streamed(streamed[..|streamed| - 1], fields) + fields[streamed[|streamed| - 1]]
  }

  datatype FieldSlice = FieldSlice(field: Field, start: nat, stop: nat)

  /** Sum of the first `n` configured widths. */
  function Offset(streamed: seq<Field>, command: map<Field, nat>, n: nat): nat
    requires n <= |streamed| && forall i :: 0 <= i < |streamed| ==> streamed[i] in command
  {
    if n == 0 then 0 else Offset(streamed, command, n - 1) + command[streamed[n - 1]]
  }

  /** `streamed_layout`; a streamed field without a configured width is a KeyError. */
  method StreamedLayout(c: Control) returns (r: Option<seq<FieldSlice>>)
    ensures r.Some? <==> forall i :: 0 <= i < |c.streamed| ==> c.streamed[i] in c.command
    ensures r.Some? ==> |r.value| == |c.streamed| && forall i :: 0 <= i < |c.streamed| ==>
              r.value[i] == FieldSlice(c.streamed[i], Offset(c.streamed, c.command, i), Offset(c.streamed, c.command, i + 1))
  {
    var slices, offset := [], 0;
    ghost var known := forall i :: 0 <= i < |c.streamed| ==> c.streamed[i] in c.command;
    for n := 0 to |c.streamed|
      invariant forall i :: 0 <= i < n ==> c.streamed[i] in c.command
      invariant |slices| == n && (known ==> offset == Offset(c.streamed, c.command, n))
      invariant known ==> forall i :: 0 <= i < n ==>
                  slices[i] == FieldSlice(c.streamed[i], Offset(c.streamed, c.command, i), Offset(c.streamed, c.command, i + 1))
    {
      if c.streamed[n] !in c.command {
        return None;
      }
      var d := c.command[c.streamed[n]];
      slices := slices + [FieldSlice(c.streamed[n], offset, offset + d)];
      offset := offset + d;
    }
    r := Some(slices);
  }

  /** Python's `v[start:stop]`. */
  function Sliced(v: seq<real>, start: nat, stop: nat): seq<real> {
    if start >= |v| || start >= stop then [] else if stop <= |v| then v[start..stop] else v[start..]
  }

  /** Every field has its configured width. */
  ghost predicate Sized(c: Control, fields: map<Field, seq<real>>) {
    forall i :: 0 <= i < |c.streamed| ==>
      c.streamed[i] in c.command && c.streamed[i] in fields && |fields[c.streamed[i]]| == c.command[c.streamed[i]]
  }

  /** The setpoint ring takes the packed fields: they are all there and together have the ring's width. */
  predicate Accepts(c: Control, fields: map<Field, seq<real>>) {
    && Has(c.streamed, fields) && (forall i :: 0 <= i < |c.streamed| ==> c.streamed[i] in c.command)
    && |Streamed(c.streamed, fields)| == Offset(c.streamed, c.command, |c.streamed|)
  }

  /** Fields of their configured widths are always accepted. */
  lemma SizedIsAccepted(c: Control, fields: map<Field, seq<real>>)
    requires Sized(c, fields)
    ensures Accepts(c, fields)
  {
    StreamedLength(c, fields, |c.streamed|);
    assert c.streamed[..|c.streamed|] == c.streamed;
  }

  lemma {:induction false} StreamedLength(c: Control, fields: map<Field, seq<real>>, n: nat)
    requires Sized(c, fields) && n <= |c.streamed|
    ensures Has(c.streamed[..n], fields) && |Streamed(c.streamed[..n], fields)| == Offset(c.streamed, c.command, n)
    decreases n
  {
    if n > 0 {
      StreamedLength(c, fields, n - 1);
      assert c.streamed[..n][..n - 1] == c.streamed[..n - 1];
    }
  }

  lemma {:induction false} StreamedGrows(streamed: seq<Field>, fields: map<Field, seq<real>>, n: nat)
    requires Has(streamed, fields) && n <= |streamed|
    ensures Has(streamed[..n], fields) && Streamed(streamed[..n], fields) <= Streamed(streamed, fields)
    decreases |streamed| - n
  {
    if n < |streamed| {
      StreamedGrows(streamed, fields, n + 1);
      assert streamed[..n + 1][..n] == streamed[..n];
    } else {
      assert streamed[..n] == streamed;
    }
  }

  /** What the arm slices out of a setpoint is what the brain packed into it. */
  lemma SliceUndoesPack(c: Control, fields: map<Field, seq<real>>, i: nat)
    requires Sized(c, fields) && i < |c.streamed|
    ensures Has(c.streamed, fields)
    ensures Sliced(Streamed(c.streamed, fields), Offset(c.streamed, c.command, i), Offset(c.streamed, c.command, i + 1)) == fields[c.streamed[i]]
  {
    StreamedLength(c, fields, i);
    StreamedLength(c, fields, i + 1);
    StreamedGrows(c.streamed, fields, i + 1);
    var upto := Streamed(c.streamed[..i + 1], fields);
    assert c.streamed[..i + 1][..i] == c.streamed[..i];
    assert upto == Streamed(c.streamed[..i], fields) + fields[c.streamed[i]];
  }

  /** The fields the teleop loop fills. */
  function JointFields(q: seq<real>): map<Field, seq<real>> { map[Qd := q, DqD := Zeros(|q|)] }
}
