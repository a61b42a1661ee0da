/** Discrete control commands and their vector form on the command ring. */
module Message {
  import opened Wrappers
  import opened Reals

  /** The command kinds; `Code` is the integer written into slot 0 of the vector. */
  datatype Kind = NoOp | Home | Stop | SwitchMode | ServoOn

  datatype Command = Command(kind: Kind, args: seq<real>)

  const STOP_CODE := 2

  function Code(k: Kind): (c: int)
    ensures 0 <= c < 5
    ensures c == STOP_CODE <==> k == Stop
  {
    match k
    case NoOp => 0
    case Home => 1
    case Stop => 2
    case SwitchMode => 3
    case ServoOn => 4
  }

  function KindOf(code: int): (k: Option<Kind>)
    ensures k.Some? ==> Code(k.value) == code
    ensures k.None? ==> code < 0 || 5 <= code
  {
    if code == 0 then Some(NoOp)
    else if code == 1 then Some(Home)
    else if code == 2 then Some(Stop)
    else if code == 3 then Some(SwitchMode)
    else if code == 4 then Some(ServoOn)
    else None
  }

  /** `ControlCommand.encode`: kind, arguments, zero padding; too many arguments is an error. */
  method Encode(c: Command, dim: nat) returns (r: Option<seq<real>>)
    ensures r.None? <==> dim < 1 + |c.args|
    ensures r.Some? ==> r.value == Encoded(c, dim)
  {
    if 1 + |c.args| > dim {
      return None;
    }
    var v := new real[dim](_ => 0.0);
    v[0] := Code(c.kind) as real;
    for i := 0 to |c.args|
      invariant v[0] == Code(c.kind) as real
      invariant forall k :: 0 <= k < i ==> v[1 + k] == c.args[k]
      invariant forall k :: i < k < dim ==> v[k] == 0.0
    {
      v[1 + i] := c.args[i];
    }
    assert v[..] == Encoded(c, dim);
    r := Some(v[..]);
  }

  function Encoded(c: Command, dim: nat): (v: seq<real>)
    requires 1 + |c.args| <= dim
    ensures |v| == dim
  {
    [Code(c.kind) as real] + c.args + Zeros(dim - 1 - |c.args|)
  }

  /** Python's `round`: nearest integer, ties to even. */
  function RoundHalfEven(x: real): (n: int)
    ensures n as real - 0.5 <= x <= n as real + 0.5
    ensures x == n as real - 0.5 || x == n as real + 0.5 ==> n % 2 == 0
  {
    var f := x.Floor;
    var rest := x - f as real;
    if rest < 0.5 || (rest == 0.5 && f % 2 == 0) then f else f + 1
  }

  /** C's `llround`: nearest integer, ties away from zero. */
  function LlRound(x: real): (n: int)
    ensures n as real - 0.5 <= x <= n as real + 0.5
    ensures (x == n as real + 0.5 ==> x < 0.0) && (x == n as real - 0.5 ==> x > 0.0)
  {
    if x >= 0.0 then (x + 0.5).Floor else -((0.5 - x).Floor)
  }

  /** `static_cast<int>` of a 64-bit integer: keep the low 32 bits, two's complement. */
  function ToInt32(n: int): (r: int)
    ensures -0x8000_0000 <= r < 0x8000_0000
    ensures -0x8000_0000 <= n < 0x8000_0000 ==> r == n
    ensures (n - r) % 0x1_0000_0000 == 0
  {
    (n + 0x8000_0000) % 0x1_0000_0000 - 0x8000_0000
  }

  /** `ControlCommand.decode`: an unknown kind is an error; trailing zeros stay as arguments. */
  function Decode(row: seq<real>): Option<Command> {
    if |row| == 0 then None else
      var k := KindOf(RoundHalfEven(row[0]));
      if k.None? then None else Some(Command(k.value, row[1..]))
  }

  /** The native controller's test for a stop row. */
  predicate IsStopRow(row: seq<real>) {
    |row| > 0 && ToInt32(LlRound(row[0])) == STOP_CODE
  }

  /** Decoding an encoded command restores it, its arguments padded to the channel width. */
  lemma EncodeDecode(c: Command, dim: nat)
    requires 1 + |c.args| <= dim
    ensures Decode(Encoded(c, dim)) == Some(Command(c.kind, c.args + Zeros(dim - 1 - |c.args|)))
  {
    var v := Encoded(c, dim);
    assert v[0] == Code(c.kind) as real;
    assert RoundHalfEven(v[0]) == Code(c.kind);
    assert v[1..] == c.args + Zeros(dim - 1 - |c.args|);
  }

  /** The native controller halts on exactly the encoded STOP commands, whatever their arguments. */
  lemma StopRowIffStop(c: Command, dim: nat)
    requires 1 + |c.args| <= dim
    ensures IsStopRow(Encoded(c, dim)) <==> c.kind == Stop
  {
    var v := Encoded(c, dim);
    assert v[0] == Code(c.kind) as real;
    assert LlRound(v[0]) == Code(c.kind);
  }
}
