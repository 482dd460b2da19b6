/** Types and numbers shared by the unwinder models. */
module Basics {

  datatype Option<+T> = None | Some(value: T)

  datatype DwarfError =
    | MemoryInvalid
    | IllegalValue
    | IllegalState
    | StackIndexNotValid
    | NotImplemented
    | TooManyIterations
    | CfaNotDefined

  datatype Result<+T> = Success(value: T) | Failure(error: DwarfError) {
    predicate IsFailure() {
      Failure?
    }

    function PropagateFailure<U>(): Result<U>
      requires Failure?
    {
      Failure(error)
    }

    function Extract(): T
      requires Success?
    {
      value
    }
  }

  const TWO32: nat := 0x1_0000_0000
  const TWO64: nat := 0x1_0000_0000_0000_0000

  /** The two instantiations of the templates: `AddressType` is uint32_t or uint64_t. */
  datatype Width = W32 | W64 {

    function Modulus(): nat {
      match this
      case W32 => TWO32
      case W64 => TWO64
    }

    function Bytes(): nat {
      match this
      case W32 => 4
      case W64 => 8
    }

    /** A cast to `AddressType`. */
    function Truncate(x: int): nat {
      x % Modulus()
    }

    /** A cast to `SignedType`. */
    function Signed(x: int): int {
      var u := Truncate(x);
      if 2 * u >= Modulus() then u - Modulus() else u
    }

    /** A cast to `SignedType` and from there to uint64_t. */
    function SignExtend(x: int): nat {
      Signed(x) % TWO64
    }
  }

  lemma MultipleBound(m: int, d: int)
    requires m > 0
    ensures d >= 1 ==> m * d >= m
    ensures d <= -1 ==> m * d <= -m
  {
  }

  /** Numbers that differ by a multiple of the modulus have the same residue. */
  lemma SameResidue(w: Width, a: int, b: int, k: int)
    requires a == b + w.Modulus() * k
    ensures w.Truncate(a) == w.Truncate(b)
  {
    var m: int := w.Modulus();
    var d := a / m - b / m - k;
    assert m * d == w.Truncate(b) - w.Truncate(a) by {
      assert a == m * (a / m) + w.Truncate(a);
      assert b == m * (b / m) + w.Truncate(b);
      assert m * d == m * (a / m) - m * (b / m) - m * k;
    }
    MultipleBound(m, d);
  }

  lemma SmallIsKept(w: Width, x: nat)
    requires x < w.Modulus()
    ensures w.Truncate(x) == x
  {
  }

  /** A signed cast keeps the residue. */
  lemma SignedResidue(w: Width, x: int)
    ensures w.Truncate(w.Signed(x)) == w.Truncate(x)
    ensures 0 <= 2 * w.Signed(x) + w.Modulus() < 2 * w.Modulus()
  {
    var m: int := w.Modulus();
    var k := if 2 * w.Truncate(x) >= m then -(x / m) - 1 else -(x / m);
    assert m * (-(x / m) - 1) == -(m * (x / m)) - m && m * -(x / m) == -(m * (x / m));
    SameResidue(w, w.Signed(x), x, k);
  }
}
