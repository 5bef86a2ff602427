/**
 * Altitudes as JavaScript numbers: finite values together with the two
 * infinities that the plugins use as "nothing seen yet" sentinels. NaN never
 * arises in the modelled code, so it is not represented.
 */
module ExtendedReals {

  datatype ExtReal = NegInf | Fin(value: real) | PosInf

  /** JavaScript `a <= b` on numbers other than NaN. */
  predicate Le(a: ExtReal, b: ExtReal) {
    a.NegInf? || b.PosInf? || (a.Fin? && b.Fin? && a.value <= b.value)
  }

  /** JavaScript `a < b` on numbers other than NaN. */
  predicate Lt(a: ExtReal, b: ExtReal) {
    Le(a, b) && a != b
  }

  /** `Math.min(a, b)`: the lesser of the two. */
  function Min(a: ExtReal, b: ExtReal): (r: ExtReal)
    ensures Le(r, a) && Le(r, b)
    ensures r == a || r == b
  {
    if Le(a, b) then a else b
  }

  /** `Math.max(a, b)`: the greater of the two. */
  function Max(a: ExtReal, b: ExtReal): (r: ExtReal)
    ensures Le(a, r) && Le(b, r)
    ensures r == a || r == b
  {
    if Le(a, b) then b else a
  }

  /**
   * `Math.min(...args)`: the least argument, and `Infinity` when called with
   * no argument at all.
   */
  function MathMin(args: seq<ExtReal>): (r: ExtReal)
    ensures forall i :: 0 <= i < |args| ==> Le(r, args[i])
    ensures r == PosInf <==> forall i :: 0 <= i < |args| ==> args[i] == PosInf
    ensures args != [] ==> exists i :: 0 <= i < |args| && r == args[i]
    decreases |args|
  {
    if args == [] then PosInf
    else
      var rest := MathMin(args[..|args| - 1]);
      assert forall i :: 0 <= i < |args| - 1 ==> args[..|args| - 1][i] == args[i];
      Min(rest, args[|args| - 1])
  }

  /**
   * `Math.max(...args)`: the greatest argument, and `-Infinity` when called
   * with no argument at all.
   */
  function MathMax(args: seq<ExtReal>): (r: ExtReal)
    ensures forall i :: 0 <= i < |args| ==> Le(args[i], r)
    ensures r == NegInf <==> forall i :: 0 <= i < |args| ==> args[i] == NegInf
    ensures args != [] ==> exists i :: 0 <= i < |args| && r == args[i]
    decreases |args|
  {
    if args == [] then NegInf
    else
      var rest := MathMax(args[..|args| - 1]);
      assert forall i :: 0 <= i < |args| - 1 ==> args[..|args| - 1][i] == args[i];
      Max(rest, args[|args| - 1])
  }
}
