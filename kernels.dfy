// Parameter serialisation of BOOM's Gaussian-process mean functions and
// kernels. Every parameterised object offers `size`, `vectorize` (its
// parameters as a flat vector) and `unvectorize` (read the parameters back
// from a position in a flat vector, returning the position just past them).
// A position in a vector is modelled as a natural-number offset.

module GpKernels {

  /** The mean function that is identically zero; it has no parameters. */
  datatype ZeroFunction = ZeroFunction
  {
    /** Number of parameters, for either value of `minimal`. */
    function Size(minimal: bool): (n: nat)
      ensures n == 0
    {
      0
    }

    /** The function's value at predictor vector x. */
    function Eval(x: seq<real>): (y: real)
      ensures y == 0.0
    {
      0.0
    }

    /** The parameters as a flat vector: exactly Size(minimal) of them. */
    function Vectorize(minimal: bool): (v: seq<real>)
      ensures |v| == Size(minimal)
    {
      []
    }

    /** Reads Size(minimal) parameters from position pos of v and returns the position after them. */
    function UnvectorizeFrom(v: seq<real>, pos: nat, minimal: bool): (next: nat)
      ensures next == pos + Size(minimal)
    {
      pos
    }

    /** As UnvectorizeFrom, starting at the beginning of v; the result is where v starts. */
    function Unvectorize(v: seq<real>, minimal: bool): (next: nat)
      ensures next == Size(minimal)
    {
      0
    }
  }

  /** Reading back what Vectorize wrote consumes all of it, for either value of `minimal`. */
  lemma ZeroFunctionRoundTrip(f: ZeroFunction, m: bool, m': bool)
    ensures f.Unvectorize(f.Vectorize(m), m') == |f.Vectorize(m)|
  {
  }

  /**
   * The radial basis function kernel. Its one parameter is `scale`, which
   * Vectorize returns and Unvectorize consumes.
   */
  class RadialBasisFunction
  {
    var scale: real

    constructor (scale: real)
      ensures this.scale == scale
    {
      this.scale := scale;
    }

    /** Number of parameters, whatever `minimal` says. */
    static function Size(minimal: bool): (n: nat)
      ensures n == 1
    {
      1
    }

    function Scale(): real
      reads this
    {
      scale
    }

    method SetScale(scale: real)
      modifies this
      ensures this.scale == scale
    {
      this.scale := scale;
    }

    /** The parameters as a flat vector: Size(minimal) values, the scale first. */
    function Vectorize(minimal: bool): (v: seq<real>)
      reads this
      ensures |v| == Size(minimal) && v[0] == Scale()
    {
      [scale]
    }

    /**
     * Reads the parameters from position pos of v and returns the position
     * just past them: afterwards the kernel vectorizes to exactly the slice it
     * consumed.
     */
    method UnvectorizeFrom(v: seq<real>, pos: nat, minimal: bool) returns (next: nat)
      requires pos + Size(minimal) <= |v|
      modifies this
      ensures next == pos + Size(minimal)
      ensures Vectorize(minimal) == v[pos..next]
    {
      scale := v[pos];
      next := pos + 1;
    }

    /** As UnvectorizeFrom, starting at the beginning of v. */
    method Unvectorize(v: seq<real>, minimal: bool) returns (next: nat)
      requires Size(minimal) <= |v|
      modifies this
      ensures next == Size(minimal)
      ensures Vectorize(minimal) == v[..next]
    {
      next := UnvectorizeFrom(v, 0, minimal);
    }
  }

  /**
   * Writing the kernel's parameters out and reading them back leaves the
   * kernel with the scale it had, and consumes the whole vector.
   */
  method RadialBasisRoundTrip(k: RadialBasisFunction, minimal: bool, minimal': bool) returns (consumed: nat)
    modifies k
    ensures k.Scale() == old(k.Scale())
    ensures consumed == |old(k.Vectorize(minimal))|
  {
    var v := k.Vectorize(minimal);
    consumed := k.Unvectorize(v, minimal');
  }
}
