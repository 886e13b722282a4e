/** Polynomials over GF(2) as coefficient sequences, highest degree first, and division with remainder. */
module Gf2 {
  type Poly = seq<bool>

  function Zeros(n: nat): (z: Poly)
    ensures |z| == n && forall i :: 0 <= i < n ==> !z[i]
  {
    seq(n, _ => false)
  }

  function Add(a: Poly, b: Poly): (c: Poly)
    requires |a| == |b|
    ensures |c| == |a| && forall i :: 0 <= i < |a| ==> c[i] == (a[i] != b[i])
  {
    seq(|a|, i requires 0 <= i < |a| => a[i] != b[i])
  }

  /** Add r to the leading coefficients of f. */
  function AddFront(f: Poly, r: Poly): (g: Poly)
    requires |r| <= |f|
    ensures |g| == |f|
  {
    Add(f[..|r|], r) + f[|r|..]
  }

  lemma AddFrontAll(f: Poly, r: Poly)
    requires |f| == |r|
    ensures AddFront(f, r) == Add(f, r)
  {
    assert f[..|r|] == f;
  }

  /** The product q*g; one of |q| and |g| coefficients has |q| + |g| - 1. */
  function Mul(q: Poly, g: Poly): (m: Poly)
    requires |g| > 0
    ensures |m| == |q| + |g| - 1
  {
    if q == [] then Zeros(|g| - 1)
    else Add((if q[0] then g else Zeros(|g|)) + Zeros(|q| - 1), [false] + Mul(q[1..], g))
  }

  /** Drop the leading coefficient of f, subtracting the monic divisor x^|p| + p when it is one. */
  function Cancel(f: Poly, p: Poly): (g: Poly)
    requires |f| > |p|
    ensures |g| == |f| - 1
    ensures forall i :: 0 <= i < |g| ==> g[i] == (f[1..][i] != (f[0] && i < |p| && p[i]))
  {
    if f[0] then AddFront(f[1..], p) else f[1..]
  }

  /** Schoolbook long division by x^|p| + p: the remainder. */
  function Remainder(f: Poly, p: Poly): (r: Poly)
    requires |f| >= |p|
    ensures |r| == |p|
    decreases |f|
  {
    if |f| == |p| then f else Remainder(Cancel(f, p), p)
  }

  /** Schoolbook long division by x^|p| + p: the quotient. */
  function Quotient(f: Poly, p: Poly): (q: Poly)
    requires |f| >= |p|
    ensures |q| == |f| - |p|
    decreases |f|
  {
    if |f| == |p| then [] else [f[0]] + Quotient(Cancel(f, p), p)
  }

  /** q*(x^|p| + p) + r. */
  function Combine(q: Poly, r: Poly, p: Poly): (f: Poly)
    requires |r| == |p|
    ensures |f| == |q| + |p|
  {
    Add(Mul(q, [true] + p), Zeros(|q|) + r)
  }

  lemma CombineTop(q: Poly, r: Poly, p: Poly)
    requires |r| == |p| && q != []
    ensures Combine(q, r, p)[0] == q[0]
  {
    var g := [true] + p;
    assert ((if q[0] then g else Zeros(|g|)) + Zeros(|q| - 1))[0] == q[0];
    assert !([false] + Mul(q[1..], g))[0] && !(Zeros(|q|) + r)[0];
  }

  /** Below its top, q*g + r differs from q'*g + r by the divisor's tail when q starts with one. */
  lemma CombineTail(q: Poly, r: Poly, p: Poly, i: nat)
    requires |r| == |p| && q != [] && i < |q| + |p| - 1
    ensures Combine(q, r, p)[1..][i] == (Combine(q[1..], r, p)[i] != (q[0] && i < |p| && p[i]))
  {
    var g := [true] + p;
    var head := (if q[0] then g else Zeros(|g|)) + Zeros(|q| - 1);
    assert head[i + 1] == (q[0] && i < |p| && p[i]);
    assert ([false] + Mul(q[1..], g))[i + 1] == Mul(q[1..], g)[i];
    assert (Zeros(|q|) + r)[i + 1] == (Zeros(|q| - 1) + r)[i];
  }

  /** Cancelling the top of q*g + r leaves q'*g + r, where q' is q without its top. */
  lemma CancelCombine(q: Poly, r: Poly, p: Poly)
    requires |r| == |p| && q != []
    ensures Combine(q, r, p)[0] == q[0]
    ensures Cancel(Combine(q, r, p), p) == Combine(q[1..], r, p)
  {
    hide Combine, Mul;
    CombineTop(q, r, p);
    forall i | 0 <= i < |q| + |p| - 1 ensures Cancel(Combine(q, r, p), p)[i] == Combine(q[1..], r, p)[i] {
      CombineTail(q, r, p, i);
    }
  }

  /** Division leaves nothing over: f is quotient times divisor plus remainder. */
  lemma {:induction false} Division(f: Poly, p: Poly)
    requires |f| >= |p|
    ensures Combine(Quotient(f, p), Remainder(f, p), p) == f
    decreases |f|
  {
    if |f| > |p| {
      var q, r := Quotient(f, p), Remainder(f, p);
      var c := Combine(q, r, p);
      Division(Cancel(f, p), p);
      CancelCombine(q, r, p);
      assert q[1..] == Quotient(Cancel(f, p), p);
      CancelInjective(c, f, p);
    }
  }

  lemma CancelInjective(f: Poly, g: Poly, p: Poly)
    requires |f| == |g| > |p| && f[0] == g[0] && Cancel(f, p) == Cancel(g, p)
    ensures f == g
  {
    forall i | 1 <= i < |f| ensures f[i] == g[i] {
      assert Cancel(f, p)[i - 1] == Cancel(g, p)[i - 1];
      assert f[1..][i - 1] == f[i] && g[1..][i - 1] == g[i];
    }
  }

  /** Quotient and remainder are the only pair that recombines to f. */
  lemma {:induction false} DivisionUnique(q: Poly, r: Poly, p: Poly)
    requires |r| == |p|
    ensures Quotient(Combine(q, r, p), p) == q
    ensures Remainder(Combine(q, r, p), p) == r
    decreases |q|
  {
    if q == [] {
      assert Combine(q, r, p) == r;
    } else {
      CancelCombine(q, r, p);
      DivisionUnique(q[1..], r, p);
    }
  }

  lemma CancelLinear(f: Poly, g: Poly, p: Poly)
    requires |f| == |g| > |p|
    ensures Cancel(Add(f, g), p) == Add(Cancel(f, p), Cancel(g, p))
  {
    assert Add(f, g)[1..] == Add(f[1..], g[1..]);
  }

  /** The remainder of a sum is the sum of the remainders. */
  lemma {:induction false} RemainderLinear(f: Poly, g: Poly, p: Poly)
    requires |f| == |g| >= |p|
    ensures Remainder(Add(f, g), p) == Add(Remainder(f, p), Remainder(g, p))
    decreases |f|
  {
    if |f| > |p| {
      CancelLinear(f, g, p);
      RemainderLinear(Cancel(f, p), Cancel(g, p), p);
    }
  }

  /** One turn of a division register: multiply by x and reduce. */
  function Turn(r: Poly, p: Poly): (t: Poly)
    requires |r| == |p| > 0
    ensures |t| == |p|
  {
    Cancel(r + [false], p)
  }

  function Turns(r: Poly, p: Poly, n: nat): (t: Poly)
    requires |r| == |p| > 0
    ensures |t| == |p|
    decreases n
  {
    if n == 0 then r else Turns(Turn(r, p), p, n - 1)
  }

  /** A register added to a dividend whose next coefficient is zero: one turn consumes that coefficient. */
  lemma CancelFront(f: Poly, r: Poly, p: Poly)
    requires |r| == |p| > 0 && |f| > |p| && !f[0]
    ensures Cancel(AddFront(f, r), p) == AddFront(f[1..], Turn(r, p))
  {
    var a, t := AddFront(f, r), Turn(r, p);
    assert a[0] == r[0] == (r + [false])[0];
    forall i | 0 <= i < |f| - 1 ensures Cancel(a, p)[i] == AddFront(f[1..], t)[i] {
      assert a[1..][i] == a[i + 1];
      if i < |p| {
        assert (r + [false])[1..][i] == (r + [false])[i + 1];
        if i == |p| - 1 {
          assert a[i + 1] == f[i + 1];
        } else {
          assert a[i + 1] == (f[i + 1] != r[i + 1]);
        }
      }
    }
  }

  /** n zero coefficients are consumed by n turns. */
  lemma {:induction false} RemainderTurns(f: Poly, r: Poly, p: Poly, n: nat)
    requires |r| == |p| > 0 && |f| >= |p|
    ensures Remainder(AddFront(Zeros(n) + f, r), p) == Remainder(AddFront(f, Turns(r, p, n)), p)
    decreases n
  {
    if n == 0 {
      assert Zeros(0) + f == f;
    } else {
      CancelFront(Zeros(n) + f, r, p);
      assert (Zeros(n) + f)[1..] == Zeros(n - 1) + f;
      RemainderTurns(f, Turn(r, p), p, n - 1);
    }
  }

  /** A divisor with a nonzero constant term makes a turn invertible on zero. */
  lemma TurnNonzero(r: Poly, p: Poly)
    requires |r| == |p| > 0 && p[|p| - 1] && Turn(r, p) == Zeros(|p|)
    ensures r == Zeros(|p|)
  {
    var t, n := Turn(r, p), |p|;
    var s := r + [false];
    assert s[1..][n - 1] == s[n] == false;
    assert !t[n - 1];
    assert !r[0];
    forall i | 0 <= i < n ensures !r[i] {
      if i > 0 {
        assert t[i - 1] == s[1..][i - 1] == s[i];
      }
    }
  }

  lemma {:induction false} TurnsNonzero(r: Poly, p: Poly, n: nat)
    requires |r| == |p| > 0 && p[|p| - 1] && Turns(r, p, n) == Zeros(|p|)
    ensures r == Zeros(|p|)
    decreases n
  {
    if n > 0 {
      TurnsNonzero(Turn(r, p), p, n - 1);
      TurnNonzero(r, p);
    }
  }

  /** n turns of a register are the remainder of its contents shifted up n places. */
  lemma TurnsRemainder(r: Poly, p: Poly, n: nat)
    requires |r| == |p| > 0
    ensures Remainder(r + Zeros(n), p) == Turns(r, p, n)
  {
    var f := Zeros(n) + Zeros(|p|);
    assert f == Zeros(|p|) + Zeros(n);
    assert AddFront(f, r) == r + Zeros(n);
    RemainderTurns(Zeros(|p|), r, p, n);
    assert AddFront(Zeros(|p|), Turns(r, p, n)) == Turns(r, p, n);
  }

  lemma {:induction false} RemainderSkipsZeros(a: nat, f: Poly, p: Poly)
    requires |f| >= |p|
    ensures Remainder(Zeros(a) + f, p) == Remainder(f, p)
    decreases a
  {
    if a == 0 {
      assert Zeros(0) + f == f;
    } else {
      assert (Zeros(a) + f)[1..] == Zeros(a - 1) + f;
      RemainderSkipsZeros(a - 1, f, p);
    }
  }

  /** A nonzero burst no longer than the divisor's degree is never a multiple of it. */
  lemma BurstNotDivisible(a: nat, b: Poly, n: nat, p: Poly)
    requires |b| == |p| > 0 && p[|p| - 1] && b != Zeros(|p|)
    ensures Remainder(Zeros(a) + (b + Zeros(n)), p) != Zeros(|p|)
  {
    RemainderSkipsZeros(a, b + Zeros(n), p);
    TurnsRemainder(b, p, n);
    if Turns(b, p, n) == Zeros(|p|) {
      TurnsNonzero(b, p, n);
    }
  }
}
