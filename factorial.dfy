/**
  The factorial tasks of concurency11/main.cpp and concurency12/main.cpp.
  Both read N from a future and multiply i = N, N-1, ..., 2 into a result.
  Integers are mathematical; FactorialFitsInt32 states where the source's
  32-bit int is large enough.
*/
module Factorial {
  import opened Wrappers

  /** N!, taken as 1 for every N <= 1. */
  function Fact(n: int): (r: nat)
    ensures r >= 1
    decreases if n <= 1 then 0 else n
  {
    if n <= 1 then 1 else n * Fact(n - 1)
  }

  /** The count-down loop: result *= i for i from n down to 2. */
  method CountDown(n: int) returns (result: int)
    ensures result == Fact(n)
    ensures n <= 1 ==> result == 1
  {
    result := 1;
    var i := n;
    while i > 1
      invariant result * Fact(i) == Fact(n)
      decreases i
    {
      ghost var f := Fact(i - 1);
      assert Fact(i) == i * f;
      assert result * (i * f) == (result * i) * f;
      result := result * i;
      i := i - 1;
    }
  }

  /** What the shared state of a promise holds once it is satisfied. */
  datatype FutureState = Value(n: int) | Exception(what: string)

  /** std::shared_future<int>: get() reads the shared state and leaves it in place. */
  class SharedFuture {
    var state: FutureState

    constructor (state: FutureState)
      ensures this.state == state
    {
      this.state := state;
    }
  }

  /** std::future<int>: get() moves the state out, after which the future is no longer valid. */
  class Future {
    var state: FutureState
    var valid: bool

    constructor (state: FutureState)
      ensures this.state == state && valid
    {
      this.state, valid := state, true;
    }
  }

  /**
    factorial(std::shared_future<int>) of concurency12. It only reads the
    future (no modifies clause), so every caller sharing it sees the same N.
  */
  method FactorialShared(f: SharedFuture) returns (r: Outcome<int>)
    ensures f.state.Value? ==> r == Ok(Fact(f.state.n))
    ensures f.state.Exception? ==> r == Error(f.state.what)
  {
    match f.state
    case Exception(what) =>
      r := Error(what);
    case Value(n) =>
      var result := CountDown(n);
      r := Ok(result);
  }

  /**
    factorial(std::future<int>&) of concurency11. get() either yields N or
    rethrows the stored exception, which then leaves factorial unchanged.
  */
  method FactorialOnce(f: Future) returns (r: Outcome<int>)
    requires f.valid
    modifies f
    ensures !f.valid && f.state == old(f.state)
    ensures f.state.Value? ==> r == Ok(Fact(f.state.n))
    ensures f.state.Exception? ==> r == Error(f.state.what)
  {
    f.valid := false;
    match f.state
    case Exception(what) =>
      r := Error(what);
    case Value(n) =>
      var result := CountDown(n);
      r := Ok(result);
  }

  /** main of concurency12: set_value(4), then four tasks on the same shared future. */
  method SharedFactorialDemo() returns (r1: Outcome<int>, r2: Outcome<int>, r3: Outcome<int>, r4: Outcome<int>)
    ensures r1 == r2 == r3 == r4 == Ok(24)
  {
    var sf := new SharedFuture(Value(4));
    r1 := FactorialShared(sf);
    r2 := FactorialShared(sf);
    r3 := FactorialShared(sf);
    r4 := FactorialShared(sf);
  }

  /** main of concurency11: the promise is broken with set_exception, so fu.get() rethrows. */
  method BrokenPromiseDemo() returns (x: Outcome<int>)
    ensures x == Error("Error from promise - I can't send you a value")
  {
    var f := new Future(Exception("Error from promise - I can't send you a value"));
    x := FactorialOnce(f);
  }

  lemma {:induction false} FactorialMonotone(a: int, b: int)
    requires a <= b
    ensures Fact(a) <= Fact(b)
    decreases b - a
  {
    if a < b {
      FactorialMonotone(a, b - 1);
      if b > 1 {
        NoSmallerMultiple(Fact(b - 1), b);
      }
    }
  }

  lemma NoSmallerMultiple(x: nat, k: int)
    requires k >= 1
    ensures x <= k * x
  {
  }

  /** For N <= 12 the factorial fits in a signed 32-bit int; 13! does not. */
  lemma FactorialFitsInt32(n: int)
    requires n <= 12
    ensures Fact(n) <= 0x7fff_ffff
    ensures Fact(13) > 0x7fff_ffff
  {
    FactorialMonotone(n, 12);
  }
}
