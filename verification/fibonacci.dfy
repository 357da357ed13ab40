/** The client's memoised Fibonacci helper (Client/src/lib/utils.ts): a
    recursive function that stores every value it computes for an index of
    two or more in a module-level array and consults that array first. */
module Fibonacci {
  /** The Fibonacci numbers. */
  function Fib(n: nat): nat
  {
    if n < 2 then n else Fib(n - 1) + Fib(n - 2)
  }

  /** Every Fibonacci number past the first is positive. */
  lemma {:induction false} FibPositive(n: nat)
    requires n >= 1
    ensures Fib(n) >= 1
  {
    if n >= 3 {
      FibPositive(n - 1);
    }
  }

  /** The memo's lookup: a JavaScript array slot counts as a hit only when
      it holds a truthy value, that is, when it is present and not zero. */
  predicate Hit(memo: map<nat, int>, index: nat)
  {
    index in memo && memo[index] != 0
  }

  /** The memo as it is kept: only indices of two or more are stored, each
      with its Fibonacci number. */
  ghost predicate Sound(memo: map<nat, int>)
  {
    forall i :: i in memo ==> i >= 2 && memo[i] == Fib(i)
  }

  /** In a sound memo the truthiness test is exactly presence: a stored
      Fibonacci number is never zero. */
  lemma HitIsPresence(memo: map<nat, int>, index: nat)
    requires Sound(memo)
    ensures Hit(memo, index) <==> index in memo
  {
    if index in memo {
      FibPositive(index);
    }
  }

  class FibonacciMemo {
    /** `generatedNumbers`; an absent key is a hole of the sparse array. */
    var generatedNumbers: map<nat, int>

    ghost predicate Valid()
      reads this
    {
      Sound(generatedNumbers)
    }

    constructor ()
      ensures Valid() && generatedNumbers == map[]
    {
      generatedNumbers := map[];
    }

    /** `getFibbonacciNumber(index)`: the Fibonacci number of the index.
        Indices of two or more are answered from the memo when it holds a
        truthy value and otherwise computed from the two previous numbers
        and stored; no stored entry is ever dropped. A negative index would
        recurse forever, so the index is a natural number. */
    method GetFibonacciNumber(index: nat) returns (r: int)
      requires Valid()
      modifies this`generatedNumbers
      ensures Valid()
      ensures r == Fib(index)
      ensures index >= 2 ==> index in generatedNumbers
      ensures old(generatedNumbers).Keys <= generatedNumbers.Keys
      decreases index
    {
      if index == 0 {
        return 0;
      }
      if index == 1 {
        return 1;
      }
      if Hit(generatedNumbers, index) {
        return generatedNumbers[index];
      }
      var previous := GetFibonacciNumber(index - 1);
      var beforeThat := GetFibonacciNumber(index - 2);
      r := previous + beforeThat;
      generatedNumbers := generatedNumbers[index := r];
    }
  }
}
