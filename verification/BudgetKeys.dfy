/** When the store still has an identity's key. */
module BudgetKeys {
  import opened Wrappers
  import opened Budget

  /** In any run, the key is there if and only if the last call happened less than two windows ago, by the store's clock, whatever time it gave. */
  lemma {:induction false} KeyIsThereIff(seconds: nat, calls: seq<Timed>, clock: int)
    requires seconds > 0
    ensures Present(Run(seconds, calls).entry, clock).Some?
            <==> calls != [] && clock - calls[|calls| - 1].clock < 2 * seconds
  {
    if calls != [] {
      var front, last := calls[..|calls| - 1], calls[|calls| - 1];
      assert Run(seconds, calls) == StepAt(Run(seconds, front), seconds, last.call, last.at, last.clock);
    }
  }
}
