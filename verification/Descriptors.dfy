/** The descriptors of the process, as far as close() is concerned. */
module Descriptors {

  const INVALID := -1

  class Kernel {
    var open: set<int>
    ghost var closes: seq<int>  // every close() system call, in order
    ghost var failures: nat     // how many of them reported an error

    constructor ()
      ensures open == {} && closes == [] && failures == 0
    {
      open := {};
      closes := [];
      failures := 0;
    }

    /** close(2): the descriptor is gone afterwards even when an error is reported. */
    method Close(fd: int) returns (ok: bool)
      modifies this
      ensures open == old(open) - {fd}
      ensures closes == old(closes) + [fd]
      ensures failures == old(failures) + if ok then 0 else 1
    {
      open := open - {fd};
      closes := closes + [fd];
      ok := *;
      failures := failures + if ok then 0 else 1;
    }
  }
}
