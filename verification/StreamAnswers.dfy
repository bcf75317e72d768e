/** The kernel's answers to read(), write() and their vector variants, and what a call makes of them (src/io/StreamIO.cxx). */
module StreamAnswers {
  import opened Common

  datatype Errno = INTERRUPTED | AGAIN | OTHER

  /** What the kernel answers to one call: an error, or a transfer of at most `n` bytes. */
  datatype Answer = Error(errno: Errno) | Count(n: nat)

  datatype IOError = WouldBlock | ApiError | UnexpectedEof | Inconsistent

  /** `Waiting`: the kernel has not answered the last call yet. */
  datatype Result<T> = Done(value: T) | Thrown(error: IOError) | Waiting

  /** handleIOError(): None is a transparent restart. */
  datatype Reaction = Restart | Throw(error: IOError)

  function HandleIOError(errno: Errno, autoRestart: bool): Reaction {
    if autoRestart && errno == INTERRUPTED then Restart
    else if errno == AGAIN then Throw(WouldBlock)
    else Throw(ApiError)
  }

  /** What comes of a call that the kernel answers like this, interrupted attempts first, and the answers not used up. */
  function Settled(answers: seq<Answer>, autoRestart: bool, limit: nat): (r: (Result<nat>, seq<Answer>))
    ensures |r.1| <= |answers| && (r.0 != Waiting ==> |r.1| < |answers|)
    ensures r.0.Done? ==> r.0.value <= limit
    ensures r.0.Thrown? ==> r.0.error == WouldBlock || r.0.error == ApiError
  {
    if answers == [] then (Waiting, [])
    else
      match answers[0]
      case Count(n) => (Done(Min(n, limit)), answers[1..])
      case Error(errno) =>
        if errno == INTERRUPTED && autoRestart then Settled(answers[1..], autoRestart, limit)
        else (Thrown(if errno == AGAIN then WouldBlock else ApiError), answers[1..])
  }

  // ---------- What settles a call ----------

  /** An interruption that the library passes over. */
  predicate Passes(a: Answer, autoRestart: bool) {
    a == Error(INTERRUPTED) && autoRestart
  }

  predicate AllPass(answers: seq<Answer>, autoRestart: bool) {
    forall i | 0 <= i < |answers| :: Passes(answers[i], autoRestart)
  }

  /** A call uses the answers up to the first one that is no such interruption, and this one decides: a count is the number of
      bytes transferred, up to the limit; an error is thrown, EAGAIN as WouldBlock. Without one the call is waiting. */
  lemma {:induction false} SettledUses(answers: seq<Answer>, autoRestart: bool, limit: nat) returns (k: nat)
    ensures var (r, left) := Settled(answers, autoRestart, limit);
            && k <= |answers| && left == answers[k..]
            && (r.Waiting? ==> k == |answers| && AllPass(answers, autoRestart))
            && (!r.Waiting? ==> k > 0 && AllPass(answers[..k - 1], autoRestart) && !Passes(answers[k - 1], autoRestart))
            && (!r.Waiting? ==>
                  match answers[k - 1]
                  case Count(n) => r == Done(if n < limit then n else limit)
                  case Error(AGAIN) => r == Thrown(WouldBlock)
                  case Error(_) => r == Thrown(ApiError))
  {
    if answers == [] {
      k := 0;
    } else if Passes(answers[0], autoRestart) {
      var m := SettledUses(answers[1..], autoRestart, limit);
      k := m + 1;
      assert answers[1..][m..] == answers[k..];
      if m > 0 {
        assert answers[k - 1] == answers[1..][m - 1];
        assert answers[..k - 1] == [answers[0]] + answers[1..][..m - 1];
      }
      assert answers == [answers[0]] + answers[1..];
    } else {
      k := 1;
    }
  }

  function Interruptions(k: nat): seq<Answer> {
    if k == 0 then [] else [Error(INTERRUPTED)] + Interruptions(k - 1)
  }

  /** With automatic restart any number of interruptions makes no difference. */
  lemma {:induction false} RestartsUntilSettled(k: nat, last: Answer, rest: seq<Answer>, limit: nat)
    requires last != Error(INTERRUPTED)
    ensures var (r, left) := Settled(Interruptions(k) + [last] + rest, true, limit);
            left == rest &&
            match last
            case Count(n) => r == Done(if n < limit then n else limit)
            case Error(AGAIN) => r == Thrown(WouldBlock)
            case Error(_) => r == Thrown(ApiError)
  {
    var answers := Interruptions(k) + [last] + rest;
    if k == 0 {
      assert answers[0] == last && answers[1..] == rest;
    } else {
      assert answers[0] == Error(INTERRUPTED) && answers[1..] == Interruptions(k - 1) + [last] + rest;
      RestartsUntilSettled(k - 1, last, rest, limit);
    }
  }

  /** Without it the first answer decides, and an interruption is an error like others. */
  lemma FirstAnswerSettles(first: Answer, rest: seq<Answer>, limit: nat)
    ensures var (r, left) := Settled([first] + rest, false, limit);
            left == rest &&
            match first
            case Count(n) => r == Done(if n < limit then n else limit)
            case Error(AGAIN) => r == Thrown(WouldBlock)
            case Error(_) => r == Thrown(ApiError)
  {
    assert ([first] + rest)[0] == first && ([first] + rest)[1..] == rest;
  }

  // ---------- Several calls, one after the other ----------

  predicate Harmless(a: Answer, autoRestart: bool) {
    a.Count? || Passes(a, autoRestart)
  }

  predicate AllHarmless(answers: seq<Answer>, autoRestart: bool) {
    forall i | 0 <= i < |answers| :: Harmless(answers[i], autoRestart)
  }

  /** How many bytes the kernel is ready to transfer in all. */
  function Counts(answers: seq<Answer>): nat {
    if answers == [] then 0
    else Counts(answers[..|answers| - 1]) + if answers[|answers| - 1].Count? then answers[|answers| - 1].n else 0
  }

  /** How `used` answers lead to this result: an error is that of the last one, and all others are harmless; a call that waits has
      used all. */
  predicate Explains<T>(answers: seq<Answer>, used: nat, autoRestart: bool, r: Result<T>)
    requires used <= |answers|
  {
    match r
    case Done(_) => AllHarmless(answers[..used], autoRestart)
    case Waiting => used == |answers| && AllHarmless(answers, autoRestart)
    case Thrown(error) =>
      && used > 0 && AllHarmless(answers[..used - 1], autoRestart) && !Harmless(answers[used - 1], autoRestart)
      && error == if answers[used - 1] == Error(AGAIN) then WouldBlock else ApiError
  }

  lemma {:induction false} PassedCounts(answers: seq<Answer>, start: nat, end: nat, autoRestart: bool)
    requires start <= end <= |answers| && AllHarmless(answers[..start], autoRestart)
    requires forall i | start <= i < end :: Passes(answers[i], autoRestart)
    ensures AllHarmless(answers[..end], autoRestart) && Counts(answers[..end]) == Counts(answers[..start])
    decreases end
  {
    if start < end {
      PassedCounts(answers, start, end - 1, autoRestart);
      assert answers[..end][..end - 1] == answers[..end - 1];
    }
  }

  /** One more call. */
  lemma NextUse(answers: seq<Answer>, used: nat, autoRestart: bool, limit: nat) returns (more: nat)
    requires used <= |answers| && AllHarmless(answers[..used], autoRestart)
    ensures var (r, left) := Settled(answers[used..], autoRestart, limit);
            && used <= more <= |answers| && left == answers[more..]
            && Explains(answers, more, autoRestart, r)
            && (r.Done? ==>
                  && more > 0 && answers[more - 1].Count? && r.value == Min(answers[more - 1].n, limit)
                  && Counts(answers[..more]) == Counts(answers[..used]) + answers[more - 1].n)
            && (!r.Done? ==> Counts(answers[..more]) == Counts(answers[..used]))
  {
    var k := SettledUses(answers[used..], autoRestart, limit);
    more := used + k;
    assert answers[used..][k..] == answers[more..];
    var (r, _) := Settled(answers[used..], autoRestart, limit);
    if r.Waiting? {
      assert forall i | used <= i < more :: answers[i] == answers[used..][i - used];
      PassedCounts(answers, used, more, autoRestart);
      assert answers[..more] == answers;
    } else {
      assert forall i | used <= i < more - 1 :: answers[i] == answers[used..][..k - 1][i - used];
      PassedCounts(answers, used, more - 1, autoRestart);
      assert answers[..more][..more - 1] == answers[..more - 1];
      assert answers[more - 1] == answers[used..][k - 1];
    }
  }

  /** After some calls: `used` answers are behind, all of them harmless, `left` are still to come, and `total` bytes were offered. */
  ghost predicate Underway(answers: seq<Answer>, used: nat, left: seq<Answer>, autoRestart: bool, total: nat) {
    used <= |answers| && left == answers[used..] && AllHarmless(answers[..used], autoRestart) && total == Counts(answers[..used])
  }

  lemma Beginning(answers: seq<Answer>, autoRestart: bool)
    ensures Underway(answers, 0, answers, autoRestart, 0)
  {
    assert answers[0..] == answers && answers[..0] == [];
  }

  /** One more call, and what it adds. */
  lemma Proceeds(answers: seq<Answer>, used: nat, left: seq<Answer>, autoRestart: bool, total: nat, limit: nat)
    returns (more: nat, sum: nat)
    requires Underway(answers, used, left, autoRestart, total)
    ensures var (r, after) := Settled(left, autoRestart, limit);
            && more <= |answers| && after == answers[more..] && sum == Counts(answers[..more])
            && Explains(answers, more, autoRestart, r)
            && (r.Done? ==>
                  && Underway(answers, more, after, autoRestart, sum) && more > 0 && answers[more - 1].Count?
                  && sum == total + answers[more - 1].n && r.value == Min(answers[more - 1].n, limit))
            && (!r.Done? ==> sum == total)
  {
    more := NextUse(answers, used, autoRestart, limit);
    sum := Counts(answers[..more]);
  }

  /** What writing `size` bytes with these answers comes to: `used` of them lead to the result, and as much has been written as they
      offer. */
  ghost predicate WrittenBy<T>(answers: seq<Answer>, autoRestart: bool, size: nat, r: Result<T>, written: nat, used: nat) {
    && used <= |answers| && Explains(answers, used, autoRestart, r)
    && written == Min(size, Counts(answers[..used])) && (r.Done? <==> written == size)
  }

  /** If no answer is an error and they offer enough, it is done. */
  lemma WriteCompletes<T>(answers: seq<Answer>, autoRestart: bool, size: nat, r: Result<T>, written: nat, used: nat)
    requires WrittenBy(answers, autoRestart, size, r, written, used)
    requires AllHarmless(answers, autoRestart) && Counts(answers) >= size
    ensures r.Done?
  {
    assert answers[..|answers|] == answers;
  }

  /** The same for reading from a source of some length; a transfer of no bytes, be it that none were offered or that none are left,
      is an unexpected end. */
  ghost predicate ReadBy<T>(answers: seq<Answer>, autoRestart: bool, size: nat, source: nat, r: Result<T>, taken: nat, used: nat) {
    && used <= |answers| && taken == Min(size, Min(source, Counts(answers[..used]))) && (r.Done? <==> taken == size)
    && if r == Thrown(UnexpectedEof) then
         used > 0 && AllHarmless(answers[..used], autoRestart) && (answers[used - 1] == Count(0) || taken == source)
       else Explains(answers, used, autoRestart, r)
  }

  lemma ReadCompletes<T>(answers: seq<Answer>, autoRestart: bool, size: nat, source: nat, r: Result<T>, taken: nat, used: nat)
    requires ReadBy(answers, autoRestart, size, source, r, taken, used)
    requires AllHarmless(answers, autoRestart) && Count(0) !in answers && Counts(answers) >= size && source >= size
    ensures r.Done?
  {
    assert answers[..|answers|] == answers;
    assert 0 < used <= |answers| ==> answers[used - 1] in answers;
  }

  /** One more transfer adds what is offered, as long as there is room for it and something to take. */
  lemma Adds(size: nat, source: nat, total: nat, n: nat, offered: nat, value: nat)
    requires n == Min(size, Min(source, total)) && n < size && value == Min(offered, Min(size - n, source - n))
    ensures n + value == Min(size, Min(source, total + offered))
    ensures value == 0 ==> offered == 0 || n == source
  {
  }
}
