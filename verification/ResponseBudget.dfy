/** The token bucket that limits SSDP search responses, over exact reals and a monotone clock. */
module ResponseBudget {
  import opened Wrappers

  /** Tokens earned in `elapsed` seconds. */
  function Credit(rate: real, elapsed: real): real {
    elapsed * rate
  }

  lemma CreditAdds(rate: real, x: real, y: real)
    ensures Credit(rate, x + y) == Credit(rate, x) + Credit(rate, y)
  {}

  lemma CreditGrows(rate: real, x: real, y: real)
    requires rate > 0.0 && x <= y
    ensures Credit(rate, x) <= Credit(rate, y)
    ensures Credit(rate, 0.0) == 0.0
  {
    assert (y - x) * rate >= 0.0;
    assert y * rate == x * rate + (y - x) * rate;
  }

  lemma CreditFills(rate: real, burst: real)
    requires rate > 0.0
    ensures Credit(rate, burst / rate) == burst
  {}

  datatype Bucket = Bucket(rate: real, burst: real, tokens: real, last: Option<real>) {
    /** Tokens on hand at `now`, after the credit for the time since the previous call. */
    function Available(now: real): real {
      if last.Some? && now - last.value > 0.0 then
        var credited := tokens + Credit(rate, now - last.value);
        if credited < burst then credited else burst
      else tokens
    }

    predicate Grants(call: Call) {
      rate <= 0.0 || Available(call.at) >= call.count as real
    }

    function Next(call: Call): Bucket {
      if rate <= 0.0 then this
      else
        var left := Available(call.at) - (if Grants(call) then call.count as real else 0.0);
        Bucket(rate, burst, left, Some(call.at))
    }
  }

  /** A request to send `count` datagrams at time `at`. */
  datatype Call = Call(count: nat, at: real)

  class SsdpResponseBudget {
    const rate: real
    const burst: real
    var tokens: real
    var last: Option<real>

    function State(): Bucket
      reads this
    {
      Bucket(rate, burst, tokens, last)
    }

    constructor (ratePerSecond: real, burstSize: real)
      ensures State() == New(ratePerSecond, burstSize)
    {
      rate, burst, tokens, last := ratePerSecond, burstSize, burstSize, None;
    }

    method Allow(count: nat, now: real) returns (ok: bool)
      modifies this
      ensures ok == old(State()).Grants(Call(count, now))
      ensures State() == old(State()).Next(Call(count, now))
    {
      hide Credit;
      if rate <= 0.0 {
        return true;
      }
      if last.Some? {
        var elapsed := now - last.value;
        if elapsed > 0.0 {
          var credited := tokens + Credit(rate, elapsed);
          tokens := if credited < burst then credited else burst;
        }
      }
      last := Some(now);
      var need := count as real;
      if tokens < need {
        return false;
      }
      tokens := tokens - need;
      return true;
    }
  }

  function New(rate: real, burst: real): Bucket {
    Bucket(rate, burst, burst, None)
  }

  /** A run of calls on a new bucket with a positive rate, at times that never go back. */
  datatype Run = Run(rate: real, burst: real, calls: seq<Call>) {
    ghost predicate Valid() {
      && rate > 0.0 && burst >= 0.0
      && forall i, j :: 0 <= i <= j < |calls| ==> calls[i].at <= calls[j].at
    }

    /** The bucket that call `n` meets. */
    function Before(n: nat): (b: Bucket)
      requires n <= |calls|
      ensures b.rate == rate && b.burst == burst
    {
      if n == 0 then New(rate, burst) else Before(n - 1).Next(calls[n - 1])
    }

    predicate Granted(n: nat)
      requires n < |calls|
    {
      Before(n).Grants(calls[n])
    }

    /** Datagrams allowed by calls `i` up to but not including `j`. */
    function Sent(i: nat, j: nat): nat
      requires i <= j <= |calls|
    {
      if i == j then 0 else Sent(i, j - 1) + if Granted(j - 1) then calls[j - 1].count else 0
    }

    function Tokens(n: nat): real
      requires n < |calls|
    {
      Before(n).Available(calls[n].at)
    }

    /** What the window from call `i` to call `n` leaves for call `n`. */
    function Room(i: nat, n: nat): real
      requires i <= n < |calls|
    {
      burst + Credit(rate, calls[n].at - calls[i].at) - Sent(i, n) as real
    }
  }

  lemma {:induction false} BeforeStep(r: Run, n: nat)
    requires n < |r.calls|
    ensures r.Before(n + 1) == r.Before(n).Next(r.calls[n])
  {}

  lemma BeforeAll(r: Run)
    ensures r.Before(0) == New(r.rate, r.burst)
  {}

  lemma {:induction false} SentStep(r: Run, i: nat, n: nat)
    requires i <= n < |r.calls|
    ensures r.Sent(i, i) == 0
    ensures r.Sent(i, n + 1) == r.Sent(i, n) + if r.Granted(n) then r.calls[n].count else 0
  {}

  lemma AvailableInRange(b: Bucket, now: real)
    requires b.rate > 0.0 && 0.0 <= b.tokens <= b.burst
    ensures 0.0 <= b.Available(now) <= b.burst
  {
    hide Credit;
    if b.last.Some? && now - b.last.value > 0.0 {
      CreditGrows(b.rate, 0.0, now - b.last.value);
    }
  }

  lemma {:induction false} TokensInRange(r: Run, n: nat)
    requires r.Valid() && n <= |r.calls|
    ensures 0.0 <= r.Before(n).tokens <= r.burst
    ensures n > 0 ==> r.Before(n).last == Some(r.calls[n - 1].at)
    ensures n < |r.calls| ==> 0.0 <= r.Tokens(n) <= r.burst
  {
    hide Credit, Run.Before;
    if n == 0 {
      BeforeAll(r);
    } else {
      TokensInRange(r, n - 1);
      BeforeStep(r, n - 1);
    }
    if n < |r.calls| {
      AvailableInRange(r.Before(n), r.calls[n].at);
    }
  }

  function Least(x: real, y: real): real {
    if x < y then x else y
  }

  /** The tokens at a call are those left by the call before, credited and capped. */
  lemma TokensStep(r: Run, n: nat)
    requires r.Valid() && n + 1 < |r.calls|
    ensures var left := r.Tokens(n) - (if r.Granted(n) then r.calls[n].count as real else 0.0);
            r.Tokens(n + 1) == Least(r.burst, left + Credit(r.rate, r.calls[n + 1].at - r.calls[n].at))
  {
    hide Credit, Run.Before;
    TokensInRange(r, n + 1);
    BeforeStep(r, n);
    CreditGrows(r.rate, 0.0, 0.0);
  }

  /** The tokens never exceed the room of any window that ends at the call. */
  lemma {:induction false} TokensWithinWindows(r: Run, i: nat, n: nat)
    requires r.Valid() && i <= n < |r.calls|
    ensures r.Tokens(n) <= r.Room(i, n)
  {
    hide Credit, Run.Before, Run.Tokens, Run.Granted, Run.Sent;
    TokensInRange(r, n);
    if i == n {
      SentStep(r, n, n);
      CreditGrows(r.rate, 0.0, 0.0);
    } else {
      TokensWithinWindows(r, i, n - 1);
      TokensStep(r, n - 1);
      SentStep(r, i, n - 1);
      CreditAdds(r.rate, r.calls[n].at - r.calls[n - 1].at, r.calls[n - 1].at - r.calls[i].at);
    }
  }

  /** Some window's room is exactly the tokens: the bucket is no stricter than it has to be. */
  lemma {:induction false} TokensAreAWindow(r: Run, n: nat) returns (i: nat)
    requires r.Valid() && n < |r.calls|
    ensures i <= n && r.Tokens(n) == r.Room(i, n)
  {
    hide Credit, Run.Before, Run.Tokens, Run.Granted, Run.Sent;
    i := n;
    if n > 0 && r.Tokens(n) != r.burst {
      i := TokensAreAWindow(r, n - 1);
      TokensStep(r, n - 1);
      SentStep(r, i, n - 1);
      CreditAdds(r.rate, r.calls[n].at - r.calls[n - 1].at, r.calls[n - 1].at - r.calls[i].at);
    } else {
      FirstTokens(r);
      SentStep(r, n, n);
      CreditGrows(r.rate, 0.0, 0.0);
    }
  }

  lemma FirstTokens(r: Run)
    requires |r.calls| > 0
    ensures r.Tokens(0) == r.burst
  {}

  /** A call is granted exactly when no window ending at it would exceed `burst + rate * length`. */
  lemma GrantedExactly(r: Run, n: nat)
    requires r.Valid() && n < |r.calls|
    ensures r.Granted(n) <==> forall i :: 0 <= i <= n ==> r.calls[n].count as real <= r.Room(i, n)
  {
    hide Credit, Run.Before, Run.Room;
    forall i | 0 <= i <= n ensures r.Tokens(n) <= r.Room(i, n) {
      TokensWithinWindows(r, i, n);
    }
    var i := TokensAreAWindow(r, n);
  }

  /** Over every window of every run, what is sent stays within `burst + rate * length`. */
  lemma RateBound(r: Run, i: nat, j: nat)
    requires r.Valid() && i <= j < |r.calls|
    ensures r.Sent(i, j + 1) as real <= r.burst + Credit(r.rate, r.calls[j].at - r.calls[i].at)
  {
    hide Credit, Run.Before, Run.Sent;
    TokensWithinWindows(r, i, j);
    SentStep(r, i, j);
    TokensInRange(r, j);
  }

  /** A request of at most `burst` datagrams is granted once `burst / rate` has passed. */
  lemma GrantedAfterQuiet(r: Run, n: nat)
    requires r.Valid() && n < |r.calls|
    requires r.calls[n].count as real <= r.burst
    requires n > 0 ==> r.calls[n].at - r.calls[n - 1].at >= r.burst / r.rate
    ensures r.Granted(n)
  {
    hide Credit, Run.Before;
    if n == 0 {
      FirstTokens(r);
    } else {
      TokensStep(r, n - 1);
      TokensInRange(r, n - 1);
      CreditGrows(r.rate, r.burst / r.rate, r.calls[n].at - r.calls[n - 1].at);
      CreditFills(r.rate, r.burst);
    }
  }

  /** A rate that is not positive switches the limit off. */
  lemma Unlimited(r: Run, n: nat)
    requires r.rate <= 0.0 && n < |r.calls|
    ensures r.Granted(n)
  {}
}
