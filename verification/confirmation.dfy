/**
 * The confirmation screen's auto-return countdown: the value starts at 5 and a one-second
 * interval applies `Tick` to it; a tick at 1 or below calls `onReturn`.
 */
module Confirmation {
  import App

  const InitialCountdown := 5

  /** The flag that selects the check-in colours and wording. */
  function IsCheckIn(kind: App.ConfirmKind): (b: bool)
    ensures b <==> kind == App.CheckInDone
    ensures !b <==> kind == App.CheckOutDone
  {
    kind.CheckInDone?
  }

  /** The value the updater returns and whether it called `onReturn`. */
  datatype TickResult = TickResult(next: int, returned: bool)

  /** The `setCountdown` updater. */
  function Tick(prev: int): (r: TickResult)
    ensures r.returned <==> prev <= 1
    ensures r.returned ==> r.next == 0
    ensures !r.returned ==> r.next == prev - 1 && r.next >= 1
  {
    if prev <= 1 then TickResult(0, true) else TickResult(prev - 1, false)
  }

  /** The final value after some ticks and, per tick, whether `onReturn` was called. */
  datatype Countdown = Countdown(value: int, onReturnCalls: seq<bool>)

  function Ticks(c: int, n: nat): (r: Countdown)
    ensures |r.onReturnCalls| == n
    decreases n
  {
    if n == 0 then Countdown(c, [])
    else
      var t := Tick(c);
      var rest := Ticks(t.next, n - 1);
      Countdown(rest.value, [t.returned] + rest.onReturnCalls)
  }

  /** Tick `i` (counting from 1) calls `onReturn` exactly when `i >= c`. */
  lemma {:induction false} TicksReturnFrom(c: int, n: nat, i: nat)
    requires i < n
    ensures Ticks(c, n).onReturnCalls[i] <==> i + 1 >= c
    decreases n
  {
    if i > 0 {
      TicksReturnFrom(Tick(c).next, n - 1, i - 1);
    }
  }

  /** The countdown counts down to 0 and then stays there. */
  lemma {:induction false} TicksValue(c: int, n: nat)
    requires c >= 0
    ensures Ticks(c, n).value == if c - n > 0 then c - n else 0
    decreases n
  {
    if n > 0 {
      TicksValue(Tick(c).next, n - 1);
    }
  }

  /** Starting from 5, the countdown stays within [0, 5] whatever the number of ticks. */
  lemma CountdownInRange(n: nat)
    ensures 0 <= Ticks(InitialCountdown, n).value <= InitialCountdown
  {
    TicksValue(InitialCountdown, n);
  }

  /**
   * Starting from 5, `onReturn` is first called on the fifth tick, and on every later tick
   * until the interval is cleared.
   */
  lemma FirstReturnOnFifthTick(n: nat, i: nat)
    requires i < n
    ensures Ticks(InitialCountdown, n).onReturnCalls[i] <==> i >= 4
  {
    TicksReturnFrom(InitialCountdown, n, i);
  }
}
