/** The timeval macros of events.c, against the number of microseconds a timeval stands for. */
module Timeval {

  datatype Timeval = Timeval(sec: int, usec: int)

  const MILLION := 1000000

  /** A timeval as the macros leave it. */
  predicate Normal(t: Timeval) {
    0 <= t.usec < MILLION
  }

  function Micros(t: Timeval): int {
    MILLION * t.sec + t.usec
  }

  /** timercmp with `>=`, the comparator of the timed-event queues (cmp_pri). */
  predicate AtLeast(a: Timeval, b: Timeval) {
    if a.sec == b.sec then a.usec >= b.usec else a.sec >= b.sec
  }

  function Add(a: Timeval, b: Timeval): Timeval {
    var s, u := a.sec + b.sec, a.usec + b.usec;
    if u >= MILLION then Timeval(s + 1, u - MILLION) else Timeval(s, u)
  }

  function Sub(a: Timeval, b: Timeval): Timeval {
    var s, u := a.sec - b.sec, a.usec - b.usec;
    if u < 0 then Timeval(s - 1, u + MILLION) else Timeval(s, u)
  }

  /** C's division, which truncates toward zero. */
  function Quotient(a: int, b: int): int
    requires b > 0
  {
    if a < 0 then -(-a / b) else a / b
  }

  /** EVT_ms2tv. */
  function FromMs(ms: int): Timeval {
    var s := Quotient(ms, 1000);
    Timeval(s, (ms - s * 1000) * 1000)
  }

  /** On normal timevals the macros compare, add and subtract microseconds, and stay normal. */
  lemma MacrosAreMicros(a: Timeval, b: Timeval)
    requires Normal(a) && Normal(b)
    ensures AtLeast(a, b) <==> Micros(a) >= Micros(b)
    ensures Normal(Add(a, b)) && Micros(Add(a, b)) == Micros(a) + Micros(b)
    ensures Normal(Sub(a, b)) && Micros(Sub(a, b)) == Micros(a) - Micros(b)
    ensures Micros(a) == Micros(b) <==> a == b
  {}

  /** A delay in milliseconds is converted exactly, and is normal if and only if it is not a negative
      number with a fraction of a second. */
  lemma FromMsExact(ms: int)
    ensures Micros(FromMs(ms)) == 1000 * ms
    ensures Normal(FromMs(ms)) <==> ms >= 0 || ms % 1000 == 0
  {
    if ms < 0 {
      var n := -ms;
      assert n == 1000 * (n / 1000) + n % 1000;
      assert ms % 1000 == 0 <==> n % 1000 == 0;
    }
  }
}
