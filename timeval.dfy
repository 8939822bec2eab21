/** The (seconds, microseconds) time arithmetic of the xwrits.h macros.
    Each macro computes its result with at most one carry or borrow, so the
    result is normalised whenever the inputs are. */
module Timeval {

  import CInt

  const MICRO_PER_SEC: int := 1000000

  datatype Timeval = Timeval(sec: int, usec: int)

  /** The microsecond field lies in [0, 10^6). */
  predicate Normal(t: Timeval) {
    0 <= t.usec < MICRO_PER_SEC
  }

  /** The instant a time value denotes, in microseconds. */
  function Micros(t: Timeval): int {
    t.sec * MICRO_PER_SEC + t.usec
  }

  /** Different normalised values denote different instants. */
  lemma NormalUnique(a: Timeval, b: Timeval)
    requires Normal(a) && Normal(b) && Micros(a) == Micros(b)
    ensures a == b
  {
  }

  /** xwADDTIME(result, a, b). */
  function AddTime(a: Timeval, b: Timeval): (r: Timeval)
    ensures Micros(r) == Micros(a) + Micros(b)
    ensures Normal(a) && Normal(b) ==> Normal(r)
  {
    var sec, usec := a.sec + b.sec, a.usec + b.usec;
    if usec >= MICRO_PER_SEC then Timeval(sec + 1, usec - MICRO_PER_SEC)
    else Timeval(sec, usec)
  }

  /** xwSUBTIME(result, a, b). */
  function SubTime(a: Timeval, b: Timeval): (r: Timeval)
    ensures Micros(r) == Micros(a) - Micros(b)
    ensures Normal(a) && Normal(b) ==> Normal(r)
  {
    var sec, usec := a.sec - b.sec, a.usec - b.usec;
    if usec < 0 then Timeval(sec - 1, usec + MICRO_PER_SEC)
    else Timeval(sec, usec)
  }

  /** Subtracting what was added gives the original value back. */
  lemma SubTimeAddTime(a: Timeval, b: Timeval)
    requires Normal(a) && Normal(b)
    ensures SubTime(AddTime(a, b), b) == a
  {
    NormalUnique(SubTime(AddTime(a, b), b), a);
  }

  /** xwTIMEGEQ(a, b). */
  function TimeGeq(a: Timeval, b: Timeval): (r: bool)
    ensures Normal(a) && Normal(b) ==> (r <==> Micros(a) >= Micros(b))
  {
    a.sec > b.sec || (a.sec == b.sec && a.usec >= b.usec)
  }

  /** xwTIMEGT(a, b). */
  function TimeGt(a: Timeval, b: Timeval): (r: bool)
    ensures Normal(a) && Normal(b) ==> (r <==> Micros(a) > Micros(b))
  {
    a.sec > b.sec || (a.sec == b.sec && a.usec > b.usec)
  }

  /** xwTIMELEQ0(a). */
  function TimeLeq0(a: Timeval): (r: bool)
    ensures Normal(a) ==> (r <==> Micros(a) <= 0)
  {
    a.sec < 0 || (a.sec == 0 && a.usec <= 0)
  }

  /** xwSETMINTIME(a, b): the value `a` holds afterwards. It is `b` only when
      `b` is strictly earlier; otherwise `a` stays as it was. */
  function SetMinTime(a: Timeval, b: Timeval): (r: Timeval)
    ensures r == a || r == b
    ensures r == b <== TimeGt(a, b)
    ensures !TimeGt(a, b) ==> r == a
    ensures Normal(a) && Normal(b) ==>
      Micros(r) == (if Micros(b) < Micros(a) then Micros(b) else Micros(a))
  {
    if b.sec < a.sec || (b.sec == a.sec && b.usec < a.usec) then b else a
  }

  /** xwADDDELAY(result, a, d): add `d` hundredths of a second. `d / 100` and
      `d % 100` are C's truncating operators. */
  function AddDelay(a: Timeval, d: int): (r: Timeval)
    ensures Micros(r) == Micros(a) + d * 10000
    ensures Normal(a) && d >= 0 ==> Normal(r)
  {
    CInt.TruncDivMod(d, 100);
    var sec, usec := a.sec + CInt.TruncDiv(d, 100), a.usec + CInt.TruncMod(d, 100) * 10000;
    if usec >= MICRO_PER_SEC then Timeval(sec + 1, usec - MICRO_PER_SEC)
    else Timeval(sec, usec)
  }

  /** xwSUBDELAY(result, a, d): subtract `d` hundredths of a second. */
  function SubDelay(a: Timeval, d: int): (r: Timeval)
    ensures Micros(r) == Micros(a) - d * 10000
    ensures Normal(a) && d >= 0 ==> Normal(r)
  {
    CInt.TruncDivMod(d, 100);
    var sec, usec := a.sec - CInt.TruncDiv(d, 100), a.usec - CInt.TruncMod(d, 100) * 10000;
    if usec < 0 then Timeval(sec - 1, usec + MICRO_PER_SEC)
    else Timeval(sec, usec)
  }

  /** xwSUBDELAY undoes xwADDDELAY on normalised values. */
  lemma SubDelayAddDelay(a: Timeval, d: int)
    requires Normal(a) && d >= 0
    ensures SubDelay(AddDelay(a, d), d) == a
  {
    NormalUnique(SubDelay(AddDelay(a, d), d), a);
  }

  /** xwADDDELAY undoes xwSUBDELAY on normalised values. */
  lemma AddDelaySubDelay(a: Timeval, d: int)
    requires Normal(a) && d >= 0
    ensures AddDelay(SubDelay(a, d), d) == a
  {
    NormalUnique(AddDelay(SubDelay(a, d), d), a);
  }

  /** Moving a timer from one frame delay to another (the rescheduling in
      set_slideshow): the timer shifts by the difference of the delays. */
  lemma Reschedule(timer: Timeval, oldDelay: int, newDelay: int)
    requires Normal(timer) && oldDelay >= 0 && newDelay >= 0
    ensures Normal(AddDelay(SubDelay(timer, oldDelay), newDelay))
    ensures Micros(AddDelay(SubDelay(timer, oldDelay), newDelay))
         == Micros(timer) + (newDelay - oldDelay) * 10000
  {
  }
}
