/** The alarm scheduler the core relies on, reduced to what it records: for
    each (action, owner) pair at most one pending timer. */
module Alarms {

  import opened Wrappers
  import opened Timeval

  /** The frame-advance action of a hand. */
  const A_FLASH: int := 0x0001

  datatype Key = Key(action: int, data: object)

  class Scheduler {
    var pending: map<Key, Timeval>

    constructor ()
      ensures pending == map[]
    {
      pending := map[];
    }

    /** grab_alarm_data(action, data, 0): the pending timer, if any. */
    function Find(action: int, data: object): (t: Option<Timeval>)
      reads this
      ensures t.Some? <==> Key(action, data) in pending
      ensures t.Some? ==> t.value == pending[Key(action, data)]
    {
      if Key(action, data) in pending then Some(pending[Key(action, data)]) else None
    }

    /** new_alarm_data / schedule: (re)arm the timer of (action, data). */
    method Schedule(action: int, data: object, timer: Timeval)
      modifies this`pending
      ensures pending == old(pending)[Key(action, data) := timer]
    {
      pending := pending[Key(action, data) := timer];
    }

    /** unschedule_data / destroy_alarm: drop the timer of (action, data). */
    method Unschedule(action: int, data: object)
      modifies this`pending
      ensures pending == old(pending) - {Key(action, data)}
    {
      pending := pending - {Key(action, data)};
    }
  }
}
