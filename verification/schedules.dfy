/** Schedules as pkg/scheduling defines them; instants are nanoseconds and 0 is the zero time. */
module Schedules {
  import opened Wrappers

  type Time = int

  datatype Schedule = Schedule(
    id: Id,
    owner: Id,
    to: Id,
    cron: string,
    subject: string,
    body: string,
    enabled: bool,
    nextAt: Time,
    lastAt: Option<Time>,
    createdAt: Time
  )

  type Table = map<Id, Schedule>

  /** A registration replaces everything but when the schedule was created and when it last fired. */
  function Upserted(t: Table, s: Schedule): (t': Table)
  {
    t[s.id := if s.id in t then s.(createdAt := t[s.id].createdAt, lastAt := t[s.id].lastAt) else s]
  }

  /** w owns or receives s. */
  predicate Touches(s: Schedule, w: Id) {
    s.owner == w || s.to == w
  }
}
