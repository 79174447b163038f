/** The growth policy shared by every growable buffer of the editor. */
module Capacity {
  /** Capacity of the first allocation (main.c:12). */
  const INIT_CAP: nat := 8

  /**
   * The capacity after one growth step: INIT_CAP from nothing, else twice the
   * old one (main.c:97, 153, 172, 239, 258).
   */
  function Grow(cap: nat): (r: nat)
    ensures r > cap
  {
    if cap == 0 then INIT_CAP else cap * 2
  }

  /** The capacities reachable from 0 by growth steps alone: 0, 8, 16, 32, ... */
  ghost predicate OnSchedule(cap: nat)
    decreases cap
  {
    cap == 0 || cap == INIT_CAP || (cap > INIT_CAP && cap % 2 == 0 && OnSchedule(cap / 2))
  }

  /** Growing keeps a capacity on the schedule: capacities start at INIT_CAP and only double. */
  lemma {:induction false} GrowOnSchedule(cap: nat)
    requires OnSchedule(cap)
    ensures OnSchedule(Grow(cap))
  {
    if cap != 0 {
      assert Grow(cap) / 2 == cap;
    }
  }
}
