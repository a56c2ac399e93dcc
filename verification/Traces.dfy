/** Sequences of events of a deterministic machine. Kept general so that nothing here depends on
    what a step does. */
module Traces {

  /** Whether an event can happen in a state, where it leads and what it sends. */
  datatype Machine<!S, !E, !O> = Machine(can: (S, E) -> bool, next: (S, E) -> S, out: (S, E) -> seq<O>)

  ghost predicate Can<S, E, O>(m: Machine<S, E, O>, s: S, events: seq<E>) {
    events == []
    || (Can(m, s, events[..|events| - 1]) && m.can(After(m, s, events[..|events| - 1]), events[|events| - 1]))
  }

  ghost function After<S, E, O>(m: Machine<S, E, O>, s: S, events: seq<E>): S {
    if events == [] then s else m.next(After(m, s, events[..|events| - 1]), events[|events| - 1])
  }

  ghost function Sends<S, E, O>(m: Machine<S, E, O>, s: S, events: seq<E>): seq<O> {
    if events == [] then []
    else
      var init := events[..|events| - 1];
      Sends(m, s, init) + m.out(After(m, s, init), events[|events| - 1])
  }

  /** The events can happen one after the other from `s`, lead to `t` and send exactly `sent`. */
  ghost predicate Does<S, E, O>(m: Machine<S, E, O>, s: S, events: seq<E>, t: S, sent: seq<O>) {
    Can(m, s, events) && t == After(m, s, events) && sent == Sends(m, s, events)
  }

  lemma OneMore<S, E, O>(m: Machine<S, E, O>, s: S, events: seq<E>, t: S, sent: seq<O>, e: E)
    requires Does(m, s, events, t, sent) && m.can(t, e)
    ensures Does(m, s, events + [e], m.next(t, e), sent + m.out(t, e))
  {
    var more := events + [e];
    assert more[..|more| - 1] == events && more[|more| - 1] == e;
  }

  lemma Last<S, E, O>(m: Machine<S, E, O>, s: S, events: seq<E>, t: S, sent: seq<O>) returns (t0: S, sent0: seq<O>)
    requires Does(m, s, events, t, sent) && events != []
    ensures var e := events[|events| - 1];
      && Does(m, s, events[..|events| - 1], t0, sent0) && m.can(t0, e)
      && t == m.next(t0, e) && sent == sent0 + m.out(t0, e)
  {
    t0, sent0 := After(m, s, events[..|events| - 1]), Sends(m, s, events[..|events| - 1]);
  }

  lemma {:induction false} Then<S, E, O>(m: Machine<S, E, O>, s: S, first: seq<E>, t: S, sent0: seq<O>,
                                         second: seq<E>, u: S, sent1: seq<O>)
    requires Does(m, s, first, t, sent0) && Does(m, t, second, u, sent1)
    ensures Does(m, s, first + second, u, sent0 + sent1)
    decreases |second|
  {
    if second == [] {
      assert first + second == first && sent0 + sent1 == sent0;
    } else {
      var init, e := second[..|second| - 1], second[|second| - 1];
      var u0, sent := Last(m, t, second, u, sent1);
      Then(m, s, first, t, sent0, init, u0, sent);
      OneMore(m, s, first + init, u0, sent0 + sent, e);
      assert (first + init) + [e] == first + second;
      assert (sent0 + sent) + m.out(u0, e) == sent0 + sent1;
    }
  }
}
