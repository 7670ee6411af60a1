/** Runs put together from smaller ones, seen from outside. */
module StoreRuns {
  import opened Bytes
  import opened Tables
  import opened Store
  import opened StoreRefinement

  function Seen(events: seq<Event>): seq<Event> {
    if events == [] then []
    else (if events[0].Internal? then [] else [events[0]]) + Seen(events[1..])
  }

  /** The store can get from `s` to `n`, and all an observer sees is `seen`. */
  ghost predicate Leads(s: State, n: State, seen: seq<Event>) {
    exists steps :: Runs(s, steps) && Final(s, steps) == n && Seen(Events(s, steps)) == seen
  }

  lemma LeadsNowhere(s: State)
    ensures Leads(s, s, [])
  {
    assert Runs(s, []) && Final(s, []) == s && Seen(Events(s, [])) == [];
  }

  lemma {:induction false} RunsConcat(s: State, a: seq<Step>, b: seq<Step>)
    requires Runs(s, a) && Runs(Final(s, a), b)
    ensures Runs(s, a + b) && Final(s, a + b) == Final(Final(s, a), b)
    decreases |a|
  {
    hide Enabled, Apply;
    if a == [] {
      assert a + b == b;
    } else {
      RunsConcat(Apply(s, a[0]), a[1..], b);
      assert (a + b)[0] == a[0] && (a + b)[1..] == a[1..] + b;
    }
  }

  lemma {:induction false} EventsConcat(s: State, a: seq<Step>, b: seq<Step>)
    requires Runs(s, a) && Runs(Final(s, a), b) && Runs(s, a + b)
    ensures Events(s, a + b) == Events(s, a) + Events(Final(s, a), b)
    decreases |a|
  {
    hide Enabled, Apply, EventOf;
    if a == [] {
      assert a + b == b;
    } else {
      assert (a + b)[0] == a[0] && (a + b)[1..] == a[1..] + b;
      EventsConcat(Apply(s, a[0]), a[1..], b);
    }
  }

  lemma {:induction false} SeenConcat(a: seq<Event>, b: seq<Event>)
    ensures Seen(a + b) == Seen(a) + Seen(b)
  {
    if a == [] {
      assert a + b == b;
    } else {
      assert (a + b)[0] == a[0] && (a + b)[1..] == a[1..] + b;
      SeenConcat(a[1..], b);
    }
  }

  lemma SeenCons(e: Event, rest: seq<Event>)
    ensures Seen([e] + rest) == (if e.Internal? then [] else [e]) + Seen(rest)
  {
    assert ([e] + rest)[1..] == rest;
  }

  lemma LeadsOn(s: State, m: State, n: State, a: seq<Event>, b: seq<Event>)
    requires Leads(s, m, a) && Leads(m, n, b)
    ensures Leads(s, n, a + b)
  {
    hide Runs, Final, Events, Seen;
    var x :| Runs(s, x) && Final(s, x) == m && Seen(Events(s, x)) == a;
    var y :| Runs(m, y) && Final(m, y) == n && Seen(Events(m, y)) == b;
    RunsConcat(s, x, y);
    EventsConcat(s, x, y);
    SeenConcat(Events(s, x), Events(m, y));
  }

  lemma LeadsStep(s: State, step: Step)
    requires Enabled(s, step)
    ensures Leads(s, Apply(s, step), if EventOf(s, step).Internal? then [] else [EventOf(s, step)])
  {
    hide Enabled, Apply, EventOf;
    var n := Apply(s, step);
    assert Runs(n, []) && Final(n, []) == n && Events(n, []) == [];
    assert [step][1..] == [] && Runs(s, [step]) && Final(s, [step]) == n;
    assert Events(s, [step]) == [EventOf(s, step)] + [];
    SeenCons(EventOf(s, step), []);
    assert Seen([]) == [];
  }

  lemma {:induction false} ExplainsSeen(a: Spec, events: seq<Event>, b: Spec)
    requires Explains(a, events, b)
    ensures Explains(a, Seen(events), b)
    decreases |events|
  {
    if events != [] {
      var mid :| Allowed(a, events[0], mid) && Explains(mid, events[1..], b);
      ExplainsSeen(mid, events[1..], b);
      assert ([events[0]] + Seen(events[1..]))[1..] == Seen(events[1..]);
      assert [] + Seen(events[1..]) == Seen(events[1..]);
    }
  }

  /** What the observer sees is explained by the plain map. */
  lemma LeadsSim(s: State, spec: Spec, n: State, seen: seq<Event>) returns (last: Spec)
    requires Sim(s, spec) && Leads(s, n, seen)
    ensures Sim(n, last) && Explains(spec, seen, last)
  {
    hide Sim, Runs, Final, Events, Seen, Explains;
    var steps :| Runs(s, steps) && Final(s, steps) == n && Seen(Events(s, steps)) == seen;
    last := RunRefines(s, spec, steps);
    ExplainsSeen(spec, Events(s, steps), last);
  }

  /** An operation that is called and returns has exactly its effect. */
  lemma CallThenReturn(s: State, m: map<Key, Value>, n: State, op: Op)
    requires Sim(s, Spec(m, None)) && Leads(s, n, [Call(op), Return])
    ensures Sim(n, Spec(Effect(m, op), None))
  {
    hide Sim, Leads;
    var spec, seen := Spec(m, None), [Call(op), Return];
    var last := LeadsSim(s, spec, n, seen);
    var one :| Allowed(spec, seen[0], one) && Explains(one, seen[1..], last);
    assert seen[1..] == [Return];
    var two :| Allowed(one, [Return][0], two) && Explains(two, [Return][1..], last);
    assert [Return][1..] == [];
  }

  /** Steps that nobody sees leave the map as it is. */
  lemma QuietlySame(s: State, spec: Spec, n: State)
    requires Sim(s, spec) && Leads(s, n, [])
    ensures Sim(n, spec)
  {
    hide Sim, Leads;
    var last := LeadsSim(s, spec, n, []);
  }
}
