// What each node of a program reads and writes, as a pass sees it and as it
// happens.
module NodeEvents {
  import opened Structured
  import Events

  type Uses = Event -> seq<Events.Event>

  function Flat(uses: Uses, t: seq<Event>): seq<Events.Event> {
    if t == [] then [] else uses(t[0]) + Flat(uses, t[1..])
  }

  lemma {:induction false} FlatJoin(uses: Uses, t: seq<Event>, u: seq<Event>)
    ensures Flat(uses, t + u) == Flat(uses, t) + Flat(uses, u)
  {
    if t == [] {
      assert t + u == u;
    } else {
      assert (t + u)[1..] == t[1..] + u;
      FlatJoin(uses, t[1..], u);
      assert uses(t[0]) + (Flat(uses, t[1..]) + Flat(uses, u)) == (uses(t[0]) + Flat(uses, t[1..])) + Flat(uses, u);
    }
  }

  lemma FlatOne(uses: Uses, e: Event)
    ensures Flat(uses, [e]) == uses(e)
  {
    assert [e][1..] == [];
    assert Flat(uses, [e]) == uses(e) + [];
  }

  lemma {:induction false} FlatNothing(uses: Uses, t: seq<Event>)
    requires forall e :: e in t ==> uses(e) == []
    ensures Flat(uses, t) == []
  {
    if t != [] {
      FlatNothing(uses, t[1..]);
    }
  }

  // Definite assignment and most passes: a deferred statement counts where it
  // is written, and nothing counts where it runs.
  ghost predicate AtSite(sees: Uses) {
    forall e: Event :: Mute(e) || e.Run? ==> sees(e) == []
  }

  // Liveness: it counts where it runs.
  ghost predicate AtRun(sees: Uses) {
    forall e: Event :: Mute(e) || e.Registered? ==> sees(e) == []
  }

  // What happens, if a pass sees each statement at its site as it is.
  function Does(sees: Uses): Uses {
    (e: Event) =>
      match e
      case Registered(a) => []
      case Run(a) => sees(Registered(a))
      case _ => sees(e)
  }

  // Each read of a declared variable comes after a write of it.
  ghost predicate ReadsAssigned(uses: Uses, t: seq<Event>, declared: set<nat>) {
    forall n: nat, j: nat :: n < |t| && j < |uses(t[n])| ==> ReadAssigned(uses, t, declared, n, j)
  }

  predicate ReadAssigned(uses: Uses, t: seq<Event>, declared: set<nat>, n: nat, j: nat)
    requires n < |t| && j < |uses(t[n])|
  {
    var e := uses(t[n])[j];
    e.Read? && e.v in declared ==> e.v in Events.Defs(Flat(uses, t[..n])) || e.v in Events.Defs(uses(t[n])[..j])
  }

  // A variable is written in a trace exactly if some node of it writes it.
  lemma {:induction false} DefsOfFlat(uses: Uses, t: seq<Event>, v: nat)
    ensures v in Events.Defs(Flat(uses, t)) <==> exists n: nat :: n < |t| && v in Events.Defs(uses(t[n]))
  {
    if t != [] {
      DefsOfFlat(uses, t[1..], v);
      Events.DefsConcat(uses(t[0]), Flat(uses, t[1..]));
      if v in Events.Defs(Flat(uses, t[1..])) {
        var n: nat :| n < |t[1..]| && v in Events.Defs(uses(t[1..][n]));
        assert t[n + 1] == t[1..][n];
      }
      if n: nat :| n < |t| && v in Events.Defs(uses(t[n])) && n > 0 {
        assert t[1..][n - 1] == t[n];
      }
    }
  }
}
