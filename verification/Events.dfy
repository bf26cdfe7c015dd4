// What a statement does to variables, in evaluation order: the interface
// between the AST visitors and the dataflow passes.
module Events {

  datatype Event = Read(v: nat) | Def(v: nat)

  function Defs(events: seq<Event>): set<nat> {
    set e | e in events && e.Def? :: e.v
  }

  function Reads(events: seq<Event>): set<nat> {
    set e | e in events && e.Read? :: e.v
  }

  lemma DefsConcat(a: seq<Event>, b: seq<Event>)
    ensures Defs(a + b) == Defs(a) + Defs(b)
    ensures Reads(a + b) == Reads(a) + Reads(b)
  {
  }

  lemma DefsStep(events: seq<Event>, k: nat)
    requires k < |events|
    ensures Defs(events[..k + 1]) == Defs(events[..k]) + if events[k].Def? then {events[k].v} else {}
    ensures Reads(events[..k + 1]) == Reads(events[..k]) + if events[k].Read? then {events[k].v} else {}
  {
    assert events[..k + 1] == events[..k] + [events[k]];
    DefsConcat(events[..k], [events[k]]);
  }
}
