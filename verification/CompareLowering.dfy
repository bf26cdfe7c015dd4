// `compare` with patterns and guards: one chain of tests in source order, and
// why it enters the arm the first matching header names.
module CompareLowering {
  import opened Options
  import opened PatternCode

  datatype Header = Header(pat: Pat, guard: Option<nat>)

  // All headers of an arm lead to one body, so each binds all of the arm's names.
  datatype Arm = Arm(names: seq<nat>, headers: seq<Header>)

  predicate Distinct(names: seq<nat>) {
    forall i, j :: 0 <= i < j < |names| ==> names[i] != names[j]
  }

  // What name resolution has checked.
  predicate Resolved(arm: Arm) {
    && Distinct(arm.names)
    && forall h :: h in arm.headers ==> Names(h.pat) == set x | x in arm.names
  }

  // ---- The meaning: the first header, in source order, that matches ----

  datatype Choice = Chosen(arm: nat, vars: map<nat, Val>) | Nothing

  predicate Accepts(h: Header, x: Input, outer: map<nat, Val>) {
    && Match(h.pat, x.subject).Some?
    && (h.guard.Some? ==> x.guards(h.guard.value, outer + Match(h.pat, x.subject).value))
  }

  // From header `k` of arm `i` on; a body sees its bindings over the
  // variables around the compare.
  function Select(arms: seq<Arm>, i: nat, k: nat, x: Input, outer: map<nat, Val>): Choice
    requires i < |arms| ==> k <= |arms[i].headers|
    decreases |arms| - i, if i < |arms| then |arms[i].headers| - k else 0
  {
    if i >= |arms| then Nothing
    else if k == |arms[i].headers| then Select(arms, i + 1, 0, x, outer)
    else if Accepts(arms[i].headers[k], x, outer) then Chosen(i, outer + Match(arms[i].headers[k].pat, x.subject).value)
    else Select(arms, i, k + 1, x, outer)
  }

  // The machine comes to the chosen arm's body, with the chosen variables in
  // scope there, or past the compare.
  ghost predicate Picks(code: Code, x: Input, c: Config, choice: Choice, hasOther: bool) {
    exists d :: Gets(code, x, c, d) && d.b < |code| && d.at == 0 && code[d.b].items == [] &&
      match choice
      case Chosen(arm, vars) => code[d.b].term.Enter? && code[d.b].term.arm == arm && Env(code[d.b].term.named, d.s) == vars
      case Nothing => code[d.b].term == if hasOther then Otherwise else Done
  }

  // ---- The same, by the shape of the subject ----

  // The header's pattern binds `bs`, and its guard holds over them.
  ghost predicate Takes(h: Header, x: Input, outer: map<nat, Val>, bs: map<nat, Val>) {
    Binds(h.pat, x.subject, bs) && (h.guard.Some? ==> x.guards(h.guard.value, outer + bs))
  }

  ghost predicate Refuses(h: Header, x: Input, outer: map<nat, Val>) {
    forall bs :: !Takes(h, x, outer, bs)
  }

  predicate IsHeader(arms: seq<Arm>, i: nat, k: nat) {
    i < |arms| && k < |arms[i].headers|
  }

  predicate Earlier(j: nat, l: nat, i: nat, k: nat) {
    j < i || (j == i && l < k)
  }

  ghost predicate RefusedBefore(arms: seq<Arm>, x: Input, outer: map<nat, Val>, i: nat, k: nat) {
    forall j: nat, l: nat :: IsHeader(arms, j, l) && Earlier(j, l, i, k) ==> Refuses(arms[j].headers[l], x, outer)
  }

  ghost predicate ShapedForAll(arms: seq<Arm>, v: Val) {
    forall i: nat, k: nat :: IsHeader(arms, i, k) ==> Shaped(arms[i].headers[k].pat, v)
  }

  // The first header that takes the subject decides, with its own bindings.
  ghost predicate FirstDecides(arms: seq<Arm>, x: Input, outer: map<nat, Val>, choice: Choice) {
    && (RefusedBefore(arms, x, outer, |arms|, 0) ==> choice == Nothing)
    && forall i: nat, k: nat, bs ::
         IsHeader(arms, i, k) && RefusedBefore(arms, x, outer, i, k) && Takes(arms[i].headers[k], x, outer, bs) ==>
           choice == Chosen(i, outer + bs)
  }

  lemma AcceptsIsTakes(h: Header, x: Input, outer: map<nat, Val>, bs: map<nat, Val>)
    requires Shaped(h.pat, x.subject)
    ensures Takes(h, x, outer, bs) <==> Accepts(h, x, outer) && Match(h.pat, x.subject) == Some(bs)
    ensures Refuses(h, x, outer) <==> !Accepts(h, x, outer)
  {
    hide Match, Binds, Shaped;
    forall cs
      ensures Takes(h, x, outer, cs) <==> Accepts(h, x, outer) && Match(h.pat, x.subject) == Some(cs)
    {
      MatchIsBinds(h.pat, x.subject, cs);
    }
    if Accepts(h, x, outer) {
      assert Takes(h, x, outer, Match(h.pat, x.subject).value);
    }
  }

  // From header `k` of arm `i` on, the choice is what the first header that
  // takes the subject says.
  lemma {:induction false} SelectIsFirst(arms: seq<Arm>, i: nat, k: nat, x: Input, outer: map<nat, Val>)
    requires (i < |arms| ==> k <= |arms[i].headers|) && (i >= |arms| ==> i == |arms| && k == 0)
    requires ShapedForAll(arms, x.subject) && RefusedBefore(arms, x, outer, i, k)
    ensures FirstDecides(arms, x, outer, Select(arms, i, k, x, outer))
    decreases |arms| - i, if i < |arms| then |arms[i].headers| - k else 0
  {
    hide Takes, Accepts, Shaped;
    if i < |arms| && k == |arms[i].headers| {
      SelectIsFirst(arms, i + 1, 0, x, outer);
    } else if i < |arms| {
      assert IsHeader(arms, i, k);
      var h := arms[i].headers[k];
      forall bs
        ensures Takes(h, x, outer, bs) <==> Accepts(h, x, outer) && Match(h.pat, x.subject) == Some(bs)
        ensures Refuses(h, x, outer) <==> !Accepts(h, x, outer)
      {
        AcceptsIsTakes(h, x, outer, bs);
      }
      if Accepts(h, x, outer) {
        FirstIsAlone(arms, i, k, x, outer);
      } else {
        SelectIsFirst(arms, i, k + 1, x, outer);
      }
    }
  }

  lemma FirstIsAlone(arms: seq<Arm>, i: nat, k: nat, x: Input, outer: map<nat, Val>)
    requires IsHeader(arms, i, k) && RefusedBefore(arms, x, outer, i, k) && Accepts(arms[i].headers[k], x, outer)
    requires forall bs :: Takes(arms[i].headers[k], x, outer, bs) <==> Match(arms[i].headers[k].pat, x.subject) == Some(bs)
    ensures FirstDecides(arms, x, outer, Chosen(i, outer + Match(arms[i].headers[k].pat, x.subject).value))
  {
    hide Takes, Match;
    var bs := Match(arms[i].headers[k].pat, x.subject).value;
    assert Takes(arms[i].headers[k], x, outer, bs);
    assert !Refuses(arms[i].headers[k], x, outer);
    assert Earlier(i, k, |arms|, 0);
    forall j: nat, l: nat, cs | IsHeader(arms, j, l) && RefusedBefore(arms, x, outer, j, l) && Takes(arms[j].headers[l], x, outer, cs)
      ensures j == i && l == k
    {
      assert !Refuses(arms[j].headers[l], x, outer);
      assert !Earlier(j, l, i, k) && !Earlier(i, k, j, l);
    }
  }

  // The machine goes where the first header that takes the subject says.
  ghost predicate EntersFirst(code: Code, arms: seq<Arm>, b: nat, at: nat, hasOther: bool, outer: map<nat, nat>) {
    forall x: Input, s: Slots :: ShapedForAll(arms, x.subject) ==>
      GoesFirst(code, arms, x, Env(outer, s), Config(b, at, s), hasOther)
  }

  ghost predicate GoesFirst(code: Code, arms: seq<Arm>, x: Input, outer: map<nat, Val>, c: Config, hasOther: bool) {
    exists choice :: FirstDecides(arms, x, outer, choice) && Picks(code, x, c, choice, hasOther)
  }

  lemma ChainEntersFirst(code: Code, arms: seq<Arm>, b: nat, at: nat, hasOther: bool, outer: map<nat, nat>)
    requires ChainOk(code, arms, 0, 0, b, at, hasOther, outer)
    ensures EntersFirst(code, arms, b, at, hasOther, outer)
  {
    hide Picks, FirstDecides, ShapedForAll, Env;
    forall x: Input, s: Slots | ShapedForAll(arms, x.subject)
      ensures GoesFirst(code, arms, x, Env(outer, s), Config(b, at, s), hasOther)
    {
      var choice := Select(arms, 0, 0, x, Env(outer, s));
      SelectIsFirst(arms, 0, 0, x, Env(outer, s));
      assert Picks(code, x, Config(b, at, s), choice, hasOther);
    }
  }

  // ---- Code under construction ----

  // `final` can still come out of `now`: closed blocks of the region stay, and
  // open ones, still without a terminator, grow.
  ghost predicate Keeps(b: nat, n: nat, now: Code, open: set<nat>, final: Code) {
    && |now| <= |final|
    && forall k: nat :: k < |now| && (k == b || n <= k) ==>
         if k in open then now[k].items <= final[k].items else final[k] == now[k]
  }

  ghost predicate Extends(before: Code, b: nat, after: Code) {
    && |before| <= |after|
    && (forall k: nat :: k < |before| && k != b ==> after[k] == before[k])
    && (b < |before| ==> before[b].items <= after[b].items)
  }

  ghost predicate LaidTest(p: Pat, path: seq<Step>, slots: map<nat, nat>, b: nat, at: nat, n: nat, now: Code,
      e: nat, fail: nat)
    requires e < |now|
  {
    forall final: Code :: Keeps(b, n, now, {e}, final) ==> TestOk(final, p, path, slots, b, at, e, |now[e].items|, fail)
  }

  ghost predicate LaidFields(fields: seq<FieldPat>, payload: bool, path: seq<Step>, slots: map<nat, nat>, b: nat,
      at: nat, n: nat, now: Code, e: nat, fail: nat)
    requires e < |now|
  {
    forall final: Code :: Keeps(b, n, now, {e}, final) ==> FieldsOk(final, fields, payload, path, slots, b, at, e, |now[e].items|, fail)
  }

  class Lowering {
    var code: Code
    var insert: nat
    var named: map<nat, nat>   // NamedValues: the slot each visible name has
    var slotCount: nat

    ghost predicate Valid()
      reads this
    {
      insert < |code| && code[insert].term == Open
    }

    constructor (outer: map<nat, nat>, count: nat)
      ensures Valid() && code == [Node([], Open)] && insert == 0 && named == outer && slotCount == count
    {
      code := [Node([], Open)];
      insert, named, slotCount := 0, outer, count;
    }

    method CreateBlock() returns (b: nat)
      modifies this`code
      ensures b == |old(code)| && code == old(code) + [Node([], Open)]
    {
      b := |code|;
      code := code + [Node([], Open)];
    }

    method Terminate(t: Term)
      requires Valid()
      modifies this`code
      ensures code == old(code)[insert := Node(old(code[insert].items), t)]
    {
      code := code[insert := Node(code[insert].items, t)];
    }

    // emitPatternTest: on a match the next test goes where `insert` is left; a
    // mismatch has branched to `fail`.
    method EmitPatternTest(p: Pat, path: seq<Step>, fail: nat, slots: map<nat, nat>)
      requires Valid() && Names(p) <= slots.Keys && Injective(slots)
      modifies this`code, this`insert
      ensures Valid() && Extends(old(code), old(insert), code) && (insert == old(insert) || |old(code)| <= insert)
      ensures LaidTest(p, path, slots, old(insert), |old(code[insert].items)|, |old(code)|, code, insert, fail)
      decreases p, 1
    {
      hide LaidTest, LaidFields;
      ghost var was, b := code, insert;
      match p
      case Wild =>
        WildLaid(p, path, slots, b, was, fail);
      case Bind(name) =>
        code := code[insert := Node(code[insert].items + [Store(slots[name], path)], Open)];
        BindLaid(p, path, slots, b, was, code, fail);
      case Lit(k) =>
        var next := CreateBlock();
        Terminate(IfEq(path, k, next, fail));
        insert := next;
        LitLaid(p, path, slots, b, was, code, next, fail);
      case StructPat(byRef, fields) =>
        EmitFields(fields, false, if byRef then path + [Deref] else path, fail, slots);
        StructLaid(p, path, slots, b, |was[b].items|, |was|, code, insert, fail);
      case VariantPat(tag, fields) =>
        var ok := CreateBlock();
        Terminate(IfTag(path, tag, ok, fail));
        insert := ok;
        ghost var tested := code;
        if exists f :: f in fields && !f.sub.Wild? {
          EmitFields(fields, true, path, fail, slots);
        } else {
          NoPayloadLaid(fields, path, slots, code, ok, fail);
        }
        VariantLaid(p, path, slots, b, was, tested, ok, code, insert, fail);
    }

    method EmitFields(fields: seq<FieldPat>, payload: bool, path: seq<Step>, fail: nat, slots: map<nat, nat>)
      requires Valid() && NamesAll(fields) <= slots.Keys && Injective(slots)
      modifies this`code, this`insert
      ensures Valid() && Extends(old(code), old(insert), code) && (insert == old(insert) || |old(code)| <= insert)
      ensures LaidFields(fields, payload, path, slots, old(insert), |old(code[insert].items)|, |old(code)|, code,
          insert, fail)
      decreases fields, 0
    {
      hide LaidTest, LaidFields, Injective;
      ghost var was, b := code, insert;
      NoFieldsLaid(payload, path, slots, b, was, fail);
      assert fields[..0] == [];
      for i := 0 to |fields|
        invariant Valid() && Extends(was, b, code) && (insert == b || |was| <= insert)
        invariant LaidFields(fields[..i], payload, path, slots, b, |was[b].items|, |was|, code, insert, fail)
      {
        ghost var mid, e := code, insert;
        SubNames(fields, i);
        EmitField(fields[i], payload, path, fail, slots);
        FieldLaid(fields, i, payload, path, slots, b, |was[b].items|, |was|, mid, e, code, insert, fail);
      }
      assert fields[..|fields|] == fields;
    }

    // A wildcard field needs no load.
    method EmitField(f: FieldPat, payload: bool, path: seq<Step>, fail: nat, slots: map<nat, nat>)
      requires Valid() && Names(f.sub) <= slots.Keys && Injective(slots)
      modifies this`code, this`insert
      ensures Valid() && Extends(old(code), old(insert), code) && (insert == old(insert) || |old(code)| <= insert)
      ensures LaidTest(f.sub, path + [StepTo(payload, f.index)], slots, old(insert), |old(code[insert].items)|,
          |old(code)|, code, insert, fail)
      decreases f, 0
    {
      if f.sub.Wild? {
        WildLaid(f.sub, path + [StepTo(payload, f.index)], slots, insert, code, fail);
      } else {
        EmitPatternTest(f.sub, path + [StepTo(payload, f.index)], fail, slots);
      }
    }

    // One slot a name, over whatever the names meant outside.
    method OpenArm(names: seq<nat>) returns (slots: map<nat, nat>)
      requires Distinct(names)
      modifies this`named, this`slotCount
      ensures slots.Keys == (set x | x in names) && Injective(slots)
      ensures forall x :: x in slots ==> old(slotCount) <= slots[x] < slotCount
      ensures named == old(named) + slots && old(slotCount) <= slotCount
    {
      hide Injective;
      slots := map[];
      NoSlots();
      for i := 0 to |names|
        invariant slots.Keys == (set x | x in names[..i]) && Injective(slots)
        invariant old(slotCount) <= slotCount
        invariant forall x :: x in slots ==> old(slotCount) <= slots[x] < slotCount
        invariant named == old(named) + slots
      {
        assert names[..i + 1] == names[..i] + [names[i]];
        FreshSlot(slots, names[i], slotCount);
        slots := slots[names[i] := slotCount];
        named := named[names[i] := slotCount];
        slotCount := slotCount + 1;
      }
      assert names[..|names|] == names;
    }

    // One header: its test and guard, and a block for the next one.
    method LowerHeader(arms: seq<Arm>, i: nat, k: nat, body: nat, slots: map<nat, nat>, ghost b: nat, ghost at: nat, ghost n: nat,
        ghost hasOther: bool, ghost outer: map<nat, nat>, ghost low: nat)
      requires Valid() && i < |arms| && k < |arms[i].headers| && Injective(slots)
      requires Names(arms[i].headers[k].pat) == slots.Keys && named == outer + slots
      requires (forall x :: x in outer ==> outer[x] < low) && forall x :: x in slots ==> low <= slots[x]
      requires n == body < |code| && code[body] == Node([], Open) && insert != body && (insert == b || n <= insert)
      requires HeadersSoFar(arms, i, k, b, at, n, code, insert, body, hasOther, outer, named)
      modifies this`code, this`insert
      ensures Valid() && Extends(old(code), old(insert), code)
      ensures body < |code| && code[body] == Node([], Open) && |old(code)| <= insert
      ensures HeadersSoFar(arms, i, k + 1, b, at, n, code, insert, body, hasOther, outer, named)
    {
      hide LaidTest, HeadersSoFar, Injective, Names;
      var h := arms[i].headers[k];
      ghost var start, from := code, insert;
      var fail := CreateBlock();
      ghost var begun := code;
      EmitPatternTest(h.pat, [], fail, slots);
      ghost var tested, e := code, insert;
      Terminate(if h.guard.Some? then IfGuard(h.guard.value, named, body, fail) else Br(body));
      insert := fail;
      HeaderLaid(arms, i, k, b, at, n, start, from, begun, tested, e, code, fail, body, hasOther, outer, named, slots, low);
    }

    // An arm's headers in order, each failing into the next, then its body;
    // the names go back to what they meant before.
    method LowerArm(arms: seq<Arm>, i: nat, ghost hasOther: bool, ghost low: nat)
      requires Valid() && i < |arms| && Resolved(arms[i])
      requires low <= slotCount && forall x :: x in named ==> named[x] < low
      modifies this
      ensures Valid() && Extends(old(code), old(insert), code) && named == old(named) && old(slotCount) <= slotCount
      ensures insert == old(insert) || |old(code)| <= insert
      ensures LaidArm(arms, i, old(insert), |old(code[insert].items)|, |old(code)|, code, insert, hasOther, named)
    {
      hide LaidArm, HeadersSoFar, LaidTest, Keeps, Resolved;
      ghost var was, b, at, n := code, insert, |code[insert].items|, |code|;
      var saved := named;
      ResolvedNames(arms[i]);
      var slots := OpenArm(arms[i].names);
      var body := CreateBlock();
      HeadersBegin(arms, i, b, at, n, code, body, hasOther, saved, named);
      ghost var visible := named;
      for k := 0 to |arms[i].headers|
        invariant Valid() && Extends(was, b, code) && n == body < |code| && code[body] == Node([], Open) && insert != body
        invariant insert == b || n <= insert
        invariant named == visible && old(slotCount) <= slotCount
        invariant HeadersSoFar(arms, i, k, b, at, n, code, insert, body, hasOther, saved, visible)
      {
        LowerHeader(arms, i, k, body, slots, b, at, n, hasOther, saved, low);
      }
      ghost var open := code;
      code := code[body := Node(code[body].items, Enter(i, named))];
      ArmEnds(arms, i, b, at, n, open, code, insert, body, hasOther, saved, visible);
      named := saved;
    }

    // codegenPatterns: the arms in order, then `otherwise` or the end.
    method LowerCompare(arms: seq<Arm>, hasOther: bool)
      requires Valid() && (forall i: nat :: i < |arms| ==> Resolved(arms[i]))
      requires forall x :: x in named ==> named[x] < slotCount
      modifies this
      ensures named == old(named) && old(slotCount) <= slotCount
      ensures ChainOk(code, arms, 0, 0, old(insert), |old(code[insert].items)|, hasOther, named)
      ensures EntersFirst(code, arms, old(insert), |old(code[insert].items)|, hasOther, named)
    {
      hide ChainOk, EntersFirst, ArmsSoFar, LaidArm, Keeps, Extends, Resolved;
      ghost var b, at, n, low, outer := insert, |code[insert].items|, |code|, slotCount, named;
      var merge := CreateBlock();
      var other := merge;
      if hasOther {
        other := CreateBlock();
      }
      ArmsBegin(arms, b, at, n, code, {merge, other}, hasOther, named);
      for i := 0 to |arms|
        invariant Valid() && named == outer && low <= slotCount
        invariant n == merge <= other < |code| && code[merge] == code[other] == Node([], Open)
        invariant insert == b || other < insert
        invariant ArmsSoFar(arms, i, b, at, n, code, insert, {merge, other}, hasOther, outer)
      {
        ghost var start, from := code, insert;
        LowerArm(arms, i, hasOther, low);
        ArmFollows(arms, i, b, at, n, start, from, code, insert, merge, other, hasOther, outer);
      }
      ghost var open, e := code, insert;
      Terminate(Br(other));
      if hasOther {
        code := code[other := Node(code[other].items, Otherwise)];
      }
      code := code[merge := Node(code[merge].items, Done)];
      ArmsEnd(arms, b, at, n, open, e, code, merge, other, hasOther, outer);
      ChainEntersFirst(code, arms, b, at, hasOther, outer);
    }
  }

  lemma NoSlots()
    ensures Injective(map[])
  {
  }

  lemma FreshSlot(slots: map<nat, nat>, x: nat, k: nat)
    requires Injective(slots) && forall y :: y in slots ==> slots[y] < k
    ensures Injective(slots[x := k])
  {
  }

  // ---- The region each test lays down ----

  lemma {:induction false} SubNames(fields: seq<FieldPat>, i: nat)
    requires i < |fields|
    ensures Names(fields[i].sub) <= NamesAll(fields)
    decreases |fields|
  {
    if i < |fields| - 1 {
      SubNames(fields[..|fields| - 1], i);
    }
  }

  lemma WildLaid(p: Pat, path: seq<Step>, slots: map<nat, nat>, b: nat, now: Code, fail: nat)
    requires p.Wild? && b < |now|
    ensures LaidTest(p, path, slots, b, |now[b].items|, |now|, now, b, fail)
  {
    forall final: Code | Keeps(b, |now|, now, {b}, final)
      ensures TestOk(final, p, path, slots, b, |now[b].items|, b, |now[b].items|, fail)
    {
      WildOk(final, p, path, slots, b, |now[b].items|, fail);
    }
  }

  lemma BindLaid(p: Pat, path: seq<Step>, slots: map<nat, nat>, b: nat, was: Code, now: Code, fail: nat)
    requires p.Bind? && p.name in slots && b < |was|
    requires now == was[b := Node(was[b].items + [Store(slots[p.name], path)], Open)]
    ensures LaidTest(p, path, slots, b, |was[b].items|, |was|, now, b, fail)
  {
    var at := |was[b].items|;
    forall final: Code | Keeps(b, |was|, now, {b}, final)
      ensures TestOk(final, p, path, slots, b, at, b, at + 1, fail)
    {
      assert final[b].items[at] == now[b].items[at];
      BindOk(final, p, path, slots, b, at, fail);
    }
  }

  lemma LitLaid(p: Pat, path: seq<Step>, slots: map<nat, nat>, b: nat, was: Code, now: Code, next: nat, fail: nat)
    requires p.Lit? && b < |was| && next == |was| && |now| == next + 1 && now[next] == Node([], Open)
    requires now[b] == Node(was[b].items, IfEq(path, p.k, next, fail))
    ensures LaidTest(p, path, slots, b, |was[b].items|, |was|, now, next, fail)
  {
    forall final: Code | Keeps(b, |was|, now, {next}, final)
      ensures TestOk(final, p, path, slots, b, |was[b].items|, next, 0, fail)
    {
      LitOk(final, p, path, slots, b, |was[b].items|, next, fail);
    }
  }

  lemma StructLaid(p: Pat, path: seq<Step>, slots: map<nat, nat>, b: nat, at: nat, n: nat, now: Code, e: nat, fail: nat)
    requires p.StructPat? && e < |now|
    requires LaidFields(p.fields, false, if p.byRef then path + [Deref] else path, slots, b, at, n, now, e, fail)
    ensures LaidTest(p, path, slots, b, at, n, now, e, fail)
  {
    hide TestOk, FieldsOk;
    forall final: Code | Keeps(b, n, now, {e}, final)
      ensures TestOk(final, p, path, slots, b, at, e, |now[e].items|, fail)
    {
      StructOk(final, p, path, slots, b, at, e, |now[e].items|, fail);
    }
  }

  lemma VariantLaid(p: Pat, path: seq<Step>, slots: map<nat, nat>, b: nat, was: Code, tested: Code, ok: nat,
      now: Code, e: nat, fail: nat)
    requires p.VariantPat? && Injective(slots) && b < |was| && ok == |was| && |tested| == ok + 1
    requires tested[b] == Node(was[b].items, IfTag(path, p.tag, ok, fail))
    requires e < |now| && (e == ok || ok < e) && Extends(tested, ok, now)
    requires LaidFields(p.fields, true, path, slots, ok, 0, |tested|, now, e, fail)
    ensures LaidTest(p, path, slots, b, |was[b].items|, |was|, now, e, fail)
  {
    hide TestOk, FieldsOk, Injective;
    forall final: Code | Keeps(b, |was|, now, {e}, final)
      ensures TestOk(final, p, path, slots, b, |was[b].items|, e, |now[e].items|, fail)
    {
      assert Keeps(ok, |tested|, now, {e}, final);
      assert final[b] == now[b] == tested[b];
      VariantOk(final, p, path, slots, b, |was[b].items|, ok, e, |now[e].items|, fail);
    }
  }

  lemma NoFieldsLaid(payload: bool, path: seq<Step>, slots: map<nat, nat>, b: nat, now: Code, fail: nat)
    requires b < |now|
    ensures LaidFields([], payload, path, slots, b, |now[b].items|, |now|, now, b, fail)
  {
    forall final: Code | Keeps(b, |now|, now, {b}, final)
      ensures FieldsOk(final, [], payload, path, slots, b, |now[b].items|, b, |now[b].items|, fail)
    {
      FieldsStart(final, path, payload, slots, b, |now[b].items|, fail);
    }
  }

  // A variant pattern that names no payload reads none.
  lemma NoPayloadLaid(fields: seq<FieldPat>, path: seq<Step>, slots: map<nat, nat>, now: Code, b: nat, fail: nat)
    requires b < |now| && now[b] == Node([], Open) && forall f :: f in fields ==> f.sub.Wild?
    ensures LaidFields(fields, true, path, slots, b, 0, |now|, now, b, fail)
  {
    forall final: Code | Keeps(b, |now|, now, {b}, final)
      ensures FieldsOk(final, fields, true, path, slots, b, 0, b, 0, fail)
    {
      forall x: Input, s: Slots
        ensures Lands(final, x, Config(b, 0, s), MatchAll(fields, Reach(x.subject, path), true), slots, b, 0, fail)
      {
        WildFieldsMatch(fields, Reach(x.subject, path), true);
        LandsHere(final, x, Config(b, 0, s), slots, fail);
      }
    }
  }

  lemma FieldLaid(fields: seq<FieldPat>, i: nat, payload: bool, path: seq<Step>, slots: map<nat, nat>, b: nat,
      at: nat, n: nat, mid: Code, e: nat, now: Code, e2: nat, fail: nat)
    requires i < |fields| && Injective(slots) && n <= |mid|
    requires e < |mid| && e2 < |now| && (e == b || n <= e) && (e2 == e || |mid| <= e2) && Extends(mid, e, now)
    requires LaidFields(fields[..i], payload, path, slots, b, at, n, mid, e, fail)
    requires LaidTest(fields[i].sub, path + [StepTo(payload, fields[i].index)], slots, e, |mid[e].items|, |mid|,
        now, e2, fail)
    ensures LaidFields(fields[..i + 1], payload, path, slots, b, at, n, now, e2, fail)
  {
    hide TestOk, FieldsOk, Injective;
    forall final: Code | Keeps(b, n, now, {e2}, final)
      ensures FieldsOk(final, fields[..i + 1], payload, path, slots, b, at, e2, |now[e2].items|, fail)
    {
      assert Keeps(b, n, mid, {e}, final);
      assert Keeps(e, |mid|, now, {e2}, final);
      FieldsStep(final, fields, i, payload, path, slots, b, at, e, |mid[e].items|, e2, |now[e2].items|, fail);
    }
  }

  // ---- Arms ----

  // From (b, at) on, the chain picks what the source order picks from header
  // `k` of arm `i`.
  ghost predicate ChainOk(code: Code, arms: seq<Arm>, i: nat, k: nat, b: nat, at: nat, hasOther: bool,
      outer: map<nat, nat>)
    requires i < |arms| ==> k <= |arms[i].headers|
  {
    forall x: Input, s: Slots :: Picks(code, x, Config(b, at, s), Select(arms, i, k, x, Env(outer, s)), hasOther)
  }

  ghost predicate LaidArm(arms: seq<Arm>, i: nat, b: nat, at: nat, n: nat, now: Code, e: nat, hasOther: bool,
      outer: map<nat, nat>)
    requires i < |arms| && e < |now|
  {
    forall final: Code :: Keeps(b, n, now, {e}, final) && ChainOk(final, arms, i + 1, 0, e, |now[e].items|, hasOther, outer) ==>
      ChainOk(final, arms, i, 0, b, at, hasOther, outer)
  }

  // The arm's first `k` headers are laid; its body block is still to fill.
  ghost predicate HeadersSoFar(arms: seq<Arm>, i: nat, k: nat, b: nat, at: nat, n: nat, now: Code, e: nat,
      body: nat, hasOther: bool, outer: map<nat, nat>, named: map<nat, nat>)
    requires i < |arms| && k <= |arms[i].headers| && e < |now|
  {
    forall final: Code ::
      && Keeps(b, n, now, {e, body}, final) && body < |final| && final[body] == Node([], Enter(i, named))
      && ChainOk(final, arms, i, k, e, |now[e].items|, hasOther, outer)
      ==> ChainOk(final, arms, i, 0, b, at, hasOther, outer)
  }

  lemma ResolvedNames(arm: Arm)
    requires Resolved(arm)
    ensures Distinct(arm.names)
    ensures forall k: nat :: k < |arm.headers| ==> Names(arm.headers[k].pat) == set x | x in arm.names
  {
  }

  lemma HeadersBegin(arms: seq<Arm>, i: nat, b: nat, at: nat, n: nat, now: Code, body: nat, hasOther: bool,
      outer: map<nat, nat>, named: map<nat, nat>)
    requires i < |arms| && b < |now| && at == |now[b].items|
    ensures HeadersSoFar(arms, i, 0, b, at, n, now, b, body, hasOther, outer, named)
  {
  }

  lemma HeaderLaid(arms: seq<Arm>, i: nat, k: nat, b: nat, at: nat, n: nat, start: Code, from: nat, begun: Code,
      tested: Code, e: nat, now: Code, fail: nat, body: nat,
      hasOther: bool, outer: map<nat, nat>, named: map<nat, nat>, slots: map<nat, nat>, low: nat)
    requires i < |arms| && k < |arms[i].headers|
    requires Names(arms[i].headers[k].pat) == slots.Keys && named == outer + slots
    requires (forall x :: x in outer ==> outer[x] < low) && forall x :: x in slots ==> low <= slots[x]
    requires from < |start| && (from == b || n <= from) && n == body < |start| && body != from
    requires fail == |start| && begun == start + [Node([], Open)]
    requires Extends(begun, from, tested) && e < |tested| && (e == from || |begun| <= e)
    requires now == tested[e := Node(tested[e].items,
        if arms[i].headers[k].guard.Some? then IfGuard(arms[i].headers[k].guard.value, named, body,
        fail) else Br(body))]
    requires LaidTest(arms[i].headers[k].pat, [], slots, from, |start[from].items|, |begun|, tested, e, fail)
    requires HeadersSoFar(arms, i, k, b, at, n, start, from, body, hasOther, outer, named)
    ensures now[fail] == Node([], Open) && HeadersSoFar(arms, i, k + 1, b, at, n, now, fail, body, hasOther, outer, named)
  {
    hide TestOk, ChainOk, Keeps, Extends, Names;
    HeaderBlocks(from, start, begun, tested, e, now, fail);
    forall final: Code | Keeps(b, n, now, {fail, body}, final) && body < |final| && final[body] == Node([], Enter(i, named))
      && ChainOk(final, arms, i, k + 1, fail, 0, hasOther, outer)
      ensures ChainOk(final, arms, i, 0, b, at, hasOther, outer)
    {
      HeaderKeeps(b, n, start, from, begun, tested, e, now, fail, body, final);
      HeaderStep(final, arms, i, k, from, |start[from].items|, e, fail, body, hasOther, outer, named, slots, low);
    }
  }

  lemma HeaderBlocks(from: nat, start: Code, begun: Code, tested: Code, e: nat, now: Code, fail: nat)
    requires from < |start| && fail == |start| && begun == start + [Node([], Open)]
    requires Extends(begun, from, tested) && e < |tested| && (e == from || |begun| <= e)
    requires |now| == |tested| && forall j: nat :: j < |now| && j != e ==> now[j] == tested[j]
    ensures fail < |now| && now[fail] == Node([], Open)
  {
    assert now[fail] == tested[fail] == begun[fail];
  }

  // What may still change once a header is laid, seen from before it.
  lemma HeaderKeeps(b: nat, n: nat, start: Code, from: nat, begun: Code, tested: Code, e: nat, now: Code, fail: nat, body: nat, final: Code)
    requires from < |start| && (from == b || n <= from) && n == body < |start| && body != from
    requires fail == |start| && begun == start + [Node([], Open)]
    requires Extends(begun, from, tested) && e < |tested| && (e == from || |begun| <= e)
    requires |now| == |tested| && now[e].items == tested[e].items && now[e].term != Open
    requires forall j: nat :: j < |now| && j != e ==> now[j] == tested[j]
    requires Keeps(b, n, now, {fail, body}, final)
    ensures Keeps(from, |begun|, tested, {e}, final) && Keeps(b, n, start, {from, body}, final)
    ensures e < |final| && final[e] == now[e]
  {
    assert e != fail && e != body;
    assert final[e] == now[e];
  }

  // One header: its test, its guard over the bindings it stored, and the next.
  lemma HeaderStep(code: Code, arms: seq<Arm>, i: nat, k: nat, b: nat, at: nat, e: nat, fail: nat, body: nat,
      hasOther: bool, outer: map<nat, nat>, named: map<nat, nat>, slots: map<nat, nat>, low: nat)
    requires i < |arms| && k < |arms[i].headers| && body < |code| && e < |code|
    requires Names(arms[i].headers[k].pat) == slots.Keys && named == outer + slots
    requires (forall x :: x in outer ==> outer[x] < low) && forall x :: x in slots ==> low <= slots[x]
    requires TestOk(code, arms[i].headers[k].pat, [], slots, b, at, e, |code[e].items|, fail)
    requires code[e].term == if arms[i].headers[k].guard.Some? then IfGuard(arms[i].headers[k].guard.value, named,
        body, fail) else Br(body)
    requires code[body] == Node([], Enter(i, named))
    requires ChainOk(code, arms, i, k + 1, fail, 0, hasOther, outer)
    ensures ChainOk(code, arms, i, k, b, at, hasOther, outer)
  {
    hide Gets, Match, Env, Picks;
    var h := arms[i].headers[k];
    forall x: Input, s: Slots
      ensures Picks(code, x, Config(b, at, s), Select(arms, i, k, x, Env(outer, s)), hasOther)
    {
      var c := Config(b, at, s);
      var m := Match(h.pat, x.subject);
      assert Reach(x.subject, []) == x.subject;
      assert Lands(code, x, c, m, slots, e, |code[e].items|, fail);
      MatchBindsNames(h.pat, x.subject);
      if m.None? {
        var t :| Gets(code, x, c, Config(fail, 0, t)) && OnlyTouches(s, t, slots);
        OuterStays(s, t, outer, slots, low);
        assert Picks(code, x, Config(fail, 0, t), Select(arms, i, k + 1, x, Env(outer, t)), hasOther);
        PicksAfter(code, x, c, Config(fail, 0, t), Select(arms, i, k + 1, x, Env(outer, t)), hasOther);
      } else {
        var t :| Gets(code, x, c, Config(e, |code[e].items|, t)) && StoredBy(s, t, slots, m.value);
        StoredTouches(s, t, slots, m.value);
        OuterStays(s, t, outer, slots, low);
        BindingsShow(s, t, outer, slots, m.value);
        var d := Config(e, |code[e].items|, t);
        GetsOne(code, x, d);
        GetsJoin(code, x, c, d, Next(code, x, d).value);
        if Accepts(h, x, Env(outer, s)) {
          EntersBody(code, x, c, Config(body, 0, t), i, named, hasOther);
        } else {
          assert Picks(code, x, Config(fail, 0, t), Select(arms, i, k + 1, x, Env(outer, t)), hasOther);
          PicksAfter(code, x, c, Config(fail, 0, t), Select(arms, i, k + 1, x, Env(outer, t)), hasOther);
        }
      }
    }
  }

  lemma EntersBody(code: Code, x: Input, c: Config, d: Config, i: nat, named: map<nat, nat>, hasOther: bool)
    requires Gets(code, x, c, d) && d.b < |code| && d.at == 0 && code[d.b] == Node([], Enter(i, named))
    ensures Picks(code, x, c, Chosen(i, Env(named, d.s)), hasOther)
  {
  }

  lemma PicksAfter(code: Code, x: Input, c: Config, d: Config, choice: Choice, hasOther: bool)
    requires Gets(code, x, c, d) && Picks(code, x, d, choice, hasOther)
    ensures Picks(code, x, c, choice, hasOther)
  {
    hide Gets;
    var e :| Gets(code, x, d, e) && e.b < |code| && e.at == 0 && code[e.b].items == [] &&
      match choice
      case Chosen(arm, vars) => code[e.b].term.Enter? && code[e.b].term.arm == arm && Env(code[e.b].term.named, e.s) == vars
      case Nothing => code[e.b].term == if hasOther then Otherwise else Done;
    GetsJoin(code, x, c, d, e);
  }

  // Stores into an arm's slots, matched or not, do not touch variables outside.
  lemma OuterStays(s: Slots, t: Slots, outer: map<nat, nat>, slots: map<nat, nat>, low: nat)
    requires OnlyTouches(s, t, slots)
    requires (forall x :: x in outer ==> outer[x] < low) && forall x :: x in slots ==> low <= slots[x]
    ensures Env(outer, t) == Env(outer, s)
  {
    forall x | x in outer
      ensures Held(t, outer[x]) == Held(s, outer[x])
    {
      assert outer[x] !in slots.Values;
    }
  }

  // After a match every name of the arm shows this header's binding.
  lemma BindingsShow(s: Slots, t: Slots, outer: map<nat, nat>, slots: map<nat, nat>, bs: map<nat, Val>)
    requires StoredBy(s, t, slots, bs) && bs.Keys == slots.Keys
    requires Env(outer, t) == Env(outer, s)
    ensures Env(outer + slots, t) == Env(outer, s) + bs
  {
    forall x | x in outer + slots
      ensures x in Env(outer, s) + bs && (Env(outer, s) + bs)[x] == Held(t, (outer + slots)[x])
    {
      if x !in slots {
        assert Env(outer, t)[x] == Env(outer, s)[x];
      }
    }
  }

  lemma ArmEnds(arms: seq<Arm>, i: nat, b: nat, at: nat, n: nat, open: Code, now: Code, e: nat, body: nat,
      hasOther: bool, outer: map<nat, nat>, named: map<nat, nat>)
    requires i < |arms| && e < |open| && n == body < |open| && e != body && body != b && open[body] == Node([], Open)
    requires now == open[body := Node([], Enter(i, named))]
    requires HeadersSoFar(arms, i, |arms[i].headers|, b, at, n, open, e, body, hasOther, outer, named)
    ensures LaidArm(arms, i, b, at, n, now, e, hasOther, outer)
  {
    hide ChainOk;
    forall final: Code | Keeps(b, n, now, {e}, final) && ChainOk(final, arms, i + 1, 0, e, |now[e].items|, hasOther, outer)
      ensures ChainOk(final, arms, i, 0, b, at, hasOther, outer)
    {
      assert final[body] == now[body];
      assert Keeps(b, n, open, {e, body}, final);
      NoHeadersLeft(final, arms, i, e, |now[e].items|, hasOther, outer);
    }
  }

  lemma NoHeadersLeft(code: Code, arms: seq<Arm>, i: nat, b: nat, at: nat, hasOther: bool, outer: map<nat, nat>)
    requires i < |arms| && ChainOk(code, arms, i + 1, 0, b, at, hasOther, outer)
    ensures ChainOk(code, arms, i, |arms[i].headers|, b, at, hasOther, outer)
  {
    hide Picks, Env;
    forall x: Input, s: Slots
      ensures Picks(code, x, Config(b, at, s), Select(arms, i, |arms[i].headers|, x, Env(outer, s)), hasOther)
    {
      assert Picks(code, x, Config(b, at, s), Select(arms, i + 1, 0, x, Env(outer, s)), hasOther);
    }
  }

  // ---- The whole chain ----

  ghost predicate ArmsSoFar(arms: seq<Arm>, i: nat, b: nat, at: nat, n: nat, now: Code, e: nat, ends: set<nat>,
      hasOther: bool, outer: map<nat, nat>)
    requires e < |now|
  {
    forall final: Code ::
      Keeps(b, n, now, {e} + ends, final) && ChainOk(final, arms, i, 0, e, |now[e].items|, hasOther, outer)
      ==> ChainOk(final, arms, 0, 0, b, at, hasOther, outer)
  }

  lemma ArmsBegin(arms: seq<Arm>, b: nat, at: nat, n: nat, now: Code, ends: set<nat>, hasOther: bool,
      outer: map<nat, nat>)
    requires b < |now| && at == |now[b].items|
    ensures ArmsSoFar(arms, 0, b, at, n, now, b, ends, hasOther, outer)
  {
  }

  lemma ArmFollows(arms: seq<Arm>, i: nat, b: nat, at: nat, n: nat, start: Code, from: nat, now: Code, e: nat,
      merge: nat, other: nat, hasOther: bool, outer: map<nat, nat>)
    requires i < |arms| && from < |start| && e < |now| && (from == b || n <= from) && (e == from || |start| <= e)
    requires n == merge <= other < |start| && from !in {merge, other}
    requires start[merge] == start[other] == Node([], Open) && Extends(start, from, now)
    requires ArmsSoFar(arms, i, b, at, n, start, from, {merge, other}, hasOther, outer)
    requires LaidArm(arms, i, from, |start[from].items|, |start|, now, e, hasOther, outer)
    ensures |start| <= |now| && now[merge] == now[other] == Node([], Open)
    ensures ArmsSoFar(arms, i + 1, b, at, n, now, e, {merge, other}, hasOther, outer)
  {
    hide ChainOk;
    forall final: Code | Keeps(b, n, now, {e} + {merge, other}, final) && ChainOk(final, arms, i + 1, 0, e, |now[e].items|, hasOther, outer)
      ensures ChainOk(final, arms, 0, 0, b, at, hasOther, outer)
    {
      assert Keeps(from, |start|, now, {e}, final);
      assert Keeps(b, n, start, {from} + {merge, other}, final);
    }
  }

  lemma ArmsEnd(arms: seq<Arm>, b: nat, at: nat, n: nat, open: Code, e: nat, now: Code, merge: nat, other: nat,
      hasOther: bool, outer: map<nat, nat>)
    requires e < |open| == |now| && n == merge <= other < |open| && e !in {merge, other} && (hasOther <==> merge != other)
    requires open[merge] == open[other] == Node([], Open)
    requires forall k: nat :: k < |open| && k !in {e, merge, other} ==> now[k] == open[k]
    requires now[e] == Node(open[e].items, Br(other)) && now[merge] == Node([], Done) && (hasOther ==> now[other] == Node([], Otherwise))
    requires ArmsSoFar(arms, |arms|, b, at, n, open, e, {merge, other}, hasOther, outer)
    ensures ChainOk(now, arms, 0, 0, b, at, hasOther, outer)
  {
    hide Env;
    assert Keeps(b, n, open, {e} + {merge, other}, now);
    forall x: Input, s: Slots
      ensures Picks(now, x, Config(e, |open[e].items|, s), Select(arms, |arms|, 0, x, Env(outer, s)), hasOther)
    {
      GetsOne(now, x, Config(e, |open[e].items|, s));
    }
  }

  // ---- Compares of constants alone ----

  // The arm that lists `v` first, in source order.
  function FirstArm(arms: seq<seq<int>>, i: nat, v: int): Option<nat>
    decreases |arms| - i
  {
    if i >= |arms| then None else if v in arms[i] then Some(i) else FirstArm(arms, i + 1, v)
  }

  // No constant twice: the IR verifier refuses a repeated case.
  ghost predicate DistinctConstants(arms: seq<seq<int>>) {
    forall i, j, k, l :: 0 <= i < |arms| && 0 <= j < |arms[i]| && 0 <= k < |arms| && 0 <= l < |arms[k]| && arms[i][j] == arms[k][l] ==>
      i == k && j == l
  }

  // A switch: whichever case has the value.
  ghost predicate SwitchTo(cases: seq<(int, nat)>, v: int, arm: Option<nat>) {
    match arm
    case Some(i) => (v, i) in cases
    case None => forall c :: c in cases ==> c.0 != v
  }

  // The integer lowering: one case a constant, to its arm's block. With no
  // constant repeated the switch has one place to go, the chain's.
  method LowerSwitch(arms: seq<seq<int>>) returns (cases: seq<(int, nat)>)
    requires DistinctConstants(arms)
    ensures forall v: int, arm: Option<nat> :: SwitchTo(cases, v, arm) <==> arm == FirstArm(arms, 0, v)
    ensures forall i, j :: 0 <= i < j < |cases| ==> cases[i].0 != cases[j].0
  {
    cases := [];
    for i := 0 to |arms|
      invariant forall c :: c in cases <==> 0 <= c.1 < i && c.0 in arms[c.1]
      invariant forall k, l :: 0 <= k < l < |cases| ==> cases[k].0 != cases[l].0
    {
      ghost var before := cases;
      for j := 0 to |arms[i]|
        invariant forall c :: c in cases <==> c in before || (c.1 == i && c.0 in arms[i][..j])
        invariant forall k, l :: 0 <= k < l < |cases| ==> cases[k].0 != cases[l].0
      {
        forall k | 0 <= k < |cases|
          ensures cases[k].0 != arms[i][j]
        {
          assert cases[k] in cases;
        }
        cases := cases + [(arms[i][j], i)];
      }
      assert arms[i][..|arms[i]|] == arms[i];
    }
    forall v: int, arm: Option<nat>
      ensures SwitchTo(cases, v, arm) <==> arm == FirstArm(arms, 0, v)
    {
      FirstArmIsFirst(arms, 0, v);
      var first := FirstArm(arms, 0, v);
      if first.Some? {
        assert (v, first.value) in cases;
        forall i: nat | i < |arms| && v in arms[i]
          ensures i == first.value
        {
          ListedOnce(arms, i, first.value, v);
        }
      }
    }
  }

  lemma ListedOnce(arms: seq<seq<int>>, i: nat, k: nat, v: int)
    requires DistinctConstants(arms) && i < |arms| && k < |arms| && v in arms[i] && v in arms[k]
    ensures i == k
  {
    var j :| 0 <= j < |arms[i]| && arms[i][j] == v;
    var l :| 0 <= l < |arms[k]| && arms[k][l] == v;
  }

  lemma {:induction false} FirstArmIsFirst(arms: seq<seq<int>>, i: nat, v: int)
    ensures match FirstArm(arms, i, v)
            case Some(a) => i <= a < |arms| && v in arms[a] && forall k :: i <= k < a ==> v !in arms[k]
            case None => forall k :: i <= k < |arms| ==> v !in arms[k]
    decreases |arms| - i
  {
    if i < |arms| && v !in arms[i] {
      FirstArmIsFirst(arms, i + 1, v);
    }
  }

  function ConstantHeaders(values: seq<int>): seq<Header> {
    seq(|values|, k requires 0 <= k < |values| => Header(Lit(Int(values[k])), None))
  }

  function ConstantArms(arms: seq<seq<int>>): seq<Arm> {
    seq(|arms|, i requires 0 <= i < |arms| => Arm([], ConstantHeaders(arms[i])))
  }

  // The same arms as patterns: the switch's arm is the chain's.
  lemma {:induction false} SwitchAgreesWithChain(arms: seq<seq<int>>, i: nat, k: nat, x: Input, outer: map<nat, Val>)
    requires x.subject.Int? && (i < |arms| ==> k <= |arms[i]|)
    requires i < |arms| ==> x.subject.n !in arms[i][..k]
    ensures Select(ConstantArms(arms), i, k, x, outer) ==
            match FirstArm(arms, i, x.subject.n) case Some(a) => Chosen(a, outer) case None => Nothing
    decreases |arms| - i, if i < |arms| then |arms[i]| - k else 0
  {
    if i < |arms| {
      if k == |arms[i]| {
        assert arms[i][..k] == arms[i];
        SwitchAgreesWithChain(arms, i + 1, 0, x, outer);
      } else if arms[i][k] == x.subject.n {
        var none: map<nat, Val> := map[];
        assert outer + none == outer;
      } else {
        assert arms[i][..k + 1] == arms[i][..k] + [arms[i][k]];
        SwitchAgreesWithChain(arms, i, k + 1, x, outer);
      }
    }
  }
}
