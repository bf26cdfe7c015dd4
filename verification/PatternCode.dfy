// Patterns, what it means for one to match, and the straight test code they
// become.
module PatternCode {
  import opened Options

  datatype Val =
    | Int(n: int)
    | Text(text: string)
    | Struct(fields: seq<Val>)
    | Ref(to: Val)
    | Failure(tag: string, payload: seq<Val>)

  datatype FieldPat = FieldPat(index: nat, sub: Pat)

  // A struct pattern may match through a reference; an error-variant pattern
  // lists its payload by position.
  datatype Pat =
    | Wild
    | Bind(name: nat)
    | Lit(k: Val)
    | StructPat(byRef: bool, fields: seq<FieldPat>)
    | VariantPat(tag: string, fields: seq<FieldPat>)

  datatype Step = Field(i: nat) | Deref | Payload(i: nat)

  function Go(v: Val, step: Step): Val {
    match step
    case Field(i) => if v.Struct? && i < |v.fields| then v.fields[i] else v
    case Deref => if v.Ref? then v.to else v
    case Payload(i) => if v.Failure? && i < |v.payload| then v.payload[i] else v
  }

  function StepTo(payload: bool, index: nat): Step {
    if payload then Payload(index) else Field(index)
  }

  // The value an address reached from the subject holds.
  function Reach(v: Val, path: seq<Step>): Val {
    if path == [] then v else Go(Reach(v, path[..|path| - 1]), path[|path| - 1])
  }

  function HasTag(v: Val, tag: string): bool {
    v.Failure? && v.tag == tag
  }

  // ---- Matching, by definition ----

  function Match(p: Pat, v: Val): Option<map<nat, Val>>
    decreases p, 1
  {
    match p
    case Wild => Some(map[])
    case Bind(name) => Some(map[name := v])
    case Lit(k) => if v == k then Some(map[]) else None
    case StructPat(byRef, fields) => MatchAll(fields, if byRef then Go(v, Deref) else v, false)
    case VariantPat(tag, fields) => if HasTag(v, tag) then MatchAll(fields, v, true) else None
  }

  // Every field matches; the bindings are all of theirs.
  function MatchAll(fields: seq<FieldPat>, v: Val, payload: bool): Option<map<nat, Val>>
    decreases fields, 0
  {
    if fields == [] then Some(map[])
    else
      var before := MatchAll(fields[..|fields| - 1], v, payload);
      var here := MatchField(fields[|fields| - 1], v, payload);
      if before.None? || here.None? then None else Some(before.value + here.value)
  }

  function MatchField(f: FieldPat, v: Val, payload: bool): Option<map<nat, Val>>
    decreases f, 0
  {
    Match(f.sub, Go(v, StepTo(payload, f.index)))
  }

  function Names(p: Pat): set<nat>
    decreases p, 1
  {
    match p
    case Bind(name) => {name}
    case StructPat(_, fields) => NamesAll(fields)
    case VariantPat(_, fields) => NamesAll(fields)
    case _ => {}
  }

  function NamesAll(fields: seq<FieldPat>): set<nat>
    decreases fields, 0
  {
    if fields == [] then {}
    else
      NamesAll(fields[..|fields| - 1]) + NamesIn(fields[|fields| - 1])
  }

  function NamesIn(f: FieldPat): set<nat>
    decreases f, 0
  {
    Names(f.sub)
  }

  // A match binds every name of the pattern and nothing else.
  lemma {:induction false} MatchBindsNames(p: Pat, v: Val)
    ensures Match(p, v).Some? ==> Match(p, v).value.Keys == Names(p)
    decreases p, 1
  {
    match p
    case StructPat(byRef, fields) => MatchAllBindsNames(fields, if byRef then Go(v, Deref) else v, false);
    case VariantPat(_, fields) => MatchAllBindsNames(fields, v, true);
    case _ =>
  }

  lemma {:induction false} MatchAllBindsNames(fields: seq<FieldPat>, v: Val, payload: bool)
    ensures MatchAll(fields, v, payload).Some? ==> MatchAll(fields, v, payload).value.Keys == NamesAll(fields)
    decreases fields, 0
  {
    if fields != [] {
      MatchAllBindsNames(fields[..|fields| - 1], v, payload);
      MatchFieldBindsNames(fields[|fields| - 1], v, payload);
    }
  }

  lemma {:induction false} MatchFieldBindsNames(f: FieldPat, v: Val, payload: bool)
    ensures MatchField(f, v, payload).Some? ==> MatchField(f, v, payload).value.Keys == NamesIn(f)
    decreases f, 0
  {
    MatchBindsNames(f.sub, Go(v, StepTo(payload, f.index)));
  }

  // ---- Matching, by the shape of the value ----

  ghost function Together(parts: seq<map<nat, Val>>): map<nat, Val> {
    if parts == [] then map[] else Together(parts[..|parts| - 1]) + parts[|parts| - 1]
  }

  // `v` matches `p`, binding `bs`: a field pattern looks at the field it
  // names, or at that position of the payload.
  ghost predicate Binds(p: Pat, v: Val, bs: map<nat, Val>)
    decreases p, 1
  {
    match p
    case Wild => bs == map[]
    case Bind(name) => bs == map[name := v]
    case Lit(k) => v == k && bs == map[]
    case StructPat(byRef, fields) =>
      if byRef then v.Ref? && v.to.Struct? && BindsAll(fields, v.to.fields, bs)
      else v.Struct? && BindsAll(fields, v.fields, bs)
    case VariantPat(tag, fields) => v.Failure? && v.tag == tag && BindsAll(fields, v.payload, bs)
  }

  ghost predicate BindsAll(fields: seq<FieldPat>, vs: seq<Val>, bs: map<nat, Val>)
    decreases fields, 0
  {
    exists parts: seq<map<nat, Val>> ::
      && |parts| == |fields| && bs == Together(parts)
      && forall k: nat :: k < |fields| ==> BindsField(fields[k], vs, parts[k])
  }

  ghost predicate BindsField(f: FieldPat, vs: seq<Val>, bs: map<nat, Val>)
    decreases f, 0
  {
    f.index < |vs| && Binds(f.sub, vs[f.index], bs)
  }

  // The value has the shape its type promises wherever the pattern looks.
  predicate Shaped(p: Pat, v: Val)
    decreases p, 1
  {
    match p
    case StructPat(byRef, fields) =>
      if byRef then v.Ref? && v.to.Struct? && ShapedAll(fields, v.to.fields) else v.Struct? && ShapedAll(fields, v.fields)
    case VariantPat(tag, fields) => v.Failure? && (v.tag == tag ==> ShapedAll(fields, v.payload))
    case _ => true
  }

  predicate ShapedAll(fields: seq<FieldPat>, vs: seq<Val>)
    decreases fields, 0
  {
    IndicesIn(fields, vs) && forall k: nat :: k < |fields| ==> ShapedField(fields[k], vs)
  }

  predicate ShapedField(f: FieldPat, vs: seq<Val>)
    decreases f, 0
  {
    f.index < |vs| && Shaped(f.sub, vs[f.index])
  }

  predicate IndicesIn(fields: seq<FieldPat>, vs: seq<Val>) {
    forall k: nat :: k < |fields| ==> fields[k].index < |vs|
  }

  ghost function Bound(f: FieldPat, vs: seq<Val>): map<nat, Val>
    requires f.index < |vs|
  {
    var m := Match(f.sub, vs[f.index]);
    if m.Some? then m.value else map[]
  }

  // Every field pattern matches its own value, and the bindings are theirs in
  // order.
  ghost predicate Fieldwise(m: Option<map<nat, Val>>, fields: seq<FieldPat>, vs: seq<Val>)
    requires IndicesIn(fields, vs)
  {
    && (m.Some? <==> forall k: nat :: k < |fields| ==> Match(fields[k].sub, vs[fields[k].index]).Some?)
    && (m.Some? ==> m.value == Together(seq(|fields|, k requires 0 <= k < |fields| => Bound(fields[k], vs))))
  }

  lemma {:induction false} MatchAllIsFieldwise(fields: seq<FieldPat>, v: Val, payload: bool, vs: seq<Val>)
    requires if payload then v.Failure? && vs == v.payload else v == Struct(vs)
    requires IndicesIn(fields, vs)
    ensures Fieldwise(MatchAll(fields, v, payload), fields, vs)
    decreases |fields|
  {
    hide Match;
    if fields != [] {
      var n := |fields| - 1;
      var front := fields[..n];
      MatchAllIsFieldwise(front, v, payload, vs);
      var parts: seq<map<nat, Val>> := seq(|fields|, k requires 0 <= k < |fields| => Bound(fields[k], vs));
      assert parts[..n] == seq(n, k requires 0 <= k < n => Bound(front[k], vs));
      assert MatchField(fields[n], v, payload) == Match(fields[n].sub, vs[fields[n].index]);
      assert forall k: nat :: k < n ==> front[k] == fields[k];
    }
  }

  // A struct pattern on a struct, directly or through a reference.
  lemma StructMatches(fields: seq<FieldPat>, vs: seq<Val>)
    requires IndicesIn(fields, vs)
    ensures Fieldwise(Match(StructPat(false, fields), Struct(vs)), fields, vs)
    ensures Fieldwise(Match(StructPat(true, fields), Ref(Struct(vs))), fields, vs)
  {
    MatchAllIsFieldwise(fields, Struct(vs), false, vs);
  }

  // A variant pattern on an error: the tag first, then the payload.
  lemma VariantMatches(tag: string, fields: seq<FieldPat>, other: string, vs: seq<Val>)
    ensures Match(VariantPat(tag, fields), Failure(other, vs)).Some? ==> tag == other
    ensures tag == other && IndicesIn(fields, vs) ==> Fieldwise(Match(VariantPat(tag, fields), Failure(other, vs)), fields, vs)
  {
    if tag == other && IndicesIn(fields, vs) {
      MatchAllIsFieldwise(fields, Failure(other, vs), true, vs);
    }
  }

  // On values of the right shape, matching is binding by shape.
  lemma {:induction false} MatchIsBinds(p: Pat, v: Val, bs: map<nat, Val>)
    requires Shaped(p, v)
    ensures Match(p, v) == Some(bs) <==> Binds(p, v, bs)
    decreases p, 1
  {
    hide MatchAll, BindsAll;
    match p
    case StructPat(byRef, fields) =>
      var vs := if byRef then v.to.fields else v.fields;
      StructMatches(fields, vs);
      FieldwiseIsBinds(fields, vs, Match(p, v), bs);
    case VariantPat(tag, fields) =>
      if v.tag == tag {
        VariantMatches(tag, fields, v.tag, v.payload);
        FieldwiseIsBinds(fields, v.payload, Match(p, v), bs);
      }
    case _ =>
  }

  lemma {:induction false} FieldwiseIsBinds(fields: seq<FieldPat>, vs: seq<Val>, m: Option<map<nat, Val>>,
      bs: map<nat, Val>)
    requires ShapedAll(fields, vs) && Fieldwise(m, fields, vs)
    ensures m == Some(bs) <==> BindsAll(fields, vs, bs)
    decreases fields, 0
  {
    hide Match, BindsField;
    forall k: nat, part | k < |fields|
      ensures Match(fields[k].sub, vs[fields[k].index]) == Some(part) <==> BindsField(fields[k], vs, part)
    {
      assert ShapedField(fields[k], vs);
      FieldIsBinds(fields[k], vs, part);
    }
    var own: seq<map<nat, Val>> := seq(|fields|, k requires 0 <= k < |fields| => Bound(fields[k], vs));
    if m == Some(bs) {
      assert forall k: nat :: k < |fields| ==> BindsField(fields[k], vs, own[k]);
    }
    if BindsAll(fields, vs, bs) {
      var parts :| |parts| == |fields| && bs == Together(parts) && forall k: nat :: k < |fields| ==> BindsField(fields[k], vs, parts[k]);
      assert forall k: nat :: k < |fields| ==> Match(fields[k].sub, vs[fields[k].index]) == Some(parts[k]);
      assert parts == own;
    }
  }

  lemma {:induction false} FieldIsBinds(f: FieldPat, vs: seq<Val>, part: map<nat, Val>)
    requires ShapedField(f, vs)
    ensures Match(f.sub, vs[f.index]) == Some(part) <==> BindsField(f, vs, part)
    decreases f, 0
  {
    MatchIsBinds(f.sub, vs[f.index], part);
  }

  // ---- The emitted code ----

  datatype Instr = Store(slot: nat, path: seq<Step>)

  // How a block ends. `Enter` stands for an arm's body, with the variables in
  // scope there; `Otherwise` and `Done` for the rest of the compare.
  datatype Term =
    | Open
    | Br(to: nat)
    | IfEq(path: seq<Step>, k: Val, yes: nat, no: nat)
    | IfTag(path: seq<Step>, tag: string, yes: nat, no: nat)
    | IfGuard(g: nat, named: map<nat, nat>, yes: nat, no: nat)
    | Enter(arm: nat, named: map<nat, nat>)
    | Otherwise
    | Done

  datatype Node = Node(items: seq<Instr>, term: Term)

  type Code = seq<Node>

  type Slots = map<nat, Val>

  function Held(s: Slots, slot: nat): Val {
    if slot in s then s[slot] else Int(0)
  }

  // The variables a guard or body sees.
  function Env(named: map<nat, nat>, s: Slots): map<nat, Val> {
    map x | x in named :: Held(s, named[x])
  }

  datatype Input = Input(subject: Val, guards: (nat, map<nat, Val>) -> bool)

  datatype Config = Config(b: nat, at: nat, s: Slots)

  function Next(code: Code, x: Input, c: Config): Option<Config> {
    if c.b >= |code| then None
    else
      var n := code[c.b];
      if c.at < |n.items| then
        var i := n.items[c.at];
        Some(Config(c.b, c.at + 1, c.s[i.slot := Reach(x.subject, i.path)]))
      else
        match n.term
        case Br(to) => Some(Config(to, 0, c.s))
        case IfEq(path, k, yes, no) => Some(Config(if Reach(x.subject, path) == k then yes else no, 0, c.s))
        case IfTag(path, tag, yes, no) => Some(Config(if HasTag(Reach(x.subject, path), tag) then yes else no, 0, c.s))
        case IfGuard(g, named, yes, no) => Some(Config(if x.guards(g, Env(named, c.s)) then yes else no, 0, c.s))
        case _ => None
  }

  function Steps(code: Code, x: Input, c: Config, n: nat): Option<Config>
    decreases n
  {
    if n == 0 then Some(c)
    else if Next(code, x, c).None? then None
    else Steps(code, x, Next(code, x, c).value, n - 1)
  }

  ghost predicate Gets(code: Code, x: Input, c: Config, d: Config) {
    exists n: nat :: Steps(code, x, c, n) == Some(d)
  }

  lemma {:induction false} StepsJoin(code: Code, x: Input, c: Config, n: nat, m: nat)
    requires Steps(code, x, c, n).Some?
    ensures Steps(code, x, c, n + m) == Steps(code, x, Steps(code, x, c, n).value, m)
    decreases n
  {
    if n > 0 {
      StepsJoin(code, x, Next(code, x, c).value, n - 1, m);
    }
  }

  lemma GetsJoin(code: Code, x: Input, c: Config, d: Config, e: Config)
    requires Gets(code, x, c, d) && Gets(code, x, d, e)
    ensures Gets(code, x, c, e)
  {
    var n: nat :| Steps(code, x, c, n) == Some(d);
    var m: nat :| Steps(code, x, d, m) == Some(e);
    StepsJoin(code, x, c, n, m);
    assert Steps(code, x, c, n + m) == Some(e);
  }

  lemma GetsNothing(code: Code, x: Input, c: Config)
    ensures Gets(code, x, c, c)
  {
    assert Steps(code, x, c, 0) == Some(c);
  }

  lemma GetsOne(code: Code, x: Input, c: Config)
    requires Next(code, x, c).Some?
    ensures Gets(code, x, c, Next(code, x, c).value)
  {
    assert Steps(code, x, Next(code, x, c).value, 0) == Next(code, x, c);
    assert Steps(code, x, c, 1) == Next(code, x, c);
  }

  // ---- Code that tests a pattern ----

  predicate Injective(slots: map<nat, nat>) {
    forall a, b :: a in slots && b in slots && slots[a] == slots[b] ==> a == b
  }

  // `t` is `s` with the bindings in their slots.
  ghost predicate StoredBy(s: Slots, t: Slots, slots: map<nat, nat>, bs: map<nat, Val>) {
    && bs.Keys <= slots.Keys
    && (forall x :: x in bs ==> Held(t, slots[x]) == bs[x])
    && (forall k: nat :: (forall x :: x in bs ==> slots[x] != k) ==> Held(t, k) == Held(s, k))
  }

  ghost predicate OnlyTouches(s: Slots, t: Slots, slots: map<nat, nat>) {
    forall k: nat :: k !in slots.Values ==> Held(t, k) == Held(s, k)
  }

  lemma StoredTwice(s: Slots, t: Slots, u: Slots, slots: map<nat, nat>, a: map<nat, Val>, b: map<nat, Val>)
    requires Injective(slots) && StoredBy(s, t, slots, a) && StoredBy(t, u, slots, b)
    ensures StoredBy(s, u, slots, a + b)
  {
    forall x | x in a + b
      ensures Held(u, slots[x]) == (a + b)[x]
    {
      if x !in b {
        assert forall y :: y in b ==> slots[y] != slots[x];
      }
    }
    forall k: nat | forall x :: x in a + b ==> slots[x] != k
      ensures Held(u, k) == Held(s, k)
    {
      assert forall x :: x in a ==> x in a + b;
      assert forall x :: x in b ==> x in a + b;
    }
  }

  lemma StoredTouches(s: Slots, t: Slots, slots: map<nat, nat>, bs: map<nat, Val>)
    requires StoredBy(s, t, slots, bs)
    ensures OnlyTouches(s, t, slots)
  {
    forall k: nat | k !in slots.Values
      ensures Held(t, k) == Held(s, k)
    {
      assert forall x :: x in bs ==> slots[x] in slots.Values;
    }
  }

  // What a test must do with the outcome `m` of matching: on a match, go on at
  // (e, to) with the bindings stored; otherwise leave for `fail`.
  ghost predicate Lands(code: Code, x: Input, c: Config, m: Option<map<nat, Val>>, slots: map<nat, nat>, e: nat,
      to: nat, fail: nat) {
    match m
    case None => exists t :: Gets(code, x, c, Config(fail, 0, t)) && OnlyTouches(c.s, t, slots)
    case Some(bs) => exists t :: Gets(code, x, c, Config(e, to, t)) && StoredBy(c.s, t, slots, bs)
  }

  ghost predicate TestOk(code: Code, p: Pat, path: seq<Step>, slots: map<nat, nat>, b: nat, at: nat, e: nat,
      to: nat, fail: nat) {
    forall x: Input, s: Slots :: Lands(code, x, Config(b, at, s), Match(p, Reach(x.subject, path)), slots, e, to, fail)
  }

  ghost predicate FieldsOk(code: Code, fields: seq<FieldPat>, payload: bool, path: seq<Step>, slots: map<nat, nat>,
      b: nat, at: nat, e: nat, to: nat, fail: nat) {
    forall x: Input, s: Slots :: Lands(code, x, Config(b, at, s), MatchAll(fields, Reach(x.subject, path),
        payload), slots, e, to, fail)
  }

  lemma LandsHere(code: Code, x: Input, c: Config, slots: map<nat, nat>, fail: nat)
    ensures Lands(code, x, c, Some(map[]), slots, c.b, c.at, fail)
  {
    GetsNothing(code, x, c);
    assert StoredBy(c.s, c.s, slots, map[]);
  }

  // One test after another: the second runs only where the first matched.
  lemma LandsThen(code: Code, x: Input, c: Config, m: Option<map<nat, Val>>, slots: map<nat, nat>, e: nat, to: nat,
      m2: Option<map<nat, Val>>, e2: nat, to2: nat, fail: nat)
    requires Injective(slots) && Lands(code, x, c, m, slots, e, to, fail)
    requires forall s: Slots :: Lands(code, x, Config(e, to, s), m2, slots, e2, to2, fail)
    ensures Lands(code, x, c, if m.None? || m2.None? then None else Some(m.value + m2.value), slots, e2, to2, fail)
  {
    hide Gets;
    if m.Some? {
      var t :| Gets(code, x, c, Config(e, to, t)) && StoredBy(c.s, t, slots, m.value);
      assert Lands(code, x, Config(e, to, t), m2, slots, e2, to2, fail);
      if m2.None? {
        var u :| Gets(code, x, Config(e, to, t), Config(fail, 0, u)) && OnlyTouches(t, u, slots);
        GetsJoin(code, x, c, Config(e, to, t), Config(fail, 0, u));
        StoredTouches(c.s, t, slots, m.value);
        assert OnlyTouches(c.s, u, slots);
      } else {
        var u :| Gets(code, x, Config(e, to, t), Config(e2, to2, u)) && StoredBy(t, u, slots, m2.value);
        GetsJoin(code, x, c, Config(e, to, t), Config(e2, to2, u));
        StoredTwice(c.s, t, u, slots, m.value, m2.value);
      }
    }
  }

  // ---- One test at a time ----

  lemma WildOk(code: Code, p: Pat, path: seq<Step>, slots: map<nat, nat>, b: nat, at: nat, fail: nat)
    requires p.Wild?
    ensures TestOk(code, p, path, slots, b, at, b, at, fail)
  {
    forall x: Input, s: Slots
      ensures Lands(code, x, Config(b, at, s), Match(p, Reach(x.subject, path)), slots, b, at, fail)
    {
      LandsHere(code, x, Config(b, at, s), slots, fail);
    }
  }

  lemma BindOk(code: Code, p: Pat, path: seq<Step>, slots: map<nat, nat>, b: nat, at: nat, fail: nat)
    requires p.Bind? && p.name in slots
    requires b < |code| && at < |code[b].items| && code[b].items[at] == Store(slots[p.name], path)
    ensures TestOk(code, p, path, slots, b, at, b, at + 1, fail)
  {
    forall x: Input, s: Slots
      ensures Lands(code, x, Config(b, at, s), Match(p, Reach(x.subject, path)), slots, b, at + 1, fail)
    {
      var v := Reach(x.subject, path);
      var t := s[slots[p.name] := v];
      GetsOne(code, x, Config(b, at, s));
      var bs := map[p.name := v];
      assert p.name in bs;
      assert StoredBy(s, t, slots, bs);
    }
  }

  lemma LitOk(code: Code, p: Pat, path: seq<Step>, slots: map<nat, nat>, b: nat, at: nat, next: nat, fail: nat)
    requires p.Lit?
    requires b < |code| && at == |code[b].items| && code[b].term == IfEq(path, p.k, next, fail)
    ensures TestOk(code, p, path, slots, b, at, next, 0, fail)
  {
    forall x: Input, s: Slots
      ensures Lands(code, x, Config(b, at, s), Match(p, Reach(x.subject, path)), slots, next, 0, fail)
    {
      GetsOne(code, x, Config(b, at, s));
      assert StoredBy(s, s, slots, map[]) && OnlyTouches(s, s, slots);
    }
  }

  lemma FieldsStart(code: Code, path: seq<Step>, payload: bool, slots: map<nat, nat>, b: nat, at: nat, fail: nat)
    ensures FieldsOk(code, [], payload, path, slots, b, at, b, at, fail)
  {
    forall x: Input, s: Slots
      ensures Lands(code, x, Config(b, at, s), MatchAll([], Reach(x.subject, path), payload), slots, b, at, fail)
    {
      LandsHere(code, x, Config(b, at, s), slots, fail);
    }
  }

  lemma FieldsStep(code: Code, fields: seq<FieldPat>, i: nat, payload: bool, path: seq<Step>, slots: map<nat, nat>,
      b: nat, at: nat, e: nat, to: nat, e2: nat, to2: nat, fail: nat)
    requires i < |fields| && Injective(slots)
    requires FieldsOk(code, fields[..i], payload, path, slots, b, at, e, to, fail)
    requires TestOk(code, fields[i].sub, path + [StepTo(payload, fields[i].index)], slots, e, to, e2, to2, fail)
    ensures FieldsOk(code, fields[..i + 1], payload, path, slots, b, at, e2, to2, fail)
  {
    hide Lands, Match;
    var f := fields[i];
    var deeper := path + [StepTo(payload, f.index)];
    assert deeper[..|deeper| - 1] == path;
    assert fields[..i + 1][..i] == fields[..i];
    forall x: Input, s: Slots
      ensures Lands(code, x, Config(b, at, s), MatchAll(fields[..i + 1], Reach(x.subject, path), payload), slots,
          e2, to2, fail)
    {
      var v := Reach(x.subject, path);
      LandsThen(code, x, Config(b, at, s), MatchAll(fields[..i], v, payload), slots, e, to, Match(f.sub, Go(v,
          StepTo(payload, f.index))), e2, to2, fail);
    }
  }

  lemma StructOk(code: Code, p: Pat, path: seq<Step>, slots: map<nat, nat>, b: nat, at: nat, e: nat, to: nat, fail: nat)
    requires p.StructPat?
    requires FieldsOk(code, p.fields, false, if p.byRef then path + [Deref] else path, slots, b, at, e, to, fail)
    ensures TestOk(code, p, path, slots, b, at, e, to, fail)
  {
    hide Lands, MatchAll;
    var deeper := path + [Deref];
    assert deeper[..|deeper| - 1] == path;
  }

  lemma VariantOk(code: Code, p: Pat, path: seq<Step>, slots: map<nat, nat>, b: nat, at: nat, ok: nat, e: nat,
      to: nat, fail: nat)
    requires p.VariantPat? && Injective(slots)
    requires b < |code| && at == |code[b].items| && code[b].term == IfTag(path, p.tag, ok, fail)
    requires FieldsOk(code, p.fields, true, path, slots, ok, 0, e, to, fail)
    ensures TestOk(code, p, path, slots, b, at, e, to, fail)
  {
    hide Gets, MatchAll;
    forall x: Input, s: Slots
      ensures Lands(code, x, Config(b, at, s), Match(p, Reach(x.subject, path)), slots, e, to, fail)
    {
      var v := Reach(x.subject, path);
      var c, d := Config(b, at, s), Config(ok, 0, s);
      GetsOne(code, x, c);
      if HasTag(v, p.tag) {
        var m := MatchAll(p.fields, v, true);
        assert Lands(code, x, d, m, slots, e, to, fail);
        LandsAfter(code, x, c, d, m, slots, e, to, fail);
      } else {
        assert OnlyTouches(s, s, slots);
      }
    }
  }

  lemma LandsAfter(code: Code, x: Input, c: Config, d: Config, m: Option<map<nat, Val>>, slots: map<nat, nat>,
      e: nat, to: nat, fail: nat)
    requires Gets(code, x, c, d) && c.s == d.s && Lands(code, x, d, m, slots, e, to, fail)
    ensures Lands(code, x, c, m, slots, e, to, fail)
  {
    hide Gets;
    if m.None? {
      var t :| Gets(code, x, d, Config(fail, 0, t)) && OnlyTouches(d.s, t, slots);
      GetsJoin(code, x, c, d, Config(fail, 0, t));
    } else {
      var t :| Gets(code, x, d, Config(e, to, t)) && StoredBy(d.s, t, slots, m.value);
      GetsJoin(code, x, c, d, Config(e, to, t));
    }
  }

  // A pattern of fields that are all wildcards matches and binds nothing.
  lemma {:induction false} WildFieldsMatch(fields: seq<FieldPat>, v: Val, payload: bool)
    requires forall i: nat :: i < |fields| ==> fields[i].sub.Wild?
    ensures MatchAll(fields, v, payload) == Some(map[])
  {
    if fields != [] {
      WildFieldsMatch(fields[..|fields| - 1], v, payload);
      assert MatchField(fields[|fields| - 1], v, payload) == Some(map[]);
      var none: map<nat, Val> := map[];
      assert none + none == none;
    }
  }
}
