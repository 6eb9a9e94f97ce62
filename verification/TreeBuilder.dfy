/** The bounded tree builders `ConfigSax`, `HeaderSax` and `ObjectSax`: one push-down automaton
    over parser events with three sets of limits, equal to a recursive evaluation of the
    document, which in turn succeeds exactly under a declarative condition. */
module TreeBuilder {
  import opened Errors
  import opened JsonTrees

  /** `depthKind` is what a depth overflow reports: the issuer builder has no message of its
      own for it and falls back to its default kind. */
  datatype Limits = Limits(maxDepth: nat, maxMembers: nat, maxValues: nat, maxKeyBytes: nat, depthKind: Kind)

  const CONFIG_LIMITS := Limits(32, 4096, 8192, 256, ResourceLimit)
  const HEADER_LIMITS := Limits(8, 32, 64, 256, ResourceLimit)
  const ISSUER_LIMITS := Limits(32, 4096, 4096, 256, MalformedInput)

  datatype Context = Context(isObject: bool, root: bool, names: set<string>, pending: string, hasPending: bool,
                             value: Json)

  datatype State = State(stack: seq<Context>, members: nat, values: nat, root: Json, complete: bool)

  const INITIAL := State([], 0, 0, Value(Null), false)

  function NewContext(isObject: bool, root: bool): Context {
    Context(isObject, root, {}, "", false, if isObject then Object(map[]) else Array([]))
  }

  ghost predicate ValidContext(c: Context) {
    && c.isObject == c.value.Object? && !c.isObject == c.value.Array?
    && (c.hasPending ==> c.isObject && c.pending !in c.value.fields)
    && (!c.hasPending ==> c.pending == "")
    && (c.isObject ==> c.value.fields.Keys <= c.names && (c.hasPending ==> c.pending in c.names))
  }

  ghost predicate Valid(s: State) {
    && (forall i :: 0 <= i < |s.stack| ==> ValidContext(s.stack[i]) && (s.stack[i].root <==> i == 0))
    && (s.stack != [] ==> s.stack[0].isObject)
  }

  // ---- the automaton

  function Top(s: State): Context
    requires s.stack != []
  {
    s.stack[|s.stack| - 1]
  }

  function WithTop(s: State, c: Context): State
    requires s.stack != []
  {
    s.(stack := s.stack[..|s.stack| - 1] + [c])
  }

  function Append(j: Json, v: Json): Json {
    match j case Array(elements) => Array(elements + [v]) case _ => j
  }

  function Put(j: Json, name: string, v: Json): Json {
    match j case Object(fields) => Object(fields[name := v]) case _ => j
  }

  function Attach(s: State, v: Json): Result<State>
    requires s.stack != []
  {
    var c := Top(s);
    if !c.isObject then Success(WithTop(s, c.(value := Append(c.value, v))))
    else if !c.hasPending then Failure(MalformedInput)
    else Success(WithTop(s, c.(value := Put(c.value, c.pending, v), pending := "", hasPending := false)))
  }

  predicate ParentReady(s: State)
    requires s.stack != []
  {
    !Top(s).isObject || Top(s).hasPending
  }

  function Counted(s: State): State {
    s.(values := s.values + 1)
  }

  function Pop(s: State): State
    requires s.stack != []
  {
    s.(stack := s.stack[..|s.stack| - 1])
  }

  /** One callback: the next state, or the kind stored when it returns false. */
  function Step(s: State, e: Event, l: Limits): Result<State> {
    match e
    case OnScalar(v) =>
      if s.values + 1 > l.maxValues then Failure(ResourceLimit)
      else if s.stack == [] then Failure(MalformedInput)
      else Attach(Counted(s), Value(v))
    case OnStartObject =>
      if s.values + 1 > l.maxValues then Failure(ResourceLimit)
      else if s.stack == [] then Success(Counted(s).(stack := [NewContext(true, true)]))
      else Open(Counted(s), NewContext(true, false), l)
    case OnKey(name) =>
      if s.stack == [] || !Top(s).isObject then Failure(MalformedInput)
      else if s.members + 1 > l.maxMembers || |name| > l.maxKeyBytes then Failure(ResourceLimit)
      else if name in Top(s).names then Failure(MalformedInput)
      else
        Success(Keyed(s, name))
    case OnEndObject =>
      if s.stack == [] || !Top(s).isObject || Top(s).hasPending then Failure(MalformedInput)
      else if Top(s).root then Success(Pop(s).(root := Top(s).value, complete := true))
      else Close(s)
    case OnStartArray =>
      if s.stack == [] then Failure(MalformedInput)
      else if s.values + 1 > l.maxValues then Failure(ResourceLimit)
      else Open(Counted(s), NewContext(false, false), l)
    case OnEndArray =>
      if s.stack == [] || Top(s).isObject then Failure(MalformedInput)
      else Close(s)
  }

  function Open(s: State, c: Context, l: Limits): Result<State>
    requires s.stack != []
  {
    if !ParentReady(s) then Failure(MalformedInput)
    else if |s.stack| + 1 > l.maxDepth then Failure(l.depthKind)
    else Success(s.(stack := s.stack + [c]))
  }

  /** A finished container goes to its parent; only the root has none. */
  function Close(s: State): Result<State>
    requires s.stack != []
  {
    if |s.stack| == 1 then Failure(MalformedInput) else Attach(Pop(s), Top(s).value)
  }

  lemma AttachKeepsValid(s: State, v: Json)
    requires Valid(s) && s.stack != []
    ensures var t := Attach(s, v); t.Success? ==> Valid(t.value)
  {
    var c := Top(s);
    if c.hasPending {
      assert c.value.fields[c.pending := v].Keys == c.value.fields.Keys + {c.pending};
    }
  }

  lemma StepKeepsValid(s: State, e: Event, l: Limits)
    requires Valid(s)
    ensures var t := Step(s, e, l); t.Success? ==> Valid(t.value)
  {
    hide Attach;
    match e {
      case OnScalar(v) =>
        if s.stack != [] {
          AttachKeepsValid(Counted(s), Value(v));
        }
      case OnEndObject =>
        if |s.stack| > 1 {
          AttachKeepsValid(Pop(s), Top(s).value);
        }
      case OnEndArray =>
        if |s.stack| > 1 {
          AttachKeepsValid(Pop(s), Top(s).value);
        }
      case _ =>
    }
  }

  /** The tokenizer stops at the first callback that returns false. */
  function Run(s: State, events: seq<Event>, l: Limits): Result<State>
    decreases events
  {
    if events == [] then Success(s)
    else
      var t :- Step(s, events[0], l);
      Run(t, events[1..], l)
  }

  /** `parse_json`, `parse_header_json` and `parse_object` behind the byte bound. */
  function Parse(events: seq<Event>, l: Limits): Result<Json> {
    var s :- Run(INITIAL, events, l);
    if s.complete && s.stack == [] then Success(s.root) else Failure(MalformedInput)
  }

  // ---- the recursive evaluation

  datatype Counters = Counters(members: nat, values: nat)

  function Build(n: Node, depth: nat, c: Counters, l: Limits): Result<(Json, Counters)>
    decreases n
  {
    if c.values + 1 > l.maxValues then Failure(ResourceLimit)
    else
      var counted := c.(values := c.values + 1);
      match n
      case Leaf(v) => Success((Value(v), counted))
      case List(items) =>
        if depth + 1 > l.maxDepth then Failure(l.depthKind)
        else
          var (elements, after) :- BuildItems(items, depth + 1, counted, [], l);
          Success((Array(elements), after))
      case Record(members) =>
        if depth + 1 > l.maxDepth then Failure(l.depthKind)
        else
          var (fields, after) :- BuildMembers(members, depth + 1, counted, map[], l);
          Success((Object(fields), after))
  }

  function BuildItems(items: seq<Node>, depth: nat, c: Counters, done: seq<Json>, l: Limits)
    : Result<(seq<Json>, Counters)>
    decreases items
  {
    if items == [] then Success((done, c))
    else
      var (v, after) :- Build(items[0], depth, c, l);
      BuildItems(items[1..], depth, after, done + [v], l)
  }

  function BuildMembers(members: seq<Member>, depth: nat, c: Counters, done: map<string, Json>, l: Limits)
    : Result<(map<string, Json>, Counters)>
    decreases members
  {
    if members == [] then Success((done, c))
    else
      var name := members[0].name;
      if c.members + 1 > l.maxMembers || |name| > l.maxKeyBytes then Failure(ResourceLimit)
      else if name in done then Failure(MalformedInput)
      else
        var (v, after) :- Build(members[0].value, depth, c.(members := c.members + 1), l);
        BuildMembers(members[1..], depth, after, done[name := v], l)
  }

  /** The root must be an object; its own depth is not checked. */
  function BuildRoot(n: Node, l: Limits): Result<Json> {
    match n
    case List(_) => Failure(MalformedInput)
    case Leaf(_) => Failure(if 1 > l.maxValues then ResourceLimit else MalformedInput)
    case Record(members) =>
      if 1 > l.maxValues then Failure(ResourceLimit)
      else
        var (fields, _) :- BuildMembers(members, 1, Counters(0, 1), map[], l);
        Success(Object(fields))
  }

  // ---- the automaton computes the recursive evaluation

  function CountersOf(s: State): Counters {
    Counters(s.members, s.values)
  }

  function WithCounters(s: State, c: Counters): State {
    s.(members := c.members, values := c.values)
  }

  function AfterNode(s: State, b: Result<(Json, Counters)>, rest: seq<Event>, l: Limits): Result<State>
    requires s.stack != []
  {
    var (v, c) :- b;
    var t :- Attach(WithCounters(s, c), v);
    Run(t, rest, l)
  }

  function AfterItems(s: State, b: Result<(seq<Json>, Counters)>, rest: seq<Event>, l: Limits): Result<State>
    requires s.stack != []
  {
    var (elements, c) :- b;
    Run(Listed(s, elements, c), rest, l)
  }

  function AfterMembers(s: State, b: Result<(map<string, Json>, Counters)>, rest: seq<Event>, l: Limits): Result<State>
    requires s.stack != []
  {
    var (fields, c) :- b;
    Run(Filled(s, fields, c), rest, l)
  }

  function AfterStep(b: Result<State>, rest: seq<Event>, l: Limits): Result<State> {
    var t :- b;
    Run(t, rest, l)
  }

  lemma RunStep(s: State, e: Event, rest: seq<Event>, l: Limits)
    ensures Run(s, [e] + rest, l) == AfterStep(Step(s, e, l), rest, l)
  {
    assert ([e] + rest)[1..] == rest;
  }

  lemma RunLeaf(s: State, v: Scalar, rest: seq<Event>, l: Limits)
    requires Valid(s) && s.stack != [] && ParentReady(s)
    ensures Run(s, Events(Leaf(v), rest), l) == AfterNode(s, Build(Leaf(v), |s.stack|, CountersOf(s), l), rest, l)
  {
    hide Run, Attach;
    RunStep(s, OnScalar(v), rest, l);
  }

  /** A value in a position that expects one. */
  lemma {:induction false} RunNode(s: State, n: Node, rest: seq<Event>, l: Limits)
    requires Valid(s) && s.stack != [] && ParentReady(s)
    ensures Run(s, Events(n, rest), l) == AfterNode(s, Build(n, |s.stack|, CountersOf(s), l), rest, l)
    decreases n, 1
  {
    hide Run, Build, Events, AfterNode, Valid;
    match n {
      case Leaf(v) => RunLeaf(s, v, rest, l);
      case List(items) => RunList(s, n, rest, l);
      case Record(members) => RunRecord(s, n, rest, l);
    }
  }

  /** The state behind the opening event of a nested container. */
  function Opened(s: State, isObject: bool): State {
    Counted(s).(stack := s.stack + [NewContext(isObject, false)])
  }

  lemma StepOpen(s: State, isObject: bool, l: Limits)
    requires Valid(s) && s.stack != [] && ParentReady(s)
    ensures Step(s, if isObject then OnStartObject else OnStartArray, l) ==
      if s.values + 1 > l.maxValues then Failure(ResourceLimit)
      else if |s.stack| + 1 > l.maxDepth then Failure(l.depthKind)
      else Success(Opened(s, isObject))
    ensures var t := Opened(s, isObject);
            && Valid(t) && |t.stack| == |s.stack| + 1 && CountersOf(t) == Counters(s.members, s.values + 1)
            && Top(t) == NewContext(isObject, false)
  {
  }

  lemma StepCloseList(s: State, elements: seq<Json>, c: Counters, l: Limits)
    requires Valid(s) && s.stack != []
    ensures Step(Listed(Opened(s, false), elements, c), OnEndArray, l) == Attach(WithCounters(s, c), Array(elements))
  {
    assert Pop(Listed(Opened(s, false), elements, c)) == WithCounters(s, c);
  }

  lemma StepCloseRecord(s: State, fields: map<string, Json>, c: Counters, l: Limits)
    requires Valid(s) && s.stack != []
    ensures Step(Filled(Opened(s, true), fields, c), OnEndObject, l) == Attach(WithCounters(s, c), Object(fields))
  {
    assert Pop(Filled(Opened(s, true), fields, c)) == WithCounters(s, c);
  }

  lemma {:induction false} RunList(s: State, n: Node, rest: seq<Event>, l: Limits)
    requires Valid(s) && s.stack != [] && ParentReady(s) && n.List?
    ensures Run(s, Events(n, rest), l) == AfterNode(s, Build(n, |s.stack|, CountersOf(s), l), rest, l)
    decreases n, 0
  {
    hide Run, Attach, BuildItems, ItemEvents, Step, Opened, Listed;
    var after := [OnEndArray] + rest;
    RunStep(s, OnStartArray, ItemEvents(n.items, after), l);
    StepOpen(s, false, l);
    if s.values + 1 <= l.maxValues && |s.stack| + 1 <= l.maxDepth {
      RunItems(Opened(s, false), n.items, after, l);
      var t := BuildItems(n.items, |s.stack| + 1, Counters(s.members, s.values + 1), [], l);
      if t.Success? {
        RunStep(Listed(Opened(s, false), t.value.0, t.value.1), OnEndArray, rest, l);
        StepCloseList(s, t.value.0, t.value.1, l);
      }
    }
  }

  lemma {:induction false} RunRecord(s: State, n: Node, rest: seq<Event>, l: Limits)
    requires Valid(s) && s.stack != [] && ParentReady(s) && n.Record?
    ensures Run(s, Events(n, rest), l) == AfterNode(s, Build(n, |s.stack|, CountersOf(s), l), rest, l)
    decreases n, 0
  {
    hide Run, Attach, BuildMembers, MemberEvents, Step, Opened, Filled;
    var after := [OnEndObject] + rest;
    RunStep(s, OnStartObject, MemberEvents(n.members, after), l);
    StepOpen(s, true, l);
    if s.values + 1 <= l.maxValues && |s.stack| + 1 <= l.maxDepth {
      RunMembers(Opened(s, true), n.members, after, l);
      var t := BuildMembers(n.members, |s.stack| + 1, Counters(s.members, s.values + 1), map[], l);
      if t.Success? {
        RunStep(Filled(Opened(s, true), t.value.0, t.value.1), OnEndObject, rest, l);
        StepCloseRecord(s, t.value.0, t.value.1, l);
      }
    }
  }

  /** The open array holds these elements. */
  function Listed(s: State, elements: seq<Json>, c: Counters): State
    requires s.stack != []
  {
    WithTop(WithCounters(s, c), Top(s).(value := Array(elements)))
  }

  lemma ListedTwice(s: State, x: seq<Json>, c: Counters, y: seq<Json>, d: Counters)
    requires s.stack != []
    ensures Listed(Listed(s, x, c), y, d) == Listed(s, y, d)
  {
    assert Listed(Listed(s, x, c), y, d).stack == Listed(s, y, d).stack;
  }

  lemma AttachElement(s: State, v: Json, c: Counters)
    requires Valid(s) && s.stack != [] && !Top(s).isObject
    ensures var next := Listed(s, Top(s).value.elements + [v], c);
            Attach(WithCounters(s, c), v) == Success(next) && Valid(next) && CountersOf(next) == c
            && |next.stack| == |s.stack| && !Top(next).isObject && Top(next).value == Array(Top(s).value.elements + [v])
  {
  }

  lemma ListedSame(s: State)
    requires Valid(s) && s.stack != [] && !Top(s).isObject
    ensures Listed(s, Top(s).value.elements, CountersOf(s)) == s
  {
    assert WithTop(s, Top(s)) == s;
  }

  lemma {:induction false} RunItems(s: State, items: seq<Node>, rest: seq<Event>, l: Limits)
    requires Valid(s) && s.stack != [] && !Top(s).isObject
    ensures Run(s, ItemEvents(items, rest), l)
         == AfterItems(s, BuildItems(items, |s.stack|, CountersOf(s), Top(s).value.elements, l), rest, l)
    decreases items, 0
  {
    if items == [] {
      ListedSame(s);
    } else {
      hide Run, Build, Events, Attach, Listed, Valid, WithTop;
      var done := Top(s).value.elements;
      RunNode(s, items[0], ItemEvents(items[1..], rest), l);
      var b := Build(items[0], |s.stack|, CountersOf(s), l);
      if b.Success? {
        var (v, c) := b.value;
        AttachElement(s, v, c);
        var next := Listed(s, done + [v], c);
        RunItems(next, items[1..], rest, l);
        var t := BuildItems(items[1..], |s.stack|, c, done + [v], l);
        if t.Success? {
          ListedTwice(s, done + [v], c, t.value.0, t.value.1);
        }
      }
    }
  }

  /** The open object holds these fields and nothing is pending. */
  function Filled(s: State, fields: map<string, Json>, c: Counters): State
    requires s.stack != []
  {
    WithTop(WithCounters(s, c),
            Top(s).(names := fields.Keys, pending := "", hasPending := false, value := Object(fields)))
  }

  lemma FilledTwice(s: State, x: map<string, Json>, c: Counters, y: map<string, Json>, d: Counters)
    requires s.stack != []
    ensures Filled(Filled(s, x, c), y, d) == Filled(s, y, d)
  {
    assert Filled(Filled(s, x, c), y, d).stack == Filled(s, y, d).stack;
  }

  /** An open object between two members, its names exactly those of its fields. */
  ghost predicate BetweenMembers(s: State) {
    Valid(s) && s.stack != [] && Top(s).isObject && !Top(s).hasPending && Top(s).names == Top(s).value.fields.Keys
  }

  lemma FilledSame(s: State)
    requires BetweenMembers(s)
    ensures Filled(s, Top(s).value.fields, CountersOf(s)) == s
  {
    var c := Top(s);
    assert c.(names := c.value.fields.Keys, pending := "", hasPending := false, value := Object(c.value.fields)) == c;
    assert WithTop(s, c) == s;
  }

  lemma {:induction false} RunMembers(s: State, members: seq<Member>, rest: seq<Event>, l: Limits)
    requires BetweenMembers(s)
    ensures Run(s, MemberEvents(members, rest), l)
         == AfterMembers(s, BuildMembers(members, |s.stack|, CountersOf(s), Top(s).value.fields, l), rest, l)
    decreases members, 0
  {
    if members == [] {
      FilledSame(s);
    } else {
      var name, value, done := members[0].name, members[0].value, Top(s).value.fields;
      var tail := MemberEvents(members[1..], rest);
      assert MemberEvents(members, rest) == [OnKey(name)] + Events(value, tail);
      BuildMembersStep(members, |s.stack|, CountersOf(s), done, l);
      hide Run, Build, BuildMembers, Events, MemberEvents, Attach, Filled, Keyed, Step, Valid, ValidContext, WithTop;
      RunStep(s, OnKey(name), Events(value, tail), l);
      StepKey(s, name, l);
      if s.members + 1 <= l.maxMembers && |name| <= l.maxKeyBytes && name !in done {
        KeyedReady(s, name);
        RunNode(Keyed(s, name), value, tail, l);
        var b := Build(value, |s.stack|, Counters(s.members + 1, s.values), l);
        assert Run(s, MemberEvents(members, rest), l) == AfterNode(Keyed(s, name), b, tail, l);
        if b.Success? {
          var (v, c) := b.value;
          AttachPending(s, name, v, c);
          var next := Filled(s, done[name := v], c);
          assert AfterNode(Keyed(s, name), b, tail, l) == Run(next, tail, l);
          RunMembers(next, members[1..], rest, l);
          var t := BuildMembers(members[1..], |s.stack|, c, done[name := v], l);
          assert BuildMembers(members, |s.stack|, CountersOf(s), done, l) == t;
          AfterMembersFilled(s, done[name := v], c, t, rest, l);
        }
      }
    }
  }

  lemma BuildMembersStep(members: seq<Member>, depth: nat, c: Counters, done: map<string, Json>, l: Limits)
    requires members != []
    ensures var name := members[0].name;
            var b := Build(members[0].value, depth, c.(members := c.members + 1), l);
            BuildMembers(members, depth, c, done, l) ==
              if c.members + 1 > l.maxMembers || |name| > l.maxKeyBytes then Failure(ResourceLimit)
              else if name in done then Failure(MalformedInput)
              else if b.Failure? then Failure(b.kind)
              else BuildMembers(members[1..], depth, b.value.1, done[name := b.value.0], l)
  {
    hide Build;
  }

  lemma AfterMembersFilled(s: State, x: map<string, Json>, c: Counters, t: Result<(map<string, Json>, Counters)>,
                           rest: seq<Event>, l: Limits)
    requires s.stack != []
    ensures Filled(s, x, c).stack != [] && AfterMembers(Filled(s, x, c), t, rest, l) == AfterMembers(s, t, rest, l)
  {
    if t.Success? {
      FilledTwice(s, x, c, t.value.0, t.value.1);
    }
  }

  lemma StepKey(s: State, name: string, l: Limits)
    requires BetweenMembers(s)
    ensures Step(s, OnKey(name), l) ==
      if s.members + 1 > l.maxMembers || |name| > l.maxKeyBytes then Failure(ResourceLimit)
      else if name in Top(s).value.fields then Failure(MalformedInput)
      else Success(Keyed(s, name))
  {
  }

  lemma KeyedReady(s: State, name: string)
    requires BetweenMembers(s) && name !in Top(s).names
    ensures var k := Keyed(s, name);
            Valid(k) && |k.stack| == |s.stack| && ParentReady(k) && CountersOf(k) == Counters(s.members + 1, s.values)
  {
  }

  function Keyed(s: State, name: string): State
    requires s.stack != []
  {
    WithTop(s, Top(s).(names := Top(s).names + {name}, pending := name, hasPending := true)).(members := s.members + 1)
  }

  lemma AttachPending(s: State, name: string, v: Json, c: Counters)
    requires BetweenMembers(s) && name !in Top(s).names
    ensures var next := Filled(s, Top(s).value.fields[name := v], c);
            && Attach(WithCounters(Keyed(s, name), c), v) == Success(next)
            && BetweenMembers(next) && |next.stack| == |s.stack| && CountersOf(next) == c
            && Top(next).value == Object(Top(s).value.fields[name := v])
  {
    var fields := Top(s).value.fields[name := v];
    assert fields.Keys == Top(s).names + {name};
    var keyed := WithCounters(Keyed(s, name), c);
    assert Top(keyed).value == Top(s).value && Top(keyed).pending == name;
    assert keyed.stack[..|keyed.stack| - 1] == s.stack[..|s.stack| - 1];
    assert Attach(keyed, v).value.stack == Filled(s, fields, c).stack;
  }

  /** On the events of any document the automaton returns what the recursion returns, the
      error kind included. */
  lemma ParseIsBuild(n: Node, l: Limits)
    ensures Parse(Events(n, []), l) == BuildRoot(n, l)
  {
    match n {
      case Leaf(v) =>
        RunStep(INITIAL, OnScalar(v), [], l);
      case List(items) =>
        RunStep(INITIAL, OnStartArray, ItemEvents(items, [OnEndArray] + []), l);
      case Record(members) => ParseRecord(members, l);
    }
  }

  const ROOT_OPEN := State([NewContext(true, true)], 0, 1, Value(Null), false)

  lemma ParseRecord(members: seq<Member>, l: Limits)
    ensures Parse(Events(Record(members), []), l) == BuildRoot(Record(members), l)
  {
    hide Attach, BuildMembers, MemberEvents, Step, Filled, Run;
    RunStep(INITIAL, OnStartObject, MemberEvents(members, [OnEndObject] + []), l);
    OpenRoot(l);
    if 1 <= l.maxValues {
      RunMembers(ROOT_OPEN, members, [OnEndObject] + [], l);
      var t := BuildMembers(members, 1, Counters(0, 1), map[], l);
      if t.Success? {
        RunStep(Filled(ROOT_OPEN, t.value.0, t.value.1), OnEndObject, [], l);
        CloseRoot(t.value.0, t.value.1, l);
      }
    }
  }

  lemma OpenRoot(l: Limits)
    ensures Step(INITIAL, OnStartObject, l) == if 1 > l.maxValues then Failure(ResourceLimit) else Success(ROOT_OPEN)
    ensures BetweenMembers(ROOT_OPEN)
  {
  }

  lemma CloseRoot(fields: map<string, Json>, c: Counters, l: Limits)
    ensures var t := Step(Filled(ROOT_OPEN, fields, c), OnEndObject, l);
            t.Success? && t.value.complete && t.value.stack == [] && t.value.root == Object(fields)
            && Run(t.value, [], l) == t
  {
  }

  // ---- the declarative condition

  /** What makes a document acceptable below the root, entered with these counters. */
  predicate Fits(n: Node, depth: nat, c: Counters, l: Limits) {
    && NamesFit(n, l.maxKeyBytes)
    && (Depth(n) == 0 || depth + Depth(n) <= l.maxDepth)
    && c.members + MemberCount(n) <= l.maxMembers
    && c.values + ValueCount(n) <= l.maxValues
  }

  function Add(c: Counters, members: nat, values: nat): Counters {
    Counters(c.members + members, c.values + values)
  }

  lemma {:induction false} BuildFits(n: Node, depth: nat, c: Counters, l: Limits)
    requires c.members <= l.maxMembers
    ensures Build(n, depth, c, l).Success? <==> Fits(n, depth, c, l)
    ensures Build(n, depth, c, l).Success? ==>
      Build(n, depth, c, l).value == (Tree(n), Add(c, MemberCount(n), ValueCount(n)))
    decreases n, 1
  {
    match n {
      case Leaf(_) =>
      case List(items) => BuildListFits(n, depth, c, l);
      case Record(members) => BuildRecordFits(n, depth, c, l);
    }
  }

  lemma ListMeasures(items: seq<Node>, size: nat)
    ensures Depth(List(items)) == 1 + ItemsDepth(items) && MemberCount(List(items)) == ItemsMemberCount(items)
    ensures ValueCount(List(items)) == 1 + ItemsValueCount(items) && Tree(List(items)) == Array(Trees(items))
    ensures NamesFit(List(items), size) <==> forall i :: 0 <= i < |items| ==> NamesFit(items[i], size)
  {
    hide Trees, ItemsDepth, ItemsMemberCount, ItemsValueCount;
  }

  lemma BuildList(items: seq<Node>, depth: nat, c: Counters, l: Limits)
    ensures Build(List(items), depth, c, l)
            == if c.values + 1 > l.maxValues then Failure(ResourceLimit)
               else if depth + 1 > l.maxDepth then Failure(l.depthKind)
               else
                 var t := BuildItems(items, depth + 1, c.(values := c.values + 1), [], l);
                 if t.Failure? then Failure(t.kind) else Success((Array(t.value.0), t.value.1))
  {
    hide BuildItems;
  }

  lemma {:induction false} BuildListFits(n: Node, depth: nat, c: Counters, l: Limits)
    requires c.members <= l.maxMembers && n.List?
    ensures Build(n, depth, c, l).Success? <==> Fits(n, depth, c, l)
    ensures Build(n, depth, c, l).Success? ==>
      Build(n, depth, c, l).value == (Tree(n), Add(c, MemberCount(n), ValueCount(n)))
    decreases n, 0
  {
    hide Build, BuildItems, Tree, Trees, Depth, MemberCount, ValueCount, NamesFit, ItemsDepth, ItemsMemberCount,
         ItemsValueCount;
    ListMeasures(n.items, l.maxKeyBytes);
    BuildList(n.items, depth, c, l);
    if c.values + 1 <= l.maxValues && depth + 1 <= l.maxDepth {
      BuildItemsFits(n.items, depth + 1, c.(values := c.values + 1), [], l);
      assert [] + Trees(n.items) == Trees(n.items);
    }
  }

  lemma {:induction false} BuildRecordFits(n: Node, depth: nat, c: Counters, l: Limits)
    requires c.members <= l.maxMembers && n.Record?
    ensures Build(n, depth, c, l).Success? <==> Fits(n, depth, c, l)
    ensures Build(n, depth, c, l).Success? ==>
      Build(n, depth, c, l).value == (Tree(n), Add(c, MemberCount(n), ValueCount(n)))
    decreases n, 0
  {
    hide BuildItems, Trees, ItemsDepth, ItemsMemberCount, ItemsValueCount, BuildMembers, Fields, MembersDepth,
         MembersMemberCount, MembersValueCount;
    if c.values + 1 <= l.maxValues && depth + 1 <= l.maxDepth {
      BuildMembersFits(n.members, depth + 1, c.(values := c.values + 1), map[], l);
      assert map[] + Fields(n.members) == Fields(n.members);
    }
  }

  lemma {:induction false} BuildItemsFits(items: seq<Node>, depth: nat, c: Counters, done: seq<Json>, l: Limits)
    requires c.members <= l.maxMembers && c.values <= l.maxValues && depth <= l.maxDepth
    ensures var t := BuildItems(items, depth, c, done, l);
            && (t.Success? <==>
                  && (forall i :: 0 <= i < |items| ==> NamesFit(items[i], l.maxKeyBytes))
                  && depth + ItemsDepth(items) <= l.maxDepth
                  && c.members + ItemsMemberCount(items) <= l.maxMembers
                  && c.values + ItemsValueCount(items) <= l.maxValues)
            && (t.Success? ==>
                  t.value == (done + Trees(items), Add(c, ItemsMemberCount(items), ItemsValueCount(items))))
    decreases items, 0
  {
    hide Build, Tree, Depth, MemberCount, ValueCount, NamesFit;
    if items == [] {
      assert done + [] == done;
    } else {
      BuildFits(items[0], depth, c, l);
      assert forall i :: 0 <= i < |items| ==> items[i] == if i == 0 then items[0] else items[1..][i - 1];
      var b := Build(items[0], depth, c, l);
      if b.Success? {
        BuildItemsFits(items[1..], depth, b.value.1, done + [b.value.0], l);
        assert (done + [b.value.0]) + Trees(items[1..]) == done + ([b.value.0] + Trees(items[1..]));
      }
    }
  }

  /** Member names are short, new and distinct, and the values below them fit. */
  predicate FreshMembers(members: seq<Member>, taken: set<string>, size: nat) {
    && (forall i :: 0 <= i < |members| ==>
          |members[i].name| <= size && NamesFit(members[i].value, size) && members[i].name !in taken)
    && Distinct(members)
  }

  lemma NoFreshMembers(taken: set<string>, size: nat)
    ensures FreshMembers([], taken, size)
  {
  }

  lemma FreshMembersStep(members: seq<Member>, taken: set<string>, size: nat)
    requires members != []
    ensures FreshMembers(members, taken, size) <==>
      && |members[0].name| <= size && NamesFit(members[0].value, size) && members[0].name !in taken
      && FreshMembers(members[1..], taken + {members[0].name}, size)
  {
    var rest := members[1..];
    assert forall i :: 0 < i < |members| ==> members[i] == rest[i - 1];
    if FreshMembers(rest, taken + {members[0].name}, size) && members[0].name !in taken {
      forall i, j | 0 <= i < j < |members|
        ensures members[i].name != members[j].name
      {
        assert rest[j - 1].name !in taken + {members[0].name};
      }
    }
    if FreshMembers(members, taken, size) {
      forall i | 0 <= i < |rest|
        ensures rest[i].name !in taken + {members[0].name} && rest[i].name !in taken
      {
        assert members[i + 1] == rest[i];
      }
    }
  }

  lemma {:induction false} BuildMembersFits(members: seq<Member>, depth: nat, c: Counters, done: map<string, Json>,
                                            l: Limits)
    requires c.members <= l.maxMembers && c.values <= l.maxValues
    ensures var t := BuildMembers(members, depth, c, done, l);
            && (t.Success? <==>
                  && FreshMembers(members, done.Keys, l.maxKeyBytes)
                  && (MembersDepth(members) == 0 || depth + MembersDepth(members) <= l.maxDepth)
                  && c.members + MembersMemberCount(members) <= l.maxMembers
                  && c.values + MembersValueCount(members) <= l.maxValues)
            && (t.Success? ==>
                  t.value == (done + Fields(members), Add(c, MembersMemberCount(members), MembersValueCount(members))))
    decreases members, 0
  {
    hide FreshMembers, NamesFit, Build, Tree, Depth, MemberCount, ValueCount;
    if members == [] {
      NoFreshMembers(done.Keys, l.maxKeyBytes);
      assert done + map[] == done;
    } else {
      var name, value := members[0].name, members[0].value;
      FreshMembersStep(members, done.Keys, l.maxKeyBytes);
      if c.members + 1 <= l.maxMembers && |name| <= l.maxKeyBytes && name !in done {
        var keyed := c.(members := c.members + 1);
        BuildFits(value, depth, keyed, l);
        var b := Build(value, depth, keyed, l);
        if b.Success? {
          BuildMembersFits(members[1..], depth, b.value.1, done[name := b.value.0], l);
          assert done[name := b.value.0].Keys == done.Keys + {name};
          MapShift(done, name, b.value.0, Fields(members[1..]));
        }
      }
    }
  }

  lemma MapShift(done: map<string, Json>, name: string, v: Json, more: map<string, Json>)
    ensures done[name := v] + more == done + (map[name := v] + more)
  {
  }

  /** What makes a whole document acceptable. */
  predicate Acceptable(n: Node, l: Limits) {
    && n.Record? && NamesFit(n, l.maxKeyBytes)
    && (Depth(n) == 1 || Depth(n) <= l.maxDepth)
    && MemberCount(n) <= l.maxMembers && ValueCount(n) <= l.maxValues
  }

  lemma RecordMeasures(members: seq<Member>, l: Limits)
    ensures NamesFit(Record(members), l.maxKeyBytes) <==> FreshMembers(members, {}, l.maxKeyBytes)
  {
  }

  /** The builders accept exactly the bounded objects without repeated names, and return the
      tree of the document. */
  lemma ParseAcceptsExactly(n: Node, l: Limits)
    ensures Parse(Events(n, []), l).Success? <==> Acceptable(n, l)
    ensures Acceptable(n, l) ==> Parse(Events(n, []), l) == Success(Tree(n))
  {
    hide Parse, BuildMembers, Fields, Events, FreshMembers, MembersDepth, MembersMemberCount, MembersValueCount;
    ParseIsBuild(n, l);
    if n.Record? {
      RecordMeasures(n.members, l);
    }
    if n.Record? && 1 <= l.maxValues {
      var none: map<string, Json> := map[];
      assert none.Keys == {};
      BuildMembersFits(n.members, 1, Counters(0, 1), none, l);
      assert none + Fields(n.members) == Fields(n.members);
    }
  }

  // ---- what the limits leave open

  /** The event opens a container where one more may stand, within the value bound, and the depth is used up. */
  predicate Overflows(s: State, e: Event, l: Limits) {
    && (e.OnStartObject? || e.OnStartArray?) && s.stack != [] && ParentReady(s)
    && s.values + 1 <= l.maxValues && |s.stack| >= l.maxDepth
  }

  /** Some prefix of the events is accepted, and the next event is one container too deep. */
  ghost predicate DepthOverflows(s: State, events: seq<Event>, l: Limits) {
    exists k :: 0 <= k < |events| && OverflowsAt(s, events, k, l)
  }

  predicate OverflowsAt(s: State, events: seq<Event>, k: nat, l: Limits)
    requires k < |events|
  {
    var t := Run(s, events[..k], l);
    t.Success? && Overflows(t.value, events[k], l)
  }

  lemma OneStepDiffers(s: State, e: Event, a: Limits, b: Limits)
    requires a.(depthKind := b.depthKind) == b
    ensures Overflows(s, e, a) ==> Step(s, e, a) == Failure(a.depthKind) && Step(s, e, b) == Failure(b.depthKind)
    ensures !Overflows(s, e, a) ==> Step(s, e, a) == Step(s, e, b)
  {
    hide Attach, Close, Keyed;
  }

  lemma OverflowStep(s: State, events: seq<Event>, l: Limits)
    requires events != []
    ensures DepthOverflows(s, events, l) <==>
              var t := Step(s, events[0], l);
              Overflows(s, events[0], l) || (t.Success? && DepthOverflows(t.value, events[1..], l))
  {
    hide Step, Overflows;
    var t := Step(s, events[0], l);
    if DepthOverflows(s, events, l) {
      var k :| 0 <= k < |events| && OverflowsAt(s, events, k, l);
      if k > 0 {
        assert events[..k][1..] == events[1..][..k - 1];
        assert OverflowsAt(t.value, events[1..], k - 1, l);
      }
    }
    if Overflows(s, events[0], l) {
      assert OverflowsAt(s, events, 0, l);
    }
    if t.Success? && DepthOverflows(t.value, events[1..], l) {
      var rest := events[1..];
      var k :| 0 <= k < |rest| && OverflowsAt(t.value, rest, k, l);
      assert events[..k + 1][1..] == rest[..k];
      assert OverflowsAt(s, events, k + 1, l);
    }
  }

  lemma {:induction false} RunsAgree(s: State, events: seq<Event>, a: Limits, b: Limits)
    requires a.(depthKind := b.depthKind) == b
    ensures DepthOverflows(s, events, a) ==>
              Run(s, events, a) == Failure(a.depthKind) && Run(s, events, b) == Failure(b.depthKind)
    ensures !DepthOverflows(s, events, a) ==> Run(s, events, a) == Run(s, events, b)
    decreases events
  {
    hide Step, Overflows, DepthOverflows;
    if events == [] {
      NothingOverflows(s, a);
    } else {
      OverflowStep(s, events, a);
      OneStepDiffers(s, events[0], a, b);
      var t := Step(s, events[0], a);
      if t.Success? && !Overflows(s, events[0], a) {
        RunsAgree(t.value, events[1..], a, b);
      }
    }
  }

  lemma NothingOverflows(s: State, l: Limits)
    ensures !DepthOverflows(s, [], l)
  {
  }

  /** Builders with equal bounds agree on acceptance, tree and error, with one exception: they differ exactly when an
      accepted prefix is followed by a container too many, which `ObjectSax` reports with its default kind. */
  lemma BuildersAgree(events: seq<Event>, a: Limits, b: Limits)
    requires a.(depthKind := b.depthKind) == b
    ensures DepthOverflows(INITIAL, events, a) ==>
              Parse(events, a) == Failure(a.depthKind) && Parse(events, b) == Failure(b.depthKind)
    ensures a.depthKind != b.depthKind ==>
              (Parse(events, a) != Parse(events, b) <==> DepthOverflows(INITIAL, events, a))
  {
    hide Run, DepthOverflows;
    RunsAgree(INITIAL, events, a, b);
  }

  /** Containers in containers, `levels` deep below the root. */
  function Nested(levels: nat): Node {
    if levels == 0 then Leaf(Null) else List([Nested(levels - 1)])
  }

  lemma {:induction false} NestedOverflows(levels: nat, depth: nat, c: Counters, l: Limits)
    requires depth <= l.maxDepth < depth + levels && c.values + (l.maxDepth - depth) + 1 <= l.maxValues
    ensures Build(Nested(levels), depth, c, l) == Failure(l.depthKind)
  {
    if depth < l.maxDepth {
      NestedOverflows(levels - 1, depth + 1, c.(values := c.values + 1), l);
      assert Nested(levels).items[0] == Nested(levels - 1);
    }
  }

  /** A document one container too deep for the limits. */
  function TooDeep(l: Limits): Node {
    Record([Member("a", Nested(l.maxDepth))])
  }

  lemma {:induction false} NestedDepth(levels: nat)
    ensures Depth(Nested(levels)) == levels
  {
    if levels > 0 {
      NestedDepth(levels - 1);
      var items := [Nested(levels - 1)];
      assert items[1..] == [] && ItemsDepth(items[1..]) == 0 && items[0] == Nested(levels - 1);
    }
  }

  lemma DeepFails(n: Node, l: Limits)
    requires n == TooDeep(l) && l.maxMembers >= 1 && l.maxKeyBytes >= 1 && 1 <= l.maxDepth < l.maxValues
    ensures Parse(Events(n, []), l) == Failure(l.depthKind)
  {
    hide Parse, Events, Nested, Build;
    ParseIsBuild(n, l);
    NestedOverflows(l.maxDepth, 1, Counters(1, 1), l);
  }

  /** Every builder reports it with its own kind: at 33 containers the configuration's and the issuer's differ. */
  lemma DepthKindsDiffer(n: Node)
    requires n == TooDeep(CONFIG_LIMITS)
    ensures Depth(n) == 33
    ensures Parse(Events(n, []), CONFIG_LIMITS) == Failure(ResourceLimit)
    ensures Parse(Events(n, []), ISSUER_LIMITS) == Failure(MalformedInput)
  {
    hide Parse, Events, Nested;
    NestedDepth(CONFIG_LIMITS.maxDepth);
    assert n.members[1..] == [];
    DeepFails(n, CONFIG_LIMITS);
    DeepFails(n, ISSUER_LIMITS);
  }

  /** What the header builder accepts, with the tightest bounds, the issuer and the configuration builder accept
      with the same tree; what the issuer builder accepts, the configuration builder does. */
  lemma BoundsAreNested(n: Node, t: Json)
    ensures Parse(Events(n, []), HEADER_LIMITS) == Success(t) ==> Parse(Events(n, []), ISSUER_LIMITS) == Success(t)
    ensures Parse(Events(n, []), ISSUER_LIMITS) == Success(t) ==> Parse(Events(n, []), CONFIG_LIMITS) == Success(t)
  {
    hide Parse, Tree, Events, NamesFit, Depth, MemberCount, ValueCount;
    ParseAcceptsExactly(n, HEADER_LIMITS);
    ParseAcceptsExactly(n, ISSUER_LIMITS);
    ParseAcceptsExactly(n, CONFIG_LIMITS);
  }

  // ---- the builder object

  /** The SAX handlers as methods that update the fields and return whether to go on. */
  class Builder {
    const limits: Limits
    var stack: seq<Context>
    var root: Json
    var failure: Kind
    var members: nat
    var values: nat
    var complete: bool
    var failed: bool

    ghost function Abstract(): State
      reads this
    {
      State(stack, members, values, root, complete)
    }

    /** No callback has returned false so far. */
    ghost predicate Running()
      reads this
    {
      Valid(Abstract()) && !failed && failure == MalformedInput
    }

    /** What a callback that returned `ok` has produced. */
    ghost function Outcome(ok: bool): Result<State>
      reads this
    {
      if ok then Success(Abstract()) else Failure(failure)
    }

    constructor (limits: Limits)
      ensures Running() && Abstract() == INITIAL && this.limits == limits
    {
      this.limits := limits;
      stack, members, values, root := [], 0, 0, Value(Null);
      complete, failed, failure := false, false, MalformedInput;
    }

    method Fail(kind: Kind) returns (ok: bool)
      requires !failed
      modifies this`failure, this`failed
      ensures !ok && failed && failure == kind
    {
      if !failed {
        failure, failed := kind, true;
      }
      ok := false;
    }

    method CountValue() returns (ok: bool)
      requires Running()
      modifies this`values, this`failure, this`failed
      ensures Abstract() == Counted(old(Abstract()))
      ensures ok == (values <= limits.maxValues)
      ensures if ok then Running() else failure == ResourceLimit
    {
      values := values + 1;
      if values <= limits.maxValues {
        ok := true;
      } else {
        ok := Fail(ResourceLimit);
      }
    }

    method AttachValue(v: Json) returns (ok: bool)
      requires Running() && stack != []
      modifies this`stack, this`failure, this`failed
      ensures Outcome(ok) == Attach(old(Abstract()), v)
      ensures ok ==> Running()
    {
      AttachKeepsValid(Abstract(), v);
      var c := stack[|stack| - 1];
      if !c.isObject {
        stack := stack[..|stack| - 1] + [c.(value := Append(c.value, v))];
        return true;
      }
      if !c.hasPending {
        ok := Fail(MalformedInput);
        return;
      }
      stack := stack[..|stack| - 1] + [c.(value := Put(c.value, c.pending, v), pending := "", hasPending := false)];
      ok := true;
    }

    method ScalarValue(v: Scalar) returns (ok: bool)
      requires Running()
      modifies this
      ensures Outcome(ok) == Step(old(Abstract()), OnScalar(v), limits)
      ensures ok ==> Running()
    {
      ok := CountValue();
      if !ok || stack == [] {
        return false;
      }
      ok := AttachValue(Value(v));
    }

    /** The shared second half of `start_object` and `start_array`. */
    method PushNested(isObject: bool) returns (ok: bool)
      requires Running() && stack != []
      modifies this
      ensures Outcome(ok) == Open(old(Abstract()), NewContext(isObject, false), limits)
      ensures ok ==> Running()
    {
      if stack[|stack| - 1].isObject && !stack[|stack| - 1].hasPending {
        ok := Fail(MalformedInput);
        return;
      }
      if |stack| + 1 > limits.maxDepth {
        ok := Fail(limits.depthKind);
        return;
      }
      stack := stack + [NewContext(isObject, false)];
      ok := true;
    }

    method StartObject() returns (ok: bool)
      requires Running()
      modifies this
      ensures Outcome(ok) == Step(old(Abstract()), OnStartObject, limits)
      ensures ok ==> Running()
    {
      ok := CountValue();
      if !ok {
        return;
      }
      if stack == [] {
        stack := [NewContext(true, true)];
        return true;
      }
      ok := PushNested(true);
    }

    method Key(name: string) returns (ok: bool)
      requires Running()
      modifies this
      ensures ok ==> Outcome(ok) == Step(old(Abstract()), OnKey(name), limits) && Running()
      ensures !ok ==> Step(old(Abstract()), OnKey(name), limits) == Failure(failure)
    {
      StepKeepsValid(Abstract(), OnKey(name), limits);
      if stack == [] || !stack[|stack| - 1].isObject {
        ok := Fail(MalformedInput);
        return;
      }
      members := members + 1;
      if members > limits.maxMembers || |name| > limits.maxKeyBytes {
        ok := Fail(ResourceLimit);
        return;
      }
      var c := stack[|stack| - 1];
      if name in c.names {
        ok := Fail(MalformedInput);
        return;
      }
      stack := stack[..|stack| - 1] + [c.(names := c.names + {name}, pending := name, hasPending := true)];
      ok := true;
    }

    method EndObject() returns (ok: bool)
      requires Running()
      modifies this
      ensures Outcome(ok) == Step(old(Abstract()), OnEndObject, limits)
      ensures ok ==> Running()
    {
      if stack == [] || !stack[|stack| - 1].isObject || stack[|stack| - 1].hasPending {
        ok := Fail(MalformedInput);
        return;
      }
      var c := stack[|stack| - 1];
      stack := stack[..|stack| - 1];
      if c.root {
        root, complete := c.value, true;
        return true;
      }
      ok := AttachValue(c.value);
    }

    method StartArray() returns (ok: bool)
      requires Running()
      modifies this
      ensures Outcome(ok) == Step(old(Abstract()), OnStartArray, limits)
      ensures ok ==> Running()
    {
      if stack == [] {
        return false;
      }
      ok := CountValue();
      if !ok {
        return;
      }
      ok := PushNested(false);
    }

    method EndArray() returns (ok: bool)
      requires Running()
      modifies this
      ensures Outcome(ok) == Step(old(Abstract()), OnEndArray, limits)
      ensures ok ==> Running()
    {
      if stack == [] || stack[|stack| - 1].isObject {
        ok := Fail(MalformedInput);
        return;
      }
      var c := stack[|stack| - 1];
      stack := stack[..|stack| - 1];
      ok := AttachValue(c.value);
    }

    method Handle(e: Event) returns (ok: bool)
      requires Running()
      modifies this
      ensures Outcome(ok) == Step(old(Abstract()), e, limits)
      ensures ok ==> Running()
    {
      match e {
        case OnScalar(v) => ok := ScalarValue(v);
        case OnStartObject => ok := StartObject();
        case OnKey(name) => ok := Key(name);
        case OnEndObject => ok := EndObject();
        case OnStartArray => ok := StartArray();
        case OnEndArray => ok := EndArray();
      }
    }
  }

  /** The tokenizer drives a fresh builder until it is done or a callback returns false. */
  method ParseEvents(events: seq<Event>, limits: Limits) returns (r: Result<Json>)
    ensures r == Parse(events, limits)
  {
    hide Step;
    var builder := new Builder(limits);
    var index := 0;
    var parsed := true;
    assert events[0..] == events;
    while index < |events| && parsed
      invariant 0 <= index <= |events| && fresh(builder) && builder.limits == limits
      invariant parsed ==>
                  builder.Running() && Run(INITIAL, events, limits) == Run(builder.Abstract(), events[index..], limits)
      invariant !parsed ==> Run(INITIAL, events, limits) == Failure(builder.failure)
    {
      assert events[index..][0] == events[index] && events[index..][1..] == events[index + 1..];
      parsed := builder.Handle(events[index]);
      index := index + 1;
    }
    if !parsed || builder.failed || !builder.complete || builder.stack != [] {
      return Failure(builder.failure);
    }
    r := Success(builder.root);
  }
}
