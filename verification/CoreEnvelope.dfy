/** The closed schema of the token envelope: `CoreEnvelopeSax` of `src/strict_json.cpp`, the
    general JSON serialization of section 7.2.1 of RFC 7515 with one signature. */
module CoreEnvelope {
  import opened Errors
  import opened JsonTrees

  datatype Limits = Limits(maxDepth: nat, maxMembers: nat, maxValues: nat, maxKeyBytes: nat)

  datatype Envelope = Envelope(payload: string, protectedHeader: string, signature: string, evidence: string)

  datatype ContextKind = RootObject | SignaturesArray | SignatureObject

  datatype Context = Context(kind: ContextKind, names: set<string>, pending: string, items: nat)

  datatype Flags = Flags(payload: bool, signatures: bool, evidence: bool, protectedHeader: bool, signature: bool)

  datatype State = State(stack: seq<Context>, envelope: Envelope, have: Flags, members: nat, values: nat)

  const EMPTY := Envelope("", "", "", "")
  const INITIAL := State([], EMPTY, Flags(false, false, false, false, false), 0, 0)

  const ROOT_NAMES: set<string> := {"payload", "signatures", "credbind_evidence"}
  const SIGNATURE_NAMES: set<string> := {"protected", "signature"}

  // ---- the automaton

  function Top(s: State): Context
    requires s.stack != []
  {
    s.stack[|s.stack| - 1]
  }

  function WithTop(s: State, c: Context): State
    requires s.stack != []
  {
    s.(stack := s.stack[..|s.stack| - 1] + [c])
  }

  function Counted(s: State): State {
    s.(values := s.values + 1)
  }

  function SetPayload(s: State, v: string): State {
    s.(envelope := s.envelope.(payload := v), have := s.have.(payload := true))
  }

  function SetEvidence(s: State, v: string): State {
    s.(envelope := s.envelope.(evidence := v), have := s.have.(evidence := true))
  }

  function SetProtected(s: State, v: string): State {
    s.(envelope := s.envelope.(protectedHeader := v), have := s.have.(protectedHeader := true))
  }

  function SetSignature(s: State, v: string): State {
    s.(envelope := s.envelope.(signature := v), have := s.have.(signature := true))
  }

  function OnString(s: State, v: string): Result<State>
    requires s.stack != []
  {
    var c := Top(s);
    var next :-
      match c.kind
      case RootObject =>
        if c.pending == "payload" then Success(SetPayload(s, v))
        else if c.pending == "credbind_evidence" then Success(SetEvidence(s, v))
        else Failure(MalformedInput)
      case SignatureObject =>
        if c.pending == "protected" then Success(SetProtected(s, v))
        else if c.pending == "signature" then Success(SetSignature(s, v))
        else Failure(MalformedInput)
      case SignaturesArray => Failure(MalformedInput);
    Success(WithTop(next, c.(pending := "")))
  }

  function Step(s: State, e: Event, l: Limits): Result<State> {
    match e
    case OnScalar(v) =>
      if s.values + 1 > l.maxValues then Failure(ResourceLimit)
      else if s.stack == [] || !v.Text? then Failure(MalformedInput)
      else OnString(Counted(s), v.text)
    case OnStartObject =>
      if s.values + 1 > l.maxValues || |s.stack| + 1 > l.maxDepth then Failure(ResourceLimit)
      else if s.stack == [] then Success(Counted(s).(stack := [Context(RootObject, {}, "", 0)]))
      else
        var parent := Top(s);
        if parent.kind != SignaturesArray || parent.items + 1 > 1 then Failure(MalformedInput)
        else
          var counted := WithTop(Counted(s), parent.(items := parent.items + 1));
          Success(counted.(stack := counted.stack + [Context(SignatureObject, {}, "", 0)]))
    case OnKey(name) =>
      if s.stack == [] || Top(s).kind == SignaturesArray then Failure(MalformedInput)
      else if s.members + 1 > l.maxMembers || |name| > l.maxKeyBytes then Failure(ResourceLimit)
      else if name in Top(s).names then Failure(MalformedInput)
      else if name !in (if Top(s).kind == RootObject then ROOT_NAMES else SIGNATURE_NAMES) then Failure(MalformedInput)
      else
        var c := Top(s);
        Success(WithTop(s, c.(names := c.names + {name}, pending := name)).(members := s.members + 1))
    case OnEndObject =>
      if s.stack == [] then Failure(MalformedInput)
      else
        var complete := match Top(s).kind
          case RootObject => s.have.payload && s.have.signatures && s.have.evidence
          case SignatureObject => s.have.protectedHeader && s.have.signature
          case SignaturesArray => false;
        if complete then Success(Pop(s)) else Failure(MalformedInput)
    case OnStartArray =>
      if s.values + 1 > l.maxValues || |s.stack| + 1 > l.maxDepth then Failure(ResourceLimit)
      else if s.stack == [] || Top(s).kind != RootObject || Top(s).pending != "signatures" then Failure(MalformedInput)
      else
        var marked := WithTop(Counted(s), Top(s).(pending := "")).(have := s.have.(signatures := true));
        Success(marked.(stack := marked.stack + [Context(SignaturesArray, {}, "", 0)]))
    case OnEndArray =>
      if s.stack == [] || Top(s).kind != SignaturesArray || Top(s).items != 1 then Failure(MalformedInput)
      else Success(Pop(s))
  }

  function Pop(s: State): State
    requires s.stack != []
  {
    s.(stack := s.stack[..|s.stack| - 1])
  }

  function Run(s: State, events: seq<Event>, l: Limits): Result<State>
    decreases events
  {
    if events == [] then Success(s)
    else
      var t :- Step(s, events[0], l);
      Run(t, events[1..], l)
  }

  predicate ValidLimits(l: Limits) {
    l.maxDepth > 0 && l.maxMembers > 0 && l.maxValues > 0 && l.maxKeyBytes > 0
  }

  /** `parse_core_envelope` behind the byte bound. */
  function Parse(events: seq<Event>, l: Limits): Result<Envelope> {
    var _ :- Need(ValidLimits(l), ResourceLimit);
    var s :- Run(INITIAL, events, l);
    Success(s.envelope)
  }

  // ---- what is accepted

  /** A caller signature entry with these two strings, in either order. */
  ghost predicate IsSignature(n: Node, e: Envelope) {
    && n.Record? && |n.members| == 2
    && Member("protected", Leaf(Text(e.protectedHeader))) in n.members
    && Member("signature", Leaf(Text(e.signature))) in n.members
  }

  /** An envelope with these four strings and nothing else, in any order. */
  ghost predicate IsEnvelope(n: Node, e: Envelope) {
    && n.Record? && |n.members| == 3
    && Member("payload", Leaf(Text(e.payload))) in n.members
    && Member("credbind_evidence", Leaf(Text(e.evidence))) in n.members
    && exists entry :: IsSignature(entry, e) && Member("signatures", List([entry])) in n.members
  }

  /** Room for three levels, five members, seven values and the 17 octets of the longest name. */
  predicate Roomy(l: Limits) {
    l.maxDepth >= 3 && l.maxMembers >= 5 && l.maxValues >= 7 && l.maxKeyBytes >= 17
  }

  // ---- runs, one member at a time

  function AfterStep(b: Result<State>, rest: seq<Event>, l: Limits): Result<State> {
    var t :- b;
    Run(t, rest, l)
  }

  lemma RunStep(s: State, e: Event, rest: seq<Event>, l: Limits)
    ensures Run(s, [e] + rest, l) == AfterStep(Step(s, e, l), rest, l)
  {
    assert ([e] + rest)[1..] == rest;
  }

  /** A member of the signature entry; a container in it is refused when it opens. */
  function EntryMember(s: State, m: Member, l: Limits): Result<State> {
    var keyed :- Step(s, OnKey(m.name), l);
    match m.value
    case Leaf(v) => Step(keyed, OnScalar(v), l)
    case List(_) => Step(keyed, OnStartArray, l)
    case Record(_) => Step(keyed, OnStartObject, l)
  }

  function EntryMembers(s: State, members: seq<Member>, l: Limits): Result<State>
    decreases members
  {
    if members == [] then Success(s)
    else
      var t :- EntryMember(s, members[0], l);
      EntryMembers(t, members[1..], l)
  }

  function Items(s: State, items: seq<Node>, l: Limits): Result<State>
    decreases items
  {
    if items == [] then Success(s)
    else
      var t :-
        match items[0]
        case Leaf(v) => Step(s, OnScalar(v), l)
        case List(_) => Step(s, OnStartArray, l)
        case Record(members) =>
          var inner :- Step(s, OnStartObject, l);
          var filled :- EntryMembers(inner, members, l);
          Step(filled, OnEndObject, l);
      Items(t, items[1..], l)
  }

  function RootMember(s: State, m: Member, l: Limits): Result<State> {
    var keyed :- Step(s, OnKey(m.name), l);
    match m.value
    case Leaf(v) => Step(keyed, OnScalar(v), l)
    case Record(_) => Step(keyed, OnStartObject, l)
    case List(items) => Signatures(keyed, items, l)
  }

  function RootMembers(s: State, members: seq<Member>, l: Limits): Result<State>
    decreases members
  {
    if members == [] then Success(s)
    else
      var t :- RootMember(s, members[0], l);
      RootMembers(t, members[1..], l)
  }

  predicate In(s: State, kind: ContextKind) {
    s.stack != [] && Top(s).kind == kind
  }

  lemma {:induction false} RunEntryMembers(s: State, members: seq<Member>, rest: seq<Event>, l: Limits)
    requires In(s, SignatureObject)
    ensures Run(s, MemberEvents(members, rest), l) == AfterStep(EntryMembers(s, members, l), rest, l)
    ensures EntryMembers(s, members, l).Success? ==> In(EntryMembers(s, members, l).value, SignatureObject)
    decreases members
  {
    if members != [] {
      var m, tail := members[0], MemberEvents(members[1..], rest);
      hide Run;
      RunStep(s, OnKey(m.name), Events(m.value, tail), l);
      var keyed := Step(s, OnKey(m.name), l);
      if keyed.Success? {
        match m.value {
          case Leaf(v) => RunStep(keyed.value, OnScalar(v), tail, l);
          case List(items) => RunStep(keyed.value, OnStartArray, ItemEvents(items, [OnEndArray] + tail), l);
          case Record(inner) => RunStep(keyed.value, OnStartObject, MemberEvents(inner, [OnEndObject] + tail), l);
        }
        var t := EntryMember(s, m, l);
        if t.Success? {
          RunEntryMembers(t.value, members[1..], rest, l);
        }
      }
    }
  }

  lemma {:induction false} RunItems(s: State, items: seq<Node>, rest: seq<Event>, l: Limits)
    requires In(s, SignaturesArray)
    ensures Run(s, ItemEvents(items, rest), l) == AfterStep(Items(s, items, l), rest, l)
    ensures Items(s, items, l).Success? ==> In(Items(s, items, l).value, SignaturesArray)
    decreases items
  {
    if items != [] {
      var tail := ItemEvents(items[1..], rest);
      hide Run;
      match items[0] {
        case Leaf(v) => RunStep(s, OnScalar(v), tail, l);
        case List(inner) => RunStep(s, OnStartArray, ItemEvents(inner, [OnEndArray] + tail), l);
        case Record(members) =>
          RunStep(s, OnStartObject, MemberEvents(members, [OnEndObject] + tail), l);
          var inner := Step(s, OnStartObject, l);
          if inner.Success? {
            RunEntryMembers(inner.value, members, [OnEndObject] + tail, l);
            var filled := EntryMembers(inner.value, members, l);
            if filled.Success? {
              EntryKeepsOuter(inner.value, members, l);
              RunStep(filled.value, OnEndObject, tail, l);
              var closed := Step(filled.value, OnEndObject, l);
              if closed.Success? {
                RunItems(closed.value, items[1..], rest, l);
              }
            }
          }
      }
    }
  }

  /** The members of an entry touch nothing below the entry. */
  lemma {:induction false} EntryKeepsOuter(s: State, members: seq<Member>, l: Limits)
    requires In(s, SignatureObject)
    ensures var t := EntryMembers(s, members, l);
            t.Success? ==> In(t.value, SignatureObject) && Pop(t.value).stack == Pop(s).stack
    decreases members
  {
    if members != [] {
      var t := EntryMember(s, members[0], l);
      if t.Success? {
        EntryKeepsOuter(t.value, members[1..], l);
      }
    }
  }

  lemma {:induction false} ItemsKeepOuter(s: State, items: seq<Node>, l: Limits)
    requires In(s, SignaturesArray)
    ensures var t := Items(s, items, l);
            t.Success? ==> In(t.value, SignaturesArray) && Pop(t.value).stack == Pop(s).stack
    decreases items
  {
    hide EntryMembers, EntryMember;
    if items != [] && items[0].Record? {
      var inner := Step(s, OnStartObject, l);
      if inner.Success? {
        EntryKeepsOuter(inner.value, items[0].members, l);
        var filled := EntryMembers(inner.value, items[0].members, l);
        if filled.Success? {
          var closed := Step(filled.value, OnEndObject, l);
          if closed.Success? {
            ItemsKeepOuter(closed.value, items[1..], l);
          }
        }
      }
    }
  }

  lemma {:induction false} RunRootMembers(s: State, members: seq<Member>, rest: seq<Event>, l: Limits)
    requires In(s, RootObject)
    ensures Run(s, MemberEvents(members, rest), l) == AfterStep(RootMembers(s, members, l), rest, l)
    decreases members
  {
    if members != [] {
      var m, tail := members[0], MemberEvents(members[1..], rest);
      hide Run;
      RunStep(s, OnKey(m.name), Events(m.value, tail), l);
      var keyed := Step(s, OnKey(m.name), l);
      if keyed.Success? {
        match m.value {
          case Leaf(v) => RunStep(keyed.value, OnScalar(v), tail, l);
          case Record(inner) => RunStep(keyed.value, OnStartObject, MemberEvents(inner, [OnEndObject] + tail), l);
          case List(items) => RunSignatures(keyed.value, items, tail, l);
        }
        RootMemberStays(s, m, l);
        var t := RootMember(s, m, l);
        if t.Success? {
          RunRootMembers(t.value, members[1..], rest, l);
        }
      }
    }
  }

  lemma RunSignatures(s: State, items: seq<Node>, tail: seq<Event>, l: Limits)
    requires In(s, RootObject)
    ensures Run(s, Events(List(items), tail), l) == AfterStep(Signatures(s, items, l), tail, l)
  {
    hide Run, Items;
    RunStep(s, OnStartArray, ItemEvents(items, [OnEndArray] + tail), l);
    var inner := Step(s, OnStartArray, l);
    if inner.Success? {
      RunItems(inner.value, items, [OnEndArray] + tail, l);
      var filled := Items(inner.value, items, l);
      if filled.Success? {
        RunStep(filled.value, OnEndArray, tail, l);
      }
    }
  }

  function Signatures(s: State, items: seq<Node>, l: Limits): Result<State> {
    var inner :- Step(s, OnStartArray, l);
    var filled :- Items(inner, items, l);
    Step(filled, OnEndArray, l)
  }

  lemma RootMemberStays(s: State, m: Member, l: Limits)
    requires In(s, RootObject)
    ensures var t := RootMember(s, m, l); t.Success? ==> In(t.value, RootObject)
  {
    hide Items;
    var keyed := Step(s, OnKey(m.name), l);
    if keyed.Success? && m.value.List? {
      var inner := Step(keyed.value, OnStartArray, l);
      if inner.Success? {
        ItemsKeepOuter(inner.value, m.value.items, l);
      }
    }
  }

  // ---- the members of the entry, declaratively

  predicate EntryAdmits(m: Member, taken: set<string>, l: Limits) {
    |m.name| <= l.maxKeyBytes && m.name in SIGNATURE_NAMES - taken && m.value.Leaf? && m.value.scalar.Text?
  }

  predicate EntryFits(members: seq<Member>, taken: set<string>, l: Limits)
    decreases members
  {
    members == [] || (EntryAdmits(members[0], taken, l) && EntryFits(members[1..], taken + {members[0].name}, l))
  }

  /** The strings of the members replace those of the envelope. */
  function EntryStrings(e: Envelope, members: seq<Member>): Envelope
    decreases members
  {
    if members == [] then e
    else if members[0].value.Leaf? && members[0].value.scalar.Text? then
      var v := members[0].value.scalar.text;
      EntryStrings(if members[0].name == "protected" then e.(protectedHeader := v) else e.(signature := v),
                   members[1..])
    else e
  }

  lemma {:induction false} EntryMembersFit(s: State, members: seq<Member>, l: Limits)
    requires In(s, SignatureObject)
    requires s.members <= l.maxMembers && s.values <= l.maxValues
    requires s.have.protectedHeader <==> "protected" in Top(s).names
    requires s.have.signature <==> "signature" in Top(s).names
    ensures var t := EntryMembers(s, members, l);
            && (t.Success? <==>
                  (EntryFits(members, Top(s).names, l)
                   && s.members + |members| <= l.maxMembers && s.values + |members| <= l.maxValues))
            && (t.Success? ==>
                  && In(t.value, SignatureObject) && Pop(t.value).stack == Pop(s).stack
                  && t.value.envelope == EntryStrings(s.envelope, members)
                  && t.value.members == s.members + |members| && t.value.values == s.values + |members|
                  && t.value.have == s.have.(protectedHeader := "protected" in Top(s).names + Names(members),
                                             signature := "signature" in Top(s).names + Names(members)))
    decreases members
  {
    if members == [] {
      assert Names(members) == {};
    } else {
      NamesStep(members);
      EntryMemberFits(s, members[0], l);
      hide EntryMember, Step, EntryAdmits;
      var t := EntryMember(s, members[0], l);
      if t.Success? {
        EntryMembersFit(t.value, members[1..], l);
      }
    }
  }

  lemma NamesStep(members: seq<Member>)
    requires members != []
    ensures Names(members) == {members[0].name} + Names(members[1..])
  {
    forall name | name in Names(members)
      ensures name in {members[0].name} + Names(members[1..])
    {
      var i :| 0 <= i < |members| && members[i].name == name;
      if i > 0 {
        assert members[1..][i - 1].name == name;
      }
    }
    forall name | name in {members[0].name} + Names(members[1..])
      ensures name in Names(members)
    {
      if name != members[0].name {
        var i :| 0 <= i < |members[1..]| && members[1..][i].name == name;
        assert members[i + 1].name == name;
      } else {
        assert members[0].name in Names(members);
      }
    }
  }

  lemma EntryMemberFits(s: State, m: Member, l: Limits)
    requires In(s, SignatureObject)
    requires s.have.protectedHeader <==> "protected" in Top(s).names
    requires s.have.signature <==> "signature" in Top(s).names
    ensures var t := EntryMember(s, m, l);
            && (t.Success? <==>
                  EntryAdmits(m, Top(s).names, l) && s.members + 1 <= l.maxMembers && s.values + 1 <= l.maxValues)
            && (t.Success? ==>
                  && In(t.value, SignatureObject) && Pop(t.value).stack == Pop(s).stack
                  && Top(t.value).names == Top(s).names + {m.name}
                  && t.value.envelope == EntryStrings(s.envelope, [m])
                  && t.value.members == s.members + 1 && t.value.values == s.values + 1
                  && t.value.have == s.have.(protectedHeader := "protected" in Top(t.value).names,
                                             signature := "signature" in Top(t.value).names))
  {
    assert [m][1..] == [];
  }

  /** A complete entry: both names, each once, both strings. */
  predicate EntryComplete(members: seq<Member>, l: Limits) {
    EntryFits(members, {}, l) && Names(members) == SIGNATURE_NAMES
  }

  /** The names are new, distinct and allowed. */
  predicate FreshIn(members: seq<Member>, taken: set<string>, allowed: set<string>)
    decreases members
  {
    members == []
    || (members[0].name in allowed - taken && FreshIn(members[1..], taken + {members[0].name}, allowed))
  }

  lemma {:induction false} CountNames(members: seq<Member>, taken: set<string>, allowed: set<string>)
    requires FreshIn(members, taken, allowed)
    ensures Names(members) <= allowed - taken && |Names(members)| == |members|
    decreases members
  {
    if members == [] {
      assert Names(members) == {};
    } else {
      CountNames(members[1..], taken + {members[0].name}, allowed);
      NamesStep(members);
    }
  }

  lemma SubsetOfEqualSize(a: set<string>, b: set<string>)
    requires a <= b
    ensures |a| <= |b| && (a == b <==> |a| == |b|)
  {
    assert b == a + (b - a);
  }

  lemma {:induction false} EntryFresh(members: seq<Member>, taken: set<string>, l: Limits)
    requires EntryFits(members, taken, l)
    ensures FreshIn(members, taken, SIGNATURE_NAMES)
    decreases members
  {
    if members != [] {
      EntryFresh(members[1..], taken + {members[0].name}, l);
    }
  }

  lemma EntryHasTwo(members: seq<Member>, l: Limits)
    requires EntryFits(members, {}, l)
    ensures Names(members) <= SIGNATURE_NAMES
    ensures Names(members) == SIGNATURE_NAMES <==> |members| == 2
    ensures Names(members) == SIGNATURE_NAMES <==> "protected" in Names(members) && "signature" in Names(members)
  {
    EntryFresh(members, {}, l);
    CountNames(members, {}, SIGNATURE_NAMES);
    SubsetOfEqualSize(Names(members), SIGNATURE_NAMES);
  }

  /** The array of caller signatures, entered from the root object. */
  lemma SignaturesFit(s: State, items: seq<Node>, l: Limits)
    requires In(s, RootObject) && |s.stack| == 1 && Top(s).pending == "signatures"
    requires !s.have.protectedHeader && !s.have.signature
    requires s.members <= l.maxMembers && s.values <= l.maxValues
    ensures var t := Signatures(s, items, l);
            && (t.Success? <==>
                  (|items| == 1 && items[0].Record? && EntryComplete(items[0].members, l) && l.maxDepth >= 3
                   && s.members + 2 <= l.maxMembers && s.values + 4 <= l.maxValues))
            && (t.Success? ==>
                  && t.value.stack == [Top(s).(pending := "")]
                  && t.value.envelope == EntryStrings(s.envelope, items[0].members)
                  && t.value.members == s.members + 2 && t.value.values == s.values + 4
                  && t.value.have == s.have.(signatures := true, protectedHeader := true, signature := true))
  {
    hide EntryMembers, EntryFits, EntryStrings;
    var inner := Step(s, OnStartArray, l);
    if inner.Success? && items != [] && items[0].Record? {
      var entry := Step(inner.value, OnStartObject, l);
      if entry.Success? {
        var members := items[0].members;
        EntryMembersFit(entry.value, members, l);
        EntryKeepsOuter(entry.value, members, l);
        var filled := EntryMembers(entry.value, members, l);
        assert {} + Names(members) == Names(members);
        if EntryFits(members, {}, l) {
          EntryHasTwo(members, l);
        }
        if filled.Success? {
          var closed := Step(filled.value, OnEndObject, l);
          if closed.Success? {
            assert closed.value.stack == Pop(entry.value).stack;
            SecondEntryRefused(closed.value, items[1..], l);
          }
        }
      }
    }
    if inner.Success? && items != [] && !items[0].Record? {
      EntryMustBeObject(inner.value, items, l);
    }
  }

  lemma EntryMustBeObject(s: State, items: seq<Node>, l: Limits)
    requires In(s, SignaturesArray) && items != [] && !items[0].Record?
    ensures Items(s, items, l).Failure?
  {
  }

  lemma SecondEntryRefused(s: State, items: seq<Node>, l: Limits)
    requires In(s, SignaturesArray) && Top(s).items == 1
    ensures items == [] ==> Items(s, items, l) == Success(s)
    ensures items != [] ==> Items(s, items, l).Failure?
  {
  }

  // ---- the members of the root, declaratively

  predicate RootAdmits(m: Member, taken: set<string>, l: Limits) {
    && |m.name| <= l.maxKeyBytes && m.name in ROOT_NAMES - taken
    && if m.name == "signatures" then
         && m.value.List? && |m.value.items| == 1 && m.value.items[0].Record?
         && EntryComplete(m.value.items[0].members, l) && l.maxDepth >= 3
       else m.value.Leaf? && m.value.scalar.Text?
  }

  predicate RootFits(members: seq<Member>, taken: set<string>, l: Limits)
    decreases members
  {
    members == [] || (RootAdmits(members[0], taken, l) && RootFits(members[1..], taken + {members[0].name}, l))
  }

  function RootString(e: Envelope, m: Member): Envelope {
    if m.value.List? && m.value.items != [] && m.value.items[0].Record? then EntryStrings(e, m.value.items[0].members)
    else if m.value.Leaf? && m.value.scalar.Text? then
      if m.name == "payload" then e.(payload := m.value.scalar.text) else e.(evidence := m.value.scalar.text)
    else e
  }

  function RootStrings(e: Envelope, members: seq<Member>): Envelope
    decreases members
  {
    if members == [] then e else RootStrings(RootString(e, members[0]), members[1..])
  }

  /** The flags say which names have been completed. */
  function FlagsOf(names: set<string>): Flags {
    var entry := "signatures" in names;
    Flags("payload" in names, entry, "credbind_evidence" in names, entry, entry)
  }

  /** Members and values an entry needs on top of one for every root member. */
  function ExtraMembers(names: set<string>): nat {
    if "signatures" in names then 2 else 0
  }

  function ExtraValues(names: set<string>): nat {
    if "signatures" in names then 3 else 0
  }

  /** What a run over one root member does, given whether it is accepted. */
  predicate RootMemberEffect(s: State, m: Member, l: Limits, t: Result<State>)
    requires s.stack != []
  {
    && (t.Success? <==>
          (&& RootAdmits(m, Top(s).names, l)
           && s.members + 1 + ExtraMembers({m.name}) <= l.maxMembers
           && s.values + 1 + ExtraValues({m.name}) <= l.maxValues))
    && (t.Success? ==>
          && In(t.value, RootObject) && |t.value.stack| == 1
          && Top(t.value).names == Top(s).names + {m.name}
          && t.value.envelope == RootString(s.envelope, m)
          && t.value.members == s.members + 1 + ExtraMembers({m.name})
          && t.value.values == s.values + 1 + ExtraValues({m.name})
          && t.value.have == FlagsOf(Top(t.value).names))
  }

  lemma RootMemberFits(s: State, m: Member, l: Limits)
    requires In(s, RootObject) && |s.stack| == 1 && s.have == FlagsOf(Top(s).names)
    requires s.members <= l.maxMembers && s.values <= l.maxValues
    ensures RootMemberEffect(s, m, l, RootMember(s, m, l))
  {
    if m.name == "signatures" && m.value.List? {
      SignaturesMemberFits(s, m, l);
    } else {
      ScalarMemberFits(s, m, l);
    }
  }

  lemma ThreeNames()
    ensures "payload" != "signatures" && "payload" != "credbind_evidence" && "signatures" != "credbind_evidence"
  {
    assert "payload"[0] != "signatures"[0] && "payload"[0] != "credbind_evidence"[0]
           && "signatures"[0] != "credbind_evidence"[0];
  }

  lemma SignaturesMemberFits(s: State, m: Member, l: Limits)
    requires In(s, RootObject) && |s.stack| == 1 && s.have == FlagsOf(Top(s).names)
    requires s.members <= l.maxMembers && s.values <= l.maxValues
    requires m.name == "signatures" && m.value.List?
    ensures RootMemberEffect(s, m, l, RootMember(s, m, l))
  {
    var keyed := Step(s, OnKey(m.name), l);
    if keyed.Success? {
      SignaturesFit(keyed.value, m.value.items, l);
    }
    hide Signatures, EntryComplete, EntryStrings;
  }

  lemma ScalarMemberFits(s: State, m: Member, l: Limits)
    requires In(s, RootObject) && |s.stack| == 1 && s.have == FlagsOf(Top(s).names)
    requires s.members <= l.maxMembers && s.values <= l.maxValues
    requires !(m.name == "signatures" && m.value.List?)
    ensures RootMemberEffect(s, m, l, RootMember(s, m, l))
  {
    hide Signatures, EntryComplete, EntryStrings;
    var keyed := Step(s, OnKey(m.name), l);
    match m.value {
      case Leaf(v) => LeafMemberFits(s, m, l);
      case Record(_) => assert RootMember(s, m, l).Failure?;
      case List(items) =>
        if keyed.Success? {
          OnlySignaturesIsAnArray(keyed.value, items, l);
        }
        assert RootMember(s, m, l).Failure?;
    }
  }

  lemma RootKeyStep(s: State, name: string, l: Limits)
    requires In(s, RootObject) && |s.stack| == 1
    ensures var t := Step(s, OnKey(name), l);
            && (t.Success? <==> (s.members + 1 <= l.maxMembers && |name| <= l.maxKeyBytes
                                 && name in ROOT_NAMES - Top(s).names))
            && (t.Success? ==>
                  t.value == s.(stack := [Top(s).(names := Top(s).names + {name}, pending := name)],
                                members := s.members + 1))
  {
  }

  lemma RootStringStep(s: State, v: Scalar, l: Limits)
    requires In(s, RootObject) && |s.stack| == 1
    ensures var t := Step(s, OnScalar(v), l);
            && (t.Success? <==>
                  s.values + 1 <= l.maxValues && v.Text? && Top(s).pending in {"payload", "credbind_evidence"})
            && (t.Success? ==>
                  && t.value.stack == [Top(s).(pending := "")] && t.value.members == s.members
                  && t.value.values == s.values + 1
                  && t.value.envelope == RootString(s.envelope, Member(Top(s).pending, Leaf(v)))
                  && t.value.have == if Top(s).pending == "payload" then s.have.(payload := true)
                     else s.have.(evidence := true))
  {
    ThreeNames();
  }

  lemma LeafMemberFits(s: State, m: Member, l: Limits)
    requires In(s, RootObject) && |s.stack| == 1 && s.have == FlagsOf(Top(s).names)
    requires m.value.Leaf?
    ensures RootMemberEffect(s, m, l, RootMember(s, m, l))
  {
    ThreeNames();
    RootKeyStep(s, m.name, l);
    var keyed := Step(s, OnKey(m.name), l);
    if keyed.Success? {
      RootStringStep(keyed.value, m.value.scalar, l);
    }
    hide Step, RootString, EntryComplete;
  }

  lemma OnlySignaturesIsAnArray(s: State, items: seq<Node>, l: Limits)
    requires In(s, RootObject) && Top(s).pending != "signatures"
    ensures Signatures(s, items, l).Failure?
  {
  }

  lemma {:induction false} RootMembersFit(s: State, members: seq<Member>, l: Limits)
    requires In(s, RootObject) && |s.stack| == 1 && s.have == FlagsOf(Top(s).names)
    requires s.members <= l.maxMembers && s.values <= l.maxValues
    ensures var t := RootMembers(s, members, l);
            && (t.Success? <==>
                  (&& RootFits(members, Top(s).names, l)
                   && s.members + |members| + ExtraMembers(Names(members)) <= l.maxMembers
                   && s.values + |members| + ExtraValues(Names(members)) <= l.maxValues))
            && (t.Success? ==>
                  && In(t.value, RootObject) && |t.value.stack| == 1
                  && t.value.envelope == RootStrings(s.envelope, members)
                  && t.value.have == FlagsOf(Top(s).names + Names(members)))
    decreases members
  {
    if members == [] {
      assert Names(members) == {};
    } else {
      NamesStep(members);
      RootMemberFits(s, members[0], l);
      var rest, taken := members[1..], Top(s).names + {members[0].name};
      if RootFits(rest, taken, l) {
        ExtraSplit(members, taken, l);
      }
      hide RootMember, RootAdmits, RootString, ExtraMembers, ExtraValues, FlagsOf, Names;
      var t := RootMember(s, members[0], l);
      if t.Success? {
        assert taken + Names(rest) == Top(s).names + Names(members);
        RootMembersFit(t.value, rest, l);
      }
    }
  }

  lemma ExtraSplit(members: seq<Member>, taken: set<string>, l: Limits)
    requires members != [] && members[0].name in taken && RootFits(members[1..], taken, l)
    ensures ExtraMembers(Names(members)) == ExtraMembers({members[0].name}) + ExtraMembers(Names(members[1..]))
    ensures ExtraValues(Names(members)) == ExtraValues({members[0].name}) + ExtraValues(Names(members[1..]))
  {
    NamesStep(members);
    RootFresh(members[1..], taken, l);
    CountNames(members[1..], taken, ROOT_NAMES);
  }

  lemma {:induction false} RootFresh(members: seq<Member>, taken: set<string>, l: Limits)
    requires RootFits(members, taken, l)
    ensures FreshIn(members, taken, ROOT_NAMES)
    decreases members
  {
    if members != [] {
      RootFresh(members[1..], taken + {members[0].name}, l);
    }
  }

  lemma RootHasThree(members: seq<Member>, l: Limits)
    requires RootFits(members, {}, l)
    ensures Names(members) <= ROOT_NAMES
    ensures Names(members) == ROOT_NAMES <==> |members| == 3
    ensures (Names(members) == ROOT_NAMES <==>
             ("payload" in Names(members) && "signatures" in Names(members) && "credbind_evidence" in Names(members)))
  {
    RootFresh(members, {}, l);
    CountNames(members, {}, ROOT_NAMES);
    SubsetOfEqualSize(Names(members), ROOT_NAMES);
  }

  /** The whole run: three members that fit, and room for what they hold. */
  lemma ParseFits(n: Node, l: Limits)
    ensures var p := Parse(Events(n, []), l);
            && (p.Success? <==>
                  (&& ValidLimits(l) && n.Record? && RootFits(n.members, {}, l) && |n.members| == 3
                   && l.maxMembers >= 5 && l.maxValues >= 7))
            && (p.Success? ==> p.value == RootStrings(EMPTY, n.members))
  {
    match n {
      case Leaf(v) => RunStep(INITIAL, OnScalar(v), [], l);
      case List(items) => RunStep(INITIAL, OnStartArray, ItemEvents(items, [OnEndArray]), l);
      case Record(members) =>
        if ValidLimits(l) {
          RecordFits(members, l);
        }
    }
  }

  lemma RecordFits(members: seq<Member>, l: Limits)
    requires ValidLimits(l)
    ensures var p := Run(INITIAL, Events(Record(members), []), l);
            && (p.Success? <==>
                  RootFits(members, {}, l) && |members| == 3 && l.maxMembers >= 5 && l.maxValues >= 7)
            && (p.Success? ==> p.value.envelope == RootStrings(EMPTY, members))
  {
    assert [OnEndObject] + [] == [OnEndObject];
    RunStep(INITIAL, OnStartObject, MemberEvents(members, [OnEndObject]), l);
    var inner := Step(INITIAL, OnStartObject, l).value;
    RunRootMembers(inner, members, [OnEndObject], l);
    RootMembersFit(inner, members, l);
    assert Top(inner).names + Names(members) == Names(members);
    if RootFits(members, {}, l) {
      RootHasThree(members, l);
    }
    hide RootFits, RootMembers, RootStrings, Events, MemberEvents;
    var filled := RootMembers(inner, members, l);
    if filled.Success? {
      RunStep(filled.value, OnEndObject, [], l);
    }
  }

  // ---- the two descriptions agree

  lemma {:induction false} EntryStringsAt(e: Envelope, members: seq<Member>, taken: set<string>, l: Limits)
    requires EntryFits(members, taken, l)
    ensures var r := EntryStrings(e, members);
            && r.payload == e.payload && r.evidence == e.evidence
            && ("protected" in taken ==> r.protectedHeader == e.protectedHeader)
            && ("signature" in taken ==> r.signature == e.signature)
            && forall m :: m in members ==>
                 || m == Member("protected", Leaf(Text(r.protectedHeader)))
                 || m == Member("signature", Leaf(Text(r.signature)))
    decreases members
  {
    if members != [] {
      var m := members[0];
      var next := if m.name == "protected" then e.(protectedHeader := m.value.scalar.text)
                  else e.(signature := m.value.scalar.text);
      EntryStringsAt(next, members[1..], taken + {m.name}, l);
      assert members == [m] + members[1..];
    }
  }

  lemma CompleteEntryIsSignature(e: Envelope, members: seq<Member>, l: Limits)
    requires EntryComplete(members, l)
    ensures IsSignature(Record(members), EntryStrings(e, members))
  {
    EntryHasTwo(members, l);
    EntryStringsAt(e, members, {}, l);
    var r := EntryStrings(e, members);
    hide EntryStrings, EntryFits;
    assert "protected" in Names(members) && "signature" in Names(members);
    var i :| 0 <= i < |members| && members[i].name == "protected";
    var j :| 0 <= j < |members| && members[j].name == "signature";
    assert members[i] in members && members[j] in members;
  }

  lemma SignatureIsCompleteEntry(e: Envelope, members: seq<Member>, l: Limits)
    requires IsSignature(Record(members), e) && l.maxKeyBytes >= 9
    ensures EntryComplete(members, l)
    ensures EntryStrings(e, members) == e
  {
    var p, s := Member("protected", Leaf(Text(e.protectedHeader))), Member("signature", Leaf(Text(e.signature)));
    assert "protected" != "signature" by {
      assert "protected"[0] != "signature"[0];
    }
    assert members == [members[0], members[1]];
    assert p in members && s in members;
    assert (members[0] == p && members[1] == s) || (members[0] == s && members[1] == p);
    assert members[1..][1..] == [] && members[1..][0] == members[1];
    assert EntryFits(members[1..], {} + {members[0].name}, l);
    assert EntryFits(members, {}, l);
    EntryHasTwo(members, l);
    EntryStringsAt(e, members, {}, l);
    assert EntryStrings(e, members).protectedHeader == e.protectedHeader;
  }

  /** What one fitting root member contributes. */
  ghost predicate RootHolds(m: Member, e: Envelope) {
    || m == Member("payload", Leaf(Text(e.payload)))
    || m == Member("credbind_evidence", Leaf(Text(e.evidence)))
    || exists entry :: m == Member("signatures", List([entry])) && IsSignature(entry, e)
  }

  predicate AgreeOn(a: Envelope, b: Envelope, names: set<string>) {
    && ("payload" in names ==> a.payload == b.payload)
    && ("credbind_evidence" in names ==> a.evidence == b.evidence)
    && ("signatures" in names ==> a.protectedHeader == b.protectedHeader && a.signature == b.signature)
  }

  lemma RootStringHolds(e: Envelope, m: Member, taken: set<string>, l: Limits)
    requires RootAdmits(m, taken, l)
    ensures RootHolds(m, RootString(e, m))
    ensures AgreeOn(RootString(e, m), e, taken)
  {
    if m.name == "signatures" {
      var entry := m.value.items[0];
      CompleteEntryIsSignature(e, entry.members, l);
      EntryStringsAt(e, entry.members, {}, l);
      assert m.value.items == [entry];
    }
  }

  lemma HoldsIsLocal(m: Member, a: Envelope, b: Envelope)
    requires RootHolds(m, a) && AgreeOn(b, a, {m.name})
    ensures RootHolds(m, b)
  {
    if exists entry :: m == Member("signatures", List([entry])) && IsSignature(entry, a) {
      var entry :| m == Member("signatures", List([entry])) && IsSignature(entry, a);
      assert IsSignature(entry, b);
    }
  }

  lemma {:induction false} RootStringsAt(e: Envelope, members: seq<Member>, taken: set<string>, l: Limits)
    requires RootFits(members, taken, l)
    ensures AgreeOn(RootStrings(e, members), e, taken)
    ensures forall m :: m in members ==> RootHolds(m, RootStrings(e, members))
    decreases members
  {
    if members != [] {
      var m, r := members[0], RootStrings(e, members);
      RootStringHolds(e, m, taken, l);
      RootStringsAt(RootString(e, m), members[1..], taken + {m.name}, l);
      HoldsIsLocal(m, RootString(e, m), r);
      assert members == [m] + members[1..];
    }
  }

  lemma FittingRootIsEnvelope(members: seq<Member>, l: Limits)
    requires RootFits(members, {}, l) && |members| == 3
    ensures IsEnvelope(Record(members), RootStrings(EMPTY, members)) && l.maxDepth >= 3 && l.maxKeyBytes >= 17
  {
    var r := RootStrings(EMPTY, members);
    RootHasThree(members, l);
    RootStringsAt(EMPTY, members, {}, l);
    Admitted(members, {}, l);
    hide RootFits, RootStrings, EntryComplete, IsSignature;
    assert "payload" in Names(members) && "signatures" in Names(members) && "credbind_evidence" in Names(members);
    var i :| 0 <= i < |members| && members[i].name == "payload";
    var j :| 0 <= j < |members| && members[j].name == "signatures";
    var k :| 0 <= k < |members| && members[k].name == "credbind_evidence";
    assert members[i] in members && members[j] in members && members[k] in members;
    assert RootHolds(members[i], r) && RootHolds(members[j], r) && RootHolds(members[k], r);
  }

  lemma {:induction false} Admitted(members: seq<Member>, taken: set<string>, l: Limits)
    requires RootFits(members, taken, l)
    ensures forall m :: m in members ==> RootAdmits(m, {}, l)
    decreases members
  {
    if members != [] {
      Admitted(members[1..], taken + {members[0].name}, l);
      assert members == [members[0]] + members[1..];
    }
  }

  lemma EnvelopeFits(members: seq<Member>, e: Envelope, l: Limits)
    requires IsEnvelope(Record(members), e) && l.maxDepth >= 3 && l.maxKeyBytes >= 17
    ensures RootFits(members, {}, l)
    ensures RootStrings(EMPTY, members) == e
  {
    var entry :| IsSignature(entry, e) && Member("signatures", List([entry])) in members;
    SignatureIsCompleteEntry(e, entry.members, l);
    var p, s, v := Member("payload", Leaf(Text(e.payload))), Member("signatures", List([entry])),
                   Member("credbind_evidence", Leaf(Text(e.evidence)));
    ThreeNames();
    hide EntryComplete, EntryStrings, IsSignature;
    assert RootAdmits(p, {}, l) && RootAdmits(s, {}, l) && RootAdmits(v, {}, l);
    ThreeOf(members, p, s, v);
    ThreeFit(members, l);
    RootStringsAt(EMPTY, members, {}, l);
    var r := RootStrings(EMPTY, members);
    assert RootHolds(p, r) && RootHolds(s, r) && RootHolds(v, r);
    SameSignature(entry, r, e);
  }

  lemma ThreeOf(members: seq<Member>, a: Member, b: Member, c: Member)
    requires |members| == 3 && a in members && b in members && c in members
    requires a != b && a != c && b != c
    ensures forall m :: m in members ==> m in {a, b, c}
    ensures members[0] != members[1] && members[0] != members[2] && members[1] != members[2]
  {
  }

  lemma ThreeFit(members: seq<Member>, l: Limits)
    requires |members| == 3
    requires RootAdmits(members[0], {}, l) && RootAdmits(members[1], {}, l) && RootAdmits(members[2], {}, l)
    requires members[0].name != members[1].name && members[0].name != members[2].name
             && members[1].name != members[2].name
    ensures RootFits(members, {}, l)
  {
    hide EntryComplete;
    var one, two := {} + {members[0].name}, {} + {members[0].name} + {members[1].name};
    assert members[1..][1..][1..] == [] && members[1..][0] == members[1] && members[1..][1..][0] == members[2];
    assert RootFits(members[1..][1..], two, l);
    assert RootFits(members[1..], one, l);
  }

  lemma SameSignature(entry: Node, a: Envelope, b: Envelope)
    requires IsSignature(entry, a) && IsSignature(entry, b)
    ensures a.protectedHeader == b.protectedHeader && a.signature == b.signature
  {
    assert "protected"[0] != "signature"[0];
    var members := entry.members;
    var i :| 0 <= i < |members| && members[i] == Member("protected", Leaf(Text(a.protectedHeader)));
    var j :| 0 <= j < |members| && members[j] == Member("signature", Leaf(Text(a.signature)));
    assert members == [members[0], members[1]];
  }

  /** The automaton accepts exactly the envelopes, when the limits have room for one, and returns their strings. */
  lemma ParseAcceptsExactlyEnvelopes(n: Node, e: Envelope, l: Limits)
    ensures Parse(Events(n, []), l) == Success(e) <==> Roomy(l) && IsEnvelope(n, e)
  {
    ParseFits(n, l);
    hide Parse, RootFits, RootStrings;
    if n.Record? && RootFits(n.members, {}, l) && |n.members| == 3 {
      FittingRootIsEnvelope(n.members, l);
    }
    if Roomy(l) && IsEnvelope(n, e) {
      EnvelopeFits(n.members, e, l);
    }
  }

  /** An envelope is read as one set of strings only. */
  lemma OneReading(n: Node, a: Envelope, b: Envelope)
    requires IsEnvelope(n, a) && IsEnvelope(n, b)
    ensures a == b
  {
    var roomy := Limits(3, 5, 7, 17);
    ParseAcceptsExactlyEnvelopes(n, a, roomy);
    ParseAcceptsExactlyEnvelopes(n, b, roomy);
  }

  // ---- the handler

  class Handler {
    const limits: Limits
    var stack: seq<Context>
    var envelope: Envelope
    var members: nat
    var values: nat
    var failed: bool
    var failure: Kind
    var havePayload: bool
    var haveSignatures: bool
    var haveEvidence: bool
    var haveProtected: bool
    var haveSignature: bool

    function Abstract(): State
      reads this
    {
      State(stack, envelope, Flags(havePayload, haveSignatures, haveEvidence, haveProtected, haveSignature), members,
            values)
    }

    /** No failure yet; the kind a silent `false` reports is the default. */
    predicate Running()
      reads this
    {
      !failed && failure == MalformedInput
    }

    function Outcome(ok: bool): Result<State>
      reads this
    {
      if ok then Success(Abstract()) else Failure(failure)
    }

    constructor (l: Limits)
      ensures limits == l && Running() && Abstract() == INITIAL
    {
      limits, stack, envelope, members, values := l, [], EMPTY, 0, 0;
      failed, failure := false, MalformedInput;
      havePayload, haveSignatures, haveEvidence, haveProtected, haveSignature := false, false, false, false, false;
    }

    method Fail(kind: Kind) returns (ok: bool)
      requires Running()
      modifies this`failed, this`failure
      ensures !ok && failed && failure == kind
    {
      if !failed {
        failure, failed := kind, true;
      }
      ok := false;
    }

    method CountValue() returns (ok: bool)
      requires Running()
      modifies this`values, this`failed, this`failure
      ensures Abstract() == Counted(old(Abstract()))
      ensures ok <==> values <= limits.maxValues
      ensures if ok then Running() else failure == ResourceLimit
    {
      values := values + 1;
      if values <= limits.maxValues {
        ok := true;
      } else {
        ok := Fail(ResourceLimit);
      }
    }

    method CountContainer() returns (ok: bool)
      requires Running()
      modifies this`values, this`failed, this`failure
      ensures Abstract() == Counted(old(Abstract()))
      ensures ok <==> values <= limits.maxValues && |stack| + 1 <= limits.maxDepth
      ensures if ok then Running() else failure == ResourceLimit
    {
      ok := CountValue();
      if ok && |stack| + 1 > limits.maxDepth {
        ok := Fail(ResourceLimit);
      }
    }

    method WrongScalarType(v: Scalar) returns (ok: bool)
      requires Running() && !v.Text?
      modifies this
      ensures !ok && Outcome(ok) == Step(old(Abstract()), OnScalar(v), limits)
    {
      ok := CountValue();
      if ok {
        ok := Fail(MalformedInput);
      }
    }

    method String(v: string) returns (ok: bool)
      requires Running()
      modifies this
      ensures Outcome(ok) == Step(old(Abstract()), OnScalar(Text(v)), limits)
      ensures ok ==> Running()
    {
      ok := CountValue();
      if !ok {
        return;
      }
      if stack == [] {
        ok := Fail(MalformedInput);
        return;
      }
      var context := stack[|stack| - 1];
      match context.kind {
        case RootObject =>
          if context.pending == "payload" {
            envelope, havePayload := envelope.(payload := v), true;
          } else if context.pending == "credbind_evidence" {
            envelope, haveEvidence := envelope.(evidence := v), true;
          } else {
            ok := Fail(MalformedInput);
            return;
          }
        case SignatureObject =>
          if context.pending == "protected" {
            envelope, haveProtected := envelope.(protectedHeader := v), true;
          } else if context.pending == "signature" {
            envelope, haveSignature := envelope.(signature := v), true;
          } else {
            ok := Fail(MalformedInput);
            return;
          }
        case SignaturesArray =>
          ok := Fail(MalformedInput);
          return;
      }
      stack := stack[..|stack| - 1] + [context.(pending := "")];
    }

    method StartObject() returns (ok: bool)
      requires Running()
      modifies this
      ensures Outcome(ok) == Step(old(Abstract()), OnStartObject, limits)
      ensures ok ==> Running()
    {
      ok := CountContainer();
      if !ok {
        return;
      }
      if stack == [] {
        stack := [Context(RootObject, {}, "", 0)];
        return;
      }
      var parent := stack[|stack| - 1];
      if parent.kind != SignaturesArray {
        ok := Fail(MalformedInput);
        return;
      }
      stack := stack[..|stack| - 1] + [parent.(items := parent.items + 1)];
      if parent.items + 1 > 1 {
        ok := Fail(MalformedInput);
        return;
      }
      stack := stack + [Context(SignatureObject, {}, "", 0)];
    }

    method Key(name: string) returns (ok: bool)
      requires Running()
      modifies this
      ensures Outcome(ok) == Step(old(Abstract()), OnKey(name), limits)
      ensures ok ==> Running()
    {
      if stack == [] || stack[|stack| - 1].kind == SignaturesArray {
        ok := Fail(MalformedInput);
        return;
      }
      members := members + 1;
      if members > limits.maxMembers || |name| > limits.maxKeyBytes {
        ok := Fail(ResourceLimit);
        return;
      }
      var context := stack[|stack| - 1];
      if name in context.names {
        ok := Fail(MalformedInput);
        return;
      }
      if context.kind == RootObject {
        if name != "payload" && name != "signatures" && name != "credbind_evidence" {
          ok := Fail(MalformedInput);
          return;
        }
      } else if name != "protected" && name != "signature" {
        ok := Fail(MalformedInput);
        return;
      }
      stack := stack[..|stack| - 1] + [context.(names := context.names + {name}, pending := name)];
      ok := true;
    }

    method EndObject() returns (ok: bool)
      requires Running()
      modifies this
      ensures Outcome(ok) == Step(old(Abstract()), OnEndObject, limits)
      ensures ok ==> Running()
    {
      if stack == [] {
        ok := Fail(MalformedInput);
        return;
      }
      var kind := stack[|stack| - 1].kind;
      if kind == RootObject {
        if !havePayload || !haveSignatures || !haveEvidence {
          ok := Fail(MalformedInput);
          return;
        }
      } else if kind == SignatureObject {
        if !haveProtected || !haveSignature {
          ok := Fail(MalformedInput);
          return;
        }
      } else {
        ok := Fail(MalformedInput);
        return;
      }
      stack := stack[..|stack| - 1];
      ok := true;
    }

    method StartArray() returns (ok: bool)
      requires Running()
      modifies this
      ensures Outcome(ok) == Step(old(Abstract()), OnStartArray, limits)
      ensures ok ==> Running()
    {
      ok := CountContainer();
      if !ok || stack == [] {
        return false;
      }
      var parent := stack[|stack| - 1];
      if parent.kind != RootObject || parent.pending != "signatures" {
        ok := Fail(MalformedInput);
        return;
      }
      haveSignatures := true;
      stack := stack[..|stack| - 1] + [parent.(pending := "")];
      stack := stack + [Context(SignaturesArray, {}, "", 0)];
    }

    method EndArray() returns (ok: bool)
      requires Running()
      modifies this
      ensures Outcome(ok) == Step(old(Abstract()), OnEndArray, limits)
      ensures ok ==> Running()
    {
      if stack == [] || stack[|stack| - 1].kind != SignaturesArray {
        ok := Fail(MalformedInput);
        return;
      }
      if stack[|stack| - 1].items != 1 {
        ok := Fail(MalformedInput);
        return;
      }
      stack := stack[..|stack| - 1];
      ok := true;
    }

    method Handle(e: Event) returns (ok: bool)
      requires Running()
      modifies this
      ensures Outcome(ok) == Step(old(Abstract()), e, limits)
      ensures ok ==> Running()
    {
      match e {
        case OnScalar(v) =>
          if v.Text? {
            ok := String(v.text);
          } else {
            ok := WrongScalarType(v);
          }
        case OnStartObject => ok := StartObject();
        case OnKey(name) => ok := Key(name);
        case OnEndObject => ok := EndObject();
        case OnStartArray => ok := StartArray();
        case OnEndArray => ok := EndArray();
      }
    }
  }

  /** The tokenizer drives a fresh handler until it is done or a callback returns false. */
  method ParseEvents(events: seq<Event>, limits: Limits) returns (r: Result<Envelope>)
    ensures r == Parse(events, limits)
  {
    hide Step;
    if limits.maxDepth == 0 || limits.maxMembers == 0 || limits.maxValues == 0 || limits.maxKeyBytes == 0 {
      return Failure(ResourceLimit);
    }
    var handler := new Handler(limits);
    var index := 0;
    var parsed := true;
    assert events[0..] == events;
    while index < |events| && parsed
      invariant 0 <= index <= |events| && fresh(handler) && handler.limits == limits
      invariant parsed ==>
                  handler.Running() && Run(INITIAL, events, limits) == Run(handler.Abstract(), events[index..], limits)
      invariant !parsed ==> Run(INITIAL, events, limits) == Failure(handler.failure)
    {
      assert events[index..][0] == events[index] && events[index..][1..] == events[index + 1..];
      parsed := handler.Handle(events[index]);
      index := index + 1;
    }
    if !parsed || handler.failed {
      return Failure(handler.failure);
    }
    r := Success(handler.envelope);
  }
}
