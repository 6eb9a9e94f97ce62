/** Documents that write the same tree: whatever the order of their members, they have the same measures, and the
    bounded builders treat them alike. */
module Writings {
  import opened Errors
  import opened JsonTrees
  import opened TreeBuilder

  /** No object repeats a member name. */
  predicate Unambiguous(n: Node)
    decreases n
  {
    match n
    case Leaf(_) => true
    case List(items) => forall i :: 0 <= i < |items| ==> Unambiguous(items[i])
    case Record(members) => Distinct(members) && forall i :: 0 <= i < |members| ==> Unambiguous(members[i].value)
  }

  predicate Writes(n: Node, t: Json) {
    Tree(n) == t && Unambiguous(n)
  }

  /** Two documents of one size in every respect that a builder counts. */
  predicate Alike(a: Node, b: Node, size: nat) {
    && Depth(a) == Depth(b) && MemberCount(a) == MemberCount(b) && ValueCount(a) == ValueCount(b)
    && (NamesFit(a, size) <==> NamesFit(b, size))
  }

  // ---- members without an order

  predicate UnambiguousMembers(members: seq<Member>) {
    Distinct(members) && forall i :: 0 <= i < |members| ==> Unambiguous(members[i].value)
  }

  predicate ShortMembers(members: seq<Member>, size: nat) {
    forall i :: 0 <= i < |members| ==> |members[i].name| <= size && NamesFit(members[i].value, size)
  }

  predicate AlikeMembers(a: seq<Member>, b: seq<Member>, size: nat) {
    && MembersDepth(a) == MembersDepth(b) && MembersMemberCount(a) == MembersMemberCount(b)
    && MembersValueCount(a) == MembersValueCount(b) && (ShortMembers(a, size) <==> ShortMembers(b, size))
  }

  function Without(members: seq<Member>, k: nat): seq<Member>
    requires k < |members|
  {
    members[..k] + members[k + 1..]
  }

  lemma FieldsStep(members: seq<Member>)
    requires members != []
    ensures Fields(members) == map[members[0].name := Tree(members[0].value)] + Fields(members[1..])
    ensures Names(members) == {members[0].name} + Names(members[1..])
  {
    hide Tree;
    assert forall i :: 0 < i < |members| ==> members[i] == members[1..][i - 1];
    assert forall i :: 0 <= i < |members[1..]| ==> members[1..][i] == members[i + 1];
  }

  lemma {:induction false} FieldsLookup(members: seq<Member>)
    requires Distinct(members)
    ensures Fields(members).Keys == Names(members)
    ensures forall i :: 0 <= i < |members| ==> Fields(members)[members[i].name] == Tree(members[i].value)
    decreases members
  {
    hide Tree, Fields;
    if members == [] {
      NoFields();
    } else {
      var rest := members[1..];
      assert forall i :: 0 <= i < |rest| ==> rest[i] == members[i + 1];
      FieldsLookup(rest);
      FieldsStep(members);
      forall i | 0 <= i < |members| ensures Fields(members)[members[i].name] == Tree(members[i].value) {
        if i > 0 {
          assert members[i] == rest[i - 1] && rest[i - 1].name in Names(rest);
        } else {
          assert members[0].name !in Names(rest);
        }
      }
    }
  }

  lemma NoFields()
    ensures Fields([]) == map[] && Names([]) == {}
  {
  }

  lemma WithoutIsUnambiguous(members: seq<Member>, k: nat)
    requires k < |members| && UnambiguousMembers(members)
    ensures UnambiguousMembers(Without(members, k))
  {
    hide Unambiguous;
    var rest := Without(members, k);
    assert forall i :: 0 <= i < |rest| ==> rest[i] == if i < k then members[i] else members[i + 1];
  }

  lemma NamesWithout(members: seq<Member>, k: nat)
    requires k < |members| && Distinct(members)
    ensures Names(Without(members, k)) == Names(members) - {members[k].name}
  {
    var rest, name := Without(members, k), members[k].name;
    assert forall i :: 0 <= i < |rest| ==> rest[i] == if i < k then members[i] else members[i + 1];
    assert forall i :: 0 <= i < |rest| ==> rest[i].name != name;
    forall n | n in Names(members) && n != name ensures n in Names(rest) {
      var i :| 0 <= i < |members| && members[i].name == n;
      assert rest[if i < k then i else i - 1].name == n;
    }
  }

  /** The members that are left have the fields they had. */
  lemma FieldsKept(members: seq<Member>, k: nat, n: string)
    requires k < |members| && UnambiguousMembers(members) && n in Names(Without(members, k))
    ensures n in Fields(members) && n in Fields(Without(members, k))
    ensures Fields(Without(members, k))[n] == Fields(members)[n]
  {
    hide Fields, Tree, Unambiguous;
    var rest := Without(members, k);
    WithoutIsUnambiguous(members, k);
    FieldsLookup(members);
    FieldsLookup(rest);
    var i :| 0 <= i < |rest| && rest[i].name == n;
    assert rest[i] == members[if i < k then i else i + 1];
  }

  lemma FieldsWithout(members: seq<Member>, k: nat)
    requires k < |members| && UnambiguousMembers(members)
    ensures Fields(Without(members, k)) == Fields(members) - {members[k].name}
    ensures members[k].name in Fields(members) && Fields(members)[members[k].name] == Tree(members[k].value)
  {
    hide Fields, Tree, Unambiguous, Names, Without, Distinct;
    var rest := Without(members, k);
    WithoutIsUnambiguous(members, k);
    FieldsLookup(members);
    FieldsLookup(rest);
    NamesWithout(members, k);
    NamesAreThose(members);
    forall n | n in Names(rest) ensures Fields(rest)[n] == Fields(members)[n] {
      FieldsKept(members, k, n);
    }
  }

  lemma NamesAreThose(members: seq<Member>)
    ensures forall n :: n in Names(members) <==> exists i :: 0 <= i < |members| && members[i].name == n
  {
  }

  lemma {:induction false} MeasuresWithout(members: seq<Member>, k: nat, size: nat)
    requires k < |members|
    ensures var n, rest := members[k].value, Without(members, k);
            && MembersDepth(members) == Max(Depth(n), MembersDepth(rest))
            && MembersMemberCount(members) == 1 + MemberCount(n) + MembersMemberCount(rest)
            && MembersValueCount(members) == ValueCount(n) + MembersValueCount(rest)
    decreases members
  {
    hide Depth, MemberCount, ValueCount;
    if k == 0 {
      assert Without(members, 0) == members[1..];
    } else {
      MeasuresWithout(members[1..], k - 1, size);
      assert Without(members, k)[1..] == Without(members[1..], k - 1);
    }
  }

  lemma ShortWithout(members: seq<Member>, k: nat, size: nat)
    requires k < |members|
    ensures ShortMembers(members, size) <==>
              |members[k].name| <= size && NamesFit(members[k].value, size) && ShortMembers(Without(members, k), size)
  {
    hide NamesFit;
    var rest := Without(members, k);
    assert forall i :: 0 <= i < |rest| ==> rest[i] == if i < k then members[i] else members[i + 1];
    assert forall i :: 0 <= i < |members| && i != k ==> members[i] == rest[if i < k then i else i - 1];
  }

  // ---- one tree, one size

  /** The size of a document is that of its tree: the order of members makes no difference. */
  lemma {:induction false} SameTreeSameSize(a: Node, b: Node, size: nat)
    requires Tree(a) == Tree(b) && Unambiguous(a) && Unambiguous(b)
    ensures Alike(a, b, size)
    decreases a
  {
    match a {
      case Leaf(_) =>
        assert b.Leaf?;
      case List(items) =>
        assert b.List?;
        SameItems(items, b.items, size);
      case Record(members) =>
        assert b.Record?;
        SameMembers(members, b.members, size);
    }
  }

  lemma {:induction false} SameItems(a: seq<Node>, b: seq<Node>, size: nat)
    requires Trees(a) == Trees(b)
    requires forall i :: 0 <= i < |a| ==> Unambiguous(a[i])
    requires forall i :: 0 <= i < |b| ==> Unambiguous(b[i])
    ensures ItemsDepth(a) == ItemsDepth(b) && ItemsMemberCount(a) == ItemsMemberCount(b)
    ensures ItemsValueCount(a) == ItemsValueCount(b)
    ensures (forall i :: 0 <= i < |a| ==> NamesFit(a[i], size)) <==> (forall i :: 0 <= i < |b| ==> NamesFit(b[i], size))
    decreases a
  {
    hide Unambiguous, NamesFit, Tree, Depth, MemberCount, ValueCount;
    if a != [] {
      assert |b| == |a| && Tree(a[0]) == Trees(a)[0] && Tree(b[0]) == Trees(b)[0];
      SameTreeSameSize(a[0], b[0], size);
      assert Trees(a[1..]) == Trees(a)[1..] && Trees(b[1..]) == Trees(b)[1..];
      SameItems(a[1..], b[1..], size);
      assert forall i :: 0 <= i < |a| ==> a[i] == if i == 0 then a[0] else a[1..][i - 1];
      assert forall i :: 0 <= i < |b| ==> b[i] == if i == 0 then b[0] else b[1..][i - 1];
    }
  }

  lemma {:induction false} SameMembers(a: seq<Member>, b: seq<Member>, size: nat)
    requires Fields(a) == Fields(b) && UnambiguousMembers(a) && UnambiguousMembers(b)
    ensures AlikeMembers(a, b, size)
    decreases a
  {
    hide Unambiguous, NamesFit, Tree, Fields, Depth, MemberCount, ValueCount, Distinct, Without, ShortMembers,
         MembersDepth, MembersMemberCount, MembersValueCount, UnambiguousMembers;
    SameNames(a, b);
    if a != [] {
      var k := Place(a, b);
      FieldsWithout(a, 0);
      FieldsWithout(b, k);
      WithoutIsUnambiguous(a, 0);
      WithoutIsUnambiguous(b, k);
      MeasuresWithout(a, 0, size);
      MeasuresWithout(b, k, size);
      ShortWithout(a, 0, size);
      ShortWithout(b, k, size);
      MemberIsUnambiguous(a, 0);
      MemberIsUnambiguous(b, k);
      SameTreeSameSize(a[0].value, b[k].value, size);
      WithoutFirst(a);
      SameMembers(a[1..], Without(b, k), size);
    }
  }

  lemma MemberIsUnambiguous(members: seq<Member>, k: nat)
    requires k < |members| && UnambiguousMembers(members)
    ensures Unambiguous(members[k].value)
  {
  }

  lemma WithoutFirst(members: seq<Member>)
    requires members != []
    ensures Without(members, 0) == members[1..]
  {
  }

  lemma SameNames(a: seq<Member>, b: seq<Member>)
    requires Fields(a) == Fields(b) && UnambiguousMembers(a) && UnambiguousMembers(b)
    ensures Names(a) == Names(b) && (a == [] <==> b == [])
  {
    hide Unambiguous, Tree, Fields;
    FieldsLookup(a);
    FieldsLookup(b);
    assert a != [] ==> a[0].name in Names(a);
    assert b != [] ==> b[0].name in Names(b);
  }

  /** Where the first member of one list is in the other. */
  ghost function Place(a: seq<Member>, b: seq<Member>): (k: nat)
    requires Names(a) == Names(b) && a != []
    ensures k < |b| && b[k].name == a[0].name
  {
    assert a[0].name in Names(a);
    var k: nat :| k < |b| && b[k].name == a[0].name;
    k
  }

  // ---- what the builders make of it

  /** A document without repeated names is refused for its size only. */
  lemma {:induction false} BuildFailsForSize(n: Node, depth: nat, c: Counters, l: Limits)
    requires Unambiguous(n) && l.depthKind == ResourceLimit
    ensures var r := Build(n, depth, c, l); r.Failure? ==> r.kind == ResourceLimit
    decreases n
  {
    match n {
      case Leaf(_) =>
      case List(items) =>
        if depth + 1 <= l.maxDepth {
          ItemsFailForSize(items, depth + 1, c.(values := c.values + 1), [], l);
        }
      case Record(members) =>
        if depth + 1 <= l.maxDepth {
          MembersFailForSize(members, depth + 1, c.(values := c.values + 1), map[], l);
        }
    }
  }

  lemma {:induction false} ItemsFailForSize(items: seq<Node>, depth: nat, c: Counters, done: seq<Json>, l: Limits)
    requires l.depthKind == ResourceLimit && forall i :: 0 <= i < |items| ==> Unambiguous(items[i])
    ensures var r := BuildItems(items, depth, c, done, l); r.Failure? ==> r.kind == ResourceLimit
    decreases items
  {
    hide Unambiguous, Build;
    if items != [] {
      BuildFailsForSize(items[0], depth, c, l);
      var first := Build(items[0], depth, c, l);
      if first.Success? {
        ItemsFailForSize(items[1..], depth, first.value.1, done + [first.value.0], l);
      }
    }
  }

  lemma {:induction false} MembersFailForSize(members: seq<Member>, depth: nat, c: Counters, done: map<string, Json>,
                                              l: Limits)
    requires l.depthKind == ResourceLimit && UnambiguousMembers(members)
    requires forall i :: 0 <= i < |members| ==> members[i].name !in done
    ensures var r := BuildMembers(members, depth, c, done, l); r.Failure? ==> r.kind == ResourceLimit
    decreases members
  {
    hide Unambiguous, Build;
    if members != [] && c.members + 1 <= l.maxMembers && |members[0].name| <= l.maxKeyBytes {
      var keyed := c.(members := c.members + 1);
      BuildFailsForSize(members[0].value, depth, keyed, l);
      var first := Build(members[0].value, depth, keyed, l);
      var rest := members[1..];
      assert forall i :: 0 <= i < |rest| ==> rest[i] == members[i + 1];
      if first.Success? {
        MembersFailForSize(rest, depth, first.value.1, done[members[0].name := first.value.0], l);
      }
    }
  }

  /** What the configuration's builder makes of any text of an object: the tree when it is within the limits, and a
      resource limit otherwise. */
  lemma WrittenParse(n: Node, t: Json)
    requires Writes(n, t) && t.Object?
    ensures Parse(Events(n, []), CONFIG_LIMITS)
            == if Acceptable(n, CONFIG_LIMITS) then Success(t) else Failure(ResourceLimit)
  {
    hide Parse, Events, Acceptable, BuildMembers, Fields;
    ParseAcceptsExactly(n, CONFIG_LIMITS);
    if !Acceptable(n, CONFIG_LIMITS) {
      ParseIsBuild(n, CONFIG_LIMITS);
      MembersFailForSize(n.members, 1, Counters(0, 1), map[], CONFIG_LIMITS);
    }
  }

  /** Two texts of one tree are both loaded, or neither is. */
  lemma WritingsParseAlike(a: Node, b: Node, t: Json)
    requires Writes(a, t) && Writes(b, t) && t.Object?
    ensures Parse(Events(a, []), CONFIG_LIMITS) == Parse(Events(b, []), CONFIG_LIMITS)
  {
    hide Parse, Events, Unambiguous, Tree, NamesFit, Depth, MemberCount, ValueCount;
    SameTreeSameSize(a, b, CONFIG_LIMITS.maxKeyBytes);
    WrittenParse(a, t);
    WrittenParse(b, t);
    RecordsObject(a, t);
    RecordsObject(b, t);
  }

  lemma RecordsObject(n: Node, t: Json)
    requires Tree(n) == t && t.Object?
    ensures n.Record?
  {
  }

  lemma {:induction false} FittingIsUnambiguous(n: Node, size: nat)
    requires NamesFit(n, size)
    ensures Unambiguous(n)
    decreases n
  {
    match n {
      case Leaf(_) =>
      case List(items) =>
        forall i | 0 <= i < |items| ensures Unambiguous(items[i]) {
          FittingIsUnambiguous(items[i], size);
        }
      case Record(members) =>
        forall i | 0 <= i < |members| ensures Unambiguous(members[i].value) {
          FittingIsUnambiguous(members[i].value, size);
        }
    }
  }

  lemma {:induction false} LeafMembers(members: seq<Member>)
    requires forall i :: 0 <= i < |members| ==> members[i].value.Leaf?
    ensures MembersDepth(members) == 0 && MembersMemberCount(members) == MembersValueCount(members) == |members|
    decreases members
  {
    if members != [] {
      LeafMembers(members[1..]);
    }
  }

  lemma {:induction false} MembersAppend(a: seq<Member>, b: seq<Member>)
    ensures MembersDepth(a + b) == Max(MembersDepth(a), MembersDepth(b))
    ensures MembersMemberCount(a + b) == MembersMemberCount(a) + MembersMemberCount(b)
    ensures MembersValueCount(a + b) == MembersValueCount(a) + MembersValueCount(b)
    decreases a
  {
    hide Depth, MemberCount, ValueCount;
    if a == [] {
      assert a + b == b;
    } else {
      MembersAppend(a[1..], b);
      assert (a + b)[1..] == a[1..] + b;
    }
  }

  /** Members that write the fields, each once. */
  lemma WritesFields(members: seq<Member>, fields: map<string, Json>)
    requires UnambiguousMembers(members) && Names(members) == fields.Keys
    requires forall i :: 0 <= i < |members| ==> Tree(members[i].value) == fields[members[i].name]
    ensures Writes(Record(members), Object(fields))
  {
    hide Fields, Tree, Unambiguous;
    FieldsLookup(members);
    forall n | n in fields ensures Fields(members)[n] == fields[n] {
      assert n in Names(members);
      var i :| 0 <= i < |members| && members[i].name == n;
    }
    assert Fields(members) == fields;
    RecordOf(members);
  }

  lemma RecordOf(members: seq<Member>)
    ensures Tree(Record(members)) == Object(Fields(members))
    ensures UnambiguousMembers(members) ==> Unambiguous(Record(members))
  {
  }

  lemma WritesAppend(a: seq<Member>, x: map<string, Json>, b: seq<Member>, y: map<string, Json>)
    requires Writes(Record(a), Object(x)) && Writes(Record(b), Object(y)) && x.Keys !! y.Keys
    ensures Writes(Record(a + b), Object(x + y))
  {
    hide Fields, Tree, Unambiguous, Names;
    RecordOf(a);
    RecordOf(b);
    RecordMembers(a);
    RecordMembers(b);
    FieldsLookup(a);
    FieldsLookup(b);
    NamesAreThose(a);
    NamesAreThose(b);
    NamesAreThose(a + b);
    var m := a + b;
    assert forall i :: 0 <= i < |m| ==> m[i] == if i < |a| then a[i] else b[i - |a|];
    assert forall i :: 0 <= i < |a| ==> a[i].name in x;
    assert forall i :: 0 <= i < |b| ==> b[i].name in y;
    NamesAppend(a, b);
    WritesFields(m, x + y);
  }

  lemma NamesAppend(a: seq<Member>, b: seq<Member>)
    ensures Names(a + b) == Names(a) + Names(b)
  {
    assert forall i :: 0 <= i < |a| ==> a[i] == (a + b)[i];
    assert forall i :: 0 <= i < |b| ==> b[i] == (a + b)[|a| + i];
  }

  lemma RecordMembers(members: seq<Member>)
    requires Unambiguous(Record(members))
    ensures UnambiguousMembers(members)
  {
  }

  lemma ThreeMembers(a: Member, b: Member, c: Member)
    ensures MembersDepth([a, b, c]) == Max(Depth(a.value), Max(Depth(b.value), Depth(c.value)))
    ensures MembersMemberCount([a, b, c]) == 3 + MemberCount(a.value) + MemberCount(b.value) + MemberCount(c.value)
    ensures MembersValueCount([a, b, c]) == ValueCount(a.value) + ValueCount(b.value) + ValueCount(c.value)
  {
    hide Depth, MemberCount, ValueCount, MembersDepth, MembersMemberCount, MembersValueCount;
    assert [a, b, c] == [a] + ([b] + [c]);
    OneMember(a);
    OneMember(b);
    OneMember(c);
    MembersAppend([b], [c]);
    MembersAppend([a], [b] + [c]);
  }

  lemma OneMember(m: Member)
    ensures MembersDepth([m]) == Depth(m.value) && MembersMemberCount([m]) == 1 + MemberCount(m.value)
    ensures MembersValueCount([m]) == ValueCount(m.value)
  {
    hide Depth, MemberCount, ValueCount;
  }
}
