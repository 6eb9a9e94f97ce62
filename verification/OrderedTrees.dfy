/** `nlohmann::ordered_json`: trees whose objects remember the order of their members, and how members are copied. */
module OrderedTrees {
  import opened Configurations
  import opened JsonTrees

  /** `nlohmann::ordered_json`: objects remember the order of their members. */
  datatype Ordered =
    | Plain(json: Json)
    | OrderedArray(elements: seq<Ordered>)
    | OrderedObject(members: seq<Entry>)

  datatype Entry = Entry(name: string, value: Ordered)

  /** The tree without the order. */
  function Forget(o: Ordered): Json
    decreases o
  {
    match o
    case Plain(j) => j
    case OrderedArray(elements) => Array(seq(|elements|, i requires 0 <= i < |elements| => Forget(elements[i])))
    case OrderedObject(members) => Object(Collect(members))
  }

  function Collect(members: seq<Entry>): map<string, Json>
    decreases members
  {
    if members == [] then map[]
    else map[members[0].name := Forget(members[0].value)] + Collect(members[1..])
  }

  /** `output[name] = value`: in place when the name is there, at the end otherwise. */
  function Put(members: seq<Entry>, name: string, value: Ordered): seq<Entry> {
    if members == [] then [Entry(name, value)]
    else if members[0].name == name then [Entry(name, value)] + members[1..]
    else [members[0]] + Put(members[1..], name, value)
  }

  predicate DistinctNames(members: seq<Entry>) {
    forall i, j :: 0 <= i < j < |members| ==> members[i].name != members[j].name
  }

  /** No object repeats a name, as none does that is built by `output[name] = value`. */
  predicate Tidy(o: Ordered)
    decreases o
  {
    match o
    case Plain(_) => true
    case OrderedArray(elements) => forall i :: 0 <= i < |elements| ==> Tidy(elements[i])
    case OrderedObject(members) => DistinctNames(members) && forall i :: 0 <= i < |members| ==> Tidy(members[i].value)
  }

  predicate TidyValues(members: seq<Entry>) {
    forall i :: 0 <= i < |members| ==> Tidy(members[i].value)
  }

  lemma {:induction false} PutKeepsTidy(members: seq<Entry>, name: string, value: Ordered)
    requires TidyValues(members) && Tidy(value)
    ensures TidyValues(Put(members, name, value))
    decreases members
  {
    hide Tidy;
    if members != [] {
      var rest := members[1..];
      assert forall i :: 0 <= i < |rest| ==> rest[i] == members[i + 1];
      PutKeepsTidy(rest, name, value);
    }
  }

  lemma {:induction false} CollectedNames(members: seq<Entry>, name: string)
    ensures name in Collect(members) <==> exists i :: 0 <= i < |members| && members[i].name == name
    decreases members
  {
    if members != [] {
      CollectedNames(members[1..], name);
      if name in Collect(members[1..]) {
        var i :| 0 <= i < |members[1..]| && members[1..][i].name == name;
        assert members[i + 1].name == name;
      }
      if exists i :: 0 <= i < |members| && members[i].name == name {
        var i :| 0 <= i < |members| && members[i].name == name;
        if i > 0 {
          assert members[1..][i - 1].name == name;
        }
      }
    }
  }

  /** Every name in the result is the new one or was there before. */
  lemma {:induction false} PutNames(members: seq<Entry>, name: string, value: Ordered, i: nat)
    requires i < |Put(members, name, value)| && Put(members, name, value)[i].name != name
    ensures exists j :: 0 <= j < |members| && members[j].name == Put(members, name, value)[i].name
    decreases members
  {
    if members != [] {
      if members[0].name == name || i == 0 {
        assert members[i].name == Put(members, name, value)[i].name;
      } else {
        PutNames(members[1..], name, value, i - 1);
        var j :| 0 <= j < |members[1..]| && members[1..][j].name == Put(members, name, value)[i].name;
        assert members[j + 1].name == Put(members, name, value)[i].name;
      }
    }
  }

  lemma {:induction false} PutKeepsDistinct(members: seq<Entry>, name: string, value: Ordered)
    requires DistinctNames(members)
    ensures DistinctNames(Put(members, name, value))
    decreases members
  {
    if members != [] && members[0].name != name {
      var rest := members[1..];
      assert forall j :: 0 <= j < |rest| ==> rest[j] == members[j + 1];
      PutKeepsDistinct(rest, name, value);
      var put := Put(rest, name, value);
      forall i | 0 <= i < |put| ensures put[i].name != members[0].name {
        if put[i].name != name {
          PutNames(rest, name, value, i);
        }
      }
    }
  }

  lemma CollectStep(first: Entry, rest: seq<Entry>)
    ensures Collect([first] + rest) == map[first.name := Forget(first.value)] + Collect(rest)
    ensures Collect([]) == map[]
  {
    hide Forget;
    assert ([first] + rest)[1..] == rest;
  }

  lemma {:induction false} PutCollects(members: seq<Entry>, name: string, value: Ordered)
    requires DistinctNames(members)
    ensures Collect(Put(members, name, value)) == Collect(members)[name := Forget(value)]
    decreases members
  {
    hide Forget, Collect;
    if members == [] {
      assert [Entry(name, value)] + [] == [Entry(name, value)];
      CollectStep(Entry(name, value), []);
    } else {
      var rest := members[1..];
      assert members == [members[0]] + rest;
      assert forall j :: 0 <= j < |rest| ==> rest[j] == members[j + 1];
      CollectStep(members[0], rest);
      if members[0].name == name {
        CollectedNames(rest, name);
        CollectStep(Entry(name, value), rest);
      } else {
        PutCollects(rest, name, value);
        CollectStep(members[0], Put(rest, name, value));
      }
    }
  }

  // ---- copying members in a fixed order

  function Restrict(fields: map<string, Json>, names: set<string>): map<string, Json> {
    map n | n in fields && n in names :: fields[n]
  }

  function NamesOf(members: seq<Entry>): seq<string> {
    seq(|members|, i requires 0 <= i < |members| => members[i].name)
  }

  /** The names of an order that are there, each where it comes first. */
  function Walk(order: seq<string>, fields: map<string, Json>): seq<string> {
    if order == [] then []
    else
      var before, last := Walk(order[..|order| - 1], fields), order[|order| - 1];
      if last !in fields || last in before then before else before + [last]
  }

  /** The members copied so far are those of the original that the order has reached, in that order. */
  ghost predicate Copies(members: seq<Entry>, fields: map<string, Json>, order: seq<string>) {
    && DistinctNames(members) && TidyValues(members) && Collect(members) == Restrict(fields, SetOf(order))
    && NamesOf(members) == Walk(order, fields)
  }

  lemma OneMoreName(order: seq<string>, name: string, fields: map<string, Json>)
    ensures SetOf(order + [name]) == SetOf(order) + {name}
    ensures Walk(order + [name], fields)
            == var before := Walk(order, fields); if name !in fields || name in before then before else before + [name]
  {
    assert (order + [name])[..|order|] == order;
  }

  lemma {:induction false} PutNamesInPlace(members: seq<Entry>, name: string, value: Ordered)
    ensures NamesOf(Put(members, name, value))
            == if name in NamesOf(members) then NamesOf(members) else NamesOf(members) + [name]
    decreases members
  {
    if members != [] {
      var rest := members[1..];
      assert NamesOf(members) == [members[0].name] + NamesOf(rest);
      if members[0].name != name {
        PutNamesInPlace(rest, name, value);
        assert NamesOf([members[0]] + Put(rest, name, value)) == [members[0].name] + NamesOf(Put(rest, name, value));
      }
    }
  }

  lemma CopyStep(members: seq<Entry>, fields: map<string, Json>, order: seq<string>, name: string, value: Ordered)
    requires Copies(members, fields, order) && name in fields && Forget(value) == fields[name] && Tidy(value)
    ensures Copies(Put(members, name, value), fields, order + [name])
  {
    hide Forget, Collect, DistinctNames, Walk, Put, Tidy, TidyValues;
    PutKeepsTidy(members, name, value);
    PutCollects(members, name, value);
    PutKeepsDistinct(members, name, value);
    PutNamesInPlace(members, name, value);
    OneMoreName(order, name, fields);
    assert Restrict(fields, SetOf(order))[name := fields[name]] == Restrict(fields, SetOf(order) + {name});
  }

  lemma NothingToCopy(members: seq<Entry>, fields: map<string, Json>, order: seq<string>, name: string)
    requires Copies(members, fields, order) && name !in fields
    ensures Copies(members, fields, order + [name])
  {
    hide Collect, DistinctNames, Walk;
    OneMoreName(order, name, fields);
    assert Restrict(fields, SetOf(order)) == Restrict(fields, SetOf(order) + {name});
  }

  lemma CopiedAll(members: seq<Entry>, fields: map<string, Json>, order: seq<string>)
    requires Copies(members, fields, order) && fields.Keys <= SetOf(order)
    ensures Forget(OrderedObject(members)) == Object(fields) && NamesOf(members) == Walk(order, fields)
    ensures Tidy(OrderedObject(members))
  {
    assert Restrict(fields, SetOf(order)) == fields;
  }

  /** `output[name] = value.at(name)`. */
  method CopyMember(output: seq<Entry>, fields: map<string, Json>, name: string, ghost order: seq<string>)
    returns (copied: seq<Entry>, ghost now: seq<string>)
    requires Copies(output, fields, order) && name in fields
    ensures Copies(copied, fields, now) && now == order + [name]
  {
    copied := Put(output, name, Plain(fields[name]));
    now := order + [name];
    CopyStep(output, fields, order, name, Plain(fields[name]));
  }

  /** The same behind `value.find(name) != value.end()`. */
  method CopyOptional(output: seq<Entry>, fields: map<string, Json>, name: string, ghost order: seq<string>)
    returns (copied: seq<Entry>, ghost now: seq<string>)
    requires Copies(output, fields, order)
    ensures Copies(copied, fields, now) && now == order + [name]
  {
    if name in fields {
      copied, now := CopyMember(output, fields, name, order);
    } else {
      copied, now := output, order + [name];
      NothingToCopy(output, fields, order, name);
    }
  }

  lemma NothingCopied(fields: map<string, Json>)
    ensures Copies([], fields, [])
  {
    assert Restrict(fields, {}) == map[];
  }
}
