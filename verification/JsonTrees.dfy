/** JSON documents: as written (members in order, names possibly repeated), as parser events,
    and as the trees the sources keep. A `string` stands for a `std::string`, one character
    an octet. */
module JsonTrees {

  datatype Scalar =
    | Null
    | Boolean(truth: bool)
    | Signed(integer: int)
    | Unsigned(natural: nat)
    | Float(number: real)
    | Text(text: string)

  /** A document as written. */
  datatype Node =
    | Leaf(scalar: Scalar)
    | List(items: seq<Node>)
    | Record(members: seq<Member>)

  datatype Member = Member(name: string, value: Node)

  /** A tree: what `nlohmann::json` holds after parsing. */
  datatype Json =
    | Value(scalar: Scalar)
    | Array(elements: seq<Json>)
    | Object(fields: map<string, Json>)

  /** The callbacks of `nlohmann::json_sax`. */
  datatype Event =
    | OnScalar(scalar: Scalar)
    | OnStartObject
    | OnKey(name: string)
    | OnEndObject
    | OnStartArray
    | OnEndArray

  /** The events of a document in front of the events that follow it. */
  function Events(n: Node, rest: seq<Event>): seq<Event>
    decreases n
  {
    match n
    case Leaf(v) => [OnScalar(v)] + rest
    case List(items) => [OnStartArray] + ItemEvents(items, [OnEndArray] + rest)
    case Record(members) => [OnStartObject] + MemberEvents(members, [OnEndObject] + rest)
  }

  function ItemEvents(items: seq<Node>, rest: seq<Event>): seq<Event>
    decreases items
  {
    if items == [] then rest else Events(items[0], ItemEvents(items[1..], rest))
  }

  function MemberEvents(members: seq<Member>, rest: seq<Event>): seq<Event>
    decreases members
  {
    if members == [] then rest
    else [OnKey(members[0].name)] + Events(members[0].value, MemberEvents(members[1..], rest))
  }

  /** The tree of a document. */
  function Tree(n: Node): Json
    decreases n
  {
    match n
    case Leaf(v) => Value(v)
    case List(items) => Array(Trees(items))
    case Record(members) => Object(Fields(members))
  }

  function Trees(items: seq<Node>): (t: seq<Json>)
    ensures |t| == |items|
    ensures forall i :: 0 <= i < |items| ==> t[i] == Tree(items[i])
    decreases items
  {
    if items == [] then [] else [Tree(items[0])] + Trees(items[1..])
  }

  function Fields(members: seq<Member>): map<string, Json>
    decreases members
  {
    if members == [] then map[] else map[members[0].name := Tree(members[0].value)] + Fields(members[1..])
  }

  function Names(members: seq<Member>): set<string> {
    set i | 0 <= i < |members| :: members[i].name
  }

  // ---- measures

  /** Containers on the longest path; a scalar has none. */
  function Depth(n: Node): nat
    decreases n
  {
    match n
    case Leaf(_) => 0
    case List(items) => 1 + ItemsDepth(items)
    case Record(members) => 1 + MembersDepth(members)
  }

  function ItemsDepth(items: seq<Node>): nat
    decreases items
  {
    if items == [] then 0 else Max(Depth(items[0]), ItemsDepth(items[1..]))
  }

  function MembersDepth(members: seq<Member>): nat
    decreases members
  {
    if members == [] then 0 else Max(Depth(members[0].value), MembersDepth(members[1..]))
  }

  function Max(a: nat, b: nat): nat {
    if a < b then b else a
  }

  /** Scalars and containers. */
  function ValueCount(n: Node): nat
    decreases n
  {
    match n
    case Leaf(_) => 1
    case List(items) => 1 + ItemsValueCount(items)
    case Record(members) => 1 + MembersValueCount(members)
  }

  function ItemsValueCount(items: seq<Node>): nat
    decreases items
  {
    if items == [] then 0 else ValueCount(items[0]) + ItemsValueCount(items[1..])
  }

  function MembersValueCount(members: seq<Member>): nat
    decreases members
  {
    if members == [] then 0 else ValueCount(members[0].value) + MembersValueCount(members[1..])
  }

  function MemberCount(n: Node): nat
    decreases n
  {
    match n
    case Leaf(_) => 0
    case List(items) => ItemsMemberCount(items)
    case Record(members) => MembersMemberCount(members)
  }

  function ItemsMemberCount(items: seq<Node>): nat
    decreases items
  {
    if items == [] then 0 else MemberCount(items[0]) + ItemsMemberCount(items[1..])
  }

  function MembersMemberCount(members: seq<Member>): nat
    decreases members
  {
    if members == [] then 0 else 1 + MemberCount(members[0].value) + MembersMemberCount(members[1..])
  }

  /** No object repeats a member name, and no name is longer than `size`. */
  predicate NamesFit(n: Node, size: nat)
    decreases n
  {
    match n
    case Leaf(_) => true
    case List(items) => forall i :: 0 <= i < |items| ==> NamesFit(items[i], size)
    case Record(members) =>
      && (forall i :: 0 <= i < |members| ==> |members[i].name| <= size && NamesFit(members[i].value, size))
      && Distinct(members)
  }

  predicate Distinct(members: seq<Member>) {
    forall i, j :: 0 <= i < j < |members| ==> members[i].name != members[j].name
  }
}
