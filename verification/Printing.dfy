/** `dump` of the JSON library, which throws on a string that is not UTF-8, and what is read back of its text. */
module Printing {
  import opened Bytes
  import opened Errors
  import opened JsonTrees
  import opened OrderedTrees
  import opened Writings
  import Policies
  import Utf8

  // ---- strings

  /** The octets are the encoding of a sequence of Unicode scalar values, section 3 of RFC 3629. */
  ghost predicate Utf8Text(s: string) {
    exists text: seq<Utf8.scalar> :: s == Policies.Chars(Utf8.EncodeText(text))
  }

  predicate AsciiText(s: string) {
    forall i :: 0 <= i < |s| ==> s[i] < 128 as char
  }

  lemma {:induction false} AsciiIsEncoded(s: string) returns (text: seq<Utf8.scalar>)
    requires AsciiText(s)
    ensures s == Policies.Chars(Utf8.EncodeText(text))
  {
    if s == "" {
      text := [];
    } else {
      var rest := AsciiIsEncoded(s[1..]);
      text := [s[0] as int] + rest;
      assert text[1..] == rest && Utf8.EncodeScalar(text[0]) == [s[0] as int];
      assert Utf8.EncodeText(text) == [s[0] as int] + Utf8.EncodeText(rest);
      assert s == [s[0]] + s[1..];
    }
  }

  lemma AsciiIsUtf8(s: string)
    requires AsciiText(s)
    ensures Utf8Text(s)
  {
    var text := AsciiIsEncoded(s);
  }

  /** No character has an octet above 0xF4. */
  lemma {:induction false} EncodedOctets(text: seq<Utf8.scalar>)
    ensures forall b :: b in Utf8.EncodeText(text) ==> b <= 0xF4
  {
    if text != [] {
      EncodedOctets(text[1..]);
      forall b | b in Utf8.EncodeScalar(text[0]) ensures b <= 0xF4 {
      }
    }
  }

  lemma Utf8Octets(s: string, i: nat)
    requires Utf8Text(s) && i < |s|
    ensures s[i] <= 0xF4 as char
  {
    var text: seq<Utf8.scalar> :| s == Policies.Chars(Utf8.EncodeText(text));
    var octets := Utf8.EncodeText(text);
    EncodedOctets(text);
    assert octets[i] in octets && s[i] == octets[i] as char;
  }

  // ---- trees

  /** `dump` writes the tree: all its strings and names are UTF-8. */
  ghost predicate Writable(t: Json)
    decreases t
  {
    match t
    case Value(scalar) => scalar.Text? ==> Utf8Text(scalar.text)
    case Array(elements) => forall i :: 0 <= i < |elements| ==> Writable(elements[i])
    case Object(fields) => forall n :: n in fields ==> Utf8Text(n) && Writable(fields[n])
  }

  function PowerOfTwo(e: int): real
    decreases if e < 0 then -e else e
  {
    if e == 0 then 1.0 else if e > 0 then 2.0 * PowerOfTwo(e - 1) else PowerOfTwo(e + 1) / 2.0
  }

  function Scaled(m: int, e: int): real {
    m as real * PowerOfTwo(e)
  }

  /** A finite number of IEEE 754 binary64. */
  ghost predicate Binary64(x: real) {
    exists m: int, e: int :: -0x20_0000_0000_0000 <= m <= 0x20_0000_0000_0000 && -1074 <= e <= 971 && x == Scaled(m, e)
  }

  /** What a tree of the library can hold: 64-bit integers and doubles. */
  ghost predicate Held(t: Json)
    decreases t
  {
    match t
    case Value(scalar) =>
      && (scalar.Signed? ==> Policies.Int64(scalar.integer)) && (scalar.Unsigned? ==> scalar.natural < UINT64_LIMIT)
      && (scalar.Float? ==> Binary64(scalar.number))
    case Array(elements) => forall i :: 0 <= i < |elements| ==> Held(elements[i])
    case Object(fields) => forall n :: n in fields ==> Held(fields[n])
  }

  /** What reading makes of a written scalar: digits without a sign are an unsigned number, as after `-0`. */
  function ReadScalar(s: Scalar): Scalar {
    if s.Signed? && s.integer >= 0 then Unsigned(s.integer) else s
  }

  function ReadBack(t: Json): Json
    decreases t
  {
    match t
    case Value(scalar) => Value(ReadScalar(scalar))
    case Array(elements) => Array(seq(|elements|, i requires 0 <= i < |elements| => ReadBack(elements[i])))
    case Object(fields) => Object(map n | n in fields :: ReadBack(fields[n]))
  }

  // ---- the printer

  /** A text: the document it holds, and its length. */
  datatype Printed = Printed(document: Node, octets: nat)

  /** `dump()` and `dump(2)`; nothing is their exception. */
  datatype Printer = Printer(compact: Json -> Option<Printed>, indented: Ordered -> Option<Printed>)

  ghost predicate PrintsAs(text: Option<Printed>, t: Json) {
    if Writable(t) then text.Some? && Writes(text.value.document, ReadBack(t)) else text.None?
  }

  ghost predicate Prints(p: Printer) {
    && (forall t: Json :: Held(t) ==> PrintsAs(p.compact(t), t))
    && (forall o: Ordered :: Tidy(o) && Held(Forget(o)) ==> PrintsAs(p.indented(o), Forget(o)))
  }

  // ---- a document as it is read back

  function Reread(n: Node): Node
    decreases n
  {
    match n
    case Leaf(scalar) => Leaf(ReadScalar(scalar))
    case List(items) => List(RereadItems(items))
    case Record(members) => Record(RereadMembers(members))
  }

  function RereadItems(items: seq<Node>): (r: seq<Node>)
    ensures |r| == |items| && forall i :: 0 <= i < |r| ==> r[i] == Reread(items[i])
    decreases items
  {
    if items == [] then [] else [Reread(items[0])] + RereadItems(items[1..])
  }

  function RereadMembers(members: seq<Member>): (r: seq<Member>)
    ensures |r| == |members|
    ensures forall i :: 0 <= i < |r| ==> r[i] == Member(members[i].name, Reread(members[i].value))
    decreases members
  {
    if members == [] then [] else [Member(members[0].name, Reread(members[0].value))] + RereadMembers(members[1..])
  }

  lemma {:induction false} ItemsAlike(a: seq<Node>, b: seq<Node>, size: nat)
    requires |a| == |b| && forall i :: 0 <= i < |a| ==> Alike(a[i], b[i], size)
    ensures ItemsDepth(a) == ItemsDepth(b) && ItemsMemberCount(a) == ItemsMemberCount(b)
    ensures ItemsValueCount(a) == ItemsValueCount(b)
    decreases a
  {
    hide Depth, MemberCount, ValueCount, NamesFit;
    if a != [] {
      assert Alike(a[0], b[0], size);
      ItemsAlike(a[1..], b[1..], size);
    }
  }

  lemma {:induction false} MembersAlike(a: seq<Member>, b: seq<Member>, size: nat)
    requires |a| == |b| && forall i :: 0 <= i < |a| ==> Alike(a[i].value, b[i].value, size)
    ensures MembersDepth(a) == MembersDepth(b) && MembersMemberCount(a) == MembersMemberCount(b)
    ensures MembersValueCount(a) == MembersValueCount(b)
    decreases a
  {
    hide Depth, MemberCount, ValueCount, NamesFit;
    if a != [] {
      assert Alike(a[0].value, b[0].value, size);
      MembersAlike(a[1..], b[1..], size);
    }
  }

  /** The document that is read back writes the tree that is read back, and is of the same size. */
  lemma {:induction false} RereadIsAlike(n: Node, size: nat)
    requires Unambiguous(n)
    ensures Writes(Reread(n), ReadBack(Tree(n))) && Alike(n, Reread(n), size)
    decreases n
  {
    hide Trees, Fields, ItemsDepth, ItemsMemberCount, ItemsValueCount, MembersDepth, MembersMemberCount,
         MembersValueCount, RereadItems, RereadMembers;
    match n {
      case Leaf(_) =>
      case List(items) =>
        forall i | 0 <= i < |items|
          ensures Writes(Reread(items[i]), ReadBack(Tree(items[i]))) && Alike(items[i], Reread(items[i]), size)
        {
          RereadIsAlike(items[i], size);
        }
        RereadList(items, size);
      case Record(members) =>
        forall i | 0 <= i < |members|
          ensures Writes(Reread(members[i].value), ReadBack(Tree(members[i].value)))
          ensures Alike(members[i].value, Reread(members[i].value), size)
        {
          RereadIsAlike(members[i].value, size);
        }
        RereadRecord(members, size);
    }
  }

  lemma RereadList(items: seq<Node>, size: nat)
    requires forall i :: 0 <= i < |items| ==>
               Writes(Reread(items[i]), ReadBack(Tree(items[i]))) && Alike(items[i], Reread(items[i]), size)
    ensures Writes(Reread(List(items)), ReadBack(Tree(List(items)))) && Alike(List(items), Reread(List(items)), size)
  {
    hide Trees, ItemsDepth, ItemsMemberCount, ItemsValueCount, RereadItems;
    var r := RereadItems(items);
    ItemsAlike(items, r, size);
    forall i | 0 <= i < |items| ensures NamesFit(items[i], size) <==> NamesFit(r[i], size) {
      assert Alike(items[i], Reread(items[i]), size);
    }
    assert forall i :: 0 <= i < |r| ==> Unambiguous(r[i]);
    assert Trees(r) == ReadBack(Array(Trees(items))).elements;
  }

  lemma RereadRecord(members: seq<Member>, size: nat)
    requires Distinct(members)
    requires forall i :: 0 <= i < |members| ==>
               && Writes(Reread(members[i].value), ReadBack(Tree(members[i].value)))
               && Alike(members[i].value, Reread(members[i].value), size)
    ensures Writes(Reread(Record(members)), ReadBack(Tree(Record(members))))
    ensures Alike(Record(members), Reread(Record(members)), size)
  {
    hide Fields, MembersDepth, MembersMemberCount, MembersValueCount, RereadMembers;
    var r := RereadMembers(members);
    MembersAlike(members, r, size);
    forall i | 0 <= i < |members| ensures NamesFit(members[i].value, size) <==> NamesFit(r[i].value, size) {
      assert Alike(members[i].value, Reread(members[i].value), size);
    }
    RereadFields(members, size);
  }

  lemma RereadNames(members: seq<Member>)
    ensures Names(RereadMembers(members)) == Names(members)
  {
    hide RereadMembers, Reread;
    var r := RereadMembers(members);
    assert forall i :: 0 <= i < |members| ==> r[i].name == members[i].name && members[i].name in Names(members);
    assert forall i :: 0 <= i < |members| ==> members[i].name == r[i].name && r[i].name in Names(r);
  }

  lemma RereadFields(members: seq<Member>, size: nat)
    requires Distinct(members)
    requires forall i :: 0 <= i < |members| ==> Writes(Reread(members[i].value), ReadBack(Tree(members[i].value)))
    ensures Writes(Record(RereadMembers(members)), ReadBack(Object(Fields(members))))
  {
    hide Fields, RereadMembers, Tree, Unambiguous, Reread, Names;
    var r, fields := RereadMembers(members), ReadBack(Object(Fields(members))).fields;
    FieldsLookup(members);
    RereadNames(members);
    NamesAreThose(members);
    assert Names(r) == fields.Keys;
    forall i | 0 <= i < |r| ensures Tree(r[i].value) == fields[r[i].name] {
      assert r[i] == Member(members[i].name, Reread(members[i].value));
    }
    WritesFields(r, fields);
  }
}
