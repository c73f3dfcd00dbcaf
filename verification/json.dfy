/**
 * The serialization the store applies to every value: `json.dumps` on the
 * way into the `value` column and `json.loads` on the way out.
 *
 * The JSON text itself is not modelled. Its place is taken by a stream of
 * lexical tokens in which every array and object announces how many
 * elements follow. `Dumps` writes such a stream and `Loads` parses one back,
 * failing on malformed input and on trailing tokens, as `json.loads` fails on
 * "Extra data". `LoadsDumps` proves the round trip the store depends on.
 */
module Json {
  import opened Wrappers

  /** A JSON document: what a Python value becomes once `json.dumps` accepts it. */
  datatype Value =
    | Null
    | Bool(b: bool)
    | Number(n: int)
    | String(s: string)
    | Array(items: seq<Value>)
    | Object(members: seq<Member>)

  /** One `"name": value` pair of an object, in the order the object lists it. */
  datatype Member = Member(name: string, value: Value)

  datatype Token =
    | TNull
    | TTrue
    | TFalse
    | TNumber(n: int)
    | TString(s: string)
    | TArray(count: nat)    // an array of `count` elements follows
    | TObject(count: nat)   // an object of `count` members follows
    | TName(name: string)   // the name of the member whose value follows

  /** What the `value` column holds: the serialized form of one document. */
  type Text = seq<Token>

  function Dumps(v: Value): Text
    decreases v
  {
    match v
    case Null => [TNull]
    case Bool(b) => if b then [TTrue] else [TFalse]
    case Number(n) => [TNumber(n)]
    case String(s) => [TString(s)]
    case Array(items) => [TArray(|items|)] + DumpsItems(items)
    case Object(members) => [TObject(|members|)] + DumpsMembers(members)
  }

  function DumpsItems(items: seq<Value>): Text
    decreases items
  {
    if items == [] then [] else Dumps(items[0]) + DumpsItems(items[1..])
  }

  function DumpsMembers(members: seq<Member>): Text
    decreases members
  {
    if members == [] then []
    else [TName(members[0].name)] + Dumps(members[0].value) + DumpsMembers(members[1..])
  }

  /** Parses one document from the front of `t`, giving it and the tokens after it. */
  function Parse(t: Text): (r: Option<(Value, Text)>)
    ensures r.Some? ==> |r.value.1| < |t|
    decreases |t|, 0
  {
    if t == [] then None
    else match t[0]
      case TNull => Some((Null, t[1..]))
      case TTrue => Some((Bool(true), t[1..]))
      case TFalse => Some((Bool(false), t[1..]))
      case TNumber(n) => Some((Number(n), t[1..]))
      case TString(s) => Some((String(s), t[1..]))
      case TArray(count) =>
        (match ParseItems(count, t[1..])
         case None => None
         case Some((items, rest)) => Some((Array(items), rest)))
      case TObject(count) =>
        (match ParseMembers(count, t[1..])
         case None => None
         case Some((members, rest)) => Some((Object(members), rest)))
      case TName(_) => None
  }

  /** Parses `count` documents in a row. */
  function ParseItems(count: nat, t: Text): (r: Option<(seq<Value>, Text)>)
    ensures r.Some? ==> |r.value.1| <= |t| && |r.value.0| == count
    decreases |t|, 1, count
  {
    if count == 0 then Some(([], t))
    else match Parse(t)
      case None => None
      case Some((first, rest)) =>
        (match ParseItems(count - 1, rest)
         case None => None
         case Some((others, rest')) => Some(([first] + others, rest')))
  }

  /** Parses `count` members, each a name token followed by a document. */
  function ParseMembers(count: nat, t: Text): (r: Option<(seq<Member>, Text)>)
    ensures r.Some? ==> |r.value.1| <= |t| && |r.value.0| == count
    decreases |t|, 1, count
  {
    if count == 0 then Some(([], t))
    else if t == [] || !t[0].TName? then None
    else match Parse(t[1..])
      case None => None
      case Some((value, rest)) =>
        (match ParseMembers(count - 1, rest)
         case None => None
         case Some((others, rest')) => Some(([Member(t[0].name, value)] + others, rest')))
  }

  /** `json.loads`: one whole document, nothing before or after it. */
  function Loads(t: Text): Option<Value> {
    match Parse(t)
    case Some((v, rest)) => if rest == [] then Some(v) else None
    case None => None
  }

  lemma {:induction false} ParseDumps(v: Value, rest: Text)
    ensures Parse(Dumps(v) + rest) == Some((v, rest))
    decreases v
  {
    var t := Dumps(v) + rest;
    match v
    case Array(items) =>
      assert t[0] == TArray(|items|);
      assert t[1..] == DumpsItems(items) + rest;
      ParseDumpsItems(items, rest);
    case Object(members) =>
      assert t[0] == TObject(|members|);
      assert t[1..] == DumpsMembers(members) + rest;
      ParseDumpsMembers(members, rest);
    case _ =>
      assert |Dumps(v)| == 1 && t[1..] == rest;
  }

  lemma {:induction false} ParseDumpsItems(items: seq<Value>, rest: Text)
    ensures ParseItems(|items|, DumpsItems(items) + rest) == Some((items, rest))
    decreases items
  {
    if items != [] {
      var tail := DumpsItems(items[1..]) + rest;
      var t := DumpsItems(items) + rest;
      assert t == Dumps(items[0]) + tail;
      ParseDumps(items[0], tail);
      assert Parse(t) == Some((items[0], tail));
      ParseDumpsItems(items[1..], rest);
      assert ParseItems(|items| - 1, tail) == Some((items[1..], rest));
      assert ParseItems(|items|, t) == Some(([items[0]] + items[1..], rest));
      assert [items[0]] + items[1..] == items;
    } else {
      assert DumpsItems(items) + rest == rest;
    }
  }

  lemma {:induction false} ParseDumpsMembers(members: seq<Member>, rest: Text)
    ensures ParseMembers(|members|, DumpsMembers(members) + rest) == Some((members, rest))
    decreases members
  {
    if members != [] {
      var m := members[0];
      var tail := DumpsMembers(members[1..]) + rest;
      var t := DumpsMembers(members) + rest;
      assert t == [TName(m.name)] + (Dumps(m.value) + tail);
      assert t[0] == TName(m.name) && t[1..] == Dumps(m.value) + tail;
      ParseDumps(m.value, tail);
      assert Parse(t[1..]) == Some((m.value, tail));
      ParseDumpsMembers(members[1..], rest);
      assert ParseMembers(|members| - 1, tail) == Some((members[1..], rest));
      assert [Member(m.name, m.value)] + members[1..] == members;
    } else {
      assert DumpsMembers(members) + rest == rest;
    }
  }

  /** Whatever `json.dumps` writes, `json.loads` reads back unchanged. */
  lemma LoadsDumps(v: Value)
    ensures Loads(Dumps(v)) == Some(v)
  {
    ParseDumps(v, []);
    assert Dumps(v) + [] == Dumps(v);
  }
}
