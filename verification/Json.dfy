/** JSON trees as the cJSON layer holds them: arrays and objects keep their children in order. */
module Json {
  import opened Text

  datatype Json =
    | Null
    | Bool(b: bool)
    | Number(n: real)
    | Str(s: string)
    | Array(items: seq<Json>)
    | Object(members: seq<Member>)

  datatype Member = Member(key: string, value: Json)

  /** How deeply arrays and objects are nested: what the parser's depth counter reaches. */
  function Nesting(j: Json): (d: nat)
    decreases j, 0
  {
    match j
    case Array(items) => 1 + ItemsNesting(items)
    case Object(members) => 1 + MembersNesting(members)
    case _ => 0
  }

  function ItemsNesting(items: seq<Json>): (d: nat)
    decreases items, 1
  {
    if items == [] then 0 else Max(Nesting(items[0]), ItemsNesting(items[1..]))
  }

  function MembersNesting(members: seq<Member>): (d: nat)
    decreases members, 1
  {
    if members == [] then 0 else Max(Nesting(members[0].value), MembersNesting(members[1..]))
  }

  function Max(a: nat, b: nat): (m: nat)
    ensures m >= a && m >= b && (m == a || m == b)
  {
    if a < b then b else a
  }

  /** 10^15: below it `%1.15g` prints an integral double as its plain decimal digits. */
  const EXACT_LIMIT: int := 1_000_000_000_000_000

  predicate ExactInteger(n: real) {
    n == n.Floor as real && -EXACT_LIMIT < n.Floor < EXACT_LIMIT
  }

  /** Trees whose text the model gives: exact integers for numbers, C strings for text. */
  predicate Printable(j: Json)
    decreases j
  {
    match j
    case Number(n) => ExactInteger(n)
    case Str(s) => NulFree(s)
    case Array(items) => forall i :: 0 <= i < |items| ==> Printable(items[i])
    case Object(members) =>
      forall i :: 0 <= i < |members| ==> NulFree(members[i].key) && Printable(members[i].value)
    case _ => true
  }
}
