/** The text the cJSON printer produces. */
module JsonPrint {
  import opened Text
  import opened Json

  /** `%x` of one nibble. */
  function HexDigit(d: nat): (c: char)
    requires d < 16
  {
    if d < 10 then '0' + d as char else 'a' + (d - 10) as char
  }

  /** How one character of a string is written. */
  function EscapeChar(c: char): (r: string)
    ensures |r| == 1 + EscapeCost(c)
  {
    if c == '\"' then "\\\""
    else if c == '\\' then "\\\\"
    else if c == BACKSPACE then "\\b"
    else if c == FORM_FEED then "\\f"
    else if c == '\n' then "\\n"
    else if c == '\r' then "\\r"
    else if c == '\t' then "\\t"
    else if c < ' ' then "\\u00" + [HexDigit(c as int / 16), HexDigit(c as int % 16)]
    else [c]
  }

  /** The extra characters the counting pass adds up for one character. */
  function EscapeCost(c: char): nat {
    if c in {'\"', '\\', BACKSPACE, FORM_FEED, '\n', '\r', '\t'} then 1
    else if c < ' ' then 5
    else 0
  }

  function Escape(s: string): (r: string) {
    if s == "" then "" else EscapeChar(s[0]) + Escape(s[1..])
  }

  function Quote(s: string): (r: string) {
    "\"" + Escape(s) + "\""
  }

  function NumberText(n: real): (r: string)
    requires ExactInteger(n)
  {
    IntText(n.Floor)
  }

  function Tabs(format: bool, count: nat): (r: string)
    ensures |r| == (if format then count else 0) && forall i :: 0 <= i < |r| ==> r[i] == '\t'
  {
    if format then Repeat('\t', count) else ""
  }

  function If(c: bool, s: string): (r: string) {
    if c then s else ""
  }

  function ValueText(j: Json, format: bool, depth: nat): (r: string)
    requires Printable(j)
    decreases j, 0
  {
    match j
    case Null => "null"
    case Bool(b) => if b then "true" else "false"
    case Number(n) => NumberText(n)
    case Str(s) => Quote(s)
    case Array(items) => "[" + ItemsText(items, format, depth + 1) + "]"
    case Object(members) =>
      "{" + If(format, "\n") + MembersText(members, format, depth + 1) + Tabs(format, depth) + "}"
  }

  function ItemsText(items: seq<Json>, format: bool, depth: nat): (r: string)
    requires forall i :: 0 <= i < |items| ==> Printable(items[i])
    decreases items, 1
  {
    if items == [] then "" else
      ValueText(items[0], format, depth)
      + If(|items| > 1, ",") + If(|items| > 1 && format, " ")
      + ItemsText(items[1..], format, depth)
  }

  function MembersText(members: seq<Member>, format: bool, depth: nat): (r: string)
    requires forall i :: 0 <= i < |members| ==> NulFree(members[i].key) && Printable(members[i].value)
    decreases members, 1
  {
    if members == [] then "" else
      MemberText(members[0], format, depth)
      + If(|members| > 1, ",") + If(format, "\n")
      + MembersText(members[1..], format, depth)
  }

  /** One member, up to its separator. */
  function MemberText(m: Member, format: bool, depth: nat): (r: string)
    requires NulFree(m.key) && Printable(m.value)
    decreases m, 0
  {
    Tabs(format, depth) + Quote(m.key) + ":" + If(format, "\t") + ValueText(m.value, format, depth)
  }

  /** `cJSON_Print` (format) and `cJSON_PrintUnformatted`. */
  function Print(j: Json, format: bool): (r: string)
    requires Printable(j)
  {
    ValueText(j, format, 0)
  }
}
