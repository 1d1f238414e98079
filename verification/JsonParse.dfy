/** The cJSON recursive-descent parser, as a function of the buffer, the offset and the depth. */
module JsonParse {
  import opened Wrappers
  import opened Text
  import opened Json

  const NESTING_LIMIT: nat := 1000

  datatype Parsed<+T> = Fail | Ok(value: T, next: nat)

  /** A parse buffer: `strlen + 1` bytes, the last of them the terminator. */
  predicate Terminated(s: string) {
    |s| > 0 && s[|s| - 1] == NUL
  }

  /** Skips characters up to ' ', stepping back to the terminator when it runs off the end. */
  function SkipSpace(s: string, off: nat): (r: nat)
    requires off < |s|
    ensures off <= r < |s|
    decreases |s| - off
  {
    if s[off] > ' ' || off + 1 == |s| then off else SkipSpace(s, off + 1)
  }

  // ---------------------------------------------------------------- strings

  /** First pass: the closing quote, and how many escapes were skipped over. */
  function ScanString(s: string, p: nat): (r: Option<(nat, nat)>)
    ensures r.Some? ==> p <= r.value.0 < |s| && s[r.value.0] == '\"' && p + 2 * r.value.1 <= r.value.0
    decreases |s| - p
  {
    if p >= |s| then None
    else if s[p] == '\"' then Some((p, 0))
    else if s[p] == '\\' then
      if p + 1 >= |s| then None else
        match ScanString(s, p + 2)
        case None => None
        case Some((end, skipped)) => Some((end, skipped + 1))
    else ScanString(s, p + 1)
  }

  function HexValue(c: char): (r: Option<nat>)
    ensures r.Some? ==> r.value < 16
  {
    if '0' <= c <= '9' then Some(c as int - '0' as int)
    else if 'A' <= c <= 'F' then Some(10 + c as int - 'A' as int)
    else if 'a' <= c <= 'f' then Some(10 + c as int - 'a' as int)
    else None
  }

  /** Four hexadecimal digits; anything else reads as zero. */
  function Hex4(s: string, p: nat): (h: nat)
    requires p + 4 <= |s|
    ensures h < 0x10000
  {
    var a, b, c, d := HexValue(s[p]), HexValue(s[p + 1]), HexValue(s[p + 2]), HexValue(s[p + 3]);
    if a.None? || b.None? || c.None? || d.None? then 0
    else ((a.value * 16 + b.value) * 16 + c.value) * 16 + d.value
  }

  function Continuation(codepoint: nat): char {
    (0x80 + codepoint % 0x40) as char
  }

  function Utf8(codepoint: nat): (r: string)
    requires codepoint < 0x110000
    ensures 1 <= |r| <= 4
    ensures codepoint < 0x10000 ==> |r| <= 3
  {
    if codepoint < 0x80 then [codepoint as char]
    else if codepoint < 0x800 then [(0xC0 + codepoint / 0x40) as char, Continuation(codepoint)]
    else if codepoint < 0x10000 then
      [(0xE0 + codepoint / 0x1000) as char, Continuation(codepoint / 0x40), Continuation(codepoint)]
    else
      [(0xF0 + codepoint / 0x40000) as char, Continuation(codepoint / 0x1000),
       Continuation(codepoint / 0x40), Continuation(codepoint)]
  }

  /** A `\uXXXX` literal, or two of them for a surrogate pair: its code point and its length. */
  function Utf16Literal(s: string, p: nat, end: nat): (r: Option<(nat, nat)>)
    requires p <= end <= |s|
    ensures r.Some? ==> r.value.0 < 0x110000 && r.value.1 in {6, 12} && p + r.value.1 <= end
    ensures r.Some? && r.value.1 == 6 ==> r.value.0 < 0x10000
  {
    if end - p < 6 then None else
    var first := Hex4(s, p + 2);
    if 0xDC00 <= first <= 0xDFFF then None
    else if 0xD800 <= first <= 0xDBFF then
      if end - (p + 6) < 6 then None
      else if s[p + 6] != '\\' || s[p + 7] != 'u' then None
      else
        var second := Hex4(s, p + 8);
        if second < 0xDC00 || second > 0xDFFF then None
        else Some((0x10000 + first % 0x400 * 0x400 + second % 0x400, 12))
    else Some((first, 6))
  }

  /** What a one-character escape stands for. */
  function SimpleEscape(c: char): (r: Option<char>) {
    match c
    case 'b' => Some(BACKSPACE)
    case 'f' => Some(FORM_FEED)
    case 'n' => Some('\n')
    case 'r' => Some('\r')
    case 't' => Some('\t')
    case '\"' => Some('\"')
    case '\\' => Some('\\')
    case '/' => Some('/')
    case _ => None
  }

  /** Second pass: the bytes written for `s[p..end]`.  A malformed `\u` escape reads as code point
      zero and still consumes six characters, so `p` may step past `end` by one. */
  function Unescape(s: string, p: nat, end: nat): (r: Option<string>)
    requires p <= end + 1 && end < |s|
    decreases end + 1 - p
  {
    if p >= end then Some("")
    else if s[p] != '\\' then Prefix([s[p]], Unescape(s, p + 1, end))
    else if s[p + 1] == 'u' then
      match Utf16Literal(s, p, end)
      case None => None
      case Some((codepoint, length)) => Prefix(Utf8(codepoint), Unescape(s, p + length, end))
    else
      match SimpleEscape(s[p + 1])
      case None => None
      case Some(c) => Prefix([c], Unescape(s, p + 2, end))
  }

  function Prefix(a: string, r: Option<string>): Option<string> {
    match r
    case None => None
    case Some(b) => Some(a + b)
  }

  /** `parse_string`: the parsed C string and the offset behind the closing quote. */
  function ParseString(s: string, off: nat): (r: Parsed<string>)
    requires Terminated(s) && off < |s|
    ensures r.Ok? ==> off < r.next < |s|
  {
    if s[off] != '\"' then Fail else
    match ScanString(s, off + 1)
    case None => Fail
    case Some((end, _)) =>
      match Unescape(s, off + 1, end)
      case None => Fail
      case Some(t) => Ok(CStr(t), end + 1)
  }

  // ---------------------------------------------------------------- numbers

  predicate IsNumberChar(c: char) {
    IsDigit(c) || c == '+' || c == '-' || c == 'e' || c == 'E' || c == '.'
  }

  /** How many characters `parse_number` copies into its 64-byte buffer. */
  function NumberRun(s: string, off: nat, room: nat): (n: nat)
    requires off <= |s|
    ensures off + n <= |s| && n <= room
    ensures forall i :: off <= i < off + n ==> IsNumberChar(s[i])
    ensures n < room && off + n < |s| ==> !IsNumberChar(s[off + n])
    decreases |s| - off
  {
    if room == 0 || off == |s| || !IsNumberChar(s[off]) then 0
    else 1 + NumberRun(s, off + 1, room - 1)
  }

  lemma {:induction false} NumberRunIs(s: string, off: nat, room: nat, k: nat)
    requires off + k <= |s| && k <= room
    requires forall i :: off <= i < off + k ==> IsNumberChar(s[i])
    requires k == room || off + k == |s| || !IsNumberChar(s[off + k])
    ensures NumberRun(s, off, room) == k
    decreases k
  {
    if k > 0 { NumberRunIs(s, off + 1, room - 1, k - 1); }
  }

  /** The length of the digit run at the start of `s`. */
  function DigitRun(s: string): (n: nat)
    ensures n <= |s| && AllDigits(s[..n])
    ensures n < |s| ==> !IsDigit(s[n])
  {
    if s == "" || !IsDigit(s[0]) then 0
    else
      var n := DigitRun(s[1..]);
      assert s[..n + 1] == [s[0]] + s[1..][..n];
      1 + n
  }

  function Scale(x: real, e: int): real
    decreases if e < 0 then -e else e
  {
    if e == 0 then x else if e > 0 then Scale(10.0 * x, e - 1) else Scale(x / 10.0, e + 1)
  }

  /** The exponent at the start of `t`: characters used and value; none when no digit follows. */
  function Exponent(t: string): (r: (nat, int))
    ensures r.0 <= |t|
  {
    if t == "" || (t[0] != 'e' && t[0] != 'E') then (0, 0) else
    var sign := if |t| > 1 && (t[1] == '-' || t[1] == '+') then 1 else 0;
    var digits := DigitRun(t[1 + sign..]);
    if digits == 0 then (0, 0) else
    var e: int := Nat(t[1 + sign..][..digits]);
    (1 + sign + digits, if sign == 1 && t[1] == '-' then -e else e)
  }

  /** `strtod` in the C locale on number characters, without rounding: characters used and value.
      Zero characters used means there is no number. */
  function Strtod(t: string): (r: (nat, real))
    ensures r.0 <= |t|
  {
    var sign := if t != "" && (t[0] == '-' || t[0] == '+') then 1 else 0;
    var whole := DigitRun(t[sign..]);
    var p := sign + whole;
    var fraction := if p < |t| && t[p] == '.' then DigitRun(t[p + 1..]) else 0;
    var q := if p < |t| && t[p] == '.' then p + 1 + fraction else p;
    if whole + fraction == 0 then (0, 0.0) else
    var digits := t[sign..][..whole] + (if fraction == 0 then "" else t[p + 1..][..fraction]);
    var magnitude := Nat(digits) as real;
    var signed := if sign == 1 && t[0] == '-' then -magnitude else magnitude;
    var (used, e) := Exponent(t[q..]);
    (q + used, Scale(signed, e - fraction))
  }

  /** `parse_number`. */
  function ParseNumber(s: string, off: nat): (r: Parsed<Json>)
    requires Terminated(s) && off < |s|
    ensures r.Ok? ==> off < r.next < |s|
  {
    var n := NumberRun(s, off, 63);
    var (used, value) := Strtod(s[off..off + n]);
    if used == 0 then Fail else
    assert IsNumberChar(s[off + n - 1]);
    Ok(Number(value), off + used)
  }

  // ---------------------------------------------------------------- values

  function ParseValue(s: string, off: nat, depth: nat): (r: Parsed<Json>)
    requires Terminated(s) && off < |s|
    ensures r.Ok? ==> off < r.next < |s|
    decreases |s| - off, 1
  {
    if s[off] == 'n' && At(s, off, "null") then Keyword(s, off, "null", Null)
    else if s[off] == 'f' && At(s, off, "false") then Keyword(s, off, "false", Bool(false))
    else if s[off] == 't' && At(s, off, "true") then Keyword(s, off, "true", Bool(true))
    else if s[off] == '\"' then
      match ParseString(s, off)
      case Fail => Fail
      case Ok(t, next) => Ok(Str(t), next)
    else if s[off] == '-' || IsDigit(s[off]) then ParseNumber(s, off)
    else if s[off] == '[' then
      if depth >= NESTING_LIMIT then Fail else
      var p := SkipSpace(s, off + 1);
      if s[p] == ']' then Ok(Array([]), p + 1) else
      match ParseItems(s, p, depth + 1)
      case Fail => Fail
      case Ok(items, next) => Ok(Array(items), next)
    else if s[off] == '{' then
      if depth >= NESTING_LIMIT then Fail else
      var p := SkipSpace(s, off + 1);
      if s[p] == '}' then Ok(Object([]), p + 1) else
      match ParseMembers(s, p, depth + 1)
      case Fail => Fail
      case Ok(members, next) => Ok(Object(members), next)
    else Fail
  }

  function Keyword(s: string, off: nat, word: string, j: Json): (r: Parsed<Json>)
    requires Terminated(s) && At(s, off, word) && NulFree(word) && word != ""
    ensures r.Ok? ==> off < r.next < |s|
  {
    assert off + |word| < |s| by { AtChar(s, off, word, |word| - 1); }
    Ok(j, off + |word|)
  }

  /** The comma-separated elements from `p` up to and including the closing bracket. */
  function ParseItems(s: string, p: nat, depth: nat): (r: Parsed<seq<Json>>)
    requires Terminated(s) && p < |s|
    ensures r.Ok? ==> p < r.next < |s|
    decreases |s| - p, 2
  {
    match ParseValue(s, p, depth)
    case Fail => Fail
    case Ok(v, next) =>
      var q := SkipSpace(s, next);
      if s[q] == ',' then
        match ParseItems(s, SkipSpace(s, q + 1), depth)
        case Fail => Fail
        case Ok(vs, end) => Ok([v] + vs, end)
      else if s[q] == ']' then Ok([v], q + 1)
      else Fail
  }

  /** One `"key": value` pair. */
  function ParseMember(s: string, p: nat, depth: nat): (r: Parsed<Member>)
    requires Terminated(s) && p < |s|
    ensures r.Ok? ==> p < r.next < |s|
    decreases |s| - p, 2
  {
    match ParseString(s, p)
    case Fail => Fail
    case Ok(key, afterKey) =>
      var colon := SkipSpace(s, afterKey);
      if s[colon] != ':' then Fail else
      match ParseValue(s, SkipSpace(s, colon + 1), depth)
      case Fail => Fail
      case Ok(v, next) => Ok(Member(key, v), next)
  }

  function ParseMembers(s: string, p: nat, depth: nat): (r: Parsed<seq<Member>>)
    requires Terminated(s) && p < |s|
    ensures r.Ok? ==> p < r.next < |s|
    decreases |s| - p, 3
  {
    match ParseMember(s, p, depth)
    case Fail => Fail
    case Ok(m, next) =>
      var q := SkipSpace(s, next);
      if s[q] == ',' then
        match ParseMembers(s, SkipSpace(s, q + 1), depth)
        case Fail => Fail
        case Ok(ms, end) => Ok([m] + ms, end)
      else if s[q] == '}' then Ok([m], q + 1)
      else Fail
  }

  /** `parse_value` at an opening bracket. */
  lemma BracketStep(s: string, off: nat, depth: nat)
    requires Terminated(s) && off < |s| && s[off] == '['
    ensures ParseValue(s, off, depth) ==
            if depth >= NESTING_LIMIT then Fail else
            var p := SkipSpace(s, off + 1);
            if s[p] == ']' then Ok(Array([]), p + 1) else
            match ParseItems(s, p, depth + 1)
            case Fail => Fail
            case Ok(items, next) => Ok(Array(items), next)
  {
  }

  /** `parse_value` at an opening brace. */
  lemma BraceStep(s: string, off: nat, depth: nat)
    requires Terminated(s) && off < |s| && s[off] == '{'
    ensures ParseValue(s, off, depth) ==
            if depth >= NESTING_LIMIT then Fail else
            var p := SkipSpace(s, off + 1);
            if s[p] == '}' then Ok(Object([]), p + 1) else
            match ParseMembers(s, p, depth + 1)
            case Fail => Fail
            case Ok(members, next) => Ok(Object(members), next)
  {
  }

  const BOM: string := "\U{EF}\U{BB}\U{BF}"

  /** `cJSON_Parse`: the tree at the start of a C string; text behind it is ignored. */
  function Parse(text: string): (r: Option<Json>)
    requires NulFree(text)
  {
    var s := text + [NUL];
    var start := if |s| > 4 && At(s, 0, BOM) then 3 else 0;
    match ParseValue(s, SkipSpace(s, start), 0)
    case Fail => None
    case Ok(j, _) => Some(j)
  }

  /** Elements parsed so far, then the rest. */
  function Cat<T>(done: seq<T>, r: Parsed<seq<T>>): Parsed<seq<T>> {
    match r
    case Fail => Fail
    case Ok(vs, next) => Ok(done + vs, next)
  }

  lemma CatLaws<T>(a: seq<T>, b: seq<T>, r: Parsed<seq<T>>)
    ensures Cat(a, Cat(b, r)) == Cat(a + b, r)
    ensures Cat([], r) == r
  {
    if r.Ok? {
      assert a + (b + r.value) == a + b + r.value && [] + r.value == r.value;
    }
  }

  /** One element of an array, as the loop of `parse_array` takes it. */
  lemma ItemsStep(s: string, p: nat, depth: nat)
    requires Terminated(s) && p < |s|
    ensures ParseItems(s, p, depth) ==
            match ParseValue(s, p, depth)
            case Fail => Fail
            case Ok(v, next) =>
              var q := SkipSpace(s, next);
              if s[q] == ',' then Cat([v], ParseItems(s, SkipSpace(s, q + 1), depth))
              else if s[q] == ']' then Ok([v], q + 1)
              else Fail
  {
  }

  lemma MembersStep(s: string, p: nat, depth: nat)
    requires Terminated(s) && p < |s|
    ensures ParseMembers(s, p, depth) ==
            match ParseMember(s, p, depth)
            case Fail => Fail
            case Ok(m, next) =>
              var q := SkipSpace(s, next);
              if s[q] == ',' then Cat([m], ParseMembers(s, SkipSpace(s, q + 1), depth))
              else if s[q] == '}' then Ok([m], q + 1)
              else Fail
  {
  }
}
