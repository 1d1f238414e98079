/** The parser as the source runs it: a buffer whose offset and depth the methods move, loops for the
    two string passes and for array and object elements, and a byte buffer sized by the first pass. */
module JsonParser {
  import opened Wrappers
  import opened Text
  import opened Json
  import G = JsonParse
  import Fit = JsonStringFit

  /** A code point without its last `k` groups of six bits. */
  function Shift(codepoint: nat, k: nat): nat {
    if k == 0 then codepoint else Shift(codepoint, k - 1) / 0x40
  }

  function Utf8Length(codepoint: nat): nat {
    if codepoint < 0x80 then 1 else if codepoint < 0x800 then 2 else if codepoint < 0x10000 then 3 else 4
  }

  function FirstByteMark(codepoint: nat): nat {
    if codepoint < 0x80 then 0 else if codepoint < 0x800 then 0xC0 else if codepoint < 0x10000 then 0xE0 else 0xF0
  }

  /** The bytes of an encoding: the mark and the highest bits, then six bits each. */
  lemma Utf8At(codepoint: nat, i: nat)
    requires codepoint < 0x110000 && i < Utf8Length(codepoint)
    ensures |G.Utf8(codepoint)| == Utf8Length(codepoint)
    ensures Shift(codepoint, Utf8Length(codepoint) - 1) + FirstByteMark(codepoint) < 0x100
    ensures G.Utf8(codepoint)[i] ==
      if i == 0 then (FirstByteMark(codepoint) + Shift(codepoint, Utf8Length(codepoint) - 1)) as char
      else (0x80 + Shift(codepoint, Utf8Length(codepoint) - 1 - i) % 0x40) as char
  {
    var n := Utf8Length(codepoint);
    Shifts(codepoint);
  }

  lemma Shifts(codepoint: nat)
    ensures Shift(codepoint, 0) == codepoint && Shift(codepoint, 1) == codepoint / 0x40
    ensures Shift(codepoint, 2) == codepoint / 0x1000 && Shift(codepoint, 3) == codepoint / 0x40000
  {
    assert Shift(codepoint, 2) == Shift(codepoint, 1) / 0x40 && Shift(codepoint, 3) == Shift(codepoint, 2) / 0x40;
  }

  /** The codepoint encoded as UTF-8 behind the `w` characters already written. */
  method EncodeUtf8(codepoint: nat, output: array<char>, w: nat) returns (w': nat)
    requires codepoint < 0x110000 && w + |G.Utf8(codepoint)| <= output.Length
    modifies output
    ensures w' == w + |G.Utf8(codepoint)|
    ensures output[..w'] == old(output[..w]) + G.Utf8(codepoint)
    ensures forall i :: w' <= i < output.Length ==> output[i] == old(output[i])
  {
    hide G.Utf8, Shift;
    var length, mark := 1, 0;
    if codepoint >= 0x10000 { length, mark := 4, 0xF0; }
    else if codepoint >= 0x800 { length, mark := 3, 0xE0; }
    else if codepoint >= 0x80 { length, mark := 2, 0xC0; }
    ghost var spec := G.Utf8(codepoint);
    Utf8At(codepoint, 0);
    Shifts(codepoint);
    var position, rest := length - 1, codepoint;
    while position > 0
      invariant 0 <= position < length == |spec| && rest == Shift(codepoint, length - 1 - position)
      invariant forall i :: position < i < length ==> output[w + i] == spec[i]
      invariant forall i :: 0 <= i < w || w + length <= i < output.Length ==> output[i] == old(output[i])
    {
      Utf8At(codepoint, position);
      ShiftOnce(codepoint, length - 1 - position);
      output[w + position] := (0x80 + rest % 0x40) as char;
      rest := rest / 0x40;
      position := position - 1;
    }
    output[w] := (mark + rest) as char;
    w' := w + length;
    assert output[..w'] == output[..w] + output[w..w'] && output[..w] == old(output[..w]);
    assert output[w..w'] == spec;
  }

  lemma ShiftOnce(codepoint: nat, k: nat)
    ensures Shift(codepoint, k + 1) == Shift(codepoint, k) / 0x40
  {
  }

  class ParseBuffer {
    const content: string
    var offset: nat
    var depth: nat

    ghost predicate Valid()
      reads this
    {
      G.Terminated(content) && offset < |content|
    }

    constructor (text: string)
      requires NulFree(text)
      ensures Valid() && content == text + [NUL] && offset == 0 && depth == 0
    {
      content := text + [NUL];
      offset, depth := 0, 0;
    }

    method SkipWhitespace()
      requires Valid()
      modifies this`offset
      ensures Valid() && offset == G.SkipSpace(content, old(offset))
    {
      while offset < |content| && content[offset] <= ' '
        invariant old(offset) <= offset <= |content|
        invariant G.SkipSpace(content, old(offset)) ==
                  if offset < |content| then G.SkipSpace(content, offset) else |content| - 1
      {
        offset := offset + 1;
      }
      if offset == |content| {
        offset := offset - 1;
      }
    }

    /** First pass: where the string ends and how many escapes it has. */
    method ScanString(start: nat) returns (ok: bool, end: nat, skipped: nat)
      requires start <= |content|
      ensures ok ==> G.ScanString(content, start) == Some((end, skipped))
      ensures !ok ==> G.ScanString(content, start) == None
    {
      end, skipped := start, 0;
      while end < |content| && content[end] != '\"'
        invariant start <= end <= |content|
        invariant match G.ScanString(content, end)
                  case None => G.ScanString(content, start) == None
                  case Some((e, k)) => G.ScanString(content, start) == Some((e, skipped + k))
      {
        if content[end] == '\\' {
          if end + 1 >= |content| {
            return false, end, skipped;
          }
          skipped := skipped + 1;
          end := end + 1;
        }
        end := end + 1;
      }
      ok := end < |content|;
    }

    /** What the second pass keeps: the room left is enough for what can still be written. */
    ghost predicate Room(p: nat, end: nat, lag: nat, left: nat, w: nat, size: nat) {
      && end < |content| && p <= end + 1 && Fit.Tracks(content, p, end, lag, left)
      && left + p <= end + 1 && w + (end + 1 - p) <= size - 1 + left
    }

    /** One character or escape of the second pass. */
    method UnescapeOne(p: nat, end: nat, ghost lag: nat, ghost left: nat, output: array<char>, w: nat)
      returns (ok: bool, length: nat, w': nat, ghost chunk: string, ghost lag': nat, ghost left': nat)
      requires p < end && Room(p, end, lag, left, w, output.Length)
      modifies output
      ensures !ok ==> G.Unescape(content, p, end) == None
      ensures ok ==> length > 0 && Room(p + length, end, lag', left', w', output.Length)
      ensures ok ==> w' == w + |chunk| && output[..w'] == old(output[..w]) + chunk
      ensures ok ==> G.Unescape(content, p, end) == G.Prefix(chunk, G.Unescape(content, p + length, end))
    {
      hide G.ScanString, G.Utf8, G.Utf16Literal, G.SimpleEscape, Fit.Tracks;
      ok, length, w', chunk, lag', left' := true, 1, w, [], lag, left;
      if content[p] != '\\' {
        chunk := [content[p]];
      } else if content[p + 1] == 'u' {
        match G.Utf16Literal(content, p, end)
        case None => ok := false; return;
        case Some((codepoint, n)) =>
          length, chunk := n, G.Utf8(codepoint);
          lag', left' := Fit.Step(content, p, end, lag, left, length);
          w' := EncodeUtf8(codepoint, output, w);
          return;
      } else {
        match G.SimpleEscape(content[p + 1])
        case None => ok := false; return;
        case Some(c) =>
          length, chunk := 2, [c];
      }
      lag', left' := Fit.Step(content, p, end, lag, left, length);
      output[w] := if length == 1 then content[p] else G.SimpleEscape(content[p + 1]).value;
      w' := w + 1;
    }

    /** Second pass: every write lands inside the buffer of `allocation_length + 1` characters. */
    method UnescapeInto(start: nat, end: nat, ghost skipped: nat, output: array<char>) returns (ok: bool, w: nat)
      requires 0 < start && G.ScanString(content, start) == Some((end, skipped))
      requires output.Length == Fit.AllocationLength(start - 1, end, skipped) + 1
      modifies output
      ensures ok ==> w < output.Length && G.Unescape(content, start, end) == Some(output[..w])
      ensures !ok ==> G.Unescape(content, start, end) == None
    {
      hide G.ScanString, Fit.Tracks;
      var p, length := start, 0;
      w := 0;
      ghost var lag: nat, left: nat, chunk := 0, skipped, [];
      Fit.Start(content, start, end, skipped);
      PrefixLaws("", "", G.Unescape(content, p, end));
      while p < end
        invariant start <= p && Room(p, end, lag, left, w, output.Length)
        invariant G.Unescape(content, start, end) == G.Prefix(output[..w], G.Unescape(content, p, end))
        decreases end + 1 - p
      {
        ghost var before := output[..w];
        ok, length, w, chunk, lag, left := UnescapeOne(p, end, lag, left, output, w);
        if !ok {
          return;
        }
        p := p + length;
        PrefixLaws(before, chunk, G.Unescape(content, p, end));
      }
      assert output[..w] + "" == output[..w];
      ok := true;
    }

    method ParseString() returns (ok: bool, value: string)
      requires Valid()
      modifies this`offset
      ensures ok ==> Valid() && G.ParseString(content, old(offset)) == G.Ok(value, offset)
      ensures !ok ==> G.ParseString(content, old(offset)) == G.Fail
    {
      hide G.ScanString, G.Unescape, CStr;
      value := "";
      if content[offset] != '\"' {
        return false, value;
      }
      var scanned, end, skipped := ScanString(offset + 1);
      if !scanned {
        return false, value;
      }
      var output := new char[end - offset - skipped + 1];
      var w;
      ok, w := UnescapeInto(offset + 1, end, skipped, output);
      if ok {
        ghost var t := output[..w];
        output[w] := NUL;
        assert output[..w + 1] == t + [NUL];
        CStrTerminated(t);
        value := CStr(output[..w + 1]);
        offset := end + 1;
      }
    }

    /** Copies the number's characters, at most 63, into the buffer for `strtod`. */
    method CopyNumber(number: array<char>) returns (i: nat)
      requires Valid() && number.Length == 64
      modifies number
      ensures i == G.NumberRun(content, offset, 63) && number[..i] == content[offset..offset + i]
    {
      hide G.IsNumberChar, G.NumberRun;
      i := 0;
      while i < 63 && offset + i < |content| && G.IsNumberChar(content[offset + i])
        invariant 0 <= i <= 63 && offset + i <= |content|
        invariant forall k :: offset <= k < offset + i ==> G.IsNumberChar(content[k])
        invariant number[..i] == content[offset..offset + i]
      {
        ghost var copied := number[..i];
        number[i] := content[offset + i];
        assert number[..i + 1] == copied + [content[offset + i]];
        i := i + 1;
      }
      ghost var copied := number[..i];
      number[i] := NUL;
      assert number[..i] == copied;
      G.NumberRunIs(content, offset, 63, i);
    }

    method ParseNumber() returns (ok: bool, item: Json)
      requires Valid()
      modifies this`offset
      ensures ok ==> Valid() && G.ParseNumber(content, old(offset)) == G.Ok(item, offset)
      ensures !ok ==> G.ParseNumber(content, old(offset)) == G.Fail
    {
      hide G.Strtod, G.NumberRun, G.IsNumberChar;
      var number := new char[64];
      var i := CopyNumber(number);
      item := Null;
      var result := G.Strtod(number[..i]);
      ok := result.0 > 0;
      if ok {
        NumberEnds(content, offset, i);
        item := Number(result.1);
        offset := offset + result.0;
      }
    }

    method ParseValue() returns (ok: bool, item: Json)
      requires Valid()
      modifies this
      ensures ok ==> Valid() && depth == old(depth) && G.ParseValue(content, old(offset), old(depth)) == G.Ok(item, offset)
      ensures !ok ==> G.ParseValue(content, old(offset), old(depth)) == G.Fail
      decreases |content| - offset, 2
    {
      hide G.ParseItems, G.ParseMembers, G.ParseString, G.ParseNumber, G.SkipSpace, At;
      var c := content[offset];
      ok, item := true, Null;
      if c == 'n' && At(content, offset, "null") {
        AtChar(content, offset, "null", 3);
        offset := offset + 4;
      } else if c == 'f' && At(content, offset, "false") {
        AtChar(content, offset, "false", 4);
        item := Bool(false);
        offset := offset + 5;
      } else if c == 't' && At(content, offset, "true") {
        AtChar(content, offset, "true", 3);
        item := Bool(true);
        offset := offset + 4;
      } else if c == '\"' {
        var text;
        ok, text := ParseString();
        item := Str(text);
      } else if c == '-' || IsDigit(c) {
        ok, item := ParseNumber();
      } else if c == '[' {
        ok, item := ParseArray();
      } else if c == '{' {
        ok, item := ParseObject();
      } else {
        ok := false;
      }
    }

    method ParseArray() returns (ok: bool, item: Json)
      requires Valid() && content[offset] == '['
      modifies this
      ensures ok ==> Valid() && depth == old(depth) && G.ParseValue(content, old(offset), old(depth)) == G.Ok(item, offset)
      ensures !ok ==> G.ParseValue(content, old(offset), old(depth)) == G.Fail
      decreases |content| - offset, 1
    {
      hide G.SkipSpace, G.ParseValue, G.ParseItems;
      G.BracketStep(content, offset, depth);
      item := Null;
      if depth >= G.NESTING_LIMIT {
        return false, item;
      }
      depth := depth + 1;
      offset := offset + 1;
      SkipWhitespace();
      var items := [];
      if content[offset] == ']' {
        depth := depth - 1;
        offset := offset + 1;
        return true, Array(items);
      }
      SkipIdempotent(content, old(offset) + 1);
      ok, items := ParseElements();
      if ok {
        depth := depth - 1;
        item := Array(items);
        offset := offset + 1;
      }
    }

    /** The elements up to the closing bracket. */
    method ParseElements() returns (ok: bool, items: seq<Json>)
      requires Valid() && offset > 0 && G.SkipSpace(content, offset) == offset
      modifies this
      ensures ok ==> Valid() && depth == old(depth) && content[offset] == ']'
      ensures ok ==> G.ParseItems(content, old(offset), depth) == G.Ok(items, offset + 1)
      ensures !ok ==> G.ParseItems(content, old(offset), old(depth)) == G.Fail
      decreases |content| - offset, 4
    {
      hide G.SkipSpace, G.ParseValue, G.ParseMember, G.ParseItems;
      ghost var start, d := offset, depth;
      items := [];
      // step back to the character in front of the first one
      offset := offset - 1;
      var more := true;
      G.CatLaws([], [], G.ParseItems(content, start, d));
      while more
        invariant depth == d && start <= offset + 1
        invariant more ==> offset + 1 < |content|
        invariant more ==> G.ParseItems(content, start, d)
                           == G.Cat(items, G.ParseItems(content, G.SkipSpace(content, offset + 1), d))
        invariant !more ==> Valid()
        invariant !more ==> G.ParseItems(content, start, d)
                            == if content[offset] == ']' then G.Ok(items, offset + 1) else G.Fail
        decreases more, |content| - offset
      {
        offset := offset + 1;
        SkipWhitespace();
        G.ItemsStep(content, offset, d);
        var parsed, v := ParseValue();
        if !parsed {
          return false, items;
        }
        SkipWhitespace();
        more := content[offset] == ',';
        if more { G.CatLaws(items, [v], G.ParseItems(content, G.SkipSpace(content, offset + 1), d)); }
        items := items + [v];
      }
      ok := content[offset] == ']';
    }

    /** A key, a colon and a value. */
    method ParseMember() returns (ok: bool, m: Member)
      requires Valid()
      modifies this
      ensures ok ==> Valid() && depth == old(depth) && G.ParseMember(content, old(offset), old(depth)) == G.Ok(m, offset)
      ensures !ok ==> G.ParseMember(content, old(offset), old(depth)) == G.Fail
      decreases |content| - offset, 3
    {
      hide G.SkipSpace, G.ParseString, G.ParseValue;
      m := Member("", Null);
      var key, value;
      ok, key := ParseString();
      if !ok {
        return;
      }
      SkipWhitespace();
      if content[offset] != ':' {
        return false, m;
      }
      offset := offset + 1;
      SkipWhitespace();
      ok, value := ParseValue();
      m := Member(key, value);
    }

    method ParseObject() returns (ok: bool, item: Json)
      requires Valid() && content[offset] == '{'
      modifies this
      ensures ok ==> Valid() && depth == old(depth) && G.ParseValue(content, old(offset), old(depth)) == G.Ok(item, offset)
      ensures !ok ==> G.ParseValue(content, old(offset), old(depth)) == G.Fail
      decreases |content| - offset, 1
    {
      hide G.SkipSpace, G.ParseValue, G.ParseMembers, G.ParseMember;
      G.BraceStep(content, offset, depth);
      item := Null;
      if depth >= G.NESTING_LIMIT {
        return false, item;
      }
      depth := depth + 1;
      offset := offset + 1;
      SkipWhitespace();
      var members := [];
      if content[offset] == '}' {
        depth := depth - 1;
        offset := offset + 1;
        return true, Object(members);
      }
      SkipIdempotent(content, old(offset) + 1);
      ok, members := ParsePairs();
      if ok {
        depth := depth - 1;
        item := Object(members);
        offset := offset + 1;
      }
    }

    /** The members up to the closing brace. */
    method ParsePairs() returns (ok: bool, members: seq<Member>)
      requires Valid() && offset > 0 && G.SkipSpace(content, offset) == offset
      modifies this
      ensures ok ==> Valid() && depth == old(depth) && content[offset] == '}'
      ensures ok ==> G.ParseMembers(content, old(offset), depth) == G.Ok(members, offset + 1)
      ensures !ok ==> G.ParseMembers(content, old(offset), old(depth)) == G.Fail
      decreases |content| - offset, 4
    {
      hide G.SkipSpace, G.ParseValue, G.ParseMember, G.ParseMembers;
      ghost var start, d := offset, depth;
      members := [];
      // step back to the character in front of the first one
      offset := offset - 1;
      var more := true;
      G.CatLaws([], [], G.ParseMembers(content, start, d));
      while more
        invariant depth == d && start <= offset + 1
        invariant more ==> offset + 1 < |content|
        invariant more ==> G.ParseMembers(content, start, d)
                           == G.Cat(members, G.ParseMembers(content, G.SkipSpace(content, offset + 1), d))
        invariant !more ==> Valid()
        invariant !more ==> G.ParseMembers(content, start, d)
                            == if content[offset] == '}' then G.Ok(members, offset + 1) else G.Fail
        decreases more, |content| - offset
      {
        offset := offset + 1;
        SkipWhitespace();
        G.MembersStep(content, offset, d);
        var parsed, m := ParseMember();
        if !parsed {
          return false, members;
        }
        SkipWhitespace();
        more := content[offset] == ',';
        if more { G.CatLaws(members, [m], G.ParseMembers(content, G.SkipSpace(content, offset + 1), d)); }
        members := members + [m];
      }
      ok := content[offset] == '}';
    }
  }

  /** `cJSON_Parse`. */
  method Parse(text: string) returns (r: Option<Json>)
    requires NulFree(text)
    ensures r == G.Parse(text)
  {
    hide G.ParseValue;
    var buffer := new ParseBuffer(text);
    if |buffer.content| > 4 && At(buffer.content, 0, G.BOM) {
      buffer.offset := 3;
    }
    buffer.SkipWhitespace();
    var ok, item := buffer.ParseValue();
    r := if ok then Some(item) else None;
  }

  lemma NumberEnds(s: string, off: nat, n: nat)
    requires G.Terminated(s) && 0 < n && off + n <= |s| && G.IsNumberChar(s[off + n - 1])
    ensures off + n < |s|
  {
  }

  lemma {:induction false} SkipIdempotent(s: string, off: nat)
    requires off < |s|
    ensures G.SkipSpace(s, G.SkipSpace(s, off)) == G.SkipSpace(s, off)
    decreases |s| - off
  {
    if s[off] <= ' ' && off + 1 < |s| { SkipIdempotent(s, off + 1); }
  }

  lemma PrefixLaws(a: string, b: string, r: Option<string>)
    ensures G.Prefix(a, G.Prefix(b, r)) == G.Prefix(a + b, r)
    ensures G.Prefix("", r) == r
  {
    if r.Some? {
      assert a + (b + r.value) == a + b + r.value && "" + r.value == r.value;
    }
  }
}
