/** The printer as the source runs it: a character buffer that grows by reallocation, an offset that
    lags behind the text written, and writes that must stay inside the space last reserved. */
module JsonPrinter {
  import opened Text
  import opened Json
  import P = JsonPrint
  import R = JsonRoundTrip

  const INT_MAX: nat := 0x7FFF_FFFF
  const DEFAULT_BUFFER_SIZE: nat := 256

  class PrintBuffer {
    var buffer: array<char>
    var offset: nat
    var depth: nat
    const format: bool
    /** One past the last position that the latest reservation allows to be written. */
    ghost var limit: nat

    ghost predicate Valid()
      reads this
    {
      offset < buffer.Length <= INT_MAX
    }

    constructor (format: bool)
      ensures Valid() && fresh(buffer) && offset == 0 && depth == 0 && this.format == format
    {
      buffer := new char[DEFAULT_BUFFER_SIZE];
      offset, depth, limit := 0, 0, 0;
      this.format := format;
    }

    /** `ensure`: room for `needed` more characters, growing the buffer when it is too small. */
    method Ensure(needed: nat) returns (ok: bool)
      requires Valid()
      modifies this`buffer, this`limit
      ensures ok <==> offset + needed + 1 <= INT_MAX
      ensures ok ==> Valid() && limit == offset + needed < buffer.Length
      ensures ok ==> buffer[..offset] == old(buffer[..offset])
      ensures buffer == old(buffer) || fresh(buffer)
    {
      if needed > INT_MAX {
        return false;
      }
      limit := offset + needed;
      var total := needed + offset + 1;
      if total <= buffer.Length {
        return true;
      }
      var size := total * 2;
      if total > INT_MAX / 2 {
        if total > INT_MAX {
          return false;
        }
        size := INT_MAX;
      }
      var grown, i := new char[size], 0;
      while i < offset + 1
        invariant 0 <= i <= offset + 1
        invariant forall k :: 0 <= k < i ==> grown[k] == buffer[k]
        modifies grown
      {
        grown[i] := buffer[i];
        i := i + 1;
      }
      assert grown[..offset] == buffer[..offset];
      buffer := grown;
      return true;
    }

    /** Writes `text` behind the first `pos` characters, inside the reserved space. */
    method Write(pos: nat, text: string)
      requires pos + |text| <= limit < buffer.Length
      modifies buffer
      ensures buffer[..pos + |text|] == old(buffer[..pos]) + text
    {
      for i := 0 to |text|
        invariant forall k :: 0 <= k < pos ==> buffer[k] == old(buffer[k])
        invariant forall k :: 0 <= k < i ==> buffer[pos + k] == text[k]
      {
        buffer[pos + i] := text[i];
      }
      assert forall k {:trigger buffer[k]} :: pos <= k < pos + |text| ==> buffer[k] == text[k - pos];
    }

    /** `update_offset`: moves the offset to the terminator of the text just printed. */
    method UpdateOffset(ghost end: nat)
      requires offset <= end < buffer.Length && NulFree(buffer[offset..end]) && buffer[end] == NUL
      modifies this`offset
      ensures offset == end
    {
      assert forall k {:trigger buffer[k]} :: offset <= k < end ==> buffer[k] == buffer[offset..end][k - offset];
      while buffer[offset] != NUL
        invariant old(offset) <= offset <= end
        decreases end - offset
      {
        offset := offset + 1;
      }
    }

    /** The text `t` has been printed behind `before`; the offset may still lie inside it. */
    ghost predicate Printed(before: string, t: string)
      reads this, buffer
    {
      && |before| <= offset <= |before| + |t| < buffer.Length <= INT_MAX
      && buffer[..|before| + |t|] == before + t
      && buffer[|before| + |t|] == NUL
    }

    method Commit(ghost before: string, ghost t: string)
      requires Printed(before, t) && NulFree(t)
      modifies this`offset
      ensures Valid() && offset == |before + t| && buffer[..offset] == before + t
    {
      assert buffer[offset..|before + t|] == buffer[..|before + t|][offset..];
      assert buffer[offset..|before + t|] == t[offset - |before|..];
      UpdateOffset(|before + t|);
    }

    /** Reserves and writes `text` with its terminator, leaving the offset in front of it. */
    method PrintWord(text: string) returns (ok: bool)
      requires Valid()
      modifies this`buffer, this`limit, buffer
      ensures buffer == old(buffer) || fresh(buffer)
      ensures ok <==> offset + |text| + 2 <= INT_MAX
      ensures ok ==> Printed(old(buffer[..offset]), text)
    {
      ghost var before := buffer[..offset];
      ok := Ensure(|text| + 1);
      if ok {
        Write(offset, text + [NUL]);
        assert buffer[..offset + |text| + 1] == before + text + [NUL];
        assert buffer[..offset + |text|] == buffer[..offset + |text| + 1][..offset + |text|];
        assert buffer[offset + |text|] == buffer[..offset + |text| + 1][offset + |text|];
      }
    }

    method PrintNumber(n: real) returns (ok: bool)
      requires Valid() && ExactInteger(n)
      modifies this`buffer, this`limit, this`offset, buffer
      ensures buffer == old(buffer) || fresh(buffer)
      ensures ok <==> old(offset) + |P.NumberText(n)| + 2 <= INT_MAX
      ensures ok ==> Printed(old(buffer[..offset]), P.NumberText(n))
    {
      var text := P.NumberText(n);
      ok := PrintWord(text);
      if ok {
        offset := offset + |text|;
      }
    }

    /** The counting pass of `print_string_ptr`. */
    static method CountEscapes(s: string) returns (escapes: nat)
      ensures escapes == EscapeCount(s)
    {
      escapes := 0;
      for i := 0 to |s|
        invariant escapes == EscapeCount(s[..i])
      {
        assert s[..i + 1][..i] == s[..i];
        if s[i] in {'\"', '\\', BACKSPACE, FORM_FEED, '\n', '\r', '\t'} {
          escapes := escapes + 1;
        } else if s[i] < ' ' {
          escapes := escapes + 5;
        }
      }
      assert s[..|s|] == s;
    }

    /** `print_string_ptr`: the first pass counts, the second writes; the count is exact. */
    method PrintString(s: string) returns (ok: bool)
      requires Valid() && NulFree(s)
      modifies this`buffer, this`limit, buffer
      ensures buffer == old(buffer) || fresh(buffer)
      ensures ok <==> offset + |P.Quote(s)| + 2 <= INT_MAX
      ensures ok ==> Printed(old(buffer[..offset]), P.Quote(s))
    {
      hide P.Escape, EscapeCount;
      var escapes := CountEscapes(s);
      var length := |s| + escapes;
      EscapeLength(s);
      ok := Ensure(length + 3);
      if ok {
        ghost var before := buffer[..offset];
        WriteQuoted(s, escapes);
        Terminated(before, P.Quote(s));
      }
    }

    method WriteQuoted(s: string, escapes: nat)
      requires escapes == EscapeCount(s) && limit == offset + |P.Quote(s)| + 1 < buffer.Length
      modifies buffer
      ensures buffer[..offset + |P.Quote(s)| + 1] == old(buffer[..offset]) + P.Quote(s) + [NUL]
    {
      hide P.Escape, EscapeCount;
      ghost var before := buffer[..offset];
      var length := |s| + escapes;
      EscapeLength(s);
      Write(offset, "\"");
      if escapes == 0 {
        NothingEscaped(s);
        Write(offset + 1, s);
      } else {
        WriteEscaped(offset + 1, s);
      }
      Write(offset + length + 1, "\"");
      Write(offset + length + 2, [NUL]);
      assert before + "\"" + P.Escape(s) + "\"" == before + P.Quote(s);
    }

    /** The writing pass. */
    method WriteEscaped(start: nat, s: string)
      requires start + |P.Escape(s)| < limit < buffer.Length
      modifies buffer
      ensures buffer[..start + |P.Escape(s)|] == old(buffer[..start]) + P.Escape(s)
    {
      hide P.Escape, P.EscapeChar;
      var pos := start;
      ghost var before := buffer[..start];
      assert s[0..] == s;
      for i := 0 to |s|
        invariant start <= pos && pos + |P.Escape(s[i..])| == start + |P.Escape(s)|
        invariant buffer[..pos] + P.Escape(s[i..]) == before + P.Escape(s)
      {
        ghost var text, rest := buffer[..pos], P.Escape(s[i + 1..]);
        EscapeStep(s, i);
        pos := WriteEscapedChar(pos, s[i]);
        assert text + (P.EscapeChar(s[i]) + rest) == buffer[..pos] + rest;
      }
      EscapeNothing(s[|s|..]);
      assert buffer[..pos] + "" == buffer[..pos];
    }

    /** One character.  `sprintf` puts a terminator behind a `\u` escape, still inside the space reserved. */
    method WriteEscapedChar(pos: nat, c: char) returns (pos': nat)
      requires pos + |P.EscapeChar(c)| < limit < buffer.Length
      modifies buffer
      ensures pos' == pos + |P.EscapeChar(c)| && buffer[..pos'] == old(buffer[..pos]) + P.EscapeChar(c)
    {
      if c > '\U{1F}' && c != '\"' && c != '\\' {
        Write(pos, [c]);
        pos' := pos + 1;
      } else {
        var e := P.EscapeChar(c);
        if |e| == 6 {
          Write(pos, e + [NUL]);
          assert buffer[..pos + 6] == buffer[..pos + 7][..pos + 6];
        } else {
          Write(pos, e);
        }
        pos' := pos + |e|;
      }
    }

    lemma Terminated(before: string, t: string)
      requires |before| == offset && |before| + |t| + 1 <= buffer.Length <= INT_MAX
      requires buffer[..|before| + |t| + 1] == before + t + [NUL]
      ensures Printed(before, t)
    {
      var n := |before| + |t|;
      assert buffer[..n] == buffer[..n + 1][..n];
      assert buffer[n] == buffer[..n + 1][n];
    }

    /** Reserves `needed` characters and appends `text`, with a terminator behind it where asked. */
    method Append(needed: nat, text: string, terminate: bool) returns (ok: bool)
      requires Valid() && |text| + (if terminate then 1 else 0) <= needed
      modifies this`buffer, this`limit, this`offset, buffer
      ensures buffer == old(buffer) || fresh(buffer)
      ensures ok <==> old(offset) + needed + 1 <= INT_MAX
      ensures ok ==> Valid() && offset == old(offset) + |text| && buffer[..offset] == old(buffer[..offset]) + text
    {
      ok := Ensure(needed);
      if ok {
        Write(offset, text);
        if terminate {
          Write(offset + |text|, [NUL]);
          assert buffer[..offset + |text|] == buffer[..offset + |text| + 1][..offset + |text|];
        }
        offset := offset + |text|;
      }
    }

    method PrintValue(j: Json) returns (ok: bool)
      requires Valid() && Printable(j)
      modifies this, buffer
      ensures buffer == old(buffer) || fresh(buffer)
      ensures ok <==> old(offset) + |P.ValueText(j, format, old(depth))| + 2 <= INT_MAX
      ensures ok ==> depth == old(depth) && Printed(old(buffer[..offset]), P.ValueText(j, format, depth))
      decreases j, 1
    {
      hide P.ItemsText, P.MembersText, P.Quote, P.NumberText, Printed;
      match j
      case Null => ok := PrintWord("null");
      case Bool(b) =>
        if b {
          ok := PrintWord("true");
        } else {
          ok := PrintWord("false");
        }
      case Number(n) => ok := PrintNumber(n);
      case Str(s) => ok := PrintString(s);
      case Array(items) => ok := PrintArray(items);
      case Object(members) => ok := PrintObject(members);
    }

    /** One array element and its separator. */
    method PrintItem(item: Json, last: bool) returns (ok: bool)
      requires Valid() && Printable(item)
      modifies this, buffer
      ensures buffer == old(buffer) || fresh(buffer)
      ensures var n := |P.ValueText(item, format, old(depth))| + |ItemSeparator(last, format)|;
              ok <==> old(offset) + n + 2 <= INT_MAX
      ensures ok ==> depth == old(depth) && Valid()
      ensures ok ==> buffer[..offset] ==
                     old(buffer[..offset]) + P.ValueText(item, format, depth) + ItemSeparator(last, format)
      decreases item, 2
    {
      hide P.ValueText;
      ghost var before, t := buffer[..offset], P.ValueText(item, format, depth);
      ok := PrintValue(item);
      if ok {
        R.ValueTextNulFree(item, format, depth);
        Commit(before, t);
        if !last {
          var length := if format then 2 else 1;
          ok := Append(length + 1, ItemSeparator(last, format), true);
        } else {
          assert before + t + "" == before + t;
        }
      }
    }

    method PrintArray(items: seq<Json>) returns (ok: bool)
      requires Valid() && Printable(Array(items))
      modifies this, buffer
      ensures buffer == old(buffer) || fresh(buffer)
      ensures ok <==> old(offset) + |P.ValueText(Array(items), format, old(depth))| + 2 <= INT_MAX
      ensures ok ==> depth == old(depth) && Printed(old(buffer[..offset]), P.ValueText(Array(items), format, depth))
      decreases items, 3
    {
      hide P.ValueText, P.ItemsText, Printed;
      ghost var before, t := buffer[..offset], P.ValueText(Array(items), format, depth);
      ArrayText(items, format, depth, before);
      ok := Append(1, "[", false);
      if !ok {
        return;
      }
      depth := depth + 1;
      ok := PrintItems(items, before + t);
      if !ok {
        return;
      }
      ghost var done := buffer[..offset];
      ok := PrintWord("]");
      depth := depth - 1;
      if ok { PrintedRegroup(done, "]", before, t); }
    }

    /** The elements of an array, when they and the bracket are all that is missing of the text `all`. */
    method PrintItems(items: seq<Json>, ghost all: string) returns (ok: bool)
      requires Valid() && Printable(Array(items))
      requires buffer[..offset] + (P.ItemsText(items, format, depth) + "]") == all
      modifies this, buffer
      ensures buffer == old(buffer) || fresh(buffer)
      ensures ok ==> Valid() && depth == old(depth) && old(offset) <= offset && buffer[..offset] + "]" == all
      ensures !ok ==> |all| + 2 > INT_MAX
      decreases items, 2
    {
      hide P.ValueText, P.ItemsText;
      var i := 0;
      assert items[0..] == items;
      while i < |items|
        invariant 0 <= i <= |items| && depth == old(depth) && Valid() && (buffer == old(buffer) || fresh(buffer))
        invariant old(offset) <= offset && buffer[..offset] + (P.ItemsText(items[i..], format, depth) + "]") == all
      {
        ItemsTextStep(items, i, format, depth, buffer[..offset]);
        ok := PrintItem(items[i], i + 1 == |items|);
        if !ok {
          return;
        }
        i := i + 1;
      }
      R.NoItemsText(format, depth);
      assert items[i..] == [] && "" + "]" == "]";
      ok := true;
    }

    lemma PrintedRegroup(done: string, last: string, before: string, t: string)
      requires Printed(done, last) && done + last == before + t && |before| <= |done|
      ensures Printed(before, t)
    {
    }

    /** A member's layout, key and colon. */
    method PrintKey(key: string) returns (ok: bool)
      requires Valid() && NulFree(key)
      modifies this`buffer, this`limit, this`offset, buffer
      ensures buffer == old(buffer) || fresh(buffer)
      ensures ok <==> old(offset) + |KeyText(key, format, depth)| + 1 <= INT_MAX
      ensures ok ==> Valid() && buffer[..offset] == old(buffer[..offset]) + KeyText(key, format, depth)
    {
      hide P.Quote, P.Tabs, Printed;
      ghost var before, tabs, quoted := buffer[..offset], P.Tabs(format, depth), P.Quote(key);
      if format {
        ok := Append(depth, P.Tabs(format, depth), false);
        if !ok {
          return;
        }
      }
      assert buffer[..offset] == before + tabs;
      ok := PrintString(key);
      if !ok {
        return;
      }
      KeyNulFree(key);
      Commit(before + tabs, quoted);
      var length := if format then 2 else 1;
      ok := Append(length, ":" + P.If(format, "\t"), false);
      assert before + tabs + quoted + (":" + P.If(format, "\t")) == before + KeyText(key, format, depth);
    }

    /** One object member and its separator. */
    method PrintMember(m: Member, last: bool) returns (ok: bool)
      requires Valid() && NulFree(m.key) && Printable(m.value)
      modifies this, buffer
      ensures buffer == old(buffer) || fresh(buffer)
      ensures var n := |P.MemberText(m, format, old(depth))| + |MemberSeparator(last, format)|;
              ok <==> old(offset) + n + 2 <= INT_MAX
      ensures ok ==> depth == old(depth) && Valid()
      ensures ok ==> buffer[..offset] ==
                     old(buffer[..offset]) + P.MemberText(m, format, depth) + MemberSeparator(last, format)
      decreases m, 2
    {
      hide P.ValueText, P.MemberText, KeyText, Printed;
      ghost var before, key, value := buffer[..offset], KeyText(m.key, format, depth), P.ValueText(m.value, format, depth);
      MemberIsKeyAndValue(m, format, depth);
      ok := PrintKey(m.key);
      if !ok {
        return;
      }
      ok := PrintValue(m.value);
      if !ok {
        return;
      }
      R.ValueTextNulFree(m.value, format, depth);
      Commit(before + key, value);
      var length := (if format then 1 else 0) + (if last then 0 else 1);
      ok := Append(length + 1, MemberSeparator(last, format), true);
      assert before + key + value == before + (key + value);
    }

    method PrintObject(members: seq<Member>) returns (ok: bool)
      requires Valid() && Printable(Object(members))
      modifies this, buffer
      ensures buffer == old(buffer) || fresh(buffer)
      ensures ok <==> old(offset) + |P.ValueText(Object(members), format, old(depth))| + 2 <= INT_MAX
      ensures ok ==> depth == old(depth) && Printed(old(buffer[..offset]), P.ValueText(Object(members), format, depth))
      decreases members, 3
    {
      hide P.ValueText, P.MemberText, P.MembersText, P.Tabs, Printed;
      ghost var before, d := buffer[..offset], depth + 1;
      ghost var t, close := P.ValueText(Object(members), format, depth), P.Tabs(format, depth) + "}";
      ObjectText(members, format, depth, before);
      var length := if format then 2 else 1;
      ok := Append(length + 1, "{" + P.If(format, "\n"), false);
      if !ok {
        return;
      }
      depth := depth + 1;
      ok := PrintMembers(members, before + t, close);
      if !ok {
        return;
      }
      ghost var done := buffer[..offset];
      ok := PrintWord(P.Tabs(format, depth - 1) + "}");
      depth := depth - 1;
      if ok { PrintedRegroup(done, close, before, t); }
    }

    /** The members of an object, when they and `close` are all that is missing of the text `all`. */
    method PrintMembers(members: seq<Member>, ghost all: string, ghost close: string) returns (ok: bool)
      requires Valid() && Printable(Object(members)) && close != ""
      requires buffer[..offset] + (P.MembersText(members, format, depth) + close) == all
      modifies this, buffer
      ensures buffer == old(buffer) || fresh(buffer)
      ensures ok ==> Valid() && depth == old(depth) && old(offset) <= offset && buffer[..offset] + close == all
      ensures !ok ==> |all| + 2 > INT_MAX
      decreases members, 2
    {
      hide P.MemberText, P.MembersText;
      var i := 0;
      assert members[0..] == members;
      while i < |members|
        invariant 0 <= i <= |members| && depth == old(depth) && Valid() && (buffer == old(buffer) || fresh(buffer))
        invariant old(offset) <= offset && buffer[..offset] + (P.MembersText(members[i..], format, depth) + close) == all
      {
        MembersTextStep(members, i, format, depth, buffer[..offset], close);
        ok := PrintMember(members[i], i + 1 == |members|);
        if !ok {
          return;
        }
        i := i + 1;
      }
      R.NoMembersText(format, depth);
      assert members[i..] == [] && "" + close == close;
      ok := true;
    }
  }

  function KeyText(key: string, format: bool, depth: nat): string {
    P.Tabs(format, depth) + P.Quote(key) + ":" + P.If(format, "\t")
  }

  lemma MemberIsKeyAndValue(m: Member, format: bool, depth: nat)
    requires NulFree(m.key) && Printable(m.value)
    ensures P.MemberText(m, format, depth) == KeyText(m.key, format, depth) + P.ValueText(m.value, format, depth)
  {
  }

  lemma ArrayText(items: seq<Json>, format: bool, depth: nat, before: string)
    requires Printable(Array(items))
    ensures before + P.ValueText(Array(items), format, depth)
         == before + "[" + (P.ItemsText(items, format, depth + 1) + "]")
  {
    hide P.ItemsText;
  }

  lemma ObjectText(members: seq<Member>, format: bool, depth: nat, before: string)
    requires Printable(Object(members))
    ensures before + P.ValueText(Object(members), format, depth)
         == before + ("{" + P.If(format, "\n"))
            + (P.MembersText(members, format, depth + 1) + (P.Tabs(format, depth) + "}"))
  {
    hide P.MembersText, P.Tabs;
  }

  function ItemSeparator(last: bool, format: bool): string {
    P.If(!last, ",") + P.If(!last && format, " ")
  }

  function MemberSeparator(last: bool, format: bool): string {
    P.If(!last, ",") + P.If(format, "\n")
  }

  lemma ItemsTextStep(items: seq<Json>, i: nat, format: bool, depth: nat, done: string)
    requires i < |items| && Printable(Array(items))
    ensures done + (P.ItemsText(items[i..], format, depth) + "]")
         == done + P.ValueText(items[i], format, depth) + ItemSeparator(i + 1 == |items|, format)
            + (P.ItemsText(items[i + 1..], format, depth) + "]")
  {
    hide P.ValueText, P.ItemsText;
    R.ItemsTextStep(items[i..], format, depth);
    assert items[i..][1..] == items[i + 1..];
  }

  lemma MembersTextStep(members: seq<Member>, i: nat, format: bool, depth: nat, done: string, close: string)
    requires i < |members| && Printable(Object(members))
    ensures done + (P.MembersText(members[i..], format, depth) + close)
         == done + P.MemberText(members[i], format, depth) + MemberSeparator(i + 1 == |members|, format)
            + (P.MembersText(members[i + 1..], format, depth) + close)
  {
    hide P.MemberText, P.MembersText;
    R.MembersTextStep(members[i..], format, depth);
    assert members[i..][1..] == members[i + 1..];
  }

  lemma KeyNulFree(key: string)
    requires NulFree(key)
    ensures NulFree(P.Quote(key))
  {
    hide P.Escape;
    R.EscapeNulFree(key);
  }

  /** `print`: the text of a tree, unless it is too long for an `int`. */
  method Print(j: Json, format: bool) returns (ok: bool, text: string)
    requires Printable(j)
    ensures ok <==> |P.Print(j, format)| + 2 <= INT_MAX
    ensures ok ==> text == P.Print(j, format)
  {
    hide P.ValueText;
    var buffer := new PrintBuffer(format);
    ghost var before := buffer.buffer[..0];
    ok := buffer.PrintValue(j);
    text := "";
    if ok {
      R.ValueTextNulFree(j, format, 0);
      buffer.Commit(before, P.ValueText(j, format, 0));
      text := buffer.buffer[..buffer.offset];
    }
  }

  function EscapeCount(s: string): nat {
    if s == "" then 0 else EscapeCount(s[..|s| - 1]) + P.EscapeCost(s[|s| - 1])
  }

  lemma EscapeStep(s: string, i: nat)
    requires i < |s|
    ensures P.Escape(s[i..]) == P.EscapeChar(s[i]) + P.Escape(s[i + 1..])
  {
    assert s[i..][1..] == s[i + 1..];
  }

  lemma EscapeNothing(s: string)
    requires s == ""
    ensures P.Escape(s) == ""
  {
  }

  lemma {:induction false} EscapeSnoc(s: string, c: char)
    ensures P.Escape(s + [c]) == P.Escape(s) + P.EscapeChar(c)
  {
    if s == "" {
      assert s + [c] == [c] && [c][1..] == "";
    } else {
      assert (s + [c])[1..] == s[1..] + [c];
      EscapeSnoc(s[1..], c);
    }
  }

  /** The counting pass predicts the exact length the writing pass produces. */
  lemma {:induction false} EscapeLength(s: string)
    ensures |P.Escape(s)| == |s| + EscapeCount(s)
  {
    if s != "" {
      EscapeLength(s[..|s| - 1]);
      EscapeSnoc(s[..|s| - 1], s[|s| - 1]);
      assert s[..|s| - 1] + [s[|s| - 1]] == s;
    }
  }

  lemma {:induction false} NothingEscaped(s: string)
    requires EscapeCount(s) == 0
    ensures P.Escape(s) == s
  {
    if s != "" {
      NothingEscaped(s[..|s| - 1]);
      EscapeSnoc(s[..|s| - 1], s[|s| - 1]);
      assert s[..|s| - 1] + [s[|s| - 1]] == s;
    }
  }
}
