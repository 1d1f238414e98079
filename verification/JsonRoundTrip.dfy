/** Parsing undoes printing, exactly up to the parser's nesting limit. */
module JsonRoundTrip {
  import opened Wrappers
  import opened Text
  import opened Json
  import opened JsonPrint
  import opened JsonParse

  // ---------------------------------------------------------------- strings

  lemma {:induction false} ScanPlain(s: string, p: nat, k: nat)
    requires p + k <= |s|
    requires forall i :: p <= i < p + k ==> s[i] != '\"' && s[i] != '\\'
    ensures ScanString(s, p) == ScanString(s, p + k)
    decreases k
  {
    if k > 0 { ScanPlain(s, p + 1, k - 1); }
  }

  lemma ScanOne(s: string, p: nat, c: char)
    requires At(s, p, EscapeChar(c)) && ScanString(s, p + |EscapeChar(c)|).Some?
    ensures ScanString(s, p).Some?
    ensures ScanString(s, p).value.0 == ScanString(s, p + |EscapeChar(c)|).value.0
  {
    hide At;
    var e := EscapeChar(c);
    AtChar(s, p, e, 0);
    if |e| > 1 { AtChar(s, p, e, 1); }
    if |e| == 6 {
      AtChar(s, p, e, 2); AtChar(s, p, e, 3); AtChar(s, p, e, 4); AtChar(s, p, e, 5);
      ScanPlain(s, p + 2, 4); }
  }

  /** The first pass finds the closing quote of an escaped string, however it was escaped. */
  lemma {:induction false} ScanEscaped(s: string, p: nat, t: string)
    requires At(s, p, Escape(t) + "\"")
    ensures ScanString(s, p).Some? && ScanString(s, p).value.0 == p + |Escape(t)|
    decreases |t|
  {
    if t == "" {
      AtChar(s, p, Escape(t) + "\"", 0);
    } else {
      var e, rest := EscapeChar(t[0]), Escape(t[1..]) + "\"";
      assert Escape(t) + "\"" == e + rest;
      AtSplit(s, p, e, rest);
      ScanEscaped(s, p + |e|, t[1..]);
      ScanOne(s, p, t[0]);
    }
  }

  lemma UnescapeOne(s: string, p: nat, end: nat, c: char)
    requires c != NUL && At(s, p, EscapeChar(c)) && p + |EscapeChar(c)| <= end < |s|
    ensures Unescape(s, p, end) == Prefix([c], Unescape(s, p + |EscapeChar(c)|, end))
  {
    hide At;
    var e := EscapeChar(c);
    AtChar(s, p, e, 0);
    if |e| > 1 { AtChar(s, p, e, 1); }
    if |e| == 6 {
      AtChar(s, p, e, 2); AtChar(s, p, e, 3); AtChar(s, p, e, 4); AtChar(s, p, e, 5);
      assert c as int / 16 < 2;
      assert Hex4(s, p + 2) == c as int;
      assert Utf16Literal(s, p, end) == Some((c as nat, 6));
    }
  }

  /** The second pass recovers the string from its escaped form. */
  lemma {:induction false} UnescapeEscaped(s: string, p: nat, t: string)
    requires NulFree(t) && At(s, p, Escape(t)) && p + |Escape(t)| < |s|
    ensures Unescape(s, p, p + |Escape(t)|) == Some(t)
    decreases |t|
  {
    hide At, EscapeChar, Utf16Literal, Utf8, SimpleEscape;
    if t != "" {
      var e, rest := EscapeChar(t[0]), Escape(t[1..]);
      AtSplit(s, p, e, rest);
      UnescapeOne(s, p, p + |Escape(t)|, t[0]);
      UnescapeEscaped(s, p + |e|, t[1..]);
      assert [t[0]] + t[1..] == t;
    }
  }

  lemma StringRoundTrip(s: string, off: nat, t: string)
    requires Terminated(s) && NulFree(t) && At(s, off, Quote(t))
    ensures off < |s| && ParseString(s, off) == Ok(t, off + |Quote(t)|)
  {
    hide At, Escape, ScanString, Unescape, CStr;
    AtChar(s, off, Quote(t), 0);
    assert Quote(t) == "\"" + (Escape(t) + "\"");
    AtSplit(s, off, "\"", Escape(t) + "\"");
    AtSplit(s, off + 1, Escape(t), "\"");
    ScanEscaped(s, off + 1, t);
    UnescapeEscaped(s, off + 1, t);
  }

  // ---------------------------------------------------------------- numbers

  lemma DigitRunAll(digits: string)
    requires AllDigits(digits)
    ensures DigitRun(digits) == |digits|
  {
  }

  lemma StrtodInteger(n: int)
    ensures Strtod(IntText(n)) == (|IntText(n)|, n as real)
  {
    var t := IntText(n);
    var sign := if n < 0 then 1 else 0;
    var digits := NatText(if n < 0 then -n else n);
    assert t[sign..] == digits;
    DigitRunAll(digits);
    assert digits[..|digits|] + "" == digits;
    assert t[0] != '+';
    assert Nat(digits) as real == (if n < 0 then -(n as real) else n as real);
  }

  lemma IntTextShape(n: int)
    requires -EXACT_LIMIT < n < EXACT_LIMIT
    ensures |IntText(n)| <= 16
    ensures forall i :: 0 <= i < |IntText(n)| ==> IsNumberChar(IntText(n)[i])
  {
    assert Pow10(15) == EXACT_LIMIT;
    NatTextLength(if n < 0 then -n else n, 15);
  }

  lemma IntTextStart(n: int)
    ensures IntText(n)[0] == '-' || IsDigit(IntText(n)[0])
  {
  }

  lemma IntegerRoundTrip(s: string, off: nat, n: int)
    requires Terminated(s) && At(s, off, IntText(n)) && -EXACT_LIMIT < n < EXACT_LIMIT
    requires off + |IntText(n)| < |s| && !IsNumberChar(s[off + |IntText(n)|])
    ensures ParseNumber(s, off) == Ok(Number(n as real), off + |IntText(n)|)
  {
    hide Strtod, NumberRun, NatText, IntText;
    var t := IntText(n);
    IntTextShape(n);
    forall i | off <= i < off + |t| ensures IsNumberChar(s[i]) { AtChar(s, off, t, i - off); }
    NumberRunIs(s, off, 63, |t|);
    assert s[off..off + |t|] == t;
    StrtodInteger(n);
  }

  // ---------------------------------------------------------------- values

  lemma {:induction false} SkipBlanks(s: string, p: nat, k: nat)
    requires p + k < |s| && s[p + k] > ' '
    requires forall i :: p <= i < p + k ==> s[i] <= ' '
    ensures SkipSpace(s, p) == p + k
    decreases k
  {
    if k > 0 { SkipBlanks(s, p + 1, k - 1); }
  }

  /** Skipping the printer's layout, `blank`, in front of `next`. */
  lemma SkipLayout(s: string, p: nat, blank: string, next: string)
    requires At(s, p, blank + next) && next != "" && next[0] > ' '
    requires forall i :: 0 <= i < |blank| ==> blank[i] <= ' '
    ensures p < |s| && SkipSpace(s, p) == p + |blank| && At(s, p + |blank|, next)
    ensures s[p + |blank|] == next[0]
  {
    AtSplit(s, p, blank, next);
    AtChar(s, p + |blank|, next, 0);
    forall i | p <= i < p + |blank| ensures s[i] <= ' ' { AtChar(s, p, blank, i - p); }
    SkipBlanks(s, p, |blank|);
  }

  lemma ValueTextStart(j: Json, format: bool, depth: nat)
    requires Printable(j)
    ensures ValueText(j, format, depth) != ""
    ensures ' ' < ValueText(j, format, depth)[0] < '~' && ValueText(j, format, depth)[0] != ']'
  {
  }

  lemma ItemsTextStart(items: seq<Json>, format: bool, depth: nat)
    requires items != [] && forall i :: 0 <= i < |items| ==> Printable(items[i])
    ensures ItemsText(items, format, depth) != ""
    ensures ItemsText(items, format, depth)[0] > ' ' && ItemsText(items, format, depth)[0] != ']'
  {
    hide ValueText;
    ValueTextStart(items[0], format, depth);
  }

  predicate Fits(nesting: nat, depth: nat) {
    depth + nesting <= NESTING_LIMIT
  }

  predicate Blank(s: string) {
    forall i :: 0 <= i < |s| ==> s[i] <= ' '
  }

  /** A separator, its layout and what follows it. */
  lemma SplitAtComma(s: string, p: nat, first: string, blank: string, tail: string)
    requires At(s, p, first + ("," + (blank + tail))) && Blank(blank) && tail != "" && tail[0] > ' '
    ensures At(s, p, first) && p + |first| + 1 < |s| && s[p + |first|] == ','
    ensures SkipSpace(s, p + |first|) == p + |first|
    ensures SkipSpace(s, p + |first| + 1) == p + |first| + 1 + |blank|
    ensures At(s, p + |first| + 1 + |blank|, tail) && At(s, p + |first| + 1, blank + tail)
  {
    AtSplit(s, p, first, "," + (blank + tail));
    SkipLayout(s, p + |first|, "", "," + (blank + tail));
    AtSplit(s, p + |first|, ",", blank + tail);
    SkipLayout(s, p + |first| + 1, blank, tail);
  }

  lemma SplitAtClose(s: string, p: nat, first: string, blank: string, close: char)
    requires At(s, p, first + (blank + [close])) && Blank(blank) && close > ' '
    ensures At(s, p, first) && At(s, p + |first|, blank + [close])
    ensures p + |first| + |blank| < |s| && s[p + |first| + |blank|] == close
    ensures SkipSpace(s, p + |first|) == p + |first| + |blank|
  {
    AtSplit(s, p, first, blank + [close]);
    SkipLayout(s, p + |first|, blank, [close]);
  }

  /** A printed value parses back to itself where it stands, or fails because it nests too deeply. */
  lemma {:induction false} ValueRoundTrip(s: string, off: nat, j: Json, format: bool, depth: nat)
    requires Printable(j) && depth <= NESTING_LIMIT && Terminated(s)
    requires At(s, off, ValueText(j, format, depth))
    requires off + |ValueText(j, format, depth)| < |s| && !IsNumberChar(s[off + |ValueText(j, format, depth)|])
    ensures ParseValue(s, off, depth) ==
            if Fits(Nesting(j), depth) then Ok(j, off + |ValueText(j, format, depth)|) else Fail
    decreases j, 0
  {
    match j
    case Array(items) => ArrayRoundTrip(s, off, items, format, depth);
    case Object(members) => ObjectRoundTrip(s, off, members, format, depth);
    case _ => LeafRoundTrip(s, off, j, format, depth);
  }

  lemma LeafRoundTrip(s: string, off: nat, j: Json, format: bool, depth: nat)
    requires !j.Array? && !j.Object? && Printable(j) && Terminated(s)
    requires At(s, off, ValueText(j, format, depth))
    requires off + |ValueText(j, format, depth)| < |s| && !IsNumberChar(s[off + |ValueText(j, format, depth)|])
    ensures ParseValue(s, off, depth) == Ok(j, off + |ValueText(j, format, depth)|)
  {
    hide At, ParseItems, ParseMembers, ParseString, ParseNumber, Escape, IntText, SkipSpace;
    var t := ValueText(j, format, depth);
    AtChar(s, off, t, 0);
    match j
    case Null =>
    case Bool(b) =>
    case Number(n) =>
      IntegerRoundTrip(s, off, n.Floor);
      IntTextStart(n.Floor);
    case Str(text) =>
      StringRoundTrip(s, off, text);
  }

  lemma {:induction false} ArrayRoundTrip(s: string, off: nat, items: seq<Json>, format: bool, depth: nat)
    requires Printable(Array(items)) && depth <= NESTING_LIMIT && Terminated(s)
    requires At(s, off, ValueText(Array(items), format, depth))
    ensures off < |s| && ParseValue(s, off, depth) ==
            if Fits(Nesting(Array(items)), depth)
            then Ok(Array(items), off + |ValueText(Array(items), format, depth)|) else Fail
    decreases items, 3
  {
    hide At, SkipSpace, ParseValue, ParseItems, ItemsText;
    ArrayLayout(s, off, items, format, depth);
    if depth < NESTING_LIMIT && items != [] {
      ItemsRoundTrip(s, off + 1, items, format, depth + 1);
    }
    BracketStep(s, off, depth);
  }

  /** Where the parts of a printed array stand. */
  lemma ArrayLayout(s: string, off: nat, items: seq<Json>, format: bool, depth: nat)
    requires Printable(Array(items)) && At(s, off, ValueText(Array(items), format, depth))
    ensures off + 1 < |s| && s[off] == '[' && SkipSpace(s, off + 1) == off + 1
    ensures var body := ItemsText(items, format, depth + 1);
            && |ValueText(Array(items), format, depth)| == |body| + 2
            && At(s, off + 1, body + "]")
            && (items == [] ==> body == "") && (s[off + 1] == ']' <==> items == [])
  {
    hide At, SkipSpace, ItemsText;
    var body := ItemsText(items, format, depth + 1);
    assert ValueText(Array(items), format, depth) == "[" + (body + "]");
    AtSplit(s, off, "[", body + "]");
    AtChar(s, off, "[", 0);
    assert "" + (body + "]") == body + "]";
    if items == [] { NoItemsText(format, depth + 1); } else { ItemsTextStart(items, format, depth + 1); }
    SkipLayout(s, off + 1, "", body + "]");
  }

  lemma NoItemsText(format: bool, depth: nat)
    ensures ItemsText([], format, depth) == ""
  {
  }

  lemma ItemsTextStep(items: seq<Json>, format: bool, depth: nat)
    requires items != [] && forall i :: 0 <= i < |items| ==> Printable(items[i])
    ensures ItemsText(items, format, depth) ==
            ValueText(items[0], format, depth) + If(|items| > 1, ",") + If(|items| > 1 && format, " ")
            + ItemsText(items[1..], format, depth)
  {
  }

  lemma ItemsTextCons(items: seq<Json>, format: bool, depth: nat)
    requires items != [] && forall i :: 0 <= i < |items| ==> Printable(items[i])
    ensures var first, blank := ValueText(items[0], format, depth), If(format, " ");
            var all, tail := ItemsText(items, format, depth), ItemsText(items[1..], format, depth);
            if |items| == 1 then |all| == |first| && all + "]" == first + ("" + "]")
            else |all| == |first| + 1 + |blank| + |tail| && all + "]" == first + ("," + (blank + (tail + "]")))
  {
    hide ValueText, ItemsText;
    var first, tail := ValueText(items[0], format, depth), ItemsText(items[1..], format, depth);
    ItemsTextStep(items, format, depth);
    if |items| == 1 { NoItemsText(format, depth); }
    Regroup(first, If(|items| > 1, ","), If(|items| > 1 && format, " "), tail, "]");
  }

  lemma ItemsFit(items: seq<Json>, depth: nat)
    requires items != [] && depth <= NESTING_LIMIT
    ensures Fits(ItemsNesting(items), depth) <==>
      Fits(Nesting(items[0]), depth) && (|items| == 1 || Fits(ItemsNesting(items[1..]), depth))
  {
  }

  lemma MembersFit(members: seq<Member>, depth: nat)
    requires members != [] && depth <= NESTING_LIMIT
    ensures Fits(MembersNesting(members), depth) <==>
      Fits(Nesting(members[0].value), depth) && (|members| == 1 || Fits(MembersNesting(members[1..]), depth))
  {
  }

  lemma {:induction false} ItemsRoundTrip(s: string, p: nat, items: seq<Json>, format: bool, depth: nat)
    requires items != [] && depth <= NESTING_LIMIT && Terminated(s)
    requires forall i :: 0 <= i < |items| ==> Printable(items[i])
    requires At(s, p, ItemsText(items, format, depth) + "]")
    ensures p < |s| && ParseItems(s, p, depth) ==
            if Fits(ItemsNesting(items), depth)
            then Ok(items, p + |ItemsText(items, format, depth)| + 1) else Fail
    decreases items, 2
  {
    hide At, SkipSpace, ParseValue, ParseItems, ValueText, ItemsText, Nesting, ItemsNesting, Fits;
    var first, rest := ValueText(items[0], format, depth), items[1..];
    ItemsTextCons(items, format, depth);
    ItemsFit(items, depth);
    if rest == [] {
      SplitAtClose(s, p, first, "", ']');
      ValueRoundTrip(s, p, items[0], format, depth);
      ItemsStep(s, p, depth);
      assert items == [items[0]];
    } else {
      var blank := If(format, " ");
      var tail := ItemsText(rest, format, depth) + "]";
      ItemsTextStart(rest, format, depth);
      SplitAtComma(s, p, first, blank, tail);
      ValueRoundTrip(s, p, items[0], format, depth);
      ItemsRoundTrip(s, p + |first| + 1 + |blank|, rest, format, depth);
      ItemsStep(s, p, depth);
      assert items == [items[0]] + rest;
    }
  }

  lemma {:induction false} ObjectRoundTrip(s: string, off: nat, members: seq<Member>, format: bool, depth: nat)
    requires Printable(Object(members)) && depth <= NESTING_LIMIT && Terminated(s)
    requires At(s, off, ValueText(Object(members), format, depth))
    ensures off < |s| && ParseValue(s, off, depth) ==
            if Fits(Nesting(Object(members)), depth)
            then Ok(Object(members), off + |ValueText(Object(members), format, depth)|) else Fail
    decreases members, 4
  {
    hide At, SkipSpace, ParseValue, ParseMembers, MembersText, Tabs;
    ObjectLayout(s, off, members, format, depth);
    if depth < NESTING_LIMIT && members != [] {
      MembersRoundTrip(s, off + 1 + |If(format, "\n")|, members, format, depth + 1);
    }
    BraceStep(s, off, depth);
  }

  /** Where the parts of a printed object stand. */
  lemma ObjectLayout(s: string, off: nat, members: seq<Member>, format: bool, depth: nat)
    requires Printable(Object(members)) && At(s, off, ValueText(Object(members), format, depth))
    ensures off + 1 < |s| && s[off] == '{'
    ensures var nl, body := |If(format, "\n")|, MembersText(members, format, depth + 1);
            && |ValueText(Object(members), format, depth)| == 1 + nl + |body| + |Tabs(format, depth)| + 1
            && (members == [] ==>
                  body == "" && SkipSpace(s, off + 1) == off + 1 + nl + |Tabs(format, depth)|
                  && s[SkipSpace(s, off + 1)] == '}')
            && (members != [] ==>
                  off + 1 + nl < |s| && SkipSpace(s, off + 1) == SkipSpace(s, off + 1 + nl)
                  && At(s, off + 1 + nl, body + (Tabs(format, depth) + "}")))
  {
    hide At, SkipSpace, MembersText, Tabs;
    var open, body := If(format, "\n"), MembersText(members, format, depth + 1);
    var close := Tabs(format, depth) + "}";
    assert ValueText(Object(members), format, depth) == "{" + (open + (body + close));
    AtSplit(s, off, "{", open + (body + close));
    AtChar(s, off, "{", 0);
    AtSplit(s, off + 1, open, body + close);
    AtChar(s, off + 1 + |open|, body + close, 0);
    if format { AtChar(s, off + 1, open, 0); }
    SkipFrom(s, off + 1, off + 1 + |open|);
    if members == [] {
      NoMembersText(format, depth + 1);
      assert body + close == Tabs(format, depth) + "}";
      SkipLayout(s, off + 1 + |open|, Tabs(format, depth), "}");
    }
  }

  lemma NoMembersText(format: bool, depth: nat)
    ensures MembersText([], format, depth) == ""
  {
  }

  /** Where the parts of a printed member stand: key, value and what follows. */
  lemma SplitMember(s: string, p: nat, tabs: string, key: string, sep: string, value: string, after: string)
    requires At(s, p, tabs + (key + (":" + (sep + (value + after)))))
    requires Blank(tabs) && Blank(sep) && key != "" && key[0] > ' ' && value != "" && value[0] > ' ' && after != ""
    ensures p < |s| && SkipSpace(s, p) == p + |tabs| && At(s, p + |tabs|, key) && s[p + |tabs|] == key[0]
    ensures var c := p + |tabs| + |key|;
            && c + 1 < |s| && s[c] == ':' && SkipSpace(s, c) == c && SkipSpace(s, c + 1) == c + 1 + |sep|
            && At(s, c + 1 + |sep|, value) && At(s, c + 1 + |sep| + |value|, after)
            && c + 1 + |sep| + |value| < |s| && s[c + 1 + |sep| + |value|] == after[0]
  {
    var colon := ":" + (sep + (value + after));
    SkipLayout(s, p, tabs, key + colon);
    AtSplit(s, p + |tabs|, key, colon);
    var c := p + |tabs| + |key|;
    SkipLayout(s, c, "", colon);
    AtSplit(s, c, ":", sep + (value + after));
    SkipLayout(s, c + 1, sep, value + after);
    AtSplit(s, c + 1 + |sep|, value, after);
    AtChar(s, c + 1 + |sep| + |value|, after, 0);
  }

  lemma {:induction false} MemberRoundTrip(s: string, p: nat, m: Member, format: bool, depth: nat, after: string)
    requires NulFree(m.key) && Printable(m.value) && depth <= NESTING_LIMIT && Terminated(s)
    requires At(s, p, MemberText(m, format, depth) + after)
    requires after != "" && !IsNumberChar(after[0])
    ensures p < |s| && s[SkipSpace(s, p)] == '\"'
    ensures var end := p + |MemberText(m, format, depth)|;
            && ParseMember(s, SkipSpace(s, p), depth) == (if Fits(Nesting(m.value), depth) then Ok(m, end) else Fail)
            && At(s, end, after)
    decreases m, 1
  {
    hide At, SkipSpace, ParseValue, ParseString, ValueText, Nesting, Escape, Tabs;
    var tabs, key, sep := Tabs(format, depth), Quote(m.key), If(format, "\t");
    var value := ValueText(m.value, format, depth);
    assert MemberText(m, format, depth) + after == tabs + (key + (":" + (sep + (value + after))));
    ValueTextStart(m.value, format, depth);
    SplitMember(s, p, tabs, key, sep, value, after);
    StringRoundTrip(s, p + |tabs|, m.key);
    ValueRoundTrip(s, p + |tabs| + |key| + 1 + |sep|, m.value, format, depth);
  }

  lemma {:induction false} MembersRoundTrip(s: string, p: nat, members: seq<Member>, format: bool, depth: nat)
    requires members != [] && 0 < depth <= NESTING_LIMIT && Terminated(s)
    requires forall i :: 0 <= i < |members| ==> NulFree(members[i].key) && Printable(members[i].value)
    requires At(s, p, MembersText(members, format, depth) + (Tabs(format, depth - 1) + "}"))
    ensures p < |s| && s[SkipSpace(s, p)] == '\"'
    ensures ParseMembers(s, SkipSpace(s, p), depth) ==
            if Fits(MembersNesting(members), depth)
            then Ok(members, p + |MembersText(members, format, depth)| + |Tabs(format, depth - 1)| + 1) else Fail
    decreases members, 3
  {
    hide At, SkipSpace, ParseMember, ParseMembers, MemberText, MembersText, MembersNesting, Fits, Tabs;
    MembersTextCons(members, format, depth);
    if |members| == 1 {
      LastMember(s, p, members[0], format, depth);
      assert members == [members[0]];
      MembersFit(members, depth);
      NoMembersText(format, depth);
    } else {
      MoreMembers(s, p, members, format, depth);
    }
  }

  /** The last member, its layout and the brace. */
  lemma {:induction false} LastMember(s: string, p: nat, m: Member, format: bool, depth: nat)
    requires 0 < depth <= NESTING_LIMIT && Terminated(s) && NulFree(m.key) && Printable(m.value)
    requires At(s, p, MemberText(m, format, depth) + ((If(format, "\n") + Tabs(format, depth - 1)) + "}"))
    ensures p < |s| && s[SkipSpace(s, p)] == '\"'
    ensures ParseMembers(s, SkipSpace(s, p), depth) ==
            if Fits(Nesting(m.value), depth)
            then Ok([m], p + |MemberText(m, format, depth)| + |If(format, "\n")| + |Tabs(format, depth - 1)| + 1) else Fail
    decreases m, 2
  {
    hide At, SkipSpace, ParseMember, ParseMembers, MemberText, Nesting, Fits, Tabs;
    var blank := If(format, "\n") + Tabs(format, depth - 1);
    SplitAtClose(s, p, MemberText(m, format, depth), blank, '}');
    MemberRoundTrip(s, p, m, format, depth, blank + "}");
    MembersStep(s, SkipSpace(s, p), depth);
  }

  /** A member with others behind it. */
  lemma {:induction false} MoreMembers(s: string, p: nat, members: seq<Member>, format: bool, depth: nat)
    requires |members| > 1 && 0 < depth <= NESTING_LIMIT && Terminated(s)
    requires forall i :: 0 <= i < |members| ==> NulFree(members[i].key) && Printable(members[i].value)
    requires At(s, p, MemberText(members[0], format, depth)
                      + ("," + (If(format, "\n") + (MembersText(members[1..], format, depth) + (Tabs(format, depth - 1) + "}")))))
    ensures p < |s| && s[SkipSpace(s, p)] == '\"'
    ensures ParseMembers(s, SkipSpace(s, p), depth) ==
            if Fits(MembersNesting(members), depth)
            then Ok(members, p + |MemberText(members[0], format, depth)| + 1 + |If(format, "\n")|
                             + |MembersText(members[1..], format, depth)| + |Tabs(format, depth - 1)| + 1)
            else Fail
    decreases members, 2
  {
    hide At, SkipSpace, ParseMember, ParseMembers, MemberText, MembersText, Nesting, MembersNesting, Fits, Tabs;
    var m, rest, head, nl := members[0], members[1..], MemberText(members[0], format, depth), If(format, "\n");
    var tail := MembersText(rest, format, depth) + (Tabs(format, depth - 1) + "}");
    MemberRoundTrip(s, p, m, format, depth, "," + (nl + tail));
    AtSplit(s, p, head, "," + (nl + tail));
    MembersTail(s, p + |head|, rest, format, depth);
    MembersRoundTrip(s, p + |head| + 1 + |nl|, rest, format, depth);
    MembersStep(s, SkipSpace(s, p), depth);
    MembersFit(members, depth);
    assert members == [m] + rest;
  }

  lemma MembersTextStep(members: seq<Member>, format: bool, depth: nat)
    requires members != []
    requires forall i :: 0 <= i < |members| ==> NulFree(members[i].key) && Printable(members[i].value)
    ensures MembersText(members, format, depth) ==
            MemberText(members[0], format, depth) + If(|members| > 1, ",") + If(format, "\n")
            + MembersText(members[1..], format, depth)
  {
  }

  lemma MembersTextCons(members: seq<Member>, format: bool, depth: nat)
    requires members != [] && depth > 0
    requires forall i :: 0 <= i < |members| ==> NulFree(members[i].key) && Printable(members[i].value)
    ensures var head, nl, tabs := MemberText(members[0], format, depth), If(format, "\n"), Tabs(format, depth - 1);
            var all, tail := MembersText(members, format, depth), MembersText(members[1..], format, depth);
            && |all| == |head| + (if |members| > 1 then 1 else 0) + |nl| + |tail|
            && all + (tabs + "}") == if |members| == 1 then head + ((nl + tabs) + "}")
                                     else head + ("," + (nl + (tail + (tabs + "}"))))
  {
    hide MemberText, Tabs;
  }

  lemma MembersTail(s: string, end: nat, rest: seq<Member>, format: bool, depth: nat)
    requires rest != [] && depth > 0
    requires forall i :: 0 <= i < |rest| ==> NulFree(rest[i].key) && Printable(rest[i].value)
    requires At(s, end, "," + (If(format, "\n") + (MembersText(rest, format, depth) + (Tabs(format, depth - 1) + "}"))))
    ensures var next := end + 1 + |If(format, "\n")|;
            && next < |s| && s[end] == ',' && SkipSpace(s, end) == end
            && SkipSpace(s, end + 1) == SkipSpace(s, next)
            && At(s, next, MembersText(rest, format, depth) + (Tabs(format, depth - 1) + "}"))
  {
    hide At, SkipSpace, MembersText, Tabs;
    var nl, tail := If(format, "\n"), MembersText(rest, format, depth) + (Tabs(format, depth - 1) + "}");
    assert "" + ("," + (nl + tail)) == "," + (nl + tail);
    SkipLayout(s, end, "", "," + (nl + tail));
    AtSplit(s, end, ",", nl + tail);
    AtSplit(s, end + 1, nl, tail);
    AtChar(s, end + 1 + |nl|, tail, 0);
    if format { AtChar(s, end + 1, nl, 0); }
    SkipFrom(s, end + 1, end + 1 + |nl|);
  }

  /** Skipping may start anywhere inside the layout. */
  lemma {:induction false} SkipFrom(s: string, p: nat, q: nat)
    requires p <= q < |s| && forall i :: p <= i < q ==> s[i] <= ' '
    ensures SkipSpace(s, p) == SkipSpace(s, q)
    decreases q - p
  {
    if p < q { SkipFrom(s, p + 1, q); }
  }

  // ---------------------------------------------------------------- whole texts

  lemma {:induction false} EscapeNulFree(t: string)
    requires NulFree(t)
    ensures NulFree(Escape(t))
  {
    if t != "" { EscapeNulFree(t[1..]); }
  }

  lemma {:induction false} ValueTextNulFree(j: Json, format: bool, depth: nat)
    requires Printable(j)
    ensures NulFree(ValueText(j, format, depth))
    decreases j, 0
  {
    hide Escape, ItemsText, MembersText, IntText;
    match j
    case Str(s) => EscapeNulFree(s);
    case Array(items) => ItemsTextNulFree(items, format, depth + 1);
    case Object(members) => MembersTextNulFree(members, format, depth + 1);
    case _ =>
  }

  lemma {:induction false} ItemsTextNulFree(items: seq<Json>, format: bool, depth: nat)
    requires forall i :: 0 <= i < |items| ==> Printable(items[i])
    ensures NulFree(ItemsText(items, format, depth))
    decreases items, 1
  {
    if items != [] {
      ValueTextNulFree(items[0], format, depth);
      ItemsTextNulFree(items[1..], format, depth);
    }
  }

  lemma {:induction false} MembersTextNulFree(members: seq<Member>, format: bool, depth: nat)
    requires forall i :: 0 <= i < |members| ==> NulFree(members[i].key) && Printable(members[i].value)
    ensures NulFree(MembersText(members, format, depth))
    decreases members, 1
  {
    hide MemberText;
    if members != [] {
      MemberTextNulFree(members[0], format, depth);
      MembersTextNulFree(members[1..], format, depth);
    }
  }

  lemma {:induction false} MemberTextNulFree(m: Member, format: bool, depth: nat)
    requires NulFree(m.key) && Printable(m.value)
    ensures NulFree(MemberText(m, format, depth))
    decreases m, 0
  {
    hide ValueText, Escape;
    EscapeNulFree(m.key);
    ValueTextNulFree(m.value, format, depth);
  }

  /** Parsing the printed text gives back the tree if, and only if, the tree nests at most 1000 deep. */
  lemma PrintParse(j: Json, format: bool)
    requires Printable(j)
    ensures NulFree(Print(j, format))
    ensures Parse(Print(j, format)) == if Nesting(j) <= NESTING_LIMIT then Some(j) else None
  {
    var t := Print(j, format);
    ValueTextNulFree(j, format, 0);
    ValueTextStart(j, format, 0);
    var s := t + [NUL];
    assert s[..|t|] == t;
    assert At(s, 0, t);
    AtChar(s, 0, t, 0);
    ValueRoundTrip(s, 0, j, format, 0);
    assert s[0] != BOM[0];
  }
}
