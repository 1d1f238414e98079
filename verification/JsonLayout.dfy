/** The layout of printed JSON, spelled out. */
module JsonLayout {
  import opened Text
  import opened Json
  import opened JsonPrint
  import JsonRoundTrip

  /** Arrays: with formatting a space follows each comma. */
  lemma TwoItems(a: Json, b: Json, depth: nat)
    requires Printable(a) && Printable(b)
    ensures ItemsText([a, b], false, depth) == ValueText(a, false, depth) + "," + ValueText(b, false, depth)
    ensures ItemsText([a, b], true, depth) == ValueText(a, true, depth) + ", " + ValueText(b, true, depth)
  {
    hide ValueText, ItemsText;
    ItemsSplit(a, b, false, depth);
    ItemsSplit(a, b, true, depth);
    assert ValueText(a, true, depth) + ("," + " ") == ValueText(a, true, depth) + ", ";
  }

  lemma ItemsSplit(a: Json, b: Json, format: bool, depth: nat)
    requires Printable(a) && Printable(b)
    ensures ItemsText([a, b], format, depth) ==
            ValueText(a, format, depth) + ("," + If(format, " ")) + ValueText(b, format, depth)
  {
    hide ValueText, ItemsText;
    JsonRoundTrip.ItemsTextStep([a, b], format, depth);
    assert [a, b][1..] == [b];
    JsonRoundTrip.ItemsTextStep([b], format, depth);
    assert [b][1..] == [];
    JsonRoundTrip.NoItemsText(format, depth);
  }

  lemma ArrayText(items: seq<Json>, format: bool, depth: nat)
    requires Printable(Array(items))
    ensures ValueText(Array(items), format, depth) == "[" + ItemsText(items, format, depth + 1) + "]"
  {
  }

  /** Objects: with formatting each member stands on a line of its own, indented by its depth in tabs, and a tab
      follows the colon; the closing brace stands on the line after the last. */
  lemma TwoMembers(k: string, a: Json, l: string, b: Json)
    requires NulFree(k) && NulFree(l) && Printable(a) && Printable(b)
    ensures var o := Object([Member(k, a), Member(l, b)]);
      && Printable(o)
      && Print(o, false) == "{" + (Quote(k) + ":" + ValueText(a, false, 1))
                            + ("," + (Quote(l) + ":" + ValueText(b, false, 1))) + "}"
      && Print(o, true) == "{\n" + ("\t" + Quote(k) + ":\t" + ValueText(a, true, 1))
                           + (",\n" + ("\t" + Quote(l) + ":\t" + ValueText(b, true, 1))) + "\n}"
  {
    hide ValueText, Quote;
    var m, n := Member(k, a), Member(l, b);
    ObjectSplit(m, n, false);
    ObjectSplit(m, n, true);
    MemberIs(m);
    MemberIs(n);
    var mt, nt := MemberText(m, true, 1), MemberText(n, true, 1);
    assert "{" + "\n" == "{\n" && "," + "\n" == ",\n" && "\n" + "}" == "\n}";
  }

  lemma MemberIs(m: Member)
    requires NulFree(m.key) && Printable(m.value)
    ensures MemberText(m, false, 1) == Quote(m.key) + ":" + ValueText(m.value, false, 1)
    ensures MemberText(m, true, 1) == "\t" + Quote(m.key) + ":\t" + ValueText(m.value, true, 1)
  {
    hide ValueText, Quote;
    assert Tabs(true, 1) == "\t" && Tabs(false, 1) == "";
    assert ":" + "\t" == ":\t";
  }

  lemma ObjectSplit(m: Member, n: Member, format: bool)
    requires NulFree(m.key) && Printable(m.value) && NulFree(n.key) && Printable(n.value)
    ensures Printable(Object([m, n]))
    ensures var nl := If(format, "\n");
      Print(Object([m, n]), format) ==
        ("{" + nl) + MemberText(m, format, 1) + (("," + nl) + MemberText(n, format, 1)) + (nl + "}")
  {
    hide MemberText, MembersText;
    JsonRoundTrip.MembersTextStep([m, n], format, 1);
    assert [m, n][1..] == [n];
    JsonRoundTrip.MembersTextStep([n], format, 1);
    assert [n][1..] == [];
    JsonRoundTrip.NoMembersText(format, 1);
    assert Tabs(format, 0) == "";
    Rejoin(MemberText(m, format, 1), MemberText(n, format, 1), If(format, "\n"));
  }

  lemma Rejoin(a: string, b: string, nl: string)
    ensures "{" + nl + (a + "," + nl + (b + "" + nl + "")) + "" + "}" == ("{" + nl) + a + (("," + nl) + b) + (nl + "}")
  {
    assert b + "" + nl + "" == b + nl;
    assert "{" + nl + (a + "," + nl + (b + nl)) == ("{" + nl) + a + (("," + nl) + b) + nl;
  }

  /** Characters in strings: seven have an escape of two characters, the other control characters one of six with
      lower-case digits, and all others stand for themselves. */
  lemma Escapes(c: char)
    ensures EscapeChar('\"') == "\\\"" && EscapeChar('\\') == "\\\\" && EscapeChar('\n') == "\\n"
    ensures EscapeChar('\r') == "\\r" && EscapeChar('\t') == "\\t"
    ensures EscapeChar('\U{08}') == "\\b" && EscapeChar('\U{0C}') == "\\f"
    ensures EscapeChar('\U{01}') == "\\u0001" && EscapeChar('\U{1F}') == "\\u001f"
    ensures c >= ' ' && c != '\"' && c != '\\' ==> EscapeChar(c) == [c]
  {
  }
}
