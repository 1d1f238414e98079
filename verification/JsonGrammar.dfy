/** JSON texts in all their spellings: whatever its layout, its escapes and the notation of its numbers, a text parses
    to the tree it denotes (the grammar of RFC 8259). */
module JsonGrammar {
  import opened Wrappers
  import opened Text
  import opened Json
  import opened JsonParse
  import opened JsonRoundTrip
  import opened JsonNumeral

  // ---------------------------------------------------------------- the grammar

  type Nibble = n: nat | n < 16

  datatype Hex = Hex(n: Nibble, upper: bool)

  /** Four hexadecimal digits. */
  datatype Quad = Quad(a: Hex, b: Hex, c: Hex, d: Hex)

  function HexChar(h: Hex): char {
    if h.upper then "0123456789ABCDEF"[h.n] else "0123456789abcdef"[h.n]
  }

  function QuadText(q: Quad): (r: string)
    ensures |r| == 4
  {
    [HexChar(q.a), HexChar(q.b), HexChar(q.c), HexChar(q.d)]
  }

  function QuadValue(q: Quad): nat {
    4096 * q.a.n + 256 * q.b.n + 16 * q.c.n + q.d.n
  }

  /** A piece of a string: a character as it is, an escape of one letter, a code point below U+10000, or a pair of
      surrogates for one above. */
  datatype Piece = Raw(plain: char) | Letter(letter: char) | Code(code: Quad) | Surrogates(high: Quad, low: Quad)

  predicate PieceOk(p: Piece) {
    match p
    case Raw(c) => c != '\"' && c != '\\'
    case Letter(c) => c in {'\"', '\\', '/', 'b', 'f', 'n', 'r', 't'}
    case Code(q) => QuadValue(q) < 0xD800 || QuadValue(q) > 0xDFFF
    case Surrogates(high, low) => 0xD800 <= QuadValue(high) <= 0xDBFF && 0xDC00 <= QuadValue(low) <= 0xDFFF
  }

  function PieceText(p: Piece): (r: string)
    ensures r != ""
  {
    match p
    case Raw(c) => [c]
    case Letter(c) => ['\\', c]
    case Code(q) => "\\u" + QuadText(q)
    case Surrogates(high, low) => "\\u" + QuadText(high) + ("\\u" + QuadText(low))
  }

  /** What a piece stands for, code points in UTF-8. */
  function PieceValue(p: Piece): string
    requires PieceOk(p)
  {
    match p
    case Raw(c) => [c]
    case Letter(c) =>
      if c == 'b' then "\U{08}" else if c == 'f' then "\U{0C}" else if c == 'n' then "\n" else if c == 'r' then "\r"
      else if c == 't' then "\t" else [c]
    case Code(q) => Utf8(QuadValue(q))
    case Surrogates(high, low) => Utf8(0x10000 + (QuadValue(high) - 0xD800) * 0x400 + (QuadValue(low) - 0xDC00))
  }

  predicate PiecesOk(pieces: seq<Piece>) {
    forall i :: 0 <= i < |pieces| ==> PieceOk(pieces[i])
  }

  function PiecesText(pieces: seq<Piece>): string {
    if pieces == [] then "" else PieceText(pieces[0]) + PiecesText(pieces[1..])
  }

  function PiecesValue(pieces: seq<Piece>): string
    requires PiecesOk(pieces)
  {
    if pieces == [] then "" else PieceValue(pieces[0]) + PiecesValue(pieces[1..])
  }

  function Quoted(pieces: seq<Piece>): string {
    "\"" + (PiecesText(pieces) + "\"")
  }

  /** The C string a string denotes: it ends before the first NUL. */
  function StringValue(pieces: seq<Piece>): string
    requires PiecesOk(pieces)
  {
    CStr(PiecesValue(pieces))
  }

  /** A JSON text with its layout. */
  datatype Doc =
    | NullDoc
    | BoolDoc(b: bool)
    | NumberDoc(number: Numeral)
    | StringDoc(pieces: seq<Piece>)
    | ArrayDoc(blank: string, items: seq<Element>)
    | ObjectDoc(blank: string, members: seq<Pair>)

  /** A text with the layout around it. */
  datatype Element = Element(before: string, doc: Doc, after: string)

  datatype Pair = Pair(before: string, key: seq<Piece>, colon: string, element: Element)

  predicate DocOk(d: Doc)
    decreases d
  {
    match d
    case NumberDoc(n) => NumeralOk(n)
    case StringDoc(pieces) => PiecesOk(pieces)
    case ArrayDoc(blank, items) => Blank(blank) && forall i :: 0 <= i < |items| ==> ElementOk(items[i])
    case ObjectDoc(blank, members) => Blank(blank) && forall i :: 0 <= i < |members| ==> PairOk(members[i])
    case _ => true
  }

  predicate ElementOk(e: Element)
    decreases e
  {
    Blank(e.before) && DocOk(e.doc) && Blank(e.after)
  }

  predicate PairOk(m: Pair)
    decreases m
  {
    Blank(m.before) && PiecesOk(m.key) && Blank(m.colon) && ElementOk(m.element)
  }

  function DocText(d: Doc): string
    decreases d
  {
    match d
    case NullDoc => "null"
    case BoolDoc(b) => if b then "true" else "false"
    case NumberDoc(n) => NumeralText(n)
    case StringDoc(pieces) => Quoted(pieces)
    case ArrayDoc(blank, items) => "[" + ((if items == [] then blank else ElementsText(items)) + "]")
    case ObjectDoc(blank, members) => "{" + ((if members == [] then blank else PairsText(members)) + "}")
  }

  function ElementText(e: Element): string
    decreases e
  {
    e.before + (DocText(e.doc) + e.after)
  }

  function ElementsText(items: seq<Element>): string
    decreases items
  {
    if items == [] then "" else
      ElementText(items[0]) + if |items| == 1 then "" else "," + ElementsText(items[1..])
  }

  function PairText(m: Pair): string
    decreases m
  {
    m.before + (Quoted(m.key) + (m.colon + (":" + ElementText(m.element))))
  }

  function PairsText(members: seq<Pair>): string
    decreases members
  {
    if members == [] then "" else
      PairText(members[0]) + if |members| == 1 then "" else "," + PairsText(members[1..])
  }

  /** The tree a text denotes. */
  function DocValue(d: Doc): Json
    requires DocOk(d)
    decreases d
  {
    match d
    case NullDoc => Null
    case BoolDoc(b) => Bool(b)
    case NumberDoc(n) => Number(NumeralValue(n))
    case StringDoc(pieces) => Str(StringValue(pieces))
    case ArrayDoc(_, items) => Array(ElementsValue(items))
    case ObjectDoc(_, members) => Object(PairsValue(members))
  }

  function ElementValue(e: Element): Json
    requires ElementOk(e)
    decreases e
  {
    DocValue(e.doc)
  }

  function ElementsValue(items: seq<Element>): (r: seq<Json>)
    requires forall i :: 0 <= i < |items| ==> ElementOk(items[i])
    ensures |r| == |items|
    decreases items
  {
    if items == [] then [] else [ElementValue(items[0])] + ElementsValue(items[1..])
  }

  function PairValue(m: Pair): Member
    requires PairOk(m)
    decreases m
  {
    Member(StringValue(m.key), ElementValue(m.element))
  }

  function PairsValue(members: seq<Pair>): (r: seq<Member>)
    requires forall i :: 0 <= i < |members| ==> PairOk(members[i])
    ensures |r| == |members|
    decreases members
  {
    if members == [] then [] else [PairValue(members[0])] + PairsValue(members[1..])
  }

  // ---------------------------------------------------------------- strings

  lemma HexIs(h: Hex)
    ensures HexValue(HexChar(h)) == Some(h.n as nat)
    ensures HexChar(h) != '\"' && HexChar(h) != '\\'
  {
  }

  lemma QuadIs(s: string, p: nat, q: Quad)
    requires At(s, p, QuadText(q))
    ensures p + 4 <= |s| && Hex4(s, p) == QuadValue(q)
    ensures forall i :: p <= i < p + 4 ==> s[i] != '\"' && s[i] != '\\'
  {
    hide HexChar, HexValue;
    HexIs(q.a);
    HexIs(q.b);
    HexIs(q.c);
    HexIs(q.d);
    var t := QuadText(q);
    assert s[p] == t[0] && s[p + 1] == t[1] && s[p + 2] == t[2] && s[p + 3] == t[3];
  }

  /** A `\u` escape: its digits and where they stand. */
  lemma EscapeIs(s: string, p: nat, q: Quad)
    requires At(s, p, "\\u" + QuadText(q))
    ensures p + 6 <= |s| && s[p] == '\\' && s[p + 1] == 'u' && Hex4(s, p + 2) == QuadValue(q)
    ensures ScanString(s, p + 6).Some? ==>
              ScanString(s, p).Some? && ScanString(s, p).value.0 == ScanString(s, p + 6).value.0
  {
    hide At, QuadText, Hex4;
    AtSplit(s, p, "\\u", QuadText(q));
    AtChar(s, p, "\\u", 0);
    AtChar(s, p, "\\u", 1);
    QuadIs(s, p + 2, q);
    ScanPlain(s, p + 2, 4);
  }

  lemma ScanPiece(s: string, p: nat, x: Piece)
    requires PieceOk(x) && At(s, p, PieceText(x)) && ScanString(s, p + |PieceText(x)|).Some?
    ensures ScanString(s, p).Some? && ScanString(s, p).value.0 == ScanString(s, p + |PieceText(x)|).value.0
  {
    hide At, QuadText, QuadValue;
    AtChar(s, p, PieceText(x), 0);
    match x
    case Raw(c) =>
    case Letter(c) => AtChar(s, p, PieceText(x), 1);
    case Code(q) => EscapeIs(s, p, q);
    case Surrogates(high, low) =>
      AtSplit(s, p, "\\u" + QuadText(high), "\\u" + QuadText(low));
      EscapeIs(s, p, high);
      EscapeIs(s, p + 6, low);
  }

  lemma {:induction false} ScanPieces(s: string, p: nat, pieces: seq<Piece>)
    requires PiecesOk(pieces) && At(s, p, PiecesText(pieces) + "\"")
    ensures ScanString(s, p).Some? && ScanString(s, p).value.0 == p + |PiecesText(pieces)|
    decreases |pieces|
  {
    hide PieceText, PieceOk, At;
    if pieces == [] {
      AtChar(s, p, PiecesText(pieces) + "\"", 0);
    } else {
      var x, rest := PieceText(pieces[0]), PiecesText(pieces[1..]) + "\"";
      assert PiecesText(pieces) + "\"" == x + rest;
      AtSplit(s, p, x, rest);
      ScanPieces(s, p + |x|, pieces[1..]);
      ScanPiece(s, p, pieces[0]);
    }
  }

  lemma LetterIs(c: char)
    requires PieceOk(Letter(c))
    ensures c != 'u' && SimpleEscape(c).Some? && [SimpleEscape(c).value] == PieceValue(Letter(c))
  {
  }

  lemma UnescapePiece(s: string, p: nat, end: nat, x: Piece)
    requires PieceOk(x) && At(s, p, PieceText(x)) && p + |PieceText(x)| <= end < |s|
    ensures Unescape(s, p, end) == Prefix(PieceValue(x), Unescape(s, p + |PieceText(x)|, end))
  {
    hide At, QuadText, Hex4, Utf8, SimpleEscape, QuadValue;
    AtChar(s, p, PieceText(x), 0);
    match x
    case Raw(c) =>
    case Letter(c) => AtChar(s, p, PieceText(x), 1); LetterIs(c);
    case Code(q) => EscapeIs(s, p, q); CodeIs(s, p, end, q);
    case Surrogates(high, low) =>
      AtSplit(s, p, "\\u" + QuadText(high), "\\u" + QuadText(low));
      EscapeIs(s, p, high);
      EscapeIs(s, p + 6, low);
      SurrogatesAre(s, p, end, high, low);
  }

  lemma CodeIs(s: string, p: nat, end: nat, q: Quad)
    requires PieceOk(Code(q)) && p + 6 <= end <= |s| && Hex4(s, p + 2) == QuadValue(q)
    ensures Utf16Literal(s, p, end) == Some((QuadValue(q), 6))
  {
  }

  lemma SurrogatesAre(s: string, p: nat, end: nat, high: Quad, low: Quad)
    requires PieceOk(Surrogates(high, low)) && p + 12 <= end <= |s| && s[p + 6] == '\\' && s[p + 7] == 'u'
    requires Hex4(s, p + 2) == QuadValue(high) && Hex4(s, p + 8) == QuadValue(low)
    ensures Utf16Literal(s, p, end) ==
            Some((0x10000 + (QuadValue(high) - 0xD800) * 0x400 + (QuadValue(low) - 0xDC00), 12))
  {
    hide Hex4, QuadValue;
    assert QuadValue(high) % 0x400 == QuadValue(high) - 0xD800 && QuadValue(low) % 0x400 == QuadValue(low) - 0xDC00;
  }

  lemma {:induction false} UnescapePieces(s: string, p: nat, pieces: seq<Piece>)
    requires PiecesOk(pieces) && At(s, p, PiecesText(pieces)) && p + |PiecesText(pieces)| < |s|
    ensures Unescape(s, p, p + |PiecesText(pieces)|) == Some(PiecesValue(pieces))
    decreases |pieces|
  {
    hide At, PieceText, PieceValue, PieceOk;
    if pieces != [] {
      var x, rest := PieceText(pieces[0]), PiecesText(pieces[1..]);
      AtSplit(s, p, x, rest);
      UnescapePiece(s, p, p + |PiecesText(pieces)|, pieces[0]);
      UnescapePieces(s, p + |x|, pieces[1..]);
    }
  }

  /** A string parses to what its pieces stand for, up to the first NUL. */
  lemma StringParses(s: string, off: nat, pieces: seq<Piece>)
    requires Terminated(s) && PiecesOk(pieces) && At(s, off, Quoted(pieces))
    ensures off < |s| && ParseString(s, off) == Ok(StringValue(pieces), off + |Quoted(pieces)|)
  {
    hide At, PiecesText, PiecesValue, ScanString, Unescape, CStr;
    AtChar(s, off, Quoted(pieces), 0);
    AtSplit(s, off, "\"", PiecesText(pieces) + "\"");
    AtSplit(s, off + 1, PiecesText(pieces), "\"");
    ScanPieces(s, off + 1, pieces);
    UnescapePieces(s, off + 1, pieces);
  }

  /** The bytes of a code point are those of section 3 of RFC 3629: one to four by its size, each with its marker, and
      together they hold its bits. */
  lemma Utf8Is(codepoint: nat)
    requires codepoint < 0x110000
    ensures var b := Utf8(codepoint);
      && (forall i :: 1 <= i < |b| ==> 0x80 <= b[i] as int < 0xC0)
      && (codepoint < 0x80 ==> |b| == 1 && b[0] as int == codepoint)
      && (0x80 <= codepoint < 0x800 ==>
            |b| == 2 && 0xC0 <= b[0] as int < 0xE0 && codepoint == (b[0] as int - 0xC0) * 0x40 + (b[1] as int - 0x80))
      && (0x800 <= codepoint < 0x10000 ==>
            && |b| == 3 && 0xE0 <= b[0] as int < 0xF0
            && codepoint == (b[0] as int - 0xE0) * 0x1000 + (b[1] as int - 0x80) * 0x40 + (b[2] as int - 0x80))
      && (0x10000 <= codepoint ==>
            && |b| == 4 && 0xF0 <= b[0] as int < 0xF8
            && codepoint == (b[0] as int - 0xF0) * 0x40000 + (b[1] as int - 0x80) * 0x1000
                            + (b[2] as int - 0x80) * 0x40 + (b[3] as int - 0x80))
  {
    var x, y := codepoint / 0x40, codepoint / 0x1000;
    assert y == x / 0x40 && codepoint / 0x40000 == y / 0x40;
  }

  // ---------------------------------------------------------------- values

  lemma DocStart(d: Doc)
    requires DocOk(d)
    ensures DocText(d) != "" && ' ' < DocText(d)[0] < '~' && DocText(d)[0] !in {']', '}'}
  {
    hide ElementsText, PairsText, NumeralText, PiecesText;
    if d.NumberDoc? { NumeralChars(d.number); }
  }

  /** What may follow an element. */
  predicate Follows(after: string) {
    after != "" && after[0] in {',', ']', '}'}
  }

  /** Where the parts of an element stand: the text, the layout behind it and what follows. */
  lemma ElementLayout(s: string, p: nat, e: Element, follow: string)
    requires ElementOk(e) && Follows(follow) && At(s, p, ElementText(e) + follow)
    ensures var start, end := p + |e.before|, p + |e.before| + |DocText(e.doc)|;
      && DocText(e.doc) != "" && p < |s| && SkipSpace(s, p) == start < |s| && At(s, start, DocText(e.doc))
      && s[start] == DocText(e.doc)[0]
      && end < |s| && !IsNumberChar(s[end]) && SkipSpace(s, end) == p + |ElementText(e)| < |s|
      && s[p + |ElementText(e)|] == follow[0] && At(s, p + |ElementText(e)|, follow)
  {
    hide At, SkipSpace, DocText;
    var t := DocText(e.doc);
    DocStart(e.doc);
    assert ElementText(e) + follow == e.before + (t + (e.after + follow));
    SkipLayout(s, p, e.before, t + (e.after + follow));
    AtSplit(s, p + |e.before|, t, e.after + follow);
    SkipLayout(s, p + |e.before| + |t|, e.after, follow);
    AtChar(s, p + |e.before| + |t|, e.after + follow, 0);
  }

  /** An element parses to its value, or fails because it nests too deeply. */
  lemma {:induction false} ElementParses(s: string, p: nat, e: Element, depth: nat, follow: string)
    requires ElementOk(e) && depth <= NESTING_LIMIT && Terminated(s) && Follows(follow) && At(s, p, ElementText(e) + follow)
    ensures var end := p + |e.before| + |DocText(e.doc)|;
      && p < |s| && ParseValue(s, SkipSpace(s, p), depth) ==
                    (if Fits(Nesting(ElementValue(e)), depth) then Ok(ElementValue(e), end) else Fail)
      && s[SkipSpace(s, p)] !in {']', '}'}
      && end < |s| && SkipSpace(s, end) == p + |ElementText(e)| < |s| && s[p + |ElementText(e)|] == follow[0]
      && At(s, p + |ElementText(e)|, follow)
    decreases e, 1
  {
    hide At, SkipSpace, DocText, DocValue, ElementText, ParseValue, Nesting, Fits;
    ElementLayout(s, p, e, follow);
    DocStart(e.doc);
    DocParses(s, p + |e.before|, e.doc, depth);
  }

  lemma ElementsCons(items: seq<Element>)
    requires items != [] && forall i :: 0 <= i < |items| ==> ElementOk(items[i])
    ensures ElementsText(items) + "]" ==
            ElementText(items[0]) + if |items| == 1 then "]" else "," + (ElementsText(items[1..]) + "]")
    ensures ElementsValue(items)[0] == ElementValue(items[0]) && ElementsValue(items)[1..] == ElementsValue(items[1..])
    ensures |items| == 1 ==> ElementsValue(items[1..]) == []
    ensures |ElementsText(items)| == |ElementText(items[0])| + if |items| == 1 then 0 else 1 + |ElementsText(items[1..])|
  {
    hide ElementText, ElementValue;
  }

  lemma {:induction false} ElementsParse(s: string, p: nat, items: seq<Element>, depth: nat)
    requires items != [] && depth <= NESTING_LIMIT && Terminated(s)
    requires (forall i :: 0 <= i < |items| ==> ElementOk(items[i])) && At(s, p, ElementsText(items) + "]")
    ensures p < |s| && s[SkipSpace(s, p)] !in {']', '}'} && ParseItems(s, SkipSpace(s, p), depth) ==
            if Fits(ItemsNesting(ElementsValue(items)), depth)
            then Ok(ElementsValue(items), p + |ElementsText(items)| + 1) else Fail
    decreases items, 2
  {
    hide At, SkipSpace, ParseValue, ParseItems, ElementText, ElementsText, ElementValue, ElementsValue, ElementOk,
         Nesting, ItemsNesting, Fits;
    var rest, values := items[1..], ElementsValue(items);
    var follow := if rest == [] then "]" else "," + (ElementsText(rest) + "]");
    ElementsCons(items);
    ItemsFit(values, depth);
    ElementParses(s, p, items[0], depth, follow);
    ItemsStep(s, SkipSpace(s, p), depth);
    assert values == [values[0]] + values[1..];
    if rest == [] {
      assert values == [values[0]];
    } else {
      var q := p + |ElementText(items[0])|;
      AtSplit(s, q, ",", ElementsText(rest) + "]");
      ElementsParse(s, q + 1, rest, depth);
    }
  }

  /** Where the parts of a member stand: the key, the colon and the value. */
  lemma PairLayout(s: string, p: nat, m: Pair, follow: string)
    requires PairOk(m) && follow != "" && At(s, p, PairText(m) + follow)
    ensures var start, key := p + |m.before|, |Quoted(m.key)|;
            var colon := start + key + |m.colon|;
      && p < |s| && SkipSpace(s, p) == start && At(s, start, Quoted(m.key)) && s[start] == '\"'
      && start + key < |s| && SkipSpace(s, start + key) == colon && colon + 1 < |s| && s[colon] == ':'
      && At(s, colon + 1, ElementText(m.element) + follow) && p + |PairText(m)| == colon + 1 + |ElementText(m.element)|
  {
    hide At, SkipSpace, PiecesText, ElementText;
    var key, value := Quoted(m.key), ElementText(m.element) + follow;
    assert PairText(m) + follow == m.before + (key + (m.colon + (":" + value)));
    SkipLayout(s, p, m.before, key + (m.colon + (":" + value)));
    AtSplit(s, p + |m.before|, key, m.colon + (":" + value));
    SkipLayout(s, p + |m.before| + |key|, m.colon, ":" + value);
    AtSplit(s, p + |m.before| + |key| + |m.colon|, ":", value);
    AtChar(s, p + |m.before| + |key| + |m.colon| + 1, value, 0);
  }

  lemma {:induction false} PairParses(s: string, p: nat, m: Pair, depth: nat, follow: string)
    requires PairOk(m) && depth <= NESTING_LIMIT && Terminated(s) && Follows(follow) && At(s, p, PairText(m) + follow)
    ensures var end := p + |PairText(m)|;
      && p < |s| && s[SkipSpace(s, p)] == '\"' && end < |s| && At(s, end, follow) && s[end] == follow[0]
      && var r := ParseMember(s, SkipSpace(s, p), depth);
         if Fits(Nesting(PairValue(m).value), depth)
         then r.Ok? && r.value == PairValue(m) && SkipSpace(s, r.next) == end else r.Fail?
    decreases m, 1
  {
    hide At, SkipSpace, ParseValue, ParseString, PairText, ElementText, Nesting, Fits, DocText, ElementValue, StringValue, Quoted;
    PairLayout(s, p, m, follow);
    StringParses(s, p + |m.before|, m.key);
    ElementParses(s, p + |m.before| + |Quoted(m.key)| + |m.colon| + 1, m.element, depth, follow);
  }

  lemma PairsCons(members: seq<Pair>)
    requires members != [] && forall i :: 0 <= i < |members| ==> PairOk(members[i])
    ensures PairsText(members) + "}" ==
            PairText(members[0]) + if |members| == 1 then "}" else "," + (PairsText(members[1..]) + "}")
    ensures PairsValue(members)[0] == PairValue(members[0]) && PairsValue(members)[1..] == PairsValue(members[1..])
    ensures |members| == 1 ==> PairsValue(members[1..]) == []
    ensures |PairsText(members)| == |PairText(members[0])| + if |members| == 1 then 0 else 1 + |PairsText(members[1..])|
  {
    hide PairText, PairValue;
  }

  lemma {:induction false} PairsParse(s: string, p: nat, members: seq<Pair>, depth: nat)
    requires members != [] && depth <= NESTING_LIMIT && Terminated(s)
    requires (forall i :: 0 <= i < |members| ==> PairOk(members[i])) && At(s, p, PairsText(members) + "}")
    ensures p < |s| && s[SkipSpace(s, p)] == '\"' && ParseMembers(s, SkipSpace(s, p), depth) ==
            if Fits(MembersNesting(PairsValue(members)), depth)
            then Ok(PairsValue(members), p + |PairsText(members)| + 1) else Fail
    decreases members, 2
  {
    hide At, SkipSpace, ParseMember, ParseMembers, PairText, PairsText, PairValue, PairsValue, PairOk,
         Nesting, MembersNesting, Fits;
    var rest, values := members[1..], PairsValue(members);
    var follow := if rest == [] then "}" else "," + (PairsText(rest) + "}");
    PairsCons(members);
    MembersFit(values, depth);
    PairParses(s, p, members[0], depth, follow);
    MembersStep(s, SkipSpace(s, p), depth);
    assert values == [values[0]] + values[1..];
    if rest == [] {
      assert values == [values[0]];
    } else {
      var q := p + |PairText(members[0])|;
      AtSplit(s, q, ",", PairsText(rest) + "}");
      PairsParse(s, q + 1, rest, depth);
    }
  }

  lemma {:induction false} ArrayParses(s: string, off: nat, d: Doc, depth: nat)
    requires d.ArrayDoc? && DocOk(d) && depth <= NESTING_LIMIT && Terminated(s) && At(s, off, DocText(d))
    ensures off < |s| && ParseValue(s, off, depth) ==
            if Fits(Nesting(DocValue(d)), depth) then Ok(DocValue(d), off + |DocText(d)|) else Fail
    decreases d, 0
  {
    hide At, SkipSpace, ParseValue, ParseItems, ElementsText, ElementsValue, ElementOk, ItemsNesting;
    var body := if d.items == [] then d.blank else ElementsText(d.items);
    AtSplit(s, off, "[", body + "]");
    AtChar(s, off, "[", 0);
    NoElements();
    if d.items == [] {
      SkipLayout(s, off + 1, d.blank, "]");
    } else {
      AtChar(s, off + 1, body + "]", 0);
      if depth < NESTING_LIMIT { ElementsParse(s, off + 1, d.items, depth + 1); }
    }
    BracketStep(s, off, depth);
  }

  lemma NoElements()
    ensures ElementsValue([]) == [] && PairsValue([]) == []
    ensures ItemsNesting([]) == 0 && MembersNesting([]) == 0
  {
  }

  lemma {:induction false} ObjectParses(s: string, off: nat, d: Doc, depth: nat)
    requires d.ObjectDoc? && DocOk(d) && depth <= NESTING_LIMIT && Terminated(s) && At(s, off, DocText(d))
    ensures off < |s| && ParseValue(s, off, depth) ==
            if Fits(Nesting(DocValue(d)), depth) then Ok(DocValue(d), off + |DocText(d)|) else Fail
    decreases d, 0
  {
    hide At, SkipSpace, ParseValue, ParseMembers, PairsText, PairsValue, PairOk, MembersNesting;
    var body := if d.members == [] then d.blank else PairsText(d.members);
    AtSplit(s, off, "{", body + "}");
    AtChar(s, off, "{", 0);
    NoElements();
    if d.members == [] {
      SkipLayout(s, off + 1, d.blank, "}");
    } else {
      AtChar(s, off + 1, body + "}", 0);
      if depth < NESTING_LIMIT { PairsParse(s, off + 1, d.members, depth + 1); }
    }
    BraceStep(s, off, depth);
  }

  /** A text parses to the tree it denotes where it stands, or fails because it nests too deeply. */
  lemma {:induction false} DocParses(s: string, off: nat, d: Doc, depth: nat)
    requires DocOk(d) && depth <= NESTING_LIMIT && Terminated(s) && At(s, off, DocText(d))
    requires off + |DocText(d)| < |s| && (d.NumberDoc? ==> !IsNumberChar(s[off + |DocText(d)|]))
    ensures ParseValue(s, off, depth) ==
            if Fits(Nesting(DocValue(d)), depth) then Ok(DocValue(d), off + |DocText(d)|) else Fail
    decreases d, 1
  {
    match d
    case ArrayDoc(_, _) => ArrayParses(s, off, d, depth);
    case ObjectDoc(_, _) => ObjectParses(s, off, d, depth);
    case _ => ScalarParses(s, off, d, depth);
  }

  lemma ScalarParses(s: string, off: nat, d: Doc, depth: nat)
    requires !d.ArrayDoc? && !d.ObjectDoc? && DocOk(d) && Terminated(s) && At(s, off, DocText(d))
    requires off + |DocText(d)| < |s| && (d.NumberDoc? ==> !IsNumberChar(s[off + |DocText(d)|]))
    ensures ParseValue(s, off, depth) == Ok(DocValue(d), off + |DocText(d)|) && Nesting(DocValue(d)) == 0
  {
    hide At, ParseItems, ParseMembers, ParseString, ParseNumber, PiecesText, NumeralText, NumeralValue, SkipSpace, StringValue;
    DocStart(d);
    AtChar(s, off, DocText(d), 0);
    match d
    case NullDoc =>
    case BoolDoc(b) =>
    case NumberDoc(n) => NumeralParses(s, off, n); NumeralChars(n);
    case StringDoc(pieces) => StringParses(s, off, pieces);
  }

  /** Every JSON text, after a byte order mark or none and after any layout, parses to the tree it denotes, exactly
      when that nests at most 1000 deep; text behind it is ignored. */
  lemma GrammarParses(mark: bool, before: string, d: Doc, rest: string)
    requires DocOk(d) && Blank(before) && (d.NumberDoc? && rest != "" ==> !IsNumberChar(rest[0]))
    requires NulFree((if mark then BOM else "") + before + DocText(d) + rest)
    ensures Parse((if mark then BOM else "") + before + DocText(d) + rest) ==
            if Nesting(DocValue(d)) <= NESTING_LIMIT then Some(DocValue(d)) else None
  {
    hide ParseValue, SkipSpace, DocText, DocValue, DocOk, Nesting, At, BOM;
    var bom, t, tail := if mark then BOM else "", DocText(d), rest + [NUL];
    var s := bom + before + t + rest + [NUL];
    DocStart(d);
    assert s == bom + (before + (t + tail));
    Whole(s);
    Placed(s, bom, before, t, tail);
    if |s| > 4 { Marked(s, mark); }
    BomLength();
    DocParses(s, |bom| + |before|, d, 0);
  }

  /** Where the text starts, and what stands behind it. */
  lemma Placed(s: string, mark: string, before: string, t: string, tail: string)
    requires At(s, 0, mark + (before + (t + tail))) && Blank(before) && t != "" && ' ' < t[0] < '~' && tail != ""
    ensures var start := |mark| + |before|;
      && |s| > start + |t| && SkipSpace(s, |mark|) == start && At(s, start, t) && s[start + |t|] == tail[0]
    ensures At(s, 0, mark) && (mark == "" ==> s[0] < '~')
  {
    hide SkipSpace, At;
    var body := before + (t + tail);
    AtSplit(s, 0, mark, body);
    SkipLayout(s, |mark|, before, t + tail);
    AtSplit(s, |mark| + |before|, t, tail);
    AtChar(s, |mark| + |before| + |t|, tail, 0);
    AtChar(s, |mark|, body, 0);
  }

  lemma Marked(s: string, mark: bool)
    requires |s| > 4 && if mark then At(s, 0, BOM) else s[0] < '~'
    ensures At(s, 0, BOM) <==> mark
  {
    hide At;
    if !mark { OtherStart(s, BOM); }
  }

  lemma BomLength()
    ensures |BOM| == 3
  {
  }

  lemma Whole(s: string)
    ensures At(s, 0, s)
  {
  }

  lemma OtherStart(s: string, t: string)
    requires s != "" && t != "" && s[0] != t[0]
    ensures !At(s, 0, t)
  {
  }

  // ---------------------------------------------------------------- instances

  const GRINNING := Surrogates(Quad(Hex(13, false), Hex(8, false), Hex(3, false), Hex(13, false)),
                               Quad(Hex(13, false), Hex(14, false), Hex(0, false), Hex(0, false)))

  /** A pair of surrogates is one code point: U+1F600, four bytes in UTF-8. */
  lemma SurrogatePair()
    ensures NulFree("\"\\ud83d\\ude00\"") && Parse("\"\\ud83d\\ude00\"") == Some(Str("\U{F0}\U{9F}\U{98}\U{80}"))
  {
    hide Parse, PieceText, PieceValue, PiecesText, PiecesValue, GRINNING;
    GrinningText();
    GrinningValue();
    OnePiece(GRINNING);
    var t := "\"\\ud83d\\ude00\"";
    assert "" + "" + t + "" == t;
    GrammarParses(false, "", StringDoc([GRINNING]), "");
  }

  lemma GrinningText()
    ensures PieceOk(GRINNING) && "\"" + (PieceText(GRINNING) + "\"") == "\"\\ud83d\\ude00\""
  {
    assert PieceText(GRINNING) == "\\ud83d\\ude00";
  }

  lemma GrinningValue()
    ensures PieceOk(GRINNING) && PieceValue(GRINNING) == "\U{F0}\U{9F}\U{98}\U{80}"
  {
    assert PieceValue(GRINNING) == Utf8(0x1F600);
  }

  lemma OnePiece(x: Piece)
    requires PieceOk(x)
    ensures PiecesOk([x]) && PiecesText([x]) == PieceText(x) && PiecesValue([x]) == PieceValue(x)
  {
    hide PieceText, PieceValue, PieceOk;
    assert [x][1..] == [];
  }
}
