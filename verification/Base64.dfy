/** URL-safe Base64 (section 5 of RFC 4648), as the SDK encodes users for request paths. */
module Base64 {
  import opened Wrappers

  type Byte = x: int | 0 <= x < 256
  type Sextet = x: int | 0 <= x < 64

  const PAD: Byte := 61
  /** The decoding table's mark for bytes outside the alphabet. */
  const SKIP: nat := 0x80

  /** `base64_table`. */
  function Symbol(v: Sextet): (c: Byte) {
    if v < 26 then 65 + v
    else if v < 52 then 97 + (v - 26)
    else if v < 62 then 48 + (v - 52)
    else if v == 62 then 45
    else 95
  }

  /** The value of a byte: its sextet, 0 for the padding sign, and `SKIP` for every other byte. */
  function ValueOf(c: Byte): (v: nat)
    ensures v < 64 || v == SKIP
  {
    if 65 <= c <= 90 then c - 65
    else if 97 <= c <= 122 then c - 97 + 26
    else if 48 <= c <= 57 then c - 48 + 52
    else if c == 45 then 62
    else if c == 95 then 63
    else if c == PAD then 0
    else SKIP
  }

  /** The table is inverted by the loop that fills `dtable` from it. */
  method BuildDecodeTable() returns (dtable: array<nat>)
    ensures fresh(dtable) && dtable.Length == 256
    ensures forall c :: 0 <= c < 256 ==> dtable[c] == ValueOf(c)
  {
    dtable := new nat[256](_ => SKIP);
    for i := 0 to 64
      invariant forall c :: 0 <= c < 256 ==>
                  dtable[c] == if c != PAD && ValueOf(c) < i then ValueOf(c) else SKIP
    {
      dtable[Symbol(i)] := i;
    }
    dtable[PAD] := 0;
  }

  // ---------------------------------------------------------------- encoding

  function Group(a: Byte, b: Byte, c: Byte): (r: seq<Byte>)
    ensures |r| == 4
  {
    [Symbol(a / 4), Symbol(a % 4 * 16 + b / 16), Symbol(b % 16 * 4 + c / 64), Symbol(c % 64)]
  }

  function Encoded(src: seq<Byte>): (r: seq<Byte>)
    ensures |r| == (|src| + 2) / 3 * 4
  {
    if |src| == 0 then []
    else if |src| == 1 then Group(src[0], 0, 0)[..2] + [PAD, PAD]
    else if |src| == 2 then Group(src[0], src[1], 0)[..3] + [PAD]
    else Group(src[0], src[1], src[2]) + Encoded(src[3..])
  }

  const SIZE_LIMIT: int := 0x1_0000_0000_0000_0000

  /** The size of the output buffer, in 64-bit arithmetic that wraps around. */
  function AllocationSize(len: nat): nat {
    var blocks := len * 4 % SIZE_LIMIT / 3 + 4;
    var lines := (blocks + blocks / 72) % SIZE_LIMIT;
    (lines + 1) % SIZE_LIMIT
  }

  /** The overflow test accepts exactly the lengths below 2^62, and for those the buffer is large
      enough for the text and its terminator. */
  lemma AllocationSuffices(len: nat)
    requires len < SIZE_LIMIT
    ensures AllocationSize(len) >= len <==> len < SIZE_LIMIT / 4
    ensures len < SIZE_LIMIT / 4 ==> (len + 2) / 3 * 4 + 1 <= AllocationSize(len)
  {
    var quarter := SIZE_LIMIT / 4;
    var k := if len < quarter then len else if len < 2 * quarter then len - quarter
             else if len < 3 * quarter then len - 2 * quarter else len - 3 * quarter;
    assert len * 4 % SIZE_LIMIT == 4 * k;
    SmallSize(len, k);
    hide AllocationSize;
    var blocks := 4 * k / 3 + 4;
    if len < quarter {
      assert (len + 2) / 3 * 4 <= blocks;
    } else {
      TooLong(len, k, blocks, blocks / 72);
    }
  }

  lemma TooLong(len: nat, k: nat, blocks: nat, lines: nat)
    requires len >= SIZE_LIMIT / 4 + k && k < SIZE_LIMIT / 4
    requires 3 * (blocks - 4) <= 4 * k && 72 * lines <= blocks
    ensures blocks + lines + 1 < len
  {
    assert 216 * (blocks + lines + 1) <= 292 * k + 1092;
  }

  lemma SmallSize(len: nat, k: nat)
    requires len * 4 % SIZE_LIMIT == 4 * k && k < SIZE_LIMIT / 4
    ensures var blocks := 4 * k / 3 + 4; AllocationSize(len) == blocks + blocks / 72 + 1
  {
    var blocks := 4 * k / 3 + 4;
    assert blocks + blocks / 72 + 1 < SIZE_LIMIT;
  }

  method Encode(src: seq<Byte>) returns (r: Option<seq<Byte>>)
    requires |src| < SIZE_LIMIT
    ensures r == if |src| < SIZE_LIMIT / 4 then Some(Encoded(src)) else None
  {
    var olen := AllocationSize(|src|);
    AllocationSuffices(|src|);
    if olen < |src| {
      return None;
    }
    var out := new Byte[olen];
    var pos := EncodeInto(src, out);
    r := Some(out[..pos]);
    out[pos] := 0;
  }

  method EncodeInto(src: seq<Byte>, out: array<Byte>) returns (pos: nat)
    requires |Encoded(src)| < out.Length
    modifies out
    ensures pos == |Encoded(src)| && out[..pos] == Encoded(src)
  {
    hide Encoded, Symbol;
    var i := 0;
    pos := 0;
    assert src[0..] == src && out[..0] == [];
    while |src| - i >= 3
      invariant 0 <= i <= |src| && 0 <= pos && pos + |Encoded(src[i..])| == |Encoded(src)|
      invariant out[..pos] + Encoded(src[i..]) == Encoded(src)
    {
      var g := Group(src[i], src[i + 1], src[i + 2]);
      ghost var done := out[..pos];
      EncodedStep(src, i);
      WriteFour(out, pos, g);
      i, pos := i + 3, pos + 4;
      assert done + (g + Encoded(src[i..])) == out[..pos] + Encoded(src[i..]);
    }
    EncodedEnd(src, i);
    if i == |src| {
      assert out[..pos] + [] == out[..pos];
    } else {
      var a := src[i];
      var g;
      if |src| - i == 1 {
        g := [Symbol(a / 4), Symbol(a % 4 * 16), PAD, PAD];
      } else {
        var b := src[i + 1];
        g := [Symbol(a / 4), Symbol(a % 4 * 16 + b / 16), Symbol(b % 16 * 4), PAD];
      }
      WriteFour(out, pos, g);
      pos := pos + 4;
    }
  }

  method WriteFour(out: array<Byte>, pos: nat, g: seq<Byte>)
    requires |g| == 4 && pos + 4 <= out.Length
    modifies out
    ensures out[..pos + 4] == old(out[..pos]) + g
  {
    out[pos], out[pos + 1], out[pos + 2], out[pos + 3] := g[0], g[1], g[2], g[3];
  }

  lemma EncodedStep(src: seq<Byte>, i: nat)
    requires i + 3 <= |src|
    ensures Encoded(src[i..]) == Group(src[i], src[i + 1], src[i + 2]) + Encoded(src[i + 3..])
  {
    assert src[i..][3..] == src[i + 3..];
  }

  lemma EncodedEnd(src: seq<Byte>, i: nat)
    requires i <= |src| < i + 3
    ensures Encoded(src[i..]) ==
            if i == |src| then []
            else if i + 1 == |src| then [Symbol(src[i] / 4), Symbol(src[i] % 4 * 16), PAD, PAD]
            else [Symbol(src[i] / 4), Symbol(src[i] % 4 * 16 + src[i + 1] / 16), Symbol(src[i + 1] % 16 * 4), PAD]
  {
  }

  // ---------------------------------------------------------------- decoding

  /** The bytes of the alphabet, padding included; all others are skipped. */
  function Symbols(src: seq<Byte>): (r: seq<Byte>)
    ensures forall i :: 0 <= i < |r| ==> ValueOf(r[i]) != SKIP
  {
    if src == [] then []
    else (if ValueOf(src[0]) == SKIP then [] else [src[0]]) + Symbols(src[1..])
  }

  function Ungroup(a: nat, b: nat, c: nat, d: nat): (r: seq<Byte>)
    requires a < 64 && b < 64 && c < 64 && d < 64
    ensures |r| == 3
  {
    [a * 4 + b / 16, b % 16 * 16 + c / 4, c % 4 * 64 + d]
  }

  function Pad(c: Byte): nat {
    if c == PAD then 1 else 0
  }

  function Pads(a: Byte, b: Byte, c: Byte, d: Byte): nat {
    Pad(a) + Pad(b) + Pad(c) + Pad(d)
  }

  function Groups(syms: seq<Byte>): (r: Option<seq<Byte>>)
    requires |syms| % 4 == 0 && forall i :: 0 <= i < |syms| ==> ValueOf(syms[i]) != SKIP
  {
    if syms == [] then Some([]) else
    var bytes := Ungroup(ValueOf(syms[0]), ValueOf(syms[1]), ValueOf(syms[2]), ValueOf(syms[3]));
    match Pads(syms[0], syms[1], syms[2], syms[3])
    case 0 =>
      (match Groups(syms[4..])
       case None => None
       case Some(rest) => Some(bytes + rest))
    case 1 => Some(bytes[..2])
    case 2 => Some(bytes[..1])
    case _ => None
  }

  function Decoded(src: seq<Byte>): (r: Option<seq<Byte>>) {
    var syms := Symbols(src);
    if |syms| == 0 || |syms| % 4 != 0 then None else Groups(syms)
  }

  lemma SymbolsStep(src: seq<Byte>, i: nat)
    requires i < |src|
    ensures Symbols(src[i..]) == (if ValueOf(src[i]) == SKIP then [] else [src[i]]) + Symbols(src[i + 1..])
  {
    assert src[i..][1..] == src[i + 1..];
  }

  method CountSymbols(src: seq<Byte>, dtable: array<nat>) returns (count: nat)
    requires dtable.Length == 256 && forall c :: 0 <= c < 256 ==> dtable[c] == ValueOf(c)
    ensures count == |Symbols(src)|
  {
    hide Symbols, ValueOf;
    count := 0;
    assert src[0..] == src;
    for i := 0 to |src|
      invariant count + |Symbols(src[i..])| == |Symbols(src)|
    {
      SymbolsStep(src, i);
      if dtable[src[i]] != SKIP {
        count := count + 1;
      }
    }
    NoSymbols(src);
  }

  lemma NoSymbols(src: seq<Byte>)
    ensures Symbols(src[|src|..]) == []
  {
  }

  /** Bytes decoded so far, then the rest. */
  function Cat(done: seq<Byte>, r: Option<seq<Byte>>): Option<seq<Byte>> {
    match r
    case None => None
    case Some(rest) => Some(done + rest)
  }

  /** The bytes of the first four symbols. */
  function FirstGroup(syms: seq<Byte>): (r: seq<Byte>)
    requires |syms| >= 4 && forall i :: 0 <= i < |syms| ==> ValueOf(syms[i]) != SKIP
    ensures |r| == 3
  {
    Ungroup(ValueOf(syms[0]), ValueOf(syms[1]), ValueOf(syms[2]), ValueOf(syms[3]))
  }

  /** One complete group: none, one or two padding signs, or too many of them. */
  lemma GroupsStep(syms: seq<Byte>)
    requires |syms| >= 4 && |syms| % 4 == 0 && forall i :: 0 <= i < |syms| ==> ValueOf(syms[i]) != SKIP
    ensures var bytes := FirstGroup(syms);
            var pads := Pads(syms[0], syms[1], syms[2], syms[3]);
            Groups(syms) == if pads == 0 then Cat(bytes, Groups(syms[4..]))
                            else if pads <= 2 then Some(bytes[..3 - pads]) else None
  {
    hide ValueOf, Ungroup, Pads;
  }

  function PadsIn(s: seq<Byte>): nat
    requires |s| <= 4
  {
    (if |s| > 0 then Pad(s[0]) else 0) + (if |s| > 1 then Pad(s[1]) else 0)
    + (if |s| > 2 then Pad(s[2]) else 0) + (if |s| > 3 then Pad(s[3]) else 0)
  }

  /** The state of the decoding loop at byte `i`: bytes written for the groups before the current one,
      and the part of the current group read so far. */
  ghost predicate Decoding(src: seq<Byte>, i: nat, done: seq<Byte>, group: seq<Byte>, block: seq<nat>, pad: nat)
  {
    && i <= |src| && |group| < 4 && |block| == 4 && pad == PadsIn(group)
    && (forall k :: 0 <= k < |group| ==> ValueOf(group[k]) == block[k] != SKIP)
    && (|group| + |Symbols(src[i..])|) % 4 == 0 && |Symbols(src)| % 4 == 0
    && |done| * 4 == 3 * (|Symbols(src)| - |group| - |Symbols(src[i..])|)
    && (forall k :: 0 <= k < |group + Symbols(src[i..])| ==> ValueOf((group + Symbols(src[i..]))[k]) != SKIP)
    && Groups(Symbols(src)) == Cat(done, Groups(group + Symbols(src[i..])))
  }

  lemma BeginDecoding(src: seq<Byte>, block: seq<nat>)
    requires |Symbols(src)| % 4 == 0 && |block| == 4
    ensures Decoding(src, 0, [], [], block, 0)
  {
    hide Symbols, Groups, ValueOf;
    assert src[0..] == src && [] + Symbols(src) == Symbols(src);
    if Groups(Symbols(src)).Some? {
      assert [] + Groups(Symbols(src)).value == Groups(Symbols(src)).value;
    }
  }

  lemma SkipByte(src: seq<Byte>, i: nat, done: seq<Byte>, group: seq<Byte>, block: seq<nat>, pad: nat)
    requires Decoding(src, i, done, group, block, pad) && i < |src| && ValueOf(src[i]) == SKIP
    ensures Decoding(src, i + 1, done, group, block, pad)
  {
    hide Symbols, Groups, ValueOf;
    SymbolsStep(src, i);
    assert [] + Symbols(src[i + 1..]) == Symbols(src[i + 1..]);
  }

  lemma TakeByte(src: seq<Byte>, i: nat, done: seq<Byte>, group: seq<Byte>, block: seq<nat>, pad: nat)
    requires Decoding(src, i, done, group, block, pad) && i < |src| && ValueOf(src[i]) != SKIP && |group| < 3
    ensures Decoding(src, i + 1, done, group + [src[i]], block[|group| := ValueOf(src[i])], pad + Pad(src[i]))
  {
    hide Symbols, Groups, ValueOf;
    SymbolsStep(src, i);
    assert group + ([src[i]] + Symbols(src[i + 1..])) == group + [src[i]] + Symbols(src[i + 1..]);
  }

  /** The fourth symbol of a group. */
  lemma EndGroup(src: seq<Byte>, i: nat, done: seq<Byte>, group: seq<Byte>, block: seq<nat>, pad: nat)
    requires Decoding(src, i, done, group, block, pad) && i < |src| && ValueOf(src[i]) != SKIP && |group| == 3
    ensures var v, pads := ValueOf(src[i]), pad + Pad(src[i]);
            && block[0] < 64 && block[1] < 64 && block[2] < 64 && v < 64
            && |done| + 3 <= |Symbols(src)| / 4 * 3
            && var bytes := Ungroup(block[0], block[1], block[2], v);
            && (pads == 0 ==> Decoding(src, i + 1, done + bytes, [], block[3 := v], 0))
            && (pads > 0 ==> Groups(Symbols(src)) == if pads <= 2 then Some(done + bytes[..3 - pads]) else None)
  {
    hide Symbols, Groups, ValueOf, Ungroup;
    SymbolsStep(src, i);
    var g, rest := group + [src[i]], Symbols(src[i + 1..]);
    assert group + ([src[i]] + rest) == g + rest && [] + rest == rest;
    assert forall k :: 0 <= k < 3 ==> ValueOf(group[k]) == block[k];
    var bytes := Ungroup(block[0], block[1], block[2], ValueOf(src[i]));
    assert (g + rest)[4..] == rest;
    GroupsStep(g + rest);
    if Groups(rest).Some? {
      assert done + (bytes + Groups(rest).value) == done + bytes + Groups(rest).value;
    }
  }

  lemma NoGroups()
    ensures Groups([]) == Some([])
  {
  }

  lemma EndDecoding(src: seq<Byte>, done: seq<Byte>, group: seq<Byte>, block: seq<nat>, pad: nat)
    requires Decoding(src, |src|, done, group, block, pad)
    ensures Groups(Symbols(src)) == Some(done)
  {
    hide Symbols, Groups, ValueOf, PadsIn;
    NoSymbols(src);
    assert |group| % 4 == 0;
    assert group + Symbols(src[|src|..]) == [];
    NoGroups();
    assert done + [] == done;
  }

  method Decode(src: seq<Byte>) returns (r: Option<seq<Byte>>)
    ensures r == Decoded(src)
  {
    hide Symbols, Groups;
    var dtable := BuildDecodeTable();
    var count := CountSymbols(src, dtable);
    if count == 0 || count % 4 != 0 {
      return None;
    }
    r := DecodeInto(src, dtable, count / 4 * 3);
  }

  method DecodeInto(src: seq<Byte>, dtable: array<nat>, olen: nat) returns (r: Option<seq<Byte>>)
    requires dtable.Length == 256 && forall c :: 0 <= c < 256 ==> dtable[c] == ValueOf(c)
    requires |Symbols(src)| % 4 == 0 && olen == |Symbols(src)| / 4 * 3
    ensures r == Groups(Symbols(src))
  {
    hide Symbols, Groups, ValueOf, Decoding, Ungroup;
    var out := new Byte[olen];
    var pos: nat, count: nat, pad: nat, block: seq<nat> := 0, 0, 0, [0, 0, 0, 0];
    ghost var group: seq<Byte> := [];
    BeginDecoding(src, block);
    for i := 0 to |src|
      invariant pos <= olen && count == |group| < 4 && |block| == 4
      invariant Decoding(src, i, out[..pos], group, block, pad)
    {
      var tmp := dtable[src[i]];
      if tmp == SKIP {
        SkipByte(src, i, out[..pos], group, block, pad);
      } else if count < 3 {
        TakeByte(src, i, out[..pos], group, block, pad);
        block, pad, count, group := block[count := tmp], pad + Pad(src[i]), count + 1, group + [src[i]];
      } else {
        ghost var done := out[..pos];
        EndGroup(src, i, done, group, block, pad);
        pad := pad + Pad(src[i]);
        var bytes := Ungroup(block[0], block[1], block[2], tmp);
        out[pos], out[pos + 1], out[pos + 2] := bytes[0], bytes[1], bytes[2];
        pos := pos + 3;
        assert out[..pos] == done + bytes;
        if pad > 0 {
          if pad > 2 {
            return None;
          }
          pos := pos - pad;
          assert out[..pos] == done + bytes[..3 - pad];
          return Some(out[..pos]);
        }
        block, count, group := block[3 := tmp], 0, [];
      }
    }
    EndDecoding(src, out[..pos], group, block, pad);
    r := Some(out[..pos]);
  }

  // ---------------------------------------------------------------- laws

  lemma {:induction false} SymbolsConcat(a: seq<Byte>, b: seq<Byte>)
    ensures Symbols(a + b) == Symbols(a) + Symbols(b)
  {
    if a == [] {
      assert a + b == b;
    } else {
      assert (a + b)[0] == a[0] && (a + b)[1..] == a[1..] + b;
      SymbolsConcat(a[1..], b);
    }
  }

  lemma {:induction false} SymbolsOfNoise(noise: seq<Byte>)
    requires forall i :: 0 <= i < |noise| ==> ValueOf(noise[i]) == SKIP
    ensures Symbols(noise) == []
  {
    if noise != [] { SymbolsOfNoise(noise[1..]); }
  }

  /** Bytes outside the alphabet, inserted anywhere in any input, do not change what is decoded. */
  lemma NoiseIgnored(a: seq<Byte>, noise: seq<Byte>, b: seq<Byte>)
    requires forall i :: 0 <= i < |noise| ==> ValueOf(noise[i]) == SKIP
    ensures Decoded(a + noise + b) == Decoded(a + b)
  {
    SymbolsConcat(a + noise, b);
    SymbolsConcat(a, noise);
    SymbolsConcat(a, b);
    SymbolsOfNoise(noise);
    assert Symbols(a) + [] == Symbols(a);
  }

  lemma {:induction false} SymbolsAll(s: seq<Byte>)
    requires forall i :: 0 <= i < |s| ==> ValueOf(s[i]) != SKIP
    ensures Symbols(s) == s
  {
    if s != [] { SymbolsAll(s[1..]); }
  }

  lemma SymbolValue(v: Sextet)
    ensures ValueOf(Symbol(v)) == v && Symbol(v) != PAD
  {
  }

  lemma Bits(a: Byte, b: Byte, c: Byte)
    ensures a / 4 * 4 + (a % 4 * 16 + b / 16) / 16 == a
    ensures (a % 4 * 16 + b / 16) % 16 * 16 + (b % 16 * 4 + c / 64) / 4 == b
    ensures (b % 16 * 4 + c / 64) % 4 * 64 + c % 64 == c
  {
  }

  lemma UngroupGroup(a: Byte, b: Byte, c: Byte)
    ensures var g := Group(a, b, c);
            && (forall i :: 0 <= i < 4 ==> ValueOf(g[i]) < 64 && g[i] != PAD)
            && Ungroup(ValueOf(g[0]), ValueOf(g[1]), ValueOf(g[2]), ValueOf(g[3])) == [a, b, c]
  {
    hide Symbol, ValueOf;
    SymbolValue(a / 4);
    SymbolValue(a % 4 * 16 + b / 16);
    SymbolValue(b % 16 * 4 + c / 64);
    SymbolValue(c % 64);
    Bits(a, b, c);
  }

  lemma GroupsOfOne(a: Byte)
    ensures var e := [Symbol(a / 4), Symbol(a % 4 * 16), PAD, PAD];
            && (forall i :: 0 <= i < |e| ==> ValueOf(e[i]) != SKIP) && Groups(e) == Some([a])
  {
    hide Symbol;
    SymbolValue(a / 4);
    SymbolValue(a % 4 * 16);
    Bits(a, 0, 0);
    var u := Ungroup(a / 4, a % 4 * 16, 0, 0);
    assert u[..1] == [a];
  }

  lemma GroupsOfTwo(a: Byte, b: Byte)
    ensures var e := [Symbol(a / 4), Symbol(a % 4 * 16 + b / 16), Symbol(b % 16 * 4), PAD];
            && (forall i :: 0 <= i < |e| ==> ValueOf(e[i]) != SKIP) && Groups(e) == Some([a, b])
  {
    hide Symbol;
    SymbolValue(a / 4);
    SymbolValue(a % 4 * 16 + b / 16);
    SymbolValue(b % 16 * 4);
    Bits(a, b, 0);
    var u := Ungroup(a / 4, a % 4 * 16 + b / 16, b % 16 * 4, 0);
    assert u[..2] == [a, b];
  }

  lemma {:induction false} GroupsOfEncoded(src: seq<Byte>)
    ensures forall i :: 0 <= i < |Encoded(src)| ==> ValueOf(Encoded(src)[i]) != SKIP
    ensures Groups(Encoded(src)) == Some(src)
    decreases |src|
  {
    hide Symbol, ValueOf, Ungroup, Group, Encoded;
    assert src[0..] == src;
    if |src| >= 3 {
      EncodedStep(src, 0);
      UngroupGroup(src[0], src[1], src[2]);
      GroupsOfEncoded(src[3..]);
      assert Encoded(src)[4..] == Encoded(src[3..]);
      assert src == [src[0], src[1], src[2]] + src[3..];
    } else {
      EncodedEnd(src, 0);
      if |src| == 1 {
        GroupsOfOne(src[0]);
        assert src == [src[0]];
      } else if |src| == 2 {
        GroupsOfTwo(src[0], src[1]);
        assert src == [src[0], src[1]];
      }
    }
  }

  /** Decoding the encoding of any non-empty byte string gives it back; the empty one is refused. */
  lemma DecodeEncode(src: seq<Byte>)
    ensures Decoded(Encoded(src)) == if src == [] then None else Some(src)
  {
    hide Groups, Encoded;
    GroupsOfEncoded(src);
    SymbolsAll(Encoded(src));
  }
}
