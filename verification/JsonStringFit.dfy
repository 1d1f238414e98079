/** The two passes of `parse_string` disagree on malformed `\u` escapes, which make the second pass
    start in the middle of an escape of the first.  The buffer sized by the first pass is still
    large enough for every byte the second pass writes. */
module JsonStringFit {
  import opened Wrappers
  import opened JsonParse

  /** The first pass, resumed where the second pass stands: `lag` is 1 when the second pass is at
      the second character of an escape of the first pass, and `left` escapes are still to be counted. */
  predicate Tracks(s: string, p: nat, end: nat, lag: nat, left: nat) {
    && lag <= 1
    && if p > end then p == end + 1 && lag == 0 && left == 0
       else p + lag <= end && ScanString(s, p + lag) == Some((end, left))
  }

  /** The first pass, followed over the next `n` characters, counts at most every second one. */
  lemma {:induction false} Follow(s: string, a: nat, n: nat, end: nat, left: nat) returns (lag: nat, left': nat)
    requires ScanString(s, a) == Some((end, left)) && a + n <= end
    ensures Tracks(s, a + n, end, lag, left')
    ensures left' <= left && 2 * (left - left') <= n + 1
    decreases n
  {
    if n == 0 {
      lag, left' := 0, left;
    } else if s[a] != '\\' {
      lag, left' := Follow(s, a + 1, n - 1, end, left);
    } else if n == 1 {
      lag, left' := 1, left - 1;
    } else {
      lag, left' := Follow(s, a + 2, n - 2, end, left - 1);
    }
  }

  /** How many bytes the second pass may write for `n` characters consumed. */
  function Written(n: nat): nat {
    if n == 6 then 3 else if n == 12 then 4 else 1
  }

  /** One step of the second pass: what it writes is paid for by the characters consumed,
      less the escapes the first pass counted in them. */
  lemma Step(s: string, p: nat, end: nat, lag: nat, left: nat, n: nat) returns (lag': nat, left': nat)
    requires Tracks(s, p, end, lag, left) && p < end < |s|
    requires if s[p] != '\\' then n == 1 else n == 2 || ((n == 6 || n == 12) && s[p + 1] == 'u' && p + n <= end)
    ensures Tracks(s, p + n, end, lag', left')
    ensures Written(n) + left <= n + left' && left' + p + n <= end + 1
  {
    hide ScanString, Tracks;
    if n <= 2 {
      lag', left' := ShortStep(s, p, end, lag, left, n);
    } else {
      lag', left' := LongStep(s, p, end, lag, left, n);
    }
    TracksBound(s, p + n, end, lag', left');
  }

  lemma TracksBound(s: string, p: nat, end: nat, lag: nat, left: nat)
    requires Tracks(s, p, end, lag, left)
    ensures left + p <= end + 1
  {
    if p <= end { Start(s, p + lag, end, left); }
  }

  lemma ShortStep(s: string, p: nat, end: nat, lag: nat, left: nat, n: nat) returns (lag': nat, left': nat)
    requires Tracks(s, p, end, lag, left) && p < end < |s|
    requires n == if s[p] != '\\' then 1 else 2
    ensures Tracks(s, p + n, end, lag', left') && Written(n) + left <= n + left'
  {
    if n == 1 {
      lag', left' := 0, left;
    } else if lag == 0 {
      lag', left' := 0, left - 1;
    } else if p + 1 == end {
      lag', left' := 0, 0;
    } else {
      lag', left' := Follow(s, p + 1, 1, end, left);
    }
  }

  lemma LongStep(s: string, p: nat, end: nat, lag: nat, left: nat, n: nat) returns (lag': nat, left': nat)
    requires Tracks(s, p, end, lag, left) && p < end < |s|
    requires s[p] == '\\' && (n == 6 || n == 12) && s[p + 1] == 'u' && p + n <= end
    ensures Tracks(s, p + n, end, lag', left') && Written(n) + left <= n + left'
  {
    if lag == 0 {
      lag', left' := Follow(s, p + 2, n - 2, end, left - 1);
    } else {
      lag', left' := Follow(s, p + 1, n - 1, end, left);
    }
  }

  lemma Start(s: string, p: nat, end: nat, left: nat)
    requires ScanString(s, p) == Some((end, left))
    ensures Tracks(s, p, end, 0, left) && p + left <= end < |s|
  {
  }

  /** Everything the second pass writes for `s[p..end]`, up to an escape that makes it fail. */
  function Output(s: string, p: nat, end: nat): string
    requires p <= end + 1 && end < |s|
    decreases end + 1 - p
  {
    if p >= end then ""
    else if s[p] != '\\' then [s[p]] + Output(s, p + 1, end)
    else if s[p + 1] == 'u' then
      match Utf16Literal(s, p, end)
      case None => ""
      case Some((codepoint, length)) => Utf8(codepoint) + Output(s, p + length, end)
    else
      match SimpleEscape(s[p + 1])
      case None => ""
      case Some(c) => [c] + Output(s, p + 2, end)
  }

  /** A second pass that succeeds has written its result. */
  lemma {:induction false} OutputIs(s: string, p: nat, end: nat)
    requires p <= end + 1 && end < |s| && Unescape(s, p, end).Some?
    ensures Unescape(s, p, end) == Some(Output(s, p, end))
    decreases end + 1 - p
  {
    hide Utf16Literal, Utf8, SimpleEscape;
    if p < end {
      OutputIs(s, p + Consumed(s, p, end), end);
    }
  }

  /** How many characters the second pass consumes at `p`, if it goes on. */
  function Consumed(s: string, p: nat, end: nat): (n: nat)
    requires p < end < |s|
    ensures n >= 1
  {
    if s[p] != '\\' then 1
    else if s[p + 1] == 'u' then (match Utf16Literal(s, p, end) case None => 1 case Some((_, length)) => length)
    else 2
  }

  lemma {:induction false} WrittenFrom(s: string, p: nat, end: nat, lag: nat, left: nat)
    requires Tracks(s, p, end, lag, left) && p <= end + 1 && end < |s|
    ensures |Output(s, p, end)| + left <= end + 1 - p
    decreases end + 1 - p
  {
    if p <= end { Start(s, p + lag, end, left); }
    if p < end && !Fails(s, p, end) {
      var n := Consumed(s, p, end);
      var lag', left' := Step(s, p, end, lag, left, n);
      WrittenFrom(s, p + n, end, lag', left');
    }
  }

  /** The second pass fails at `p`. */
  predicate Fails(s: string, p: nat, end: nat)
    requires p < end < |s|
  {
    s[p] == '\\' && if s[p + 1] == 'u' then Utf16Literal(s, p, end).None? else SimpleEscape(s[p + 1]).None?
  }

  /** `allocation_length` of `parse_string`: the first pass's estimate of the output size. */
  function AllocationLength(quote: nat, end: nat, skipped: nat): int {
    end - quote - skipped
  }

  /** For every quoted input, whether or not its escapes are well formed, everything the second pass writes fits
      in the estimate, so it and the terminator fit in the buffer, which is one byte larger; a pass that
      succeeds has written exactly the unescaped string. */
  lemma UnescapeFits(s: string, quote: nat, end: nat, skipped: nat)
    requires ScanString(s, quote + 1) == Some((end, skipped))
    ensures |Output(s, quote + 1, end)| <= AllocationLength(quote, end, skipped)
    ensures Unescape(s, quote + 1, end).Some? ==> Unescape(s, quote + 1, end) == Some(Output(s, quote + 1, end))
  {
    WrittenFrom(s, quote + 1, end, 0, skipped);
    if Unescape(s, quote + 1, end).Some? { OutputIs(s, quote + 1, end); }
  }
}
