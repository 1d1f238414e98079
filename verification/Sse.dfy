/** The incremental server-sent-events parser (the LF-only subset of the WHATWG event stream format,
    in which an event without a name is dropped). */
module Sse {
  import opened Wrappers
  import opened Text

  datatype Event = Event(name: string, body: string)

  /** What the parser remembers between chunks, and the events dispatched so far. */
  datatype State = State(pending: string, name: Option<string>, body: Option<string>, dispatched: seq<Event>)

  const INITIAL: State := State("", None, None, [])

  predicate NewlineFree(s: string) {
    forall i :: 0 <= i < |s| ==> s[i] != '\n'
  }

  /** The value of a field: what follows the colon, without one optional space. */
  function FieldValue(rest: string): string {
    if rest != "" && rest[0] == ' ' then rest[1..] else rest
  }

  function AppendData(body: Option<string>, data: string): Option<string> {
    match body
    case None => Some(data)
    case Some(b) => Some(b + "\n" + data)
  }

  /** `LDi_processLine` with a dispatcher that returns true. */
  function Line(st: State, line: string): State {
    if line == "" then
      State(st.pending, None, None,
            if st.name.Some? && st.body.Some? then st.dispatched + [Event(st.name.value, st.body.value)]
            else st.dispatched)
    else if line[0] == ':' then st
    else if "data:" <= line then st.(body := AppendData(st.body, FieldValue(line[5..])))
    else if "event:" <= line then st.(name := Some(FieldValue(line[6..])))
    else st
  }

  /** The parser's state after some more bytes, one byte at a time. */
  function Feed(st: State, bytes: string): State
    decreases |bytes|
  {
    if bytes == "" then st
    else if bytes[0] == '\n' then Feed(Line(st.(pending := ""), CStr(st.pending)), bytes[1..])
    else Feed(st.(pending := st.pending + [bytes[0]]), bytes[1..])
  }

  // ---------------------------------------------------------------- chunking

  lemma {:induction false} FeedConcat(st: State, a: string, b: string)
    ensures Feed(st, a + b) == Feed(Feed(st, a), b)
    decreases |a|
  {
    if a == "" {
      assert a + b == b;
    } else {
      assert (a + b)[0] == a[0] && (a + b)[1..] == a[1..] + b;
      if a[0] == '\n' {
        FeedConcat(Line(st.(pending := ""), CStr(st.pending)), a[1..], b);
      } else {
        FeedConcat(st.(pending := st.pending + [a[0]]), a[1..], b);
      }
    }
  }

  function Concat(chunks: seq<string>): string {
    if chunks == [] then "" else chunks[0] + Concat(chunks[1..])
  }

  function FeedAll(st: State, chunks: seq<string>): State
    decreases |chunks|
  {
    if chunks == [] then st else FeedAll(Feed(st, chunks[0]), chunks[1..])
  }

  lemma {:induction false} FeedAllIsFeed(st: State, chunks: seq<string>)
    ensures FeedAll(st, chunks) == Feed(st, Concat(chunks))
    decreases |chunks|
  {
    if chunks != [] {
      FeedConcat(st, chunks[0], Concat(chunks[1..]));
      FeedAllIsFeed(Feed(st, chunks[0]), chunks[1..]);
    }
  }

  /** However the same bytes are cut into chunks, the events dispatched and the state left are the same. */
  lemma ChunkingIrrelevant(st: State, chunks: seq<string>, chunks': seq<string>)
    requires Concat(chunks) == Concat(chunks')
    ensures FeedAll(st, chunks) == FeedAll(st, chunks')
  {
    FeedAllIsFeed(st, chunks);
    FeedAllIsFeed(st, chunks');
  }

  lemma {:induction false} FeedPending(st: State, t: string)
    requires NewlineFree(t)
    ensures Feed(st, t) == st.(pending := st.pending + t)
    decreases |t|
  {
    if t == "" {
      assert st.pending + t == st.pending;
    } else {
      var st' := st.(pending := st.pending + [t[0]]);
      FeedPending(st', t[1..]);
      assert st.pending + [t[0]] + t[1..] == st.pending + t;
    }
  }

  /** A whole line, fed between lines. */
  lemma FeedLine(st: State, line: string, rest: string)
    requires st.pending == "" && NewlineFree(line)
    ensures Feed(st, line + "\n" + rest) == Feed(Line(st, CStr(line)), rest)
  {
    hide Line, CStr;
    FeedConcat(st, line, "\n" + rest);
    FeedPending(st, line);
    assert line + "\n" + rest == line + ("\n" + rest);
    assert Feed(st, line) == st.(pending := line) by { assert "" + line == line; }
    assert ("\n" + rest)[1..] == rest;
  }

  // ---------------------------------------------------------------- the parser object

  class Parser {
    var buffer: array<char>
    var bufferSize: nat
    var eventName: Option<string>
    var eventBody: Option<string>
    /** The calls made to the dispatcher. */
    var dispatched: seq<Event>

    ghost predicate Valid()
      reads this, buffer
    {
      bufferSize <= buffer.Length && NewlineFree(buffer[..bufferSize])
    }

    ghost function Abs(): State
      requires bufferSize <= buffer.Length
      reads this, buffer
    {
      State(buffer[..bufferSize], eventName, eventBody, dispatched)
    }

    constructor ()
      ensures Valid() && Abs() == INITIAL && fresh(buffer)
    {
      buffer := new char[0];
      bufferSize := 0;
      eventName, eventBody, dispatched := None, None, [];
    }

    method ProcessLine(line: string)
      modifies this`eventName, this`eventBody, this`dispatched
      ensures State("", eventName, eventBody, dispatched)
           == Line(State("", old(eventName), old(eventBody), old(dispatched)), line)
    {
      if line == "" {
        if eventName.Some? && eventBody.Some? {
          dispatched := dispatched + [Event(eventName.value, eventBody.value)];
        }
        eventName, eventBody := None, None;
      } else if line[0] == ':' {
      } else if "data:" <= line {
        var value := line[5..];
        if value != "" && value[0] == ' ' {
          value := value[1..];
        }
        eventBody := Some(if eventBody.Some? then eventBody.value + "\n" + value else value);
      } else if "event:" <= line {
        var value := line[6..];
        if value != "" && value[0] == ' ' {
          value := value[1..];
        }
        eventName := Some(value);
      }
    }

    /** `memchr` for a newline in `buffer[from..bufferSize]`. */
    method FindNewline(from: nat) returns (at: nat)
      requires from <= bufferSize <= buffer.Length
      ensures from <= at <= bufferSize && NewlineFree(buffer[from..at])
      ensures at < bufferSize ==> buffer[at] == '\n'
    {
      at := from;
      while at < bufferSize && buffer[at] != '\n'
        invariant from <= at <= bufferSize
        invariant forall k :: from <= k < at ==> buffer[k] != '\n'
      {
        at := at + 1;
      }
    }

    /** Reallocates the buffer and copies the chunk behind what is pending. */
    method Receive(chunk: string)
      requires bufferSize <= buffer.Length
      modifies this`buffer, this`bufferSize
      ensures fresh(buffer) && bufferSize == old(bufferSize) + |chunk| < buffer.Length
      ensures buffer[..bufferSize] == old(buffer[..bufferSize]) + chunk
    {
      var grown := new char[bufferSize + |chunk| + 1];
      var n, i := bufferSize, 0;
      while i < n
        invariant 0 <= i <= n
        invariant forall k :: 0 <= k < i ==> grown[k] == buffer[k]
        modifies grown
      {
        grown[i] := buffer[i];
        i := i + 1;
      }
      i := 0;
      while i < |chunk|
        invariant 0 <= i <= |chunk|
        invariant forall k :: 0 <= k < n ==> grown[k] == buffer[k]
        invariant forall k :: 0 <= k < i ==> grown[n + k] == chunk[k]
        modifies grown
      {
        grown[n + i] := chunk[i];
        i := i + 1;
      }
      grown[n + |chunk|] := NUL;
      assert forall k {:trigger grown[k]} :: n <= k < n + |chunk| ==> grown[k] == chunk[k - n];
      assert grown[..n + |chunk|] == buffer[..n] + chunk;
      buffer := grown;
      bufferSize := n + |chunk|;
    }

    /** Moves the bytes not consumed to the front. */
    method Compact(consumed: nat)
      requires consumed <= bufferSize <= buffer.Length
      modifies this`bufferSize, buffer
      ensures bufferSize == old(bufferSize) - consumed
      ensures buffer[..bufferSize] == old(buffer[consumed..bufferSize])
    {
      var n, i := bufferSize - consumed, 0;
      while i < n
        invariant 0 <= i <= n && bufferSize == old(bufferSize)
        invariant forall k :: 0 <= k < i ==> buffer[k] == old(buffer[consumed + k])
        invariant forall k :: i + consumed <= k < bufferSize ==> buffer[k] == old(buffer[k])
      {
        buffer[i] := buffer[consumed + i];
        i := i + 1;
      }
      bufferSize := n;
      assert forall k :: 0 <= k < n ==> buffer[k] == old(buffer[consumed..bufferSize])[k];
    }

    /** The state between lines: everything but the pending bytes. */
    ghost function Between(): State
      reads this
    {
      State("", eventName, eventBody, dispatched)
    }

    /** Processes the line that ends at `newline`, whose newline becomes its terminator. */
    method ConsumeLine(consumed: nat, newline: nat)
      requires consumed <= newline < bufferSize <= buffer.Length
      modifies this`eventName, this`eventBody, this`dispatched, buffer
      ensures Between() == Line(old(Between()), CStr(old(buffer[consumed..newline])))
      ensures buffer[newline + 1..bufferSize] == old(buffer[newline + 1..bufferSize])
    {
      hide Line, CStr;
      ghost var line, rest := buffer[consumed..newline], buffer[newline + 1..bufferSize];
      buffer[newline] := NUL;
      assert buffer[consumed..newline + 1] == line + [NUL];
      assert buffer[newline + 1..bufferSize] == rest;
      CStrTerminated(line);
      ProcessLine(CStr(buffer[consumed..newline + 1]));
    }

    /** Processes every complete line of the buffer. */
    method ConsumeLines() returns (consumed: nat)
      requires bufferSize <= buffer.Length
      modifies this`eventName, this`eventBody, this`dispatched, buffer
      ensures consumed <= bufferSize && NewlineFree(buffer[consumed..bufferSize])
      ensures Feed(old(Between()), old(buffer[..bufferSize])) == Between().(pending := buffer[consumed..bufferSize])
      ensures consumed == 0 ==> buffer[..bufferSize] == old(buffer[..bufferSize])
    {
      hide Feed, Line, CStr;
      consumed := 0;
      ghost var b, n, start, input := buffer, bufferSize, Between(), buffer[..bufferSize];
      var newline := FindNewline(0);
      assert b[0..n] == input;
      while newline < bufferSize
        invariant consumed <= newline <= n && NewlineFree(b[consumed..newline])
        invariant newline < n ==> b[newline] == '\n'
        invariant Feed(start, input) == Feed(Between(), b[consumed..n])
        invariant consumed == 0 ==> b[..n] == input
        decreases n - consumed
      {
        ghost var line, rest := b[consumed..newline], b[newline + 1..n];
        assert b[consumed..n] == line + "\n" + rest;
        FeedLine(Between(), line, rest);
        ConsumeLine(consumed, newline);
        consumed := newline + 1;
        newline := FindNewline(consumed);
      }
      FeedPending(Between(), b[consumed..n]);
      assert "" + b[consumed..n] == b[consumed..n];
    }

    /** `LDSSEParserProcess`. */
    method Process(chunk: string)
      requires Valid()
      modifies this, buffer
      ensures Valid() && (buffer == old(buffer) || fresh(buffer))
      ensures Abs() == Feed(old(Abs()), chunk)
    {
      if chunk == "" {
        return;
      }
      ghost var start, pending := Between(), buffer[..bufferSize];
      FeedPending(start, pending);
      FeedConcat(start, pending, chunk);
      assert "" + pending == pending;
      Receive(chunk);
      var consumed := ConsumeLines();
      if consumed > 0 {
        Compact(consumed);
      }
    }
  }
}
