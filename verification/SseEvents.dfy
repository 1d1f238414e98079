/** What the parser dispatches, stated on whole streams: a reference reading of the event stream by
    lines and blocks, and the round trip of written events through arbitrary chunks. */
module SseEvents {
  import opened Wrappers
  import opened Text
  import opened Sse

  // ---------------------------------------------------------------- reference reading

  function FirstNewline(s: string): (k: nat)
    ensures k <= |s| && NewlineFree(s[..k]) && (k < |s| ==> s[k] == '\n')
  {
    if s == "" || s[0] == '\n' then 0
    else
      var k := FirstNewline(s[1..]);
      assert s[..k + 1] == [s[0]] + s[1..][..k];
      k + 1
  }

  /** The complete lines of a stream, as C strings. */
  function Lines(s: string): seq<string>
    decreases |s|
  {
    var k := FirstNewline(s);
    if k == |s| then [] else [CStr(s[..k])] + Lines(s[k + 1..])
  }

  /** The lines of the first block, up to the first empty line. */
  function BlockLength(lines: seq<string>): (k: nat)
    ensures k <= |lines| && forall i :: 0 <= i < k ==> lines[i] != ""
    ensures k < |lines| ==> lines[k] == ""
  {
    if lines == [] || lines[0] == "" then 0 else 1 + BlockLength(lines[1..])
  }

  /** What a line gives a field: the text after the colon, or after the colon and one space. */
  function Field(line: string, name: string): Option<string> {
    if name + ": " <= line then Some(line[|name| + 2..])
    else if name + ":" <= line then Some(line[|name| + 1..])
    else None
  }

  /** The values of the data fields of a block. */
  function DataOf(block: seq<string>): seq<string> {
    if block == [] then [] else
      var rest := DataOf(block[..|block| - 1]);
      var value := Field(block[|block| - 1], "data");
      if value.Some? then rest + [value.value] else rest
  }

  /** The values of the event fields of a block. */
  function NamesOf(block: seq<string>): seq<string> {
    if block == [] then [] else
      var rest := NamesOf(block[..|block| - 1]);
      var value := Field(block[|block| - 1], "event");
      if value.Some? then rest + [value.value] else rest
  }

  /** Lines joined by newlines. */
  function Join(lines: seq<string>): string {
    if lines == [] then "" else if |lines| == 1 then lines[0] else Join(lines[..|lines| - 1]) + "\n" + lines[|lines| - 1]
  }

  /** A block with an event field and a data field is one event: the last name, and all data joined. */
  function EventOf(block: seq<string>): seq<Event> {
    var names, data := NamesOf(block), DataOf(block);
    if names == [] || data == [] then [] else [Event(names[|names| - 1], Join(data))]
  }

  function Events(lines: seq<string>): seq<Event>
    decreases |lines|
  {
    var k := BlockLength(lines);
    if k == |lines| then [] else EventOf(lines[..k]) + Events(lines[k + 1..])
  }

  // ---------------------------------------------------------------- the parser agrees with it

  function RunLines(st: State, lines: seq<string>): State
    decreases |lines|
  {
    if lines == [] then st else RunLines(Line(st, lines[0]), lines[1..])
  }

  lemma {:induction false} RunLinesConcat(st: State, a: seq<string>, b: seq<string>)
    ensures RunLines(st, a + b) == RunLines(RunLines(st, a), b)
    decreases |a|
  {
    if a == [] {
      assert a + b == b;
    } else {
      assert (a + b)[0] == a[0] && (a + b)[1..] == a[1..] + b;
      RunLinesConcat(Line(st, a[0]), a[1..], b);
    }
  }

  lemma RunOne(st: State, line: string)
    ensures RunLines(st, [line]) == Line(st, line)
  {
  }

  lemma {:induction false} FeedRunsLines(st: State, s: string)
    requires st.pending == ""
    ensures Feed(st, s).(pending := "") == RunLines(st, Lines(s))
    decreases |s|
  {
    hide CStr;
    var k := FirstNewline(s);
    if k == |s| {
      assert s[..k] == s;
      FeedPending(st, s);
      assert Lines(s) == [];
    } else {
      assert s == s[..k] + "\n" + s[k + 1..];
      FeedLine(st, s[..k], s[k + 1..]);
      assert Lines(s)[1..] == Lines(s[k + 1..]);
      FeedRunsLines(Line(st, CStr(s[..k])), s[k + 1..]);
    }
  }

  /** The name and body remembered after some lines of a block. */
  ghost predicate Remembers(st: State, block: seq<string>) {
    var names, data := NamesOf(block), DataOf(block);
    && st.name == (if names == [] then None else Some(names[|names| - 1]))
    && st.body == (if data == [] then None else Some(Join(data)))
  }

  lemma {:induction false} BlockRemembered(st: State, block: seq<string>)
    requires st.name == None && st.body == None && forall i :: 0 <= i < |block| ==> block[i] != ""
    ensures Remembers(RunLines(st, block), block)
    ensures RunLines(st, block).dispatched == st.dispatched && RunLines(st, block).pending == st.pending
    decreases |block|
  {
    if block != [] {
      var init, line := block[..|block| - 1], block[|block| - 1];
      BlockRemembered(st, init);
      RunLinesConcat(st, init, [line]);
      assert init + [line] == block;
      var st' := RunLines(st, init);
      assert RunLines(st', [line]) == Line(st', line);
      LineRemembered(st', init, line);
    }
  }

  lemma LineRemembered(st: State, block: seq<string>, line: string)
    requires Remembers(st, block) && line != ""
    ensures Remembers(Line(st, line), block + [line])
  {
    hide Field;
    assert (block + [line])[..|block|] == block;
    var data := DataOf(block);
    FieldIs(line, "data");
    FieldIs(line, "event");
    if "data:" <= line {
      var v := FieldValue(line[5..]);
      assert line[0] == 'd';
      assert (data + [v])[..|data|] == data;
    } else if "event:" <= line {
      assert line[0] == 'e';
    }
  }

  lemma FieldIs(line: string, name: string)
    ensures Field(line, name) ==
            if name + ":" <= line then Some(FieldValue(line[|name| + 1..])) else None
  {
    assert name + ": " == name + ":" + " ";
    if name + ":" <= line {
      assert name + ": " <= line <==> |line| > |name| + 1 && line[|name| + 1] == ' ';
    }
  }

  /** A field can be written with a space after the colon or without one; only the first space is dropped, and a
      line that starts with a colon is no field. */
  lemma FieldForms(name: string, value: string)
    ensures Field(name + ": " + value, name) == Some(value)
    ensures value == "" || value[0] != ' ' ==> Field(name + ":" + value, name) == Some(value)
    ensures name != "" && name[0] != ':' ==> Field(":" + value, name) == None
  {
    var line := name + ":" + value;
    if name + ": " <= line { assert line[|name| + 1] == ' '; }
    if name != "" && name[0] != ':' { FieldIs(":" + value, name); NoField(name, ":" + value); }
  }

  lemma NoField(name: string, line: string)
    requires name != "" && line != "" && name[0] != line[0]
    ensures !(name + ":" <= line)
  {
    assert (name + ":")[0] == name[0];
  }

  lemma {:induction false} RunLinesDispatches(st: State, lines: seq<string>)
    requires st.name == None && st.body == None
    ensures RunLines(st, lines).dispatched == st.dispatched + Events(lines)
    decreases |lines|
  {
    hide EventOf, Line, Remembers, RunLines, BlockLength;
    var k := BlockLength(lines);
    BlockRemembered(st, lines[..k]);
    var st' := RunLines(st, lines[..k]);
    if k == |lines| {
      assert lines[..k] == lines;
      assert st.dispatched + [] == st.dispatched;
    } else {
      assert lines == lines[..k] + [""] + lines[k + 1..];
      RunLinesConcat(st, lines[..k] + [""], lines[k + 1..]);
      RunLinesConcat(st, lines[..k], [""]);
      RunOne(st', "");
      BlockDispatched(st', lines[..k]);
      RunLinesDispatches(Line(st', ""), lines[k + 1..]);
    }
  }

  lemma BlockDispatched(st: State, block: seq<string>)
    requires Remembers(st, block)
    ensures Line(st, "").dispatched == st.dispatched + EventOf(block)
    ensures Line(st, "").name == None && Line(st, "").body == None
  {
  }

  /** For every byte stream and every cut into chunks, exactly the events of the reference reading are
      dispatched, in order. */
  lemma DispatchesReference(chunks: seq<string>)
    ensures FeedAll(INITIAL, chunks).dispatched == Events(Lines(Concat(chunks)))
  {
    FeedAllIsFeed(INITIAL, chunks);
    FeedRunsLines(INITIAL, Concat(chunks));
    RunLinesDispatches(INITIAL, Lines(Concat(chunks)));
  }

  // ---------------------------------------------------------------- written events come back

  function SplitLines(s: string): (r: seq<string>)
    ensures r != []
    decreases |s|
  {
    var k := FirstNewline(s);
    if k == |s| then [s] else [s[..k]] + SplitLines(s[k + 1..])
  }

  function DataText(lines: seq<string>): string {
    if lines == [] then "" else "data: " + lines[0] + "\n" + DataText(lines[1..])
  }

  function EventText(e: Event): string {
    "event: " + e.name + "\n" + DataText(SplitLines(e.body)) + "\n"
  }

  function StreamText(events: seq<Event>): string {
    if events == [] then "" else EventText(events[0]) + StreamText(events[1..])
  }

  predicate Writable(e: Event) {
    NulFree(e.name) && NewlineFree(e.name) && NulFree(e.body)
  }

  lemma FeedDataLine(st: State, line: string, rest: string)
    requires st.pending == "" && NulFree(line) && NewlineFree(line)
    ensures Feed(st, "data: " + line + "\n" + rest) == Feed(st.(body := AppendData(st.body, line)), rest)
  {
    hide Feed, CStr, Line;
    DataLine(st, line);
    FeedLine(st, "data: " + line, rest);
  }

  lemma DataLine(st: State, line: string)
    ensures Line(st, "data: " + line) == st.(body := AppendData(st.body, line))
  {
    assert ("data: " + line)[5..] == " " + line && (" " + line)[1..] == line;
  }

  lemma FeedNameLine(st: State, name: string, rest: string)
    requires st.pending == "" && NulFree(name) && NewlineFree(name)
    ensures Feed(st, "event: " + name + "\n" + rest) == Feed(st.(name := Some(name)), rest)
  {
    hide Feed, CStr, Line;
    NameLine(st, name);
    FeedLine(st, "event: " + name, rest);
  }

  lemma NameLine(st: State, name: string)
    ensures Line(st, "event: " + name) == st.(name := Some(name))
  {
    var line := "event: " + name;
    assert line[0] == 'e' && line[6..] == " " + name && (" " + name)[1..] == name;
  }

  lemma DataTextStep(lines: seq<string>, rest: string)
    ensures DataText(lines) + rest ==
            if lines == [] then rest else "data: " + lines[0] + "\n" + (DataText(lines[1..]) + rest)
  {
  }

  /** Feeding the data lines of `s` appends `s`, newlines included, to the body. */
  lemma {:induction false} FeedData(st: State, s: string, rest: string)
    requires st.pending == "" && NulFree(s)
    ensures Feed(st, DataText(SplitLines(s)) + rest) == Feed(st.(body := AppendData(st.body, s)), rest)
    decreases |s|
  {
    hide Feed, DataText, FirstNewline, CStr;
    var k, lines := FirstNewline(s), SplitLines(s);
    var tail := DataText(lines[1..]) + rest;
    DataTextStep(lines, rest);
    FeedDataLine(st, lines[0], tail);
    if k == |s| {
      DataTextStep([], rest);
      assert lines[1..] == [];
    } else {
      assert lines[1..] == SplitLines(s[k + 1..]);
      var st' := st.(body := AppendData(st.body, s[..k]));
      FeedData(st', s[k + 1..], rest);
      assert s[..k] + "\n" + s[k + 1..] == s;
      if st.body.Some? {
        assert st.body.value + "\n" + s[..k] + "\n" + s[k + 1..] == st.body.value + "\n" + s;
      }
    }
  }

  lemma FeedEvent(st: State, e: Event, rest: string)
    requires st.pending == "" && st.name == None && st.body == None && Writable(e)
    ensures Feed(st, EventText(e) + rest) == Feed(st.(dispatched := st.dispatched + [e]), rest)
  {
    hide Feed, DataText, SplitLines, CStr;
    var data := DataText(SplitLines(e.body));
    assert EventText(e) + rest == "event: " + e.name + "\n" + (data + ("\n" + rest));
    FeedNameLine(st, e.name, data + ("\n" + rest));
    var st1 := st.(name := Some(e.name));
    FeedData(st1, e.body, "\n" + rest);
    var st2 := st1.(body := Some(e.body));
    assert "" + "\n" + rest == "\n" + rest;
    FeedLine(st2, "", rest);
  }

  lemma {:induction false} FeedStream(st: State, events: seq<Event>)
    requires st.pending == "" && st.name == None && st.body == None
    requires forall i :: 0 <= i < |events| ==> Writable(events[i])
    ensures Feed(st, StreamText(events)) == st.(dispatched := st.dispatched + events)
    decreases |events|
  {
    if events == [] {
      assert st.dispatched + events == st.dispatched;
    } else {
      hide EventText, Writable;
      var st' := st.(dispatched := st.dispatched + [events[0]]);
      FeedEvent(st, events[0], StreamText(events[1..]));
      FeedStream(st', events[1..]);
      assert st.dispatched + [events[0]] + events[1..] == st.dispatched + events;
    }
  }

  /** Events written to a stream and cut anywhere are dispatched exactly and in order. */
  lemma StreamRoundTrip(events: seq<Event>, chunks: seq<string>)
    requires forall i :: 0 <= i < |events| ==> Writable(events[i])
    requires Concat(chunks) == StreamText(events)
    ensures FeedAll(INITIAL, chunks) == INITIAL.(dispatched := events)
  {
    FeedAllIsFeed(INITIAL, chunks);
    FeedStream(INITIAL, events);
    assert [] + events == events;
  }
}
