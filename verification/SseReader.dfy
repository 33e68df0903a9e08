// The incremental reader of a server-sent event stream: lines cut out of a buffer while
// chunks arrive, byte counts kept up to date instead of recounted, and a size limit.
module SseReader {
  // A character is its code point.
  type Char = nat

  const LF: Char := 10
  const CR: Char := 13
  const DATA: Char := 68    // marks a line that carries data

  type Text = seq<Char>

  // An event is the sequence of its data lines.
  type Event = seq<Text>

  predicate Delimiter(c: Char) { c == CR || c == LF }

  // ---------- byte counts ----------

  function Weight(c: Char): nat {
    if c < 0x80 then 1 else if c < 0x800 then 2 else if c < 0x1_0000 then 3 else 4
  }

  function Bytes(text: Text): nat {
    if text == [] then 0 else Weight(text[0]) + Bytes(text[1..])
  }

  function PartsBytes(parts: Event): nat {
    if parts == [] then 0 else Bytes(parts[0]) + PartsBytes(parts[1..])
  }

  lemma {:induction false} BytesSplit(a: Text, b: Text)
    ensures Bytes(a + b) == Bytes(a) + Bytes(b)
  {
    if a == [] {
      assert a + b == b;
    } else {
      assert (a + b)[1..] == a[1..] + b;
      BytesSplit(a[1..], b);
    }
  }

  lemma {:induction false} PartsSplit(a: Event, b: Event)
    ensures PartsBytes(a + b) == PartsBytes(a) + PartsBytes(b)
  {
    if a == [] {
      assert a + b == b;
    } else {
      assert (a + b)[1..] == a[1..] + b;
      PartsSplit(a[1..], b);
    }
  }

  // ---------- the whole stream at once ----------

  // The lines of a text, each ended by CR LF, LF or CR; an unended rest is no line.
  function Lines(text: Text, current: Text): seq<Text>
    decreases |text|
  {
    if text == [] then []
    else if text[0] == LF then [current] + Lines(text[1..], [])
    else if text[0] == CR then
      [current] + Lines(if |text| > 1 && text[1] == LF then text[2..] else text[1..], [])
    else Lines(text[1..], current + [text[0]])
  }

  // What a line adds to the event being collected.
  function Collected(data: Event, line: Text): Event {
    if line == [] then [] else if line[0] == DATA then data + [line[1..]] else data
  }

  // An empty line ends an event; one without any data is not reported.
  function Ended(data: Event, line: Text): seq<Event> {
    if line == [] && PartsBytes(data) > 0 then [data] else []
  }

  function Events(lines: seq<Text>, data: Event): seq<Event> {
    if lines == [] then [] else Ended(data, lines[0]) + Events(lines[1..], Collected(data, lines[0]))
  }

  function Flat(chunks: seq<Text>): Text {
    if chunks == [] then [] else chunks[0] + Flat(chunks[1..])
  }

  // The end of the stream ends the last line and the last event.
  function Stream(chunks: seq<Text>): Text { Flat(chunks) + [LF, LF] }

  function Reference(chunks: seq<Text>): seq<Event> { Events(Lines(Stream(chunks), []), []) }

  // ---------- the reader ----------

  datatype Phase = Begin | Read | Line | Check | Post | Finish

  datatype Error = NoError | Limit | BadJson | Cancelled

  datatype State = State(
    phase: Phase,
    requests: nat,
    chunks: seq<Text>,
    taken: nat,
    buffer: Text,
    data: Event,
    bufferBytes: int,
    dataBytes: int,
    limit: int,
    badJson: Event -> bool,
    events: seq<Event>,
    error: Error,
    expectedError: Error,   // what a full recount decides
    released: bool
  )

  ghost predicate Init(s: State) {
    && s.phase == Begin && s.requests == 0 && s.chunks == [] && s.taken == 0 && s.buffer == [] && s.data == []
    && s.bufferBytes == 0 && s.dataBytes == 0 && s.events == []
    && s.error == NoError && s.expectedError == NoError && !s.released
  }

  ghost predicate BeginStep(s: State, s': State) {
    && s.phase == Begin
    && s' == s.(phase := Read, requests := s.requests + 1, chunks := s'.chunks, limit := s'.limit,
                badJson := s'.badJson, taken := 0, buffer := [], data := [], bufferBytes := 0,
                dataBytes := 0, events := [], error := NoError, expectedError := NoError, released := false)
  }

  // The read after the last chunk stands for the end of the stream.
  ghost predicate ReadStep(s: State, s': State) {
    && s.phase == Read
    && var added := if s.taken < |s.chunks| then s.chunks[s.taken] else [LF, LF];
       s' == s.(phase := Line, taken := s.taken + 1, buffer := s.buffer + added,
                bufferBytes := s.bufferBytes + Bytes(added))
  }

  predicate FirstDelimiter(text: Text, i: nat) {
    i < |text| && Delimiter(text[i]) && forall j :: 0 <= j < i ==> !Delimiter(text[j])
  }

  // A CR that ends the buffer may be half of a CR LF while there is more to read.
  ghost predicate HeldStep(s: State, s': State, i: nat) {
    && s.phase == Line && FirstDelimiter(s.buffer, i)
    && s.buffer[i] == CR && i == |s.buffer| - 1 && s.taken <= |s.chunks|
    && s' == s.(phase := Post)
  }

  // A CR directly followed by an LF is one delimiter.
  function Width(buffer: Text, i: nat): nat
    requires i < |buffer|
  {
    if buffer[i] == CR && i + 1 < |buffer| && buffer[i + 1] == LF then 2 else 1
  }

  ghost predicate LineStep(s: State, s': State, i: nat) {
    && s.phase == Line && FirstDelimiter(s.buffer, i)
    && !(s.buffer[i] == CR && i == |s.buffer| - 1 && s.taken <= |s.chunks|)
    && var width := Width(s.buffer, i);
       var line := s.buffer[..i];
       var appended: Event := if i > 0 && line[0] == DATA then [line[1..]] else [];
       var hadData := line == [] && PartsBytes(s.data) > 0;
       var bad := hadData && s.badJson(s.data);
       s' == s.(phase := if bad then Finish else Check,
                buffer := s.buffer[i + width..],
                data := if line == [] then [] else s.data + appended,
                bufferBytes := s.bufferBytes - Bytes(line) - width,
                dataBytes := if line == [] then 0 else s.dataBytes + PartsBytes(appended),
                events := if hadData && !bad then s.events + [s.data] else s.events,
                error := if bad then BadJson else NoError,
                expectedError := if bad then BadJson else NoError)
  }

  ghost predicate CheckStep(s: State, s': State) {
    && s.phase == Check
    && var over := s.bufferBytes + s.dataBytes > s.limit;
       var recount := Bytes(s.buffer) + PartsBytes(s.data) > s.limit;
       s' == s.(phase := if over || recount then Finish else Line, error := if over then Limit else NoError,
                expectedError := if recount then Limit else NoError)
  }

  ghost predicate NoLineStep(s: State, s': State) {
    s.phase == Line && (forall j :: 0 <= j < |s.buffer| ==> !Delimiter(s.buffer[j])) && s' == s.(phase := Post)
  }

  ghost predicate PostStep(s: State, s': State) {
    && s.phase == Post
    && var over := s.bufferBytes > s.limit;
       var recount := Bytes(s.buffer) > s.limit;
       s' == s.(phase := if over || recount || s.taken > |s.chunks| then Finish else Read,
                error := if over then Limit else NoError, expectedError := if recount then Limit else NoError)
  }

  ghost predicate CancelStep(s: State, s': State) {
    && s.phase != Begin && s.phase != Finish
    && s' == s.(phase := Finish, error := Cancelled, expectedError := Cancelled)
  }

  ghost predicate FinishStep(s: State, s': State) {
    s.phase == Finish && s' == s.(phase := Begin, released := true)
  }

  ghost predicate Next(s: State, s': State) {
    || BeginStep(s, s') || ReadStep(s, s') || CheckStep(s, s') || NoLineStep(s, s') || PostStep(s, s')
    || CancelStep(s, s') || FinishStep(s, s')
    || (exists i: nat :: HeldStep(s, s', i) || LineStep(s, s', i))
  }

  ghost predicate IsRun(run: seq<State>) {
    && |run| > 0 && Init(run[0])
    && forall i :: 0 <= i < |run| - 1 ==> Next(run[i], run[i + 1])
  }

  // ---------- the invariant ----------

  function UnreadFrom(chunks: seq<Text>, taken: nat): Text {
    if taken <= |chunks| then Flat(chunks[taken..]) + [LF, LF] else []
  }

  function Unread(s: State): Text { UnreadFrom(s.chunks, s.taken) }

  ghost predicate Running(s: State) { s.phase != Begin && s.phase != Finish }

  // What is still to come from the buffer and the unread chunks is what the reference has
  // beyond the events so far.
  ghost predicate Progress(s: State) {
    && s.events + Events(Lines(s.buffer + Unread(s), []), s.data) == Reference(s.chunks)
    && Bytes(s.buffer) + PartsBytes(s.data) + Bytes(Unread(s)) <= Bytes(Stream(s.chunks))
    && s.error == NoError
    && s.taken <= |s.chunks| + 1
    && (s.phase == Read ==> s.taken <= |s.chunks|)
    && (s.phase == Post ==> s.taken <= |s.chunks| || forall j :: 0 <= j < |s.buffer| ==> !Delimiter(s.buffer[j]))
  }

  ghost predicate EndsBadly(s: State, bad: Event) {
    s.badJson(bad) && s.events + [bad] <= Reference(s.chunks)
  }

  // How a request may end.
  ghost predicate Outcome(s: State) {
    match s.error
    case NoError => s.events == Reference(s.chunks)
    case BadJson => exists bad :: EndsBadly(s, bad)
    case Limit => s.events <= Reference(s.chunks) && s.limit < Bytes(Stream(s.chunks))
    case Cancelled => s.events <= Reference(s.chunks)
  }

  ghost predicate Inv(s: State) {
    && s.bufferBytes == Bytes(s.buffer) && s.dataBytes == PartsBytes(s.data)
    && s.error == s.expectedError
    && (forall i :: 0 <= i < |s.events| ==> !s.badJson(s.events[i]))
    && (Running(s) ==> Progress(s))
    && (s.requests > 0 && !Running(s) ==> Outcome(s))
    && (s.requests == 0 ==> s.phase == Begin)
    && (s.phase == Begin && s.requests > 0 ==> s.released)
  }

  // ---------- lines cut out of a buffer ----------

  // Up to the first delimiter the characters are collected.
  lemma {:induction false} LinesSkip(text: Text, current: Text, i: nat)
    requires i <= |text| && forall j :: 0 <= j < i ==> !Delimiter(text[j])
    ensures Lines(text, current) == Lines(text[i..], current + text[..i])
    decreases i
  {
    if i == 0 {
      assert text[..0] == [] && text[0..] == text && current + [] == current;
    } else {
      LinesSkip(text[1..], current + [text[0]], i - 1);
      assert text[1..][i - 1..] == text[i..];
      assert current + [text[0]] + text[1..][..i - 1] == current + text[..i];
    }
  }

  // A line found in the buffer is the next line of the stream, unless its delimiter is a
  // CR at the very end of what has been read with more to come.
  lemma LineOfStream(buffer: Text, unread: Text, i: nat, width: nat)
    requires FirstDelimiter(buffer, i)
    requires !(buffer[i] == CR && i == |buffer| - 1 && unread != [])
    requires width == Width(buffer, i)
    ensures Lines(buffer + unread, []) == [buffer[..i]] + Lines(buffer[i + width..] + unread, [])
  {
    var text := buffer + unread;
    LinesSkip(text, [], i);
    assert [] + text[..i] == buffer[..i];
    assert text[i..][0] == buffer[i];
    assert text[i..][width..] == buffer[i + width..] + unread;
    assert |text[i..]| > 1 && i + 1 < |buffer| ==> text[i..][1] == buffer[i + 1];
  }

  lemma NoLines(text: Text)
    requires forall j :: 0 <= j < |text| ==> !Delimiter(text[j])
    ensures Lines(text, []) == []
  {
    LinesSkip(text, [], |text|);
    assert text[|text|..] == [];
  }

  lemma LineBytes(buffer: Text, i: nat, width: nat)
    requires FirstDelimiter(buffer, i)
    requires width == Width(buffer, i)
    ensures Bytes(buffer) == Bytes(buffer[..i]) + width + Bytes(buffer[i + width..])
  {
    var mid := buffer[i..i + width];
    assert buffer == buffer[..i] + (mid + buffer[i + width..]);
    BytesSplit(buffer[..i], mid + buffer[i + width..]);
    BytesSplit(mid, buffer[i + width..]);
    assert Bytes(mid) == width by {
      if width == 2 {
        assert mid == [CR, LF] && mid[1..] == [LF];
      }
    }
  }

  // ---------- every step keeps it ----------

  lemma UnreadStep(chunks: seq<Text>, taken: nat, added: Text)
    requires taken <= |chunks| && added == if taken < |chunks| then chunks[taken] else [LF, LF]
    ensures UnreadFrom(chunks, taken) == added + UnreadFrom(chunks, taken + 1)
  {
    if taken < |chunks| {
      assert chunks[taken..][1..] == chunks[taken + 1..];
    } else {
      assert chunks[taken..] == [];
    }
  }

  lemma ReadProgress(s: State, s': State, added: Text)
    requires Progress(s) && s'.buffer == s.buffer + added && Unread(s) == added + Unread(s')
    requires s'.events == s.events && s'.data == s.data && s'.chunks == s.chunks && s'.error == NoError
    requires s'.phase == Line && s'.taken <= |s'.chunks| + 1
    ensures Progress(s')
  {
    assert s.buffer + (added + Unread(s')) == s.buffer + added + Unread(s');
    BytesSplit(s.buffer, added);
    BytesSplit(added, Unread(s'));
  }

  lemma ReadKeeps(s: State, s': State)
    requires Inv(s) && ReadStep(s, s')
    ensures Inv(s')
  {
    var added := if s.taken < |s.chunks| then s.chunks[s.taken] else [LF, LF];
    UnreadStep(s.chunks, s.taken, added);
    BytesSplit(s.buffer, added);
    ReadProgress(s, s', added);
  }

  lemma CollectedBytes(data: Event, line: Text)
    ensures PartsBytes(Collected(data, line)) <= PartsBytes(data) + Bytes(line)
    ensures line != [] && line[0] == DATA ==>
              PartsBytes(Collected(data, line)) == PartsBytes(data) + PartsBytes([line[1..]])
  {
    if line != [] {
      PartsSplit(data, [line[1..]]);
      assert PartsBytes([line[1..]]) == Bytes(line[1..]);
    }
  }

  // The step in terms of the whole-stream functions.
  lemma LineEffect(s: State, s': State, i: nat)
    requires LineStep(s, s', i) && s.dataBytes == PartsBytes(s.data)
    ensures s'.data == Collected(s.data, s.buffer[..i]) && s'.dataBytes == PartsBytes(s'.data)
    ensures s'.phase == Check || s'.phase == Finish
    ensures s'.phase == Check ==> s'.events == s.events + Ended(s.data, s.buffer[..i]) && s'.error == NoError
    ensures s'.phase == Finish ==> && Ended(s.data, s.buffer[..i]) == [s.data] && s'.events == s.events
                                   && s'.error == BadJson && s.badJson(s.data)
    ensures forall e :: e in s'.events && e !in s.events ==> !s.badJson(e)
  {
    CollectedBytes(s.data, s.buffer[..i]);
  }

  lemma LineCounts(s: State, s': State, i: nat)
    requires LineStep(s, s', i) && s.bufferBytes == Bytes(s.buffer)
    ensures s'.bufferBytes == Bytes(s'.buffer)
    ensures s'.data == Collected(s.data, s.buffer[..i]) ==>
              Bytes(s'.buffer) + PartsBytes(s'.data) <= Bytes(s.buffer) + PartsBytes(s.data)
  {
    LineBytes(s.buffer, i, Width(s.buffer, i));
    CollectedBytes(s.data, s.buffer[..i]);
  }

  lemma EventsAfter(line: Text, lines: seq<Text>, rest: seq<Text>, data: Event, events: seq<Event>)
    requires lines == [line] + rest
    ensures events + Events(lines, data) == events + Ended(data, line) + Events(rest, Collected(data, line))
  {
    assert lines[1..] == rest;
  }

  lemma ReferenceStep(buffer: Text, unread: Text, data: Event, events: seq<Event>, reference: seq<Event>, i: nat)
    requires FirstDelimiter(buffer, i)
    requires !(buffer[i] == CR && i == |buffer| - 1 && unread != [])
    requires events + Events(Lines(buffer + unread, []), data) == reference
    ensures events + Ended(data, buffer[..i])
            + Events(Lines(buffer[i + Width(buffer, i)..] + unread, []), Collected(data, buffer[..i])) == reference
  {
    var lines, rest := Lines(buffer + unread, []), Lines(buffer[i + Width(buffer, i)..] + unread, []);
    assert lines == [buffer[..i]] + rest by { LineOfStream(buffer, unread, i, Width(buffer, i)); }
    EventsAfter(buffer[..i], lines, rest, data, events);
  }

  lemma LineProgress(s: State, s': State, i: nat)
    requires Inv(s) && LineStep(s, s', i)
    requires s'.data == Collected(s.data, s.buffer[..i])
    ensures s.events + Ended(s.data, s.buffer[..i]) + Events(Lines(s'.buffer + Unread(s'), []), s'.data)
            == Reference(s'.chunks)
    ensures Unread(s') == Unread(s)
  {
    var unread := Unread(s);
    assert s.taken > |s.chunks| ==> unread == [];
    ReferenceStep(s.buffer, unread, s.data, s.events, Reference(s.chunks), i);
  }

  lemma LineKeeps(s: State, s': State, i: nat)
    requires Inv(s) && LineStep(s, s', i)
    ensures Inv(s')
  {
    LineEffect(s, s', i);
    LineCounts(s, s', i);
    LineProgress(s, s', i);
    if s'.phase == Finish {
      assert s.events + [s.data] <= Reference(s.chunks);
      assert EndsBadly(s', s.data);
    } else {
      assert Progress(s');
    }
  }

  lemma LimitKeeps(s: State, s': State)
    requires Inv(s) && (CheckStep(s, s') || PostStep(s, s'))
    ensures Inv(s')
  {
    assert Unread(s') == Unread(s);
    if PostStep(s, s') && s.taken > |s.chunks| {
      assert s.buffer + [] == s.buffer;
      NoLines(s.buffer);
    }
  }

  lemma BeginKeeps(s: State, s': State)
    requires Inv(s) && BeginStep(s, s')
    ensures Inv(s')
  {
    assert s'.chunks[0..] == s'.chunks;
    assert [] + Unread(s') == Stream(s'.chunks);
  }

  lemma StepKeeps(s: State, s': State)
    requires Inv(s) && Next(s, s')
    ensures Inv(s')
  {
    if i: nat :| HeldStep(s, s', i) || LineStep(s, s', i) {
      if LineStep(s, s', i) { LineKeeps(s, s', i); }
    } else if BeginStep(s, s') {
      BeginKeeps(s, s');
    } else if ReadStep(s, s') {
      ReadKeeps(s, s');
    } else if CheckStep(s, s') || PostStep(s, s') {
      LimitKeeps(s, s');
    } else if FinishStep(s, s') && s.error == BadJson {
      var bad :| EndsBadly(s, bad);
      assert EndsBadly(s', bad);
    }
  }

  lemma {:induction false} RunKeeps(run: seq<State>, n: nat)
    requires IsRun(run) && n < |run|
    ensures Inv(run[n])
  {
    if n > 0 {
      RunKeeps(run, n - 1);
      StepKeeps(run[n - 1], run[n]);
    }
  }

  // ---------- what the reader guarantees ----------

  // The maintained counts are exact in every reachable state, every limit decision is the
  // one a recount makes, and a request is released when it is over.
  lemma CountsExact(run: seq<State>, n: nat)
    requires IsRun(run) && n < |run|
    ensures run[n].bufferBytes == Bytes(run[n].buffer) && run[n].dataBytes == PartsBytes(run[n].data)
    ensures run[n].error == run[n].expectedError
    ensures run[n].phase == Begin && run[n].requests > 0 ==> run[n].released
  {
    RunKeeps(run, n);
  }

  // What is pending decides at every check: with the event in hand after a line, and the
  // buffer alone before the next read.
  lemma LimitDecided(run: seq<State>, n: nat)
    requires IsRun(run) && n + 1 < |run| && run[n + 1].error != Cancelled
    ensures run[n].phase == Check ==>
              (run[n + 1].error == Limit <==> Bytes(run[n].buffer) + PartsBytes(run[n].data) > run[n].limit)
    ensures run[n].phase == Post ==> (run[n + 1].error == Limit <==> Bytes(run[n].buffer) > run[n].limit)
    ensures run[n + 1].error == Limit && run[n].phase in {Check, Post} ==> run[n + 1].phase == Finish
    ensures run[n].phase == Line && run[n + 1].buffer != run[n].buffer ==> run[n + 1].phase in {Check, Finish}
  {
    RunKeeps(run, n);
    assert Next(run[n], run[n + 1]);
  }

  // Whatever the chunks, the limit and the cancellation, the events so far begin the
  // events of the whole stream, none of them bad.
  lemma EventsBeginReference(run: seq<State>, n: nat)
    requires IsRun(run) && n < |run| && run[n].requests > 0
    ensures run[n].events <= Reference(run[n].chunks)
    ensures forall i :: 0 <= i < |run[n].events| ==> !run[n].badJson(run[n].events[i])
  {
    RunKeeps(run, n);
    if run[n].error == BadJson && !Running(run[n]) {
      var bad :| EndsBadly(run[n], bad);
    }
  }

  // How many events come before the first bad one.
  function GoodCount(events: seq<Event>, bad: Event -> bool): (n: nat)
    ensures n <= |events|
    ensures forall i :: 0 <= i < n ==> !bad(events[i])
    ensures n < |events| ==> bad(events[n])
  {
    if events == [] || bad(events[0]) then 0 else 1 + GoodCount(events[1..], bad)
  }

  lemma AllGood(events: seq<Event>, bad: Event -> bool)
    requires forall i :: 0 <= i < |events| ==> !bad(events[i])
    ensures GoodCount(events, bad) == |events|
  {
  }

  lemma GoodBefore(reference: seq<Event>, events: seq<Event>, last: Event, bad: Event -> bool)
    requires events + [last] <= reference && bad(last)
    requires forall i :: 0 <= i < |events| ==> !bad(events[i])
    ensures GoodCount(reference, bad) == |events| && reference[..|events|] == events
  {
    assert reference[|events|] == last;
    assert forall i :: 0 <= i < |events| ==> reference[i] == events[i];
  }

  // A request that is not cancelled and does not reach its limit reports exactly the events
  // of the whole stream, up to the first bad one if there is one. The limit is on what is
  // pending, so the stream may be longer.
  lemma FinishedExactly(run: seq<State>, n: nat)
    requires IsRun(run) && n < |run| && run[n].requests > 0 && !Running(run[n])
    requires run[n].error != Cancelled && run[n].error != Limit
    ensures var reference := Reference(run[n].chunks);
            var good := GoodCount(reference, run[n].badJson);
            && run[n].events == reference[..good]
            && run[n].error == if good < |reference| then BadJson else NoError
  {
    RunKeeps(run, n);
    OutcomeExactly(run[n]);
  }

  lemma OutcomeExactly(s: State)
    requires Outcome(s) && forall i :: 0 <= i < |s.events| ==> !s.badJson(s.events[i])
    requires s.error != Cancelled && s.error != Limit
    ensures var reference := Reference(s.chunks);
            var good := GoodCount(reference, s.badJson);
            && s.events == reference[..good]
            && s.error == if good < |reference| then BadJson else NoError
  {
    var reference := Reference(s.chunks);
    if s.error == BadJson {
      var bad :| EndsBadly(s, bad);
      GoodBefore(reference, s.events, bad, s.badJson);
    } else {
      AllGood(reference, s.badJson);
    }
  }

  // So only the concatenated stream matters: chunk boundaries, even inside a CR LF, do not.
  lemma ChunkingInvisible(run: seq<State>, n: nat, run': seq<State>, n': nat)
    requires IsRun(run) && n < |run| && run[n].requests > 0 && !Running(run[n])
    requires IsRun(run') && n' < |run'| && run'[n'].requests > 0 && !Running(run'[n'])
    requires Flat(run[n].chunks) == Flat(run'[n'].chunks) && run[n].badJson == run'[n'].badJson
    requires run[n].error != Cancelled && run[n].error != Limit
    requires run'[n'].error != Cancelled && run'[n'].error != Limit
    ensures run[n].events == run'[n'].events && run[n].error == run'[n'].error
  {
    FinishedExactly(run, n);
    FinishedExactly(run', n');
  }

  // A stream that fits into the limit as a whole never reaches it, however it is divided.
  lemma FittingStreamCompletes(run: seq<State>, n: nat)
    requires IsRun(run) && n < |run| && run[n].requests > 0 && !Running(run[n])
    requires run[n].limit >= Bytes(Stream(run[n].chunks))
    ensures run[n].error != Limit
    ensures run[n].error != Cancelled ==>
              var reference := Reference(run[n].chunks);
              run[n].events == reference[..GoodCount(reference, run[n].badJson)]
  {
    RunKeeps(run, n);
    if run[n].error != Cancelled { FinishedExactly(run, n); }
  }

  // ---------- written events come back ----------

  datatype LineEnd = OnlyLF | OnlyCR | Both

  function EndText(e: LineEnd): Text {
    match e
    case OnlyLF => [LF]
    case OnlyCR => [CR]
    case Both => [CR, LF]
  }

  function WrittenParts(parts: Event, e: LineEnd): Text {
    if parts == [] then [] else [DATA] + parts[0] + EndText(e) + WrittenParts(parts[1..], e)
  }

  // A data line for every part, and an empty line after every event.
  function Written(events: seq<Event>, e: LineEnd): Text {
    if events == [] then [] else WrittenParts(events[0], e) + EndText(e) + Written(events[1..], e)
  }

  predicate NoDelimiters(text: Text) {
    forall j :: 0 <= j < |text| ==> !Delimiter(text[j])
  }

  // An event that can be written: no part spans lines, and there is something in it.
  predicate Writable(event: Event) {
    PartsBytes(event) > 0 && forall k :: 0 <= k < |event| ==> NoDelimiters(event[k])
  }

  lemma LineWritten(line: Text, e: LineEnd, rest: Text)
    requires NoDelimiters(line) && (e.OnlyCR? ==> rest == [] || rest[0] != LF)
    ensures Lines(line + EndText(e) + rest, []) == [line] + Lines(rest, [])
  {
    var text := line + EndText(e) + rest;
    assert text + [] == text && text[..|line|] == line;
    assert text[|line|] == EndText(e)[0];
    assert FirstDelimiter(text, |line|);
    var width := Width(text, |line|);
    assert width == |EndText(e)| && text[|line| + width..] + [] == rest;
    LineOfStream(text, [], |line|, width);
  }

  lemma Regroup(a: Text, b: Text, c: Text, d: Text)
    ensures (a + b + c) + d == a + (b + (c + d))
  {
  }

  // One data line adds its part to the event in hand.
  lemma PartBack(part: Text, e: LineEnd, rest: Text, data: Event)
    requires NoDelimiters(part) && (e.OnlyCR? ==> rest == [] || rest[0] != LF)
    ensures Events(Lines([DATA] + part + EndText(e) + rest, []), data) == Events(Lines(rest, []), data + [part])
  {
    var line := [DATA] + part;
    LineWritten(line, e, rest);
    assert line[1..] == part;
    assert Collected(data, line) == data + [part];
    EventsAfter(line, Lines(line + EndText(e) + rest, []), Lines(rest, []), data, []);
  }

  lemma {:induction false} PartsComeBack(parts: Event, e: LineEnd, tail: Text, data: Event)
    requires forall k :: 0 <= k < |parts| ==> NoDelimiters(parts[k])
    ensures Events(Lines(WrittenParts(parts, e) + (EndText(e) + tail), []), data)
            == Events(Lines(EndText(e) + tail, []), data + parts)
  {
    var after := EndText(e) + tail;
    if parts == [] {
      assert WrittenParts(parts, e) + after == after && data + parts == data;
    } else {
      var part, more := parts[0], parts[1..];
      var rest := WrittenParts(more, e) + after;
      Regroup([DATA] + part, EndText(e), WrittenParts(more, e), after);
      Regroup([DATA] + part, EndText(e), [], rest);
      assert rest[0] == if more == [] then EndText(e)[0] else DATA;
      assert [DATA] + part + EndText(e) + rest == WrittenParts(parts, e) + after;
      PartBack(part, e, rest, data);
      PartsComeBack(more, e, tail, data + [part]);
      assert data + [part] + more == data + parts;
    }
  }

  lemma OnlyEmptyLines(text: Text)
    requires text == [LF] || text == [LF, LF]
    ensures Events(Lines(text, []), []) == []
  {
    assert text[1..] == [] || text[1..] == [LF];
    if text == [LF, LF] {
      assert Lines([LF], []) == [[]];
      assert Lines(text, []) == [[]] + Lines([LF], []);
    }
  }

  // The empty line ends the event, also where the end of the stream follows a CR.
  lemma EventEnds(e: LineEnd, tail: Text, data: Event, rest: seq<Event>)
    requires PartsBytes(data) > 0
    requires (tail == [LF, LF] && rest == []) || (tail != [] && tail[0] == DATA && Events(Lines(tail, []), []) == rest)
    ensures Events(Lines(EndText(e) + tail, []), data) == [data] + rest
  {
    if tail == [LF, LF] && e.OnlyCR? {
      var text: Text := [CR, LF, LF];
      assert EndText(e) + tail == text && text[2..] == [LF];
      assert Lines(text, []) == [[]] + Lines([LF], []);
      OnlyEmptyLines([LF]);
      EventsAfter([], Lines(text, []), Lines([LF], []), data, []);
    } else {
      assert [] + EndText(e) + tail == EndText(e) + tail;
      LineWritten([], e, tail);
      if tail == [LF, LF] { OnlyEmptyLines(tail); }
      EventsAfter([], Lines(EndText(e) + tail, []), Lines(tail, []), data, []);
    }
  }

  // One event comes back in front of whatever the rest of the text holds.
  lemma EventBack(event: Event, e: LineEnd, tail: Text, rest: seq<Event>)
    requires Writable(event)
    requires (tail == [LF, LF] && rest == []) || (tail != [] && tail[0] == DATA && Events(Lines(tail, []), []) == rest)
    ensures Events(Lines(WrittenParts(event, e) + (EndText(e) + tail), []), []) == [event] + rest
  {
    PartsComeBack(event, e, tail, []);
    assert [] + event == event;
    EventEnds(e, tail, event, rest);
  }

  lemma FirstIsData(events: seq<Event>, e: LineEnd, end: Text)
    requires events != [] && Writable(events[0])
    ensures var text := Written(events, e) + end; text != [] && text[0] == DATA
  {
    assert events[0] != [];
    assert WrittenParts(events[0], e)[0] == DATA;
  }

  lemma {:induction false} EventsComeBack(events: seq<Event>, e: LineEnd)
    requires forall k :: 0 <= k < |events| ==> Writable(events[k])
    ensures Events(Lines(Written(events, e) + [LF, LF], []), []) == events
  {
    if events == [] {
      assert Written(events, e) + [LF, LF] == [LF, LF];
      OnlyEmptyLines([LF, LF]);
    } else {
      var event, more := events[0], events[1..];
      var tail := Written(more, e) + [LF, LF];
      EventsComeBack(more, e);
      if more == [] { assert tail == [LF, LF]; } else { FirstIsData(more, e, [LF, LF]); }
      EventBack(event, e, tail, more);
      Regroup(WrittenParts(event, e), EndText(e), Written(more, e), [LF, LF]);
      assert [event] + more == events;
    }
  }

  // Events written out with any one kind of line end, and read in any chunks within the limit,
  // are reported as they were.
  lemma WrittenEventsReported(run: seq<State>, n: nat, events: seq<Event>, e: LineEnd)
    requires IsRun(run) && n < |run| && run[n].requests > 0 && !Running(run[n])
    requires run[n].error == NoError && Flat(run[n].chunks) == Written(events, e)
    requires forall k :: 0 <= k < |events| ==> Writable(events[k])
    ensures run[n].events == events
  {
    FinishedExactly(run, n);
    EventsComeBack(events, e);
  }

  // ---------- every request ends ----------

  function Rank(phase: Phase): nat {
    match phase
    case Check => 4
    case Line => 3
    case Post => 2
    case Read => 1
    case Finish => 0
    case Begin => 0
  }

  // Chunks still to read, then characters in the buffer, then the place in the round.
  ghost predicate Nearer(s: State, s': State) {
    || s'.taken > s.taken
    || (s'.taken == s.taken && |s'.buffer| < |s.buffer|)
    || (s'.taken == s.taken && |s'.buffer| == |s.buffer| && Rank(s'.phase) < Rank(s.phase))
  }

  // Every step of a running request comes nearer to its end, and there are only so many
  // taken, so a request takes finitely many steps.
  lemma RequestAdvances(s: State, s': State)
    requires Inv(s) && Running(s) && Next(s, s')
    ensures s'.chunks == s.chunks && s'.taken <= |s'.chunks| + 1
    ensures Nearer(s, s')
  {
  }

  // How many steps a running request can still take: two for every character to come, three
  // for every read and what is left of the round.
  function StepsLeft(s: State): int {
    2 * (|s.buffer| + |Unread(s)|) + 3 * (|s.chunks| + 1 - s.taken) + Rank(s.phase)
  }

  lemma StepTaken(s: State, s': State)
    requires Inv(s) && Running(s) && Next(s, s')
    ensures StepsLeft(s') < StepsLeft(s)
  {
    if ReadStep(s, s') {
      UnreadStep(s.chunks, s.taken, if s.taken < |s.chunks| then s.chunks[s.taken] else [LF, LF]);
    }
  }

  // The steps i to j of a run belong to one running request.
  ghost predicate OneRequest(run: seq<State>, i: nat, j: nat) {
    i <= j < |run| && forall k :: i <= k < j ==> Running(run[k])
  }

  ghost predicate FewerLeft(s: State, s': State) {
    0 <= StepsLeft(s') < StepsLeft(s)
  }

  lemma TakenBounded(s: State, s': State)
    requires Inv(s) && Running(s) && Next(s, s')
    ensures StepsLeft(s') >= 0
  {
  }

  lemma StepOfRun(run: seq<State>, k: nat)
    requires IsRun(run) && k < |run| - 1 && Running(run[k])
    ensures FewerLeft(run[k], run[k + 1])
  {
    RunKeeps(run, k);
    StepTaken(run[k], run[k + 1]);
    TakenBounded(run[k], run[k + 1]);
  }

  lemma {:induction false} Descent(run: seq<State>, i: nat, j: nat)
    requires i <= j < |run| && forall k :: i <= k < j ==> FewerLeft(run[k], run[k + 1])
    ensures j - i <= StepsLeft(run[i]) - StepsLeft(run[j]) && (i < j ==> StepsLeft(run[j]) >= 0)
    decreases j
  {
    if i < j {
      Descent(run, i, j - 1);
      assert FewerLeft(run[j - 1], run[j - 1 + 1]);
    }
  }

  lemma AtBegin(s: State, s': State)
    requires BeginStep(s, s')
    ensures StepsLeft(s') == 2 * |Stream(s'.chunks)| + 3 * |s'.chunks| + 4
  {
    assert s'.chunks[0..] == s'.chunks;
  }

  // A request is over after at most so many steps, fixed by its stream and its chunks.
  lemma RequestBounded(run: seq<State>, i: nat, j: nat)
    requires IsRun(run) && OneRequest(run, i, j) && i > 0 && BeginStep(run[i - 1], run[i])
    ensures j - i <= 2 * |Stream(run[i].chunks)| + 3 * |run[i].chunks| + 4
  {
    forall k | i <= k < j ensures FewerLeft(run[k], run[k + 1]) { StepOfRun(run, k); }
    Descent(run, i, j);
    AtBegin(run[i - 1], run[i]);
  }
}
