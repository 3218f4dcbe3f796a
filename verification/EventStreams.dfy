/** Server-sent events: the writer of a snapshot (packages/core/src/api.ts) and the reader of
    a stream (packages/api-client/src/operations.ts). */
module EventStreams {
  import opened Text

  // ---------------------------------------------------------------- cutting text at line breaks

  /** The length of the line break at `i`, or 0. */
  function LineBreak(s: string, i: nat): (n: nat)
    requires i <= |s|
    ensures i + n <= |s| && n <= 2
  {
    if i == |s| then 0
    else if s[i] == '\n' then 1
    else if s[i] == '\r' && i + 1 < |s| && s[i + 1] == '\n' then 2
    else 0
  }

  /** The length of the cut at `i`: two line breaks between frames, one between lines. */
  function Cut(s: string, i: nat, frames: bool): (n: nat)
    requires i <= |s|
    ensures i + n <= |s| && n <= 4
  {
    var a := LineBreak(s, i);
    if !frames || a == 0 then a
    else
      var b := LineBreak(s, i + a);
      if b == 0 then 0 else a + b
  }

  function FirstCut(s: string, i: nat, frames: bool): (k: nat)
    requires i <= |s|
    ensures i <= k <= |s| && (k == |s| || Cut(s, k, frames) > 0)
    decreases |s| - i
  {
    if i == |s| || Cut(s, i, frames) > 0 then i else FirstCut(s, i + 1, frames)
  }

  /** The text split at every cut, leftmost first. */
  function Pieces(s: string, frames: bool): (r: seq<string>)
    ensures |r| >= 1
    decreases |s|
  {
    var k := FirstCut(s, 0, frames);
    if k == |s| then [s] else [s[..k]] + Pieces(s[k + Cut(s, k, frames)..], frames)
  }

  function Frames(s: string): seq<string> {
    Init(Pieces(s, true))
  }

  function Rest(s: string): string {
    Last(Pieces(s, true))
  }

  lemma {:induction false} FirstCutIs(s: string, i: nat, k: nat, frames: bool)
    requires i <= k <= |s| && (k == |s| || Cut(s, k, frames) > 0)
    requires forall j :: i <= j < k ==> Cut(s, j, frames) == 0
    ensures FirstCut(s, i, frames) == k
    decreases k - i
  {
    if i < k {
      FirstCutIs(s, i + 1, k, frames);
    }
  }

  lemma {:induction false} NoCutBefore(s: string, i: nat, j: nat, frames: bool)
    requires i <= j < FirstCut(s, 0, frames)
    requires FirstCut(s, i, frames) == FirstCut(s, 0, frames)
    ensures Cut(s, j, frames) == 0
    decreases j - i
  {
    if i < j {
      NoCutBefore(s, i + 1, j, frames);
    }
  }

  /** A frame break found in a prefix of the stream is where the whole stream breaks too. */
  lemma CutStable(a: string, b: string, j: nat, k: nat)
    requires j < k < |a| && Cut(a, k, true) > 0 && Cut(a, j, true) == 0
    ensures Cut(a + b, j, true) == 0
  {
    var s := a + b;
    assert forall i :: 0 <= i < |a| ==> s[i] == a[i];
  }

  lemma CutSame(a: string, b: string, k: nat)
    requires k < |a| && Cut(a, k, true) > 0
    ensures Cut(a + b, k, true) == Cut(a, k, true)
  {
    var s := a + b;
    assert forall i :: 0 <= i < |a| ==> s[i] == a[i];
  }

  lemma FirstCutStable(a: string, b: string)
    requires FirstCut(a, 0, true) < |a|
    ensures var k := FirstCut(a, 0, true); FirstCut(a + b, 0, true) == k && Cut(a + b, k, true) == Cut(a, k, true)
  {
    var k := FirstCut(a, 0, true);
    forall j | 0 <= j < k ensures Cut(a + b, j, true) == 0 {
      NoCutBefore(a, 0, j, true);
      CutStable(a, b, j, k);
    }
    CutSame(a, b, k);
    FirstCutIs(a + b, 0, k, true);
  }

  lemma PiecesUnfold(s: string, frames: bool, k: nat, n: nat)
    requires k == FirstCut(s, 0, frames) < |s| && n == k + Cut(s, k, frames)
    ensures Pieces(s, frames) == [s[..k]] + Pieces(s[n..], frames)
  {
  }

  function Init<T>(p: seq<T>): seq<T>
    requires p != []
  {
    p[..|p| - 1]
  }

  function Last<T>(p: seq<T>): T
    requires p != []
  {
    p[|p| - 1]
  }

  ghost predicate Appends(a: string, b: string) {
    Pieces(a + b, true) == Init(Pieces(a, true)) + Pieces(Last(Pieces(a, true)) + b, true)
  }

  lemma {:induction false} PiecesAppend(a: string, b: string)
    ensures Appends(a, b)
    decreases |a|
  {
    var k := FirstCut(a, 0, true);
    if k < |a| {
      var n := k + Cut(a, k, true);
      PiecesAppend(a[n..], b);
      AppendsBefore(a, b, k, n);
    } else {
      assert Pieces(a, true) == [a];
    }
  }

  lemma HeadStable(a: string, b: string, k: nat, n: nat)
    requires k == FirstCut(a, 0, true) < |a| && n == k + Cut(a, k, true)
    ensures Pieces(a + b, true) == [a[..k]] + Pieces(a[n..] + b, true)
  {
    FirstCutStable(a, b);
    PiecesUnfold(a + b, true, k, n);
    assert (a + b)[n..] == a[n..] + b;
    assert (a + b)[..k] == a[..k];
  }

  lemma AppendsBefore(a: string, b: string, k: nat, n: nat)
    requires k == FirstCut(a, 0, true) < |a| && n == k + Cut(a, k, true)
    requires Appends(a[n..], b)
    ensures Appends(a, b)
  {
    HeadStable(a, b, k, n);
    PiecesUnfold(a, true, k, n);
    var p := Pieces(a[n..], true);
    Reattach([a[..k]], p, Pieces(a[n..] + b, true), Pieces(Last(p) + b, true));
  }

  lemma Reattach<T>(h: seq<T>, p: seq<T>, q: seq<T>, r: seq<T>)
    requires p != [] && q == Init(p) + r
    ensures h + q == Init(h + p) + r && Last(h + p) == Last(p)
  {
  }

  /** Feeding a stream in two parts yields the frames of the whole. */
  lemma FramesAppend(a: string, b: string)
    ensures Frames(a + b) == Frames(a) + Frames(Rest(a) + b)
    ensures Rest(a + b) == Rest(Rest(a) + b)
  {
    PiecesAppend(a, b);
  }

  // ---------------------------------------------------------------- what a stream delivers

  /** A stream operation: its event name, the response schema after JSON parsing, the schema of its
      event ids, and whether the caller passed a callback. */
  datatype Client<V> = Client(event: string, parse: string -> Option<V>, cursor: string -> bool, callback: bool)

  /** The stream ran out, or the first value was returned, or a schema was violated. */
  datatype Stop<V> = Ended | Returned(value: V) | Threw

  datatype Outcome<V> = Outcome(delivered: seq<(V, Option<string>)>, stop: Stop<V>)

  const EVENT := "event: "
  const DATA := "data: "
  const ID := "id: "

  function DataLines(lines: seq<string>): seq<string> {
    if lines == [] then []
    else (if DATA <= lines[0] then [lines[0][|DATA|..]] else []) + DataLines(lines[1..])
  }

  function EventId(lines: seq<string>): Option<string> {
    if lines == [] then None
    else if ID <= lines[0] then Some(lines[0][|ID|..])
    else EventId(lines[1..])
  }

  function HandleLines<V>(lines: seq<string>, client: Client<V>): Outcome<V> {
    if EVENT + client.event !in lines then Outcome([], Ended)
    else
      var value := client.parse(Join(DataLines(lines), "\n"));
      if value.None? then Outcome([], Threw)
      else if !client.callback then Outcome([], Returned(value.value))
      else
        var id := EventId(lines);
        if id.Some? && !client.cursor(id.value) then Outcome([], Threw) else Outcome([(value.value, id)], Ended)
  }

  /** What the reader does with a sequence of frames: each in turn, up to the first that stops it. */
  function Handle<V>(frames: seq<string>, client: Client<V>): Outcome<V> {
    if frames == [] then Outcome([], Ended)
    else Then(HandleLines(Pieces(frames[0], false), client), Handle(frames[1..], client))
  }

  function Then<V>(a: Outcome<V>, b: Outcome<V>): Outcome<V> {
    if a.stop.Ended? then Outcome(a.delivered + b.delivered, b.stop) else a
  }

  lemma ThenAssociates<V>(a: Outcome<V>, b: Outcome<V>, c: Outcome<V>)
    ensures Then(Then(a, b), c) == Then(a, Then(b, c))
  {
  }

  lemma {:induction false} HandleAppend<V>(f: seq<string>, g: seq<string>, client: Client<V>)
    ensures Handle(f + g, client) == Then(Handle(f, client), Handle(g, client))
  {
    if f == [] {
      assert f + g == g;
    } else {
      HandleAppend(f[1..], g, client);
      assert (f + g)[0] == f[0] && (f + g)[1..] == f[1..] + g;
      ThenAssociates(HandleLines(Pieces(f[0], false), client), Handle(f[1..], client), Handle(g, client));
    }
  }

  function Concat(chunks: seq<string>): string {
    if chunks == [] then [] else Concat(chunks[..|chunks| - 1]) + chunks[|chunks| - 1]
  }

  lemma {:induction false} FramesOfPrefix(chunks: seq<string>, c: nat)
    requires c <= |chunks|
    ensures Frames(Concat(chunks[..c])) <= Frames(Concat(chunks))
    decreases |chunks| - c
  {
    if c < |chunks| {
      FramesOfPrefix(chunks, c + 1);
      FramesGrow(chunks, c);
    } else {
      assert chunks[..c] == chunks;
    }
  }

  lemma FramesGrow(chunks: seq<string>, c: nat)
    requires c < |chunks|
    ensures Concat(chunks[..c + 1]) == Concat(chunks[..c]) + chunks[c]
    ensures Frames(Concat(chunks[..c + 1]))
         == Frames(Concat(chunks[..c])) + Frames(Rest(Concat(chunks[..c])) + chunks[c])
    ensures Rest(Concat(chunks[..c + 1])) == Rest(Rest(Concat(chunks[..c])) + chunks[c])
  {
    assert chunks[..c + 1][..c] == chunks[..c];
    FramesAppend(Concat(chunks[..c]), chunks[c]);
  }

  /** Once some frames stop the reader, later frames change nothing. */
  lemma Stopped<V>(f: seq<string>, all: seq<string>, client: Client<V>)
    requires f <= all && !Handle(f, client).stop.Ended?
    ensures Handle(all, client) == Handle(f, client)
  {
    HandleAppend(f, all[|f|..], client);
    assert f + all[|f|..] == all;
  }

  /** The inner loop: the frames completed by one chunk. */
  method Dispatch<V>(frames: seq<string>, client: Client<V>)
    returns (delivered: seq<(V, Option<string>)>, stop: Stop<V>)
    ensures Outcome(delivered, stop) == Handle(frames, client)
  {
    delivered := [];
    for i := 0 to |frames|
      invariant Handle(frames[..i], client) == Outcome(delivered, Ended)
    {
      var lines := Pieces(frames[i], false);
      HandleOne(frames, i, client);
      if EVENT + client.event !in lines {
        continue;
      }
      var value := client.parse(Join(DataLines(lines), "\n"));
      if value.None? {
        Stopped(frames[..i + 1], frames, client);
        return delivered, Threw;
      }
      if !client.callback {
        Stopped(frames[..i + 1], frames, client);
        return delivered, Returned(value.value);
      }
      var id := EventId(lines);
      if id.Some? && !client.cursor(id.value) {
        Stopped(frames[..i + 1], frames, client);
        return delivered, Threw;
      }
      delivered := delivered + [(value.value, id)];
    }
    assert frames[..|frames|] == frames;
    stop := Ended;
  }

  /** The reading loop. Its outcome is a function of the concatenated text alone: how the text is
      divided into chunks does not matter. */
  method ReadStream<V>(chunks: seq<string>, client: Client<V>)
    returns (delivered: seq<(V, Option<string>)>, stop: Stop<V>)
    ensures Outcome(delivered, stop) == Handle(Frames(Concat(chunks)), client)
  {
    var buffer := "";
    delivered := [];
    for c := 0 to |chunks|
      invariant buffer == Rest(Concat(chunks[..c]))
      invariant Handle(Frames(Concat(chunks[..c])), client) == Outcome(delivered, Ended)
    {
      FramesGrow(chunks, c);
      buffer := buffer + chunks[c];
      var frames := Frames(buffer);
      buffer := Rest(buffer);
      HandleAppend(Frames(Concat(chunks[..c])), frames, client);
      var more;
      more, stop := Dispatch(frames, client);
      delivered := delivered + more;
      if !stop.Ended? {
        FramesOfPrefix(chunks, c + 1);
        Stopped(Frames(Concat(chunks[..c + 1])), Frames(Concat(chunks)), client);
        return;
      }
    }
    assert chunks[..|chunks|] == chunks;
    stop := Ended;
  }

  lemma {:induction false} HandleOne<V>(frames: seq<string>, i: nat, client: Client<V>)
    requires i < |frames|
    ensures Handle(frames[..i + 1], client)
         == Then(Handle(frames[..i], client), HandleLines(Pieces(frames[i], false), client))
  {
    HandleSingle(frames[i], Pieces(frames[i], false), client);
    HandleAppend(frames[..i], [frames[i]], client);
    assert frames[..i + 1] == frames[..i] + [frames[i]];
  }

  // ---------------------------------------------------------------- the snapshot writer

  class Response {
    var text: string
    var ended: bool

    constructor ()
      ensures text == "" && !ended
    {
      text, ended := "", false;
    }

    method Write(s: string)
      modifies this
      ensures text == old(text) + s && ended == old(ended)
    {
      text := text + s;
    }

    method End()
      modifies this
      ensures text == old(text) && ended
    {
      ended := true;
    }
  }

  const BREAK := "\n"
  const DEFAULT_RETRY := 3000

  function RetryLine(retryMs: nat): string {
    "retry: " + Decimal(if retryMs == 0 then DEFAULT_RETRY else retryMs)
  }

  function IdLine(eventId: string): string {
    if eventId != [] then ID + eventId + BREAK else []
  }

  function Snapshot(event: string, payload: string, retryMs: nat, eventId: string): string {
    RetryLine(retryMs) + BREAK + IdLine(eventId) + (EVENT + event + BREAK) + (DATA + payload + BREAK + BREAK)
  }

  /** The text of a snapshot, written out. */
  lemma SnapshotText(event: string, payload: string, retryMs: nat, eventId: string)
    ensures Snapshot(event, payload, retryMs, eventId)
         == "retry: " + Decimal(if retryMs == 0 then 3000 else retryMs) + "\n"
            + (if eventId != "" then "id: " + eventId + "\n" else "")
            + "event: " + event + "\n" + "data: " + payload + "\n\n"
  {
    var front := RetryLine(retryMs) + BREAK + IdLine(eventId);
    assert DATA + payload + BREAK + BREAK == "data: " + payload + "\n\n";
    SnapshotRegroup(front, "event: " + event + "\n", "data: ", payload, "\n\n");
    SnapshotRegroup(front, "event: ", event, "\n", "");
  }

  lemma SnapshotRegroup(a: string, b: string, c: string, d: string, e: string)
    ensures a + b + (c + d + e) == a + b + c + d + e && a + (b + c + d) == a + b + c + d
  {
  }

  /** Writes one snapshot event; `eventId` is empty when there is none. */
  method SendSnapshot(res: Response, event: string, payload: string, retryMs: nat, eventId: string)
    modifies res
    ensures res.text == old(res.text) + Snapshot(event, payload, retryMs, eventId) && res.ended
    ensures Snapshot(event, payload, retryMs, eventId)
         == "retry: " + Decimal(if retryMs == 0 then 3000 else retryMs) + "\n"
            + (if eventId != "" then "id: " + eventId + "\n" else "")
            + "event: " + event + "\n" + "data: " + payload + "\n\n"
  {
    SnapshotText(event, payload, retryMs, eventId);
    ghost var start, retry := res.text, RetryLine(retryMs) + BREAK;
    ghost var name, data := EVENT + event + BREAK, DATA + payload + BREAK + BREAK;
    res.Write(RetryLine(retryMs) + BREAK);
    if eventId != [] {
      res.Write(ID + eventId + BREAK);
    }
    assert res.text == start + retry + IdLine(eventId);
    res.Write(EVENT + event + BREAK);
    res.Write(DATA + payload + BREAK + BREAK);
    res.End();
    Regroup(start, retry, IdLine(eventId), name, data);
  }

  // ---------------------------------------------------------------- round trip

  /** A line of a frame and whether a carriage return precedes its line feed. */
  datatype Line = Line(text: string, cr: bool)

  predicate CleanText(text: string) {
    text != [] && '\n' !in text && text[0] != '\r'
  }

  predicate Clean(l: Line) {
    CleanText(l.text) && (!l.cr ==> l.text[|l.text| - 1] != '\r')
  }

  function Terminator(cr: bool): string {
    if cr then "\r\n" else "\n"
  }

  /** The lines of a frame, without the terminator of the last. */
  function Body(lines: seq<Line>): string
    requires lines != []
  {
    if |lines| == 1 then lines[0].text else lines[0].text + Terminator(lines[0].cr) + Body(lines[1..])
  }

  function Texts(lines: seq<Line>): seq<string> {
    if lines == [] then [] else [lines[0].text] + Texts(lines[1..])
  }

  predicate CleanLines(lines: seq<Line>) {
    lines != [] && (forall i :: 0 <= i < |lines| ==> Clean(lines[i])) && !lines[|lines| - 1].cr
  }

  lemma NoBreakInside(l: Line, rest: string, j: nat)
    requires Clean(l) && j < |l.text|
    ensures LineBreak(l.text + Terminator(l.cr) + rest, j) == 0
  {
    var s := l.text + Terminator(l.cr) + rest;
    assert s[j] == l.text[j];
    assert s[|l.text|] == Terminator(l.cr)[0];
    assert j + 1 < |l.text| ==> s[j + 1] == l.text[j + 1];
  }

  lemma BreakAfter(l: Line, rest: string)
    ensures LineBreak(l.text + Terminator(l.cr) + rest, |l.text|) == |Terminator(l.cr)|
  {
    var s := l.text + Terminator(l.cr) + rest;
    assert s[|l.text|] == Terminator(l.cr)[0];
    assert l.cr ==> s[|l.text| + 1] == Terminator(l.cr)[1];
  }

  lemma FirstLine(l: Line, rest: string)
    requires Clean(l)
    ensures Pieces(l.text + Terminator(l.cr) + rest, false) == [l.text] + Pieces(rest, false)
  {
    var s := l.text + Terminator(l.cr) + rest;
    forall j | 0 <= j < |l.text| ensures Cut(s, j, false) == 0 {
      NoBreakInside(l, rest, j);
    }
    BreakAfter(l, rest);
    FirstCutIs(s, 0, |l.text|, false);
    PiecesUnfold(s, false, |l.text|, |l.text| + |Terminator(l.cr)|);
    assert s[..|l.text|] == l.text;
    assert s[|l.text| + |Terminator(l.cr)|..] == rest;
  }

  lemma LastLine(text: string)
    requires '\n' !in text
    ensures Pieces(text, false) == [text]
  {
    FirstCutIs(text, 0, |text|, false);
  }

  /** The line split undoes the rendering of clean lines. */
  lemma {:induction false} LinesRecovered(lines: seq<Line>)
    requires CleanLines(lines)
    ensures Pieces(Body(lines), false) == Texts(lines)
    decreases |lines|
  {
    if |lines| == 1 {
      LastLine(lines[0].text);
    } else {
      assert forall i :: 0 <= i < |lines| - 1 ==> lines[1..][i] == lines[i + 1];
      LinesRecovered(lines[1..]);
      FirstLine(lines[0], Body(lines[1..]));
    }
  }

  lemma {:induction false} ShiftedCut(p: string, s: string, i: nat, frames: bool)
    requires i <= |s|
    ensures Cut(p + s, |p| + i, frames) == Cut(s, i, frames)
  {
    assert forall j :: 0 <= j < |s| ==> (p + s)[|p| + j] == s[j];
  }

  lemma {:induction false} BodyStart(lines: seq<Line>)
    requires CleanLines(lines)
    ensures Body(lines) != [] && Body(lines)[0] != '\n' && Body(lines)[0] != '\r'
  {
    assert Clean(lines[0]);
    assert Body(lines)[0] == lines[0].text[0];
  }

  lemma NoFrameBreak(l: Line, rest: string, j: nat)
    requires Clean(l) && rest != [] && rest[0] != '\n' && rest[0] != '\r'
    requires j < |l.text| + |Terminator(l.cr)|
    ensures Cut(l.text + Terminator(l.cr) + rest, j, true) == 0
  {
    var s, k := l.text + Terminator(l.cr) + rest, |l.text| + |Terminator(l.cr)|;
    assert s[k] == rest[0];
    assert LineBreak(s, k) == 0;
    if j < |l.text| {
      NoBreakInside(l, rest, j);
    } else {
      BreakAfter(l, rest);
      assert l.cr ==> s[|l.text| + 1] == '\n';
    }
  }

  lemma NoFrameBreakInLast(l: Line, tail: string, j: nat)
    requires Clean(l) && !l.cr && j < |l.text| && tail == BREAK + BREAK
    ensures Cut(l.text + tail, j, true) == 0
  {
    NoBreakInside(l, BREAK, j);
    assert l.text + tail == l.text + Terminator(l.cr) + BREAK;
  }

  lemma FirstLineApart(lines: seq<Line>, tail: string)
    requires CleanLines(lines) && |lines| > 1
    ensures CleanLines(lines[1..]) && Clean(lines[0])
    ensures Body(lines) + tail == lines[0].text + Terminator(lines[0].cr) + (Body(lines[1..]) + tail)
    ensures var rest := Body(lines[1..]) + tail; rest != [] && rest[0] != '\n' && rest[0] != '\r'
  {
    BodyStart(lines[1..]);
  }

  lemma {:induction false} NoFrameBreakInBody(lines: seq<Line>, tail: string, j: nat)
    requires CleanLines(lines) && j < |Body(lines)| && tail == BREAK + BREAK
    ensures Cut(Body(lines) + tail, j, true) == 0
    decreases |lines|
  {
    if |lines| == 1 {
      NoFrameBreakInLast(lines[0], tail, j);
    } else {
      var l, rest := lines[0], Body(lines[1..]);
      var front := l.text + Terminator(l.cr);
      FirstLineApart(lines, tail);
      if j < |front| {
        NoFrameBreak(l, rest + tail, j);
      } else {
        NoFrameBreakInBody(lines[1..], tail, j - |front|);
        ShiftedCut(front, rest + tail, j - |front|, true);
      }
    }
  }

  /** A frame of clean lines ends at its blank line and leaves nothing behind. */
  lemma FrameRecovered(lines: seq<Line>)
    requires CleanLines(lines)
    ensures Pieces(Body(lines) + (BREAK + BREAK), true) == [Body(lines), ""]
  {
    var body, tail := Body(lines), BREAK + BREAK;
    forall j | 0 <= j < |body| ensures Cut(body + tail, j, true) == 0 {
      NoFrameBreakInBody(lines, tail, j);
    }
    ShiftedCut(body, tail, 0, true);
    FirstCutIs(body + tail, 0, |body|, true);
    PiecesUnfold(body + tail, true, |body|, |body| + 2);
    assert (body + tail)[..|body|] == body;
    assert (body + tail)[|body| + 2..] == [];
  }

  /** No line feed, and no carriage return at the end. */
  predicate OneLine(s: string) {
    '\n' !in s && (s == [] || s[|s| - 1] != '\r')
  }

  function StripReturn(s: string): string {
    if s != [] && s[|s| - 1] == '\r' then s[..|s| - 1] else s
  }

  function IdLines(eventId: string): seq<Line> {
    if eventId == [] then [] else [Line(ID + StripReturn(eventId), eventId[|eventId| - 1] == '\r')]
  }

  function SnapshotLines(event: string, payload: string, retryMs: nat, eventId: string): seq<Line> {
    [Line(RetryLine(retryMs), false)] + IdLines(eventId) + [Line(EVENT + event, false), Line(DATA + payload, false)]
  }

  lemma PrefixedClean(prefix: string, s: string, cr: bool)
    requires prefix != [] && '\n' !in prefix && '\r' !in prefix && '\n' !in s
    requires !cr ==> OneLine(s)
    ensures Clean(Line(prefix + s, cr))
  {
    var t := prefix + s;
    assert t[0] == prefix[0];
    assert s != [] ==> t[|t| - 1] == s[|s| - 1];
    assert s == [] ==> t == prefix;
  }

  lemma RetryLineClean(retryMs: nat)
    ensures Clean(Line(RetryLine(retryMs), false))
  {
    PrefixedClean("retry: ", Decimal(if retryMs == 0 then DEFAULT_RETRY else retryMs), false);
  }

  lemma SnapshotLinesClean(event: string, payload: string, retryMs: nat, eventId: string)
    requires OneLine(event) && OneLine(payload) && '\n' !in eventId
    ensures CleanLines(SnapshotLines(event, payload, retryMs, eventId))
  {
    RetryLineClean(retryMs);
    PrefixedClean(EVENT, event, false);
    PrefixedClean(DATA, payload, false);
    if eventId != [] {
      PrefixedClean(ID, StripReturn(eventId), eventId[|eventId| - 1] == '\r');
    }
  }

  lemma TailBody(name: Line, data: Line)
    requires !name.cr
    ensures Body([name, data]) == name.text + BREAK + data.text
  {
    assert [name, data][1..] == [data];
  }

  lemma ConsBody(l: Line, rest: seq<Line>)
    requires rest != []
    ensures Body([l] + rest) == l.text + Terminator(l.cr) + Body(rest)
  {
    assert ([l] + rest)[1..] == rest;
  }

  lemma IdLineRendered(eventId: string)
    requires eventId != []
    ensures var l := IdLines(eventId)[0]; l.text + Terminator(l.cr) == IdLine(eventId)
  {
    var l := IdLines(eventId)[0];
    if l.cr {
      assert eventId == StripReturn(eventId) + "\r";
      assert Terminator(true) == "\r" + BREAK;
    }
  }

  lemma AnonymousBody(retry: Line, name: Line, data: Line)
    requires !retry.cr && !name.cr
    ensures Body([retry] + [name, data]) == retry.text + BREAK + (name.text + BREAK + data.text)
  {
    TailBody(name, data);
    ConsBody(retry, [name, data]);
  }

  lemma NamedBody(retry: Line, id: Line, name: Line, data: Line)
    requires !retry.cr && !name.cr
    ensures Body([retry] + ([id] + [name, data]))
         == retry.text + BREAK + (id.text + Terminator(id.cr) + (name.text + BREAK + data.text))
  {
    TailBody(name, data);
    ConsBody(id, [name, data]);
    ConsBody(retry, [id] + [name, data]);
  }

  lemma FlattenAnonymous(r: string, e: string, d: string, n: string)
    ensures r + n + [] + (e + n) + (d + n + n) == r + n + (e + n + d) + (n + n)
  {
  }

  lemma FlattenNamed(r: string, i: string, e: string, d: string, n: string)
    ensures r + n + i + (e + n) + (d + n + n) == r + n + (i + (e + n + d)) + (n + n)
  {
  }

  lemma SnapshotIsBody(event: string, payload: string, retryMs: nat, eventId: string)
    ensures Snapshot(event, payload, retryMs, eventId)
         == Body(SnapshotLines(event, payload, retryMs, eventId)) + (BREAK + BREAK)
  {
    var retry, name, data := Line(RetryLine(retryMs), false), Line(EVENT + event, false), Line(DATA + payload, false);
    if eventId == [] {
      AnonymousBody(retry, name, data);
      FlattenAnonymous(retry.text, name.text, data.text, BREAK);
      assert SnapshotLines(event, payload, retryMs, eventId) == [retry] + [name, data];
    } else {
      var id := IdLines(eventId)[0];
      IdLineRendered(eventId);
      NamedBody(retry, id, name, data);
      FlattenNamed(retry.text, IdLine(eventId), name.text, data.text, BREAK);
      assert SnapshotLines(event, payload, retryMs, eventId) == [retry] + ([id] + [name, data]);
    }
  }

  lemma SnapshotFrames(event: string, payload: string, retryMs: nat, eventId: string)
    requires OneLine(event) && OneLine(payload) && '\n' !in eventId
    ensures var text, lines := Snapshot(event, payload, retryMs, eventId),
                           SnapshotLines(event, payload, retryMs, eventId);
            Frames(text) == [Body(lines)] && Rest(text) == "" && Pieces(Body(lines), false) == Texts(lines)
  {
    SnapshotLinesClean(event, payload, retryMs, eventId);
    SnapshotIsBody(event, payload, retryMs, eventId);
    FrameRecovered(SnapshotLines(event, payload, retryMs, eventId));
    LinesRecovered(SnapshotLines(event, payload, retryMs, eventId));
  }

  function SentId(eventId: string): Option<string> {
    if eventId == [] then None else Some(StripReturn(eventId))
  }

  lemma OtherLine(retryMs: nat)
    ensures !(DATA <= RetryLine(retryMs)) && !(ID <= RetryLine(retryMs))
  {
    assert RetryLine(retryMs)[0] == 'r' && DATA[0] == 'd' && ID[0] == 'i';
  }

  lemma TailLines(event: string, payload: string)
    ensures var tail := [EVENT + event, DATA + payload]; DataLines(tail) == [payload] && EventId(tail) == None
  {
    var name, data := EVENT + event, DATA + payload;
    var both, one: seq<string> := [name, data], [data];
    assert both[1..] == one && one[1..] == [];
    assert name[0] == 'e' && data[0] == 'd' && DATA[0] == 'd' && ID[0] == 'i';
    assert data[|DATA|..] == payload;
    assert DataLines(one) == [payload] && EventId(one) == None;
  }

  lemma SnapshotFields(event: string, payload: string, retryMs: nat, eventId: string)
    ensures var lines := Texts(SnapshotLines(event, payload, retryMs, eventId));
            EVENT + event in lines && DataLines(lines) == [payload] && EventId(lines) == SentId(eventId)
  {
    OtherLine(retryMs);
    TailLines(event, payload);
    var retry, tail := RetryLine(retryMs), [EVENT + event, DATA + payload];
    var lines := Texts(SnapshotLines(event, payload, retryMs, eventId));
    SnapshotTexts(event, payload, retryMs, eventId);
    if eventId == [] {
      assert lines[1..] == tail;
    } else {
      var id := ID + StripReturn(eventId);
      assert lines[1..] == [id] + tail && ([id] + tail)[1..] == tail;
      assert id[0] == 'i' && DATA[0] == 'd' && id[|ID|..] == StripReturn(eventId);
    }
    assert EVENT + event == lines[|lines| - 2];
  }

  lemma SnapshotTexts(event: string, payload: string, retryMs: nat, eventId: string)
    ensures Texts(SnapshotLines(event, payload, retryMs, eventId))
         == [RetryLine(retryMs)] + (if eventId == [] then [] else [ID + StripReturn(eventId)])
            + [EVENT + event, DATA + payload]
  {
    var lines := SnapshotLines(event, payload, retryMs, eventId);
    TextsAre(lines);
  }

  lemma {:induction false} TextsAre(lines: seq<Line>)
    ensures |Texts(lines)| == |lines| && forall i :: 0 <= i < |lines| ==> Texts(lines)[i] == lines[i].text
    decreases |lines|
  {
    if lines != [] {
      TextsAre(lines[1..]);
    }
  }

  /** What a client of the stream gets from one written snapshot, whatever chunks it arrives in:
      exactly one event with the payload and the event id, and nothing left over. */
  lemma {:induction false} SnapshotRoundTrip<V>(payload: string, retryMs: nat, eventId: string, client: Client<V>)
    requires OneLine(client.event) && OneLine(payload) && '\n' !in eventId
    requires client.parse(payload).Some? && (eventId != [] ==> client.cursor(StripReturn(eventId)))
    ensures var text := Snapshot(client.event, payload, retryMs, eventId); var value := client.parse(payload).value;
      && Rest(text) == ""
      && Handle(Frames(text), client)
         == if client.callback then Outcome([(value, SentId(eventId))], Ended) else Outcome([], Returned(value))
  {
    var lines := SnapshotLines(client.event, payload, retryMs, eventId);
    SnapshotFrames(client.event, payload, retryMs, eventId);
    SnapshotFields(client.event, payload, retryMs, eventId);
    assert Join([payload], "\n") == payload;
    HandleSingle(Body(lines), Texts(lines), client);
  }

  /** From writer to reader: however the text of a snapshot is cut into chunks, the reading loop
      delivers exactly its payload and event id. */
  method ReceiveSnapshot<V>(chunks: seq<string>, payload: string, retryMs: nat, eventId: string, client: Client<V>)
    returns (delivered: seq<(V, Option<string>)>, stop: Stop<V>)
    requires OneLine(client.event) && OneLine(payload) && OneLine(eventId)
    requires Concat(chunks) == Snapshot(client.event, payload, retryMs, eventId)
    requires client.parse(payload).Some? && (eventId != [] ==> client.cursor(eventId))
    ensures var value := client.parse(payload).value;
      if client.callback then delivered == [(value, if eventId == [] then None else Some(eventId))] && stop == Ended
      else delivered == [] && stop == Returned(value)
  {
    SnapshotRoundTrip(payload, retryMs, eventId, client);
    delivered, stop := ReadStream(chunks, client);
  }

  lemma {:induction false} HandleSingle<V>(frame: string, lines: seq<string>, client: Client<V>)
    requires Pieces(frame, false) == lines
    ensures Handle([frame], client) == HandleLines(lines, client)
  {
    var one: seq<string> := [frame];
    assert one[1..] == [];
    assert Handle([frame], client) == Then(HandleLines(lines, client), Outcome([], Ended));
  }

  // ---------------------------------------------------------------- which event ids survive

  lemma {:induction false} PiecesHaveNoBreak(s: string)
    ensures forall p :: p in Pieces(s, false) ==> '\n' !in p
    decreases |s|
  {
    var k := FirstCut(s, 0, false);
    forall j | 0 <= j < k ensures s[j] != '\n' {
      NoCutBefore(s, 0, j, false);
    }
    assert '\n' !in s[..k];
    if k < |s| {
      var n := k + Cut(s, k, false);
      PiecesUnfold(s, false, k, n);
      PiecesHaveNoBreak(s[n..]);
    } else {
      assert s[..k] == s;
    }
  }

  lemma {:induction false} EventIdHasNoBreak(lines: seq<string>)
    requires forall l :: l in lines ==> '\n' !in l
    ensures EventId(lines).Some? ==> '\n' !in EventId(lines).value
  {
    if lines != [] && !(ID <= lines[0]) {
      assert forall l :: l in lines[1..] ==> l in lines;
      EventIdHasNoBreak(lines[1..]);
    } else if lines != [] {
      assert lines[0] in lines;
    }
  }

  /** No delivered event id holds a line feed, whatever the server sent. */
  lemma {:induction false} DeliveredIdsHaveNoBreak<V>(frames: seq<string>, client: Client<V>, i: nat)
    requires i < |Handle(frames, client).delivered|
    ensures var id := Handle(frames, client).delivered[i].1; id.Some? ==> '\n' !in id.value
    decreases |frames|
  {
    var lines := Pieces(frames[0], false);
    PiecesHaveNoBreak(frames[0]);
    EventIdHasNoBreak(lines);
    var first := HandleLines(lines, client).delivered;
    if i >= |first| {
      DeliveredIdsHaveNoBreak(frames[1..], client, i - |first|);
    }
  }

  /** An event id reaches the client unchanged exactly when it is one line. */
  lemma EventIdSurvivesIff<V>(payload: string, retryMs: nat, eventId: string, client: Client<V>)
    requires OneLine(client.event) && OneLine(payload) && eventId != []
    requires client.callback && client.parse(payload).Some? && client.cursor(eventId)
    ensures Handle(Frames(Snapshot(client.event, payload, retryMs, eventId)), client)
         == Outcome([(client.parse(payload).value, Some(eventId))], Ended)
       <==> OneLine(eventId)
  {
    var out := Handle(Frames(Snapshot(client.event, payload, retryMs, eventId)), client);
    if '\n' in eventId {
      if |out.delivered| == 1 {
        DeliveredIdsHaveNoBreak(Frames(Snapshot(client.event, payload, retryMs, eventId)), client, 0);
      }
    } else if client.cursor(StripReturn(eventId)) {
      SnapshotRoundTrip(payload, retryMs, eventId, client);
    } else {
      RefusedId(payload, retryMs, eventId, client);
    }
  }

  lemma RefusedId<V>(payload: string, retryMs: nat, eventId: string, client: Client<V>)
    requires OneLine(client.event) && OneLine(payload) && eventId != [] && '\n' !in eventId
    requires client.callback && client.parse(payload).Some? && !client.cursor(StripReturn(eventId))
    ensures Handle(Frames(Snapshot(client.event, payload, retryMs, eventId)), client) == Outcome([], Threw)
  {
    var lines := SnapshotLines(client.event, payload, retryMs, eventId);
    SnapshotFrames(client.event, payload, retryMs, eventId);
    SnapshotFields(client.event, payload, retryMs, eventId);
    assert Join([payload], "\n") == payload;
    HandleSingle(Body(lines), Texts(lines), client);
  }

  // ---------------------------------------------------------------- data over several lines

  function DataFields(parts: seq<string>): seq<string> {
    if parts == [] then [] else [DATA + parts[0]] + DataFields(parts[1..])
  }

  lemma {:induction false} DataFieldsRead(parts: seq<string>)
    ensures DataLines(DataFields(parts)) == parts && EventId(DataFields(parts)) == None
  {
    if parts != [] {
      var fields := DataFields(parts);
      DataFieldsRead(parts[1..]);
      assert fields[1..] == DataFields(parts[1..]);
      assert fields[0][|DATA|..] == parts[0] && fields[0][0] == 'd' && ID[0] == 'i';
    }
  }

  function DataLineList(parts: seq<string>): seq<Line> {
    seq(|parts|, i requires 0 <= i < |parts| => Line(DATA + parts[i], false))
  }

  /** An event whose payload is sent as one data line per line of it. */
  function MultiLineText(event: string, payload: string): string {
    EVENT + event + BREAK + Join(DataFields(Split(payload, '\n')), BREAK) + BREAK + BREAK
  }

  lemma {:induction false} DataBody(parts: seq<string>)
    requires parts != []
    ensures Body(DataLineList(parts)) == Join(DataFields(parts), BREAK)
    ensures Texts(DataLineList(parts)) == DataFields(parts)
  {
    var lines := DataLineList(parts);
    assert lines[1..] == DataLineList(parts[1..]);
    assert DataFields(parts)[1..] == DataFields(parts[1..]);
    if |parts| > 1 {
      DataBody(parts[1..]);
      assert |DataFields(parts)| > 1;
    }
  }

  lemma {:induction false} SplitChars(s: string)
    requires '\r' !in s
    ensures forall p :: p in Split(s, '\n') ==> '\r' !in p
  {
    if s != [] {
      SplitChars(s[1..]);
    }
  }

  lemma {:induction false} MultiLineFrame(event: string, payload: string)
    requires OneLine(event) && '\r' !in payload
    ensures var lines := [Line(EVENT + event, false)] + DataLineList(Split(payload, '\n'));
      && CleanLines(lines) && MultiLineText(event, payload) == Body(lines) + (BREAK + BREAK)
      && Texts(lines) == [EVENT + event] + DataFields(Split(payload, '\n'))
  {
    var parts := Split(payload, '\n');
    var name, data := Line(EVENT + event, false), DataLineList(parts);
    PrefixedClean(EVENT, event, false);
    DataLinesClean(payload);
    DataBody(parts);
    ConsBody(name, data);
    assert ([name] + data)[1..] == data;
    MultiLineRegroup(name.text, Body(data));
  }

  lemma DataLinesClean(payload: string)
    requires '\r' !in payload
    ensures var data := DataLineList(Split(payload, '\n')); forall i :: 0 <= i < |data| ==> Clean(data[i])
  {
    var parts := Split(payload, '\n');
    SplitJoin(payload, '\n');
    SplitChars(payload);
    forall i | 0 <= i < |parts| ensures Clean(DataLineList(parts)[i]) {
      assert parts[i] in parts;
      PrefixedClean(DATA, parts[i], false);
    }
  }

  lemma MultiLineRegroup(name: string, data: string)
    ensures name + BREAK + data + BREAK + BREAK == name + BREAK + data + (BREAK + BREAK)
  {
  }

  lemma MultiLineHandled<V>(payload: string, client: Client<V>)
    requires client.callback && client.parse(payload).Some?
    ensures HandleLines([EVENT + client.event] + DataFields(Split(payload, '\n')), client)
         == Outcome([(client.parse(payload).value, None)], Ended)
  {
    var name, fields := EVENT + client.event, DataFields(Split(payload, '\n'));
    var lines := [name] + fields;
    DataFieldsRead(Split(payload, '\n'));
    SplitJoin(payload, '\n');
    assert lines[0] == name && lines[1..] == fields;
    assert name[0] == 'e' && DATA[0] == 'd' && ID[0] == 'i';
    assert DataLines(lines) == Split(payload, '\n') && EventId(lines) == None;
  }

  /** A payload of several lines, sent as one data line per line, is delivered as the whole payload. */
  lemma MultiLineDelivered<V>(payload: string, client: Client<V>)
    requires OneLine(client.event) && '\r' !in payload
    requires client.callback && client.parse(payload).Some?
    ensures var text := MultiLineText(client.event, payload);
      && Rest(text) == ""
      && Handle(Frames(text), client) == Outcome([(client.parse(payload).value, None)], Ended)
  {
    var lines := [Line(EVENT + client.event, false)] + DataLineList(Split(payload, '\n'));
    MultiLineFrame(client.event, payload);
    FrameRecovered(lines);
    LinesRecovered(lines);
    HandleSingle(Body(lines), Texts(lines), client);
    MultiLineHandled(payload, client);
  }
}
