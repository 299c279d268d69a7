/** The live deploy log of the CLI (crates/cli/src/commands/service/deploy.rs:106-153): Server-Sent Events cut out
    of a byte stream that arrives in arbitrary chunks. Text is a sequence of UTF-8 code units; chunks end on
    character boundaries, so decoding a chunk changes nothing. The JSON reader is a parameter. */
module SseStream {
  import opened Prelude
  import opened Text

  /** The `step` field of an event as the loop's `match` tells it apart. */
  datatype Step = Running | Ready | Failed | Other(name: string)

  datatype Event = Event(step: Step, message: string)

  /** How the loop ends: the stream ended or broke, a terminal step arrived, or the buffer outgrew its limit. */
  datatype Outcome = Ended | Broken | Live | DeployFailed | TooLarge

  predicate BlankAt(s: string, i: nat) { i + 1 < |s| && s[i] == '\n' && s[i + 1] == '\n' }

  /** `buf.find("\n\n")`. */
  function FindBlank(s: string): (r: Option<nat>)
    ensures r.Some? ==> BlankAt(s, r.value) && forall j: nat :: j < r.value ==> !BlankAt(s, j)
    ensures r.None? ==> forall j: nat :: !BlankAt(s, j)
  {
    FindBlankFrom(s, 0)
  }

  function FindBlankFrom(s: string, i: nat): (r: Option<nat>)
    ensures r.Some? ==> i <= r.value && BlankAt(s, r.value) && forall j: nat :: i <= j < r.value ==> !BlankAt(s, j)
    ensures r.None? ==> forall j: nat :: i <= j ==> !BlankAt(s, j)
    decreases |s| - i
  {
    if i + 1 >= |s| then None else if BlankAt(s, i) then Some(i) else FindBlankFrom(s, i + 1)
  }

  datatype Cut = Cut(frames: seq<string>, rest: string)

  /** Everything the inner loop takes out of a buffer, and what it leaves. */
  function Drain(buf: string): Cut
    decreases |buf|
  {
    match FindBlank(buf)
    case None => Cut([], buf)
    case Some(pos) =>
      var more := Drain(buf[pos + 2..]);
      Cut([buf[..pos]] + more.frames, more.rest)
  }

  function Concat(chunks: seq<string>): string {
    if chunks == [] then "" else Concat(chunks[..|chunks| - 1]) + chunks[|chunks| - 1]
  }

  // ---- The leftmost split on blank lines, without reference to the loop ----

  function Glue(frames: seq<string>): string {
    if frames == [] then "" else frames[0] + "\n\n" + Glue(frames[1..])
  }

  /** `frames` are the blocks of `s` that a blank line ends, each ended by the first one after its start, and
      `rest` is the unfinished block. */
  ghost predicate IsLeftmostSplit(s: string, frames: seq<string>, rest: string) {
    && s == Glue(frames) + rest
    && (forall f :: f in frames ==> IsFrame(f))
    && FindBlank(rest) == None
  }

  /** The first blank line at or after the start of a block is the one that ends it. */
  ghost predicate IsFrame(f: string) { forall j: nat :: j < |f| ==> !BlankAt(f + "\n\n", j) }

  lemma FirstFrame(f: string, tail: string)
    requires IsFrame(f)
    ensures FindBlank(f + "\n\n" + tail) == Some(|f|)
  {
    var s := f + "\n\n" + tail;
    assert BlankAt(s, |f|);
    forall j: nat | j < |f| ensures !BlankAt(s, j) {
      assert s[j] == (f + "\n\n")[j] && s[j + 1] == (f + "\n\n")[j + 1];
      assert !BlankAt(f + "\n\n", j);
    }
  }

  lemma {:induction false} LeftmostSplitIsUnique(s: string, frames: seq<string>, rest: string)
    requires IsLeftmostSplit(s, frames, rest)
    ensures Drain(s) == Cut(frames, rest)
    decreases |frames|
  {
    if frames == [] {
      assert s == rest;
    } else {
      assert frames == [frames[0]] + frames[1..];
      var tail := Glue(frames[1..]) + rest;
      assert s == frames[0] + "\n\n" + tail;
      FirstFrame(frames[0], tail);
      assert s[|frames[0]| + 2..] == tail && s[..|frames[0]|] == frames[0];
      LeftmostSplitIsUnique(tail, frames[1..], rest);
    }
  }

  lemma FrameBeforeBlank(s: string, pos: nat)
    requires FindBlank(s) == Some(pos)
    ensures IsFrame(s[..pos])
  {
    var f := s[..pos];
    forall j: nat | j < |f| ensures !BlankAt(f + "\n\n", j) {
      assert !BlankAt(s, j);
      assert (f + "\n\n")[j] == s[j] && (f + "\n\n")[j + 1] == s[j + 1];
    }
  }

  lemma GlueFirst(f: string, frames: seq<string>, rest: string)
    ensures Glue([f] + frames) + rest == f + "\n\n" + (Glue(frames) + rest)
  {
    assert ([f] + frames)[1..] == frames;
  }

  lemma {:induction false} DrainSplitsLeftmost(s: string)
    ensures IsLeftmostSplit(s, Drain(s).frames, Drain(s).rest)
    decreases |s|
  {
    match FindBlank(s)
    case None =>
    case Some(pos) =>
      var f, tail := s[..pos], s[pos + 2..];
      DrainSplitsLeftmost(tail);
      FrameBeforeBlank(s, pos);
      GlueFirst(f, Drain(tail).frames, Drain(tail).rest);
      assert s == f + "\n\n" + tail;
  }

  /** The drain loop computes the leftmost split, and there is only one. */
  lemma DrainIsTheLeftmostSplit(s: string, frames: seq<string>, rest: string)
    ensures IsLeftmostSplit(s, frames, rest) <==> Drain(s) == Cut(frames, rest)
  {
    DrainSplitsLeftmost(s);
    if IsLeftmostSplit(s, frames, rest) { LeftmostSplitIsUnique(s, frames, rest); }
  }

  // ---- Draining early or late makes no difference ----

  lemma BlankStays(a: string, b: string, pos: nat)
    requires FindBlank(a) == Some(pos)
    ensures FindBlank(a + b) == Some(pos)
    ensures (a + b)[..pos] == a[..pos] && (a + b)[pos + 2..] == a[pos + 2..] + b
  {
    assert forall j: nat :: j <= pos ==> BlankAt(a + b, j) == BlankAt(a, j);
  }

  lemma DrainFirst(s: string, pos: nat)
    requires FindBlank(s) == Some(pos)
    ensures var more := Drain(s[pos + 2..]); Drain(s) == Cut([s[..pos]] + more.frames, more.rest)
  {
  }

  lemma {:induction false} DrainAppend(a: string, b: string)
    ensures var early, late := Drain(a), Drain(Drain(a).rest + b);
            Drain(a + b) == Cut(early.frames + late.frames, late.rest)
    decreases |a|
  {
    match FindBlank(a)
    case None =>
      assert Drain(a) == Cut([], a);
      assert [] + Drain(a + b).frames == Drain(a + b).frames;
    case Some(pos) =>
      var tail := a[pos + 2..];
      BlankStays(a, b, pos);
      DrainFirst(a, pos);
      DrainFirst(a + b, pos);
      DrainAppend(tail, b);
      FramesAssociate([a[..pos]], Drain(tail).frames, Drain(Drain(tail).rest + b).frames);
  }

  lemma FramesAssociate(x: seq<string>, y: seq<string>, z: seq<string>)
    ensures x + y + z == x + (y + z)
  {
  }

  // ---- From blocks to what the user sees ----

  /** The text after `data: ` of the first line that starts so. */
  function FirstData(lines: seq<string>): Option<string> {
    if lines == [] then None
    else if "data: " <= lines[0] then Some(lines[0][6..])
    else FirstData(lines[1..])
  }

  /** The event of a block: blocks without data, or whose data is not JSON, are skipped. */
  function EventOf(frame: string, parse: string -> Option<Event>): Option<Event> {
    match FirstData(Lines(frame)) case None => None case Some(data) => parse(data)
  }

  /** The event of a block is read from its first line that starts with `data: `, whatever stands before and after; a
      block without such a line has none. */
  lemma {:induction false} EventIsOfTheFirstDataLine(frame: string, parse: string -> Option<Event>, k: nat)
    requires k <= |Lines(frame)| && forall j: nat :: j < k ==> !("data: " <= Lines(frame)[j])
    ensures forall data :: k < |Lines(frame)| && Lines(frame)[k] == "data: " + data
              ==> EventOf(frame, parse) == parse(data)
    ensures k == |Lines(frame)| ==> EventOf(frame, parse) == None
  {
    FirstDataAt(Lines(frame), k);
    forall data | k < |Lines(frame)| && Lines(frame)[k] == "data: " + data ensures Lines(frame)[k][6..] == data {}
  }

  lemma {:induction false} FirstDataAt(lines: seq<string>, k: nat)
    requires k <= |lines| && forall j: nat :: j < k ==> !("data: " <= lines[j])
    ensures FirstData(lines)
         == if k < |lines| && "data: " <= lines[k] then Some(lines[k][6..]) else FirstData(lines[k..])
    ensures k == |lines| ==> FirstData(lines) == None
  {
    if k > 0 {
      FirstDataAt(lines[1..], k - 1);
      assert lines[1..][k - 1..] == lines[k..];
    } else {
      assert lines[0..] == lines;
    }
  }

  function Events(frames: seq<string>, parse: string -> Option<Event>): seq<Event> {
    if frames == [] then []
    else
      Events(frames[..|frames| - 1], parse)
      + match EventOf(frames[|frames| - 1], parse) case None => [] case Some(e) => [e]
  }

  predicate IsTerminal(e: Event) { !e.step.Other? }

  /** The events up to and including the first terminal one. */
  function Visible(events: seq<Event>): seq<Event> {
    if events == [] then [] else if IsTerminal(events[0]) then [events[0]] else [events[0]] + Visible(events[1..])
  }

  predicate HasTerminal(events: seq<Event>) { exists e :: e in events && IsTerminal(e) }

  /** What a run over the whole text `s` amounts to. */
  function Shown(s: string, parse: string -> Option<Event>): seq<Event> { Visible(Events(Drain(s).frames, parse)) }

  function Verdict(s: string, parse: string -> Option<Event>, broken: bool): Outcome {
    var shown := Shown(s, parse);
    if shown != [] && IsTerminal(shown[|shown| - 1])
    then if shown[|shown| - 1].step == Failed then DeployFailed else Live
    else if broken then Broken else Ended
  }

  lemma {:induction false} EventsAppend(a: seq<string>, b: seq<string>, parse: string -> Option<Event>)
    ensures Events(a + b, parse) == Events(a, parse) + Events(b, parse)
  {
    if b == [] {
      assert a + b == a;
    } else {
      assert (a + b)[..|a + b| - 1] == a + b[..|b| - 1];
      EventsAppend(a, b[..|b| - 1], parse);
    }
  }

  lemma TerminalFirst(a: seq<Event>)
    requires a != []
    ensures HasTerminal(a) <==> IsTerminal(a[0]) || HasTerminal(a[1..])
  {
    assert a == [a[0]] + a[1..];
  }

  lemma {:induction false} VisibleEnds(a: seq<Event>)
    ensures HasTerminal(a) <==> Visible(a) != [] && IsTerminal(Visible(a)[|Visible(a)| - 1])
  {
    if a != [] {
      TerminalFirst(a);
      VisibleEnds(a[1..]);
    }
  }

  lemma HeadAndTail(a: seq<Event>, b: seq<Event>)
    requires a != []
    ensures (a + b)[0] == a[0] && (a + b)[1..] == a[1..] + b && a + b == [a[0]] + (a[1..] + b)
  {
  }

  lemma {:induction false} VisibleAppend(a: seq<Event>, b: seq<Event>)
    ensures Visible(a + b) == if HasTerminal(a) then Visible(a) else a + Visible(b)
  {
    if a == [] {
      assert a + b == b;
    } else {
      TerminalFirst(a);
      HeadAndTail(a, b);
      HeadAndTail(a, Visible(b));
      VisibleAppend(a[1..], b);
    }
  }

  // ---- What the server writes is what the client reads ----

  /** The server's blocks (crates/api/src/routes/deployments.rs:777-798): one data line each, or a keep-alive. */
  datatype Block = Data(text: string) | KeepAlive

  function PrintBlock(block: Block): string {
    match block case Data(text) => "data: " + text case KeepAlive => ":"
  }

  function PrintBlocks(blocks: seq<Block>): seq<string> {
    seq(|blocks|, i requires 0 <= i < |blocks| => PrintBlock(blocks[i]))
  }

  /** JSON text has no line breaks: serialisation escapes them. */
  predicate OnOneLine(block: Block) { block.Data? ==> '\n' !in block.text && '\r' !in block.text }

  function Messages(blocks: seq<Block>, parse: string -> Option<Event>): seq<Event> {
    if blocks == [] then []
    else
      var last := blocks[|blocks| - 1];
      Messages(blocks[..|blocks| - 1], parse)
      + if last.Data? && parse(last.text).Some? then [parse(last.text).value] else []
  }

  lemma OneLineFrame(f: string)
    requires f != "" && '\n' !in f && '\r' !in f
    ensures IsFrame(f) && Lines(f) == [f] && FindBlank(f) == None
  {
    FirstLineLength(f, []);
    assert f + [] == f && f[..|f|] == f;
    assert f[|f| - 1] in f;
    forall j: nat | j < |f| ensures (f + "\n\n")[j] != '\n' { assert (f + "\n\n")[j] == f[j] && f[j] in f; }
  }

  lemma BlockReadsBack(block: Block, parse: string -> Option<Event>)
    requires OnOneLine(block)
    ensures IsFrame(PrintBlock(block))
    ensures EventOf(PrintBlock(block), parse) == match block case Data(text) => parse(text) case KeepAlive => None
  {
    var f := PrintBlock(block);
    var lines: seq<string> := [f];
    OneLineFrame(f);
    assert |lines[1..]| == 0;
    match block
    case Data(text) =>
      assert f[6..] == text;
      assert FirstData(lines) == Some(text);
    case KeepAlive =>
      assert |f| == 1;
      assert FirstData(lines) == None;
  }

  lemma {:induction false} BlocksReadBack(blocks: seq<Block>, parse: string -> Option<Event>)
    requires forall b :: b in blocks ==> OnOneLine(b)
    ensures Events(PrintBlocks(blocks), parse) == Messages(blocks, parse)
    decreases |blocks|
  {
    if blocks != [] {
      var n := |blocks| - 1;
      assert PrintBlocks(blocks)[..n] == PrintBlocks(blocks[..n]);
      assert blocks[n] in blocks;
      BlocksReadBack(blocks[..n], parse);
      BlockReadsBack(blocks[n], parse);
    }
  }

  /** Whatever blocks the server writes, keep-alives included, draining the stream yields exactly its messages, in
      order and once each, and leaves nothing behind. */
  lemma ServerMessagesAreRead(blocks: seq<Block>, parse: string -> Option<Event>)
    requires forall b :: b in blocks ==> OnOneLine(b)
    ensures Drain(Glue(PrintBlocks(blocks))) == Cut(PrintBlocks(blocks), "")
    ensures Shown(Glue(PrintBlocks(blocks)), parse) == Visible(Messages(blocks, parse))
  {
    var frames := PrintBlocks(blocks);
    forall f | f in frames ensures IsFrame(f) {
      var i :| 0 <= i < |frames| && frames[i] == f;
      assert blocks[i] in blocks;
      BlockReadsBack(blocks[i], parse);
    }
    assert Glue(frames) + "" == Glue(frames);
    LeftmostSplitIsUnique(Glue(frames), frames, "");
    BlocksReadBack(blocks, parse);
  }

  /** Once a prefix of the text shows a terminal step, the rest of the text does not matter. */
  lemma PrefixDecides(a: string, b: string, parse: string -> Option<Event>)
    requires HasTerminal(Events(Drain(a).frames, parse))
    ensures Shown(a + b, parse) == Shown(a, parse) && HasTerminal(Events(Drain(a + b).frames, parse))
  {
    DrainAppend(a, b);
    var early, late := Drain(a).frames, Drain(Drain(a).rest + b).frames;
    EventsAppend(early, late, parse);
    VisibleAppend(Events(early, parse), Events(late, parse));
  }

  function EventsIn(s: string, parse: string -> Option<Event>): seq<Event> { Events(Drain(s).frames, parse) }

  /** The buffer outgrows the limit at chunk `k`, before any terminal step. */
  ghost predicate OverflowsAt(chunks: seq<string>, k: nat, limit: nat, parse: string -> Option<Event>)
    requires k < |chunks|
  {
    && !HasTerminal(EventsIn(Concat(chunks[..k]), parse))
    && |Drain(Concat(chunks[..k])).rest| + |chunks[k]| > limit
  }

  /** Some chunk before the `n`th makes the buffer outgrow the limit. */
  ghost predicate Overflows(chunks: seq<string>, n: nat, limit: nat, parse: string -> Option<Event>)
    requires n <= |chunks|
  {
    n > 0 && (Overflows(chunks, n - 1, limit, parse) || OverflowsAt(chunks, n - 1, limit, parse))
  }

  // ---- Which step ends the loop, and how ----

  /** The first running, ready or failed step; all before it are progress. */
  ghost predicate EndsAt(events: seq<Event>, k: nat) {
    k < |events| && events[k].step in {Running, Ready, Failed} && forall j: nat :: j < k ==> events[j].step.Other?
  }

  ghost predicate OnlyProgress(events: seq<Event>) { forall k: nat :: k < |events| ==> events[k].step.Other? }

  lemma {:induction false} VisibleUpToTheEnd(events: seq<Event>, k: nat)
    requires EndsAt(events, k)
    ensures Visible(events) == events[..k + 1]
  {
    if k == 0 {
      assert events[..1] == [events[0]];
    } else {
      VisibleUpToTheEnd(events[1..], k - 1);
      assert events[..k + 1] == [events[0]] + events[1..][..k];
    }
  }

  lemma {:induction false} FindEnd(events: seq<Event>) returns (k: nat)
    ensures EndsAt(events, k) || (k == |events| && OnlyProgress(events))
  {
    k := 0;
    while k < |events| && events[k].step.Other?
      invariant k <= |events| && forall j: nat :: j < k ==> events[j].step.Other?
    {
      k := k + 1;
    }
  }

  lemma NoTerminalIff(events: seq<Event>)
    ensures !HasTerminal(events) <==> OnlyProgress(events)
  {
    if OnlyProgress(events) {
      forall e | e in events ensures !IsTerminal(e) { var k :| 0 <= k < |events| && events[k] == e; }
    } else {
      var k: nat :| k < |events| && !events[k].step.Other?;
      assert events[k] in events && IsTerminal(events[k]);
    }
  }

  /** The loop shows the events up to the first running, ready or failed step and ends there, as failed or as live; it
      shows all of them and ends with the stream exactly if every step is progress. */
  lemma OutcomeIff(s: string, parse: string -> Option<Event>, broken: bool)
    ensures var events, outcome := EventsIn(s, parse), Verdict(s, parse, broken);
            && (outcome == DeployFailed <==> exists k: nat :: EndsAt(events, k) && events[k].step == Failed)
            && (outcome == Live <==> exists k: nat :: EndsAt(events, k) && events[k].step in {Running, Ready})
            && (outcome == (if broken then Broken else Ended) <==> OnlyProgress(events))
            && (forall k: nat :: EndsAt(events, k) ==> Shown(s, parse) == events[..k + 1])
            && (OnlyProgress(events) ==> Shown(s, parse) == events)
  {
    var events := EventsIn(s, parse);
    var k := FindEnd(events);
    if EndsAt(events, k) {
      VisibleUpToTheEnd(events, k);
      forall i: nat | EndsAt(events, i) ensures i == k {}
    } else {
      NoTerminalIff(events);
      NothingTerminal(events);
    }
  }

  /** All events so far are progress, and chunk `k`, added to the unfinished block before it, exceeds the limit. */
  ghost predicate ExceedsAt(chunks: seq<string>, k: nat, limit: nat, parse: string -> Option<Event>)
    requires k < |chunks|
  {
    var before := Concat(chunks[..k]);
    OnlyProgress(EventsIn(before, parse)) && |Drain(before).rest| + |chunks[k]| > limit
  }

  /** The buffer outgrows the limit exactly if some chunk does so. */
  lemma {:induction false} OverflowsIff(chunks: seq<string>, n: nat, limit: nat, parse: string -> Option<Event>)
    requires n <= |chunks|
    ensures Overflows(chunks, n, limit, parse)
            <==> exists k: nat :: k < n && ExceedsAt(chunks, k, limit, parse)
  {
    if n > 0 {
      OverflowsIff(chunks, n - 1, limit, parse);
      NoTerminalIff(EventsIn(Concat(chunks[..n - 1]), parse));
      assert ExceedsAt(chunks, n - 1, limit, parse) <==> OverflowsAt(chunks, n - 1, limit, parse);
    }
  }

  lemma OneMoreChunk(chunks: seq<string>, k: nat, parse: string -> Option<Event>)
    requires k < |chunks|
    ensures var before, now := Concat(chunks[..k]), Concat(chunks[..k + 1]);
            var buf := Drain(before).rest + chunks[k];
            && EventsIn(now, parse) == EventsIn(before, parse) + EventsIn(buf, parse)
            && Drain(now).rest == Drain(buf).rest
  {
    assert chunks[..k + 1][..k] == chunks[..k];
    DrainAppend(Concat(chunks[..k]), chunks[k]);
    var buf := Drain(Concat(chunks[..k])).rest + chunks[k];
    EventsAppend(Drain(Concat(chunks[..k])).frames, Drain(buf).frames, parse);
  }

  /** A terminal step in `more` decides the whole text, of which chunks up to `k` showed only `shown` before. */
  lemma TerminalDecides(chunks: seq<string>, k: nat, shown: seq<Event>, more: seq<Event>, limit: nat,
                        parse: string -> Option<Event>, broken: bool)
    requires k < |chunks| && !HasTerminal(shown) && HasTerminal(more)
    requires EventsIn(Concat(chunks[..k + 1]), parse) == shown + more
    ensures Shown(Concat(chunks), parse) == shown + Visible(more)
    ensures Visible(more) != []
    ensures Verdict(Concat(chunks), parse, broken)
         == if Visible(more)[|Visible(more)| - 1].step == Failed then DeployFailed else Live
    ensures Overflows(chunks, |chunks|, limit, parse) == Overflows(chunks, k + 1, limit, parse)
  {
    ShownThenTerminal(shown, more);
    LaterChunksAreIrrelevant(chunks, k + 1, limit, parse);
  }

  lemma ShownThenTerminal(shown: seq<Event>, more: seq<Event>)
    requires !HasTerminal(shown) && HasTerminal(more)
    ensures HasTerminal(shown + more) && Visible(shown + more) == shown + Visible(more)
    ensures Visible(more) != [] && IsTerminal(Visible(more)[|Visible(more)| - 1])
  {
    VisibleAppend(shown, more);
    VisibleEnds(more);
    HasTerminalAppend(shown, more);
  }

  /** The inner loop on one buffer: take blocks until a terminal step or no blank line is left. */
  method DrainBuffer(input: string, parse: string -> Option<Event>)
    returns (shown: seq<Event>, rest: string, terminal: bool)
    ensures shown == Visible(Events(Drain(input).frames, parse))
    ensures terminal <==> HasTerminal(Events(Drain(input).frames, parse))
    ensures !terminal ==> rest == Drain(input).rest && shown == Events(Drain(input).frames, parse)
  {
    var buf := input;
    shown := [];
    ghost var done: seq<string> := [];
    while true
      invariant Drain(input) == Cut(done + Drain(buf).frames, Drain(buf).rest)
      invariant shown == Events(done, parse) && !HasTerminal(shown)
      decreases |buf|
    {
      var pos := FindBlank(buf);
      if pos.None? {
        VisibleAppend(shown, []);
        assert shown + [] == shown;
        assert done + [] == done;
        return shown, buf, false;
      }
      var raw := buf[..pos.value];
      ghost var later := Drain(buf[pos.value + 2..]).frames;
      assert done + [raw] + later == done + ([raw] + later);
      EventsAppend(done, [raw], parse);
      EventsAppend(done + [raw], later, parse);
      assert Events([raw], parse) == match EventOf(raw, parse) case None => [] case Some(e) => [e] by {
        assert Events([raw][..0], parse) == [];
      }
      buf := buf[pos.value + 2..];
      done := done + [raw];
      var event := EventOf(raw, parse);
      if event.Some? {
        ghost var before := shown;
        shown := shown + [event.value];
        if IsTerminal(event.value) {
          VisibleAppend(before, [event.value]);
          VisibleAppend(shown, Events(later, parse));
          assert event.value in shown;
          return shown, buf, true;
        }
      }
    }
  }

  /** The stream loop. Unless the buffer overflows, what is shown and how the loop ends depend on the whole text
      alone, hence not on how it was cut into chunks; and the buffer overflows exactly when some chunk, added to
      the unfinished block before it, exceeds the limit before a terminal step. */
  method Follow(chunks: seq<string>, broken: bool, limit: nat, parse: string -> Option<Event>)
    returns (shown: seq<Event>, outcome: Outcome)
    ensures outcome == TooLarge <==> Overflows(chunks, |chunks|, limit, parse)
    ensures outcome != TooLarge ==>
              shown == Shown(Concat(chunks), parse) && outcome == Verdict(Concat(chunks), parse, broken)
  {
    var buf := "";
    shown := [];
    assert Drain("") == Cut([], "");
    for k := 0 to |chunks|
      invariant buf == Drain(Concat(chunks[..k])).rest
      invariant shown == EventsIn(Concat(chunks[..k]), parse) && !HasTerminal(shown)
      invariant !Overflows(chunks, k, limit, parse)
    {
      buf := buf + chunks[k];
      if |buf| > limit {
        assert OverflowsAt(chunks, k, limit, parse);
        OverflowStays(chunks, k + 1, |chunks|, limit, parse);
        return shown, TooLarge;
      }
      assert !Overflows(chunks, k + 1, limit, parse);
      OneMoreChunk(chunks, k, parse);
      ghost var before, events := shown, EventsIn(buf, parse);
      var more, rest, terminal := DrainBuffer(buf, parse);
      shown := shown + more;
      buf := rest;
      if terminal {
        TerminalDecides(chunks, k, before, events, limit, parse, broken);
        outcome := if more[|more| - 1].step == Failed then DeployFailed else Live;
        return;
      }
      HasTerminalAppend(before, events);
    }
    assert chunks[..|chunks|] == chunks;
    StreamEnds(Concat(chunks), parse, broken);
    outcome := if broken then Broken else Ended;
  }

  lemma StreamEnds(s: string, parse: string -> Option<Event>, broken: bool)
    requires !HasTerminal(EventsIn(s, parse))
    ensures Shown(s, parse) == EventsIn(s, parse) && Verdict(s, parse, broken) == if broken then Broken else Ended
  {
    NothingTerminal(EventsIn(s, parse));
  }

  lemma NothingTerminal(events: seq<Event>)
    requires !HasTerminal(events)
    ensures Visible(events) == events && (events == [] || !IsTerminal(events[|events| - 1]))
  {
    VisibleAppend(events, []);
    assert events + [] == events;
    if events != [] { assert events[|events| - 1] in events; }
  }

  lemma HasTerminalAppend(a: seq<Event>, b: seq<Event>)
    ensures HasTerminal(a + b) <==> HasTerminal(a) || HasTerminal(b)
  {
    if HasTerminal(a) { var e :| e in a && IsTerminal(e); assert e in a + b; }
    if HasTerminal(b) { var e :| e in b && IsTerminal(e); assert e in a + b; }
  }

  lemma {:induction false} ConcatSplit(chunks: seq<string>, k: nat)
    requires k <= |chunks|
    ensures Concat(chunks) == Concat(chunks[..k]) + Concat(chunks[k..])
  {
    if k == |chunks| {
      assert chunks[..k] == chunks;
    } else {
      var init := chunks[..|chunks| - 1];
      ConcatSplit(init, k);
      assert init[..k] == chunks[..k] && init[k..] == chunks[k..][..|chunks| - 1 - k];
    }
  }

  lemma LaterChunks(chunks: seq<string>, n: nat, j: nat, parse: string -> Option<Event>)
    requires n <= j <= |chunks| && HasTerminal(EventsIn(Concat(chunks[..n]), parse))
    ensures Shown(Concat(chunks[..j]), parse) == Shown(Concat(chunks[..n]), parse)
    ensures HasTerminal(EventsIn(Concat(chunks[..j]), parse))
  {
    ConcatSplit(chunks[..j], n);
    assert chunks[..j][..n] == chunks[..n];
    PrefixDecides(Concat(chunks[..n]), Concat(chunks[..j][n..]), parse);
  }

  lemma {:induction false} OverflowStays(chunks: seq<string>, n: nat, m: nat, limit: nat,
                                        parse: string -> Option<Event>)
    requires n <= m <= |chunks| && Overflows(chunks, n, limit, parse)
    ensures Overflows(chunks, m, limit, parse)
  {
    if n < m { OverflowStays(chunks, n, m - 1, limit, parse); }
  }

  lemma {:induction false} OverflowsBefore(chunks: seq<string>, n: nat, m: nat, limit: nat,
                                          parse: string -> Option<Event>)
    requires n <= m <= |chunks| && forall k: nat :: n <= k < m ==> !OverflowsAt(chunks, k, limit, parse)
    ensures Overflows(chunks, m, limit, parse) == Overflows(chunks, n, limit, parse)
    decreases m
  {
    if n < m {
      OverflowsBefore(chunks, n, m - 1, limit, parse);
      assert !OverflowsAt(chunks, m - 1, limit, parse);
    }
  }

  lemma NoOverflowAfterTerminal(chunks: seq<string>, n: nat, m: nat, limit: nat, parse: string -> Option<Event>)
    requires n <= m <= |chunks| && HasTerminal(EventsIn(Concat(chunks[..n]), parse))
    ensures Overflows(chunks, m, limit, parse) == Overflows(chunks, n, limit, parse)
  {
    forall k: nat | n <= k < m ensures !OverflowsAt(chunks, k, limit, parse) { LaterChunks(chunks, n, k, parse); }
    OverflowsBefore(chunks, n, m, limit, parse);
  }

  lemma LaterChunksAreIrrelevant(chunks: seq<string>, n: nat, limit: nat, parse: string -> Option<Event>)
    requires n <= |chunks| && HasTerminal(EventsIn(Concat(chunks[..n]), parse))
    ensures Shown(Concat(chunks), parse) == Shown(Concat(chunks[..n]), parse)
    ensures Overflows(chunks, |chunks|, limit, parse) == Overflows(chunks, n, limit, parse)
  {
    LaterChunks(chunks, n, |chunks|, parse);
    assert chunks[..|chunks|] == chunks;
    NoOverflowAfterTerminal(chunks, n, |chunks|, limit, parse);
  }
}
