/** Newline-terminated lines in a byte stream that arrives in arbitrary pieces: the framing that
    client.c and server.c rely on. */
module LineStream {

  const BUF_SIZE: nat := 4096

  /** What one recv call delivers: between 1 and BUF_SIZE bytes, or end of stream or an error. */
  datatype Event = Data(bytes: string) | Stop

  predicate Deliverable(events: seq<Event>) {
    forall e :: e in events && e.Data? ==> 0 < |e.bytes| <= BUF_SIZE
  }

  /** The bytes that arrive before recv first returns 0 or less; nothing pending means it does. */
  function Segment(events: seq<Event>): (s: string) {
    if events == [] || events[0].Stop? then "" else events[0].bytes + Segment(events[1..])
  }

  /** What is still to come after that. */
  function AfterStop(events: seq<Event>): (r: seq<Event>)
    ensures |r| <= |events| && forall e :: e in r ==> e in events
  {
    if events == [] then [] else if events[0].Stop? then events[1..] else AfterStop(events[1..])
  }

  // ----- lines

  predicate NewlineFree(s: string) {
    '\n' !in s
  }

  function FirstNewline(p: string): (k: nat)
    ensures k <= |p| && NewlineFree(p[..k]) && (k < |p| ==> p[k] == '\n')
  {
    if p == "" || p[0] == '\n' then 0
    else
      var k := FirstNewline(p[1..]);
      assert p[..k + 1] == [p[0]] + p[1..][..k];
      k + 1
  }

  /** The complete lines of p, without their newlines. */
  function Lines(p: string): (ls: seq<string>)
    decreases |p|
  {
    var k := FirstNewline(p);
    if k == |p| then [] else [p[..k]] + Lines(p[k + 1..])
  }

  /** What follows the last newline. */
  function Fragment(p: string): (t: string)
    decreases |p|
  {
    var k := FirstNewline(p);
    if k == |p| then p else Fragment(p[k + 1..])
  }

  /** How a server puts lines on the wire. */
  function Wire(lines: seq<string>): (w: string) {
    if lines == [] then "" else lines[0] + "\n" + Wire(lines[1..])
  }

  predicate AllNewlineFree(lines: seq<string>) {
    forall i :: 0 <= i < |lines| ==> NewlineFree(lines[i])
  }

  predicate Framed(p: string, lines: seq<string>, tail: string) {
    AllNewlineFree(lines) && NewlineFree(tail) && p == Wire(lines) + tail
  }

  lemma FreeBelow(p: string, k: nat, i: nat)
    requires k <= |p| && NewlineFree(p[..k]) && i < k
    ensures p[i] != '\n'
  {
    assert p[..k][i] == p[i];
  }

  lemma FirstNewlineIs(p: string, k: nat)
    requires k <= |p| && NewlineFree(p[..k]) && (k < |p| ==> p[k] == '\n')
    ensures FirstNewline(p) == k
  {
    var j := FirstNewline(p);
    forall i | 0 <= i < k ensures p[i] != '\n' { FreeBelow(p, k, i); }
    forall i | 0 <= i < j ensures p[i] != '\n' { FreeBelow(p, j, i); }
  }

  lemma LinesNone(p: string)
    requires FirstNewline(p) == |p|
    ensures Lines(p) == [] && Fragment(p) == p && NewlineFree(p)
  {
    assert p[..|p|] == p;
    hide FirstNewline;
  }

  lemma LinesSome(p: string, k: nat)
    requires FirstNewline(p) == k < |p|
    ensures Lines(p) == [p[..k]] + Lines(p[k + 1..]) && Fragment(p) == Fragment(p[k + 1..]) && NewlineFree(p[..k])
  {
    hide FirstNewline, NewlineFree;
  }

  /** Every stream is its lines on the wire followed by its fragment. */
  lemma {:induction false} SplitFrames(p: string)
    ensures Framed(p, Lines(p), Fragment(p))
    decreases |p|
  {
    hide FirstNewline, Framed, NewlineFree, Lines, Fragment;
    var k := FirstNewline(p);
    if k == |p| {
      LinesNone(p);
      FramedNone(p);
    } else {
      LinesSome(p, k);
      var rest := p[k + 1..];
      SplitFrames(rest);
      FramedCons(p[..k], rest, Lines(rest), Fragment(rest));
      assert p == p[..k] + "\n" + rest;
    }
  }

  lemma FramedNone(p: string)
    requires NewlineFree(p)
    ensures Framed(p, [], p)
  {
    assert "" + p == p;
  }

  lemma FramedCons(line: string, rest: string, lines: seq<string>, tail: string)
    requires NewlineFree(line) && Framed(rest, lines, tail)
    ensures Framed(line + "\n" + rest, [line] + lines, tail)
  {
    assert ([line] + lines)[1..] == lines;
    assert line + "\n" + (Wire(lines) + tail) == (line + "\n" + Wire(lines)) + tail;
  }

  /** Lines and fragment are determined by the stream. So what arrives is read back as it was
      sent: sending and splitting are inverse. */
  lemma {:induction false} FramesSplit(p: string, lines: seq<string>, tail: string)
    requires Framed(p, lines, tail)
    ensures Lines(p) == lines && Fragment(p) == tail
    decreases |lines|
  {
    if lines == [] {
      assert p[..|p|] == tail;
      FirstNewlineIs(p, |p|);
    } else {
      var k := |lines[0]|;
      var rest := Wire(lines[1..]) + tail;
      assert p == lines[0] + "\n" + rest;
      assert p[..k] == lines[0] && p[k + 1..] == rest;
      FirstNewlineIs(p, k);
      FramesSplit(rest, lines[1..], tail);
    }
  }

  lemma Associative(x: string, y: string, z: string)
    ensures (x + y) + z == x + (y + z)
  {
  }

  lemma {:induction false} WireAppend(a: seq<string>, b: seq<string>)
    ensures Wire(a + b) == Wire(a) + Wire(b)
  {
    if a == [] {
      assert a + b == b;
    } else {
      WireAppend(a[1..], b);
      assert (a + b)[1..] == a[1..] + b && (a + b)[0] == a[0];
      Associative(a[0] + "\n", Wire(a[1..]), Wire(b));
    }
  }

  // ----- answers up to the prompt

  predicate IsPrompt(s: string) {
    |s| > 0 && s[|s| - 1] == '>'
  }

  predicate EndsAnswer(s: string) {
    IsPrompt(s) || s == "BYE"
  }

  datatype Status = Disconnected | Bye | Prompt(text: string) | Interrupted

  /** The lines shown, how the answer ended, and the lines left for later. */
  datatype Answer = Answer(shown: seq<string>, status: Status, later: seq<string>)

  function Await(lines: seq<string>): (a: Answer) {
    if lines == [] then Answer([], Disconnected, [])
    else if IsPrompt(lines[0]) then Answer([], Prompt(lines[0]), lines[1..])
    else if lines[0] == "BYE" then Answer(["BYE"], Bye, lines[1..])
    else var a := Await(lines[1..]); a.(shown := [lines[0]] + a.shown)
  }

  /** The same when client_running is found lowered after that many lines. */
  function AwaitFor(lines: seq<string>, turns: nat): (a: Answer)
    decreases turns
  {
    if turns == 0 then Answer([], Interrupted, lines)
    else if lines == [] then Answer([], Disconnected, [])
    else if IsPrompt(lines[0]) then Answer([], Prompt(lines[0]), lines[1..])
    else if lines[0] == "BYE" then Answer(["BYE"], Bye, lines[1..])
    else var a := AwaitFor(lines[1..], turns - 1); a.(shown := [lines[0]] + a.shown)
  }

  /** An interrupt only cuts the answer short: either it comes too late to matter, or exactly
      the lines handled so far are shown, none of which ends the answer, and the others stay. */
  lemma {:induction false} InterruptCuts(lines: seq<string>, turns: nat)
    ensures AwaitFor(lines, turns) != Await(lines) ==>
              && turns <= |lines| && AwaitFor(lines, turns) == Answer(lines[..turns], Interrupted, lines[turns..])
              && forall i :: 0 <= i < turns ==> !EndsAnswer(lines[i])
    ensures turns > |lines| ==> AwaitFor(lines, turns) == Await(lines)
    decreases turns
  {
    if turns > 0 && lines != [] && !EndsAnswer(lines[0]) {
      var rest := lines[1..];
      InterruptCuts(rest, turns - 1);
      if AwaitFor(rest, turns - 1) != Await(rest) {
        assert [lines[0]] + rest[..turns - 1] == lines[..turns] && rest[turns - 1..] == lines[turns..];
        assert forall i :: 0 < i < turns ==> lines[i] == rest[i - 1];
      }
    }
  }

  lemma {:induction false} AwaitEnds(lines: seq<string>, k: nat)
    requires k < |lines| && EndsAnswer(lines[k]) && forall i :: 0 <= i < k ==> !EndsAnswer(lines[i])
    ensures Await(lines) == if IsPrompt(lines[k]) then Answer(lines[..k], Prompt(lines[k]), lines[k + 1..])
                            else Answer(lines[..k + 1], Bye, lines[k + 1..])
    decreases k
  {
    hide IsPrompt;
    if k > 0 {
      var x, rest := lines[0], lines[1..];
      assert !EndsAnswer(x);
      AwaitEnds(rest, k - 1);
      assert [x] + rest[..k - 1] == lines[..k] && [x] + rest[..k] == lines[..k + 1] && rest[k..] == lines[k + 1..];
    }
  }

  /** The client ends an answer at the first line whose last character is '>' or that is BYE; the
      first is not shown but kept as the prompt, the second is shown. */
  lemma AwaitStops(lines: seq<string>, k: nat)
    requires k < |lines|
    requires forall i :: 0 <= i < k ==>
               lines[i] != "BYE" && (|lines[i]| > 0 ==> lines[i][|lines[i]| - 1] != '>')
    ensures |lines[k]| > 0 && lines[k][|lines[k]| - 1] == '>' ==>
              Await(lines) == Answer(lines[..k], Prompt(lines[k]), lines[k + 1..])
    ensures lines[k] == "BYE" ==> Await(lines) == Answer(lines[..k + 1], Bye, lines[k + 1..])
  {
    forall i | 0 <= i < k ensures !EndsAnswer(lines[i]) {
    }
    if EndsAnswer(lines[k]) {
      hide Await;
      AwaitEnds(lines, k);
    }
  }

  /** Without such a line everything is shown, and then the server is gone. */
  lemma {:induction false} AwaitShowsAll(lines: seq<string>)
    requires forall i :: 0 <= i < |lines| ==>
               lines[i] != "BYE" && (|lines[i]| > 0 ==> lines[i][|lines[i]| - 1] != '>')
    ensures Await(lines) == Answer(lines, Disconnected, [])
  {
    if lines != [] {
      AwaitShowsAll(lines[1..]);
      assert [lines[0]] + lines[1..] == lines;
    }
  }

  /** What is taken for the prompt is one of the lines, so it has no newline. */
  lemma {:induction false} PromptIsNewlineFree(lines: seq<string>)
    requires AllNewlineFree(lines) && Await(lines).status.Prompt?
    ensures NewlineFree(Await(lines).status.text)
  {
    hide IsPrompt, NewlineFree;
    if !IsPrompt(lines[0]) {
      PromptIsNewlineFree(lines[1..]);
    }
  }

  lemma {:induction false} FirstEnd(lines: seq<string>) returns (k: nat)
    ensures k <= |lines| && (k < |lines| ==> EndsAnswer(lines[k]))
    ensures forall i :: 0 <= i < k ==> !EndsAnswer(lines[i])
  {
    k := 0;
    while k < |lines| && !EndsAnswer(lines[k])
      invariant k <= |lines| && forall i :: 0 <= i < k ==> !EndsAnswer(lines[i])
    {
      k := k + 1;
    }
  }

  lemma AnswerRecovered(reply: seq<string>, cwd: string, later: seq<string>)
    ensures Await(reply + [cwd + ">"] + later) == Answer(reply, Prompt(cwd + ">"), later)
            <==> forall i :: 0 <= i < |reply| ==> !EndsAnswer(reply[i])
  {
    var lines := reply + [cwd + ">"] + later;
    var k := FirstEnd(reply);
    assert lines[k] == if k < |reply| then reply[k] else cwd + ">";
    assert IsPrompt(cwd + ">");
    hide Await, IsPrompt;
    AwaitEnds(lines, k);
    if k == |reply| {
      assert lines[..k] == reply && lines[k + 1..] == later;
    } else {
      assert |lines[k + 1..]| > |later|;
    }
  }

  /** A reply followed by the server's prompt reaches the user as it was sent, the prompt is
      taken for the prompt and later lines stay for later, exactly when no line of the reply
      has '>' as its last character or is BYE. */
  lemma AnswerRecoveredIff(reply: seq<string>, cwd: string, later: seq<string>)
    ensures Await(reply + [cwd + ">"] + later) == Answer(reply, Prompt(cwd + ">"), later)
            <==> forall i :: 0 <= i < |reply| ==>
                   reply[i] != "BYE" && (|reply[i]| > 0 ==> reply[i][|reply[i]| - 1] != '>')
  {
    AnswerRecovered(reply, cwd, later);
    hide Await;
    assert forall i :: 0 <= i < |reply| ==>
      (EndsAnswer(reply[i]) <==> reply[i] == "BYE" || (|reply[i]| > 0 && reply[i][|reply[i]| - 1] == '>'));
  }

  // ----- the stream behind the recv calls

  /** The bytes of the chunks, in order. */
  function Joined(chunks: seq<string>): (s: string) {
    if chunks == [] then "" else chunks[0] + Joined(chunks[1..])
  }

  /** Up to the first end of stream or error, recv delivers the chunks' bytes in order; after it,
      what was to come stays to come. Without one, everything is delivered. */
  lemma {:induction false} SegmentJoins(chunks: seq<string>, events: seq<Event>, rest: seq<Event>)
    requires |events| == |chunks| && forall i :: 0 <= i < |chunks| ==> events[i] == Data(chunks[i])
    ensures Segment(events + [Stop] + rest) == Joined(chunks) && AfterStop(events + [Stop] + rest) == rest
    ensures Segment(events) == Joined(chunks) && AfterStop(events) == []
  {
    if chunks == [] {
      assert (events + [Stop] + rest)[1..] == rest;
    } else {
      SegmentJoins(chunks[1..], events[1..], rest);
      assert (events + [Stop] + rest)[1..] == events[1..] + [Stop] + rest;
    }
  }
}
