/** The client's line reader and its wait for the prompt (client.c). */
module LineClient {
  import opened LineStream

  datatype Option<T> = None | Some(value: T)

  lemma Advance(p: string, out: string, c: char, before: string, after: string)
    requires p == out + before && before == [c] + after
    ensures p == (out + [c]) + after && |out| < |p| && p[..|out|] == out && p[|out|] == c && p[|out| + 1..] == after
  {
  }

  lemma EmptyFree()
    ensures NewlineFree("")
  {
  }

  lemma AppendFree(s: string, c: char)
    requires NewlineFree(s) && c != '\n'
    ensures NewlineFree(s + [c])
  {
  }

  class Client {
    const buffer: array<char>      // read_buffer
    var pos: nat                   // read_buffer_pos
    var len: int                   // read_buffer_len, as recv returned it
    var incoming: seq<Event>       // what recv will deliver
    var prompt: Option<string>

    ghost predicate Valid()
      reads this, buffer
    {
      buffer.Length == BUF_SIZE && len <= BUF_SIZE && Deliverable(incoming)
    }

    /** The bytes read_line has yet to return before the stream next stops. */
    ghost function Pending(): (p: string)
      reads this, buffer
      requires Valid()
    {
      (if pos < len then buffer[pos..len] else "") + Segment(incoming)
    }

    constructor (events: seq<Event>)
      requires Deliverable(events)
      ensures Valid() && Pending() == Segment(events) && incoming == events && prompt == None && fresh(buffer)
    {
      buffer := new char[BUF_SIZE](_ => '\0');
      pos, len := 0, 0;
      incoming := events;
      prompt := None;
    }

    /** recv into the buffer. */
    method Receive()
      requires Valid()
      modifies this`pos, this`len, this`incoming, buffer
      ensures Valid() && pos == 0
      ensures old(incoming) == [] || old(incoming)[0].Stop? ==>
                len <= 0 && incoming == AfterStop(old(incoming)) && old(Segment(incoming)) == ""
      ensures old(incoming) != [] && old(incoming)[0].Data? ==>
                && 0 < len <= buffer.Length && incoming == old(incoming)[1..]
                && buffer[..len] == old(incoming)[0].bytes
    {
      if incoming == [] {
        len := 0;
      } else if incoming[0].Stop? {
        len := -1;
        incoming := incoming[1..];
      } else {
        var bytes := incoming[0].bytes;
        assert incoming[0] in incoming;
        var i: nat := 0;
        while i < |bytes|
          invariant i <= |bytes| <= buffer.Length && buffer[..i] == bytes[..i]
          invariant incoming == old(incoming)
        {
          buffer[i] := bytes[i];
          i := i + 1;
        }
        len := |bytes|;
        incoming := incoming[1..];
      }
      pos := 0;
    }

    /** Makes sure that a byte is buffered, unless the stream stops. */
    method Refill() returns (ok: bool)
      requires Valid()
      modifies this`pos, this`len, this`incoming, buffer
      ensures Valid() && (ok <==> pos < len) && Pending() == if ok then old(Pending()) else Segment(incoming)
      ensures if ok then AfterStop(incoming) == old(AfterStop(incoming)) else incoming == old(AfterStop(incoming))
      ensures !ok ==> old(Pending()) == ""
    {
      if pos >= len {
        Receive();
        if len <= 0 {
          return false;
        }
        assert buffer[pos..len] == buffer[..len];
      }
      return true;
    }

    /** The next buffered byte. */
    method TakeByte() returns (c: char)
      requires Valid() && pos < len
      modifies this`pos
      ensures Valid() && old(Pending()) == [c] + Pending()
    {
      c := buffer[pos];
      assert buffer[pos..len] == [c] + buffer[pos + 1..len];
      pos := pos + 1;
    }

    /** read_line: the bytes up to the next newline, however they arrive; without one before
        the stream stops, nothing, and the bytes read so far are gone. */
    method ReadLine() returns (line: Option<string>)
      requires Valid()
      modifies this`pos, this`len, this`incoming, buffer
      ensures Valid()
      ensures var p, k := old(Pending()), FirstNewline(old(Pending()));
              if k < |p| then
                line == Some(p[..k]) && Pending() == p[k + 1..] && AfterStop(incoming) == old(AfterStop(incoming))
              else
                line == None && incoming == old(AfterStop(incoming)) && Pending() == Segment(incoming)
    {
      hide AfterStop, Segment, Deliverable, FirstNewline, Pending, Valid, NewlineFree;
      assert NewlineFree("") by { EmptyFree(); }
      ghost var p := Pending();
      var out: string := "";
      while true
        invariant Valid() && NewlineFree(out)
        invariant p == out + Pending()
        invariant AfterStop(incoming) == old(AfterStop(incoming))
        decreases |Pending()|
      {
        ghost var pending := Pending();
        var ok := Refill();
        if !ok {
          assert p[..|p|] == out;
          FirstNewlineIs(p, |p|);
          return None;
        }
        var c := TakeByte();
        Advance(p, out, c, pending, Pending());
        if c == '\n' {
          FirstNewlineIs(p, |out|);
          return Some(out);
        }
        AppendFree(out, c);
        out := out + [c];
      }
    }

    /** handle_server_line. The line printed, if any, is returned as well. */
    method HandleServerLine() returns (status: nat, printed: seq<string>)
      requires Valid()
      modifies this, buffer
      ensures Valid()
      ensures var ls := Lines(old(Pending()));
              if ls == [] then status == 1 && printed == [] && prompt == None && incoming == old(AfterStop(incoming))
              else
                && Lines(Pending()) == ls[1..] && Fragment(Pending()) == Fragment(old(Pending()))
                && AfterStop(incoming) == old(AfterStop(incoming))
                && if |ls[0]| > 0 && ls[0][|ls[0]| - 1] == '>' then status == 2 && printed == [] && prompt == Some(ls[0])
                   else if ls[0] == "BYE" then status == 1 && printed == ["BYE"] && prompt == None
                   else status == 0 && printed == [ls[0]] && prompt == old(prompt)
    {
      var line := ReadLine();
      if line == None {
        prompt := None;
        return 1, [];
      }
      if IsPrompt(line.value) {
        prompt := line;
        return 2, [];
      }
      printed := [line.value];
      if line.value == "BYE" {
        prompt := None;
        return 1, printed;
      }
      return 0, printed;
    }

    /** The loop that reads the answer to a command: it shows the lines of the answer and ends
        at the prompt, at BYE, when the server is gone, or when client_running is found lowered,
        after `turns` lines. */
    method AwaitPrompt(turns: nat) returns (status: Status, shown: seq<string>)
      requires Valid()
      modifies this, buffer
      ensures Valid()
      ensures var a := AwaitFor(Lines(old(Pending())), turns);
              && shown == a.shown && status == a.status
              && prompt == (if status.Interrupted? then old(prompt) else if status.Prompt? then Some(status.text) else None)
              && (!status.Disconnected? ==> Lines(Pending()) == a.later && Fragment(Pending()) == Fragment(old(Pending())))
    {
      hide AwaitFor, Lines, Fragment, Pending, Valid;
      ghost var ls, fragment := Lines(Pending()), Fragment(Pending());
      shown := [];
      var left := turns;
      while left > 0
        invariant Valid() && Fragment(Pending()) == fragment && prompt == old(prompt)
        invariant Continues(AwaitFor(ls, turns), shown, AwaitFor(Lines(Pending()), left))
      {
        ghost var before := Lines(Pending());
        var code, printed := HandleServerLine();
        AwaitForStep(AwaitFor(ls, turns), shown, before, left);
        if code == 1 {
          status := if printed == [] then Disconnected else Bye;
          shown := shown + printed;
          return;
        }
        if code == 2 {
          status := Prompt(prompt.value);
          return;
        }
        shown := shown + printed;
        left := left - 1;
      }
      AwaitForNone(AwaitFor(ls, turns), shown, Lines(Pending()));
      status := Interrupted;
    }
  }

  /** The whole answer is what has been shown followed by the answer in the lines to come. */
  ghost predicate Continues(whole: Answer, shown: seq<string>, rest: Answer) {
    whole == rest.(shown := shown + rest.shown)
  }

  lemma AwaitForStep(whole: Answer, shown: seq<string>, lines: seq<string>, left: nat)
    requires left > 0 && Continues(whole, shown, AwaitFor(lines, left))
    ensures lines == [] ==> whole == Answer(shown, Disconnected, [])
    ensures lines != [] && IsPrompt(lines[0]) ==> whole == Answer(shown, Prompt(lines[0]), lines[1..])
    ensures lines != [] && !IsPrompt(lines[0]) && lines[0] == "BYE" ==> whole == Answer(shown + ["BYE"], Bye, lines[1..])
    ensures lines != [] && !EndsAnswer(lines[0]) ==>
              Continues(whole, shown + [lines[0]], AwaitFor(lines[1..], left - 1))
  {
    hide IsPrompt;
    assert shown + [] == shown;
    if lines != [] && !EndsAnswer(lines[0]) {
      var rest := AwaitFor(lines[1..], left - 1);
      assert shown + ([lines[0]] + rest.shown) == (shown + [lines[0]]) + rest.shown;
    }
  }

  lemma AwaitForNone(whole: Answer, shown: seq<string>, lines: seq<string>)
    requires Continues(whole, shown, AwaitFor(lines, 0))
    ensures whole == Answer(shown, Interrupted, lines)
  {
    assert shown + [] == shown;
  }
}
