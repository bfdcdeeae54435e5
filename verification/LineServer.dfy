/** The server's partial-send loop and the replies built from it (server.c). */
module LineServer {
  import opened LineStream

  class Peer {
    var wire: string           // the bytes the socket has accepted
    var outcomes: seq<int>     // what send will return; a positive value is an upper bound

    constructor (script: seq<int>)
      ensures wire == "" && outcomes == script
    {
      wire := "";
      outcomes := script;
    }

    /** One send call: it accepts some bytes, at least one and at most all, or fails. */
    method Send(s: string) returns (n: int)
      requires s != ""
      modifies this
      ensures n <= |s|
      ensures n <= 0 <==> old(outcomes) != [] && old(outcomes)[0] <= 0
      ensures wire == old(wire) + s[..if n > 0 then n else 0]
      ensures outcomes == if old(outcomes) == [] then [] else old(outcomes)[1..]
    {
      n := |s|;
      if outcomes != [] {
        n := if outcomes[0] < |s| then outcomes[0] else |s|;
        outcomes := outcomes[1..];
      }
      if n > 0 {
        wire := wire + s[..n];
      }
    }

    /** sendall: the bytes that go out are the first `sent` ones, and these are all of them
        exactly when no send call failed, however little each of them accepted. */
    method SendAll(s: string) returns (ghost sent: nat)
      modifies this
      ensures Suffix(outcomes, old(outcomes))
      ensures sent <= |s| && wire == old(wire) + s[..sent]
      ensures sent == |s| <==> AllPositive(Used(old(outcomes), outcomes))
    {
      var len, done: nat := |s|, 0;
      ghost var start := outcomes;
      while done < len
        invariant done <= len && wire == old(wire) + s[..done]
        invariant Suffix(outcomes, start) && AllPositive(Used(start, outcomes))
        decreases len - done
      {
        ghost var was := outcomes;
        var n := Send(s[done..]);
        UsedOne(start, was, outcomes);
        if n <= 0 {
          assert s[..done] + s[done..][..0] == s[..done];
          return done;
        }
        assert s[..done] + s[done..][..n] == s[..done + n];
        done := done + n;
      }
      return done;
    }

    /** handle_echo followed by the prompt: each of the four strings goes out up to where a send
        failed, and nobody notices; the argument and the prompt arrive as two lines exactly when
        no send failed. */
    method EchoAndPrompt(arg: string, cwd: string) returns (ghost cut: Cut)
      modifies this
      ensures Suffix(outcomes, old(outcomes))
      ensures cut.Fits(arg, cwd) && wire == old(wire) + cut.Bytes(arg, cwd)
      ensures cut.Full(arg, cwd) <==> AllPositive(Used(old(outcomes), outcomes))
      ensures cut.Full(arg, cwd) ==> wire == old(wire) + Wire([arg, cwd + ">"])
    {
      hide Suffix, Used, AllPositive, Wire;
      ghost var start := outcomes;
      ghost var a := SendAll(arg);
      ghost var second := outcomes;
      ghost var b := SendAll("\n");
      ghost var third := outcomes;
      UsedTrans(start, second, third);
      ghost var c: nat := 0;
      if cwd != "" {
        c := SendAll(cwd);
      } else {
        NoneUsed(third);
        assert wire + cwd[..0] == wire;
      }
      ghost var fourth := outcomes;
      UsedTrans(start, third, fourth);
      ghost var d := SendAll(">\n");
      UsedTrans(start, fourth, outcomes);
      cut := Cut(a, b, c, d);
      Regroup(old(wire), arg[..a], "\n"[..b], cwd[..c], ">\n"[..d]);
      if cut.Full(arg, cwd) {
        FullCut(cut, arg, cwd);
      }
    }
  }

  /** How many bytes of the argument, its newline, the directory and the prompt's end are out. */
  datatype Cut = Cut(a: nat, b: nat, c: nat, d: nat) {
    predicate Fits(arg: string, cwd: string) {
      a <= |arg| && b <= 1 && c <= |cwd| && d <= 2
    }

    predicate Full(arg: string, cwd: string) {
      a == |arg| && b == 1 && c == |cwd| && d == 2
    }

    function Bytes(arg: string, cwd: string): (s: string)
      requires Fits(arg, cwd)
    {
      arg[..a] + "\n"[..b] + cwd[..c] + ">\n"[..d]
    }
  }

  lemma Regroup(w: string, x: string, y: string, z: string, u: string)
    ensures (((w + x) + y) + z) + u == w + (x + y + z + u)
  {
  }

  lemma FullCut(cut: Cut, arg: string, cwd: string)
    requires cut.Full(arg, cwd)
    ensures cut.Bytes(arg, cwd) == Wire([arg, cwd + ">"])
  {
    EchoWire(arg, cwd);
    assert arg[..|arg|] == arg && cwd[..|cwd|] == cwd && "\n"[..1] == "\n" && ">\n"[..2] == ">\n";
  }

  predicate Suffix(rest: seq<int>, all: seq<int>) {
    |rest| <= |all| && rest == all[|all| - |rest|..]
  }

  /** The outcomes consumed between two points. */
  function Used(all: seq<int>, rest: seq<int>): (u: seq<int>)
    requires Suffix(rest, all)
  {
    all[..|all| - |rest|]
  }

  predicate AllPositive(u: seq<int>) {
    forall i :: 0 <= i < |u| ==> u[i] > 0
  }

  lemma NoneUsed(all: seq<int>)
    ensures Suffix(all, all) && AllPositive(Used(all, all))
  {
  }

  lemma UsedOne(all: seq<int>, was: seq<int>, rest: seq<int>)
    requires Suffix(was, all) && rest == if was == [] then [] else was[1..]
    ensures Suffix(rest, all)
    ensures AllPositive(Used(all, rest)) <==> AllPositive(Used(all, was)) && (was == [] || was[0] > 0)
  {
    if was != [] {
      assert Used(all, rest) == Used(all, was) + [was[0]];
    }
  }

  lemma UsedTrans(all: seq<int>, mid: seq<int>, rest: seq<int>)
    requires Suffix(mid, all) && Suffix(rest, mid)
    ensures Suffix(rest, all)
    ensures AllPositive(Used(all, rest)) <==> AllPositive(Used(all, mid)) && AllPositive(Used(mid, rest))
  {
    assert Used(all, rest) == Used(all, mid) + Used(mid, rest);
    var a, b := Used(all, mid), Used(mid, rest);
    if AllPositive(a + b) {
      assert forall i :: 0 <= i < |b| ==> b[i] == (a + b)[|a| + i];
    }
  }

  lemma EchoWire(arg: string, cwd: string)
    ensures Wire([arg, cwd + ">"]) == arg + "\n" + cwd + ">\n"
  {
    var ls := [arg, cwd + ">"];
    assert ls[1..] == [cwd + ">"];
    assert Wire([cwd + ">"]) == cwd + ">" + "\n" + "" by {
      assert [cwd + ">"][1..] == [];
    }
    assert ">" + "\n" == ">\n";
  }

  /** ECHO end to end: however the bytes were cut up on the way, the client shows the argument,
      takes the server's prompt for the prompt and keeps the later lines for later, exactly when
      the last character of the argument is not '>', the argument is not BYE, and the name of the
      working directory has no newline in it. */
  lemma EchoShownIff(events: seq<Event>, arg: string, cwd: string, rest: seq<string>)
    requires NewlineFree(arg) && AllNewlineFree(rest)
    requires Segment(events) == Wire([arg, cwd + ">"]) + Wire(rest)
    ensures Await(Lines(Segment(events))) == Answer([arg], Prompt(cwd + ">"), rest)
            <==> !(|arg| > 0 && arg[|arg| - 1] == '>') && arg != "BYE" && '\n' !in cwd
  {
    hide Await, Lines, IsPrompt;
    var p := Segment(events);
    if NewlineFree(cwd) {
      var ls := [arg, cwd + ">"] + rest;
      assert Framed(p, ls, "") by {
        WireAppend([arg, cwd + ">"], rest);
        assert Wire(ls) + "" == Wire(ls);
      }
      hide Framed, Wire;
      FramesSplit(p, ls, "");
      AnswerRecoveredIff([arg], cwd, rest);
      assert [arg] + [cwd + ">"] + rest == ls;
      assert [arg][0] == arg;
    } else {
      SplitFrames(p);
      LongerHasNewline(cwd);
      if Await(Lines(p)).status.Prompt? {
        PromptIsNewlineFree(Lines(p));
      }
    }
  }

  lemma LongerHasNewline(cwd: string)
    requires !NewlineFree(cwd)
    ensures !NewlineFree(cwd + ">")
  {
    var i :| 0 <= i < |cwd| && cwd[i] == '\n';
    assert (cwd + ">")[i] == '\n';
  }
}
