/** The log writer that turns a byte stream, cut anywhere, into one message per line. */
module LogFraming {
  import Text

  /** One line as messages: empty lines are skipped. */
  function Kept(line: string): seq<string> {
    if line == "" then [] else [line]
  }

  /** The complete lines of a stream, without their newlines and without empty ones. */
  function Frames(s: string): seq<string>
    decreases |s|
  {
    var i := Text.IndexOf(s, '\n');
    if i < 0 then [] else Kept(s[..i]) + Frames(s[i + 1..])
  }

  /** What follows the last newline. */
  function Remainder(s: string): string
    decreases |s|
  {
    var i := Text.IndexOf(s, '\n');
    if i < 0 then s else Remainder(s[i + 1..])
  }

  lemma FirstLine(line: string, tail: string)
    requires '\n' !in line
    ensures Frames(line + ['\n'] + tail) == Kept(line) + Frames(tail)
    ensures Remainder(line + ['\n'] + tail) == Remainder(tail)
  {
    var s := line + ['\n'] + tail;
    Text.IndexOfAt(line, '\n', tail);
    assert s[..|line|] == line && s[|line| + 1..] == tail;
  }

  lemma CutAtFirst(s: string)
    requires Text.IndexOf(s, '\n') >= 0
    ensures var i := Text.IndexOf(s, '\n'); s == s[..i] + ['\n'] + s[i + 1..] && '\n' !in s[..i]
  {
  }

  /** Frames and remainder, said without the scan: no frame is empty or holds a newline. */
  lemma {:induction false} FramesAreLines(s: string)
    ensures forall f :: f in Frames(s) ==> f != "" && '\n' !in f
    ensures '\n' !in Remainder(s)
    decreases |s|
  {
    var i := Text.IndexOf(s, '\n');
    if i >= 0 {
      CutAtFirst(s);
      FramesAreLines(s[i + 1..]);
      forall f | f in Frames(s) ensures f != "" && '\n' !in f {
        assert f in Kept(s[..i]) || f in Frames(s[i + 1..]);
      }
    }
  }

  function NonEmpty(parts: seq<string>): seq<string> {
    if parts == [] then [] else Kept(parts[0]) + NonEmpty(parts[1..])
  }

  /** The frames are the non-empty parts of the stream split at its newlines, in order, the last part kept back. */
  lemma {:induction false} FramesAreParts(s: string)
    ensures var parts := Text.Split(s, '\n');
            Frames(s) == NonEmpty(parts[..|parts| - 1]) && Remainder(s) == parts[|parts| - 1]
    decreases |s|
  {
    var i := Text.IndexOf(s, '\n');
    if i >= 0 {
      var rest := Text.Split(s[i + 1..], '\n');
      FramesAreParts(s[i + 1..]);
      assert ([s[..i]] + rest)[..|rest|] == [s[..i]] + rest[..|rest| - 1];
      assert ([s[..i]] + rest[..|rest| - 1])[1..] == rest[..|rest| - 1];
    }
  }

  lemma {:induction false} RemainderIsTail(s: string)
    ensures Remainder(s) == s[Text.LastIndexOf(s, '\n') + 1..]
    decreases |s|
  {
    var i := Text.IndexOf(s, '\n');
    if i >= 0 {
      CutAtFirst(s);
      RemainderIsTail(s[i + 1..]);
      LastIndexOfTail(s, s[..i], s[i + 1..]);
    } else {
      assert s[0..] == s;
    }
  }

  lemma LastIndexOfTail(s: string, a: string, tail: string)
    requires s == a + ['\n'] + tail
    ensures s[Text.LastIndexOf(s, '\n') + 1..] == tail[Text.LastIndexOf(tail, '\n') + 1..]
  {
    var j := Text.LastIndexOf(tail, '\n');
    if j < 0 {
      Text.LastIndexOfAt(a, '\n', tail);
    } else {
      var head, rest := a + ['\n'] + tail[..j], tail[j + 1..];
      assert s == head + ['\n'] + rest;
      Text.LastIndexOfAt(head, '\n', rest);
    }
  }

  /** Cutting a stream in two: the frames of the first part, then those of its remainder joined to the second. */
  lemma {:induction false} FramesSplit(a: string, b: string)
    ensures Frames(a + b) == Frames(a) + Frames(Remainder(a) + b)
    ensures Remainder(a + b) == Remainder(Remainder(a) + b)
    decreases |a|
  {
    var i := Text.IndexOf(a, '\n');
    if i >= 0 {
      var line, tail := a[..i], a[i + 1..];
      CutAtFirst(a);
      assert a + b == line + ['\n'] + (tail + b);
      FirstLine(line, tail + b);
      FirstLine(line, tail);
      FramesSplit(tail, b);
      Text.Associate(Kept(line), Frames(tail), Frames(Remainder(tail) + b));
    }
  }

  /** Consuming the first line of the buffer moves it from what is to come to what is done. */
  lemma OneLine(whole: seq<string>, done: seq<string>, buf: string)
    requires whole == done + Frames(buf) && Text.IndexOf(buf, '\n') >= 0
    ensures var i := Text.IndexOf(buf, '\n');
            var line, tail := buf[..i], buf[i + 1..];
            && whole == done + Kept(line) + Frames(tail) && Remainder(buf) == Remainder(tail)
            && whole[..|done|] == done
            && (line != "" ==> whole[..|done| + 1] == done + [line])
  {
    var i := Text.IndexOf(buf, '\n');
    CutAtFirst(buf);
    FirstLine(buf[..i], buf[i + 1..]);
    Text.Associate(done, Kept(buf[..i]), Frames(buf[i + 1..]));
  }

  class LogWriter {
    var buf: string
    var sent: seq<string>

    constructor ()
      ensures buf == "" && sent == []
    {
      buf, sent := "", [];
    }

    /** Write: `accepts` is how many more messages the connection takes before it fails. */
    method Write(p: string, accepts: nat) returns (n: nat, ok: bool)
      modifies this
      ensures n == if ok then |p| else 0
      ensures ok <==> |Frames(old(buf) + p)| <= accepts
      ensures ok ==> sent == old(sent) + Frames(old(buf) + p) && buf == Remainder(old(buf) + p)
      ensures !ok ==> sent == old(sent) + Frames(old(buf) + p)[..accepts]
                      && Frames(old(buf) + p) == Frames(old(buf) + p)[..accepts + 1] + Frames(buf)
                      && Remainder(buf) == Remainder(old(buf) + p)
    {
      buf := buf + p;
      ghost var whole := Frames(buf);
      ghost var done: seq<string> := [];
      var left := accepts;
      var i := Text.IndexOf(buf, '\n');
      while i >= 0
        invariant i == Text.IndexOf(buf, '\n')
        invariant sent == old(sent) + done && |done| + left == accepts
        invariant whole == done + Frames(buf) && Remainder(old(buf) + p) == Remainder(buf)
        decreases |buf|
      {
        var line := buf[..i];
        OneLine(whole, done, buf);
        buf := buf[i + 1..];
        if |line| > 0 {
          if left == 0 {
            return 0, false;
          }
          left := left - 1;
          sent := sent + [line];
          Text.Associate(old(sent), done, [line]);
        }
        done := done + Kept(line);
        i := Text.IndexOf(buf, '\n');
      }
      return |p|, true;
    }
  }

  function Joined(chunks: seq<string>): string {
    if chunks == [] then "" else Joined(chunks[..|chunks| - 1]) + chunks[|chunks| - 1]
  }

  /**
   However a stream is cut into successful writes, the messages sent are its non-empty complete lines in order and
   the buffer holds what follows the last newline.
   */
  method WriteAll(writer: LogWriter, chunks: seq<string>)
    requires writer.buf == "" && writer.sent == []
    modifies writer
    ensures writer.sent == Frames(Joined(chunks)) && writer.buf == Remainder(Joined(chunks))
  {
    assert chunks[..0] == [];
    for i := 0 to |chunks|
      invariant Writer(writer.sent, writer.buf) == Written(chunks[..i])
    {
      assert chunks[..i + 1][..i] == chunks[..i];
      var n, ok := writer.Write(chunks[i], |Frames(writer.buf + chunks[i])|);
    }
    assert chunks[..|chunks|] == chunks;
    ChunkingIrrelevant(chunks);
  }

  datatype Writer = Writer(sent: seq<string>, buf: string)

  /** The writer's state after these successful writes. */
  function Written(chunks: seq<string>): Writer {
    if chunks == [] then Writer([], "")
    else
      var w, c := Written(chunks[..|chunks| - 1]), chunks[|chunks| - 1];
      Writer(w.sent + Frames(w.buf + c), Remainder(w.buf + c))
  }

  /** The state depends on the bytes written, not on how they were cut. */
  lemma {:induction false} ChunkingIrrelevant(chunks: seq<string>)
    ensures Written(chunks) == Writer(Frames(Joined(chunks)), Remainder(Joined(chunks)))
  {
    if chunks != [] {
      ChunkingIrrelevant(chunks[..|chunks| - 1]);
      FramesSplit(Joined(chunks[..|chunks| - 1]), chunks[|chunks| - 1]);
    }
  }
}
