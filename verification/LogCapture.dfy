/**
 * `CapturingWriter`, the stand-in for stdout in the GUI: text written to it is
 * buffered, every complete line that is not blank goes to the message queue as a
 * log message, and the unfinished last line stays in the buffer until a flush.
 */
module LogCapture {
  import opened PyStr

  /** A queued message: the dict `{"type": kind, "text": text}`. */
  datatype Message = Message(kind: string, text: string)

  /** The complete lines of `s`: the pieces that a newline ends. */
  function CompleteLines(s: string): (lines: seq<string>)
    ensures forall k :: 0 <= k < |lines| ==> '\n' !in lines[k]
  {
    var p := Split(s, '\n');
    p[..|p| - 1]
  }

  /** The text after the last newline of `s` (all of `s` when it has none). */
  function Tail(s: string): (t: string)
    ensures '\n' !in t
  {
    var p := Split(s, '\n');
    p[|p| - 1]
  }

  /** A text is its complete lines, each with its newline, and then its tail: nothing is lost. */
  lemma LinesThenTail(s: string)
    ensures Terminated(CompleteLines(s)) + Tail(s) == s
  {
    var p := Split(s, '\n');
    var lines, tail := p[..|p| - 1], p[|p| - 1];
    assert CompleteLines(s) == lines && Tail(s) == tail;
    JoinSplit(s, '\n');
    JoinAsTerminated(p);
    assert Terminated(lines) + tail == s;
  }

  /** Once the rest holds no newline, the pieces split off so far are the complete lines. */
  lemma LastPiece(s: string, done: seq<string>, rest: string)
    requires Split(s, '\n') == done + Split(rest, '\n')
    requires '\n' !in rest
    ensures CompleteLines(s) == done && Tail(s) == rest
    ensures s == Terminated(done) + rest
  {
    assert Split(s, '\n') == done + [rest];
    LinesThenTail(s);
  }

  /** `s.split('\n', 1)` when `s` holds a newline: the first line, and the rest split further. */
  lemma SplitAtFirst(s: string)
    requires '\n' in s
    ensures var i := IndexOfChar(s, '\n'); Split(s, '\n') == [s[..i]] + Split(s[i + 1..], '\n')
  {
  }

  /** Moving a split-off line from the rest onto the lines done so far keeps the whole. */
  lemma ShiftPiece(done: seq<string>, line: string, rest: seq<string>)
    ensures done + ([line] + rest) == (done + [line]) + rest
  {
  }

  /** The messages queued for `lines`: one log message per line that is not all whitespace. */
  function Queued(lines: seq<string>): (q: seq<Message>)
    ensures |q| <= |lines|
  {
    if lines == [] then []
    else
      var init, last := lines[..|lines| - 1], lines[|lines| - 1];
      assert lines == init + [last];
      Queued(init) + (if !AllSpace(last) then [Message("log", last)] else [])
  }

  /** One more line adds one message exactly when the line is not blank. */
  lemma QueuedSnoc(lines: seq<string>, line: string)
    ensures Queued(lines + [line]) == Queued(lines) + if !AllSpace(line) then [Message("log", line)] else []
  {
    assert (lines + [line])[..|lines|] == lines;
  }

  /** The queued messages are exactly the log messages of the lines that are not blank. */
  lemma {:induction false} QueuedMembers(lines: seq<string>)
    ensures forall m :: m in Queued(lines) <==> m.kind == "log" && m.text in lines && !AllSpace(m.text)
  {
    if lines != [] {
      var init, last := lines[..|lines| - 1], lines[|lines| - 1];
      QueuedMembers(init);
      assert lines == init + [last];
    }
  }

  /** Every line is queued, in order, when none of them is blank. */
  lemma {:induction false} QueuedWithoutBlanks(lines: seq<string>)
    requires forall k :: 0 <= k < |lines| ==> !AllSpace(lines[k])
    ensures |Queued(lines)| == |lines|
    ensures forall k :: 0 <= k < |lines| ==> Queued(lines)[k] == Message("log", lines[k])
  {
    if lines != [] {
      var init := lines[..|lines| - 1];
      QueuedWithoutBlanks(init);
      QueuedSnoc(init, lines[|lines| - 1]);
      assert lines == init + [lines[|lines| - 1]];
    }
  }

  class CapturingWriter {
    /** Text written since the last newline. */
    var buffer: string
    /**
     * The messages this writer has put on the GUI's message queue, oldest first. The
     * queue itself is shared with the frame and the worker thread; their messages are
     * not part of this model.
     */
    var messages: seq<Message>

    constructor()
      ensures buffer == "" && messages == []
    {
      buffer := "";
      messages := [];
    }

    /** `write`: buffer the text, then split off and queue the complete lines. */
    method Write(text: string)
      modifies this
      ensures buffer == Tail(old(buffer) + text)
      ensures messages == old(messages) + Queued(CompleteLines(old(buffer) + text))
      ensures '\n' !in buffer
      ensures old(buffer) + text == Terminated(CompleteLines(old(buffer) + text)) + buffer
    {
      ghost var s, m0 := buffer + text, messages;
      ghost var done: seq<string> := [];
      buffer := buffer + text;
      while '\n' in buffer
        invariant Split(s, '\n') == done + Split(buffer, '\n')
        invariant messages == m0 + Queued(done)
        decreases |buffer|
      {
        var line := TakeLine();
        QueuedSnoc(done, line);
        ShiftPiece(done, line, Split(buffer, '\n'));
        done := done + [line];
      }
      LastPiece(s, done, buffer);
    }

    /** One round of the loop in `write`: split off the first line and queue it unless it is blank. */
    method TakeLine() returns (line: string)
      requires '\n' in buffer
      modifies this
      ensures Split(old(buffer), '\n') == [line] + Split(buffer, '\n')
      ensures messages == old(messages) + if !AllSpace(line) then [Message("log", line)] else []
      ensures |buffer| < |old(buffer)|
    {
      var i := IndexOfChar(buffer, '\n');
      line := buffer[..i];
      SplitAtFirst(buffer);
      buffer := buffer[i + 1..];
      StripEmptyIffBlank(line);
      if Strip(line) != "" {
        messages := messages + [Message("log", line)];
      }
    }

    /** `flush`: queue whatever is buffered, even if it is only whitespace, and empty the buffer. */
    method Flush()
      modifies this
      ensures buffer == ""
      ensures messages == old(messages) + if old(buffer) != "" then [Message("log", old(buffer))] else []
    {
      if buffer != "" {
        messages := messages + [Message("log", buffer)];
        buffer := "";
      }
    }
  }
}
