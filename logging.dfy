/** The line-buffered redirect of a text stream into a logger: every complete
    line written is sent to the logger at one fixed level, and a partial
    line waits in `linebuf` for the rest of it or for `Flush`. */
module Logging {
  import opened PyStr

  /** The level number of `logging.INFO`, the redirect's default level. */
  const INFO: int := 20

  /** One call `logger.log(level, msg)`. */
  datatype LogRecord = LogRecord(level: int, msg: string)

  /** The logger the stream writes to, reduced to the sequence of calls it received. */
  class Logger {
    var records: seq<LogRecord>

    constructor ()
      ensures records == []
    {
      records := [];
    }

    method Log(level: int, msg: string)
      modifies this
      ensures records == old(records) + [LogRecord(level, msg)]
    {
      records := records + [LogRecord(level, msg)];
    }
  }

  /** The test `line[-1] == "\n"` that decides between emitting and buffering. */
  predicate EndsWithNewline(line: string) {
    |line| > 0 && line[|line| - 1] == '\n'
  }

  /** The segments that are emitted, in order. */
  function TerminatedLines(lines: seq<string>): seq<string> {
    if lines == [] then []
    else (if EndsWithNewline(lines[0]) then [lines[0]] else []) + TerminatedLines(lines[1..])
  }

  /** What is put back into the line buffer: the other segments, concatenated in order. */
  function Leftover(lines: seq<string>): string {
    if lines == [] then ""
    else (if EndsWithNewline(lines[0]) then "" else lines[0]) + Leftover(lines[1..])
  }

  /** The log calls made for `lines`: each emitted segment, right-stripped, at `level`. */
  function Messages(level: int, lines: seq<string>): seq<LogRecord> {
    var t := TerminatedLines(lines);
    seq(|t|, i requires 0 <= i < |t| => LogRecord(level, RStrip(t[i])))
  }

  class StreamToLogger {
    const logger: Logger
    const logLevel: int
    var linebuf: string

    /** The buffer never holds a complete line. */
    ghost predicate Valid()
      reads this
    {
      '\n' !in linebuf
    }

    constructor (logger: Logger, logLevel: int)
      ensures this.logger == logger && this.logLevel == logLevel
      ensures linebuf == "" && Valid()
    {
      this.logger := logger;
      this.logLevel := logLevel;
      linebuf := "";
    }

    /** The constructor called without a level. */
    constructor WithDefaultLevel(logger: Logger)
      ensures this.logger == logger && logLevel == INFO
      ensures linebuf == "" && Valid()
    {
      this.logger := logger;
      logLevel := INFO;
      linebuf := "";
    }

    method Write(buf: string)
      modifies this, logger
      ensures linebuf == Leftover(SplitLines(old(linebuf) + buf))
      ensures logger.records == old(logger.records) + Messages(logLevel, SplitLines(old(linebuf) + buf))
      ensures Valid()
    {
      var tempLinebuf := linebuf + buf;
      linebuf := "";
      var lines := SplitLines(tempLinebuf);
      for i := 0 to |lines|
        invariant linebuf == Leftover(lines[..i])
        invariant logger.records == old(logger.records) + Messages(logLevel, lines[..i])
      {
        var line := lines[i];
        assert lines[..i + 1] == lines[..i] + [line];
        LeftoverSnoc(lines[..i], line);
        MessagesSnoc(logLevel, lines[..i], line);
        if line[|line| - 1] == '\n' {
          logger.Log(logLevel, RStrip(line));
        } else {
          linebuf := linebuf + line;
        }
      }
      assert lines[..|lines|] == lines;
      LeftoverHasNoNewline(lines);
    }

    method Flush()
      modifies this, logger
      ensures linebuf == ""
      ensures logger.records == old(logger.records) + if old(linebuf) != "" then [LogRecord(logLevel, RStrip(old(linebuf)))] else []
    {
      if linebuf != "" {
        logger.Log(logLevel, RStrip(linebuf));
      }
      linebuf := "";
    }
  }

  lemma {:induction false} LeftoverSnoc(lines: seq<string>, line: string)
    ensures Leftover(lines + [line]) == Leftover(lines) + if EndsWithNewline(line) then "" else line
  {
    var tail: string := if EndsWithNewline(line) then "" else line;
    if lines == [] {
      assert lines + [line] == [line];
      assert Leftover([line][1..]) == "";
    } else {
      var head: string := if EndsWithNewline(lines[0]) then "" else lines[0];
      assert (lines + [line])[0] == lines[0];
      assert (lines + [line])[1..] == lines[1..] + [line];
      LeftoverSnoc(lines[1..], line);
      calc {
        Leftover(lines + [line]);
        head + Leftover(lines[1..] + [line]);
        head + (Leftover(lines[1..]) + tail);
        (head + Leftover(lines[1..])) + tail;
        Leftover(lines) + tail;
      }
    }
  }

  lemma {:induction false} TerminatedSnoc(lines: seq<string>, line: string)
    ensures TerminatedLines(lines + [line]) == TerminatedLines(lines) + if EndsWithNewline(line) then [line] else []
  {
    var tail: seq<string> := if EndsWithNewline(line) then [line] else [];
    if lines == [] {
      assert lines + [line] == [line];
      assert TerminatedLines([line][1..]) == [];
    } else {
      var head: seq<string> := if EndsWithNewline(lines[0]) then [lines[0]] else [];
      assert (lines + [line])[0] == lines[0];
      assert (lines + [line])[1..] == lines[1..] + [line];
      TerminatedSnoc(lines[1..], line);
      calc {
        TerminatedLines(lines + [line]);
        head + TerminatedLines(lines[1..] + [line]);
        head + (TerminatedLines(lines[1..]) + tail);
        (head + TerminatedLines(lines[1..])) + tail;
        TerminatedLines(lines) + tail;
      }
    }
  }

  lemma MessagesSnoc(level: int, lines: seq<string>, line: string)
    ensures Messages(level, lines + [line]) == Messages(level, lines) + if EndsWithNewline(line) then [LogRecord(level, RStrip(line))] else []
  {
    TerminatedSnoc(lines, line);
  }

  /** After any write the buffer holds no `'\n'`: a segment holding one ends
      with it, so it is emitted rather than kept. */
  lemma {:induction false} LeftoverHasNoNewline(lines: seq<string>)
    requires forall j :: 0 <= j < |lines| ==> BoundaryOnlyAtEnd(lines[j])
    ensures '\n' !in Leftover(lines)
  {
    if lines != [] {
      if '\n' in lines[0] {
        NewlineEndsSegment(lines[0]);
      }
      LeftoverHasNoNewline(lines[1..]);
    }
  }

  /** A text without `'\n'` is buffered whole and nothing is logged. */
  lemma {:induction false} NoNewlineAllBuffered(lines: seq<string>)
    requires '\n' !in Concat(lines)
    ensures TerminatedLines(lines) == []
    ensures Leftover(lines) == Concat(lines)
  {
    if lines != [] {
      NoNewlineAllBuffered(lines[1..]);
    }
  }

  /** A write logs something exactly when the combined text holds a `'\n'`;
      when it does not, the whole text becomes the new buffer. */
  lemma WriteLogsIffNewline(text: string)
    ensures TerminatedLines(SplitLines(text)) == [] <==> '\n' !in text
    ensures '\n' !in text ==> Leftover(SplitLines(text)) == text
  {
    var lines := SplitLines(text);
    if '\n' in text {
      NewlineLogged(lines);
    } else {
      NoNewlineAllBuffered(lines);
    }
  }

  lemma {:induction false} NewlineLogged(lines: seq<string>)
    requires forall j :: 0 <= j < |lines| ==> BoundaryOnlyAtEnd(lines[j])
    requires '\n' in Concat(lines)
    ensures TerminatedLines(lines) != []
  {
    if '\n' in lines[0] {
      NewlineEndsSegment(lines[0]);
    } else {
      NewlineLogged(lines[1..]);
    }
  }

  /** When `'\n'` is the only line boundary in the text, nothing is lost or
      reordered: the emitted segments, unstripped, followed by the new buffer
      give back the text. */
  lemma {:induction false} OnlyNewlineConserves(text: string)
    requires forall j :: 0 <= j < |text| && IsLineBoundary(text[j]) ==> text[j] == '\n'
    ensures Concat(TerminatedLines(SplitLines(text))) + Leftover(SplitLines(text)) == text
    decreases |text|
  {
    if text != [] {
      var k := SegmentEnd(text, 0);
      var head, rest := text[..k], text[k..];
      var r := SplitLines(rest);
      assert text == head + rest;
      assert SplitLines(text) == [head] + r;
      assert ([head] + r)[1..] == r;
      forall j | 0 <= j < |rest| && IsLineBoundary(rest[j])
        ensures rest[j] == '\n'
      {
        assert rest[j] == text[k + j];
      }
      OnlyNewlineConserves(rest);
      if k < |text| {
        assert IsLineBoundary(text[k - 1]);
        assert head[|head| - 1] == text[k - 1];
      }
      assert k < |text| ==> EndsWithNewline(head);
      ConsConserves(head, r);
    }
  }

  /** One step of OnlyNewlineConserves: putting a segment in front. */
  lemma ConsConserves(head: string, r: seq<string>)
    requires EndsWithNewline(head) || r == []
    ensures Concat(TerminatedLines([head] + r)) + Leftover([head] + r) == head + (Concat(TerminatedLines(r)) + Leftover(r))
  {
  }

  /** With a `'\r'` in the text the redirect does reorder: in `"a\rb\nc"` the
      segment `"a\r"` is kept back while `"b\n"` is logged, and the buffer
      becomes `"a\rc"`. */
  lemma CarriageReturnReorders()
    ensures SplitLines("a\rb\nc") == ["a\r", "b\n", "c"]
    ensures Messages(INFO, SplitLines("a\rb\nc")) == [LogRecord(INFO, "b")]
    ensures Leftover(SplitLines("a\rb\nc")) == "a\rc"
  {
    var lines := ["a\r", "b\n", "c"];
    SplitExample();
    assert lines[1..] == ["b\n", "c"] && lines[1..][1..] == ["c"] && ["c"][1..] == [];
    assert TerminatedLines(lines) == ["b\n"];
    assert RStrip("b\n") == "b" by {
      assert "b\n"[..1] == "b";
    }
  }

  lemma SplitExample()
    ensures SplitLines("a\rb\nc") == ["a\r", "b\n", "c"]
  {
    var text := "a\rb\nc";
    assert SegmentEnd(text, 0) == 2;
    assert text[..2] == "a\r" && text[2..] == "b\nc";
    SplitExampleTail();
  }

  lemma SplitExampleTail()
    ensures SplitLines("b\nc") == ["b\n", "c"]
  {
    assert SegmentEnd("b\nc", 0) == 2;
    assert "b\nc"[..2] == "b\n" && "b\nc"[2..] == "c";
    assert SegmentEnd("c", 0) == 1;
    assert "c"[..1] == "c" && "c"[1..] == [];
    assert SplitLines("c") == ["c"];
  }

  /** `write("")` on a valid stream changes nothing and logs nothing. */
  method WriteEmptyKeepsState(s: StreamToLogger)
    requires s.Valid()
    modifies s, s.logger
    ensures s.linebuf == old(s.linebuf)
    ensures s.logger.records == old(s.logger.records)
  {
    ghost var before := s.linebuf;
    assert before + "" == before;
    WriteLogsIffNewline(before);
    s.Write("");
  }

  /** A second `flush` in a row logs nothing and leaves the buffer empty. */
  method FlushTwice(s: StreamToLogger)
    modifies s, s.logger
    ensures s.linebuf == ""
    ensures s.logger.records == old(s.logger.records) + if old(s.linebuf) != "" then [LogRecord(s.logLevel, RStrip(old(s.linebuf)))] else []
  {
    s.Flush();
    ghost var afterFirst := s.logger.records;
    s.Flush();
    assert s.logger.records == afterFirst;
  }
}
