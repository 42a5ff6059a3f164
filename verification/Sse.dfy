/**
 The SSE event splitter: reads one line at a time with three kinds of terminator, groups lines
 into events, and bounds both.
 */
module Sse {
  import opened Bytes

  const MAX_SSE_LINE: nat := 262144
  const MAX_SSE_EVENT: nat := 1048576

  datatype Error = LineTooLarge | EventTooLarge | ReadFailed

  // ----- the parser -----

  /** How reading one line ended. */
  datatype LineEnd = Terminated | AtEof | Bad(error: Error)
  datatype Line = Line(bytes: Bytes, end: LineEnd, rest: Bytes)

  /** Reading one line from s after cur has been read of it; fails says the stream breaks off with an error. */
  function ReadFrom(s: Bytes, cur: Bytes, fails: bool): (r: Line)
    ensures |r.rest| <= |s| && (s != [] ==> |r.rest| < |s|)
  {
    if s == [] then Line(if fails then [] else cur, if fails then Bad(ReadFailed) else AtEof, [])
    else if s[0] == LF then Line(cur, Terminated, s[1..])
    else if s[0] == CR then Line(cur, Terminated, if |s| > 1 && s[1] == LF then s[2..] else s[1..])
    else if |cur| >= MAX_SSE_LINE then Line([], Bad(LineTooLarge), s[1..])
    else ReadFrom(s[1..], cur + [s[0]], fails)
  }

  datatype Step = Event(bytes: Bytes, rest: Bytes) | Eof | Broken(error: Error)

  /** nextEvent from s with the bytes of acc already buffered. */
  function NextFrom(s: Bytes, acc: Bytes, fails: bool): (r: Step)
    ensures r.Event? ==> |r.rest| <= |s|
    decreases |s|
  {
    var l := ReadFrom(s, [], fails);
    match l.end
    case AtEof =>
      if l.bytes != [] && |acc| + |l.bytes| + 2 > MAX_SSE_EVENT then Broken(EventTooLarge)
      else if acc + l.bytes != [] then Event(acc + l.bytes, [])
      else Eof
    case Bad(e) => Broken(e)
    case Terminated =>
      if l.bytes == [] then
        if acc == [] then NextFrom(l.rest, [], fails) else Event(acc + [LF], l.rest)
      else if |acc| + |l.bytes| + 2 > MAX_SSE_EVENT then Broken(EventTooLarge)
      else NextFrom(l.rest, acc + l.bytes + [LF], fails)
  }

  class SseParser {
    const input: Bytes    // everything the upstream body will yield
    const fails: bool     // whether it ends in a read error rather than EOF
    var pos: nat
    var event: Bytes
    var have: bool

    ghost predicate Valid()
      reads this
    {
      pos <= |input| && (have <==> event != [])
    }

    constructor (input: Bytes, fails: bool)
      ensures Valid() && pos == 0 && event == [] && this.input == input && this.fails == fails
    {
      this.input, this.fails := input, fails;
      pos, event, have := 0, [], false;
    }

    method ReadLine() returns (line: Bytes, end: LineEnd)
      requires Valid()
      modifies this`pos
      ensures Valid() && pos >= old(pos)
      ensures Line(line, end, input[pos..]) == ReadFrom(input[old(pos)..], [], fails)
    {
      line := [];
      while pos < |input|
        invariant old(pos) <= pos <= |input| && Without(line, CR)
        invariant ReadFrom(input[old(pos)..], [], fails) == ReadFrom(input[pos..], line, fails)
      {
        var b := input[pos];
        ghost var s := input[pos..];
        pos := pos + 1;
        assert s[0] == b && s[1..] == input[pos..];
        if b == LF {
          if line != [] && line[|line| - 1] == CR {
            assert false;
          }
          return line, Terminated;
        }
        if b == CR {
          if pos < |input| && input[pos] == LF {
            pos := pos + 1;
            assert s[2..] == input[pos..];
          }
          return line, Terminated;
        }
        if |line| >= MAX_SSE_LINE {
          return [], Bad(LineTooLarge);
        }
        line := line + [b];
      }
      assert input[pos..] == [];
      if fails {
        return [], Bad(ReadFailed);
      }
      return line, AtEof;
    }

    method Reset()
      modifies this`event, this`have
      ensures event == [] && !have
    {
      event, have := [], false;
    }

    /** The next event, EOF, or the error that ends the stream. */
    method NextEvent() returns (r: Step)
      requires Valid() && event == []
      modifies this`pos, this`event, this`have
      ensures Valid() && event == []
      ensures r == NextFrom(input[old(pos)..], [], fails)
      ensures r.Event? ==> r.rest == input[pos..]
    {
      while true
        invariant old(pos) <= pos && Valid()
        invariant NextFrom(input[old(pos)..], [], fails) == NextFrom(input[pos..], event, fails)
        decreases |input| - pos
      {
        ghost var before := pos;
        var line, end := ReadLine();
        match end {
          case AtEof =>
            if line != [] {
              if |event| + |line| + 2 > MAX_SSE_EVENT {
                Reset();
                return Broken(EventTooLarge);
              }
              have := true;
              event := event + line;
            }
            assert input[pos..] == [] by { EofReadsAll(input[before..], [], fails); }
            if event != [] {
              r := Event(event, input[pos..]);
              Reset();
              return;
            }
            return Eof;
          case Bad(e) =>
            Reset();
            return Broken(e);
          case Terminated =>
            if line == [] {
              if !have {
                continue;
              }
              event := event + [LF];
              r := Event(event, input[pos..]);
              Reset();
              return;
            }
            if |event| + |line| + 2 > MAX_SSE_EVENT {
              Reset();
              return Broken(EventTooLarge);
            }
            have := true;
            event := event + line;
            event := event + [LF];
        }
      }
    }
  }

  lemma {:induction false} EofReadsAll(s: Bytes, cur: Bytes, fails: bool)
    requires ReadFrom(s, cur, fails).end.AtEof?
    ensures ReadFrom(s, cur, fails).rest == []
  {
    if s != [] {
      EofReadsAll(s[1..], cur + [s[0]], fails);
    }
  }

  // ----- a whole stream -----

  /** The events of a stream and, unless it ended cleanly, the error that cut it off. */
  datatype Parsed = Parsed(events: seq<Bytes>, error: Verdict)
  datatype Verdict = Clean | Cut(error: Error)

  /** Calling nextEvent until it stops returning events. */
  function ParseAll(s: Bytes, fails: bool): Parsed
    decreases |s|
  {
    match NextFrom(s, [], fails)
    case Eof => Parsed([], Clean)
    case Broken(e) => Parsed([], Cut(e))
    case Event(bytes, rest) =>
      Progress(s, [], fails);
      var p := ParseAll(rest, fails);
      Parsed([bytes] + p.events, p.error)
  }

  /** Every call that returns an event consumes input, and the event is within its bound. */
  lemma {:induction false} Progress(s: Bytes, acc: Bytes, fails: bool)
    requires |acc| < MAX_SSE_EVENT
    ensures var r := NextFrom(s, acc, fails);
            r.Event? ==> 0 < |r.bytes| <= MAX_SSE_EVENT && (|r.rest| < |s| || (s == [] && acc != []))
    decreases |s|
  {
    var l := ReadFrom(s, [], fails);
    if l.end.Terminated? {
      if l.bytes == [] && acc == [] {
        Progress(l.rest, [], fails);
      } else if l.bytes != [] && |acc| + |l.bytes| + 2 <= MAX_SSE_EVENT {
        Progress(l.rest, acc + l.bytes + [LF], fails);
      }
    }
  }

  // ----- the reference: normalise, split into lines, group -----

  /** CRLF and lone CR become LF. */
  function Normalize(s: Bytes): Bytes
    decreases |s|
  {
    if s == [] then []
    else if s[0] == CR then [LF] + Normalize(if |s| > 1 && s[1] == LF then s[2..] else s[1..])
    else [s[0]] + Normalize(s[1..])
  }

  /** A blank line ends the group acc, if there is one, in front of what p holds. */
  function Flushed(acc: Bytes, p: Parsed): Parsed {
    if acc == [] then p else Parsed([acc + [LF]] + p.events, p.error)
  }

  /**
   Maximal groups of nonblank lines, each with its lines' LFs and the blank line that ends it; the
   last group may lack the blank line and its last line the LF. acc is the group being built.
   */
  function Groups(lines: seq<Bytes>, tail: Bytes, acc: Bytes, fails: bool): Parsed {
    if lines == [] then
      if |tail| > MAX_SSE_LINE then Parsed([], Cut(LineTooLarge))
      else if fails then Parsed([], Cut(ReadFailed))
      else if tail != [] && |acc| + |tail| + 2 > MAX_SSE_EVENT then Parsed([], Cut(EventTooLarge))
      else Parsed(if acc + tail == [] then [] else [acc + tail], Clean)
    else if |lines[0]| > MAX_SSE_LINE then Parsed([], Cut(LineTooLarge))
    else if lines[0] == [] then Flushed(acc, Groups(lines[1..], tail, [], fails))
    else if |acc| + |lines[0]| + 2 > MAX_SSE_EVENT then Parsed([], Cut(EventTooLarge))
    else Groups(lines[1..], tail, acc + lines[0] + [LF], fails)
  }

  function Reference(s: Bytes, fails: bool): Parsed {
    Groups(Lines(Normalize(s)), Tail(Normalize(s)), [], fails)
  }

  /** The parser from s with acc buffered, as a whole-stream result. */
  function ParseFrom(s: Bytes, acc: Bytes, fails: bool): Parsed {
    match NextFrom(s, acc, fails)
    case Eof => Parsed([], Clean)
    case Broken(e) => Parsed([], Cut(e))
    case Event(bytes, rest) => var p := ParseAll(rest, fails); Parsed([bytes] + p.events, p.error)
  }

  predicate Plain(s: Bytes) {
    Without(s, LF) && Without(s, CR)
  }

  lemma NormalizeTerminator(s: Bytes, cur: Bytes, fails: bool)
    requires s != [] && (s[0] == CR || s[0] == LF)
    ensures cur + Normalize(s) == cur + [LF] + Normalize(ReadFrom(s, cur, fails).rest)
  {
    assert Normalize(s) == [LF] + Normalize(ReadFrom(s, cur, fails).rest);
  }

  lemma NormalizeByte(s: Bytes, cur: Bytes)
    requires s != [] && s[0] != CR
    ensures cur + Normalize(s) == cur + [s[0]] + Normalize(s[1..])
  {
  }

  lemma LongLine(cur: Bytes, t: Bytes)
    requires Without(cur, LF)
    ensures FirstLF(cur + t) >= |cur|
  {
    var u := cur + t;
    assert forall k :: 0 <= k < |cur| ==> u[k] == cur[k];
    assert FirstLF(u) < |u| ==> u[FirstLF(u)] == LF;
  }

  /** Reading one line with any terminator is reading the first line of the normalised stream. */
  lemma {:induction false} ReadIsFirstLine(s: Bytes, cur: Bytes, fails: bool)
    requires Plain(cur) && |cur| <= MAX_SSE_LINE
    ensures var l, t := ReadFrom(s, cur, fails), cur + Normalize(s);
            match l.end
            case Terminated => Plain(l.bytes) && |l.bytes| <= MAX_SSE_LINE && t == l.bytes + [LF] + Normalize(l.rest)
            case AtEof => !fails && l.bytes == t && Without(t, LF) && |t| <= MAX_SSE_LINE
            case Bad(e) => (e == LineTooLarge && FirstLF(t) > MAX_SSE_LINE) || (e == ReadFailed && fails && Without(t, LF) && |t| <= MAX_SSE_LINE)
  {
    if s == [] {
      assert cur + Normalize(s) == cur;
    } else if s[0] == CR || s[0] == LF {
      NormalizeTerminator(s, cur, fails);
    } else {
      NormalizeByte(s, cur);
      if |cur| >= MAX_SSE_LINE {
        LongLine(cur + [s[0]], Normalize(s[1..]));
      } else {
        ReadIsFirstLine(s[1..], cur + [s[0]], fails);
      }
    }
  }

  /** A line that is too long is the first line, or the tail when there is no LF at all. */
  lemma LongFirstLine(t: Bytes, acc: Bytes, fails: bool)
    requires FirstLF(t) > MAX_SSE_LINE
    ensures Groups(Lines(t), Tail(t), acc, fails) == Parsed([], Cut(LineTooLarge))
  {
  }

  /** Grouping a first line and then the rest. */
  lemma GroupsCons(line: Bytes, lines: seq<Bytes>, tail: Bytes, acc: Bytes, fails: bool)
    requires |line| <= MAX_SSE_LINE
    ensures Groups([line] + lines, tail, acc, fails)
         == if line == [] then Flushed(acc, Groups(lines, tail, [], fails))
            else if |acc| + |line| + 2 > MAX_SSE_EVENT then Parsed([], Cut(EventTooLarge))
            else Groups(lines, tail, acc + line + [LF], fails)
  {
    assert ([line] + lines)[1..] == lines;
  }

  /** The parser over a line that ended in a terminator, and then the rest. */
  lemma ParseCons(s: Bytes, acc: Bytes, fails: bool, l: Line)
    requires l == ReadFrom(s, [], fails) && l.end.Terminated?
    ensures ParseFrom(s, acc, fails)
         == if l.bytes == [] then Flushed(acc, ParseFrom(l.rest, [], fails))
            else if |acc| + |l.bytes| + 2 > MAX_SSE_EVENT then Parsed([], Cut(EventTooLarge))
            else ParseFrom(l.rest, acc + l.bytes + [LF], fails)
  {
  }

  /** The lines of a stream start with the line its reader returns. */
  lemma LinesCons(s: Bytes, fails: bool, l: Line)
    requires l == ReadFrom(s, [], fails) && l.end.Terminated?
    ensures |l.bytes| <= MAX_SSE_LINE
    ensures Lines(Normalize(s)) == [l.bytes] + Lines(Normalize(l.rest)) && Tail(Normalize(s)) == Tail(Normalize(l.rest))
  {
    ReadIsFirstLine(s, [], fails);
    assert [] + Normalize(s) == Normalize(s);
    FirstLine(l.bytes, Normalize(l.rest));
  }

  lemma ParseTail(s: Bytes, acc: Bytes, fails: bool)
    requires !ReadFrom(s, [], fails).end.Terminated?
    requires ReadFrom(s, [], fails).end != Bad(LineTooLarge)
    requires ReadFrom(s, [], fails).end.AtEof? ==> |ReadFrom(s, [], fails).bytes| <= MAX_SSE_LINE
    ensures var tail := ReadFrom(s, [], fails).bytes;
            !fails && ReadFrom(s, [], fails).end.AtEof? ==> ParseFrom(s, acc, fails) == Groups([], tail, acc, fails)
    ensures ReadFrom(s, [], fails).end == Bad(ReadFailed) ==> ParseFrom(s, acc, fails) == Parsed([], Cut(ReadFailed))
  {
  }

  /** A stream without a terminated line within its bound has none, or one that is too long. */
  lemma NoLineCons(s: Bytes, acc: Bytes, fails: bool)
    requires !ReadFrom(s, [], fails).end.Terminated?
    ensures ParseFrom(s, acc, fails) == Groups(Lines(Normalize(s)), Tail(Normalize(s)), acc, fails)
  {
    var t := Normalize(s);
    ReadIsFirstLine(s, [], fails);
    assert [] + t == t;
    if FirstLF(t) > MAX_SSE_LINE {
      LongFirstLine(t, acc, fails);
    } else {
      NoLine(t);
      ParseTail(s, acc, fails);
    }
  }

  lemma {:induction false} ParserIsReferenceFrom(s: Bytes, acc: Bytes, fails: bool)
    ensures ParseFrom(s, acc, fails) == Groups(Lines(Normalize(s)), Tail(Normalize(s)), acc, fails)
    decreases |s|
  {
    var l := ReadFrom(s, [], fails);
    if l.end.Terminated? {
      LinesCons(s, fails, l);
      GroupsCons(l.bytes, Lines(Normalize(l.rest)), Tail(Normalize(s)), acc, fails);
      ParseCons(s, acc, fails, l);
      ParserIsReferenceFrom(l.rest, if l.bytes == [] then [] else acc + l.bytes + [LF], fails);
    } else {
      NoLineCons(s, acc, fails);
    }
  }

  /**
   For every byte stream, in bounds or not, calling nextEvent to the end yields exactly the
   reference's events and the reference's verdict.
   */
  lemma ParserIsReference(s: Bytes, fails: bool)
    ensures ParseAll(s, fails) == Reference(s, fails)
  {
    ParserIsReferenceFrom(s, [], fails);
  }

  lemma {:induction false} EventsBounded(s: Bytes, fails: bool)
    ensures forall e :: e in ParseAll(s, fails).events ==> 0 < |e| <= MAX_SSE_EVENT
    decreases |s|
  {
    var n := NextFrom(s, [], fails);
    Progress(s, [], fails);
    if n.Event? {
      EventsBounded(n.rest, fails);
    }
  }

  // ----- what is relayed parses back to the same events -----

  lemma {:induction false} NormalizePlain(s: Bytes)
    requires Without(s, CR)
    ensures Normalize(s) == s
  {
    if s != [] {
      NormalizePlain(s[1..]);
      assert s == [s[0]] + s[1..];
    }
  }

  lemma {:induction false} NormalizedHasNoCR(s: Bytes)
    ensures Without(Normalize(s), CR)
    decreases |s|
  {
    if s != [] {
      NormalizedHasNoCR(if s[0] == CR && |s| > 1 && s[1] == LF then s[2..] else s[1..]);
    }
  }

  lemma {:induction false} LinesArePlain(t: Bytes)
    requires Without(t, CR)
    ensures forall k :: 0 <= k < |Lines(t)| ==> Plain(Lines(t)[k])
    ensures Plain(Tail(t))
    decreases |t|
  {
    var i := FirstLF(t);
    BeforeFirstLF(t);
    if i < |t| {
      LinesArePlain(t[i + 1..]);
    }
  }

  /** Regrouping a nonblank line that was put in front of more. */
  lemma RegroupLine(line: Bytes, more: Bytes, acc: Bytes)
    requires Plain(line) && line != [] && |line| <= MAX_SSE_LINE && |acc| + |line| + 2 <= MAX_SSE_EVENT
    ensures var u := line + [LF] + more;
            Groups(Lines(u), Tail(u), acc, false) == Groups(Lines(more), Tail(more), acc + line + [LF], false)
  {
    FirstLine(line, more);
    GroupsCons(line, Lines(more), Tail(more), acc, false);
  }

  /** Regrouping a blank line that was put in front of more. */
  lemma RegroupBlank(more: Bytes, acc: Bytes)
    ensures var u := [LF] + more;
            Groups(Lines(u), Tail(u), acc, false) == Flushed(acc, Groups(Lines(more), Tail(more), [], false))
  {
    FirstLine([], more);
    assert [] + [LF] + more == [LF] + more;
    GroupsCons([], Lines(more), Tail(more), acc, false);
  }

  /** The events, put back together after acc, regroup into themselves. */
  lemma {:induction false} Regroup(lines: seq<Bytes>, tail: Bytes, acc: Bytes) returns (more: Bytes)
    requires (forall k :: 0 <= k < |lines| ==> Plain(lines[k])) && Plain(tail)
    requires Groups(lines, tail, acc, false).error == Clean
    ensures Concat(Groups(lines, tail, acc, false).events) == acc + more && Without(more, CR)
    ensures Groups(Lines(more), Tail(more), acc, false) == Groups(lines, tail, acc, false)
  {
    if lines == [] {
      more := tail;
      NoLine(tail);
      ConcatCons(acc + tail, []);
    } else if lines[0] == [] {
      more := Regroup(lines[1..], tail, []);
      if acc != [] {
        RegroupBlank(more, acc);
        ConcatCons(acc + [LF], Groups(lines[1..], tail, [], false).events);
        Assoc(acc, [LF], more);
        more := [LF] + more;
      }
    } else {
      var rest := Regroup(lines[1..], tail, acc + lines[0] + [LF]);
      RegroupLine(lines[0], rest, acc);
      more := lines[0] + [LF] + rest;
      Assoc(acc, lines[0], [LF]);
      Assoc(acc, lines[0] + [LF], rest);
    }
  }

  /** Parsing what was relayed gives the same events again: re-emission is faithful and idempotent. */
  lemma RelayIsIdempotent(s: Bytes)
    requires ParseAll(s, false).error == Clean
    ensures ParseAll(Concat(ParseAll(s, false).events), false) == ParseAll(s, false)
  {
    ParserIsReference(s, false);
    var t := Normalize(s);
    NormalizedHasNoCR(s);
    LinesArePlain(t);
    var out := Regroup(Lines(t), Tail(t), []);
    NormalizePlain(out);
    assert Concat(ParseAll(s, false).events) == out;
    ParserIsReference(out, false);
  }

  // ----- nothing is lost -----

  function NonBlank(lines: seq<Bytes>): seq<Bytes> {
    if lines == [] then [] else (if lines[0] == [] then [] else [lines[0]]) + NonBlank(lines[1..])
  }

  lemma NonBlankCons(line: Bytes, lines: seq<Bytes>)
    ensures NonBlank([line] + lines) == (if line == [] then [] else [line]) + NonBlank(lines)
  {
    assert ([line] + lines)[1..] == lines;
  }

  /** The last group, whose last line may lack its LF. */
  lemma KeepTail(tail: Bytes, acc: Bytes)
    requires Plain(tail) && (acc == [] || acc[|acc| - 1] == LF)
    requires Groups([], tail, acc, false).error == Clean
    ensures var t := Concat(Groups([], tail, acc, false).events); Lines(t) == Lines(acc) && Tail(t) == tail
  {
    SplitAfterLF(acc, tail);
    NoLine(tail);
    ConcatCons(acc + tail, []);
    assert Concat(Groups([], tail, acc, false).events) == acc + tail;
  }

  /** A group flushed in front of what follows it. */
  lemma KeepFlushed(acc: Bytes, rest: Bytes)
    requires acc == [] || acc[|acc| - 1] == LF
    ensures NonBlank(Lines(acc + [LF] + rest)) == NonBlank(Lines(acc)) + NonBlank(Lines(rest))
    ensures Tail(acc + [LF] + rest) == Tail(rest)
  {
    var blank := [LF] + rest;
    Assoc(acc, [LF], rest);
    BlankFirst(rest);
    SplitAfterLF(acc, blank);
    NonBlankConcat(Lines(acc), Lines(blank));
  }

  lemma BlankFirst(rest: Bytes)
    ensures Tail([LF] + rest) == Tail(rest) && NonBlank(Lines([LF] + rest)) == NonBlank(Lines(rest))
  {
    FirstLine([], rest);
    assert [] + [LF] + rest == [LF] + rest;
    NonBlankCons([], Lines(rest));
  }

  /** The grouped lines, with acc holding the lines before them. */
  lemma {:induction false} GroupsKeepLines(lines: seq<Bytes>, tail: Bytes, acc: Bytes)
    requires (forall k :: 0 <= k < |lines| ==> Plain(lines[k])) && Plain(tail)
    requires Groups(lines, tail, acc, false).error == Clean
    requires acc == [] || acc[|acc| - 1] == LF
    ensures var t := Concat(Groups(lines, tail, acc, false).events);
            NonBlank(Lines(t)) == NonBlank(Lines(acc)) + NonBlank(lines) && Tail(t) == tail
  {
    if lines == [] {
      KeepTail(tail, acc);
    } else if lines[0] == [] {
      var events := Groups(lines[1..], tail, [], false).events;
      GroupsKeepLines(lines[1..], tail, []);
      NoLine([]);
      if acc != [] {
        ConcatCons(acc + [LF], events);
        KeepFlushed(acc, Concat(events));
      }
    } else {
      GroupsKeepLines(lines[1..], tail, acc + lines[0] + [LF]);
      AppendLine(acc, lines[0]);
      Assoc(NonBlank(Lines(acc)), [lines[0]], NonBlank(lines[1..]));
    }
  }

  lemma AppendLine(acc: Bytes, line: Bytes)
    requires Without(line, LF) && line != [] && (acc == [] || acc[|acc| - 1] == LF)
    ensures NonBlank(Lines(acc + line + [LF])) == NonBlank(Lines(acc)) + [line]
  {
    assert acc + line + [LF] == acc + (line + [LF]);
    SplitAfterLF(acc, line + [LF]);
    FirstLine(line, []);
    assert line + [LF] + [] == line + [LF];
    NoLine([]);
    NonBlankConcat(Lines(acc), [line]);
    NonBlankCons(line, []);
    assert [line] + [] == [line];
  }

  lemma {:induction false} NonBlankConcat(a: seq<Bytes>, b: seq<Bytes>)
    ensures NonBlank(a + b) == NonBlank(a) + NonBlank(b)
  {
    if a == [] {
      assert a + b == b;
    } else {
      assert (a + b)[1..] == a[1..] + b;
      NonBlankConcat(a[1..], b);
    }
  }

  lemma SameFirstLF(a: Bytes, b: Bytes)
    requires FirstLF(a) < |a|
    ensures FirstLF(a + b) == FirstLF(a)
  {
    BeforeFirstLF(a);
    FirstLFIs(a + b, FirstLF(a));
  }

  lemma SplitFirst(a: Bytes, b: Bytes, rest: Bytes)
    requires FirstLF(a) < |a| && rest == a[FirstLF(a) + 1..]
    ensures Lines(a) == [a[..FirstLF(a)]] + Lines(rest)
    ensures Lines(a + b) == [a[..FirstLF(a)]] + Lines(rest + b) && Tail(a + b) == Tail(rest + b)
  {
    var i := FirstLF(a);
    SameFirstLF(a, b);
    assert (a + b)[..i] == a[..i] && (a + b)[i + 1..] == rest + b;
  }

  /** Splitting after an LF. */
  lemma {:induction false} SplitAfterLF(a: Bytes, b: Bytes)
    requires a == [] || a[|a| - 1] == LF
    ensures Lines(a + b) == Lines(a) + Lines(b) && Tail(a + b) == Tail(b)
    decreases |a|
  {
    if a == [] {
      assert a + b == b;
    } else {
      BeforeFirstLF(a);
      assert FirstLF(a) < |a|;
      var rest := a[FirstLF(a) + 1..];
      SplitFirst(a, b, rest);
      SplitAfterLF(rest, b);
      Assoc([a[..FirstLF(a)]], Lines(rest), Lines(b));
    }
  }

  /** No nonblank line of the stream is dropped, altered or reordered by the relay. */
  lemma NothingLost(s: Bytes)
    requires ParseAll(s, false).error == Clean
    ensures var t, out := Normalize(s), Concat(ParseAll(s, false).events);
            NonBlank(Lines(out)) == NonBlank(Lines(t)) && Tail(out) == Tail(t)
  {
    ParserIsReference(s, false);
    NormalizedHasNoCR(s);
    LinesArePlain(Normalize(s));
    GroupsKeepLines(Lines(Normalize(s)), Tail(Normalize(s)), []);
    assert Lines([]) == [];
  }
}
