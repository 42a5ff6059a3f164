/**
 The bounded line scanner that startup replay and usage reporting share, and the tail replay
 built on it. The buffered reader is known by what ReadSlice promises over a file.
 */
module Scanner {
  import opened Bytes

  /** How a call of ReadSlice('\n') ended. */
  datatype End = Delim | BufferFull | Eof | IoError

  /** ReadSlice on what is left of the file: it never looks further than its buffer of cap bytes. */
  function Slice(rest: Bytes, cap: nat, fails: bool): (r: (Bytes, End))
    ensures |r.0| <= |rest| && r.0 == rest[..|r.0|]
  {
    var i := FirstLF(rest);
    if i < |rest| && i < cap then (rest[..i + 1], Delim)
    else if |rest| >= cap then (rest[..cap], BufferFull)
    else (rest, if fails then IoError else Eof)
  }

  class Reader {
    const data: Bytes     // the file
    const cap: nat        // the size of the buffer
    const fails: bool     // whether reading past data is an I/O error rather than EOF
    var pos: nat

    ghost predicate Valid()
      reads this
    {
      pos <= |data| && 0 < cap
    }

    constructor (data: Bytes, cap: nat, fails: bool, start: nat)
      requires start <= |data| && 0 < cap
      ensures Valid() && pos == start && this.data == data && this.cap == cap && this.fails == fails
    {
      this.data, this.cap, this.fails, pos := data, cap, fails, start;
    }

    method ReadSlice() returns (chunk: Bytes, end: End)
      requires Valid()
      modifies this
      ensures Valid() && (chunk, end) == Slice(data[old(pos)..], cap, fails)
      ensures pos == old(pos) + |chunk| && data[pos..] == data[old(pos)..][|chunk|..]
      ensures end.BufferFull? ==> pos == old(pos) + cap
    {
      var r := Slice(data[pos..], cap, fails);
      chunk, end := r.0, r.1;
      pos := pos + |chunk|;
    }
  }

  // ----- what should be visited -----

  predicate Fits(line: Bytes, cap: nat) {
    |line| < cap
  }

  /** The lines of t that fit, in order; a last line without its newline counts unless it is empty. */
  function Visits(t: Bytes, cap: nat): seq<Bytes>
    decreases |t|
  {
    var i := FirstLF(t);
    if i == |t| then (if t != [] && Fits(t, cap) then [t] else [])
    else (if Fits(t[..i], cap) then [t[..i]] else []) + Visits(t[i + 1..], cap)
  }

  function Fitting(lines: seq<Bytes>, cap: nat): seq<Bytes> {
    if lines == [] then [] else (if Fits(lines[0], cap) then [lines[0]] else []) + Fitting(lines[1..], cap)
  }

  /** Splitting at every newline and filtering is the same thing. */
  lemma {:induction false} VisitsAreFittingLines(t: Bytes, cap: nat)
    ensures Visits(t, cap) == Fitting(Lines(t), cap) + (if Tail(t) != [] && Fits(Tail(t), cap) then [Tail(t)] else [])
    decreases |t|
  {
    var i := FirstLF(t);
    if i < |t| {
      var rest := t[i + 1..];
      VisitsAreFittingLines(rest, cap);
      FittingFirst(t[..i], Lines(rest), cap);
      var first := if Fits(t[..i], cap) then [t[..i]] else [];
      var last := if Tail(rest) != [] && Fits(Tail(rest), cap) then [Tail(rest)] else [];
      Assoc(first, Fitting(Lines(rest), cap), last);
    }
  }

  lemma FittingFirst(line: Bytes, lines: seq<Bytes>, cap: nat)
    ensures Fitting([line] + lines, cap) == (if Fits(line, cap) then [line] else []) + Fitting(lines, cap)
  {
    assert ([line] + lines)[1..] == lines;
  }

  /** What is left after the first newline, or nothing without one. */
  function AfterLine(t: Bytes): Bytes {
    var i := FirstLF(t);
    if i == |t| then [] else t[i + 1..]
  }

  /** The first line and then the rest. */
  lemma VisitsFirst(t: Bytes, cap: nat)
    ensures Visits(t, cap) == (if t != [] && FirstLF(t) < cap then [t[..FirstLF(t)]] else []) + Visits(AfterLine(t), cap)
  {
    assert t[..|t|] == t;
  }

  lemma WindowedFirst(t: Bytes, skip: int, cap: nat)
    requires skip > 0
    ensures Windowed(t, skip, cap) == Windowed(AfterLine(t), skip - (FirstLF(t) + 1), cap)
  {
    assert Windowed([], skip - (FirstLF(t) + 1), cap) == [];
    if FirstLF(t) < |t| {
      assert [] + Windowed(AfterLine(t), skip - (FirstLF(t) + 1), cap) == Windowed(AfterLine(t), skip - (FirstLF(t) + 1), cap);
    }
  }

  lemma DropWithin(t: Bytes, k: nat)
    requires k <= FirstLF(t)
    ensures FirstLF(t[k..]) == FirstLF(t) - k && AfterLine(t[k..]) == AfterLine(t)
  {
    var i := FirstLF(t);
    BeforeFirstLF(t);
    FirstLFIs(t[k..], i - k);
    if i < |t| {
      assert t[k..][i - k + 1..] == t[i + 1..];
    }
  }

  // ----- the scanner -----

  /** Draining the rest of an over-long line in bounded chunks. */
  method Drain(br: Reader) returns (end: End)
    requires br.Valid()
    modifies br
    ensures br.Valid() && !end.BufferFull?
    ensures br.data[br.pos..] == AfterLine(br.data[old(br.pos)..])
    ensures end.Delim? <==> FirstLF(br.data[old(br.pos)..]) < |br.data[old(br.pos)..]|
    ensures !end.Delim? ==> end == if br.fails then IoError else Eof
  {
    ghost var line := br.data[br.pos..];
    end := BufferFull;
    while end.BufferFull?
      invariant br.Valid()
      invariant end.BufferFull? ==> FirstLF(br.data[br.pos..]) == FirstLF(line) - (|line| - |br.data[br.pos..]|)
      invariant end.BufferFull? ==> AfterLine(br.data[br.pos..]) == AfterLine(line)
      invariant !end.BufferFull? ==> br.data[br.pos..] == AfterLine(line)
      invariant end.Delim? ==> FirstLF(line) < |line|
      invariant !end.BufferFull? && !end.Delim? ==> FirstLF(line) == |line| && end == if br.fails then IoError else Eof
      decreases end.BufferFull?, |br.data| - br.pos
    {
      ghost var rest := br.data[br.pos..];
      var chunk;
      chunk, end := br.ReadSlice();
      if end.BufferFull? {
        DropWithin(rest, |chunk|);
      }
    }
  }

  /** scanBounded: the lines it hands to its callback, and the error it returns. */
  method ScanBounded(br: Reader) returns (visited: seq<Bytes>, failed: bool)
    requires br.Valid()
    modifies br
    ensures visited == Visits(br.data[old(br.pos)..], br.cap)
    ensures failed == br.fails
  {
    visited := [];
    while true
      invariant br.Valid()
      invariant visited + Visits(br.data[br.pos..], br.cap) == Visits(br.data[old(br.pos)..], br.cap)
      decreases |br.data| - br.pos
    {
      ghost var rest := br.data[br.pos..];
      ghost var before := visited;
      var chunk, end := br.ReadSlice();
      if end.BufferFull? {
        LongLine(rest, br.cap);
        end := Drain(br);
        if end == Eof {
          return visited, false;
        }
        if end == IoError {
          return visited, true;
        }
        continue;
      }
      VisitSlice(rest, br.cap, br.fails, chunk, end);
      if |chunk| > 0 {
        if chunk[|chunk| - 1] == LF {
          chunk := chunk[..|chunk| - 1];
        }
        visited := visited + [chunk];
      }
      if end != Delim {
        return visited, end != Eof;
      }
      Assoc(before, [chunk], Visits(br.data[br.pos..], br.cap));
    }
  }

  /** What one slice that is not too long contributes. */
  lemma VisitSlice(rest: Bytes, cap: nat, fails: bool, chunk: Bytes, end: End)
    requires (chunk, end) == Slice(rest, cap, fails) && end != BufferFull
    ensures end == Delim ==> chunk != [] && chunk[|chunk| - 1] == LF
    ensures end == Delim ==> Visits(rest, cap) == [chunk[..|chunk| - 1]] + Visits(rest[|chunk|..], cap)
    ensures end != Delim ==> Visits(rest, cap) == (if chunk == [] then [] else [chunk]) && Without(chunk, LF)
  {
    VisitsFirst(rest, cap);
    BeforeFirstLF(rest);
    if end == Delim {
      assert chunk[..|chunk| - 1] == rest[..FirstLF(rest)];
    }
  }

  lemma LongLine(t: Bytes, cap: nat)
    requires cap <= FirstLF(t)
    ensures Visits(t, cap) == Visits(AfterLine(t), cap)
    ensures AfterLine(t[cap..]) == AfterLine(t)
    ensures FirstLF(t[cap..]) < |t[cap..]| <==> FirstLF(t) < |t|
  {
    DropWithin(t, cap);
    VisitsFirst(t, cap);
  }

  // ----- replaying the tail of a file -----

  /** The fitting lines of t that start at least skip bytes into it. */
  function Windowed(t: Bytes, skip: int, cap: nat): seq<Bytes>
    decreases |t|
  {
    var i := FirstLF(t);
    if i == |t| then (if skip <= 0 && t != [] && Fits(t, cap) then [t] else [])
    else (if skip <= 0 && Fits(t[..i], cap) then [t[..i]] else []) + Windowed(t[i + 1..], skip - (i + 1), cap)
  }

  lemma {:induction false} WholeWindow(t: Bytes, skip: int, cap: nat)
    requires skip <= 0
    ensures Windowed(t, skip, cap) == Visits(t, cap)
    decreases |t|
  {
    var i := FirstLF(t);
    if i < |t| {
      WholeWindow(t[i + 1..], skip - (i + 1), cap);
    }
  }

  predicate Aligned(data: Bytes, start: nat)
    requires 0 < start <= |data|
  {
    data[start - 1] == LF
  }

  lemma WindowInFirstLine(data: Bytes, start: nat, cap: nat)
    requires 0 < start <= FirstLF(data) && start < |data|
    ensures !Aligned(data, start) && Windowed(data, start, cap) == Visits(AfterLine(data[start..]), cap)
  {
    BeforeFirstLF(data);
    DropWithin(data, start);
    WindowedFirst(data, start, cap);
    WholeWindow(AfterLine(data), start - (FirstLF(data) + 1), cap);
  }

  /** The whole lines of a window are what follows the fragment it opens with. */
  lemma {:induction false} WindowAfterFragment(data: Bytes, start: nat, cap: nat)
    requires 0 < start < |data|
    ensures Windowed(data, start, cap)
         == Visits(if Aligned(data, start) then data[start..] else AfterLine(data[start..]), cap)
    decreases |data|
  {
    var i := FirstLF(data);
    if start <= i {
      WindowInFirstLine(data, start, cap);
    } else {
      var rest, s := AfterLine(data), start - (i + 1);
      WindowedFirst(data, start, cap);
      assert data[start..] == rest[s..];
      if s == 0 {
        WholeWindow(rest, 0, cap);
      } else {
        assert rest[s - 1] == data[start - 1];
        WindowAfterFragment(rest, s, cap);
      }
    }
  }

  /** What replay visits of a window: an opening fragment is discarded by a single ReadSlice. */
  function Replayed(data: Bytes, start: nat, cap: nat): seq<Bytes>
    requires 0 < start < |data| && 0 < cap
  {
    var rest := data[start..];
    if Aligned(data, start) then Visits(rest, cap) else Visits(rest[|Slice(rest, cap, false).0|..], cap)
  }

  /** Quota.Replay's choice of what to scan, on an open file of known size. */
  method Replay(data: Bytes, maxBytes: int, cap: nat, fails: bool) returns (visited: seq<Bytes>, failed: bool)
    requires 0 < cap
    ensures maxBytes <= 0 || |data| <= maxBytes ==> visited == Visits(data, cap)
    ensures 0 < maxBytes < |data| ==> visited == Replayed(data, |data| - maxBytes, cap)
    ensures failed == fails
  {
    var size := |data|;
    if maxBytes <= 0 || size <= maxBytes {
      visited, failed := Scan(data, cap, fails);
    } else {
      visited, failed := ReplayTail(data, size - maxBytes, cap, fails);
    }
  }

  /** Quota.scan. */
  method Scan(data: Bytes, cap: nat, fails: bool) returns (visited: seq<Bytes>, failed: bool)
    requires 0 < cap
    ensures visited == Visits(data, cap) && failed == fails
  {
    var br := new Reader(data, cap, fails, 0);
    assert data[0..] == data;
    visited, failed := ScanBounded(br);
  }

  method ReplayTail(data: Bytes, start: nat, cap: nat, fails: bool) returns (visited: seq<Bytes>, failed: bool)
    requires 0 < cap && 0 < start < |data|
    ensures visited == Replayed(data, start, cap) && failed == fails
  {
    var aligned := data[start - 1] == LF;
    var br := new Reader(data, cap, fails, start);
    if !aligned {
      var chunk, end := br.ReadSlice();
      if end == IoError {
        return [], true;
      }
    }
    visited, failed := ScanBounded(br);
  }

  /** The length of the fragment a window opens with. */
  function FragmentLength(data: Bytes, start: nat): nat
    requires start <= |data|
  {
    FirstLF(data[start..])
  }

  /** The fragment is too long for one ReadSlice, and what is left of it passes for a line. */
  predicate FragmentLeaks(data: Bytes, start: nat, cap: nat)
    requires 0 < start < |data|
  {
    var n := FragmentLength(data, start);
    !Aligned(data, start) && cap <= n < 2 * cap && (start + n < |data| || n > cap)
  }

  function Leaked(data: Bytes, start: nat, cap: nat): seq<Bytes>
    requires 0 < start < |data|
  {
    if FragmentLeaks(data, start, cap) then [data[start..][cap..FragmentLength(data, start)]] else []
  }

  lemma ReplayedFragment(data: Bytes, start: nat, cap: nat)
    requires 0 < start < |data| && 0 < cap && !Aligned(data, start)
    ensures Replayed(data, start, cap)
         == Leaked(data, start, cap) + Visits(AfterLine(data[start..]), cap)
  {
    var rest := data[start..];
    if FragmentLength(data, start) < cap {
      assert rest[|Slice(rest, cap, false).0|..] == AfterLine(rest);
    } else {
      AfterOneSlice(rest, cap);
    }
  }

  /** What one ReadSlice leaves of a line that is at least as long as the buffer. */
  lemma AfterOneSlice(rest: Bytes, cap: nat)
    requires 0 < cap <= FirstLF(rest)
    ensures Slice(rest, cap, false).0 == rest[..cap]
    ensures Visits(rest[cap..], cap)
         == (if cap < |rest| && FirstLF(rest) < 2 * cap then [rest[cap..FirstLF(rest)]] else []) + Visits(AfterLine(rest), cap)
  {
    DropWithin(rest, cap);
    VisitsFirst(rest[cap..], cap);
    assert rest[cap..][..FirstLF(rest) - cap] == rest[cap..FirstLF(rest)];
  }

  /**
   Tail replay visits exactly the whole lines inside its window, the first one included when the
   window starts on a boundary, if and only if no over-long fragment leaks.
   */
  lemma TailReplayExact(data: Bytes, start: nat, cap: nat)
    requires 0 < start < |data| && 0 < cap
    ensures Replayed(data, start, cap) == Windowed(data, start, cap) <==> !FragmentLeaks(data, start, cap)
  {
    WindowAfterFragment(data, start, cap);
    if !Aligned(data, start) {
      ReplayedFragment(data, start, cap);
      assert FragmentLeaks(data, start, cap) ==> |Replayed(data, start, cap)| == 1 + |Windowed(data, start, cap)|;
      assert !FragmentLeaks(data, start, cap) ==> Replayed(data, start, cap) == Windowed(data, start, cap);
    }
  }

  /** No line of the file is longer than the buffer. */
  predicate AllFit(t: Bytes, cap: nat) {
    Fits(Tail(t), cap) && forall k :: 0 <= k < |Lines(t)| ==> Fits(Lines(t)[k], cap)
  }

  lemma {:induction false} FragmentsFit(data: Bytes, start: nat, cap: nat)
    requires start <= |data| && AllFit(data, cap)
    ensures FragmentLength(data, start) < cap
    decreases |data|
  {
    var i := FirstLF(data);
    if start <= i {
      DropWithin(data, start);
      if i < |data| {
        assert Fits(Lines(data)[0], cap);
      }
    } else {
      var rest := data[i + 1..];
      assert data[start..] == rest[start - (i + 1)..];
      assert Lines(data)[1..] == Lines(rest);
      FragmentsFit(rest, start - (i + 1), cap);
    }
  }

  /** Genuine records all fit, and then the tail is replayed exactly. */
  lemma TailReplayOfRecords(data: Bytes, start: nat, cap: nat)
    requires 0 < start < |data| && 0 < cap && AllFit(data, cap)
    ensures Replayed(data, start, cap) == Windowed(data, start, cap)
  {
    FragmentsFit(data, start, cap);
    TailReplayExact(data, start, cap);
  }
}
