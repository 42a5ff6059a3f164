/**
 Publication of the three files `init` renders: the pepper and the users file first, the config
 last, each written to a temporary and hard-linked into place, with a rollback on any failure.

 The directory is a mutable object. Which operations fail, and what other processes do to the
 directory in between, are given by schedules indexed by a clock that every system call advances,
 so the theorems cover every schedule.
 */
module InitCommit {
  import opened Options

  type Bytes = seq<int>
  type Entries = map<string, nat>

  datatype Outcome = Works | NotPermitted | Breaks
  datatype Stat = Missing | StatError | Found(ino: nat)

  /** Every call in this span of the clock works. */
  ghost predicate AllWork(outcome: nat -> Outcome, from: nat, to: nat) {
    forall c: nat :: from <= c < to ==> outcome(c).Works?
  }

  /** A sequence of n calls from this clock that ends at the first that does not work. */
  ghost predicate RunsThrough(outcome: nat -> Outcome, start: nat, n: nat, ok: bool, clock: nat) {
    start < clock <= start + n && AllWork(outcome, start, clock - 1) && ok == outcome(clock - 1).Works? && (ok ==> clock == start + n)
  }

  /** One such sequence after another. */
  lemma RunsOn(outcome: nat -> Outcome, start: nat, n: nat, middle: nat, m: nat, ok: bool, clock: nat)
    requires RunsThrough(outcome, start, n, true, middle) && RunsThrough(outcome, middle, m, ok, clock)
    ensures RunsThrough(outcome, start, n + m, ok, clock)
  {
    assert AllWork(outcome, start, middle);
  }

  /** The directory as another process would see it at one moment. */
  datatype Snapshot = Snapshot(entries: Entries, data: map<nat, Bytes>)

  /** The descriptor of the directory itself; a file's descriptor is named by its inode. */
  const DIR_FD: nat := 0

  class Directory {
    const outcome: nat -> Outcome          // how the system call at this clock ends
    const foreign: nat -> Option<Entries>  // what another process made of the entries just before it
    const partial: nat -> nat              // how much a failing write leaves behind

    var clock: nat
    var entries: Entries
    var data: map<nat, Bytes>
    var nextIno: nat
    var open: set<nat>
    ghost var trace: seq<Snapshot>
    ghost var removed: set<(string, nat)>  // entries this process unlinked, with their inodes

    constructor (outcome: nat -> Outcome, foreign: nat -> Option<Entries>, partial: nat -> nat, entries: Entries, nextIno: nat)
      requires nextIno > 0 && forall n :: n in entries ==> 0 < entries[n] < nextIno
      ensures Valid() && clock == 0 && this.entries == entries && data == map[] && open == {} && this.nextIno == nextIno
      ensures this.outcome == outcome && this.foreign == foreign && this.partial == partial
    {
      this.outcome, this.foreign, this.partial := outcome, foreign, partial;
      this.clock, this.entries, this.data, this.nextIno, this.open := 0, entries, map[], nextIno, {};
      this.trace, this.removed := [], {};
    }

    function Now(): Snapshot
      reads this
    {
      Snapshot(entries, data)
    }

    /** The entries a system call at this clock finds. */
    function Seen(clock: nat, entries: Entries): Entries {
      if foreign(clock).Some? then foreign(clock).value else entries
    }

    /** No other process changes the directory. */
    ghost predicate Calm() {
      forall c: nat :: foreign(c).None?
    }

    ghost predicate Clean(from: nat, to: nat) {
      AllWork(outcome, from, to)
    }

    /** Inode numbers in use are positive and below the next one. */
    ghost predicate Valid()
      reads this
    {
      && nextIno > 0
      && (forall n :: n in entries ==> 0 < entries[n] < nextIno)
      && (forall i :: i in data ==> 0 < i < nextIno)
    }

    /** A call that leaves the directory as it finds it: fchown, fchmod, fsync, fstat. */
    method Call() returns (o: Outcome)
      modifies this`clock, this`entries, this`trace
      ensures clock == old(clock) + 1 && o == outcome(old(clock))
      ensures entries == Seen(old(clock), old(entries))
      ensures trace == old(trace) + [Now()]
    {
      entries := Seen(clock, entries);
      o := outcome(clock);
      clock := clock + 1;
      trace := trace + [Now()];
    }

    method Lstat(name: string) returns (st: Stat)
      modifies this`clock, this`entries, this`trace
      ensures clock == old(clock) + 1 && entries == Seen(old(clock), old(entries))
      ensures st == if !outcome(old(clock)).Works? then StatError else if name in entries then Found(entries[name]) else Missing
      ensures trace == old(trace) + [Now()]
    {
      var o := Call();
      st := if !o.Works? then StatError else if name in entries then Found(entries[name]) else Missing;
    }

    /**
     createInDir: an exclusive create followed by an fstat. When the fstat fails the descriptor is
     closed, the file stays, and the caller gets no identity (ino == 0).
     */
    method Create(name: string) returns (ino: nat, ghost left: bool)
      modifies this`clock, this`entries, this`data, this`nextIno, this`open, this`trace
      ensures var found := Seen(old(clock), old(entries));
              if !outcome(old(clock)).Works? || name in found then
                && ino == 0 && !left && clock == old(clock) + 1 && entries == found && data == old(data)
                && nextIno == old(nextIno) && open == old(open) && trace == old(trace) + [Now()]
              else
                && clock == old(clock) + 2 && nextIno == old(nextIno) + 1
                && entries == Seen(old(clock) + 1, found[name := old(nextIno)])
                && data == old(data)[old(nextIno) := []]
                && trace == old(trace) + [Snapshot(found[name := old(nextIno)], data), Now()]
                && (left <==> !outcome(old(clock) + 1).Works?)
                && ino == (if left then 0 else old(nextIno))
                && open == (if left then old(open) else old(open) + {old(nextIno)})
    {
      left := false;
      entries := Seen(clock, entries);
      var o := outcome(clock);
      clock := clock + 1;
      if !o.Works? || name in entries {
        trace := trace + [Now()];
        return 0, false;
      }
      ino := nextIno;
      entries, data, nextIno := entries[name := ino], data[ino := []], nextIno + 1;
      trace := trace + [Now()];
      o := Call();
      if !o.Works? {
        return 0, true;
      }
      open := open + {ino};
    }

    method Write(fd: nat, bytes: Bytes) returns (ok: bool)
      requires fd in data
      modifies this`clock, this`entries, this`data, this`trace
      ensures clock == old(clock) + 1 && entries == Seen(old(clock), old(entries))
      ensures ok == outcome(old(clock)).Works?
      ensures data.Keys == old(data).Keys && data == old(data)[fd := data[fd]] && (ok ==> data[fd] == bytes) && data[fd] <= bytes
      ensures trace == old(trace) + [Now()]
      ensures Calm() && old(Valid()) ==> Valid()
    {
      var n := if partial(clock) <= |bytes| then partial(clock) else |bytes|;
      ok := outcome(clock).Works?;
      entries := Seen(clock, entries);
      data := data[fd := if ok then bytes else bytes[..n]];
      clock := clock + 1;
      trace := trace + [Now()];
    }

    /** close gives the descriptor up whether or not it reports an error. */
    method Close(fd: nat) returns (o: Outcome)
      modifies this`clock, this`entries, this`open, this`trace
      ensures clock == old(clock) + 1 && o == outcome(old(clock)) && open == old(open) - {fd}
      ensures entries == Seen(old(clock), old(entries))
      ensures trace == old(trace) + [Now()]
    {
      o := Call();
      open := open - {fd};
    }

    method Link(oldName: string, newName: string) returns (ok: bool)
      modifies this`clock, this`entries, this`trace
      ensures clock == old(clock) + 1
      ensures var found := Seen(old(clock), old(entries));
              && ok == (outcome(old(clock)).Works? && oldName in found && newName !in found)
              && entries == if ok then found[newName := found[oldName]] else found
      ensures trace == old(trace) + [Now()]
      ensures Calm() && old(Valid()) ==> Valid()
    {
      entries := Seen(clock, entries);
      ok := outcome(clock).Works? && oldName in entries && newName !in entries;
      if ok {
        entries := entries[newName := entries[oldName]];
      }
      clock := clock + 1;
      trace := trace + [Now()];
    }

    /** A name that is not there counts as removed. */
    method Unlink(name: string) returns (ok: bool)
      modifies this`clock, this`entries, this`trace, this`removed
      ensures clock == old(clock) + 1 && ok == outcome(old(clock)).Works?
      ensures var found := Seen(old(clock), old(entries));
              && entries == (if ok then found - {name} else found)
              && removed == old(removed) + if ok && name in found then {(name, found[name])} else {}
      ensures trace == old(trace) + [Now()]
      ensures Calm() && old(Valid()) ==> Valid()
    {
      entries := Seen(clock, entries);
      ok := outcome(clock).Works?;
      if ok {
        if name in entries {
          removed := removed + {(name, entries[name])};
        }
        entries := entries - {name};
      }
      clock := clock + 1;
      trace := trace + [Now()];
    }
  }

  /** One file to publish: fixed names and content, its identity once created (0 before), and progress. */
  datatype CommitFile = CommitFile(temp: string, final: string, data: Bytes, id: nat, published: bool)

  // ----- the rollback -----

  /** entries without name, if name is still the inode this run created. */
  function Without(entries: Entries, name: string, id: nat): Entries {
    if name in entries && entries[name] == id then entries - {name} else entries
  }

  /** The lstat at this clock and the unlink after it both work: what removing a name of ours takes. */
  predicate Removes(outcome: nat -> Outcome, clock: nat) {
    outcome(clock).Works? && outcome(clock + 1).Works?
  }

  /** The clock after the attempt to remove a name of ours: without the lstat there is no unlink. */
  function AfterRemoval(outcome: nat -> Outcome, clock: nat): nat {
    if outcome(clock).Works? then clock + 2 else clock + 1
  }

  /**
   A rollback of three published files that starts at this clock fails to remove the config's name
   and goes on to remove the users file's or the pepper's.
   */
  predicate Bares(outcome: nat -> Outcome, clock: nat) {
    var users := AfterRemoval(outcome, clock);
    !Removes(outcome, clock) && (Removes(outcome, users) || Removes(outcome, AfterRemoval(outcome, users)))
  }

  /** One or more states were added: the last is s, and those before it are s too or show these entries instead. */
  ghost predicate Shows(before: seq<Snapshot>, after: seq<Snapshot>, entries: Entries, s: Snapshot) {
    && before < after && after[|after| - 1] == s
    && forall k :: |before| <= k < |after| ==> after[k] == s || after[k] == Snapshot(entries, s.data)
  }

  method RemoveIfOurs(d: Directory, name: string, id: nat) returns (ghost unlinked: set<nat>)
    modifies d`clock, d`entries, d`trace, d`removed
    ensures d.clock >= old(d.clock)
    ensures (forall c :: c in unlinked ==> d.foreign(c).None?) ==> d.removed <= old(d.removed) + {(name, id)}
    ensures d.Calm() && name in old(d.entries) && old(d.entries)[name] == id ==> d.clock == AfterRemoval(d.outcome, old(d.clock))
    ensures d.Calm() ==>
              d.entries == if Removes(d.outcome, old(d.clock)) then Without(old(d.entries), name, id) else old(d.entries)
    ensures old(d.trace) < d.trace
    ensures d.Calm() ==> Shows(old(d.trace), d.trace, old(d.entries), d.Now())
  {
    unlinked := {};
    var st := d.Lstat(name);
    if st == Found(id) {
      unlinked := {d.clock};
      var ok := d.Unlink(name);
    }
  }

  predicate IsPlan(files: seq<CommitFile>) {
    |files| == 3
  }

  function Ids(files: seq<CommitFile>): set<nat> {
    set i | 0 <= i < |files| :: files[i].id
  }

  /** The entries after the first loop has handled files at positions from i up. */
  function WithoutFinals(entries: Entries, files: seq<CommitFile>, i: nat): Entries
    requires i <= |files|
    decreases |files| - i
  {
    if i == |files| then entries
    else
      var e := WithoutFinals(entries, files, i + 1);
      if files[i].published then Without(e, files[i].final, files[i].id) else e
  }

  function WithoutTemps(entries: Entries, files: seq<CommitFile>, i: nat): Entries
    requires i <= |files|
    decreases |files| - i
  {
    if i == |files| then entries
    else
      var e := WithoutTemps(entries, files, i + 1);
      if files[i].id != 0 then Without(e, files[i].temp, files[i].id) else e
  }

  /** Our config name visible implies both authentication files visible and complete. */
  ghost predicate Safe(files: seq<CommitFile>, base: nat, s: Snapshot)
    requires IsPlan(files)
  {
    files[2].final in s.entries && s.entries[files[2].final] >= base ==>
      forall i :: 0 <= i < 2 ==>
        && files[i].final in s.entries && s.entries[files[i].final] >= base
        && s.entries[files[i].final] in s.data && s.data[s.entries[files[i].final]] == files[i].data
  }

  /** The final names differ from one another and from the temporary names. */
  predicate NamesApart(files: seq<CommitFile>) {
    && (forall i, j :: 0 <= i < |files| && 0 <= j < |files| ==> files[i].final != files[j].temp)
    && (forall i, j :: 0 <= i < j < |files| ==> files[i].final != files[j].final)
  }

  /** Our config name, if visible at all, is the one the rollback will remove first. */
  ghost predicate ConfigKnown(files: seq<CommitFile>, base: nat, entries: Entries)
    requires IsPlan(files)
  {
    files[2].final in entries && entries[files[2].final] >= base ==>
      files[2].published && entries[files[2].final] == files[2].id
  }

  ghost predicate ConfigHidden(files: seq<CommitFile>, base: nat, entries: Entries)
    requires IsPlan(files)
  {
    files[2].final in entries ==> entries[files[2].final] < base
  }

  ghost predicate SafeFrom(files: seq<CommitFile>, base: nat, trace: seq<Snapshot>, from: nat)
    requires IsPlan(files)
  {
    forall k :: from <= k < |trace| ==> Safe(files, base, trace[k])
  }

  /** The run's inodes are the only ones unlinked, unless something slipped in just before an unlink. */
  ghost predicate RemovedOurs(d: Directory, files: seq<CommitFile>, before: set<(string, nat)>, unlinked: set<nat>)
    reads d
  {
    (forall c :: c in unlinked ==> d.foreign(c).None?) ==> forall r :: r in d.removed && r !in before ==> r.1 in Ids(files)
  }

  /** All three files are out: complete, and each name still the inode the run gave it. */
  ghost predicate AllOut(files: seq<CommitFile>, base: nat, s: Snapshot)
    requires IsPlan(files)
  {
    NamesApart(files) && forall j :: 0 <= j < 3 ==>
      && files[j].published && files[j].id >= base && files[j].final in s.entries && s.entries[files[j].final] == files[j].id
      && files[j].id in s.data && s.data[files[j].id] == files[j].data
  }

  /** Our config name is visible and an authentication file's name is missing. */
  ghost predicate Bare(files: seq<CommitFile>, base: nat, entries: Entries)
    requires IsPlan(files)
  {
    && files[2].final in entries && entries[files[2].final] >= base
    && (files[0].final !in entries || files[1].final !in entries)
  }

  /** The clock at which the first loop, from this clock on three published files, is done with position i. */
  function FinalsClock(outcome: nat -> Outcome, clock: nat, i: nat): nat
    requires i <= 3
    decreases 3 - i
  {
    if i == 3 then clock else AfterRemoval(outcome, FinalsClock(outcome, clock, i + 1))
  }

  /** What the first loop leaves when it has handled the positions from i up. */
  ghost predicate Handled(files: seq<CommitFile>, outcome: nat -> Outcome, clock: nat, i: nat, entries: Entries)
    requires IsPlan(files) && i <= 3
  {
    forall j :: 0 <= j < 3 ==>
      && (files[j].final in entries <==> j < i || !Removes(outcome, FinalsClock(outcome, clock, j + 1)))
      && (files[j].final in entries ==> entries[files[j].final] == files[j].id)
  }

  lemma HandledNext(files: seq<CommitFile>, base: nat, outcome: nat -> Outcome, clock: nat, i: nat, e: Entries, e': Entries)
    requires IsPlan(files) && NamesApart(files) && i < 3 && Handled(files, outcome, clock, i + 1, e)
    requires e' == if Removes(outcome, FinalsClock(outcome, clock, i + 1)) then Without(e, files[i].final, files[i].id) else e
    ensures Handled(files, outcome, clock, i, e')
    ensures Bare(files, base, e) ==> Bare(files, base, e')
  {
  }

  /** Safety of one state in which everything still visible is complete. */
  lemma SafeUnlessBare(files: seq<CommitFile>, base: nat, was: Snapshot, entries: Entries)
    requires IsPlan(files) && AllOut(files, base, was)
    requires forall j :: 0 <= j < 3 && files[j].final in entries ==> entries[files[j].final] == files[j].id
    ensures Safe(files, base, Snapshot(entries, was.data)) <==> !Bare(files, base, entries)
  {
  }

  lemma HandledAll(files: seq<CommitFile>, base: nat, outcome: nat -> Outcome, clock: nat, entries: Entries)
    requires IsPlan(files) && Handled(files, outcome, clock, 0, entries) && files[2].id >= base
    ensures Bare(files, base, entries) <==> Bares(outcome, clock)
  {
    assert FinalsClock(outcome, clock, 2) == AfterRemoval(outcome, clock);
  }

  /** One more removal by the first loop: safe so far exactly while the config is not bare. */
  lemma SafeFromNext(files: seq<CommitFile>, base: nat, was: Snapshot, before: seq<Snapshot>, after: seq<Snapshot>, from: nat, e: Entries, e': Entries)
    requires IsPlan(files) && AllOut(files, base, was) && from <= |before| && Shows(before, after, e, Snapshot(e', was.data))
    requires forall j :: 0 <= j < 3 && files[j].final in e ==> e[files[j].final] == files[j].id
    requires forall j :: 0 <= j < 3 && files[j].final in e' ==> e'[files[j].final] == files[j].id
    requires Bare(files, base, e) ==> Bare(files, base, e')
    requires SafeFrom(files, base, before, from) <==> !Bare(files, base, e)
    ensures SafeFrom(files, base, after, from) <==> !Bare(files, base, e')
  {
    SafeUnlessBare(files, base, was, e);
    SafeUnlessBare(files, base, was, e');
    if !Bare(files, base, e') {
      forall k | from <= k < |after| ensures Safe(files, base, after[k]) {
        assert k < |before| ==> after[k] == before[k];
      }
    }
  }

  /** In the first loop, on the way: the config goes first, and is hidden from then on. */
  ghost predicate Going(files: seq<CommitFile>, base: nat, outcome: nat -> Outcome, start: nat, was: Snapshot, from: nat, i: nat, clock: nat, entries: Entries, trace: seq<Snapshot>)
    requires IsPlan(files)
  {
    ConfigGoes(outcome, start, files, base, was) ==>
      && from <= |trace| && SafeFrom(files, base, trace, from)
      && (if i < 3 then ConfigHidden(files, base, entries) else clock == start && entries == was.entries)
  }

  lemma GoingNext(files: seq<CommitFile>, base: nat, outcome: nat -> Outcome, start: nat, was: Snapshot, from: nat, i: nat,
                  clock: nat, e: Entries, before: seq<Snapshot>, clock': nat, e': Entries, after: seq<Snapshot>)
    requires IsPlan(files) && i < 3 && Going(files, base, outcome, start, was, from, i + 1, clock, e, before)
    requires i == 2 ==> files[2].published
    requires e' == if Removes(outcome, clock) then Without(e, files[i].final, files[i].id) else e
    requires Shows(before, after, e, Snapshot(e', was.data))
    ensures Going(files, base, outcome, start, was, from, i, clock', e', after)
  {
    if ConfigGoes(outcome, start, files, base, was) {
      forall k | from <= k < |after| ensures Safe(files, base, after[k]) {
        assert k < |before| ==> after[k] == before[k];
      }
    }
  }

  /** In the first loop on three published files, on the way: safe so far exactly while the config is not bare. */
  ghost predicate Baring(files: seq<CommitFile>, base: nat, outcome: nat -> Outcome, start: nat, was: Snapshot, from: nat, i: nat, clock: nat, entries: Entries, trace: seq<Snapshot>)
    requires IsPlan(files) && i <= 3
  {
    AllOut(files, base, was) ==>
      && from <= |trace| && clock == FinalsClock(outcome, start, i) && Handled(files, outcome, start, i, entries)
      && (SafeFrom(files, base, trace, from) <==> !Bare(files, base, entries))
  }

  lemma BaringNext(files: seq<CommitFile>, base: nat, outcome: nat -> Outcome, start: nat, was: Snapshot, from: nat, i: nat,
                   clock: nat, e: Entries, before: seq<Snapshot>, clock': nat, e': Entries, after: seq<Snapshot>)
    requires IsPlan(files) && i < 3 && Baring(files, base, outcome, start, was, from, i + 1, clock, e, before)
    requires e' == if Removes(outcome, clock) then Without(e, files[i].final, files[i].id) else e
    requires files[i].final in e && e[files[i].final] == files[i].id ==> clock' == AfterRemoval(outcome, clock)
    requires Shows(before, after, e, Snapshot(e', was.data))
    ensures Baring(files, base, outcome, start, was, from, i, clock', e', after)
  {
    if AllOut(files, base, was) {
      HandledNext(files, base, outcome, start, i, e, e');
      SafeFromNext(files, base, was, before, after, from, e, e');
    }
  }

  /**
   First loop: published names, the config's first. Of three complete files it leaves the config
   visible without its companions exactly when the schedule is one that bares it; when the config's
   own two calls work, whatever the others do, no state is unsafe.
   */
  method RemoveFinals(d: Directory, files: seq<CommitFile>, ghost base: nat) returns (ghost unlinked: set<nat>)
    requires IsPlan(files)
    modifies d`clock, d`entries, d`trace, d`removed
    ensures d.clock >= old(d.clock) && old(d.trace) <= d.trace
    ensures RemovedOurs(d, files, old(d.removed), unlinked)
    ensures d.Calm() && d.Clean(old(d.clock), d.clock) ==> d.entries == WithoutFinals(old(d.entries), files, 0)
    ensures d.Calm() && ConfigGoes(d.outcome, old(d.clock), files, base, old(d.Now())) ==>
              SafeFrom(files, base, d.trace, |old(d.trace)|) && ConfigHidden(files, base, d.entries)
    ensures d.Calm() && AllOut(files, base, old(d.Now())) ==>
              && Handled(files, d.outcome, old(d.clock), 0, d.entries)
              && (SafeFrom(files, base, d.trace, |old(d.trace)|) <==> !Bare(files, base, d.entries))
  {
    unlinked := {};
    ghost var start, was, from := d.clock, d.Now(), |d.trace|;
    var i := 3;
    while i > 0
      invariant 0 <= i <= 3 && d.clock >= start && old(d.trace) <= d.trace
      invariant RemovedOurs(d, files, old(d.removed), unlinked)
      invariant d.Calm() && d.Clean(start, d.clock) ==> d.entries == WithoutFinals(old(d.entries), files, i)
      invariant d.Calm() ==> d.data == was.data && Going(files, base, d.outcome, start, was, from, i, d.clock, d.entries, d.trace)
      invariant d.Calm() ==> Baring(files, base, d.outcome, start, was, from, i, d.clock, d.entries, d.trace)
    {
      i := i - 1;
      if files[i].published {
        ghost var clock, e, before := d.clock, d.entries, d.trace;
        ghost var u := RemoveIfOurs(d, files[i].final, files[i].id);
        unlinked := unlinked + u;
        if d.Calm() {
          GoingNext(files, base, d.outcome, start, was, from, i, clock, e, before, d.clock, d.entries, d.trace);
          BaringNext(files, base, d.outcome, start, was, from, i, clock, e, before, d.clock, d.entries, d.trace);
        }
      }
    }
  }

  /** Second loop: whatever temporaries are still there. No final name comes or goes. */
  method RemoveTemps(d: Directory, files: seq<CommitFile>, ghost base: nat) returns (ghost unlinked: set<nat>)
    requires IsPlan(files)
    modifies d`clock, d`entries, d`trace, d`removed
    ensures d.clock >= old(d.clock) && old(d.trace) <= d.trace
    ensures RemovedOurs(d, files, old(d.removed), unlinked)
    ensures d.Calm() && d.Clean(old(d.clock), d.clock) ==> d.entries == WithoutTemps(old(d.entries), files, 0)
    ensures d.Calm() && ConfigHidden(files, base, old(d.entries)) ==>
              SafeFrom(files, base, d.trace, |old(d.trace)|) && ConfigHidden(files, base, d.entries)
    ensures d.Calm() && NamesApart(files) ==>
              SameFinals(files, old(d.entries), d.entries) && FinalsOf(files, old(d.entries), d.data, d.trace, |old(d.trace)|)
  {
    unlinked := {};
    ghost var start := d.clock;
    var i := 3;
    while i > 0
      invariant 0 <= i <= 3 && d.clock >= start && old(d.trace) <= d.trace
      invariant RemovedOurs(d, files, old(d.removed), unlinked)
      invariant d.Calm() && d.Clean(start, d.clock) ==> d.entries == WithoutTemps(old(d.entries), files, i)
      invariant d.Calm() && ConfigHidden(files, base, old(d.entries)) ==>
                  SafeFrom(files, base, d.trace, |old(d.trace)|) && ConfigHidden(files, base, d.entries)
      invariant d.Calm() && NamesApart(files) ==>
                  SameFinals(files, old(d.entries), d.entries) && FinalsOf(files, old(d.entries), d.data, d.trace, |old(d.trace)|)
    {
      i := i - 1;
      if files[i].id != 0 {
        ghost var u := RemoveIfOurs(d, files[i].temp, files[i].id);
        unlinked := unlinked + u;
      }
    }
  }

  /** The final names lead where they led. */
  ghost predicate SameFinals(files: seq<CommitFile>, e: Entries, e': Entries) {
    forall j :: 0 <= j < |files| ==>
      && (files[j].final in e <==> files[j].final in e')
      && (files[j].final in e ==> e[files[j].final] == e'[files[j].final])
  }

  ghost predicate FinalsOf(files: seq<CommitFile>, e: Entries, data: map<nat, Bytes>, trace: seq<Snapshot>, from: nat) {
    forall k :: from <= k < |trace| ==> trace[k].data == data && SameFinals(files, e, trace[k].entries)
  }

  /** While the finals stay, safety stays as it is. */
  lemma TempsDoNotMatter(files: seq<CommitFile>, base: nat, before: seq<Snapshot>, after: seq<Snapshot>, from: nat, s: Snapshot)
    requires IsPlan(files) && from <= |before| && before <= after && FinalsOf(files, s.entries, s.data, after, |before|)
    requires SafeFrom(files, base, before, from) ==> Safe(files, base, s)
    ensures SafeFrom(files, base, after, from) <==> SafeFrom(files, base, before, from)
  {
    if SafeFrom(files, base, after, from) {
      forall k | from <= k < |before| ensures Safe(files, base, before[k]) {
        assert after[k] == before[k];
      }
    }
    if SafeFrom(files, base, before, from) {
      forall k | from <= k < |after| ensures Safe(files, base, after[k]) {
        if k < |before| {
          assert after[k] == before[k];
        } else {
          assert SameFinals(files, s.entries, after[k].entries);
        }
      }
    }
  }

  /** The config is not out, or it is the run's own and both calls that remove its name work. */
  ghost predicate ConfigGoes(outcome: nat -> Outcome, clock: nat, files: seq<CommitFile>, base: nat, s: Snapshot)
    requires IsPlan(files)
  {
    Safe(files, base, s) && ConfigKnown(files, base, s.entries) && (files[2].published ==> Removes(outcome, clock))
  }

  /**
   rollbackCommitFiles. Whatever other processes do, it removes only inodes this run created,
   unless a change falls between a check and its unlink. The config name goes first: once it is
   gone, or if it was never out, no later failure of the rollback shows it without its companions.
   But the rollback goes on after a call that fails. From three published files, it ends with the
   config visible and a companion missing exactly when the lstat or the unlink of the config's name
   fails and both calls for one of the others work; every other schedule is safe throughout.
   */
  method Rollback(d: Directory, files: seq<CommitFile>, ghost base: nat) returns (ghost unlinked: set<nat>)
    requires IsPlan(files)
    modifies d`clock, d`entries, d`trace, d`removed
    ensures d.clock >= old(d.clock) && old(d.trace) <= d.trace
    ensures RemovedOurs(d, files, old(d.removed), unlinked)
    ensures d.Calm() && d.Clean(old(d.clock), d.clock) ==>
              d.entries == WithoutTemps(WithoutFinals(old(d.entries), files, 0), files, 0)
    ensures d.Calm() && ConfigGoes(d.outcome, old(d.clock), files, base, old(d.Now())) ==>
              SafeFrom(files, base, d.trace, |old(d.trace)|) && Safe(files, base, d.Now())
    ensures d.Calm() && AllOut(files, base, old(d.Now())) ==>
              && (SafeFrom(files, base, d.trace, |old(d.trace)|) <==> !Bares(d.outcome, old(d.clock)))
              && (Safe(files, base, d.Now()) <==> !Bares(d.outcome, old(d.clock)))
              && (Bare(files, base, d.entries) <==> Bares(d.outcome, old(d.clock)))
  {
    ghost var start, was, from := d.clock, d.Now(), |d.trace|;
    ghost var u := RemoveFinals(d, files, base);
    ghost var middle, between := d.trace, d.Now();
    ghost var v := RemoveTemps(d, files, base);
    unlinked := u + v;
    assert forall k :: from <= k < |middle| ==> d.trace[k] == middle[k];
    if d.Calm() && AllOut(files, base, was) {
      HandledAll(files, base, d.outcome, start, between.entries);
      SafeUnlessBare(files, base, was, between.entries);
      TempsDoNotMatter(files, base, middle, d.trace, from, between);
    }
  }

  // ----- what the rollback undoes -----

  /** An inode under one of the names this run may have given it. */
  predicate Mine(f: CommitFile, name: string, ino: nat) {
    f.id != 0 && ino == f.id && (name == f.temp || (f.published && name == f.final))
  }

  predicate Ours(files: seq<CommitFile>, name: string, ino: nat)
    requires IsPlan(files)
  {
    Mine(files[0], name, ino) || Mine(files[1], name, ino) || Mine(files[2], name, ino)
  }

  /** A file whose creation failed after the file came into being: there, but unknown to the run. */
  datatype Left = Nothing | Behind(name: string, ino: nat)

  /** init plus what was left behind. */
  function Plus(init: Entries, left: Left): Entries {
    if left.Behind? then init[left.name := left.ino] else init
  }

  ghost predicate FileOk(f: CommitFile, base: nat, left: Left, s: Snapshot) {
    && (f.id != 0 ==> f.id >= base)
    && (left.Behind? ==> f.id != left.ino)
    && (f.published ==>
          && f.id != 0 && f.final in s.entries && s.entries[f.final] == f.id
          && f.id in s.data && s.data[f.id] == f.data)
  }

  /**
   The directory while the run is under way: everything that was there before, untouched, and
   otherwise only names of inodes this run created. Published names lead to complete files, and
   the config is published last.
   */
  ghost predicate Held(files: seq<CommitFile>, init: Entries, base: nat, left: Left, s: Snapshot) {
    && IsPlan(files) && base > 0
    && (forall n :: n in init ==> n in s.entries && s.entries[n] == init[n] < base)
    && (forall n :: n in s.entries && n !in Plus(init, left) ==> Ours(files, n, s.entries[n]))
    && (left.Behind? ==> left.name !in init && left.name in s.entries && s.entries[left.name] == left.ino >= base)
    && FileOk(files[0], base, left, s) && FileOk(files[1], base, left, s) && FileOk(files[2], base, left, s)
    && (files[0].id != 0 ==> files[0].id != files[1].id && files[0].id != files[2].id)
    && (files[1].id != 0 ==> files[1].id != files[2].id)
    && (files[2].published ==> files[0].published && files[1].published)
  }

  lemma {:induction false} FinalsGone(entries: Entries, files: seq<CommitFile>, i: nat)
    requires i <= |files|
    ensures forall n :: n in WithoutFinals(entries, files, i) <==>
              n in entries && forall j :: i <= j < |files| && files[j].published && files[j].final == n ==> entries[n] != files[j].id
    ensures forall n :: n in WithoutFinals(entries, files, i) ==> WithoutFinals(entries, files, i)[n] == entries[n]
    decreases |files| - i
  {
    if i < |files| {
      FinalsGone(entries, files, i + 1);
    }
  }

  lemma {:induction false} TempsGone(entries: Entries, files: seq<CommitFile>, i: nat)
    requires i <= |files|
    ensures forall n :: n in WithoutTemps(entries, files, i) <==>
              n in entries && forall j :: i <= j < |files| && files[j].id != 0 && files[j].temp == n ==> entries[n] != files[j].id
    ensures forall n :: n in WithoutTemps(entries, files, i) ==> WithoutTemps(entries, files, i)[n] == entries[n]
    decreases |files| - i
  {
    if i < |files| {
      TempsGone(entries, files, i + 1);
    }
  }

  /** A rollback whose calls all work removes every name this run knows it made, and nothing else. */
  lemma RollbackRestores(files: seq<CommitFile>, init: Entries, base: nat, left: Left, s: Snapshot)
    requires Held(files, init, base, left, s)
    ensures WithoutTemps(WithoutFinals(s.entries, files, 0), files, 0) == Plus(init, left)
  {
    var e := WithoutFinals(s.entries, files, 0);
    FinalsGone(s.entries, files, 0);
    TempsGone(e, files, 0);
    var r := WithoutTemps(e, files, 0);
    forall n: string ensures n in r <==> n in Plus(init, left) {
      NameRestored(files, init, base, left, s, n, n in e, n in r);
    }
    forall n | n in r ensures r[n] == Plus(init, left)[n] {
      assert n in Plus(init, left);
    }
  }

  /** One name: it survives both loops exactly when it was there before or was left behind. */
  lemma NameRestored(files: seq<CommitFile>, init: Entries, base: nat, left: Left, s: Snapshot, n: string, inFinals: bool, inTemps: bool)
    requires Held(files, init, base, left, s)
    requires inFinals <==> n in s.entries && forall j :: 0 <= j < 3 && files[j].published && files[j].final == n ==> s.entries[n] != files[j].id
    requires inTemps <==> inFinals && forall j :: 0 <= j < 3 && files[j].id != 0 && files[j].temp == n ==> s.entries[n] != files[j].id
    ensures inTemps <==> n in Plus(init, left)
  {
  }

  lemma HeldIsSafe(files: seq<CommitFile>, init: Entries, base: nat, left: Left, s: Snapshot)
    requires Held(files, init, base, left, s) && NamesApart(files)
    requires left.Behind? ==> left.name != files[2].final
    ensures Safe(files, base, s)
    ensures files[2].final in s.entries && s.entries[files[2].final] >= base ==>
              files[2].published && s.entries[files[2].final] == files[2].id
  {
    assert Ours(files, files[2].final, files[2].id) || !files[2].published;
  }

  // ----- the run -----

  predicate SamePlan(files: seq<CommitFile>, plan: seq<CommitFile>) {
    && |files| == |plan|
    && forall i :: 0 <= i < |files| ==> files[i].temp == plan[i].temp && files[i].final == plan[i].final && files[i].data == plan[i].data
  }

  predicate IsFresh(plan: seq<CommitFile>) {
    IsPlan(plan) && forall i :: 0 <= i < 3 ==> plan[i].id == 0 && !plan[i].published
  }

  predicate IsTemp(plan: seq<CommitFile>, name: string) {
    exists i :: 0 <= i < |plan| && plan[i].temp == name
  }

  // ----- which schedules leave a file behind -----

  /** No two of the six names are the same. */
  predicate Apart(plan: seq<CommitFile>) {
    NamesApart(plan) && forall i, j :: 0 <= i < j < |plan| ==> plan[i].temp != plan[j].temp
  }

  /** Nor is a temporary name taken: what the process ID in it is for. */
  predicate NoClash(plan: seq<CommitFile>, init: Entries) {
    Apart(plan) && forall i :: 0 <= i < |plan| ==> plan[i].temp !in init
  }

  /** And no final name is. */
  predicate Free(plan: seq<CommitFile>, init: Entries) {
    NoClash(plan, init) && forall i :: 0 <= i < |plan| ==> plan[i].final !in init
  }

  /** How creating the temporaries ends, and the clock at that point. */
  datatype StageEnd = AllStaged(clock: nat) | StopsAt(clock: nat) | FstatFails(position: nat, clock: nat)

  /** The temporary name of position i is taken, by an earlier file or by one of the run's own. */
  ghost predicate Taken(plan: seq<CommitFile>, init: Entries, i: nat)
    requires i < |plan|
  {
    plan[i].temp in init || exists j :: 0 <= j < i && plan[j].temp == plan[i].temp
  }

  /** From the schedule alone: how the creation of temporaries ends that is at position i at this clock. */
  ghost function StageFrom(outcome: nat -> Outcome, plan: seq<CommitFile>, init: Entries, adopt: bool, clock: nat, i: nat): StageEnd
    requires i <= |plan|
    decreases |plan| - i
  {
    if i == |plan| then AllStaged(clock)
    else if !outcome(clock).Works? || Taken(plan, init, i) then StopsAt(clock + 1)
    else if !outcome(clock + 1).Works? then FstatFails(i, clock + 2)
    else if !adopt then StageFrom(outcome, plan, init, adopt, clock + 2, i + 1)
    else match outcome(clock + 2)
      case NotPermitted => StageFrom(outcome, plan, init, adopt, clock + 3, i + 1)
      case Breaks => StopsAt(clock + 3)
      case Works =>
        if outcome(clock + 3).Works? then StageFrom(outcome, plan, init, adopt, clock + 4, i + 1) else StopsAt(clock + 4)
  }

  /** Without name clashes creation stops only at a call that does not work. */
  lemma {:induction false} StagingStopsAtFailure(outcome: nat -> Outcome, plan: seq<CommitFile>, init: Entries, adopt: bool, clock: nat, i: nat)
    requires i <= |plan| && NoClash(plan, init)
    ensures var end := StageFrom(outcome, plan, init, adopt, clock, i);
            !end.AllStaged? ==> end.clock > clock && !outcome(end.clock - 1).Works?
    decreases |plan| - i
  {
    if i < |plan| {
      assert !Taken(plan, init, i);
      var next := clock + if !adopt then 2 else if outcome(clock + 2).NotPermitted? then 3 else 4;
      StagingStopsAtFailure(outcome, plan, init, adopt, next, i + 1);
    }
  }

  /** The checks that precede the first change all pass: open, fstat, and three lstats that find nothing. */
  predicate Proceeds(outcome: nat -> Outcome, plan: seq<CommitFile>, init: Entries, trusted: bool, clock: nat)
    requires IsPlan(plan)
  {
    trusted && outcome(clock).Works? && outcome(clock + 1).Works? && Misses(outcome, plan, init, clock + 2)
  }

  predicate Misses(outcome: nat -> Outcome, plan: seq<CommitFile>, entries: Entries, clock: nat)
    requires IsPlan(plan)
  {
    && outcome(clock).Works? && outcome(clock + 1).Works? && outcome(clock + 2).Works?
    && plan[0].final !in entries && plan[1].final !in entries && plan[2].final !in entries
  }

  /** The call that fails is the fstat right after an exclusive create that worked. */
  ghost predicate LeavesBehind(outcome: nat -> Outcome, plan: seq<CommitFile>, init: Entries, adopt: bool, trusted: bool, clock: nat)
    requires IsPlan(plan)
  {
    Proceeds(outcome, plan, init, trusted, clock) && StageFrom(outcome, plan, init, adopt, clock + 5, 0).FstatFails?
  }

  /**
   The config is out and the run still fails: of the calls after the last temporary, twelve to fill,
   seven to publish the two authentication files and two to publish the config all work, but the
   unlink of its temporary or the last sync does not.
   */
  ghost predicate FailsPublished(outcome: nat -> Outcome, staged: nat) {
    AllWork(outcome, staged, staged + 21) && !(outcome(staged + 21).Works? && outcome(staged + 22).Works?)
  }

  /** After the last temporary, the twelve calls to fill and the eleven to publish all work. */
  ghost predicate CommitsAfter(outcome: nat -> Outcome, end: StageEnd) {
    end.AllStaged? && AllWork(outcome, end.clock, end.clock + 23)
  }

  /** When the rollback of such a run begins. */
  function UndoFrom(outcome: nat -> Outcome, staged: nat): nat {
    if outcome(staged + 21).Works? then staged + 23 else staged + 22
  }

  ghost predicate ExposesAfter(outcome: nat -> Outcome, end: StageEnd) {
    end.AllStaged? && FailsPublished(outcome, end.clock) && Bares(outcome, UndoFrom(outcome, end.clock))
  }

  /** From the schedule alone: the run publishes the config, fails, and its rollback bares the config. */
  ghost predicate Exposes(outcome: nat -> Outcome, plan: seq<CommitFile>, init: Entries, adopt: bool, trusted: bool, clock: nat)
    requires IsPlan(plan)
  {
    Proceeds(outcome, plan, init, trusted, clock) && ExposesAfter(outcome, StageFrom(outcome, plan, init, adopt, clock + 5, 0))
  }

  // ----- which schedules commit -----

  /** The calls that stage one temporary: a create, an fstat and, when asked for, an fchown and, if that is permitted, an fchmod. */
  function StageCalls(outcome: nat -> Outcome, adopt: bool, clock: nat): nat {
    if !adopt then 2 else if outcome(clock + 2).NotPermitted? then 3 else 4
  }

  /** They all work, but for an fchown that is not permitted, n times over from this clock. */
  predicate StagesCleanly(outcome: nat -> Outcome, adopt: bool, clock: nat, n: nat)
    decreases n
  {
    n == 0 ||
    (&& outcome(clock).Works? && outcome(clock + 1).Works?
     && (adopt ==> outcome(clock + 2).NotPermitted? || (outcome(clock + 2).Works? && outcome(clock + 3).Works?))
     && StagesCleanly(outcome, adopt, clock + StageCalls(outcome, adopt, clock), n - 1))
  }

  function StagedBy(outcome: nat -> Outcome, adopt: bool, clock: nat, n: nat): nat
    decreases n
  {
    if n == 0 then clock else StagedBy(outcome, adopt, clock + StageCalls(outcome, adopt, clock), n - 1)
  }

  /**
   The schedules under which a plan commits: the directory passes every check, the temporaries' names
   are free, and every call works, except that an fchown need not be permitted.
   */
  ghost predicate Succeeds(outcome: nat -> Outcome, plan: seq<CommitFile>, init: Entries, adopt: bool, trusted: bool, clock: nat)
    requires IsPlan(plan)
  {
    && Proceeds(outcome, plan, init, trusted, clock)
    && (forall i :: 0 <= i < 3 ==> plan[i].temp !in init) && (forall i, j :: 0 <= i < j < 3 ==> plan[i].temp != plan[j].temp)
    && StagesCleanly(outcome, adopt, clock + 5, 3)
    && var staged := StagedBy(outcome, adopt, clock + 5, 3); AllWork(outcome, staged, staged + 23)
  }

  lemma {:induction false} StagedIff(outcome: nat -> Outcome, plan: seq<CommitFile>, init: Entries, adopt: bool, clock: nat, i: nat)
    requires i <= |plan|
    ensures var end := StageFrom(outcome, plan, init, adopt, clock, i);
            && (end.AllStaged? <==> (forall k :: i <= k < |plan| ==> !Taken(plan, init, k)) && StagesCleanly(outcome, adopt, clock, |plan| - i))
            && (end.AllStaged? ==> end.clock == StagedBy(outcome, adopt, clock, |plan| - i))
    decreases |plan| - i
  {
    if i < |plan| {
      StagedIff(outcome, plan, init, adopt, clock + StageCalls(outcome, adopt, clock), i + 1);
    }
  }

  ghost predicate Commits(outcome: nat -> Outcome, plan: seq<CommitFile>, init: Entries, adopt: bool, trusted: bool, clock: nat)
    requires IsPlan(plan)
  {
    Proceeds(outcome, plan, init, trusted, clock) && CommitsAfter(outcome, StageFrom(outcome, plan, init, adopt, clock + 5, 0))
  }

  lemma CommitsIffSucceeds(outcome: nat -> Outcome, plan: seq<CommitFile>, init: Entries, adopt: bool, trusted: bool, clock: nat)
    requires IsPlan(plan)
    ensures Commits(outcome, plan, init, adopt, trusted, clock) <==> Succeeds(outcome, plan, init, adopt, trusted, clock)
  {
    StagedIff(outcome, plan, init, adopt, clock + 5, 0);
    NoneTakenIff(plan, init);
  }

  lemma NoneTakenIff(plan: seq<CommitFile>, init: Entries)
    requires IsPlan(plan)
    ensures (forall k :: 0 <= k < 3 ==> !Taken(plan, init, k)) <==>
      (forall i :: 0 <= i < 3 ==> plan[i].temp !in init) && (forall i, j :: 0 <= i < j < 3 ==> plan[i].temp != plan[j].temp)
  {
    if forall k :: 0 <= k < 3 ==> !Taken(plan, init, k) {
      assert !Taken(plan, init, 0) && !Taken(plan, init, 1) && !Taken(plan, init, 2);
    }
  }

  /** Temporaries that could all be created have names of their own. */
  lemma {:induction false} StagedHasNoClash(outcome: nat -> Outcome, plan: seq<CommitFile>, init: Entries, adopt: bool, clock: nat, i: nat)
    requires i <= |plan| && StageFrom(outcome, plan, init, adopt, clock, i).AllStaged?
    ensures forall k :: i <= k < |plan| ==> !Taken(plan, init, k)
    decreases |plan| - i
  {
    if i < |plan| {
      var next := clock + if !adopt then 2 else if outcome(clock + 2).NotPermitted? then 3 else 4;
      StagedHasNoClash(outcome, plan, init, adopt, next, i + 1);
    }
  }

  predicate NoneFinal(plan: seq<CommitFile>, init: Entries) {
    forall i :: 0 <= i < |plan| ==> plan[i].final !in init
  }

  lemma StagedIsFree(outcome: nat -> Outcome, plan: seq<CommitFile>, init: Entries, adopt: bool, clock: nat)
    requires NamesApart(plan) && NoneFinal(plan, init)
    requires StageFrom(outcome, plan, init, adopt, clock, 0).AllStaged?
    ensures Free(plan, init)
  {
    StagedHasNoClash(outcome, plan, init, adopt, clock, 0);
    forall i, j | 0 <= i < j < |plan| ensures plan[i].temp != plan[j].temp {
      assert !Taken(plan, init, j);
    }
    forall i | 0 <= i < |plan| ensures plan[i].temp !in init {
      assert !Taken(plan, init, i);
    }
  }

  /** Every state seen since the run began was safe. */
  ghost predicate SafeSince(trace: seq<Snapshot>, plan: seq<CommitFile>, base: nat, from: nat)
    requires IsPlan(plan)
  {
    NamesApart(plan) ==> forall k :: from <= k < |trace| ==> Safe(plan, base, trace[k])
  }

  /** What stays fixed over one run. */
  datatype Run = Run(plan: seq<CommitFile>, init: Entries, base: nat, from: nat)

  /** The run is under way and a rollback now would restore the initial entries, up to left. */
  ghost predicate Under(d: Directory, r: Run, files: seq<CommitFile>, left: Left)
    reads d
  {
    && IsPlan(r.plan) && d.Valid() && d.Calm() && r.base <= d.nextIno && r.from <= |d.trace|
    && SamePlan(files, r.plan) && Held(files, r.init, r.base, left, d.Now())
    && files[0].id < d.nextIno && files[1].id < d.nextIno && files[2].id < d.nextIno
    && (left.Behind? ==> IsTemp(r.plan, left.name))
    && SafeSince(d.trace, r.plan, r.base, r.from)
  }

  /** Adding a held state to a safe history. */
  lemma StaysSafe(r: Run, files: seq<CommitFile>, left: Left, s: Snapshot, before: seq<Snapshot>)
    requires IsPlan(r.plan) && SamePlan(files, r.plan) && Held(files, r.init, r.base, left, s)
    requires left.Behind? ==> IsTemp(r.plan, left.name)
    requires SafeSince(before, r.plan, r.base, r.from)
    ensures SafeSince(before + [s], r.plan, r.base, r.from)
  {
    if NamesApart(r.plan) {
      assert NamesApart(files);
      HeldIsSafe(files, r.init, r.base, left, s);
      assert Safe(r.plan, r.base, s);
    }
  }

  /** A call that only takes time. */
  method Pass(d: Directory, ghost r: Run, ghost files: seq<CommitFile>, ghost left: Left) returns (o: Outcome)
    requires Under(d, r, files, left)
    modifies d`clock, d`entries, d`trace
    ensures Under(d, r, files, left)
    ensures d.entries == old(d.entries) && d.clock == old(d.clock) + 1 && o == d.outcome(old(d.clock))
  {
    ghost var before := d.trace;
    o := d.Call();
    StaysSafe(r, files, left, d.Now(), before);
  }

  /** lstat, on the way. */
  method LookStep(d: Directory, ghost r: Run, ghost files: seq<CommitFile>, name: string) returns (st: Stat)
    requires Under(d, r, files, Nothing)
    modifies d`clock, d`entries, d`trace
    ensures Under(d, r, files, Nothing) && d.entries == old(d.entries)
    ensures d.clock == old(d.clock) + 1
    ensures st == if !d.outcome(old(d.clock)).Works? then StatError else if name in d.entries then Found(d.entries[name]) else Missing
  {
    ghost var before := d.trace;
    st := d.Lstat(name);
    StaysSafe(r, files, Nothing, d.Now(), before);
  }

  /** A new inode under a temporary name, known by its identity. */
  lemma CreateKeepsHeld(files: seq<CommitFile>, init: Entries, base: nat, s: Snapshot, i: nat, ino: nat, s': Snapshot)
    requires Held(files, init, base, Nothing, s) && i < 3 && ino >= base
    requires files[i].temp !in s.entries && files[i].id == 0 && !files[i].published && !files[2].published
    requires files[0].id < ino && files[1].id < ino && files[2].id < ino
    requires s' == Snapshot(s.entries[files[i].temp := ino], s.data[ino := []])
    ensures Held(files[i := files[i].(id := ino)], init, base, Nothing, s')
  {
    var files' := files[i := files[i].(id := ino)];
    assert Mine(files'[i], files[i].temp, ino);
  }

  /** A new inode under a temporary name, left behind without one. */
  lemma LeftKeepsHeld(files: seq<CommitFile>, init: Entries, base: nat, s: Snapshot, name: string, ino: nat, s': Snapshot)
    requires Held(files, init, base, Nothing, s) && ino >= base
    requires name !in s.entries && files[0].id < ino && files[1].id < ino && files[2].id < ino
    requires s' == Snapshot(s.entries[name := ino], s.data[ino := []])
    ensures Held(files, init, base, Behind(name, ino), s')
  {
  }

  /** The run after a create that worked, with an fstat that did or did not. */
  lemma CreateMoves(r: Run, files: seq<CommitFile>, i: nat, ino: nat, s: Snapshot, before: seq<Snapshot>, left: Left, files': seq<CommitFile>, s': Snapshot)
    requires IsPlan(r.plan) && SamePlan(files, r.plan) && Held(files, r.init, r.base, Nothing, s) && i < 3 && ino >= r.base
    requires SafeSince(before, r.plan, r.base, r.from)
    requires files[i].temp !in s.entries && files[i].id == 0 && !files[i].published && !files[2].published
    requires files[0].id < ino && files[1].id < ino && files[2].id < ino
    requires s' == Snapshot(s.entries[files[i].temp := ino], s.data[ino := []])
    requires left.Nothing? || left == Behind(files[i].temp, ino)
    requires files' == files[i := files[i].(id := if left.Nothing? then ino else 0)]
    ensures Held(files', r.init, r.base, left, s') && SafeSince(before + [s', s'], r.plan, r.base, r.from)
    ensures left.Behind? ==> IsTemp(r.plan, left.name)
  {
    if left.Behind? {
      assert files' == files;
      LeftKeepsHeld(files, r.init, r.base, s, files[i].temp, ino, s');
      assert r.plan[i].temp == left.name;
    } else {
      CreateKeepsHeld(files, r.init, r.base, s, i, ino, s');
    }
    SeenTwice(r, files', left, s', before);
  }

  /** The temporary of position i comes into being. */
  method CreateTemp(d: Directory, ghost r: Run, files: seq<CommitFile>, i: nat)
    returns (files': seq<CommitFile>, ghost left: Left)
    requires Under(d, r, files, Nothing) && i < 3
    requires files[i].id == 0 && !files[0].published && !files[1].published && !files[2].published
    modifies d`clock, d`entries, d`data, d`nextIno, d`open, d`trace
    ensures Under(d, r, files', left)
    ensures files' == files[i := files[i].(id := files'[i].id)]
    ensures files'[i].id != 0 ==> files'[i].id in d.data && files[i].temp in d.entries
    ensures forall n :: n in old(d.entries) ==> n in d.entries
    ensures CreatesAs(d.outcome, files[i].temp in old(d.entries), old(d.clock), files'[i].id != 0, left, d.clock)
    ensures left.Behind? ==> left.name == files[i].temp
    ensures d.open == old(d.open) + if files'[i].id != 0 then {files'[i].id} else {}
    ensures forall k :: k in old(d.data) ==> k in d.data
  {
    ghost var was, ino0, wasTrace := d.Now(), d.nextIno, d.trace;
    var ino;
    ghost var l;
    ino, l := d.Create(files[i].temp);
    files' := files[i := files[i].(id := ino)];
    left := if l then Behind(files[i].temp, ino0) else Nothing;
    if d.nextIno > ino0 {
      CreateMoves(r, files, i, ino0, was, wasTrace, left, files', d.Now());
    } else {
      assert files' == files;
      StaysSafe(r, files, left, d.Now(), wasTrace);
    }
  }

  /** The create and the fstat after it show the same state. */
  lemma SeenTwice(r: Run, files: seq<CommitFile>, left: Left, s: Snapshot, before: seq<Snapshot>)
    requires IsPlan(r.plan) && SamePlan(files, r.plan) && Held(files, r.init, r.base, left, s)
    requires left.Behind? ==> IsTemp(r.plan, left.name)
    requires SafeSince(before, r.plan, r.base, r.from)
    ensures SafeSince(before + [s, s], r.plan, r.base, r.from)
  {
    StaysSafe(r, files, left, s, before);
    StaysSafe(r, files, left, s, before + [s]);
    assert before + [s] + [s] == before + [s, s];
  }

  /** The service group, when asked for and permitted. */
  method Adopt(d: Directory, adopt: bool, ghost r: Run, ghost files: seq<CommitFile>) returns (ok: bool)
    requires Under(d, r, files, Nothing)
    modifies d`clock, d`entries, d`trace
    ensures Under(d, r, files, Nothing)
    ensures d.entries == old(d.entries)
    ensures AdoptsAs(d.outcome, adopt, old(d.clock), ok, d.clock)
  {
    if !adopt {
      return true;
    }
    var o := Pass(d, r, files, Nothing);
    if o.NotPermitted? {
      return true;
    }
    if o.Breaks? {
      return false;
    }
    o := Pass(d, r, files, Nothing);
    return o.Works?;
  }

  /** Positions below i have an inode with content and an open descriptor; the others have none. */
  ghost predicate Staged(files: seq<CommitFile>, data: map<nat, Bytes>, i: nat)
    requires IsPlan(files)
  {
    forall j :: 0 <= j < 3 ==> !files[j].published && (j >= i <==> files[j].id == 0) && (j < i ==> files[j].id in data)
  }

  function IdsBelow(files: seq<CommitFile>, i: nat): set<nat>
    requires i <= |files|
  {
    if i == 0 then {} else IdsBelow(files, i - 1) + {files[i - 1].id}
  }

  lemma {:induction false} IdsBelowSame(a: seq<CommitFile>, b: seq<CommitFile>, i: nat)
    requires i <= |a| && i <= |b| && a[..i] == b[..i]
    ensures IdsBelow(a, i) == IdsBelow(b, i)
  {
    if i > 0 {
      assert a[..i][i - 1] == b[..i][i - 1];
      assert a[..i - 1] == a[..i][..i - 1] == b[..i][..i - 1] == b[..i - 1];
      IdsBelowSame(a, b, i - 1);
    }
  }

  predicate TempsPresent(plan: seq<CommitFile>, entries: Entries, i: nat)
    requires i <= |plan|
  {
    forall j :: 0 <= j < i ==> plan[j].temp in entries
  }

  /** While temporaries are created, the next name is taken exactly when the directory shows it. */
  lemma TakenIsThere(r: Run, files: seq<CommitFile>, s: Snapshot, i: nat)
    requires IsPlan(r.plan) && SamePlan(files, r.plan) && Held(files, r.init, r.base, Nothing, s) && i < 3
    requires Staged(files, s.data, i) && TempsPresent(r.plan, s.entries, i)
    ensures Taken(r.plan, r.init, i) <==> files[i].temp in s.entries
  {
    var n := files[i].temp;
    if n in s.entries && n !in r.init {
      assert Ours(files, n, s.entries[n]);
    }
  }

  /** One more temporary is staged. */
  lemma StagedNext(files: seq<CommitFile>, id: nat, s: Snapshot, s': Snapshot, i: nat)
    requires IsPlan(files) && i < 3 && Staged(files, s.data, i) && TempsPresent(files, s.entries, i)
    requires id != 0 && id in s'.data && files[i].temp in s'.entries
    requires (forall k :: k in s.data ==> k in s'.data) && (forall n :: n in s.entries ==> n in s'.entries)
    ensures Staged(files[i := files[i].(id := id)], s'.data, i + 1) && TempsPresent(files, s'.entries, i + 1)
    ensures files[i := files[i].(id := id)][..i] == files[..i]
  {
  }

  /** Staging position i agrees with one step of the schedule. */
  ghost predicate StagesAs(outcome: nat -> Outcome, plan: seq<CommitFile>, init: Entries, adopt: bool, start: nat, i: nat, ok: bool, left: Left, clock: nat)
    requires i < |plan|
  {
    StageFrom(outcome, plan, init, adopt, start, i) ==
      if ok then StageFrom(outcome, plan, init, adopt, clock, i + 1) else if left.Behind? then FstatFails(i, clock) else StopsAt(clock)
  }

  /** Creating a temporary: a create and, if that works, an fstat. */
  ghost predicate CreatesAs(outcome: nat -> Outcome, taken: bool, start: nat, created: bool, left: Left, clock: nat) {
    if !outcome(start).Works? || taken then !created && left.Nothing? && clock == start + 1
    else clock == start + 2 && created == outcome(start + 1).Works? && left.Behind? == !created
  }

  /** Taking the service group on: nothing unless asked for, else an fchown and, if permitted, an fchmod. */
  ghost predicate AdoptsAs(outcome: nat -> Outcome, adopt: bool, start: nat, ok: bool, clock: nat) {
    && ok == (!adopt || outcome(start).NotPermitted? || (outcome(start).Works? && outcome(start + 1).Works?))
    && clock == start + if !adopt then 0 else if outcome(start).Works? then 2 else 1
  }

  lemma StageSchedule(outcome: nat -> Outcome, plan: seq<CommitFile>, init: Entries, adopt: bool, start: nat, i: nat, created: bool, left: Left, middle: nat, ok: bool, clock: nat)
    requires i < |plan| && CreatesAs(outcome, Taken(plan, init, i), start, created, left, middle)
    requires if created then AdoptsAs(outcome, adopt, middle, ok, clock) else !ok && clock == middle
    ensures StagesAs(outcome, plan, init, adopt, start, i, ok, left, clock)
  {
  }

  /** The loop body for position i. */
  method StageOne(d: Directory, adopt: bool, ghost r: Run, files: seq<CommitFile>, i: nat)
    returns (ok: bool, files': seq<CommitFile>, ghost left: Left)
    requires Under(d, r, files, Nothing) && i < 3 && Staged(files, d.data, i) && TempsPresent(r.plan, d.entries, i)
    modifies d`clock, d`entries, d`data, d`nextIno, d`open, d`trace
    ensures Under(d, r, files', left)
    ensures ok ==> left.Nothing? && Staged(files', d.data, i + 1) && files'[..i] == files[..i]
                   && d.open == old(d.open) + {files'[i].id} && TempsPresent(r.plan, d.entries, i + 1)
    ensures StagesAs(d.outcome, r.plan, r.init, adopt, old(d.clock), i, ok, left, d.clock)
    ensures left.Behind? ==> left.name == r.plan[i].temp
    ensures !files'[2].published
  {
    ghost var start, was := d.clock, d.Now();
    TakenIsThere(r, files, was, i);
    files', left := CreateTemp(d, r, files, i);
    ok := files'[i].id != 0;
    ghost var created, middle := ok, d.clock;
    if ok {
      ok := Adopt(d, adopt, r, files');
      StagedNext(files, files'[i].id, was, d.Now(), i);
    }
    StageSchedule(d.outcome, r.plan, r.init, adopt, start, i, created, left, middle, ok, d.clock);
  }

  /** The run's own account of staging agrees with the schedule's. */
  ghost predicate EndsAs(end: StageEnd, plan: seq<CommitFile>, ok: bool, left: Left, clock: nat) {
    if ok then end == AllStaged(clock)
    else if left.Behind? then end.FstatFails? && end.clock == clock && end.position < |plan| && left.name == plan[end.position].temp
    else end == StopsAt(clock)
  }

  /** Creates the three temporaries and gives them the service group. */
  method Stage(d: Directory, plan: seq<CommitFile>, adopt: bool, ghost r: Run)
    returns (ok: bool, files: seq<CommitFile>, ghost left: Left)
    requires IsFresh(plan) && plan == r.plan && Under(d, r, plan, Nothing)
    modifies d`clock, d`entries, d`data, d`nextIno, d`open, d`trace
    ensures Under(d, r, files, left)
    ensures ok ==> left.Nothing? && Staged(files, d.data, 3) && d.open == old(d.open) + IdsBelow(files, 3)
    ensures ok ==> TempsPresent(plan, d.entries, 3)
    ensures !files[2].published
    ensures EndsAs(StageFrom(d.outcome, plan, r.init, adopt, old(d.clock), 0), plan, ok, left, d.clock)
  {
    files, left := plan, Nothing;
    for i := 0 to 3
      invariant Under(d, r, files, Nothing) && left.Nothing? && Staged(files, d.data, i) && TempsPresent(plan, d.entries, i)
      invariant StageFrom(d.outcome, plan, r.init, adopt, old(d.clock), 0) == StageFrom(d.outcome, plan, r.init, adopt, d.clock, i)
      invariant d.open == old(d.open) + IdsBelow(files, i)
    {
      ghost var before := files;
      ok, files, left := StageOne(d, adopt, r, files, i);
      if !ok {
        return;
      }
      IdsBelowSame(before, files, i);
    }
    ok := true;
  }

  lemma WriteKeepsHeld(files: seq<CommitFile>, init: Entries, base: nat, s: Snapshot, s': Snapshot)
    requires Held(files, init, base, Nothing, s) && s'.entries == s.entries
    requires !files[0].published && !files[1].published && !files[2].published
    ensures Held(files, init, base, Nothing, s')
  {
  }

  /** Positions below i hold their full content. */
  predicate Filled(files: seq<CommitFile>, data: map<nat, Bytes>, i: nat) {
    forall j :: 0 <= j < i && j < |files| ==> files[j].id in data && data[files[j].id] == files[j].data
  }

  /** write, on the way. */
  method WriteStep(d: Directory, ghost r: Run, files: seq<CommitFile>, i: nat) returns (ok: bool)
    requires Under(d, r, files, Nothing) && Staged(files, d.data, 3) && i < 3
    modifies d`clock, d`entries, d`data, d`trace
    ensures Under(d, r, files, Nothing) && Staged(files, d.data, 3)
    ensures Filled(files, old(d.data), i) && ok ==> Filled(files, d.data, i + 1)
    ensures d.entries == old(d.entries) && d.clock == old(d.clock) + 1 && ok == d.outcome(old(d.clock)).Works?
  {
    ghost var was, wasTrace := d.Now(), d.trace;
    ok := d.Write(files[i].id, files[i].data);
    WriteKeepsHeld(files, r.init, r.base, was, d.Now());
    StaysSafe(r, files, Nothing, d.Now(), wasTrace);
    assert forall j :: 0 <= j < i ==> files[j].id != files[i].id;
  }

  /** close, on the way. */
  method CloseStep(d: Directory, ghost r: Run, ghost files: seq<CommitFile>, fd: nat) returns (o: Outcome)
    requires Under(d, r, files, Nothing)
    modifies d`clock, d`entries, d`open, d`trace
    ensures Under(d, r, files, Nothing) && d.open == old(d.open) - {fd}
    ensures d.entries == old(d.entries) && d.clock == old(d.clock) + 1 && o == d.outcome(old(d.clock))
  {
    ghost var wasTrace := d.trace;
    o := d.Close(fd);
    StaysSafe(r, files, Nothing, d.Now(), wasTrace);
  }

  lemma FourRun(outcome: nat -> Outcome, start: nat, ok: bool, clock: nat)
    requires FourStepsAs(outcome, start, ok, clock)
    ensures RunsThrough(outcome, start, 4, ok, clock)
  {
  }

  predicate FourStepsAs(outcome: nat -> Outcome, c: nat, ok: bool, clock: nat) {
    if !outcome(c).Works? then !ok && clock == c + 1
    else if !outcome(c + 1).Works? then !ok && clock == c + 2
    else if !outcome(c + 2).Works? then !ok && clock == c + 3
    else ok == outcome(c + 3).Works? && clock == c + 4
  }

  /** The loop body for position i: write, sync, revalidate, close. */
  method FillOne(d: Directory, files: seq<CommitFile>, ghost r: Run, i: nat) returns (ok: bool)
    requires Under(d, r, files, Nothing) && Staged(files, d.data, 3) && i < 3 && Filled(files, d.data, i)
    modifies d`clock, d`entries, d`data, d`open, d`trace
    ensures Under(d, r, files, Nothing) && Staged(files, d.data, 3)
    ensures ok ==> Filled(files, d.data, i + 1) && d.open == old(d.open) - {files[i].id}
    ensures d.entries == old(d.entries) && FourStepsAs(d.outcome, old(d.clock), ok, d.clock)
  {
    ok := WriteStep(d, r, files, i);
    if !ok {
      return;
    }
    var o := Pass(d, r, files, Nothing);
    if !o.Works? {
      return false;
    }
    // fstat through the descriptor can only report the inode the descriptor was opened on
    o := Pass(d, r, files, Nothing);
    if !o.Works? {
      return false;
    }
    o := CloseStep(d, r, files, files[i].id);
    ok := o.Works?;
  }

  /** Fills and closes the three temporaries. */
  method Fill(d: Directory, files: seq<CommitFile>, ghost r: Run) returns (ok: bool)
    requires Under(d, r, files, Nothing) && Staged(files, d.data, 3)
    modifies d`clock, d`entries, d`data, d`open, d`trace
    ensures Under(d, r, files, Nothing) && Staged(files, d.data, 3)
    ensures ok ==> Filled(files, d.data, 3) && d.open == old(d.open) - IdsBelow(files, 3)
    ensures d.entries == old(d.entries) && RunsThrough(d.outcome, old(d.clock), 12, ok, d.clock)
  {
    for i := 0 to 3
      invariant d.entries == old(d.entries)
      invariant if i == 0 then d.clock == old(d.clock) else RunsThrough(d.outcome, old(d.clock), 4 * i, true, d.clock)
      invariant Under(d, r, files, Nothing) && Staged(files, d.data, 3)
      invariant Filled(files, d.data, i) && d.open == old(d.open) - IdsBelow(files, i)
    {
      ghost var clock := d.clock;
      ok := FillOne(d, files, r, i);
      FourRun(d.outcome, clock, ok, d.clock);
      if i > 0 {
        RunsOn(d.outcome, old(d.clock), 4 * i, clock, 4, ok, d.clock);
      }
      if !ok {
        return;
      }
    }
    ok := true;
  }

  predicate TempGone(f: CommitFile, entries: Entries) {
    f.temp in entries ==> entries[f.temp] != f.id
  }

  lemma LinkKeepsHeld(files: seq<CommitFile>, init: Entries, base: nat, s: Snapshot, i: nat, s': Snapshot)
    requires Held(files, init, base, Nothing, s) && i < 3 && !files[i].published && files[i].id != 0
    requires i == 2 ==> files[0].published && files[1].published
    requires i < 2 ==> !files[2].published
    requires files[i].temp in s.entries && s.entries[files[i].temp] == files[i].id
    requires files[i].final !in s.entries && files[i].id in s.data && s.data[files[i].id] == files[i].data
    requires s' == s.(entries := s.entries[files[i].final := files[i].id])
    ensures Held(files[i := files[i].(published := true)], init, base, Nothing, s')
  {
    var files' := files[i := files[i].(published := true)];
    assert Mine(files'[i], files[i].final, files[i].id);
  }

  lemma UnlinkKeepsHeld(files: seq<CommitFile>, init: Entries, base: nat, s: Snapshot, i: nat, s': Snapshot)
    requires Held(files, init, base, Nothing, s) && i < 3 && files[i].id != 0
    requires files[i].temp in s.entries && s.entries[files[i].temp] == files[i].id && files[i].temp != files[i].final
    requires s' == s.(entries := s.entries - {files[i].temp})
    ensures Held(files, init, base, Nothing, s')
  {
  }

  lemma LinkMoves(r: Run, files: seq<CommitFile>, i: nat, s: Snapshot, before: seq<Snapshot>, files': seq<CommitFile>, s': Snapshot)
    requires IsPlan(r.plan) && SamePlan(files, r.plan) && Held(files, r.init, r.base, Nothing, s) && i < 3
    requires SafeSince(before, r.plan, r.base, r.from)
    requires !files[i].published && files[i].id != 0
    requires i == 2 ==> files[0].published && files[1].published
    requires i < 2 ==> !files[2].published
    requires files[i].temp in s.entries && s.entries[files[i].temp] == files[i].id
    requires files[i].final !in s.entries && files[i].id in s.data && s.data[files[i].id] == files[i].data
    requires files' == files[i := files[i].(published := true)] && s' == s.(entries := s.entries[files[i].final := files[i].id])
    ensures SamePlan(files', r.plan) && Held(files', r.init, r.base, Nothing, s') && SafeSince(before + [s'], r.plan, r.base, r.from)
  {
    LinkKeepsHeld(files, r.init, r.base, s, i, s');
    StaysSafe(r, files', Nothing, s', before);
  }

  /** link, on the way. */
  method LinkStep(d: Directory, ghost r: Run, files: seq<CommitFile>, i: nat) returns (ok: bool)
    requires Under(d, r, files, Nothing) && i < 3 && !files[i].published && files[i].id != 0
    requires i == 2 ==> files[0].published && files[1].published
    requires i < 2 ==> !files[2].published
    requires files[i].temp in d.entries && d.entries[files[i].temp] == files[i].id
    requires files[i].id in d.data && d.data[files[i].id] == files[i].data
    modifies d`clock, d`entries, d`trace
    ensures ok ==> Under(d, r, files[i := files[i].(published := true)], Nothing)
                   && files[i].temp != files[i].final && d.entries == old(d.entries)[files[i].final := files[i].id]
    ensures !ok ==> Under(d, r, files, Nothing) && d.entries == old(d.entries)
    ensures d.clock == old(d.clock) + 1 && ok == (d.outcome(old(d.clock)).Works? && files[i].final !in old(d.entries))
  {
    ghost var was, wasTrace := d.Now(), d.trace;
    ok := d.Link(files[i].temp, files[i].final);
    if ok {
      ghost var files' := files[i := files[i].(published := true)];
      LinkMoves(r, files, i, was, wasTrace, files', d.Now());
    } else {
      StaysSafe(r, files, Nothing, d.Now(), wasTrace);
    }
  }

  /** unlink of a published file's temporary, on the way. */
  method UnlinkStep(d: Directory, ghost r: Run, files: seq<CommitFile>, i: nat) returns (ok: bool)
    requires Under(d, r, files, Nothing) && i < 3 && files[i].id != 0 && files[i].temp != files[i].final
    requires files[i].temp in d.entries && d.entries[files[i].temp] == files[i].id
    modifies d`clock, d`entries, d`trace, d`removed
    ensures Under(d, r, files, Nothing)
    ensures d.entries == if ok then old(d.entries) - {files[i].temp} else old(d.entries)
    ensures d.clock == old(d.clock) + 1 && ok == d.outcome(old(d.clock)).Works?
  {
    ghost var was, wasTrace := d.Now(), d.trace;
    ok := d.Unlink(files[i].temp);
    if ok {
      UnlinkKeepsHeld(files, r.init, r.base, was, i, d.Now());
    }
    StaysSafe(r, files, Nothing, d.Now(), wasTrace);
  }

  /** Linking and unlinking names of one file does not bring another file's temporary back. */
  lemma OthersStayGone(f: CommitFile, other: CommitFile, entries: Entries)
    requires f.id != other.id && TempGone(other, entries)
    ensures TempGone(other, entries[f.final := f.id]) && TempGone(other, entries[f.final := f.id] - {f.temp})
  {
  }

  /** The temporary is there with its inode and the final name is free. */
  predicate InLine(f: CommitFile, entries: Entries) {
    f.temp in entries && entries[f.temp] == f.id && f.final !in entries
  }

  predicate AllInLine(files: seq<CommitFile>, entries: Entries, i: nat) {
    forall j :: i <= j < |files| ==> InLine(files[j], entries)
  }

  /** Staging leaves every file in line. */
  lemma StagedInLine(r: Run, files: seq<CommitFile>, s: Snapshot)
    requires IsPlan(r.plan) && SamePlan(files, r.plan) && Held(files, r.init, r.base, Nothing, s)
    requires Staged(files, s.data, 3) && TempsPresent(r.plan, s.entries, 3)
    ensures Free(r.plan, r.init) ==> AllInLine(files, s.entries, 0)
  {
    forall j | 0 <= j < 3 && Free(r.plan, r.init) ensures InLine(files[j], s.entries) {
      assert files[j].temp == r.plan[j].temp && files[j].final == r.plan[j].final;
      assert Ours(files, files[j].temp, s.entries[files[j].temp]);
      assert files[j].final in s.entries ==> Ours(files, files[j].final, s.entries[files[j].final]);
    }
  }

  /** Publishing one file leaves the later ones in line. */
  lemma LaterStayInLine(plan: seq<CommitFile>, files: seq<CommitFile>, i: nat, p: bool, e: Entries, e': Entries)
    requires SamePlan(files, plan) && i < |files|
    requires e' == e || e' == e[files[i].final := files[i].id] || e' == e[files[i].final := files[i].id] - {files[i].temp}
    ensures Apart(plan) && AllInLine(files, e, i) ==> AllInLine(files[i := files[i].(published := p)], e', i + 1)
  {
    if Apart(plan) && AllInLine(files, e, i) {
      forall j | i < j < |files| ensures InLine(files[j], e') {
        assert InLine(files[j], e);
        assert files[j].temp == plan[j].temp && files[i].temp == plan[i].temp;
        assert files[j].final == plan[j].final && files[i].final == plan[i].final;
      }
    }
  }

  /** Publishing one file keeps the earlier ones published. */
  lemma PublishedStay(files: seq<CommitFile>, i: nat, s: Snapshot, s': Snapshot)
    requires IsPlan(files) && PublishedTo(files, s, i) && i < 3 && s'.data == s.data
    requires files[0].id != files[1].id && files[0].id != files[2].id && files[1].id != files[2].id
    requires s'.entries == s.entries || s'.entries == s.entries[files[i].final := files[i].id]
          || s'.entries == s.entries[files[i].final := files[i].id] - {files[i].temp}
    requires TempGone(files[i], s'.entries)
    ensures PublishedTo(files[i := files[i].(published := true)], s', i + 1)
  {
    forall j | 0 <= j < i ensures TempGone(files[j], s'.entries) {
      OthersStayGone(files[i], files[j], s.entries);
    }
  }

  /** A file in line: lstat, link and unlink, and it is published when two of them worked. */
  ghost predicate PublishedAs(outcome: nat -> Outcome, start: nat, published: bool, ok: bool, clock: nat) {
    && (published <==> clock == start + 3)
    && (if !outcome(start).Works? then !ok && clock == start + 1
        else if !outcome(start + 1).Works? then !ok && clock == start + 2
        else ok == outcome(start + 2).Works? && clock == start + 3)
  }

  /** publishCommitFile for position i. */
  method Publish(d: Directory, ghost r: Run, files: seq<CommitFile>, i: nat) returns (ok: bool, published: bool)
    requires Under(d, r, files, Nothing) && i < 3 && !files[i].published && files[i].id != 0
    requires i == 2 ==> files[0].published && files[1].published
    requires i < 2 ==> !files[2].published
    requires files[i].id in d.data && d.data[files[i].id] == files[i].data
    modifies d`clock, d`entries, d`trace, d`removed
    ensures Under(d, r, files[i := files[i].(published := published)], Nothing)
    ensures ok ==> published && TempGone(files[i], d.entries)
    ensures d.entries == old(d.entries) || d.entries == old(d.entries)[files[i].final := files[i].id]
         || d.entries == old(d.entries)[files[i].final := files[i].id] - {files[i].temp}
    ensures InLine(files[i], old(d.entries)) ==> PublishedAs(d.outcome, old(d.clock), published, ok, d.clock)
  {
    var st := LookStep(d, r, files, files[i].temp);
    if st != Found(files[i].id) {
      assert files[i := files[i].(published := false)] == files;
      return false, false;
    }
    ok := LinkStep(d, r, files, i);
    if !ok {
      assert files[i := files[i].(published := false)] == files;
      return false, false;
    }
    published := true;
    ok := UnlinkStep(d, r, files[i := files[i].(published := true)], i);
  }

  /** Every position has an inode holding its content; those below i are published and rid of their temporaries. */
  ghost predicate PublishedTo(files: seq<CommitFile>, s: Snapshot, i: nat)
    requires IsPlan(files)
  {
    && Filled(files, s.data, 3)
    && (forall j :: 0 <= j < 3 ==> files[j].id != 0)
    && (forall j :: 0 <= j < 3 && j < i ==> files[j].published && TempGone(files[j], s.entries))
    && (forall j :: i <= j < 3 ==> !files[j].published)
  }

  /** Publishing the next position. */
  method PublishNext(d: Directory, ghost r: Run, files: seq<CommitFile>, i: nat) returns (ok: bool, files': seq<CommitFile>)
    requires Under(d, r, files, Nothing) && i < 3 && PublishedTo(files, d.Now(), i)
    modifies d`clock, d`entries, d`trace, d`removed
    ensures Under(d, r, files', Nothing)
    ensures ok ==> PublishedTo(files', d.Now(), i + 1)
    ensures Apart(r.plan) && AllInLine(files, old(d.entries), i) ==> AllInLine(files', d.entries, i + 1)
    ensures AllInLine(files, old(d.entries), i) ==> PublishedAs(d.outcome, old(d.clock), files'[i].published, ok, d.clock)
    ensures |files'| == 3 && files' == files[i := files[i].(published := files'[i].published)]
  {
    ghost var was := d.Now();
    var p;
    ok, p := Publish(d, r, files, i);
    files' := files[i := files[i].(published := p)];
    if ok {
      PublishedStay(files, i, was, d.Now());
    }
    LaterStayInLine(r.plan, files, i, p, was.entries, d.entries);
  }

  /** The two authentication files and a directory sync: seven calls that must all work. */
  method PublishAuth(d: Directory, ghost r: Run, files: seq<CommitFile>) returns (ok: bool, files': seq<CommitFile>)
    requires Under(d, r, files, Nothing) && PublishedTo(files, d.Now(), 0)
    modifies d`clock, d`entries, d`trace, d`removed
    ensures Under(d, r, files', Nothing) && !files'[2].published
    ensures ok ==> PublishedTo(files', d.Now(), 2)
    ensures Apart(r.plan) && AllInLine(files, old(d.entries), 0) ==>
              RunsThrough(d.outcome, old(d.clock), 7, ok, d.clock) && (ok ==> AllInLine(files', d.entries, 2))
  {
    ghost var start, inLine := d.clock, Apart(r.plan) && AllInLine(files, d.entries, 0);
    ok, files' := PublishNext(d, r, files, 0);
    ghost var first, c1 := ok, d.clock;
    if ok {
      ok, files' := PublishNext(d, r, files', 1);
    }
    ghost var second, c2 := ok, d.clock;
    if ok {
      var o := Pass(d, r, files', Nothing);
      ok := o.Works?;
    }
    if inLine {
      AuthSchedule(d.outcome, start, files'[0].published, first, c1, files'[1].published, second, c2, ok, d.clock);
    }
  }

  lemma AuthSchedule(outcome: nat -> Outcome, start: nat, pepper: bool, first: bool, c1: nat, users: bool, second: bool, c2: nat, ok: bool, clock: nat)
    requires PublishedAs(outcome, start, pepper, first, c1)
    requires if first then PublishedAs(outcome, c1, users, second, c2) else !second && c2 == c1
    requires if second then clock == c2 + 1 && ok == outcome(c2).Works? else !ok && clock == c2
    ensures RunsThrough(outcome, start, 7, ok, clock)
  {
    if first {
      RunsOn(outcome, start, 3, c1, 3, second, c2);
    }
    if second {
      RunsOn(outcome, start, 6, c2, 1, ok, clock);
    }
  }

  /** The config and another sync. */
  method PublishConfig(d: Directory, ghost r: Run, files: seq<CommitFile>) returns (ok: bool, files': seq<CommitFile>)
    requires Under(d, r, files, Nothing) && PublishedTo(files, d.Now(), 2)
    modifies d`clock, d`entries, d`trace, d`removed
    ensures Under(d, r, files', Nothing)
    ensures ok ==> PublishedTo(files', d.Now(), 3)
    ensures AllInLine(files, old(d.entries), 2) ==>
              ConfigPublishedAs(d.outcome, old(d.clock), files'[2].published, ok, d.clock)
  {
    ghost var start, inLine := d.clock, AllInLine(files, d.entries, 2);
    ok, files' := PublishNext(d, r, files, 2);
    ghost var first, middle := ok, d.clock;
    if ok {
      var o := Pass(d, r, files', Nothing);
      ok := o.Works?;
    }
    if inLine {
      ConfigSchedule(d.outcome, start, files'[2].published, first, middle, ok, d.clock);
    }
  }

  /** The config is out once its lstat and link worked; the unlink of its temporary or the last sync may still fail. */
  ghost predicate ConfigPublishedAs(outcome: nat -> Outcome, start: nat, config: bool, ok: bool, clock: nat) {
    RunsThrough(outcome, start, 4, ok, clock) && (config <==> clock >= start + 3)
  }

  lemma ConfigSchedule(outcome: nat -> Outcome, start: nat, config: bool, first: bool, middle: nat, ok: bool, clock: nat)
    requires PublishedAs(outcome, start, config, first, middle)
    requires if first then clock == middle + 1 && ok == outcome(middle).Works? else !ok && clock == middle
    ensures ConfigPublishedAs(outcome, start, config, ok, clock)
  {
    if first {
      RunsOn(outcome, start, 3, middle, 1, ok, clock);
    }
  }

  /** The config is out when the first nine of the eleven calls of publication work. */
  ghost predicate AllPublishedAs(outcome: nat -> Outcome, start: nat, config: bool, ok: bool, clock: nat) {
    RunsThrough(outcome, start, 11, ok, clock) && (config <==> clock >= start + 10)
  }

  lemma PublicationSchedule(outcome: nat -> Outcome, start: nat, auth: bool, middle: nat, config: bool, ok: bool, clock: nat)
    requires RunsThrough(outcome, start, 7, auth, middle)
    requires if auth then ConfigPublishedAs(outcome, middle, config, ok, clock) else !config && !ok && clock == middle
    ensures AllPublishedAs(outcome, start, config, ok, clock)
  {
    if auth {
      RunsOn(outcome, start, 7, middle, 4, ok, clock);
    }
  }

  /** The two authentication files, a directory sync, the config, another sync. */
  method PublishAll(d: Directory, ghost r: Run, files: seq<CommitFile>) returns (ok: bool, files': seq<CommitFile>)
    requires Under(d, r, files, Nothing) && PublishedTo(files, d.Now(), 0)
    modifies d`clock, d`entries, d`trace, d`removed
    ensures Under(d, r, files', Nothing)
    ensures ok ==> PublishedTo(files', d.Now(), 3)
    ensures Apart(r.plan) && AllInLine(files, old(d.entries), 0) ==>
              AllPublishedAs(d.outcome, old(d.clock), files'[2].published, ok, d.clock)
  {
    ghost var start, inLine := d.clock, Apart(r.plan) && AllInLine(files, d.entries, 0);
    ok, files' := PublishAuth(d, r, files);
    ghost var auth, middle := ok, d.clock;
    if ok {
      ok, files' := PublishConfig(d, r, files');
    }
    if inLine {
      PublicationSchedule(d.outcome, start, auth, middle, files'[2].published, ok, d.clock);
    }
  }

  /** Looks for the final names; anything but three clean misses stops the run before it changes anything. */
  method AllAbsent(d: Directory, plan: seq<CommitFile>) returns (ok: bool)
    requires IsPlan(plan) && d.Calm()
    modifies d`clock, d`entries, d`trace
    ensures d.entries == old(d.entries) && d.clock >= old(d.clock) && old(d.trace) <= d.trace
    ensures forall k :: |old(d.trace)| <= k < |d.trace| ==> d.trace[k] == d.Now()
    ensures ok <==> Misses(d.outcome, plan, d.entries, old(d.clock))
    ensures ok ==> d.clock == old(d.clock) + 3
  {
    var existing := false;
    for i := 0 to 3
      invariant d.clock == old(d.clock) + i && (i > 0 ==> d.outcome(old(d.clock)).Works?)
      invariant (i > 1 ==> d.outcome(old(d.clock) + 1).Works?) && (i > 2 ==> d.outcome(old(d.clock) + 2).Works?)
      invariant existing ==> plan[0].final in d.entries || plan[1].final in d.entries || plan[2].final in d.entries
      invariant d.entries == old(d.entries) && d.clock >= old(d.clock) && old(d.trace) <= d.trace
      invariant forall k :: |old(d.trace)| <= k < |d.trace| ==> d.trace[k] == d.Now()
      invariant !existing ==> forall j :: 0 <= j < i ==> plan[j].final !in d.entries
    {
      var st := d.Lstat(plan[i].final);
      if st.StatError? {
        return false;
      }
      if st.Found? {
        existing := true;
      }
    }
    ok := !existing;
  }

  predicate FinalsDiffer(files: seq<CommitFile>)
    requires IsPlan(files)
  {
    files[0].final != files[1].final && files[0].final != files[2].final && files[1].final != files[2].final
  }

  /** The three names the plan publishes. */
  function Published(files: seq<CommitFile>): Entries
    requires IsPlan(files)
  {
    map[files[0].final := files[0].id, files[1].final := files[1].id, files[2].final := files[2].id]
  }

  /** Once all three are published and their temporaries gone, nothing else is left of the run. */
  lemma ExactlyPublished(files: seq<CommitFile>, init: Entries, base: nat, s: Snapshot)
    requires Held(files, init, base, Nothing, s) && PublishedTo(files, s, 3)
    ensures s.entries == init + Published(files)
    ensures forall j :: 0 <= j < 3 ==> files[j].final !in init
    ensures FinalsDiffer(files)
  {
    var p := Published(files);
    assert files[0].published && files[1].published && files[2].published;
    assert files[0].final != files[1].final && files[0].final != files[2].final && files[1].final != files[2].final;
    forall n: string ensures n in s.entries <==> n in init + p {
      NothingElse(files, init, base, s, n);
    }
    forall n | n in init + p ensures s.entries[n] == (init + p)[n] {
      NothingElse(files, init, base, s, n);
    }
  }

  lemma NothingElse(files: seq<CommitFile>, init: Entries, base: nat, s: Snapshot, n: string)
    requires Held(files, init, base, Nothing, s) && PublishedTo(files, s, 3)
    ensures n in s.entries <==> n in init || n == files[0].final || n == files[1].final || n == files[2].final
  {
    if n in s.entries && n !in init {
      assert Ours(files, n, s.entries[n]);
      assert TempGone(files[0], s.entries) && TempGone(files[1], s.entries) && TempGone(files[2], s.entries);
    }
  }

  /** How one run of commitInitArtifacts ended. from..to is the clock span of its rollback, if any. */
  datatype Result = Committed | Rejected | RolledBack(from: nat, to: nat, left: Left)

  lemma StartsUnder(d: Directory, r: Run)
    requires IsFresh(r.plan) && d.Valid() && d.Calm() && d.entries == r.init && d.nextIno == r.base
    requires r.from <= |d.trace| && SafeSince(d.trace, r.plan, r.base, r.from)
    ensures Under(d, r, r.plan, Nothing)
  {
  }

  /** Closing the directory shows the last state once more: bare or safe. */
  lemma ClosedAs(r: Run, before: seq<Snapshot>, s: Snapshot)
    requires IsPlan(r.plan) && r.from <= |before|
    ensures SafeSince(before, r.plan, r.base, r.from) && (NamesApart(r.plan) ==> Safe(r.plan, r.base, s)) ==>
              SafeSince(before + [s], r.plan, r.base, r.from)
    ensures NamesApart(r.plan) && Bare(r.plan, r.base, s.entries) ==> !SafeSince(before + [s], r.plan, r.base, r.from)
  {
    var after := before + [s];
    assert after[|before|] == s;
    assert forall k :: 0 <= k < |before| ==> after[k] == before[k];
  }

  /** Once the run's descriptors are closed, those open before are open. */
  lemma OpenAgain(files: seq<CommitFile>, base: nat, was: set<nat>, open: set<nat>)
    requires IsPlan(files) && files[0].id >= base && files[1].id >= base && files[2].id >= base
    requires open == was + IdsBelow(files, 3) && forall fd :: fd in was ==> fd < base
    ensures open - IdsBelow(files, 3) == was
  {
    IdsAreNew(files, base, 3);
  }

  lemma {:induction false} IdsAreNew(files: seq<CommitFile>, base: nat, i: nat)
    requires i <= |files| && forall j :: 0 <= j < i ==> files[j].id >= base
    ensures forall fd :: fd in IdsBelow(files, i) ==> fd >= base
  {
    if i > 0 {
      IdsAreNew(files, base, i - 1);
    }
  }

  /** Opening the directory and every check that precedes the first change. */
  method OpenAndCheck(d: Directory, plan: seq<CommitFile>, trusted: bool) returns (proceed: bool, entered: bool)
    requires IsPlan(plan) && d.Valid() && d.Calm() && DIR_FD !in d.open
    modifies d`clock, d`entries, d`open, d`trace
    ensures d.Valid() && d.entries == old(d.entries) && old(d.trace) <= d.trace
    ensures proceed ==> entered
    ensures proceed <==> Proceeds(d.outcome, plan, d.entries, trusted, old(d.clock))
    ensures proceed ==> d.clock == old(d.clock) + 5
    ensures d.open == old(d.open) + if entered then {DIR_FD} else {}
    ensures SafeSince(d.trace, plan, d.nextIno, |old(d.trace)|)
  {
    var o := d.Call();
    if !o.Works? {
      return false, false;
    }
    d.open := d.open + {DIR_FD};
    if !trusted {
      return false, true;
    }
    o := d.Call();
    if !o.Works? {
      return false, true;
    }
    proceed := AllAbsent(d, plan);
    entered := true;
  }

  /**
   commitInitArtifacts. trusted: the directory belongs to the effective user and is not writable
   by others. Success leaves exactly three new names, each leading to a complete file. A failure
   before the first temporary changes nothing. A later failure whose rollback calls all work
   restores the initial entries, except for a temporary whose exclusive create succeeded and whose
   fstat then failed. Our config name is never seen without its two companions, unless the schedule
   exposes it: the run fails after the config was published, the rollback's lstat or unlink of the
   config's name fails, and one of the other two names is removed all the same. Such a run ends with
   the config bare.
   */
  method Commit(d: Directory, plan: seq<CommitFile>, adopt: bool, trusted: bool) returns (ok: bool, ghost result: Result, ghost files: seq<CommitFile>)
    requires IsFresh(plan) && d.Valid() && d.Calm()
    requires DIR_FD !in d.open && forall fd :: fd in d.open ==> fd < d.nextIno
    modifies d
    ensures IsPlan(files) && SamePlan(files, plan) && (ok <==> result.Committed?)
    ensures NamesApart(plan) ==> (ok <==> Commits(d.outcome, plan, old(d.entries), adopt, trusted, old(d.clock)))
    ensures result.Committed? ==>
              && d.entries == old(d.entries) + Published(files) && FinalsDiffer(files)
              && (forall i :: 0 <= i < 3 ==> plan[i].final !in old(d.entries))
              && Filled(files, d.data, 3)
              && d.open == old(d.open) + {DIR_FD}
    ensures result.Rejected? ==> d.entries == old(d.entries) && d.data == old(d.data) && d.open == old(d.open)
    ensures result.RolledBack? && d.Clean(result.from, result.to) ==>
              && d.entries == Plus(old(d.entries), result.left)
              && (result.left.Behind? ==> result.left.name !in old(d.entries))
              && (d.entries == old(d.entries) <==> !LeavesBehind(d.outcome, plan, old(d.entries), adopt, trusted, old(d.clock)))
    ensures result.RolledBack? <==> !ok && Proceeds(d.outcome, plan, old(d.entries), trusted, old(d.clock))
    ensures (result.RolledBack? && result.left.Behind?) <==> LeavesBehind(d.outcome, plan, old(d.entries), adopt, trusted, old(d.clock))
    ensures result.RolledBack? && result.left.Behind? ==>
              var end := StageFrom(d.outcome, plan, old(d.entries), adopt, old(d.clock) + 5, 0);
              end.position < 3 && result.left.name == plan[end.position].temp && result.from == end.clock
    ensures result.RolledBack? && NoClash(plan, old(d.entries)) ==> result.from > 0 && !d.outcome(result.from - 1).Works?
    ensures result.RolledBack? ==> DIR_FD !in d.open
    ensures SafeSince(d.trace, plan, old(d.nextIno), |old(d.trace)|) <==>
              !(NamesApart(plan) && Exposes(d.outcome, plan, old(d.entries), adopt, trusted, old(d.clock)))
    ensures NamesApart(plan) && Exposes(d.outcome, plan, old(d.entries), adopt, trusted, old(d.clock)) ==>
              result.RolledBack? && Bare(plan, old(d.nextIno), d.entries)
  {
    files := plan;
    ghost var r := Run(plan, d.entries, d.nextIno, |d.trace|);
    var entered;
    ok, entered := OpenAndCheck(d, plan, trusted);
    if ok {
      StartsUnder(d, r);
      ok, result, files := RunPlan(d, plan, adopt, r);
    } else {
      result := Rejected;
    }
    if entered && !ok {
      CloseDirectory(d, r);
    }
  }

  /** The deferred close: nothing changes but the descriptor, and an unsafe end is seen. */
  method CloseDirectory(d: Directory, ghost r: Run)
    requires IsPlan(r.plan) && d.Calm() && r.from <= |d.trace|
    modifies d`clock, d`entries, d`open, d`trace
    ensures d.entries == old(d.entries) && d.open == old(d.open) - {DIR_FD}
    ensures SafeSince(old(d.trace), r.plan, r.base, r.from) && (NamesApart(r.plan) ==> Safe(r.plan, r.base, d.Now())) ==>
              SafeSince(d.trace, r.plan, r.base, r.from)
    ensures NamesApart(r.plan) && Bare(r.plan, r.base, d.entries) ==> !SafeSince(d.trace, r.plan, r.base, r.from)
  {
    ghost var before := d.trace;
    var o := d.Close(DIR_FD);
    ClosedAs(r, before, d.Now());
  }

  lemma SafeNow(r: Run, files: seq<CommitFile>, s: Snapshot)
    requires IsPlan(r.plan) && SamePlan(files, r.plan) && Held(files, r.init, r.base, Nothing, s)
    ensures NamesApart(r.plan) ==> Safe(r.plan, r.base, s)
  {
    if NamesApart(r.plan) {
      assert NamesApart(files);
      HeldIsSafe(files, r.init, r.base, Nothing, s);
    }
  }

  /** From the first temporary to the last sync, with the rollback that any failure calls for. */
  method RunPlan(d: Directory, plan: seq<CommitFile>, adopt: bool, ghost r: Run) returns (ok: bool, ghost result: Result, ghost files: seq<CommitFile>)
    requires IsFresh(plan) && plan == r.plan && Under(d, r, plan, Nothing) && d.Calm()
    requires forall fd :: fd in d.open ==> fd < r.base
    modifies d
    ensures IsPlan(files) && SamePlan(files, plan) && !result.Rejected? && (ok <==> result.Committed?)
    ensures ok ==>
              && d.entries == r.init + Published(files) && FinalsDiffer(files)
              && (forall i :: 0 <= i < 3 ==> plan[i].final !in r.init)
              && Filled(files, d.data, 3) && d.open == old(d.open)
    ensures result.RolledBack? && d.Clean(result.from, result.to) ==>
              && d.entries == Plus(r.init, result.left)
              && (result.left.Behind? ==> result.left.name !in r.init)
    ensures result.RolledBack? && result.left.Behind? ==> IsTemp(plan, result.left.name)
    ensures var end := StageFrom(d.outcome, plan, r.init, adopt, old(d.clock), 0);
            && (end.FstatFails? <==> result.RolledBack? && result.left.Behind?)
            && (end.FstatFails? ==> end.position < 3 && result.left.name == plan[end.position].temp && result.from == end.clock)
    ensures result.RolledBack? && Free(plan, r.init) ==>
              result.from > 0 && !d.outcome(result.from - 1).Works?
    ensures NamesApart(plan) && NoneFinal(plan, r.init) ==>
              (ok <==> CommitsAfter(d.outcome, StageFrom(d.outcome, plan, r.init, adopt, old(d.clock), 0)))
    ensures ok ==> SafeSince(d.trace, plan, r.base, r.from)
    ensures r.from <= |d.trace|
    ensures NamesApart(plan) && NoneFinal(plan, r.init) ==>
              if ExposesAfter(d.outcome, StageFrom(d.outcome, plan, r.init, adopt, old(d.clock), 0)) then !ok && Bare(plan, r.base, d.entries)
              else SafeSince(d.trace, plan, r.base, r.from) && Safe(plan, r.base, d.Now())
  {
    var staged;
    ghost var left;
    ok, staged, left := Try(d, plan, adopt, r);
    files := staged;
    if ok {
      ExactlyPublished(staged, r.init, r.base, d.Now());
      SafeNow(r, staged, d.Now());
      result := Committed;
    } else {
      result := UndoRun(d, r, staged, left);
    }
  }

  /** The run without its rollback. */
  method Try(d: Directory, plan: seq<CommitFile>, adopt: bool, ghost r: Run)
    returns (ok: bool, files: seq<CommitFile>, ghost left: Left)
    requires IsFresh(plan) && plan == r.plan && Under(d, r, plan, Nothing)
    requires forall fd :: fd in d.open ==> fd < r.base
    modifies d
    ensures Under(d, r, files, left)
    ensures ok ==> left.Nothing? && PublishedTo(files, d.Now(), 3) && d.open == old(d.open)
    ensures TriesAs(d.outcome, plan, r.init, adopt, old(d.clock), left, ok, files[2].published, d.clock)
  {
    ghost var start := d.clock;
    ok, files, left := Prepare(d, plan, adopt, r);
    ghost var prepared, middle := ok, d.clock;
    if ok {
      ok, files := PublishAll(d, r, files);
    }
    TrySchedule(d.outcome, plan, r.init, adopt, start, prepared, left, middle, ok, files[2].published, d.clock);
  }

  /**
   How the run before its rollback agrees with the schedule: a file is left behind, or the config is
   out after a failure, exactly when the schedule says so, and the rollback then starts when it says.
   */
  ghost predicate TriesAs(outcome: nat -> Outcome, plan: seq<CommitFile>, init: Entries, adopt: bool, start: nat, left: Left, ok: bool, config: bool, clock: nat) {
    var end := StageFrom(outcome, plan, init, adopt, start, 0);
    && LeftAs(end, plan, left, clock)
    && (Free(plan, init) && !ok ==> clock > 0 && !outcome(clock - 1).Works?)
    && (NamesApart(plan) && NoneFinal(plan, init) ==>
          && (ok <==> CommitsAfter(outcome, end))
          && (!ok && config <==> end.AllStaged? && FailsPublished(outcome, end.clock))
          && (!ok && config ==> clock == UndoFrom(outcome, end.clock)))
  }

  lemma TrySchedule(outcome: nat -> Outcome, plan: seq<CommitFile>, init: Entries, adopt: bool, start: nat,
                    prepared: bool, left: Left, middle: nat, ok: bool, config: bool, clock: nat)
    requires PreparesAs(outcome, plan, init, adopt, start, prepared, left, middle)
    requires if prepared then Free(plan, init) ==> AllPublishedAs(outcome, middle, config, ok, clock)
             else !ok && !config && clock == middle
    ensures TriesAs(outcome, plan, init, adopt, start, left, ok, config, clock)
  {
    var end := StageFrom(outcome, plan, init, adopt, start, 0);
    if prepared && NamesApart(plan) && NoneFinal(plan, init) {
      StagedIsFree(outcome, plan, init, adopt, start);
      RunsOn(outcome, end.clock, 12, middle, 11, ok, clock);
      LateFailure(outcome, end.clock, ok, config, clock);
    } else if end.AllStaged? && !prepared {
      assert !AllWork(outcome, end.clock, end.clock + 21) && !AllWork(outcome, end.clock, end.clock + 23);
    }
  }

  lemma LateFailure(outcome: nat -> Outcome, staged: nat, ok: bool, config: bool, clock: nat)
    requires RunsThrough(outcome, staged, 23, ok, clock) && (config <==> clock >= staged + 22)
    ensures ok <==> AllWork(outcome, staged, staged + 23)
    ensures !ok && config <==> FailsPublished(outcome, staged)
    ensures !ok && config ==> clock == UndoFrom(outcome, staged)
  {
  }

  /** Creating and filling agree with the schedule: after the last temporary, twelve calls that must work. */
  ghost predicate PreparesAs(outcome: nat -> Outcome, plan: seq<CommitFile>, init: Entries, adopt: bool, start: nat, ok: bool, left: Left, clock: nat) {
    var end := StageFrom(outcome, plan, init, adopt, start, 0);
    && LeftAs(end, plan, left, clock)
    && (if end.AllStaged? then RunsThrough(outcome, end.clock, 12, ok, clock) else !ok)
    && (Free(plan, init) && !ok ==> clock > 0 && !outcome(clock - 1).Works?)
  }

  lemma PrepareSchedule(outcome: nat -> Outcome, plan: seq<CommitFile>, init: Entries, adopt: bool, start: nat, staged: bool, left: Left, middle: nat, ok: bool, clock: nat)
    requires EndsAs(StageFrom(outcome, plan, init, adopt, start, 0), plan, staged, left, middle)
    requires if staged then left.Nothing? && RunsThrough(outcome, middle, 12, ok, clock) else !ok && clock == middle
    ensures PreparesAs(outcome, plan, init, adopt, start, ok, left, clock)
  {
    if Free(plan, init) {
      StagingStopsAtFailure(outcome, plan, init, adopt, start, 0);
    }
  }

  /** A file is left behind where the schedule has an fstat fail after its create. */
  ghost predicate LeftAs(end: StageEnd, plan: seq<CommitFile>, left: Left, clock: nat) {
    && (end.FstatFails? <==> left.Behind?)
    && (end.FstatFails? ==> end.position < |plan| && left.name == plan[end.position].temp && clock == end.clock)
  }

  /** The temporaries, created, filled and closed. */
  method Prepare(d: Directory, plan: seq<CommitFile>, adopt: bool, ghost r: Run)
    returns (ok: bool, files: seq<CommitFile>, ghost left: Left)
    requires IsFresh(plan) && plan == r.plan && Under(d, r, plan, Nothing)
    requires forall fd :: fd in d.open ==> fd < r.base
    modifies d`clock, d`entries, d`data, d`nextIno, d`open, d`trace
    ensures Under(d, r, files, left)
    ensures ok ==> left.Nothing? && PublishedTo(files, d.Now(), 0) && d.open == old(d.open)
    ensures Free(plan, r.init) && ok ==> AllInLine(files, d.entries, 0)
    ensures PreparesAs(d.outcome, plan, r.init, adopt, old(d.clock), ok, left, d.clock)
    ensures !files[2].published
  {
    ghost var start, was := d.clock, d.open;
    ok, files, left := Stage(d, plan, adopt, r);
    ghost var staged, middle := ok, d.clock;
    if ok {
      ghost var open := d.open;
      ok := Complete(d, files, r);
      OpenAgain(files, r.base, was, open);
    }
    PrepareSchedule(d.outcome, plan, r.init, adopt, start, staged, left, middle, ok, d.clock);
  }

  /** The second half: content. */
  method Complete(d: Directory, files: seq<CommitFile>, ghost r: Run) returns (ok: bool)
    requires Under(d, r, files, Nothing) && Staged(files, d.data, 3) && TempsPresent(r.plan, d.entries, 3)
    modifies d`clock, d`entries, d`data, d`open, d`trace
    ensures Under(d, r, files, Nothing)
    ensures ok ==> PublishedTo(files, d.Now(), 0) && d.open == old(d.open) - IdsBelow(files, 3) 
    ensures RunsThrough(d.outcome, old(d.clock), 12, ok, d.clock)
    ensures !files[2].published
    ensures Free(r.plan, r.init) && ok ==> AllInLine(files, d.entries, 0)
  {
    StagedInLine(r, files, d.Now());
    ok := Fill(d, files, r);
  }

  /** Safety of a history, put together from its parts. */
  lemma SafeBothWays(before: seq<Snapshot>, after: seq<Snapshot>, r: Run, files: seq<CommitFile>)
    requires IsPlan(r.plan) && SamePlan(files, r.plan) && before <= after
    requires SafeSince(before, r.plan, r.base, r.from)
    requires NamesApart(files) ==> SafeFrom(files, r.base, after, |before|)
    ensures SafeSince(after, r.plan, r.base, r.from)
  {
    if NamesApart(r.plan) {
      assert NamesApart(files);
      forall k | r.from <= k < |after| ensures Safe(r.plan, r.base, after[k]) {
        if k < |before| {
          assert after[k] == before[k];
        } else {
          assert Safe(files, r.base, after[k]);
        }
      }
    }
  }

  /** A run that has published the config has all three files out. */
  lemma HeldIsOut(files: seq<CommitFile>, init: Entries, base: nat, left: Left, s: Snapshot)
    requires Held(files, init, base, left, s) && NamesApart(files) && files[2].published
    ensures AllOut(files, base, s)
  {
  }

  /** How the rollback of a run under way ends: the config bare, or nothing unsafe in between. */
  ghost predicate UndoneAs(r: Run, exposed: bool, d: Directory)
    requires IsPlan(r.plan)
    reads d
  {
    if exposed then Bare(r.plan, r.base, d.entries)
    else SafeSince(d.trace, r.plan, r.base, r.from) && Safe(r.plan, r.base, d.Now())
  }

  /** The rollback of a run under way. */
  method UndoRun(d: Directory, ghost r: Run, files: seq<CommitFile>, ghost left: Left) returns (ghost result: Result)
    requires Under(d, r, files, left)
    modifies d`clock, d`entries, d`trace, d`removed
    ensures result.RolledBack? && result.left == left && result.from == old(d.clock) && result.to == d.clock
    ensures old(d.trace) <= d.trace
    ensures d.Clean(result.from, result.to) ==> d.entries == Plus(r.init, left)
    ensures NamesApart(r.plan) ==> UndoneAs(r, files[2].published && Bares(d.outcome, result.from), d)
  {
    ghost var start, before, was := d.clock, d.trace, d.Now();
    RollbackRestores(files, r.init, r.base, left, was);
    ghost var u := Rollback(d, files, r.base);
    result := RolledBack(start, d.clock, left);
    if NamesApart(r.plan) {
      assert NamesApart(files);
      NotATemp(r.plan, files, left);
      HeldIsSafe(files, r.init, r.base, left, was);
      if files[2].published {
        HeldIsOut(files, r.init, r.base, left, was);
      }
      if !(files[2].published && Bares(d.outcome, start)) {
        SafeBothWays(before, d.trace, r, files);
      }
    }
  }

  lemma NotATemp(plan: seq<CommitFile>, files: seq<CommitFile>, left: Left)
    requires IsPlan(plan) && SamePlan(files, plan) && NamesApart(plan)
    requires left.Behind? ==> IsTemp(plan, left.name)
    ensures left.Behind? ==> left.name != files[2].final
  {
  }

  /**
   When at most one call of the run does not work, the rollback's own calls do: the run commits, or
   the directory is exactly as before, unless that call was an fstat after a create.
   */
  method CommitUnderOneFailure(d: Directory, plan: seq<CommitFile>, adopt: bool, trusted: bool, ghost at: nat) returns (ok: bool)
    requires IsFresh(plan) && d.Valid() && d.Calm() && NoClash(plan, d.entries)
    requires DIR_FD !in d.open && forall fd :: fd in d.open ==> fd < d.nextIno
    requires forall c: nat :: c != at ==> d.outcome(c).Works?
    modifies d
    ensures !ok ==> (d.entries == old(d.entries) <==> !LeavesBehind(d.outcome, plan, old(d.entries), adopt, trusted, old(d.clock)))
    ensures d.outcome(at).Works? && Proceeds(d.outcome, plan, old(d.entries), trusted, old(d.clock)) ==> ok
    ensures SafeSince(d.trace, plan, old(d.nextIno), |old(d.trace)|)
  {
    ghost var result, files;
    ok, result, files := Commit(d, plan, adopt, trusted);
    assert result.RolledBack? ==> result.from - 1 == at;
  }

  /** Everything works but the call at this clock. */
  function OnlyFails(at: nat): nat -> Outcome {
    (clock: nat) => if clock == at then Breaks else Works
  }

  /**
   The file is left behind in fact: into any directory without the three final names and the first
   temporary, a run in which only the first fstat after a create fails adds that temporary.
   */
  method OneFstatFailureLeavesAFile(plan: seq<CommitFile>, entries: Entries, nextIno: nat) returns (d: Directory, ok: bool)
    requires IsFresh(plan) && nextIno > 0 && forall n :: n in entries ==> 0 < entries[n] < nextIno
    requires plan[0].final !in entries && plan[1].final !in entries && plan[2].final !in entries
    requires plan[0].temp !in entries
    ensures fresh(d) && !ok && plan[0].temp in d.entries && d.entries - {plan[0].temp} == entries
  {
    var outcome := OnlyFails(6);
    d := new Directory(outcome, (_: nat) => None, (_: nat) => 0, entries, nextIno);
    assert !Taken(plan, entries, 0);
    assert StageFrom(outcome, plan, entries, false, 5, 0) == FstatFails(0, 7);
    ghost var result, files;
    ok, result, files := Commit(d, plan, false, true);
    assert result.from == 7 && d.Clean(7, result.to);
  }

  /** Everything works but the calls at these two clocks. */
  function OnlyFailAt(a: nat, b: nat): nat -> Outcome {
    (clock: nat) => if clock == a || clock == b then Breaks else Works
  }

  /**
   The config is bared in fact: into any directory free of the run's six names, a run in which only
   the last sync and the rollback's unlink of the config's name fail.
   */
  method TwoFailuresBareTheConfig(plan: seq<CommitFile>, entries: Entries, nextIno: nat) returns (d: Directory, ok: bool)
    requires IsFresh(plan) && nextIno > 0 && forall n :: n in entries ==> 0 < entries[n] < nextIno
    requires Free(plan, entries)
    ensures fresh(d) && !ok && Bare(plan, nextIno, d.entries) && !Safe(plan, nextIno, d.Now())
  {
    var outcome := OnlyFailAt(33, 35);
    d := new Directory(outcome, (_: nat) => None, (_: nat) => 0, entries, nextIno);
    assert !Taken(plan, entries, 0) && !Taken(plan, entries, 1) && !Taken(plan, entries, 2);
    assert StageFrom(outcome, plan, entries, false, 9, 2) == AllStaged(11);
    assert StageFrom(outcome, plan, entries, false, 7, 1) == AllStaged(11);
    assert Exposes(outcome, plan, entries, false, true, 0);
    ghost var result, files;
    ok, result, files := Commit(d, plan, false, true);
  }
}
