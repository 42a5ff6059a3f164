/** Octets, as the byte-level parsers see them. */
module Bytes {
  newtype Byte = b: int | 0 <= b < 256
  type Bytes = seq<Byte>

  const LF: Byte := 10
  const CR: Byte := 13

  /** The parts joined. */
  function Concat(parts: seq<Bytes>): Bytes {
    if parts == [] then [] else parts[0] + Concat(parts[1..])
  }

  lemma ConcatCons(part: Bytes, parts: seq<Bytes>)
    ensures Concat([part] + parts) == part + Concat(parts)
  {
    assert ([part] + parts)[1..] == parts;
  }

  /** What f makes of the items, joined. */
  function Flat<T>(items: seq<T>, f: T -> Bytes): Bytes {
    if items == [] then [] else f(items[0]) + Flat(items[1..], f)
  }

  lemma {:induction false} FlatAppend<T>(a: seq<T>, b: seq<T>, f: T -> Bytes)
    ensures Flat(a + b, f) == Flat(a, f) + Flat(b, f)
  {
    if a == [] {
      assert a + b == b;
    } else {
      FlatAppend(a[1..], b, f);
      assert (a + b)[1..] == a[1..] + b;
      Assoc(f(a[0]), Flat(a[1..], f), Flat(b, f));
    }
  }

  lemma Assoc<T>(a: seq<T>, b: seq<T>, c: seq<T>)
    ensures a + b + c == a + (b + c)
  {
  }

  predicate Without(s: Bytes, b: Byte) {
    forall k :: 0 <= k < |s| ==> s[k] != b
  }

  /** The position of the first LF at or after i, or the length without one. */
  function NextLF(t: Bytes, i: nat): (r: nat)
    requires i <= |t|
    ensures i <= r <= |t| && (r < |t| ==> t[r] == LF)
    decreases |t| - i
  {
    if i == |t| || t[i] == LF then i else NextLF(t, i + 1)
  }

  function FirstLF(t: Bytes): (r: nat)
    ensures r <= |t| && (r < |t| ==> t[r] == LF)
  {
    NextLF(t, 0)
  }

  lemma {:induction false} NextLFIsFirst(t: Bytes, i: nat, k: nat)
    requires i <= k <= |t| && (k < |t| ==> t[k] == LF)
    requires forall j :: i <= j < k ==> t[j] != LF
    ensures NextLF(t, i) == k
    decreases |t| - i
  {
    if i < k {
      NextLFIsFirst(t, i + 1, k);
    }
  }

  /** The position k is the first LF, or the end, when no LF precedes it. */
  lemma FirstLFIs(t: Bytes, k: nat)
    requires k <= |t| && (k < |t| ==> t[k] == LF)
    requires forall j :: 0 <= j < k ==> t[j] != LF
    ensures FirstLF(t) == k
  {
    NextLFIsFirst(t, 0, k);
  }

  lemma {:induction false} NextLFMisses(t: Bytes, i: nat)
    requires i <= |t|
    ensures forall j :: i <= j < NextLF(t, i) ==> t[j] != LF
    decreases |t| - i
  {
    if i < NextLF(t, i) {
      NextLFMisses(t, i + 1);
    }
  }

  lemma BeforeFirstLF(t: Bytes)
    ensures forall j :: 0 <= j < FirstLF(t) ==> t[j] != LF
  {
    NextLFMisses(t, 0);
  }

  /** The LF-terminated lines of t, without their LF. */
  function Lines(t: Bytes): seq<Bytes>
    decreases |t|
  {
    var i := FirstLF(t);
    if i == |t| then [] else [t[..i]] + Lines(t[i + 1..])
  }

  /** What follows the last LF. */
  function Tail(t: Bytes): Bytes
    decreases |t|
  {
    var i := FirstLF(t);
    if i == |t| then t else Tail(t[i + 1..])
  }

  lemma {:induction false} FirstLine(line: Bytes, t: Bytes)
    requires Without(line, LF)
    ensures FirstLF(line + [LF] + t) == |line|
    ensures Lines(line + [LF] + t) == [line] + Lines(t) && Tail(line + [LF] + t) == Tail(t)
  {
    var u := line + [LF] + t;
    assert u[|line|] == LF;
    FirstLFIs(u, |line|);
    assert u[..|line|] == line && u[|line| + 1..] == t;
  }

  lemma {:induction false} NoLine(t: Bytes)
    requires Without(t, LF)
    ensures FirstLF(t) == |t| && Lines(t) == [] && Tail(t) == t
  {
    FirstLFIs(t, |t|);
  }
}
