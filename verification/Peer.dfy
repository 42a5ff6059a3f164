/**
 Which address a request is limited and logged under: the socket peer, or, behind a trusted
 proxy, the rightmost X-Forwarded-For hop that is not itself trusted.

 Address syntax and prefix matching are library calls and enter as functions.
 */
module Peer {
  import opened Options
  import Bytes

  const MAX_FORWARDED_HOPS: nat := 32
  const COMMA: char := ','

  // ----- comma-separated hops -----

  predicate NoComma(s: string) {
    forall k :: 0 <= k < |s| ==> s[k] != COMMA
  }

  /** The last comma before n, or -1. */
  function CommaBefore(s: string, n: nat): (i: int)
    requires n <= |s|
    ensures -1 <= i < n && (i >= 0 ==> s[i] == COMMA) && forall k :: i < k < n ==> s[k] != COMMA
  {
    if n == 0 then -1 else if s[n - 1] == COMMA then n - 1 else CommaBefore(s, n - 1)
  }

  /** strings.LastIndexByte(s, ','). */
  function LastComma(s: string): (i: int)
    ensures -1 <= i < |s| && (i >= 0 ==> s[i] == COMMA) && forall k :: i < k < |s| ==> s[k] != COMMA
  {
    CommaBefore(s, |s|)
  }

  /** One header value cut at every comma, from the right. */
  function Split(s: string): (parts: seq<string>)
    ensures parts != []
    decreases |s|
  {
    var cut := LastComma(s);
    if cut < 0 then [s] else Split(s[..cut]) + [s[cut + 1..]]
  }

  /** All hops of all header values, left to right. */
  function Hops(values: seq<string>): seq<string> {
    if values == [] then [] else Hops(values[..|values| - 1]) + Split(values[|values| - 1])
  }

  lemma HopsOfLast(values: seq<string>, i: nat)
    requires i < |values|
    ensures Hops(values[..i + 1]) == Hops(values[..i]) + Split(values[i])
  {
    assert values[..i + 1][..i] == values[..i];
  }

  function Join(parts: seq<string>): string
    requires parts != []
  {
    if |parts| == 1 then parts[0] else Join(parts[..|parts| - 1]) + [COMMA] + parts[|parts| - 1]
  }

  lemma LastCommaIs(s: string, t: string)
    requires NoComma(t)
    ensures LastComma(s + [COMMA] + t) == |s|
  {
    var u := s + [COMMA] + t;
    assert u[|s|] == COMMA;
    assert forall k :: |s| < k < |u| ==> u[k] == t[k - |s| - 1];
  }

  lemma LastCommaOf(s: string, t: string)
    requires NoComma(t)
    ensures Split(s + [COMMA] + t) == Split(s) + [t]
  {
    var u := s + [COMMA] + t;
    LastCommaIs(s, t);
    assert u[..|s|] == s && u[|s| + 1..] == t;
  }

  lemma Unsnoc<T>(s: seq<T>)
    requires s != []
    ensures s[..|s| - 1] + [s[|s| - 1]] == s
  {
  }

  lemma {:induction false} SplitOfNoComma(t: string)
    requires NoComma(t)
    ensures Split(t) == [t]
  {
  }

  /** Splitting is the only way to take a value apart at its commas. */
  lemma {:induction false} SplitOfJoin(parts: seq<string>)
    requires parts != [] && forall k :: 0 <= k < |parts| ==> NoComma(parts[k])
    ensures Split(Join(parts)) == parts
  {
    var n := |parts| - 1;
    if n == 0 {
      SplitOfNoComma(parts[0]);
    } else {
      SplitOfJoin(parts[..n]);
      LastCommaOf(Join(parts[..n]), parts[n]);
      Unsnoc(parts);
    }
  }

  lemma JoinOneMore(parts: seq<string>, last: string)
    requires parts != []
    ensures Join(parts + [last]) == Join(parts) + [COMMA] + last
  {
    assert (parts + [last])[..|parts|] == parts;
  }

  lemma {:induction false} JoinOfSplit(s: string)
    ensures Join(Split(s)) == s && forall k :: 0 <= k < |Split(s)| ==> NoComma(Split(s)[k])
    decreases |s|
  {
    var cut := LastComma(s);
    if cut >= 0 {
      JoinOfSplit(s[..cut]);
      JoinOneMore(Split(s[..cut]), s[cut + 1..]);
      assert s == s[..cut] + [COMMA] + s[cut + 1..];
    }
  }

  lemma Regroup(s: string, body: string, last: string)
    ensures s + [COMMA] + (body + [COMMA] + last) == s + [COMMA] + body + [COMMA] + last
  {
  }

  lemma {:induction false} SplitOfParts(s: string, parts: seq<string>)
    requires parts != [] && forall k :: 0 <= k < |parts| ==> NoComma(parts[k])
    ensures Split(s + [COMMA] + Join(parts)) == Split(s) + parts
  {
    var n := |parts| - 1;
    if n == 0 {
      LastCommaOf(s, parts[0]);
    } else {
      var body := Join(parts[..n]);
      SplitOfParts(s, parts[..n]);
      LastCommaOf(s + [COMMA] + body, parts[n]);
      Regroup(s, body, parts[n]);
      Bytes.Assoc(Split(s), parts[..n], [parts[n]]);
      Unsnoc(parts);
    }
  }

  lemma SplitOfPair(s: string, t: string)
    ensures Split(s + [COMMA] + t) == Split(s) + Split(t)
  {
    JoinOfSplit(t);
    SplitOfParts(s, Split(t));
  }

  /** Several header values are one value joined by commas: how hops are divided over headers is immaterial. */
  lemma {:induction false} HopsOfJoin(values: seq<string>)
    requires values != []
    ensures Hops(values) == Split(Join(values))
  {
    var n := |values| - 1;
    if n == 0 {
      assert Hops(values) == [] + Split(values[0]);
    } else {
      HopsOfJoin(values[..n]);
      SplitOfPair(Join(values[..n]), values[n]);
    }
  }

  // ----- trust -----

  /** trustedPeers, with the library's address functions. */
  datatype Peers<!Prefix(==), !Addr(==)> = Peers(
    nets: seq<Prefix>,
    unix: bool,
    contains: (Prefix, Addr) -> bool,
    parsePeer: string -> Option<Addr>,     // netip.ParseAddr, unmapped
    forwarded: string -> Option<Addr>,     // forwardedAddr
    show: Addr -> string)
  {
    predicate Trusts(addr: Addr) {
      exists k :: 0 <= k < |nets| && contains(nets[k], addr)
    }

    method Trusted(addr: Addr) returns (r: bool)
      ensures r == Trusts(addr)
    {
      for k := 0 to |nets|
        invariant forall j :: 0 <= j < k ==> !contains(nets[j], addr)
      {
        if contains(nets[k], addr) {
          return true;
        }
      }
      return false;
    }

    predicate BelievesPeer(peer: string) {
      unix || (parsePeer(peer).Some? && Trusts(parsePeer(peer).value))
    }

    predicate IsTrustedHop(hop: string) {
      forwarded(hop).Some? && Trusts(forwarded(hop).value)
    }

    predicate IsForeignHop(hop: string) {
      forwarded(hop).Some? && !Trusts(forwarded(hop).value)
    }

    /** Hop j is the rightmost untrusted one, near enough, with an unbroken trusted chain to its right. */
    ghost predicate Answers(hops: seq<string>, j: int) {
      && 0 <= j < |hops| && |hops| - j <= MAX_FORWARDED_HOPS
      && IsForeignHop(hops[j])
      && forall k :: j < k < |hops| ==> IsTrustedHop(hops[k])
    }

    /** The walk over the hops not yet visited, with budget hops to go. */
    function Walk(peer: string, hops: seq<string>, budget: nat): string {
      if hops == [] || budget == 0 then peer
      else
        var last := hops[|hops| - 1];
        if forwarded(last).None? then peer
        else if !Trusts(forwarded(last).value) then show(forwarded(last).value)
        else Walk(peer, hops[..|hops| - 1], budget - 1)
    }

    /** The address a request is known under. */
    function Client(peer: string, values: seq<string>): string {
      if BelievesPeer(peer) then Walk(peer, Hops(values), MAX_FORWARDED_HOPS) else peer
    }

    lemma WalkStep(peer: string, left: seq<string>, rest: string, budget: nat, cut: int, hop: Option<Addr>)
      requires cut == LastComma(rest) && hop == forwarded(rest[cut + 1..])
      ensures Walk(peer, left + Split(rest), budget)
           == if budget == 0 || hop.None? then peer
              else if !Trusts(hop.value) then show(hop.value)
              else Walk(peer, if cut < 0 then left else left + Split(rest[..cut]), budget - 1)
    {
      var hops, n := left + Split(rest), |left + Split(rest)| - 1;
      assert hops[n] == rest[cut + 1..];
      assert hops[..n] == if cut < 0 then left else left + Split(rest[..cut]);
    }

    /** The inner loop: the hops of one header value, right to left, with hops already counted. */
    method WalkValue(peer: string, value: string, counted: nat, ghost left: seq<string>)
      returns (hops: nat, answer: Option<string>)
      requires counted <= MAX_FORWARDED_HOPS
      ensures hops <= MAX_FORWARDED_HOPS
      ensures Walk(peer, left + Split(value), MAX_FORWARDED_HOPS - counted)
           == if answer.Some? then answer.value else Walk(peer, left, MAX_FORWARDED_HOPS - hops)
    {
      hops := counted;
      var rest := value;
      ghost var result := Walk(peer, left + Split(value), MAX_FORWARDED_HOPS - counted);
      while true
        invariant hops <= MAX_FORWARDED_HOPS
        invariant Walk(peer, left + Split(rest), MAX_FORWARDED_HOPS - hops) == result
        decreases |rest|
      {
        var cut := LastComma(rest);
        var addr := forwarded(rest[cut + 1..]);
        WalkStep(peer, left, rest, MAX_FORWARDED_HOPS - hops, cut, addr);
        if hops + 1 > MAX_FORWARDED_HOPS {
          return hops, Some(peer);
        }
        hops := hops + 1;
        if addr.None? {
          return hops, Some(peer);
        }
        var ok := Trusted(addr.value);
        if !ok {
          return hops, Some(show(addr.value));
        }
        if cut < 0 {
          return hops, None;
        }
        rest := rest[..cut];
      }
    }

    /**
     clientIP. A peer that is not itself trusted is the client, whatever the headers say; behind a
     trusted peer it is the hop the flat specification names, and the peer when that names none.
     */
    method ClientIP(peer: string, values: seq<string>) returns (r: string)
      ensures r == Client(peer, values)
      ensures !unix && (parsePeer(peer).None? || forall k :: 0 <= k < |nets| ==> !contains(nets[k], parsePeer(peer).value)) ==> r == peer
      ensures BelievesPeer(peer) ==> forall j :: Answers(Hops(values), j) ==> r == show(forwarded(Hops(values)[j]).value)
      ensures (forall j :: !Answers(Hops(values), j)) ==> r == peer
    {
      ClientIsTheAnswer(peer, values);
      if !unix {
        var addr := parsePeer(peer);
        if addr.None? {
          return peer;
        }
        var ok := Trusted(addr.value);
        if !ok {
          return peer;
        }
      }
      var hops := 0;
      var i := |values| - 1;
      assert values[..|values|] == values;
      while i >= 0
        invariant -1 <= i < |values| && 0 <= hops <= MAX_FORWARDED_HOPS
        invariant Walk(peer, Hops(values[..i + 1]), MAX_FORWARDED_HOPS - hops) == Client(peer, values)
      {
        HopsOfLast(values, i);
        var counted, answer := WalkValue(peer, values[i], hops, Hops(values[..i]));
        if answer.Some? {
          return answer.value;
        }
        hops := counted;
        i := i - 1;
      }
      return peer;
    }

    // ----- the flat specification -----

    lemma {:induction false} WalkFinds(peer: string, hops: seq<string>, budget: nat, j: nat)
      requires j < |hops| && |hops| - j <= budget && IsForeignHop(hops[j])
      requires forall k :: j < k < |hops| ==> IsTrustedHop(hops[k])
      ensures Walk(peer, hops, budget) == show(forwarded(hops[j]).value)
      decreases |hops|
    {
      if j < |hops| - 1 {
        WalkFinds(peer, hops[..|hops| - 1], budget - 1, j);
      }
    }

    lemma {:induction false} WalkFails(peer: string, hops: seq<string>, budget: nat)
      requires forall j :: 0 <= j < |hops| && |hops| - j <= budget && IsForeignHop(hops[j]) ==> exists k :: j < k < |hops| && !IsTrustedHop(hops[k])
      ensures Walk(peer, hops, budget) == peer
    {
      var n := |hops| - 1;
      if n >= 0 && budget > 0 {
        assert !IsForeignHop(hops[n]);
        if IsTrustedHop(hops[n]) {
          var fewer := hops[..n];
          forall j | 0 <= j < n && n - j <= budget - 1 && IsForeignHop(fewer[j])
            ensures exists k :: j < k < n && !IsTrustedHop(fewer[k])
          {
            assert IsForeignHop(hops[j]);
            var k :| j < k < |hops| && !IsTrustedHop(hops[k]);
            assert !IsTrustedHop(fewer[k]);
          }
          WalkFails(peer, fewer, budget - 1);
        }
      }
    }

    /**
     Behind a trusted peer the answer is the hop the flat specification names; it is the socket peer
     when that names none, and always when no trusted prefix contains it.
     */
    lemma ClientIsTheAnswer(peer: string, values: seq<string>)
      ensures !unix && (parsePeer(peer).None? || forall k :: 0 <= k < |nets| ==> !contains(nets[k], parsePeer(peer).value)) ==>
                Client(peer, values) == peer
      ensures unix || (parsePeer(peer).Some? && exists k :: 0 <= k < |nets| && contains(nets[k], parsePeer(peer).value)) ==>
                forall j :: Answers(Hops(values), j) ==> Client(peer, values) == show(forwarded(Hops(values)[j]).value)
      ensures (forall j :: !Answers(Hops(values), j)) ==> Client(peer, values) == peer
    {
      var hops := Hops(values);
      forall j | BelievesPeer(peer) && Answers(hops, j) ensures Client(peer, values) == show(forwarded(hops[j]).value) {
        WalkFinds(peer, hops, MAX_FORWARDED_HOPS, j);
      }
      if forall j :: !Answers(hops, j) {
        forall j | 0 <= j < |hops| && |hops| - j <= MAX_FORWARDED_HOPS && IsForeignHop(hops[j])
          ensures exists k :: j < k < |hops| && !IsTrustedHop(hops[k])
        {
          assert !Answers(hops, j);
        }
        WalkFails(peer, hops, MAX_FORWARDED_HOPS);
      }
    }

    // ----- what lies to the left does not matter -----

    /** The walk stops inside these hops: at one that is broken or untrusted, or at the bound. */
    ghost predicate Decides(right: seq<string>, budget: nat) {
      |right| >= budget || exists k :: 0 <= k < |right| && !IsTrustedHop(right[k])
    }

    lemma {:induction false} WalkIgnoresLeft(peer: string, left: seq<string>, right: seq<string>, budget: nat)
      requires Decides(right, budget)
      ensures Walk(peer, left + right, budget) == Walk(peer, right, budget)
      decreases |right|
    {
      var n := |right| - 1;
      if n >= 0 && budget > 0 {
        assert (left + right)[|left + right| - 1] == right[n];
        assert (left + right)[..|left + right| - 1] == left + right[..n];
        if IsTrustedHop(right[n]) {
          assert Decides(right[..n], budget - 1) by {
            if |right| < budget {
              var k :| 0 <= k < |right| && !IsTrustedHop(right[k]);
              assert !IsTrustedHop(right[..n][k]);
            }
          }
          WalkIgnoresLeft(peer, left, right[..n], budget - 1);
        }
      }
    }

    /**
     Whatever hops a client puts to the left of the ones that decide, in however many headers,
     the result is the same.
     */
    lemma IgnoresLeft(peer: string, values: seq<string>, values': seq<string>,
                      left: seq<string>, left': seq<string>, right: seq<string>)
      requires Hops(values) == left + right && Hops(values') == left' + right
      requires Decides(right, MAX_FORWARDED_HOPS)
      ensures Client(peer, values) == Client(peer, values')
    {
      WalkIgnoresLeft(peer, left, right, MAX_FORWARDED_HOPS);
      WalkIgnoresLeft(peer, left', right, MAX_FORWARDED_HOPS);
    }

    /** In particular everything left of the answer. */
    lemma AnswerIgnoresLeft(peer: string, values: seq<string>, values': seq<string>, j: nat, left': seq<string>)
      requires BelievesPeer(peer) && Answers(Hops(values), j)
      requires Hops(values') == left' + Hops(values)[j..]
      ensures Client(peer, values') == show(forwarded(Hops(values)[j]).value)
    {
      var right := Hops(values)[j..];
      assert Hops(values) == Hops(values)[..j] + right;
      assert !IsTrustedHop(right[0]);
      IgnoresLeft(peer, values, values', Hops(values)[..j], left', right);
      ClientIsTheAnswer(peer, values);
    }
  }
}
