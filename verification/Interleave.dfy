/** The order in which the addresses of the server are tried (section 4 of RFC 8305). */
module Interleave {
  import opened Basics
  import opened IpText

  predicate IsV6(a: SocketAddr) {
    a.SocketAddrV6?
  }

  /** The addresses of one family, in order. */
  function Family(s: seq<SocketAddr>, v6: bool): seq<SocketAddr> {
    if s == [] then []
    else if IsV6(Last(s)) == v6 then Family(s[..|s| - 1], v6) + [Last(s)]
    else Family(s[..|s| - 1], v6)
  }

  /** One of each in turn until one side runs out, then the rest of the other. */
  function Weave<T>(p: seq<T>, a: seq<T>): seq<T> {
    if p == [] then a
    else if a == [] then p
    else [p[0], a[0]] + Weave(p[1..], a[1..])
  }

  function Interleaved(resolved: seq<SocketAddr>): seq<SocketAddr> {
    var v4, v6 := Family(resolved, false), Family(resolved, true);
    if v6 != [] && v4 != [] then Weave(v6, v4) else Weave(v4, v6)
  }

  /** `interleave_address_families`: one loop sorts by family, one drains both in turn. */
  method InterleaveAddressFamilies(resolved: seq<SocketAddr>) returns (out: seq<SocketAddr>)
    ensures out == Interleaved(resolved)
  {
    var v4, v6 := SortByFamily(resolved);
    if v6 != [] && v4 != [] {
      out := DrainInTurn(v6, v4);
    } else {
      out := DrainInTurn(v4, v6);
    }
  }

  method SortByFamily(resolved: seq<SocketAddr>) returns (v4: seq<SocketAddr>, v6: seq<SocketAddr>)
    ensures v4 == Family(resolved, false) && v6 == Family(resolved, true)
  {
    v4, v6 := [], [];
    var i := 0;
    while i < |resolved|
      invariant 0 <= i <= |resolved|
      invariant v4 == Family(resolved[..i], false) && v6 == Family(resolved[..i], true)
    {
      assert resolved[..i + 1][..i] == resolved[..i] && Last(resolved[..i + 1]) == resolved[i];
      if IsV6(resolved[i]) {
        v6 := v6 + [resolved[i]];
      } else {
        v4 := v4 + [resolved[i]];
      }
      i := i + 1;
    }
    assert resolved[..i] == resolved;
  }

  method DrainInTurn<T>(p: seq<T>, a: seq<T>) returns (out: seq<T>)
    ensures out == Weave(p, a)
  {
    var primary, alternate := p, a;
    out := [];
    while primary != [] || alternate != []
      invariant Weave(p, a) == out + Weave(primary, alternate)
      decreases |primary| + |alternate|
    {
      ghost var before := out;
      if primary != [] && alternate != [] {
        out := out + [primary[0]];
        out := out + [alternate[0]];
        WeaveBoth(before, primary, alternate);
        primary, alternate := primary[1..], alternate[1..];
      } else if primary != [] {
        out := out + [primary[0]];
        assert before + primary == out + primary[1..];
        primary := primary[1..];
      } else {
        out := out + [alternate[0]];
        assert before + alternate == out + alternate[1..];
        alternate := alternate[1..];
      }
    }
  }

  lemma WeaveBoth<T>(out: seq<T>, p: seq<T>, a: seq<T>)
    requires p != [] && a != []
    ensures out + Weave(p, a) == out + [p[0]] + [a[0]] + Weave(p[1..], a[1..])
  {
    assert out + ([p[0], a[0]] + Weave(p[1..], a[1..])) ==
           out + [p[0]] + [a[0]] + Weave(p[1..], a[1..]);
  }

  // ---------------------------------------------------------------------------
  // What the order is for
  // ---------------------------------------------------------------------------

  predicate AllOf(s: seq<SocketAddr>, v6: bool) {
    forall x | x in s :: IsV6(x) == v6
  }

  lemma {:induction false} FamilyIsPure(s: seq<SocketAddr>, v6: bool)
    ensures AllOf(Family(s, v6), v6)
  {
    if s != [] {
      FamilyIsPure(s[..|s| - 1], v6);
    }
  }

  lemma {:induction false} FamiliesPartition(s: seq<SocketAddr>)
    ensures multiset(Family(s, false)) + multiset(Family(s, true)) == multiset(s)
  {
    if s != [] {
      FamiliesPartition(s[..|s| - 1]);
      assert s == s[..|s| - 1] + [Last(s)];
    }
  }

  lemma {:induction false} FamilyOfPure(s: seq<SocketAddr>, v6: bool)
    requires AllOf(s, v6)
    ensures Family(s, v6) == s && Family(s, !v6) == []
  {
    if s != [] {
      assert Last(s) in s;
      FamilyOfPure(s[..|s| - 1], v6);
      assert s == s[..|s| - 1] + [Last(s)];
    }
  }

  lemma {:induction false} FamilyOfAppend(s: seq<SocketAddr>, t: seq<SocketAddr>, v6: bool)
    ensures Family(s + t, v6) == Family(s, v6) + Family(t, v6)
  {
    if t == [] {
      assert s + t == s;
    } else {
      assert (s + t)[..|s + t| - 1] == s + t[..|t| - 1];
      FamilyOfAppend(s, t[..|t| - 1], v6);
    }
  }

  lemma {:induction false} WeaveMultiset<T>(p: seq<T>, a: seq<T>)
    ensures multiset(Weave(p, a)) == multiset(p) + multiset(a)
  {
    if p != [] && a != [] {
      WeaveMultiset(p[1..], a[1..]);
      assert p == [p[0]] + p[1..] && a == [a[0]] + a[1..];
    }
  }

  lemma PairFamily(x: SocketAddr, y: SocketAddr, v6: bool)
    requires IsV6(x) == v6 && IsV6(y) != v6
    ensures Family([x, y], v6) == [x] && Family([x, y], !v6) == [y]
  {
    assert [x, y][..1] == [x] && [x][..0] == [];
    assert Family([x], v6) == [x] && Family([x], !v6) == [];
  }

  lemma {:induction false} WeaveFamily(p: seq<SocketAddr>, a: seq<SocketAddr>, v6: bool)
    requires AllOf(p, v6) && AllOf(a, !v6)
    ensures Family(Weave(p, a), v6) == p && Family(Weave(p, a), !v6) == a
  {
    if p == [] {
      FamilyOfPure(a, !v6);
    } else if a == [] {
      FamilyOfPure(p, v6);
    } else {
      var tail := Weave(p[1..], a[1..]);
      WeaveFamily(p[1..], a[1..], v6);
      PairFamily(p[0], a[0], v6);
      FamilyOfAppend([p[0], a[0]], tail, v6);
      FamilyOfAppend([p[0], a[0]], tail, !v6);
      assert p == [p[0]] + p[1..] && a == [a[0]] + a[1..];
    }
  }

  lemma {:induction false} WeaveAlternates<T>(p: seq<T>, a: seq<T>, i: nat)
    requires i < |p| && i < |a|
    ensures |Weave(p, a)| == |p| + |a|
    ensures Weave(p, a)[2 * i] == p[i] && Weave(p, a)[2 * i + 1] == a[i]
  {
    if i > 0 {
      WeaveAlternates(p[1..], a[1..], i - 1);
    } else {
      WeaveLength(p, a);
    }
  }

  lemma {:induction false} WeaveLength<T>(p: seq<T>, a: seq<T>)
    ensures |Weave(p, a)| == |p| + |a|
  {
    if p != [] && a != [] {
      WeaveLength(p[1..], a[1..]);
    }
  }

  /** No address is lost, added or duplicated, and each family keeps the resolver's order. */
  lemma KeepsAddressesAndOrder(resolved: seq<SocketAddr>)
    ensures multiset(Interleaved(resolved)) == multiset(resolved)
    ensures forall v6 :: Family(Interleaved(resolved), v6) == Family(resolved, v6)
  {
    var v4s, v6s := Family(resolved, false), Family(resolved, true);
    FamiliesPartition(resolved);
    FamilyIsPure(resolved, false);
    FamilyIsPure(resolved, true);
    WeaveMultiset(v6s, v4s);
    WeaveMultiset(v4s, v6s);
    WeaveFamily(v6s, v4s, true);
    WeaveFamily(v4s, v6s, false);
  }

  /** The families alternate strictly, IPv6 first, until one of them runs out. */
  lemma Alternates(resolved: seq<SocketAddr>, i: nat)
    requires i < |Family(resolved, false)| && i < |Family(resolved, true)|
    ensures |Interleaved(resolved)| == |Family(resolved, true)| + |Family(resolved, false)|
    ensures Interleaved(resolved)[2 * i] == Family(resolved, true)[i]
    ensures Interleaved(resolved)[2 * i + 1] == Family(resolved, false)[i]
    ensures IsV6(Interleaved(resolved)[2 * i]) && !IsV6(Interleaved(resolved)[2 * i + 1])
  {
    var v4s, v6s := Family(resolved, false), Family(resolved, true);
    FamilyIsPure(resolved, false);
    FamilyIsPure(resolved, true);
    WeaveAlternates(v6s, v4s, i);
    assert v6s[i] in v6s && v4s[i] in v4s;
  }

  /** Nothing moves if all addresses are of one family. */
  lemma SingleFamilyIsUnchanged(resolved: seq<SocketAddr>, v6: bool)
    requires AllOf(resolved, v6)
    ensures Interleaved(resolved) == resolved
  {
    FamilyOfPure(resolved, v6);
  }

  /** The comment on the function says that the first address keeps its family. It does so
      exactly if the resolver put an IPv6 address first or returned a single family. */
  lemma FirstFamilyIsKept(resolved: seq<SocketAddr>)
    requires resolved != []
    ensures Interleaved(resolved) != []
    ensures IsV6(Interleaved(resolved)[0]) == IsV6(resolved[0]) <==>
            IsV6(resolved[0]) || AllOf(resolved, false)
  {
    var v4s, v6s := Family(resolved, false), Family(resolved, true);
    KeepsAddressesAndOrder(resolved);
    WeaveLength(v6s, v4s);
    WeaveLength(v4s, v6s);
    assert |multiset(resolved)| == |resolved|;
    if AllOf(resolved, false) {
      SingleFamilyIsUnchanged(resolved, false);
    } else if AllOf(resolved, true) {
      SingleFamilyIsUnchanged(resolved, true);
    } else {
      BothPresent(resolved);
      Alternates(resolved, 0);
    }
    assert resolved[0] in resolved;
  }

  lemma FamilySnoc(s: seq<SocketAddr>, a: SocketAddr, v6: bool)
    ensures Family(s + [a], v6) == Family(s, v6) + if IsV6(a) == v6 then [a] else []
  {
    assert (s + [a])[..|s|] == s;
  }

  lemma FamilyOfPair(a: SocketAddr, b: SocketAddr, v6: bool)
    ensures Family([a, b], v6) == (if IsV6(a) == v6 then [a] else []) + if IsV6(b) == v6 then [b] else []
  {
    FamilySnoc([], a, v6);
    FamilySnoc([a], b, v6);
    assert [] + [a] == [a] && [a] + [b] == [a, b];
  }

  lemma WeavePair<T>(a: T, b: T)
    ensures Weave([a], [b]) == [a, b]
  {
    assert [a][1..] == [] && [b][1..] == [];
  }

  /** An IPv4 address in front of an IPv6 one does not stay in front. */
  lemma FirstFamilyIsLost(v4: SocketAddr, v6: SocketAddr)
    requires !IsV6(v4) && IsV6(v6)
    ensures Interleaved([v4, v6]) == [v6, v4]
  {
    FamilyOfPair(v4, v6, true);
    FamilyOfPair(v4, v6, false);
    var none: seq<SocketAddr> := [];
    assert none + [v6] == [v6] && [v4] + none == [v4];
    WeavePair(v6, v4);
  }

  lemma {:induction false} BothPresent(s: seq<SocketAddr>)
    ensures Family(s, false) == [] ==> AllOf(s, true)
    ensures Family(s, true) == [] ==> AllOf(s, false)
  {
    if s != [] {
      BothPresent(s[..|s| - 1]);
      assert s == s[..|s| - 1] + [Last(s)];
    }
  }
}
