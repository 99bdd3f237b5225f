/**
 * Day 13 (Distress Signal): packets are nested lists of integers; a pair of
 * packets is "in order" by a recursive comparison that walks both lists side
 * by side, promotes a lone integer to a one-element list, and falls back on
 * the lengths.  Part 1 sums the 1-based numbers of the pairs that are in
 * order; part 2 sorts all packets together with two divider packets and
 * multiplies the dividers' 1-based positions.
 */
module Packets {
  import opened Wrappers

  /** A packet value: an integer or a list of values. */
  datatype Value = Int(n: int) | List(items: seq<Value>)

  /** A packet is always a list of values at the top. */
  type Packet = seq<Value>

  /** Number of nodes in a value; the measure that makes the comparison terminate. */
  function Size(v: Value): nat
  {
    match v
    case Int(_) => 1
    case List(items) => 1 + SizeOf(items)
  }

  function SizeOf(vs: seq<Value>): nat
  {
    if vs == [] then 0 else Size(vs[0]) + SizeOf(vs[1..])
  }

  lemma SizeOfSingleton(v: Value)
    ensures SizeOf([v]) == Size(v)
  {
    assert [v][1..] == [];
  }

  /**
   * Integer comparison with the puzzle's sign convention: 1 when `a` should
   * come first, -1 when `b` should, 0 on a tie.
   */
  function BasicCompare(a: int, b: int): (c: int)
    ensures c == 1 <==> a < b
    ensures c == -1 <==> a > b
    ensures c == 0 <==> a == b
  {
    if a < b then 1
    else if a > b then -1
    else 0
  }

  /** One step of the side-by-side walk: the comparison of two elements. */
  function Compare(a: Value, b: Value): (c: int)
    decreases Size(a) + Size(b), 0
    ensures -1 <= c <= 1
  {
    match (a, b)
    case (List(xs), List(ys)) => InOrder(xs, ys)
    case (List(xs), Int(_)) => SizeOfSingleton(b); InOrder(xs, [b])
    case (Int(_), List(ys)) => SizeOfSingleton(a); InOrder([a], ys)
    case (Int(m), Int(n)) => BasicCompare(m, n)
  }

  /**
   * Compare two lists: the first element pair that decides (1 or -1) decides
   * the lists; when the shorter list runs out first, the lengths decide.
   * The walk over the zipped lists is written as recursion on the suffixes.
   */
  function InOrder(p1: seq<Value>, p2: seq<Value>): (c: int)
    decreases SizeOf(p1) + SizeOf(p2), 1
    ensures -1 <= c <= 1
  {
    if p1 == [] || p2 == [] then BasicCompare(|p1|, |p2|)
    else
      var c := Compare(p1[0], p2[0]);
      if c == 1 || c == -1 then c else InOrder(p1[1..], p2[1..])
  }

  // ----- Properties of the comparison -------------------------------------

  /** Every value, and every list, is level with itself. */
  lemma {:induction false} CompareReflexive(a: Value)
    decreases Size(a), 0
    ensures Compare(a, a) == 0
  {
    match a
    case Int(_) =>
    case List(xs) => InOrderReflexive(xs);
  }

  lemma {:induction false} InOrderReflexive(p: seq<Value>)
    decreases SizeOf(p), 1
    ensures InOrder(p, p) == 0
  {
    if p != [] {
      CompareReflexive(p[0]);
      InOrderReflexive(p[1..]);
    }
  }

  /** Swapping the two sides flips the verdict. */
  lemma {:induction false} CompareAntisymmetric(a: Value, b: Value)
    decreases Size(a) + Size(b), 0
    ensures Compare(b, a) == -Compare(a, b)
  {
    match (a, b)
    case (List(xs), List(ys)) => InOrderAntisymmetric(xs, ys);
    case (List(xs), Int(_)) =>
      SizeOfSingleton(b);
      InOrderAntisymmetric(xs, [b]);
    case (Int(_), List(ys)) =>
      SizeOfSingleton(a);
      InOrderAntisymmetric([a], ys);
    case (Int(_), Int(_)) =>
  }

  lemma {:induction false} InOrderAntisymmetric(p1: seq<Value>, p2: seq<Value>)
    decreases SizeOf(p1) + SizeOf(p2), 1
    ensures InOrder(p2, p1) == -InOrder(p1, p2)
  {
    if p1 != [] && p2 != [] {
      CompareAntisymmetric(p1[0], p2[0]);
      InOrderAntisymmetric(p1[1..], p2[1..]);
    }
  }

  /**
   * The prefix rule: when no element pair decides, the shorter list comes
   * first, and lists of equal length are level.
   */
  lemma {:induction false} PrefixRule(p1: seq<Value>, p2: seq<Value>)
    requires forall k :: 0 <= k < |p1| && k < |p2| ==> Compare(p1[k], p2[k]) == 0
    ensures InOrder(p1, p2) == 1 <==> |p1| < |p2|
    ensures InOrder(p1, p2) == -1 <==> |p1| > |p2|
    ensures InOrder(p1, p2) == 0 <==> |p1| == |p2|
    decreases |p1|
  {
    if p1 != [] && p2 != [] {
      assert Compare(p1[0], p2[0]) == 0;
      forall k | 0 <= k < |p1[1..]| && k < |p2[1..]|
        ensures Compare(p1[1..][k], p2[1..][k]) == 0
      {
        assert Compare(p1[k + 1], p2[k + 1]) == 0;
      }
      PrefixRule(p1[1..], p2[1..]);
    }
  }

  /** The first element pair that is not level decides the two lists. */
  lemma {:induction false} FirstDifferenceDecides(p1: seq<Value>, p2: seq<Value>, k: nat)
    requires k < |p1| && k < |p2|
    requires forall j :: 0 <= j < k ==> Compare(p1[j], p2[j]) == 0
    requires Compare(p1[k], p2[k]) != 0
    ensures InOrder(p1, p2) == Compare(p1[k], p2[k])
    decreases k
  {
    if k > 0 {
      assert Compare(p1[0], p2[0]) == 0;
      forall j | 0 <= j < k - 1
        ensures Compare(p1[1..][j], p2[1..][j]) == 0
      {
        assert Compare(p1[j + 1], p2[j + 1]) == 0;
      }
      FirstDifferenceDecides(p1[1..], p2[1..], k - 1);
    }
  }

  /** An integer compared with anything behaves as the one-element list holding it. */
  lemma IntAsSingleton(n: int, b: Value)
    ensures Compare(Int(n), b) == Compare(List([Int(n)]), b)
    ensures Compare(b, Int(n)) == Compare(b, List([Int(n)]))
  {
    match b
    case List(_) =>
    case Int(m) =>
      var one, other := [Int(n)], [b];
      assert one[1..] == [] && other[1..] == [];
      assert InOrder(one, other) == BasicCompare(n, m);
      assert InOrder(other, one) == BasicCompare(m, n);
  }

  // ----- Part 1 ----------------------------------------------------------

  /**
   * Sum of the numbers of the pairs that are in order, pairing the packets
   * two by two and numbering the first pair `index`.
   */
  function OrderedPairSum(packets: seq<Packet>, index: int): int
    requires |packets| % 2 == 0
    decreases |packets|
  {
    if packets == [] then 0
    else
      var here := if InOrder(packets[0], packets[1]) >= 0 then index else 0;
      here + OrderedPairSum(packets[2..], index + 1)
  }

  /** index + (index + 1) + ... + (index + m - 1). */
  function Triangle(index: int, m: nat): int
    decreases m
  {
    if m == 0 then 0 else index + Triangle(index + 1, m - 1)
  }

  /** Every pair (packets[2k], packets[2k+1]) is in order. */
  predicate AllPairsInOrder(packets: seq<Packet>)
    requires |packets| % 2 == 0
  {
    forall i :: 0 <= i < |packets| && i % 2 == 0 ==> InOrder(packets[i], packets[i + 1]) >= 0
  }

  /**
   * The part-1 sum counts each pair number at most once: it lies between 0
   * and the sum of all pair numbers, and reaches the top exactly when every
   * pair is in order.
   */
  lemma {:induction false} OrderedPairSumBounds(packets: seq<Packet>, index: int)
    requires |packets| % 2 == 0
    requires index >= 1
    ensures 0 <= OrderedPairSum(packets, index) <= Triangle(index, |packets| / 2)
    ensures OrderedPairSum(packets, index) == Triangle(index, |packets| / 2)
            <==> AllPairsInOrder(packets)
    decreases |packets|
  {
    if packets != [] {
      var rest := packets[2..];
      OrderedPairSumBounds(rest, index + 1);
      assert |rest| / 2 == |packets| / 2 - 1;
      if AllPairsInOrder(rest) && InOrder(packets[0], packets[1]) >= 0 {
        forall i | 0 <= i < |packets| && i % 2 == 0
          ensures InOrder(packets[i], packets[i + 1]) >= 0
        {
          if i >= 2 {
            assert packets[i] == rest[i - 2] && packets[i + 1] == rest[i - 1];
          }
        }
      }
      if AllPairsInOrder(packets) {
        assert InOrder(packets[0], packets[1]) >= 0;
        forall i | 0 <= i < |rest| && i % 2 == 0
          ensures InOrder(rest[i], rest[i + 1]) >= 0
        {
          assert rest[i] == packets[i + 2] && rest[i + 1] == packets[i + 3];
        }
      }
    }
  }

  /** The part-1 driver: pop two packets at a time and add the pair number when in order. */
  method SumOfOrderedPairs(packets: seq<Packet>) returns (result: int)
    requires |packets| % 2 == 0
    ensures result == OrderedPairSum(packets, 1)
  {
    var queue := packets;
    var index := 1;
    result := 0;
    while |queue| > 0
      invariant |queue| % 2 == 0
      invariant result + OrderedPairSum(queue, index) == OrderedPairSum(packets, 1)
    {
      var p1 := queue[0];
      queue := queue[1..];
      var p2 := queue[0];
      queue := queue[1..];
      if InOrder(p1, p2) >= 0 {
        result := result + index;
      }
      index := index + 1;
    }
  }

  /** The eight example pairs of the puzzle. */
  function I(n: int): Value { Int(n) }
  function L(items: seq<Value>): Value { List(items) }

  const ExamplePackets: seq<Packet> := [
    [I(1), I(1), I(3), I(1), I(1)], [I(1), I(1), I(5), I(1), I(1)],
    [L([I(1)]), L([I(2), I(3), I(4)])], [L([I(1)]), I(4)],
    [I(9)], [L([I(8), I(7), I(6)])],
    [L([I(4), I(4)]), I(4), I(4)], [L([I(4), I(4)]), I(4), I(4), I(4)],
    [I(7), I(7), I(7), I(7)], [I(7), I(7), I(7)],
    [], [I(3)],
    [L([L([])])], [L([])],
    [I(1), L([I(2), L([I(3), L([I(4), L([I(5), I(6), I(7)])])])]), I(8), I(9)],
    [I(1), L([I(2), L([I(3), L([I(4), L([I(5), I(6), I(0)])])])]), I(8), I(9)]
  ]

  /** The deepest example pair is decided by 7 against 0 five levels down. */
  lemma ExampleDeepPair()
    ensures InOrder(ExamplePackets[14], ExamplePackets[15]) == -1
  {
    var x5, y5 := [I(5), I(6), I(7)], [I(5), I(6), I(0)];
    assert InOrder(x5, y5) == -1;
    var x4, y4 := [I(4), L(x5)], [I(4), L(y5)];
    assert InOrder(x4, y4) == -1;
    var x3, y3 := [I(3), L(x4)], [I(3), L(y4)];
    assert InOrder(x3, y3) == -1;
    var x2, y2 := [I(2), L(x3)], [I(2), L(y3)];
    assert InOrder(x2, y2) == -1;
    assert ExamplePackets[14] == [I(1), L(x2), I(8), I(9)];
    assert ExamplePackets[15] == [I(1), L(y2), I(8), I(9)];
  }

  /** The verdicts on the eight example pairs. */
  lemma ExampleVerdicts()
    ensures var e := ExamplePackets;
      && InOrder(e[0], e[1]) == 1 && InOrder(e[2], e[3]) == 1
      && InOrder(e[4], e[5]) == -1 && InOrder(e[6], e[7]) == 1
      && InOrder(e[8], e[9]) == -1 && InOrder(e[10], e[11]) == 1
      && InOrder(e[12], e[13]) == -1 && InOrder(e[14], e[15]) == -1
  {
    var e := ExamplePackets;
    assert InOrder(e[0], e[1]) == 1;
    assert InOrder(e[2], e[3]) == 1;
    assert InOrder(e[4], e[5]) == -1;
    assert InOrder(e[6], e[7]) == 1;
    assert InOrder(e[8], e[9]) == -1;
    assert InOrder(e[10], e[11]) == 1;
    assert InOrder(e[12], e[13]) == -1;
    ExampleDeepPair();
  }

  /** Pairs 1, 2, 4 and 6 of the example are in order, so part 1 gives 13. */
  lemma Part1Example()
    ensures OrderedPairSum(ExamplePackets, 1) == 13
  {
    ExampleVerdicts();
  }

  // ----- Part 2 ----------------------------------------------------------

  /** Each packet may come before the next one. */
  predicate Ordered(ps: seq<Packet>)
  {
    forall i :: 0 < i < |ps| ==> InOrder(ps[i - 1], ps[i]) >= 0
  }

  /**
   * Place `x` before the first packet it strictly precedes, so that it
   * stays behind the packets level with it, as a stable sort keeps them.
   */
  function Insert(ps: seq<Packet>, x: Packet): (r: seq<Packet>)
    requires Ordered(ps)
    ensures Ordered(r)
    ensures multiset(r) == multiset(ps) + multiset{x}
    ensures r != [] && (r[0] == x || (ps != [] && r[0] == ps[0]))
  {
    if ps == [] || InOrder(x, ps[0]) == 1 then [x] + ps
    else
      var tail := Insert(ps[1..], x);
      InOrderAntisymmetric(x, ps[0]);
      assert ps == [ps[0]] + ps[1..];
      [ps[0]] + tail
  }

  /**
   * A sort by the packet comparison, standing for the library sort with
   * the comparison as key and reversed order: the result is a permutation
   * whose neighbours are all in order.
   */
  function Sort(ps: seq<Packet>): (r: seq<Packet>)
    ensures Ordered(r)
    ensures multiset(r) == multiset(ps)
    decreases |ps|
  {
    if ps == [] then []
    else
      var init := ps[..|ps| - 1];
      assert ps == init + [ps[|ps| - 1]];
      Insert(Sort(init), ps[|ps| - 1])
  }

  /** Sorting loses no packet. */
  lemma SortKeeps(ps: seq<Packet>, x: Packet)
    requires x in ps
    ensures x in Sort(ps)
  {
    assert x in multiset(ps);
  }

  const Divider2: Packet := [L([I(2)])]
  const Divider6: Packet := [L([I(6)])]

  /** The first position of `p` in `ps`, if any. */
  function IndexOf(ps: seq<Packet>, p: Packet): (r: Option<nat>)
    ensures r.Some? <==> p in ps
    ensures r.Some? ==> r.value < |ps| && ps[r.value] == p && p !in ps[..r.value]
  {
    if ps == [] then None
    else if ps[0] == p then Some(0)
    else match IndexOf(ps[1..], p)
      case None => None
      case Some(i) =>
        assert ps[..i + 1] == [ps[0]] + ps[1..][..i];
        Some(i + 1)
  }

  /** `d` first shows at the 1-based position `a` of `s`. */
  predicate FirstAt(s: seq<Packet>, d: Packet, a: nat)
  {
    1 <= a <= |s| && s[a - 1] == d && d !in s[..a - 1]
  }

  /**
   * The 1-based positions of the two dividers in the sorted list of all
   * packets with the dividers appended: each is the first occurrence of
   * its divider.
   */
  function DividerPositions(packets: seq<Packet>): (r: (nat, nat))
    ensures var s := Sort(packets + [Divider2, Divider6]);
      FirstAt(s, Divider2, r.0) && FirstAt(s, Divider6, r.1) && r.0 != r.1
  {
    var all := packets + [Divider2, Divider6];
    var s := Sort(all);
    SortKeeps(all, Divider2);
    SortKeeps(all, Divider6);
    var i1 := IndexOf(s, Divider2).value;
    var i2 := IndexOf(s, Divider6).value;
    assert Divider2[0].items[0] != Divider6[0].items[0];
    (i1 + 1, i2 + 1)
  }

  /** A first occurrence is unique: `p` first shows at `i0` and nowhere else. */
  lemma FirstOccurrence(s: seq<Packet>, p: Packet, i0: nat)
    requires i0 < |s| && s[i0] == p && p !in s[..i0]
    ensures forall i :: 0 <= i < |s| && s[i] == p && p !in s[..i] ==> i == i0
  {
    assert forall k :: 0 <= k < i0 ==> s[k] == s[..i0][k] != p;
    forall i | 0 <= i < |s| && s[i] == p && p !in s[..i]
      ensures i == i0
    {
      assert forall k :: 0 <= k < i ==> s[k] == s[..i][k] != p;
    }
  }

  /** The product of two first positions, whichever way they are found. */
  lemma FirstPositionsProduct(s: seq<Packet>, d2: Packet, d6: Packet, a: nat, b: nat)
    requires FirstAt(s, d2, a) && FirstAt(s, d6, b)
    ensures forall i, j ::
              (0 <= i < |s| && s[i] == d2 && d2 !in s[..i] &&
               0 <= j < |s| && s[j] == d6 && d6 !in s[..j]) ==> a * b == (i + 1) * (j + 1)
  {
    FirstOccurrence(s, d2, a - 1);
    FirstOccurrence(s, d6, b - 1);
    forall i, j | 0 <= i < |s| && s[i] == d2 && d2 !in s[..i] && 0 <= j < |s| && s[j] == d6 && d6 !in s[..j]
      ensures a * b == (i + 1) * (j + 1)
    {
      assert i + 1 == a && j + 1 == b;
    }
  }

  /**
   * The decoder key: the product of the 1-based positions at which the two
   * dividers first show in the sorted list of all packets and dividers.
   */
  function DecoderKey(packets: seq<Packet>): (key: int)
    ensures var s := Sort(packets + [Divider2, Divider6]);
      forall i, j ::
        (0 <= i < |s| && s[i] == Divider2 && Divider2 !in s[..i] &&
         0 <= j < |s| && s[j] == Divider6 && Divider6 !in s[..j]) ==> key == (i + 1) * (j + 1)
  {
    var r := DividerPositions(packets);
    FirstPositionsProduct(Sort(packets + [Divider2, Divider6]), Divider2, Divider6, r.0, r.1);
    r.0 * r.1
  }
}
