/**
 * Day 1, part two (Calorie Counting): an inventory of food items, one
 * number of Calories per line, each Elf's items separated from the next
 * Elf's by a blank line.  The answer is the total carried by the three Elves
 * carrying the most.
 */
module Calories {
  import opened Wrappers

  /** An Elf and the Calories it carries so far. */
  class Elf {
    var calories: int

    constructor ()
      ensures calories == 0
    {
      calories := 0;
    }
  }

  /** A line `int` can read as a plain decimal number. */
  predicate Numeral(s: string)
  {
    |s| > 0 && forall i :: 0 <= i < |s| ==> '0' <= s[i] <= '9'
  }

  /** The number a line of digits stands for. */
  function Value(s: string): int
  {
    if s == [] then 0
    else 10 * Value(s[..|s| - 1]) + (s[|s| - 1] as int - '0' as int)
  }

  /** The decimal digits of `n`. */
  function Show(n: nat): (s: string)
    ensures Numeral(s)
  {
    if n < 10 then [('0' as int + n) as char]
    else Show(n / 10) + [('0' as int + n % 10) as char]
  }

  /** Reading a number's digits gives the number back. */
  lemma {:induction false} ValueShow(n: nat)
    ensures Value(Show(n)) == n
  {
    var s := Show(n);
    if n >= 10 {
      ValueShow(n / 10);
      assert s[..|s| - 1] == Show(n / 10);
    }
  }

  /** The blank line that ends an Elf's items. */
  predicate Blank(line: string)
  {
    line == ""
  }

  /** Every line is blank or a number. */
  predicate Inventory(lines: seq<string>)
  {
    forall i :: 0 <= i < |lines| && !Blank(lines[i]) ==> Numeral(lines[i])
  }

  /**
   * The lines cut at every blank line: one piece more than there are blank
   * lines, the last one possibly empty.
   */
  function Pieces(lines: seq<string>): (p: seq<seq<string>>)
    ensures |p| > 0
  {
    if lines == [] then [[]]
    else
      var p := Pieces(lines[..|lines| - 1]);
      var line := lines[|lines| - 1];
      if Blank(line) then p + [[]] else p[..|p| - 1] + [p[|p| - 1] + [line]]
  }

  /** The pieces put back together with a blank line between each two. */
  function Join(pieces: seq<seq<string>>): seq<string>
    requires |pieces| > 0
  {
    if |pieces| == 1 then pieces[0]
    else Join(pieces[..|pieces| - 1]) + [""] + pieces[|pieces| - 1]
  }

  /** The number of blank lines. */
  function Blanks(lines: seq<string>): nat
  {
    if lines == [] then 0
    else Blanks(lines[..|lines| - 1]) + if Blank(lines[|lines| - 1]) then 1 else 0
  }

  /** Cutting at the blank lines and joining again gives the lines back. */
  lemma {:induction false} PiecesJoin(lines: seq<string>)
    ensures Join(Pieces(lines)) == lines
  {
    if lines != [] {
      var init := lines[..|lines| - 1];
      var line := lines[|lines| - 1];
      PiecesJoin(init);
      assert lines == init + [line];
      var p := Pieces(init);
      if !Blank(line) && |p| > 1 {
        var q := Pieces(lines);
        assert q[..|q| - 1] == p[..|p| - 1];
        assert p == p[..|p| - 1] + [p[|p| - 1]];
      }
    }
  }

  /** There is one piece more than there are blank lines. */
  lemma {:induction false} PiecesCount(lines: seq<string>)
    ensures |Pieces(lines)| == Blanks(lines) + 1
  {
    if lines != [] {
      PiecesCount(lines[..|lines| - 1]);
    }
  }

  /** No piece holds a blank line. */
  lemma {:induction false} PiecesNoBlank(lines: seq<string>)
    ensures forall k, i :: 0 <= k < |Pieces(lines)| && 0 <= i < |Pieces(lines)[k]| ==> !Blank(Pieces(lines)[k][i])
  {
    if lines != [] {
      PiecesNoBlank(lines[..|lines| - 1]);
    }
  }

  /** Sum of the numbers of the lines of one Elf's items. */
  function Total(items: seq<string>): int
  {
    if items == [] then 0
    else Total(items[..|items| - 1]) + Value(items[|items| - 1])
  }

  /**
   * The running Calories after the first `i` lines: one entry per piece so
   * far, the last one still growing.
   */
  function Tallies(lines: seq<string>, i: nat): (t: seq<int>)
    requires i <= |lines|
    ensures |t| > 0
  {
    if i == 0 then [0] else NextTallies(Tallies(lines, i - 1), lines[i - 1])
  }

  /** One more line: a blank one opens a new tally at 0, any other adds its number to the last. */
  function NextTallies(t: seq<int>, line: string): (t': seq<int>)
    requires |t| > 0
    ensures |t'| > 0
  {
    if Blank(line) then t + [0] else t[..|t| - 1] + [t[|t| - 1] + Value(line)]
  }

  /** The Calories of each piece, in order. */
  function Totals(pieces: seq<seq<string>>): (totals: seq<int>)
    ensures |totals| == |pieces|
  {
    seq(|pieces|, k requires 0 <= k < |pieces| => Total(pieces[k]))
  }

  /** The running Calories are the totals of the pieces. */
  lemma {:induction false} TalliesTotal(lines: seq<string>, i: nat)
    requires i <= |lines|
    ensures Tallies(lines, i) == Totals(Pieces(lines[..i]))
  {
    if i > 0 {
      TalliesTotal(lines, i - 1);
      var p, line := Pieces(lines[..i - 1]), lines[i - 1];
      var t := Tallies(lines, i - 1);
      assert Tallies(lines, i) == NextTallies(t, line);
      if Blank(line) {
        PiecesBlank(lines, i);
        TotalsNewPiece(p);
      } else {
        PiecesLine(lines, i);
        TotalsGrowLast(p, line);
      }
    }
  }

  /** A blank line opens a new, empty piece. */
  lemma PiecesBlank(lines: seq<string>, i: nat)
    requires 0 < i <= |lines| && Blank(lines[i - 1])
    ensures Pieces(lines[..i]) == Pieces(lines[..i - 1]) + [[]]
  {
    PiecesStep(lines, i);
  }

  /** Any other line joins the last piece. */
  lemma PiecesLine(lines: seq<string>, i: nat)
    requires 0 < i <= |lines| && !Blank(lines[i - 1])
    ensures var p := Pieces(lines[..i - 1]); Pieces(lines[..i]) == p[..|p| - 1] + [p[|p| - 1] + [lines[i - 1]]]
  {
    PiecesStep(lines, i);
  }

  /** The pieces of the first `i` lines, from those of the first `i - 1`. */
  lemma PiecesStep(lines: seq<string>, i: nat)
    requires 0 < i <= |lines|
    ensures var p, line := Pieces(lines[..i - 1]), lines[i - 1];
      Pieces(lines[..i]) == if Blank(line) then p + [[]] else p[..|p| - 1] + [p[|p| - 1] + [line]]
  {
    assert lines[..i][..i - 1] == lines[..i - 1];
  }

  /** A new empty piece adds a total of 0. */
  lemma TotalsNewPiece(p: seq<seq<string>>)
    ensures Totals(p + [[]]) == Totals(p) + [0]
  {
  }

  /** A line added to the last piece adds its number to the last total. */
  lemma TotalsGrowLast(p: seq<seq<string>>, line: string)
    requires |p| > 0
    ensures var t := Totals(p);
      Totals(p[..|p| - 1] + [p[|p| - 1] + [line]]) == t[..|t| - 1] + [t[|t| - 1] + Value(line)]
  {
    TotalSnoc(p[|p| - 1], line);
  }

  lemma TotalSnoc(items: seq<string>, line: string)
    ensures Total(items + [line]) == Total(items) + Value(line)
  {
    assert (items + [line])[..|items|] == items;
  }

  /** The Elves' items: every piece, except an empty one after a final blank line (or for no lines at all). */
  function Groups(lines: seq<string>): seq<seq<string>>
  {
    var p := Pieces(lines);
    if p[|p| - 1] == [] then p[..|p| - 1] else p
  }

  /** The last piece is empty exactly when there are no lines or the last line is blank. */
  lemma LastPiece(lines: seq<string>)
    ensures var p := Pieces(lines); p[|p| - 1] == [] <==> lines == [] || Blank(lines[|lines| - 1])
  {
  }

  /** The closed Elves carry the tallies so far, in order, the open one the last tally, and it is none of them. */
  ghost predicate Tally(elves: seq<Elf>, current: Elf, t: seq<int>)
    reads elves, current
  {
    && |elves| == |t| - 1 && current.calories == t[|t| - 1]
    && (forall k :: 0 <= k < |elves| ==> elves[k] != current)
    && (forall k :: 0 <= k < |elves| ==> elves[k].calories == t[k])
  }

  /**
   * One line of `elves_and_their_calories`: a blank line closes the current
   * Elf and starts a fresh one with no Calories; any other line adds its
   * number to the current Elf.
   */
  method Feed(elves: seq<Elf>, current: Elf, line: string, ghost t: seq<int>) returns (elves': seq<Elf>, current': Elf)
    requires Tally(elves, current, t)
    modifies current
    ensures Tally(elves', current', NextTallies(t, line))
    ensures current' == current || fresh(current')
  {
    if Blank(line) {
      elves' := elves + [current];
      current' := new Elf();
    } else {
      current.calories := current.calories + Value(line);
      elves', current' := elves, current;
    }
  }

  /**
   * The loop of `elves_and_their_calories`, line by line.  Returns the
   * closed Elves and the open one.
   */
  method Group(inputs: seq<string>) returns (elves: seq<Elf>, current: Elf)
    requires Inventory(inputs)
    ensures var t := Tallies(inputs, |inputs|);
      && |elves| == |t| - 1
      && (forall k :: 0 <= k < |elves| ==> elves[k].calories == t[k])
      && current.calories == t[|t| - 1]
      && forall k :: 0 <= k < |elves| ==> elves[k] != current
  {
    elves := [];
    current := new Elf();
    ghost var t: seq<int> := [0];
    for i := 0 to |inputs|
      invariant fresh(current)
      invariant t == Tallies(inputs, i)
      invariant Tally(elves, current, t)
    {
      elves, current := Feed(elves, current, inputs[i], t);
      t := NextTallies(t, inputs[i]);
    }
  }

  /**
   * `elves_and_their_calories` as written: the Elf still open when the lines
   * run out is never appended, so without a final blank line the last
   * Elf's items are lost.
   */
  method ElvesAndTheirCalories(inputs: seq<string>) returns (elves: seq<Elf>)
    requires Inventory(inputs)
    ensures var p := Pieces(inputs);
      && |elves| == |p| - 1 == Blanks(inputs)
      && forall k :: 0 <= k < |elves| ==> elves[k].calories == Totals(p[..|p| - 1])[k]
  {
    var current;
    elves, current := Group(inputs);
    TalliesTotal(inputs, |inputs|);
    assert inputs[..|inputs|] == inputs;
    PiecesCount(inputs);
  }

  /** The Elves as meant: the last Elf counts too when the lines do not end with a blank one. */
  method ElvesAndTheirCaloriesFixed(inputs: seq<string>) returns (elves: seq<Elf>)
    requires Inventory(inputs)
    ensures var g := Groups(inputs);
      && |elves| == |g|
      && forall k :: 0 <= k < |elves| ==> elves[k].calories == Totals(g)[k]
  {
    var current;
    elves, current := Group(inputs);
    TalliesTotal(inputs, |inputs|);
    assert inputs[..|inputs|] == inputs;
    LastPiece(inputs);
    if inputs != [] && !Blank(inputs[|inputs| - 1]) {
      elves := elves + [current];
    }
  }

  function Sum(s: seq<int>): int
  {
    if s == [] then 0 else Sum(s[..|s| - 1]) + s[|s| - 1]
  }

  /** Largest first. */
  predicate Descending(s: seq<int>)
  {
    forall i, j :: 0 <= i < j < |s| ==> s[i] >= s[j]
  }

  /** `x` put into the descending `t` before the first smaller value. */
  function Insert(x: int, t: seq<int>): (r: seq<int>)
    ensures |r| == |t| + 1
  {
    if t == [] || x >= t[0] then [x] + t else [t[0]] + Insert(x, t[1..])
  }

  /** `sorted(calories, reverse=True)`, as an insertion sort. */
  function SortDescending(s: seq<int>): (r: seq<int>)
    ensures |r| == |s|
  {
    if s == [] then [] else Insert(s[0], SortDescending(s[1..]))
  }

  /** Inserting into a descending sequence keeps it descending. */
  lemma {:induction false} InsertDescending(x: int, t: seq<int>)
    requires Descending(t)
    ensures Descending(Insert(x, t))
  {
    if t != [] && x < t[0] {
      InsertDescending(x, t[1..]);
      InsertMembers(x, t[1..]);
      var r := Insert(x, t[1..]);
      forall j | 0 <= j < |r|
        ensures t[0] >= r[j]
      {
        assert r[j] in r;
        if r[j] != x {
          var m :| 0 <= m < |t[1..]| && t[1..][m] == r[j];
          assert t[1 + m] == r[j];
        }
      }
      assert Insert(x, t) == [t[0]] + r;
    }
  }

  /** The values of `Insert(x, t)` are `x` and those of `t`. */
  lemma {:induction false} InsertMembers(x: int, t: seq<int>)
    ensures forall y :: y in Insert(x, t) <==> y == x || y in t
  {
    if t != [] && x < t[0] {
      InsertMembers(x, t[1..]);
      assert t == [t[0]] + t[1..];
    }
  }

  /** Inserting adds `x` and keeps everything else. */
  lemma {:induction false} InsertKeeps(x: int, t: seq<int>)
    ensures multiset(Insert(x, t)) == multiset(t) + multiset{x}
  {
    if t != [] && x < t[0] {
      InsertKeeps(x, t[1..]);
      assert t == [t[0]] + t[1..];
    }
  }

  /** Inserting `x` adds `x` to the sum. */
  lemma {:induction false} InsertSum(x: int, t: seq<int>)
    ensures Sum(Insert(x, t)) == Sum(t) + x
  {
    if t != [] && x < t[0] {
      InsertSum(x, t[1..]);
      assert t == [t[0]] + t[1..];
      SumFront(t[0], Insert(x, t[1..]));
      SumFront(t[0], t[1..]);
    } else {
      SumFront(x, t);
    }
  }

  /** Summing from the front gives the same. */
  lemma {:induction false} SumFront(x: int, s: seq<int>)
    ensures Sum([x] + s) == x + Sum(s)
  {
    if s != [] {
      SumFront(x, s[..|s| - 1]);
      assert ([x] + s)[..|s|] == [x] + s[..|s| - 1];
    }
  }

  /** The sort orders the totals largest first. */
  lemma {:induction false} SortDescendingOrders(s: seq<int>)
    ensures Descending(SortDescending(s))
  {
    if s != [] {
      SortDescendingOrders(s[1..]);
      InsertDescending(s[0], SortDescending(s[1..]));
    }
  }

  /** The sort keeps each total. */
  lemma {:induction false} SortDescendingKeeps(s: seq<int>)
    ensures multiset(SortDescending(s)) == multiset(s)
  {
    if s != [] {
      SortDescendingKeeps(s[1..]);
      InsertKeeps(s[0], SortDescending(s[1..]));
      assert s == [s[0]] + s[1..];
    }
  }

  /** The sort keeps the sum of the totals. */
  lemma {:induction false} SortDescendingSum(s: seq<int>)
    ensures Sum(SortDescending(s)) == Sum(s)
  {
    if s != [] {
      SortDescendingSum(s[1..]);
      InsertSum(s[0], SortDescending(s[1..]));
      assert s == [s[0]] + s[1..];
      SumFront(s[0], s[1..]);
    }
  }

  /** `sum(sorted(calories, reverse=True)[:3])`. */
  function TopThree(calories: seq<int>): int
  {
    var sorted := SortDescending(calories);
    Sum(sorted[..Min(3, |sorted|)])
  }

  /**
   * With three Elves or more the answer is the sum of three of their totals,
   * and every other total is at most each of those three.
   */
  lemma TopThreeLargest(calories: seq<int>)
    requires |calories| >= 3
    ensures var sorted := SortDescending(calories); var top := sorted[..3];
      && multiset(top) <= multiset(calories)
      && Sum(top) == TopThree(calories)
      && forall x, y :: x in multiset(calories) - multiset(top) && y in top ==> x <= y
  {
    SortDescendingOrders(calories);
    SortDescendingKeeps(calories);
    var sorted := SortDescending(calories);
    assert sorted == sorted[..3] + sorted[3..];
    forall x, y | x in multiset(calories) - multiset(sorted[..3]) && y in sorted[..3]
      ensures x <= y
    {
      BeyondTop(sorted, x, y);
    }
  }

  /** In a descending sequence a value past the first three is at most each of them. */
  lemma BeyondTop(sorted: seq<int>, x: int, y: int)
    requires Descending(sorted) && |sorted| >= 3
    requires x in multiset(sorted) - multiset(sorted[..3]) && y in sorted[..3]
    ensures x <= y
  {
    assert sorted == sorted[..3] + sorted[3..];
    assert x in multiset(sorted[3..]);
    var k :| 0 <= k < |sorted| - 3 && sorted[3..][k] == x;
    var j :| 0 <= j < 3 && sorted[..3][j] == y;
    assert sorted[j] >= sorted[3 + k];
  }

  /** With three Elves or fewer the answer is all their Calories. */
  lemma TopThreeFew(calories: seq<int>)
    requires |calories| <= 3
    ensures TopThree(calories) == Sum(calories)
  {
    SortDescendingSum(calories);
    var sorted := SortDescending(calories);
    assert sorted[..|sorted|] == sorted;
  }

  /**
   * The script's answer: the Elves' totals, largest three summed, with the
   * last Elf counted.
   */
  method PartTwo(inputs: seq<string>) returns (answer: int)
    requires Inventory(inputs)
    ensures answer == TopThree(Totals(Groups(inputs)))
  {
    var elves := ElvesAndTheirCaloriesFixed(inputs);
    var calories: seq<int> := [];
    for k := 0 to |elves|
      invariant calories == Totals(Groups(inputs))[..k]
    {
      calories := calories + [elves[k].calories];
    }
    assert calories == Totals(Groups(inputs));
    answer := TopThree(calories);
  }

  /**
   * What the loop as written loses: with lines that do not end in a blank
   * one, exactly the last Elf; otherwise nothing.
   */
  lemma AsWrittenLosesLast(lines: seq<string>)
    ensures var p, g := Pieces(lines), Groups(lines);
      && (lines == [] || Blank(lines[|lines| - 1]) ==> p[..|p| - 1] == g)
      && (lines != [] && !Blank(lines[|lines| - 1]) ==> p[..|p| - 1] == g[..|g| - 1] && g[|g| - 1] != [])
  {
    LastPiece(lines);
  }

  /** The pieces of the three lines "1", "" and "2". */
  lemma PiecesOfExample(lines: seq<string>)
    requires lines == ["1", "", "2"]
    ensures Pieces(lines) == [["1"], ["2"]]
  {
    assert lines[..0] == [] && lines[..3] == lines;
    PiecesLine(lines, 1);
    var one: seq<string> := [] + ["1"];
    assert one == ["1"];
    var p1 := Pieces(lines[..1]);
    assert p1 == [["1"]];
    PiecesBlank(lines, 2);
    var p2 := Pieces(lines[..2]);
    PiecesLine(lines, 3);
    var two: seq<string> := [] + ["2"];
    assert two == ["2"] && p2[..1] == [["1"]] && p2[1] == [];
  }

  /** The answers for the totals 1, and 1 and 2. */
  lemma TopThreeOfExample()
    ensures TopThree([1]) == 1 && TopThree([1, 2]) == 3
  {
    assert SortDescending([1]) == [1];
    assert [1][..1] == [1] && [1][..0] == [];
    assert SortDescending([1, 2]) == [2, 1] by {
      assert [1, 2][1..] == [2] && SortDescending([2]) == [2];
    }
    assert [2, 1][..2] == [2, 1] && [2, 1][..1] == [2] && [2][..0] == [];
  }

  /** Two Elves, no blank line after the second: the loop as written counts only the first. */
  lemma LastElfDropped(lines: seq<string>)
    requires lines == ["1", "", "2"]
    ensures var p := Pieces(lines); TopThree(Totals(p[..|p| - 1])) == 1
    ensures TopThree(Totals(Groups(lines))) == 3
  {
    PiecesOfExample(lines);
    assert Groups(lines) == [["1"], ["2"]];
    assert Value("1") == 1 && Value("2") == 2;
    assert Total(["1"]) == 1 && Total(["2"]) == 2;
    assert Totals([["1"]]) == [1];
    assert Totals([["1"], ["2"]]) == [1, 2];
    TopThreeOfExample();
  }
}
