/**
 * Day 5 (Supply Stacks): stacks of crates are strings, bottom crate first.
 * The drawing is read column by column; each "move q from a to b" is carried
 * out either one crate at a time (the CrateMover 9000, part 1) or as one
 * block (the CrateMover 9001, part 2), and the answer is the top crate of
 * every stack.  The source keeps the stacks in a dictionary keyed 0..n-1 in
 * insertion order; here they are a sequence indexed the same way.
 */
module Crates {
  import opened Wrappers

  type Stacks = seq<string>

  /** A move with 0-based stack numbers (which may be -1 for a stack numbered 0). */
  datatype Instruction = Instruction(quantity: nat, from: int, to: int)

  // ----- Reading the drawing ---------------------------------------------

  function TrimStart(s: string): string
  {
    if s != [] && IsSpace(s[0]) then TrimStart(s[1..]) else s
  }

  function TrimEnd(s: string): string
  {
    if s != [] && IsSpace(s[|s| - 1]) then TrimEnd(s[..|s| - 1]) else s
  }

  /** `str.strip`: blanks removed from both ends. */
  function Strip(s: string): string
  {
    TrimEnd(TrimStart(s))
  }

  /** Trimming the front drops a blank prefix and stops at the first non-blank. */
  lemma {:induction false} TrimStartSpec(s: string)
    ensures var r := TrimStart(s);
      && |r| <= |s| && r == s[|s| - |r|..]
      && (forall k :: 0 <= k < |s| - |r| ==> IsSpace(s[k]))
      && (r == [] || !IsSpace(r[0]))
  {
    if s != [] && IsSpace(s[0]) {
      var tail := s[1..];
      TrimStartSpec(tail);
      var r := TrimStart(tail);
      assert TrimStart(s) == r;
      assert tail[|tail| - |r|..] == s[|s| - |r|..];
      forall k | 0 <= k < |s| - |r|
        ensures IsSpace(s[k])
      {
        if k > 0 {
          assert s[k] == tail[k - 1];
        }
      }
    }
  }

  /** Trimming the back drops a blank suffix and stops at the last non-blank. */
  lemma {:induction false} TrimEndSpec(s: string)
    ensures var r := TrimEnd(s);
      && |r| <= |s| && r == s[..|r|]
      && (forall k :: |r| <= k < |s| ==> IsSpace(s[k]))
      && (r == [] || !IsSpace(r[|r| - 1]))
  {
    if s != [] && IsSpace(s[|s| - 1]) {
      var init := s[..|s| - 1];
      TrimEndSpec(init);
      var r := TrimEnd(init);
      assert TrimEnd(s) == r;
      assert init[..|r|] == s[..|r|];
      forall k | |r| <= k < |s|
        ensures IsSpace(s[k])
      {
        if k < |s| - 1 {
          assert s[k] == init[k];
        }
      }
    }
  }

  function Blanks(n: nat): (b: string)
    ensures |b| == n
  {
    if n == 0 then [] else Blanks(n - 1) + [' ']
  }

  /** A word padded with blanks on the right strips back to the word. */
  lemma {:induction false} StripPadded(w: string, n: nat)
    requires w != [] && !IsSpace(w[0]) && !IsSpace(w[|w| - 1])
    ensures Strip(w + Blanks(n)) == w
  {
    var s := w + Blanks(n);
    assert TrimStart(s) == s;
    TrimEndPadded(w, n);
  }

  lemma {:induction false} TrimEndPadded(w: string, n: nat)
    requires w != [] && !IsSpace(w[|w| - 1])
    ensures TrimEnd(w + Blanks(n)) == w
  {
    if n > 0 {
      var s := w + Blanks(n);
      assert s[..|s| - 1] == w + Blanks(n - 1);
      TrimEndPadded(w, n - 1);
    } else {
      assert w + Blanks(0) == w;
    }
  }

  /**
   * The stripped string is the slice s[i..j] of `s` that neither starts nor
   * ends with a blank, and everything cut off on either side is blank.
   */
  lemma StripSpec(s: string) returns (i: nat, j: nat)
    ensures i <= j <= |s| && Strip(s) == s[i..j]
    ensures forall k :: 0 <= k < i ==> IsSpace(s[k])
    ensures forall k :: j <= k < |s| ==> IsSpace(s[k])
    ensures Strip(s) == [] || (!IsSpace(Strip(s)[0]) && !IsSpace(Strip(s)[|Strip(s)| - 1]))
  {
    var t := TrimStart(s);
    TrimStartSpec(s);
    TrimEndSpec(t);
    i := |s| - |t|;
    j := i + |TrimEnd(t)|;
  }

  /** Number of stacks: the length of `range(1, width, 4)`. */
  function StackCount(width: nat): nat
  {
    (width + 2) / 4
  }

  /** Column `c` of `rows`, read from the last row up to the first. */
  function ColumnUp(rows: seq<string>, c: nat): (col: string)
    requires forall l :: 0 <= l < |rows| ==> c < |rows[l]|
    ensures |col| == |rows|
  {
    if rows == [] then [] else ColumnUp(rows[1..], c) + [rows[0][c]]
  }

  /** Position k of the column is row |rows| - 1 - k. */
  lemma {:induction false} ColumnUpAt(rows: seq<string>, c: nat)
    requires forall l :: 0 <= l < |rows| ==> c < |rows[l]|
    ensures forall k :: 0 <= k < |rows| ==> ColumnUp(rows, c)[k] == rows[|rows| - 1 - k][c]
  {
    if rows != [] {
      ColumnUpAt(rows[1..], c);
    }
  }

  /** The eight characters of column `c`, from the eighth line up to the first. */
  function Column(lines: seq<string>, c: nat): (col: string)
    requires |lines| >= 8
    requires forall l :: 0 <= l < 8 ==> c < |lines[l]|
  {
    ColumnUp(lines[..8], c)
  }

  /** Column 1 + 4n is read exactly when it lies inside the bottom line. */
  lemma StackCountBounds(width: nat, n: nat)
    ensures 1 + 4 * n < width <==> n < StackCount(width)
  {
  }

  /** Every column that is read exists on each of the first eight lines. */
  predicate Readable(lines: seq<string>)
  {
    |lines| >= 8 && forall l :: 0 <= l < 8 ==> 4 * StackCount(|lines[7]|) - 3 < |lines[l]|
  }

  /** Stack i of the drawing: column 1 + 4i read bottom to top, blanks stripped. */
  function StackAt(lines: seq<string>, i: nat): string
    requires Readable(lines) && i < StackCount(|lines[7]|)
  {
    Strip(Column(lines, 1 + 4 * i))
  }

  /**
   * Read the starting stacks from the first eight lines of the input, one
   * stack per column 1, 5, 9, ... of the bottom line.
   */
  method LoadCrates(lines: seq<string>) returns (stacks: Stacks)
    requires Readable(lines)
    ensures |stacks| == StackCount(|lines[7]|)
    ensures forall i :: 0 <= i < |stacks| ==> stacks[i] == StackAt(lines, i)
  {
    stacks := [];
    var c := 1;
    while c < |lines[7]|
      invariant c == 1 + 4 * |stacks|
      invariant |stacks| <= StackCount(|lines[7]|)
      invariant forall i :: 0 <= i < |stacks| ==> stacks[i] == StackAt(lines, i)
    {
      StackCountBounds(|lines[7]|, |stacks|);
      var column := ReadColumn(lines, c);
      ghost var next := StackAt(lines, |stacks|);
      assert Strip(column) == next;
      stacks := stacks + [Strip(column)];
      c := c + 4;
    }
    StackCountBounds(|lines[7]|, |stacks|);
  }

  /** Gather the characters of column `c`, bottom line first. */
  method ReadColumn(lines: seq<string>, c: nat) returns (column: string)
    requires |lines| >= 8
    requires forall l :: 0 <= l < 8 ==> c < |lines[l]|
    ensures column == Column(lines, c)
  {
    column := "";
    var l := 0;
    while l < 8
      invariant 0 <= l <= 8
      invariant column == ColumnUp(lines[8 - l..8], c)
    {
      assert lines[7 - l..8][1..] == lines[8 - l..8];
      column := column + [lines[7 - l][c]];
      l := l + 1;
    }
    assert lines[0..8] == lines[..8];
  }

  /** The drawing of the puzzle's example, padded to eight lines. */
  const ExampleDrawing: seq<string> := [
    "           ", "           ", "           ", "           ", "           ",
    "    [D]    ", "[N] [C]    ", "[Z] [M] [P]"
  ]

  const ExampleStacks: Stacks := ["ZN", "MCD", "P"]

  /** Every line of the example drawing is 11 characters wide. */
  lemma ExampleWidths()
    ensures |ExampleDrawing| == 8
    ensures forall l :: 0 <= l < 8 ==> |ExampleDrawing[l]| == 11
  {
    forall l | 0 <= l < 8
      ensures |ExampleDrawing[l]| == 11
    {
      assert l == 0 || l == 1 || l == 2 || l == 3 || l == 4 || l == 5 || l == 6 || l == 7;
    }
  }

  /** Column `c` of the example drawing, read bottom up, is `expected`. */
  lemma ExampleColumn(c: nat, expected: string)
    requires c < 11 && |expected| == 8
    requires forall k :: 0 <= k < 8 ==> ExampleDrawing[7 - k][c] == expected[k]
    ensures forall l :: 0 <= l < 8 ==> c < |ExampleDrawing[l]|
    ensures Column(ExampleDrawing, c) == expected
  {
    ExampleWidths();
    var d := ExampleDrawing;
    assert d[..8] == d;
    ColumnUpAt(d, c);
  }

  /** Stack `i` of the example drawing is `word`, found in column 1 + 4i above `n` blanks. */
  lemma ExampleStack(i: nat, word: string, n: nat)
    requires i < 3 && word != [] && !IsSpace(word[0]) && !IsSpace(word[|word| - 1])
    requires |word| + n == 8
    requires forall l :: 0 <= l < 8 ==> |ExampleDrawing[l]| == 11
    requires forall k :: 0 <= k < 8 ==> ExampleDrawing[7 - k][1 + 4 * i] == (word + Blanks(n))[k]
    ensures Readable(ExampleDrawing) && StackCount(|ExampleDrawing[7]|) == 3
    ensures StackAt(ExampleDrawing, i) == word
  {
    ExampleWidths();
    ExampleColumn(1 + 4 * i, word + Blanks(n));
    StripPadded(word, n);
  }

  lemma ExampleStack0()
    ensures Readable(ExampleDrawing) && StackCount(|ExampleDrawing[7]|) == 3
    ensures StackAt(ExampleDrawing, 0) == "ZN"
  {
    ExampleWidths();
    forall k | 0 <= k < 8
      ensures ExampleDrawing[7 - k][1] == ("ZN" + Blanks(6))[k]
    {
      assert k == 0 || k == 1 || k == 2 || k == 3 || k == 4 || k == 5 || k == 6 || k == 7;
    }
    ExampleStack(0, "ZN", 6);
  }

  lemma ExampleStack1()
    ensures Readable(ExampleDrawing) && StackCount(|ExampleDrawing[7]|) == 3
    ensures StackAt(ExampleDrawing, 1) == "MCD"
  {
    ExampleWidths();
    forall k | 0 <= k < 8
      ensures ExampleDrawing[7 - k][5] == ("MCD" + Blanks(5))[k]
    {
      assert k == 0 || k == 1 || k == 2 || k == 3 || k == 4 || k == 5 || k == 6 || k == 7;
    }
    ExampleStack(1, "MCD", 5);
  }

  lemma ExampleStack2()
    ensures Readable(ExampleDrawing) && StackCount(|ExampleDrawing[7]|) == 3
    ensures StackAt(ExampleDrawing, 2) == "P"
  {
    ExampleWidths();
    forall k | 0 <= k < 8
      ensures ExampleDrawing[7 - k][9] == ("P" + Blanks(7))[k]
    {
      assert k == 0 || k == 1 || k == 2 || k == 3 || k == 4 || k == 5 || k == 6 || k == 7;
    }
    ExampleStack(2, "P", 7);
  }

  /** The example drawing holds stacks ZN, MCD and P. */
  lemma ExampleDrawingStacks()
    ensures Readable(ExampleDrawing) && StackCount(|ExampleDrawing[7]|) == 3
    ensures forall i :: 0 <= i < 3 ==> StackAt(ExampleDrawing, i) == ExampleStacks[i]
  {
    ExampleStack0();
    ExampleStack1();
    ExampleStack2();
    forall i | 0 <= i < 3
      ensures StackAt(ExampleDrawing, i) == ExampleStacks[i]
    {
      assert i == 0 || i == 1 || i == 2;
    }
  }

  // ----- Instructions ----------------------------------------------------

  /** The three numbers of a move line, stack numbers turned from 1-based to 0-based. */
  function ParseMove(quantity: nat, start: nat, end: nat): (ins: Instruction)
  {
    Instruction(quantity, start - 1, end - 1)
  }

  /** The numbers a move line would show for an instruction. */
  function MoveNumbers(ins: Instruction): (int, int, int)
  {
    (ins.quantity, ins.from + 1, ins.to + 1)
  }

  /**
   * A parsed move names existing stacks exactly when both of its 1-based
   * stack numbers lie in 1..|stacks|: the keys of the stacks dictionary are
   * 0..|stacks|-1, and any other number makes `stacks[start]` or
   * `stacks[end]` raise a KeyError. Parsing loses nothing: the numbers of
   * the line can be read back.
   */
  lemma ParseMoveLegal(stacks: Stacks, quantity: nat, start: nat, end: nat)
    ensures Legal9001(stacks, ParseMove(quantity, start, end)) <==> 1 <= start <= |stacks| && 1 <= end <= |stacks|
    ensures MoveNumbers(ParseMove(quantity, start, end)) == (quantity, start, end)
  {
  }

  // ----- Total number of crates ------------------------------------------

  function Total(stacks: Stacks): nat
  {
    if stacks == [] then 0 else |stacks[0]| + Total(stacks[1..])
  }

  lemma {:induction false} TotalUpdate(stacks: Stacks, i: nat, x: string)
    requires i < |stacks|
    ensures Total(stacks[i := x]) == Total(stacks) - |stacks[i]| + |x|
    decreases i
  {
    if i > 0 {
      assert stacks[i := x][1..] == stacks[1..][i - 1 := x];
      TotalUpdate(stacks[1..], i - 1, x);
    }
  }

  // ----- CrateMover 9001 (part 2) ----------------------------------------

  /** `s[-k:]`: the top k crates; with k == 0 or k >= |s| Python's slice is the whole stack. */
  function Taken(s: string, k: nat): string
  {
    if k == 0 || k >= |s| then s else s[|s| - k..]
  }

  /** `s[:-k]`: what stays behind; empty with k == 0 or k >= |s|. */
  function Kept(s: string, k: nat): string
  {
    if k == 0 || k >= |s| then [] else s[..|s| - k]
  }

  /** Both slices split the stack, and with 1 <= k <= |s| exactly k crates are taken. */
  lemma SlicesSplit(s: string, k: nat)
    ensures Kept(s, k) + Taken(s, k) == s
    ensures 1 <= k <= |s| ==> |Taken(s, k)| == k
    ensures k == 0 ==> Taken(s, k) == s
  {
  }

  /** A 9001 move touches only existing stacks (a missing key raises). */
  predicate Legal9001(stacks: Stacks, ins: Instruction)
  {
    0 <= ins.from < |stacks| && 0 <= ins.to < |stacks|
  }

  /**
   * `move_part2` on a copy of the stacks: the top `quantity` crates are
   * lifted as a block and put on the destination in their original order.
   */
  function Crane9001(stacks: Stacks, ins: Instruction): (r: Stacks)
    requires Legal9001(stacks, ins)
    ensures |r| == |stacks|
    ensures forall i :: 0 <= i < |r| && i != ins.from && i != ins.to ==> r[i] == stacks[i]
    ensures ins.from == ins.to ==> r == stacks
  {
    var s := stacks[ins.from];
    SlicesSplit(s, ins.quantity);
    var lifted := stacks[ins.from := Kept(s, ins.quantity)];
    lifted[ins.to := lifted[ins.to] + Taken(s, ins.quantity)]
  }

  /**
   * Between two different stacks the block lands on top of the destination,
   * the source keeps the rest, and no crate is lost or made.
   */
  lemma Crane9001Effect(stacks: Stacks, ins: Instruction)
    requires Legal9001(stacks, ins)
    ensures var s, r := stacks[ins.from], Crane9001(stacks, ins);
      ins.from != ins.to ==>
        && r[ins.from] + Taken(s, ins.quantity) == s
        && r[ins.to] == stacks[ins.to] + Taken(s, ins.quantity)
        && (1 <= ins.quantity <= |s| ==> |r[ins.from]| == |s| - ins.quantity)
    ensures Total(Crane9001(stacks, ins)) == Total(stacks)
  {
    var s := stacks[ins.from];
    SlicesSplit(s, ins.quantity);
    var lifted := stacks[ins.from := Kept(s, ins.quantity)];
    TotalUpdate(stacks, ins.from, Kept(s, ins.quantity));
    TotalUpdate(lifted, ins.to, lifted[ins.to] + Taken(s, ins.quantity));
  }

  /** A quantity of 0 is `s[-0:]`, the whole stack: everything moves. */
  lemma Crane9001ZeroTakesAll(stacks: Stacks, from: int, to: int)
    requires Legal9001(stacks, Instruction(0, from, to)) && from != to
    ensures Crane9001(stacks, Instruction(0, from, to))[from] == []
    ensures Crane9001(stacks, Instruction(0, from, to))[to] == stacks[to] + stacks[from]
  {
  }

  // ----- CrateMover 9000 (part 1) ----------------------------------------

  function Reverse(s: string): (r: string)
    ensures |r| == |s|
    ensures forall k :: 0 <= k < |s| ==> r[k] == s[|s| - 1 - k]
  {
    if s == [] then [] else Reverse(s[1..]) + [s[0]]
  }

  /**
   * A 9000 move never runs its loop for quantity 0; otherwise both stacks must
   * exist and each single lift needs a crate to lift.
   */
  predicate Legal9000(stacks: Stacks, ins: Instruction)
  {
    ins.quantity == 0 ||
    (Legal9001(stacks, ins) &&
     if ins.from == ins.to then |stacks[ins.from]| > 0 else ins.quantity <= |stacks[ins.from]|)
  }

  /** The stacks after k single lifts between two different stacks. */
  function Lifted(stacks: Stacks, from: nat, to: nat, k: nat): Stacks
    requires from < |stacks| && to < |stacks| && from != to && k <= |stacks[from]|
  {
    var s := stacks[from];
    stacks[from := s[..|s| - k]][to := stacks[to] + Reverse(s[|s| - k..])]
  }

  /** The stacks after a whole 9000 move. */
  function Crane9000(stacks: Stacks, ins: Instruction): Stacks
    requires Legal9000(stacks, ins)
  {
    if ins.quantity == 0 || ins.from == ins.to then stacks
    else Lifted(stacks, ins.from, ins.to, ins.quantity)
  }

  /**
   * `move` on a copy of the stacks: `quantity` times, the top crate of the
   * source is taken off and put on the destination.
   */
  method Move9000(stacks: Stacks, ins: Instruction) returns (r: Stacks)
    requires Legal9000(stacks, ins)
    ensures r == Crane9000(stacks, ins)
  {
    r := stacks;
    if ins.quantity > 0 && ins.from != ins.to {
      LiftedNone(stacks, ins.from, ins.to);
    }
    var i := 0;
    while i < ins.quantity
      invariant 0 <= i <= ins.quantity
      invariant ins.quantity > 0 && ins.from != ins.to ==> r == Lifted(stacks, ins.from, ins.to, i)
      invariant ins.quantity == 0 || ins.from == ins.to ==> r == stacks
    {
      if ins.from != ins.to {
        LiftedStep(stacks, ins.from, ins.to, i);
      } else {
        var s := stacks[ins.from];
        assert s[..|s| - 1] + [s[|s| - 1]] == s;
      }
      var cargo := r[ins.from][|r[ins.from]| - 1];
      r := r[ins.from := r[ins.from][..|r[ins.from]| - 1]];
      r := r[ins.to := r[ins.to] + [cargo]];
      i := i + 1;
    }
  }

  lemma LiftedNone(stacks: Stacks, from: nat, to: nat)
    requires from < |stacks| && to < |stacks| && from != to
    ensures Lifted(stacks, from, to, 0) == stacks
  {
    var s := stacks[from];
    assert s[..|s|] == s && s[|s|..] == [];
    assert Reverse(s[|s|..]) == [];
    assert stacks[to] + [] == stacks[to];
    assert stacks[from := s][to := stacks[to]] == stacks;
  }

  /** One more single lift moves the next crate down the source onto the destination. */
  lemma LiftedStep(stacks: Stacks, from: nat, to: nat, i: nat)
    requires from < |stacks| && to < |stacks| && from != to && i < |stacks[from]|
    ensures var r, s := Lifted(stacks, from, to, i), stacks[from];
      && r[from] == s[..|s| - i] && |r[from]| > 0
      && r[from][|r[from]| - 1] == s[|s| - i - 1]
      && Lifted(stacks, from, to, i + 1)
         == r[from := r[from][..|r[from]| - 1]][to := r[to] + [s[|s| - i - 1]]]
  {
    var s := stacks[from];
    var r := Lifted(stacks, from, to, i);
    var top := s[|s| - (i + 1)..];
    assert top != [] && top[0] == s[|s| - i - 1];
    assert top[1..] == s[|s| - i..];
    assert Reverse(top) == Reverse(s[|s| - i..]) + [s[|s| - i - 1]];
    assert s[..|s| - i][..|s| - i - 1] == s[..|s| - (i + 1)];
    var kept, landed := s[..|s| - (i + 1)], stacks[to] + Reverse(top);
    assert r[to] + [s[|s| - i - 1]] == landed;
    assert r[from := kept][to := landed] == stacks[from := kept][to := landed];
  }

  /**
   * One crate at a time reverses the block: the source keeps the same crates
   * as with the 9001 and the destination receives the 9001's block reversed;
   * no crate is lost or made.
   */
  lemma Crane9000Effect(stacks: Stacks, ins: Instruction)
    requires Legal9000(stacks, ins) && ins.quantity > 0
    ensures var s, r := stacks[ins.from], Crane9000(stacks, ins);
      && |r| == |stacks|
      && (forall i :: 0 <= i < |r| && i != ins.from && i != ins.to ==> r[i] == stacks[i])
      && (ins.from != ins.to ==>
            && r[ins.from] == Crane9001(stacks, ins)[ins.from]
            && r[ins.to] == stacks[ins.to] + Reverse(Taken(s, ins.quantity))
            && |r[ins.from]| == |s| - ins.quantity)
      && (ins.from == ins.to ==> r == stacks)
    ensures Total(Crane9000(stacks, ins)) == Total(stacks)
  {
    if ins.from != ins.to {
      var s := stacks[ins.from];
      var q := ins.quantity;
      if q < |s| {
        assert Kept(s, q) == s[..|s| - q];
      } else {
        assert s[..|s| - q] == [] && s[|s| - q..] == s;
      }
      var lifted := stacks[ins.from := s[..|s| - q]];
      TotalUpdate(stacks, ins.from, s[..|s| - q]);
      TotalUpdate(lifted, ins.to, stacks[ins.to] + Reverse(s[|s| - q..]));
    }
  }

  /** For a single crate both cranes agree. */
  lemma SingleCrateSame(stacks: Stacks, ins: Instruction)
    requires Legal9000(stacks, ins) && ins.quantity == 1
    ensures Crane9000(stacks, ins) == Crane9001(stacks, ins)
  {
    if ins.from != ins.to {
      var s := stacks[ins.from];
      assert Reverse(s[|s| - 1..]) == s[|s| - 1..];
      if |s| > 1 {
        assert Kept(s, 1) == s[..|s| - 1];
      }
    }
  }

  // ----- Driving the moves and reading the tops ----------------------------

  predicate Legal9000All(stacks: Stacks, moves: seq<Instruction>)
    decreases |moves|
  {
    moves == [] ||
    (Legal9000(stacks, moves[0]) && Legal9000All(Crane9000(stacks, moves[0]), moves[1..]))
  }

  function Rearrange9000(stacks: Stacks, moves: seq<Instruction>): Stacks
    requires Legal9000All(stacks, moves)
    decreases |moves|
  {
    if moves == [] then stacks else Rearrange9000(Crane9000(stacks, moves[0]), moves[1..])
  }

  predicate Legal9001All(stacks: Stacks, moves: seq<Instruction>)
    decreases |moves|
  {
    moves == [] ||
    (Legal9001(stacks, moves[0]) && Legal9001All(Crane9001(stacks, moves[0]), moves[1..]))
  }

  function Rearrange9001(stacks: Stacks, moves: seq<Instruction>): Stacks
    requires Legal9001All(stacks, moves)
    decreases |moves|
  {
    if moves == [] then stacks else Rearrange9001(Crane9001(stacks, moves[0]), moves[1..])
  }

  /** The moves of either crane keep the number of crates. */
  lemma {:induction false} Rearrange9000Total(stacks: Stacks, moves: seq<Instruction>)
    requires Legal9000All(stacks, moves)
    ensures |Rearrange9000(stacks, moves)| == |stacks|
    ensures Total(Rearrange9000(stacks, moves)) == Total(stacks)
    decreases |moves|
  {
    if moves != [] {
      if moves[0].quantity > 0 {
        Crane9000Effect(stacks, moves[0]);
      }
      Rearrange9000Total(Crane9000(stacks, moves[0]), moves[1..]);
    }
  }

  lemma {:induction false} Rearrange9001Total(stacks: Stacks, moves: seq<Instruction>)
    requires Legal9001All(stacks, moves)
    ensures |Rearrange9001(stacks, moves)| == |stacks|
    ensures Total(Rearrange9001(stacks, moves)) == Total(stacks)
    decreases |moves|
  {
    if moves != [] {
      Crane9001Effect(stacks, moves[0]);
      Rearrange9001Total(Crane9001(stacks, moves[0]), moves[1..]);
    }
  }

  predicate AllNonEmpty(stacks: Stacks)
  {
    forall i :: 0 <= i < |stacks| ==> stacks[i] != []
  }

  /** The top crate of every stack, in stack order. */
  function Tops(stacks: Stacks): (message: string)
    requires AllNonEmpty(stacks)
  {
    seq(|stacks|, i requires 0 <= i < |stacks| => stacks[i][|stacks[i]| - 1])
  }

  /** Collect the top crate of each stack into the message. */
  method ReadTops(stacks: Stacks) returns (message: string)
    requires AllNonEmpty(stacks)
    ensures |message| == |stacks|
    ensures forall i :: 0 <= i < |stacks| ==> message[i] == stacks[i][|stacks[i]| - 1]
  {
    message := "";
    var i := 0;
    while i < |stacks|
      invariant 0 <= i <= |stacks|
      invariant |message| == i
      invariant forall k :: 0 <= k < i ==> message[k] == stacks[k][|stacks[k]| - 1]
    {
      message := message + [stacks[i][|stacks[i]| - 1]];
      i := i + 1;
    }
  }

  /** Part 1: run every move with the 9000 and read the tops. */
  method Part1(stacks: Stacks, moves: seq<Instruction>) returns (message: string)
    requires Legal9000All(stacks, moves)
    requires AllNonEmpty(Rearrange9000(stacks, moves))
    ensures message == Tops(Rearrange9000(stacks, moves))
  {
    var current := stacks;
    var i := 0;
    while i < |moves|
      invariant 0 <= i <= |moves|
      invariant Legal9000All(current, moves[i..])
      invariant Rearrange9000(current, moves[i..]) == Rearrange9000(stacks, moves)
    {
      assert moves[i..][1..] == moves[i + 1..];
      current := Move9000(current, moves[i]);
      i := i + 1;
    }
    assert moves[i..] == [];
    message := ReadTops(current);
  }

  /** Part 2: run every move with the 9001 and read the tops. */
  method Part2(stacks: Stacks, moves: seq<Instruction>) returns (message: string)
    requires Legal9001All(stacks, moves)
    requires AllNonEmpty(Rearrange9001(stacks, moves))
    ensures message == Tops(Rearrange9001(stacks, moves))
  {
    var current := stacks;
    var i := 0;
    while i < |moves|
      invariant 0 <= i <= |moves|
      invariant Legal9001All(current, moves[i..])
      invariant Rearrange9001(current, moves[i..]) == Rearrange9001(stacks, moves)
    {
      assert moves[i..][1..] == moves[i + 1..];
      current := Crane9001(current, moves[i]);
      i := i + 1;
    }
    assert moves[i..] == [];
    message := ReadTops(current);
  }

  const ExampleMoves: seq<Instruction> :=
    [ParseMove(1, 2, 1), ParseMove(3, 1, 3), ParseMove(2, 2, 1), ParseMove(1, 1, 2)]

  /** Three stacks given one by one. */
  lemma ThreeStacks(t: Stacks, a: string, b: string, c: string)
    requires |t| == 3 && t[0] == a && t[1] == b && t[2] == c
    ensures t == [a, b, c]
  {
  }

  /** First example move with the 9000: one crate from stack 2 to stack 1. */
  lemma Example9000Move1()
    ensures Crane9000(["ZN", "MCD", "P"], Instruction(1, 1, 0)) == ["ZND", "MC", "P"]
  {
    SingleCrateSame(["ZN", "MCD", "P"], Instruction(1, 1, 0));
    assert Kept("MCD", 1) == "MC" && Taken("MCD", 1) == "D";
    ThreeStacks(Crane9001(["ZN", "MCD", "P"], Instruction(1, 1, 0)), "ZND", "MC", "P");
  }

  /** Second example move with the 9000: three crates from stack 1 to stack 3, one by one. */
  lemma Example9000Move2()
    ensures Crane9000(["ZND", "MC", "P"], Instruction(3, 0, 2)) == ["", "MC", "PDNZ"]
  {
    LiftedWhole(["ZND", "MC", "P"], 0, 2, "DNZ");
    ThreeStacks(Lifted(["ZND", "MC", "P"], 0, 2, 3), "", "MC", "PDNZ");
  }

  /** Third example move with the 9000: two crates from stack 2 to stack 1, one by one. */
  lemma Example9000Move3()
    ensures Crane9000(["", "MC", "PDNZ"], Instruction(2, 1, 0)) == ["CM", "", "PDNZ"]
  {
    LiftedWhole(["", "MC", "PDNZ"], 1, 0, "CM");
    ThreeStacks(Lifted(["", "MC", "PDNZ"], 1, 0, 2), "CM", "", "PDNZ");
  }

  /** Fourth example move with the 9000: one crate from stack 1 to stack 2. */
  lemma Example9000Move4()
    ensures Crane9000(["CM", "", "PDNZ"], Instruction(1, 0, 1)) == ["C", "M", "PDNZ"]
  {
    SingleCrateSame(["CM", "", "PDNZ"], Instruction(1, 0, 1));
    assert Kept("CM", 1) == "C" && Taken("CM", 1) == "M";
    ThreeStacks(Crane9001(["CM", "", "PDNZ"], Instruction(1, 0, 1)), "C", "M", "PDNZ");
  }

  /** Lifting a whole stack empties it and puts it, reversed as `r`, on the destination. */
  lemma LiftedWhole(stacks: Stacks, from: nat, to: nat, r: string)
    requires from < |stacks| && to < |stacks| && from != to
    requires |r| == |stacks[from]| && forall k :: 0 <= k < |r| ==> r[k] == stacks[from][|r| - 1 - k]
    ensures Lifted(stacks, from, to, |r|) == stacks[from := ""][to := stacks[to] + r]
  {
    var s := stacks[from];
    assert s[..0] == "" && s[0..] == s;
    ReverseExample(s, r);
  }

  lemma ReverseExample(s: string, r: string)
    requires |s| == |r| && forall k :: 0 <= k < |s| ==> r[k] == s[|s| - 1 - k]
    ensures Reverse(s) == r
  {
  }

  /** The example rearrangement with the 9000 ends with C, M and PDNZ on the stacks. */
  lemma Example9000()
    ensures Legal9000All(ExampleStacks, ExampleMoves)
    ensures Rearrange9000(ExampleStacks, ExampleMoves) == ["C", "M", "PDNZ"]
  {
    var m := ExampleMoves;
    assert m == [Instruction(1, 1, 0), Instruction(3, 0, 2), Instruction(2, 1, 0), Instruction(1, 0, 1)];
    Example9000Move1();
    Example9000Move2();
    Example9000Move3();
    Example9000Move4();
    assert m[1..][1..][1..][1..] == [];
  }

  /** The example rearrangement with the 9001 ends with M, C and PZND on the stacks. */
  lemma Example9001()
    ensures Legal9001All(ExampleStacks, ExampleMoves)
    ensures Rearrange9001(ExampleStacks, ExampleMoves) == ["M", "C", "PZND"]
  {
    var m := ExampleMoves;
    assert m == [Instruction(1, 1, 0), Instruction(3, 0, 2), Instruction(2, 1, 0), Instruction(1, 0, 1)];
    var t1 := Crane9001(ExampleStacks, m[0]);
    assert Kept("MCD", 1) == "MC" && Taken("MCD", 1) == "D";
    ThreeStacks(t1, "ZND", "MC", "P");
    var t2 := Crane9001(t1, m[1]);
    assert Kept("ZND", 3) == "" && Taken("ZND", 3) == "ZND";
    ThreeStacks(t2, "", "MC", "PZND");
    var t3 := Crane9001(t2, m[2]);
    assert Kept("MC", 2) == "" && Taken("MC", 2) == "MC";
    ThreeStacks(t3, "MC", "", "PZND");
    var t4 := Crane9001(t3, m[3]);
    assert Kept("MC", 1) == "M" && Taken("MC", 1) == "C";
    ThreeStacks(t4, "M", "C", "PZND");
    assert m[1..][1..][1..][1..] == [];
  }

  /** The tops of the example: CMZ with the 9000, MCD with the 9001. */
  lemma ExampleMessages()
    ensures Legal9000All(ExampleStacks, ExampleMoves)
    ensures AllNonEmpty(Rearrange9000(ExampleStacks, ExampleMoves))
    ensures Tops(Rearrange9000(ExampleStacks, ExampleMoves)) == "CMZ"
    ensures Legal9001All(ExampleStacks, ExampleMoves)
    ensures AllNonEmpty(Rearrange9001(ExampleStacks, ExampleMoves))
    ensures Tops(Rearrange9001(ExampleStacks, ExampleMoves)) == "MCD"
  {
    Example9000();
    Example9001();
  }
}
