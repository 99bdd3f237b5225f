/**
 * Day 2 (Rock Paper Scissors): a strategy guide of rounds, one per line,
 * each an opponent letter and a second letter.  A round scores the points of
 * the shape played (1, 2, 3) plus those of the outcome (0, 3, 6).  Part 1
 * reads the second letter as the shape to play, part 2 as the outcome to
 * reach.
 */
module RockPaperScissors {
  import opened Wrappers

  datatype Shape = Rock | Paper | Scissors

  datatype Outcome = Win | Draw | Loss

  /** `shape_to_points`. */
  function ShapePoints(s: Shape): int
  {
    match s
    case Rock => 1
    case Paper => 2
    case Scissors => 3
  }

  /** `outcome_to_points`. */
  function OutcomePoints(o: Outcome): int
  {
    match o
    case Win => 6
    case Draw => 3
    case Loss => 0
  }

  /** The rules of the game: Rock defeats Scissors, Scissors Paper, Paper Rock. */
  predicate Defeats(a: Shape, b: Shape)
  {
    (a == Rock && b == Scissors) || (a == Scissors && b == Paper) || (a == Paper && b == Rock)
  }

  /** `round_score`: the shape's points plus the outcome's points. */
  function RoundScore(own: Shape, outcome: Outcome): (score: int)
    ensures 1 <= score <= 9
    ensures score % 3 == ShapePoints(own) % 3
  {
    ShapePoints(own) + OutcomePoints(outcome)
  }

  /** A round's score tells which shape was played and how the round ended. */
  lemma RoundScoreInjective(s1: Shape, o1: Outcome, s2: Shape, o2: Outcome)
    requires RoundScore(s1, o1) == RoundScore(s2, o2)
    ensures s1 == s2 && o1 == o2
  {
  }

  /** `round_outcome`: the result for us, playing `own` against `opponent`. */
  function RoundOutcome(opponent: Shape, own: Shape): (r: Outcome)
    ensures r == Draw <==> opponent == own
    ensures r == Win <==> Defeats(own, opponent)
    ensures r == Loss <==> Defeats(opponent, own)
  {
    if opponent == own then Draw
    else match opponent
      case Rock => if own == Paper then Win else Loss
      case Paper => if own == Scissors then Win else Loss
      case Scissors => if own == Rock then Win else Loss
  }

  /** Swapping the players turns a win into a loss and back. */
  lemma RoundOutcomeSwap(a: Shape, b: Shape)
    ensures RoundOutcome(a, b) == Win <==> RoundOutcome(b, a) == Loss
  {
  }

  /** `find_own_shape`: the shape that makes the round end as wanted. */
  function FindOwnShape(opponent: Shape, wanted: Outcome): (own: Shape)
    ensures RoundOutcome(opponent, own) == wanted
  {
    match wanted
    case Draw => opponent
    case Win => (match opponent case Rock => Paper case Paper => Scissors case Scissors => Rock)
    case Loss => (match opponent case Rock => Scissors case Paper => Rock case Scissors => Paper)
  }

  /** Only that shape reaches the wanted outcome. */
  lemma FindOwnShapeUnique(opponent: Shape, wanted: Outcome, own: Shape)
    requires RoundOutcome(opponent, own) == wanted
    ensures own == FindOwnShape(opponent, wanted)
  {
  }

  // ----- Reading the guide -------------------------------------------------

  /** ASCII `str.lower` on one character. */
  function LowerChar(ch: char): char
  {
    if 'A' <= ch <= 'Z' then (ch as int + 32) as char else ch
  }

  function Lower(s: string): string
  {
    seq(|s|, i requires 0 <= i < |s| => LowerChar(s[i]))
  }

  /** `letter_to_shape[letter.lower()]`; `None` where the lookup fails. */
  function LetterShape(letter: string): Option<Shape>
  {
    var l := Lower(letter);
    if l == "a" || l == "x" then Some(Rock)
    else if l == "b" || l == "y" then Some(Paper)
    else if l == "c" || l == "z" then Some(Scissors)
    else None
  }

  /** `letter_to_outcome[letter.lower()]`; `None` where the lookup fails. */
  function LetterOutcome(letter: string): Option<Outcome>
  {
    var l := Lower(letter);
    if l == "x" then Some(Loss)
    else if l == "y" then Some(Draw)
    else if l == "z" then Some(Win)
    else None
  }

  /** The letters the puzzle uses for each shape and outcome. */
  function OpponentLetter(s: Shape): string
  {
    match s case Rock => "A" case Paper => "B" case Scissors => "C"
  }

  function SecondLetter(s: Shape): string
  {
    match s case Rock => "X" case Paper => "Y" case Scissors => "Z"
  }

  function OutcomeLetter(o: Outcome): string
  {
    match o case Loss => "X" case Draw => "Y" case Win => "Z"
  }

  /** The tables read back every letter, in either case. */
  lemma {:induction false} LettersRoundTrip(s: Shape, o: Outcome)
    ensures LetterShape(OpponentLetter(s)) == Some(s) && LetterShape(SecondLetter(s)) == Some(s)
    ensures LetterShape(Lower(OpponentLetter(s))) == Some(s)
    ensures LetterOutcome(OutcomeLetter(o)) == Some(o)
  {
    assert Lower("A") == "a" && Lower("B") == "b" && Lower("C") == "c";
    assert Lower("X") == "x" && Lower("Y") == "y" && Lower("Z") == "z";
    assert Lower("a") == "a" && Lower("b") == "b" && Lower("c") == "c";
  }

  /** The longest blank-free prefix. */
  function Word(s: string): (w: string)
    ensures |w| <= |s| && w == s[..|w|]
    ensures forall k :: 0 <= k < |w| ==> !IsSpace(w[k])
    ensures |w| < |s| ==> IsSpace(s[|w|])
  {
    if s == [] || IsSpace(s[0]) then [] else [s[0]] + Word(s[1..])
  }

  /** `str.split()` with no argument: the maximal runs of non-blank characters. */
  function Words(s: string): seq<string>
    decreases |s|
  {
    if s == [] then []
    else if IsSpace(s[0]) then Words(s[1..])
    else
      var w := Word(s);
      [w] + Words(s[|w|..])
  }

  predicate Blank(s: string)
  {
    forall k :: 0 <= k < |s| ==> IsSpace(s[k])
  }

  predicate Token(s: string)
  {
    s != [] && forall k :: 0 <= k < |s| ==> !IsSpace(s[k])
  }

  /** Every piece `Words` returns is a non-empty run of non-blanks. */
  lemma {:induction false} WordsAreTokens(s: string)
    ensures forall i :: 0 <= i < |Words(s)| ==> Token(Words(s)[i])
    decreases |s|
  {
    if s == [] {
    } else if IsSpace(s[0]) {
      WordsAreTokens(s[1..]);
    } else {
      WordsAreTokens(s[|Word(s)|..]);
    }
  }

  lemma {:induction false} WordOfToken(a: string, rest: string)
    requires Token(a) && (rest == [] || IsSpace(rest[0]))
    ensures Word(a + rest) == a
    decreases |a|
  {
    if |a| > 1 {
      assert (a + rest)[1..] == a[1..] + rest;
      WordOfToken(a[1..], rest);
    } else {
      assert (a + rest)[1..] == rest;
    }
  }

  lemma {:induction false} WordsOfBlank(gap: string, rest: string)
    requires Blank(gap)
    ensures Words(gap + rest) == Words(rest)
    decreases |gap|
  {
    if gap == [] {
      assert gap + rest == rest;
    } else {
      assert (gap + rest)[1..] == gap[1..] + rest;
      WordsOfBlank(gap[1..], rest);
    }
  }

  /** Splitting two tokens joined by blanks gives the two tokens back. */
  lemma WordsOfPair(a: string, gap: string, b: string)
    requires Token(a) && Token(b) && Blank(gap) && gap != []
    ensures Words(a + gap + b) == [a, b]
  {
    var s := a + gap + b;
    WordOfToken(a, gap + b);
    assert s == a + (gap + b);
    assert s[|a|..] == gap + b;
    WordsOfBlank(gap, b);
    WordOfToken(b, []);
    assert b + [] == b;
    assert b[|b|..] == [];
  }

  // ----- The two readings --------------------------------------------------

  /** A guide line under the part 1 reading: the opponent's shape and ours. */
  function ParseShapes(line: string): Option<(Shape, Shape)>
  {
    var ws := Words(line);
    if |ws| != 2 then None
    else match (LetterShape(ws[0]), LetterShape(ws[1]))
      case (Some(opponent), Some(own)) => Some((opponent, own))
      case _ => None
  }

  /** A guide line under the part 2 reading: the opponent's shape and the wanted outcome. */
  function ParseWanted(line: string): Option<(Shape, Outcome)>
  {
    var ws := Words(line);
    if |ws| != 2 then None
    else match (LetterShape(ws[0]), LetterOutcome(ws[1]))
      case (Some(opponent), Some(wanted)) => Some((opponent, wanted))
      case _ => None
  }

  /** The score of a round played as the guide says under the part 1 reading. */
  function ShapesScore(round: (Shape, Shape)): int
  {
    RoundScore(round.1, RoundOutcome(round.0, round.1))
  }

  /** Under the part 2 reading the shape played comes from `find_own_shape`. */
  function WantedScore(round: (Shape, Outcome)): (score: int)
    ensures score == ShapePoints(FindOwnShape(round.0, round.1)) + OutcomePoints(round.1)
  {
    var own := FindOwnShape(round.0, round.1);
    RoundScore(own, RoundOutcome(round.0, own))
  }

  predicate AllShapes(lines: seq<string>)
  {
    forall i :: 0 <= i < |lines| ==> ParseShapes(lines[i]).Some?
  }

  predicate AllWanted(lines: seq<string>)
  {
    forall i :: 0 <= i < |lines| ==> ParseWanted(lines[i]).Some?
  }

  /** The part 1 total over a guide. */
  function TotalShapes(lines: seq<string>): int
    requires AllShapes(lines)
  {
    if lines == [] then 0
    else TotalShapes(lines[..|lines| - 1]) + ShapesScore(ParseShapes(lines[|lines| - 1]).value)
  }

  /** The part 2 total over a guide. */
  function TotalWanted(lines: seq<string>): int
    requires AllWanted(lines)
  {
    if lines == [] then 0
    else TotalWanted(lines[..|lines| - 1]) + WantedScore(ParseWanted(lines[|lines| - 1]).value)
  }

  /** Each round scores 1 to 9, so a guide totals between its length and nine times it. */
  lemma {:induction false} TotalShapesBounds(lines: seq<string>)
    requires AllShapes(lines)
    ensures |lines| <= TotalShapes(lines) <= 9 * |lines|
  {
    if lines != [] {
      TotalShapesBounds(lines[..|lines| - 1]);
    }
  }

  lemma {:induction false} TotalWantedBounds(lines: seq<string>)
    requires AllWanted(lines)
    ensures |lines| <= TotalWanted(lines) <= 9 * |lines|
  {
    if lines != [] {
      TotalWantedBounds(lines[..|lines| - 1]);
    }
  }

  /** Part 1: the score-summing loop, reading the second letter as a shape. */
  method PartOne(rounds: seq<string>) returns (total: int)
    requires AllShapes(rounds)
    ensures total == TotalShapes(rounds)
  {
    total := 0;
    for i := 0 to |rounds|
      invariant total == TotalShapes(rounds[..i])
    {
      assert rounds[..i + 1][..i] == rounds[..i];
      var round := ParseShapes(rounds[i]).value;
      var outcome := RoundOutcome(round.0, round.1);
      total := total + RoundScore(round.1, outcome);
    }
    assert rounds[..|rounds|] == rounds;
  }

  /** Part 2: the same loop, choosing the shape that reaches the wanted outcome. */
  method PartTwo(rounds: seq<string>) returns (total: int)
    requires AllWanted(rounds)
    ensures total == TotalWanted(rounds)
  {
    total := 0;
    for i := 0 to |rounds|
      invariant total == TotalWanted(rounds[..i])
    {
      assert rounds[..i + 1][..i] == rounds[..i];
      var round := ParseWanted(rounds[i]).value;
      var own := FindOwnShape(round.0, round.1);
      var outcome := RoundOutcome(round.0, own);
      total := total + RoundScore(own, outcome);
    }
    assert rounds[..|rounds|] == rounds;
  }

  // ----- The example guide -------------------------------------------------

  const ExampleGuide: seq<string> := ["A Y", "B X", "C Z"]

  /** A guide line made of two letters and one space reads as those letters. */
  lemma ReadLine(line: string, first: string, second: string)
    requires |first| == 1 && |second| == 1 && line == first + " " + second
    requires !IsSpace(first[0]) && !IsSpace(second[0])
    ensures Words(line) == [first, second]
  {
    WordsOfPair(first, " ", second);
  }

  /** The example guide under both readings, line by line. */
  lemma ExampleRounds(g: seq<string>)
    requires g == ExampleGuide
    ensures ParseShapes(g[0]) == Some((Rock, Paper)) && ParseWanted(g[0]) == Some((Rock, Draw))
    ensures ParseShapes(g[1]) == Some((Paper, Rock)) && ParseWanted(g[1]) == Some((Paper, Loss))
    ensures ParseShapes(g[2]) == Some((Scissors, Scissors)) && ParseWanted(g[2]) == Some((Scissors, Win))
  {
    ReadLine(g[0], "A", "Y");
    ReadLine(g[1], "B", "X");
    ReadLine(g[2], "C", "Z");
    LettersRoundTrip(Rock, Loss);
    LettersRoundTrip(Paper, Draw);
    LettersRoundTrip(Scissors, Win);
  }

  /** The example totals 15 under the part 1 reading. */
  lemma ExamplePartOne(g: seq<string>)
    requires g == ExampleGuide
    ensures AllShapes(g) && TotalShapes(g) == 15
  {
    ExampleRounds(g);
    forall i | 0 <= i < |g|
      ensures ParseShapes(g[i]).Some?
    {
      assert i == 0 || i == 1 || i == 2;
    }
    var one, two := g[..1], g[..2];
    assert one[..0] == [] && two[..1] == one && g[..2] == two;
    assert TotalShapes(one) == 8;
    assert TotalShapes(two) == 9;
  }

  /** The example totals 12 under the part 2 reading. */
  lemma ExamplePartTwo(g: seq<string>)
    requires g == ExampleGuide
    ensures AllWanted(g) && TotalWanted(g) == 12
  {
    ExampleRounds(g);
    forall i | 0 <= i < |g|
      ensures ParseWanted(g[i]).Some?
    {
      assert i == 0 || i == 1 || i == 2;
    }
    var one, two := g[..1], g[..2];
    assert one[..0] == [] && two[..1] == one && g[..2] == two;
    assert TotalWanted(one) == 4;
    assert TotalWanted(two) == 5;
  }
}
