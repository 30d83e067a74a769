/**
 * DiceService: "roll [sum|product|base] <dice>..." rolls each die spec
 * "<count>d<sides>[d]" and replies with one line per spec and, when adding
 * or multiplying, the grand total. All arithmetic is Java `int` arithmetic.
 * The random draws (Random.nextInt(sides), each in [0, sides)) are an input.
 */
module Dice {
  import opened Strings
  import opened Tokens

  const SUM_NAME := "SUM"
  const PRODUCT_NAME := "PRODUCT"
  const BASE_NAME := "BASE"
  const I_GOT := "I got "
  const FOR := " for "
  const TOTAL := "Total: "
  const SIDED := "-sided "
  const DOUBLING := "doubling "
  const DICE := "dice"

  datatype DiceMode = Sum | Product | Base

  function ModeName(m: DiceMode): string {
    match m
    case Sum => SUM_NAME
    case Product => PRODUCT_NAME
    case Base => BASE_NAME
  }

  /**
   * DiceMode.parse: null is SUM; otherwise the trimmed, upper-cased text
   * names the mode, and any text that names none is SUM as well.
   */
  function ParseMode(s: Option<string>): (m: DiceMode)
    ensures s.None? ==> m == Sum
    ensures m != Sum ==> s.Some? && ToUpper(Trim(s.value)) == ModeName(m)
  {
    if s.None? then Sum
    else
      var name := ToUpper(Trim(s.value));
      if name == PRODUCT_NAME then Product
      else if name == BASE_NAME then Base
      else Sum
  }

  /** Text whose trimmed, upper-cased form is a mode's name parses to that mode. */
  lemma ParseModeNamed(s: string, m: DiceMode)
    requires ToUpper(Trim(s)) == ModeName(m)
    ensures ParseMode(Some(s)) == m
  {
    assert SUM_NAME[0] != PRODUCT_NAME[0] && SUM_NAME[0] != BASE_NAME[0] && PRODUCT_NAME[0] != BASE_NAME[0];
  }

  /** Text that names no mode, and the absent group, both give SUM. */
  lemma ParseModeDefault(s: Option<string>)
    requires s.Some? ==> forall m: DiceMode :: ToUpper(Trim(s.value)) != ModeName(m)
    ensures ParseMode(s) == Sum
  {
    if s.Some? {
      assert ToUpper(Trim(s.value)) != ModeName(Product);
      assert ToUpper(Trim(s.value)) != ModeName(Base);
    }
  }

  // ---------------------------------------------------------------------
  // Powers
  // ---------------------------------------------------------------------

  /** `b` to the power `e`. */
  function Pow(b: int, e: nat): int {
    if e == 0 then 1 else b * Pow(b, e - 1)
  }

  /** (int) Math.pow(2, e): exact up to 2^30, then the cast saturates at Integer.MAX_VALUE. */
  function PowerOfTwo(e: int): (r: int)
    ensures IsInt(r) && r >= 0
    ensures 0 <= e <= 30 ==> r == Pow(2, e)
    ensures e > 30 ==> r == INT_MAX
  {
    if e < 0 then 0
    else if e <= 30 then PowBound(e); Pow(2, e)
    else INT_MAX
  }

  lemma PowBound(e: nat)
    requires e <= 30
    ensures 1 <= Pow(2, e) <= 0x4000_0000
  {
    PowPositive(e);
    PowGrows(e);
    PowThirty();
  }

  lemma PowThirty()
    ensures Pow(2, 30) == 0x4000_0000
  {
    assert Pow(2, 10) == 1024;
    assert Pow(2, 20) == 1024 * 1024;
  }

  lemma {:induction false} PowPositive(e: nat)
    ensures Pow(2, e) >= 1
  {
    if e > 0 {
      PowPositive(e - 1);
    }
  }

  lemma {:induction false} PowGrows(e: nat)
    requires e <= 30
    ensures Pow(2, e) <= Pow(2, 30)
    decreases 30 - e
  {
    if e < 30 {
      PowPositive(e);
      PowGrows(e + 1);
    }
  }

  // ---------------------------------------------------------------------
  // Die
  // ---------------------------------------------------------------------

  datatype Die = Die(count: int, sides: int, doubling: bool)

  /**
   * new Die(spec): the count is the text before the first 'd' (empty means
   * one die), the die doubles when the spec ends with 'd', and the sides are
   * the text after the 'd'. None is the exception the constructor throws:
   * a count or side number Integer.parseInt rejects, or nothing left after
   * the count (charAt(-1)).
   */
  function ParseDie(spec: string): (d: Option<Die>)
    ensures d.Some? ==> IsInt(d.value.count) && IsInt(d.value.sides)
  {
    if spec == [] then None
    else
      var first := NextToken(spec, 'd');
      ReadDie(CountOf(Trim(first.token)), Consume(first.rest, D).rest)
  }

  const D := "d"

  /** The count: one for empty text, otherwise Integer.parseInt. */
  function CountOf(c: string): Option<int> {
    if c == [] then Some(1) else ParseInt(c)
  }

  /** The rest of new Die(spec), once the count is read and `r` is what follows the 'd'. */
  function ReadDie(count: Option<int>, r: string): (d: Option<Die>)
    ensures d.Some? ==> count.Some? && d.value.count == count.value
    ensures d.Some? ==> IsInt(d.value.sides)
  {
    if count.None? || r == [] then None
    else
      var sides := ParseInt(NextToken(r, 'd').token);
      if sides.None? then None
      else Some(Die(count.value, sides.value, r[|r| - 1] == 'd'))
  }

  /** Text of digits contains no 'd', no space and nothing String.trim removes. */
  lemma DigitsPlain(s: string)
    requires AllDigits(s) && s != []
    ensures 'd' !in s && ' ' !in s && Trim(s) == s && SkipSpaces(s) == s
  {
    DigitsUntrimmed(s);
    assert !IsSpace(s[0]);
  }

  lemma DigitsUntrimmed(s: string)
    requires AllDigits(s) && s != []
    ensures Trim(s) == s
  {
    assert !IsTrimmable(s[0]) && !IsTrimmable(s[|s| - 1]);
    assert TrimStart(s) == s;
  }

  lemma {:induction false} TokenEndBefore(a: string, b: string, d: char)
    requires d !in a
    ensures TokenEnd(a + [d] + b, d) == |a|
    decreases |a|
  {
    if a != [] {
      assert (a + [d] + b)[1..] == a[1..] + [d] + b;
      TokenEndBefore(a[1..], b, d);
    }
  }

  lemma {:induction false} TokenEndAll(a: string, d: char)
    requires d !in a
    ensures TokenEnd(a, d) == |a|
    decreases |a|
  {
    if a != [] {
      TokenEndAll(a[1..], d);
    }
  }

  /** A token ended by `d` and followed by text that does not start with whitespace. */
  lemma TokenSplit(a: string, b: string, d: char)
    requires d !in a && (b == [] || !IsSpace(b[0]))
    ensures NextToken(a + [d] + b, d) == Token(a, b)
  {
    var t := a + [d] + b;
    TokenEndBefore(a, b, d);
    assert t[..|a|] == a && t[|a| + 1..] == b;
  }

  /** Text without `d` is one whole token. */
  lemma TokenWhole(a: string, d: char)
    requires d !in a && a != []
    ensures NextToken(a, d).token == a
  {
    TokenEndAll(a, d);
  }

  /** The text of a die with `sides` sides, and a trailing 'd' when it doubles. */
  function SidesText(sides: nat, doubling: bool): string {
    NatToString(sides) + if doubling then D else ""
  }

  /** The text after the 'd' gives the sides and the doubling flag. */
  lemma ReadSides(count: int, sides: nat, doubling: bool)
    requires IsInt(sides)
    ensures ReadDie(Some(count), SidesText(sides, doubling)) == Some(Die(count, sides, doubling))
  {
    var n := NatToString(sides);
    var r := SidesText(sides, doubling);
    DigitsPlain(n);
    ParseIntToString(sides);
    if doubling {
      TokenSplit(n, [], 'd');
      assert r == n + ['d'] + [];
    } else {
      TokenWhole(n, 'd');
      assert r == n && r[|r| - 1] in n;
    }
    ReadDieOf(count, r, n, sides, doubling);
  }

  lemma ReadDieOf(count: int, r: string, n: string, sides: int, doubling: bool)
    requires r != [] && NextToken(r, 'd').token == n && ParseInt(n) == Some(sides)
    requires r[|r| - 1] == 'd' <==> doubling
    ensures ReadDie(Some(count), r) == Some(Die(count, sides, doubling))
  {
  }

  /** Consuming "d" from the text after the 'd', which starts with a digit, does nothing. */
  lemma SidesNotConsumed(sides: nat, doubling: bool)
    ensures Consume(SidesText(sides, doubling), D) == Consumed(false, SidesText(sides, doubling))
    ensures var r := SidesText(sides, doubling); r != [] && !IsSpace(r[0])
  {
    var r := SidesText(sides, doubling);
    var n := NatToString(sides);
    assert r[0] == n[0] && IsDigit(n[0]);
    assert !StartsWith(r, D) by {
      assert |D| == 1 && D[0] == 'd';
      assert r[..1][0] == r[0];
    }
  }

  /** "<count>d<sides>[d]" is read as that many dice with that many sides. */
  lemma ParseCountedDie(count: nat, sides: nat, doubling: bool)
    requires IsInt(count) && IsInt(sides)
    ensures ParseDie(NatToString(count) + D + SidesText(sides, doubling)) == Some(Die(count, sides, doubling))
  {
    var c := NatToString(count);
    var r := SidesText(sides, doubling);
    DigitsPlain(c);
    SidesNotConsumed(sides, doubling);
    assert c + D + r == c + ['d'] + r;
    TokenSplit(c, r, 'd');
    ParseIntToString(count);
    assert CountOf(Trim(c)) == Some(count);
    ReadSides(count, sides, doubling);
  }

  /** "d<sides>[d]", with no count, is a single die. */
  lemma ParseSingleDie(sides: nat, doubling: bool)
    requires IsInt(sides)
    ensures ParseDie(D + SidesText(sides, doubling)) == Some(Die(1, sides, doubling))
  {
    var r := SidesText(sides, doubling);
    SidesNotConsumed(sides, doubling);
    assert D + r == [] + ['d'] + r;
    TokenSplit([], r, 'd');
    assert Trim([]) == [];
    ReadSides(1, sides, doubling);
  }

  /** A die that can be rolled: `new int[count]` and `nextInt(sides)` do not throw. */
  predicate Rollable(d: Die) {
    d.count >= 0 && (d.count == 0 || d.sides > 0)
  }

  /** Draws that Random.nextInt(sides) can return, one per die. */
  predicate Fits(d: Die, draws: seq<int>) {
    |draws| == d.count && forall i :: 0 <= i < |draws| ==> 0 <= draws[i] < d.sides
  }

  /** The face one draw shows: one more than the draw except in BASE mode, and 2^face when doubling. */
  function Face(d: Die, mode: DiceMode, draw: int): int {
    var r := if mode != Base then draw + 1 else draw;
    if d.doubling then PowerOfTwo(r) else r
  }

  function Faces(d: Die, mode: DiceMode, draws: seq<int>): (fs: seq<int>)
    ensures |fs| == |draws| && forall i :: 0 <= i < |draws| ==> fs[i] == Face(d, mode, draws[i])
  {
    seq(|draws|, i requires 0 <= i < |draws| => Face(d, mode, draws[i]))
  }

  /** Every face lies on the die: 1..sides, 0..sides-1 in BASE mode, a power of two or the cap when doubling. */
  lemma FaceRange(d: Die, mode: DiceMode, draw: int)
    requires 0 <= draw < d.sides && IsInt(d.sides)
    ensures var f := Face(d, mode, draw);
      IsInt(f) &&
      (!d.doubling && mode == Base ==> 0 <= f < d.sides) &&
      (!d.doubling && mode != Base ==> 1 <= f <= d.sides) &&
      (d.doubling ==> f >= 1 && (f == INT_MAX || exists e: nat | e <= 30 :: f == Pow(2, e)))
  {
    var r := if mode != Base then draw + 1 else draw;
    if d.doubling && r <= 30 {
      PowPositive(r);
      assert Face(d, mode, draw) == Pow(2, r);
    }
  }

  /** The value roll() starts from: 1 to multiply, 0 otherwise. */
  function Start(mode: DiceMode): int {
    if mode == Product then 1 else 0
  }

  /** One iteration of roll(): add, multiply, or shift one base-`sides` digit in. */
  function Step(mode: DiceMode, sides: int, acc: int, f: int): int {
    match mode
    case Sum => Wrap32(acc + f)
    case Product => Wrap32(acc * f)
    case Base => Wrap32(Wrap32(acc * sides) + f)
  }

  /** What roll() returns for these faces. */
  function Fold(mode: DiceMode, sides: int, fs: seq<int>): int
    decreases |fs|
  {
    if fs == [] then Start(mode)
    else Step(mode, sides, Fold(mode, sides, fs[..|fs| - 1]), fs[|fs| - 1])
  }

  /** The sum of the faces, in unbounded integers. */
  function Summed(fs: seq<int>): int
    decreases |fs|
  {
    if fs == [] then 0 else Summed(fs[..|fs| - 1]) + fs[|fs| - 1]
  }

  /** The product of the faces, in unbounded integers. */
  function Multiplied(fs: seq<int>): int
    decreases |fs|
  {
    if fs == [] then 1 else Multiplied(fs[..|fs| - 1]) * fs[|fs| - 1]
  }

  /** SUM mode is the sum of the faces, wrapped to an `int`. */
  lemma {:induction false} SumFold(sides: int, fs: seq<int>)
    ensures Fold(Sum, sides, fs) == Wrap32(Summed(fs))
    decreases |fs|
  {
    if fs != [] {
      var p := fs[..|fs| - 1];
      SumFold(sides, p);
      WrapAdd(Summed(p), fs[|fs| - 1]);
    }
  }

  /** PRODUCT mode is the product of the faces, wrapped to an `int`. */
  lemma {:induction false} ProductFold(sides: int, fs: seq<int>)
    ensures Fold(Product, sides, fs) == Wrap32(Multiplied(fs))
    decreases |fs|
  {
    if fs != [] {
      var p := fs[..|fs| - 1];
      ProductFold(sides, p);
      WrapMul(Multiplied(p), fs[|fs| - 1]);
    } else {
      assert Wrap32(1) == 1;
    }
  }

  /** BASE mode is the base-`sides` number the faces spell, wrapped to an `int`. */
  lemma {:induction false} BaseFold(sides: int, fs: seq<int>)
    ensures Fold(Base, sides, fs) == Wrap32(Horner(sides, fs))
    decreases |fs|
  {
    if fs != [] {
      var p := fs[..|fs| - 1];
      var h := Horner(sides, p);
      BaseFold(sides, p);
      WrapMul(h, sides);
      WrapAdd(h * sides, fs[|fs| - 1]);
    } else {
      assert Wrap32(0) == 0;
    }
  }

  /** Digits below `b` spell a number below b^n. */
  lemma {:induction false} HornerBounds(b: int, fs: seq<int>)
    requires b > 0 && forall i :: 0 <= i < |fs| ==> 0 <= fs[i] < b
    ensures 0 <= Horner(b, fs) < Pow(b, |fs|)
    decreases |fs|
  {
    if fs != [] {
      var p := fs[..|fs| - 1];
      var h := Horner(b, p);
      var x := fs[|fs| - 1];
      HornerBounds(b, p);
      DigitStep(h, Pow(b, |p|), b, x);
    }
  }

  /** One more digit below `b` after a number below q gives a number below b * q. */
  lemma DigitStep(h: int, q: int, b: int, x: int)
    requires 0 <= h < q && 0 <= x < b
    ensures 0 <= h * b + x < b * q
  {
    MulMonotone(h, q - 1, b);
    MulMonotone(0, h, b);
    assert (q - 1) * b == b * q - b;
  }

  lemma MulMonotone(x: int, y: int, b: int)
    requires x <= y && b >= 0
    ensures x * b <= y * b
  {
    assert (y - x) * b >= 0;
  }

  /**
   * Without doubling, BASE mode with draws in [0, sides) gives a number in
   * [0, sides^count), exactly when sides^count does not exceed 2^31.
   */
  lemma BaseInRange(d: Die, draws: seq<int>)
    requires Fits(d, draws) && !d.doubling && d.sides > 0
    requires Pow(d.sides, d.count) <= INT_MAX + 1
    ensures Fold(Base, d.sides, Faces(d, Base, draws)) == Horner(d.sides, Faces(d, Base, draws))
    ensures 0 <= Fold(Base, d.sides, Faces(d, Base, draws)) < Pow(d.sides, d.count)
  {
    var fs := Faces(d, Base, draws);
    HornerBounds(d.sides, fs);
    BaseFold(d.sides, fs);
  }

  /**
   * Die.roll: draws one face per die, stores it in rolls[i] when an array is
   * given, and folds the faces in the mode's way.
   */
  method Roll(d: Die, mode: DiceMode, draws: seq<int>, rolls: array?<int>) returns (result: int)
    requires Fits(d, draws)
    requires rolls != null ==> rolls.Length == d.count
    modifies rolls
    ensures result == Fold(mode, d.sides, Faces(d, mode, draws))
    ensures rolls != null ==> rolls[..] == Faces(d, mode, draws)
  {
    var fs := Faces(d, mode, draws);
    result := Start(mode);
    var i := 0;
    while i < d.count
      invariant 0 <= i <= d.count
      invariant result == Fold(mode, d.sides, fs[..i])
      invariant rolls != null ==> rolls[..i] == fs[..i]
    {
      var roll := draws[i];
      if mode != Base {
        roll := roll + 1;
      }
      if d.doubling {
        roll := PowerOfTwo(roll);
      }
      if rolls != null {
        rolls[i] := roll;
      }
      assert roll == fs[i];
      assert fs[..i + 1][..i] == fs[..i];
      result := Step(mode, d.sides, result, roll);
      i := i + 1;
    }
    assert fs[..i] == fs;
  }

  /** Die.toString: "<count> <sides>-sided dice", "doubling " before "dice" for a doubling die. */
  function DieText(d: Die): string {
    IntToString(d.count) + " " + IntToString(d.sides) + SIDED + (if d.doubling then DOUBLING else "") + DICE
  }

  /** Arrays.toString(int[]): the elements between brackets, separated by ", ". */
  function IntsText(xs: seq<int>): string {
    "[" + Separated(xs) + "]"
  }

  function Separated(xs: seq<int>): string
    decreases |xs|
  {
    if xs == [] then ""
    else if |xs| == 1 then IntToString(xs[0])
    else IntToString(xs[0]) + ", " + Separated(xs[1..])
  }

  // ---------------------------------------------------------------------
  // handle
  // ---------------------------------------------------------------------

  /** The two groups the dice pattern captures: the optional mode word and the die specs. */
  datatype DiceMatch = DiceMatch(mode: Option<string>, dice: string)

  /**
   * String.split(" "): the pieces between single spaces, with trailing empty
   * pieces removed; text without a space is returned whole.
   */
  function Split(s: string): (r: seq<string>)
    ensures forall i :: 0 <= i < |r| ==> ' ' !in r[i]
    ensures ' ' in s ==> r == [] || r[|r| - 1] != []
    ensures ' ' !in s ==> r == [s]
  {
    if ' ' !in s then [s] else DropEmptyTail(Pieces(s))
  }

  /** The pieces of `s` between its spaces, empty ones included. */
  function Pieces(s: string): (r: seq<string>)
    ensures r != [] && forall i :: 0 <= i < |r| ==> ' ' !in r[i]
    decreases |s|
  {
    var k := TokenEnd(s, ' ');
    if k == |s| then [s] else [s[..k]] + Pieces(s[k + 1..])
  }

  /** The pieces joined with single spaces. */
  function Spaced(ps: seq<string>): string
    requires ps != []
  {
    if |ps| == 1 then ps[0] else ps[0] + " " + Spaced(ps[1..])
  }

  /** Joining the pieces with spaces gives back the text. */
  lemma {:induction false} PiecesSpaced(s: string)
    ensures Spaced(Pieces(s)) == s
    decreases |s|
  {
    var k := TokenEnd(s, ' ');
    if k < |s| {
      PiecesSpaced(s[k + 1..]);
      assert s == s[..k] + " " + s[k + 1..];
    }
  }

  function DropEmptyTail(ps: seq<string>): (r: seq<string>)
    ensures |r| <= |ps| && r == ps[..|r|]
    ensures r == [] || r[|r| - 1] != []
    ensures forall i :: |r| <= i < |ps| ==> ps[i] == []
    decreases |ps|
  {
    if ps == [] || ps[|ps| - 1] != [] then ps else DropEmptyTail(ps[..|ps| - 1])
  }

  /** The running state of handle: the reply so far, the total, and each die's result. */
  datatype Tally = Tally(text: string, total: int, results: seq<int>)

  /** The total handle starts from: 0 to add, 1 to multiply, -1 (unused) in BASE mode. */
  function TotalStart(mode: DiceMode): int {
    match mode
    case Sum => 0
    case Product => 1
    case Base => -1
  }

  /** One die's result folded into the total; BASE mode keeps no total. */
  function Combine(mode: DiceMode, total: int, roll: int): int {
    if mode == Base then total else Step(mode, 0, total, roll)
  }

  /** The reply line for one die. */
  function DieLine(d: Die, roll: int, faces: seq<int>): string {
    I_GOT + IntToString(roll) + FOR + DieText(d) + " " + IntsText(faces) + "\n"
  }

  /** A die's line says what it rolled first and ends the line. */
  lemma DieLineShape(d: Die, roll: int, faces: seq<int>)
    ensures var line := DieLine(d, roll, faces);
      StartsWith(line, I_GOT + IntToString(roll) + FOR) && line[|line| - 1] == '\n'
  {
    var p := I_GOT + IntToString(roll) + FOR;
    var line := DieLine(d, roll, faces);
    assert line == p + (DieText(d) + " " + IntsText(faces) + "\n");
  }

  /**
   * Rolling the specs in order; None when a spec makes new Die, new int[]
   * or nextInt throw, which ends handle with no reply.
   */
  function TallyOf(mode: DiceMode, specs: seq<string>, draws: seq<seq<int>>): Option<Tally>
    requires |draws| == |specs|
    decreases |specs|
  {
    if specs == [] then Some(Tally("", TotalStart(mode), []))
    else
      var n := |specs| - 1;
      match TallyOf(mode, specs[..n], draws[..n])
      case None => None
      case Some(t) => AddDie(mode, t, specs[n], draws[n])
  }

  /** One more spec rolled: its line appended, its result combined into the total. */
  function AddDie(mode: DiceMode, t: Tally, spec: string, draws: seq<int>): (r: Option<Tally>)
    ensures r.Some? ==> |r.value.results| == |t.results| + 1 && r.value.results[..|t.results|] == t.results
    ensures r.Some? ==> r.value.total == Combine(mode, t.total, r.value.results[|t.results|])
  {
    match DieOutcome(mode, spec, draws)
    case None => None
    case Some(o) => Some(Tally(t.text + o.0, Combine(mode, t.total, o.1), t.results + [o.1]))
  }

  /** One iteration of handle's loop: the die's reply line and its result, or None when it throws. */
  function DieOutcome(mode: DiceMode, spec: string, draws: seq<int>): (r: Option<(string, int)>)
    ensures r.Some? ==> StartsWith(r.value.0, I_GOT + IntToString(r.value.1) + FOR) && r.value.0[|r.value.0| - 1] == '\n'
  {
    match ParseDie(spec)
    case None => None
    case Some(d) =>
      if !Rollable(d) then None
      else
        var fs := Faces(d, mode, draws);
        var roll := Fold(mode, d.sides, fs);
        DieLineShape(d, roll, fs);
        Some((DieLine(d, roll, fs), roll))
  }

  /** Draws for a spec that parses into a die that can be rolled. */
  predicate FitsSpec(spec: string, draws: seq<int>) {
    var d := ParseDie(spec);
    d.None? || !Rollable(d.value) || Fits(d.value, draws)
  }

  /** The body of handle's loop for one spec. */
  method RollSpec(mode: DiceMode, spec: string, draws: seq<int>) returns (o: Option<(string, int)>)
    requires FitsSpec(spec, draws)
    ensures o == DieOutcome(mode, spec, draws)
  {
    var die := ParseDie(spec);
    if die.None? || !Rollable(die.value) {
      return None;
    }
    var d := die.value;
    var rolls := new int[d.count];
    var roll := Roll(d, mode, draws, rolls);
    return Some((DieLine(d, roll, rolls[..]), roll));
  }

  /** The tally of the first j + 1 specs extends the tally of the first j. */
  lemma TallyStep(mode: DiceMode, specs: seq<string>, draws: seq<seq<int>>, j: nat)
    requires |draws| == |specs| && j < |specs|
    ensures TallyOf(mode, specs[..j + 1], draws[..j + 1]) ==
      match TallyOf(mode, specs[..j], draws[..j])
      case None => None
      case Some(t) => AddDie(mode, t, specs[j], draws[j])
  {
    assert specs[..j + 1][..j] == specs[..j] && draws[..j + 1][..j] == draws[..j];
  }

  /** A spec that rolls extends the tally by its line and its result. */
  lemma TallyAdvance(mode: DiceMode, specs: seq<string>, draws: seq<seq<int>>, j: nat, t: Tally, line: string, roll: int)
    requires |draws| == |specs| && j < |specs|
    requires TallyOf(mode, specs[..j], draws[..j]) == Some(t)
    requires DieOutcome(mode, specs[j], draws[j]) == Some((line, roll))
    ensures TallyOf(mode, specs[..j + 1], draws[..j + 1]) == Some(Tally(t.text + line, Combine(mode, t.total, roll), t.results + [roll]))
  {
    TallyStep(mode, specs, draws, j);
  }

  /** A spec that throws makes the whole roll throw. */
  lemma TallyThrows(mode: DiceMode, specs: seq<string>, draws: seq<seq<int>>, j: nat, t: Tally)
    requires |draws| == |specs| && j < |specs|
    requires TallyOf(mode, specs[..j], draws[..j]) == Some(t)
    requires DieOutcome(mode, specs[j], draws[j]).None?
    ensures TallyOf(mode, specs, draws).None?
  {
    TallyStep(mode, specs, draws, j);
    TallyFailStays(mode, specs, draws, j + 1);
  }

  /** Once a spec throws, the whole roll throws. */
  lemma {:induction false} TallyFailStays(mode: DiceMode, specs: seq<string>, draws: seq<seq<int>>, j: nat)
    requires |draws| == |specs| && j <= |specs|
    requires TallyOf(mode, specs[..j], draws[..j]).None?
    ensures TallyOf(mode, specs, draws).None?
    decreases |specs| - j
  {
    if j < |specs| {
      var n := j + 1;
      assert specs[..n][..j] == specs[..j] && draws[..n][..j] == draws[..j];
      TallyFailStays(mode, specs, draws, n);
    } else {
      assert specs[..j] == specs && draws[..j] == draws;
    }
  }

  /**
   * The grand total is the sum (SUM) or the product (PRODUCT) of the dice's
   * results, wrapped to an `int`, and there is one result per spec.
   */
  lemma {:induction false} TallyTotal(mode: DiceMode, specs: seq<string>, draws: seq<seq<int>>)
    requires |draws| == |specs| && TallyOf(mode, specs, draws).Some?
    ensures |TallyOf(mode, specs, draws).value.results| == |specs|
    ensures mode == Sum ==> TallyOf(mode, specs, draws).value.total == Wrap32(Summed(TallyOf(mode, specs, draws).value.results))
    ensures mode == Product ==> TallyOf(mode, specs, draws).value.total == Wrap32(Multiplied(TallyOf(mode, specs, draws).value.results))
    decreases |specs|
  {
    var t := TallyOf(mode, specs, draws).value;
    if specs == [] {
      assert Wrap32(0) == 0 && Wrap32(1) == 1;
    } else {
      var n := |specs| - 1;
      TallyTotal(mode, specs[..n], draws[..n]);
      var p := TallyLast(mode, specs, draws);
      TotalStep(mode, p.results, t.results[n], p.total, t.total);
    }
  }

  /** Combining one more result keeps the total equal to the wrapped sum or product. */
  lemma TotalStep(mode: DiceMode, ps: seq<int>, roll: int, pt: int, tt: int)
    requires tt == Combine(mode, pt, roll)
    requires mode == Sum ==> pt == Wrap32(Summed(ps))
    requires mode == Product ==> pt == Wrap32(Multiplied(ps))
    ensures mode == Sum ==> tt == Wrap32(Summed(ps + [roll]))
    ensures mode == Product ==> tt == Wrap32(Multiplied(ps + [roll]))
  {
    if mode == Sum {
      SummedSnoc(ps, roll);
      WrapAdd(Summed(ps), roll);
    } else if mode == Product {
      MultipliedSnoc(ps, roll);
      WrapMul(Multiplied(ps), roll);
    }
  }

  /** The tally of all the specs against the tally of all but the last. */
  lemma TallyLast(mode: DiceMode, specs: seq<string>, draws: seq<seq<int>>) returns (p: Tally)
    requires |draws| == |specs| && specs != [] && TallyOf(mode, specs, draws).Some?
    ensures TallyOf(mode, specs[..|specs| - 1], draws[..|specs| - 1]) == Some(p)
    ensures var t := TallyOf(mode, specs, draws).value;
      t.results == p.results + [t.results[|p.results|]] &&
      t.total == Combine(mode, p.total, t.results[|p.results|])
  {
    var n := |specs| - 1;
    p := TallyOf(mode, specs[..n], draws[..n]).value;
    var t := TallyOf(mode, specs, draws).value;
    assert Some(t) == AddDie(mode, p, specs[n], draws[n]);
  }

  lemma SummedSnoc(s: seq<int>, x: int)
    ensures Summed(s + [x]) == Summed(s) + x
  {
    assert (s + [x])[..|s|] == s;
  }

  lemma MultipliedSnoc(s: seq<int>, x: int)
    ensures Multiplied(s + [x]) == Multiplied(s) * x
  {
    assert (s + [x])[..|s|] == s;
  }

  /** Draws for every spec. */
  predicate DrawsFit(specs: seq<string>, draws: seq<seq<int>>) {
    |draws| == |specs| && forall j :: 0 <= j < |specs| ==> FitsSpec(specs[j], draws[j])
  }

  /** The specs in the dice group: trimmed and split at single spaces. */
  function Specs(m: DiceMatch): seq<string> {
    Split(Trim(m.dice))
  }

  /**
   * The reply to a message: nothing when the pattern does not match or a
   * spec throws; otherwise one line per die, then "Total: <n>" in SUM and
   * PRODUCT modes only.
   */
  function DiceReply(found: Option<DiceMatch>, draws: seq<seq<int>>): (r: Option<string>)
    requires found.Some? ==> |draws| == |Specs(found.value)|
    ensures found.None? ==> r.None?
    ensures r.Some? ==> var t := TallyOf(ParseMode(found.value.mode), Specs(found.value), draws);
      t.Some? && |t.value.text| <= |r.value| && r.value[..|t.value.text|] == t.value.text &&
      (ParseMode(found.value.mode) == Base <==> r.value == t.value.text)
  {
    if found.None? then None
    else
      var mode := ParseMode(found.value.mode);
      match TallyOf(mode, Specs(found.value), draws)
      case None => None
      case Some(t) => Some(t.text + Footer(mode, t.total))
  }

  /** The last line: "Total: <n>" in SUM and PRODUCT modes, nothing in BASE mode. */
  function Footer(mode: DiceMode, total: int): string {
    if mode == Base then "" else TOTAL + IntToString(total)
  }

  /** handle */
  method Handle(found: Option<DiceMatch>, draws: seq<seq<int>>) returns (reply: Option<string>)
    requires found.Some? ==> DrawsFit(Specs(found.value), draws)
    ensures reply == DiceReply(found, draws)
  {
    if found.None? {
      return None;
    }
    var mode := ParseMode(found.value.mode);
    var dice := Specs(found.value);
    var rolled := RollDice(mode, dice, draws);
    if rolled.None? {
      return None;
    }
    var (s, total) := rolled.value;
    var footer := "";
    if mode != Base {
      footer := TOTAL + IntToString(total);
    }
    reply := Some(s + footer);
  }

  /** handle's loop over the specs: the reply lines and the total, or None when a spec throws. */
  method RollDice(mode: DiceMode, dice: seq<string>, draws: seq<seq<int>>) returns (rolled: Option<(string, int)>)
    requires DrawsFit(dice, draws)
    ensures rolled.None? <==> TallyOf(mode, dice, draws).None?
    ensures rolled.Some? ==>
      rolled.value == (TallyOf(mode, dice, draws).value.text, TallyOf(mode, dice, draws).value.total)
  {
    var s := "";
    var total := TotalStart(mode);
    ghost var results: seq<int> := [];
    var j := 0;
    while j < |dice|
      invariant 0 <= j <= |dice|
      invariant TallyOf(mode, dice[..j], draws[..j]) == Some(Tally(s, total, results))
    {
      var o := RollSpec(mode, dice[j], draws[j]);
      if o.None? {
        TallyThrows(mode, dice, draws, j, Tally(s, total, results));
        return None;
      }
      var (line, roll) := o.value;
      TallyAdvance(mode, dice, draws, j, Tally(s, total, results), line, roll);
      s := s + line;
      total := Combine(mode, total, roll);
      results := results + [roll];
      j := j + 1;
    }
    assert dice[..j] == dice && draws[..j] == draws;
    rolled := Some((s, total));
  }
}
