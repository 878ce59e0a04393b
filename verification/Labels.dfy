/** The text of a YOLO label file: one line per box, a class id and four numbers with six decimals. */
module Labels {
  import opened Rounding
  import opened Wrappers

  /** A finite float: a sign and a magnitude, so that a negative zero keeps its sign. */
  datatype Num = Num(negative: bool, magnitude: real)

  datatype Box = Box(classId: int, x: Num, y: Num, w: Num, h: Num)

  predicate Proper(b: Box) {
    b.x.magnitude >= 0.0 && b.y.magnitude >= 0.0 && b.w.magnitude >= 0.0 && b.h.magnitude >= 0.0
  }

  function Value(n: Num): real {
    if n.negative then -n.magnitude else n.magnitude
  }

  // ---------- digits ----------

  const DIGITS: string := "0123456789"

  predicate IsDigit(c: char) {
    '0' <= c <= '9'
  }

  function DigitOf(d: nat): (c: char)
    requires d < 10
    ensures IsDigit(c) && c as int - '0' as int == d
  {
    DIGITS[d]
  }

  function Digits(n: nat): (s: string)
    ensures s != [] && forall i :: 0 <= i < |s| ==> IsDigit(s[i])
  {
    if n < 10 then [DigitOf(n)] else Digits(n / 10) + [DigitOf(n % 10)]
  }

  /** The last `k` decimal digits, zeros included. */
  function FixedDigits(n: nat, k: nat): (s: string)
    ensures |s| == k && forall i :: 0 <= i < |s| ==> IsDigit(s[i])
  {
    if k == 0 then "" else FixedDigits(n / 10, k - 1) + [DigitOf(n % 10)]
  }

  function DigitValue(s: string): Option<nat> {
    if s == [] then Some(0) else
    var front, last := DigitValue(s[..|s| - 1]), s[|s| - 1];
    if front.Some? && IsDigit(last) then Some(front.value * 10 + (last as int - '0' as int)) else None
  }

  function ParseNat(s: string): Option<nat> {
    if s == [] then None else DigitValue(s)
  }

  lemma DigitValueSnoc(s: string, v: nat, d: nat)
    requires DigitValue(s) == Some(v) && d < 10
    ensures DigitValue(s + [DigitOf(d)]) == Some(v * 10 + d)
  {
    hide DigitOf;
    var t := s + [DigitOf(d)];
    assert t[..|t| - 1] == s && t[|t| - 1] == DigitOf(d);
  }

  lemma {:induction false} ParseDigits(n: nat)
    ensures ParseNat(Digits(n)) == Some(n)
  {
    hide DigitOf;
    if n < 10 {
      DigitValueSnoc("", 0, n);
      assert "" + [DigitOf(n)] == [DigitOf(n)];
    } else {
      ParseDigits(n / 10);
      DigitValueSnoc(Digits(n / 10), n / 10, n % 10);
    }
  }

  function Pow10(k: nat): nat {
    if k == 0 then 1 else 10 * Pow10(k - 1)
  }

  lemma {:induction false} ParseFixed(n: nat, k: nat)
    requires n < Pow10(k)
    ensures DigitValue(FixedDigits(n, k)) == Some(n)
  {
    hide DigitOf;
    if k > 0 {
      ParseFixed(n / 10, k - 1);
      DigitValueSnoc(FixedDigits(n / 10, k - 1), n / 10, n % 10);
    }
  }

  // ---------- numbers ----------

  /** The magnitude in millionths, as printed. */
  function Micros(n: Num): (m: nat)
    requires n.magnitude >= 0.0
  {
    Round(n.magnitude * 1000000.0)
  }

  /** What six decimals keep of a number. */
  function Rounded(n: Num): (r: Num)
    requires n.magnitude >= 0.0
    ensures r.magnitude >= 0.0
  {
    Num(n.negative, Micros(n) as real / 1000000.0)
  }

  /** Six decimals are off by at most half a millionth, and rounding again changes nothing. */
  lemma RoundedNear(n: Num)
    requires n.magnitude >= 0.0
    ensures -0.0000005 <= Value(Rounded(n)) - Value(n) <= 0.0000005
    ensures Micros(Rounded(n)) == Micros(n)
  {
    var scaled := n.magnitude * 1000000.0;
    assert -0.5 <= Micros(n) as real - scaled <= 0.5;
    assert Rounded(n).magnitude * 1000000.0 == Micros(n) as real;
  }

  function FormatInt(i: int): string {
    if i < 0 then "-" + Digits(-i) else Digits(i)
  }

  function ParseInt(s: string): Option<int> {
    if s != [] && s[0] == '-' then
      var n := ParseNat(s[1..]);
      if n.Some? then Some(-(n.value as int)) else None
    else
      var n := ParseNat(s);
      if n.Some? then Some(n.value as int) else None
  }

  function FormatMagnitude(micros: nat): string {
    Digits(micros / 1000000) + "." + FixedDigits(micros % 1000000, 6)
  }

  function FormatNum(n: Num): string
    requires n.magnitude >= 0.0
  {
    (if n.negative then "-" else "") + FormatMagnitude(Micros(n))
  }

  /** The position of the first `c`, or the length if there is none. */
  function IndexOf(s: string, c: char): (i: nat)
    ensures i <= |s| && (i < |s| ==> s[i] == c) && c !in s[..i]
  {
    if s == [] then 0 else if s[0] == c then 0 else
    var i := IndexOf(s[1..], c);
    assert s[..i + 1] == [s[0]] + s[1..][..i];
    i + 1
  }

  function ParseMagnitude(s: string): Option<real> {
    var dot := IndexOf(s, '.');
    if dot == |s| then
      var n := ParseNat(s);
      if n.Some? then Some(n.value as real) else None
    else
    var whole, part := ParseNat(s[..dot]), ParseNat(s[dot + 1..]);
    if whole.Some? && part.Some? then Some(whole.value as real + Fraction(part.value, |s| - dot - 1)) else None
  }

  function Fraction(n: nat, k: nat): real {
    Pow10Positive(k);
    n as real / Pow10(k) as real
  }

  lemma {:induction false} Pow10Positive(k: nat)
    ensures Pow10(k) > 0
  {
    if k > 0 { Pow10Positive(k - 1); }
  }

  function ParseNum(s: string): Option<Num> {
    if s != [] && s[0] == '-' then
      var m := ParseMagnitude(s[1..]);
      if m.Some? then Some(Num(true, m.value)) else None
    else
      var m := ParseMagnitude(s);
      if m.Some? then Some(Num(false, m.value)) else None
  }

  lemma ParseFormatInt(i: int)
    ensures ParseInt(FormatInt(i)) == Some(i)
  {
    hide Digits, ParseNat;
    if i < 0 {
      assert ("-" + Digits(-i))[1..] == Digits(-i);
      ParseDigits(-i);
    } else {
      ParseDigits(i);
      assert IsDigit(Digits(i)[0]);
    }
  }

  lemma {:induction false} IndexAfterDigits(a: string, c: char, b: string)
    requires c !in a
    ensures IndexOf(a + [c] + b, c) == |a|
  {
    var s := a + [c] + b;
    if a == [] {
      assert s[0] == c;
    } else {
      IndexAfterDigits(a[1..], c, b);
      assert s[0] == a[0] && s[1..] == a[1..] + [c] + b;
    }
  }

  lemma {:induction false} NoDot(s: string)
    requires forall i :: 0 <= i < |s| ==> s[i] != '.'
    ensures IndexOf(s, '.') == |s|
  {
    if s != [] { NoDot(s[1..]); }
  }

  /** A number without a point is read as what it says. */
  lemma ParseWhole(n: nat)
    ensures ParseNum(Digits(n)) == Some(Num(false, n as real))
  {
    var s := Digits(n);
    NoDot(s);
    ParseDigits(n);
    assert IsDigit(s[0]);
  }

  lemma Pow6()
    ensures Pow10(6) == 1000000
  {
    assert Pow10(1) == 10;
    assert Pow10(2) == 100;
    assert Pow10(3) == 1000;
    assert Pow10(4) == 10000;
    assert Pow10(5) == 100000;
  }

  lemma ParseFormatMagnitude(micros: nat)
    ensures ParseMagnitude(FormatMagnitude(micros)) == Some(micros as real / 1000000.0)
    ensures IsDigit(FormatMagnitude(micros)[0])
  {
    var a, b := Digits(micros / 1000000), FixedDigits(micros % 1000000, 6);
    var s := FormatMagnitude(micros);
    assert s == a + ['.'] + b;
    IndexAfterDigits(a, '.', b);
    assert s[..|a|] == a && s[|a| + 1..] == b;
    Pow6();
    ParseDigits(micros / 1000000);
    ParseFixed(micros % 1000000, 6);
    Recombine(micros);
  }

  lemma Recombine(micros: nat)
    ensures (micros / 1000000) as real + (micros % 1000000) as real / 1000000.0 == micros as real / 1000000.0
  {
    var q, r := micros / 1000000, micros % 1000000;
    assert micros as real == q as real * 1000000.0 + r as real;
  }

  /** Parsing a printed number gives its six-decimal rounding, sign included. */
  lemma ParseFormatNum(n: Num)
    requires n.magnitude >= 0.0
    ensures ParseNum(FormatNum(n)) == Some(Rounded(n))
  {
    hide ParseMagnitude, FormatMagnitude, Micros;
    ParseFormatMagnitude(Micros(n));
    var s := FormatMagnitude(Micros(n));
    assert ("-" + s)[1..] == s && "" + s == s;
  }

  // ---------- splitting ----------

  /** The characters `str.splitlines` breaks at. */
  predicate IsLineBreak(c: char) {
    var i := c as int;
    10 <= i <= 13 || 28 <= i <= 30 || i == 0x85 || i == 0x2028 || i == 0x2029
  }

  /** The characters `str.split` splits at. */
  predicate IsSpace(c: char) {
    var i := c as int;
    || 9 <= i <= 13 || 28 <= i <= 32 || i == 0x85 || i == 0xA0 || i == 0x1680 || 0x2000 <= i <= 0x200A
    || i == 0x2028 || i == 0x2029 || i == 0x202F || i == 0x205F || i == 0x3000
  }

  predicate IsSeparator(c: char, lines: bool) {
    if lines then IsLineBreak(c) else IsSpace(c)
  }

  predicate Free(s: string, lines: bool) {
    forall i :: 0 <= i < |s| ==> !IsSeparator(s[i], lines)
  }

  /** The pieces between separators, empty ones included. */
  function Split(s: string, lines: bool): (p: seq<string>)
    ensures p != []
  {
    if s == [] then [""] else
    var front, last := Split(s[..|s| - 1], lines), s[|s| - 1];
    if IsSeparator(last, lines) then front + [""]
    else front[..|front| - 1] + [front[|front| - 1] + [last]]
  }

  function NonEmpty(pieces: seq<string>): seq<string> {
    if pieces == [] then [] else
    var front, last := NonEmpty(pieces[..|pieces| - 1]), pieces[|pieces| - 1];
    if last == "" then front else front + [last]
  }

  lemma SplitSeparator(s: string, c: char, lines: bool)
    requires IsSeparator(c, lines)
    ensures Split(s + [c], lines) == Split(s, lines) + [""]
  {
    assert (s + [c])[..|s|] == s;
  }

  lemma SplitCharacter(s: string, c: char, front: seq<string>, last: string, lines: bool)
    requires !IsSeparator(c, lines) && Split(s, lines) == front + [last]
    ensures Split(s + [c], lines) == front + [last + [c]]
  {
    hide IsSeparator;
    assert (s + [c])[..|s|] == s;
  }

  /** Text without separators joins the last piece. */
  lemma {:induction false} SplitAppend(s: string, t: string, front: seq<string>, lines: bool)
    requires Free(t, lines) && Split(s, lines) == front + [""]
    ensures Split(s + t, lines) == front + [t]
  {
    hide Split, IsSeparator;
    if t == [] {
      assert s + t == s;
    } else {
      var n := |t| - 1;
      SplitAppend(s, t[..n], front, lines);
      SplitCharacter(s + t[..n], t[n], front, t[..n], lines);
      assert s + t == (s + t[..n]) + [t[n]] && t == t[..n] + [t[n]];
    }
  }

  // ---------- the file ----------

  function LineOf(b: Box): string
    requires Proper(b)
  {
    FormatInt(b.classId) + " " + FormatNum(b.x) + " " + FormatNum(b.y) + " " + FormatNum(b.w) + " " + FormatNum(b.h)
  }

  predicate AllProper(boxes: seq<Box>) {
    forall i :: 0 <= i < |boxes| ==> Proper(boxes[i])
  }

  function Lines(boxes: seq<Box>): (ls: seq<string>)
    requires AllProper(boxes)
    ensures |ls| == |boxes|
  {
    seq(|boxes|, i requires 0 <= i < |boxes| => LineOf(boxes[i]))
  }

  function Join(ls: seq<string>): string {
    if ls == [] then "" else if |ls| == 1 then ls[0] else Join(ls[..|ls| - 1]) + "\n" + ls[|ls| - 1]
  }

  /** The reviewed file: the lines joined, with a line end after the last. */
  function WriteBoxes(boxes: seq<Box>): string
    requires AllProper(boxes)
  {
    Join(Lines(boxes)) + (if boxes == [] then "" else "\n")
  }

  /** The file as it is first saved: line after line. */
  function Saved(boxes: seq<Box>): string
    requires AllProper(boxes)
  {
    if boxes == [] then "" else Saved(boxes[..|boxes| - 1]) + LineOf(boxes[|boxes| - 1]) + "\n"
  }

  // ---------- from detections to label boxes ----------

  /** A detected box by its corners, in pixels. */
  datatype Corners = Corners(classId: int, x1: real, y1: real, x2: real, y2: real)

  function NumOf(v: real): (n: Num)
    ensures n.magnitude >= 0.0 && Value(n) == v
  {
    if v < 0.0 then Num(true, -v) else Num(false, v)
  }

  /** Centre and size relative to an image of `dim` pixels along one axis. */
  function CentreOf(low: real, high: real, dim: nat): (n: Num)
    requires dim > 0
    ensures n.magnitude >= 0.0
  {
    NumOf((low + high) / 2.0 / dim as real)
  }

  function SizeOf(low: real, high: real, dim: nat): (n: Num)
    requires dim > 0
    ensures n.magnitude >= 0.0
  {
    NumOf((high - low) / dim as real)
  }

  function LabelOf(b: Corners, height: nat, width: nat): (box: Box)
    requires height > 0 && width > 0
    ensures Proper(box)
  {
    Box(b.classId, CentreOf(b.x1, b.x2, width), CentreOf(b.y1, b.y2, height),
        SizeOf(b.x1, b.x2, width), SizeOf(b.y1, b.y2, height))
  }

  function LabelsOf(boxes: seq<Corners>, height: nat, width: nat): (ls: seq<Box>)
    requires height > 0 && width > 0
    ensures |ls| == |boxes| && AllProper(ls)
  {
    seq(|boxes|, i requires 0 <= i < |boxes| => LabelOf(boxes[i], height, width))
  }

  datatype SaveError = ZeroDivision

  /** The labels of one frame. Without boxes the file is empty whatever the image; otherwise an image
      without pixels makes the first division fail. */
  method SaveLabels(boxes: seq<Corners>, height: nat, width: nat) returns (r: Result<string, SaveError>)
    ensures r.Err? <==> boxes != [] && (height == 0 || width == 0)
    ensures boxes == [] ==> r == Ok("")
    ensures r.Ok? && boxes != [] ==> r.value == Saved(LabelsOf(boxes, height, width))
  {
    hide LabelOf, LineOf;
    var text := "";
    for i := 0 to |boxes|
      invariant height > 0 && width > 0 ==> text == Saved(LabelsOf(boxes[..i], height, width))
      invariant i > 0 ==> height > 0 && width > 0
      invariant i == 0 ==> text == ""
    {
      if width == 0 || height == 0 {
        return Err(ZeroDivision);
      }
      assert LabelsOf(boxes[..i + 1], height, width)
          == LabelsOf(boxes[..i], height, width) + [LabelOf(boxes[i], height, width)];
      text := text + LineOf(LabelOf(boxes[i], height, width)) + "\n";
    }
    assert boxes[..|boxes|] == boxes;
    r := Ok(text);
  }

  /** Both writers produce the same text. */
  lemma {:induction false} WritersAgree(boxes: seq<Box>)
    requires AllProper(boxes)
    ensures WriteBoxes(boxes) == Saved(boxes)
  {
    hide LineOf;
    if boxes != [] {
      var front, last := boxes[..|boxes| - 1], boxes[|boxes| - 1];
      WritersAgree(front);
      assert Lines(boxes) == Lines(front) + [LineOf(last)];
      assert Lines(boxes)[..|front|] == Lines(front);
      if front == [] {
        assert Saved(front) == "" && Join(Lines(boxes)) == LineOf(last);
        assert "" + LineOf(last) == LineOf(last);
      }
    }
  }

  /** A line with nothing on it is skipped; any other must have exactly five readable fields. */
  function ReadLine(line: string): Option<seq<Box>> {
    var parts := NonEmpty(Split(line, false));
    if parts == [] then Some([]) else
    if |parts| != 5 then None else
    var c, x, y := ParseInt(parts[0]), ParseNum(parts[1]), ParseNum(parts[2]);
    var w, h := ParseNum(parts[3]), ParseNum(parts[4]);
    if c.Some? && x.Some? && y.Some? && w.Some? && h.Some?
    then Some([Box(c.value, x.value, y.value, w.value, h.value)]) else None
  }

  function ReadLines(ls: seq<string>): Option<seq<Box>> {
    if ls == [] then Some([]) else
    var front, last := ReadLines(ls[..|ls| - 1]), ReadLine(ls[|ls| - 1]);
    if front.Some? && last.Some? then Some(front.value + last.value) else None
  }

  lemma {:induction false} UnreadableLine(ls: seq<string>, i: nat)
    requires i < |ls| && ReadLine(ls[i]).None?
    ensures ReadLines(ls).None?
  {
    if i < |ls| - 1 { UnreadableLine(ls[..|ls| - 1], i); }
  }

  method ReadBoxes(text: string) returns (r: Option<seq<Box>>)
    ensures r == ReadLines(Split(text, true))
  {
    hide ReadLine, Split;
    var ls := Split(text, true);
    var boxes: seq<Box> := [];
    for i := 0 to |ls|
      invariant ReadLines(ls[..i]) == Some(boxes)
    {
      var line := ReadLine(ls[i]);
      if line.None? {
        UnreadableLine(ls, i);
        return None;
      }
      assert ls[..i + 1][..i] == ls[..i];
      boxes := boxes + line.value;
    }
    assert ls[..|ls|] == ls;
    r := Some(boxes);
  }

  // ---------- the round trip ----------

  function RoundedBox(b: Box): (r: Box)
    requires Proper(b)
    ensures Proper(r)
  {
    Box(b.classId, Rounded(b.x), Rounded(b.y), Rounded(b.w), Rounded(b.h))
  }

  function RoundedBoxes(boxes: seq<Box>): (r: seq<Box>)
    requires AllProper(boxes)
    ensures |r| == |boxes| && AllProper(r)
  {
    seq(|boxes|, i requires 0 <= i < |boxes| => RoundedBox(boxes[i]))
  }

  /** Printed fields consist of digits, a sign and a point. */
  predicate Plain(s: string) {
    s != [] && forall i :: 0 <= i < |s| ==> IsDigit(s[i]) || s[i] == '-' || s[i] == '.'
  }

  lemma PlainFree(s: string, lines: bool)
    requires Plain(s)
    ensures Free(s, lines)
  {
  }

  lemma FormatsPlain(b: Box)
    requires Proper(b)
    ensures Plain(FormatInt(b.classId)) && Plain(FormatNum(b.x)) && Plain(FormatNum(b.y)) && Plain(FormatNum(b.w))
    ensures Plain(FormatNum(b.h))
  {
    hide Digits, FixedDigits, Micros;
  }

  lemma SplitNext(s: string, pieces: seq<string>, t: string)
    requires Split(s, false) == pieces && Plain(t)
    ensures Split(s + " " + t, false) == pieces + [t]
  {
    hide Split;
    SplitSeparator(s, ' ', false);
    PlainFree(t, false);
    SplitAppend(s + [' '], t, pieces, false);
    assert s + " " + t == (s + [' ']) + t;
  }

  lemma SplitNothing()
    ensures Split("", false) == [] + [""]
  {
  }

  lemma FiveNonEmpty(a: string, b: string, c: string, d: string, e: string)
    requires Plain(a) && Plain(b) && Plain(c) && Plain(d) && Plain(e)
    ensures NonEmpty([a, b, c, d, e]) == [a, b, c, d, e]
  {
    AllNonEmpty([a, b, c, d, e]);
  }

  lemma FiveFields(a: string, b: string, c: string, d: string, e: string)
    requires Plain(a) && Plain(b) && Plain(c) && Plain(d) && Plain(e)
    ensures NonEmpty(Split(a + " " + b + " " + c + " " + d + " " + e, false)) == [a, b, c, d, e]
  {
    hide Split, Plain, Free, NonEmpty;
    PlainFree(a, false);
    SplitNothing();
    SplitAppend("", a, [], false);
    assert "" + a == a && [] + [a] == [a];
    SplitNext(a, [a], b);
    SplitNext(a + " " + b, [a] + [b], c);
    SplitNext(a + " " + b + " " + c, [a] + [b] + [c], d);
    SplitNext(a + " " + b + " " + c + " " + d, [a] + [b] + [c] + [d], e);
    assert [a] + [b] + [c] + [d] + [e] == [a, b, c, d, e];
    FiveNonEmpty(a, b, c, d, e);
  }

  lemma {:induction false} AllNonEmpty(pieces: seq<string>)
    requires forall i :: 0 <= i < |pieces| ==> pieces[i] != ""
    ensures NonEmpty(pieces) == pieces
  {
    if pieces != [] {
      AllNonEmpty(pieces[..|pieces| - 1]);
      assert pieces == pieces[..|pieces| - 1] + [pieces[|pieces| - 1]];
    }
  }

  lemma ReadLineOf(b: Box)
    requires Proper(b)
    ensures ReadLine(LineOf(b)) == Some([RoundedBox(b)])
  {
    hide Split, NonEmpty, FormatNum, FormatInt, ParseNum, ParseInt, Plain, Rounded;
    FormatsPlain(b);
    FiveFields(FormatInt(b.classId), FormatNum(b.x), FormatNum(b.y), FormatNum(b.w), FormatNum(b.h));
    ParseFormatInt(b.classId);
    ParseFormatNum(b.x);
    ParseFormatNum(b.y);
    ParseFormatNum(b.w);
    ParseFormatNum(b.h);
  }

  lemma PlainJoined(a: string, b: string)
    requires Free(a, true) && Plain(b)
    ensures Free(a + " " + b, true)
  {
  }

  lemma LineIsFree(b: Box)
    requires Proper(b)
    ensures Free(LineOf(b), true)
  {
    hide FormatNum, FormatInt, Plain, Free;
    FormatsPlain(b);
    PlainFree(FormatInt(b.classId), true);
    PlainJoined(FormatInt(b.classId), FormatNum(b.x));
    PlainJoined(FormatInt(b.classId) + " " + FormatNum(b.x), FormatNum(b.y));
    PlainJoined(FormatInt(b.classId) + " " + FormatNum(b.x) + " " + FormatNum(b.y), FormatNum(b.w));
    PlainJoined(FormatInt(b.classId) + " " + FormatNum(b.x) + " " + FormatNum(b.y) + " " + FormatNum(b.w),
                FormatNum(b.h));
  }

  lemma {:induction false} SavedLines(boxes: seq<Box>)
    requires AllProper(boxes)
    ensures Split(Saved(boxes), true) == Lines(boxes) + [""]
  {
    hide LineOf;
    if boxes != [] {
      var front, last := boxes[..|boxes| - 1], boxes[|boxes| - 1];
      SavedLines(front);
      LineIsFree(last);
      SplitAppend(Saved(front), LineOf(last), Lines(front), true);
      SplitSeparator(Saved(front) + LineOf(last), '\n', true);
      assert Lines(boxes) == Lines(front) + [LineOf(last)];
    } else {
      assert Lines(boxes) == [];
    }
  }

  lemma {:induction false} ReadSavedLines(boxes: seq<Box>)
    requires AllProper(boxes)
    ensures ReadLines(Lines(boxes)) == Some(RoundedBoxes(boxes))
  {
    hide ReadLine, LineOf, RoundedBox;
    if boxes != [] {
      var front, last := boxes[..|boxes| - 1], boxes[|boxes| - 1];
      ReadSavedLines(front);
      ReadLineOf(last);
      assert Lines(boxes)[..|front|] == Lines(front);
      assert RoundedBoxes(boxes) == RoundedBoxes(front) + [RoundedBox(last)];
    }
  }

  /** Reading what either writer wrote gives every box back, in order, rounded to six decimals. */
  lemma ReadAfterWrite(boxes: seq<Box>)
    requires AllProper(boxes)
    ensures ReadLines(Split(WriteBoxes(boxes), true)) == Some(RoundedBoxes(boxes))
    ensures ReadLines(Split(Saved(boxes), true)) == Some(RoundedBoxes(boxes))
  {
    hide ReadLine, LineOf, Split, WriteBoxes, Saved, Lines, RoundedBoxes, AllProper;
    WritersAgree(boxes);
    SavedLines(boxes);
    ReadSavedLines(boxes);
    BlankIsSkipped();
    var ls := Lines(boxes) + [""];
    assert ls[..|ls| - 1] == Lines(boxes) && RoundedBoxes(boxes) + [] == RoundedBoxes(boxes);
  }

  lemma BlankIsSkipped()
    ensures ReadLine("") == Some([])
  {
    assert Split("", false) == [""];
    assert NonEmpty([""]) == [];
  }

  /** And writing what was read reproduces the text exactly. */
  lemma {:induction false} WriteAfterRead(boxes: seq<Box>)
    requires AllProper(boxes)
    ensures Saved(RoundedBoxes(boxes)) == Saved(boxes)
  {
    hide LineOf, RoundedBox;
    if boxes != [] {
      var front, last := boxes[..|boxes| - 1], boxes[|boxes| - 1];
      WriteAfterRead(front);
      SameLine(last);
      assert RoundedBoxes(boxes)[..|front|] == RoundedBoxes(front);
    }
  }

  lemma SameLine(b: Box)
    requires Proper(b)
    ensures LineOf(RoundedBox(b)) == LineOf(b)
  {
    hide Micros, Rounded, FormatMagnitude, FormatInt;
    SameText(b.x);
    SameText(b.y);
    SameText(b.w);
    SameText(b.h);
  }

  lemma SameText(n: Num)
    requires n.magnitude >= 0.0
    ensures FormatNum(Rounded(n)) == FormatNum(n)
  {
    RoundedNear(n);
  }

  /** Same class, and every coordinate off by at most half a millionth. */
  predicate Close(a: Box, b: Box) {
    && a.classId == b.classId
    && Near(a.x, b.x) && Near(a.y, b.y) && Near(a.w, b.w) && Near(a.h, b.h)
  }

  predicate Near(a: Num, b: Num) {
    a.negative == b.negative && -0.0000005 <= Value(a) - Value(b) <= 0.0000005
  }

  lemma RoundedClose(b: Box)
    requires Proper(b)
    ensures Close(RoundedBox(b), b)
  {
    hide Rounded, Value;
    NumClose(b.x);
    NumClose(b.y);
    NumClose(b.w);
    NumClose(b.h);
  }

  lemma NumClose(n: Num)
    requires n.magnitude >= 0.0
    ensures Near(Rounded(n), n)
  {
    RoundedNear(n);
  }

  /** The whole round trip: what is written can be read; the boxes read are the boxes written, in number,
      order, class and coordinates up to rounding; and writing them again gives the same text. */
  lemma TextRoundTrip(boxes: seq<Box>)
    requires AllProper(boxes)
    ensures
      var text := WriteBoxes(boxes);
      var back := ReadLines(Split(text, true));
      && back.Some? && |back.value| == |boxes| && AllProper(back.value)
      && (forall i :: 0 <= i < |boxes| ==> Close(back.value[i], boxes[i]))
      && WriteBoxes(back.value) == text
  {
    hide WriteBoxes, ReadLines, Split, Close, RoundedBox, Saved;
    ReadAfterWrite(boxes);
    WriteAfterRead(boxes);
    WritersAgree(boxes);
    WritersAgree(RoundedBoxes(boxes));
    forall i | 0 <= i < |boxes| ensures Close(RoundedBoxes(boxes)[i], boxes[i]) { RoundedClose(boxes[i]); }
  }

  // ---------- detections that come back from a file ----------

  function LowOf(centre: Num, size: Num, dim: nat): real {
    (Value(centre) - Value(size) / 2.0) * dim as real
  }

  function HighOf(centre: Num, size: Num, dim: nat): real {
    (Value(centre) + Value(size) / 2.0) * dim as real
  }

  /** Off by no more than rounding costs on an axis of `dim` pixels. */
  predicate NearOn(a: real, b: real, dim: nat) {
    -0.00000075 * dim as real <= a - b <= 0.00000075 * dim as real
  }

  lemma DifferenceTimes(a: real, b: real, k: real, d: real, m: real)
    requires -k <= a - b <= k && d >= 0.0 && m == k * d
    ensures -m <= a * d - b * d <= m
  {
    assert (k - (a - b)) * d >= 0.0;
    assert (k + (a - b)) * d >= 0.0;
  }

  lemma HalfTimes(c: real, s: real, d: real)
    ensures (c - s / 2.0) * d == c * d - (s * d) / 2.0
    ensures (c + s / 2.0) * d == c * d + (s * d) / 2.0
  {
  }

  lemma CornerShift(c: real, s: real, c': real, s': real, low: real, high: real, d: real)
    requires d > 0.0 && c * d == (low + high) / 2.0 && s * d == high - low
    requires -0.0000005 <= c' - c <= 0.0000005 && -0.0000005 <= s' - s <= 0.0000005
    ensures -0.00000075 * d <= (c' - s' / 2.0) * d - low <= 0.00000075 * d
    ensures -0.00000075 * d <= (c' + s' / 2.0) * d - high <= 0.00000075 * d
  {
    var m := 0.0000005 * d;
    DifferenceTimes(c', c, 0.0000005, d, m);
    DifferenceTimes(s', s, 0.0000005, d, m);
    HalfTimes(c', s', d);
    Shifted(c * d, s * d, c' * d, s' * d, low, high, m);
  }

  lemma Shifted(c: real, s: real, c': real, s': real, low: real, high: real, m: real)
    requires c == (low + high) / 2.0 && s == high - low
    requires -m <= c' - c <= m && -m <= s' - s <= m
    ensures -1.5 * m <= c' - s' / 2.0 - low <= 1.5 * m
    ensures -1.5 * m <= c' + s' / 2.0 - high <= 1.5 * m
  {
  }

  lemma Cancels(a: real, d: real)
    requires d > 0.0
    ensures (a / d) * d == a
  {
  }

  lemma InPixels(low: real, high: real, dim: nat)
    requires dim > 0
    ensures Value(CentreOf(low, high, dim)) * dim as real == (low + high) / 2.0
    ensures Value(SizeOf(low, high, dim)) * dim as real == high - low
  {
    hide NumOf, Value;
    Cancels((low + high) / 2.0, dim as real);
    Cancels(high - low, dim as real);
  }

  lemma AxisReturns(low: real, high: real, dim: nat)
    requires dim > 0
    ensures
      var c, s := Rounded(CentreOf(low, high, dim)), Rounded(SizeOf(low, high, dim));
      NearOn(LowOf(c, s, dim), low, dim) && NearOn(HighOf(c, s, dim), high, dim)
  {
    hide Rounded, CentreOf, SizeOf, Value;
    var c, s := CentreOf(low, high, dim), SizeOf(low, high, dim);
    RoundedNear(c);
    RoundedNear(s);
    InPixels(low, high, dim);
    CornerShift(Value(c), Value(s), Value(Rounded(c)), Value(Rounded(s)), low, high, dim as real);
  }

  /** `b` was detected as `a`, up to the rounding of the file. */
  predicate SameDetection(b: Box, a: Corners, height: nat, width: nat) {
    && b.classId == a.classId
    && NearOn(LowOf(b.x, b.w, width), a.x1, width) && NearOn(HighOf(b.x, b.w, width), a.x2, width)
    && NearOn(LowOf(b.y, b.h, height), a.y1, height) && NearOn(HighOf(b.y, b.h, height), a.y2, height)
  }

  lemma DetectionReturns(a: Corners, height: nat, width: nat)
    requires height > 0 && width > 0
    ensures SameDetection(RoundedBox(LabelOf(a, height, width)), a, height, width)
  {
    hide LowOf, HighOf, NearOn, CentreOf, SizeOf, Rounded;
    AxisReturns(a.x1, a.x2, width);
    AxisReturns(a.y1, a.y2, height);
  }

  /** What the label service reads from a saved file: the detections, in order, with their classes, each
      corner within three quarters of a millionth of the image's side. */
  lemma SavedDetectionsReturn(boxes: seq<Corners>, height: nat, width: nat)
    requires height > 0 && width > 0
    ensures
      var back := ReadLines(Split(Saved(LabelsOf(boxes, height, width)), true));
      && back.Some? && |back.value| == |boxes|
      && forall i :: 0 <= i < |boxes| ==> SameDetection(back.value[i], boxes[i], height, width)
  {
    hide SameDetection, RoundedBox, LabelOf, Saved, Split, ReadLines;
    ReadAfterWrite(LabelsOf(boxes, height, width));
    forall i | 0 <= i < |boxes|
      ensures SameDetection(RoundedBoxes(LabelsOf(boxes, height, width))[i], boxes[i], height, width)
    {
      DetectionReturns(boxes[i], height, width);
    }
  }
}
