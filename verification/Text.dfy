/** The texts the services store: the explanation of a gap and its review notes, and the numbers
    printed into them. */
module Text {

  /** The nearest integer, ties to the even one, as the library rounds decimals when printing. */
  function RoundHalfEven(x: real): int {
    var low := x.Floor;
    var rest := x - low as real;
    if rest < 0.5 || (rest == 0.5 && low % 2 == 0) then low else low + 1
  }

  lemma RoundsNear(x: real)
    ensures -0.5 <= x - RoundHalfEven(x) as real <= 0.5
  {
  }

  function Digit(d: nat): char
    requires d < 10
  {
    "0123456789"[d]
  }

  /** A number in decimal digits. */
  function Digits(n: nat): string {
    if n < 10 then [Digit(n)] else Digits(n / 10) + [Digit(n % 10)]
  }

  /** A non-negative number with one decimal. */
  function OneDecimal(x: real): string
    requires x >= 0.0
  {
    var tenths := RoundHalfEven(x * 10.0);
    Digits(tenths / 10) + "." + Digits(tenths % 10)
  }

  /** The explanation of a fresh analysis. */
  function Analysed(resolution: real, cells: nat, fragments: nat): string
    requires resolution >= 0.0
  {
    "以 " + OneDecimal(resolution) + " 米网格分析 " + Digits(cells) + " 个单元；过滤 " + Digits(fragments)
    + " 个低于分辨率阈值的碎片。补测线仅供人工规划参考。"
  }

  const REVIEW_MARK := " 复核记录："

  function WithNote(explanation: string, note: string): string {
    explanation + REVIEW_MARK + note
  }

  // ----- column limits, in characters

  const MAX_EXPLANATION := 1200
  const MIN_NOTE := 8
  const MAX_NOTE := 600
  const MAX_NAME := 160
  const COPY_MARK := " / 复制版本"

  /** Some note the request binding accepts can still be appended. */
  predicate HasRoom(explanation: string) {
    |WithNote(explanation, "")| + MIN_NOTE <= MAX_EXPLANATION
  }

  lemma {:induction false} DigitsLength(n: nat)
    ensures |Digits(n)| >= 1
    ensures n < 10 ==> |Digits(n)| == 1
    ensures n < 100 ==> |Digits(n)| <= 2
    ensures n < 1000 ==> |Digits(n)| <= 3
    ensures n < 100000 ==> |Digits(n)| <= 5
  {
    if n >= 10 {
      DigitsLength(n / 10);
      DigitsLength(n / 10 / 10);
    }
  }

  /** The text of an analysis is short. */
  lemma AnalysedShort(resolution: real, cells: nat, fragments: nat)
    requires 0.0 < resolution <= 100.0 && cells <= 60000 && fragments <= 1
    ensures |Analysed(resolution, cells, fragments)| <= 100
  {
    var tenths := RoundHalfEven(resolution * 10.0);
    assert 0 <= tenths <= 1000;
    DigitsLength(tenths / 10);
    DigitsLength(tenths % 10);
    DigitsLength(cells);
    DigitsLength(fragments);
  }

  /** A fresh explanation leaves room for a first note of any accepted length. */
  lemma FirstNoteFits(resolution: real, cells: nat, fragments: nat, note: string)
    requires 0.0 < resolution <= 100.0 && cells <= 60000 && fragments <= 1 && |note| <= MAX_NOTE
    ensures |WithNote(Analysed(resolution, cells, fragments), note)| <= MAX_EXPLANATION
  {
    AnalysedShort(resolution, cells, fragments);
    hide Analysed;
  }

  // ----- what the texts say

  /** A number half way between two integers is rounded to the even one. */
  lemma RoundsHalfToEven(x: real)
    requires x - x.Floor as real == 0.5
    ensures RoundHalfEven(x) % 2 == 0
  {
  }

  function DigitValue(c: char): int { c as int - '0' as int }

  /** The number that decimal digits spell. */
  function Value(digits: string): int {
    if |digits| == 0 then 0 else 10 * Value(digits[..|digits| - 1]) + DigitValue(digits[|digits| - 1])
  }

  lemma DigitRead(d: nat)
    requires d < 10
    ensures DigitValue(Digit(d)) == d
  {
    assert "0123456789"[0] == '0' && "0123456789"[1] == '1' && "0123456789"[2] == '2' && "0123456789"[3] == '3';
    assert "0123456789"[4] == '4' && "0123456789"[5] == '5' && "0123456789"[6] == '6' && "0123456789"[7] == '7';
  }

  /** Reading a printed number gives it back, and it has no leading zero. */
  lemma {:induction false} DigitsRead(n: nat)
    ensures Value(Digits(n)) == n
    ensures |Digits(n)| > 0 && (n > 0 ==> Digits(n)[0] != '0')
  {
    if n < 10 {
      DigitRead(n);
      assert Digits(n)[..0] == "";
    } else {
      DigitsRead(n / 10);
      DigitRead(n % 10);
      var all := Digits(n);
      assert all[..|all| - 1] == Digits(n / 10) && all[|all| - 1] == Digit(n % 10);
    }
  }

  /** A number with one decimal reads as one no further off than half a tenth. */
  lemma DecimalReads(x: real) returns (whole: string, tenth: char)
    requires x >= 0.0
    ensures OneDecimal(x) == whole + "." + [tenth]
    ensures 0 <= DigitValue(tenth) < 10
    ensures -0.05 <= x - (Value(whole) as real + DigitValue(tenth) as real / 10.0) <= 0.05
  {
    var tenths := RoundHalfEven(x * 10.0);
    RoundsNear(x * 10.0);
    whole, tenth := Digits(tenths / 10), Digit(tenths % 10);
    DigitsRead(tenths / 10);
    DigitRead(tenths % 10);
    assert tenths == 10 * (tenths / 10) + tenths % 10;
  }

  /** Somewhere in the text, the figure stands between the two words. */
  ghost predicate Says(text: string, before: string, figure: string, after: string) {
    exists head, rest :: text == head + (before + figure + after) + rest
  }

  lemma SaysHere(text: string, head: string, before: string, figure: string, after: string, rest: string)
    requires text == head + before + figure + after + rest
    ensures Says(text, before, figure, after)
  {
    assert text == head + (before + figure + after) + rest;
  }

  /** The explanation says what was analysed and what was filtered. */
  lemma AnalysedSays(resolution: real, cells: nat, fragments: nat)
    requires resolution >= 0.0
    ensures var text := Analysed(resolution, cells, fragments);
            && Says(text, "以 ", OneDecimal(resolution), " 米网格")
            && Says(text, "分析 ", Digits(cells), " 个单元")
            && Says(text, "过滤 ", Digits(fragments), " 个低于分辨率阈值的碎片")
  {
    var text := Analysed(resolution, cells, fragments);
    var r, c, f := OneDecimal(resolution), Digits(cells), Digits(fragments);
    hide OneDecimal, Digits;
    var last := " 个低于分辨率阈值的碎片。补测线仅供人工规划参考。";
    assert " 米网格分析 " == " 米网格" + "分析 ";
    assert " 个单元；过滤 " == " 个单元" + ("；" + "过滤 ");
    assert last == " 个低于分辨率阈值的碎片" + "。补测线仅供人工规划参考。";
    Pieces(r, c, f, last);
  }

  lemma Pieces(r: string, c: string, f: string, last: string)
    requires last == " 个低于分辨率阈值的碎片" + "。补测线仅供人工规划参考。"
    ensures var text := "以 " + r + (" 米网格" + "分析 ") + c + (" 个单元" + ("；" + "过滤 ")) + f + last;
            && Says(text, "以 ", r, " 米网格")
            && Says(text, "分析 ", c, " 个单元")
            && Says(text, "过滤 ", f, " 个低于分辨率阈值的碎片")
  {
    var o, a, b, d, e, g, h, i := "以 ", " 米网格", "分析 ", " 个单元", "；", "过滤 ", " 个低于分辨率阈值的碎片", "。补测线仅供人工规划参考。";
    Assembled(o, r, a, b, c, d, e, g, f, h, i);
  }

  lemma Assembled(o: string, r: string, a: string, b: string, c: string, d: string, e: string, g: string, f: string,
                  h: string, i: string)
    ensures var text := o + r + (a + b) + c + (d + (e + g)) + f + (h + i);
            Says(text, o, r, a) && Says(text, b, c, d) && Says(text, g, f, h)
  {
    var text := o + r + (a + b) + c + (d + (e + g)) + f + (h + i);
    SaysHere(text, "", o, r, a, b + c + (d + (e + g)) + f + (h + i));
    SaysHere(text, o + r + a, b, c, d, e + g + f + (h + i));
    SaysHere(text, o + r + (a + b) + c + d + e, g, f, h, i);
  }

  lemma NoteLength(explanation: string, note: string)
    ensures |WithNote(explanation, note)| == |explanation| + 6 + |note|
  {
  }
}
