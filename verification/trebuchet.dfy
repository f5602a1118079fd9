/** Trebuchet (day1/src/main.rs): every line's calibration value is its first
    decimal digit followed by its last one, a missing digit counting as 0;
    part one adds up the values of all `'\n'`-separated lines. */
module Trebuchet {
  import Text

  // ---------------------------------------------------------------------------
  // Digits of a line

  /** `chars().find(is_digit).unwrap_or('0')` as a number. */
  function FirstDigit(line: string): (d: nat)
    ensures d <= 9
  {
    if line == [] then 0
    else if Text.IsDigit(line[0]) then Text.DigitValue(line[0])
    else FirstDigit(line[1..])
  }

  /** `chars().rfind(is_digit).unwrap_or('0')` as a number. */
  function LastDigit(line: string): (d: nat)
    ensures d <= 9
  {
    if line == [] then 0
    else if Text.IsDigit(line[|line| - 1]) then Text.DigitValue(line[|line| - 1])
    else LastDigit(line[..|line| - 1])
  }

  predicate NoDigits(s: string) {
    forall j :: 0 <= j < |s| ==> !Text.IsDigit(s[j])
  }

  /** The first digit is the one at the first index that holds a digit. */
  lemma {:induction false} FirstDigitAt(line: string, i: nat)
    requires i < |line| && Text.IsDigit(line[i]) && NoDigits(line[..i])
    ensures FirstDigit(line) == Text.DigitValue(line[i])
  {
    if i > 0 {
      assert !Text.IsDigit(line[..i][0]);
      assert line[1..][..i - 1] == line[..i][1..];
      FirstDigitAt(line[1..], i - 1);
    }
  }

  /** The last digit is the one at the last index that holds a digit. */
  lemma {:induction false} LastDigitAt(line: string, i: nat)
    requires i < |line| && Text.IsDigit(line[i]) && NoDigits(line[i + 1..])
    ensures LastDigit(line) == Text.DigitValue(line[i])
    decreases |line|
  {
    if i < |line| - 1 {
      assert !Text.IsDigit(line[i + 1..][|line| - i - 2]);
      assert line[..|line| - 1][i + 1..] == line[i + 1..|line| - 1];
      LastDigitAt(line[..|line| - 1], i);
    }
  }

  /** Without a digit, both digits default to 0. */
  lemma {:induction false} NoDigitsGiveZero(line: string)
    requires NoDigits(line)
    ensures FirstDigit(line) == 0 && LastDigit(line) == 0
  {
    if line != [] {
      var tail, init := line[1..], line[..|line| - 1];
      forall j | 0 <= j < |tail| ensures !Text.IsDigit(tail[j]) {
        assert tail[j] == line[j + 1];
      }
      forall j | 0 <= j < |init| ensures !Text.IsDigit(init[j]) {
        assert init[j] == line[j];
      }
      NoDigitsGiveZero(line[1..]);
      NoDigitsGiveZero(line[..|line| - 1]);
    }
  }

  // ---------------------------------------------------------------------------
  // Calibration values

  /** `first_digit * 10 + last_digit`. */
  function Calibration(line: string): (v: nat)
    ensures v <= 99
  {
    FirstDigit(line) * 10 + LastDigit(line)
  }

  /** A line with a single digit `d` is worth `11 * d`. */
  lemma SingleDigit(line: string, i: nat)
    requires i < |line| && Text.IsDigit(line[i]) && NoDigits(line[..i]) && NoDigits(line[i + 1..])
    ensures Calibration(line) == 11 * Text.DigitValue(line[i])
  {
    FirstDigitAt(line, i);
    LastDigitAt(line, i);
  }

  /** A line without digits is worth 0. */
  lemma NoDigitsWorthZero(line: string)
    requires NoDigits(line)
    ensures Calibration(line) == 0
  {
    NoDigitsGiveZero(line);
  }

  /** The values of all lines, added up. */
  function CalibrationSum(lines: seq<string>): nat {
    if lines == [] then 0
    else CalibrationSum(lines[..|lines| - 1]) + Calibration(lines[|lines| - 1])
  }

  /** Every line adds at most 99. */
  lemma {:induction false} CalibrationSumBound(lines: seq<string>)
    ensures CalibrationSum(lines) <= 99 * |lines|
  {
    if lines != [] {
      CalibrationSumBound(lines[..|lines| - 1]);
    }
  }

  /** The sum of a list of numbers, as `into_iter().sum()` computes it. */
  function Sum(ns: seq<nat>): nat {
    if ns == [] then 0 else Sum(ns[..|ns| - 1]) + ns[|ns| - 1]
  }

  /** `riddle_part_one`: push every line's value, then add them up. */
  method RiddlePartOne(text: string) returns (sum: nat)
    ensures sum == CalibrationSum(Text.Split(text, '\n'))
    ensures sum <= 99 * |Text.Split(text, '\n')|
  {
    var lines := Text.Split(text, '\n');
    var numbers: seq<nat> := [];
    for k := 0 to |lines|
      invariant |numbers| == k
      invariant Sum(numbers) == CalibrationSum(lines[..k])
    {
      var line := lines[k];
      var firstDigit := FirstDigit(line);
      var lastDigit := LastDigit(line);
      assert (numbers + [firstDigit * 10 + lastDigit])[..k] == numbers;
      assert lines[..k + 1][..k] == lines[..k];
      numbers := numbers + [firstDigit * 10 + lastDigit];
    }
    assert lines[..|lines|] == lines;
    sum := Sum(numbers);
    CalibrationSumBound(lines);
  }

  // ---------------------------------------------------------------------------
  // The puzzle's example

  /** `1abc2`, `pqr3stu8vwx`, `a1b2c3d4e5f` and `treb7uchet` are worth 12,
      38, 15 and 77, 142 in all. */
  lemma Sample()
    ensures CalibrationSum(["1abc2", "pqr3stu8vwx", "a1b2c3d4e5f", "treb7uchet"]) == 142
  {
    var lines := ["1abc2", "pqr3stu8vwx", "a1b2c3d4e5f", "treb7uchet"];
    SampleValues();
    assert lines[..3] == ["1abc2", "pqr3stu8vwx", "a1b2c3d4e5f"];
    assert lines[..3][..2] == ["1abc2", "pqr3stu8vwx"];
    assert lines[..3][..2][..1] == ["1abc2"];
    assert CalibrationSum(["1abc2"]) == 12;
  }

  lemma SampleValues()
    ensures Calibration("1abc2") == 12 && Calibration("pqr3stu8vwx") == 38
    ensures Calibration("a1b2c3d4e5f") == 15 && Calibration("treb7uchet") == 77
  {
    FirstDigitAt("1abc2", 0);
    LastDigitAt("1abc2", 4);
    FirstDigitAt("pqr3stu8vwx", 3);
    LastDigitAt("pqr3stu8vwx", 7);
    FirstDigitAt("a1b2c3d4e5f", 1);
    LastDigitAt("a1b2c3d4e5f", 9);
    SingleDigit("treb7uchet", 4);
  }
}
