/** The pieces of Rust's `str` API that the puzzle programs use to read their
    input: `split` on a character, `split(' ').filter(non-empty)`, `trim`,
    `char::is_digit(10)` and `parse` into an unsigned or a signed integer.
    Text is a sequence of `char`; the programs only ever meet ASCII input, so a
    character and a byte position coincide. */
module Text {
  import opened Wrappers

  // ---------------------------------------------------------------------------
  // Characters and digits

  /** `char::is_digit(10)`: only the ASCII digits. */
  predicate IsDigit(c: char) {
    '0' <= c <= '9'
  }

  function DigitValue(c: char): (d: nat)
    requires IsDigit(c)
    ensures d <= 9
  {
    (c as int) - ('0' as int)
  }

  function DigitChar(d: nat): (c: char)
    requires d <= 9
    ensures IsDigit(c) && DigitValue(c) == d
  {
    (('0' as int) + d) as char
  }

  predicate AllDigits(s: string) {
    forall i :: 0 <= i < |s| ==> IsDigit(s[i])
  }

  /** `char::is_whitespace`: the characters with the Unicode White_Space
      property, which is what `str::trim` removes. */
  predicate IsWhitespace(c: char) {
    || '\t' <= c <= '\r' || c == ' ' || c == '\U{85}' || c == '\U{A0}'
    || c == '\U{1680}' || '\U{2000}' <= c <= '\U{200A}' || c == '\U{2028}'
    || c == '\U{2029}' || c == '\U{202F}' || c == '\U{205F}' || c == '\U{3000}'
  }

  // ---------------------------------------------------------------------------
  // Decimal numerals

  /** The value of a numeral, most significant digit first. */
  function DecimalValue(s: string): nat
    requires AllDigits(s)
  {
    if s == [] then 0 else 10 * DecimalValue(s[..|s| - 1]) + DigitValue(s[|s| - 1])
  }

  /** The shortest numeral of `n` (what Rust's `to_string` prints). */
  function Decimal(n: nat): (s: string)
    ensures |s| >= 1 && AllDigits(s)
  {
    if n < 10 then [DigitChar(n)] else Decimal(n / 10) + [DigitChar(n % 10)]
  }

  lemma {:induction false} DecimalValueOfDecimal(n: nat)
    ensures DecimalValue(Decimal(n)) == n
  {
    var s := Decimal(n);
    if n >= 10 {
      DecimalValueOfDecimal(n / 10);
      assert s[..|s| - 1] == Decimal(n / 10);
    }
  }

  /** `parse::<usize>()` / `parse::<u32>()` without the width limit: an
      optional `+` followed by at least one digit, and nothing else. */
  function ParseNat(s: string): (r: Option<nat>)
    ensures r.Some? <==> ((|s| > 0 && AllDigits(s)) || (|s| > 1 && s[0] == '+' && AllDigits(s[1..])))
    ensures r.Some? && AllDigits(s) ==> r.value == DecimalValue(s)
  {
    if |s| > 0 && s[0] == '+' then ParseDigits(s[1..]) else ParseDigits(s)
  }

  function ParseDigits(s: string): (r: Option<nat>)
  {
    if |s| > 0 && AllDigits(s) then Some(DecimalValue(s)) else None
  }

  /** `parse::<isize>()` without the width limit: an optional sign followed by
      at least one digit. */
  function ParseInt(s: string): (r: Option<int>)
    ensures r.Some? <==> ((|s| > 0 && AllDigits(s)) || (|s| > 1 && (s[0] == '+' || s[0] == '-') && AllDigits(s[1..])))
  {
    if |s| > 0 && s[0] == '-' then
      match ParseDigits(s[1..])
      case Some(n) => Some(-(n as int))
      case None => None
    else
      match ParseNat(s)
      case Some(n) => Some(n)
      case None => None
  }

  /** Parsing reads back every number that `Decimal` prints. */
  lemma ParseNatDecimal(n: nat)
    ensures ParseNat(Decimal(n)) == Some(n)
    ensures ParseInt(Decimal(n)) == Some(n)
  {
    DecimalValueOfDecimal(n);
  }

  lemma ParseIntNegative(n: nat)
    ensures ParseInt(['-'] + Decimal(n)) == Some(-(n as int))
  {
    var s := ['-'] + Decimal(n);
    assert s[1..] == Decimal(n);
    DecimalValueOfDecimal(n);
  }

  /** `.map(|t| t.parse::<isize>().unwrap()).collect()`: every token parsed,
      or nothing at all when one of them is not a number. */
  function ParseInts(tokens: seq<string>): (r: Option<seq<int>>)
    ensures r.Some? <==> forall i :: 0 <= i < |tokens| ==> ParseInt(tokens[i]).Some?
    ensures r.Some? ==> (|r.value| == |tokens|
              && forall i :: 0 <= i < |tokens| ==> ParseInt(tokens[i]) == Some(r.value[i]))
  {
    if tokens == [] then Some([])
    else
      var head, tail := ParseInt(tokens[0]), ParseInts(tokens[1..]);
      if head.Some? && tail.Some? then Some([head.value] + tail.value) else None
  }

  /** The unsigned counterpart of `ParseInts` (`parse::<u32>().unwrap()`). */
  function ParseNats(tokens: seq<string>): (r: Option<seq<nat>>)
    ensures r.Some? <==> forall i :: 0 <= i < |tokens| ==> ParseNat(tokens[i]).Some?
    ensures r.Some? ==> (|r.value| == |tokens|
              && forall i :: 0 <= i < |tokens| ==> ParseNat(tokens[i]) == Some(r.value[i]))
  {
    if tokens == [] then Some([])
    else
      var head, tail := ParseNat(tokens[0]), ParseNats(tokens[1..]);
      if head.Some? && tail.Some? then Some([head.value] + tail.value) else None
  }

  /** A numeral holds neither a space nor any other whitespace. */
  lemma DigitsHaveNoSpace(s: string)
    requires AllDigits(s)
    ensures ' ' !in s
    ensures forall i :: 0 <= i < |s| ==> !IsWhitespace(s[i])
  {
  }

  // ---------------------------------------------------------------------------
  // Splitting and joining

  /** `str::split(sep)`: the pieces between separators, empty pieces
      included, so a string with k separators has k + 1 pieces. */
  function Split(s: string, sep: char): (parts: seq<string>)
    ensures |parts| >= 1
    ensures forall i :: 0 <= i < |parts| ==> sep !in parts[i]
  {
    if s == [] then [""]
    else
      var rest := Split(s[1..], sep);
      if s[0] == sep then [""] + rest
      else [[s[0]] + rest[0]] + rest[1..]
  }

  /** The inverse of `Split`: the pieces glued back with the separator. */
  function Join(parts: seq<string>, sep: char): string
    requires |parts| >= 1
  {
    if |parts| == 1 then parts[0] else parts[0] + [sep] + Join(parts[1..], sep)
  }

  lemma {:induction false} JoinSplit(s: string, sep: char)
    ensures Join(Split(s, sep), sep) == s
  {
    if s != [] {
      var rest := Split(s[1..], sep);
      JoinSplit(s[1..], sep);
      if s[0] == sep {
        assert ([""] + rest)[1..] == rest;
      } else if |rest| > 1 {
        var parts := [[s[0]] + rest[0]] + rest[1..];
        assert parts[1..] == rest[1..];
      }
    }
  }

  lemma {:induction false} SplitJoin(parts: seq<string>, sep: char)
    requires |parts| >= 1
    requires forall i :: 0 <= i < |parts| ==> sep !in parts[i]
    ensures Split(Join(parts, sep), sep) == parts
  {
    if |parts| == 1 {
      SplitPiece(parts[0], sep);
    } else {
      SplitJoin(parts[1..], sep);
      SplitPrefix(parts[0], Join(parts[1..], sep), sep);
      assert [parts[0]] + parts[1..] == parts;
    }
  }

  /** A separator at the very end adds one empty piece. */
  lemma SplitTrailing(s: string, sep: char)
    ensures Split(s + [sep], sep) == Split(s, sep) + [""]
  {
    var parts := Split(s, sep);
    JoinSplit(s, sep);
    JoinSnoc(parts, "", sep);
    assert Join(parts, sep) + [sep] + "" == s + [sep];
    SplitJoin(parts + [""], sep);
  }

  lemma {:induction false} SplitPiece(p: string, sep: char)
    requires sep !in p
    ensures Split(p, sep) == [p]
  {
    if p != [] {
      SplitPiece(p[1..], sep);
      assert [p[0]] + p[1..] == p;
    }
  }

  /** Splitting `p + [sep] + t` where `p` holds no separator puts `p` first. */
  lemma {:induction false} SplitPrefix(p: string, t: string, sep: char)
    requires sep !in p
    ensures Split(p + [sep] + t, sep) == [p] + Split(t, sep)
  {
    if p == [] {
      assert p + [sep] + t == [sep] + t;
      assert ([sep] + t)[1..] == t;
    } else {
      SplitPrefix(p[1..], t, sep);
      assert (p + [sep] + t)[1..] == p[1..] + [sep] + t;
      assert [p[0]] + p[1..] == p;
    }
  }

  /** Two pieces without the separator, joined by it, split back apart. */
  lemma SplitPair(p: string, t: string, sep: char)
    requires sep !in p && sep !in t
    ensures Split(p + [sep] + t, sep) == [p, t]
  {
    SplitPrefix(p, t, sep);
    SplitPiece(t, sep);
  }

  lemma {:induction false} JoinEnds(parts: seq<string>, sep: char)
    requires |parts| >= 1 && forall i :: 0 <= i < |parts| ==> |parts[i]| > 0
    ensures |Join(parts, sep)| > 0
    ensures Join(parts, sep)[0] == parts[0][0]
    ensures Join(parts, sep)[|Join(parts, sep)| - 1] == parts[|parts| - 1][|parts[|parts| - 1]| - 1]
  {
    if |parts| > 1 {
      JoinEnds(parts[1..], sep);
    }
  }

  /** Tokens without whitespace, joined by single spaces, are read back by
      `trim` followed by `Words`. */
  lemma WordsOfJoin(parts: seq<string>)
    requires |parts| >= 1
    requires forall i :: 0 <= i < |parts| ==>
               |parts[i]| > 0 && forall k :: 0 <= k < |parts[i]| ==> !IsWhitespace(parts[i][k])
    ensures Words(Trim(Join(parts, ' '))) == parts
  {
    JoinEnds(parts, ' ');
    TrimKeeps(Join(parts, ' '));
    SplitJoin(parts, ' ');
    NonEmptyKeeps(parts);
  }

  lemma {:induction false} NonEmptyKeeps(parts: seq<string>)
    requires forall i :: 0 <= i < |parts| ==> |parts[i]| > 0
    ensures NonEmpty(parts) == parts
  {
    if parts != [] {
      NonEmptyKeeps(parts[1..]);
    }
  }

  /** A character absent from a string is absent from each of its pieces. */
  lemma {:induction false} SplitAvoids(s: string, sep: char, c: char)
    requires c !in s
    ensures forall i :: 0 <= i < |Split(s, sep)| ==> c !in Split(s, sep)[i]
  {
    if s != [] {
      SplitAvoids(s[1..], sep, c);
    }
  }

  /** Appending one more piece appends the separator and the piece. */
  lemma {:induction false} JoinSnoc(parts: seq<string>, q: string, sep: char)
    requires |parts| >= 1
    ensures Join(parts + [q], sep) == Join(parts, sep) + [sep] + q
  {
    if |parts| > 1 {
      JoinSnoc(parts[1..], q, sep);
      assert (parts + [q])[1..] == parts[1..] + [q];
    }
  }

  /** A character that is not the separator and occurs in no piece does not
      occur in the joined string. */
  lemma {:induction false} JoinAvoids(parts: seq<string>, sep: char, c: char)
    requires |parts| >= 1 && c != sep
    requires forall i :: 0 <= i < |parts| ==> c !in parts[i]
    ensures c !in Join(parts, sep)
  {
    if |parts| > 1 {
      JoinAvoids(parts[1..], sep, c);
    }
  }

  /** Dropping empty pieces distributes over concatenation. */
  lemma {:induction false} NonEmptyConcat(a: seq<string>, b: seq<string>)
    ensures NonEmpty(a + b) == NonEmpty(a) + NonEmpty(b)
  {
    if a != [] {
      assert (a + b)[1..] == a[1..] + b;
      NonEmptyConcat(a[1..], b);
    } else {
      assert a + b == b;
    }
  }

  /** Tokens without spaces, joined by single spaces, are read back by
      `Words`. */
  lemma WordsOfJoined(parts: seq<string>)
    requires |parts| >= 1
    requires forall i :: 0 <= i < |parts| ==> |parts[i]| > 0 && ' ' !in parts[i]
    ensures Words(Join(parts, ' ')) == parts
  {
    SplitJoin(parts, ' ');
    NonEmptyKeeps(parts);
  }

  /** A space after the last token adds only an empty piece, which `Words`
      drops. */
  lemma WordsTrailingSpace(parts: seq<string>)
    requires |parts| >= 1
    requires forall i :: 0 <= i < |parts| ==> |parts[i]| > 0 && ' ' !in parts[i]
    ensures Words(Join(parts, ' ') + " ") == parts
  {
    var padded := parts + [""];
    JoinSnoc(parts, "", ' ');
    assert Join(parts, ' ') + [' '] + "" == Join(parts, ' ') + " ";
    assert forall i :: 0 <= i < |padded| ==> ' ' !in padded[i] by {
      forall i | 0 <= i < |padded| ensures ' ' !in padded[i] {
        if i < |parts| { assert padded[i] == parts[i]; }
      }
    }
    SplitJoin(padded, ' ');
    NonEmptyConcat(parts, [""]);
    NonEmptyKeeps(parts);
    assert NonEmpty([""]) == [];
  }

  /** A leading space adds only an empty piece, which `Words` drops. */
  lemma WordsLeadingSpace(s: string)
    ensures Words(" " + s) == Words(s)
  {
    SplitPrefix("", s, ' ');
    assert "" + [' '] + s == " " + s;
  }

  /** Tokens joined by single spaces, with a space in front and optionally
      one behind, are read back by `Words`. */
  lemma WordsOfPadded(parts: seq<string>)
    requires |parts| >= 1
    requires forall i :: 0 <= i < |parts| ==> |parts[i]| > 0 && ' ' !in parts[i]
    ensures Words(" " + Join(parts, ' ') + " ") == parts
    ensures Words(" " + Join(parts, ' ')) == parts
  {
    var joined := Join(parts, ' ');
    assert " " + joined + " " == " " + (joined + " ");
    assert Words(" " + joined + " ") == parts by {
      WordsTrailingSpace(parts);
      WordsLeadingSpace(joined + " ");
    }
    assert Words(" " + joined) == parts by {
      WordsOfJoined(parts);
      WordsLeadingSpace(joined);
    }
  }

  /** Two words, each after a single space, are read back by `Words`. */
  lemma WordsOfPair(a: string, b: string)
    requires |a| > 0 && ' ' !in a && |b| > 0 && ' ' !in b
    ensures Words(" " + a + " " + b) == [a, b]
  {
    var parts := [a, b];
    assert " " + (a + " " + b) == " " + a + " " + b;
    assert parts[1..] == [b];
    assert Join(parts, ' ') == a + " " + b;
    WordsOfPadded(parts);
  }

  /** The shortest numerals of a list of numbers. */
  function Numerals(ns: seq<nat>): (r: seq<string>)
    ensures |r| == |ns|
    ensures forall i :: 0 <= i < |ns| ==> r[i] == Decimal(ns[i])
  {
    if ns == [] then [] else [Decimal(ns[0])] + Numerals(ns[1..])
  }

  /** Numerals parse back to their numbers. */
  lemma {:induction false} ParseNatsNumerals(ns: seq<nat>)
    ensures ParseNats(Numerals(ns)) == Some(ns)
  {
    if ns != [] {
      ParseNatDecimal(ns[0]);
      ParseNatsNumerals(ns[1..]);
      assert Numerals(ns)[1..] == Numerals(ns[1..]);
      assert [ns[0]] + ns[1..] == ns;
    }
  }

  /** Numerals are non-empty and hold only digits, so no space. */
  lemma NumeralTokens(ns: seq<nat>)
    ensures forall i :: 0 <= i < |Numerals(ns)| ==>
              |Numerals(ns)[i]| > 0 && AllDigits(Numerals(ns)[i]) && ' ' !in Numerals(ns)[i]
  {
    forall i | 0 <= i < |Numerals(ns)| ensures ' ' !in Numerals(ns)[i] {
      DigitsHaveNoSpace(Numerals(ns)[i]);
    }
  }

  /** A character that is neither a digit nor a space does not occur in
      numerals joined by spaces. */
  lemma NumeralsAvoid(ns: seq<nat>, c: char)
    requires |ns| >= 1 && !IsDigit(c) && c != ' '
    ensures c !in Join(Numerals(ns), ' ')
  {
    var parts := Numerals(ns);
    forall i | 0 <= i < |parts| ensures c !in parts[i] {
      assert AllDigits(parts[i]);
    }
    JoinAvoids(parts, ' ', c);
  }

  /** `split(' ').filter(|t| !t.is_empty())`: the non-empty space-separated
      tokens. */
  function Words(s: string): (ws: seq<string>)
    ensures forall i :: 0 <= i < |ws| ==> |ws[i]| > 0 && ' ' !in ws[i]
  {
    NonEmpty(Split(s, ' '))
  }

  function NonEmpty(parts: seq<string>): (r: seq<string>)
    ensures |r| <= |parts|
    ensures forall i :: 0 <= i < |r| ==> |r[i]| > 0 && r[i] in parts
    ensures forall p :: p in parts && |p| > 0 ==> p in r
  {
    if parts == [] then []
    else if parts[0] == [] then NonEmpty(parts[1..])
    else [parts[0]] + NonEmpty(parts[1..])
  }

  // ---------------------------------------------------------------------------
  // Trimming

  /** `str::trim_start`: the longest suffix that does not start with
      whitespace. */
  function TrimStart(s: string): (r: string)
    ensures |r| <= |s| && r == s[|s| - |r|..]
    ensures r == [] || !IsWhitespace(r[0])
    ensures forall k :: 0 <= k < |s| - |r| ==> IsWhitespace(s[k])
  {
    if s != [] && IsWhitespace(s[0]) then TrimStart(s[1..]) else s
  }

  /** `str::trim_end`: the longest prefix that does not end with whitespace. */
  function TrimEnd(s: string): (r: string)
    ensures |r| <= |s| && r == s[..|r|]
    ensures r == [] || !IsWhitespace(r[|r| - 1])
    ensures forall k :: |r| <= k < |s| ==> IsWhitespace(s[k])
  {
    if s != [] && IsWhitespace(s[|s| - 1]) then TrimEnd(s[..|s| - 1]) else s
  }

  /** `str::trim`. */
  function Trim(s: string): (r: string)
    ensures exists i, j :: 0 <= i <= j <= |s| && r == s[i..j]
    ensures r == [] || (!IsWhitespace(r[0]) && !IsWhitespace(r[|r| - 1]))
  {
    var t := TrimStart(s);
    var r := TrimEnd(t);
    assert r == s[|s| - |t|..|s| - |t| + |r|];
    r
  }

  /** Trimming leaves alone a string that neither starts nor ends with
      whitespace. */
  lemma TrimKeeps(s: string)
    requires s == [] || (!IsWhitespace(s[0]) && !IsWhitespace(s[|s| - 1]))
    ensures Trim(s) == s
  {
  }

  /** One space on either side of a word that neither starts nor ends with
      whitespace is trimmed away. */
  lemma TrimPadded(s: string)
    requires |s| > 0 && !IsWhitespace(s[0]) && !IsWhitespace(s[|s| - 1])
    ensures Trim(s + " ") == s && Trim(" " + s) == s
  {
    TrimTrailingSpace(s);
    TrimLeadingSpace(s);
  }

  lemma TrimTrailingSpace(s: string)
    requires |s| > 0 && !IsWhitespace(s[0]) && !IsWhitespace(s[|s| - 1])
    ensures Trim(s + " ") == s
  {
    var t := s + " ";
    assert TrimStart(t) == t;
    assert TrimEnd(t) == s;
  }

  lemma TrimLeadingSpace(s: string)
    requires |s| > 0 && !IsWhitespace(s[0]) && !IsWhitespace(s[|s| - 1])
    ensures Trim(" " + s) == s
  {
    var u := " " + s;
    assert TrimStart(u) == s;
    TrimKeeps(s);
  }
}
