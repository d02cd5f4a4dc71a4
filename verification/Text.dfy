/** The string operations the modelled code uses, on ASCII text. */
module Text {
  import opened Options

  function LowerChar(c: char): char {
    if 'A' <= c <= 'Z' then ((c as int) + 32) as char else c
  }

  /** str.lower */
  function Lower(s: string): (r: string)
    ensures |r| == |s|
    ensures forall i :: 0 <= i < |s| ==> r[i] == LowerChar(s[i])
  {
    seq(|s|, i requires 0 <= i < |s| => LowerChar(s[i]))
  }

  lemma LowerConcat(s: string, t: string)
    ensures Lower(s + t) == Lower(s) + Lower(t)
  {
  }

  predicate IsWordChar(c: char) {
    'a' <= c <= 'z' || '0' <= c <= '9'
  }

  /** The characters by their ASCII codes: capitals are 65 to 90, their small
      letters 32 further on, digits 48 to 57; blanks are 9 to 13 and 28 to 32. */
  lemma Characters(c: char)
    ensures LowerChar(c) as int == c as int + if 65 <= c as int <= 90 then 32 else 0
    ensures IsWordChar(c) <==> 97 <= c as int <= 122 || 48 <= c as int <= 57
    ensures IsSpace(c) <==> 9 <= c as int <= 13 || 28 <= c as int <= 32
  {
  }

  /** The maximal runs of letters and digits, in lower case. */
  function WordsFrom(text: string, word: string): seq<string> {
    if text == "" then (if word == "" then [] else [word])
    else
      var c := LowerChar(text[0]);
      if IsWordChar(c) then WordsFrom(text[1..], word + [c])
      else (if word == "" then [] else [word]) + WordsFrom(text[1..], "")
  }

  function Words(text: string): seq<string> {
    WordsFrom(text, "")
  }

  predicate AllWordChars(s: string) {
    forall i :: 0 <= i < |s| ==> IsWordChar(s[i])
  }

  lemma {:induction false} WordsFromRun(s: string, word: string, rest: string)
    requires AllWordChars(Lower(s))
    ensures WordsFrom(s + rest, word) == WordsFrom(rest, word + Lower(s))
  {
    if s == "" {
      assert s + rest == rest && word + Lower(s) == word;
    } else {
      var c := LowerChar(s[0]);
      assert Lower(s)[0] == c && Lower(s) == [c] + Lower(s[1..]);
      assert (s + rest)[0] == s[0] && (s + rest)[1..] == s[1..] + rest;
      assert forall i :: 0 <= i < |s| - 1 ==> Lower(s[1..])[i] == Lower(s)[i + 1];
      WordsFromRun(s[1..], word + [c], rest);
      assert word + [c] + Lower(s[1..]) == word + Lower(s);
    }
  }

  /** What the words of a text are, whatever the text: none for no text, one for a
      run of letters and digits, in lower case; and anything else separates. */
  lemma WordsOfRun(s: string)
    requires AllWordChars(Lower(s))
    ensures Words(s) == if s == "" then [] else [Lower(s)]
  {
    WordsFromRun(s, "", "");
    assert s + "" == s && "" + Lower(s) == Lower(s);
  }

  lemma {:induction false} WordsFromSeparated(s: string, word: string, c: char, t: string)
    requires !IsWordChar(LowerChar(c))
    ensures WordsFrom(s + [c] + t, word) == WordsFrom(s, word) + Words(t)
  {
    var all := s + [c] + t;
    if s == "" {
      assert all[0] == c && all[1..] == t;
    } else {
      var l := LowerChar(s[0]);
      assert all[0] == s[0] && all[1..] == s[1..] + [c] + t;
      WordsFromSeparated(s[1..], if IsWordChar(l) then word + [l] else "", c, t);
    }
  }

  lemma WordsSeparated(s: string, c: char, t: string)
    requires !IsWordChar(LowerChar(c))
    ensures Words(s + [c] + t) == Words(s) + Words(t)
  {
    WordsFromSeparated(s, "", c, t);
  }

  predicate IsSpace(c: char) {
    c == ' ' || '\t' <= c <= '\r' || 0x1C <= c as int <= 0x1F
  }

  function StripLeft(s: string): string {
    if s != "" && IsSpace(s[0]) then StripLeft(s[1..]) else s
  }

  function StripRight(s: string): string {
    if s != "" && IsSpace(s[|s| - 1]) then StripRight(s[..|s| - 1]) else s
  }

  /** str.strip */
  function Strip(s: string): string {
    StripRight(StripLeft(s))
  }

  predicate Trimmed(s: string) {
    s == "" || (!IsSpace(s[0]) && !IsSpace(s[|s| - 1]))
  }

  predicate Blank(s: string) {
    forall i :: 0 <= i < |s| ==> IsSpace(s[i])
  }

  lemma {:induction false} StripLeftSkips(left: string, s: string)
    requires Blank(left) && (s == "" || !IsSpace(s[0]))
    ensures StripLeft(left + s) == s
  {
    if left == "" {
      assert left + s == s;
    } else {
      assert (left + s)[1..] == left[1..] + s;
      StripLeftSkips(left[1..], s);
    }
  }

  lemma {:induction false} StripRightSkips(s: string, right: string)
    requires Blank(right) && (s == "" || !IsSpace(s[|s| - 1]))
    ensures StripRight(s + right) == s
  {
    if right == "" {
      assert s + right == s;
    } else {
      var n := |right| - 1;
      assert (s + right)[..|s| + n] == s + right[..n];
      StripRightSkips(s, right[..n]);
    }
  }

  /** Blanks around a trimmed text are what strip takes away. */
  lemma StripUnwraps(left: string, s: string, right: string)
    requires Blank(left) && Blank(right) && Trimmed(s)
    ensures Strip(left + s + right) == s
  {
    assert left + s + right == left + (s + right);
    if s == "" {
      assert s + right == right && left + right + "" == left + right;
      StripLeftSkips(left + right, "");
    } else {
      assert (s + right)[0] == s[0];
      StripLeftSkips(left, s + right);
      StripRightSkips(s, right);
    }
  }

  lemma StripTrimmed(s: string)
    requires Trimmed(s)
    ensures Strip(s) == s
  {
  }

  /** The index of the last c in s, or -1: str.rfind. */
  function LastIndex(s: string, c: char): (i: int)
    ensures -1 <= i < |s|
    ensures 0 <= i ==> s[i] == c
    ensures forall j :: i < j < |s| ==> s[j] != c
  {
    if s == "" then -1
    else if s[|s| - 1] == c then |s| - 1
    else LastIndex(s[..|s| - 1], c)
  }

  lemma LastIndexIs(s: string, c: char, i: nat)
    requires i < |s| && s[i] == c && forall j :: i < j < |s| ==> s[j] != c
    ensures LastIndex(s, c) == i
  {
  }

  /** sep.join(parts) */
  function Join(parts: seq<string>, sep: string): string {
    if parts == [] then ""
    else if |parts| == 1 then parts[0]
    else parts[0] + sep + Join(parts[1..], sep)
  }

  /** s.split(c) */
  function Split(s: string, c: char): (parts: seq<string>)
    ensures parts != []
  {
    SplitFrom(s, c, "")
  }

  function SplitFrom(s: string, c: char, piece: string): (parts: seq<string>)
    ensures parts != []
  {
    if s == "" then [piece]
    else if s[0] == c then [piece] + SplitFrom(s[1..], c, "")
    else SplitFrom(s[1..], c, piece + [s[0]])
  }

  lemma {:induction false} SplitFromPlain(s: string, c: char, piece: string)
    requires c !in s
    ensures SplitFrom(s, c, piece) == [piece + s]
  {
    if s == "" {
      assert piece + s == piece;
    } else {
      SplitFromPlain(s[1..], c, piece + [s[0]]);
      assert piece + [s[0]] + s[1..] == piece + s;
    }
  }

  lemma {:induction false} SplitFromHead(s: string, c: char, piece: string, rest: string)
    requires c !in s
    ensures SplitFrom(s + [c] + rest, c, piece) == [piece + s] + SplitFrom(rest, c, "")
  {
    var all := s + [c] + rest;
    if s == "" {
      assert all[0] == c && all[1..] == rest && piece + s == piece;
    } else {
      assert all[0] == s[0] && all[1..] == s[1..] + [c] + rest;
      SplitFromHead(s[1..], c, piece + [s[0]], rest);
      assert piece + [s[0]] + s[1..] == piece + s;
    }
  }

  /** Splitting undoes joining, for pieces free of the separator. */
  lemma {:induction false} SplitJoin(parts: seq<string>, c: char)
    requires parts != [] && forall p :: p in parts ==> c !in p
    ensures Split(Join(parts, [c]), c) == parts
  {
    var first := parts[0];
    assert first in parts && "" + first == first;
    if |parts| == 1 {
      SplitFromPlain(first, c, "");
    } else {
      var rest := Join(parts[1..], [c]);
      assert forall p :: p in parts[1..] ==> p in parts;
      SplitJoin(parts[1..], c);
      calc {
        Split(Join(parts, [c]), c);
        SplitFrom(first + [c] + rest, c, "");
        { SplitFromHead(first, c, "", rest); }
        [first] + SplitFrom(rest, c, "");
        [first] + parts[1..];
        parts;
      }
    }
  }

  // ---------------------------------------------------------------- numbers

  function DigitChar(d: nat): char
    requires d < 10
  {
    ('0' as int + d) as char
  }

  /** str(n) */
  function Print(n: nat): string {
    if n < 10 then [DigitChar(n)] else Print(n / 10) + [DigitChar(n % 10)]
  }

  predicate IsDigit(c: char) {
    '0' <= c <= '9'
  }

  /** Digits with single underscores between them; -1 when malformed. */
  function DigitsValue(s: string): (v: int)
    ensures -1 <= v
    decreases |s|
  {
    if s == "" || !IsDigit(s[|s| - 1]) then -1
    else
      var d := s[|s| - 1] as int - '0' as int;
      if |s| == 1 then d
      else
        var front := s[..|s| - 1];
        var high := DigitsValue(if front[|front| - 1] == '_' then front[..|front| - 1] else front);
        if high < 0 then -1 else 10 * high + d
  }

  /** int(s): surrounding space, an optional sign, digits; None stands for the
      ValueError. */
  function ParseInt(s: string): Option<int> {
    var t := Strip(s);
    var signed := t != "" && (t[0] == '-' || t[0] == '+');
    var v := DigitsValue(if signed then t[1..] else t);
    if v < 0 then None else Some(if signed && t[0] == '-' then -v else v)
  }

  lemma {:induction false} PrintIsDigits(n: nat)
    ensures Print(n) != "" && forall c :: c in Print(n) ==> IsDigit(c)
  {
    if n >= 10 { PrintIsDigits(n / 10); }
  }

  lemma {:induction false} DigitsPrint(n: nat)
    ensures DigitsValue(Print(n)) == n
  {
    if n >= 10 {
      var high := Print(n / 10);
      DigitsPrint(n / 10);
      PrintIsDigits(n / 10);
      assert high[|high| - 1] in high;
      assert Print(n)[..|Print(n)| - 1] == high;
    }
  }

  /** int(str(n)) == n */
  lemma ParsePrint(n: nat)
    ensures ParseInt(Print(n)) == Some(n)
  {
    PrintIsDigits(n);
    DigitsPrint(n);
    var s := Print(n);
    assert s[0] in s && s[|s| - 1] in s;
    StripTrimmed(s);
  }

  lemma ParseUnwraps(left: string, t: string, right: string)
    requires Blank(left) && Blank(right) && Trimmed(t)
    ensures ParseInt(left + t + right) == ParseInt(t)
  {
    StripUnwraps(left, t, right);
    StripTrimmed(t);
  }

  lemma ParseSignOf(sign: char, s: string, v: int)
    requires (sign == '+' || sign == '-') && s != "" && !IsSpace(s[|s| - 1]) && 0 <= v == DigitsValue(s)
    ensures Trimmed([sign] + s) && ParseInt([sign] + s) == Some(if sign == '-' then -v else v)
  {
    StripTrimmed([sign] + s);
    assert ([sign] + s)[1..] == s;
  }

  lemma ParseSign(n: int)
    requires 0 <= n
    ensures Trimmed(Print(n)) && Trimmed("+" + Print(n)) && Trimmed("-" + Print(n))
    ensures ParseInt("+" + Print(n)) == Some(n) && ParseInt("-" + Print(n)) == Some(-n)
  {
    PrintIsDigits(n);
    DigitsPrint(n);
    var s := Print(n);
    assert s[0] in s && s[|s| - 1] in s;
    ParseSignOf('+', s, n);
    ParseSignOf('-', s, n);
    assert ['+'] + s == "+" + s && ['-'] + s == "-" + s;
  }

  /** int accepts blanks around a number and a sign before it ... */
  lemma ParseSigned(left: string, n: int, right: string)
    requires Blank(left) && Blank(right) && 0 <= n
    ensures ParseInt(left + Print(n) + right) == Some(n)
    ensures ParseInt(left + ("+" + Print(n)) + right) == Some(n)
    ensures ParseInt(left + ("-" + Print(n)) + right) == Some(-n)
  {
    ParseSign(n);
    ParsePrint(n);
    ParseUnwraps(left, Print(n), right);
    ParseUnwraps(left, "+" + Print(n), right);
    ParseUnwraps(left, "-" + Print(n), right);
  }

  /** ... and one underscore between two digits; the value is the decimal one. */
  lemma DigitsAppend(s: string, d: nat)
    requires d < 10 && DigitsValue(s) >= 0
    ensures DigitsValue(s + [DigitChar(d)]) == 10 * DigitsValue(s) + d
    ensures DigitsValue(s + "_" + [DigitChar(d)]) == 10 * DigitsValue(s) + d
  {
    DigitsOnly(s);
    var t := s + [DigitChar(d)];
    assert t[..|t| - 1] == s;
    var u := s + "_" + [DigitChar(d)];
    assert u[..|u| - 1] == s + "_" && (s + "_")[..|s|] == s;
  }

  /** Nothing else is a number. */
  lemma {:induction false} DigitsOnly(s: string)
    requires DigitsValue(s) >= 0
    ensures s != "" && IsDigit(s[0]) && IsDigit(s[|s| - 1])
    ensures forall i :: 0 <= i < |s| ==> IsDigit(s[i]) || (s[i] == '_' && 0 < i && IsDigit(s[i - 1]))
    decreases |s|
  {
    if |s| > 1 {
      var n := |s| - 1;
      if s[n - 1] == '_' {
        var inner := s[..n][..n - 1];
        DigitsOnly(inner);
        assert IsDigit(inner[n - 2]) && inner[n - 2] == s[n - 2];
        forall i | 0 <= i < n - 1 ensures IsDigit(s[i]) || (s[i] == '_' && 0 < i && IsDigit(s[i - 1])) {
          assert inner[i] == s[i] && (0 < i ==> inner[i - 1] == s[i - 1]);
        }
      } else {
        var front := s[..n];
        DigitsOnly(front);
        forall i | 0 <= i < n ensures IsDigit(s[i]) || (s[i] == '_' && 0 < i && IsDigit(s[i - 1])) {
          assert front[i] == s[i] && (0 < i ==> front[i - 1] == s[i - 1]);
        }
      }
    }
  }
}
