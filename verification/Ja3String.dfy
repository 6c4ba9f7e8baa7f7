/** The JA3 string: its printer, the canonical pattern that recognises it, and a reader that undoes the printer. */
module Ja3String {
  import opened ClientHello
  import opened HelloEncoding
  import opened Wrappers

  /* ---- the printer ---- */

  function Digit(d: nat): char
    requires d < 10
  {
    ['0', '1', '2', '3', '4', '5', '6', '7', '8', '9'][d]
  }

  function Decimal(n: nat): (s: string)
    ensures s != []
  {
    if n < 10 then [Digit(n)] else Decimal(n / 10) + [Digit(n % 10)]
  }

  /** `"-".join(str(x) for x in xs)` */
  function Dashed(xs: seq<nat>): string {
    if xs == [] then ""
    else if |xs| == 1 then Decimal(xs[0])
    else Decimal(xs[0]) + "-" + Dashed(xs[1..])
  }

  function Print(f: Ja3Fields): string {
    Decimal(f.version) + ("," + (Dashed(f.ciphers) + ("," + (Dashed(f.extensions)
    + ("," + (Dashed(f.groups) + ("," + Dashed(f.formats))))))))
  }

  /* ---- the canonical pattern ---- */

  /** The regular expressions the pattern is made of. */
  datatype Regex = Nothing | Digits1to5 | Literal(c: char) | Cat(a: Regex, b: Regex) | Maybe(a: Regex) | Star(a: Regex)

  predicate IsDigit(c: char) {
    '0' <= c <= '9'
  }

  ghost predicate Matches(r: Regex, s: string)
    decreases |s|, r
  {
    match r
    case Nothing => s == ""
    case Digits1to5 => 1 <= |s| <= 5 && forall i | 0 <= i < |s| :: IsDigit(s[i])
    case Literal(c) => s == [c]
    case Cat(a, b) => exists i | 0 <= i <= |s| :: Matches(a, s[..i]) && Matches(b, s[i..])
    case Maybe(a) => s == "" || Matches(a, s)
    case Star(a) => s == "" || exists i | 0 < i <= |s| :: Matches(a, s[..i]) && Matches(Star(a), s[i..])
  }

  /** `(?:\\d{1,5}(?:-\\d{1,5})*)?` */
  const LIST := Maybe(Cat(Digits1to5, Star(Cat(Literal('-'), Digits1to5))))
  const FIELD := Cat(Literal(','), LIST)
  /** `^\\d{1,5}(?:,LIST){4}$` */
  const CANONICAL := Cat(Digits1to5, Cat(FIELD, Cat(FIELD, Cat(FIELD, FIELD))))

  lemma CatMatches(a: Regex, b: Regex, s: string, t: string)
    requires Matches(a, s) && Matches(b, t)
    ensures Matches(Cat(a, b), s + t)
  {
    assert (s + t)[..|s|] == s && (s + t)[|s|..] == t;
  }

  lemma {:induction false} DecimalDigits(n: nat)
    ensures forall i | 0 <= i < |Decimal(n)| :: IsDigit(Decimal(n)[i])
  {
    if n >= 10 {
      DecimalDigits(n / 10);
    }
  }

  lemma DecimalMatches(n: nat)
    requires n < 100000
    ensures Matches(Digits1to5, Decimal(n))
  {
    DecimalDigits(n);
    assert |Decimal(n)| <= 5 by {
      assert n / 10 < 10000 && n / 10 / 10 < 1000 && n / 10 / 10 / 10 < 100 && n / 10 / 10 / 10 / 10 < 10;
      DecimalLength(n / 10 / 10 / 10 / 10);
      DecimalLength(n / 10 / 10 / 10);
      DecimalLength(n / 10 / 10);
      DecimalLength(n / 10);
      DecimalLength(n);
    }
  }

  lemma DecimalLength(n: nat)
    ensures |Decimal(n)| == if n < 10 then 1 else |Decimal(n / 10)| + 1
  {
  }

  const DASHED := Star(Cat(Literal('-'), Digits1to5))

  lemma {:induction false} DashedTailMatches(xs: seq<nat>)
    requires xs != [] && forall i | 0 <= i < |xs| :: xs[i] < 100000
    ensures Matches(DASHED, "-" + Dashed(xs))
    ensures Matches(Cat(Digits1to5, DASHED), Dashed(xs))
  {
    hide Matches, Decimal;
    DecimalMatches(xs[0]);
    DashMatches();
    CatMatches(Literal('-'), Digits1to5, "-", Decimal(xs[0]));
    if |xs| == 1 {
      StarStops();
      CatMatches(Digits1to5, DASHED, Decimal(xs[0]), "");
      assert Decimal(xs[0]) + "" == Decimal(xs[0]);
      StarTurns("-" + Decimal(xs[0]), "");
      assert "-" + Decimal(xs[0]) + "" == "-" + Dashed(xs);
    } else {
      DashedTailMatches(xs[1..]);
      var rest := "-" + Dashed(xs[1..]);
      CatMatches(Digits1to5, DASHED, Decimal(xs[0]), rest);
      assert Decimal(xs[0]) + rest == Dashed(xs);
      StarTurns("-" + Decimal(xs[0]), rest);
      assert "-" + Decimal(xs[0]) + rest == "-" + Dashed(xs);
    }
  }

  lemma DashMatches()
    ensures Matches(Literal('-'), "-") && Matches(Literal(','), ",")
  {
  }

  lemma StarStops()
    ensures Matches(DASHED, "")
  {
  }

  lemma StarTurns(s: string, t: string)
    requires s != "" && Matches(Cat(Literal('-'), Digits1to5), s) && Matches(DASHED, t)
    ensures Matches(DASHED, s + t)
  {
    assert (s + t)[..|s|] == s && (s + t)[|s|..] == t;
  }

  lemma ListMatches(xs: seq<nat>)
    requires forall i | 0 <= i < |xs| :: xs[i] < 100000
    ensures Matches(FIELD, "," + Dashed(xs))
  {
    if xs != [] {
      DashedTailMatches(xs);
    }
    assert Matches(LIST, Dashed(xs));
    DashMatches();
    CatMatches(Literal(','), LIST, ",", Dashed(xs));
  }

  /** Every string the program builds has the canonical form. */
  lemma PrintIsCanonical(f: Ja3Fields)
    ensures Matches(CANONICAL, Print(f))
  {
    hide Matches, Decimal, Dashed;
    DecimalMatches(f.version);
    ListMatches(f.ciphers);
    ListMatches(f.extensions);
    ListMatches(f.groups);
    ListMatches(f.formats);
    var c, e, g, p := "," + Dashed(f.ciphers), "," + Dashed(f.extensions), "," + Dashed(f.groups),
                      "," + Dashed(f.formats);
    CatMatches(FIELD, FIELD, g, p);
    CatMatches(FIELD, Cat(FIELD, FIELD), e, g + p);
    CatMatches(FIELD, Cat(FIELD, Cat(FIELD, FIELD)), c, e + (g + p));
    CatMatches(Digits1to5, Cat(FIELD, Cat(FIELD, Cat(FIELD, FIELD))), Decimal(f.version), c + (e + (g + p)));
    assert Print(f) == Decimal(f.version) + (c + (e + (g + p)));
  }

  /* ---- what the pattern accepts, without the pattern ---- */

  ghost predicate Number(s: string) {
    1 <= |s| <= 5 && forall i | 0 <= i < |s| :: '0' <= s[i] <= '9'
  }

  /** One or more numbers with dashes between them. */
  ghost predicate Numbers(s: string)
    decreases |s|
  {
    Number(s) || exists i | 0 <= i < |s| :: s[i] == '-' && Number(s[..i]) && Numbers(s[i + 1..])
  }

  /** `n` fields with a comma before each: lists of numbers that may be empty. */
  ghost predicate CommaFields(s: string, n: nat)
    decreases n
  {
    if n < 2 then s != "" && s[0] == ',' && EmptyOrNumbers(s[1..])
    else exists k | 0 < k <= |s| :: s[0] == ',' && EmptyOrNumbers(s[1..k]) && CommaFields(s[k..], n - 1)
  }

  /** One number and four lists. */
  ghost predicate FiveFields(s: string) {
    exists i | 0 <= i <= |s| :: Number(s[..i]) && CommaFields(s[i..], 4)
  }

  ghost predicate EmptyOrNumbers(s: string) {
    s == "" || Numbers(s)
  }

  lemma CatSplits(a: Regex, b: Regex, s: string) returns (i: nat)
    requires Matches(Cat(a, b), s)
    ensures i <= |s| && Matches(a, s[..i]) && Matches(b, s[i..])
  {
    i :| 0 <= i <= |s| && Matches(a, s[..i]) && Matches(b, s[i..]);
  }

  lemma DashNumber(s: string)
    ensures Matches(Cat(Literal('-'), Digits1to5), s) <==> s != "" && s[0] == '-' && Number(s[1..])
  {
    if s != "" && s[0] == '-' && Number(s[1..]) {
      assert s == "-" + s[1..];
      CatMatches(Literal('-'), Digits1to5, "-", s[1..]);
    }
    if Matches(Cat(Literal('-'), Digits1to5), s) {
      var i := CatSplits(Literal('-'), Digits1to5, s);
      assert s[..i] == "-" && s[1..] == s[i..];
      assert s[0] == s[..i][0];
    }
  }

  lemma StarSplits(s: string) returns (j: nat)
    requires Matches(DASHED, s) && s != ""
    ensures 0 < j <= |s| && Matches(Cat(Literal('-'), Digits1to5), s[..j]) && Matches(DASHED, s[j..])
  {
    j :| 0 < j <= |s| && Matches(Cat(Literal('-'), Digits1to5), s[..j]) && Matches(DASHED, s[j..]);
  }

  lemma NumberIs(s: string)
    ensures Matches(Digits1to5, s) <==> Number(s)
  {
  }

  lemma {:induction false} OnlyNumbers(s: string)
    requires Matches(Cat(Digits1to5, DASHED), s)
    ensures Numbers(s)
    decreases |s|
  {
    hide Matches;
    var i := CatSplits(Digits1to5, DASHED, s);
    NumberIs(s[..i]);
    if i == |s| {
      assert s[..i] == s;
    } else {
      var j := StarSplits(s[i..]);
      DashNumber(s[i..][..j]);
      var rest := s[i + 1..];
      assert s[i..][..j][1..] == rest[..j - 1] && s[i..][j..] == rest[j - 1..];
      NumberIs(rest[..j - 1]);
      CatMatches(Digits1to5, DASHED, rest[..j - 1], rest[j - 1..]);
      assert rest[..j - 1] + rest[j - 1..] == rest;
      OnlyNumbers(rest);
      assert s[i] == s[i..][..j][0];
    }
  }

  lemma NumberFirst(front: string, rest: string)
    requires Number(front) && Matches(Cat(Digits1to5, DASHED), rest)
    ensures Matches(Cat(Digits1to5, DASHED), front + ("-" + rest))
  {
    hide Matches;
    var k := CatSplits(Digits1to5, DASHED, rest);
    var number, more := rest[..k], rest[k..];
    NumberIs(front);
    NumberIs(number);
    DashNumber("-" + number);
    assert ("-" + number)[1..] == number;
    StarTurns("-" + number, more);
    CatMatches(Digits1to5, DASHED, front, "-" + number + more);
    assert "-" + number + more == "-" + rest by { assert number + more == rest; }
  }

  lemma {:induction false} AllNumbers(s: string)
    requires Numbers(s)
    ensures Matches(Cat(Digits1to5, DASHED), s)
    decreases |s|
  {
    hide Matches, Number;
    NumberIs(s);
    if Number(s) {
      StarStops();
      CatMatches(Digits1to5, DASHED, s, "");
      assert s + "" == s;
    } else {
      var i :| 0 <= i < |s| && s[i] == '-' && Number(s[..i]) && Numbers(s[i + 1..]);
      AllNumbers(s[i + 1..]);
      NumberFirst(s[..i], s[i + 1..]);
      assert s == s[..i] + ("-" + s[i + 1..]);
    }
  }

  lemma FieldIs(s: string)
    ensures Matches(FIELD, s) <==> s != "" && s[0] == ',' && EmptyOrNumbers(s[1..])
  {
    hide Numbers;
    if s != "" && s[0] == ',' && EmptyOrNumbers(s[1..]) {
      if s[1..] != "" {
        AllNumbers(s[1..]);
      }
      assert Matches(LIST, s[1..]);
      DashMatches();
      CatMatches(Literal(','), LIST, ",", s[1..]);
      assert s == "," + s[1..];
    }
    if Matches(FIELD, s) {
      var i := CatSplits(Literal(','), LIST, s);
      assert s[..i] == "," && s[1..] == s[i..];
      assert s[0] == s[..i][0];
      if s[1..] != "" {
        OnlyNumbers(s[1..]);
      }
    }
  }

  function FieldsPattern(n: nat): Regex {
    if n < 2 then FIELD else Cat(FIELD, FieldsPattern(n - 1))
  }

  lemma {:induction false} CommaFieldsIs(s: string, n: nat)
    ensures Matches(FieldsPattern(n), s) <==> CommaFields(s, n)
    decreases n
  {
    hide Matches, EmptyOrNumbers;
    if n < 2 {
      FieldIs(s);
    } else {
      if Matches(FieldsPattern(n), s) {
        var k := CatSplits(FIELD, FieldsPattern(n - 1), s);
        FieldIs(s[..k]);
        CommaFieldsIs(s[k..], n - 1);
        assert s[..k][1..] == s[1..k] && s[..k][0] == s[0];
      }
      if CommaFields(s, n) {
        var k :| 0 < k <= |s| && s[0] == ',' && EmptyOrNumbers(s[1..k]) && CommaFields(s[k..], n - 1);
        FieldIs(s[..k]);
        CommaFieldsIs(s[k..], n - 1);
        assert s[..k][1..] == s[1..k] && s[..k][0] == s[0];
        CatMatches(FIELD, FieldsPattern(n - 1), s[..k], s[k..]);
        assert s[..k] + s[k..] == s;
      }
    }
  }

  lemma CanonicalPattern()
    ensures CANONICAL == Cat(Digits1to5, FieldsPattern(4))
  {
    assert FieldsPattern(2) == Cat(FIELD, FIELD);
    assert FieldsPattern(3) == Cat(FIELD, FieldsPattern(2));
  }

  /** The pattern accepts exactly the strings of five such fields. */
  lemma CanonicalIff(s: string)
    ensures Matches(CANONICAL, s) <==> FiveFields(s)
  {
    hide Matches, Number, CommaFields, FieldsPattern;
    CanonicalPattern();
    if Matches(CANONICAL, s) {
      var i := CatSplits(Digits1to5, FieldsPattern(4), s);
      NumberIs(s[..i]);
      CommaFieldsIs(s[i..], 4);
    }
    if FiveFields(s) {
      var i :| 0 <= i <= |s| && Number(s[..i]) && CommaFields(s[i..], 4);
      NumberIs(s[..i]);
      CommaFieldsIs(s[i..], 4);
      CatMatches(Digits1to5, FieldsPattern(4), s[..i], s[i..]);
      assert s[..i] + s[i..] == s;
    }
  }

  /* ---- the scrubber ---- */

  /** The ASCII white space that `str.strip` removes. */
  predicate IsSpace(c: char) {
    c in {' ', '\t', '\n', '\r'}
  }

  function Strip(s: string): string {
    if s == "" then ""
    else if IsSpace(s[0]) then Strip(s[1..])
    else if IsSpace(s[|s| - 1]) then Strip(s[..|s| - 1])
    else s
  }

  ghost predicate Blank(s: string) {
    forall i | 0 <= i < |s| :: s[i] == ' ' || s[i] == '\t' || s[i] == '\n' || s[i] == '\r'
  }

  /** Stripping takes blanks off both ends, and leaves none there. */
  lemma {:induction false} StripTakesBlanks(s: string) returns (before: string, after: string)
    ensures s == before + Strip(s) + after && Blank(before) && Blank(after)
    ensures var t := Strip(s); t != "" ==> !Blank(t[..1]) && !Blank(t[|t| - 1..])
  {
    hide *;
    StripNext(s);
    before, after := "", "";
    if s == "" {
      NothingToStrip();
    } else if IsSpace(s[0]) {
      before, after := StripTakesBlanks(s[1..]);
      BlankMore(s[0], before, "");
      PutBack(s[0], before, Strip(s[1..]), after);
      assert s == [s[0]] + s[1..];
      before := [s[0]] + before;
    } else if IsSpace(s[|s| - 1]) {
      before, after := StripTakesBlanks(s[..|s| - 1]);
      BlankMore(s[|s| - 1], "", after);
      PutLast(before, Strip(s[..|s| - 1]), after, s[|s| - 1]);
      assert s == s[..|s| - 1] + [s[|s| - 1]];
      after := after + [s[|s| - 1]];
    } else {
      NothingToStrip();
      NotBlankEnds(s);
      assert s == "" + s + "";
    }
  }

  lemma StripNext(s: string)
    ensures Strip(s) == if s == "" then "" else if IsSpace(s[0]) then Strip(s[1..])
                        else if IsSpace(s[|s| - 1]) then Strip(s[..|s| - 1]) else s
  {
    hide IsSpace;
  }

  lemma NothingToStrip()
    ensures Blank("") && "" + "" + "" == ""
  {
  }

  lemma BlankMore(c: char, before: string, after: string)
    requires IsSpace(c) && Blank(before) && Blank(after)
    ensures Blank([c] + before) && Blank(after + [c])
  {
  }

  lemma NotBlankEnds(s: string)
    requires s != "" && !IsSpace(s[0]) && !IsSpace(s[|s| - 1])
    ensures !Blank(s[..1]) && !Blank(s[|s| - 1..])
  {
    assert s[..1][0] == s[0] && s[|s| - 1..][0] == s[|s| - 1];
  }

  lemma PutBack(c: char, before: string, t: string, after: string)
    ensures [c] + (before + t + after) == [c] + before + t + after
  {
  }

  lemma PutLast(before: string, t: string, after: string, c: char)
    ensures before + t + after + [c] == before + t + (after + [c])
  {
  }

  const TAG := "[non-canonical-ja3] "

  /** `scrub_ja3_string`; `scrub` stands for the general text scrubber. */
  ghost function ScrubJa3(value: Option<string>, scrub: string -> string): Option<string> {
    if value.None? then None
    else
      var text := Strip(value.value);
      if Matches(CANONICAL, text) then Some(text) else Some(TAG + scrub(text))
  }

  lemma PrintHasNoSpace(f: Ja3Fields)
    ensures Strip(Print(f)) == Print(f)
  {
    hide Dashed, Decimal;
    var s := Print(f);
    DecimalDigits(f.version);
    assert s[0] == Decimal(f.version)[0];
    LastOfDashed(f.formats);
    var last := "," + Dashed(f.formats);
    assert s[|s| - 1] == last[|last| - 1];
  }

  lemma {:induction false} LastOfDashed(xs: seq<nat>)
    ensures var s := "," + Dashed(xs); s[|s| - 1] == ',' || IsDigit(s[|s| - 1])
    ensures xs != [] ==> Dashed(xs) != "" && IsDigit(Dashed(xs)[|Dashed(xs)| - 1])
  {
    if xs != [] {
      DecimalDigits(xs[0]);
      LastOfDashed(xs[1..]);
    }
  }

  /** The scrubber returns every string that the extractor builds unchanged. */
  lemma ScrubKeepsPrinted(f: Ja3Fields, scrub: string -> string)
    ensures ScrubJa3(Some(Print(f)), scrub) == Some(Print(f))
  {
    hide Print, Matches, Strip;
    PrintIsCanonical(f);
    PrintHasNoSpace(f);
  }

  lemma CanonicalStartsWithDigit(s: string)
    requires Matches(CANONICAL, s)
    ensures s != "" && IsDigit(s[0])
  {
    var i :| 0 <= i <= |s| && Matches(Digits1to5, s[..i]);
    assert s[..i][0] == s[0];
  }

  lemma TaggedIsNotCanonical(text: string)
    ensures !Matches(CANONICAL, TAG + text)
  {
    hide Matches;
    assert (TAG + text)[0] == '[' && !IsDigit('[');
    if Matches(CANONICAL, TAG + text) {
      CanonicalStartsWithDigit(TAG + text);
    }
  }

  /** The result is canonical exactly when the stripped input was: a tagged value is never mistaken for one. */
  lemma ScrubResultCanonicalIff(value: string, scrub: string -> string)
    ensures var r := ScrubJa3(Some(value), scrub);
            r.Some? && (Matches(CANONICAL, r.value) <==> Matches(CANONICAL, Strip(value)))
            && r.value == if Matches(CANONICAL, r.value) then Strip(value)
                          else "[non-canonical-ja3] " + scrub(Strip(value))
  {
    hide Matches, Strip;
    TaggedIsNotCanonical(scrub(Strip(value)));
  }

  /* ---- reading a JA3 string back ---- */

  function ReadDecimal(s: string): nat {
    if s == "" then 0
    else ReadDecimal(s[..|s| - 1]) * 10 + (if IsDigit(s[|s| - 1]) then s[|s| - 1] as int - '0' as int else 0)
  }

  /** Position of the first `c`, or the length of `s`. */
  function Find(s: string, c: char): (i: nat)
    ensures i <= |s|
  {
    if s == "" || s[0] == c then 0 else 1 + Find(s[1..], c)
  }

  function ReadDashed(s: string): seq<nat>
    decreases |s|
  {
    if s == "" then []
    else
      var i := Find(s, '-');
      [ReadDecimal(s[..i])] + (if i < |s| then ReadDashed(s[i + 1..]) else [])
  }

  function Split(s: string): seq<string>
    decreases |s|
  {
    var i := Find(s, ',');
    if i < |s| then [s[..i]] + Split(s[i + 1..]) else [s]
  }

  lemma {:induction false} DecimalReads(n: nat)
    ensures ReadDecimal(Decimal(n)) == n
  {
    if n < 10 {
      assert Decimal(n)[..0] == "";
    } else {
      DecimalReads(n / 10);
      var s := Decimal(n);
      assert s[..|s| - 1] == Decimal(n / 10);
    }
  }

  lemma {:induction false} FindAfter(a: string, c: char, b: string)
    requires forall i | 0 <= i < |a| :: a[i] != c
    ensures Find(a + [c] + b, c) == |a|
    ensures Find(a, c) == |a|
  {
    if a == "" {
      assert a + [c] + b == [c] + b;
    } else {
      FindAfter(a[1..], c, b);
      assert (a + [c] + b)[1..] == a[1..] + [c] + b;
    }
  }

  lemma {:induction false} DashedHasNoComma(xs: seq<nat>)
    ensures forall i | 0 <= i < |Dashed(xs)| :: Dashed(xs)[i] != ','
  {
    hide Decimal;
    if xs != [] {
      DecimalDigits(xs[0]);
      DashedHasNoComma(xs[1..]);
    }
  }

  lemma ReadDashedStep(d: string, t: string)
    requires d != "" && forall i | 0 <= i < |d| :: IsDigit(d[i])
    ensures ReadDashed(d) == [ReadDecimal(d)]
    ensures ReadDashed(d + "-" + t) == [ReadDecimal(d)] + ReadDashed(t)
  {
    hide ReadDecimal, Find;
    FindAfter(d, '-', t);
    assert d[..|d|] == d;
    var s := d + "-" + t;
    assert s[..|d|] == d && s[|d| + 1..] == t;
  }

  lemma {:induction false} DashedReads(xs: seq<nat>)
    ensures ReadDashed(Dashed(xs)) == xs
  {
    hide Decimal, ReadDecimal, ReadDashed;
    if xs == [] {
      ReadDashedEmpty();
    } else {
      var d, rest := Decimal(xs[0]), xs[1..];
      DecimalDigits(xs[0]);
      DecimalReads(xs[0]);
      DashedReads(rest);
      ReadDashedStep(d, Dashed(rest));
      assert |xs| == 1 ==> xs == [xs[0]];
      assert xs == [xs[0]] + rest;
    }
  }

  lemma ReadDashedEmpty()
    ensures ReadDashed("") == []
  {
  }

  lemma SplitAt(s: string, i: nat)
    requires Find(s, ',') == i <= |s|
    ensures Split(s) == if i < |s| then [s[..i]] + Split(s[i + 1..]) else [s]
  {
    hide Find;
  }

  lemma SplitFirst(a: string, b: string)
    requires forall i | 0 <= i < |a| :: a[i] != ','
    ensures Split(a + ("," + b)) == [a] + Split(b)
    ensures Split(a) == [a]
  {
    hide Find;
    FindAfter(a, ',', b);
    var s := a + ("," + b);
    assert s == a + [','] + b;
    assert s[..|a|] == a && s[|a| + 1..] == b;
    SplitAt(s, |a|);
    SplitAt(a, |a|);
  }

  /** The five components, read back from the printed string. */
  lemma PrintReads(f: Ja3Fields)
    ensures var parts := Split(Print(f));
            && |parts| == 5
            && ReadDecimal(parts[0]) == f.version
            && ReadDashed(parts[1]) == f.ciphers && ReadDashed(parts[2]) == f.extensions
            && ReadDashed(parts[3]) == f.groups && ReadDashed(parts[4]) == f.formats
  {
    hide Decimal, Dashed, Split, ReadDecimal, ReadDashed;
    DecimalDigits(f.version);
    DecimalReads(f.version);
    DashedReads(f.ciphers);
    DashedReads(f.extensions);
    DashedReads(f.groups);
    DashedReads(f.formats);
    DashedHasNoComma(f.ciphers);
    DashedHasNoComma(f.extensions);
    DashedHasNoComma(f.groups);
    DashedHasNoComma(f.formats);
    var v, c, e, g, p := Decimal(f.version), Dashed(f.ciphers), Dashed(f.extensions),
                         Dashed(f.groups), Dashed(f.formats);
    SplitFirst(v, c + ("," + (e + ("," + (g + ("," + p))))));
    SplitFirst(c, e + ("," + (g + ("," + p))));
    SplitFirst(e, g + ("," + p));
    SplitFirst(g, p);
    SplitFirst(p, "");
  }

  /** Different components give different JA3 strings. */
  lemma PrintIsInjective(a: Ja3Fields, b: Ja3Fields)
    requires Print(a) == Print(b)
    ensures a == b
  {
    hide Print, Split, ReadDecimal, ReadDashed;
    PrintReads(a);
    PrintReads(b);
  }

  /** End to end: two hellos share a JA3 string exactly when they agree up to GREASE in the fingerprinted fields. */
  lemma SameStringIffSameFields(a: Hello, b: Hello)
    requires WellFormed(a) && WellFormed(b)
    ensures Parse(Encode(a)).Some? && Parse(Encode(b)).Some?
    ensures Print(Parse(Encode(a)).value) == Print(Parse(Encode(b)).value) <==> FieldsOf(a) == FieldsOf(b)
  {
    hide Print, Parse, Encode, FieldsOf, WellFormed;
    ParseUndoesEncode(a, []);
    ParseUndoesEncode(b, []);
    assert Encode(a) + [] == Encode(a) && Encode(b) + [] == Encode(b);
    if Print(FieldsOf(a)) == Print(FieldsOf(b)) {
      PrintIsInjective(FieldsOf(a), FieldsOf(b));
    }
  }
}
