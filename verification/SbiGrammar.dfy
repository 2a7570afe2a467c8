/** What the SBI classifiers accept, spelled out character by character. */
module SbiGrammar {
  import opened Bytes
  import opened Regex
  import opened SbiText
  import opened SbiClassifier
  import opened SbiClient

  // ------------------------------------------------------------------ the characters

  predicate Blank(c: char) { c as int in {9, 10, 11, 12, 13, 28, 29, 30, 31, 32, 133, 160} }
  predicate Figure(c: char) { '0' <= c <= '9' }
  predicate Latin(c: char) { 'A' <= c <= 'Z' || 'a' <= c <= 'z' }
  predicate IdPart(c: char) { Latin(c) || Figure(c) || c == ' ' }
  predicate Plusminus(c: char) { c == '+' || c == '-' }
  predicate UnitPart(c: char) { Latin(c) || c == '/' || c == '_' || c == '.' || c == '\U{00B5}' }
  predicate Asks(c: char) { c == '?' }
  predicate Point(c: char) { c == '.' }

  predicate Run(s: string, i: nat, j: nat, p: char -> bool) {
    i <= j <= |s| && forall k :: i <= k < j ==> p(s[k])
  }

  // ------------------------------------------------------------------ the line, from the right

  predicate Ending(s: string, i: nat) { Run(s, i, |s|, Blank) }

  predicate UnitOn(s: string, i: nat) { exists j: nat :: i <= j <= |s| && Run(s, i, j, UnitPart) && Ending(s, j) }

  predicate AfterNumber(s: string, i: nat) { exists j: nat :: i <= j <= |s| && Run(s, i, j, Blank) && UnitOn(s, j) }

  /** Digits, with or without a fraction, whose digits may be missing. */
  predicate IsWhole(s: string, i: nat, j: nat) {
    exists m: nat :: i < m <= j && Run(s, i, m, Figure) && (m == j || (m < |s| && s[m] == '.' && Run(s, m + 1, j, Figure)))
  }

  /** A point and at least one digit. */
  predicate IsFraction(s: string, i: nat, j: nat) { i + 1 < j <= |s| && s[i] == '.' && Run(s, i + 1, j, Figure) }

  predicate IsNumber(s: string, i: nat, j: nat) { i <= j <= |s| && (IsWhole(s, i, j) || IsFraction(s, i, j)) }

  predicate NumberOn(s: string, i: nat) { exists j: nat :: i <= j <= |s| && IsNumber(s, i, j) && AfterNumber(s, j) }

  predicate AfterSign(s: string, i: nat) { exists j: nat :: i <= j <= |s| && Run(s, i, j, Blank) && NumberOn(s, j) }

  predicate SignOn(s: string, i: nat) {
    AfterSign(s, i) || (i < |s| && (s[i] == '+' || s[i] == '-') && AfterSign(s, i + 1))
  }

  /** A letter, at most five letters, digits or blanks, and then at least one space. */
  predicate IsId(s: string, i: nat, j: nat) {
    i < |s| && Latin(s[i]) && exists m: nat :: i + 1 <= m <= i + 6 && m < j <= |s| && Run(s, i + 1, m, IdPart) && Run(s, m, j, Blank)
  }

  predicate IdOn(s: string, i: nat) {
    SignOn(s, i) || exists j: nat :: i <= j <= |s| && IsId(s, i, j) && SignOn(s, j)
  }

  predicate AfterMark(s: string, i: nat) { exists j: nat :: i <= j <= |s| && Run(s, i, j, Blank) && IdOn(s, j) }

  predicate MarkOn(s: string, i: nat) { AfterMark(s, i) || (i < |s| && s[i] == '?' && AfterMark(s, i + 1)) }

  /** A weight line: spaces, a question mark or none, spaces, an id or none, a sign or none, spaces, the
      number, spaces, unit characters, spaces. */
  predicate WeightShape(s: string) { exists j: nat :: j <= |s| && Run(s, 0, j, Blank) && MarkOn(s, j) }

  /** A number and spaces around it. */
  predicate BareShape(s: string) {
    exists i: nat, j: nat :: i <= j <= |s| && Run(s, 0, i, Blank) && IsNumber(s, i, j) && Run(s, j, |s|, Blank)
  }

  // ------------------------------------------------------------------ one part at a time

  lemma Classes(c: char)
    ensures In(Space, c) <==> Blank(c)
    ensures In(Digit, c) <==> Figure(c)
    ensures In(Letter, c) <==> Latin(c)
    ensures In(IdChar, c) <==> IdPart(c)
    ensures In(SignChar, c) <==> Plusminus(c)
    ensures In(UnitChar, c) <==> UnitPart(c)
    ensures In(Query, c) <==> Asks(c)
    ensures In(Dot, c) <==> Point(c)
  {
  }

  function Chars(cls: Class): char -> bool {
    match cls
    case Space => Blank
    case Digit => Figure
    case Letter => Latin
    case IdChar => IdPart
    case SignChar => Plusminus
    case UnitChar => UnitPart
    case Dot => Point
    case Query => Asks
  }

  lemma RunIs(cls: Class, s: string, i: nat, j: nat)
    requires i <= j <= |s|
    ensures Run(s, i, j, Chars(cls)) <==> forall k :: i <= k < j ==> In(cls, s[k])
  {
    forall k | i <= k < j ensures In(cls, s[k]) <==> Chars(cls)(s[k]) { Classes(s[k]); }
  }

  predicate Fits(n: nat, lo: nat, hi: Option<nat>) { lo <= n && (hi.Some? ==> n <= hi.value) }

  /** A run of a class, and then the rest from where it stops. */
  lemma RunThen(cls: Class, lo: nat, hi: Option<nat>, rest: Pattern, s: string, i: nat)
    requires i <= |s|
    ensures Accepts([Many(cls, lo, hi)] + rest, s, i) <==>
      exists j: nat :: i <= j <= |s| && Fits(j - i, lo, hi) && Run(s, i, j, Chars(cls)) && Accepts(rest, s, j)
  {
    hide Accepts, Run, Chars;
    if Accepts([Many(cls, lo, hi)] + rest, s, i) {
      var j := AcceptedRun(cls, lo, hi, rest, s, i);
      RunIs(cls, s, i, j);
      assert Fits(j - i, lo, hi);
    }
    forall j: nat | i <= j <= |s| && Fits(j - i, lo, hi) && Run(s, i, j, Chars(cls)) && Accepts(rest, s, j)
      ensures Accepts([Many(cls, lo, hi)] + rest, s, i)
    {
      RunIs(cls, s, i, j);
      RunReaches(cls, s, i, hi, j);
      RunAccepts(rest, s, i, lo, RunLength(cls, s, i, hi), j - i);
      AcceptsHead(Many(cls, lo, hi), rest, s, i);
    }
  }

  lemma RunReaches(cls: Class, s: string, i: nat, hi: Option<nat>, j: nat)
    requires i <= j <= |s| && (hi.Some? ==> j - i <= hi.value) && forall k :: i <= k < j ==> In(cls, s[k])
    ensures j - i <= RunLength(cls, s, i, hi)
  {
  }

  lemma AnyRunThen(cls: Class, rest: Pattern, s: string, i: nat)
    requires i <= |s|
    ensures Accepts([Many(cls, 0, None)] + rest, s, i) <==>
      exists j: nat :: i <= j <= |s| && Run(s, i, j, Chars(cls)) && Accepts(rest, s, j)
  {
    hide Accepts, Run, Chars;
    RunThen(cls, 0, None, rest, s, i);
    forall j: nat | i <= j <= |s| && Run(s, i, j, Chars(cls)) && Accepts(rest, s, j)
      ensures Accepts([Many(cls, 0, None)] + rest, s, i)
    {
      assert Fits(j - i, 0, None);
    }
  }

  lemma NothingLeft(s: string, i: nat)
    requires i <= |s|
    ensures Accepts([], s, i) <==> i == |s|
  {
  }

  /** Spaces to the end. */
  lemma EndingIff(s: string, i: nat)
    requires i <= |s|
    ensures Accepts([SPACES], s, i) <==> Ending(s, i)
  {
    hide Accepts, Run;
    assert [SPACES] == [SPACES] + [];
    RunThen(Space, 0, None, [], s, i);
    forall j: nat | i <= j <= |s| ensures Accepts([], s, j) <==> j == |s| { NothingLeft(s, j); }
    assert Run(s, i, |s|, Chars(Space)) <==> Ending(s, i);
  }

  // ------------------------------------------------------------------ the number

  /** Digits and then perhaps a fraction. */
  lemma FractionThen(rest: Pattern, s: string, m: nat)
    requires m <= |s|
    ensures Accepts([FRACTION] + rest, s, m) <==>
      Accepts(rest, s, m) || (m < |s| && s[m] == '.' && exists j: nat :: m + 1 <= j <= |s| && Run(s, m + 1, j, Figure) && Accepts(rest, s, j))
  {
    hide Accepts;
    var digits: Pattern := [Many(Digit, 0, None)] + rest;
    AcceptsHead(FRACTION, rest, s, m);
    assert FRACTION.body + rest == [DOT] + digits;
    RunThen(Dot, 1, Some(1), digits, s, m);
    if m < |s| && s[m] == '.' {
      RunThen(Digit, 0, None, rest, s, m + 1);
      assert Run(s, m, m + 1, Chars(Dot));
    }
  }

  lemma FractionTaken(rest: Pattern, s: string, m: nat, j: nat)
    requires m < |s| && s[m] == '.' && Run(s, m + 1, j, Figure) && Accepts(rest, s, j)
    ensures Accepts([FRACTION] + rest, s, m)
  {
    hide Accepts;
    FractionThen(rest, s, m);
  }

  lemma WholeThen(rest: Pattern, s: string, i: nat)
    requires i <= |s|
    ensures Accepts([Many(Digit, 1, None), FRACTION] + rest, s, i) <==>
      exists j: nat :: i <= j <= |s| && IsWhole(s, i, j) && Accepts(rest, s, j)
  {
    hide Accepts, Run;
    assert [Many(Digit, 1, None), FRACTION] + rest == [Many(Digit, 1, None)] + ([FRACTION] + rest);
    RunThen(Digit, 1, None, [FRACTION] + rest, s, i);
    if Accepts([Many(Digit, 1, None), FRACTION] + rest, s, i) {
      var m: nat :| i <= m <= |s| && Fits(m - i, 1, None) && Run(s, i, m, Chars(Digit)) && Accepts([FRACTION] + rest, s, m);
      FractionThen(rest, s, m);
      if Accepts(rest, s, m) {
        assert IsWhole(s, i, m);
      } else {
        var j: nat :| m + 1 <= j <= |s| && Run(s, m + 1, j, Figure) && Accepts(rest, s, j);
        assert IsWhole(s, i, j);
      }
    }
    forall j: nat | i <= j <= |s| && IsWhole(s, i, j) && Accepts(rest, s, j)
      ensures Accepts([Many(Digit, 1, None), FRACTION] + rest, s, i)
    {
      var m: nat :| i < m <= j && Run(s, i, m, Figure) && (m == j || (m < |s| && s[m] == '.' && Run(s, m + 1, j, Figure)));
      FractionThen(rest, s, m);
      if m == j {
        assert Accepts([FRACTION] + rest, s, m);
      } else {
        FractionTaken(rest, s, m, j);
      }
      assert Fits(m - i, 1, None) && Run(s, i, m, Chars(Digit)) && Accepts([FRACTION] + rest, s, m);
    }
  }

  lemma RunBounds(s: string, i: nat, j: nat, p: char -> bool)
    requires Run(s, i, j, p)
    ensures i <= j <= |s|
  {
  }

  lemma PointThen(rest: Pattern, s: string, i: nat)
    requires i <= |s|
    ensures Accepts([DOT, Many(Digit, 1, None)] + rest, s, i) <==>
      exists j: nat :: i <= j <= |s| && IsFraction(s, i, j) && Accepts(rest, s, j)
  {
    hide Accepts;
    var digits: Pattern := [Many(Digit, 1, None)] + rest;
    assert [DOT, Many(Digit, 1, None)] + rest == [DOT] + digits;
    RunThen(Dot, 1, Some(1), digits, s, i);
    if i < |s| {
      RunThen(Digit, 1, None, rest, s, i + 1);
      assert s[i] == '.' ==> Run(s, i, i + 1, Chars(Dot));
    }
  }

  lemma NumberThen(rest: Pattern, s: string, i: nat)
    requires i <= |s|
    ensures Accepts([DECIMAL] + rest, s, i) <==> exists j: nat :: i <= j <= |s| && IsNumber(s, i, j) && Accepts(rest, s, j)
  {
    hide Accepts, IsWhole, IsFraction;
    AcceptsHead(DECIMAL, rest, s, i);
    WholeThen(rest, s, i);
    PointThen(rest, s, i);
    if j: nat :| i <= j <= |s| && IsWhole(s, i, j) && Accepts(rest, s, j) { assert IsNumber(s, i, j); }
    if j: nat :| i <= j <= |s| && IsFraction(s, i, j) && Accepts(rest, s, j) { assert IsNumber(s, i, j); }
  }

  // ------------------------------------------------------------------ the id

  lemma IdThen(rest: Pattern, s: string, i: nat)
    requires i <= |s|
    ensures Accepts(PLAIN_ID + rest, s, i) <==> exists j: nat :: i <= j <= |s| && IsId(s, i, j) && Accepts(rest, s, j)
  {
    hide Accepts;
    var spaced: Pattern := [Many(Space, 1, None)] + rest;
    var parts: Pattern := [Many(IdChar, 0, Some(5))] + spaced;
    assert PLAIN_ID + rest == [Many(Letter, 1, Some(1))] + parts;
    RunThen(Letter, 1, Some(1), parts, s, i);
    if i < |s| { IdPartsThen(rest, s, i + 1); }
    if Accepts(PLAIN_ID + rest, s, i) {
      var a: nat :| i <= a <= |s| && Fits(a - i, 1, Some(1)) && Run(s, i, a, Chars(Letter)) && Accepts(parts, s, a);
      assert a == i + 1 && Latin(s[i]);
      var m: nat, j: nat :| i + 1 <= m <= i + 6 && m < j <= |s| && Run(s, i + 1, m, IdPart) && Run(s, m, j, Blank) && Accepts(rest, s, j);
      assert IsId(s, i, j);
    }
    forall j: nat | i <= j <= |s| && IsId(s, i, j) && Accepts(rest, s, j) ensures Accepts(PLAIN_ID + rest, s, i) {
      assert Accepts(parts, s, i + 1);
      assert Run(s, i, i + 1, Chars(Letter)) && Fits(1, 1, Some(1));
    }
  }

  lemma IdPartsThen(rest: Pattern, s: string, a: nat)
    requires a <= |s|
    ensures Accepts([Many(IdChar, 0, Some(5))] + ([Many(Space, 1, None)] + rest), s, a) <==>
      exists m: nat, j: nat :: a <= m <= a + 5 && m < j <= |s| && Run(s, a, m, IdPart) && Run(s, m, j, Blank) && Accepts(rest, s, j)
  {
    hide Accepts, Run;
    var spaced: Pattern := [Many(Space, 1, None)] + rest;
    RunThen(IdChar, 0, Some(5), spaced, s, a);
    if Accepts([Many(IdChar, 0, Some(5))] + spaced, s, a) {
      var m: nat :| a <= m <= |s| && Fits(m - a, 0, Some(5)) && Run(s, a, m, Chars(IdChar)) && Accepts(spaced, s, m);
      RunThen(Space, 1, None, rest, s, m);
      var j: nat :| m <= j <= |s| && Fits(j - m, 1, None) && Run(s, m, j, Chars(Space)) && Accepts(rest, s, j);
      assert Run(s, a, m, IdPart) && Run(s, m, j, Blank);
    }
    forall m: nat, j: nat | a <= m <= a + 5 && m < j <= |s| && Run(s, a, m, IdPart) && Run(s, m, j, Blank) && Accepts(rest, s, j)
      ensures Accepts([Many(IdChar, 0, Some(5))] + spaced, s, a)
    {
      RunThen(Space, 1, None, rest, s, m);
      assert Fits(j - m, 1, None) && Run(s, m, j, Chars(Space));
      assert Fits(m - a, 0, Some(5)) && Run(s, a, m, Chars(IdChar));
    }
  }

  // ------------------------------------------------------------------ the whole line

  const FROM_PLAIN_UNIT: Pattern := [Many(UnitChar, 0, None)] + [SPACES]
  const FROM_PLAIN_GAP: Pattern := [SPACES] + FROM_PLAIN_UNIT
  const FROM_PLAIN_NUMBER: Pattern := [DECIMAL] + FROM_PLAIN_GAP
  const AFTER_PLAIN_SIGN: Pattern := [SPACES] + FROM_PLAIN_NUMBER
  const FROM_PLAIN_SIGN: Pattern := [Many(SignChar, 0, Some(1))] + AFTER_PLAIN_SIGN
  const FROM_PLAIN_ID: Pattern := [Maybe(PLAIN_ID)] + FROM_PLAIN_SIGN
  const AFTER_PLAIN_MARK: Pattern := [SPACES] + FROM_PLAIN_ID
  const FROM_PLAIN_MARK: Pattern := [Many(Query, 0, Some(1))] + AFTER_PLAIN_MARK

  lemma UnitOnIff(s: string, i: nat)
    requires i <= |s|
    ensures Accepts(FROM_PLAIN_UNIT, s, i) <==> UnitOn(s, i)
  {
    hide Accepts, Run, Ending;
    AnyRunThen(UnitChar, [SPACES], s, i);
    forall j: nat | i <= j <= |s| ensures Accepts([SPACES], s, j) <==> Ending(s, j) { EndingIff(s, j); }
  }

  lemma AfterNumberIff(s: string, i: nat)
    requires i <= |s|
    ensures Accepts(FROM_PLAIN_GAP, s, i) <==> AfterNumber(s, i)
  {
    hide Accepts, Run, UnitOn;
    AnyRunThen(Space, FROM_PLAIN_UNIT, s, i);
    forall j: nat | i <= j <= |s| ensures Accepts(FROM_PLAIN_UNIT, s, j) <==> UnitOn(s, j) { UnitOnIff(s, j); }
  }

  lemma NumberOnIff(s: string, i: nat)
    requires i <= |s|
    ensures Accepts(FROM_PLAIN_NUMBER, s, i) <==> NumberOn(s, i)
  {
    hide Accepts, IsNumber, AfterNumber;
    NumberThen(FROM_PLAIN_GAP, s, i);
    forall j: nat | i <= j <= |s| ensures Accepts(FROM_PLAIN_GAP, s, j) <==> AfterNumber(s, j) { AfterNumberIff(s, j); }
  }

  lemma AfterSignIff(s: string, i: nat)
    requires i <= |s|
    ensures Accepts(AFTER_PLAIN_SIGN, s, i) <==> AfterSign(s, i)
  {
    hide Accepts, Run, NumberOn;
    AnyRunThen(Space, FROM_PLAIN_NUMBER, s, i);
    forall j: nat | i <= j <= |s| ensures Accepts(FROM_PLAIN_NUMBER, s, j) <==> NumberOn(s, j) { NumberOnIff(s, j); }
  }

  /** An optional single character. */
  lemma OptionalThen(cls: Class, rest: Pattern, s: string, i: nat)
    requires i <= |s|
    ensures Accepts([Many(cls, 0, Some(1))] + rest, s, i) <==>
      Accepts(rest, s, i) || (i < |s| && Chars(cls)(s[i]) && Accepts(rest, s, i + 1))
  {
    hide Accepts, Chars;
    RunThen(cls, 0, Some(1), rest, s, i);
    assert Fits(0, 0, Some(1)) && Run(s, i, i, Chars(cls));
    if i < |s| { assert Fits(1, 0, Some(1)) && (Run(s, i, i + 1, Chars(cls)) <==> Chars(cls)(s[i])); }
  }

  lemma SignOnIff(s: string, i: nat)
    requires i <= |s|
    ensures Accepts(FROM_PLAIN_SIGN, s, i) <==> SignOn(s, i)
  {
    hide Accepts, AfterSign;
    OptionalThen(SignChar, AFTER_PLAIN_SIGN, s, i);
    AfterSignIff(s, i);
    if i < |s| { AfterSignIff(s, i + 1); }
  }

  lemma IdOnIff(s: string, i: nat)
    requires i <= |s|
    ensures Accepts(FROM_PLAIN_ID, s, i) <==> IdOn(s, i)
  {
    hide Accepts, IsId, SignOn;
    AcceptsHead(Maybe(PLAIN_ID), FROM_PLAIN_SIGN, s, i);
    IdThen(FROM_PLAIN_SIGN, s, i);
    SignOnIff(s, i);
    forall j: nat | i <= j <= |s| ensures Accepts(FROM_PLAIN_SIGN, s, j) <==> SignOn(s, j) { SignOnIff(s, j); }
  }

  lemma AfterMarkIff(s: string, i: nat)
    requires i <= |s|
    ensures Accepts(AFTER_PLAIN_MARK, s, i) <==> AfterMark(s, i)
  {
    hide Accepts, Run, IdOn;
    AnyRunThen(Space, FROM_PLAIN_ID, s, i);
    forall j: nat | i <= j <= |s| ensures Accepts(FROM_PLAIN_ID, s, j) <==> IdOn(s, j) { IdOnIff(s, j); }
  }

  lemma MarkOnIff(s: string, i: nat)
    requires i <= |s|
    ensures Accepts(FROM_PLAIN_MARK, s, i) <==> MarkOn(s, i)
  {
    hide Accepts, AfterMark;
    OptionalThen(Query, AFTER_PLAIN_MARK, s, i);
    AfterMarkIff(s, i);
    if i < |s| { AfterMarkIff(s, i + 1); }
  }

  /** Both weight patterns accept exactly the weight lines. */
  lemma WeightShapeIff(s: string)
    ensures Accepts(AUTOPRINT, s, 0) <==> WeightShape(s)
    ensures Accepts(WEIGHT, s, 0) <==> WeightShape(s)
    ensures Match(WEIGHT, s, 0).Some? <==> WeightShape(s)
  {
    hide Accepts, Match, Run, MarkOn;
    PatternsAgree(s);
    MatchIffAccepts(WEIGHT, s, 0);
    assert AUTOPRINT == [SPACES] + FROM_PLAIN_MARK;
    AnyRunThen(Space, FROM_PLAIN_MARK, s, 0);
    forall j: nat | j <= |s| ensures Accepts(FROM_PLAIN_MARK, s, j) <==> MarkOn(s, j) { MarkOnIff(s, j); }
  }

  lemma BareShapeIff(s: string)
    ensures Accepts(BARE, s, 0) <==> BareShape(s)
  {
    hide Accepts, Run, IsNumber;
    AnyRunThen(Space, [DECIMAL] + [SPACES], s, 0);
    if Accepts(BARE, s, 0) {
      var i: nat :| i <= |s| && Run(s, 0, i, Chars(Space)) && Accepts([DECIMAL] + [SPACES], s, i);
      NumberThen([SPACES], s, i);
      var j: nat :| i <= j <= |s| && IsNumber(s, i, j) && Accepts([SPACES], s, j);
      EndingIff(s, j);
      assert Run(s, 0, i, Blank) && Run(s, j, |s|, Blank);
    }
    forall i: nat, j: nat | i <= j <= |s| && Run(s, 0, i, Blank) && IsNumber(s, i, j) && Run(s, j, |s|, Blank)
      ensures Accepts(BARE, s, 0)
    {
      EndingIff(s, j);
      NumberThen([SPACES], s, i);
      assert Run(s, 0, i, Chars(Space));
    }
  }

  // ------------------------------------------------------------------ blank and padded lines

  predicate AllBlank(s: string) { forall k :: 0 <= k < |s| ==> Blank(s[k]) }

  /** Some text, and no space at either end. */
  predicate Unpadded(s: string) { s != "" && !Blank(s[0]) && !Blank(s[|s| - 1]) }

  lemma {:induction false} StripLeftBlank(s: string)
    ensures AllBlank(s) <==> StripLeft(s) == ""
    ensures StripLeft(s) != "" ==> !Blank(StripLeft(s)[0]) && StripLeft(s)[|StripLeft(s)| - 1] == s[|s| - 1]
    ensures s != "" && !Blank(s[0]) ==> StripLeft(s) == s
    ensures |StripLeft(s)| <= |s|
  {
    if s != "" {
      Classes(s[0]);
      if Blank(s[0]) {
        StripLeftBlank(s[1..]);
        assert AllBlank(s) <==> AllBlank(s[1..]) by {
          if AllBlank(s[1..]) { forall k | 0 <= k < |s| ensures Blank(s[k]) { if k > 0 { assert Blank(s[1..][k - 1]); } } }
        }
      }
    }
  }

  lemma {:induction false} StripRightBlank(s: string)
    requires s != "" && !Blank(s[0])
    ensures StripRight(s) != "" && |StripRight(s)| <= |s|
    ensures StripRight(s) == s <==> !Blank(s[|s| - 1])
  {
    Classes(s[|s| - 1]);
    Classes(s[0]);
    if Blank(s[|s| - 1]) { StripRightBlank(s[..|s| - 1]); }
  }

  lemma StripIs(s: string)
    ensures Strip(s) == "" <==> AllBlank(s)
    ensures !AllBlank(s) ==> (s == Strip(s) <==> Unpadded(s))
  {
    StripLeftBlank(s);
    if StripLeft(s) != "" {
      StripRightBlank(StripLeft(s));
      if Blank(s[0]) { StripLeftShrinks(s); }
    }
  }

  lemma StripLeftShrinks(s: string)
    requires s != "" && Blank(s[0])
    ensures |StripLeft(s)| < |s|
  {
    Classes(s[0]);
    StripLeftBlank(s[1..]);
  }

  // ------------------------------------------------------------------ the two classifiers

  /** Only a number, from the middle of a line: nothing around it, or too short to be a padded display. */
  predicate Fragment(s: string) { BareShape(s) && (Unpadded(s) || |s| < 14) }

  /** Exactly the lines taken for autoprint output. */
  lemma AutoprintIff(line: bytes)
    ensures var text := DecodeReplace(StripTerminator(line));
      var marker := StatusMarker(Strip(text));
      IsAutoprintLine(line) <==>
        && !AllBlank(text) && !Fragment(text)
        && (WeightShape(text)
            || marker in {"CAL. EXT.", "CAL. INT.", "CAL.INT.", "H", "HH", "HIGH", "HI", "L", "LL", "LOW"})
  {
    hide Accepts, WeightShape, BareShape, AllBlank, Unpadded, Strip, StatusMarker, DecodeReplace, StripTerminator;
    var text := DecodeReplace(StripTerminator(line));
    StripIs(text);
    WeightShapeIff(text);
    BareShapeIff(text);
  }

  predicate RefusalText(marker: string) {
    || marker in {"APP. ERR", "DIS. ERR", "ERR", "ERROR", "INVALID", "NO", "PRT. ERR", "REJECT", "REJECTED"}
    || "ERR " <= marker
  }

  /** The kind of every line: None for one that is not ASCII. */
  lemma KindIs(line: bytes)
    ensures var text := DecodeReplace(StripTerminator(line));
      var marker := StatusMarker(Strip(text));
      var kind := ParseKind(line);
      var refused := RefusalText(marker);
      var calibrating := marker in {"CAL. EXT.", "CAL. INT.", "CAL.INT."};
      var ranged := marker in {"H", "HH", "HIGH", "HI", "OVER", "OVERLOAD", "OL", "L", "LL", "LOW", "UNDER", "UNDERLOAD", "UL"};
      && (kind.None? <==> exists k :: 0 <= k < |StripTerminator(line)| && StripTerminator(line)[k] >= 128)
      && (kind == Some(Empty) <==> kind.Some? && AllBlank(text))
      && (kind == Some(Refusal) <==> kind.Some? && !AllBlank(text) && refused)
      && (kind == Some(Unknown) <==> kind.Some? && !AllBlank(text) && !refused && calibrating)
      && (kind == Some(Weight) <==>
            kind.Some? && !AllBlank(text) && !refused && !calibrating && (ranged || (WeightShape(text) && !Fragment(text))))
  {
    hide Accepts, Match, WeightShape, BareShape, AllBlank, Unpadded, Strip, StatusMarker, DecodeReplace, StripTerminator, Entered;
    var text := DecodeReplace(StripTerminator(line));
    StripIs(text);
    WeightShapeIff(text);
    BareShapeIff(text);
    BareTestsAgree(text);
  }

  // ------------------------------------------------------------------ terminators and markers

  /** One CRLF goes; of a bare LF so do the carriage returns before it; a line without either stays. */
  lemma TerminatorIs(text: bytes)
    requires text == [] || text[|text| - 1] != CR
    ensures StripTerminator(text + [13, 10]) == text && StripTerminator(text + [10]) == text
    ensures text == [] || text[|text| - 1] != 10 ==> StripTerminator(text) == text
  {
    assert (text + [13, 10])[|text|..] == [13, 10] && (text + [13, 10])[..|text|] == text;
    assert (text + [10])[|text|..] == [10] && (text + [10])[..|text|] == text;
    if text != [] {
      assert (text + [10])[|text| - 1..] == [text[|text| - 1], 10];
      assert text[|text| - 1..] == [text[|text| - 1]];
      if |text| > 1 { assert text[|text| - 2..] == [text[|text| - 2], text[|text| - 1]]; }
    }
  }

  predicate IsWord(w: string) { w != "" && forall k :: 0 <= k < |w| ==> !Blank(w[k]) }

  /** Words with one space between them. */
  function Joined(words: seq<string>): string {
    if words == [] then "" else if |words| == 1 then words[0] else words[0] + " " + Joined(words[1..])
  }

  /** Words, each with some spaces before it, and spaces at the end. */
  function Spaced(gaps: seq<string>, words: seq<string>, end: string): string
    requires |gaps| == |words|
  {
    if words == [] then end else gaps[0] + words[0] + Spaced(gaps[1..], words[1..], end)
  }

  predicate SpacedOut(gaps: seq<string>, words: seq<string>, end: string) {
    && |gaps| == |words| && AllBlank(end)
    && (forall k :: 0 <= k < |words| ==> IsWord(words[k]) && AllBlank(gaps[k]))
    && forall k :: 1 <= k < |gaps| ==> gaps[k] != ""
  }

  lemma {:induction false} BlanksVanish(gap: string, rest: string)
    requires AllBlank(gap)
    ensures JoinWords(gap + rest) == JoinWords(rest)
  {
    if gap == "" {
      assert gap + rest == rest;
    } else {
      Classes(gap[0]);
      assert (gap + rest)[0] == gap[0] && (gap + rest)[1..] == gap[1..] + rest;
      BlanksVanish(gap[1..], rest);
    }
  }

  lemma {:induction false} WordEnds(w: string, rest: string)
    requires forall k :: 0 <= k < |w| ==> !Blank(w[k])
    requires rest == "" || Blank(rest[0])
    ensures WordEnd(w + rest) == |w|
  {
    if w == "" {
      assert w + rest == rest;
      if rest != "" { Classes(rest[0]); }
    } else {
      Classes(w[0]);
      assert (w + rest)[0] == w[0] && (w + rest)[1..] == w[1..] + rest;
      WordEnds(w[1..], rest);
    }
  }

  /** However the words are spaced out, they end up with one space between them. */
  lemma {:induction false} WordsJoin(gaps: seq<string>, words: seq<string>, end: string)
    requires SpacedOut(gaps, words, end)
    ensures JoinWords(Spaced(gaps, words, end)) == Joined(words)
    decreases |words|
  {
    if words == [] {
      BlanksVanish(end, "");
      assert end + "" == end;
    } else {
      var w, rest := words[0], Spaced(gaps[1..], words[1..], end);
      assert gaps[0] + w + rest == gaps[0] + (w + rest);
      BlanksVanish(gaps[0], w + rest);
      if |words| > 1 { assert rest[0] == gaps[1][0] && Blank(gaps[1][0]); } else { assert rest == end; }
      WordEnds(w, rest);
      Classes(w[0]);
      assert (w + rest)[..|w|] == w && (w + rest)[|w|..] == rest;
      WordsJoin(gaps[1..], words[1..], end);
      if |words| > 1 { JoinedIsText(words[1..]); } else { assert w + "" == w; }
    }
  }

  lemma JoinedIsText(words: seq<string>)
    requires words != [] && forall k :: 0 <= k < |words| ==> IsWord(words[k])
    ensures Joined(words) != ""
  {
  }

  // ------------------------------------------------------------------ the marker of a line

  function Capital(c: char): char { if 'a' <= c <= 'z' then (c as int - 32) as char else c }

  predicate IsCapitals(up: string, s: string) { |up| == |s| && forall k :: 0 <= k < |s| ==> up[k] == Capital(s[k]) }

  lemma UpperIs(s: string)
    ensures IsCapitals(Upper(s), s)
    ensures AllBlank(Upper(s)) <==> AllBlank(s)
    ensures IsWord(Upper(s)) <==> IsWord(s)
  {
    forall k | 0 <= k < |s| ensures Upper(s)[k] == Capital(s[k]) && (Blank(Upper(s)[k]) <==> Blank(s[k])) {}
  }

  lemma UpperAppend(a: string, b: string)
    ensures Upper(a + b) == Upper(a) + Upper(b)
  {
  }

  function Uppers(words: seq<string>): (up: seq<string>)
    ensures |up| == |words| && forall k :: 0 <= k < |words| ==> up[k] == Upper(words[k])
  {
    seq(|words|, k requires 0 <= k < |words| => Upper(words[k]))
  }

  lemma {:induction false} UpperSpaced(gaps: seq<string>, words: seq<string>, end: string)
    requires |gaps| == |words|
    ensures Upper(Spaced(gaps, words, end)) == Spaced(Uppers(gaps), Uppers(words), Upper(end))
    decreases |words|
  {
    hide Upper;
    if words != [] {
      UpperSpaced(gaps[1..], words[1..], end);
      assert Uppers(gaps)[1..] == Uppers(gaps[1..]) && Uppers(words)[1..] == Uppers(words[1..]);
      UpperAppend(gaps[0] + words[0], Spaced(gaps[1..], words[1..], end));
      UpperAppend(gaps[0], words[0]);
    }
  }

  lemma UpperSpacedOut(gaps: seq<string>, words: seq<string>, end: string)
    requires SpacedOut(gaps, words, end)
    ensures SpacedOut(Uppers(gaps), Uppers(words), Upper(end))
  {
    hide AllBlank, IsWord;
    UpperIs(end);
    forall k | 0 <= k < |words| ensures IsWord(Uppers(words)[k]) && AllBlank(Uppers(gaps)[k]) {
      UpperIs(words[k]);
      UpperIs(gaps[k]);
    }
  }

  lemma {:induction false} JoinedEnds(words: seq<string>)
    requires words != [] && forall k :: 0 <= k < |words| ==> IsWord(words[k])
    ensures Unpadded(Joined(words))
    ensures Joined(words)[0] == words[0][0]
    decreases |words|
  {
    if |words| > 1 { JoinedEnds(words[1..]); }
  }

  lemma StripUnpadded(s: string)
    requires Unpadded(s)
    ensures Strip(s) == s
  {
    StripIs(s);
  }

  /** A leading `STAT` and the space after it. */
  lemma StatLeads(words: seq<string>)
    requires words != [] && forall k :: 0 <= k < |words| ==> IsWord(words[k])
    ensures "STAT " <= Joined(words) <==> |words| > 1 && words[0] == "STAT"
    ensures |words| > 1 && words[0] == "STAT" ==> Joined(words)[5..] == Joined(words[1..])
  {
    if |words| == 1 {
      NoSpaceInside(words[0]);
    } else {
      StatWord(words[0], Joined(words[1..]));
      assert Joined(words) == words[0] + " " + Joined(words[1..]);
    }
  }

  lemma NoSpaceInside(w: string)
    requires IsWord(w)
    ensures !("STAT " <= w)
  {
    assert "STAT "[4] == ' ' && Blank(' ');
  }

  lemma StatWord(w: string, rest: string)
    requires IsWord(w)
    ensures "STAT " <= w + " " + rest <==> w == "STAT"
    ensures w == "STAT" ==> (w + " " + rest)[5..] == rest
  {
    var all := w + " " + rest;
    assert all[|w|] == ' ' && Blank(' ') && all[..|w|] == w;
    assert "STAT "[4] == ' ' && forall k :: 0 <= k < 4 ==> !Blank("STAT "[k]);
    if "STAT " <= all {
      assert all[..5] == "STAT ";
      assert forall k :: 0 <= k < 5 ==> all[k] == "STAT "[k];
      assert |w| == 4;
      assert w == all[..4] == "STAT";
    }
  }

  /** The marker a line is compared by: its words in capitals with one space between them, without a
      leading `STAT`. */
  lemma MarkerIs(gaps: seq<string>, words: seq<string>, end: string)
    requires SpacedOut(gaps, words, end)
    ensures var up := Uppers(words);
      StatusMarker(Spaced(gaps, words, end)) == Joined(if |up| > 1 && up[0] == "STAT" then up[1..] else up)
  {
    hide AllBlank, IsWord, Joined, Spaced, Strip, Upper, Unpadded;
    var up := Uppers(words);
    UpperSpaced(gaps, words, end);
    UpperSpacedOut(gaps, words, end);
    WordsJoin(Uppers(gaps), up, Upper(end));
    if words == [] {
      NoWords();
    } else {
      StatLeads(up);
      if |up| > 1 {
        JoinedEnds(up[1..]);
        StripUnpadded(Joined(up[1..]));
      }
    }
  }

  lemma NoWords()
    ensures Joined([]) == "" && !("STAT " <= "")
  {
  }

  // ------------------------------------------------------------------ spaces around a line

  lemma {:induction false} SpacedEnd(gaps: seq<string>, words: seq<string>, end: string)
    requires |gaps| == |words|
    ensures Spaced(gaps, words, end) == Spaced(gaps, words, "") + end
    decreases |words|
  {
    if words != [] { SpacedEnd(gaps[1..], words[1..], end); }
  }

  lemma {:induction false} StripLeftGap(gap: string, rest: string)
    requires AllBlank(gap) && (rest == "" || !Blank(rest[0]))
    ensures StripLeft(gap + rest) == rest
  {
    if gap == "" {
      assert gap + rest == rest;
      if rest != "" { Classes(rest[0]); }
    } else {
      Classes(gap[0]);
      assert (gap + rest)[0] == gap[0] && (gap + rest)[1..] == gap[1..] + rest;
      StripLeftGap(gap[1..], rest);
    }
  }

  lemma {:induction false} StripRightGap(text: string, gap: string)
    requires AllBlank(gap) && (text == "" || !Blank(text[|text| - 1]))
    ensures StripRight(text + gap) == text
    decreases |gap|
  {
    if gap == "" {
      assert text + gap == text;
      if text != "" { Classes(text[|text| - 1]); }
    } else {
      var n := |gap| - 1;
      Classes(gap[n]);
      assert (text + gap)[|text| + n] == gap[n] && (text + gap)[..|text| + n] == text + gap[..n];
      StripRightGap(text, gap[..n]);
    }
  }

  lemma {:induction false} EndsInText(gaps: seq<string>, words: seq<string>)
    requires |gaps| == |words| > 0 && forall k :: 0 <= k < |words| ==> IsWord(words[k])
    ensures var text := Spaced(gaps, words, ""); text != "" && !Blank(text[|text| - 1])
    decreases |words|
  {
    var rest := Spaced(gaps[1..], words[1..], "");
    if |words| > 1 { EndsInText(gaps[1..], words[1..]); }
    hide Spaced;
    assert words[0] != "" && !Blank(words[0][|words[0]| - 1]);
  }

  lemma SpacedEnds(gaps: seq<string>, words: seq<string>)
    requires |gaps| == |words| > 0 && gaps[0] == "" && forall k :: 0 <= k < |words| ==> IsWord(words[k])
    ensures Unpadded(Spaced(gaps, words, ""))
  {
    EndsInText(gaps, words);
    assert Spaced(gaps, words, "") == words[0] + Spaced(gaps[1..], words[1..], "");
    assert !Blank(words[0][0]);
    hide Spaced;
  }

  /** Stripping takes the outer spaces and nothing else, and the marker does not depend on them. */
  lemma StrippedMarkerIs(gaps: seq<string>, words: seq<string>, end: string)
    requires SpacedOut(gaps, words, end) && words != []
    ensures var bare := [""] + gaps[1..];
      && Strip(Spaced(gaps, words, end)) == Spaced(bare, words, "")
      && StatusMarker(Strip(Spaced(gaps, words, end))) == StatusMarker(Spaced(gaps, words, end))
  {
    hide StatusMarker, AllBlank, IsWord, StripLeft, StripRight;
    var bare := [""] + gaps[1..];
    NoBlanks();
    assert SpacedOut(bare, words, "");
    SpacedEnds(bare, words);
    SpacedEnd(gaps, words, end);
    assert bare[1..] == gaps[1..];
    var core := Spaced(bare, words, "");
    assert Spaced(gaps, words, end) == gaps[0] + (core + end);
    StripLeftGap(gaps[0], core + end);
    StripRightGap(core, end);
    MarkerIs(gaps, words, end);
    MarkerIs(bare, words, "");
  }

  lemma NoBlanks()
    ensures AllBlank("")
  {
  }

  // ------------------------------------------------------------------ whole replies

  /** The weight line parser calls a line off the scale exactly by its marker. */
  lemma OffScaleIff(line: bytes)
    ensures var r, marker := ParseWeightLine(line), StatusMarker(Strip(DecodeReplace(StripTerminator(line))));
      var over := marker in {"H", "HH", "HIGH", "HI", "OVER", "OVERLOAD", "OL"};
      var under := marker in {"L", "LL", "LOW", "UNDER", "UNDERLOAD", "UL"};
      && (r.OffScale? <==> over || under)
      && (r.OffScale? ==> r.overload == over && r.underload == under)
      && (r.Weighed? <==> !over && !under && WeightShape(DecodeReplace(StripTerminator(line))))
  {
    hide Match, Accepts, WeightShape, StatusMarker, Strip, DecodeReplace, StripTerminator;
    var text := DecodeReplace(StripTerminator(line));
    WeightShapeIff(text);
    if Match(WEIGHT, text, 0).Some? { MatchedNumberIsDecimal(text); }
  }

  /** A line of a reply that says no. */
  predicate SaysNo(line: bytes) {
    var text := DecodeReplace(StripTerminator(line));
    !AllBlank(text) && RefusalText(StatusMarker(Strip(text)))
  }

  lemma {:induction false} KindsAre(pieces: seq<bytes>)
    ensures Kinds(pieces).Some? <==> forall i :: 0 <= i < |pieces| ==> ParseKind(pieces[i]).Some?
    ensures Kinds(pieces).Some? ==> (Refusal in Kinds(pieces).value <==> exists i :: 0 <= i < |pieces| && SaysNo(pieces[i]))
    ensures Kinds(pieces).Some? ==> |Kinds(pieces).value| == |pieces|
  {
    hide ParseKind, SaysNo;
    if pieces != [] {
      KindsAre(pieces[1..]);
      RefusalIs(pieces[0]);
      assert forall i :: 1 <= i < |pieces| ==> pieces[i] == pieces[1..][i - 1];
      assert forall i :: 0 <= i < |pieces| - 1 ==> pieces[1..][i] == pieces[i + 1];
    }
  }

  lemma RefusalIs(line: bytes)
    ensures ParseKind(line).Some? ==> (ParseKind(line) == Some(Refusal) <==> SaysNo(line))
  {
    hide ParseKind, StatusMarker, Strip, DecodeReplace, StripTerminator, WeightShape, Fragment;
    KindIs(line);
  }

  /** The terminator is ASCII, so stripping it hides no other byte. */
  lemma NonAsciiStays(line: bytes)
    ensures ParseKind(line).Some? <==> IsAscii(line)
  {
    hide ParseKind, StatusMarker, Strip, DecodeReplace, WeightShape, Fragment;
    KindIs(line);
    StrippedIsAscii(line);
  }

  lemma StrippedIsAscii(line: bytes)
    ensures IsAscii(StripTerminator(line)) <==> IsAscii(line)
  {
    if EndsWith(line, LINE_TERMINATOR) {
      assert line == line[..|line| - 2] + [CR, LF];
    } else if EndsWith(line, [LF]) {
      assert line == line[..|line| - 1] + [LF];
      StrippedCrIsAscii(line[..|line| - 1]);
    }
  }

  lemma {:induction false} StrippedCrIsAscii(line: bytes)
    ensures IsAscii(StripCr(line)) <==> IsAscii(line)
  {
    if line != [] && line[|line| - 1] == CR {
      StrippedCrIsAscii(line[..|line| - 1]);
      assert line == line[..|line| - 1] + [CR];
    }
  }

  lemma {:induction false} PiecesAscii(pieces: seq<bytes>)
    ensures IsAscii(Concat(pieces)) <==> forall i :: 0 <= i < |pieces| ==> IsAscii(pieces[i])
  {
    hide IsAscii;
    if pieces != [] {
      AsciiParts(pieces[0], Concat(pieces[1..]));
      PiecesAscii(pieces[1..]);
      assert forall i :: 1 <= i < |pieces| ==> pieces[i] == pieces[1..][i - 1];
    } else {
      assert IsAscii([]) by { NothingIsAscii(); }
    }
  }

  lemma NothingIsAscii()
    ensures IsAscii([])
  {
  }

  /** What a payload reads as: malformed exactly when it does not end in a newline or is not ASCII;
      otherwise a refusal exactly when one of its lines says no. The lines are the pieces with one newline
      each, at their end. */
  lemma ReplyReadsAs(raw: bytes)
    ensures Parse(raw) == Malformed <==> (raw != [] && raw[|raw| - 1] != 10) || exists k :: 0 <= k < |raw| && raw[k] >= 128
    ensures Parse(raw) != Malformed ==>
      && Lines(raw).Some? && ArePieces(raw, Lines(raw).value)
      && (Parse(raw) == RefusedLine(raw) <==> exists i :: 0 <= i < |Lines(raw).value| && SaysNo(Lines(raw).value[i]))
      && (Parse(raw).Lined? <==> forall i :: 0 <= i < |Lines(raw).value| ==> !SaysNo(Lines(raw).value[i]))
      && (Parse(raw).Lined? ==> Parse(raw).raw == raw && Kinds(Lines(raw).value) == Some(Parse(raw).kinds))
  {
    hide SaysNo, Kinds, Concat, IsOneLine, Lines, ParseKind;
    LinesPartition(raw);
    assert IsAscii(raw) <==> forall k :: 0 <= k < |raw| ==> raw[k] < 128;
    if Lines(raw).Some? {
      var pieces := Lines(raw).value;
      KindsAre(pieces);
      PiecesAscii(pieces);
      forall i | 0 <= i < |pieces| ensures ParseKind(pieces[i]).Some? <==> IsAscii(pieces[i]) { NonAsciiStays(pieces[i]); }
    }
  }
}
