/** The two SBI line classifiers: `is_autoprint_line` in framing and `parse_line` in parser. */
module SbiClassifier {
  import opened Bytes
  import opened Regex
  import opened SbiText

  // ------------------------------------------------------------------ the patterns

  const SPACES := Many(Space, 0, None)

  const DOT := Many(Dot, 1, Some(1))
  const FRACTION: Node := Maybe([DOT, Many(Digit, 0, None)])

  // (?:\d+(?:\.\d*)?|\.\d+)
  const DECIMAL: Node :=
    Either([Many(Digit, 1, None), FRACTION], [DOT, Many(Digit, 1, None)])

  const UNSTABLE_BODY: Pattern := [Open(Unstable), Many(Query, 1, Some(1))] + [Close(Unstable)]
  const ID_BODY: Pattern := [Open(Id), Many(Letter, 1, Some(1))] + [Many(IdChar, 0, Some(5)), Close(Id), Many(Space, 1, None)]
  const SIGN_BODY: Pattern := [Open(Sign), Many(SignChar, 1, Some(1))] + [Close(Sign)]
  const UNIT_BODY: Pattern := [Open(Unit), Many(UnitChar, 1, None)] + [Close(Unit)]

  // _WEIGHT_RE, from the right
  const AFTER_UNIT: Pattern := [SPACES]
  const FROM_UNIT: Pattern := [Maybe(UNIT_BODY)] + AFTER_UNIT
  const AFTER_NUMBER: Pattern := [SPACES] + FROM_UNIT
  const END_NUMBER: Pattern := [Close(Number)] + AFTER_NUMBER
  const IN_NUMBER: Pattern := [DECIMAL] + END_NUMBER
  const FROM_NUMBER: Pattern := [Open(Number)] + IN_NUMBER
  const AFTER_SIGN: Pattern := [SPACES] + FROM_NUMBER
  const FROM_SIGN: Pattern := [Maybe(SIGN_BODY)] + AFTER_SIGN
  const FROM_ID: Pattern := [Maybe(ID_BODY)] + FROM_SIGN
  const AFTER_UNSTABLE: Pattern := [SPACES] + FROM_ID
  const FROM_UNSTABLE: Pattern := [Maybe(UNSTABLE_BODY)] + AFTER_UNSTABLE
  const WEIGHT: Pattern := [SPACES] + FROM_UNSTABLE

  // _AUTOPRINT_RE, written without groups
  const PLAIN_ID: Pattern := [Many(Letter, 1, Some(1)), Many(IdChar, 0, Some(5)), Many(Space, 1, None)]
  const AUTOPRINT: Pattern :=
    [SPACES, Many(Query, 0, Some(1)), SPACES, Maybe(PLAIN_ID), Many(SignChar, 0, Some(1)), SPACES, DECIMAL,
     SPACES, Many(UnitChar, 0, None), SPACES]

  // _BARE_NUMBER_RE
  const BARE: Pattern := [SPACES] + ([DECIMAL] + [SPACES])

  // ------------------------------------------------------------------ the classifiers

  const CAL_MARKERS: set<string> := {"CAL. EXT.", "CAL. INT.", "CAL.INT."}
  const AUTOPRINT_SPECIALS: set<string> :=
    {"CAL. EXT.", "CAL. INT.", "CAL.INT.", "H", "HH", "HIGH", "HI", "L", "LL", "LOW"}
  const OVERLOAD_MARKERS: set<string> := {"H", "HH", "HIGH", "HI", "OVER", "OVERLOAD", "OL"}
  const UNDERLOAD_MARKERS: set<string> := {"L", "LL", "LOW", "UNDER", "UNDERLOAD", "UL"}
  const REFUSAL_MARKERS: set<string> :=
    {"APP. ERR", "DIS. ERR", "ERR", "ERROR", "INVALID", "NO", "PRT. ERR", "REJECT", "REJECTED"}

  const MIN_FORMATTED_WEIGHT_BODY_CHARS := 14

  /** `is_autoprint_line` */
  predicate IsAutoprintLine(line: bytes) {
    var body := DecodeReplace(StripTerminator(line));
    var text := Strip(body);
    if text == "" then false
    else if Accepts(BARE, body, 0) && (body == text || |body| < MIN_FORMATTED_WEIGHT_BODY_CHARS) then false
    else Accepts(AUTOPRINT, body, 0) || StatusMarker(text) in AUTOPRINT_SPECIALS
  }

  datatype Kind = Empty | Refusal | Unknown | Weight | Identity

  predicate IsRefusalMarker(marker: string) {
    marker in REFUSAL_MARKERS || "ERR " <= marker
  }

  predicate Entered(m: seq<Mark>, g: Group) {
    exists k :: 0 <= k < |m| && m[k].Opened? && m[k].group == g
  }

  /** `_is_bare_number_fragment`: no optional group took part and the text is not padded out. */
  predicate IsBareNumberFragment(text: string, m: seq<Mark>) {
    !Entered(m, Unstable) && !Entered(m, Id) && !Entered(m, Sign) && !Entered(m, Unit)
    && (text == Strip(text) || |text| < MIN_FORMATTED_WEIGHT_BODY_CHARS)
  }

  predicate LooksLikeWeight(text: string) {
    var marker := StatusMarker(Strip(text));
    var m := Match(WEIGHT, text, 0);
    marker in OVERLOAD_MARKERS || marker in UNDERLOAD_MARKERS || (m.Some? && !IsBareNumberFragment(text, m.value))
  }

  /** The kind `parse_line` gives a line; None when it raises because the line is not ASCII. */
  function ParseKind(line: bytes): Option<Kind> {
    var body := StripTerminator(line);
    if !IsAscii(body) then None
    else
      var text := DecodeReplace(body);
      var stripped := Strip(text);
      if stripped == "" then Some(Empty)
      else
        var marker := StatusMarker(stripped);
        if IsRefusalMarker(marker) then Some(Refusal)
        else if marker in CAL_MARKERS then Some(Unknown)
        else if LooksLikeWeight(text) then Some(Weight)
        else Some(Identity)
  }

  // ------------------------------------------------------------------ the two regular expressions

  lemma BodyOfGroup(cls: Class, hi: Option<nat>, g: Group)
    ensures [Open(g), Many(cls, 1, hi)] + [Close(g)] == [Open(g), Many(cls, 1, hi), Close(g)]
  {
  }

  /** The id part with and without its group. */
  lemma IdGroup(rest: Pattern, s: string)
    ensures Same([Maybe(PLAIN_ID)] + rest, [Maybe(ID_BODY)] + rest, s)
  {
    var id: Pattern := [Many(Letter, 1, Some(1)), Many(IdChar, 0, Some(5))];
    var tail := [Many(Space, 1, None)] + rest;
    var a, b := [Maybe(PLAIN_ID)] + rest, [Maybe(ID_BODY)] + rest;
    assert a[1..] == rest && b[1..] == rest;
    assert PLAIN_ID + rest == id + tail;
    assert ID_BODY + rest == [Open(Id)] + (id + ([Close(Id)] + tail));
    MarkIsInvisible(Close(Id), tail, s);
    SamePrepend(id, [Close(Id)] + tail, tail, s);
    MarkIsInvisible(Open(Id), id + ([Close(Id)] + tail), s);
  }

  /** The autoprint and the weight pattern, written apart, accept the same strings. */
  lemma PatternsAgree(s: string)
    ensures Accepts(AUTOPRINT, s, 0) <==> Accepts(WEIGHT, s, 0)
  {
    hide Accepts;
    // from the right, one part at a time
    var a1: Pattern := [Many(UnitChar, 0, None)] + AFTER_UNIT;
    OptionalRun(UnitChar, None, Unit, AFTER_UNIT, s);
    BodyOfGroup(UnitChar, None, Unit);
    SamePrepend([SPACES], a1, FROM_UNIT, s);
    var a2 := [SPACES] + a1;
    MarkIsInvisible(Close(Number), AFTER_NUMBER, s);
    SamePrepend([DECIMAL], END_NUMBER, a2, s);
    MarkIsInvisible(Open(Number), IN_NUMBER, s);
    SamePrepend([SPACES], FROM_NUMBER, [DECIMAL] + a2, s);
    var a3 := [SPACES] + ([DECIMAL] + a2);
    OptionalRun(SignChar, Some(1), Sign, AFTER_SIGN, s);
    BodyOfGroup(SignChar, Some(1), Sign);
    SamePrepend([Many(SignChar, 0, Some(1))], a3, AFTER_SIGN, s);
    var a4 := [Many(SignChar, 0, Some(1))] + a3;
    IdGroup(FROM_SIGN, s);
    SamePrepend([Maybe(PLAIN_ID)], a4, FROM_SIGN, s);
    var a5 := [Maybe(PLAIN_ID)] + a4;
    SamePrepend([SPACES], a5, FROM_ID, s);
    var a6 := [SPACES] + a5;
    OptionalRun(Query, Some(1), Unstable, AFTER_UNSTABLE, s);
    BodyOfGroup(Query, Some(1), Unstable);
    SamePrepend([Many(Query, 0, Some(1))], a6, AFTER_UNSTABLE, s);
    var a7 := [Many(Query, 0, Some(1))] + a6;
    SamePrepend([SPACES], a7, FROM_UNSTABLE, s);
    assert [SPACES] + a7 == AUTOPRINT;
  }

  // ------------------------------------------------------------------ the number

  lemma SpacesAccept(s: string, i: nat)
    requires i <= |s|
    ensures Accepts([SPACES], s, i) <==> forall k :: i <= k < |s| ==> IsSpace(s[k])
  {
    var n := RunLength(Space, s, i, None);
    assert [SPACES][1..] == [];
    if forall k :: i <= k < |s| ==> IsSpace(s[k]) {
      RunLengthAtLeast(Space, s, i, |s|);
      RunAccepts([], s, i, 0, n, n);
    }
    if Accepts([SPACES], s, i) {
      var e := RunStops([], s, i, 0, n);
    }
  }

  /** Text that `float` accepts and `_decimal_places` counts: digits with at most one dot and at
      least one digit. */
  predicate IsDecimalText(t: string) {
    (exists i :: 0 <= i < |t| && IsDigit(t[i]))
    && exists d :: 0 <= d <= |t| && IsDecimalAround(t, d)
  }

  predicate IsDecimalAround(t: string, d: nat) {
    forall i :: 0 <= i < |t| ==> if i == d then t[i] == '.' || IsDigit(t[i]) else IsDigit(t[i])
  }

  /** Where the greedy number starting at `i` ends. */
  function NumberEnd(s: string, i: nat): (e: nat)
    requires i < |s|
    ensures e <= |s|
  {
    if IsDigit(s[i]) then FractionEnd(s, i + RunLength(Digit, s, i, None))
    else i + 1 + RunLength(Digit, s, i + 1, None)
  }

  predicate StartsNumber(s: string, i: nat) {
    i < |s| && (IsDigit(s[i]) || (s[i] == '.' && i + 1 < |s| && IsDigit(s[i + 1])))
  }

  lemma DotRun(s: string, i: nat)
    requires i <= |s|
    ensures RunLength(Dot, s, i, Some(1)) == if i < |s| && s[i] == '.' then 1 else 0
  {
  }

  /** Where a greedy fraction starting at `d` ends. */
  function FractionEnd(s: string, d: nat): (e: nat)
    requires d <= |s|
    ensures d <= e <= |s|
  {
    if d < |s| && s[d] == '.' then d + 1 + RunLength(Digit, s, d + 1, None) else d
  }

  ghost predicate SpacesFrom(s: string, i: nat) {
    forall k :: i <= k < |s| ==> IsSpace(s[k])
  }

  lemma FractionThenSpaces(s: string, d: nat)
    requires d <= |s| && Accepts([FRACTION] + [SPACES], s, d)
    ensures SpacesFrom(s, FractionEnd(s, d))
    ensures d < |s| && !IsSpace(s[d]) ==> s[d] == '.'
  {
    hide Accepts;
    AcceptsHead(FRACTION, [SPACES], s, d);
    SpacesAccept(s, d);
    if !Accepts([SPACES], s, d) {
      assert FRACTION.body + [SPACES] == [DOT] + ([Many(Digit, 0, None)] + [SPACES]);
      DotRun(s, d);
      var after := AcceptedRun(Dot, 1, Some(1), [Many(Digit, 0, None)] + [SPACES], s, d);
      var e := AcceptedRun(Digit, 0, None, [SPACES], s, after);
      SpacesAccept(s, e);
    }
  }

  /** A number followed only by spaces: it starts with a digit or a dot, and the greedy reading of
      it is that number. */
  lemma NumberThenSpaces(s: string, i: nat)
    requires i <= |s| && Accepts([DECIMAL] + [SPACES], s, i)
    ensures StartsNumber(s, i) && SpacesFrom(s, NumberEnd(s, i))
  {
    hide Accepts;
    AcceptsHead(DECIMAL, [SPACES], s, i);
    if Accepts(DECIMAL.left + [SPACES], s, i) {
      assert DECIMAL.left + [SPACES] == [Many(Digit, 1, None)] + ([FRACTION] + [SPACES]);
      var d := AcceptedRun(Digit, 1, None, [FRACTION] + [SPACES], s, i);
      FractionThenSpaces(s, d);
      assert d == i + RunLength(Digit, s, i, None);
    } else {
      assert DECIMAL.right + [SPACES] == [DOT] + ([Many(Digit, 1, None)] + [SPACES]);
      DotRun(s, i);
      var after := AcceptedRun(Dot, 1, Some(1), [Many(Digit, 1, None)] + [SPACES], s, i);
      var e := AcceptedRun(Digit, 1, None, [SPACES], s, after);
      SpacesAccept(s, e);
    }
  }

  lemma FractionCommits(s: string, d: nat, rest: Pattern)
    requires d <= |s| && Match(rest, s, FractionEnd(s, d)).Some?
    ensures Match([FRACTION] + rest, s, d) == Match(rest, s, FractionEnd(s, d))
  {
    hide Match;
    MatchHead(FRACTION, rest, s, d);
    assert FRACTION.body + rest == [DOT] + ([Many(Digit, 0, None)] + rest);
    DotRun(s, d);
    if d < |s| && s[d] == '.' {
      RunCommits(Digit, 0, None, rest, s, d + 1);
      RunCommits(Dot, 1, Some(1), [Many(Digit, 0, None)] + rest, s, d);
    } else {
      RunFails(Dot, 1, Some(1), [Many(Digit, 0, None)] + rest, s, d);
    }
  }

  /** Backtracking commits to the greedy number when what follows it matches. */
  lemma NumberCommits(s: string, i: nat, rest: Pattern)
    requires i < |s| && StartsNumber(s, i) && Match(rest, s, NumberEnd(s, i)).Some?
    ensures Match([DECIMAL] + rest, s, i) == Match(rest, s, NumberEnd(s, i))
  {
    hide Match;
    MatchHead(DECIMAL, rest, s, i);
    assert DECIMAL.left + rest == [Many(Digit, 1, None)] + ([FRACTION] + rest);
    if IsDigit(s[i]) {
      FractionCommits(s, i + RunLength(Digit, s, i, None), rest);
      RunCommits(Digit, 1, None, [FRACTION] + rest, s, i);
    } else {
      RunFails(Digit, 1, None, [FRACTION] + rest, s, i);
      assert DECIMAL.right + rest == [DOT] + ([Many(Digit, 1, None)] + rest);
      DotRun(s, i);
      RunCommits(Digit, 1, None, rest, s, i + 1);
      RunCommits(Dot, 1, Some(1), [Many(Digit, 1, None)] + rest, s, i);
    }
  }

  /** What a match of the number part captured is a decimal number. */
  lemma NumberIsDecimal(s: string, i: nat)
    requires i <= |s| && Accepts([DECIMAL], s, i)
    ensures IsDecimalText(s[i..])
  {
    hide Accepts;
    var t := s[i..];
    assert [DECIMAL] + [] == [DECIMAL];
    AcceptsHead(DECIMAL, [], s, i);
    if Accepts(DECIMAL.left + [], s, i) {
      assert DECIMAL.left + [] == [Many(Digit, 1, None)] + ([FRACTION] + []);
      var d := AcceptedRun(Digit, 1, None, [FRACTION] + [], s, i);
      FractionIsDigits(s, d);
      assert t[0] == s[i];
      assert IsDecimalAround(t, d - i);
    } else {
      assert DECIMAL.right + [] == [DOT] + ([Many(Digit, 1, None)] + []);
      DotRun(s, i);
      var after := AcceptedRun(Dot, 1, Some(1), [Many(Digit, 1, None)] + [], s, i);
      var e := AcceptedRun(Digit, 1, None, [], s, after);
      EmptyAccepts(s, e);
      assert t[1] == s[i + 1];
      assert IsDecimalAround(t, 0);
    }
  }

  lemma EmptyAccepts(s: string, i: nat)
    requires i <= |s|
    ensures Accepts([], s, i) <==> i == |s|
  {
  }

  lemma FractionIsDigits(s: string, d: nat)
    requires d <= |s| && Accepts([FRACTION] + [], s, d)
    ensures forall k :: d <= k < |s| ==> if k == d then s[k] == '.' else IsDigit(s[k])
  {
    hide Accepts;
    AcceptsHead(FRACTION, [], s, d);
    EmptyAccepts(s, d);
    if d < |s| {
      assert FRACTION.body + [] == [DOT] + ([Many(Digit, 0, None)] + []);
      DotRun(s, d);
      var after := AcceptedRun(Dot, 1, Some(1), [Many(Digit, 0, None)] + [], s, d);
      var e := AcceptedRun(Digit, 0, None, [], s, after);
      EmptyAccepts(s, e);
    }
  }

  // ------------------------------------------------------------------ the bare-number test

  lemma NumberThenEnd(s: string, q: nat)
    requires q <= |s| && SpacesFrom(s, q)
    ensures Match(END_NUMBER, s, q) == Some([Closed(Number, q)])
  {
    hide Match;
    EmptyMatches(s);
    RunCommits(Space, 0, None, [], s, |s|);
    assert [SPACES] + [] == AFTER_UNIT;
    GroupSkipped(Unit, UnitChar, None, [Close(Unit)], AFTER_UNIT, s, |s|);
    RunLengthAtLeast(Space, s, q, |s|);
    RunCommits(Space, 0, None, FROM_UNIT, s, q);
    MatchHead(Close(Number), AFTER_NUMBER, s, q);
    assert [Closed(Number, q)] + [] == [Closed(Number, q)];
  }

  lemma SpacesThenNumber(s: string, a: nat)
    requires a <= |s| && StartsNumber(s, a) && a == RunLength(Space, s, 0, None)
    requires Match(FROM_NUMBER, s, a).Some?
    ensures Match(WEIGHT, s, 0) == Match(FROM_NUMBER, s, a)
  {
    hide Match;
    assert RunLength(Space, s, a, None) == 0;
    RunCommits(Space, 0, None, FROM_NUMBER, s, a);
    GroupSkipped(Sign, SignChar, Some(1), [Close(Sign)], AFTER_SIGN, s, a);
    GroupSkipped(Id, Letter, Some(1), [Many(IdChar, 0, Some(5)), Close(Id), Many(Space, 1, None)], FROM_SIGN, s, a);
    RunCommits(Space, 0, None, FROM_ID, s, a);
    GroupSkipped(Unstable, Query, Some(1), [Close(Unstable)], AFTER_UNSTABLE, s, a);
    RunCommits(Space, 0, None, FROM_UNSTABLE, s, 0);
  }

  /** On a bare number the greedy match enters no optional group. */
  lemma BareMatchEntersNothing(s: string)
    requires Accepts(BARE, s, 0)
    ensures exists a, q :: Match(WEIGHT, s, 0) == Some([Opened(Number, a), Closed(Number, q)])
  {
    hide Match, Accepts;
    var a := AcceptedRun(Space, 0, None, [DECIMAL] + [SPACES], s, 0);
    NumberThenSpaces(s, a);
    assert a == RunLength(Space, s, 0, None);
    var q := NumberEnd(s, a);
    NumberThenEnd(s, q);
    NumberCommits(s, a, END_NUMBER);
    MatchHead(Open(Number), IN_NUMBER, s, a);
    SpacesThenNumber(s, a);
    assert [Opened(Number, a)] + [Closed(Number, q)] == [Opened(Number, a), Closed(Number, q)];
  }

  lemma EmptyMatches(s: string)
    ensures Match([], s, |s|) == Some([])
  {
  }

  /** Where the number of a weight line was found: the marks around it, and its characters. */
  lemma NumberFound(s: string) returns (front: seq<Mark>, p: nat, q: nat, back: seq<Mark>)
    requires Match(WEIGHT, s, 0).Some?
    ensures p <= q <= |s| && Accepts([DECIMAL], s[..q], p)
    ensures Match(FROM_NUMBER, s, p).Some? && Match(AFTER_NUMBER, s, q) == Some(back)
    ensures Match(WEIGHT, s, 0).value == front + [Opened(Number, p), Closed(Number, q)] + back
    ensures forall k :: 0 <= k < |front| ==> front[k].group != Number
  {
    hide Match, Accepts;
    var before: Pattern := [SPACES, Maybe(UNSTABLE_BODY), SPACES, Maybe(ID_BODY), Maybe(SIGN_BODY), SPACES];
    assert before + FROM_NUMBER == WEIGHT;
    assert Number !in Groups(before) by { GroupsOfHead(); }
    p, front := MatchSplits(before, FROM_NUMBER, s, 0);
    MatchHead(Open(Number), IN_NUMBER, s, p);
    var none;
    q, none := MatchSplits([DECIMAL], END_NUMBER, s, p);
    assert none != [] ==> none[0].group in Groups([DECIMAL]);
    NumberHasNoGroups();
    assert none == [];
    MatchHead(Close(Number), AFTER_NUMBER, s, q);
    back := Match(AFTER_NUMBER, s, q).value;
    assert Match(END_NUMBER, s, q).value == [Closed(Number, q)] + back;
    assert Match(IN_NUMBER, s, p).value == [] + Match(END_NUMBER, s, q).value;
  }

  lemma NumberHasNoGroups()
    ensures Groups([DECIMAL]) == {}
  {
    hide Groups;
    var digits, digits1: Pattern := [Many(Digit, 0, None)], [Many(Digit, 1, None)];
    GroupsOf(digits, digits[0], []);
    GroupsOf(digits1, digits1[0], []);
    GroupsOf(FRACTION.body, DOT, digits);
    GroupsOf([FRACTION], FRACTION, []);
    GroupsOf(DECIMAL.left, Many(Digit, 1, None), [FRACTION]);
    GroupsOf(DECIMAL.right, DOT, digits1);
    GroupsOf([DECIMAL], DECIMAL, []);
  }

  lemma GroupsOfHead()
    ensures Number !in Groups([SPACES, Maybe(UNSTABLE_BODY), SPACES, Maybe(ID_BODY), Maybe(SIGN_BODY), SPACES])
  {
    hide Groups;
    GroupBodies();
    var t1: Pattern := [SPACES];
    GroupsOf(t1, SPACES, []);
    var t2: Pattern := [Maybe(SIGN_BODY)] + t1;
    GroupsOf(t2, Maybe(SIGN_BODY), t1);
    var t3: Pattern := [Maybe(ID_BODY)] + t2;
    GroupsOf(t3, Maybe(ID_BODY), t2);
    var t4: Pattern := [SPACES] + t3;
    GroupsOf(t4, SPACES, t3);
    var t5: Pattern := [Maybe(UNSTABLE_BODY)] + t4;
    GroupsOf(t5, Maybe(UNSTABLE_BODY), t4);
    GroupsOf([SPACES, Maybe(UNSTABLE_BODY), SPACES, Maybe(ID_BODY), Maybe(SIGN_BODY), SPACES], SPACES, t5);
  }

  lemma GroupsOf(whole: Pattern, node: Node, rest: Pattern)
    requires whole == [node] + rest
    ensures node.Many? ==> Groups(whole) == Groups(rest)
    ensures node.Maybe? ==> Groups(whole) == Groups(rest) + Groups(node.body)
    ensures node.Either? ==> Groups(whole) == Groups(rest) + (Groups(node.left) + Groups(node.right))
    ensures node.Open? || node.Close? ==> Groups(whole) == Groups(rest) + {node.group}
    ensures Groups([]) == {}
  {
  }

  lemma GroupBodies()
    ensures Groups(UNSTABLE_BODY) == {Unstable} && Groups(ID_BODY) == {Id} && Groups(SIGN_BODY) == {Sign}
  {
    hide Groups;
    var u: Pattern := [Close(Unstable)];
    GroupsOf(u, Close(Unstable), []);
    var u1: Pattern := [Many(Query, 1, Some(1))] + u;
    GroupsOf(u1, u1[0], u);
    GroupsOf(UNSTABLE_BODY, Open(Unstable), u1);
    var s: Pattern := [Close(Sign)];
    GroupsOf(s, Close(Sign), []);
    var s1: Pattern := [Many(SignChar, 1, Some(1))] + s;
    GroupsOf(s1, s1[0], s);
    GroupsOf(SIGN_BODY, Open(Sign), s1);
    var i: Pattern := [Many(Space, 1, None)];
    GroupsOf(i, i[0], []);
    var i1: Pattern := [Close(Id)] + i;
    GroupsOf(i1, Close(Id), i);
    var i2: Pattern := [Many(IdChar, 0, Some(5))] + i1;
    GroupsOf(i2, i2[0], i1);
    var i3: Pattern := [Many(Letter, 1, Some(1))] + i2;
    GroupsOf(i3, i3[0], i2);
    GroupsOf(ID_BODY, Open(Id), i3);
  }

  /** Before the number: if no optional group was entered there are only spaces. */
  lemma OnlySpacesBefore(s: string) returns (p: nat)
    requires Match(WEIGHT, s, 0).Some?
    requires var m := Match(WEIGHT, s, 0).value; !Entered(m, Unstable) && !Entered(m, Id) && !Entered(m, Sign)
    ensures p <= |s| && Match(FROM_NUMBER, s, p) == Match(WEIGHT, s, 0)
    ensures forall k :: 0 <= k < p ==> IsSpace(s[k])
  {
    hide Match;
    var m := Match(WEIGHT, s, 0).value;
    var e1 := RunStopped(Space, 0, None, FROM_UNSTABLE, s, 0);
    assert UNSTABLE_BODY == [Open(Unstable)] + UNSTABLE_BODY[1..];
    GroupNotTaken(Unstable, UNSTABLE_BODY[1..], AFTER_UNSTABLE, s, e1);
    var e2 := RunStopped(Space, 0, None, FROM_ID, s, e1);
    assert ID_BODY == [Open(Id)] + ID_BODY[1..];
    GroupNotTaken(Id, ID_BODY[1..], FROM_SIGN, s, e2);
    assert SIGN_BODY == [Open(Sign)] + SIGN_BODY[1..];
    GroupNotTaken(Sign, SIGN_BODY[1..], AFTER_SIGN, s, e2);
    p := RunStopped(Space, 0, None, FROM_NUMBER, s, e2);
  }

  /** After the number: if no unit was captured there are only spaces. */
  lemma OnlySpacesAfter(s: string, q: nat)
    requires q <= |s| && Match(AFTER_NUMBER, s, q).Some? && !Entered(Match(AFTER_NUMBER, s, q).value, Unit)
    ensures Accepts([SPACES], s, q)
  {
    hide Match, Accepts;
    var e1 := RunStopped(Space, 0, None, FROM_UNIT, s, q);
    assert UNIT_BODY == [Open(Unit)] + UNIT_BODY[1..];
    GroupNotTaken(Unit, UNIT_BODY[1..], AFTER_UNIT, s, e1);
    assert AFTER_UNIT == [SPACES] + [];
    var e2 := RunStopped(Space, 0, None, [], s, e1);
    EmptyMatchesOnlyAtEnd(s, e2);
    SpacesAccept(s, q);
  }

  lemma EmptyMatchesOnlyAtEnd(s: string, i: nat)
    requires i <= |s| && Match([], s, i).Some?
    ensures i == |s|
  {
  }

  lemma EnteredInTail(front: seq<Mark>, tail: seq<Mark>, g: Group)
    ensures Entered(tail, g) ==> Entered(front + tail, g)
  {
    if Entered(tail, g) {
      var k :| 0 <= k < |tail| && tail[k].Opened? && tail[k].group == g;
      assert (front + tail)[|front| + k] == tail[k];
    }
  }

  /** The two bare-number tests are the same test: the separate regular expression of one
      classifier, and the captured groups of the greedy match of the other. */
  lemma BareTestsAgree(s: string)
    ensures Accepts(BARE, s, 0) <==>
      var m := Match(WEIGHT, s, 0);
      m.Some? && !Entered(m.value, Unstable) && !Entered(m.value, Id) && !Entered(m.value, Sign) && !Entered(m.value, Unit)
  {
    hide Match, Accepts;
    if Accepts(BARE, s, 0) {
      BareMatchEntersNothing(s);
    }
    var m := Match(WEIGHT, s, 0);
    if m.Some? && !Entered(m.value, Unstable) && !Entered(m.value, Id) && !Entered(m.value, Sign) && !Entered(m.value, Unit) {
      var p := OnlySpacesBefore(s);
      MatchHead(Open(Number), IN_NUMBER, s, p);
      var q, none := MatchSplits([DECIMAL], END_NUMBER, s, p);
      MatchHead(Close(Number), AFTER_NUMBER, s, q);
      var tail := Match(AFTER_NUMBER, s, q).value;
      assert m.value == [Opened(Number, p)] + (none + ([Closed(Number, q)] + tail));
      assert m.value == ([Opened(Number, p)] + none + [Closed(Number, q)]) + tail;
      EnteredInTail([Opened(Number, p)] + none + [Closed(Number, q)], tail, Unit);
      OnlySpacesAfter(s, q);
      AcceptsJoin([DECIMAL], [SPACES], s, p, q);
      RunLengthAtLeast(Space, s, 0, p);
      RunAccepts([DECIMAL] + [SPACES], s, 0, 0, RunLength(Space, s, 0, None), p);
      AcceptsHead(SPACES, [DECIMAL] + [SPACES], s, 0);
    }
  }

  // ------------------------------------------------------------------ parsing an accepted line

  /** Outcomes of `parse_weight_line`; the last two are exceptions. */
  datatype WeightLine =
    | OffScale(overload: bool, underload: bool)
    | Weighed(unstable: bool, number: string, hasUnit: bool)
    | Unparseable
    | BadFloat

  function Position(m: seq<Mark>, mark: Mark): Option<nat> {
    if m == [] then None
    else if m[0].Opened? == mark.Opened? && m[0].group == mark.group then Some(m[0].at)
    else Position(m[1..], mark)
  }

  /** The text captured by `g`, if the group took part. */
  function Captured(s: string, m: seq<Mark>, g: Group): Option<string> {
    match (Position(m, Opened(g, 0)), Position(m, Closed(g, 0)))
    case (Some(a), Some(b)) => if a <= b <= |s| then Some(s[a..b]) else None
    case _ => None
  }

  function ParseWeightLine(line: bytes): WeightLine {
    var text := DecodeReplace(StripTerminator(line));
    var marker := StatusMarker(Strip(text));
    if marker in OVERLOAD_MARKERS || marker in UNDERLOAD_MARKERS then
      OffScale(marker in OVERLOAD_MARKERS, marker in UNDERLOAD_MARKERS)
    else
      match Match(WEIGHT, text, 0)
      case None => Unparseable
      case Some(m) =>
        match Captured(text, m, Number)
        case None => BadFloat
        case Some(number) =>
          if IsDecimalText(number) then Weighed(Entered(m, Unstable), number, Entered(m, Unit)) else BadFloat
  }

  lemma {:induction false} PositionAfter(front: seq<Mark>, back: seq<Mark>, mark: Mark)
    requires forall k :: 0 <= k < |front| ==> front[k].group != mark.group || front[k].Opened? != mark.Opened?
    ensures Position(front + back, mark) == Position(back, mark)
  {
    if front == [] {
      assert front + back == back;
    } else {
      assert (front + back)[1..] == front[1..] + back;
      PositionAfter(front[1..], back, mark);
    }
  }

  /** A line the weight pattern matches always yields a number that `float` accepts. */
  lemma MatchedNumberIsDecimal(s: string)
    requires Match(WEIGHT, s, 0).Some?
    ensures var number := Captured(s, Match(WEIGHT, s, 0).value, Number);
      number.Some? && IsDecimalText(number.value)
  {
    hide Match, Accepts;
    var front, p, q, back := NumberFound(s);
    var m := Match(WEIGHT, s, 0).value;
    var tail := [Closed(Number, q)] + back;
    assert m == front + ([Opened(Number, p)] + tail);
    PositionAfter(front, [Opened(Number, p)] + tail, Opened(Number, 0));
    assert m == (front + [Opened(Number, p)]) + tail;
    PositionAfter(front + [Opened(Number, p)], tail, Closed(Number, 0));
    NumberIsDecimal(s[..q], p);
    assert s[..q][p..] == s[p..q];
  }

  /** `parse_weight_line` never raises on a line that `_looks_like_weight` accepts. */
  lemma AcceptedLinesParse(line: bytes)
    requires LooksLikeWeight(DecodeReplace(StripTerminator(line)))
    ensures ParseWeightLine(line).OffScale? || ParseWeightLine(line).Weighed?
  {
    hide Match;
    var text := DecodeReplace(StripTerminator(line));
    if Match(WEIGHT, text, 0).Some? { MatchedNumberIsDecimal(text); }
  }

  // ------------------------------------------------------------------ agreement

  lemma WeightHasDigit(s: string)
    requires Match(WEIGHT, s, 0).Some?
    ensures HasDigit(s)
  {
    hide Match, Accepts;
    var front, p, q, back := NumberFound(s);
    NumberIsDecimal(s[..q], p);
    var t := s[..q][p..];
    var i :| 0 <= i < |t| && IsDigit(t[i]);
    assert s[p + i] == t[i];
  }

  /** No marker either classifier knows contains a digit, so none comes from a matched line. */
  lemma MarkersHaveNoDigit(marker: string)
    requires HasDigit(marker)
    ensures marker !in AUTOPRINT_SPECIALS && marker !in OVERLOAD_MARKERS && marker !in UNDERLOAD_MARKERS
    ensures marker !in REFUSAL_MARKERS && marker !in CAL_MARKERS
  {
  }

  /** Markers of one classifier that the other does not know. */
  const EXTRA_MARKERS: set<string> := {"OVER", "OVERLOAD", "OL", "UNDER", "UNDERLOAD", "UL"}

  /** The three families of lines the classifiers disagree on: calibration status, a refusal that
      carries a number (`ERR 54`), and the spelled-out range markers. */
  predicate Disputed(line: bytes) {
    var body := DecodeReplace(StripTerminator(line));
    var marker := StatusMarker(Strip(body));
    marker in CAL_MARKERS || marker in EXTRA_MARKERS || ("ERR " <= marker && Accepts(WEIGHT, body, 0))
  }

  lemma MarkerFamilies(marker: string)
    ensures marker in AUTOPRINT_SPECIALS <==>
      marker in CAL_MARKERS || ((marker in OVERLOAD_MARKERS || marker in UNDERLOAD_MARKERS) && marker !in EXTRA_MARKERS)
    ensures marker in EXTRA_MARKERS ==> marker in OVERLOAD_MARKERS || marker in UNDERLOAD_MARKERS
    ensures marker in OVERLOAD_MARKERS || marker in UNDERLOAD_MARKERS ==> !IsRefusalMarker(marker) && marker !in CAL_MARKERS
  {
    assert "ERR " <= marker ==> marker[0] == 'E' && |marker| >= 4;
  }

  lemma BlankMarker()
    ensures StatusMarker("") == ""
  {
  }

  lemma BareIsNotRefused(body: string)
    requires Accepts(BARE, body, 0)
    ensures !("ERR " <= StatusMarker(Strip(body)))
  {
    hide Match, Accepts, StartsNumber, SpacesFrom, NumberEnd, RunLength, StatusMarker, Strip;
    var a := AcceptedRun(Space, 0, None, [DECIMAL] + [SPACES], body, 0);
    NumberThenSpaces(body, a);
    RunIsPlain(body, a);
    PlainIsNotRefused(body);
  }

  lemma RunIsPlain(body: string, a: nat)
    requires a <= RunLength(Space, body, 0, None) && StartsNumber(body, a) && SpacesFrom(body, NumberEnd(body, a))
    ensures forall k :: 0 <= k < |body| ==> IsSpace(body[k]) || IsDigit(body[k]) || body[k] == '.'
  {
  }

  lemma PlainIsNotRefused(body: string)
    requires forall k :: 0 <= k < |body| ==> IsSpace(body[k]) || IsDigit(body[k]) || body[k] == '.'
    ensures !("ERR " <= StatusMarker(Strip(body)))
  {
    var marker := StatusMarker(Strip(body));
    hide StatusMarker, Strip;
    assert "ERR " <= marker ==> marker[0] == 'E';
    if 'E' in marker { MarkerLetterFromBody(body); }
  }

  lemma NonBlank(s: string)
    requires HasDigit(s)
    ensures Strip(s) != ""
  {
    StripLeftKeepsDigits(s);
    StripRightKeepsDigits(StripLeft(s));
  }

  /** On ASCII lines the two classifiers agree exactly outside those three families. */
  lemma ClassifiersAgreeIff(line: bytes)
    requires IsAscii(StripTerminator(line))
    ensures (IsAutoprintLine(line) <==> ParseKind(line) == Some(Weight)) <==> !Disputed(line)
  {
    hide Match, Accepts;
    var body := DecodeReplace(StripTerminator(line));
    var marker := StatusMarker(Strip(body));
    PatternsAgree(body);
    MatchIffAccepts(WEIGHT, body, 0);
    BareTestsAgree(body);
    MarkerFamilies(marker);
    BlankMarker();
    if Match(WEIGHT, body, 0).Some? {
      WeightHasDigit(body);
      MarkerKeepsDigits(body);
      MarkersHaveNoDigit(marker);
      NonBlank(body);
      if Accepts(BARE, body, 0) { BareIsNotRefused(body); }
    }
  }
}
