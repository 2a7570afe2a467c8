/** A backtracking regular-expression matcher with Python's priorities: runs are greedy, an
    optional part is tried before it is skipped, alternatives are tried left to right. Every
    pattern is anchored at both ends (`\A ... \Z`). */
module Regex {
  import opened Bytes

  datatype Class = Space | Digit | Letter | IdChar | SignChar | UnitChar | Dot | Query

  datatype Group = Unstable | Id | Sign | Number | Unit

  datatype Node =
    | Many(cls: Class, lo: nat, hi: Option<nat>)  // cls{lo,hi}
    | Maybe(body: seq<Node>)                      // (?:body)?
    | Either(left: seq<Node>, right: seq<Node>)   // (?:left|right)
    | Open(group: Group)                          // (?P<group>
    | Close(group: Group)                         // )

  datatype Mark = Opened(group: Group, at: nat) | Closed(group: Group, at: nat)

  type Pattern = seq<Node>

  // Python's str whitespace and letters; every other code point is in none of the classes.
  predicate IsSpace(c: char) {
    var n := c as int;
    9 <= n <= 13 || 28 <= n <= 32 || n == 0x85 || n == 0xA0
  }

  predicate IsDigit(c: char) { '0' <= c <= '9' }
  predicate IsLetter(c: char) { 'A' <= c <= 'Z' || 'a' <= c <= 'z' }

  predicate In(cls: Class, c: char) {
    match cls
    case Space => IsSpace(c)
    case Digit => IsDigit(c)
    case Letter => IsLetter(c)
    case IdChar => IsLetter(c) || IsDigit(c) || c == ' '
    case SignChar => c == '+' || c == '-'
    case UnitChar => IsLetter(c) || c as int == 0xB5 || c == '/' || c == '_' || c == '.'
    case Dot => c == '.'
    case Query => c == '?'
  }

  /** How far a run of `cls` reaches from `i`, at most `hi` characters. */
  function RunLength(cls: Class, s: string, i: nat, hi: Option<nat>): (k: nat)
    requires i <= |s|
    ensures i + k <= |s| && (hi.Some? ==> k <= hi.value)
    ensures forall j :: i <= j < i + k ==> In(cls, s[j])
    ensures (hi.Some? && k == hi.value) || i + k == |s| || !In(cls, s[i + k])
    decreases |s| - i
  {
    if i == |s| || hi == Some(0) || !In(cls, s[i]) then 0
    else 1 + RunLength(cls, s, i + 1, if hi.None? then None else Some(hi.value - 1))
  }

  function Size(re: Pattern): nat {
    if re == [] then 0
    else
      Size(re[1..]) + match re[0]
        case Maybe(body) => 1 + Size(body)
        case Either(left, right) => 1 + Size(left) + Size(right)
        case _ => 1
  }

  lemma {:induction false} SizeAppend(a: Pattern, b: Pattern)
    ensures Size(a + b) == Size(a) + Size(b)
  {
    if a == [] {
      assert a + b == b;
    } else {
      assert (a + b)[1..] == a[1..] + b;
      SizeAppend(a[1..], b);
    }
  }

  // ------------------------------------------------------------------ matching

  /** The first match in backtracking order: the groups entered and left on the way, or None. */
  function Match(re: Pattern, s: string, i: nat): Option<seq<Mark>>
    requires i <= |s|
    decreases Size(re), 0, 0
  {
    if re == [] then (if i == |s| then Some([]) else None)
    else
      var rest := re[1..];
      match re[0]
      case Many(cls, lo, hi) => TryRun(rest, s, i, lo, RunLength(cls, s, i, hi))
      case Maybe(body) =>
        SizeAppend(body, rest);
        var taken := Match(body + rest, s, i);
        if taken.Some? then taken else Match(rest, s, i)
      case Either(left, right) =>
        SizeAppend(left, rest);
        SizeAppend(right, rest);
        var first := Match(left + rest, s, i);
        if first.Some? then first else Match(right + rest, s, i)
      case Open(g) => Tag(Opened(g, i), Match(rest, s, i))
      case Close(g) => Tag(Closed(g, i), Match(rest, s, i))
  }

  function TryRun(rest: Pattern, s: string, i: nat, lo: nat, k: nat): Option<seq<Mark>>
    requires i + k <= |s|
    decreases Size(rest), 1, k
  {
    if k < lo then None
    else
      var m := Match(rest, s, i + k);
      if m.Some? || k == 0 then m else TryRun(rest, s, i, lo, k - 1)
  }

  function Tag(mark: Mark, m: Option<seq<Mark>>): Option<seq<Mark>> {
    if m.None? then None else Some([mark] + m.value)
  }

  /** The language of a pattern, with no regard for priorities. */
  predicate Accepts(re: Pattern, s: string, i: nat)
    requires i <= |s|
    decreases Size(re), 0, 0
  {
    if re == [] then i == |s|
    else
      var rest := re[1..];
      match re[0]
      case Many(cls, lo, hi) => AcceptsRun(rest, s, i, lo, RunLength(cls, s, i, hi))
      case Maybe(body) => SizeAppend(body, rest); Accepts(body + rest, s, i) || Accepts(rest, s, i)
      case Either(left, right) =>
        SizeAppend(left, rest); SizeAppend(right, rest);
        Accepts(left + rest, s, i) || Accepts(right + rest, s, i)
      case Open(_) => Accepts(rest, s, i)
      case Close(_) => Accepts(rest, s, i)
  }

  predicate AcceptsRun(rest: Pattern, s: string, i: nat, lo: nat, k: nat)
    requires i + k <= |s|
    decreases Size(rest), 1, k
  {
    k >= lo && (Accepts(rest, s, i + k) || (k > 0 && AcceptsRun(rest, s, i, lo, k - 1)))
  }

  lemma {:induction false} RunAccepts(rest: Pattern, s: string, i: nat, lo: nat, k: nat, n: nat)
    requires i + k <= |s| && lo <= n <= k && Accepts(rest, s, i + n)
    ensures AcceptsRun(rest, s, i, lo, k)
    decreases k
  {
    if n < k { RunAccepts(rest, s, i, lo, k - 1, n); }
  }

  lemma {:induction false} RunStops(rest: Pattern, s: string, i: nat, lo: nat, k: nat) returns (n: nat)
    requires i + k <= |s| && AcceptsRun(rest, s, i, lo, k)
    ensures lo <= n <= k && Accepts(rest, s, i + n)
    decreases k
  {
    if Accepts(rest, s, i + k) {
      n := k;
    } else {
      n := RunStops(rest, s, i, lo, k - 1);
    }
  }

  /** Backtracking finds a match exactly when the language has one. */
  lemma {:induction false} MatchIffAccepts(re: Pattern, s: string, i: nat)
    requires i <= |s|
    ensures Match(re, s, i).Some? <==> Accepts(re, s, i)
    decreases Size(re), 0, 0
  {
    if re != [] {
      var rest := re[1..];
      match re[0]
      case Many(cls, lo, hi) =>
        TryRunIffAccepts(rest, s, i, lo, RunLength(cls, s, i, hi));
      case Maybe(body) =>
        SizeAppend(body, rest);
        MatchIffAccepts(body + rest, s, i);
        MatchIffAccepts(rest, s, i);
      case Either(left, right) =>
        SizeAppend(left, rest);
        SizeAppend(right, rest);
        MatchIffAccepts(left + rest, s, i);
        MatchIffAccepts(right + rest, s, i);
      case _ =>
        MatchIffAccepts(rest, s, i);
    }
  }

  lemma {:induction false} TryRunIffAccepts(rest: Pattern, s: string, i: nat, lo: nat, k: nat)
    requires i + k <= |s|
    ensures TryRun(rest, s, i, lo, k).Some? <==> AcceptsRun(rest, s, i, lo, k)
    decreases Size(rest), 1, k
  {
    MatchIffAccepts(rest, s, i + k);
    if k > 0 { TryRunIffAccepts(rest, s, i, lo, k - 1); }
  }

  predicate MarksIn(marks: seq<Mark>, groups: set<Group>) {
    forall k :: 0 <= k < |marks| ==> marks[k].group in groups
  }

  lemma MarksGrow(marks: seq<Mark>, groups: set<Group>, more: set<Group>)
    requires MarksIn(marks, groups) && groups <= more
    ensures MarksIn(marks, more)
  {
  }

  lemma MarkAhead(mark: Mark, marks: seq<Mark>, groups: set<Group>)
    requires MarksIn(marks, groups)
    ensures MarksIn([mark] + marks, groups + {mark.group})
  {
  }

  lemma NoMarks(groups: set<Group>)
    ensures MarksIn([], groups)
  {
  }

  /** A match of `p + r` from `i` is `p` on the segment `s[i..j]`, leaving the marks `front`, and then
      the match of `r` from `j`. */
  predicate Splits(p: Pattern, r: Pattern, s: string, i: nat, j: nat, front: seq<Mark>) {
    && i <= j <= |s| && Match(r, s, j).Some?
    && Match(p + r, s, i) == Some(front + Match(r, s, j).value)
    && Accepts(p, s[..j], i)
    && MarksIn(front, Groups(p))
  }

  lemma GroupsHead(node: Node, rest: Pattern)
    ensures Groups(rest) <= Groups([node] + rest)
    ensures node.Maybe? ==> Groups(node.body + rest) <= Groups([node] + rest)
    ensures node.Either? ==> Groups(node.left + rest) <= Groups([node] + rest)
    ensures node.Either? ==> Groups(node.right + rest) <= Groups([node] + rest)
    ensures node.Open? || node.Close? ==> Groups(rest) + {node.group} <= Groups([node] + rest)
  {
    assert ([node] + rest)[1..] == rest;
    if node.Maybe? { GroupsAppend(node.body, rest); }
    if node.Either? { GroupsAppend(node.left, rest); GroupsAppend(node.right, rest); }
  }

  lemma NothingSplits(r: Pattern, s: string, i: nat)
    requires i <= |s| && Match(r, s, i).Some?
    ensures Splits([], r, s, i, i, [])
  {
    assert [] + r == r;
    assert [] + Match(r, s, i).value == Match(r, s, i).value;
    NoMarks({});
  }

  lemma RunSplits(cls: Class, lo: nat, hi: Option<nat>, rest: Pattern, r: Pattern, s: string, i: nat, n: nat, j: nat, front: seq<Mark>)
    requires i <= |s| && lo <= n <= RunLength(cls, s, i, hi)
    requires Match(rest + r, s, i + n) == TryRun(rest + r, s, i, lo, RunLength(cls, s, i, hi))
    requires Splits(rest, r, s, i + n, j, front)
    ensures Splits([Many(cls, lo, hi)] + rest, r, s, i, j, front)
  {
    var node := Many(cls, lo, hi);
    assert ([node] + rest) + r == [node] + (rest + r);
    MatchHead(node, rest + r, s, i);
    RunLengthPrefix(cls, s, i, hi, j, n);
    RunAccepts(rest, s[..j], i, lo, RunLength(cls, s[..j], i, hi), n);
    AcceptsHead(node, rest, s[..j], i);
    GroupsHead(node, rest);
    MarksGrow(front, Groups(rest), Groups([node] + rest));
    hide Match, Accepts, MarksIn, Groups, TryRun, RunLength;
  }

  /** `taken` is the branch backtracking chose: a body, a side, or nothing. */
  lemma BranchSplits(node: Node, taken: Pattern, rest: Pattern, r: Pattern, s: string, i: nat, j: nat, front: seq<Mark>)
    requires i <= |s| && Splits(taken + rest, r, s, i, j, front)
    requires Match([node] + (rest + r), s, i) == Match(taken + (rest + r), s, i)
    requires j <= |s| && i <= j && Accepts(taken + rest, s[..j], i) ==> Accepts([node] + rest, s[..j], i)
    requires Groups(taken + rest) <= Groups([node] + rest)
    ensures Splits([node] + rest, r, s, i, j, front)
  {
    hide Match, Accepts, MarksIn, Groups;
    assert ([node] + rest) + r == [node] + (rest + r);
    assert (taken + rest) + r == taken + (rest + r);
    MarksGrow(front, Groups(taken + rest), Groups([node] + rest));
  }

  lemma MarkSplits(node: Node, mark: Mark, rest: Pattern, r: Pattern, s: string, i: nat, j: nat, front: seq<Mark>)
    requires i <= |s| && Splits(rest, r, s, i, j, front)
    requires (node == Open(mark.group) && mark == Opened(mark.group, i)) || (node == Close(mark.group) && mark == Closed(mark.group, i))
    ensures Splits([node] + rest, r, s, i, j, [mark] + front)
  {
    assert ([node] + rest) + r == [node] + (rest + r);
    MatchHead(node, rest + r, s, i);
    assert [mark] + (front + Match(r, s, j).value) == ([mark] + front) + Match(r, s, j).value;
    MarkAccepts(node, rest, s[..j], i);
    GroupsHead(node, rest);
    MarkAhead(mark, front, Groups(rest));
    MarksGrow([mark] + front, Groups(rest) + {mark.group}, Groups([node] + rest));
    hide Match, Accepts, MarksIn, Groups;
  }

  lemma MarkAccepts(node: Node, rest: Pattern, s: string, i: nat)
    requires i <= |s| && (node.Open? || node.Close?)
    ensures Accepts([node] + rest, s, i) <==> Accepts(rest, s, i)
  {
    assert ([node] + rest)[1..] == rest;
  }

  lemma {:induction false} SplitMaybe(body: Pattern, rest: Pattern, r: Pattern, s: string, i: nat) returns (j: nat, front: seq<Mark>)
    requires i <= |s| && Match([Maybe(body)] + (rest + r), s, i).Some?
    ensures Splits([Maybe(body)] + rest, r, s, i, j, front)
    decreases Size([Maybe(body)] + rest), 0
  {
    hide Match, Accepts, MarksIn, Groups, Size;
    var node := Maybe(body);
    MatchHead(node, rest + r, s, i);
    GroupsHead(node, rest);
    SizeHead(node, rest);
    var taken: Pattern := if Match(body + (rest + r), s, i).Some? then body else [];
    assert [] + rest == rest && [] + (rest + r) == rest + r && (taken + rest) + r == taken + (rest + r);
    j, front := MatchSplits(taken + rest, r, s, i);
    AcceptsHead(node, rest, s[..j], i);
    BranchSplits(node, taken, rest, r, s, i, j, front);
  }

  lemma {:induction false} SplitEither(left: Pattern, right: Pattern, rest: Pattern, r: Pattern, s: string, i: nat)
    returns (j: nat, front: seq<Mark>)
    requires i <= |s| && Match([Either(left, right)] + (rest + r), s, i).Some?
    ensures Splits([Either(left, right)] + rest, r, s, i, j, front)
    decreases Size([Either(left, right)] + rest), 0
  {
    hide Match, Accepts, MarksIn, Groups, Size;
    var node := Either(left, right);
    MatchHead(node, rest + r, s, i);
    GroupsHead(node, rest);
    SizeHead(node, rest);
    var taken := if Match(left + (rest + r), s, i).Some? then left else right;
    assert (taken + rest) + r == taken + (rest + r);
    j, front := MatchSplits(taken + rest, r, s, i);
    AcceptsHead(node, rest, s[..j], i);
    BranchSplits(node, taken, rest, r, s, i, j, front);
  }

  lemma SizeHead(node: Node, rest: Pattern)
    ensures Size(rest) < Size([node] + rest)
    ensures node.Maybe? ==> Size(node.body + rest) < Size([node] + rest)
    ensures node.Either? ==> Size(node.left + rest) < Size([node] + rest) && Size(node.right + rest) < Size([node] + rest)
  {
    assert ([node] + rest)[1..] == rest;
    if node.Maybe? { SizeAppend(node.body, rest); }
    if node.Either? { SizeAppend(node.left, rest); SizeAppend(node.right, rest); }
  }

  lemma {:induction false} SplitHead(node: Node, rest: Pattern, r: Pattern, s: string, i: nat) returns (j: nat, front: seq<Mark>)
    requires i <= |s| && Match([node] + (rest + r), s, i).Some? && !node.Maybe? && !node.Either?
    ensures Splits([node] + rest, r, s, i, j, front)
    decreases Size([node] + rest), 0
  {
    hide Match, Accepts, MarksIn, Groups, Size, TryRun, RunLength;
    MatchHead(node, rest + r, s, i);
    SizeHead(node, rest);
    match node {
      case Many(cls, lo, hi) =>
        var n := TryRunPicks(rest + r, s, i, lo, RunLength(cls, s, i, hi));
        j, front := MatchSplits(rest, r, s, i + n);
        RunSplits(cls, lo, hi, rest, r, s, i, n, j, front);
      case Open(g) =>
        j, front := MatchSplits(rest, r, s, i);
        MarkSplits(node, Opened(g, i), rest, r, s, i, j, front);
        front := [Opened(g, i)] + front;
      case Close(g) =>
        j, front := MatchSplits(rest, r, s, i);
        MarkSplits(node, Closed(g, i), rest, r, s, i, j, front);
        front := [Closed(g, i)] + front;
    }
  }

  /** A match of `p + r` matches `p` on a segment `s[i..j]` and `r`, in backtracking order, from
      there; its marks split accordingly. */
  lemma {:induction false} MatchSplits(p: Pattern, r: Pattern, s: string, i: nat) returns (j: nat, front: seq<Mark>)
    requires i <= |s| && Match(p + r, s, i).Some?
    ensures Splits(p, r, s, i, j, front)
    decreases Size(p), 1
  {
    hide Match, Splits, Size;
    if p == [] {
      assert p + r == r;
      j, front := i, [];
      NothingSplits(r, s, i);
    } else {
      var node, rest := p[0], p[1..];
      assert p == [node] + rest && p + r == [node] + (rest + r);
      match node {
        case Maybe(body) => j, front := SplitMaybe(body, rest, r, s, i);
        case Either(left, right) => j, front := SplitEither(left, right, rest, r, s, i);
        case _ => j, front := SplitHead(node, rest, r, s, i);
      }
    }
  }

  function Groups(re: Pattern): set<Group> {
    if re == [] then {}
    else
      Groups(re[1..]) + match re[0]
        case Many(_, _, _) => {}
        case Maybe(body) => Groups(body)
        case Either(left, right) => Groups(left) + Groups(right)
        case Open(g) => {g}
        case Close(g) => {g}
  }

  lemma {:induction false} GroupsAppend(a: Pattern, b: Pattern)
    ensures Groups(a + b) == Groups(a) + Groups(b)
  {
    if a == [] {
      assert a + b == b;
    } else {
      assert (a + b)[1..] == a[1..] + b;
      GroupsAppend(a[1..], b);
    }
  }

  lemma {:induction false} TryRunPicks(rest: Pattern, s: string, i: nat, lo: nat, k: nat) returns (n: nat)
    requires i + k <= |s| && TryRun(rest, s, i, lo, k).Some?
    ensures lo <= n <= k && Match(rest, s, i + n) == TryRun(rest, s, i, lo, k)
    decreases k
  {
    if Match(rest, s, i + k).Some? {
      n := k;
    } else {
      n := TryRunPicks(rest, s, i, lo, k - 1);
    }
  }

  lemma {:induction false} RunLengthPrefix(cls: Class, s: string, i: nat, hi: Option<nat>, j: nat, n: nat)
    requires i + n <= j <= |s| && n <= RunLength(cls, s, i, hi)
    ensures n <= RunLength(cls, s[..j], i, hi)
    decreases n
  {
  }

  // ------------------------------------------------------------------ equal languages

  ghost predicate Same(a: Pattern, b: Pattern, s: string) {
    forall i: nat :: i <= |s| ==> (Accepts(a, s, i) <==> Accepts(b, s, i))
  }

  lemma {:induction false} SamePrepend(p: Pattern, a: Pattern, b: Pattern, s: string)
    requires Same(a, b, s)
    ensures Same(p + a, p + b, s)
    decreases Size(p)
  {
    if p == [] {
      assert p + a == a && p + b == b;
    } else {
      var rest := p[1..];
      assert (p + a)[1..] == rest + a && (p + b)[1..] == rest + b;
      SamePrepend(rest, a, b, s);
      match p[0]
      case Maybe(body) =>
        SizeAppend(body, rest);
        SamePrepend(body + rest, a, b, s);
        assert body + (rest + a) == (body + rest) + a && body + (rest + b) == (body + rest) + b;
      case Either(left, right) =>
        SizeAppend(left, rest);
        SizeAppend(right, rest);
        SamePrepend(left + rest, a, b, s);
        SamePrepend(right + rest, a, b, s);
        assert left + (rest + a) == (left + rest) + a && left + (rest + b) == (left + rest) + b;
        assert right + (rest + a) == (right + rest) + a && right + (rest + b) == (right + rest) + b;
      case Many(cls, lo, hi) =>
        forall i: nat, k: nat | i + k <= |s| ensures AcceptsRun(rest + a, s, i, lo, k) <==> AcceptsRun(rest + b, s, i, lo, k) {
          SameRun(rest + a, rest + b, s, i, lo, k);
        }
      case _ =>
    }
  }

  lemma {:induction false} SameRun(a: Pattern, b: Pattern, s: string, i: nat, lo: nat, k: nat)
    requires Same(a, b, s) && i + k <= |s|
    ensures AcceptsRun(a, s, i, lo, k) <==> AcceptsRun(b, s, i, lo, k)
    decreases k
  {
    assert Accepts(a, s, i + k) <==> Accepts(b, s, i + k);
    if k > 0 { SameRun(a, b, s, i, lo, k - 1); }
  }

  /** `c{0,hi}` and `(c{1,hi})?` accept the same. */
  lemma OptionalRun(cls: Class, hi: Option<nat>, g: Group, rest: Pattern, s: string)
    requires hi.None? || hi.value >= 1
    ensures Same([Many(cls, 0, hi)] + rest, [Maybe([Open(g), Many(cls, 1, hi), Close(g)])] + rest, s)
  {
    var body := [Open(g), Many(cls, 1, hi), Close(g)];
    var a, b := [Many(cls, 0, hi)] + rest, [Maybe(body)] + rest;
    assert a[1..] == rest && b[1..] == rest;
    var c := body + rest;
    assert c[1..] == [Many(cls, 1, hi), Close(g)] + rest;
    assert c[1..][1..] == [Close(g)] + rest;
    assert c[1..][1..][1..] == rest;
    forall i: nat | i <= |s| ensures Accepts(a, s, i) <==> Accepts(b, s, i) {
      var k := RunLength(cls, s, i, hi);
      var closed := [Close(g)] + rest;
      assert Same(closed, rest, s);
      assert Accepts(c, s, i) <==> Accepts(c[1..], s, i);
      assert Accepts(c[1..], s, i) <==> AcceptsRun(closed, s, i, 1, k);
      SameRun(closed, rest, s, i, 1, k);
      assert Accepts(b, s, i) <==> AcceptsRun(rest, s, i, 1, k) || Accepts(rest, s, i);
      if AcceptsRun(rest, s, i, 0, k) {
        var n := RunStops(rest, s, i, 0, k);
        if n > 0 { RunAccepts(rest, s, i, 1, k, n); }
      }
      if AcceptsRun(rest, s, i, 1, k) {
        var n := RunStops(rest, s, i, 1, k);
        RunAccepts(rest, s, i, 0, k, n);
      }
      if Accepts(rest, s, i) { RunAccepts(rest, s, i, 0, k, 0); }
    }
  }

  /** A mark does not change the language. */
  lemma MarkIsInvisible(mark: Node, rest: Pattern, s: string)
    requires mark.Open? || mark.Close?
    ensures Same([mark] + rest, rest, s)
  {
  }

  // ------------------------------------------------------------------ unfolding and committing

  lemma MatchHead(node: Node, rest: Pattern, s: string, i: nat)
    requires i <= |s|
    ensures node.Many? ==>
      Match([node] + rest, s, i) == TryRun(rest, s, i, node.lo, RunLength(node.cls, s, i, node.hi))
    ensures node.Maybe? ==>
      Match([node] + rest, s, i) == (if Match(node.body + rest, s, i).Some? then Match(node.body + rest, s, i) else Match(rest, s, i))
    ensures node.Either? ==>
      Match([node] + rest, s, i) == (if Match(node.left + rest, s, i).Some? then Match(node.left + rest, s, i) else Match(node.right + rest, s, i))
    ensures node.Open? ==> Match([node] + rest, s, i) == Tag(Opened(node.group, i), Match(rest, s, i))
    ensures node.Close? ==> Match([node] + rest, s, i) == Tag(Closed(node.group, i), Match(rest, s, i))
  {
  }

  lemma AcceptsHead(node: Node, rest: Pattern, s: string, i: nat)
    requires i <= |s|
    ensures node.Many? ==>
      (Accepts([node] + rest, s, i) <==> AcceptsRun(rest, s, i, node.lo, RunLength(node.cls, s, i, node.hi)))
    ensures node.Maybe? ==>
      (Accepts([node] + rest, s, i) <==> Accepts(node.body + rest, s, i) || Accepts(rest, s, i))
    ensures node.Either? ==>
      (Accepts([node] + rest, s, i) <==> Accepts(node.left + rest, s, i) || Accepts(node.right + rest, s, i))
  {
  }

  /** Where a run at the head of an accepted pattern can stop. */
  lemma AcceptedRun(cls: Class, lo: nat, hi: Option<nat>, rest: Pattern, s: string, i: nat) returns (e: nat)
    requires i <= |s| && Accepts([Many(cls, lo, hi)] + rest, s, i)
    ensures i + lo <= e <= i + RunLength(cls, s, i, hi) && Accepts(rest, s, e)
  {
    AcceptsHead(Many(cls, lo, hi), rest, s, i);
    var n := RunStops(rest, s, i, lo, RunLength(cls, s, i, hi));
    e := i + n;
  }

  /** Greed: a run that can be followed to its full length is. */
  lemma RunCommits(cls: Class, lo: nat, hi: Option<nat>, rest: Pattern, s: string, i: nat)
    requires i <= |s| && lo <= RunLength(cls, s, i, hi)
    requires Match(rest, s, i + RunLength(cls, s, i, hi)).Some?
    ensures Match([Many(cls, lo, hi)] + rest, s, i) == Match(rest, s, i + RunLength(cls, s, i, hi))
  {
  }

  /** A pattern that opens a group, or not, and then needs a character it cannot have, fails. */
  lemma RunFails(cls: Class, lo: nat, hi: Option<nat>, rest: Pattern, s: string, i: nat)
    requires i <= |s| && lo > RunLength(cls, s, i, hi)
    ensures Match([Many(cls, lo, hi)] + rest, s, i).None?
  {
  }

  /** An optional group whose first character is not there is skipped. */
  lemma GroupSkipped(g: Group, cls: Class, hi: Option<nat>, more: Pattern, rest: Pattern, s: string, i: nat)
    requires i <= |s| && (i == |s| || !In(cls, s[i]))
    ensures Match([Maybe([Open(g), Many(cls, 1, hi)] + more)] + rest, s, i) == Match(rest, s, i)
  {
    var body := [Open(g), Many(cls, 1, hi)] + more;
    MatchHead(Maybe(body), rest, s, i);
    assert body + rest == [Open(g)] + ([Many(cls, 1, hi)] + (more + rest));
    MatchHead(Open(g), [Many(cls, 1, hi)] + (more + rest), s, i);
    RunFails(cls, 1, hi, more + rest, s, i);
  }

  lemma TagIsFirst(mark: Mark, m: Option<seq<Mark>>)
    ensures Tag(mark, m).Some? ==> |Tag(mark, m).value| > 0 && Tag(mark, m).value[0] == mark
  {
  }

  /** If a match did not enter an optional group, it is the match of what follows the group. */
  lemma GroupNotTaken(g: Group, more: Pattern, rest: Pattern, s: string, i: nat)
    requires i <= |s| && Match([Maybe([Open(g)] + more)] + rest, s, i).Some?
    requires forall k :: 0 <= k < |Match([Maybe([Open(g)] + more)] + rest, s, i).value| ==>
      Match([Maybe([Open(g)] + more)] + rest, s, i).value[k] != Opened(g, i)
    ensures Match([Maybe([Open(g)] + more)] + rest, s, i) == Match(rest, s, i)
  {
    MatchHead(Maybe([Open(g)] + more), rest, s, i);
    assert ([Open(g)] + more) + rest == [Open(g)] + (more + rest);
    MatchHead(Open(g), more + rest, s, i);
    TagIsFirst(Opened(g, i), Match(more + rest, s, i));
  }

  /** Where the run at the head of a matched pattern stopped. */
  lemma RunStopped(cls: Class, lo: nat, hi: Option<nat>, rest: Pattern, s: string, i: nat) returns (e: nat)
    requires i <= |s| && Match([Many(cls, lo, hi)] + rest, s, i).Some?
    ensures i + lo <= e <= i + RunLength(cls, s, i, hi)
    ensures Match(rest, s, e) == Match([Many(cls, lo, hi)] + rest, s, i)
    ensures forall k :: i <= k < e ==> In(cls, s[k])
  {
    MatchHead(Many(cls, lo, hi), rest, s, i);
    var n := TryRunPicks(rest, s, i, lo, RunLength(cls, s, i, hi));
    e := i + n;
  }

  lemma {:induction false} RunLengthAtLeast(cls: Class, s: string, i: nat, e: nat)
    requires i <= e <= |s| && forall k :: i <= k < e ==> In(cls, s[k])
    ensures RunLength(cls, s, i, None) >= e - i
    decreases e - i
  {
  }

  /** Two adjacent pieces of a string in the languages of two patterns make the concatenation. */
  lemma {:induction false} AcceptsJoin(p: Pattern, r: Pattern, s: string, i: nat, j: nat)
    requires i <= j <= |s| && Accepts(p, s[..j], i) && Accepts(r, s, j)
    ensures Accepts(p + r, s, i)
    decreases Size(p)
  {
    if p == [] {
      assert p + r == r;
    } else {
      var rest := p[1..];
      assert (p + r)[1..] == rest + r;
      match p[0]
      case Many(cls, lo, hi) =>
        var n := RunStops(rest, s[..j], i, lo, RunLength(cls, s[..j], i, hi));
        AcceptsJoin(rest, r, s, i + n, j);
        RunLengthWhole(cls, s, i, hi, j, n);
        RunAccepts(rest + r, s, i, lo, RunLength(cls, s, i, hi), n);
      case Maybe(body) =>
        SizeAppend(body, rest);
        assert body + (rest + r) == (body + rest) + r;
        if Accepts(body + rest, s[..j], i) { AcceptsJoin(body + rest, r, s, i, j); } else { AcceptsJoin(rest, r, s, i, j); }
      case Either(left, right) =>
        SizeAppend(left, rest);
        SizeAppend(right, rest);
        assert left + (rest + r) == (left + rest) + r && right + (rest + r) == (right + rest) + r;
        if Accepts(left + rest, s[..j], i) { AcceptsJoin(left + rest, r, s, i, j); } else { AcceptsJoin(right + rest, r, s, i, j); }
      case _ =>
        AcceptsJoin(rest, r, s, i, j);
    }
  }

  lemma {:induction false} RunLengthWhole(cls: Class, s: string, i: nat, hi: Option<nat>, j: nat, n: nat)
    requires i + n <= j <= |s| && n <= RunLength(cls, s[..j], i, hi)
    ensures n <= RunLength(cls, s, i, hi)
    decreases n
  {
  }
}
