/** The Python string and line operations the SBI layer uses. */
module SbiText {
  import opened Bytes
  import opened Regex

  const LF: byte := 10
  const CR: byte := 13
  const LINE_TERMINATOR: bytes := [CR, LF]

  predicate IsAscii(line: bytes) { forall i :: 0 <= i < |line| ==> line[i] < 128 }

  function EndsWith(line: bytes, tail: bytes): bool {
    |tail| <= |line| && line[|line| - |tail|..] == tail
  }

  function StripCr(line: bytes): bytes {
    if line != [] && line[|line| - 1] == CR then StripCr(line[..|line| - 1]) else line
  }

  /** `strip_line_terminator` */
  function StripTerminator(line: bytes): (r: bytes)
    ensures |r| <= |line| && r <= line
  {
    if EndsWith(line, LINE_TERMINATOR) then line[..|line| - 2]
    else if EndsWith(line, [LF]) then StripCrPrefix(line[..|line| - 1]); StripCr(line[..|line| - 1])
    else line
  }

  lemma {:induction false} StripCrPrefix(line: bytes)
    ensures StripCr(line) <= line
  {
    if line != [] && line[|line| - 1] == CR { StripCrPrefix(line[..|line| - 1]); }
  }

  /** `decode("ascii", errors="replace")` */
  function DecodeReplace(line: bytes): (r: string)
    ensures |r| == |line|
    ensures forall i :: 0 <= i < |line| ==> r[i] == (if line[i] < 128 then line[i] as char else '\U{FFFD}')
  {
    seq(|line|, i requires 0 <= i < |line| => if line[i] < 128 then line[i] as char else '\U{FFFD}')
  }

  function StripLeft(s: string): string {
    if s != [] && IsSpace(s[0]) then StripLeft(s[1..]) else s
  }

  function StripRight(s: string): string {
    if s != [] && IsSpace(s[|s| - 1]) then StripRight(s[..|s| - 1]) else s
  }

  function Strip(s: string): string { StripRight(StripLeft(s)) }

  function Upper(s: string): (r: string)
    ensures |r| == |s|
  {
    seq(|s|, i requires 0 <= i < |s| => if 'a' <= s[i] <= 'z' then (s[i] as int - 32) as char else s[i])
  }

  function WordEnd(s: string): (k: nat)
    ensures k <= |s| && forall i :: 0 <= i < k ==> !IsSpace(s[i])
    ensures k < |s| ==> IsSpace(s[k])
  {
    if s == [] || IsSpace(s[0]) then 0 else 1 + WordEnd(s[1..])
  }

  /** `" ".join(s.split())` */
  function JoinWords(s: string): string
    decreases |s|
  {
    if s == [] then []
    else if IsSpace(s[0]) then JoinWords(s[1..])
    else
      var k := WordEnd(s);
      var rest := JoinWords(s[k..]);
      s[..k] + (if rest == [] then [] else " " + rest)
  }

  /** `_status_marker`: upper-cased words without a leading `STAT`. Both classifiers compute it. */
  function StatusMarker(text: string): string {
    var marker := JoinWords(Upper(text));
    if "STAT " <= marker then Strip(marker[5..]) else marker
  }

  // ------------------------------------------------------------------ digits survive normalising

  predicate HasDigit(s: string) { exists i :: 0 <= i < |s| && IsDigit(s[i]) }

  lemma {:induction false} JoinWordsKeepsDigits(s: string)
    requires HasDigit(s)
    ensures HasDigit(JoinWords(s))
    decreases |s|
  {
    var i :| 0 <= i < |s| && IsDigit(s[i]);
    if IsSpace(s[0]) {
      assert s[1..][i - 1] == s[i];
      JoinWordsKeepsDigits(s[1..]);
    } else {
      var k := WordEnd(s);
      var all := JoinWords(s);
      assert all[..k] == s[..k];
      if i < k {
        assert all[i] == s[i];
      } else {
        assert s[k..][i - k] == s[i];
        JoinWordsKeepsDigits(s[k..]);
        var j :| 0 <= j < |JoinWords(s[k..])| && IsDigit(JoinWords(s[k..])[j]);
        assert all == s[..k] + (" " + JoinWords(s[k..]));
        assert all[k + 1 + j] == JoinWords(s[k..])[j];
      }
    }
  }

  lemma {:induction false} StripLeftKeepsDigits(s: string)
    requires HasDigit(s)
    ensures HasDigit(StripLeft(s))
  {
    if s != [] && IsSpace(s[0]) {
      var i :| 0 <= i < |s| && IsDigit(s[i]);
      assert s[1..][i - 1] == s[i];
      StripLeftKeepsDigits(s[1..]);
    }
  }

  lemma {:induction false} StripRightKeepsDigits(s: string)
    requires HasDigit(s)
    ensures HasDigit(StripRight(s))
  {
    if s != [] && IsSpace(s[|s| - 1]) {
      var i :| 0 <= i < |s| && IsDigit(s[i]);
      assert s[..|s| - 1][i] == s[i];
      StripRightKeepsDigits(s[..|s| - 1]);
    }
  }

  lemma MarkerKeepsDigits(body: string)
    requires HasDigit(body)
    ensures HasDigit(StatusMarker(Strip(body)))
  {
    StripLeftKeepsDigits(body);
    StripRightKeepsDigits(StripLeft(body));
    var text := Strip(body);
    var i :| 0 <= i < |text| && IsDigit(text[i]);
    assert Upper(text)[i] == text[i];
    JoinWordsKeepsDigits(Upper(text));
    var marker := JoinWords(Upper(text));
    if "STAT " <= marker {
      var j :| 0 <= j < |marker| && IsDigit(marker[j]);
      assert marker[..5] == "STAT ";
      assert forall k :: 0 <= k < 5 ==> marker[k] == "STAT "[k];
      assert marker[5..][j - 5] == marker[j];
      StripLeftKeepsDigits(marker[5..]);
      StripRightKeepsDigits(StripLeft(marker[5..]));
    }
  }

  // ------------------------------------------------------------------ normalising adds no letters

  lemma {:induction false} JoinWordsChars(s: string, c: char)
    requires c in JoinWords(s) && c != ' '
    ensures c in s
    decreases |s|
  {
    if IsSpace(s[0]) {
      JoinWordsChars(s[1..], c);
    } else {
      var k := WordEnd(s);
      if c !in s[..k] { JoinWordsChars(s[k..], c); }
    }
  }

  lemma {:induction false} StripLeftChars(s: string, c: char)
    requires c in StripLeft(s)
    ensures c in s
  {
    if s != [] && IsSpace(s[0]) { StripLeftChars(s[1..], c); }
  }

  lemma {:induction false} StripRightChars(s: string, c: char)
    requires c in StripRight(s)
    ensures c in s
  {
    if s != [] && IsSpace(s[|s| - 1]) { StripRightChars(s[..|s| - 1], c); }
  }

  /** A capital E in the marker comes from an E or e in the line. */
  lemma MarkerLetterFromBody(body: string)
    requires 'E' in StatusMarker(Strip(body))
    ensures 'E' in body || 'e' in body
  {
    var text := Strip(body);
    var marker := JoinWords(Upper(text));
    if "STAT " <= marker {
      StripRightChars(StripLeft(marker[5..]), 'E');
      StripLeftChars(marker[5..], 'E');
    }
    JoinWordsChars(Upper(text), 'E');
    var i :| 0 <= i < |text| && Upper(text)[i] == 'E';
    StripRightChars(StripLeft(body), text[i]);
    StripLeftChars(body, text[i]);
  }
}
