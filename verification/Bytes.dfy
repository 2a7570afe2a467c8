/** Byte strings, `bytes.find`, and the Option type shared by the model. */
module Bytes {

  type byte = x: int | 0 <= x < 256
  type bytes = seq<byte>

  datatype Option<+T> = None | Some(value: T)

  function Min(a: int, b: int): int { if a < b then a else b }

  function Concat<T>(pieces: seq<seq<T>>): seq<T> {
    if pieces == [] then [] else pieces[0] + Concat(pieces[1..])
  }

  lemma {:induction false} ConcatAppend<T>(a: seq<seq<T>>, b: seq<seq<T>>)
    ensures Concat(a + b) == Concat(a) + Concat(b)
  {
    if a == [] {
      assert a + b == b;
    } else {
      assert (a + b)[1..] == a[1..] + b;
      ConcatAppend(a[1..], b);
    }
  }

  ghost predicate OccursAt(buf: bytes, sep: bytes, i: int) {
    0 <= i <= |buf| - |sep| && buf[i..i + |sep|] == sep
  }

  /** `buf.find(sep, start)`: the least index at or after `start` where `sep` occurs. */
  function FindFrom(buf: bytes, sep: bytes, start: nat): (r: Option<nat>)
    ensures r.Some? ==> start <= r.value && OccursAt(buf, sep, r.value)
    ensures r.Some? ==> forall j :: start <= j < r.value ==> !OccursAt(buf, sep, j)
    ensures r.None? ==> forall j :: start <= j ==> !OccursAt(buf, sep, j)
    decreases |buf| - start
  {
    if start + |sep| > |buf| then None
    else if buf[start..start + |sep|] == sep then Some(start)
    else FindFrom(buf, sep, start + 1)
  }

  function Find(buf: bytes, sep: bytes): Option<nat> { FindFrom(buf, sep, 0) }

  /** Bytes that arrive later never move the first occurrence. */
  lemma FindStable(buf: bytes, more: bytes, sep: bytes)
    requires Find(buf, sep).Some?
    ensures Find(buf + more, sep) == Find(buf, sep)
  {
    var i := Find(buf, sep).value;
    forall j | 0 <= j <= i ensures OccursAt(buf + more, sep, j) <==> OccursAt(buf, sep, j) {
      assert j + |sep| <= |buf|;
      assert (buf + more)[j..j + |sep|] == buf[j..j + |sep|];
    }
    assert OccursAt(buf + more, sep, i);
  }
}
