/** The pose list read at screen construction: every line stripped of surrounding
    white space, blank lines dropped, and a built-in two-pose fallback when the file
    is missing or holds no pose at all. */
module Poses {
  import opened Base

  /** The characters Python's str.strip() removes (str.isspace). */
  predicate IsSpace(c: char) {
    var n := c as int;
    || n == 0x20 || 0x09 <= n <= 0x0D || 0x1C <= n <= 0x1F
    || n == 0x85 || n == 0xA0 || n == 0x1680 || 0x2000 <= n <= 0x200A
    || n == 0x2028 || n == 0x2029 || n == 0x202F || n == 0x205F || n == 0x3000
  }

  /** Nothing but white space (a blank line, which strips to the empty string). */
  predicate AllSpace(s: string) {
    forall k :: 0 <= k < |s| ==> IsSpace(s[k])
  }

  /** A pose name as the loader keeps it: non-empty and already stripped. */
  predicate IsPoseName(p: string) {
    p != [] && !IsSpace(p[0]) && !IsSpace(p[|p| - 1])
  }

  /** The first position at or after `i` that does not hold white space (|s| if none). */
  function SkipSpace(s: string, i: nat): (a: nat)
    requires i <= |s|
    ensures i <= a <= |s|
    ensures forall k :: i <= k < a ==> IsSpace(s[k])
    ensures a < |s| ==> !IsSpace(s[a])
    decreases |s| - i
  {
    if i < |s| && IsSpace(s[i]) then SkipSpace(s, i + 1) else i
  }

  /** The end of the text before position `j` once trailing white space is skipped:
      every position from the result up to `j` holds white space. */
  function SkipSpaceBack(s: string, j: nat): (b: nat)
    requires j <= |s|
    ensures b <= j
    ensures forall k :: b <= k < j ==> IsSpace(s[k])
    ensures b > 0 ==> !IsSpace(s[b - 1])
  {
    if j > 0 && IsSpace(s[j - 1]) then SkipSpaceBack(s, j - 1) else j
  }

  /** Python's `line.strip()`: white space removed from both ends. */
  function Strip(s: string): (r: string)
    ensures |r| <= |s|
    ensures r == [] <==> AllSpace(s)
    ensures r == [] || IsPoseName(r)
  {
    var a := SkipSpace(s, 0);
    var b := SkipSpaceBack(s, |s|);
    if a < b then s[a..b] else []
  }

  /** Strip keeps exactly the slice between the white-space margins: whenever
      `s[i..j]` has white space only outside it and non-space characters at both of
      its ends, that slice is what Strip returns. */
  lemma StripIsTheInnerSlice(s: string, i: int, j: int)
    requires 0 <= i < j <= |s|
    requires forall k :: 0 <= k < i ==> IsSpace(s[k])
    requires forall k :: j <= k < |s| ==> IsSpace(s[k])
    requires !IsSpace(s[i]) && !IsSpace(s[j - 1])
    ensures Strip(s) == s[i..j]
  {
    var a := SkipSpace(s, 0);
    var b := SkipSpaceBack(s, |s|);
    assert a == i;
    assert b == j;
  }

  /** Stripping twice is stripping once. */
  lemma StripIdempotent(s: string)
    ensures Strip(Strip(s)) == Strip(s)
  {
    var r := Strip(s);
    if r != [] {
      StripIsTheInnerSlice(r, 0, |r|);
    }
  }

  /** The poses used when the list file is missing or holds no pose. */
  const DefaultPoses: seq<string> := ["thumbs up", "piece"]

  /** The positions from `from` on whose lines are not blank, in increasing order. */
  function NonBlankFrom(lines: seq<string>, from: nat): (idx: seq<nat>)
    requires from <= |lines|
    ensures forall k :: 0 <= k < |idx| ==> from <= idx[k] < |lines| && !AllSpace(lines[idx[k]])
    ensures forall k, m :: 0 <= k < m < |idx| ==> idx[k] < idx[m]
    ensures forall i :: from <= i < |lines| && !AllSpace(lines[i]) ==> i in idx
    decreases |lines| - from
  {
    if from == |lines| then []
    else (if AllSpace(lines[from]) then [] else [from]) + NonBlankFrom(lines, from + 1)
  }

  /** The positions of the non-blank lines of the file, in increasing order. */
  function NonBlankLines(lines: seq<string>): (idx: seq<nat>)
    ensures forall k :: 0 <= k < |idx| ==> idx[k] < |lines| && !AllSpace(lines[idx[k]])
    ensures forall k, m :: 0 <= k < m < |idx| ==> idx[k] < idx[m]
    ensures forall i :: 0 <= i < |lines| && !AllSpace(lines[i]) ==> i in idx
  {
    NonBlankFrom(lines, 0)
  }

  /** `[line.strip() for line in lines if line.strip()]`: the stripped non-blank
      lines, in file order. */
  function Kept(lines: seq<string>): (r: seq<string>)
    ensures |r| == |NonBlankLines(lines)|
    ensures forall k :: 0 <= k < |r| ==> IsPoseName(r[k])
  {
    var idx := NonBlankLines(lines);
    seq(|idx|, k requires 0 <= k < |idx| => Strip(lines[idx[k]]))
  }

  /** A further line adds its position at the end of the list when it is not blank. */
  lemma {:induction false} NonBlankFromSnoc(lines: seq<string>, l: string, from: nat)
    requires from <= |lines|
    ensures NonBlankFrom(lines + [l], from) == NonBlankFrom(lines, from) + (if AllSpace(l) then [] else [|lines|])
    decreases |lines| - from
  {
    var tail: seq<nat> := if AllSpace(l) then [] else [|lines|];
    if from == |lines| {
      assert (lines + [l])[from] == l;
      assert NonBlankFrom(lines + [l], from + 1) == [];
    } else {
      NonBlankFromSnoc(lines, l, from + 1);
      assert (lines + [l])[from] == lines[from];
      var head: seq<nat> := if AllSpace(lines[from]) then [] else [from];
      calc {
        NonBlankFrom(lines + [l], from);
        head + NonBlankFrom(lines + [l], from + 1);
        head + (NonBlankFrom(lines, from + 1) + tail);
        (head + NonBlankFrom(lines, from + 1)) + tail;
      }
    }
  }

  /** The kept poses follow the file: an empty file keeps nothing, and a further
      line adds its stripped text at the end of the list, or nothing when it is
      blank. */
  lemma KeptInFileOrder(lines: seq<string>, l: string)
    ensures Kept([]) == []
    ensures Kept(lines + [l]) == Kept(lines) + (if AllSpace(l) then [] else [Strip(l)])
  {
    NonBlankFromSnoc(lines, l, 0);
    var idx, idx2 := NonBlankLines(lines), NonBlankLines(lines + [l]);
    var a, b := Kept(lines), Kept(lines + [l]);
    var want := a + (if AllSpace(l) then [] else [Strip(l)]);
    assert |b| == |want|;
    forall k | 0 <= k < |b| ensures b[k] == want[k] {
      if k < |idx| {
        assert idx2[k] == idx[k];
        assert (lines + [l])[idx[k]] == lines[idx[k]];
      } else {
        assert idx2[k] == |lines|;
      }
    }
  }

  /** A pose is kept exactly when some line of the file strips to it. */
  lemma KeptMembership(lines: seq<string>, x: string)
    ensures x in Kept(lines) <==> x != [] && exists i :: 0 <= i < |lines| && Strip(lines[i]) == x
  {
    if x in Kept(lines) {
      KeptIsFromLines(lines, x);
    }
    if x != [] && exists i :: 0 <= i < |lines| && Strip(lines[i]) == x {
      var i :| 0 <= i < |lines| && Strip(lines[i]) == x;
      LineIsKept(lines, i);
    }
  }

  lemma KeptIsFromLines(lines: seq<string>, x: string)
    requires x in Kept(lines)
    ensures x != [] && exists i :: 0 <= i < |lines| && Strip(lines[i]) == x
  {
    var kept, idx := Kept(lines), NonBlankLines(lines);
    var k :| 0 <= k < |kept| && kept[k] == x;
    var i := idx[k];
    assert 0 <= i < |lines| && Strip(lines[i]) == x;
  }

  lemma LineIsKept(lines: seq<string>, i: int)
    requires 0 <= i < |lines| && Strip(lines[i]) != []
    ensures Strip(lines[i]) in Kept(lines)
  {
    var kept, idx := Kept(lines), NonBlankLines(lines);
    assert !AllSpace(lines[i]);
    var k :| 0 <= k < |idx| && idx[k] == i;
    assert kept[k] == Strip(lines[i]);
  }

  /** The constructor's pose-list loading; `file` is None when the file does not
      exist, otherwise the lines the file yields. */
  function LoadPoses(file: Option<seq<string>>): (r: seq<string>)
    ensures |r| > 0
    ensures forall k :: 0 <= k < |r| ==> IsPoseName(r[k])
    ensures file.None? ==> r == DefaultPoses
    ensures file.Some? && AllBlank(file.value) ==> r == DefaultPoses
    ensures file.Some? && !AllBlank(file.value) ==> r == Kept(file.value)
  {
    match file
    case None => DefaultPoses
    case Some(lines) =>
      var kept := Kept(lines);
      if |kept| == 0 then
        assert |NonBlankLines(lines)| == 0;
        DefaultPoses
      else
        assert !AllSpace(lines[NonBlankLines(lines)[0]]);
        kept
  }

  /** Every line of the file is blank once stripped. */
  predicate AllBlank(lines: seq<string>) {
    forall i :: 0 <= i < |lines| ==> AllSpace(lines[i])
  }
}
