/** The string operations of the source's standard library that the models need. */
module Text {
  import opened Wrappers

  /** Unicode White_Space, the class `str::trim` strips. */
  predicate IsSpace(c: char) {
    var n := c as int;
    || 0x09 <= n <= 0x0D || n == 0x20 || n == 0x85 || n == 0xA0 || n == 0x1680
    || 0x2000 <= n <= 0x200A || n == 0x2028 || n == 0x2029 || n == 0x202F || n == 0x205F || n == 0x3000
  }

  function TrimStart(s: string): string {
    if s != "" && IsSpace(s[0]) then TrimStart(s[1..]) else s
  }

  function TrimEnd(s: string): string {
    if s != "" && IsSpace(s[|s| - 1]) then TrimEnd(s[..|s| - 1]) else s
  }

  function Trim(s: string): string {
    TrimEnd(TrimStart(s))
  }

  /** What is trimmed away is white space, and what is left neither begins nor ends with any. */
  lemma {:induction false} TrimStartIs(s: string)
    ensures var t := TrimStart(s);
            && |t| <= |s| && t == s[|s| - |t|..]
            && (forall i :: 0 <= i < |s| - |t| ==> IsSpace(s[i]))
            && (t != "" ==> !IsSpace(t[0]))
  {
    if s != "" && IsSpace(s[0]) {
      var tail := s[1..];
      TrimStartIs(tail);
      var n := |tail| - |TrimStart(tail)|;
      assert tail[n..] == s[n + 1..];
      forall i | 0 <= i < n + 1 ensures IsSpace(s[i]) {
        if i > 0 { assert s[i] == tail[i - 1]; }
      }
    }
  }

  lemma {:induction false} TrimEndIs(s: string)
    ensures var t := TrimEnd(s);
            && |t| <= |s| && t == s[..|t|]
            && (forall i :: |t| <= i < |s| ==> IsSpace(s[i]))
            && (t != "" ==> !IsSpace(t[|t| - 1]))
  {
    if s != "" && IsSpace(s[|s| - 1]) { TrimEndIs(s[..|s| - 1]); }
  }

  lemma TrimIs(s: string)
    ensures exists i, j :: IsTrimmed(s, i, j)
  {
    TrimStartIs(s);
    TrimEndIs(TrimStart(s));
    var i := |s| - |TrimStart(s)|;
    assert IsTrimmed(s, i, i + |Trim(s)|);
  }

  /** [i, j) is what trimming leaves of `s`. */
  ghost predicate IsTrimmed(s: string, i: nat, j: nat) {
    && i <= j <= |s| && Trim(s) == s[i..j]
    && (forall k :: 0 <= k < i || j <= k < |s| ==> IsSpace(s[k]))
    && (i < j ==> !IsSpace(s[i]) && !IsSpace(s[j - 1]))
  }

  /** Nothing is left exactly of a string of white space. */
  lemma TrimmedAway(s: string)
    ensures Trim(s) == "" <==> forall i :: 0 <= i < |s| ==> IsSpace(s[i])
  {
    TrimIs(s);
    var i, j :| IsTrimmed(s, i, j);
  }

  /** The segments between the separators: always one more than there are separators. */
  function Split(s: string, sep: char): (segments: seq<string>)
    ensures segments != []
    decreases |s|
  {
    if s == "" then [""]
    else if s[0] == sep then [""] + Split(s[1..], sep)
    else
      var rest := Split(s[1..], sep);
      [[s[0]] + rest[0]] + rest[1..]
  }

  /** Separators between the segments, none around them. */
  function Join(segments: seq<string>, sep: char): string
    requires segments != []
  {
    if |segments| == 1 then segments[0] else segments[0] + [sep] + Join(segments[1..], sep)
  }

  lemma {:induction false} SplitOfJoined(a: string, b: string, sep: char)
    ensures Split(a + [sep] + b, sep) == Split(a, sep) + Split(b, sep)
    decreases |a|
  {
    var whole := a + [sep] + b;
    if a == "" {
      assert whole[1..] == b;
    } else {
      assert whole[1..] == a[1..] + [sep] + b;
      SplitOfJoined(a[1..], b, sep);
      SplitStep(whole, sep, Split(a[1..], sep), Split(b, sep));
    }
  }

  /** How the first character joins a split whose tail is known in two parts. */
  lemma {:induction false} SplitStep(s: string, sep: char, x: seq<string>, y: seq<string>)
    requires s != "" && x != [] && Split(s[1..], sep) == x + y
    ensures Split(s, sep) == (if s[0] == sep then [""] + x else [[s[0]] + x[0]] + x[1..]) + y
  {
    GluedToTheFirst(s[0], x, y);
  }

  lemma GluedToTheFirst(c: char, x: seq<string>, y: seq<string>)
    requires x != []
    ensures [""] + (x + y) == ([""] + x) + y
    ensures [[c] + (x + y)[0]] + (x + y)[1..] == ([[c] + x[0]] + x[1..]) + y
  {
    assert (x + y)[1..] == x[1..] + y;
  }

  /** A string without the separator is one segment. */
  lemma {:induction false} SplitOfPlain(s: string, sep: char)
    requires sep !in s
    ensures Split(s, sep) == [s]
    decreases |s|
  {
    if s != "" {
      SplitOfPlain(s[1..], sep);
      assert [s[0]] + s[1..] == s;
    }
  }

  /** Splitting undoes joining segments that hold no separator. */
  lemma {:induction false} SplitUndoesJoin(segments: seq<string>, sep: char)
    requires segments != []
    requires forall i :: 0 <= i < |segments| ==> sep !in segments[i]
    ensures Split(Join(segments, sep), sep) == segments
  {
    SplitOfPlain(segments[0], sep);
    if |segments| > 1 {
      SplitOfJoined(segments[0], Join(segments[1..], sep), sep);
      SplitUndoesJoin(segments[1..], sep);
    }
  }

  /** Joining undoes splitting. */
  lemma {:induction false} JoinUndoesSplit(s: string, sep: char)
    ensures Join(Split(s, sep), sep) == s
    decreases |s|
  {
    if s != "" {
      var rest := Split(s[1..], sep);
      JoinUndoesSplit(s[1..], sep);
      if s[0] == sep {
        assert ([""] + rest)[1..] == rest;
        assert Join([""] + rest, sep) == [sep] + Join(rest, sep);
      } else {
        JoinFirst(s[0], rest, sep);
      }
      assert s == [s[0]] + s[1..];
    }
  }

  lemma {:induction false} JoinFirst(c: char, segments: seq<string>, sep: char)
    requires segments != []
    ensures Join([[c] + segments[0]] + segments[1..], sep) == [c] + Join(segments, sep)
  {
    var longer := [[c] + segments[0]] + segments[1..];
    assert longer[1..] == segments[1..];
  }

  predicate OccursAt(s: string, needle: string, i: int) {
    0 <= i && i + |needle| <= |s| && s[i..i + |needle|] == needle
  }

  /** The first occurrence at or after `from`. */
  function FindFrom(s: string, needle: string, from: nat): Option<nat>
    requires from <= |s|
    decreases |s| - from
  {
    if OccursAt(s, needle, from) then Some(from)
    else if from == |s| then None
    else FindFrom(s, needle, from + 1)
  }

  function Find(s: string, needle: string): Option<nat> {
    FindFrom(s, needle, 0)
  }

  lemma {:induction false} FindFromIs(s: string, needle: string, from: nat)
    requires from <= |s|
    ensures var r := FindFrom(s, needle, from);
            && (r.Some? ==> from <= r.value && OccursAt(s, needle, r.value) && forall i :: from <= i < r.value ==> !OccursAt(s, needle, i))
            && (r.None? ==> forall i :: from <= i ==> !OccursAt(s, needle, i))
    decreases |s| - from
  {
    if !OccursAt(s, needle, from) && from < |s| {
      FindFromIs(s, needle, from + 1);
    }
  }

  predicate Contains(s: string, words: string) {
    Find(s, words).Some?
  }

  ghost predicate Holds(s: string, words: string) {
    exists before, after :: s == before + words + after
  }

  lemma FindsIt(s: string, words: string)
    ensures Contains(s, words) <==> Holds(s, words)
  {
    FindFromIs(s, words, 0);
    if Contains(s, words) {
      var i := Find(s, words).value;
      assert s == s[..i] + words + s[i + |words|..];
    }
    if before, after :| s == before + words + after {
      assert s[|before|..|before| + |words|] == words;
      assert OccursAt(s, words, |before|);
    }
  }
}
