/** The few Python string operations the command-line helpers rely on:
    `sep in s`, `s.split(sep, 1)`, `sep.join(parts)` and `s.capitalize()`, each for a
    single-character separator. `s.split(sep)` is not called by the helpers; it is
    here to state what a join of lines contains. */
module Strings {
  import opened Wrappers

  /** Position of the first occurrence of `c` in `s`, or None when `c` does not occur. */
  function FindFirst(s: string, c: char): (r: Option<nat>)
    ensures r.None? <==> c !in s
    ensures r.Some? ==> r.value < |s| && s[r.value] == c && c !in s[..r.value]
  {
    if |s| == 0 then None
    else if s[0] == c then Some(0)
    else
      match FindFirst(s[1..], c)
      case None => None
      case Some(i) =>
        assert s[..i + 1] == [s[0]] + s[1..][..i];
        Some(i + 1)
  }

  /** `sep in s` followed by `s.split(sep, 1)`: the text before the first
      separator and everything after it, further separators included. */
  function SplitOnce(s: string, sep: char): (r: Option<(string, string)>)
    ensures r.None? <==> sep !in s
    ensures r.Some? ==> sep !in r.value.0 && s == r.value.0 + [sep] + r.value.1
  {
    match FindFirst(s, sep)
    case None => None
    case Some(i) => Some((s[..i], s[i + 1..]))
  }

  /** The split at the first separator is the only split whose head is free of separators. */
  lemma SplitOnceUnique(head: string, sep: char, tail: string)
    requires sep !in head
    ensures SplitOnce(head + [sep] + tail, sep) == Some((head, tail))
  {
    var s := head + [sep] + tail;
    assert s[|head|] == sep;
    var i := FindFirst(s, sep).value;
    assert forall j :: 0 <= j < |head| ==> s[j] == head[j];
    assert i <= |head| ==> s[i] in head || i == |head|;
    assert i == |head|;
    assert s[..i] == head;
    assert s[i + 1..] == tail;
  }

  /** `sep.join(parts)`: the pieces in order, one separator between neighbours. */
  function Join(parts: seq<string>, sep: char): (r: string)
    ensures |parts| > 0 ==> parts[0] <= r
    ensures |parts| == 0 ==> r == ""
  {
    if |parts| == 0 then ""
    else if |parts| == 1 then parts[0]
    else parts[0] + [sep] + Join(parts[1..], sep)
  }

  /** A join of four pieces spelled out. */
  lemma JoinFour(parts: seq<string>, sep: char)
    requires |parts| == 4
    ensures Join(parts, sep) == parts[0] + [sep] + parts[1] + [sep] + parts[2] + [sep] + parts[3]
  {
    var tail := parts[1..][1..];
    assert tail == [parts[2], parts[3]];
    assert Join(tail[1..], sep) == parts[3];
    var last := Join(tail, sep);
    assert last == parts[2] + [sep] + parts[3];
    var middle := Join(parts[1..], sep);
    assert middle == parts[1] + [sep] + last;
    assert Join(parts, sep) == parts[0] + [sep] + (parts[1] + [sep] + (parts[2] + [sep] + parts[3]));
  }

  /** `s.split(sep)`: the pieces between separators; never an empty list. */
  function Split(s: string, sep: char): (r: seq<string>)
    ensures |r| >= 1
    ensures forall i :: 0 <= i < |r| ==> sep !in r[i]
    decreases |s|
  {
    match SplitOnce(s, sep)
    case None => [s]
    case Some((head, tail)) => [head] + Split(tail, sep)
  }

  /** Joining the pieces of a split restores the text. */
  lemma {:induction false} JoinSplit(s: string, sep: char)
    ensures Join(Split(s, sep), sep) == s
    decreases |s|
  {
    match SplitOnce(s, sep)
    case None =>
    case Some((head, tail)) =>
      JoinSplit(tail, sep);
      var rest := Split(tail, sep);
      assert Split(s, sep) == [head] + rest;
      assert ([head] + rest)[1..] == rest;
  }

  /** Splitting a join of separator-free pieces gives the pieces back. */
  lemma {:induction false} SplitJoin(parts: seq<string>, sep: char)
    requires |parts| >= 1
    requires forall i :: 0 <= i < |parts| ==> sep !in parts[i]
    ensures Split(Join(parts, sep), sep) == parts
  {
    if |parts| == 1 {
      assert SplitOnce(parts[0], sep).None?;
    } else {
      var rest := Join(parts[1..], sep);
      assert Join(parts, sep) == parts[0] + [sep] + rest;
      SplitOnceUnique(parts[0], sep, rest);
      assert Split(Join(parts, sep), sep) == [parts[0]] + Split(rest, sep);
      SplitJoin(parts[1..], sep);
      assert parts == [parts[0]] + parts[1..];
    }
  }

  function UpperAscii(c: char): char
  {
    if 'a' <= c <= 'z' then (c as int - 32) as char else c
  }

  function LowerAscii(c: char): char
  {
    if 'A' <= c <= 'Z' then (c as int + 32) as char else c
  }

  /** `s.capitalize()` on ASCII text: the first character upper-cased, every other one lower-cased. */
  function Capitalize(s: string): (r: string)
    ensures |r| == |s|
    ensures |s| > 0 ==> r[0] == UpperAscii(s[0])
    ensures forall i :: 1 <= i < |s| ==> r[i] == LowerAscii(s[i])
  {
    if |s| == 0 then ""
    else [UpperAscii(s[0])] + seq(|s| - 1, i requires 0 <= i < |s| - 1 => LowerAscii(s[i + 1]))
  }

  /** Non-empty text of lower-case ASCII letters only. */
  predicate LowerWord(s: string)
  {
    |s| > 0 && forall i :: 0 <= i < |s| ==> 'a' <= s[i] <= 'z'
  }

  /** A lower-case ASCII word capitalizes to its first letter upper-cased, the rest
      unchanged, and so consists of ASCII letters only. */
  lemma CapitalizeLowerWord(s: string)
    requires LowerWord(s)
    ensures Capitalize(s) == [UpperAscii(s[0])] + s[1..]
    ensures forall i :: 0 <= i < |s| ==> 'A' <= Capitalize(s)[i] <= 'Z' || 'a' <= Capitalize(s)[i] <= 'z'
  {
    var r := Capitalize(s);
    forall i | 1 <= i < |s|
      ensures r[i] == s[i]
    {
      assert LowerAscii(s[i]) == s[i];
    }
    assert r == [r[0]] + r[1..];
    assert r[1..] == s[1..];
  }
}
