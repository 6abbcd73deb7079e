/** The JavaScript string operations the action layer relies on:
    `String.prototype.indexOf` and `Array.prototype.join` over strings. */
module Strings {

  /** needle occurs in hay starting at position i. */
  ghost predicate OccursAt(hay: string, needle: string, i: int) {
    0 <= i && i + |needle| <= |hay| && hay[i..i + |needle|] == needle
  }

  /** needle occurs somewhere in hay. */
  ghost predicate IsSubstring(needle: string, hay: string) {
    exists i :: OccursAt(hay, needle, i)
  }

  /** `hay.indexOf(needle)`: the first position where needle occurs, or -1. */
  function IndexOf(hay: string, needle: string): (r: int)
    ensures r == -1 <==> !IsSubstring(needle, hay)
    ensures r != -1 ==> OccursAt(hay, needle, r) && forall j :: 0 <= j < r ==> !OccursAt(hay, needle, j)
  {
    IndexFrom(hay, needle, 0)
  }

  /** The search behind IndexOf, from position `from` on. */
  function IndexFrom(hay: string, needle: string, from: nat): (r: int)
    requires from <= |hay|
    ensures r == -1 <==> forall j :: from <= j ==> !OccursAt(hay, needle, j)
    ensures r != -1 ==> from <= r && OccursAt(hay, needle, r) &&
                        forall j :: from <= j < r ==> !OccursAt(hay, needle, j)
    decreases |hay| - from
  {
    if from + |needle| > |hay| then -1
    else if hay[from..from + |needle|] == needle then
      assert OccursAt(hay, needle, from);
      from
    else IndexFrom(hay, needle, from + 1)
  }

  /** A one-character needle occurs exactly when the character does. */
  lemma CharSubstring(c: char, hay: string)
    ensures IsSubstring([c], hay) <==> c in hay
  {
    if c in hay {
      var i :| 0 <= i < |hay| && hay[i] == c;
      assert OccursAt(hay, [c], i);
    }
    if IsSubstring([c], hay) {
      var i :| OccursAt(hay, [c], i);
      assert hay[i] == hay[i..i + 1][0];
    }
  }

  /** A needle holding a character that hay lacks does not occur in hay. */
  lemma AbsentCharNotSubstring(needle: string, hay: string, c: char)
    requires c in needle && c !in hay
    ensures !IsSubstring(needle, hay)
  {
    var k :| 0 <= k < |needle| && needle[k] == c;
    forall i ensures !OccursAt(hay, needle, i) {
      if 0 <= i && i + |needle| <= |hay| {
        assert hay[i..i + |needle|][k] == hay[i + k] != c;
      }
    }
  }

  /** Substrings of substrings are substrings. */
  lemma SubstringTransitive(a: string, b: string, c: string)
    requires IsSubstring(a, b) && IsSubstring(b, c)
    ensures IsSubstring(a, c)
  {
    var i :| OccursAt(b, a, i);
    var j :| OccursAt(c, b, j);
    var inC, inB := c[j + i..j + i + |a|], b[i..i + |a|];
    forall k | 0 <= k < |a| ensures inC[k] == inB[k] {
      assert c[j..j + |b|][i + k] == b[i + k];
    }
    assert inC == inB;
    assert OccursAt(c, a, j + i);
  }

  /** Both halves of a concatenation are substrings of it. */
  lemma ConcatHasParts(x: string, y: string)
    ensures IsSubstring(x, x + y) && IsSubstring(y, x + y)
  {
    assert (x + y)[0..|x|] == x;
    assert OccursAt(x + y, x, 0);
    assert (x + y)[|x|..|x| + |y|] == y;
    assert OccursAt(x + y, y, |x|);
  }

  /** The summed lengths of some strings. */
  function TotalLength(parts: seq<string>): nat {
    if parts == [] then 0 else |parts[0]| + TotalLength(parts[1..])
  }

  /** `parts.join(sep)` for an array of strings. */
  function Join(parts: seq<string>, sep: string): (r: string)
    ensures |parts| == 0 ==> r == ""
    ensures |parts| > 0 ==> |r| == TotalLength(parts) + (|parts| - 1) * |sep|
    ensures |parts| > 0 ==> |parts[0]| <= |r| && r[..|parts[0]|] == parts[0]
  {
    if |parts| == 0 then ""
    else if |parts| == 1 then parts[0]
    else parts[0] + sep + Join(parts[1..], sep)
  }

  /** Joining three elements. */
  lemma JoinThree(parts: seq<string>, sep: string)
    requires |parts| == 3
    ensures Join(parts, sep) == parts[0] + sep + parts[1] + sep + parts[2]
  {
    assert parts[1..][1..] == parts[2..];
    assert Join(parts[2..], sep) == parts[2];
    assert Join(parts[1..], sep) == parts[1] + sep + parts[2];
  }

  /** Every element of a joined array occurs in the joined string. */
  lemma {:induction false} JoinHasPart(parts: seq<string>, sep: string, i: nat)
    requires i < |parts|
    ensures IsSubstring(parts[i], Join(parts, sep))
  {
    if |parts| == 1 {
      assert OccursAt(parts[0], parts[0], 0);
    } else {
      var rest := Join(parts[1..], sep);
      assert Join(parts, sep) == parts[0] + (sep + rest);
      ConcatHasParts(parts[0], sep + rest);
      if i == 0 {
      } else {
        JoinHasPart(parts[1..], sep, i - 1);
        ConcatHasParts(sep, rest);
        SubstringTransitive(parts[i], rest, sep + rest);
        SubstringTransitive(parts[i], sep + rest, Join(parts, sep));
      }
    }
  }

  /** Joining two or more elements puts the separator into the result. */
  lemma JoinHasSeparator(parts: seq<string>, sep: string)
    requires |parts| >= 2
    ensures IsSubstring(sep, Join(parts, sep))
  {
    var rest := Join(parts[1..], sep);
    assert Join(parts, sep) == (parts[0] + sep) + rest;
    ConcatHasParts(parts[0] + sep, rest);
    ConcatHasParts(parts[0], sep);
    SubstringTransitive(sep, parts[0] + sep, Join(parts, sep));
  }

  /** A character found in no element and not in the separator is not in
      the joined string. */
  lemma {:induction false} CharNotInJoin(parts: seq<string>, sep: string, c: char)
    requires forall i :: 0 <= i < |parts| ==> c !in parts[i]
    requires c !in sep
    ensures c !in Join(parts, sep)
  {
    if |parts| >= 2 {
      CharNotInJoin(parts[1..], sep, c);
    }
  }
}
