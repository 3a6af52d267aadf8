/** String operations the components use: toLowerCase (over ASCII),
    String.prototype.includes, Array.prototype.join and, as the inverse of a
    join, String.prototype.split on one character. */
module Text {

  /** toLowerCase on one character, for the ASCII letters. */
  function LowerChar(c: char): char {
    if 'A' <= c <= 'Z' then (c as int + 32) as char else c
  }

  /** `s.toLowerCase()`, character by character. */
  function Lower(s: string): (r: string)
    ensures |r| == |s|
    ensures forall i :: 0 <= i < |s| ==> r[i] == LowerChar(s[i])
  {
    seq(|s|, i requires 0 <= i < |s| => LowerChar(s[i]))
  }

  /** Lower-casing twice changes nothing more than lower-casing once. */
  lemma LowerIdempotent(s: string)
    ensures Lower(Lower(s)) == Lower(s)
  {
  }

  /** Lower-casing works piece by piece. */
  lemma LowerAppend(a: string, b: string)
    ensures Lower(a + b) == Lower(a) + Lower(b)
  {
  }

  /** `hay.includes(needle)`: needle occurs in hay at some position. */
  predicate Includes(hay: string, needle: string)
    decreases |hay|
  {
    (|needle| <= |hay| && hay[..|needle|] == needle)
    || (hay != [] && Includes(hay[1..], needle))
  }

  /** needle occurs in hay starting at index i. */
  predicate OccursAt(hay: string, needle: string, i: int) {
    0 <= i && i + |needle| <= |hay| && hay[i..i + |needle|] == needle
  }

  /** Includes is exactly "occurs at some index". */
  lemma {:induction false} IncludesAt(hay: string, needle: string)
    ensures Includes(hay, needle) <==> exists i :: OccursAt(hay, needle, i)
    decreases |hay|
  {
    if |needle| <= |hay| && hay[..|needle|] == needle {
      assert OccursAt(hay, needle, 0);
    }
    if hay != [] {
      IncludesAt(hay[1..], needle);
      if exists i :: OccursAt(hay, needle, i) {
        var i :| OccursAt(hay, needle, i);
        if i > 0 {
          assert OccursAt(hay[1..], needle, i - 1);
        }
      }
      if Includes(hay[1..], needle) {
        var i :| OccursAt(hay[1..], needle, i);
        assert hay[1..][i..i + |needle|] == hay[i + 1..i + 1 + |needle|];
        assert OccursAt(hay, needle, i + 1);
      }
    }
  }

  /** The empty string occurs in every string. */
  lemma IncludesEmpty(hay: string)
    ensures Includes(hay, "")
  {
  }

  /** Every character of a needle that occurs in hay is a character of hay. */
  lemma IncludesHasChars(hay: string, needle: string)
    ensures Includes(hay, needle) ==> forall k :: 0 <= k < |needle| ==> needle[k] in hay
  {
    IncludesAt(hay, needle);
    if Includes(hay, needle) {
      var i :| OccursAt(hay, needle, i);
      forall k | 0 <= k < |needle|
        ensures needle[k] in hay
      {
        assert hay[i + k] == hay[i..i + |needle|][k];
      }
    }
  }

  /** `parts.join(sep)`: the parts in order with sep between neighbours. */
  function Join(parts: seq<string>, sep: string): string {
    if parts == [] then ""
    else if |parts| == 1 then parts[0]
    else parts[0] + sep + Join(parts[1..], sep)
  }

  /** `s.split(c)`: the maximal pieces of s between occurrences of c. */
  function Split(s: string, c: char): (r: seq<string>)
    ensures |r| >= 1
  {
    if s == [] then [""]
    else
      var rest := Split(s[1..], c);
      if s[0] == c then [""] + rest
      else [[s[0]] + rest[0]] + rest[1..]
  }

  /** Joining the pieces of a split with the same character restores the string. */
  lemma {:induction false} JoinSplit(s: string, c: char)
    ensures Join(Split(s, c), [c]) == s
  {
    if s != [] {
      JoinSplit(s[1..], c);
      var rest := Split(s[1..], c);
      if s[0] != c {
        var r := Split(s, c);
        assert r[0] == [s[0]] + rest[0] && r[1..] == rest[1..];
        if |rest| > 1 {
          assert rest == [rest[0]] + rest[1..];
        }
      }
    }
  }

  /** A string without the separator splits into itself alone. */
  lemma {:induction false} SplitWithout(p: string, c: char)
    requires c !in p
    ensures Split(p, c) == [p]
  {
    if p != [] {
      assert p[0] != c;
      SplitWithout(p[1..], c);
      assert [p[0]] + p[1..] == p;
    }
  }

  /** Splitting p + c + rest, where p lacks c, splits off p first. */
  lemma {:induction false} SplitAfter(p: string, c: char, rest: string)
    requires c !in p
    ensures Split(p + [c] + rest, c) == [p] + Split(rest, c)
  {
    if p == [] {
      assert p + [c] + rest == [c] + rest;
      assert ([c] + rest)[1..] == rest;
    } else {
      SplitAfter(p[1..], c, rest);
      var whole := p + [c] + rest;
      assert whole[0] == p[0] && p[0] != c;
      assert whole[1..] == p[1..] + [c] + rest;
      var r := Split(whole[1..], c);
      assert r == [p[1..]] + Split(rest, c);
      assert [p[0]] + p[1..] == p;
    }
  }

  /** Splitting a join restores the parts, when no part holds the separator. */
  lemma {:induction false} SplitJoin(parts: seq<string>, c: char)
    requires |parts| >= 1
    requires forall i :: 0 <= i < |parts| ==> c !in parts[i]
    ensures Split(Join(parts, [c]), c) == parts
  {
    if |parts| == 1 {
      SplitWithout(parts[0], c);
    } else {
      SplitJoin(parts[1..], c);
      SplitAfter(parts[0], c, Join(parts[1..], [c]));
      assert parts == [parts[0]] + parts[1..];
    }
  }
}
